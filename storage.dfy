/** The browser's key-value storage as the form and the recent-documents
    list use it, and the shape of one saved document. */
module Storage {
  import opened JsText
  import opened FormSchema

  /** The slot holding the current draft. */
  const DraftKey := "bgc-assignment-data"
  /** The slot holding the document history. */
  const HistoryKey := "bgc-document-history"

  /** One saved document. Timestamps are integers (milliseconds) rather than
      ISO strings; `id` is opaque. */
  datatype Entry = Entry(id: string, data: Record, createdAt: int, lastModified: int)

  /** What a slot holds, already parsed: a draft object, a history array,
      or text that does not parse. */
  datatype Stored = DraftJson(draft: Record) | HistoryJson(entries: seq<Entry>) | Malformed

  /** The storage of one origin; reads and writes are synchronous. */
  class Store {
    var slots: map<string, Stored>

    constructor (initial: map<string, Stored>)
      ensures slots == initial
    {
      slots := initial;
    }

    method SetItem(key: string, value: Stored)
      modifies this
      ensures slots == old(slots)[key := value]
    {
      slots := slots[key := value];
    }

    method RemoveItem(key: string)
      modifies this
      ensures slots == old(slots) - {key}
    {
      slots := slots - {key};
    }
  }
}
