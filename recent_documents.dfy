/** The recent-documents panel: the history list it shows, kept newest
    first, and the operations that change it. */
module RecentDocuments {
  import opened JsText
  import opened FormSchema
  import opened Storage

  /** How many documents `AddDocument` keeps. */
  const RecentLimit := 20

  ghost predicate SortedByRecency(s: seq<Entry>) {
    forall i, j :: 0 <= i < j < |s| ==> s[i].lastModified >= s[j].lastModified
  }

  // ---------------------------------------------------------------------
  // Sorting by lastModified, newest first (a stable sort)

  /** Puts `e` in front of the first element that is not more recent. */
  function Insert(e: Entry, s: seq<Entry>): (r: seq<Entry>)
    ensures |r| == |s| + 1
    ensures r[0] == e || (s != [] && r[0] == s[0])
    ensures multiset(r) == multiset(s) + multiset{e}
    ensures forall x :: x in r <==> x in s || x == e
  {
    if s == [] || e.lastModified >= s[0].lastModified then [e] + s
    else
      assert s == [s[0]] + s[1..];
      [s[0]] + Insert(e, s[1..])
  }

  lemma {:induction false} InsertSorted(e: Entry, s: seq<Entry>)
    requires SortedByRecency(s)
    ensures SortedByRecency(Insert(e, s))
  {
    if s != [] && e.lastModified < s[0].lastModified {
      var t := Insert(e, s[1..]);
      InsertSorted(e, s[1..]);
      var r := [s[0]] + t;
      forall i, j | 0 <= i < j < |r| ensures r[i].lastModified >= r[j].lastModified {
        if i == 0 {
          assert r[j] in t;
          assert r[j] in s[1..] || r[j] == e;
          if r[j] in s[1..] {
            var k :| 0 <= k < |s[1..]| && s[1..][k] == r[j];
            assert s[k + 1] == r[j];
          }
        } else {
          assert r[i] == t[i - 1] && r[j] == t[j - 1];
        }
      }
    }
  }

  /** The stored list reordered by `lastModified`, newest first. */
  function SortByRecency(s: seq<Entry>): (r: seq<Entry>)
    ensures multiset(r) == multiset(s)
    ensures SortedByRecency(r)
  {
    if s == [] then []
    else
      var rest := SortByRecency(s[1..]);
      InsertSorted(s[0], rest);
      MultisetCons(s);
      Insert(s[0], rest)
  }

  lemma MultisetCons(s: seq<Entry>)
    requires s != []
    ensures multiset(s) == multiset(s[1..]) + multiset{s[0]}
  {
    assert s == [s[0]] + s[1..];
  }

  /** The entries of `s` last modified at time `t`, in order. */
  function AtTime(s: seq<Entry>, t: int): seq<Entry> {
    if s == [] then [] else (if s[0].lastModified == t then [s[0]] else []) + AtTime(s[1..], t)
  }

  lemma {:induction false} InsertAtTime(e: Entry, s: seq<Entry>, t: int)
    requires SortedByRecency(s)
    ensures AtTime(Insert(e, s), t) == (if e.lastModified == t then [e] else []) + AtTime(s, t)
  {
    if s == [] || e.lastModified >= s[0].lastModified {
      assert ([e] + s)[1..] == s;
    } else {
      var r := [s[0]] + Insert(e, s[1..]);
      assert r[0] == s[0] && r[1..] == Insert(e, s[1..]);
      assert AtTime(r, t) == (if s[0].lastModified == t then [s[0]] else []) + AtTime(Insert(e, s[1..]), t);
      assert SortedByRecency(s[1..]) by {
        forall i, j | 0 <= i < j < |s[1..]| ensures s[1..][i].lastModified >= s[1..][j].lastModified {
          assert s[1..][i] == s[i + 1] && s[1..][j] == s[j + 1];
        }
      }
      InsertAtTime(e, s[1..], t);
    }
  }

  /** The sort is stable: entries with equal timestamps keep their stored
      order. */
  lemma {:induction false} SortIsStable(s: seq<Entry>, t: int)
    ensures AtTime(SortByRecency(s), t) == AtTime(s, t)
  {
    if s != [] {
      SortIsStable(s[1..], t);
      InsertAtTime(s[0], SortByRecency(s[1..]), t);
    }
  }

  /** The head of the sorted list is at least as recent as every entry. */
  lemma LatestIsMostRecent(s: seq<Entry>, e: Entry)
    requires e in s
    ensures SortByRecency(s) != [] && SortByRecency(s)[0].lastModified >= e.lastModified
  {
    var r := SortByRecency(s);
    assert e in multiset(r);
    var k :| 0 <= k < |r| && r[k] == e;
  }

  // ---------------------------------------------------------------------
  // Pure list operations

  /** `[e, ...docs].slice(0, 20)` */
  function Prepend(docs: seq<Entry>, e: Entry): seq<Entry> {
    var updated := [e] + docs;
    if |updated| <= RecentLimit then updated else updated[..RecentLimit]
  }

  /** The new document comes first, followed by the first 19 old ones. */
  lemma PrependKeepsNewest(docs: seq<Entry>, e: Entry)
    ensures var r := Prepend(docs, e);
            && |r| == (if |docs| < RecentLimit then |docs| + 1 else RecentLimit)
            && r[0] == e
            && r[1..] == docs[..|r| - 1]
  {
  }

  /** `docs.filter(doc => doc.id !== id)` */
  function WithoutId(docs: seq<Entry>, id: string): seq<Entry> {
    if docs == [] then []
    else (if docs[0].id != id then [docs[0]] else []) + WithoutId(docs[1..], id)
  }

  function CountId(docs: seq<Entry>, id: string): nat {
    if docs == [] then 0 else (if docs[0].id == id then 1 else 0) + CountId(docs[1..], id)
  }

  /** Deleting keeps exactly the entries with another id. */
  lemma {:induction false} WithoutIdMembers(docs: seq<Entry>, id: string)
    ensures forall e :: e in WithoutId(docs, id) <==> e in docs && e.id != id
    ensures |WithoutId(docs, id)| == |docs| - CountId(docs, id)
  {
    if docs != [] {
      WithoutIdMembers(docs[1..], id);
      assert docs == [docs[0]] + docs[1..];
    }
  }

  /** Deleting keeps the order: it distributes over concatenation. */
  lemma {:induction false} WithoutIdAppend(a: seq<Entry>, b: seq<Entry>, id: string)
    ensures WithoutId(a + b, id) == WithoutId(a, id) + WithoutId(b, id)
  {
    if a == [] {
      assert a + b == b;
    } else {
      assert (a + b)[0] == a[0];
      assert (a + b)[1..] == a[1..] + b;
      WithoutIdAppend(a[1..], b, id);
    }
  }

  /** Deleting an id no entry has changes nothing. */
  lemma {:induction false} WithoutAbsentId(docs: seq<Entry>, id: string)
    requires forall i :: 0 <= i < |docs| ==> docs[i].id != id
    ensures WithoutId(docs, id) == docs
  {
    if docs != [] {
      WithoutAbsentId(docs[1..], id);
      assert docs == [docs[0]] + docs[1..];
    }
  }

  /** Every entry of `s` was modified no later than `t`. */
  ghost predicate NoNewerThan(s: seq<Entry>, t: int) {
    forall k :: 0 <= k < |s| ==> s[k].lastModified <= t
  }

  /** A sorted list is its head, no older than the rest, before a sorted rest. */
  lemma SortedSplit(s: seq<Entry>)
    requires s != [] && SortedByRecency(s)
    ensures SortedByRecency(s[1..]) && NoNewerThan(s[1..], s[0].lastModified)
  {
    assert forall k :: 0 <= k < |s[1..]| ==> s[1..][k] == s[k + 1];
  }

  lemma SortedCons(e: Entry, s: seq<Entry>)
    requires SortedByRecency(s) && NoNewerThan(s, e.lastModified)
    ensures SortedByRecency([e] + s)
  {
    assert forall k :: 1 <= k < |[e] + s| ==> ([e] + s)[k] == s[k - 1];
  }

  lemma {:induction false} WithoutIdNoNewer(docs: seq<Entry>, id: string, t: int)
    requires NoNewerThan(docs, t)
    ensures NoNewerThan(WithoutId(docs, id), t)
  {
    if docs != [] {
      assert NoNewerThan(docs[1..], t) by {
        assert forall k :: 0 <= k < |docs[1..]| ==> docs[1..][k] == docs[k + 1];
      }
      WithoutIdNoNewer(docs[1..], id, t);
    }
  }

  /** Deleting keeps the list sorted. */
  lemma {:induction false} WithoutIdKeepsSorted(docs: seq<Entry>, id: string)
    requires SortedByRecency(docs)
    ensures SortedByRecency(WithoutId(docs, id))
  {
    if docs != [] {
      SortedSplit(docs);
      WithoutIdKeepsSorted(docs[1..], id);
      if docs[0].id != id {
        WithoutIdNoNewer(docs[1..], id, docs[0].lastModified);
        SortedCons(docs[0], WithoutId(docs[1..], id));
      }
    }
  }

  /** Adding an entry at least as recent as every listed one keeps the list
      sorted. */
  lemma PrependKeepsSorted(docs: seq<Entry>, e: Entry)
    requires SortedByRecency(docs)
    requires forall i :: 0 <= i < |docs| ==> e.lastModified >= docs[i].lastModified
    ensures SortedByRecency(Prepend(docs, e))
  {
  }

  function Latest(docs: seq<Entry>): Option<Entry> {
    if |docs| > 0 then Some(docs[0]) else None
  }

  /** The title shown for a saved document. Template strings print an
      absent value as "undefined". */
  function DisplayTitle(data: Record): string {
    var title := Lookup(data, DocumentTitle);
    if title == Some(LabReport) && Truthy(Lookup(data, ExperimentName)) then
      LabReport + ": " + Lookup(data, ExperimentName).value
    else if title != Some(LabReport) && Truthy(Lookup(data, AssignmentNo)) then
      Interpolate(title) + " " + Lookup(data, AssignmentNo).value
    else if Truthy(title) then title.value
    else "Untitled Document"
  }

  /** `${v}` */
  function Interpolate(v: Option<string>): string {
    if v.Some? then v.value else "undefined"
  }

  /** The three ways a title is made, and that it is never empty. */
  lemma DisplayTitleCases(data: Record)
    ensures var title := Lookup(data, DocumentTitle);
            var name := Lookup(data, ExperimentName);
            var number := Lookup(data, AssignmentNo);
            && (title == Some(LabReport) && Truthy(name) ==> DisplayTitle(data) == "Lab Report: " + name.value)
            && (title != Some(LabReport) && Truthy(number) ==> DisplayTitle(data) == Interpolate(title) + " " + number.value)
            && (!(title == Some(LabReport) && Truthy(name)) && !(title != Some(LabReport) && Truthy(number)) ==>
                  DisplayTitle(data) == (if Truthy(title) then title.value else "Untitled Document"))
            && DisplayTitle(data) != ""
  {
  }

  // ---------------------------------------------------------------------
  // The panel's state

  /** The list shown after a reload from storage: the stored history,
      sorted, when the slot holds one; otherwise the list as it was (a
      missing slot is skipped, a value that does not parse or is not an
      array fails and is logged). */
  function Reloaded(current: seq<Entry>, slots: map<string, Stored>): seq<Entry> {
    if HistoryKey in slots && slots[HistoryKey].HistoryJson? then SortByRecency(slots[HistoryKey].entries)
    else current
  }

  class RecentList {
    /** The list on screen. */
    var documents: seq<Entry>
    /** Set once the component runs in the browser; storage is touched only then. */
    var mounted: bool
    const store: Store

    constructor (store: Store)
      ensures documents == [] && !mounted && this.store == store
    {
      documents := [];
      mounted := false;
      this.store := store;
    }

    /** Mounting enables storage and reloads the list from it. */
    method Mount()
      modifies this
      ensures mounted
      ensures documents == Reloaded(old(documents), store.slots)
    {
      mounted := true;
      LoadDocuments();
    }

    method LoadDocuments()
      modifies this
      ensures mounted == old(mounted)
      ensures documents == if mounted then Reloaded(old(documents), store.slots) else old(documents)
    {
      if !mounted {
        return;
      }
      if HistoryKey in store.slots {
        match store.slots[HistoryKey]
        case HistoryJson(entries) =>
          documents := SortByRecency(entries);
        case _ =>
      }
    }

    /** Writes `docs` to storage and shows them. */
    method SaveDocuments(docs: seq<Entry>)
      modifies this, store
      ensures mounted == old(mounted)
      ensures mounted ==> store.slots == old(store.slots)[HistoryKey := HistoryJson(docs)] && documents == docs
      ensures !mounted ==> store.slots == old(store.slots) && documents == old(documents)
    {
      if !mounted {
        return;
      }
      store.SetItem(HistoryKey, HistoryJson(docs));
      documents := docs;
    }

    method AddDocument(data: Record, freshId: string, now: int)
      modifies this, store
      ensures mounted == old(mounted)
      ensures var docs := Prepend(old(documents), Entry(freshId, data, now, now));
              mounted ==> store.slots == old(store.slots)[HistoryKey := HistoryJson(docs)] && documents == docs
      ensures !mounted ==> store.slots == old(store.slots) && documents == old(documents)
      ensures SortedByRecency(old(documents))
              && (forall i :: 0 <= i < |old(documents)| ==> now >= old(documents)[i].lastModified)
              ==> SortedByRecency(documents)
    {
      var entry := Entry(freshId, data, now, now);
      if SortedByRecency(documents) && (forall i :: 0 <= i < |documents| ==> now >= documents[i].lastModified) {
        PrependKeepsSorted(documents, entry);
      }
      SaveDocuments(Prepend(documents, entry));
    }

    method DeleteDocument(id: string)
      modifies this, store
      ensures mounted == old(mounted)
      ensures var docs := WithoutId(old(documents), id);
              mounted ==> store.slots == old(store.slots)[HistoryKey := HistoryJson(docs)] && documents == docs
      ensures !mounted ==> store.slots == old(store.slots) && documents == old(documents)
      ensures SortedByRecency(old(documents)) ==> SortedByRecency(documents)
    {
      if SortedByRecency(documents) {
        WithoutIdKeepsSorted(documents, id);
      }
      SaveDocuments(WithoutId(documents, id));
    }

    /** Empties the list and, once mounted, removes the history slot. */
    method ClearHistory()
      modifies this, store
      ensures mounted == old(mounted) && documents == []
      ensures store.slots == if mounted then old(store.slots) - {HistoryKey} else old(store.slots)
    {
      documents := [];
      if mounted {
        store.RemoveItem(HistoryKey);
      }
    }

    function GetLatestDocument(): (r: Option<Entry>)
      reads this
      ensures r.Some? <==> documents != []
      ensures r.Some? ==> r.value == documents[0]
      ensures r.Some? && SortedByRecency(documents) ==>
                forall i :: 0 <= i < |documents| ==> r.value.lastModified >= documents[i].lastModified
    {
      Latest(documents)
    }
  }
}
