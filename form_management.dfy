/** The form session: the current draft, its default values, saving it to
    the draft slot and to the document history (update-or-insert by
    identity, bounded to 50 entries), loading it back, and the small rules
    for the PDF filename and the clipboard text. */
module FormManagement {
  import opened JsText
  import opened FormSchema
  import opened Storage
  import opened RecentDocuments

  const DefaultProgram := "B.Sc. (Hons.) in CSE"
  const DefaultDocumentType := "Assignment"

  /** How many entries saving keeps in the history slot. */
  const HistoryLimit := 50

  // ---------------------------------------------------------------------
  // Default values and the draft merge

  const DefaultTexts: map<TextField, string> :=
    map[AssignmentNo := "", CourseTitle := "", CourseCode := "", Session := "",
        Program := DefaultProgram, CourseTeacher := "", Designation := "",
        StudentName := "", InternalId := "", Semester := "", Section := "",
        SubmissionDate := "", DocumentTitle := DefaultDocumentType,
        ExperimentName := "", ExperimentNo := "", ExperimentDate := ""]

  /** `defaultValues` as written: it has no `projectTitle`, `isGroupProject`
      or `groupMembers` key. */
  function WrittenDefaultValues(): Record {
    Record(DefaultTexts, None, None)
  }

  /** As written, the defaults lack the two group-project keys the schema
      requires as a boolean and an array, and no input ever sets them: the
      form, whatever text is typed into it, never validates, and the
      conditional rules never run on it. */
  lemma WrittenDefaultsNeverValidate(edits: map<TextField, string>)
    ensures var r := WrittenDefaultValues().(text := WrittenDefaultValues().text + edits);
            && MessagesAt(Issues(r), At(GroupFlagKey)) == [RequiredMessage]
            && MessagesAt(Issues(r), At(GroupMembersKey)) == [RequiredMessage]
            && MessagesAt(Issues(r), At(TextKey(AssignmentNo))) == []
            && !IsValid(r)
  {
    var r := WrittenDefaultValues().(text := WrittenDefaultValues().text + edits);
    MissingGroupKeys(r);
  }

  /** The rules a form without the group-project keys breaks. */
  lemma MissingGroupKeys(r: Record)
    requires r.isGroupProject.None? && r.groupMembers.None?
    ensures MessagesAt(Issues(r), At(GroupFlagKey)) == [RequiredMessage]
    ensures MessagesAt(Issues(r), At(GroupMembersKey)) == [RequiredMessage]
    ensures MessagesAt(Issues(r), At(TextKey(AssignmentNo))) == []
    ensures !IsValid(r)
  {
    IssuesAt(r, At(GroupFlagKey));
    ShapeAt(r, At(GroupFlagKey));
    IssuesAt(r, At(GroupMembersKey));
    ShapeAt(r, At(GroupMembersKey));
    TypeFailureSkipsRules(r);
  }

  /** The default values the rest of the model uses: those written, with the
      group-project keys set to "not a group project" and "no members". */
  function DefaultValues(): Record {
    Record(DefaultTexts, Some(false), Some([]))
  }

  /** Every text field but the project title has a default: the program and
      the document type have fixed ones and all others are "". */
  lemma DefaultValuesShape(f: TextField)
    ensures f in DefaultValues().text <==> f != ProjectTitle
    ensures f in DefaultValues().text ==>
              DefaultValues().text[f]
              == (if f == Program then DefaultProgram else if f == DocumentTitle then DefaultDocumentType else "")
    ensures DefaultValues().isGroupProject == Some(false) && DefaultValues().groupMembers == Some([])
    ensures DefaultValues().text == WrittenDefaultValues().text
  {
  }

  /** With these defaults, filling in the required fields and an assignment
      number makes the fresh form valid. */
  lemma DefaultValuesCanValidate(edits: map<TextField, string>)
    requires forall f :: IsRequired(f) && f != Program && f != DocumentTitle ==> f in edits && edits[f] != ""
    requires Program !in edits && DocumentTitle !in edits
    requires AssignmentNo in edits && !Blank(Some(edits[AssignmentNo]))
    ensures IsValid(DefaultValues().(text := DefaultValues().text + edits))
  {
    var d := DefaultValues();
    forall f | f != ProjectTitle ensures f in d.text {
      DefaultValuesShape(f);
    }
    DefaultValuesShape(Program);
    DefaultValuesShape(DocumentTitle);
    FilledAssignmentIsValid(d, edits);
  }

  /** Filling the required fields and the number into any base that has
      every text key but the project title, a non-empty program, the
      "Assignment" type and no members, gives a valid record. */
  lemma FilledAssignmentIsValid(base: Record, edits: map<TextField, string>)
    requires forall f :: f != ProjectTitle ==> f in base.text
    requires base.text[Program] != "" && base.text[DocumentTitle] == DefaultDocumentType
    requires base.isGroupProject.Some? && base.groupMembers == Some([])
    requires forall f :: IsRequired(f) && f != Program && f != DocumentTitle ==> f in edits && edits[f] != ""
    requires Program !in edits && DocumentTitle !in edits
    requires AssignmentNo in edits && !Blank(Some(edits[AssignmentNo]))
    ensures IsValid(base.(text := base.text + edits))
  {
    var r := base.(text := base.text + edits);
    FilledKeys(base, edits);
    assert Lookup(r, AssignmentNo) == Some(edits[AssignmentNo]);
    CompleteAssignmentIsValid(r);
  }

  lemma FilledKeys(base: Record, edits: map<TextField, string>)
    requires forall f :: f != ProjectTitle ==> f in base.text
    requires base.text[Program] != "" && base.text[DocumentTitle] == DefaultDocumentType
    requires base.isGroupProject.Some? && base.groupMembers.Some?
    requires forall f :: IsRequired(f) && f != Program && f != DocumentTitle ==> f in edits && edits[f] != ""
    requires Program !in edits && DocumentTitle !in edits
    ensures var r := base.(text := base.text + edits);
            && Typed(r) && (forall f :: IsRequired(f) ==> r.text[f] != "")
            && r.text[DocumentTitle] == DefaultDocumentType
  {
    var r := base.(text := base.text + edits);
    forall f | IsRequired(f) ensures f in r.text && r.text[f] != "" {
      if f == Program || f == DocumentTitle {
        assert r.text[f] == base.text[f];
      } else {
        assert r.text[f] == edits[f];
      }
    }
  }

  /** A typed assignment with its required fields, its number and no group
      members is valid. */
  lemma CompleteAssignmentIsValid(r: Record)
    requires Typed(r) && (forall f :: IsRequired(f) ==> r.text[f] != "")
    requires r.text[DocumentTitle] == DefaultDocumentType && !Blank(Lookup(r, AssignmentNo))
    requires r.groupMembers == Some([])
    ensures IsValid(r)
  {
    assert Complete(r);
    ValidIffComplete(r);
  }

  function Override<T>(base: Option<T>, over: Option<T>): Option<T> {
    if over.Some? then over else base
  }

  /** `{ ...base, ...saved }`: key by key, the saved value if it has one. */
  function Merge(base: Record, saved: Record): (r: Record)
    ensures forall f :: Lookup(r, f) == if f in saved.text then Lookup(saved, f) else Lookup(base, f)
    ensures r.isGroupProject == (if saved.isGroupProject.Some? then saved.isGroupProject else base.isGroupProject)
    ensures r.groupMembers == (if saved.groupMembers.Some? then saved.groupMembers else base.groupMembers)
  {
    Record(base.text + saved.text, Override(base.isGroupProject, saved.isGroupProject),
           Override(base.groupMembers, saved.groupMembers))
  }

  /** A draft merged over the defaults has every default key, including
      both group-project keys, and a draft that has every default key comes
      back unchanged. */
  lemma MergedDraftHasDefaults(saved: Record)
    ensures forall f :: f in DefaultValues().text ==> f in Merge(DefaultValues(), saved).text
    ensures Merge(DefaultValues(), saved).isGroupProject.Some? && Merge(DefaultValues(), saved).groupMembers.Some?
    ensures ((forall f :: f in DefaultValues().text ==> f in saved.text)
             && saved.isGroupProject.Some? && saved.groupMembers.Some?)
            ==> Merge(DefaultValues(), saved) == saved
  {
    var m := Merge(DefaultValues(), saved);
    forall f ensures f in DefaultValues().text ==> f in m.text {
      assert Lookup(m, f) == if f in saved.text then Lookup(saved, f) else Lookup(DefaultValues(), f);
    }
    if (forall f :: f in DefaultValues().text ==> f in saved.text) && saved.isGroupProject.Some? && saved.groupMembers.Some? {
      forall f ensures (f in m.text <==> f in saved.text) && (f in m.text ==> m.text[f] == saved.text[f]) {
        assert Lookup(m, f) == if f in saved.text then Lookup(saved, f) else Lookup(DefaultValues(), f);
      }
      assert m.text == saved.text;
    }
  }

  /** The result of reading the draft slot. */
  datatype DraftRead = NoDraft | Draft(merged: Record) | DraftUnreadable

  /** Reading the draft slot and merging it over `defaults`. An array
      stored there spreads only index keys, none of them a form field, so
      only the defaults remain. */
  function ReadDraft(slots: map<string, Stored>, defaults: Record): DraftRead {
    if DraftKey !in slots then NoDraft
    else match slots[DraftKey]
      case DraftJson(d) => Draft(Merge(defaults, d))
      case HistoryJson(_) => Draft(defaults)
      case Malformed => DraftUnreadable
  }

  /** Under the defaults as written, a restored draft that lacks the two
      group-project keys (as every form built on those defaults does) still
      lacks them, so it never validates. */
  lemma WrittenDraftNeverValidates(slots: map<string, Stored>)
    requires DraftKey in slots && slots[DraftKey].DraftJson?
    requires slots[DraftKey].draft.isGroupProject.None? && slots[DraftKey].draft.groupMembers.None?
    ensures ReadDraft(slots, WrittenDefaultValues()).Draft?
    ensures !IsValid(ReadDraft(slots, WrittenDefaultValues()).merged)
  {
    MissingGroupKeys(ReadDraft(slots, WrittenDefaultValues()).merged);
  }

  // ---------------------------------------------------------------------
  // Identity and update-or-insert

  /** The `findIndex` test: stored `doc` is the same document as `data`. */
  predicate SameDocument(doc: Record, data: Record) {
    && Lookup(doc, StudentName) == Lookup(data, StudentName)
    && Lookup(doc, InternalId) == Lookup(data, InternalId)
    && Lookup(doc, CourseCode) == Lookup(data, CourseCode)
    && Lookup(doc, DocumentTitle) == Lookup(data, DocumentTitle)
    && ((Lookup(data, DocumentTitle) == Some(LabReport) && Lookup(doc, ExperimentName) == Lookup(data, ExperimentName))
        || (Lookup(data, DocumentTitle) != Some(LabReport) && Lookup(doc, AssignmentNo) == Lookup(data, AssignmentNo)))
  }

  /** The identity of a document as an explicit tuple: student name,
      internal id, course code, document type, and the experiment name for a
      lab report or the assignment number otherwise. */
  datatype Identity = Identity(
    studentName: Option<string>, internalId: Option<string>, courseCode: Option<string>,
    documentType: Option<string>, discriminator: Option<string>)

  function IdentityOf(r: Record): Identity {
    Identity(Lookup(r, StudentName), Lookup(r, InternalId), Lookup(r, CourseCode), Lookup(r, DocumentTitle),
             if Lookup(r, DocumentTitle) == Some(LabReport) then Lookup(r, ExperimentName) else Lookup(r, AssignmentNo))
  }

  /** The field-by-field test is equality of identities; hence it is an
      equivalence. */
  lemma SameDocumentIffSameIdentity(doc: Record, data: Record)
    ensures SameDocument(doc, data) <==> IdentityOf(doc) == IdentityOf(data)
  {
  }

  /** Two records that differ only in the experiment name (lab reports) or
      in the assignment number (other types) are different documents. */
  lemma DiscriminatorSeparates(a: Record, b: Record)
    requires Lookup(a, DocumentTitle) == Lookup(b, DocumentTitle)
    requires Lookup(a, DocumentTitle) == Some(LabReport) ==> Lookup(a, ExperimentName) != Lookup(b, ExperimentName)
    requires Lookup(a, DocumentTitle) != Some(LabReport) ==> Lookup(a, AssignmentNo) != Lookup(b, AssignmentNo)
    ensures !SameDocument(a, b) && !SameDocument(b, a)
  {
  }

  /** `history.findIndex(…)`: the first entry for the same document, or -1. */
  function FindMatch(history: seq<Entry>, data: Record): (i: int)
    ensures -1 <= i < |history|
    ensures i == -1 <==> forall k :: 0 <= k < |history| ==> !SameDocument(history[k].data, data)
    ensures i >= 0 ==> SameDocument(history[i].data, data)
    ensures i >= 0 ==> forall k :: 0 <= k < i ==> !SameDocument(history[k].data, data)
  {
    if history == [] then -1
    else if SameDocument(history[0].data, data) then 0
    else
      var j := FindMatch(history[1..], data);
      if j == -1 then -1 else j + 1
  }

  /** `if (s.length > n) s.splice(n)` */
  function Truncate(s: seq<Entry>, n: nat): (r: seq<Entry>)
    ensures |r| == if |s| > n then n else |s|
    ensures r == s[..|r|]
  {
    if |s| > n then s[..n] else s
  }

  /** The history after saving `data` at time `now`: the first entry for the
      same document gets the new data and time, or else a new entry goes to
      the front; then only the first 50 are kept. */
  function Upsert(history: seq<Entry>, data: Record, freshId: string, now: int): seq<Entry> {
    var i := FindMatch(history, data);
    var updated :=
      if i >= 0 then history[i := history[i].(data := data, lastModified := now)]
      else [Entry(freshId, data, now, now)] + history;
    Truncate(updated, HistoryLimit)
  }

  /** Updating in place: same position, same id and creation time, new data
      and modification time; every other entry untouched; no growth. */
  lemma UpsertUpdatesMatch(history: seq<Entry>, data: Record, freshId: string, now: int)
    requires FindMatch(history, data) >= 0
    ensures var r := Upsert(history, data, freshId, now);
            var i := FindMatch(history, data);
            && |r| == (if |history| > HistoryLimit then HistoryLimit else |history|)
            && (i < |r| ==> r[i] == Entry(history[i].id, data, history[i].createdAt, now))
            && (forall k :: 0 <= k < |r| && k != i ==> r[k] == history[k])
  {
  }

  /** Inserting: the new entry is first, created and modified now, and the
      old entries follow in their order, up to the bound. */
  lemma UpsertInsertsNew(history: seq<Entry>, data: Record, freshId: string, now: int)
    requires FindMatch(history, data) == -1
    ensures var r := Upsert(history, data, freshId, now);
            && |r| == (if |history| + 1 > HistoryLimit then HistoryLimit else |history| + 1)
            && r[0] == Entry(freshId, data, now, now)
            && (forall k :: 0 <= k < |r| - 1 ==> r[k + 1] == history[k])
  {
  }

  /** The number of entries for the same document as `data`. */
  function CountSame(history: seq<Entry>, data: Record): nat {
    if history == [] then 0
    else (if SameDocument(history[0].data, data) then 1 else 0) + CountSame(history[1..], data)
  }

  lemma {:induction false} CountSameZero(history: seq<Entry>, data: Record)
    ensures CountSame(history, data) == 0 <==> forall k :: 0 <= k < |history| ==> !SameDocument(history[k].data, data)
  {
    if history != [] {
      CountSameZero(history[1..], data);
      assert forall k :: 1 <= k < |history| ==> history[k] == history[1..][k - 1];
    }
  }

  lemma {:induction false} CountSameUpdate(history: seq<Entry>, i: nat, e: Entry, data: Record)
    requires i < |history|
    requires SameDocument(history[i].data, data) <==> SameDocument(e.data, data)
    ensures CountSame(history[i := e], data) == CountSame(history, data)
  {
    if i > 0 {
      assert history[i := e][1..] == history[1..][i - 1 := e];
      CountSameUpdate(history[1..], i - 1, e, data);
    }
  }

  /** A history with at most one entry for a document, saved again with that
      document, has exactly one entry for it. */
  lemma UpsertKeepsOne(history: seq<Entry>, data: Record, freshId: string, now: int)
    requires |history| <= HistoryLimit && CountSame(history, data) <= 1
    ensures CountSame(Upsert(history, data, freshId, now), data) == 1
  {
    var i := FindMatch(history, data);
    CountSameZero(history, data);
    if i >= 0 {
      CountSameUpdate(history, i, history[i].(data := data, lastModified := now), data);
    } else {
      var r := Upsert(history, data, freshId, now);
      UpsertInsertsNew(history, data, freshId, now);
      assert r == [r[0]] + r[1..];
      assert forall k :: 0 <= k < |r[1..]| ==> r[1..][k] == history[k];
      CountSameZero(r[1..], data);
    }
  }

  /** Entries for documents with the same identity are counted alike. */
  lemma {:induction false} SameIdentityCounts(history: seq<Entry>, a: Record, b: Record)
    requires IdentityOf(a) == IdentityOf(b)
    ensures CountSame(history, a) == CountSame(history, b)
  {
    if history != [] {
      SameDocumentIffSameIdentity(history[0].data, a);
      SameDocumentIffSameIdentity(history[0].data, b);
      SameIdentityCounts(history[1..], a, b);
    }
  }

  /** Keeping a prefix never adds entries for a document. */
  lemma {:induction false} CountSamePrefix(history: seq<Entry>, n: nat, data: Record)
    requires n <= |history|
    ensures CountSame(history[..n], data) <= CountSame(history, data)
  {
    if n > 0 {
      assert history[..n][1..] == history[1..][..n - 1];
      CountSamePrefix(history[1..], n - 1, data);
    }
  }

  /** Saving one document never adds an entry for another. */
  lemma UpsertOtherCount(history: seq<Entry>, data: Record, freshId: string, now: int, d: Record)
    requires IdentityOf(d) != IdentityOf(data)
    ensures CountSame(Upsert(history, data, freshId, now), d) <= CountSame(history, d)
  {
    var i := FindMatch(history, data);
    SameDocumentIffSameIdentity(data, d);
    var updated :=
      if i >= 0 then history[i := history[i].(data := data, lastModified := now)]
      else [Entry(freshId, data, now, now)] + history;
    if i >= 0 {
      SameDocumentIffSameIdentity(history[i].data, data);
      SameDocumentIffSameIdentity(history[i].data, d);
      CountSameUpdate(history, i, history[i].(data := data, lastModified := now), d);
    } else {
      assert updated[1..] == history;
    }
    CountSamePrefix(updated, |Upsert(history, data, freshId, now)|, d);
  }

  /** Saving a document leaves at most one entry for it, whatever the
      length of the history. */
  lemma UpsertSavedAtMostOne(history: seq<Entry>, data: Record, freshId: string, now: int)
    requires CountSame(history, data) <= 1
    ensures CountSame(Upsert(history, data, freshId, now), data) <= 1
  {
    var i := FindMatch(history, data);
    CountSameZero(history, data);
    var updated :=
      if i >= 0 then history[i := history[i].(data := data, lastModified := now)]
      else [Entry(freshId, data, now, now)] + history;
    if i >= 0 {
      CountSameUpdate(history, i, history[i].(data := data, lastModified := now), data);
    } else {
      assert updated[1..] == history;
    }
    CountSamePrefix(updated, |Upsert(history, data, freshId, now)|, data);
  }

  /** The history invariant: at most one entry per document. */
  ghost predicate OnePerDocument(history: seq<Entry>) {
    forall d: Record :: CountSame(history, d) <= 1
  }

  /** Every save keeps the history at most one entry per document. */
  lemma UpsertKeepsOnePerDocument(history: seq<Entry>, data: Record, freshId: string, now: int)
    requires OnePerDocument(history)
    ensures OnePerDocument(Upsert(history, data, freshId, now))
  {
    var r := Upsert(history, data, freshId, now);
    forall d: Record ensures CountSame(r, d) <= 1 {
      if IdentityOf(d) == IdentityOf(data) {
        SameIdentityCounts(r, d, data);
        UpsertSavedAtMostOne(history, data, freshId, now);
      } else {
        UpsertOtherCount(history, data, freshId, now, d);
      }
    }
  }

  /** Saving the same document twice: one entry, first created and then
      updated in place without growing the history. */
  lemma SaveTwiceKeepsOne(history: seq<Entry>, data: Record, id1: string, t1: int, id2: string, t2: int)
    requires |history| <= HistoryLimit && CountSame(history, data) <= 1
    ensures var once := Upsert(history, data, id1, t1);
            var twice := Upsert(once, data, id2, t2);
            && CountSame(twice, data) == 1
            && |twice| == |once|
            && FindMatch(once, data) >= 0
            && twice[FindMatch(once, data)]
               == once[FindMatch(once, data)].(data := data, lastModified := t2)
  {
    var once := Upsert(history, data, id1, t1);
    UpsertKeepsOne(history, data, id1, t1);
    CountSameZero(once, data);
    UpsertKeepsOne(once, data, id2, t2);
    UpsertUpdatesMatch(once, data, id2, t2);
  }

  /** A stored history longer than 50 whose first entry for the document
      sits at position 50 or later loses that document on saving it: the
      entry is updated in place, then cut off. */
  lemma SavedDocumentCanBeEvicted(history: seq<Entry>, data: Record, freshId: string, now: int)
    requires |history| > HistoryLimit && FindMatch(history, data) >= HistoryLimit
    ensures FindMatch(Upsert(history, data, freshId, now), data) == -1
  {
    UpsertUpdatesMatch(history, data, freshId, now);
  }

  /** Saving two different documents into a history that has neither puts
      both at the front, the later one first. */
  lemma DistinctDocumentsKeepBoth(history: seq<Entry>, a: Record, ida: string, ta: int,
                                  b: Record, idb: string, tb: int)
    requires !SameDocument(a, b)
    requires FindMatch(history, a) == -1 && FindMatch(history, b) == -1
    ensures var r := Upsert(Upsert(history, a, ida, ta), b, idb, tb);
            |r| >= 2 && r[0] == Entry(idb, b, tb, tb) && r[1] == Entry(ida, a, ta, ta)
  {
    var once := Upsert(history, a, ida, ta);
    UpsertInsertsNew(history, a, ida, ta);
    assert FindMatch(once, b) == -1 by {
      forall k | 0 <= k < |once| ensures !SameDocument(once[k].data, b) {
        if k > 0 {
          assert once[k] == history[k - 1];
        }
      }
    }
    UpsertInsertsNew(once, b, idb, tb);
  }

  /** Reading the history slot for saving: a missing slot is an empty
      history; a value that is not an array makes the save fail. */
  function HistoryForSave(slots: map<string, Stored>): Option<seq<Entry>> {
    if HistoryKey !in slots then Some([])
    else match slots[HistoryKey]
      case HistoryJson(entries) => Some(entries)
      case _ => None
  }

  /** The storage after saving `data` to the history. */
  function SavedToHistory(slots: map<string, Stored>, data: Record, freshId: string, now: int): map<string, Stored> {
    match HistoryForSave(slots)
    case Some(history) => slots[HistoryKey := HistoryJson(Upsert(history, data, freshId, now))]
    case None => slots
  }

  /** After any save the history slot, if readable, holds at most 50
      entries; when the old history held at most 50, one of them is for the
      saved document. The draft slot is untouched. */
  lemma SavedToHistoryBounded(slots: map<string, Stored>, data: Record, freshId: string, now: int)
    ensures var after := SavedToHistory(slots, data, freshId, now);
            && (DraftKey in after <==> DraftKey in slots)
            && (DraftKey in slots ==> after[DraftKey] == slots[DraftKey])
            && (HistoryForSave(slots).Some? ==>
                  && after[HistoryKey].HistoryJson?
                  && |after[HistoryKey].entries| <= HistoryLimit
                  && (|HistoryForSave(slots).value| <= HistoryLimit ==> FindMatch(after[HistoryKey].entries, data) >= 0))
  {
    match HistoryForSave(slots)
    case Some(history) =>
      var i := FindMatch(history, data);
      if i >= 0 {
        UpsertUpdatesMatch(history, data, freshId, now);
      } else {
        UpsertInsertsNew(history, data, freshId, now);
      }
    case None =>
  }

  /** The stored history, when readable, keeps at most one entry per
      document across saves; a missing slot starts an empty history. */
  lemma SavedKeepsOnePerDocument(slots: map<string, Stored>, data: Record, freshId: string, now: int)
    requires HistoryForSave(slots).Some? ==> OnePerDocument(HistoryForSave(slots).value)
    ensures var after := SavedToHistory(slots, data, freshId, now);
            HistoryForSave(after).Some? ==> OnePerDocument(HistoryForSave(after).value)
  {
    match HistoryForSave(slots)
    case Some(history) =>
      UpsertKeepsOnePerDocument(history, data, freshId, now);
    case None =>
  }

  // ---------------------------------------------------------------------
  // PDF filename

  /** `s.replace(/\s+/g, "_")`: each run of white space becomes one "_". */
  function ReplaceWhitespaceRuns(s: string): (r: string)
    decreases |s|
  {
    if s == [] then []
    else if IsWhitespace(s[0]) then
      assert TrimStart(s) == TrimStart(s[1..]);
      "_" + ReplaceWhitespaceRuns(TrimStart(s))
    else [s[0]] + ReplaceWhitespaceRuns(s[1..])
  }

  lemma {:induction false} ReplacedHasNoWhitespace(s: string)
    ensures NoWhitespace(ReplaceWhitespaceRuns(s))
    decreases |s|
  {
    if s != [] {
      if IsWhitespace(s[0]) {
        var rest := TrimStart(s);
        assert rest == TrimStart(s[1..]);
        assert ReplaceWhitespaceRuns(s) == "_" + ReplaceWhitespaceRuns(rest);
        ReplacedHasNoWhitespace(rest);
        NoWhitespaceConcat("_", ReplaceWhitespaceRuns(rest));
      } else {
        assert ReplaceWhitespaceRuns(s) == [s[0]] + ReplaceWhitespaceRuns(s[1..]);
        ReplacedHasNoWhitespace(s[1..]);
        NoWhitespaceConcat([s[0]], ReplaceWhitespaceRuns(s[1..]));
      }
    }
  }

  lemma NoWhitespaceConcat(a: string, b: string)
    requires NoWhitespace(a) && NoWhitespace(b)
    ensures NoWhitespace(a + b)
  {
    forall i | 0 <= i < |a + b| ensures !IsWhitespace((a + b)[i]) {
      if i >= |a| {
        assert (a + b)[i] == b[i - |a|];
      }
    }
  }

  lemma {:induction false} ReplaceKeepsPlain(s: string)
    requires NoWhitespace(s)
    ensures ReplaceWhitespaceRuns(s) == s
  {
    if s != [] {
      ReplaceKeepsPlain(s[1..]);
      assert [s[0]] + s[1..] == s;
    }
  }

  /** A name made only of white space becomes a single "_". */
  lemma ReplaceBlankRun(s: string)
    requires s != "" && AllWhitespace(s)
    ensures ReplaceWhitespaceRuns(s) == "_"
  {
    assert TrimStart(s) == [] by {
      assert AllWhitespace(s[|s| - |TrimStart(s)|..]);
    }
  }

  /** A name with white space in it keeps an "_" after replacement. */
  lemma {:induction false} ReplacedKeepsMark(s: string)
    requires !NoWhitespace(s)
    ensures '_' in ReplaceWhitespaceRuns(s)
    decreases |s|
  {
    if !IsWhitespace(s[0]) {
      var k :| 0 <= k < |s| && IsWhitespace(s[k]);
      assert s[1..][k - 1] == s[k];
      ReplacedKeepsMark(s[1..]);
    }
  }

  /** The student part of the filename: the name with its white-space runs
      replaced, or "Student" when that is empty. */
  function FilenameStem(name: string): string {
    var replaced := ReplaceWhitespaceRuns(name);
    if replaced != "" then replaced else "Student"
  }

  /** The student part has no white space; it is "Student" exactly when the
      name is "" or "Student"; a name without white space is kept as it is,
      and one made only of white space becomes "_". */
  lemma FilenameStemRule(name: string)
    ensures NoWhitespace(FilenameStem(name))
    ensures FilenameStem(name) == "Student" <==> name == "" || name == "Student"
    ensures NoWhitespace(name) && name != "" ==> FilenameStem(name) == name
    ensures name != "" && AllWhitespace(name) ==> FilenameStem(name) == "_"
  {
    ReplacedHasNoWhitespace(name);
    assert NoWhitespace("Student");
    if NoWhitespace(name) {
      ReplaceKeepsPlain(name);
    } else {
      ReplacedKeepsMark(name);
      assert '_' !in "Student";
      assert name != "";
      assert ReplaceWhitespaceRuns(name) != "";
    }
    if name != "" && AllWhitespace(name) {
      ReplaceBlankRun(name);
    }
  }

  /** The export filename, or `None` when there is no student name at all
      (calling `replace` on it fails and the export reports failure). */
  function PdfFilename(r: Record): (name: Option<string>)
    ensures name.Some? <==> StudentName in r.text
  {
    if StudentName !in r.text then None
    else
      var id := if Truthy(Lookup(r, InternalId)) then r.text[InternalId] else "ID";
      Some(FilenameStem(r.text[StudentName]) + "_" + id + ".pdf")
  }

  /** The filename is a non-empty student part without white space, "_",
      a non-empty id part and ".pdf"; the id part is "ID" exactly when the
      internal id is missing or "" (or is itself "ID"). */
  lemma PdfFilenameRule(r: Record)
    requires StudentName in r.text
    ensures exists stem, id ::
              && PdfFilename(r) == Some(stem + "_" + id + ".pdf")
              && stem != "" && NoWhitespace(stem)
              && id != ""
              && (id == "ID" <==> !Truthy(Lookup(r, InternalId)) || r.text[InternalId] == "ID")
              && (Truthy(Lookup(r, InternalId)) ==> id == r.text[InternalId])
  {
    var stem := FilenameStem(r.text[StudentName]);
    FilenameStemRule(r.text[StudentName]);
    var id := if Truthy(Lookup(r, InternalId)) then r.text[InternalId] else "ID";
    assert PdfFilename(r) == Some(stem + "_" + id + ".pdf");
  }

  // ---------------------------------------------------------------------
  // Clipboard text

  /** The order of the form values' keys: those of `defaultValues` first,
      then the keys it lacks. */
  const CopyOrder: seq<TextField> :=
    [AssignmentNo, CourseTitle, CourseCode, Session, Program, CourseTeacher, Designation,
     StudentName, InternalId, Semester, Section, SubmissionDate, DocumentTitle,
     ExperimentName, ExperimentNo, ExperimentDate, ProjectTitle]

  /** A text value is copied when it is present and does not trim to "". */
  predicate Shown(r: Record, f: TextField) {
    f in r.text && r.text[f] != "" && Trim(r.text[f]) != ""
  }

  function TextLines(r: Record, fs: seq<TextField>): seq<string> {
    if fs == [] then []
    else (if Shown(r, fs[0]) then [KeyOf(fs[0]) + ": " + r.text[fs[0]]] else []) + TextLines(r, fs[1..])
  }

  /** `String(array)` of an array of plain objects. */
  function ObjectsToString(n: nat): string {
    if n == 0 then "" else if n == 1 then "[object Object]" else "[object Object]," + ObjectsToString(n - 1)
  }

  /** The lines of the non-text values: `false` is skipped, `true` prints as
      "true"; an empty member array prints as "" and is skipped. */
  function OtherLines(r: Record): seq<string> {
    (if r.isGroupProject == Some(true) then ["isGroupProject: true"] else [])
    + (if r.groupMembers.Some? && r.groupMembers.value != []
       then ["groupMembers: " + ObjectsToString(|r.groupMembers.value|)] else [])
  }

  function CopyLines(r: Record): seq<string> {
    TextLines(r, CopyOrder) + OtherLines(r)
  }

  /** The text put on the clipboard. */
  function CopyText(r: Record): string {
    Join(CopyLines(r), "\n")
  }

  /** Every text line is "key: value" of a shown field, and every shown field
      has its line. */
  lemma {:induction false} TextLinesExact(r: Record, fs: seq<TextField>)
    ensures forall line :: line in TextLines(r, fs) ==>
              exists f :: f in fs && Shown(r, f) && line == KeyOf(f) + ": " + r.text[f]
    ensures forall f :: f in fs && Shown(r, f) ==> KeyOf(f) + ": " + r.text[f] in TextLines(r, fs)
  {
    if fs != [] {
      TextLinesExact(r, fs[1..]);
      assert forall f :: f in fs <==> f == fs[0] || f in fs[1..];
    }
  }

  lemma {:induction false} TextLinesNonEmpty(r: Record, fs: seq<TextField>)
    ensures forall i :: 0 <= i < |TextLines(r, fs)| ==> TextLines(r, fs)[i] != ""
  {
    if fs != [] {
      TextLinesNonEmpty(r, fs[1..]);
    }
  }

  /** A shown text field's value reaches the clipboard as its own line, and a
      blank one never does. */
  lemma CopyTextLines(r: Record, f: TextField)
    ensures Shown(r, f) ==> KeyOf(f) + ": " + r.text[f] in CopyLines(r)
    ensures forall line :: line in TextLines(r, CopyOrder) ==>
              exists g :: Shown(r, g) && line == KeyOf(g) + ": " + r.text[g]
  {
    TextLinesExact(r, CopyOrder);
    assert f in CopyOrder;
  }

  /** The clipboard text is empty exactly when nothing is shown. */
  lemma CopyTextEmptyIff(r: Record)
    ensures CopyText(r) == "" <==> CopyLines(r) == []
  {
    JoinEmptyIff(CopyLines(r), "\n");
    TextLinesNonEmpty(r, CopyOrder);
  }

  /** When no value holds a line break, splitting the clipboard text at line
      breaks gives back the copied lines. */
  lemma CopyTextSplits(r: Record)
    requires CopyLines(r) != []
    requires forall i :: 0 <= i < |CopyLines(r)| ==> '\n' !in CopyLines(r)[i]
    ensures Split(CopyText(r), '\n') == CopyLines(r)
  {
    SplitJoin(CopyLines(r), '\n');
  }

  // ---------------------------------------------------------------------
  // The session

  datatype LoadOutcome = NotMounted | LatestLoaded | DraftLoaded | NothingSaved | LoadFailed

  /** `new Date(value)` for a present, non-empty date string; `None` when
      there is none or it is not a valid date. */
  function ParsedDate(value: Option<string>, parse: string -> Option<int>): Option<int> {
    if Truthy(value) then parse(value.value) else None
  }

  /** The picker after loading: the parsed date if there is one, else as it was. */
  function PickedDate(current: Option<int>, parsed: Option<int>): Option<int> {
    if parsed.Some? then parsed else current
  }

  /** Setting a date picker makes its effect write the formatted date into
      field `f`. */
  function WithPickedDate(r: Record, f: TextField, parsed: Option<int>, format: int -> string): Record {
    if parsed.Some? then r.(text := r.text[f := format(parsed.value)]) else r
  }

  /** The form after loading `data`: the data, with each date field whose
      text parses rewritten in the display format. */
  function LoadedForm(data: Record, parse: string -> Option<int>, format: int -> string): Record {
    var submission := ParsedDate(Lookup(data, SubmissionDate), parse);
    var experiment := ParsedDate(Lookup(data, ExperimentDate), parse);
    WithPickedDate(WithPickedDate(data, SubmissionDate, submission, format), ExperimentDate, experiment, format)
  }

  /** Loading keeps every value of the document except the two date texts,
      and those only change when they parse, to their formatted date. */
  lemma LoadedFormKeepsData(data: Record, parse: string -> Option<int>, format: int -> string, f: TextField)
    ensures var r := LoadedForm(data, parse, format);
            && r.isGroupProject == data.isGroupProject && r.groupMembers == data.groupMembers
            && (f != SubmissionDate && f != ExperimentDate ==> Lookup(r, f) == Lookup(data, f))
            && (f == SubmissionDate || f == ExperimentDate ==>
                  Lookup(r, f) == match ParsedDate(Lookup(data, f), parse)
                                  case Some(d) => Some(format(d))
                                  case None => Lookup(data, f))
  {
  }

  class FormSession {
    /** The form's current values. */
    var form: Record
    /** The submission-date picker. */
    var datePick: Option<int>
    /** The experiment-date picker. */
    var experimentDatePick: Option<int>
    var showForm: bool
    /** Set once the page runs in the browser; storage is touched only then. */
    var mounted: bool
    const store: Store
    /** The default values the form is created with, merged under a draft
      and reset to: `WrittenDefaultValues()` for the program as written,
      `DefaultValues()` for the corrected one. */
    const defaults: Record

    constructor (store: Store, defaults: Record)
      ensures form == defaults && datePick == None && experimentDatePick == None
      ensures !showForm && !mounted && this.store == store && this.defaults == defaults
    {
      form := defaults;
      datePick := None;
      experimentDatePick := None;
      showForm := false;
      mounted := false;
      this.store := store;
      this.defaults := defaults;
    }

    /** Mounting enables storage and restores a saved draft over the
      defaults, if one can be read. */
    method Mount()
      modifies this
      ensures mounted
      ensures form == if ReadDraft(store.slots, defaults).Draft? then ReadDraft(store.slots, defaults).merged else old(form)
      ensures datePick == old(datePick) && experimentDatePick == old(experimentDatePick) && showForm == old(showForm)
    {
      mounted := true;
      var read := ReadDraft(store.slots, defaults);
      if read.Draft? {
        form := read.merged;
      }
    }

    /** Picking a submission date also writes its formatted text into the
      form. Clicking the selected day again clears the picker (`None`) and
      leaves the text as it was. */
    method SetDate(d: Option<int>, format: int -> string)
      modifies this
      ensures datePick == d
      ensures form == if d.Some? then old(form).(text := old(form).text[SubmissionDate := format(d.value)]) else old(form)
      ensures experimentDatePick == old(experimentDatePick) && showForm == old(showForm) && mounted == old(mounted)
    {
      datePick := d;
      if d.Some? {
        form := form.(text := form.text[SubmissionDate := format(d.value)]);
      }
    }

    /** Picking an experiment date also writes its formatted text into the
      form; clearing the picker leaves the text as it was. */
    method SetExperimentDate(d: Option<int>, format: int -> string)
      modifies this
      ensures experimentDatePick == d
      ensures form == if d.Some? then old(form).(text := old(form).text[ExperimentDate := format(d.value)]) else old(form)
      ensures datePick == old(datePick) && showForm == old(showForm) && mounted == old(mounted)
    {
      experimentDatePick := d;
      if d.Some? {
        form := form.(text := form.text[ExperimentDate := format(d.value)]);
      }
    }

    /** Update-or-insert `data` into the stored history. A history slot that
      cannot be read as an array leaves storage as it was. */
    method SaveToDocumentHistory(data: Record, freshId: string, now: int)
      modifies store
      ensures store.slots == if mounted then SavedToHistory(old(store.slots), data, freshId, now) else old(store.slots)
    {
      if !mounted {
        return;
      }
      var history: seq<Entry>;
      if HistoryKey !in store.slots {
        history := [];
      } else if store.slots[HistoryKey].HistoryJson? {
        history := store.slots[HistoryKey].entries;
      } else {
        return;
      }
      var existingIndex := FindMatch(history, data);
      if existingIndex != -1 {
        history := history[existingIndex := history[existingIndex].(data := data, lastModified := now)];
      } else {
        history := [Entry(freshId, data, now, now)] + history;
      }
      if |history| > HistoryLimit {
        history := history[..HistoryLimit];
      }
      store.SetItem(HistoryKey, HistoryJson(history));
    }

    /** Installs `data` as the form, shows it, and sets the date pickers
      from its date strings when those parse (which rewrites those strings
      in the display format). */
    method LoadDocumentFromHistory(data: Record, parse: string -> Option<int>, format: int -> string)
      modifies this
      ensures form == LoadedForm(data, parse, format) && showForm && mounted == old(mounted)
      ensures datePick == PickedDate(old(datePick), ParsedDate(Lookup(data, SubmissionDate), parse))
      ensures experimentDatePick == PickedDate(old(experimentDatePick), ParsedDate(Lookup(data, ExperimentDate), parse))
    {
      form := data;
      showForm := true;
      var submission := Lookup(data, SubmissionDate);
      if submission.Some? && submission.value != "" {
        var parsed := parse(submission.value);
        if parsed.Some? {
          SetDate(Some(parsed.value), format);
        }
      }
      var experiment := Lookup(data, ExperimentDate);
      if experiment.Some? && experiment.value != "" {
        var parsed := parse(experiment.value);
        if parsed.Some? {
          SetExperimentDate(Some(parsed.value), format);
        }
      }
    }

    function IsFormValid(): bool
      reads this
    {
      IsValid(form)
    }

    /** Printing is offered exactly when mounted and the form is complete. */
    function PrintAllowed(): (allowed: bool)
      reads this
      ensures allowed <==> mounted && Complete(form)
    {
      ValidIffComplete(form);
      mounted && IsFormValid()
    }

    method CreateNewDocument()
      modifies this
      ensures showForm
      ensures form == old(form) && datePick == old(datePick) && experimentDatePick == old(experimentDatePick)
      ensures mounted == old(mounted)
    {
      showForm := true;
    }

    /** Back to the defaults, with both date pickers cleared. */
    method ResetForm()
      modifies this
      ensures form == defaults && datePick == None && experimentDatePick == None
      ensures showForm == old(showForm) && mounted == old(mounted)
    {
      form := defaults;
      datePick := None;
      experimentDatePick := None;
    }

    /** Writes the form to the draft slot, saves it to the history, and has
      the recent-documents list, when there is one, reload. */
    method SaveToLocalStorage(freshId: string, now: int, recent: RecentList?)
      requires recent != null ==> recent.store == store
      modifies store, recent
      ensures !mounted ==> store.slots == old(store.slots)
      ensures mounted ==>
                store.slots == SavedToHistory(old(store.slots)[DraftKey := DraftJson(form)], form, freshId, now)
      ensures recent != null ==> recent.mounted == old(recent.mounted)
      ensures recent != null ==>
                recent.documents == if mounted && recent.mounted then Reloaded(old(recent.documents), store.slots)
                                    else old(recent.documents)
    {
      if !mounted {
        return;
      }
      store.SetItem(DraftKey, DraftJson(form));
      SaveToDocumentHistory(form, freshId, now);
      if recent != null {
        recent.LoadDocuments();
      }
    }

    /** Loads the newest document of the list if there is one; otherwise the
      draft slot merged over the defaults; otherwise reports that nothing
      was saved. */
    method LoadFromLocalStorage(recent: RecentList?, parse: string -> Option<int>, format: int -> string)
      returns (outcome: LoadOutcome)
      modifies this
      ensures mounted == old(mounted)
      ensures !mounted ==> outcome == NotMounted
      ensures mounted && recent != null && recent.documents != [] ==>
                var data := recent.documents[0].data;
                && outcome == LatestLoaded && form == LoadedForm(data, parse, format) && showForm
                && datePick == PickedDate(old(datePick), ParsedDate(Lookup(data, SubmissionDate), parse))
                && experimentDatePick == PickedDate(old(experimentDatePick), ParsedDate(Lookup(data, ExperimentDate), parse))
      ensures mounted && (recent == null || recent.documents == []) ==>
                match ReadDraft(store.slots, defaults)
                case Draft(merged) => outcome == DraftLoaded && form == merged && showForm
                case NoDraft => outcome == NothingSaved
                case DraftUnreadable => outcome == LoadFailed
      ensures outcome !in {LatestLoaded, DraftLoaded} ==> form == old(form) && showForm == old(showForm)
      ensures outcome != LatestLoaded ==>
                datePick == old(datePick) && experimentDatePick == old(experimentDatePick)
    {
      if !mounted {
        return NotMounted;
      }
      if recent != null {
        var latest := recent.GetLatestDocument();
        if latest.Some? {
          LoadDocumentFromHistory(latest.value.data, parse, format);
          return LatestLoaded;
        }
      }
      var read := ReadDraft(store.slots, defaults);
      match read
      case Draft(merged) =>
        form := merged;
        showForm := true;
        outcome := DraftLoaded;
      case NoDraft =>
        outcome := NothingSaved;
      case DraftUnreadable =>
        outcome := LoadFailed;
    }

    /** The submit handler: a full save, then a second history save of the
      submitted values. Only the first save reloads the recent-documents
      list, so the list does not show the second one. */
    method OnSubmit(data: Record, id1: string, t1: int, id2: string, t2: int, recent: RecentList?)
      requires recent != null ==> recent.store == store
      modifies store, recent
      ensures !mounted ==> store.slots == old(store.slots)
      ensures mounted ==>
                store.slots == SavedToHistory(SavedToHistory(old(store.slots)[DraftKey := DraftJson(form)], form, id1, t1),
                                              data, id2, t2)
      ensures recent != null ==> recent.mounted == old(recent.mounted)
      ensures recent != null ==>
                recent.documents == if mounted && recent.mounted
                                    then Reloaded(old(recent.documents),
                                                  SavedToHistory(old(store.slots)[DraftKey := DraftJson(form)], form, id1, t1))
                                    else old(recent.documents)
    {
      SaveToLocalStorage(id1, t1, recent);
      SaveToDocumentHistory(data, id2, t2);
    }
  }
}
