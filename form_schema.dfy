/** The form record and its validation: the object schema's per-field rules
    followed by the conditional rules that depend on the document type. */
module FormSchema {
  import opened JsText

  /** The string-valued fields of the form, in the schema's key order. */
  datatype TextField =
    | DocumentTitle | AssignmentNo | CourseTitle | CourseCode | Session | Program
    | CourseTeacher | Designation | StudentName | InternalId | Semester | Section
    | SubmissionDate | ExperimentName | ExperimentNo | ExperimentDate | ProjectTitle

  /** The object key under which a field is stored. */
  function KeyOf(f: TextField): string {
    match f
    case DocumentTitle => "documentTitle"
    case AssignmentNo => "assignmentNo"
    case CourseTitle => "courseTitle"
    case CourseCode => "courseCode"
    case Session => "session"
    case Program => "program"
    case CourseTeacher => "courseTeacher"
    case Designation => "designation"
    case StudentName => "studentName"
    case InternalId => "internalId"
    case Semester => "semester"
    case Section => "section"
    case SubmissionDate => "submissionDate"
    case ExperimentName => "experimentName"
    case ExperimentNo => "experimentNo"
    case ExperimentDate => "experimentDate"
    case ProjectTitle => "projectTitle"
  }

  datatype GroupMember = GroupMember(name: string, id: string)

  /** A form record. A text field missing from `text` is an absent key
      (`undefined`); the two non-text fields are absent when `None`. */
  datatype Record = Record(
    text: map<TextField, string>,
    isGroupProject: Option<bool>,
    groupMembers: Option<seq<GroupMember>>)

  /** `data.f` for a text field. */
  function Lookup(r: Record, f: TextField): Option<string> {
    if f in r.text then Some(r.text[f]) else None
  }

  /** The top-level keys an issue can be reported at. */
  datatype FieldKey = TextKey(f: TextField) | GroupFlagKey | GroupMembersKey

  datatype MemberPart = NamePart | IdPart

  /** An issue path: `At(k)` is the path `[k]`, and `InMember(i, NamePart)`
      is `["groupMembers", i, "name"]` (`IdPart`: `"id"`). */
  datatype Path = At(key: FieldKey) | InMember(index: nat, part: MemberPart)

  /** One validation issue: where it is and what it says. */
  datatype Issue = Issue(path: Path, message: string)

  /** The fields declared `z.string().min(1, …)`, in key order. */
  const RequiredFields: seq<TextField> :=
    [DocumentTitle, CourseTitle, CourseCode, Session, Program, CourseTeacher,
     Designation, StudentName, InternalId, Semester, Section]

  predicate IsRequired(f: TextField) {
    !(f.AssignmentNo? || f.SubmissionDate? || f.ExperimentName? || f.ExperimentNo? || f.ExperimentDate? || f.ProjectTitle?)
  }

  lemma RequiredFieldsListed(f: TextField)
    ensures IsRequired(f) <==> f in RequiredFields
  {
  }

  /** The fixed message of a required field's length check. */
  function MinMessage(f: TextField): string {
    match f
    case DocumentTitle => "Document type is required"
    case CourseTitle => "Course title is required"
    case CourseCode => "Course code is required"
    case Session => "Session is required"
    case Program => "Program is required"
    case CourseTeacher => "Course teacher is required"
    case Designation => "Designation is required"
    case StudentName => "Student name is required"
    case InternalId => "Internal ID is required"
    case Semester => "Semester is required"
    case Section => "Section is required"
    case _ => ""
  }

  /** The message the schema library gives a missing required key. */
  const RequiredMessage := "Required"

  const LabReport := "Lab Report"
  const ProjectReport := "Project Report"

  const ExperimentNameMessage := "Experiment name is required for lab reports"
  const ExperimentNoMessage := "Experiment number is required for lab reports"
  const ExperimentDateMessage := "Experiment date is required for lab reports"
  const GroupMemberMessage := "At least one group member is required for group projects"
  const ProjectTitleMessage := "Project title is required for project reports"
  const MemberNameMessage := "Student name is required"
  const MemberIdMessage := "Student ID is required"

  /** The per-key rule of a required text field: a missing key is a type
      error, a present one must have length at least 1 (no trimming). */
  function RequiredIssues(r: Record, f: TextField): seq<Issue> {
    if f !in r.text then [Issue(At(TextKey(f)), RequiredMessage)]
    else if |r.text[f]| == 0 then [Issue(At(TextKey(f)), MinMessage(f))]
    else []
  }

  function FieldsIssues(r: Record, fs: seq<TextField>): seq<Issue> {
    if fs == [] then [] else RequiredIssues(r, fs[0]) + FieldsIssues(r, fs[1..])
  }

  /** `groupMemberSchema` applied to the member at position `i`. */
  function MemberIssues(m: GroupMember, i: nat): seq<Issue> {
    (if |m.name| == 0 then [Issue(InMember(i, NamePart), MemberNameMessage)] else [])
    + (if |m.id| == 0 then [Issue(InMember(i, IdPart), MemberIdMessage)] else [])
  }

  /** The member rules over `ms`, whose first element sits at position `from`. */
  function MembersIssues(ms: seq<GroupMember>, from: nat): seq<Issue> {
    if ms == [] then [] else MemberIssues(ms[0], from) + MembersIssues(ms[1..], from + 1)
  }

  function FlagIssues(r: Record): seq<Issue> {
    if r.isGroupProject.None? then [Issue(At(GroupFlagKey), RequiredMessage)] else []
  }

  function GroupMembersIssues(r: Record): seq<Issue> {
    match r.groupMembers
    case None => [Issue(At(GroupMembersKey), RequiredMessage)]
    case Some(ms) => MembersIssues(ms, 0)
  }

  /** The issues of the object schema proper, in key order. */
  function ShapeIssues(r: Record): seq<Issue> {
    FieldsIssues(r, RequiredFields) + FlagIssues(r) + GroupMembersIssues(r)
  }

  /** No key failed its type check. A type failure aborts the object parse,
      and then the conditional rules are not run; a failed length check
      does not abort it. */
  predicate Typed(r: Record) {
    && (forall f :: IsRequired(f) ==> f in r.text)
    && r.isGroupProject.Some?
    && r.groupMembers.Some?
  }

  /** `!v || v.trim() === ""` */
  predicate Blank(o: Option<string>) {
    !Truthy(o) || Trim(o.value) == ""
  }

  /** Missing, "" and white-space-only values are all blank. */
  lemma BlankIff(o: Option<string>)
    ensures Blank(o) <==> o.None? || AllWhitespace(o.value)
  {
    if o.Some? {
      TrimEmptyIff(o.value);
    }
  }

  function Check(fails: bool, f: TextField, message: string): seq<Issue> {
    if fails then [Issue(At(TextKey(f)), message)] else []
  }

  /** The document-type branch: the experiment fields for a lab report,
      the type's sequence number for anything else. */
  function BranchIssues(r: Record, title: string): seq<Issue> {
    if title == LabReport then
      Check(Blank(Lookup(r, ExperimentName)), ExperimentName, ExperimentNameMessage)
      + Check(Blank(Lookup(r, ExperimentNo)), ExperimentNo, ExperimentNoMessage)
      + Check(Blank(Lookup(r, ExperimentDate)), ExperimentDate, ExperimentDateMessage)
    else
      Check(Blank(Lookup(r, AssignmentNo)), AssignmentNo, title + " number is required")
  }

  /** A group Project Report needs at least one member. */
  function GroupIssues(title: string, isGroup: bool, ms: seq<GroupMember>): seq<Issue> {
    if title == ProjectReport && isGroup && |ms| == 0
    then [Issue(At(GroupMembersKey), GroupMemberMessage)] else []
  }

  /** The conditional rules, which read the parsed record and add issues. */
  function RefineIssues(r: Record): seq<Issue>
    requires Typed(r)
  {
    var title := r.text[DocumentTitle];
    BranchIssues(r, title)
    + GroupIssues(title, r.isGroupProject.value, r.groupMembers.value)
    + Check(title == ProjectReport && !Truthy(Lookup(r, ProjectTitle)), ProjectTitle, ProjectTitleMessage)
  }

  /** All issues the schema reports for `r`, in the order they are added. */
  function Issues(r: Record): seq<Issue> {
    ShapeIssues(r) + (if Typed(r) then RefineIssues(r) else [])
  }

  predicate IsValid(r: Record) {
    Issues(r) == []
  }


  // ---------------------------------------------------------------------
  // Looking issues up by path

  /** The messages of the issues at `path`, in order. */
  function MessagesAt(iss: seq<Issue>, path: Path): seq<string> {
    if iss == [] then []
    else (if iss[0].path == path then [iss[0].message] else []) + MessagesAt(iss[1..], path)
  }

  function Single(message: string, cond: bool): seq<string> {
    if cond then [message] else []
  }

  lemma MessagesAtSingle(i: Issue, path: Path)
    ensures MessagesAt([i], path) == Single(i.message, i.path == path)
  {
    assert [i][1..] == [];
  }

  lemma {:induction false} MessagesAtAppend(a: seq<Issue>, b: seq<Issue>, path: Path)
    ensures MessagesAt(a + b, path) == MessagesAt(a, path) + MessagesAt(b, path)
  {
    if a == [] {
      assert a + b == b;
    } else {
      assert (a + b)[0] == a[0];
      assert (a + b)[1..] == a[1..] + b;
      MessagesAtAppend(a[1..], b, path);
    }
  }

  lemma MessagesAtThree(a: seq<Issue>, b: seq<Issue>, c: seq<Issue>, path: Path)
    ensures MessagesAt(a + b + c, path) == MessagesAt(a, path) + MessagesAt(b, path) + MessagesAt(c, path)
  {
    MessagesAtAppend(a + b, c, path);
    MessagesAtAppend(a, b, path);
  }

  lemma CheckAt(fails: bool, f: TextField, message: string, p: Path)
    ensures MessagesAt(Check(fails, f, message), p) == Single(message, fails && p == At(TextKey(f)))
  {
    if fails {
      MessagesAtSingle(Issue(At(TextKey(f)), message), p);
    }
  }

  lemma RequiredIssuesAt(r: Record, f: TextField, p: Path)
    ensures MessagesAt(RequiredIssues(r, f), p)
            == if p != At(TextKey(f)) then []
               else if f !in r.text then [RequiredMessage]
               else if |r.text[f]| == 0 then [MinMessage(f)]
               else []
  {
    if f !in r.text {
      MessagesAtSingle(Issue(At(TextKey(f)), RequiredMessage), p);
    } else if |r.text[f]| == 0 {
      MessagesAtSingle(Issue(At(TextKey(f)), MinMessage(f)), p);
    }
  }

  lemma {:induction false} FieldsAt(r: Record, fs: seq<TextField>, p: Path)
    requires forall i, j :: 0 <= i < j < |fs| ==> fs[i] != fs[j]
    ensures MessagesAt(FieldsIssues(r, fs), p)
            == if p.At? && p.key.TextKey? && p.key.f in fs then MessagesAt(RequiredIssues(r, p.key.f), p) else []
  {
    if fs != [] {
      MessagesAtAppend(RequiredIssues(r, fs[0]), FieldsIssues(r, fs[1..]), p);
      FieldsAt(r, fs[1..], p);
      RequiredIssuesAt(r, fs[0], p);
      assert forall j :: 1 <= j < |fs| ==> fs[j] != fs[0];
      assert fs[0] !in fs[1..];
      assert forall g :: g in fs <==> g == fs[0] || g in fs[1..];
    }
  }

  lemma MemberIssuesAt(m: GroupMember, i: nat, p: Path)
    ensures MessagesAt(MemberIssues(m, i), p)
            == Single(MemberNameMessage, |m.name| == 0 && p == InMember(i, NamePart))
               + Single(MemberIdMessage, |m.id| == 0 && p == InMember(i, IdPart))
  {
    var n := if |m.name| == 0 then [Issue(InMember(i, NamePart), MemberNameMessage)] else [];
    var d := if |m.id| == 0 then [Issue(InMember(i, IdPart), MemberIdMessage)] else [];
    MessagesAtAppend(n, d, p);
    if |m.name| == 0 {
      MessagesAtSingle(n[0], p);
    }
    if |m.id| == 0 {
      MessagesAtSingle(d[0], p);
    }
  }

  lemma {:induction false} MembersAt(ms: seq<GroupMember>, from: nat, p: Path)
    ensures MessagesAt(MembersIssues(ms, from), p)
            == if p.InMember? && from <= p.index < from + |ms|
               then MessagesAt(MemberIssues(ms[p.index - from], p.index), p) else []
  {
    if ms != [] {
      var head := MemberIssues(ms[0], from);
      var tail := MembersIssues(ms[1..], from + 1);
      assert MembersIssues(ms, from) == head + tail;
      MessagesAtAppend(head, tail, p);
      MembersAt(ms[1..], from + 1, p);
      if p.InMember? && p.index == from {
        assert MessagesAt(tail, p) == [];
      } else {
        MemberIssuesAt(ms[0], from, p);
        assert MessagesAt(head, p) == [];
        if p.InMember? && from < p.index < from + |ms| {
          assert ms[p.index - from] == ms[1..][p.index - (from + 1)];
        }
      }
    }
  }

  lemma RequiredFieldsDistinct()
    ensures forall i, j :: 0 <= i < j < |RequiredFields| ==> RequiredFields[i] != RequiredFields[j]
  {
  }

  lemma ShapeAt(r: Record, p: Path)
    ensures MessagesAt(ShapeIssues(r), p)
            == (if p.At? && p.key.TextKey? && IsRequired(p.key.f) then MessagesAt(RequiredIssues(r, p.key.f), p) else [])
               + Single(RequiredMessage, r.isGroupProject.None? && p == At(GroupFlagKey))
               + (match r.groupMembers
                  case None => Single(RequiredMessage, p == At(GroupMembersKey))
                  case Some(ms) =>
                    if p.InMember? && p.index < |ms| then MessagesAt(MemberIssues(ms[p.index], p.index), p) else [])
  {
    MessagesAtThree(FieldsIssues(r, RequiredFields), FlagIssues(r), GroupMembersIssues(r), p);
    RequiredFieldsDistinct();
    FieldsAt(r, RequiredFields, p);
    if p.At? && p.key.TextKey? {
      RequiredFieldsListed(p.key.f);
    }
    if r.isGroupProject.None? {
      MessagesAtSingle(Issue(At(GroupFlagKey), RequiredMessage), p);
    }
    match r.groupMembers
    case None =>
      MessagesAtSingle(Issue(At(GroupMembersKey), RequiredMessage), p);
    case Some(ms) =>
      MembersAt(ms, 0, p);
  }

  lemma BranchAt(r: Record, title: string, p: Path)
    ensures MessagesAt(BranchIssues(r, title), p)
            == if title == LabReport then
                 Single(ExperimentNameMessage, p == At(TextKey(ExperimentName)) && Blank(Lookup(r, ExperimentName)))
                 + Single(ExperimentNoMessage, p == At(TextKey(ExperimentNo)) && Blank(Lookup(r, ExperimentNo)))
                 + Single(ExperimentDateMessage, p == At(TextKey(ExperimentDate)) && Blank(Lookup(r, ExperimentDate)))
               else
                 Single(title + " number is required", p == At(TextKey(AssignmentNo)) && Blank(Lookup(r, AssignmentNo)))
  {
    if title == LabReport {
      var a1 := Check(Blank(Lookup(r, ExperimentName)), ExperimentName, ExperimentNameMessage);
      var a2 := Check(Blank(Lookup(r, ExperimentNo)), ExperimentNo, ExperimentNoMessage);
      var a3 := Check(Blank(Lookup(r, ExperimentDate)), ExperimentDate, ExperimentDateMessage);
      MessagesAtThree(a1, a2, a3, p);
      CheckAt(Blank(Lookup(r, ExperimentName)), ExperimentName, ExperimentNameMessage, p);
      CheckAt(Blank(Lookup(r, ExperimentNo)), ExperimentNo, ExperimentNoMessage, p);
      CheckAt(Blank(Lookup(r, ExperimentDate)), ExperimentDate, ExperimentDateMessage, p);
    } else {
      CheckAt(Blank(Lookup(r, AssignmentNo)), AssignmentNo, title + " number is required", p);
    }
  }

  lemma GroupAt(title: string, isGroup: bool, ms: seq<GroupMember>, p: Path)
    ensures MessagesAt(GroupIssues(title, isGroup, ms), p)
            == Single(GroupMemberMessage, p == At(GroupMembersKey) && title == ProjectReport && isGroup && |ms| == 0)
  {
    if title == ProjectReport && isGroup && |ms| == 0 {
      MessagesAtSingle(Issue(At(GroupMembersKey), GroupMemberMessage), p);
    }
  }

  /** The messages the conditional rules put at `p`. */
  lemma RefineAt(r: Record, p: Path)
    requires Typed(r)
    ensures var title := r.text[DocumentTitle];
            MessagesAt(RefineIssues(r), p)
            == MessagesAt(BranchIssues(r, title), p)
               + Single(GroupMemberMessage, p == At(GroupMembersKey) && title == ProjectReport
                                            && r.isGroupProject.value && |r.groupMembers.value| == 0)
               + Single(ProjectTitleMessage, p == At(TextKey(ProjectTitle)) && title == ProjectReport
                                             && !Truthy(Lookup(r, ProjectTitle)))
  {
    var title := r.text[DocumentTitle];
    MessagesAtThree(BranchIssues(r, title), GroupIssues(title, r.isGroupProject.value, r.groupMembers.value),
                    Check(title == ProjectReport && !Truthy(Lookup(r, ProjectTitle)), ProjectTitle, ProjectTitleMessage), p);
    GroupAt(title, r.isGroupProject.value, r.groupMembers.value, p);
    CheckAt(title == ProjectReport && !Truthy(Lookup(r, ProjectTitle)), ProjectTitle, ProjectTitleMessage, p);
  }

  lemma IssuesAt(r: Record, p: Path)
    ensures MessagesAt(Issues(r), p)
            == MessagesAt(ShapeIssues(r), p) + (if Typed(r) then MessagesAt(RefineIssues(r), p) else [])
  {
    MessagesAtAppend(ShapeIssues(r), if Typed(r) then RefineIssues(r) else [], p);
  }

  // ---------------------------------------------------------------------
  // The rules, one by one

  /** A required field reports "Required" when its key is missing, its own
      fixed message when its value has length 0, and nothing otherwise; in
      particular a value made only of white space passes. */
  lemma RequiredFieldRule(r: Record, f: TextField)
    requires IsRequired(f)
    ensures MessagesAt(Issues(r), At(TextKey(f)))
            == if f !in r.text then [RequiredMessage]
               else if |r.text[f]| == 0 then [MinMessage(f)]
               else []
  {
    var p := At(TextKey(f));
    IssuesAt(r, p);
    ShapeAt(r, p);
    RequiredIssuesAt(r, f, p);
    if Typed(r) {
      RefineAt(r, p);
      BranchAt(r, r.text[DocumentTitle], p);
    }
  }

  /** At a field of the type-dependent branch only that branch reports. */
  lemma BranchFieldAt(r: Record, f: TextField)
    requires Typed(r) && f in {ExperimentName, ExperimentNo, ExperimentDate, AssignmentNo}
    ensures MessagesAt(Issues(r), At(TextKey(f))) == MessagesAt(BranchIssues(r, r.text[DocumentTitle]), At(TextKey(f)))
  {
    var p := At(TextKey(f));
    IssuesAt(r, p);
    ShapeAt(r, p);
    RefineAt(r, p);
  }

  /** For a lab report, each experiment field that is missing or blank gets
      its own issue at its own path, and the assignment number is never
      required. */
  lemma LabReportRules(r: Record)
    requires Typed(r) && r.text[DocumentTitle] == LabReport
    ensures MessagesAt(Issues(r), At(TextKey(ExperimentName)))
            == Single(ExperimentNameMessage, Blank(Lookup(r, ExperimentName)))
    ensures MessagesAt(Issues(r), At(TextKey(ExperimentNo)))
            == Single(ExperimentNoMessage, Blank(Lookup(r, ExperimentNo)))
    ensures MessagesAt(Issues(r), At(TextKey(ExperimentDate)))
            == Single(ExperimentDateMessage, Blank(Lookup(r, ExperimentDate)))
    ensures MessagesAt(Issues(r), At(TextKey(AssignmentNo))) == []
  {
    LabFieldAt(r, ExperimentName, ExperimentNameMessage);
    LabFieldAt(r, ExperimentNo, ExperimentNoMessage);
    LabFieldAt(r, ExperimentDate, ExperimentDateMessage);
    assert MessagesAt(Issues(r), At(TextKey(AssignmentNo))) == [] by {
      BranchFieldAt(r, AssignmentNo);
      BranchAt(r, LabReport, At(TextKey(AssignmentNo)));
    }
  }

  /** One experiment field of a lab report. */
  lemma LabFieldAt(r: Record, f: TextField, message: string)
    requires Typed(r) && r.text[DocumentTitle] == LabReport
    requires (f == ExperimentName && message == ExperimentNameMessage)
             || (f == ExperimentNo && message == ExperimentNoMessage)
             || (f == ExperimentDate && message == ExperimentDateMessage)
    ensures MessagesAt(Issues(r), At(TextKey(f))) == Single(message, Blank(Lookup(r, f)))
  {
    BranchFieldAt(r, f);
    LabBranchAt(r, f, message);
  }

  lemma LabBranchAt(r: Record, f: TextField, message: string)
    requires (f == ExperimentName && message == ExperimentNameMessage)
             || (f == ExperimentNo && message == ExperimentNoMessage)
             || (f == ExperimentDate && message == ExperimentDateMessage)
    ensures MessagesAt(BranchIssues(r, LabReport), At(TextKey(f))) == Single(message, Blank(Lookup(r, f)))
  {
    LabChecksAt(Blank(Lookup(r, ExperimentName)), Blank(Lookup(r, ExperimentNo)), Blank(Lookup(r, ExperimentDate)),
                f, message);
  }

  /** The three experiment checks, with their outcomes as plain booleans. */
  lemma LabChecksAt(b1: bool, b2: bool, b3: bool, f: TextField, message: string)
    requires (f == ExperimentName && message == ExperimentNameMessage)
             || (f == ExperimentNo && message == ExperimentNoMessage)
             || (f == ExperimentDate && message == ExperimentDateMessage)
    ensures MessagesAt(Check(b1, ExperimentName, ExperimentNameMessage) + Check(b2, ExperimentNo, ExperimentNoMessage)
                       + Check(b3, ExperimentDate, ExperimentDateMessage), At(TextKey(f)))
            == Single(message, if f == ExperimentName then b1 else if f == ExperimentNo then b2 else b3)
  {
    var p := At(TextKey(f));
    MessagesAtThree(Check(b1, ExperimentName, ExperimentNameMessage), Check(b2, ExperimentNo, ExperimentNoMessage),
                    Check(b3, ExperimentDate, ExperimentDateMessage), p);
    CheckAt(b1, ExperimentName, ExperimentNameMessage, p);
    CheckAt(b2, ExperimentNo, ExperimentNoMessage, p);
    CheckAt(b3, ExperimentDate, ExperimentDateMessage, p);
  }

  /** For any other document type, a missing or blank assignment number gets
      one issue whose message names the type, and the experiment fields are
      never required. */
  lemma OtherTypeRules(r: Record)
    requires Typed(r) && r.text[DocumentTitle] != LabReport
    ensures MessagesAt(Issues(r), At(TextKey(AssignmentNo)))
            == Single(r.text[DocumentTitle] + " number is required", Blank(Lookup(r, AssignmentNo)))
    ensures MessagesAt(Issues(r), At(TextKey(ExperimentName))) == []
    ensures MessagesAt(Issues(r), At(TextKey(ExperimentNo))) == []
    ensures MessagesAt(Issues(r), At(TextKey(ExperimentDate))) == []
  {
    var title := r.text[DocumentTitle];
    assert MessagesAt(Issues(r), At(TextKey(AssignmentNo)))
           == Single(title + " number is required", Blank(Lookup(r, AssignmentNo))) by {
      BranchFieldAt(r, AssignmentNo);
      BranchAt(r, title, At(TextKey(AssignmentNo)));
    }
    assert MessagesAt(Issues(r), At(TextKey(ExperimentName))) == [] by {
      BranchFieldAt(r, ExperimentName);
      BranchAt(r, title, At(TextKey(ExperimentName)));
    }
    assert MessagesAt(Issues(r), At(TextKey(ExperimentNo))) == [] by {
      BranchFieldAt(r, ExperimentNo);
      BranchAt(r, title, At(TextKey(ExperimentNo)));
    }
    assert MessagesAt(Issues(r), At(TextKey(ExperimentDate))) == [] by {
      BranchFieldAt(r, ExperimentDate);
      BranchAt(r, title, At(TextKey(ExperimentDate)));
    }
  }

  /** The group-member rule fires exactly for a group Project Report with no
      members; a report that is not a group project never gets it. */
  lemma GroupMembersRule(r: Record)
    requires Typed(r)
    ensures MessagesAt(Issues(r), At(GroupMembersKey))
            == Single(GroupMemberMessage, r.text[DocumentTitle] == ProjectReport
                                          && r.isGroupProject.value && r.groupMembers.value == [])
  {
    var p := At(GroupMembersKey);
    IssuesAt(r, p);
    ShapeAt(r, p);
    RefineAt(r, p);
    BranchAt(r, r.text[DocumentTitle], p);
  }

  /** A Project Report whose title is missing or "" gets the project-title
      issue; no other document type ever does. */
  lemma ProjectTitleRule(r: Record)
    requires Typed(r)
    ensures MessagesAt(Issues(r), At(TextKey(ProjectTitle)))
            == Single(ProjectTitleMessage, r.text[DocumentTitle] == ProjectReport && !Truthy(Lookup(r, ProjectTitle)))
  {
    var p := At(TextKey(ProjectTitle));
    IssuesAt(r, p);
    ShapeAt(r, p);
    RefineAt(r, p);
    BranchAt(r, r.text[DocumentTitle], p);
  }

  /** A group member needs a non-empty name and a non-empty id; each
      failure is reported at the member's own path. */
  lemma MemberRule(r: Record, i: nat)
    requires r.groupMembers.Some? && i < |r.groupMembers.value|
    ensures MessagesAt(Issues(r), InMember(i, NamePart))
            == Single(MemberNameMessage, r.groupMembers.value[i].name == "")
    ensures MessagesAt(Issues(r), InMember(i, IdPart))
            == Single(MemberIdMessage, r.groupMembers.value[i].id == "")
  {
    var m := r.groupMembers.value[i];
    MemberPathAt(r, i, NamePart);
    MemberPathAt(r, i, IdPart);
    MemberIssuesAt(m, i, InMember(i, NamePart));
    MemberIssuesAt(m, i, InMember(i, IdPart));
  }

  /** At a member's path only that member's own rules report. */
  lemma MemberPathAt(r: Record, i: nat, part: MemberPart)
    requires r.groupMembers.Some? && i < |r.groupMembers.value|
    ensures MessagesAt(Issues(r), InMember(i, part)) == MessagesAt(MemberIssues(r.groupMembers.value[i], i), InMember(i, part))
  {
    var p := InMember(i, part);
    IssuesAt(r, p);
    ShapeAt(r, p);
    if Typed(r) {
      RefineAtMember(r, p);
    }
  }

  /** The conditional rules report nothing at a member's path. */
  lemma RefineAtMember(r: Record, p: Path)
    requires Typed(r) && p.InMember?
    ensures MessagesAt(RefineIssues(r), p) == []
  {
    RefineAt(r, p);
    BranchAt(r, r.text[DocumentTitle], p);
  }

  /** When a key fails its type check the conditional rules do not run: the
      record is invalid, yet nothing is reported at a path only they use. */
  lemma TypeFailureSkipsRules(r: Record)
    requires !Typed(r)
    ensures Issues(r) != []
    ensures MessagesAt(Issues(r), At(TextKey(AssignmentNo))) == []
    ensures MessagesAt(Issues(r), At(TextKey(ExperimentName))) == []
    ensures MessagesAt(Issues(r), At(TextKey(ExperimentNo))) == []
    ensures MessagesAt(Issues(r), At(TextKey(ExperimentDate))) == []
    ensures MessagesAt(Issues(r), At(TextKey(ProjectTitle))) == []
    ensures GroupMemberMessage !in MessagesAt(Issues(r), At(GroupMembersKey))
  {
    assert GroupMemberMessage !in MessagesAt(Issues(r), At(GroupMembersKey)) by {
      IssuesAt(r, At(GroupMembersKey));
      ShapeAt(r, At(GroupMembersKey));
    }
    forall f | f in {AssignmentNo, ExperimentName, ExperimentNo, ExperimentDate, ProjectTitle}
      ensures MessagesAt(Issues(r), At(TextKey(f))) == []
    {
      IssuesAt(r, At(TextKey(f)));
      ShapeAt(r, At(TextKey(f)));
    }
    var p;
    if r.isGroupProject.None? {
      p := At(GroupFlagKey);
    } else if r.groupMembers.None? {
      p := At(GroupMembersKey);
    } else {
      var f :| IsRequired(f) && f !in r.text;
      p := At(TextKey(f));
      RequiredIssuesAt(r, f, p);
    }
    IssuesAt(r, p);
    ShapeAt(r, p);
    assert MessagesAt(Issues(r), p) != [];
  }

  // ---------------------------------------------------------------------
  // Validity

  /** A record the schema accepts, stated field by field. */
  ghost predicate Complete(r: Record) {
    && Typed(r)
    && (forall f :: IsRequired(f) ==> r.text[f] != "")
    && (forall i :: 0 <= i < |r.groupMembers.value| ==>
          r.groupMembers.value[i].name != "" && r.groupMembers.value[i].id != "")
    && (r.text[DocumentTitle] == LabReport ==>
          !Blank(Lookup(r, ExperimentName)) && !Blank(Lookup(r, ExperimentNo)) && !Blank(Lookup(r, ExperimentDate)))
    && (r.text[DocumentTitle] != LabReport ==> !Blank(Lookup(r, AssignmentNo)))
    && (r.text[DocumentTitle] == ProjectReport && r.isGroupProject.value ==> r.groupMembers.value != [])
    && (r.text[DocumentTitle] == ProjectReport ==> Truthy(Lookup(r, ProjectTitle)))
  }

  lemma {:induction false} FieldsIssuesEmpty(r: Record, fs: seq<TextField>)
    ensures FieldsIssues(r, fs) == [] <==> forall i :: 0 <= i < |fs| ==> fs[i] in r.text && r.text[fs[i]] != ""
  {
    if fs != [] {
      FieldsIssuesEmpty(r, fs[1..]);
      assert forall i :: 1 <= i < |fs| ==> fs[i] == fs[1..][i - 1];
    }
  }

  lemma {:induction false} MembersIssuesEmpty(ms: seq<GroupMember>, from: nat)
    ensures MembersIssues(ms, from) == [] <==> forall i :: 0 <= i < |ms| ==> ms[i].name != "" && ms[i].id != ""
  {
    if ms != [] {
      MembersIssuesEmpty(ms[1..], from + 1);
      assert forall i :: 1 <= i < |ms| ==> ms[i] == ms[1..][i - 1];
    }
  }

  /** The object schema proper reports nothing exactly when every key is
      present, every required text is non-empty and every member complete. */
  lemma ShapeEmptyIff(r: Record)
    ensures ShapeIssues(r) == [] <==>
              && (forall f :: IsRequired(f) ==> f in r.text && r.text[f] != "")
              && r.isGroupProject.Some? && r.groupMembers.Some?
              && (forall i :: 0 <= i < |r.groupMembers.value| ==>
                    r.groupMembers.value[i].name != "" && r.groupMembers.value[i].id != "")
  {
    FieldsIssuesEmpty(r, RequiredFields);
    assert (forall f :: IsRequired(f) ==> f in r.text && r.text[f] != "")
           <==> (forall i :: 0 <= i < |RequiredFields| ==> RequiredFields[i] in r.text && r.text[RequiredFields[i]] != "") by {
      forall f ensures IsRequired(f) <==> f in RequiredFields {
        RequiredFieldsListed(f);
      }
    }
    if r.groupMembers.Some? {
      MembersIssuesEmpty(r.groupMembers.value, 0);
    }
  }

  /** The conditional rules report nothing exactly when the conditional
      fields are filled in. */
  lemma RefineEmptyIff(r: Record)
    requires Typed(r)
    ensures RefineIssues(r) == [] <==>
              && (r.text[DocumentTitle] == LabReport ==>
                    !Blank(Lookup(r, ExperimentName)) && !Blank(Lookup(r, ExperimentNo)) && !Blank(Lookup(r, ExperimentDate)))
              && (r.text[DocumentTitle] != LabReport ==> !Blank(Lookup(r, AssignmentNo)))
              && (r.text[DocumentTitle] == ProjectReport && r.isGroupProject.value ==> r.groupMembers.value != [])
              && (r.text[DocumentTitle] == ProjectReport ==> Truthy(Lookup(r, ProjectTitle)))
  {
  }

  /** Validation accepts a record exactly when it is complete. */
  lemma ValidIffComplete(r: Record)
    ensures IsValid(r) <==> Complete(r)
  {
    ShapeEmptyIff(r);
    if Typed(r) {
      RefineEmptyIff(r);
    }
  }
}
