# Assignment cover-page generator: form core

This project models the logic behind a web form that produces cover pages for
student assignments and lab reports. It covers three parts.

- **The validation schema** (`FormSchema`). This is the record of cover-page fields and the function that lists every issue the schema reports, in the order reported. It has the schema library's two ways of failing:
  - A missing required key fails as "Required" and aborts the object parse, so the conditional rules never run. Only missing keys are modelled: a record's text values are strings and its two other fields are a boolean and a member list, so a present key of the wrong type cannot occur.
  - A failed length check only marks the parse dirty.
- **The form session** (`FormManagement`). It covers:
  - the default values;
  - restoring the draft over the defaults;
  - the document history, where each save updates an entry in place or inserts one, matched by an identity key, and only the first 50 are kept;
  - loading the newest document or the draft;
  - the reset;
  - the rule that builds the PDF filename;
  - the text put on the clipboard.
- **The recent-documents panel** (`RecentDocuments`). It has a list sorted by modification time, with adding (capped at 20), deleting by id, clearing and the latest entry, plus the title shown for each entry.

The browser's `localStorage` is the `Storage.Store` class. It is a map from slot name to stored value. A slot holds one of three things: a draft object, a history array, or text that does not parse as either. `JsText` states the JavaScript string behaviour the rules depend on:

- `trim()` and the class `\s`, with ECMAScript's white-space set;
- truthiness;
- `join` and `split`;
- `undefined` as an absent key.

## Model

| member | source | states |
|---|---|---|
| JsText.TrimEmptyIff | lib/form-schema.ts:32 | a string trims to "" exactly when every character is ECMAScript white space |
| JsText.SplitJoin | hooks/use-form-management.ts:272 | joining lines with a one-character separator no line contains, then splitting on it, gives the lines back |
| JsText.JoinEmptyIff | hooks/use-form-management.ts:272 | with a non-empty separator the join is "" exactly when there is no line or one empty line |
| FormSchema.BlankIff | lib/form-schema.ts:32 | the conditional test `!v \|\| v.trim() === ""` holds exactly for a missing, empty or white-space-only value |
| FormSchema.RequiredFieldsListed | lib/form-schema.ts:9-20 | the fields with a length check are exactly the eleven of the list, in schema order |
| FormSchema.Issues | lib/form-schema.ts:8-81 | no contract of its own; specified by the rule lemmas below and FormSchema.ValidIffComplete |
| FormSchema.RequiredFieldRule | lib/form-schema.ts:9-20 | at a required field's path: "Required" if the key is missing, the field's fixed message if its length is 0, nothing otherwise (white space passes) |
| FormSchema.LabReportRules | lib/form-schema.ts:31-52 | for a lab report each blank experiment field gets exactly its own message at its own path, and nothing is ever reported at the assignment number |
| FormSchema.OtherTypeRules | lib/form-schema.ts:53-61 | for any other type a blank assignment number gets exactly the message "<type> number is required", and no experiment path is reported |
| FormSchema.GroupMembersRule | lib/form-schema.ts:64-73 | the group-member message appears exactly for a group Project Report with no members |
| FormSchema.ProjectTitleRule | lib/form-schema.ts:74-80 | the project-title message appears exactly for a Project Report whose project title is missing or "" |
| FormSchema.MemberRule | lib/form-schema.ts:3-6 | member i gets the name message exactly when its name is "" and the id message exactly when its id is "" |
| FormSchema.TypeFailureSkipsRules | lib/form-schema.ts:8-29 | if a key fails its type check the record is invalid, no path used only by the conditional rules gets a message, and the group-member message never appears |
| FormSchema.ShapeEmptyIff | lib/form-schema.ts:3-28 | the object schema reports nothing exactly when every key has its type, every required text is non-empty and every member is complete |
| FormSchema.RefineEmptyIff | lib/form-schema.ts:29-81 | the conditional rules report nothing exactly when the fields the document type needs are filled in |
| FormSchema.ValidIffComplete | lib/form-schema.ts:8-81 | a record validates exactly when it is complete, stated field by field |
| RecentDocuments.SortByRecency | components/assignment/recent-documents.tsx:60-63 | the result is a permutation of the stored list, ordered by modification time, newest first |
| RecentDocuments.SortIsStable | components/assignment/recent-documents.tsx:60-63 | entries with equal modification times keep their stored order |
| RecentDocuments.LatestIsMostRecent | components/assignment/recent-documents.tsx:142-147 | once sorted, the first entry is at least as recent as every stored entry |
| RecentDocuments.Prepend | components/assignment/recent-documents.tsx:91-93 | no contract of its own; specified by RecentDocuments.PrependKeepsNewest |
| RecentDocuments.PrependKeepsNewest | components/assignment/recent-documents.tsx:91-93 | adding puts the new entry first and keeps the previous first 19, in order |
| RecentDocuments.WithoutId | components/assignment/recent-documents.tsx:103 | no contract of its own; specified by RecentDocuments.WithoutIdMembers, RecentDocuments.WithoutIdAppend and RecentDocuments.WithoutAbsentId |
| RecentDocuments.WithoutIdMembers | components/assignment/recent-documents.tsx:103 | deleting keeps exactly the entries with another id; the length drops by the number of entries with that id |
| RecentDocuments.WithoutIdAppend | components/assignment/recent-documents.tsx:103 | deleting distributes over concatenation, so the kept entries stay in order |
| RecentDocuments.WithoutAbsentId | components/assignment/recent-documents.tsx:103 | deleting an id no entry has leaves the list unchanged |
| RecentDocuments.WithoutIdKeepsSorted | components/assignment/recent-documents.tsx:102-104 | deleting from a list sorted newest first leaves it sorted |
| RecentDocuments.PrependKeepsSorted | components/assignment/recent-documents.tsx:82-94 | adding an entry at least as recent as every listed one to a sorted list leaves it sorted |
| RecentDocuments.DisplayTitle | components/assignment/recent-documents.tsx:132-140 | no contract of its own; specified by RecentDocuments.DisplayTitleCases |
| RecentDocuments.DisplayTitleCases | components/assignment/recent-documents.tsx:132-140 | the title is never empty; the three template cases, with an absent type printed as "undefined", and the "Untitled Document" fallback |
| RecentDocuments.Reloaded | components/assignment/recent-documents.tsx:52-69 | no contract of its own; specified by RecentDocuments.SortByRecency, used by RecentDocuments.RecentList.LoadDocuments |
| RecentDocuments.RecentList.constructor | components/assignment/recent-documents.tsx:36-37 | the list starts empty and not mounted |
| RecentDocuments.RecentList.Mount | components/assignment/recent-documents.tsx:40-43 | mounting enables storage and reloads the list |
| RecentDocuments.RecentList.LoadDocuments | components/assignment/recent-documents.tsx:52-69 | once mounted, a stored history replaces the list, sorted; a missing or unreadable slot leaves it as it was |
| RecentDocuments.RecentList.SaveDocuments | components/assignment/recent-documents.tsx:71-80 | once mounted, the slot and the list both become the given list; before mounting nothing changes |
| RecentDocuments.RecentList.AddDocument | components/assignment/recent-documents.tsx:82-94 | the slot and the list become the capped list headed by the new entry; a sorted list stays sorted when the new time is not older than any listed one |
| RecentDocuments.RecentList.DeleteDocument | components/assignment/recent-documents.tsx:102-104 | the slot and the list become the list without that id; a sorted list stays sorted |
| RecentDocuments.RecentList.ClearHistory | components/assignment/recent-documents.tsx:112-116 | the list is emptied always; the history slot is removed only once mounted |
| RecentDocuments.RecentList.GetLatestDocument | components/assignment/recent-documents.tsx:142-147 | the first entry when the list is non-empty, none otherwise; on a sorted list it is at least as recent as every entry |
| FormManagement.WrittenDefaultsNeverValidate | hooks/use-form-management.ts:17-34 | a form started from the defaults as written never validates, whatever text is typed in, and its conditional rules never run |
| FormManagement.MissingGroupKeys | lib/form-schema.ts:26-27 | without the two group-project keys both report "Required" and the record is invalid |
| FormManagement.DefaultValuesShape | hooks/use-form-management.ts:17-34 | every text field but the project title has a default: the fixed program, "Assignment" as the type, "" elsewhere |
| FormManagement.DefaultValuesCanValidate | hooks/use-form-management.ts:17-34 | with the corrected defaults, filling in the required fields and an assignment number gives a valid form |
| FormManagement.Merge | hooks/use-form-management.ts:81 | a spread merge: key by key, the saved value where there is one, the base value otherwise |
| FormManagement.MergedDraftHasDefaults | hooks/use-form-management.ts:80-82 | a draft merged over the corrected defaults has every default key, both group-project keys included, and a complete draft comes back unchanged |
| FormManagement.ReadDraft | hooks/use-form-management.ts:76-82 | no contract of its own; specified by FormManagement.MergedDraftHasDefaults and FormManagement.WrittenDraftNeverValidates |
| FormManagement.WrittenDraftNeverValidates | hooks/use-form-management.ts:76-82 | under the defaults as written, a restored draft without the group-project keys is still invalid |
| FormManagement.SameDocumentIffSameIdentity | hooks/use-form-management.ts:109-118 | the match test is equality of an identity tuple: student, id, course code, type, and experiment name or assignment number |
| FormManagement.DiscriminatorSeparates | hooks/use-form-management.ts:114-117 | records differing only in experiment name (lab reports) or assignment number (other types) never match |
| FormManagement.FindMatch | hooks/use-form-management.ts:109-118 | -1 exactly when no entry matches; otherwise the first matching position |
| FormManagement.Truncate | hooks/use-form-management.ts:133-135 | keeps the first n entries by position |
| FormManagement.Upsert | hooks/use-form-management.ts:108-135 | no contract of its own; specified by FormManagement.UpsertUpdatesMatch, FormManagement.UpsertInsertsNew and FormManagement.UpsertKeepsOnePerDocument |
| FormManagement.UpsertUpdatesMatch | hooks/use-form-management.ts:120-126 | a matched entry keeps its position, id and creation time and gets the new data and time; all others are untouched and the length does not grow |
| FormManagement.UpsertInsertsNew | hooks/use-form-management.ts:127-130 | without a match a new entry, created and modified now, goes first and the old entries follow in order, up to 50 |
| FormManagement.UpsertKeepsOne | hooks/use-form-management.ts:108-135 | saving into a history with at most one entry for the document leaves exactly one |
| FormManagement.UpsertOtherCount | hooks/use-form-management.ts:108-135 | saving one document never adds an entry for a document of another identity |
| FormManagement.UpsertSavedAtMostOne | hooks/use-form-management.ts:108-135 | saving a document into a history with at most one entry for it leaves at most one, at any history length |
| FormManagement.UpsertKeepsOnePerDocument | hooks/use-form-management.ts:108-135 | every save keeps the history at most one entry per document, for all documents |
| FormManagement.SaveTwiceKeepsOne | hooks/use-form-management.ts:108-135 | saving the same document twice leaves one entry, updated in place on the second save without growth |
| FormManagement.DistinctDocumentsKeepBoth | hooks/use-form-management.ts:109-130 | two different new documents both end up at the front, the later one first |
| FormManagement.SavedToHistory | hooks/use-form-management.ts:93-137 | no contract of its own; specified by FormManagement.SavedToHistoryBounded and FormManagement.SavedKeepsOnePerDocument |
| FormManagement.SavedToHistoryBounded | hooks/use-form-management.ts:93-137 | after a save the readable history holds at most 50 entries, including the saved document when the old history held at most 50, and the draft slot is untouched |
| FormManagement.SavedDocumentCanBeEvicted | hooks/use-form-management.ts:109-135 | a history longer than 50 whose first match for the document is at position 50 or later loses it on saving: it is updated in place, then cut off |
| FormManagement.SavedKeepsOnePerDocument | hooks/use-form-management.ts:93-137 | a readable stored history with at most one entry per document keeps that property after any save |
| FormManagement.ReplacedHasNoWhitespace | hooks/use-form-management.ts:302 | replacing white-space runs leaves no white space |
| FormManagement.ReplaceKeepsPlain | hooks/use-form-management.ts:302 | a name without white space is not changed |
| FormManagement.ReplaceBlankRun | hooks/use-form-management.ts:301-302 | a white-space-only name becomes a single "_", not "Student" |
| FormManagement.FilenameStem | hooks/use-form-management.ts:301-302 | no contract of its own; specified by FormManagement.FilenameStemRule |
| FormManagement.FilenameStemRule | hooks/use-form-management.ts:301-302 | the student part has no white space, is "Student" exactly for "" or "Student", and keeps a plain name |
| FormManagement.PdfFilename | hooks/use-form-management.ts:301-304 | there is a filename exactly when the student-name key is present |
| FormManagement.PdfFilenameRule | hooks/use-form-management.ts:301-304 | the filename is a non-empty stem without white space, "_", a non-empty id part and ".pdf"; the id part is "ID" exactly when the internal id is missing, "" or "ID", and is the internal id when that is truthy |
| FormManagement.TextLinesExact | hooks/use-form-management.ts:269-271 | every copied line is "key: value" of a non-blank field, and every non-blank field has its line |
| FormManagement.CopyText | hooks/use-form-management.ts:269-272 | no contract of its own; specified by FormManagement.CopyTextLines, FormManagement.CopyTextEmptyIff and FormManagement.CopyTextSplits |
| FormManagement.CopyTextLines | hooks/use-form-management.ts:269-271 | a non-blank text field reaches the clipboard as its own line; a blank one never does |
| FormManagement.CopyTextEmptyIff | hooks/use-form-management.ts:269-272 | the clipboard text is "" exactly when nothing is shown |
| FormManagement.CopyTextSplits | hooks/use-form-management.ts:272 | without line breaks in the values, splitting the text at line breaks gives back the copied lines |
| FormManagement.LoadedForm | hooks/use-form-management.ts:143-171 | no contract of its own; specified by FormManagement.LoadedFormKeepsData |
| FormManagement.LoadedFormKeepsData | hooks/use-form-management.ts:143-171 | loading keeps every value but the two date texts, which change only when they parse, to their formatted date |
| FormManagement.FormSession.constructor | hooks/use-form-management.ts:38-47 | the form starts at the session's defaults (as written or corrected), with no dates, hidden and not mounted |
| FormManagement.FormSession.Mount | hooks/use-form-management.ts:73-87 | once mounted, a readable draft merged over the session's defaults replaces the form; an unreadable one is ignored |
| FormManagement.FormSession.SetDate | hooks/use-form-management.ts:57-62 | the picker takes the picked date or is cleared; a picked date's formatted text is written into the submission date, and clearing leaves the text as it was |
| FormManagement.FormSession.SetExperimentDate | hooks/use-form-management.ts:65-70 | the picker takes the picked date or is cleared; a picked date's formatted text is written into the experiment date, and clearing leaves the text as it was |
| FormManagement.FormSession.SaveToDocumentHistory | hooks/use-form-management.ts:90-141 | once mounted, storage becomes the history after the update or insert; a history that cannot be read leaves storage as it was |
| FormManagement.FormSession.LoadDocumentFromHistory | hooks/use-form-management.ts:143-172 | the form becomes the loaded data, shown, with each picker set from its date text only when that parses |
| FormManagement.FormSession.IsFormValid | hooks/use-form-management.ts:174-176 | no contract of its own; specified by FormManagement.FormSession.PrintAllowed and FormSchema.ValidIffComplete |
| FormManagement.FormSession.PrintAllowed | hooks/use-form-management.ts:288-289 | printing is allowed exactly when the session is mounted and the form is complete |
| FormManagement.FormSession.CreateNewDocument | hooks/use-form-management.ts:178-180 | shows the form and changes nothing else |
| FormManagement.FormSession.ResetForm | hooks/use-form-management.ts:182-185 | the form returns to the session's defaults and both pickers are cleared |
| FormManagement.FormSession.SaveToLocalStorage | hooks/use-form-management.ts:192-205 | once mounted, the draft slot gets the form, the history gets it saved, and a mounted list reloads from the new storage |
| FormManagement.FormSession.LoadFromLocalStorage | hooks/use-form-management.ts:220-262 | the newest listed document if any; else the draft over the defaults; else "no saved data" with the form unchanged; "failed" on an unreadable draft |
| FormManagement.FormSession.OnSubmit | hooks/use-form-management.ts:347-351 | a full save followed by a second history save of the submitted values; a mounted list reloads after the first save only, so it does not show the second |

## Left out

- Rendering, toasts and logging are left out. They do not change the state the model tracks.
- The PDF export pipeline, `window.print` and the clipboard write are left out because they are foreign, asynchronous I/O. Only the filename and the clipboard text are modelled. The export's own call to save first is not modelled.
- Date formatting ("do MMMM, yyyy") and `new Date(text)` are parameters: `format: int -> string` and `parse: string -> Option<int>`. Dates are plain integers.
- Fresh ids and timestamps (`Date.now`, `Math.random`, `toISOString`) are parameters. Modification times are integers, so the sort compares integers rather than parsed ISO strings, and an unparsable time (a `NaN` comparator) is not modelled.
- The `window` function table between the panel and the form is a nullable `RecentList` argument. It is present exactly when the panel is mounted and registered.
- `refreshRecentDocuments` is modelled as always current. The panel re-registers it only when its list changes (components/assignment/recent-documents.tsx:150-159), so a panel mounted over an empty history keeps the first render's `loadDocuments`, which does nothing. In that state a form save does not refresh the panel, though `SaveToLocalStorage` and `OnSubmit` promise a reload.
- `isMounted` is a `mounted` field. Storage is read and written only once mounted. Loading from the history, creating a new document, the reset, the date pickers and clearing the recent list change in-memory state whether or not mounted.
- JSON is assumed to round-trip form records. Stored values other than a draft object, a history array or unreadable text are not modelled. This covers `null`, an empty string (which the source treats as no value) and objects of the wrong shape.
- ReadDraft: an array found in the draft slot merges as the defaults alone. The index keys such a spread adds are not represented.
- A present key of the wrong type (zod's "Expected string, received number" and the like) is not modelled: `Record` cannot hold one.
- Storage failures on write (a full quota) and writes from other tabs are left out.
- The order of form values is taken to be the defaults' keys, then `projectTitle`, `isGroupProject` and `groupMembers`. It matters only for the order of clipboard lines. The real order depends on the order in which the form library registers fields.
- Handing the form values to the validator stands in for the form library's resolver; `isValid` is `Issues(form) == []`.
- The components that render the form and the document, the page glue, and the type declaration files are not part of this model.

Three behaviours of the code that a reader might not expect, all modelled as written:

- Required base fields must have length at least 1 and are not trimmed, so white space passes.
- The history keeps the first 50 entries by position, not the 50 most recently modified. A stored history longer than 50 can lose the document being saved: its entry is updated in place beyond position 50 and then cut off (`FormManagement.SavedDocumentCanBeEvicted`).
- The filename replaces each run of white space with one "_", and an all-white-space name gives "_" rather than "Student".

## Findings

| source | as written | input that shows it | evidently intended | confidence | as-written member | corrected member |
|---|---|---|---|---|---|---|
| hooks/use-form-management.ts:17-34 | `defaultValues` has no `isGroupProject` or `groupMembers`, which the schema requires as a boolean and an array (lib/form-schema.ts:26-27), and no form input sets them | reset the form and fill in every field: both keys still report "Required", so the form never validates, printing is never allowed and the type-dependent rules never run | defaults that include `isGroupProject: false` and `groupMembers: []` | high for the defaults; not executed | FormManagement.WrittenDefaultsNeverValidate | FormManagement.DefaultValuesCanValidate |

`FormManagement.FormSession` takes its defaults as a constructor argument and uses them when the form is created, when a draft is merged and on reset. A session built with `FormManagement.WrittenDefaultValues()` is the program as written: `FormManagement.WrittenDefaultsNeverValidate` and `FormManagement.WrittenDraftNeverValidates` apply to the forms it builds from the defaults, from text edits of them and from drafts without the group-project keys. A document it loads from the history that carries those keys can still validate. A session built with `FormManagement.DefaultValues()` is the corrected program.
