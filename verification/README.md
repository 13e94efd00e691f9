# Learning-assessment app: the handlers, as a Dafny model

This project models the behaviour of the core of a web application for
teachers and students. Teachers create tests, upload per-tier PDFs, have an
AI extract multiple-choice questions from a PDF, and edit the question bank.
Students type a six-character test code to start a test and see their own
results. The model covers the pure logic inside the React event handlers and
the derived chart data, plus the `extract-questions` edge function. It
states, and proves, what each of these computes.

Every store the app reads or writes becomes a sequence passed in and returned:
`localStorage`, the Supabase tables, the code-generating RPC. Every call into
code outside the model becomes a function parameter whose answer the caller
chooses:
- the storage upload;
- `supabase.functions.invoke`;
- the AI gateway's `fetch`;
- `JSON.parse`;
- `auth.getUser`.

A call that can throw returns `Parse<T>` (`Throws(message)` or `Parsed(value)`).

The modules follow the source files:

| module | file | what it holds |
|---|---|---|
| `Wrappers` | `wrappers.dfy` | `Option`, `Result`, `Parse` |
| `Text` | `text.dfy` | the JavaScript string and number built-ins the handlers rely on: `trim`, `toUpperCase`/`toLowerCase`, `padStart`, `toString`, `parseInt`, `length` and `substring` in UTF-16 code units, the or-fallback for numbers and strings, template-literal rendering of `undefined`/`null` |
| `Seqs` | `seqs.dfy` | `filter`, `find`/`findIndex`, `slice`, `reverse`, and a stable `sort` by an integer key |
| `Grouping` | `grouping.dfy` | the `reduce` into an object of buckets followed by `Object.entries` |
| `QuestionBank` | `bank.dfy` | the stored question record and the option letters `String.fromCharCode(65 + i)` |
| `Assessment` | `assessment.dfy` | the assessment screen |
| `Extractor` | `extractor.dfy` | the PDF question extractor |
| `TestEditor` | `test_editor.dfy` | the test editor |
| `QuestionEditor` | `question_editor.dfy` | the question editor |
| `Wizard` | `wizard.dfy` | the test-creation wizard |
| `Uploader` | `uploader.dfy` | the PDF uploader |
| `StudentDashboard` | `student_dashboard.dfy` | the student dashboard |
| `TeacherDashboard` | `teacher_dashboard.dfy` | the teacher dashboard |
| `ExtractFunction` | `extract_function.dfy` | the `extract-questions` edge function |

## Model

| member | source | states |
|---|---|---|
| Text.TrimStart | src/components/teacher/PDFExtractor.tsx:116 | the result is a suffix of the input; only whitespace was dropped, and it starts with a non-whitespace character when non-empty |
| Text.TrimEnd | src/components/teacher/QuestionEditor.tsx:67 | the result is a prefix of the input; only whitespace was dropped, and it ends with a non-whitespace character when non-empty |
| Text.BlankIffAllWhitespace | src/components/dashboard/NewStudentDashboard.tsx:42 | `!s.trim()` holds exactly when every character of `s` is whitespace |
| Text.TrimStartKeeps | src/components/teacher/QuestionEditor.tsx:72 | a string starting with a visible character is unchanged by trimming its start |
| Text.ToUpper | src/components/dashboard/NewStudentDashboard.tsx:53 | upper-casing keeps the length, turns each `a`-`z` into the matching `A`-`Z` (32 code points lower), and leaves every other character as it is |
| Text.ToLower | src/components/teacher/CreateTestWizard.tsx:74 | lower-casing keeps the length, turns each `A`-`Z` into the matching `a`-`z`, and leaves every other character as it is |
| Text.ToUpperKeeps | src/components/dashboard/NewStudentDashboard.tsx:287 | a string without lower-case letters is its own upper case |
| Text.ToUpperIdempotent | src/components/dashboard/NewStudentDashboard.tsx:287 | upper-casing twice is upper-casing once, so the input box's upper-casing and the handler's agree; lower-casing after upper-casing is plain lower-casing; non-letters are untouched |
| Text.PadStart | src/components/assessment/AssessmentInterface.tsx:98 | the result is at least `width` long, ends with the input, and everything before it is the fill character |
| Text.NatToString | src/components/assessment/AssessmentInterface.tsx:98 | `n.toString()` is a non-empty string of decimal digits with no leading zero unless `n` is 0 |
| Text.ValueOfNatToString | src/components/assessment/AssessmentInterface.tsx:98 | the digits of `n.toString()` read back as `n` |
| Text.ParseIntOfNatToString | src/components/teacher/TestEditor.tsx:233 | `parseInt` of the decimal rendering of `n` is `n` |
| Text.ParseIntOfNegative | src/components/teacher/PDFUploader.tsx:121 | `parseInt` of `-` followed by the digits of `n` is `-n` |
| Text.ParseIntOfBlank | src/components/teacher/QuestionEditor.tsx:144 | `parseInt` of an empty or all-whitespace string is `NaN` |
| Text.IntOr | src/components/teacher/TestEditor.tsx:233 | the or-fallback on a parsed number: the number when it is a non-zero number, the fallback for `NaN` and 0; never 0 when the fallback is not |
| Text.TextOr | src/components/dashboard/NewStudentDashboard.tsx:84 | the or-fallback on a string: the string when present and non-empty, else the fallback; never empty when the fallback is not |
| Text.Utf16Length | src/components/dashboard/NewStudentDashboard.tsx:47 | JavaScript `length` counts UTF-16 code units: between one and two per character, and exactly one per character within the Basic Multilingual Plane |
| Text.TakeUnits | src/components/teacher/PDFExtractor.tsx:127 | the cut is a prefix of the input whose code units fit the bound, and the longest such prefix: the next character would exceed it; an input within the bound is kept whole |
| Text.TakeUnitsInPlane | src/components/teacher/PDFExtractor.tsx:127 | within the Basic Multilingual Plane the code-unit cut keeps exactly the first `n` characters |
| Seqs.Filter | src/components/teacher/TestEditor.tsx:65 | `filter` keeps only elements passing the test and never grows the list |
| Seqs.FilterMultiset | src/components/teacher/TestEditor.tsx:102 | every element passing the test survives as often as it occurred; every other element is gone |
| Seqs.FilterAppend | src/components/teacher/PDFExtractor.tsx:181 | filtering distributes over concatenation, so survivors keep their relative order |
| Seqs.FilterAll | src/components/dashboard/NewStudentDashboard.tsx:30 | a filter every element passes returns the list itself |
| Seqs.CountZero | src/components/teacher/TestEditor.tsx:131-134 | a filtered count is 0 exactly when no element passes the test |
| Seqs.FirstIndex | src/components/teacher/TestEditor.tsx:72 | `findIndex`: absent exactly when no element passes; otherwise a passing position with no passing position before it |
| Seqs.LastIndex | supabase/functions/extract-questions/index.ts:115 | absent exactly when no element passes; otherwise a passing position with no passing position after it |
| Seqs.Take | src/components/dashboard/NewStudentDashboard.tsx:77 | `slice(0, n)` is the prefix of `n` elements, or the whole list when it is shorter |
| Seqs.Last | src/components/dashboard/NewTeacherDashboard.tsx:164 | for a positive `n`, `slice(-n)` is the suffix of `n` elements, or the whole list when it is shorter |
| Seqs.Reverse | src/components/dashboard/NewStudentDashboard.tsx:77 | the result has the same length, and position `i` holds the element at position `i` counted from the end |
| Seqs.InsertBy | src/components/teacher/TestEditor.tsx:66 | inserting into a sorted list keeps it sorted and adds exactly the one element |
| Seqs.SortBy | src/components/teacher/TestEditor.tsx:66 | `sort` by a numeric key: the result is sorted and is a permutation of the input |
| Seqs.SortByStable | src/components/teacher/TestEditor.tsx:66 | the sort is stable: the elements sharing any one key appear in their original order |
| Seqs.LastOfSortedIsLargest | src/components/dashboard/NewTeacherDashboard.tsx:162-164 | the last `n` of the sorted list plus the rest are the input, and nothing in the rest has a larger key than anything kept |
| Grouping.GroupByCounts | src/components/dashboard/NewStudentDashboard.tsx:82-88 | the bucket of a key counts the entries with that key and sums their values; it exists exactly when the key occurs; the counts add up to the number of entries |
| Grouping.GroupByBuckets | src/components/dashboard/NewTeacherDashboard.tsx:136-147 | bucket keys are distinct, each bucket's count and total are those of its key's entries, and every bucket is non-empty |
| QuestionBank.Letter | src/components/teacher/PDFExtractor.tsx:209 | `String.fromCharCode(65 + i)` is the single character with code `65 + i` |
| QuestionBank.LetterInjective | src/components/teacher/QuestionEditor.tsx:188-198 | two positions share a letter exactly when they are the same position |
| Assessment.SelectAnswer | src/components/assessment/AssessmentInterface.tsx:75-78 | the answer is recorded for the current question and highlighted; other recorded answers, the pointer and the clock stay |
| Assessment.Next | src/components/assessment/AssessmentInterface.tsx:80-85 | moves forward and shows that question's recorded answer only while a later question exists; otherwise nothing changes |
| Assessment.Prev | src/components/assessment/AssessmentInterface.tsx:87-92 | moves back and shows that question's recorded answer only above the first question; otherwise nothing changes |
| Assessment.StepsKeepInvariant | src/components/assessment/AssessmentInterface.tsx:75-92 | answering, Next and Prev keep the pointer on an existing question and the highlight equal to that question's recorded answer |
| Assessment.RunKeepsClock | src/components/assessment/AssessmentInterface.tsx:19 | no sequence of clicks changes the remaining time |
| Assessment.RunWithoutTabsKeepsInvariant | src/components/assessment/AssessmentInterface.tsx:75-92 | any run of answer/Next/Prev clicks keeps both invariants |
| Assessment.TabJump | src/components/assessment/AssessmentInterface.tsx:161-171 | a tab click sets the pointer to the tab's index and changes nothing else |
| Assessment.TabJumpLeavesQuestions | src/components/assessment/AssessmentInterface.tsx:161-171 | on the two-question screen, tab C puts the pointer past the last question |
| Assessment.TabJumpLeavesStaleHighlight | src/components/assessment/AssessmentInterface.tsx:161-171 | answering question 1 and clicking tab B shows question 1's answer highlighted on question 2 |
| Assessment.TabJumpChecked | src/components/assessment/AssessmentInterface.tsx:161-171 | the corrected tab: it moves only to an existing question and shows that question's recorded answer |
| Assessment.RunCheckedKeepsInvariant | src/components/assessment/AssessmentInterface.tsx:73-171 | with the corrected tab, every sequence of clicks keeps both invariants |
| Assessment.FormatTimeClock | src/components/assessment/AssessmentInterface.tsx:94-99 | below 100 hours the display is `HH:MM:SS`, with minutes and seconds below 60, and the three fields recompose the seconds |
| Assessment.FormatTimeWideHours | src/components/assessment/AssessmentInterface.tsx:94-99 | from 100 hours on, the hours field keeps all its digits and still reads back as the hour count |
| Extractor.SelectFile | src/components/teacher/PDFExtractor.tsx:93-101 | a file is taken exactly when its type is `application/pdf`, and that clears the extracted list; anything else is the select-a-PDF error |
| Extractor.MakePayload | src/components/teacher/PDFExtractor.tsx:127-128 | the text sent is the longest prefix of at most 50000 UTF-16 code units and the images the first 5; inputs within the limits are sent whole |
| Extractor.MakePayloadInPlane | src/components/teacher/PDFExtractor.tsx:127 | text without characters beyond the Basic Multilingual Plane is cut at exactly 50000 characters |
| Extractor.Normalise | src/components/teacher/PDFExtractor.tsx:140-152 | each field of an AI record is kept when truthy and otherwise defaulted (`''`, four blank options, `unknown`, `medium`, `null`, `false`); the record starts selected and not being edited |
| Extractor.NormaliseIdempotent | src/components/teacher/PDFExtractor.tsx:140-152 | normalising an already normalised record changes nothing |
| Extractor.NormaliseAll | src/components/teacher/PDFExtractor.tsx:140-141 | one normalised record per AI record, in order, each under the id drawn for its position; with ids that never repeat, as `crypto.randomUUID` promises, no two records share an id |
| Extractor.Extract | src/components/teacher/PDFExtractor.tsx:103-172 | no file, then blank text, stop before the call; success exactly when the call returns with no `error` field, and then the list is the normalised answer (`[]` when it has none) with pairwise distinct ids; every error message is non-empty |
| Extractor.Merge | src/components/teacher/PDFExtractor.tsx:176 | patched fields take the patch's values and all others keep the record's |
| Extractor.UpdateQuestion | src/components/teacher/PDFExtractor.tsx:174-178 | records with the id are merged with the patch; every other record, the length, the order and all ids stay |
| Extractor.DeleteQuestion | src/components/teacher/PDFExtractor.tsx:180-182 | no record with the id remains; every other record remains as often as before |
| Extractor.DeleteQuestionAppend | src/components/teacher/PDFExtractor.tsx:180-182 | deleting distributes over concatenation, so survivors keep their order |
| Extractor.Find | src/components/teacher/PDFExtractor.tsx:185 | `find` is absent exactly when no record has the id; otherwise it is the first record with that id |
| Extractor.ToggleSelectFlips | src/components/teacher/PDFExtractor.tsx:184-186 | with unique ids, toggling flips the one record's `selected` and leaves every other record alone |
| Extractor.ToggleSelectTwice | src/components/teacher/PDFExtractor.tsx:184-186 | with unique ids, toggling `selected` twice restores the list |
| Extractor.ToggleEditingTwice | src/components/teacher/PDFExtractor.tsx:188-191 | with unique ids, toggling `editing` twice restores the list |
| Extractor.Chosen | src/components/teacher/PDFExtractor.tsx:194 | the selection is empty exactly when nothing is selected, and holds every selected record as often as listed and nothing else |
| Extractor.ChosenAppend | src/components/teacher/PDFExtractor.tsx:194 | choosing distributes over concatenation, so the selected records keep their listed order |
| Extractor.LetterOptions | src/components/teacher/PDFExtractor.tsx:208-211 | option `k` becomes `{ id: letter k, text: option k }` |
| Extractor.SaveQuestions | src/components/teacher/PDFExtractor.tsx:193-232 | nothing selected is refused; otherwise the store gains exactly one record per selected question, after the old records and in order, with lettered options, order indices continuing from the test's count, one mark and the creation time read for that record; the extractor is emptied and the selection is passed on |
| TestEditor.EffectiveDuration | src/components/teacher/TestEditor.tsx:79 | the saved duration is never 0: the new field when non-zero, else the legacy field when non-zero, else 60 |
| TestEditor.EffectiveDurationStable | src/components/teacher/TestEditor.tsx:79 | saving writes the effective duration, and saving the saved test again keeps it, whatever the legacy field holds |
| TestEditor.DurationChange | src/components/teacher/TestEditor.tsx:231-234 | the duration input changes only `duration_minutes`, and the duration then saved is the input read as the wizard reads it: the typed number when non-zero |
| TestEditor.DurationChangeOfNumber | src/components/teacher/TestEditor.tsx:231-234 | typing a positive number saves that duration; a typed 0 or a cleared field saves 60, even when the legacy field holds another value |
| TestEditor.LoadQuestions | src/components/teacher/TestEditor.tsx:62-68 | exactly the test's stored questions, each as often as stored, sorted by `order_index` |
| TestEditor.LoadQuestionsStable | src/components/teacher/TestEditor.tsx:65-66 | questions sharing an `order_index` keep their stored order |
| TestEditor.SaveTest | src/components/teacher/TestEditor.tsx:70-85 | nothing is written when no test has the id; otherwise only the first test with the id changes, taking the new title, subject and effective duration |
| TestEditor.SaveTestKeepsIdentity | src/components/teacher/TestEditor.tsx:76-80 | the saved test keeps its id, code and owner and has a non-zero duration |
| TestEditor.SaveQuestion | src/components/teacher/TestEditor.tsx:87-98 | nothing is written when the id is absent; otherwise the first question with the id is replaced in place and nothing else moves |
| TestEditor.SaveQuestionKeepsUniqueIds | src/components/teacher/TestEditor.tsx:87-98 | saving a question keeps ids unique |
| TestEditor.DeleteQuestion | src/components/teacher/TestEditor.tsx:100-107 | no question with the id remains; every other one remains as often as before |
| TestEditor.DeleteQuestionAppend | src/components/teacher/TestEditor.tsx:102 | deleting distributes over concatenation, so survivors keep their order |
| TestEditor.ToggleExpand | src/components/teacher/TestEditor.tsx:109-117 | the id leaves the expanded set if present and joins it otherwise; no other id moves |
| TestEditor.ToggleExpandTwice | src/components/teacher/TestEditor.tsx:109-117 | expanding and collapsing restores the set |
| TestEditor.DifficultyStats | src/components/teacher/TestEditor.tsx:129-136 | each of the four counts is the number of questions carrying that label, as a multiplicity among the difficulties; together they never exceed the number of questions |
| TestEditor.CountIsMultiplicity | src/components/teacher/TestEditor.tsx:129-136 | filtering by a label and taking the length counts that label's occurrences among the difficulties |
| TestEditor.StatsPartition | src/components/teacher/TestEditor.tsx:129-136 | the four counts plus the questions with any other label are all the questions |
| TestEditor.StatsCoverAll | src/components/teacher/TestEditor.tsx:129-136 | the counts sum to the number of questions exactly when every question has one of the four labels |
| TestEditor.MissingLevelsIff | src/components/teacher/TestEditor.tsx:245 | the missing-levels warning shows exactly when one of the four labels has no question |
| QuestionEditor.OptionChange | src/components/teacher/QuestionEditor.tsx:40-44 | option `index` takes the new text and keeps its letter; the other options and fields stay |
| QuestionEditor.OptionChangeUndo | src/components/teacher/QuestionEditor.tsx:40-44 | typing back the old text restores the question |
| QuestionEditor.MediaKind | src/components/teacher/QuestionEditor.tsx:50-57 | `image`, `audio` or `video` by MIME prefix, and none exactly when the type has none of the three prefixes |
| QuestionEditor.MediaKindOfPrefix | src/components/teacher/QuestionEditor.tsx:50-52 | every `kind/subtype` of the three kinds is filed under `kind` |
| QuestionEditor.MediaUpload | src/components/teacher/QuestionEditor.tsx:46-64 | an unsupported type is exactly the error case; no file or no URL changes nothing; otherwise only the URL and kind are set and the media shows |
| QuestionEditor.MediaLands | src/components/teacher/QuestionEditor.tsx:59-62 | as written, a successful upload is the record captured before the upload with the media set, replacing the current one; otherwise the current record stays |
| QuestionEditor.TextEditDuringUploadLost | src/components/teacher/QuestionEditor.tsx:59-62 | question text typed while the media uploads is reverted to the text from before the upload |
| QuestionEditor.MediaLandsOnLatest | src/components/teacher/QuestionEditor.tsx:59-62 | corrected, a successful upload sets only the media fields of the record held when it answers |
| QuestionEditor.TextEditDuringUploadKept | src/components/teacher/QuestionEditor.tsx:59-62 | corrected, question text typed during the upload survives it and the media shows |
| QuestionEditor.RemoveMedia | src/components/teacher/QuestionEditor.tsx:245 | both media fields become empty, the media no longer shows, and nothing else changes |
| QuestionEditor.RemoveThenUpload | src/components/teacher/QuestionEditor.tsx:46-64 | removing media and uploading the same file again restores the question |
| QuestionEditor.SaveCheck | src/components/teacher/QuestionEditor.tsx:66-79 | saved exactly when the text and every option are non-blank, and then unchanged; a blank text is reported before a blank option |
| QuestionEditor.SaveCheckVisible | src/components/teacher/QuestionEditor.tsx:66-79 | text and options that each start with a visible character pass |
| QuestionEditor.SetCorrectLetter | src/components/teacher/QuestionEditor.tsx:188-198 | the correct answer becomes the one character `'A' + i` and nothing else changes |
| QuestionEditor.SetCorrectLetterHighlightsOne | src/components/teacher/QuestionEditor.tsx:188-198 | after clicking button `i`, exactly button `i` is highlighted |
| QuestionEditor.MarksInput | src/components/teacher/QuestionEditor.tsx:144 | the typed number when it parses to a non-zero value, else 1 |
| QuestionEditor.MarksInputReadsNumbers | src/components/teacher/QuestionEditor.tsx:144 | typing a positive number gives that many marks; an empty field gives one |
| Wizard.SubjectPrefix | src/components/teacher/CreateTestWizard.tsx:43 | `E` exactly for `English`, `S` exactly for `Science`, `M` for everything else |
| Wizard.GenerateTestCode | src/components/teacher/CreateTestWizard.tsx:42-50 | six characters: the subject letter, then the five drawn alphabet characters |
| Wizard.GenerateTestCodeUpper | src/components/teacher/CreateTestWizard.tsx:42-50 | every generated code is its own upper case |
| Wizard.GenerateTestCodeInjective | src/components/teacher/CreateTestWizard.tsx:42-50 | for one subject, two codes are equal exactly when their draws are |
| Wizard.BasicInfoNext | src/components/teacher/CreateTestWizard.tsx:52-91 | missing title or subject is refused first, then a signed-out user; otherwise the row holding the title, the lower-cased subject, the duration, the generated code, the user and `is_active` is inserted, and the step succeeds with the id the insert answers, or fails with the insert's error message |
| Wizard.MissingFieldsBeforeAnyCall | src/components/teacher/CreateTestWizard.tsx:53-56 | an incomplete form gets the same answer whatever the user, the draws and the database would have done |
| Wizard.SubjectCasing | src/components/teacher/CreateTestWizard.tsx:43-74 | `English` is stored as `english` with an `E` code, while a subject already lower-cased gets an `M` code |
| Wizard.DurationInput | src/components/teacher/CreateTestWizard.tsx:185 | the typed number when it parses to a non-zero value, else 60; never 0 |
| Wizard.DurationInputReadsNumbers | src/components/teacher/CreateTestWizard.tsx:185 | a typed positive number is kept; a typed 0 or an empty field gives 60 |
| Wizard.GenerateTestCodeLength | src/components/teacher/CreateTestWizard.tsx:42-50 | a generated code is plain ASCII, so its JavaScript length is its six characters |
| Uploader.WithUrl | src/components/teacher/PDFUploader.tsx:53-57 | the tier's URL takes the new value and the other seven fields stay |
| Uploader.WithCount | src/components/teacher/PDFUploader.tsx:62-66 | the tier's count takes the new value and the other seven fields stay |
| Uploader.FieldsDetermine | src/components/teacher/PDFUploader.tsx:28-37 | the eight URL and count fields determine the record |
| Uploader.SingleFieldUpdates | src/components/teacher/PDFUploader.tsx:53-66 | writing back a current value changes nothing, and updates to different fields commute |
| Uploader.PdfUpload | src/components/teacher/PDFUploader.tsx:41-60 | refused exactly when the type does not contain `pdf`; stored exactly when it does and the upload gave a URL, and then only that tier's URL changes |
| Uploader.UploadLands | src/components/teacher/PDFUploader.tsx:53-58 | as written, a stored upload is built from the record captured before the upload and replaces the current one; otherwise the current record stays |
| Uploader.CountEditDuringUploadLost | src/components/teacher/PDFUploader.tsx:53-58 | a count typed while a PDF uploads is reverted to its value from before the upload |
| Uploader.UploadLandsOnLatest | src/components/teacher/PDFUploader.tsx:53-58 | corrected, a stored upload changes only the tier URL of the record held when the upload answers |
| Uploader.CountEditDuringUploadKept | src/components/teacher/PDFUploader.tsx:53-66 | corrected, a count typed during the upload survives it and the URL is set |
| Uploader.CountInput | src/components/teacher/PDFUploader.tsx:121 | the parsed number, or 0 when nothing parses |
| Uploader.QuestionCountChange | src/components/teacher/PDFUploader.tsx:62-66 | the tier's count becomes the parsed input and nothing else changes |
| Uploader.QuestionCountReadsNumbers | src/components/teacher/PDFUploader.tsx:121 | typed digits set the count to their number; a cleared field sets 0 |
| StudentDashboard.OwnResults | src/components/dashboard/NewStudentDashboard.tsx:29-31 | exactly the student's results, each as often as stored |
| StudentDashboard.OwnResultsComplete | src/components/dashboard/NewStudentDashboard.tsx:29-31 | when every stored result is the student's, all are shown |
| StudentDashboard.EnterTestCode | src/components/dashboard/NewStudentDashboard.tsx:41-69 | blank, a length other than six UTF-16 code units, unknown code and already taken are refused in that order; `already taken` is exactly the case of a known code among the student's results; a code passing all four checks is accepted, and the accepted test is the first stored test with the upper-cased code |
| StudentDashboard.AstralCodeCounted | src/components/dashboard/NewStudentDashboard.tsx:47 | four letters and one character beyond the Basic Multilingual Plane pass the length check, being six code units |
| StudentDashboard.EnterTestCodeFirstMatch | src/components/dashboard/NewStudentDashboard.tsx:53 | the accepted test is the first stored test with the code |
| StudentDashboard.GeneratedCodeOpensTest | src/components/dashboard/NewStudentDashboard.tsx:41-69 | if the test list read from `localStorage` holds a test whose `testCode` is a code the wizard generates, then typing that code as shown opens it, provided the student has not taken it and no earlier test shares the code |
| StudentDashboard.ScoreData | src/components/dashboard/NewStudentDashboard.tsx:77-80 | at most ten points, named `Test 1`, `Test 2`, ..., holding the first ten results in reverse, a missing score as 0 |
| StudentDashboard.ScoreDataNames | src/components/dashboard/NewStudentDashboard.tsx:78 | the name of point `i` reads back as `i + 1` after `Test ` |
| StudentDashboard.Label | src/components/dashboard/NewStudentDashboard.tsx:84 | a tally label is the value when present and non-empty, else `Unknown`; never empty |
| StudentDashboard.SubjectEntries | src/components/dashboard/NewStudentDashboard.tsx:83-85 | one entry of 1 per result, labelled by subject or `Unknown` |
| StudentDashboard.DifficultyEntries | src/components/dashboard/NewStudentDashboard.tsx:91-93 | one entry of 1 per result, labelled by difficulty or `Unknown` |
| StudentDashboard.SubjectTallyCounts | src/components/dashboard/NewStudentDashboard.tsx:82-88 | one bucket per subject label that occurs, each counting its results, adding up to the number of results |
| StudentDashboard.DifficultyTallyCounts | src/components/dashboard/NewStudentDashboard.tsx:90-96 | one bucket per difficulty label that occurs, each counting its results, adding up to the number of results |
| TeacherDashboard.CreateTest | src/components/dashboard/NewTeacherDashboard.tsx:76-120 | a missing title or subject is refused before the RPC; a failing RPC reports its message; otherwise the row holding the RPC's code, the subject as chosen, the title, the parsed duration with no fallback and the user is inserted, and the result is that row, or the insert's error message |
| TeacherDashboard.FormAfter | src/components/dashboard/NewTeacherDashboard.tsx:111-113 | the form resets after a created test and is kept after a failure |
| TeacherDashboard.MissingFieldsBeforeRpc | src/components/dashboard/NewTeacherDashboard.tsx:78-81 | an incomplete form gets the same answer whatever the RPC and the insert would do |
| TeacherDashboard.CreateTestDuration | src/components/dashboard/NewTeacherDashboard.tsx:98 | the reset form sends 60 minutes, while a cleared duration input sends `null` |
| TeacherDashboard.GenderOf | src/components/dashboard/NewTeacherDashboard.tsx:138 | a gender label is the profile's gender when present and non-empty, else `Unknown`; never empty |
| TeacherDashboard.GenderEntries | src/components/dashboard/NewTeacherDashboard.tsx:137-141 | one entry per result: its gender label and its score, a missing score as 0 |
| TeacherDashboard.GenderGroupsTotals | src/components/dashboard/NewTeacherDashboard.tsx:136-147 | distinct gender buckets, each counting its results and summing their scores, adding up to the number of results |
| TeacherDashboard.ClassKey | src/components/dashboard/NewTeacherDashboard.tsx:151 | the class key is the rendered grade, then a dash, then the rendered class, each recoverable from the key |
| TeacherDashboard.ClassFallbackUnreachable | src/components/dashboard/NewTeacherDashboard.tsx:151 | the `Unknown` fallback never applies, as the template literal is never empty |
| TeacherDashboard.ClassLabelWithoutProfile | src/components/dashboard/NewTeacherDashboard.tsx:151 | a result with no profile is filed under `undefined-undefined` |
| TeacherDashboard.ClassLabelChecked | src/components/dashboard/NewTeacherDashboard.tsx:151 | the corrected label is `Unknown` exactly when grade or class is missing, else `grade-class` |
| TeacherDashboard.ClassEntries | src/components/dashboard/NewTeacherDashboard.tsx:150-154 | one entry per result: its class label as written and its score |
| TeacherDashboard.ClassEntriesChecked | src/components/dashboard/NewTeacherDashboard.tsx:150-154 | one entry per result: its corrected class label and its score |
| TeacherDashboard.ClassGroupsTotals | src/components/dashboard/NewTeacherDashboard.tsx:149-160 | as written, the class buckets are distinct and add up to the results, and no bucket is `Unknown` |
| TeacherDashboard.ClassGroupsCheckedTotals | src/components/dashboard/NewTeacherDashboard.tsx:149-160 | corrected, the `Unknown` bucket exists exactly when some result lacks a grade or class |
| TeacherDashboard.LatestWindow | src/components/dashboard/NewTeacherDashboard.tsx:163-164 | at most ten results, ordered by completion time |
| TeacherDashboard.LatestWindowIsLatest | src/components/dashboard/NewTeacherDashboard.tsx:162-164 | the window and the rest are all the results, and nothing left out was completed after anything kept |
| TeacherDashboard.PerformanceTrend | src/components/dashboard/NewTeacherDashboard.tsx:162-168 | at most ten points, labelled `T1`, `T2`, ..., holding the window's scores in completion order, a missing score as 0 |
| TeacherDashboard.StudentIdsMembers | src/components/dashboard/NewTeacherDashboard.tsx:204 | the id set holds exactly the results' student ids |
| TeacherDashboard.DistinctStudentsBound | src/components/dashboard/NewTeacherDashboard.tsx:204 | the student count is at most the number of results, and equal to it exactly when no student has two results |
| ExtractFunction.UserContent | supabase/functions/extract-questions/index.ts:60-73 | the text part followed by at most the first ten images; the image note is appended exactly when some image is sent |
| ExtractFunction.UserContentImages | supabase/functions/extract-questions/index.ts:65-66 | an empty image list is treated like a missing one, and images past the tenth change nothing |
| ExtractFunction.GatewayFailure | supabase/functions/extract-questions/index.ts:89-105 | no failure exactly for a 2xx status; 429 and 402 are passed on with their messages; every other status becomes a 500 whose message starts with `AI gateway error: ` |
| ExtractFunction.GatewayErrorNamesStatus | supabase/functions/extract-questions/index.ts:104 | the 500's message names the failing status |
| ExtractFunction.MatchSpan | supabase/functions/extract-questions/index.ts:115 | the greedy match exists exactly when some opening character precedes some closing one, and it runs from the first opening to the last closing character |
| ExtractFunction.Matched | supabase/functions/extract-questions/index.ts:115-117 | `jsonMatch[0]` is the text inside the match span |
| ExtractFunction.MatchSpanMaximal | supabase/functions/extract-questions/index.ts:115 | every opening-closing pair lies inside the match, and matching the matched text again matches all of it |
| ExtractFunction.OrNone | supabase/functions/extract-questions/index.ts:117 | a present value becomes the questions, an absent one the initial `[]` |
| ExtractFunction.ParseReply | supabase/functions/extract-questions/index.ts:111-130 | no braces gives `[]`; a truthy `questions` field is returned; only a braced text whose parse throws falls back to the bracketed array |
| ExtractFunction.SingleQuestionArrayLost | supabase/functions/extract-questions/index.ts:111-130 | a bare one-question array reply gives `[]` as written, while the corrected reading returns the question |
| ExtractFunction.ParseReplyChecked | supabase/functions/extract-questions/index.ts:111-130 | the corrected reading: the object's questions, else the array's; empty exactly when neither yields any |
| ExtractFunction.ParseReplyCheckedExtends | supabase/functions/extract-questions/index.ts:111-130 | the corrected reading agrees wherever the written one finds questions, and always finds a parsable array |
| ExtractFunction.Handle | supabase/functions/extract-questions/index.ts:8-145 | a preflight gets the CORS headers and no body; an unreadable body or a missing key gives 500; a throwing gateway call gives 500 with its message; a failing gateway status gives that status's failure response; an ok reply gives 200 with the questions read from its content, or 500 when the content cannot be read; only 200, 402, 429 and 500 are answered, 200 exactly when there is no error |
| ExtractFunction.HandleStatusFollowsGateway | supabase/functions/extract-questions/index.ts:89-108 | once the gateway answers, the status sent back is its own 429 or 402, 500 for any other failing status or an unreadable reply, and 200 otherwise |
| ExtractFunction.MissingKeyBeforeGateway | supabase/functions/extract-questions/index.ts:15-19 | without a key the answer does not depend on the gateway |
| ExtractFunction.EmptyReplyGivesNoQuestions | supabase/functions/extract-questions/index.ts:107-134 | an ok reply without content answers 200 with `[]` |

## Left out

- The adaptive practice-then-tier session, the countdown and the automatic submit are not implemented in any of the modelled files. The clock is modelled only as a value no click changes.
- `LoginPage.tsx`, `TeacherDashboard.tsx` and `StudentDashboard.tsx` are routing or fixed mock data without behaviour; they are not part of this model.
- The pdf.js text and image extraction and the canvas rendering (PDFExtractor.tsx:43-91) are outside the model: a foreign library and the DOM. The text and page images arrive as parameters.
- `loadDashboardData` (NewTeacherDashboard.tsx:38-74) and `handleLogout` (NewStudentDashboard.tsx:34-39) are left out: they are only queries, navigation and `localStorage` I/O. Their results are the sequences the model takes as inputs.
- `handleFinalize` (CreateTestWizard.tsx:93-122) is left out: it only writes the PDF record to the database and reports the code.
- The merge into the wizard's record through `onPDFsChange` is outside the model. The uploader's new record is the model's output.
- The storage upload is outside the model. The uploaded URL, or its absence, is a parameter; what the user edits while it runs is a second, current record.
- Extractor.MakePayload: when code unit 50000 is the first half of a surrogate pair, `substring` sends that lone half; the model stops before the pair, because a `char` cannot hold half a pair.
- StudentDashboard.GeneratedCodeOpensTest: the wizard writes its code to the Supabase `tests.test_code` column (CreateTestWizard.tsx:70-81), while the student screen looks codes up in the `localStorage` list (NewStudentDashboard.tsx:52-53). Nothing in the modelled files copies one store into the other, so the lemma holds only for a code that reached the local list.
- `performanceTrend` sorts the `allResults` state array in place (NewTeacherDashboard.tsx:162-163). From the next render on, the gender and class buckets are built in completion order, so their order can change; their contents do not. The model sorts a copy.
- StudentDashboard.SubjectTallyCounts: the tallies live in a plain `{}` object. A label naming an `Object.prototype` member (`__proto__`, `constructor`, `toString`, ...) gets no correct count in the source, so the totals promised here do not hold for such labels.
- StudentDashboard.DifficultyTallyCounts: the same for difficulty labels naming an `Object.prototype` member.
- TeacherDashboard.GenderGroupsTotals: the same for gender labels naming an `Object.prototype` member; in the source such a label gets no bucket of its own.
- The class buckets are not affected: a class key always contains a dash, and no `Object.prototype` member name does.
- Averages shown with `toFixed` are left out because they are floating-point display values:
  - `avgScore` (NewStudentDashboard.tsx:73-75, NewTeacherDashboard.tsx:132-134);
  - the averages of the gender and class buckets;
  - the progress percentage.
  The buckets' totals and counts they divide are modelled.
- `Math.random`, `crypto.randomUUID` and the per-record `new Date()` of the extractor's save become supplied draws (indices into the code alphabet), a supplied `freshId` and a supplied `clock`, each read once per position.
- `Date` parsing is left out. `completed_at` is modelled as an already parsed timestamp.
- `Object.entries` puts integer-like keys first. The model keeps first-occurrence order for every key, so bucket order can differ for labels like `"12"`. The bucket contents are the same.
- `toUpperCase`/`toLowerCase` are modelled on ASCII letters only; other Unicode case mappings are not modelled. `trim` and `parseInt` skip the full ECMAScript white-space and line-terminator set.
- `parseInt` is modelled exactly on integers: leading whitespace, an optional sign, a `0x` prefix, then the longest run of digits. The floating-point result is not modelled: precision loss above 2^53, `Infinity` for very long inputs, and `-0`.
- QuestionBank.Letter: positions are limited to letters below the UTF-16 surrogate range. Past that, `String.fromCharCode` yields a lone surrogate that `char` cannot hold.
- Extractor.SaveQuestions: requires every option list to be short enough to letter, for the same reason.
- QuestionEditor.OptionChange: requires `index` to name an existing option. The screen only calls it for the options it renders.
- The system prompt's wording (extract-questions/index.ts:21-53) is not modelled, and neither are the exact request headers beyond the bearer key. Console logging and the error body read with `response.text()` are left out too.
- ExtractFunction.Handle: a thrown value that is not an `Error` (`"Unknown error"`) is not modelled. Every failure carries a message string.
- The question list returned by the edge function is abstract (`Q`), because the JSON shapes `JSON.parse` accepts are not modelled.
- All JSX rendering, toasts, colours and charts are left out.

## Findings

| source | as written | input that shows it | evidently intended | confidence | as-written member | corrected member |
|---|---|---|---|---|---|---|
| src/components/assessment/AssessmentInterface.tsx:161-171 | the five tabs A-E set the pointer to their index whatever the number of questions, and do not refresh the highlighted answer | on the two-question screen, click tab C: the pointer becomes 2 and rendering `questions[currentQuestion].title` (line 142) reads from `undefined` and throws; or answer question 1 and click tab B: question 2 shows with question 1's answer highlighted | only tabs naming an existing question move the pointer, and the highlight shows that question's answer as Next/Prev do | high, not executed | Assessment.TabJumpLeavesQuestions | Assessment.RunCheckedKeepsInvariant |
| src/components/dashboard/NewTeacherDashboard.tsx:151 | the template literal is never empty, so the `'Unknown'` fallback never applies | a result whose student has no profile is grouped as `undefined-undefined` | results without a grade or class grouped under `Unknown` | high, not executed | TeacherDashboard.ClassGroupsTotals | TeacherDashboard.ClassGroupsCheckedTotals |
| supabase/functions/extract-questions/index.ts:111-130 | the array fallback runs only when parsing the braced text throws | the reply `[{"question_text":"Q"}]`: the braced text parses as an object without `questions`, so the function answers `[]` | fall back to the array whenever the object yields no questions | medium, not executed | ExtractFunction.SingleQuestionArrayLost | ExtractFunction.ParseReplyCheckedExtends |
| src/components/teacher/PDFUploader.tsx:53-58 | the new record spreads the `pdfs` captured before `await uploadPDF` | replace the easy PDF and, while it uploads, type 12 into the practice count: when the upload answers, the practice count is back to its old value | set only the tier URL on the record current when the upload answers | medium, not executed | Uploader.CountEditDuringUploadLost | Uploader.CountEditDuringUploadKept |
| src/components/teacher/QuestionEditor.tsx:59-62 | the new record spreads the `editedQuestion` captured before `await uploadMedia` | choose an image and, while it uploads, type new question text: when the upload answers, the text is back to what it was | set only the media fields on the record current when the upload answers | medium, not executed | QuestionEditor.TextEditDuringUploadLost | QuestionEditor.TextEditDuringUploadKept |
