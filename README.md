# openform form builder: a Dafny model

openform is a form builder with an Arabic, right-to-left interface. An
owner composes a form from thirteen kinds of question and edits each one
in a side panel. They pick one of six visual themes and give the form a
URL slug. Then they publish it, or close it again. Respondents' answers
are stored as JSON. The owner browses them in a searchable table, deletes
single responses and exports all of them as a CSV file. An analytics page
counts the answers to each question for a bar or pie chart. For free-text
questions it lists the latest answers instead. The page also shows the
completion rate and the time of the last submission.

This project models the logic behind those screens:

| file | module | what it models |
|---|---|---|
| `json.dfy` | `JsValues` | JSON answers and the JavaScript conversions the screens apply to them: `String(x)`, `join`, `JSON.stringify`, truthiness, `Number`, `parseInt`, `trim`, `toLowerCase`, `includes` |
| `seqs.dfy` | `Seqs` | `Array.prototype.filter` and the stable `Array.prototype.sort`, with their permutation, order and stability properties |
| `questions.dfy` | `Questions` | the question-type registry, its lookup, and the creation of a new question with its kind's defaults |
| `themes.dfy` | `Themes` | the six theme presets, the lookup with its fallback, and the CSS custom properties |
| `form_builder.dfy` | `FormBuilder` | the builder's edit state as a class: save, publish, add, update, delete, reorder, the form settings and the slug rule |
| `question_editor.dfy` | `QuestionEditor` | the partial update each control of the question panel emits |
| `responses.dfy` | `Responses` | answer formatting, file answers, search, the CSV export and the delete flow of the table |
| `csv.dfy` | `Csv` | the CSV text the export writes, and a reader for it that serves as the export's inverse |
| `analytics.dfy` | `Analytics` | `getChartData`: the counting loop, `Object.entries` order and the in-place sort |
| `dashboard.dfy` | `Dashboard` | the summary statistics and what each question's card shows |

Store calls, clocks, UUIDs and locale formatting are parameters. A
method's `ok` is whether the store call succeeded, `id` is the fresh UUID,
`time` is `getTime()` of a submission, and `formatDate` is the locale
date format.

## Model

| member | source | states |
|---|---|---|
| JsValues.Field | components/responses/responses-dashboard.tsx:78-85 | a member lookup succeeds exactly when some member has that key, and the value found is that member's |
| JsValues.Lower | components/responses/responses-dashboard.tsx:133 | lower-casing keeps the length and maps every character through the ASCII lower-case map |
| JsValues.TrimEmptyIffBlank | components/responses/responses-dashboard.tsx:131 | `s.trim()` is empty exactly when every character of `s` is JavaScript whitespace |
| JsValues.LowerProperties | components/responses/responses-dashboard.tsx:133-137 | lower-casing is idempotent and does not change whether a string is blank |
| JsValues.ParseIntOfString | components/form-builder/question-editor.tsx:148 | `parseInt(String(n))` gives back `n` for every integer |
| JsValues.ToNumberOfString | components/responses/analytics-dashboard.tsx:81 | `Number(String(n))` gives back `n` for every integer, so a numeric label sorts by the number it names |
| JsValues.OwnMembers | components/responses/responses-dashboard.tsx:106 | `JSON.stringify` writes exactly the object's members, each once |
| JsValues.OwnMembersOrder | components/responses/responses-dashboard.tsx:106 | members with array-index keys come first, in ascending numeric order, then the other members in creation order |
| JsValues.OwnMembersNoIndex | components/responses/responses-dashboard.tsx:106 | an object without array-index keys is written in creation order |
| JsValues.OwnMembersIndexFirst | components/responses/responses-dashboard.tsx:106 | an index key created after a non-index key is still written first |
| JsValues.OwnMembersExample | components/responses/responses-dashboard.tsx:106 | the answer `{"b":1,"1":2}` is written with `"1"` first, as `{"1":2,"b":1}` |
| Seqs.Select | components/responses/responses-dashboard.tsx:154 | `filter` keeps exactly the elements that pass the predicate: every kept element passes and comes from the input, and every passing element is kept |
| Seqs.SelectPartition | components/responses/analytics-dashboard.tsx:73 | the elements that pass a predicate and those that fail it together make up the input, as a multiset |
| Seqs.SortByPerm | components/responses/analytics-dashboard.tsx:79-84 | sorting is a permutation of its input |
| Seqs.SortBySorted | components/responses/analytics-dashboard.tsx:79-84 | the sorted sequence is ordered by the key |
| Seqs.SortByStable | components/responses/analytics-dashboard.tsx:79-84 | the sort is stable: the elements with any given key keep their relative order |
| Seqs.IndexFirst | components/responses/analytics-dashboard.tsx:73 | an object's own-property order lists each element exactly once |
| Seqs.IndexFirstOrder | components/responses/analytics-dashboard.tsx:73 | that order puts the array-index elements first, ascending, and then the others in creation order |
| Questions.Find | lib/questions.ts:147 | whatever `find` returns has the requested type |
| Questions.FindMissing | lib/questions.ts:147 | `find` returns nothing exactly when no entry has the type |
| Questions.FindFirst | lib/questions.ts:147 | `find` returns the first entry with the type |
| Questions.GetQuestionTypeInfo | lib/questions.ts:146-148 | a found entry describes the requested type |
| Questions.RegistryDistinct | lib/questions.ts:27-144 | the registry lists thirteen entries, in the order of the source, with pairwise different types |
| Questions.RegisteredKinds | lib/questions.ts:146-148 | the lookup succeeds exactly for the thirteen supported kinds and then returns that kind's own entry |
| Questions.UnregisteredMissing | lib/questions.ts:146-148 | a type string the registry does not list finds nothing |
| Questions.DefaultsLeaveBaseFields | lib/questions.ts:27-144 | no kind's defaults set the id, type, title, description or required flag |
| Questions.DefaultConfigIs | lib/questions.ts:151-160 | the spread defaults are the kind's registry defaults, and nothing for an unregistered type |
| Questions.CreateDefaultQuestion | lib/questions.ts:150-162 | a new question has the given id and type, an empty title and description, and is optional, whatever its kind |
| Questions.CreatedAttributes | lib/questions.ts:154-161 | the type-specific attributes of a new question are exactly the spread defaults |
| Questions.KindDefaults | lib/questions.ts:47-134 | the registry's option, bound and file defaults of the dropdown, checkbox, rating, opinion-scale and file kinds |
| Questions.DefaultAttributes | lib/questions.ts:150-162 | a new dropdown or checkbox question starts with three options, a rating 1..5, an opinion scale 1..10, a file question images and PDF up to 10; an unregistered type gets no attributes |
| Questions.DefaultBoundsOrdered | lib/questions.ts:99-117 | wherever a new question has both bounds, the minimum is below the maximum |
| Themes.ThemesKeys | lib/themes.ts:3-58 | the store holds exactly the six preset ids |
| Themes.ThemesById | lib/themes.ts:3-58 | every preset is stored under its own id and is in the list |
| Themes.ThemeListDistinct | lib/themes.ts:60 | the list has six presets with pairwise different ids |
| Themes.ThemeListIsValues | lib/themes.ts:60 | the list holds exactly the stored presets |
| Themes.PresetsWellFormed | lib/themes.ts:3-60 | six presets keyed by their ids, listed once each |
| Themes.GetTheme | lib/themes.ts:62-64 | the lookup returns a listed preset: the one with the requested id, or `minimal` exactly when no preset has that id |
| Themes.CssVariables | lib/themes.ts:67-75 | a theme becomes exactly the five `--theme-*` properties |
| Themes.CssVariablesOneToOne | lib/themes.ts:67-75 | two themes get the same properties exactly when their five style fields agree |
| FormBuilder.ToggledStatus | components/form-builder/form-builder.tsx:97 | publishing always changes the status: the result is closed exactly when the form was published, and published exactly when it was a draft or closed |
| FormBuilder.UpdateById | components/form-builder/form-builder.tsx:133-135 | the update is merged into every question with the id; every other question and the length are unchanged |
| FormBuilder.FindById | components/form-builder/form-builder.tsx:64 | a found question has the id and is the first question in the list that has it; nothing is found exactly when no question has it |
| FormBuilder.FindAppended | components/form-builder/form-builder.tsx:124-130 | a question appended under a fresh id is the one the selection finds |
| FormBuilder.UpdateKeepsIds | components/form-builder/form-builder.tsx:132-137 | an update that does not name an id keeps every question's id |
| FormBuilder.SanitizeSlug | components/form-builder/form-builder.tsx:384-388 | a stored slug contains only `a-z`, `0-9` and `-`, and is no longer than the input |
| FormBuilder.SanitizeSlugIsLowerThenFilter | components/form-builder/form-builder.tsx:385 | the rule equals its two stages: lower-case the whole text, then remove every character outside `a-z`, `0-9` and `-` |
| FormBuilder.SanitizeSlugAppend | components/form-builder/form-builder.tsx:385 | the slug of two texts joined is the two slugs joined |
| FormBuilder.SanitizeSlugChar | components/form-builder/form-builder.tsx:385 | one character becomes its lower-case form when that is a slug character, and nothing otherwise |
| FormBuilder.SanitizeSlugExample | components/form-builder/form-builder.tsx:385 | the title `My Form!` gives the slug `myform` |
| FormBuilder.SanitizeSlugKeepsSlugs | components/form-builder/form-builder.tsx:384-388 | a string of slug characters passes unchanged |
| FormBuilder.SanitizeSlugIdempotent | components/form-builder/form-builder.tsx:384-388 | sanitising twice is sanitising once |
| FormBuilder.Builder.constructor | components/form-builder/form-builder.tsx:53-62 | the builder starts on the form with its questions (none when null), no selection and nothing unsaved |
| FormBuilder.Builder.SelectedQuestion | components/form-builder/form-builder.tsx:64 | there is no selected question without a selected id; with one, a question is found exactly when some question has that id, and it is one of the questions |
| FormBuilder.Builder.CurrentTheme | components/form-builder/form-builder.tsx:158 | the editor shows a listed preset: the form's own, or `minimal` |
| FormBuilder.Builder.SaveData | components/form-builder/form-builder.tsx:68-75 | a save sends no status, and it sends the current question list |
| FormBuilder.Builder.Save | components/form-builder/form-builder.tsx:66-88 | the snapshot is sent; only a successful save clears the unsaved flag; nothing else changes |
| FormBuilder.Builder.Publish | components/form-builder/form-builder.tsx:90-122 | with no questions nothing is sent and nothing changes; otherwise the snapshot goes out with the toggled status, and only a success changes the form's status and clears the unsaved flag |
| FormBuilder.Builder.AddQuestion | components/form-builder/form-builder.tsx:124-130 | the new default question is appended, selected and marked unsaved; the form is unchanged |
| FormBuilder.Builder.UpdateQuestion | components/form-builder/form-builder.tsx:132-137 | the list becomes the by-id merge and is marked unsaved; form and selection are unchanged |
| FormBuilder.Builder.DeleteQuestion | components/form-builder/form-builder.tsx:139-145 | the questions with the id are removed, every other question is kept, and the selection clears exactly when it was that id |
| FormBuilder.Builder.Reorder | components/form-builder/form-builder.tsx:147-150 | the reordered list replaces the old one and is marked unsaved |
| FormBuilder.Builder.SetTitle | components/form-builder/form-builder.tsx:175-178 | only the title changes, and the form is marked unsaved |
| FormBuilder.Builder.SetTheme | components/form-builder/form-builder.tsx:346-349 | only the theme changes, and the form is marked unsaved |
| FormBuilder.Builder.SetSlug | components/form-builder/form-builder.tsx:384-388 | the slug becomes the sanitised input, so it holds only slug characters, and the form is marked unsaved; the other form fields, the questions and the selection stay as they were |
| FormBuilder.Builder.SetDescription | components/form-builder/form-builder.tsx:400-403 | only the description changes, and the form is marked unsaved |
| FormBuilder.Builder.SetThankYouMessage | components/form-builder/form-builder.tsx:416-418 | only the thank-you message changes, and the form is marked unsaved |
| FormBuilder.DeletedQuestionNotFound | components/form-builder/form-builder.tsx:139-145 | after a delete no question with that id can be selected |
| QuestionEditor.AddOption | components/form-builder/question-editor.tsx:22-25 | only `options` is sent: the old options, then `خيار n+1` where n is their count |
| QuestionEditor.UpdateOption | components/form-builder/question-editor.tsx:27-31 | only `options` is sent: the list with that one position replaced and every other position kept |
| QuestionEditor.RemoveAt | components/form-builder/question-editor.tsx:34 | the filter removes exactly the position, and removes nothing when the index is out of range |
| QuestionEditor.DeleteOption | components/form-builder/question-editor.tsx:33-36 | only `options` is sent: the list without that position |
| QuestionEditor.DeleteNeverEmpties | components/form-builder/question-editor.tsx:93 | while the delete button is enabled, a delete removes exactly one option and leaves at least one |
| QuestionEditor.DefaultOptionsNumbered | lib/questions.ts:52 | the default options of a new dropdown or checkbox question are numbered exactly as the add button numbers them |
| QuestionEditor.AddOptionKeepsNumbering | components/form-builder/question-editor.tsx:22-25 | adding to options numbered 1..n gives options numbered 1..n+1 |
| QuestionEditor.ParsedOrDefault | components/form-builder/question-editor.tsx:148 | `parseInt(text) \|\| d`: a non-zero number is kept; NaN and 0 give the default |
| QuestionEditor.ParsedOrDefaultOfNumber | components/form-builder/question-editor.tsx:148 | a typed number reads back as itself, except that 0 gives the default |
| QuestionEditor.NumberUpdate | components/form-builder/question-editor.tsx:148-214 | each number input sends only its own field, with the parsed value or its default, and never 0 |
| QuestionEditor.OpinionMinZeroBecomesOne | components/form-builder/question-editor.tsx:180-182 | typing 0 into the opinion-scale minimum, which offers 0 and 1, stores 1 |
| QuestionEditor.ParsedOrDefaultFixed | components/form-builder/question-editor.tsx:180 | intended fallback: any number is kept, and only NaN gives the default |
| QuestionEditor.FixedNumberUpdate | components/form-builder/question-editor.tsx:148-214 | intended update: it sends the same single field as the original |
| QuestionEditor.FixedNumberUpdateKeepsNumber | components/form-builder/question-editor.tsx:180-182 | with the intended fallback every typed number is stored as itself, so the opinion scale can start at 0 |
| QuestionEditor.ControlUpdate | components/form-builder/question-editor.tsx:52-233 | the title, description and placeholder inputs and the required switch each send only their own field |
| QuestionEditor.ControlChangesOnlyItsField | components/form-builder/form-builder.tsx:132-137 | merged into a question, a control's update sets its field to the control's value and leaves every other field unchanged |
| QuestionEditor.OptionEditsChangeOnlyOptions | components/form-builder/form-builder.tsx:132-137 | merged into a question, an option edit changes only `options` |
| Responses.AsFileUpload | components/responses/responses-dashboard.tsx:88-90 | a file answer has a link or inline data, and its name is the answer's `name` member |
| Responses.GetFileUrl | components/responses/responses-dashboard.tsx:92-95 | a non-empty link wins over inline data; the result is empty exactly when both are missing or empty |
| Responses.FileUrlOfUpload | components/responses/responses-dashboard.tsx:92-95 | a file answer yields a non-empty address exactly when it carries a non-empty link or data, and the address is one of them |
| Responses.FormatAnswer | components/responses/responses-dashboard.tsx:97-109 | missing and null show `-`, booleans show yes or no, an array shows its elements joined with `, `, a file shows its name, another object shows its JSON text with the array-index keys first, and a number or text shows `String` of it |
| Responses.FormatAnswerOfTexts | components/responses/responses-dashboard.tsx:100 | a list of texts shows as those texts separated by `, ` |
| Responses.FormatAnswerOfTwo | components/responses/responses-dashboard.tsx:100 | two chosen options `x` and `y` show as `x, y` |
| Responses.FormatAnswerReadsBack | components/responses/responses-dashboard.tsx:108 | a text answer shows as typed, and a number shows as digits that `parseInt` reads back as that number |
| Responses.Search | components/responses/responses-dashboard.tsx:130-140 | a blank query keeps every response; otherwise exactly the responses with an answer containing the query, ignoring case, are kept, in order |
| Responses.SearchIgnoresQueryCase | components/responses/responses-dashboard.tsx:133-137 | searching for a lower-cased query gives the same results as the query itself |
| Responses.SearchFindsTextAnswer | components/responses/responses-dashboard.tsx:134-138 | a response with a text answer containing the query, ignoring case, is found |
| Responses.HeaderCells | components/responses/responses-dashboard.tsx:169 | the header is the date column, then each question's title, with `بدون عنوان` for an empty one |
| Responses.RowCells | components/responses/responses-dashboard.tsx:172-178 | a row is the formatted date, then the formatted answer to each question, in question order |
| Responses.ExportRecords | components/responses/responses-dashboard.tsx:168-178 | the header, then one row per response, all with one cell more than there are questions |
| Responses.ExportCsv | components/responses/responses-dashboard.tsx:162-189 | no file is produced exactly when there are no responses |
| Responses.ExportReadsBack | components/responses/responses-dashboard.tsx:181-189 | reading the exported text gives back the header and every row, cell for cell |
| Responses.ResponsesTable.constructor | components/responses/responses-dashboard.tsx:122-125 | the table starts with the given responses, the dialog closed and no target |
| Responses.ResponsesTable.RequestDelete | components/responses/responses-dashboard.tsx:366-369 | the response becomes the target and the dialog opens; the list is unchanged |
| Responses.ResponsesTable.CancelDelete | components/responses/responses-dashboard.tsx:405 | the dialog closes; target and list are unchanged |
| Responses.ResponsesTable.HandleDelete | components/responses/responses-dashboard.tsx:142-160 | with no target, or the empty id, nothing happens; otherwise a success removes exactly the responses with that id, keeping the order, a failure keeps the list, and either way the dialog closes and the target clears |
| Responses.DeleteRemovesExactly | components/responses/responses-dashboard.tsx:154 | after a delete no response with the id is left, and every other response is still there |
| Csv.EscapeQuotes | components/responses/responses-dashboard.tsx:184 | doubling quotes never shortens a cell |
| Csv.ParseQuotedEscaped | components/responses/responses-dashboard.tsx:184 | a cell with its quotes doubled reads back as the cell |
| Csv.ParseFieldQuoted | components/responses/responses-dashboard.tsx:182-184 | a quoted field reads back as its cell, whatever comma or line feed follows it |
| Csv.ParseRecordOfRecord | components/responses/responses-dashboard.tsx:182-184 | a comma-joined line of quoted cells reads back as its cells |
| Csv.ParseRecordsOfLines | components/responses/responses-dashboard.tsx:181-186 | lines joined by line feeds read back as their records |
| Csv.ParseDocument | components/responses/responses-dashboard.tsx:181-189 | a document with the byte-order mark reads back as every record and every cell |
| Analytics.AnswerLabels | components/responses/analytics-dashboard.tsx:52-69 | missing and null answers count nothing, an array counts `String` of each element, and any other answer counts one label: yes or no by truthiness on a yes/no question, `String` of the answer on any other question |
| Analytics.TotalCountsAnswers | components/responses/analytics-dashboard.tsx:48-70 | `total` is the sum over the responses of what each answer is worth: 0, the array length, or 1 |
| Analytics.FirstOccurrences | components/responses/analytics-dashboard.tsx:59 | the keys of `counts` in insertion order hold each label once, and only labels |
| Analytics.Entries | components/responses/analytics-dashboard.tsx:73 | `Object.entries` lists each key of `counts` exactly once |
| Analytics.EntriesOrder | components/responses/analytics-dashboard.tsx:73 | `Object.entries` lists the array-index keys first, ascending, and then the other keys in insertion order |
| Analytics.RowsOf | components/responses/analytics-dashboard.tsx:73-77 | each entry becomes a row with its name and count |
| Analytics.CountSumTotal | components/responses/analytics-dashboard.tsx:59-68 | the counts of the distinct labels add up to the number of labels |
| Analytics.LabelRowsSum | components/responses/analytics-dashboard.tsx:73-77 | the counts of the rows add up to the number of labels |
| Analytics.ChartRowsCountLabels | components/responses/analytics-dashboard.tsx:46-87 | each counted label appears in exactly one chart row, with its number of occurrences, and the rows add up to `total` |
| Analytics.ChartSorted | components/responses/analytics-dashboard.tsx:79-84 | rating and opinion-scale rows ascend by numeric label; all others descend by count |
| Analytics.ChartTiesKeepEntriesOrder | components/responses/analytics-dashboard.tsx:79-84 | rows that tie on the sort key keep their `Object.entries` order |
| Analytics.CountLabel | components/responses/analytics-dashboard.tsx:67-68 | one count step keeps the loop state equal to the counts, key order and total of the labels seen |
| Analytics.CountLabels | components/responses/analytics-dashboard.tsx:57-61 | counting an array's labels keeps that invariant over all of them |
| Analytics.CountAnswer | components/responses/analytics-dashboard.tsx:51-69 | one response's answer adds exactly its labels to the counts |
| Analytics.CountAnswers | components/responses/analytics-dashboard.tsx:50-70 | after the loop, `counts` holds each label's occurrences, its keys are in first-occurrence order, and `total` is the number of labels |
| Analytics.EntryRows | components/responses/analytics-dashboard.tsx:73-77 | each listed key becomes the row of its name and stored count |
| Analytics.EntryRowsAreLabelRows | components/responses/analytics-dashboard.tsx:73-77 | the rows built from the loop's results are the rows of the answer labels |
| Analytics.InsertInto | components/responses/analytics-dashboard.tsx:79-84 | one insertion step leaves the prefix as the stable sorted insertion, and the rest of the array unchanged |
| Analytics.SortRows | components/responses/analytics-dashboard.tsx:79-84 | the in-place sort leaves the array as the stable sort of its old contents by the key |
| Analytics.GetChartData | components/responses/analytics-dashboard.tsx:46-87 | the result is the sorted rows of the answer labels, and `total` is the number of labels |
| Dashboard.CompletionRate | components/responses/analytics-dashboard.tsx:103 | the rate is between 0 and 100 and is the exact percentage rounded to the nearest integer, halves up |
| Dashboard.Latest | components/responses/analytics-dashboard.tsx:107 | the latest time is at least every submission time and is one of them |
| Dashboard.CompletedCount | components/responses/analytics-dashboard.tsx:97-101 | no more responses complete than exist, and none without responses |
| Dashboard.CompleteForRequired | components/responses/analytics-dashboard.tsx:97-101 | checking the required questions picked out first is checking every question marked required |
| Dashboard.CompletedCountSnoc | components/responses/analytics-dashboard.tsx:97-101 | one more response adds one to the count exactly when it answers every required question |
| Dashboard.ComputeStats | components/responses/analytics-dashboard.tsx:93-120 | there are no statistics exactly when there are no responses; otherwise their count, the rounded rate of the completed count over that count (in 0..100) and the latest submission time |
| Dashboard.FullRate | components/responses/analytics-dashboard.tsx:103 | all responses complete rounds to exactly 100 |
| Dashboard.AllCompleted | components/responses/analytics-dashboard.tsx:97-101 | when every response answers every required question, every response counts as complete |
| Dashboard.AllCompleteRate | components/responses/analytics-dashboard.tsx:93-103 | then the rate is 100, in particular when no question is required |
| Dashboard.NoneCompleteRate | components/responses/analytics-dashboard.tsx:103 | no complete response gives a rate of 0 |
| Dashboard.LastReversed | components/responses/analytics-dashboard.tsx:269-270 | `slice(-n).reverse()` holds the last n elements, or all of them when there are fewer, newest first |
| Dashboard.LatestAnswers | components/responses/analytics-dashboard.tsx:267-275 | the preview shows, newest first, the text of the last five truthy answers |
| Dashboard.QuestionCard | components/responses/analytics-dashboard.tsx:174-213 | a card is hidden exactly when nothing counts; otherwise it is a chart for the chartable kinds (bars for checkboxes and opinion scales) or the list of the latest answers, with the total and the word `رد` for one answer and `ردود` otherwise |
| Dashboard.HiddenIffNothingCounted | components/responses/analytics-dashboard.tsx:177 | a question's card is hidden exactly when every answer is missing, null or an empty array |

## Findings

| source | as written | input that shows it | evidently intended | confidence | as-written member | corrected member |
|---|---|---|---|---|---|---|
| components/form-builder/question-editor.tsx:180-182 | the opinion-scale minimum input offers 0 and 1, but `parseInt(v) \|\| 1` treats the number 0 as missing | typing `0` stores `minValue: 1` | 0 is stored, so a scale can start at 0; only text that is not a number falls back | medium, not executed | QuestionEditor.OpinionMinZeroBecomesOne | QuestionEditor.FixedNumberUpdateKeepsNumber |

The corrected update sits beside the as-written one.
`QuestionEditor.NumberUpdate` keeps the source's behaviour.
`QuestionEditor.FixedNumberUpdate` is the intended update.
The displayed value `question.minValue || 1` (line 179) has the same fallback, and the model does not cover it.

## Left out

- Store calls (Supabase) are reduced to their outcome, the `ok` parameter; network errors beyond success and failure are not modelled.
- The `isSaving`, `isDeleting`, `showPublishDialog`, `showAddQuestion`, `activeTab` and file-preview flags, and every toast, only drive rendering and are not modelled.
- Rendering, icons, chart colours, the percentage labels and the drag-and-drop gesture are not modelled. `Reorder` takes the order the gesture produced as input.
- `crypto.randomUUID()` becomes the `id` parameter of `CreateDefaultQuestion` and `AddQuestion`.
- `formatDate` and `toLocaleString('ar-SA', ...)` are locale formatting and become the `formatDate` parameter. `new Date(...).getTime()` becomes the `time` parameter, and invalid dates (NaN) are not modelled.
- The export's file name, the Blob download, `formatFileSize` and `copyFormLink` are browser I/O and are not modelled.
- Numbers are integers only. Fractional JSON numbers, `Infinity`, NaN values and `-0` are not modelled.
- The chart's `percentage` field is floating point and is not modelled.
- Dashboard.CompletionRate: computes `Math.round` on the exact quotient. Floating-point rounding of `(completed / total) * 100` at a half is not modelled.
- Analytics.NumericLabel: the model's `Number` reads only an optionally signed run of decimal digits, so `0x10`, `1e2`, `1.5` and `Infinity`, which JavaScript reads as numbers, also get the key 0, as does every label `Number` cannot read. For those JavaScript's comparator returns NaN or compares the real value, so their order in the source is not the model's.
- JsValues.ParseIntOfString and JsValues.ToNumberOfString: the round trip holds for safe integers only. `String(1e21)` is `1e+21`, and above 2^53 a JavaScript number loses precision. The model's integers are unbounded.
- `counts` is a plain object. Keys such as `__proto__` that collide with `Object.prototype` are not modelled.
- Themes.GetTheme and FormBuilder.Builder.CurrentTheme: `themes[preset] || themes.minimal` also reads inherited properties. A stored theme of `constructor`, `toString` or `__proto__` yields a truthy `Object.prototype` member in the source, not a theme. The model gives `minimal` for every name that is not a preset id, so its promise that the result is one of the six presets holds only for such names.
- Every key of `counts` and `answers` is treated as an own property.
- JsValues.Lower: lower-cases ASCII letters only, while `toLowerCase` also maps other Unicode letters. Arabic has no case, so the search is unaffected for Arabic text. The slug rule can differ: `toLowerCase` maps U+212A (Kelvin sign) to `k` and U+0130 to `i` followed by a combining dot, so the source keeps `k` and `i` where the model drops the character.
- JsValues.Field: returns the first member with a key. A parsed JSON object never repeats a key, so the first member is the only one.
- Responses.GetFileUrl: a `url` or `data` member that is not a string is treated as absent. The source would print it with `||` whenever it is truthy.
- QuestionEditor.UpdateOption: requires an index of an existing option. The inputs that call it exist only for those positions, so assigning past the end is not modelled.
- `question.options?.length` and the other optional fields of a stored question: the model assumes the fields have their declared types. Malformed stored questions are not modelled.
- The `(form.questions as QuestionConfig[]) || []` fallback of the two dashboards is applied by the caller. The builder's fallback is modelled in its constructor.
- Supported question kinds whose registry entry sets only a placeholder have their defaults in `Questions.Defaults`. They are covered by `CreatedAttributes` and not listed one by one in `DefaultAttributes`.
- The question-type icons of the registry are components and are not modelled.
