# Meeting-feedback survey tool: the rules behind its screens

The application is a React front end for meeting-feedback surveys. Admins
manage employees, questions, templates and surveys. Respondents rate four
questions from 1 to 4 on a public page. The figures on the report screens are
fixed sample data, so nothing there is computed. What the code does decide is
this:

- how the employee directory's list changes under add, edit, delete and
  activate/deactivate;
- how the login form validates its two fields;
- how the response page collects answers and remembers a submission;
- which actions a template in use, or a survey outside "Draft", refuses;
- how the lists are searched;
- a few display rules: status colours, avatar initials, the overflow badge,
  and axis-label truncation.

The model has one Dafny module per screen, plus shared modules:

- `Types`: the records of `src/lib/types.ts`.
- `Text`: the JavaScript string operations used: `toLowerCase`,
  `toUpperCase`, `\s`, `trim`, `includes`, and `${n}` for numbers.
- `Seqs`: `Array.prototype.filter` and the subsequence relation.
- `TextSearch`: the case-insensitive list search that three screens share.

There are two kinds of stateful model:

- **Classes.** The employee directory, the login form and the response page
  keep state that their handlers update, so each is a class.
  `Employees.EmployeeDirectory` has a `seq<User>` field.
  `SurveyResponse.ResponsePage` has a `map<string, int>` of answers.
  `SurveyResponse.SubmissionStore` is a set of submitted survey ids; it stands
  for the browser's storage.
- **Pure functions.** Each handler's new list is also given as a pure function
  (`Appended`, `Edited`, `Deleted`, `Toggled`). The properties are proved about
  these functions.

The guard handlers and the filters change no state. Each one is a function
whose result says what the handler decides: which toast it shows, and whether
it goes past its guard.

## Model

| member | source | states |
|---|---|---|
| Types.StatusName | src/lib/types.ts:2 | the three statuses are written "Draft", "Active", "Closed" |
| Text.Contains | src/pages/Dashboard.tsx:86 | `includes` is true iff the needle occurs as a contiguous piece at some offset |
| Text.Lower | src/pages/Questions.tsx:54 | `toLowerCase` keeps the length and maps each character by the ASCII case mapping |
| Text.Upper | src/components/surveys/SurveyCard.tsx:30 | `toUpperCase` keeps the length and maps each character by the ASCII case mapping |
| Text.Trim | src/pages/Employees.tsx:91 | `trim()` removes white space at both ends and nothing else: the result is a slice of the input with only white space outside it, and it neither starts nor ends with white space |
| Text.TrimEmptyIffAllSpace | src/pages/Employees.tsx:91 | `trim()` yields "" exactly when every character is JavaScript white space |
| Text.DecimalString | src/pages/Employees.tsx:125 | `${n}` is a non-empty run of decimal digits with no leading zero |
| Text.DecimalRoundTrip | src/pages/Employees.tsx:125 | the decimal string of a number reads back as that number |
| Text.LowerOfUpper | src/pages/Questions.tsx:54 | lowercasing an uppercased string equals lowercasing the original |
| Seqs.Filter | src/pages/Employees.tsx:200 | `filter` keeps only elements satisfying the predicate and keeps every one that does |
| Seqs.FilterIsSubsequence | src/pages/Dashboard.tsx:81-87 | a filtered list is an order-preserving subsequence of the original |
| Seqs.FilterCount | src/pages/Employees.tsx:200 | each value occurs as often after filtering as before if it passes, and not at all otherwise |
| Seqs.FilterFilter | src/pages/Dashboard.tsx:81-87 | two filters in a row equal one filter by the conjunction |
| Seqs.FilterPartition | src/pages/Employees.tsx:252 | filtering by a predicate and by its negation splits the list's length |
| TextSearch.FilterByText | src/pages/Questions.tsx:53-55 | the result is a subsequence holding every occurrence of each element whose lowercased key contains the lowercased query, and no other element |
| TextSearch.EmptyQueryKeepsAll | src/pages/Templates.tsx:52-54 | the empty query keeps the whole list in order |
| TextSearch.QueryCaseIrrelevant | src/pages/Questions.tsx:54 | the query's case does not change the result |
| Employees.FormOf | src/pages/Employees.tsx:142-155 | the edit dialog's form holds the employee's name, e-mail, role, department and active flag |
| Employees.MissingRequired | src/pages/Employees.tsx:116 | name or e-mail empty (falsy), the refusal condition of both saves (also line 159); see BlankFormIsRefused |
| Employees.BlankFormIsRefused | src/pages/Employees.tsx:104-123 | the add dialog's initial form is refused, and the edit form of a record with name and e-mail is not |
| Employees.Find | src/pages/Employees.tsx:143 | `find` returns the first entry with the id, or none iff no entry has it |
| Employees.NewEmployee | src/pages/Employees.tsx:126-133 | the added record carries the given id and the form's fields, and no other optional field |
| Employees.Appended | src/pages/Employees.tsx:125-135 | an add appends exactly one record with id `${length + 1}` and keeps every earlier entry |
| Employees.EditedUser | src/pages/Employees.tsx:170-177 | each field falls back to the old value when the form's value is falsy; `active` falls back only when undefined; id and other fields are kept |
| Employees.Edited | src/pages/Employees.tsx:168-180 | an edit keeps length, order and ids, rewrites every entry with the edited id and no other |
| Employees.Deleted | src/pages/Employees.tsx:200 | a delete removes every entry with the id and keeps all others in their order, with their multiplicities |
| Employees.Toggled | src/pages/Employees.tsx:209-214 | a toggle sets `active` to the negated displayed state on entries with the id only |
| Employees.ToggleIdempotent | src/pages/Employees.tsx:208-214 | repeating a toggle from the same displayed state changes nothing more |
| Employees.EditWithOwnFormIsIdentity | src/pages/Employees.tsx:146-152 | saving the edit dialog unchanged leaves the list as it was, when every entry with the selected id equals the selected record (ids are not unique; see EditOverwritesSharedId) |
| Employees.EditOverwritesSharedId | src/pages/Employees.tsx:168-180 | with two entries sharing an id, saving the first one's own form renames the second, so the list changes |
| Employees.AddAfterDeleteCanRepeatId | src/pages/Employees.tsx:125 | after deleting "1" from ids "1","2", the next add repeats id "2" |
| Employees.ActivePlusInactiveIsTotal | src/pages/Employees.tsx:252 | the active and inactive counts add up to the total |
| Employees.CountActive | src/pages/Employees.tsx:252 | `filter(e => e.active).length`, at most the list's length |
| Employees.CountInactive | src/pages/Employees.tsx:252 | `filter(e => !e.active).length`, counting an undefined flag as inactive, at most the list's length |
| Employees.AllActiveCounts | src/pages/Employees.tsx:252 | with every employee active the header shows all of them active and none inactive |
| Employees.EmployeeMatches | src/pages/Employees.tsx:95-98 | the search callback: lowercased name, e-mail or present department contains the needle; used by Search |
| Employees.Search | src/pages/Employees.tsx:90-102 | a query that trims to "" shows everything; otherwise the shown list is a subsequence holding every occurrence of each entry whose lowercased name, e-mail or department contains the untrimmed lowercased query, and nothing else |
| Employees.BlankQueryShowsAll | src/pages/Employees.tsx:91-92 | a white-space-only query shows the whole list |
| Employees.SearchFindsByName | src/pages/Employees.tsx:94-99 | searching for an employee's own name shows that employee, every occurrence of it |
| Employees.EmployeeDirectory.constructor | src/pages/Employees.tsx:63-77 | the directory starts empty and loading, with the blank form and all dialogs closed |
| Employees.EmployeeDirectory.Load | src/pages/Employees.tsx:80-88 | the load effect installs the fetched list and ends loading |
| Employees.EmployeeDirectory.Shown | src/pages/Employees.tsx:90-102 | the shown rows are a subsequence of the list: all of it for a blank query, otherwise every occurrence of each matching entry and nothing else |
| Employees.EmployeeDirectory.ActiveCount | src/pages/Employees.tsx:252 | the header's active figure is at most the number of employees |
| Employees.EmployeeDirectory.InactiveCount | src/pages/Employees.tsx:252 | the header's inactive figure plus the active figure is the list's length |
| Employees.EmployeeDirectory.OpenAdd | src/pages/Employees.tsx:104-113 | the add dialog opens with the blank form (role "User", department "HR", active) |
| Employees.EmployeeDirectory.SaveNew | src/pages/Employees.tsx:115-140 | a missing name or e-mail is refused and changes nothing; otherwise the list becomes `Appended` and the dialog closes |
| Employees.EmployeeDirectory.OpenEdit | src/pages/Employees.tsx:142-155 | a known id selects the first entry with it, loads its form and opens the dialog; an unknown id changes nothing |
| Employees.EmployeeDirectory.SaveEdit | src/pages/Employees.tsx:157-187 | no selection or a missing name or e-mail changes nothing; otherwise the list becomes `Edited` for the selected id |
| Employees.EmployeeDirectory.OpenDelete | src/pages/Employees.tsx:189-195 | a known id selects the first entry and opens the confirmation; an unknown id changes nothing |
| Employees.EmployeeDirectory.ConfirmDelete | src/pages/Employees.tsx:197-206 | without a selection nothing changes; otherwise the list becomes `Deleted` for the selected id |
| Employees.EmployeeDirectory.ToggleActive | src/pages/Employees.tsx:208-215 | the list becomes `Toggled` for the id and displayed state |
| LoginForm.RunEnd | src/components/auth/LoginForm.tsx:25 | the maximal run of non-white-space characters from a position ends at a space or at the end |
| LoginForm.HasDot | src/components/auth/LoginForm.tsx:25 | true iff some `.` lies in the range |
| LoginForm.MatchesFrom | src/components/auth/LoginForm.tsx:25 | true iff the pattern matches with its `@` at some position from `i` on |
| LoginForm.SearchIffPattern | src/components/auth/LoginForm.tsx:25 | the executable search agrees with the meaning of `\S+@\S+\.\S+` found anywhere in the string |
| LoginForm.EmailMatches | src/components/auth/LoginForm.tsx:25 | `/\S+@\S+\.\S+/.test(email)` is true iff the pattern occurs somewhere in the string |
| LoginForm.NoAtNoMatch | src/components/auth/LoginForm.tsx:25 | a string without `@` never matches |
| LoginForm.EmailExamples | src/components/auth/LoginForm.tsx:25 | "a@b.c" and "x y@b.c z" match; "a @b.c", "a@b." and "a@.c" do not |
| LoginForm.EmailError | src/components/auth/LoginForm.tsx:22-30 | the e-mail message: the empty-field one for "", the format one for a non-match, and "" exactly when the pattern matches |
| LoginForm.PasswordError | src/components/auth/LoginForm.tsx:32-40 | the password message: the empty-field one for "", the length one below 6 characters, and "" exactly from 6 characters on |
| LoginForm.Validate | src/components/auth/LoginForm.tsx:19-43 | valid iff the e-mail matches and the password has at least 6 characters; each field gets the empty-field message, the format/length message, or "" when it passes |
| LoginForm.BothErrorsAtOnce | src/components/auth/LoginForm.tsx:20-42 | both fields are checked in one call, so both messages can be set together |
| LoginForm.LoginForm.constructor | src/components/auth/LoginForm.tsx:14-17 | inputs and messages start empty |
| LoginForm.LoginForm.ValidateForm | src/components/auth/LoginForm.tsx:19-43 | the flag and both messages it sets are those of `Validate` on the current inputs |
| LoginForm.LoginForm.HandleSubmit | src/components/auth/LoginForm.tsx:45-51 | the login callback receives the inputs exactly when validation passes |
| SurveyResponse.QuestionIds | src/pages/SurveyResponse.tsx:145-146 | the displayed questions' ids, in order |
| SurveyResponse.CountMatches | src/pages/SurveyResponse.tsx:70 | the submit check: as many answered keys as questions; see CountCheckIffAllAnswered |
| SurveyResponse.FetchedIdsDistinct | src/pages/SurveyResponse.tsx:49 | the loaded questions have distinct ids |
| SurveyResponse.DistinctSetSize | src/pages/SurveyResponse.tsx:70 | distinct ids are as many as the questions |
| SurveyResponse.CountCheckIffAllAnswered | src/pages/SurveyResponse.tsx:69-70 | with distinct ids and answers only from displayed buttons, the count check passes iff every question is answered |
| SurveyResponse.RepeatedIdBlocksSubmit | src/pages/SurveyResponse.tsx:70 | with a repeated id, all questions answered still fails the count check |
| SurveyResponse.SelectionKeepsAnswersFromPage | src/pages/SurveyResponse.tsx:149-158 | a click on a displayed rating button keeps every stored answer a displayed id with a rating in 1..4 |
| SurveyResponse.ScreenFor | src/pages/SurveyResponse.tsx:96-128 | the form shows iff not loading and not submitted; the thank-you screen iff not loading and submitted |
| SurveyResponse.SubmissionStore.constructor | src/pages/SurveyResponse.tsx:52 | the store holds the given submitted ids |
| SurveyResponse.ResponsePage.constructor | src/pages/SurveyResponse.tsx:40-43 | no questions, no answers, not submitted, loading |
| SurveyResponse.ResponsePage.CurrentScreen | src/pages/SurveyResponse.tsx:96-128 | the loading screen iff loading, else the thank-you screen iff submitted, else the form |
| SurveyResponse.ResponsePage.Load | src/pages/SurveyResponse.tsx:45-59 | the questions arrive, loading ends, and a recorded survey id yields the thank-you screen |
| SurveyResponse.ResponsePage.SelectRating | src/pages/SurveyResponse.tsx:61-66 | the question's answer becomes the rating and every other answer is kept |
| SurveyResponse.ResponsePage.Submit | src/pages/SurveyResponse.tsx:68-94 | refused with no change when the answer count differs from the question count; otherwise the id is recorded and the thank-you screen follows |
| SurveyResponse.AnswerAll | src/pages/SurveyResponse.tsx:61-66 | five clicks on four questions, one repeated, leave four answers with the later choice for the repeated one |
| SurveyResponse.SubmitOnce | src/pages/SurveyResponse.tsx:45-94 | a submit before all questions are answered is refused, a later one is accepted and records exactly this survey, and reopening the survey shows the thank-you screen |
| Dashboard.StatusOption | src/pages/Dashboard.tsx:136-138 | the drop-down value of a status is its lowercased name |
| Dashboard.StatusKept | src/pages/Dashboard.tsx:83 | the status test: the filter is "all", or the lowercased status equals the lowercased filter |
| Dashboard.StatusPasses | src/pages/Dashboard.tsx:82-84 | the first `filter` callback, defined by StatusKept |
| Dashboard.Kept | src/pages/Dashboard.tsx:82-86 | both callbacks together: status test and name search; used by FilteredSurveys |
| Dashboard.FilteredSurveys | src/pages/Dashboard.tsx:81-87 | a subsequence keeping exactly the surveys whose status passes ("all" or equal ignoring case) and whose lowercased name contains the lowercased query |
| Dashboard.AllAndEmptyShowsEverything | src/pages/Dashboard.tsx:81-87 | "all" with an empty query returns every survey in order |
| Dashboard.StatusOptionsDistinct | src/pages/Dashboard.tsx:83 | two statuses compare equal ignoring case iff they are the same status |
| Dashboard.StatusOptionSelectsExactly | src/pages/Dashboard.tsx:83 | "draft", "active" and "closed" keep exactly the surveys with that status |
| Questions.FilteredQuestions | src/pages/Questions.tsx:53-55 | a subsequence keeping exactly the questions whose lowercased text contains the lowercased query |
| Questions.EmptySearchListsAll | src/pages/Questions.tsx:53-55 | the empty query keeps every question |
| Questions.SearchIgnoresCase | src/pages/Questions.tsx:54 | the query's case does not change the rows |
| Templates.FilteredTemplates | src/pages/Templates.tsx:52-54 | a subsequence keeping exactly the templates whose lowercased name contains the lowercased query |
| Templates.EmptySearchListsAll | src/pages/Templates.tsx:52-54 | the empty query keeps every template |
| Templates.Summary | src/pages/Templates.tsx:124-129 | the card shows the question count, and "Used in surveys" iff the template is in use |
| Templates.Cards | src/pages/Templates.tsx:52-54 | one card summary per kept template, in order |
| Reports.TruncateLabel | src/pages/Reports.tsx:258-260 | labels up to 40 characters are unchanged; longer ones become their first 40 characters plus "...", 43 in all |
| Reports.TruncateIdempotent | src/pages/Reports.tsx:258-260 | truncating a truncated label changes nothing |
| SurveyCard.StatusColor | src/components/surveys/SurveyCard.tsx:34-45 | draft, active and closed, in any case, get their own class; everything else gets the grey default |
| SurveyCard.EveryStatusHasColor | src/components/surveys/SurveyCard.tsx:34-45 | every `SurveyStatus` gets its own non-default class |
| SurveyCard.Split | src/components/surveys/SurveyCard.tsx:27 | `split` yields at least one part, and no part contains the separator |
| SurveyCard.JoinSplit | src/components/surveys/SurveyCard.tsx:27 | joining the parts with the separator gives back the string |
| SurveyCard.Join | src/components/surveys/SurveyCard.tsx:27 | the inverse of `split(' ')`, as JoinSplit and SplitJoin prove; its own contract says only that the result starts with the first part and has at least one character fewer than there are parts |
| SurveyCard.SplitJoin | src/components/surveys/SurveyCard.tsx:27 | pieces free of the separator, joined and split again, come back unchanged, so Split and Join are inverse both ways |
| SurveyCard.FirstLetters | src/components/surveys/SurveyCard.tsx:28-29 | `map(part => part[0]).join('')`: no more letters than parts, one per part when none is empty and none when all are; FirstLettersOfPart and FirstLettersAppend fix the contents |
| SurveyCard.FirstLettersOfPart | src/components/surveys/SurveyCard.tsx:28 | a single part gives its first character, or nothing when it is empty (`undefined` joins as "") |
| SurveyCard.FirstLettersAppend | src/components/surveys/SurveyCard.tsx:28-29 | the letters of two lists of parts put together are the letters of the first list followed by those of the second, so each non-empty part contributes its first character, in order |
| SurveyCard.WordStartsFrom | src/components/surveys/SurveyCard.tsx:25-31 | the collected word starts are no more than the characters, and none is a space |
| SurveyCard.FirstLettersOfSplit | src/components/surveys/SurveyCard.tsx:27-29 | the first characters of the split parts, empty parts contributing nothing, are the name's word starts |
| SurveyCard.GetInitials | src/components/surveys/SurveyCard.tsx:25-31 | the initials are the uppercased word starts of the name |
| SurveyCard.InitialsOfEmptyName | src/components/surveys/SurveyCard.tsx:25-31 | the empty name has empty initials |
| SurveyCard.WordStartsAreWordStarts | src/components/surveys/SurveyCard.tsx:25-31 | every collected character is a non-space at the start or right after a space |
| SurveyCard.InitialsComeFromWords | src/components/surveys/SurveyCard.tsx:25-31 | every initial is the uppercase of a word start of the name |
| SurveyCard.ShownAvatars | src/components/surveys/SurveyCard.tsx:73 | at most the first three employees are shown, as a prefix |
| SurveyCard.OverflowCount | src/components/surveys/SurveyCard.tsx:80-83 | the badge appears iff there are more than three employees and shows length − 3 |
| SurveyCard.AvatarsAndBadgeCoverAll | src/components/surveys/SurveyCard.tsx:73-83 | avatars plus the badge's number account for every assigned employee |
| SurveyDetails.StatusColor | src/pages/SurveyDetails.tsx:120-131 | the page's copy of the colour switch, case-insensitive with the grey default |
| SurveyDetails.StatusColorMatchesCard | src/pages/SurveyDetails.tsx:120-131 | the page's copy agrees with the card's on every string |
| SurveyDetails.StatusColorIgnoresCase | src/pages/SurveyDetails.tsx:121 | upper- or lowercasing the status does not change its colour |
| SurveyDetails.NotDraft | src/pages/SurveyDetails.tsx:156 | `survey?.status !== "Draft"`, true also when there is no survey (also line 172); used by HandleEdit and HandleDelete |
| SurveyDetails.HandleEdit | src/pages/SurveyDetails.tsx:155-169 | goes past the guard iff there is a survey in "Draft"; otherwise "Cannot Edit" |
| SurveyDetails.HandleDelete | src/pages/SurveyDetails.tsx:171-184 | goes past the guard iff there is a survey in "Draft"; otherwise "Cannot Delete" |
| SurveyDetails.EditDisabled | src/pages/SurveyDetails.tsx:222 | the Edit button's `disabled`: status not "Draft"; see ButtonsMatchHandlers |
| SurveyDetails.DeleteDisabled | src/pages/SurveyDetails.tsx:232 | the Delete button's `disabled`: status not "Draft"; see ButtonsMatchHandlers |
| SurveyDetails.ButtonsMatchHandlers | src/pages/SurveyDetails.tsx:222-232 | the Edit and Delete buttons are disabled iff their handlers refuse, iff the status is not Draft |
| SurveyDetails.ResultsTabDisabled | src/pages/SurveyDetails.tsx:244 | the Results trigger's `disabled`: no responses; see ResultsHiddenWithoutResponses and LastEnabledClickWins |
| SurveyDetails.Click | src/pages/SurveyDetails.tsx:241-245 | a click shows the clicked tab, except a click on the disabled Results trigger, which keeps the current tab |
| SurveyDetails.NoResponsesNoResults | src/pages/SurveyDetails.tsx:244 | without responses, no sequence of clicks from a tab other than Results ever reaches Results |
| SurveyDetails.ResultsHiddenWithoutResponses | src/pages/SurveyDetails.tsx:240-244 | the page opens on Details, so a survey without responses never shows the Results content (the report at line 333) |
| SurveyDetails.LastEnabledClickWins | src/pages/SurveyDetails.tsx:241-245 | the last click decides the tab unless it is on the disabled Results trigger; with a response, Results is one click away |
| SurveyDetails.AvatarInitials | src/pages/SurveyDetails.tsx:260 | the initials are the uppercased word starts of the name |
| SurveyDetails.AvatarInitialsMatchCard | src/pages/SurveyDetails.tsx:433 | the page's initials expression agrees with the card's `getInitials` |
| TemplateDetails.Guarded | src/pages/TemplateDetails.tsx:62-123 | a guarded handler proceeds iff the template is not in use; otherwise it shows only its destructive refusal toast |
| TemplateDetails.Used | src/pages/TemplateDetails.tsx:48 | `template?.isUsedInSurveys`, false when there is no template; the guard of every handler |
| TemplateDetails.HandleEdit | src/pages/TemplateDetails.tsx:47-60 | editing always proceeds; a template in use first shows "Limited Editing", then "Edit Template" |
| TemplateDetails.HandleDelete | src/pages/TemplateDetails.tsx:62-75 | refused with "Cannot Delete" iff the template is in use |
| TemplateDetails.HandleAddQuestion | src/pages/TemplateDetails.tsx:77-91 | refused with "Cannot Modify Questions" iff the template is in use |
| TemplateDetails.HandleMoveQuestion | src/pages/TemplateDetails.tsx:93-107 | refused with "Cannot Reorder Questions" iff the template is in use, whatever the index |
| TemplateDetails.HandleRemoveQuestion | src/pages/TemplateDetails.tsx:109-123 | refused with "Cannot Remove Questions" iff the template is in use |
| TemplateDetails.DeleteDisabled | src/pages/TemplateDetails.tsx:172 | the delete button's `disabled`: the template is in use; see ButtonsMatchHandlers |
| TemplateDetails.AddDisabled | src/pages/TemplateDetails.tsx:193 | the add buttons' `disabled` (also line 211): the template is in use; see ButtonsMatchHandlers |
| TemplateDetails.MoveUpDisabled | src/pages/TemplateDetails.tsx:233 | in use, or the first question; see EnabledMovesStayInList |
| TemplateDetails.MoveDownDisabled | src/pages/TemplateDetails.tsx:242 | in use, or the last question; see EnabledMovesStayInList |
| TemplateDetails.RemoveDisabled | src/pages/TemplateDetails.tsx:251 | the remove button's `disabled`: the template is in use; see ButtonsMatchHandlers |
| TemplateDetails.ButtonsMatchHandlers | src/pages/TemplateDetails.tsx:172 | the delete, add (lines 193 and 211) and remove (line 251) buttons are disabled iff their handlers refuse; an enabled move button's handler proceeds |
| TemplateDetails.EnabledMovesStayInList | src/pages/TemplateDetails.tsx:233-242 | up is off at index 0 and down at the last index, both are off for a template in use, and an enabled move stays within the list |

## Left out

- Report aggregation. Averages, rating distributions and employee ratings are fixed sample literals in `src/pages/SurveyDetails.tsx` and `src/pages/Reports.tsx`; nothing computes them.
- Floating-point display arithmetic: the percentage bars (which divide by a total that may be 0), the rating-bar widths and `toFixed`.
- Authentication: the session context, the sign-in page's demo-credential check, navigation and routing, the layout and navigation bar.
- Rendering, dialogs, toast descriptions and dismissal, the one-second `setTimeout` delays (collapsed into their effect), the clipboard and the copy-success flag, the QR download and `handleForgotPassword`.
- Input `onChange` setters: these assign a field and have no rule of their own.
- Date formatting with `Intl.DateTimeFormat`.
- Text.Lower: `toLowerCase` and `toUpperCase` are modelled as the ASCII mapping only, because Unicode case mapping can change a string's length ("ß" uppercases to "SS") and is not one character at a time. String length counts characters, not UTF-16 code units.
- Text.Upper: `toUpperCase` is modelled as the ASCII mapping only, for the same reason as Text.Lower ("ß" uppercases to "SS" in JavaScript).
- Text.LowerOfUpper: a fact of the ASCII mapping only; in JavaScript "ß".toUpperCase().toLowerCase() is "ss", not "ß".
- TextSearch.QueryCaseIrrelevant: a fact of the ASCII mapping only; in JavaScript an uppercased query can differ, e.g. "ß" finds "Straße" but "SS" does not.
- Questions.SearchIgnoresCase: a fact of the ASCII mapping only, for the same reason as TextSearch.QueryCaseIrrelevant.
- SurveyDetails.StatusColorIgnoresCase: a fact of the ASCII mapping only; in JavaScript "actıve" (dotless ı) gets the grey default while its uppercase "ACTIVE" gets the active class.
- SurveyResponse.SubmissionStore: browser storage is modelled as the set of submitted survey ids; the `survey_submitted_<id>` key format and the stored "true" value are not modelled.
- SurveyDetails.Click: only pointer clicks on the tab triggers are modelled; keyboard focus movement between triggers is the tab component's own behaviour and is not part of this model.
- Employees.EmployeeForm: the name and e-mail inputs always hold strings, so the form never has them undefined.
- Employees.EmployeeDirectory.Load and SurveyResponse.ResponsePage.Load take the fetched data as a parameter; the mock data itself (except the four response-page questions) is not part of this model.
- Employees.Edited: the list may hold several records with one id (ids are not unique, see AddAfterDeleteCanRepeatId); an edit overwrites all of them, as the source does (see EditOverwritesSharedId).
- Employees.Appended: the new id is not proved fresh, because it is not fresh in general (see Employees.AddAfterDeleteCanRepeatId).
- Generated database typings carry no behaviour and are not part of this model.
