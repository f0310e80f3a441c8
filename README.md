# Happy-Survey: a verified model of the survey bookkeeping

Happy-Survey is a small survey application. Administrators log in, author a
survey (an ordered list of questions) and publish it. Anyone can fill in a
published survey. Administrators then browse the submissions one respondent
at a time. A question is either open (free text) or a choice question, and
the single integer `max` tells them apart: `max == 0` is open, `max >= 1` is
a choice question whose respondent selects between `min` and `max` options.
The model keeps that integer as it is (`SurveyData.IsChoiceQuestion`).

The Dafny modules follow the program's files:

| module | file | models |
|---|---|---|
| `SurveyData` | `survey_data.dfy` | the records exchanged between client and server, and the ordering of questions by `position` |
| `SurveyDao` | `survey_dao.dfy` | the data access layer: the five tables as sequences of rows in the class `Store`, the statements that write them and the queries that read them |
| `Server` | `server.dfy` | the request validators (422), the login gate (401) and the handlers of the survey and submission routes |
| `CreationSurvey` | `creation_survey.dfy` | the authoring form (`SurveyEditor`) and the editor of one question (`QuestionEditor`) |
| `Submission` | `submission.dfy` | the respondent's form: the initial answers, the handlers that edit one answer, the per-question counter and the cardinality check |
| `SubmissionsList` | `submissions_list.dfy` | the administrator's view: the regrouping of close-answer rows by question, the sheets built per respondent, and the cursor over them |
| `EndToEnd` | `end_to_end.dfy` | how the bodies the client sends pass the server's checks, and how a published survey reads back from the store |

Code that changes state step by step is modelled as classes and methods:
`Store`, `SurveyEditor`, `QuestionEditor`, `AnswerForm`, `ChoiceCounter` and
`SheetViewer`. Each method's loop is proved against a specification function.
The validators with early `return false` are methods proved equivalent to a
predicate. The queries, the regrouping reduce and the sort are functions,
with lemmas about them.

The SQLite row identifiers are the counters `nextSurveyID`,
`nextQuestionID` and `nextChoiceID` of `Store`. The session
(`req.isAuthenticated()`, `req.user.id`) becomes handler parameters, and so
does the browser's form validation (`checkValidity()`).

## Model

| member | source | states |
|---|---|---|
| SurveyData.InsertByPosition | client/src/components/Submission.js:25 | the result holds the list's questions plus exactly the inserted one |
| SurveyData.InsertKeepsSorted | client/src/components/Submission.js:25 | inserting a question into a list ordered by position keeps the list ordered |
| SurveyData.SortByPosition | client/src/components/Submission.js:25 | the displayed questions are ordered by ascending position and are a permutation of the questions received |
| SurveyData.SortSortedIsIdentity | client/src/components/Submission.js:25 | a list already ordered by distinct positions is left as it is |
| SurveyData.SortedPermutationUnique | client/src/components/Submission.js:25 | with distinct positions, two orderings of the same questions by position are equal, so any sort with this comparator gives the same list |
| SurveyData.SortIsDeterminedByPositions | client/src/components/Submission.js:25 | with distinct positions, every ordering of the questions by position is the one the model computes |
| SurveyDao.UserIDs | server/survey-dao.js:122 | the union of the userID columns of both answer tables holds every row's identifier |
| SurveyDao.MaxOrZero | server/survey-dao.js:122-132 | the largest identifier of the list and a member of it, or 0 when the list is empty |
| SurveyDao.QuestionsOfSurvey | server/survey-dao.js:90 | exactly the question rows of the survey, as views, one per matching row |
| SurveyDao.ChoicesOfMembers | server/survey-dao.js:105 | the choices selected for a question are exactly the choice rows that refer to it, one per row |
| SurveyDao.AdminSurveysOf | server/survey-dao.js:73-75 | exactly the surveys whose `admin` column equals the argument, one per matching row |
| SurveyDao.Store.MaxUserID | server/survey-dao.js:120-134 | 0 when both answer tables are empty; otherwise an identifier present in one of them and at least every identifier in both |
| SurveyDao.Store.QuestionsBySurveyID | server/survey-dao.js:88-100 | ordered by position, and holds exactly the questions whose `survey` is the argument, one per matching row |
| SurveyDao.Store.ChoicesByQuestionID | server/survey-dao.js:103-116 | every field but `content` is kept; `content` is exactly the choices recorded for that question, one per row, each with its `question` column |
| SurveyDao.Store.ListAdminSurveys | server/survey-dao.js:71-85 | exactly the surveys owned by the administrator, with their submission counts, one per matching row |
| SurveyDao.Store.AddSubmission | server/survey-dao.js:138-182 | one close-answer row per close answer and one open-answer row per open answer, all under `lastUserID + 1` with the name; that survey's `nSubmissions` is raised; nothing else changes |
| SurveyDao.Store.CreateSurvey | server/survey-dao.js:10-54 | one survey row with no submissions, one question row per question under the new survey id, choice rows only for choice questions; returns the new id |
| SurveyDao.Store.InsertSurvey | server/survey-dao.js:12-23 | appends the survey row with `nSubmissions` 0 and returns the next survey identifier |
| SurveyDao.Store.InsertQuestion | server/survey-dao.js:25-48 | appends the question row with its title, `min`, `max` and `position`, then one choice row per option only when `max >= 1` |
| SurveyDao.NextUserIDIsFresh | server/survey-dao.js:140 | `getMaxUserID() + 1` is larger than every identifier in either answer table |
| SurveyDao.SubmissionRowsBelongToOneRespondent | server/survey-dao.js:140-167 | after a submission under the fresh identifier, that respondent's rows are exactly the submission's rows and every other respondent's rows are unchanged |
| SurveyDao.CloseRowsOfFreshUser | server/survey-dao.js:141-154 | close rows appended under a fresh identifier are that identifier's only rows, and they leave other identifiers' rows alone |
| SurveyDao.OpenRowsOfFreshUser | server/survey-dao.js:155-167 | the same for the open-answer rows |
| SurveyDao.CountSubmissionAddsOne | server/survey-dao.js:169-180 | with distinct survey ids, the total submission count rises by exactly one when the survey exists and not at all otherwise; other surveys keep their rows |
| SurveyDao.CreatedQuestionsReadBack | server/survey-dao.js:25-28 | questions numbered 0, 1, 2, ... read back through `getQuestionsBySurveyID` in authored order, with their titles, `min` and `max`, under consecutive ids |
| SurveyDao.CreatedChoicesReadBack | server/survey-dao.js:36-40 | each created question reads back exactly its option texts when `max >= 1` and none when it is open |
| SurveyDao.ChoicesOfCreated | server/survey-dao.js:36-40 | among the created choice rows, question `k`'s are its own options in order, and none for an open question |
| Server.CheckCloseAnswers | server/server.js:168-174 | accepts iff every close answer has integer-number `questionID`, `choiceID` and `value`, with `value` 0 or 1 |
| Server.CheckOpenAnswers | server/server.js:175-181 | accepts iff every open answer's text has at most 200 characters |
| Server.ValidateSubmission | server/server.js:165-185 | accepts iff `surveyID` is an integer, the name has 1 to 100 characters, and both answer lists pass |
| Server.DecodeSubmission | server/server.js:187 | an accepted body is recorded exactly as sent: survey id, name, open answers, and each close answer's question, choice and value, the value being 0 or 1 |
| Server.CheckQuestions | server/server.js:232-238 | accepts iff every question has `max <= 10`, `min >= 0`, `max >= 0`, an integer-number id and a non-empty title |
| Server.ValidateSurvey | server/server.js:230-243 | accepts iff the title is not empty and every question passes; `min <= max` is not checked |
| Server.DecodeSurvey | server/server.js:244 | an accepted body gives the survey exactly as sent: each question's id, title, option list, position, `min` and `max`, with `min >= 0` and `0 <= max <= 10` |
| Server.PostSubmission | server/server.js:165-190 | 422 and no store change iff the body is invalid; otherwise 201, and the submission is recorded under `getMaxUserID() + 1` |
| Server.PostSurvey | server/server.js:230-249 | 401 without a session, 422 for an invalid body, each with no store change; otherwise 201 and the survey is created for the logged-in administrator |
| Server.Attach | server/server.js:209-214 | an open question passes through unchanged; a choice question keeps its other fields and gets exactly its recorded choices, one per choice row |
| Server.GetSurvey | server/server.js:199-222 | 422 when the id is not an integer; otherwise 200, and the result holds each question of the survey exactly once, with choices attached by the `max >= 1` rule |
| Server.AssembledSurvey | server/server.js:208-215 | the assembled survey has one item per question: open questions as stored, choice questions with their choices, nothing else |
| Server.GetSubmissions | server/server.js:130-159 | 401 without a session, then 422 for a non-integer id; otherwise one entry per listed respondent, entry `i` holding the answers fetched for respondent `i` |
| Server.GetAdminSurveys | server/server.js:267-273 | 401 without a session; otherwise exactly the surveys of the administrator named in the URL, one per matching row |
| CreationSurvey.IndexOf | client/src/components/CreationSurvey.js:56 | the first index holding the identifier, or -1 when no question holds it |
| CreationSurvey.IndexOfUnique | client/src/components/CreationSurvey.js:56 | the first position that carries an identifier is the one found |
| CreationSurvey.WithPositions | client/src/components/CreationSurvey.js:33-35 | every question's position becomes its index; order and all other fields are unchanged |
| CreationSurvey.SurveyEditor.AddQuestion | client/src/components/CreationSurvey.js:48-54 | exactly one question is appended under `lastQuestionID`, which then grows by one, and the editor closes; identifiers stay distinct |
| CreationSurvey.SurveyEditor.StartInsertQuestion | client/src/components/CreationSurvey.js:127 | opens the question editor and changes nothing else |
| CreationSurvey.SurveyEditor.RemoveQuestion | client/src/components/CreationSurvey.js:55-60 | the element at `findIndex` is spliced out (the last one when the id is absent); identifiers stay distinct |
| CreationSurvey.SurveyEditor.MoveUp | client/src/components/CreationSurvey.js:61-70 | the question is exchanged with its predecessor unless it is first or absent |
| CreationSurvey.SurveyEditor.MoveDown | client/src/components/CreationSurvey.js:71-80 | the question is exchanged with its successor unless it is last |
| CreationSurvey.SurveyEditor.Publish | client/src/components/CreationSurvey.js:19-46 | publishes iff the form is valid and no question is being composed; then every position equals its index; otherwise nothing changes |
| CreationSurvey.SpliceKeepsIds | client/src/components/CreationSurvey.js:55-60 | removal keeps the temporary ids distinct and below `lastQuestionID` |
| CreationSurvey.SwapKeepsIds | client/src/components/CreationSurvey.js:61-80 | an exchange keeps the same questions and keeps ids distinct and in range |
| CreationSurvey.RemovePresent | client/src/components/CreationSurvey.js:55-60 | removing a listed id shortens the list by one, takes out exactly that question and keeps the others in order |
| CreationSurvey.RemoveAbsent | client/src/components/CreationSurvey.js:56-58 | removing an unlisted id drops the last question |
| CreationSurvey.MoveUpPermutes | client/src/components/CreationSurvey.js:61-70 | moving up keeps the same questions, exchanges `i - 1` and `i` only, and leaves the first question in place |
| CreationSurvey.MoveDownPermutes | client/src/components/CreationSurvey.js:71-80 | moving down keeps the same questions, exchanges `i` and `i + 1` only, and leaves the last question in place |
| CreationSurvey.MoveDownThenUp | client/src/components/CreationSurvey.js:61-80 | with distinct ids, moving a question that is not last down and then up restores the list |
| CreationSurvey.ToggledRequired | client/src/components/CreationSurvey.js:350 | for an integer `min`, the "Required" switch gives 1 exactly when `min` was 0, and 0 otherwise |
| CreationSurvey.ToggleTwice | client/src/components/CreationSurvey.js:350 | switching twice restores a 0/1 `min` |
| CreationSurvey.ClampedMax | client/src/components/CreationSurvey.js:325 | the max field is at least 1 and keeps any value of 1 or more |
| CreationSurvey.WithoutIsRemoval | client/src/components/CreationSurvey.js:278 | filtering out an index in range removes exactly that option; one out of range removes nothing |
| CreationSurvey.QuestionEditor.constructor | client/src/components/CreationSurvey.js:140-143 | a new editor has an empty title, no options, `min` 0 and `max` 1 |
| CreationSurvey.QuestionEditor.ChangeType | client/src/components/CreationSurvey.js:166-175 | open to close gives `max` 1 with no options, close to open gives `max` 0 with no options, and choosing the current kind changes nothing |
| CreationSurvey.QuestionEditor.MountOptions | client/src/components/CreationSurvey.js:263-267 | a choice question with no options gets one empty option; otherwise nothing changes |
| CreationSurvey.QuestionEditor.AddNewOption | client/src/components/CreationSurvey.js:255-257 | appends one empty option while there are fewer than ten |
| CreationSurvey.QuestionEditor.UpdateOption | client/src/components/CreationSurvey.js:258-262 | only the option at the index takes the new text |
| CreationSurvey.QuestionEditor.DeleteOption | client/src/components/CreationSurvey.js:278 | removes only the option at the index, keeping the others in order |
| CreationSurvey.QuestionEditor.SetMax | client/src/components/CreationSurvey.js:325 | `max` becomes the typed value raised to at least 1 |
| CreationSurvey.QuestionEditor.SetMin | client/src/components/CreationSurvey.js:311 | `min` becomes the typed value, taken as an integer |
| CreationSurvey.QuestionEditor.ToggleRequired | client/src/components/CreationSurvey.js:350 | `min` flips between 0 and 1 |
| CreationSurvey.QuestionEditor.Submit | client/src/components/CreationSurvey.js:148-164 | with a valid form, the composed question is added to the survey and the editor is reset to "", [], 0, 1; otherwise nothing changes |
| Submission.InsertItem | client/src/components/Submission.js:20 | the result holds the list's items plus exactly the inserted one |
| Submission.InsertItemKeepsSorted | client/src/components/Submission.js:20 | inserting an item into a list ordered by position keeps the list ordered |
| Submission.SortItemsByPosition | client/src/components/Submission.js:20 | the items are ordered by ascending position and are a permutation of the items given |
| Submission.ShownSheet | client/src/components/Submission.js:19-20 | the shown sheet keeps the respondent's name, and its groups and open answers are those of the sheet ordered by position |
| Submission.ShownSheetContents | client/src/components/Submission.js:19-20 | for a sheet built from a respondent's answers, the admin sees that respondent's name and, ordered by position, exactly the respondent's groups of choices and open answers |
| Submission.InitAnswers | client/src/components/Submission.js:24-39 | questions ordered by position; one empty open answer per open question and one unselected close answer per choice, in question order |
| Submission.OpenAnswersOfMembers | client/src/components/Submission.js:28-31 | there is an open answer with empty text exactly for each question with `max == 0` |
| Submission.CloseAnswersOfMembers | client/src/components/Submission.js:32-36 | there is a close answer with value 0 exactly for each choice of each other question |
| Submission.SelectedCount | client/src/components/Submission.js:55 | the count of selected entries of a question is at most the number of entries |
| Submission.InitialCountsAreZero | client/src/components/Submission.js:34 | every question's count of selections starts at 0 |
| Submission.CheckCardinality | client/src/components/Submission.js:53-61 | passes iff every question with `max >= 1` has between `min` and `max` selections |
| Submission.UntouchedFormCheck | client/src/components/Submission.js:53-61 | an untouched form passes the check iff no choice question has `min >= 1` |
| Submission.FindOpen | client/src/components/Submission.js:79 | the first index of an open answer for the question, or -1 when there is none |
| Submission.FindClose | client/src/components/Submission.js:87 | the first index of a close answer for the choice, or -1 when there is none |
| Submission.WithText | client/src/components/Submission.js:78-85 | only the first answer of that question takes the text; with no such answer nothing changes |
| Submission.Toggled | client/src/components/Submission.js:86-93 | only the first entry of that choice flips as `value ? 0 : 1` does; with no such entry nothing changes |
| Submission.AnswersStayBits | client/src/components/Submission.js:86-93 | the initial values are 0/1 and clicking keeps every value 0/1 |
| Submission.ToggleTwice | client/src/components/Submission.js:90 | clicking the same checkbox twice restores 0/1 answers |
| Submission.FindCloseUnique | client/src/components/Submission.js:87 | the first entry carrying a choice id is the one found |
| Submission.ToggleChangesCount | client/src/components/Submission.js:86-93 | checking a box raises its question's count by one, unchecking lowers it by one, and other questions' counts stay |
| Submission.AnswerForm.constructor | client/src/components/Submission.js:24-39 | the form starts with the questions ordered by position and the initial answers |
| Submission.AnswerForm.UpdateOpenAnswer | client/src/components/Submission.js:78-85 | only the open answers change, as `WithText` says |
| Submission.AnswerForm.UpdateCloseAnswer | client/src/components/Submission.js:86-93 | only the close answers change, as `Toggled` says |
| Submission.AnswerForm.HandleSubmit | client/src/components/Submission.js:48-76 | sends iff the cardinality check passes and the form is valid; otherwise the form is marked validated; the answers are unchanged |
| Submission.ChoiceCounter.constructor | client/src/components/Submission.js:137 | the counter starts at 0 |
| Submission.ChoiceCounter.UpdateOption | client/src/components/Submission.js:139-148 | the counter rises by one on check and falls by one on uncheck, and the click reaches the form |
| Submission.CounterTracksSelection | client/src/components/Submission.js:139-148 | a counter that agrees with the form's count of selections still agrees after a click |
| SubmissionsList.FindGroup | client/src/components/SubmissionsList.js:25 | a group for the question, or -1 when no group has that question |
| SubmissionsList.GroupCloseAnswers | client/src/components/SubmissionsList.js:24-34 | the reduce with its per-row sort yields the groups of `GroupRows` in some order: one per question with rows, each with its choices in arrival order |
| SubmissionsList.SortGroups | client/src/components/SubmissionsList.js:33 | the sort of the accumulator only rearranges the groups |
| SubmissionsList.StepPermuted | client/src/components/SubmissionsList.js:25-33 | a reduce step on a re-sorted accumulator gives a rearrangement of the step on the unsorted one |
| SubmissionsList.PermutedGroupedBy | client/src/components/SubmissionsList.js:24-33 | grouping by question does not depend on the order of the groups, so re-sorting keeps one group per question with its choices |
| SubmissionsList.GroupRowsGroups | client/src/components/SubmissionsList.js:24-32 | one group per question that has rows and no other; each holds its question's choices in arrival order, with the title and position of the first row |
| SubmissionsList.GroupTotal | client/src/components/SubmissionsList.js:24-34 | the groups hold as many choices as there are rows |
| SubmissionsList.BuildSheets | client/src/components/SubmissionsList.js:17-37 | one sheet per respondent, in the order received, named after the respondent, with the grouped close answers (in some order) followed by the open answers as received |
| SubmissionsList.SheetViewer.constructor | client/src/components/SubmissionsList.js:10 | the view opens on the first sheet |
| SubmissionsList.SheetViewer.Previous | client/src/components/SubmissionsList.js:47-49 | the cursor moves back by one and stays on a sheet |
| SubmissionsList.SheetViewer.Next | client/src/components/SubmissionsList.js:50-52 | the cursor moves forward by one and stays on a sheet |
| EndToEnd.FormSubmissionAccepted | client/src/API.js:74-83 | the form's answers, with a name of 1 to 100 characters and texts of at most 200, pass the server's checks and are recorded as the form held them |
| EndToEnd.LongNameRefused | server/server.js:167 | a name over 100 characters, which the form does not prevent, is refused |
| EndToEnd.PublishedSurveyAccepted | client/src/API.js:46-55 | a published survey with titles, `min >= 0` and `0 <= max <= 10` passes the server's checks and is created as the form held it |
| EndToEnd.PublishedSurveyReadsBack | client/src/components/CreationSurvey.js:32-36 | after publication and creation, the questions read back in authored order, numbered 0, 1, 2, ... |

## Left out

- Login, logout, sessions, passport and the Express set-up are not part of this model. `server/user-dao.js` is not part of this model either. Whether the session is authenticated is a boolean parameter of the handlers.
- Database failures (the 500 and 503 answers) are not modelled. The SQL statements are modelled by their relational meaning over in-memory tables.
- Promise timing is not modelled. Each operation runs sequentially: `createSurvey` resolving before its inserts finish, and the `Promise.all` fan-outs, are outside the model.
- Server.GetSurvey: states only which questions the result holds, not their order. The server pushes choice questions as their queries complete, so the order of the response depends on timing.
- Server.GetSubmissions: the list of respondents (`listUsersSubmissions`) and the two per-respondent answer queries are parameters. Their SQL is not part of this model.
- SurveyDao.NextUserIDIsFresh: freshness holds only when no other submission is recorded between `getMaxUserID` and `addSubmission`. Concurrent requests can read the same maximum.
- Server.PostSubmission: the `:id` of the URL is not used. The source records the body's `surveyID`, and so does the model.
- Server.GetAdminSurveys: lists the surveys of the administrator named in the URL, as the source does, not those of the session's user. The URL segment is an integer here; the source passes any string, and a non-numeric one matches no survey and answers 200 with an empty list.
- Server.ValidateSurvey: the server does not check `min <= max`, a choice question's number of options, or any required answers. The model leaves them unchecked too.
- Server.CheckOpenAnswers: `|text|` counts characters. JavaScript's `length` counts UTF-16 code units.
- Server.ValidateSubmission: `isLength` counts code points. The model counts characters.
- Server.DecodeSurvey: `min` and `max` are integers. In the client they are strings from the input fields, which JavaScript coerces when comparing.
- SubmissionsList.SortGroups: the sort of the accumulator at client/src/components/SubmissionsList.js:33 has a comparator that reads `choiceID`, which groups do not have, so the order of groups depends on the engine. Its contract promises only a rearrangement; the body is the reversal V8 produces.
- SubmissionsList.GroupCloseAnswers: states the groups up to order only. So does SubmissionsList.BuildSheets for the group part of each sheet. The order of choices within a group is stated.
- SurveyData.SortByPosition: for questions that share a position, the order of the result is one stable order; the client's comparator and `ORDER BY` leave it to the engine. Members whose contract is stated through it (`Store.QuestionsBySurveyID`, `Submission.InitAnswers`, `Submission.AnswerForm.constructor`) fix that order for ties. With distinct positions every sort agrees with it (`SortIsDeterminedByPositions`).
- Submission.SortItemsByPosition: for items that share a position, the order of the result is one stable order; the client's comparator leaves it to the engine. The source sorts the sheet's own array in place, so the stored sheet is reordered too; the model returns a new sheet (`ShownSheet`) and leaves the stored one as it was.
- CreationSurvey.SurveyEditor.MoveDown: requires the id to be listed. For an absent id the source writes `undefined` into element 0, but the buttons only exist for listed questions.
- CreationSurvey.MoveDownThenUp: holds only for a question that is not last. The last question does not move down, but it does move up.
- CreationSurvey.QuestionEditor.ToggleRequired: `min` is an integer here, and so it is in `SetMin` and `ToggledRequired`. In the source the min field stores the typed string (client/src/components/CreationSurvey.js:311), and `changeTypeQuestion` does not reset it. A typed `"0"` is truthy, so after switching the question to open, the switch shows as on (:347) and one click sets `min` to 0 (:350). The model's `min == 0` gives 1 instead.
- CreationSurvey.QuestionEditor.AddNewOption: requires fewer than ten options, because the button is only shown then.
- CreationSurvey.QuestionEditor.DeleteOption: requires more than one option, because the button is disabled when there is only one.
- CreationSurvey.SurveyEditor.AddQuestion: a draft question's `position` is 0 until publication sets it.
- SubmissionsList.SheetViewer.constructor: requires at least one sheet. The view is only reachable for a survey with submissions.
- The browser's form validation (`checkValidity`, `required`, `maxLength`) is a boolean parameter. It is enforced by the browser, not by code in the repository.
- Rendering, routing, the message timer, the list of all surveys and `client/src/API.js`'s fetch wrappers are not part of this model. `EndToEnd` uses only the body shapes those wrappers send.
