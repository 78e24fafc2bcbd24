# Job portal: application lifecycle, PDF rendering and page helpers

This project models the core of a small job portal. Students apply to jobs that recruiters post. Recruiters send an offer or a rejection. Students answer an offer. Recruiters download each application as a PDF. The model covers four things:

- the backend's handlers (`backend/server.js`) over an in-memory store: sign-up and login, account deletion, posting a job, applying, the three decision routes, the PDF route and the message log;
- the two Mongoose schemas those handlers write (`backend/models/Application.js`, `backend/models/Job.js`);
- the PDF route's line-emission logic, as a function from an application record to the lines the document shows;
- the data operations of six frontend pages: the application wizard, the job form, the student dashboard, the job search, the recruiter's applicant list and the student's application list.

Modules, one per file:

| file | module | models |
|---|---|---|
| `common.dfy` | `Common` | `Option` and `Result` |
| `seqs.dfy` | `Seqs` | `filter`, `filter` by index, `slice` and counting, over sequences |
| `js_values.dfy` | `JsValues` | JSON values, truthiness and `||`, `trim`, the server's `isFilled`, property access, `Object.entries`, `String(v)`, ASCII case mapping, `includes`, `substring`, `split` |
| `application.dfy` | `ApplicationModel` | the application record, the status enum and the creation defaults |
| `job.dfy` | `JobModel` | the job record, the `jobType` enum and the required fields |
| `lifecycle.dfy` | `Lifecycle` | the status each decision route stores, and what the page buttons allow |
| `pdf.dfy` | `PdfRender` | the PDF route's lines: a specification function `Rendered` and the loop-based `RenderApplication` proved equal to it |
| `server.dfy` | `Server` | the `Store` class (users, jobs, applications, notifications, messages) and one method per handler |
| `apply_job.dfy` | `ApplyJobPage` | the five-step wizard; its repeater entries are objects changed in place |
| `post_job.dfy` | `PostJobPage` | the job form's question builder (questions changed in place), skills parsing and submit |
| `student_dashboard.dfy` | `StudentDashboardPage` | the applied/offer/rejected counters and the recommended jobs |
| `student_jobs.dfy` | `StudentJobsPage` | the company search and the description preview |
| `job_applications.dfy` | `JobApplicationsPage` | the decision modal, the request it sends and the local status update |
| `my_applications.dfy` | `MyApplicationsPage` | the decision each button sends, what is shown for a status, the badge, the feedback toggle |

## Where the model follows the code rather than the pages

- **No status guard.** The pages' buttons present a lifecycle (`JobApplications.jsx:113`, `MyApplications.jsx:107`): pending, then accepted or rejected, then offer_accepted or offer_rejected. The three decision routes do not check the current status (`backend/server.js:210`, `:238`, `:268`). The model follows the code: `Lifecycle.Next` ignores the prior status.
  - `Lifecycle.ResponseWithoutOffer` shows a pending application becoming offer_accepted directly.
  - `Lifecycle.RedecisionOverwrites` shows an accepted offer being turned into a rejection.
  - The lifecycle holds only for calls made through the pages' buttons. `Lifecycle.GuardedTracesFromPending` proves that those calls allow exactly five histories.
- **A deleted job and the decision routes.** Deleting a recruiter removes their jobs but keeps the applications to them (`backend/server.js:596-603`). The decision routes then `populate` a `jobId` whose job is gone, which leaves that path null. `save` still succeeds, because Mongoose validates a populated path by the id it was populated from. The next step reads the recruiter's email off null and throws. The reply is then 500, the change stays saved, and no notification is written. The `Store` methods model exactly that.
- **"offer_sent"** appears in a comparison on the student page (`MyApplications.jsx:107`) but is no status the schema admits. `MyApplicationsPage.OfferActionsOnlyWhenAccepted` shows that, for stored statuses, the offer actions appear exactly on `accepted`.
- **The additional section** prints its heading when any answer is filled, whatever its key, but prints lines only for three keys. `PdfRender.AdditionalHeadingAlone` exhibits a heading with nothing under it.
- **Empty objects are not saved.** `personal`, `additional` and `recruiterQuestions` are schema-less `Object` paths and `education`, `experience` schema-less arrays (`backend/models/Application.js:19-24`). Mongoose's default `minimize` drops, before saving, every empty object under a key, and a path left empty is not stored at all; elements of an array are kept. `ApplicationModel.Minimized` models this, and `ApplicationModel.EmptyAnswerNotStored` shows an answer set to `{}` disappearing.
- **An empty skills box** is posted as the list `[""]`, not as an empty list (`PostJobPage.NoSkillsIsOneEmptySkill`).

## Model

| member | source | states |
|---|---|---|
| JsValues.IsFilledIff | backend/server.js:35-40 | a value is filled exactly when it is neither null/undefined, nor a string that is all whitespace, nor an empty array |
| JsValues.FilledVersusTruthy | backend/server.js:35-40 | 0 and false are filled though falsy; a blank string and an empty array are truthy but not filled |
| JsValues.TrimEmptyIffBlank | backend/server.js:37 | `trim()` yields "" exactly when every character is whitespace |
| JsValues.TrimStart | backend/server.js:37 | the result is a suffix, what was dropped is whitespace, and it does not start with whitespace |
| JsValues.TrimEnd | backend/server.js:37 | the result is a prefix, what was dropped is whitespace, and it does not end with whitespace |
| JsValues.TrimNoWhitespace | frontend/src/pages/recruiter/PostJob.jsx:77 | trimming a string without whitespace leaves it unchanged |
| JsValues.Or | backend/server.js:175-181 | `a \|\| b` is `a` when `a` is truthy and `b` otherwise |
| JsValues.Get | backend/server.js:175 | reading a key of a non-object, or a key the object lacks, gives undefined; a key the object has gives the value of its first occurrence |
| JsValues.Entries | backend/server.js:469 | `Object.entries`: an object's own pairs; for a string, pair i is the decimal index i with the i-th character; for an array, the decimal index i with the i-th element; nothing for numbers and booleans |
| JsValues.Show | backend/server.js:382-388 | `String(v)` as `"label: " + v` prints it: "" for an empty array, "[object Object]" for any object, a string as itself |
| JsValues.ShowNullishItems | backend/server.js:382-388 | an array of null and undefined elements prints as its commas alone, one fewer than the elements |
| JsValues.ShowSingleItem | backend/server.js:382-388 | a one-element array prints as its element, or "" when that is null or undefined |
| JsValues.NatToString | backend/server.js:471 | the question number is printed as a numeral of decimal digits with no leading zero |
| JsValues.NatToStringRoundTrip | backend/server.js:471 | reading the printed question number back gives the number |
| JsValues.NatToStringInjective | backend/server.js:471 | distinct question numbers print differently |
| JsValues.IncludesEmpty | frontend/src/pages/student/StudentJobs.jsx:18 | every string includes the empty string |
| JsValues.Prefix | frontend/src/pages/student/StudentJobs.jsx:41 | `substring(0, n)` is a prefix of length at most n: exactly n characters of a longer string, the whole string when it is no longer than n |
| JsValues.Split | frontend/src/pages/recruiter/PostJob.jsx:77 | `split` gives at least one piece, and no piece contains the separator |
| JsValues.SplitCount | frontend/src/pages/recruiter/PostJob.jsx:77 | there is one more piece than there are separators |
| JsValues.SplitJoin | frontend/src/pages/recruiter/PostJob.jsx:77 | joining the pieces with the separator restores the string |
| JsValues.SplitPiecesWithin | frontend/src/pages/recruiter/PostJob.jsx:77 | every character of a piece comes from the split string |
| Seqs.Filter | frontend/src/pages/student/StudentJobs.jsx:17-19 | `filter` keeps exactly the elements satisfying the predicate, in their original order (a subsequence) |
| Seqs.FilterMultiset | frontend/src/pages/student/StudentJobs.jsx:17-19 | `filter` keeps every copy of an element satisfying the predicate and no copy of any other, so duplicates are neither merged nor dropped |
| Seqs.FilterAppend | frontend/src/pages/student/StudentJobs.jsx:17-19 | filtering a sequence with one more element at the end adds that element exactly when it satisfies the predicate |
| Seqs.FilterAll | frontend/src/pages/student/StudentJobs.jsx:17-19 | filtering with a predicate that holds everywhere keeps everything |
| Seqs.CountAppend | frontend/src/pages/student/StudentDashboard.jsx:34-36 | counting with one more element adds one exactly when it satisfies the predicate |
| Seqs.DisjointCounts | frontend/src/pages/student/StudentDashboard.jsx:35-36 | two counts of predicates that never hold together add up to at most the length |
| Seqs.RemoveAt | frontend/src/pages/student/ApplyJob.jsx:84 | `filter((_, index) => index !== i)` drops exactly position i and keeps the rest in order |
| Seqs.Take | frontend/src/pages/student/StudentDashboard.jsx:23 | `slice(0, n)` is a prefix of length min(n, length) |
| Seqs.SubsequenceRefl | frontend/src/pages/student/StudentJobs.jsx:17-19 | a list is a subsequence of itself |
| Seqs.SubsequenceSkip | frontend/src/pages/student/StudentJobs.jsx:17-19 | a subsequence of a list's tail is a subsequence of the list |
| Seqs.SubsequenceTail | frontend/src/pages/student/StudentJobs.jsx:17-19 | dropping the first element of a subsequence keeps it a subsequence |
| ApplicationModel.ParseStatus | backend/models/Application.js:28-37 | the status enum accepts exactly the five names, each naming its status |
| ApplicationModel.StatusNameRoundTrip | backend/models/Application.js:28-37 | every status is stored under a name the enum accepts back as that status |
| ApplicationModel.Minimized | backend/models/Application.js:19-24 | Mongoose's default `minimize` on save: the result holds no empty object anywhere, and is never `{}` under a key; only an object under a key can be dropped; scalars are kept as they are |
| ApplicationModel.KeepPresentSpec | backend/models/Application.js:19-24 | the properties kept are exactly the surviving ones, each occurrence once, in the object's order: the `filter` of the minimized properties |
| ApplicationModel.MinimizedObjectShape | backend/models/Application.js:19-24 | an object minimizes to the object of its surviving properties, and is dropped when none survives and it is not an array element |
| ApplicationModel.MinimizedKeepsProperty | backend/models/Application.js:19-24 | a property whose value survives is kept under its key with its minimized value, and the object holding it is kept too |
| ApplicationModel.MinimizedKeptFrom | backend/models/Application.js:19-24 | every kept property is one of the object's, under its key, with its value minimized |
| ApplicationModel.MinimizedKeepsOrder | backend/models/Application.js:19-24 | the kept properties keep the object's order and multiplicity |
| ApplicationModel.MinimizedDropsIff | backend/models/Application.js:19-24 | an object under a key is dropped exactly when every one of its properties is dropped; an array element never is |
| ApplicationModel.Stored | backend/models/Application.js:19-24 | an `Object` path is saved without empty objects inside and is never `{}`: `{}` itself is not stored at all, and a string, number, boolean or null is stored as it is |
| ApplicationModel.StoredItems | backend/models/Application.js:20-21 | an `Array` path keeps every element, in order, each minimized and free of empty objects |
| ApplicationModel.MinimizedKeepsClean | backend/models/Application.js:19-24 | a value with no empty object inside is saved unchanged |
| ApplicationModel.MinimizedIdempotent | backend/models/Application.js:19-24 | minimizing a saved value again changes nothing |
| ApplicationModel.EmptyAnswerNotStored | backend/models/Application.js:22 | an answer left as `{}` disappears, and an object of only such answers is not stored at all |
| ApplicationModel.CreateApplication | backend/models/Application.js:5-57 | creation is refused exactly when the required studentEmail is missing or empty; otherwise job, email, name, phone and resume are stored as given, the `Object` paths (personal, additional, recruiter answers) as `Stored` leaves them and each `Array` element as `Minimized` leaves it, status defaults to pending, the offer and rejection texts to "", and there are no decision dates |
| JobModel.ParseJobType | backend/models/Job.js:23-27 | `jobType` admits exactly "pdf" and "questions" |
| JobModel.CreateJob | backend/models/Job.js:5-56 | creation succeeds exactly when the four required strings are non-empty and jobType is in the enum; recruiter email, company, title and description are stored as given; pdfPath, eligibility and the ordered questions are kept |
| Lifecycle.Next | backend/server.js:210-268 | send-offer stores accepted, send-rejection stores rejected, respond stores offer_accepted exactly when the decision is "accept" and offer_rejected otherwise, whatever the prior status |
| Lifecycle.LastEventDecides | backend/server.js:210-268 | since no route checks the prior status, the last call alone decides the status |
| Lifecycle.ResponseWithoutOffer | backend/server.js:265-269 | a pending or rejected application accepts an offer it never received |
| Lifecycle.RedecisionOverwrites | backend/server.js:238 | an offer-accepted application can still be rejected |
| Lifecycle.OtherDecisionRejects | backend/server.js:265-269 | a missing decision, or any text but "accept", records offer_rejected |
| Lifecycle.UiAllowsIff | frontend/src/pages/recruiter/JobApplications.jsx:113-118 | the recruiter's buttons appear only on pending applications; the student's only on accepted ones, sending "accept" or "reject" |
| Lifecycle.GuardedTracesFromPending | frontend/src/pages/student/MyApplications.jsx:107 | through the buttons, a pending application has exactly five possible histories: none, rejection, offer, offer then accept, offer then decline |
| Lifecycle.GuardedOutcome | frontend/src/pages/student/MyApplications.jsx:31-53 | through the buttons, an offer_accepted or offer_rejected status implies an earlier offer; offer_accepted arises only from offer then Accept |
| Lifecycle.ButtonDecision | frontend/src/pages/student/MyApplications.jsx:31-53 | the Accept button leads to offer_accepted and the Reject button never does |
| PdfRender.FieldLinesInOrder | backend/server.js:380-388 | the printed field lines keep the fixed field order |
| PdfRender.FieldLinesExactly | backend/server.js:380-388 | the line of every filled field is printed, and every printed line is the line of a filled field |
| PdfRender.FieldShownIff | backend/server.js:380-388 | for a field list whose labels are not prefixes of one another, a field's line is printed exactly when its value is filled |
| PdfRender.PrefixFreeByNames | backend/server.js:380-388 | labels without ':' that are pairwise distinct never prefix one another's lines |
| PdfRender.PersonalNamesPrefixFree | backend/server.js:380-388 | the personal-details labels are prefix-free |
| PdfRender.EducationNamesPrefixFree | backend/server.js:404-409 | the education labels are prefix-free |
| PdfRender.ExperienceNamesPrefixFree | backend/server.js:429-437 | the experience labels are prefix-free |
| PdfRender.AdditionalNamesPrefixFree | backend/server.js:453-455 | the additional-section labels are prefix-free |
| PdfRender.FieldNamesPrefixFree | backend/server.js:380-455 | the personal, education, experience and additional labels are prefix-free |
| PdfRender.TagsOverlap | backend/server.js:380-388 | a prefix of a concatenation is comparable with its first part |
| PdfRender.NullishNotKeyed | backend/server.js:393-395 | a null or undefined entry has no filled key |
| PdfRender.BlocksFailIff | backend/server.js:401-412 | printing the entries throws exactly when one of them is null or undefined |
| PdfRender.SomeKeyedSpec | backend/server.js:393-395 | `some` is false exactly when no entry is nullish and none has a filled key; true means some entry has one; a throw means a nullish entry |
| PdfRender.SectionFailsIff | backend/server.js:391-442 | an education or experience section throws exactly when the list holds a null or undefined entry |
| PdfRender.SectionShownIff | backend/server.js:391-442 | a section prints something exactly when no entry is nullish and some entry has a filled key; its first line is then the heading |
| PdfRender.BlocksSkipUnkeyed | backend/server.js:401-412 | entries whose three key fields are all unfilled contribute no lines |
| PdfRender.SomeKeyedSkipUnkeyed | backend/server.js:393-395 | removing such entries does not change the `some` test |
| PdfRender.SectionSkipsUnkeyed | backend/server.js:391-442 | a section is the same with those entries removed |
| PdfRender.QuestionNumbering | backend/server.js:468-476 | two lines per filled answer, numbered consecutively from the counter: "Q<n>: question" then "Answer: value" |
| PdfRender.QuestionsUnfold | backend/server.js:468-476 | one turn of the `for…of`: a filled answer appends its numbered pair and advances the number, an unfilled one appends nothing |
| PdfRender.NumberingStep | backend/server.js:468-476 | one filled answer adds its question and answer lines with the current number, and the numbering continues from the next number |
| PdfRender.QuestionLinesShape | backend/server.js:468-476 | every question line starts with Q or A |
| PdfRender.FilledAnswersEmptyIff | backend/server.js:468-477 | no answer is printed exactly when no answer is filled |
| PdfRender.QuestionsFallbackIff | backend/server.js:460-486 | "No answers provided" appears exactly when there are questions but none answered; "No job-specific questions…" exactly when there are none |
| PdfRender.UnansweredQuestionFallback | backend/server.js:477-479 | one unanswered question gives the heading and "No answers provided" only |
| PdfRender.ResumeShownIff | backend/server.js:488-497 | the resume link appears exactly when the path is not blank |
| PdfRender.AdditionalShownIff | backend/server.js:444-458 | the additional heading appears exactly when some answer is filled; below it, only gender, eligibility and source lines |
| PdfRender.AdditionalHeadingAlone | backend/server.js:446-455 | a filled answer under another key prints the heading alone |
| PdfRender.RenderFailsIff | backend/server.js:391-442 | rendering fails (500) exactly when an education or experience entry is null or undefined |
| PdfRender.HeadStarts | backend/server.js:368-377 | the document starts with the title block and the PERSONAL DETAILS heading |
| PdfRender.ClosingHasQuestions | backend/server.js:465-482 | the job-specific heading is always among the closing lines |
| PdfRender.ConcatKeepsEnds | backend/server.js:368-486 | the middle sections do not move the head or drop closing lines |
| PdfRender.RenderedMiddle | backend/server.js:368-486 | a rendered document is its head lines, then the middle sections, then its closing lines |
| PdfRender.RenderedOutline | backend/server.js:368-486 | a rendered document always starts with the title and personal heading and always contains the job-specific heading |
| PdfRender.PhoneShownCityOmitted | backend/server.js:385-388 | a filled phone is printed and an empty city is not |
| PdfRender.ThenThen | backend/server.js:401-412 | appending two blocks in turn equals appending them together |
| PdfRender.ThenEmpty | backend/server.js:401-412 | appending nothing changes nothing |
| PdfRender.ScanKeyed | backend/server.js:393-395 | the loop computes `some` as specified |
| PdfRender.BlocksStep | backend/server.js:401-412 | one turn of the `forEach` adds the entry's block and leaves the remaining entries to print |
| PdfRender.PrintBlocks | backend/server.js:401-412 | the `forEach` loop prints the specified lines or throws at the first nullish entry |
| PdfRender.PrintSection | backend/server.js:391-442 | the section code prints the specified section |
| PdfRender.AnyValueFilled | backend/server.js:446 | the loop answers whether some value is filled |
| PdfRender.PrintQuestions | backend/server.js:468-476 | the `for…of` loop prints the specified numbered lines and ends with the counter at one plus the number of filled answers |
| PdfRender.PrintQuestionsSection | backend/server.js:460-486 | the section code prints the specified section, fallbacks included |
| PdfRender.PrintClosingSections | backend/server.js:444-497 | the additional, questions and resume code prints the specified closing lines |
| PdfRender.RenderApplication | backend/server.js:368-497 | the route's emission code produces exactly `Rendered(a)` |
| Server.AsArray | backend/server.js:178-179 | a falsy value becomes [], an array is kept, and any other value is wrapped by the schema's Array cast |
| Server.ApplicationFromRequest | backend/server.js:172-184 | created exactly when studentEmail is present and non-empty; pending, name "first last" with "" for missing parts, phone the personal phone or "", sections defaulted to {} or [] and then minimized on save (an empty or missing section is not stored), resume "" without a file |
| Server.NamelessApplicant | backend/server.js:175 | an application without names is stored under the name " " |
| Server.PostedPdfPath | backend/server.js:126-128 | pdfPath is "uploads/"+filename exactly for a pdf job with a file, "" otherwise |
| Server.PostedEligibility | backend/server.js:105-112 | eligibility is stored only when the text parsed; a parse failure is treated as absent |
| Server.LoginReply | backend/server.js:73-87 | unknown email 401, then wrong password 401, then wrong role 403; success exactly when all three match |
| Server.SignupThenLogin | backend/server.js:47-98 | after a successful signup, the same credentials log in under that role and get 403 under any other |
| Server.WithoutStudent | backend/server.js:529 | exactly the applications of other students remain, unchanged |
| Server.WithoutRecruiter | backend/server.js:603 | exactly the jobs of other recruiters remain, unchanged |
| Server.Store.constructor | backend/server.js:43-609 | the store starts empty and valid |
| Server.Store.Signup | backend/server.js:47-57 | an existing email gives 400 and adds no user; otherwise the user is added under their email |
| Server.Store.Login | backend/server.js:73-93 | the reply is the ordered login check, and nothing changes |
| Server.Store.DeleteStudentAccount | backend/server.js:525-533 | an unknown email gives 404 and deletes nothing; otherwise the user and all of their applications go, and nothing else changes |
| Server.Store.DeleteRecruiterAccount | backend/server.js:598-605 | the user and all of their jobs go; applications stay |
| Server.Store.PostJob | backend/server.js:101-137 | unparsable questions or a refused job give 500 and store nothing; otherwise one job is stored under a fresh id |
| Server.ApplyResult | backend/server.js:163-195 | unparsable payload 500, then unknown job 404, then null payload or missing email 500, each without a record; success exactly when none of these applies, with the valid pending record built from the payload |
| Server.Store.Record | backend/server.js:172-191 | the created application is filed under a fresh id and the notification appended; users, jobs and messages are unchanged and the store stays valid |
| Server.Store.Apply | backend/server.js:163-195 | the reply is `ApplyResult`'s; without a record nothing changes; with one, it is stored under a fresh id and exactly one "application" notification goes to the job's recruiter |
| Server.Store.SendOffer | backend/server.js:205-225 | unknown id 404 with no change; otherwise only that application changes (accepted, letter, PDF path or "", time) and exactly one "accepted" notification goes to the student; with the job deleted the change is kept, no notification is written and the reply is 500 |
| Server.Store.SendRejection | backend/server.js:233-252 | unknown id 404 with no change; otherwise only that application changes (rejected, message, time) and exactly one "rejected" notification goes to the student; with the job deleted the change is kept, no notification is written and the reply is 500 |
| Server.Store.Respond | backend/server.js:259-288 | unknown id 404 with no change; otherwise offer_accepted exactly for "accept", offer_rejected for anything else, and one notification to the recruiter whose type is the raw decision; with the job deleted the status change is kept, no notification is written and the reply is 500 |
| Server.Store.PdfRoute | backend/server.js:356-503 | unknown id 404; 500 exactly when an education or experience entry is null or undefined; otherwise the rendered lines |
| Server.Store.SendMessage | backend/server.js:318-330 | the message is appended to the log and 201 returned |
| Server.Store.MessagesFor | backend/server.js:340-345 | exactly the messages the email sent or received, every copy of each, in stored order |
| ApplyJobPage.Blank | frontend/src/pages/student/ApplyJob.jsx:26-59 | a new entry holds exactly the listed keys, each "" |
| ApplyJobPage.Entry.constructor | frontend/src/pages/student/ApplyJob.jsx:81-82 | a new entry is blank |
| ApplyJobPage.ReviewText | frontend/src/pages/student/ApplyJob.jsx:8-13 | an empty value shows "Not Specified", any other value shows itself |
| ApplyJobPage.CompositeReviewNeverFallsBack | frontend/src/pages/student/ApplyJob.jsx:317-329 | the name, location and duration values are never empty, so they never show "Not Specified" |
| ApplyJobPage.SubmittedEmail | frontend/src/pages/student/ApplyJob.jsx:108 | the logged-in email when present, otherwise the form's email |
| ApplyJobPage.RemoveKeepsOne | frontend/src/pages/student/ApplyJob.jsx:180 | removing through a shown Remove button never empties the list |
| ApplyJobPage.Snapshot | frontend/src/pages/student/ApplyJob.jsx:113-120 | the submitted entries are the entry objects' current contents, in list order |
| ApplyJobPage.ValueOf | frontend/src/pages/student/ApplyJob.jsx:260 | reading a key gives nothing exactly when the key was never set, and otherwise a value stored under it |
| ApplyJobPage.SetEntry | frontend/src/pages/student/ApplyJob.jsx:261 | `{ ...answers, [q]: v }`: an existing key keeps its place, a new key is appended last, and every other pair is unchanged |
| ApplyJobPage.ValueAt | frontend/src/pages/student/ApplyJob.jsx:260 | with distinct keys, reading the key of pair i gives the value of pair i |
| ApplyJobPage.SetEntryReads | frontend/src/pages/student/ApplyJob.jsx:260-261 | after the update the keys stay distinct, the key reads the new value and every other key reads what it read before |
| ApplyJobPage.ApplyForm.constructor | frontend/src/pages/student/ApplyJob.jsx:20-61 | step 1, no resume, no answers, the eight personal and three additional fields blank, one blank education entry and one blank experience entry |
| ApplyJobPage.ApplyForm.Next | frontend/src/pages/student/ApplyJob.jsx:77 | the step goes up by one and nothing else changes |
| ApplyJobPage.ApplyForm.Prev | frontend/src/pages/student/ApplyJob.jsx:78 | the step goes down by one and nothing else changes |
| ApplyJobPage.ApplyForm.AddEducation | frontend/src/pages/student/ApplyJob.jsx:81-82 | exactly one fresh blank entry is appended; the old entries stay, in order |
| ApplyJobPage.ApplyForm.RemoveEducation | frontend/src/pages/student/ApplyJob.jsx:84 | only entry i is removed; the rest keep their order |
| ApplyJobPage.ApplyForm.UpdateEducation | frontend/src/pages/student/ApplyJob.jsx:86-90 | only field key of entry i changes; every other entry, in both lists, is unchanged |
| ApplyJobPage.ApplyForm.AddExperience | frontend/src/pages/student/ApplyJob.jsx:92-93 | exactly one fresh blank entry is appended; the old entries stay, in order |
| ApplyJobPage.ApplyForm.RemoveExperience | frontend/src/pages/student/ApplyJob.jsx:95 | only entry i is removed; the rest keep their order |
| ApplyJobPage.ApplyForm.UpdateExperience | frontend/src/pages/student/ApplyJob.jsx:97-101 | only field key of entry i changes; every other entry, in both lists, is unchanged |
| ApplyJobPage.ApplyForm.ChooseResume | frontend/src/pages/student/ApplyJob.jsx:160 | the chosen file replaces the previous one |
| ApplyJobPage.ApplyForm.SetPersonal | frontend/src/pages/student/ApplyJob.jsx:149-156 | one personal field is replaced |
| ApplyJobPage.ApplyForm.SetAdditional | frontend/src/pages/student/ApplyJob.jsx:222-235 | one additional answer is replaced |
| ApplyJobPage.ApplyForm.SetAnswer | frontend/src/pages/student/ApplyJob.jsx:261-289 | the answers become `SetEntry` of the old ones: a question answered before keeps its place with the new value, a new question is added last; keys stay distinct |
| ApplyJobPage.ApplyForm.Submit | frontend/src/pages/student/ApplyJob.jsx:104-121 | the posted email follows `SubmittedEmail`; the resume only when chosen; the entries as they stand; the recruiter answers as entered, in the order the questions were first answered |
| PostJobPage.QuestionDraft.constructor | frontend/src/pages/recruiter/PostJob.jsx:31-33 | a new question has empty text, a text answer and one empty option |
| PostJobPage.Drafted | frontend/src/pages/recruiter/PostJob.jsx:91 | the posted questions are the question objects' current contents, in order |
| PostJobPage.ParseSkills | frontend/src/pages/recruiter/PostJob.jsx:77 | one trimmed skill per comma-separated piece, so the count is commas + 1 |
| PostJobPage.NoSkillsIsOneEmptySkill | frontend/src/pages/recruiter/PostJob.jsx:77 | an empty skills box gives [""] |
| PostJobPage.SkillsJoinBack | frontend/src/pages/recruiter/PostJob.jsx:77 | for input without whitespace, joining the skills with "," gives the input back |
| PostJobPage.EligibilityData | frontend/src/pages/recruiter/PostJob.jsx:76-88 | skills parsed, the place nested as a location, other fields copied |
| PostJobPage.PostJobForm.constructor | frontend/src/pages/recruiter/PostJob.jsx:7-28 | a pdf job with no questions and empty fields |
| PostJobPage.PostJobForm.AddQuestion | frontend/src/pages/recruiter/PostJob.jsx:31-33 | appends exactly one new question {"", "text", [""]} |
| PostJobPage.PostJobForm.RemoveQuestion | frontend/src/pages/recruiter/PostJob.jsx:35-37 | only question i is removed, order kept |
| PostJobPage.PostJobForm.UpdateQuestion | frontend/src/pages/recruiter/PostJob.jsx:39-43 | only the given property of question i changes |
| PostJobPage.PostJobForm.AddOption | frontend/src/pages/recruiter/PostJob.jsx:45-49 | only question i gains one "" option |
| PostJobPage.PostJobForm.UpdateOption | frontend/src/pages/recruiter/PostJob.jsx:51-55 | only option oi of question qi changes |
| PostJobPage.PostJobForm.SetBasic | frontend/src/pages/recruiter/PostJob.jsx:10-14 | the company, title and description are replaced; nothing else changes |
| PostJobPage.PostJobForm.SetJobType | frontend/src/pages/recruiter/PostJob.jsx:7 | only the job type changes |
| PostJobPage.PostJobForm.ChoosePdf | frontend/src/pages/recruiter/PostJob.jsx:8 | only the chosen PDF changes |
| PostJobPage.PostJobForm.SetEligibility | frontend/src/pages/recruiter/PostJob.jsx:16-26 | only the eligibility inputs change |
| PostJobPage.PostJobForm.Submit | frontend/src/pages/recruiter/PostJob.jsx:58-91 | nothing is posted exactly when the company or the title is empty; the PDF is attached exactly for a pdf job with a file |
| StudentDashboardPage.ComputeStats | frontend/src/pages/student/StudentDashboard.jsx:34-36 | applied is the number of applications; offer counts every copy of an accepted or offer_accepted application, rejected every copy of a rejected one; offer + rejected ≤ applied |
| StudentDashboardPage.StatsOfOneMore | frontend/src/pages/student/StudentDashboard.jsx:34-36 | one more application raises applied by one, offer by one exactly when it is an offer and rejected by one exactly when it is rejected |
| StudentDashboardPage.OfferMeansAccepted | frontend/src/pages/student/StudentDashboard.jsx:35 | an application counts as an offer exactly when its status is accepted or offer_accepted |
| StudentDashboardPage.Recommended | frontend/src/pages/student/StudentDashboard.jsx:23 | the first at most three jobs, in order |
| StudentJobsPage.FilterLowered | frontend/src/pages/student/StudentJobs.jsx:17-19 | keeps exactly the jobs whose lower-cased company includes the term, every copy of each, in order |
| StudentJobsPage.FilterByCompany | frontend/src/pages/student/StudentJobs.jsx:17-19 | a job is kept exactly when its lower-cased company includes the lower-cased term, every copy of it; the result is a subsequence |
| StudentJobsPage.EmptySearchKeepsAll | frontend/src/pages/student/StudentJobs.jsx:17-19 | an empty search keeps every job |
| StudentJobsPage.SearchIgnoresCase | frontend/src/pages/student/StudentJobs.jsx:17-19 | upper-casing the search term changes nothing |
| StudentJobsPage.Preview | frontend/src/pages/student/StudentJobs.jsx:41 | at most the first 100 characters |
| JobApplicationsPage.DecidedStatus | frontend/src/pages/recruiter/JobApplications.jsx:63 | "accepted" exactly for the accept action, "rejected" otherwise |
| JobApplicationsPage.MarkDecided | frontend/src/pages/recruiter/JobApplications.jsx:60-66 | only the selected application takes the decided status; length, order and other rows unchanged |
| JobApplicationsPage.MarkDecidedIdempotent | frontend/src/pages/recruiter/JobApplications.jsx:60-66 | marking the same decision twice is the same as once |
| JobApplicationsPage.DecidedRowHasNoButtons | frontend/src/pages/recruiter/JobApplications.jsx:113 | after a decision the row no longer shows Accept/Reject |
| JobApplicationsPage.DecisionModal.constructor | frontend/src/pages/recruiter/JobApplications.jsx:10-15 | the modal starts closed, with nothing selected |
| JobApplicationsPage.DecisionModal.OpenModal | frontend/src/pages/recruiter/JobApplications.jsx:26-32 | selects the row and action, clears message and file, shows the modal |
| JobApplicationsPage.DecisionModal.SetMessage | frontend/src/pages/recruiter/JobApplications.jsx:137 | only the message changes |
| JobApplicationsPage.DecisionModal.SetFile | frontend/src/pages/recruiter/JobApplications.jsx:147 | only the file changes |
| JobApplicationsPage.DecisionModal.PendingRequest | frontend/src/pages/recruiter/JobApplications.jsx:35-49 | no request for a blank message; accept targets send-offer and anything else send-rejection; a PDF only for accept with a file |
| JobApplicationsPage.DecisionModal.SendMessage | frontend/src/pages/recruiter/JobApplications.jsx:34-72 | sends the pending request; after delivery the row is marked and the modal closes; otherwise the list stays |
| MyApplicationsPage.DecisionFor | frontend/src/pages/student/MyApplications.jsx:31-53 | Accept sends "accept" and Reject sends "reject" |
| MyApplicationsPage.OfferActionsOnlyWhenAccepted | frontend/src/pages/student/MyApplications.jsx:107 | for a stored status, the offer actions show exactly on accepted |
| MyApplicationsPage.Badge | frontend/src/pages/student/MyApplications.jsx:102 | the upper-cased status, or "PENDING" when it is missing |
| MyApplicationsPage.BadgeOfStoredStatus | frontend/src/pages/student/MyApplications.jsx:102 | an illustration: offer_accepted shows as OFFER_ACCEPTED and pending as PENDING |
| MyApplicationsPage.Toggled | frontend/src/pages/student/MyApplications.jsx:136 | clicking the open application closes it; clicking another opens that one |
| MyApplicationsPage.ToggleTwice | frontend/src/pages/student/MyApplications.jsx:136 | two clicks on the same application close it again; a click on another replaces it |
| MyApplicationsPage.FeedbackToggle.constructor | frontend/src/pages/student/MyApplications.jsx:12 | nothing is open at first |
| MyApplicationsPage.FeedbackToggle.Toggle | frontend/src/pages/student/MyApplications.jsx:136 | the open id becomes the toggled one: the clicked box flips between open and closed and every other box is closed |
| MyApplicationsPage.FeedbackToggle.OneBoxOpen | frontend/src/pages/student/MyApplications.jsx:136-142 | `IsOpen`, the `openOfferId === app._id` test, holds for at most one application |
| MyApplicationsPage.RejectionFeedbackOnlyWhenRejected | frontend/src/pages/student/MyApplications.jsx:133 | `RejectionFeedbackShown`: for a stored status the feedback button appears exactly on a rejected application with a non-empty message, and never together with the offer actions |

## Left out

- Database, HTTP and files. MongoDB, Express routing, multer storage and JSON responses are not modelled. The store is in-memory maps and sequences. File paths, the upload file name and the current time are parameters. Ids are naturals issued in order.
- pdfkit layout. Fonts, `moveDown`, colours and underlining are not modelled. The document is its sequence of text lines plus the resume link. The lines written before a failing entry are not modelled: the model reports the failure alone.
- Numbers are unbounded integers. JSON numbers with a fraction or an exponent are not represented. JavaScript numbers are doubles: integers beyond 2^53 lose precision and values of 10^21 or more print in exponent form. `JsValues.Show` prints every digit instead, so a huge number in a name or a PDF answer line is not shown as JavaScript would show it.
- Duplicate object keys. `JSON.parse` keeps the last value of a repeated key, while `JsValues.Lookup` returns the first. Payloads with repeated keys are not modelled faithfully.
- Object key order. Objects are lists of pairs in insertion order. JavaScript lists integer-like keys first, and `Object.entries` would do so too; that ordering is not modelled.
- Case mapping and `substring`. `toLowerCase` and `toUpperCase` are modelled on ASCII letters only. `substring` counts characters, not UTF-16 code units.
- Mongoose casting. String fields are taken as given strings, except `phone`, which is kept as a JSON value. The cast of `phone` to a string is not modelled.
- Malformed ids. A malformed ObjectId, which makes `findById` throw and the handler answer 500, is modelled as an unknown id.
- Server.Store.Signup: models/User.js is not part of this model, so the user schema's own validation is not modelled. A successful signup always stores the user. A `findOne` with an undefined email is treated as an ordinary lookup.
- Server.Store.SendOffer: the letter is taken as a string. A missing `message` field, which the schema would store as absent, is not distinguished from "". The same holds for Server.Store.SendRejection.
- Server.Store.Respond: the decision is a string or absent. `express.json` may deliver any JSON value. The route then stores offer_rejected. For an array or an object, creating the notification fails to cast `type` to a string, so the reply is 500 with the status change kept; a number or a boolean becomes the notification type as text. Non-string decisions are not modelled.
- Server.Store.SendMessage: the Message model is not part of this model. The message is stored unvalidated, and the reply carries only its text.
- Server.Store.MessagesFor: the log is kept in creation order, which stands in for the sort on `createdAt`. Ties between equal timestamps are not modelled.
- Server.Store.Apply: Mongoose would refuse an application whose `jobId` fails validation. That case cannot arise here, because the job was just found.
- Notification listing and mark-read are not modelled. They query `recipient` and set `isRead`, which are fields the notification schema does not define.
- Not modelled, as they only pass data through: the job listing routes, the student profile and upload routes, and the recruiter profile update.
- Not modelled: the duplicate ES-module backend (controllers, routes, `*.model.js`), the presentational pages, polling of the message pages, and the dashboard's progress percentage (a floating-point division).
- PostJobPage.PostJobForm.UpdateOption: the option index must name an existing option, as the rendered inputs guarantee. Writing past the end, which JavaScript would allow, is not modelled.
- ApplyJobPage.SetEntry: JavaScript orders keys that are canonical array indices ("0", "1", …) first and ascending; the model keeps insertion order for every key, which differs only for a question whose whole text is such a number.
- The page's rendering of options and question types is not modelled.
