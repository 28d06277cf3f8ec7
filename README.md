# Education portal core, modelled in Dafny

This project models the logic of a small browser learning portal for
children, and proves properties of that model. The portal's logic covers:

- **Per-child lesson progress.** Lessons are started and completed, exam
  attempts are saved with a best score, time is recorded, assessments are
  released, and progress is exported and imported.
- **Lesson assignments.** A parent assigns lessons to a child.
- **Flexible answer checking.** Answers match exactly, as equivalent
  fractions, after normalisation, by keywords, or by 60% word overlap.
- **Cloud folder sync.** The local stores are synced with one JSON file in a
  cloud folder. A status record is broadcast to listeners. Push, pull, sync,
  auto-sync, setup and disconnect are covered.
- **Exam page scoring.** The page scores an exam and builds the saved attempt.
- **Lesson ZIP upload.** The validator checks the archive and extracts the
  lesson's files.
- **Login stores.** These are the user store with its shared parent
  password, the parent-authentication store and the child-profile store.

Each core source file has its own module:

| module | file | form |
|---|---|---|
| `ProgressStore` | `progress_store.dfy` | state → state functions over maps of maps; `releaseAssessmentResults` is a method with a loop over the lesson keys |
| `AssignmentStore` | `assignment_store.dfy` | transition functions over a map of sequences, with a store invariant |
| `AnswerChecker` | `answer_checker.dfy` | pure functions and lemmas |
| `CloudSync` | `cloud_sync.dfy` | the class `CloudSyncService`, whose methods update its fields |
| `ExamViewer` | `exam_viewer.dfy` | scoring functions, a `CalculateScore` loop, and the class `ExamSession` |
| `ContentUpload` | `content_upload.dfy` | validation functions and the extraction loop |
| `UserStore` | `user_store.dfy` | the class `UserState` |
| `ParentAuthStore` | `parent_auth_store.dfy` | the class `ParentAuthState` |
| `ChildStore` | `child_store.dfy` | the class `ChildState` |

There are also two shared modules. `Strings` holds the string operations the
source calls: `toLowerCase`, `trim`, `split`, `includes`, `indexOf`,
`lastIndexOf`, and decimal printing and parsing. `Types` holds the records of
`types/index.ts`.

Each class has a function `Abs()` that gives its fields as one datatype
value. Each state-changing method ensures that the new `Abs()` is a
specification function of the old one. For example:

- `SyncFromCloud` ensures `(ok, Abs()) == Pull(old(Abs()), deviceId, env)`.
- `Login` ensures `Abs() == LoginOutcome(old(Abs()), …).session`.

The lemmas prove the source's promises about those specification functions.

Some things are inputs to the model rather than computed by it:

- The browser, the clock, the folder picker, the permission prompts and
  the file writes arrive as parameters (`Env`, `PickResult`, `Timestamp`).
- The contents of the cloud file are part of the sync state. This lets a
  push followed by a pull be traced through.
- SHA-256 password hashing is an uninterpreted function `string -> string`,
  fixed when a store object is created.
- A listener is identified by a number. Every listener call is recorded in
  a notification log.
- The page reload after a pull that applies data is a `reloadRequested` flag.

Three behaviours of the code are proved as lemmas rather than corrected:

- The exam page saves attempts under a lesson id that the lesson page never
  reads (`ExamViewer.LessonIdsDiffer`).
- The upload's prefix test also takes files from sibling folders whose name
  extends the topic's (`ContentUpload.SiblingFolderTaken`).
- A first push whose write fails after `getFileHandle(…, { create: true })`
  leaves an empty sync file behind. Every later pull then fails to parse
  it instead of falling back to a push, so `sync` never writes the file
  again (`CloudSync.EmptyFileBlocksSync`).

The model follows the code, as written, in all three cases.

Two more behaviours of the code are modelled as written:

- `sync` pushes after every successful pull, including one that applied
  remote data and asked for a page reload, although the comment in `sync`
  speaks of a pull that "didn't trigger reload". A pull that returns true
  always clears the error, so nothing stops that push
  (`CloudSync.SyncPushesAfterPull`).
- A first parent login records the matched account as it was *before*
  the shared hash was set (`UserStore.FirstParentLogin`).

## Model

| member | source | states |
|---|---|---|
| `ProgressStore.Active` | education-app/src/stores/progressStore.ts:102-103 | the active child is present exactly when `activeChildId` is set and non-empty (JavaScript truthiness) |
| `ProgressStore.PutLesson` | education-app/src/stores/progressStore.ts:120-134 | writing one lesson of one child keeps the active child, every other child and every other lesson, and the lesson then holds the new record |
| `ProgressStore.SetActiveChild` | education-app/src/stores/progressStore.ts:15-28 | the child becomes active; an empty lessons map is added only for a child without an entry; every existing child's progress is unchanged |
| `ProgressStore.MarkStarted` | education-app/src/stores/progressStore.ts:31-62 | no active child: no change; a lesson with a start time: no change; otherwise only that lesson changes, to a fresh started record (not completed, no time, no attempts) |
| `ProgressStore.CompletedRecord` | education-app/src/stores/progressStore.ts:73-87 | the completed record is marked complete at `now`, keeps an existing start time (else `now`), and keeps time spent, attempts and best score |
| `ProgressStore.MarkComplete` | education-app/src/stores/progressStore.ts:64-93 | no active child: no change; otherwise only that lesson changes, to the completed record of its previous record |
| `ProgressStore.GetProgress` | education-app/src/stores/progressStore.ts:95-99 | nothing without an active child; a result is exactly the active child's stored record of that lesson |
| `ProgressStore.GetExamAttempts` | education-app/src/stores/progressStore.ts:138-141 | the attempts of the record `getProgress` returns, or the empty list when there is none |
| `ProgressStore.BestScoreSpec` | education-app/src/stores/progressStore.ts:114-118 | the best score is absent iff no attempt has a score, NaN iff some attempt scored NaN, and otherwise a recorded score that is at least every recorded score |
| `ProgressStore.SaveExamAttempt` | education-app/src/stores/progressStore.ts:101-136 | no active child: no change; otherwise only that lesson changes: the attempt is appended at the end, the best score is recomputed over all attempts, and the other fields, `completedAt` included, are kept (a new record has no start time and is not completed) |
| `ProgressStore.FindAttempt` | education-app/src/stores/progressStore.ts:153 | `findIndex`: the first index whose attempt id matches, or none when no attempt matches |
| `ProgressStore.ReleaseInLessonSpec` | education-app/src/stores/progressStore.ts:152-167 | in one lesson, only the first attempt with the id is changed, to released at `now`; the other attempts and fields are kept |
| `ProgressStore.Released` | education-app/src/stores/progressStore.ts:143-179 | an unknown child: no change; otherwise every lesson of that child, and nothing else, gets its first matching attempt released |
| `ProgressStore.ReleaseAssessmentResults` | education-app/src/stores/progressStore.ts:143-179 | the loop over the lesson keys computes `Released` |
| `ProgressStore.UpdateLessonTime` | education-app/src/stores/progressStore.ts:181-206 | no active child or no record: no change; otherwise only that lesson changes, with `minutes` added to its time |
| `ProgressStore.ExportProgress` | education-app/src/stores/progressStore.ts:208-216 | the document has version "2.0", the export time and every child's progress |
| `ProgressStore.ImportProgress` | education-app/src/stores/progressStore.ts:218-240 | fails without change iff the text does not parse or `children` is not an object; otherwise imported child entries replace existing ones whole and the other children are kept |
| `ProgressStore.ExportImportRoundTrip` | education-app/src/stores/progressStore.ts:208-240 | exporting and importing into a store without children reproduces every child's progress, when no score is NaN |
| `ProgressStore.CompleteAfterStart` | education-app/src/stores/progressStore.ts:31-93 | completing after starting keeps the start time and records the completion time |
| `ProgressStore.StartAfterAttemptDiscardsAttempts` | education-app/src/stores/progressStore.ts:39-57 | an attempt saved before the lesson was started creates a record without a start time, so starting the lesson afterwards discards that attempt |
| `ProgressStore.SaveLeavesOtherLessons` | education-app/src/stores/progressStore.ts:120-134 | saving an attempt leaves the attempts of every other lesson id unchanged |
| `AssignmentStore.GetAssignments` | education-app/src/stores/assignmentStore.ts:76-79 | a child without a key has the empty list; otherwise its stored list |
| `AssignmentStore.Without` | education-app/src/stores/assignmentStore.ts:57-59 | the filter keeps exactly the entries for other lessons |
| `AssignmentStore.AssignTopic` | education-app/src/stores/assignmentStore.ts:24-51 | an already assigned pair leaves the store unchanged; otherwise exactly one entry is appended to that child's list; other children are untouched |
| `AssignmentStore.UnassignTopic` | education-app/src/stores/assignmentStore.ts:53-74 | every entry of the lesson is removed; the child's key is deleted once its list is empty; other children are untouched |
| `AssignmentStore.AssignPreservesValid` | education-app/src/stores/assignmentStore.ts:28-49 | assigning keeps the invariant: no lesson twice in a list, no empty list, entries under their own child |
| `AssignmentStore.WithoutKeepsDistinct` | education-app/src/stores/assignmentStore.ts:57-59 | filtering a list without duplicate lessons leaves none |
| `AssignmentStore.UnassignPreservesValid` | education-app/src/stores/assignmentStore.ts:53-74 | unassigning keeps the same invariant |
| `AssignmentStore.AssignThenIsAssigned` | education-app/src/stores/assignmentStore.ts:24-87 | `isAssigned` holds right after assigning the pair and fails right after unassigning it |
| `AssignmentStore.AssignIdempotent` | education-app/src/stores/assignmentStore.ts:28-35 | assigning twice is assigning once, keeping the first time and parent |
| `AssignmentStore.UnassignIdempotent` | education-app/src/stores/assignmentStore.ts:53-74 | unassigning twice is unassigning once |
| `AssignmentStore.WithoutAppend` | education-app/src/stores/assignmentStore.ts:57-59 | the filter distributes over concatenation, so the kept entries stay in their order |
| `AssignmentStore.WithoutOne` | education-app/src/stores/assignmentStore.ts:57-59 | a single entry is kept iff it belongs to another lesson |
| `AssignmentStore.WithoutFixed` | education-app/src/stores/assignmentStore.ts:57-59 | filtering a list that does not hold the lesson returns it unchanged |
| `Strings.Lower` | education-app/src/utils/answerChecker.ts:73 | `toLowerCase` keeps the length and maps each character on its own |
| `Strings.LowerIdempotent` | education-app/src/utils/answerChecker.ts:73 | lower-casing twice is lower-casing once |
| `Strings.TrimSlice` | education-app/src/utils/answerChecker.ts:66-67 | `trim` returns a contiguous slice of its input |
| `Strings.TrimCutsSpace` | education-app/src/utils/answerChecker.ts:66-67 | everything `trim` cuts away on either side is white space |
| `Strings.TrimEnds` | education-app/src/utils/answerChecker.ts:66-67 | a trimmed string is empty or starts and ends with a non-space |
| `Strings.TrimOfTrimmed` | education-app/src/utils/answerChecker.ts:39 | `trim` leaves a string without white space at its ends unchanged |
| `Strings.JoinSplit` | education-app/src/utils/answerChecker.ts:55 | joining the parts of `split` with the separator gives back the string |
| `Strings.SplitLength` | education-app/src/components/ContentUpload.tsx:47-49 | `split` gives one more part than there are separators |
| `Strings.ContainsIff` | education-app/src/utils/answerChecker.ts:59 | `includes` holds iff the text occurs at some position |
| `Strings.NatToStringParse` | education-app/src/components/ContentUpload.tsx:63-64 | `parseInt` of digits without a leading zero prints back as the same digits |
| `Strings.ParseNatToString` | education-app/src/components/ContentUpload.tsx:107 | parsing a printed number gives that number back |
| `AnswerChecker.ParseFractionSpec` | education-app/src/utils/answerChecker.ts:10-20 | a string parses as a fraction iff it matches `^(\d+)\/(\d+)$`, and then yields the numbers on each side of the slash |
| `AnswerChecker.FractionsEquivalentSpec` | education-app/src/utils/answerChecker.ts:9-25 | equivalent iff both strings match the fraction pattern and the cross products agree; symmetric |
| `AnswerChecker.RemovePunctuation` | education-app/src/utils/answerChecker.ts:37 | the result holds no character of `.,!?;:()` and only characters of the input |
| `AnswerChecker.CollapseSpaces` | education-app/src/utils/answerChecker.ts:38 | the only white space left is a single space, never two in a row |
| `AnswerChecker.CollapseKeeps` | education-app/src/utils/answerChecker.ts:38 | collapsing introduces no character but the space |
| `AnswerChecker.RemovePunctuationAppend` | education-app/src/utils/answerChecker.ts:37 | removing punctuation distributes over concatenation, so the other characters survive in their order |
| `AnswerChecker.RemovePunctuationOne` | education-app/src/utils/answerChecker.ts:37 | a single character is dropped iff it is one of `.,!?;:()` |
| `AnswerChecker.CollapseSpacesSpec` | education-app/src/utils/answerChecker.ts:38 | collapsing equals writing every white-space character as a space and then dropping each space that follows a space, so all other characters are kept in order |
| `AnswerChecker.CollapsedIsClean` | education-app/src/utils/answerChecker.ts:35-38 | after lower-casing, deleting punctuation and collapsing, no character is upper-case, punctuation or white space other than a space |
| `AnswerChecker.TrimOfCollapsed` | education-app/src/utils/answerChecker.ts:39 | trimming such a text gives a normal one |
| `AnswerChecker.NormalizeIsNormal` | education-app/src/utils/answerChecker.ts:34-40 | `normalizeText` gives lower case, no punctuation, single spaces, and no space at either end |
| `AnswerChecker.NormalOfNormal` | education-app/src/utils/answerChecker.ts:34-40 | `normalizeText` leaves such a text unchanged |
| `AnswerChecker.NormalizeIdempotent` | education-app/src/utils/answerChecker.ts:34-40 | `normalizeText` is idempotent |
| `AnswerChecker.Keywords` | education-app/src/utils/answerChecker.ts:51-56 | the keywords are exactly the non-empty words that are not filler words |
| `AnswerChecker.ContainsKeywordsSpec` | education-app/src/utils/answerChecker.ts:46-60 | `containsKeywords` holds iff every non-filler word of the normalised correct answer is a substring of the normalised user answer |
| `AnswerChecker.KeywordsAllFound` | education-app/src/utils/answerChecker.ts:59 | every keyword found iff every non-empty, non-filler word found |
| `AnswerChecker.CountFound` | education-app/src/utils/answerChecker.ts:108 | the matched count is at most the number of words, equal to it when all are found, and 0 when none is |
| `AnswerChecker.CorrectWords` | education-app/src/utils/answerChecker.ts:105 | the correct answer always splits into at least one word |
| `AnswerChecker.OverlapBounds` | education-app/src/utils/answerChecker.ts:104-111 | all correct words found accepts; none found rejects |
| `AnswerChecker.EmptyIsWrong` | education-app/src/utils/answerChecker.ts:66-70 | an answer that is empty after trimming is wrong for every type |
| `AnswerChecker.ExactMatchIsRight` | education-app/src/utils/answerChecker.ts:72-75 | trimmed, case-insensitively equal answers are right for every type |
| `AnswerChecker.Reflexive` | education-app/src/utils/answerChecker.ts:66-75 | an answer checked against itself is right iff it is not blank |
| `AnswerChecker.OtherTypesExactOnly` | education-app/src/utils/answerChecker.ts:77-114 | for types other than fill-in and short-answer, right iff non-blank and a case-insensitive match |
| `AnswerChecker.FillInSpec` | education-app/src/utils/answerChecker.ts:65-89 | a fill-in answer is right iff non-blank and an exact match, an equivalent fraction, or equal after normalisation |
| `AnswerChecker.ShortAnswerSpec` | education-app/src/utils/answerChecker.ts:65-112 | a short answer is right iff non-blank and an exact match, contains every keyword, or reaches the 60% overlap (`5·matched ≥ 3·total`) |
| `CloudSync.GetOrCreateDeviceId` | education-app/src/services/cloudSyncService.ts:60-67 | a stored non-empty id is reused and storage is unchanged; otherwise `device-<time>-<random>` is created and stored; no other key changes |
| `CloudSync.DeviceIdStable` | education-app/src/services/cloudSyncService.ts:60-67 | once created, a later start reads back the same id |
| `CloudSync.Merge` | education-app/src/services/cloudSyncService.ts:54-57 | each status field is overwritten iff the update gives it, and kept otherwise |
| `CloudSync.MergeLaws` | education-app/src/services/cloudSyncService.ts:54-57 | the empty update changes nothing, two updates compose as their spread, and repeating an update changes nothing |
| `CloudSync.Broadcast` | education-app/src/services/cloudSyncService.ts:50-52 | one call per listener, in subscription order, with the current status |
| `CloudSync.Remove` | education-app/src/services/cloudSyncService.ts:46 | the filter removes exactly that callback, and leaves a list without it unchanged |
| `CloudSync.RemoveAppend` | education-app/src/services/cloudSyncService.ts:43-46 | removing after appending is appending to the removed list, unless the appended callback is the one removed |
| `CloudSync.SubscribeThenUnsubscribe` | education-app/src/services/cloudSyncService.ts:42-48 | subscribing appends the callback and calls it once with the current status; the returned function removes that callback and keeps the others in order |
| `CloudSync.ReadDomain` | education-app/src/services/cloudSyncService.ts:189-192 | a stored non-empty value, else `{"state":{}}` |
| `CloudSync.Gather` | education-app/src/services/cloudSyncService.ts:187-196 | every domain, defaulted when absent, stamped with the time and this device's id |
| `CloudSync.Apply` | education-app/src/services/cloudSyncService.ts:199-212 | exactly the domains present in the snapshot are overwritten; every other key keeps its value or absence |
| `CloudSync.GatherThenApply` | education-app/src/services/cloudSyncService.ts:187-212 | applying this storage's own snapshot only fills in defaults, and changes nothing when every domain is stored |
| `CloudSync.WithoutFolder` | education-app/src/services/cloudSyncService.ts:216-219 | without a folder, push and pull (lines 262-265) return false, set 'Cloud sync not setup', and leave every other status field, the storage and the file unchanged |
| `CloudSync.PermissionRefused` | education-app/src/services/cloudSyncService.ts:225-231 | refused on query and request: both directions return false with 'Sync failed: Permission denied', not syncing, storage and file untouched (the catch at lines 251-256) |
| `CloudSync.PushWrites` | education-app/src/services/cloudSyncService.ts:215-258 | a successful push writes this storage's snapshot, records the time as the last sync, clears the error, and leaves the storage alone |
| `CloudSync.PullDecides` | education-app/src/services/cloudSyncService.ts:286-311 | a readable file is applied iff it is newer than the last sync (0 when none) or from another device; then the last sync becomes the file's time, otherwise storage and last sync stay |
| `CloudSync.Created` | education-app/src/services/cloudSyncService.ts:237 | obtaining the handle with `create: true` turns a missing file into an empty, unparseable one and leaves an existing file alone |
| `CloudSync.PushFailureLeavesFile` | education-app/src/services/cloudSyncService.ts:236-257 | a failed write reports its message and keeps the storage; a failed `getFileHandle` keeps the file, a later failure keeps an existing file and leaves an empty one where there was none |
| `CloudSync.UnreadableBlocksSync` | education-app/src/services/cloudSyncService.ts:280-337 | with an unreadable file, `sync` fails with the parse error and writes nothing |
| `CloudSync.EmptyFileBlocksSync` | education-app/src/services/cloudSyncService.ts:236-337 | after a first write fails past the handle, every later `sync` fails on the empty file and never writes it |
| `CloudSync.PullFallsBack` | education-app/src/services/cloudSyncService.ts:312-323 | a missing file turns the pull into a push; an unreadable one fails with its message |
| `CloudSync.PullSuccessClearsError` | education-app/src/services/cloudSyncService.ts:261-324 | a pull that returns true leaves no error |
| `CloudSync.SyncPushesAfterPull` | education-app/src/services/cloudSyncService.ts:327-337 | `sync` pushes exactly when its pull returned true |
| `CloudSync.PushThenPullKeepsLocal` | education-app/src/services/cloudSyncService.ts:215-311 | pulling back this device's own push applies nothing and asks for no reload |
| `CloudSync.OtherDeviceApplied` | education-app/src/services/cloudSyncService.ts:291-302 | a file from another device is always applied, and a reload is requested |
| `CloudSync.EndsIdle` | education-app/src/services/cloudSyncService.ts:143-378 | starting idle, push, pull, sync, setup and disconnect all end with `isSyncing` false |
| `CloudSync.PushEndsIdle` | education-app/src/services/cloudSyncService.ts:215-258 | a push never leaves `isSyncing` set |
| `CloudSync.PullEndsIdle` | education-app/src/services/cloudSyncService.ts:261-324 | a pull never leaves `isSyncing` set |
| `CloudSync.TickGuard` | education-app/src/services/cloudSyncService.ts:345-349 | the interval callback does nothing without a folder, while a sync runs, or once stopped; otherwise it syncs |
| `CloudSync.DisconnectResets` | education-app/src/services/cloudSyncService.ts:361-379 | disconnecting drops the folder, stops auto-sync, and resets isSetup, lastSync and error; listeners, storage and file are kept, and later pushes and pulls report not set up |
| `CloudSync.SetupPushes` | education-app/src/services/cloudSyncService.ts:143-184 | a granted setup keeps the folder, pushes this storage and starts auto-sync; an aborted picker only clears the error |
| `CloudSync.CloudSyncService.constructor` | education-app/src/services/cloudSyncService.ts:25-39 | no folder, no listeners, the initial status, and the device id stored |
| `CloudSync.CloudSyncService.Subscribe` | education-app/src/services/cloudSyncService.ts:42-44 | the new state is `Subscribed` of the old |
| `CloudSync.CloudSyncService.Unsubscribe` | education-app/src/services/cloudSyncService.ts:45-47 | the new state is `Unsubscribed` of the old |
| `CloudSync.CloudSyncService.NotifyListeners` | education-app/src/services/cloudSyncService.ts:50-52 | the loop appends exactly the broadcast of the current status |
| `CloudSync.CloudSyncService.UpdateStatus` | education-app/src/services/cloudSyncService.ts:54-57 | the status is merged, then every listener is told |
| `CloudSync.CloudSyncService.ApplyData` | education-app/src/services/cloudSyncService.ts:199-212 | only the storage changes, to `Apply` of the snapshot |
| `CloudSync.CloudSyncService.SyncToCloud` | education-app/src/services/cloudSyncService.ts:215-258 | result and new state are `Push` of the old state |
| `CloudSync.CloudSyncService.SyncFromCloud` | education-app/src/services/cloudSyncService.ts:261-324 | result and new state are `Pull` of the old state |
| `CloudSync.CloudSyncService.Sync` | education-app/src/services/cloudSyncService.ts:327-337 | result and new state are `Synced` of the old state |
| `CloudSync.CloudSyncService.StartAutoSync` | education-app/src/services/cloudSyncService.ts:340-350 | only the auto-sync flag changes, to on |
| `CloudSync.CloudSyncService.StopAutoSync` | education-app/src/services/cloudSyncService.ts:353-358 | only the auto-sync flag changes, to off |
| `CloudSync.CloudSyncService.AutoSyncTick` | education-app/src/services/cloudSyncService.ts:345-349 | the new state is `Tick` of the old |
| `CloudSync.CloudSyncService.SetupCloudSync` | education-app/src/services/cloudSyncService.ts:143-184 | result and new state are `Setup` of the old state |
| `CloudSync.CloudSyncService.Disconnect` | education-app/src/services/cloudSyncService.ts:361-379 | the new state is `Disconnected` of the old |
| `ExamViewer.Percentage` | education-app/src/components/ExamViewer.tsx:75 | NaN iff there are no points; otherwise the nearest integer to `100·correct/total`, halves rounded up |
| `ExamViewer.CalculateScore` | education-app/src/components/ExamViewer.tsx:60-76 | 0 without an exam; otherwise the loop yields the rounded percentage of the points of the strictly-equal answers |
| `ExamViewer.CorrectAtMostTotal` | education-app/src/components/ExamViewer.tsx:63-73 | the points earned never exceed the total |
| `ExamViewer.AllCorrectIsTotal` | education-app/src/components/ExamViewer.tsx:66-73 | every answer correct earns the total |
| `ExamViewer.NoneCorrectIsZero` | education-app/src/components/ExamViewer.tsx:66-73 | no answer correct earns nothing |
| `ExamViewer.PercentageRange` | education-app/src/components/ExamViewer.tsx:75 | for `correct ≤ total` and `total > 0` the percentage is in 0..100, 100 for full marks and 0 for none |
| `ExamViewer.ScoreRange` | education-app/src/components/ExamViewer.tsx:60-76 | the score is NaN with no points; otherwise in 0..100, 100 when all are right and 0 when none is |
| `ExamViewer.UnansweredCount` | education-app/src/components/ExamViewer.tsx:82-84 | at most the number of questions |
| `ExamViewer.UnansweredSpec` | education-app/src/components/ExamViewer.tsx:82-84 | the count is 0 iff every question has an answer, and all of them iff none has |
| `ExamViewer.LessonIdsDiffer` | education-app/src/components/ExamViewer.tsx:98-101 | the exam page's id never equals the id LessonViewer.tsx:28 reads, so a saved attempt never shows among the lesson page's attempts |
| `ExamViewer.BuildAttempt` | education-app/src/components/ExamViewer.tsx:103-113 | the attempt's id, lesson id, type, times, answers and score; `passed` is score ≥ passing score; total points is always 100 |
| `ExamViewer.AttemptPassedIff` | education-app/src/components/ExamViewer.tsx:93-113 | a saved attempt has a score in 0..100, passes iff it reaches the passing score, and records 100 as its total |
| `ExamViewer.ExamSession.constructor` | education-app/src/components/ExamViewer.tsx:28-31 | no answers, not submitted, no score, explanations hidden |
| `ExamViewer.ExamSession.AnswerChange` | education-app/src/components/ExamViewer.tsx:56-58 | records the answer for that question and changes nothing else |
| `ExamViewer.ExamSession.HandleSubmit` | education-app/src/components/ExamViewer.tsx:78-116 | without an exam, or when unanswered questions are not confirmed, nothing changes; otherwise the score is shown and the attempt is saved to the progress store |
| `ExamViewer.ExamSession.HandleRetry` | education-app/src/components/ExamViewer.tsx:118-123 | answers emptied, not submitted, no score, explanations hidden |
| `ContentUpload.FindContaining` | education-app/src/components/ContentUpload.tsx:41 | the first entry containing the text, or none when no entry does |
| `ContentUpload.FolderOf` | education-app/src/components/ContentUpload.tsx:46 | the prefix before the last '/', or empty when there is none |
| `ContentUpload.DigitRun` | education-app/src/components/ContentUpload.tsx:56-57 | the longest run of digits at the start |
| `ContentUpload.FindNumbered` | education-app/src/components/ContentUpload.tsx:56-57 | the leftmost position of the prefix followed by a digit |
| `ContentUpload.MatchNumbered` | education-app/src/components/ContentUpload.tsx:56-61 | `/prefix(\d+)/` matches iff the prefix is followed by a digit somewhere; the capture is a non-empty run of digits |
| `ContentUpload.MatchNumberedExact` | education-app/src/components/ContentUpload.tsx:56-57 | a segment that is exactly the prefix and digits captures those digits |
| `ContentUpload.ReadLayout` | education-app/src/components/ContentUpload.tsx:41-64 | no metadata entry: that error; a folder path that does not have four segments: the structure error; a first or third segment without `grade-<digits>` or `quarter-<digits>`: the format error naming both; otherwise success, with the four segments and the grade and quarter digits of the first metadata entry's folder |
| `ContentUpload.MissingFiles` | education-app/src/components/ContentUpload.tsx:76-77 | exactly the required files with no entry under the lesson folder |
| `ContentUpload.MissingNamesOnlyContentAndPractice` | education-app/src/components/ContentUpload.tsx:67-81 | once metadata.json is found, the missing list names content.md then practice.json, in that order |
| `ContentUpload.RelativePath` | education-app/src/components/ContentUpload.tsx:89 | the path without its first `lessonPath.length + 1` characters |
| `ContentUpload.IsBinaryIgnoresCase` | education-app/src/components/ContentUpload.tsx:92 | the binary-extension test ignores case |
| `ContentUpload.ExtractFiles` | education-app/src/components/ContentUpload.tsx:84-104 | the loop yields `Extracted` of the entries |
| `ContentUpload.ExtractedSpec` | education-app/src/components/ContentUpload.tsx:86-92 | exactly the entries that start with the lesson path and are not folders are extracted, each under its relative path and classification |
| `ContentUpload.SiblingFolderTaken` | education-app/src/components/ContentUpload.tsx:87 | a file in a sibling folder whose name extends the topic's is extracted too |
| `ContentUpload.MakeLesson` | education-app/src/components/ContentUpload.tsx:107-116 | id `{gradePart}-{subject}-q{quarter}-{topicName}`; grade and quarter parsed; the display name falls back to the folder name when the metadata has none |
| `ContentUpload.HandleFileUpload` | education-app/src/components/ContentUpload.tsx:21-134 | the handler's outcome is `Upload`: a lesson only for a `.zip` name with a valid layout, a metadata file that parses and every required file in the lesson folder |
| `ContentUpload.UploadRejects` | education-app/src/components/ContentUpload.tsx:67-80 | a metadata.json outside the lesson folder, a metadata parse error and missing required files each abort the upload with their message, in that order |
| `ContentUpload.NonZipRejected` | education-app/src/components/ContentUpload.tsx:25-28 | a name not ending in `.zip` is refused before anything else |
| `ContentUpload.LessonIdKeepsQuarter` | education-app/src/components/ContentUpload.tsx:63-107 | quarter digits without a leading zero appear unchanged in the lesson id |
| `ContentUpload.FolderOfMetadata` | education-app/src/components/ContentUpload.tsx:46 | the folder of `lp/metadata.json` is `lp` |
| `ContentUpload.SplitFour` | education-app/src/components/ContentUpload.tsx:47 | four slash-free segments joined by '/' split back into those four |
| `ContentUpload.FirstEntryNamesMetadata` | education-app/src/components/ContentUpload.tsx:41 | a first entry `lp/metadata.json` is the one found |
| `ContentUpload.LayoutOfFirstEntry` | education-app/src/components/ContentUpload.tsx:41-64 | such an entry yields the layout of its four segments |
| `ContentUpload.WellFormedLayout` | education-app/src/components/ContentUpload.tsx:41-64 | `grade-G/subject/quarter-Q/topic` is read with digits G and Q |
| `ContentUpload.UploadAccepts` | education-app/src/components/ContentUpload.tsx:66-116 | past the layout, metadata and required-file checks, the handler uploads the lesson built from the layout |
| `ContentUpload.WellFormedAccepted` | education-app/src/components/ContentUpload.tsx:21-125 | a well-formed archive with its required files is uploaded with grade G, quarter Q, its subject and topic, and every file of its folder |
| `UserStore.FindUser` | education-app/src/stores/userStore.ts:88-90 | the first user whose name equals the given one case-insensitively, or none when no user matches |
| `UserStore.FirstHashedParent` | education-app/src/stores/userStore.ts:119 | the first parent with a non-empty hash; none iff no parent has one |
| `UserStore.WithParentHash` | education-app/src/stores/userStore.ts:110-112 | every parent gets the hash, children are unchanged |
| `UserStore.LoginOutcome` | education-app/src/stores/userStore.ts:86-136 | a refused login changes nothing and selects no child; an accepted one makes the matched account current; only child logins select a profile |
| `UserStore.LoggedOut` | education-app/src/stores/userStore.ts:139 | no current user; users kept |
| `UserStore.UserState.constructor` | education-app/src/stores/userStore.ts:39-84 | the five initial accounts and no current user |
| `UserStore.UserState.Login` | education-app/src/stores/userStore.ts:86-136 | the store becomes the `LoginOutcome` session; for a child with an assigned profile, the child store selects it; the children list is unchanged |
| `UserStore.UserState.Logout` | education-app/src/stores/userStore.ts:138-143 | the current user is cleared and the child store selects `''` |
| `UserStore.UnknownUserFails` | education-app/src/stores/userStore.ts:88-94 | a name matching no account, ignoring case, is refused without change |
| `UserStore.ParentNeedsPassword` | education-app/src/stores/userStore.ts:97-100 | a parent login without a password (missing or empty) is refused |
| `UserStore.FirstParentLogin` | education-app/src/stores/userStore.ts:103-115 | the first parent login succeeds, gives every parent the password's hash, and leaves children unchanged |
| `UserStore.FindUserAfterHash` | education-app/src/stores/userStore.ts:88-112 | setting the hash does not change which account a name finds |
| `UserStore.HashedParentAfterHash` | education-app/src/stores/userStore.ts:110-119 | after the hash is set, the first hashed parent carries it |
| `UserStore.LaterParentLogin` | education-app/src/stores/userStore.ts:117-127 | with a hash set, a parent login succeeds iff the password hashes to the first hashed parent's hash; the users are unchanged; a refusal changes nothing |
| `UserStore.SharedPassword` | education-app/src/stores/userStore.ts:103-127 | after the first parent login and a logout, any parent logs in iff their password has the same hash as the first one |
| `UserStore.ChildIgnoresPassword` | education-app/src/stores/userStore.ts:126-135 | a child login ignores the password, succeeds, and selects the assigned profile |
| `UserStore.FindUserIgnoresCase` | education-app/src/stores/userStore.ts:88-90 | names equal up to case find the same account |
| `UserStore.LoginIgnoresCase` | education-app/src/stores/userStore.ts:86-136 | the login outcome depends on the name only up to case |
| `UserStore.LoginDecidesQueries` | education-app/src/stores/userStore.ts:145-156 | after a login, `canSwitchChildren` holds iff the account is a parent's, and `getCurrentChildId` gives only a child's profile; after logout both are off |
| `ParentAuthStore.PasswordSet` | education-app/src/stores/parentAuthStore.ts:23-26 | the hash is stored and the parent is authenticated |
| `ParentAuthStore.Attempt` | education-app/src/stores/parentAuthStore.ts:28-46 | with no stored hash (null or empty), it stores this one and succeeds; otherwise it succeeds iff the hashes are equal, keeps the hash, and only sets authenticated on success |
| `ParentAuthStore.LoggedOut` | education-app/src/stores/parentAuthStore.ts:48-50 | not authenticated; hash kept |
| `ParentAuthStore.ParentAuthState.constructor` | education-app/src/stores/parentAuthStore.ts:20-21 | not authenticated, no hash |
| `ParentAuthStore.ParentAuthState.SetPassword` | education-app/src/stores/parentAuthStore.ts:23-26 | the new state is `PasswordSet` of the old |
| `ParentAuthStore.ParentAuthState.Authenticate` | education-app/src/stores/parentAuthStore.ts:28-46 | result and new state are `Attempt` of the old state |
| `ParentAuthStore.ParentAuthState.Logout` | education-app/src/stores/parentAuthStore.ts:48-50 | the new state is `LoggedOut` of the old |
| `ParentAuthStore.FailedAttemptChangesNothing` | education-app/src/stores/parentAuthStore.ts:38-45 | a failed attempt changes neither field |
| `ParentAuthStore.FirstPasswordSticks` | education-app/src/stores/parentAuthStore.ts:28-50 | after the first password and a logout, a later attempt succeeds iff it has the same hash; a wrong one stays logged out |
| `ParentAuthStore.LogoutKeepsOutcome` | education-app/src/stores/parentAuthStore.ts:28-50 | logging out never changes a later attempt's outcome |
| `ParentAuthStore.SetPasswordReplaces` | education-app/src/stores/parentAuthStore.ts:23-46 | after `setPassword` only the new password is accepted |
| `ParentAuthStore.AcceptedIsStable` | education-app/src/stores/parentAuthStore.ts:28-46 | an accepted attempt authenticates, and repeating it changes nothing |
| `ChildStore.FindChild` | education-app/src/stores/childStore.ts:31 | the first child with the id, or none when no child has it |
| `ChildStore.Selected` | education-app/src/stores/childStore.ts:30-35 | the matching child becomes active; an unknown id keeps the previous one |
| `ChildStore.ChildState.constructor` | education-app/src/stores/childStore.ts:6-28 | the three initial children and no active child |
| `ChildStore.ChildState.SelectChild` | education-app/src/stores/childStore.ts:30-35 | only the active child changes, to `Selected`; the children list is untouched |
| `ChildStore.ChildState.GetChild` | education-app/src/stores/childStore.ts:37-39 | the first child with the id, changing nothing |
| `ChildStore.InitialChildrenFound` | education-app/src/stores/childStore.ts:6-22 | each initial id finds its child |
| `ChildStore.SelectEmptyKeepsActive` | education-app/src/stores/userStore.ts:141-142 | `selectChild('')` on logout keeps the active child rather than clearing it |
| `ChildStore.SelectIdempotent` | education-app/src/stores/childStore.ts:30-35 | selecting twice with the same id is selecting once |
| `ChildStore.SelectMember` | education-app/src/stores/childStore.ts:30-39 | with distinct ids, selecting a child's id makes exactly that child active and `getChild` returns it |

## Left out

- Persistence is not modelled. This covers the zustand `persist` middleware and the JSON text of local storage. The cloud file and the progress import are modelled by their parse result. A cloud file that parses but cannot be read as sync data is one more `Unreadable` file.
- A metadata.json that parses to `null` is not modelled. In the source, reading its `topicName` throws, and the handler reports that error.
- The IndexedDB folder-handle persistence is not modelled: `openDB`, `loadFolderHandle`, `saveFolderHandle` and `promisifyRequest`. A service therefore starts without a folder, and the handle restore at construction is not modelled. Its failures are only logged in the source.
- `isSupported`, `getStatus` and `isSetup` are not modelled as operations. Support is an input to setup, and the status is read from the state.
- The folder picker, the permission prompts, and file reads and writes are inputs (`PickResult`, `Access`, `RemoteFile`, `Env`). The remote file is the abstract file contents, not its JSON text.
- `window.location.reload` is recorded as the `reloadRequested` flag. The reload itself is not modelled.
- The `setInterval` timing is not modelled. A tick is one firing of the callback.
- The race between a manual sync and an auto-sync, and the interleaving of awaited calls, are concurrency and are not modelled.
- One `sync` reads a single permission answer and a single write outcome (`Env`), shared by its pull, a fallback push and its final push. The source asks and writes separately each time.
- Each operation reads the clock once. The source calls `new Date()` separately for the file's time and for `lastSync`.
- Timestamps are natural numbers, and ISO-8601 formatting and parsing are not modelled.
- SHA-256 (`crypto.subtle`) is an uninterpreted function, so hash collisions are neither excluded nor assumed.
- `toLowerCase` is modelled on ASCII letters only. Unicode case mappings are not modelled.
- `Math.round` is computed exactly on the rational `100·correct/total`. IEEE floating-point rounding of the quotient is not modelled.
- The 0.6 threshold is the exact inequality `5·matched ≥ 3·total`, not the floating-point division.
- `parseInt` is exact on digit strings. Precision loss beyond 2^53 is not modelled.
- `AnswerChecker.FractionsEquivalent` compares the cross products `a·d` and `c·b` exactly, while the source compares them as IEEE doubles, which round above 2^53. Example: the user's "134217729/134217730" against "134217728/134217729". Every operand is exact, but the products 2^54+2^28+1 and 2^54+2^28 round to the same double. The source accepts this answer and the model rejects it. The same gap reaches `CheckAnswer` through `AnswerChecker.FillInSpec`.
- `AnswerChecker.FractionsEquivalentSpec`: states exact equality of the cross products, so it is weaker than the source wherever double rounding makes unequal products equal (see the line above).
- Question points are natural numbers. Negative or fractional points are not modelled.
- An answer is a number or a string (`AnswerValue`), and equality between them is strict, so an index never equals a string. `String(userAnswer)` coercion is not modelled, because the checker takes strings.
- JSZip decompression and the file contents (`file.async`) are not modelled. Only the entry paths and each file's classification are kept.
- The `uploadedAt` time, the `saveLesson` write and the reload of the lesson list after an upload are not modelled.
- The metadata's parse result is an input, so the model does not check that metadata.json is valid JSON.
- `ProgressStore.ExportImportRoundTrip`: holds only for stores without NaN scores. `JSON.stringify` writes a NaN score (an exam with no points) as `null`, and the model has no `null` score to import it as.
- The parse error of an empty sync file is V8's message, "Unexpected end of JSON input". Other engines word it differently.
- A failed write to an existing sync file is taken to leave its contents as they were, as the File System Access API's writable stream only commits on `close`.
- `ExamViewer.BuildAttempt`: the source's attempt has no `released` field. The model records `false` and no release time, which every reader treats the same as absent.
- `ExamViewer.ExamSession.HandleSubmit`: the confirmation dialog's answer is an input, and `window.scrollTo` and the exam loading are not modelled.
- `CloudSync.CloudSyncService.Unsubscribe`: the closure `subscribe` returns is modelled as a method that takes the listener's identity.
- `services/contentLoader.ts` and `services/uploadedContentStore.ts` are not part of this model. They are fetch and IndexedDB plumbing with no logic to verify.
- Rendering, routing and every component other than the exam page's scoring and the upload handler are not modelled.
