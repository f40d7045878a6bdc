# LeetKhata sync core in Dafny

LeetKhata copies a user's accepted LeetCode solutions into a GitHub
repository. Each run is one incremental sync pass:

1. Load the sync ledger (`.leetkhata/sync-state.json` in the solutions
   repository). The ledger is the set of submission IDs already synced.
2. List the recent submissions.
3. Keep the accepted ones that are not in the ledger.
4. For each one, fetch the submission detail and the problem, and build two
   files: the solution source and a README. A submission that fails at any
   step is skipped.
5. Commit every file, together with the updated ledger, in one commit whose
   message lists the synced problems.

A companion script, `scripts/refresh-cookies.py`, takes the LeetCode cookies
from the browser. It writes them into the `.env` file that `Program.cs`
loads at start-up, or into repository secrets, or both.

The project models these parts:

- the pass (`SyncOrchestrator`);
- the ledger (`SyncTracker`);
- the file layout and extension table (`SolutionOrganizer`);
- the way a LeetCode GraphQL reply is classified (`LeetCodeClient`);
- the `.env` loader, the option validation and the exit code (`Program`);
- the pure parts of the script (`RefreshCookies`);
- the `.env` hand-off between the script and the loader (`EnvHandOff`).

Each operation is stated in one of two ways:

- Pure logic becomes functions with contracts.
- Step-by-step code becomes methods. The pass is the class
  `SyncOrchestrator.Orchestrator`, which updates a `GitHubSync.Repository`
  object. The loops become `for`/`while` loops, proved against the functions
  that specify them.

The main properties proved:

- **Ledger.** A committed pass grows the ledger by exactly the IDs it
  synced. A second pass over the same replies commits nothing.
- **Failed items.** A failed item contributes nothing to the batch.
- **GraphQL classification.** Every reply shape maps to its exception
  class. A session expiry is recognised by status code or by a sign-in
  message.
- **Options.** An option is reported missing exactly when it is blank, in
  check order.
- **`.env` file.** The loader reads the cookies the script wrote under the
  configuration keys `LEETKHATA:LeetCodeSession` and
  `LEETKHATA:LeetCodeCsrfToken`. Rewriting the file with the same cookies
  changes nothing.

## Model

| member | source | states |
|---|---|---|
| Models.EmptyState | src/LeetKhata/Models/SyncState.cs:5-6 | a fresh ledger has no synced IDs and the minimum timestamp |
| Models.DefaultOptions | src/LeetKhata/Configuration/LeetKhataOptions.cs:8-18 | the option defaults: ledger path `.leetkhata/sync-state.json`, fetch limit 20, branch `main`, repository `leetcode-solutions`, every secret and account name empty |
| Text.Trim | src/LeetKhata/Program.cs:18 | the trimmed text has no white space at either end, is no longer than the input, and is empty exactly when the input is blank |
| Text.TrimIsInfix | src/LeetKhata/Program.cs:18 | the trimmed text is a slice of the input with only white space before it and only white space after it |
| Text.TrimSurrounded | src/LeetKhata/Program.cs:18 | text that starts and ends with a non-space, between two blank runs, trims to itself |
| Text.TrimOfTrimEnd | scripts/refresh-cookies.py:184 | stripping text whose trailing white space was dropped already gives the same result as stripping it once |
| Text.TrimEnd | src/LeetKhata/Services/SyncOrchestrator.cs:123 | `TrimEnd` drops only trailing white space and keeps a prefix of the text |
| Text.Lower | src/LeetKhata/Services/SolutionOrganizer.cs:28 | `ToLower` maps each character and keeps the length |
| Text.Partition | scripts/refresh-cookies.py:186 | `partition("=")` splits at the first `=`: the parts joined by it give the line back, and the first holds no `=` |
| Text.IndexOf | src/LeetKhata/Program.cs:21 | -1 exactly when the character is absent, otherwise the position of its first occurrence |
| Text.ReplaceUnderscorePairs | src/LeetKhata/Program.cs:24 | the result is empty exactly when the input is, starts with `_` exactly when the input starts with a lone `_`, and leaves text without `_` unchanged |
| Text.ReplaceUnderscorePairsLeavesNoPair | src/LeetKhata/Program.cs:24 | no "__" is left after the replacement |
| Text.ReplaceUnderscorePairsAppend | src/LeetKhata/Program.cs:24 | the left-to-right scan never pairs across a boundary that is not `_`: the two sides are replaced on their own |
| Text.ReplaceUnderscorePair | src/LeetKhata/Program.cs:24 | a "__" reached after text not ending in `_` becomes ":", and the text on each side is replaced on its own |
| Text.ParseInt32 | src/LeetKhata/Services/SyncOrchestrator.cs:76 | after trimming, the text parses, leaving aside trailing NUL characters and culture-specific signs, exactly when it is an optional ASCII sign followed by at least one decimal digit and only digits, with a signed value in the 32-bit range; the result is that signed value |
| Text.ParseInt32OfNegated | src/LeetKhata/Services/SyncOrchestrator.cs:76 | "-" followed by the decimal rendering of a number up to 2^31 parses to its negation |
| Text.ParseInt32IgnoresSurroundingSpace | src/LeetKhata/Services/SyncOrchestrator.cs:76 | white space around a number does not change what it parses to |
| Text.ParseInt32OfNatToString | src/LeetKhata/Services/SyncOrchestrator.cs:76 | every decimal rendering of a number in range parses back to that number |
| Text.Split | scripts/refresh-cookies.py:81 | `split("/")` gives one more part than there are separators, no part holds one, and joining the parts gives the input back |
| Text.SplitJoinWith | scripts/refresh-cookies.py:81 | splitting parts joined by a separator they do not contain gives the parts back |
| LeetCodeClient.Classify | src/LeetKhata/LeetCode/LeetCodeClient.cs:90-126 | 401 or 403 is a session expiry. Exactly every other non-success status is an HTTP error carrying that code. A success proceeds exactly when the body is an object without errors or with an empty array. A first error whose message (default "Unknown error") mentions "sign in", "login" or "authenticated" is a session expiry, any other message a GraphQL error carrying it. Invalid JSON, a non-object root, a non-array `errors` or an unreadable message is, exactly, a bad response |
| LeetCodeClient.MessageNamingPhraseIsSignIn | src/LeetKhata/LeetCode/LeetCodeClient.cs:114-116 | any message that embeds one of the three phrases, in any letter case, is judged a sign-in message |
| LeetCodeClient.UnknownErrorIsNotSignIn | src/LeetKhata/LeetCode/LeetCodeClient.cs:110-120 | the default message names none of the sign-in phrases |
| LeetCodeClient.MissingMessageIsGraphQLError | src/LeetKhata/LeetCode/LeetCodeClient.cs:108-123 | a first error with a missing or null message is the GraphQL error "Unknown error", never a session expiry |
| LeetCodeClient.GetRecentSubmissions | src/LeetKhata/LeetCode/LeetCodeClient.cs:18-39 | a rejected reply raises its error. A decoded list is the result, a null list reads as empty, and an unreadable one is a bad response. The call succeeds exactly when the reply proceeds and the list is readable |
| LeetCodeClient.Interpret | src/LeetKhata/LeetCode/LeetCodeClient.cs:41-71 | a single-record fetch raises the reply's error when rejected. It succeeds exactly when the reply proceeds with a decoded record, and then returns that record. A null or unreadable record is a bad response |
| LeetCodeClient.GetSubmissionDetail | src/LeetKhata/LeetCode/LeetCodeClient.cs:41-55 | the detail fetch raises the reply's error when rejected, returns the decoded detail exactly when there is one, and otherwise fails with a bad response |
| LeetCodeClient.GetProblem | src/LeetKhata/LeetCode/LeetCodeClient.cs:57-71 | the problem fetch raises the reply's error when rejected, returns the decoded problem exactly when there is one, and otherwise fails with a bad response |
| SolutionOrganizer.GetFileExtension | src/LeetKhata/Services/SolutionOrganizer.cs:28-47 | the extension is one of the table's, starts with `.` and has no `/`. It is ".txt" exactly when the lower-cased name is not a known language |
| SolutionOrganizer.FileExtensionIgnoresCase | src/LeetKhata/Services/SolutionOrganizer.cs:28 | names that agree once lower-cased get the same extension |
| SolutionOrganizer.FileExtensionAliases | src/LeetKhata/Services/SolutionOrganizer.cs:30-45 | every alias of a language maps to that language's extension ("c#"/"csharp" to ".cs", the four SQL dialects to ".sql", …) |
| SolutionOrganizer.BuildFilesForSubmission | src/LeetKhata/Services/SolutionOrganizer.cs:7-26 | over the modelled records, the build fails when the language is null, the topic tags are null or the timestamp is outside the range `DateTimeOffset` accepts (ReadmeGenerator.cs lines 20, 28 and 52), and only then. Otherwise exactly two files under "{difficulty}/{id}. {title}": `solution{ext}` for the language's extension, holding the code, and `README.md` holding the generated text |
| SolutionOrganizer.SolutionAndReadmeDiffer | src/LeetKhata/Services/SolutionOrganizer.cs:17-18 | the two paths never collide, whatever the extension |
| GitHubSync.FileAt | src/LeetKhata/GitHub/GitHubSyncClient.cs:26-50 | reading a path fails only when the repository is unreadable, is "not found" exactly when the path is absent, and otherwise yields the stored content |
| GitHubSync.Repository.GetFileContent | src/LeetKhata/GitHub/GitHubSyncClient.cs:26-50 | the read changes nothing and returns what `FileAt` gives for the current tree |
| GitHubSync.Repository.CommitFiles | src/LeetKhata/GitHub/GitHubSyncClient.cs:52-101 | an accepted commit overlays the files on the tree and appends one commit with the message; a rejected one changes nothing |
| SyncTracker.LoadState | src/LeetKhata/Services/SyncTracker.cs:23-35 | a missing file or a null decoding is an empty ledger. A read failure or undecodable text is an error, never an empty ledger. A decoded state is returned as is |
| SyncTracker.GetSyncStateFilePath | src/LeetKhata/Services/SyncTracker.cs:37 | with the default options the ledger lives at `.leetkhata/sync-state.json` |
| SyncTracker.Stamp | src/LeetKhata/Services/SyncTracker.cs:41 | stamping keeps the synced IDs and sets the time to now |
| SyncTracker.SerializeState | src/LeetKhata/Services/SyncTracker.cs:39-43 | with a round-tripping codec the text decodes to the same IDs stamped with now |
| SyncTracker.LoadSerializedState | src/LeetKhata/Services/SyncTracker.cs:23-43 | loading what was serialized gives the same IDs back |
| SyncOrchestrator.AcceptedOnly | src/LeetKhata/Services/SyncOrchestrator.cs:43-45 | keeps exactly the submissions with status "Accepted" |
| SyncOrchestrator.NotYetSynced | src/LeetKhata/Services/SyncOrchestrator.cs:51-53 | keeps exactly the submissions whose ID is not in the ledger |
| SyncOrchestrator.Candidates | src/LeetKhata/Services/SyncOrchestrator.cs:43-53 | a submission is a candidate exactly when it is listed, accepted and not yet synced |
| SyncOrchestrator.CandidatesAppend | src/LeetKhata/Services/SyncOrchestrator.cs:43-53 | filtering keeps list order: the candidates of a concatenation are the concatenated candidates |
| SyncOrchestrator.AcceptedOnlyAppend | src/LeetKhata/Services/SyncOrchestrator.cs:43-45 | the accepted filter distributes over concatenation |
| SyncOrchestrator.NotYetSyncedAppend | src/LeetKhata/Services/SyncOrchestrator.cs:51-53 | the ledger filter distributes over concatenation |
| SyncOrchestrator.IdSet | src/LeetKhata/Services/SyncOrchestrator.cs:106-109 | an ID is in the set exactly when it is in the list |
| SyncOrchestrator.Step | src/LeetKhata/Services/SyncOrchestrator.cs:81-96 | a failed item leaves the batch as it was. A prepared item appends its ID and problem line, and its files overwrite those on the same paths while every other file stays |
| SyncOrchestrator.ProcessAll | src/LeetKhata/Services/SyncOrchestrator.cs:64-97 | the loop records one problem line per ID, and no more IDs than there are submissions |
| SyncOrchestrator.ProcessItem | src/LeetKhata/Services/SyncOrchestrator.cs:70-91 | an ID that is not a 32-bit integer fails the item. A failed detail fetch fails it with the detail error, then a failed problem fetch with the problem error. The item succeeds exactly when both fetches succeed and the files can be built, and then carries the built files, its own ID and the problem's (number, title, difficulty) |
| SyncOrchestrator.SessionExpiryOnProblemSkipsItem | src/LeetKhata/Services/SyncOrchestrator.cs:70-96 | a 401/403 while fetching one item's problem only skips that item |
| SyncOrchestrator.UnrenderableItemIsSkipped | src/LeetKhata/Services/SyncOrchestrator.cs:81-96 | an item whose files cannot be built (null language, null tags, timestamp out of range) is skipped |
| SyncOrchestrator.SessionExpiryOnDetailSkipsItem | src/LeetKhata/Services/SyncOrchestrator.cs:70-96 | a 401/403 while fetching one item's detail only skips that item |
| SyncOrchestrator.ProcessAllSnoc | src/LeetKhata/Services/SyncOrchestrator.cs:68-97 | one more item is one more turn of the loop |
| SyncOrchestrator.StepCombine | src/LeetKhata/Services/SyncOrchestrator.cs:81-88 | a loop turn after two batches is the turn on the second batch |
| SyncOrchestrator.ProcessAllAppend | src/LeetKhata/Services/SyncOrchestrator.cs:68-97 | processing two lists one after the other combines their batches, the later file winning on a shared path |
| SyncOrchestrator.FailedItemContributesNothing | src/LeetKhata/Services/SyncOrchestrator.cs:92-96 | a failed item, wherever it stands, changes neither IDs, problem lines nor files |
| SyncOrchestrator.SucceededIdsMembers | src/LeetKhata/Services/SyncOrchestrator.cs:87 | an ID is recorded exactly when a submission with that ID was prepared successfully |
| SyncOrchestrator.BatchShape | src/LeetKhata/Services/SyncOrchestrator.cs:68-103 | the recorded IDs are those of the successful items in order, one problem line per ID, and there are files exactly when some item succeeded |
| SyncOrchestrator.StepShape | src/LeetKhata/Services/SyncOrchestrator.cs:81-88 | a successful turn adds its ID, a line and files; a failed one adds nothing |
| SyncOrchestrator.BatchFilesProvenance | src/LeetKhata/Services/SyncOrchestrator.cs:81-85 | every file of the batch was built for some successfully prepared item |
| SyncOrchestrator.AllFailedPreparesNothing | src/LeetKhata/Services/SyncOrchestrator.cs:92-103 | when every item fails the loop prepares nothing |
| SyncOrchestrator.BulletLines | src/LeetKhata/Services/SyncOrchestrator.cs:120-121 | one bullet "- {id}. {title} ({difficulty})" per problem, in order |
| SyncOrchestrator.CommitMessage | src/LeetKhata/Services/SyncOrchestrator.cs:113-123 | one problem gives "LeetKhata: Add {label}". Otherwise the message starts with "LeetKhata: Add {n} solutions", and for two or more it is that line, a blank line and the bullets joined by line breaks |
| SyncOrchestrator.CommitMessageLines | src/LeetKhata/Services/SyncOrchestrator.cs:113-123 | when no label holds a line break, the message splits back into the summary line, a blank line and the bullets |
| SyncOrchestrator.SingleCommitMessageIsOneLine | src/LeetKhata/Services/SyncOrchestrator.cs:114-115 | a one-problem message is a single line |
| SyncOrchestrator.AppendedLinesSnoc | src/LeetKhata/Services/SyncOrchestrator.cs:118-121 | appending one more line adds it and a line break at the end |
| SyncOrchestrator.AppendedLinesIsJoin | src/LeetKhata/Services/SyncOrchestrator.cs:118-123 | appended lines are the lines joined by line breaks plus a final break |
| SyncOrchestrator.BuildCommitMessage | src/LeetKhata/Services/SyncOrchestrator.cs:113-123 | the `StringBuilder` code, with its trailing trim, produces exactly the commit message |
| SyncOrchestrator.AppendLines | src/LeetKhata/Services/SyncOrchestrator.cs:118-121 | the loop appends each line followed by a line break |
| SyncOrchestrator.TrimmedBuilderIsMessage | src/LeetKhata/Services/SyncOrchestrator.cs:123 | trimming the builder's trailing line break gives the message |
| SyncOrchestrator.LastBulletEndsTheJoin | src/LeetKhata/Services/SyncOrchestrator.cs:120-123 | the joined bullets end with `)`, so the trim stops there |
| SyncOrchestrator.PlanRun | src/LeetKhata/Services/SyncOrchestrator.cs:51-123 | no candidates means "up to date". Candidates of which none was prepared mean "nothing prepared". Exactly when some candidate was prepared there is a commit holding the batch's files plus the ledger, whose IDs are the old ones plus the batch's, with the message built from the batch's problems |
| SyncOrchestrator.PlanBatch | src/LeetKhata/Services/SyncOrchestrator.cs:99-123 | an empty batch means "nothing prepared". Otherwise it is a commit of the files plus the serialized, updated ledger |
| SyncOrchestrator.ExpectedRun | src/LeetKhata/Services/SyncOrchestrator.cs:34-123 | a ledger that cannot be loaded stops the pass with the load error, then a listing that fails with the API error. The pass reaches a plan exactly when both succeed, and the plan is `PlanRun` of the loaded ledger and the listed submissions |
| SyncOrchestrator.OutcomeOf | src/LeetKhata/Services/SyncOrchestrator.cs:55-127 | the pass failed exactly when it stopped with an error or its commit was rejected. It synced exactly when its commit was accepted, counting the synced IDs. "Nothing new" and "all items failed" match the two plans without a commit |
| SyncOrchestrator.CommittedLedgerGrows | src/LeetKhata/Services/SyncOrchestrator.cs:106-125 | after a committed pass the stored ledger is the old one plus exactly this pass's IDs, none of which was synced before |
| SyncOrchestrator.SecondRunCommitsNothing | src/LeetKhata/Services/SyncOrchestrator.cs:34-128 | a second pass over the committed repository with the same replies commits nothing, and finds nothing at all when the first pass had no failures |
| SyncOrchestrator.ReplanCommitsNothing | src/LeetKhata/Services/SyncOrchestrator.cs:51-103 | planning over the grown ledger gives no commit |
| SyncOrchestrator.RemainingCandidatesFailed | src/LeetKhata/Services/SyncOrchestrator.cs:51-96 | after the ledger grows, every remaining candidate was a candidate before and failed |
| SyncOrchestrator.OnlyNewAcceptedSubmissionIsCandidate | src/LeetKhata/Services/SyncOrchestrator.cs:43-53 | with "A" in the ledger and "C" a wrong answer, only "B" is a candidate |
| SyncOrchestrator.Orchestrator.constructor | src/LeetKhata/Services/SyncOrchestrator.cs:34-128 | the pass keeps the collaborators and options it is given |
| SyncOrchestrator.Orchestrator.MergeFiles | src/LeetKhata/Services/SyncOrchestrator.cs:81-85 | each item's files overwrite what `allFiles` holds on the same paths |
| SyncOrchestrator.Orchestrator.PrepareItem | src/LeetKhata/Services/SyncOrchestrator.cs:70-91 | the `try` block computes what `ProcessItem` specifies |
| SyncOrchestrator.Orchestrator.PrepareAll | src/LeetKhata/Services/SyncOrchestrator.cs:68-97 | the loop builds the batch `ProcessAll` specifies, skipping failures |
| SyncOrchestrator.Orchestrator.AddIds | src/LeetKhata/Services/SyncOrchestrator.cs:106-109 | the ledger after the loop holds exactly the old IDs and the synced ones |
| SyncOrchestrator.Orchestrator.RunAsync | src/LeetKhata/Services/SyncOrchestrator.cs:34-128 | the pass ends as `ExpectedRun` says. The repository changes only by the plan's single commit, and only when that commit is accepted |
| Program.ParseEnvLine | src/LeetKhata/Program.cs:18-23 | a line gives an entry exactly when, trimmed, it is non-empty, not a comment and has `=` after its first character |
| Program.ParseEnvLineEntry | src/LeetKhata/Program.cs:21-25 | the entry's key is the trimmed text before the first `=` with "__" turned into ":", and its value is the trimmed text after that `=` |
| Program.ParseEnvLineKeyValue | src/LeetKhata/Program.cs:21-25 | the key of an entry is non-empty and holds no `=`, and its value has no white space at its ends |
| Program.ParseWrittenEnvLine | src/LeetKhata/Program.cs:18-25 | a "key=value" line with trimmed parts gives the key with "__" turned into ":" and exactly the value, even when the value holds further `=` |
| Program.Apply | src/LeetKhata/Program.cs:26 | storing entries keeps every key already there, the last entry's value stands, and entries that are all skipped change nothing |
| Program.EnvVars | src/LeetKhata/Program.cs:13-27 | a file whose every line is skipped gives no entries, and the last line's entry always stands |
| Program.ApplySnoc | src/LeetKhata/Program.cs:26 | one more entry overwrites its key |
| Program.ApplyAppend | src/LeetKhata/Program.cs:16-27 | entries of a later run of lines overwrite those of an earlier run |
| Program.SkippedLineContributesNothing | src/LeetKhata/Program.cs:19-23 | a blank, comment or keyless line changes nothing, wherever it stands |
| Program.EnvVarsKeys | src/LeetKhata/Program.cs:16-27 | a key is set exactly when some line gives it |
| Program.EnvVarsLastLineWins | src/LeetKhata/Program.cs:26 | a key's value is the one from the last line that gives it |
| Program.LoadEnvFile | src/LeetKhata/Program.cs:12-28 | no file gives no entries; otherwise the loop computes `EnvVars` of the lines |
| Program.Listed | src/LeetKhata/Program.cs:85-96 | a name is listed exactly when its value is blank |
| Program.MissingOptions | src/LeetKhata/Program.cs:83-96 | at most six names are listed, all of them required names, and the list is empty exactly when none of the six options is blank |
| Program.MissingOptionsMembers | src/LeetKhata/Program.cs:85-96 | each required name is listed exactly when its option is blank |
| Program.MissingOptionsOrder | src/LeetKhata/Program.cs:85-96 | the list holds one name per blank option, in check order: its k-th name is the required name at the k-th blank position |
| Program.BlankPositions | src/LeetKhata/Program.cs:85-96 | the blank positions below n, each blank, strictly increasing, and every blank position present |
| Program.ListedUpToPositions | src/LeetKhata/Program.cs:85-96 | the first n checks list exactly the names at the blank positions, in order |
| Program.DefaultOptionsMissAllButRepo | src/LeetKhata/Program.cs:83-96 | with the defaults every required option but the repository is missing |
| Program.FindMissing | src/LeetKhata/Program.cs:83-96 | the six checks build exactly `MissingOptions` |
| Program.ExitCode | src/LeetKhata/Program.cs:105-118 | exit code 1 exactly when the pass failed, 0 otherwise |
| Program.Launch | src/LeetKhata/Program.cs:83-118 | a missing option exits with 1 without touching the repository. Otherwise the exit code reflects the pass's outcome |
| RefreshCookies.Mask | scripts/refresh-cookies.py:199-203 | "***" up to ten characters. Otherwise the first eight characters, "..." and the last four |
| RefreshCookies.MaskRevealsOnlyEnds | scripts/refresh-cookies.py:199-203 | long tokens that share their first eight and last four characters mask alike |
| RefreshCookies.GetGithubRepoInfo | scripts/refresh-cookies.py:80-85 | an absent or empty override falls through to the git remote. An override with other than exactly one `/` is rejected. Otherwise it is owner "/" repository |
| RefreshCookies.RepoOverrideRoundTrip | scripts/refresh-cookies.py:80-85 | "owner/repo" gives the owner and repository back |
| RefreshCookies.Put | scripts/refresh-cookies.py:187-190 | a dictionary assignment keeps an existing key's place and appends a new key |
| RefreshCookies.ParseExistingLine | scripts/refresh-cookies.py:184-187 | a line gives an entry exactly when, stripped, it is non-empty, not a comment and holds `=`. The key and value are then the stripped text before and after the first `=` |
| RefreshCookies.Collect | scripts/refresh-cookies.py:180-187 | the dictionary built line by line has distinct keys, exactly those with values |
| RefreshCookies.ReadExisting | scripts/refresh-cookies.py:180-187 | the dictionary read from the existing file, empty when there is none, is valid |
| RefreshCookies.Merge | scripts/refresh-cookies.py:189-190 | the two cookie assignments keep the dictionary valid |
| RefreshCookies.Render | scripts/refresh-cookies.py:192-194 | one "key=value" line per key, in insertion order |
| RefreshCookies.WrittenEnvFile | scripts/refresh-cookies.py:175-194 | the written file holds a line assigning the new session cookie and one assigning the new CSRF token. Without an existing file it is exactly those two lines |
| RefreshCookies.MergeValues | scripts/refresh-cookies.py:180-190 | the cookies take their new values, every other key keeps its own, and no other key appears |
| RefreshCookies.MergePositions | scripts/refresh-cookies.py:189-190 | existing keys keep their positions; missing cookie keys are appended, session before CSRF |
| RefreshCookies.ParseRenderedLine | scripts/refresh-cookies.py:184-187 | a written line reads back as its key and value |
| RefreshCookies.ParseWrittenLine | scripts/refresh-cookies.py:184-187 | any written line with a well-formed key reads back as that key and its value stripped, whatever the value holds |
| RefreshCookies.ReadRenderedTrimsValues | scripts/refresh-cookies.py:180-194 | reading back a written dictionary with well-formed keys gives every key in place with its value stripped |
| RefreshCookies.MergeRestoresStripped | scripts/refresh-cookies.py:189-190 | re-assigning the cookies to the stripped read-back of a merged dictionary restores it exactly |
| RefreshCookies.MergeKeysWellFormed | scripts/refresh-cookies.py:189-190 | the cookie assignments keep every key well formed, whatever the cookie values |
| RefreshCookies.CollectSnoc | scripts/refresh-cookies.py:183-187 | one more line is one more assignment |
| RefreshCookies.CollectListing | scripts/refresh-cookies.py:180-187 | entries listing a dictionary in order rebuild it key by key |
| RefreshCookies.RenderRoundTrip | scripts/refresh-cookies.py:180-194 | reading the written file gives back exactly the dictionary written |
| RefreshCookies.ReadBackAgrees | scripts/refresh-cookies.py:180-194 | reading the written lines rebuilds every key in order with its value |
| RefreshCookies.ReadExistingWellFormed | scripts/refresh-cookies.py:180-187 | what the reading loop produces has trimmed keys without `=` or a leading `#`, and trimmed values |
| RefreshCookies.MergeWellFormed | scripts/refresh-cookies.py:189-190 | the cookie assignments keep the dictionary well formed when the cookies are trimmed |
| RefreshCookies.MergeIdempotent | scripts/refresh-cookies.py:189-190 | assigning the same cookies twice equals assigning them once |
| RefreshCookies.RewriteIsStable | scripts/refresh-cookies.py:175-194 | for any existing file and any cookie values, running the rewrite a second time with the same cookies leaves the same file |
| RefreshCookies.WriteEnvFile | scripts/refresh-cookies.py:175-194 | the read-assign-write code produces exactly `WrittenEnvFile` |
| RefreshCookies.ReadEntries | scripts/refresh-cookies.py:180-187 | the reading loop builds the dictionary `Collect` specifies |
| RefreshCookies.WriteLines | scripts/refresh-cookies.py:192-194 | the writing loop produces exactly `Render` |
| RefreshCookies.ModeOutputs | scripts/refresh-cookies.py:210-263 | every accepted flag choice has an output. `--both` gives file and secrets, none or `--local` only the file, `--github` only the secrets |
| EnvHandOff.RefreshedCookiesReachLoader | src/LeetKhata/Program.cs:12-28 | for any cookie values, after the script writes the file (refresh-cookies.py lines 180-194), the loader reads the new session under `LEETKHATA:LeetCodeSession` and the new CSRF token under `LEETKHATA:LeetCodeCsrfToken`, each stripped of white space at its ends |
| EnvHandOff.KeyReadStripped | src/LeetKhata/Program.cs:16-27 | in a file written from a dictionary with well-formed keys, each non-empty key is read last under its configuration name, so the loader ends with its value stripped |
| EnvHandOff.KeyReadAsLast | src/LeetKhata/Program.cs:16-27 | in a written file each non-empty key is read last under its configuration name, so the loader ends with its value |
| EnvHandOff.LoaderReadsWrittenLine | src/LeetKhata/Program.cs:18-26 | a line written for a well-formed key and any value gives nothing when the key is empty, and otherwise the key with "__" turned into ":" and the value stripped |
| EnvHandOff.RenderedLineReads | src/LeetKhata/Program.cs:18-26 | a written line with an empty key is skipped; any other gives its key with "__" turned into ":" and its value |
| EnvHandOff.EmptyKeyLineSkipped | src/LeetKhata/Program.cs:21-23 | a written line "=value" gives no entry |
| EnvHandOff.ConfigKeys | src/LeetKhata/Program.cs:24 | the script's two cookie keys become `LEETKHATA:LeetCodeSession` and `LEETKHATA:LeetCodeCsrfToken` |
| EnvHandOff.MergeKeepsNoCollision | scripts/refresh-cookies.py:189-190 | the assignments add no key that reads like the other cookie's configuration key |

## Left out

- Character classes: white space is the ASCII set (space, tab, line feed, vertical tab, form feed, carriage return). Case folding is ASCII only. .NET and Python use the Unicode tables for `Trim`, `strip`, `ToLower` and case-insensitive `Contains`.
- `Environment.NewLine`, used by `StringBuilder.AppendLine`, is modelled as "\n".
- Files are sequences of lines. Reading, writing, line-ending conversion and the working directory are not modelled. Neither is whether the `.env` file exists beyond an `Option`.
- HTTP, JSON and Octokit are abstract. A reply is its status code plus the shape of its body. The JSON ledger codec is a pair of functions with a round-trip property. The GitHub client is a class holding a tree, a commit log and two flags: whether reads succeed and whether commits are accepted. Blob, tree and reference creation are not modelled, nor is base64 content decoding.
- `ReadmeGenerator.GenerateProblemReadme` is an opaque function of the problem, submission and user name. Only when it throws is modelled (`ReadmeRenders`: null topic tags, a null language, a timestamp out of range). Its Markdown formatting and its floating-point percentiles are not part of this model. Nor is its footer date: it reads the wall clock (`DateTime.UtcNow`, src/LeetKhata/Services/ReadmeGenerator.cs:60), so the same problem and submission can give different text on different days.
- Null strings and null list elements inside decoded records are not modelled: a string field is always a `string` and `topicTags` holds only tags. The source throws in two more cases, and both skip the item through the catch at src/LeetKhata/Services/SyncOrchestrator.cs:92. They are a null `Lang.Name`, lower-cased at src/LeetKhata/Services/SolutionOrganizer.cs:28, and a null entry in `TopicTags`, whose `Name` is read at src/LeetKhata/Services/ReadmeGenerator.cs:22. For those inputs the model builds files where the source skips the item.
- EnvHandOff.RefreshedCookiesReachLoader assumes that no other key of the old `.env` file reads as one of the two configuration keys (`NoCollision`). The source does not guard against this. Take an old line `LEETKHATA:LeetCodeSession=…` that comes after the cookie line: the loader reads it last, so it shadows the refreshed cookie.
- A cookie value holding a line break would be written as several lines. The model treats every written entry as one line of the file.
- Logging, `Task` and `async`, cancellation and concurrency are left out. The pass is sequential.
- The wall clock is left out. `RunAsync` receives the current time as a parameter.
- Configuration binding, `appsettings.json` and the `LEETKHATA__` environment-variable provider are left out. The options reach the model as a value. The model follows the `.env` loader only up to the dictionary it builds.
- In `get_github_repo_info` (scripts/refresh-cookies.py:87-105), the `git remote` subprocess and URL regex are left out. The model stops at "detect from the remote".
- Cookie extraction from Chrome, the `gh` checks and secret updates, cookie validation over HTTP, and `sys.exit` are left out. They are subprocesses, browser storage and the network.
- `--local`'s `default=True` is not modelled. No later code reads `args.local`, so it changes no output.
- Text.ParseInt32 models `int.Parse` with `NumberStyles.Integer` over the invariant culture's ASCII signs. .NET also accepts trailing `'\0'` characters after the digits, and it takes the sign symbols from the current culture. The model rejects the first, and does not model the second.
- `RefreshCookies.GetGithubRepoInfo`: an invalid override is the value `InvalidRepoFormat`. The script instead prints a message and exits with status 1.
