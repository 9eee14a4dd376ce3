# Verified model of the MCP ToolHub core

This project models, in Dafny 4.11, the parts of MCP ToolHub in which a small mistake would do real
harm: the strict patch engine behind approved file edits, the approval store as a protocol between
processes, publication of files under failure, the audit log, bounded output capture, the inspection
before read-only Git commands, and the environment bound to an approved shell command. Each part is
modelled branch by branch after the program; its loops and in-place updates are methods proved against
a specification, and what the program is for is proved about that specification. Nothing was executed.

`dafny verify dfyconfig.toml` checks the project.

## How it is organised

| files | what they model |
|---|---|
| `PatchGrammar`, `PatchParser`, `PatchApply`, `PatchInverse`, `PatchRoundTrip`, `PatchStrict` (on `Text`, `Seqs`, `Results`) | unified diffs: the format, the parser's nested loops, the applier's shifting loop, undoing a patch, rendering an edit script and applying it; what an accepted patch looks like line by line |
| `Approval`, `ApprovalFile`, `ApprovalProtocol`, `ApprovalSafety`, `ApprovalReports`, `ApprovalExpiry`, `ApprovalRuns` (on `Order`) | what each call does to the store; the store as an object with one method per call; any number of processes over it, step by step; what every run keeps; what a reported expiry is worth; expiries written down in time; runs that show what is possible |
| `FileSystem`, `Publication`, `PublicationWindows`, `PublicationExact`, `PublicationCleanup`, `Binding`, `StateDirectories`, `StateBinding` | names, inodes and bytes, with a turn of other processes and a possible fault before every system call; the three publication routines; schedules that reach their unprotected windows; when each routine succeeds; what a failed one leaves; initializers that race for one workspace binding; the chain of state directories; the binding step inside it and what a refusal takes back |
| `AuditLines`, `AuditTail`, `AuditCompaction`, `AuditLog` | splitting a log wherever it is cut; the backward reader; the compaction scan; appends with rollback, compactions, and runs of both |
| `Capture`, `Drain`, `DrainClosing`, `DrainJoin` | the bounded buffer; two reader threads and the thread that starts, stops, closes and joins them; when a pipe may be closed; what a join reports |
| `GitConfig`, `GitPreflight` | which filter drivers a Git configuration makes executable; the batched questions to Git and the overriding options |
| `ExecutionEnvironment`, `EnvironmentSnapshots` | validation and canonical order of a child environment; building a snapshot and reading it back |

Specifications are ordinary functions: `PatchGrammar.Parse`, `PatchApply.Splice`, `Approval.Decide`,
`Approval.Retained`, `AuditLog.After`, `GitConfig.Command`, `EnvironmentSnapshots.Build` and so on. A
method's contract ties it to such a function, and the lemmas say what the function means.

## Main results

- **Patches.** Rendering any edit script, in any of the styles the format allows, and applying the text
  gives exactly the edited lines and the script's counts, if and only if the target name survives the header normalisation; otherwise the
  patch is refused. (Chunks without old lines are rendered as the code reads them; see the findings.)
  The loop with the running offset equals one simultaneous splice of the original, and succeeds exactly
  when every hunk fits the original by itself. Swapping the sides undoes a patch.
- **Approvals.** In every run of any number of processes, crashes and failures included, a request is
  executed at most once, by the process that consumed it, after a timely approval, on the snapshot and
  kind fixed at creation. The store stays readable for the program in every run. No decision is written
  on a request after a call has returned it as expired, or a pruner has dropped it.
- **Publication.** All or nothing for any pattern of short writes, faults, crashes and swapped names, with
  exactly what ends up under the target, what it replaced and what cleanup removed as a function of the
  swaps nobody looked for. Each routine succeeds exactly under a condition on the faults and swaps alone.
- **Directories.** Interference and faults never cost anything that was there before. A refused
  initialization that is left alone and cleans up without a fault leaves the tree exactly as it found it
  if and only if the binding step has left no file; one that created directories takes them back if and
  only if it was refused before it got to the lock file. Without faults it is let in exactly if the
  inspections are clean and there are hard links or a manifest of its own.
- **Binding.** All initializers that return successfully have the same workspace identity, with no
  help from the advisory lock.
- **Audit log.** As long as failed appends are rolled back, the log is a contiguous suffix, in order, of
  the events whose append reported success; in any case it is a suffix of the bytes written. Scan and
  tail reader depend on the bytes of the file, not on the pieces they are read in.
- **Drain.** No pipe is read after it is closed; once the constructor has returned, a pipe is closed only
  after its reader is done; a reported success means two ends of stream, and once both readers have ended
  two clean ends of stream mean success.
- **Git.** The preflight accepts exactly if configuration and tracked paths can be inspected, and either no
  driver is executable, and nothing is asked, or every selected path has been asked about once, answered
  harmlessly, and the options fit. Then no driver it found can run, whatever the configuration says by
  then.
- **Environment.** Building, storing and reading back gives the same snapshot exactly when every
  variable may be carried, in whatever order mappings list their variables.

## Findings

Properties one might expect that the code does not have; each is stated exactly where it is modelled.

- A hunk with an empty old range is inserted *before* the line its header names, where the "Diff -u or
  -U Output Format" section of POSIX `diff` (IEEE Std 1003.1) puts it *behind* that line, and line 0 is
  refused. The results agree if and only if the named line exists and all inserted lines equal it
  (`PatchInverse.EmptyOldRange`).
- Name normalisation also strips `a/` or `b/` from the target, so a target under a directory of that
  name is addressed wrongly by a standard header (`PatchRoundTrip.NameAccepted`).
- An expiry that is merely observed is not final: a process that has read the clock and computed its
  decision under the lock can still write it (`ApprovalRuns.ApprovalAfterShown`). On a clock that never
  goes back that is the only way, so an observation made while the lock is free is final
  (`ApprovalReports.ShownIsFinalUnlessPoised`, `ApprovalReports.ShownWithLockFree`).
- After `get_request` has returned a request as expired no decision is written on it, by any clock
  (`ApprovalReports.ReturnIsFinal`), but the answer need not be the stored status: the request may have
  been consumed between the unlocked look and the locked step, and be executed afterwards
  (`ApprovalRuns.ExecutionAfterReturn`). It is the stored status exactly if no rejection or consumption
  came in between, which on a clock that never goes back is always so if the lock was free at the look
  (`ApprovalReports.ReturnedIsStored`).
- Writing down a lazy expiry can make a request prunable earlier, exactly when the clock read under the
  lock is before the expiry (`Approval.LazyExpiryKeepsAge`), which takes a clock that goes back
  (`ApprovalExpiry.RunKeepsDue`).
- The two publication routines check their names in opposite orders and rename after the second check, so
  both names are unprotected before the rename and the one checked first is so before the second check
  too: either routine can publish a foreign file put at its temporary name and replace an object put at
  its target. The contracts of `Publication.WriteSerializedStore` and `Publication.AtomicWriteText` say
  exactly which swaps do it; `PublicationWindows` has a schedule for each of the four cases.
- Cleanup unlinks what the temporary name points at by then: its own file, unless others have swapped the
  name since the check. The workspace writer does not check if it never learned its own file's identity
  (`PublicationWindows.TextUnlinksForeignFile`).
- A store write that fails to learn the identity of its own temporary file leaves that file behind, even
  if nothing else goes wrong; after any other single failure nothing is left
  (`PublicationCleanup.StoreLeftAlone`). The workspace writer leaves nothing (`PublicationCleanup.TextLeftAlone`).
- The tail reader may read beyond its cap, and the oldest line it returns may be a fragment
  (`AuditTail.FragmentReturned` says exactly when, `AuditTail.FragmentBeyondCap` has a file).
- A failed append that cannot be rolled back leaves a fragment in the log or, if only `fsync` failed, the
  whole line of an event reported as not recorded (`AuditLog.TornIsNoSuffix`).
- An initialization refused after it has got to the binding's lock file takes no directory back: the lock
  file is never removed and keeps the whole chain. On a file system without hard links a lone first
  attempt always ends so (`StateBinding.PrepareState`, `StateBinding.LoneRefusal`).
- A capture whose constructor raises can close a pipe under a reader that is still running: if starting
  the thread raised after the launch, and the unwinding, having set the stop flag, finds the thread not
  yet identified (`DrainClosing.ClosedWhileAlive`, `DrainClosing.CornerRun`). The reader reads no more.

## Model

| member | source | states |
|---|---|---|
| PatchParser.ReadHunk | src/mcp_toolhub/tools/filesystem.py:449-518 | the body loop with its list ends rewritten by markers yields the two sides of the hunk as a reading of each line together with the markers behind it, the counts, and the error of the first offending line |
| PatchParser.CheckOrder | src/mcp_toolhub/tools/filesystem.py:523-527 | accepts exactly the hunk lists in which each hunk starts at or behind the end of the one before |
| PatchParser.ReadHunks | src/mcp_toolhub/tools/filesystem.py:431-518 | the hunk loop reads the hunks of the remaining lines, or stops at the first error |
| PatchParser.ParseUnifiedPatch | src/mcp_toolhub/tools/filesystem.py:400-529 | the whole parser equals the grammar on every text and target, errors and their precedence included |
| PatchParser.SideLinesMarker | src/mcp_toolhub/tools/filesystem.py:475-483 | a marker strips one end of line from the last line of exactly the sides that own the last body line |
| PatchGrammar.StripEolExact | src/mcp_toolhub/tools/filesystem.py:379-384 | exactly one end of line goes, a carriage return and line feed as a whole, and nothing else ever |
| PatchGrammar.HunksCounted | src/mcp_toolhub/tools/filesystem.py:492-505 | every parsed hunk has as many lines on each side as its header declares, zero counts included, and new count plus removals equals old count plus additions |
| PatchGrammar.ParseCounted | src/mcp_toolhub/tools/filesystem.py:520-529 | a parsed patch has hunks, in order and counted |
| Text.JoinSplit | src/mcp_toolhub/tools/filesystem.py:545-568 | joining the lines of a text gives the text back |
| Text.SplitJoin | src/mcp_toolhub/tools/filesystem.py:405-568 | a list of proper lines is what splitting its concatenation gives |
| PatchApply.ApplyInPlace | src/mcp_toolhub/tools/filesystem.py:545-568 | the loop that edits the list under a running offset equals one simultaneous splice of the original with the summed counts, or the error of the first misfit; it succeeds exactly when every hunk fits the original |
| PatchApply.FitsIffPlaced | src/mcp_toolhub/tools/filesystem.py:523-560 | ordered hunks each of which fits the original by itself can all be placed side by side, and conversely |
| PatchApply.ApplyPatchText | src/mcp_toolhub/tools/filesystem.py:532-568 | parsing then applying, on every original text, patch text and target |
| PatchInverse.PatchUndone | src/mcp_toolhub/tools/filesystem.py:545-568 | the patch with its sides swapped and starts shifted is in order and takes the result back to the original lines with the counts exchanged; the growth in lines is added minus removed |
| PatchInverse.GrowthIs | src/mcp_toolhub/tools/filesystem.py:562-566 | the offset after the last hunk is additions minus removals and the growth of the line list |
| PatchInverse.EmptyOldRange | src/mcp_toolhub/tools/filesystem.py:546-560 | an insertion with an empty old range is accepted exactly from line 1 to one behind the last, lands in front of the named line, and agrees with the published format exactly when there is a named line and all inserted lines equal it |
| PatchInverse.InsertedInFront | src/mcp_toolhub/tools/filesystem.py:545-564 | in a patch of any number of hunks an insertion stands between what the hunks before it make of the lines in front of the named one and what the hunks behind it make of the rest |
| PatchInverse.EmptyOldRangeExample | src/mcp_toolhub/tools/filesystem.py:546-560 | a two-line file and one inserted line for which the two conventions differ |
| PatchRoundTrip.MatchRenderedHeader | src/mcp_toolhub/tools/filesystem.py:364-446 | a printed hunk header is matched and read back as its four numbers, whether or not a count of one is printed on either side, and whatever follows the closing `@@` |
| PatchRoundTrip.BareCounts | src/mcp_toolhub/tools/filesystem.py:445-446 | `@@ -1 +1 @@` declares one old and one new line |
| PatchRoundTrip.NameAccepted | src/mcp_toolhub/tools/filesystem.py:387-429 | a standard `a/` or `b/` header is accepted for a target exactly when the target has no tab and, with backslashes read as slashes, does not begin with `a/` or `b/` |
| PatchRoundTrip.HunksOfRendered | src/mcp_toolhub/tools/filesystem.py:433-518 | parsing the rendered chunks of any script gives their hunks, with no-newline markers where lines are unterminated, for any choice of omitted counts and headings chunk by chunk |
| PatchRoundTrip.ScriptSplices | src/mcp_toolhub/tools/filesystem.py:545-560 | the hunks of a script fit its old text and splice it into its new text |
| PatchRoundTrip.RoundTrip | src/mcp_toolhub/tools/filesystem.py:400-568 | for every text, every edit script over its lines (a chunk without old lines naming the line it is put before, as the code reads it), every target without line breaks, every choice of printing or omitting counts of one and of text behind the closing `@@`, and every time stamp behind a tab in the name lines: rendering, parsing and applying gives exactly the edited text and the script's counts if the target has no tab and no leading `a/` or `b/`, and WrongTarget otherwise |
| PatchStrict.HeaderExact | src/mcp_toolhub/tools/filesystem.py:364-446 | a line is read as a hunk header with these four numbers exactly if it begins with one: at least one digit for each start, each count behind a comma or omitted for one, the closing `@@` behind a blank, anything after |
| PatchStrict.ParseIsStrict | src/mcp_toolhub/tools/filesystem.py:400-529 | in an accepted patch both names lead to the target, every further line is a hunk header or a body line of a known kind, no marker comes first in a hunk, and the counts reported are the numbers of `+` and `-` lines |
| Approval.DecideMovesOneEdge | src/mcp_toolhub/security/approval.py:560-602 | a decision changes nothing, or moves one request along one lifecycle edge, frames everything else, and writes approvals, rejections and consumptions only before the expiry |
| Approval.DecisionsInTime | src/mcp_toolhub/security/approval.py:577-602 | before its expiry exactly a pending request can be approved and rejected and exactly an approved one consumed, with the status and time then stored |
| Approval.DecisionsTooLate | src/mcp_toolhub/security/approval.py:579-585 | from its expiry on no decision succeeds; the first on a live request records the expiry and any other changes nothing |
| ApprovalFile.File.ApplyDecision | src/mcp_toolhub/security/approval.py:560-602 | the locked read-modify-write: its answer and the whole new store, and an unchanged store on every error |
| ApprovalFile.File.CreateRequest | src/mcp_toolhub/security/approval.py:610-677 | adds exactly the pending request, or changes nothing and reports the first of unreadable, duplicate, too many records, too many bytes, not persisted |
| Approval.CreationIsExact | src/mcp_toolhub/security/approval.py:636-675 | a new id is accepted exactly below 10,000 records and while the text with the new record stays within 16 MiB; otherwise the first limit exceeded is named |
| Approval.CreatedLives | src/mcp_toolhub/security/approval.py:610-656 | a created request carries its snapshot, and can be approved and rejected exactly until its time to live is over |
| ApprovalFile.File.GetRequest | src/mcp_toolhub/security/approval.py:680-706 | writes only the expiry of a live request past its time, with the clock read again under the lock |
| ApprovalFile.File.ObserveRequest | src/mcp_toolhub/security/approval.py:709-722 | shows the status in effect and writes nothing |
| ApprovalFile.File.ApproveOrReject | src/mcp_toolhub/security/approval.py:725-776 | succeeds exactly for a pending request before its expiry in a readable store that persists; otherwise at most an expiry is written |
| ApprovalFile.File.ConsumeRequest | src/mcp_toolhub/security/approval.py:779-804 | hands out a request exactly when it was approved and unexpired, leaves it consumed, and cannot hand it out again |
| ApprovalFile.File.PruneRequests | src/mcp_toolhub/security/approval.py:829-883 | plan and application report the same counts; application leaves exactly the retained requests, planning and errors leave all |
| ApprovalFile.PrunePlan | src/mcp_toolhub/security/approval.py:530-557 | the counting pass finds exactly the eligible ids and the size of each class |
| Approval.PruneIsExact | src/mcp_toolhub/security/approval.py:508-557 | exactly the effectively terminal requests aged up to the inclusive cutoff go, retained ones are untouched, and no request on which a decision can still succeed is removed |
| Approval.PruneCounts | src/mcp_toolhub/security/approval.py:530-557 | eligible and retained add up to all, the three classes to eligible |
| Approval.PruneCounters | src/mcp_toolhub/security/approval.py:530-557 | each counter is the number of stored requests of that kind: rejected or consumed with a decision time up to the cutoff; recorded as expired up to the cutoff, or live and past an expiry up to the cutoff |
| Approval.PruneAgain | src/mcp_toolhub/security/approval.py:854-883 | a second prune at the same time finds nothing and changes nothing |
| Approval.LazyExpiryKeepsAge | src/mcp_toolhub/security/approval.py:508-527 | writing down an expiry never makes a request prunable that was not, if and only if the clock read under the lock has reached the expiry |
| ApprovalExpiry.RunKeepsDue | src/mcp_toolhub/security/approval.py:577-584 | in every run on a clock that never goes back every expiry stored was written down at or behind the expiry |
| Approval.SoundIsReadable | src/mcp_toolhub/security/approval.py:198-200 | a store within the creation limits, after any decisions, stays below the size the program is willing to read |
| Approval.CreateKeepsSound | src/mcp_toolhub/security/approval.py:657-675 | creation, which checks the current size, keeps the bound on the size as created |
| Approval.DecideKeepsSound | src/mcp_toolhub/security/approval.py:594-600 | decisions, which check nothing, keep it too |
| Approval.PruneKeepsSound | src/mcp_toolhub/security/approval.py:862-883 | so does pruning |
| ApprovalProtocol.StepKeepsInv | src/mcp_toolhub/security/approval.py:560-804 | every step of every process keeps: mutual exclusion, current copies under the lock, store and history in agreement, fresh creations, and one owner per consumed request |
| ApprovalProtocol.RunKeepsInv | src/mcp_toolhub/security/approval.py:560-804 | so every run from the empty store does |
| ApprovalProtocol.PublishDecision | src/mcp_toolhub/security/approval.py:566-602 | a published decision agrees with the history, whatever the other processes are doing |
| ApprovalSafety.ExecutedOnce | src/mcp_toolhub/tools/filesystem.py:576-603 | over every interleaving: an execution follows its own process's timely consumption, a timely approval before it and the creation before that, on the snapshot and kind stored at creation, and no request is executed twice |
| ApprovalRuns.ExecutionHappens | src/mcp_toolhub/tools/shell.py:792-883 | there are runs that execute: create, approve, resume, consume, execute |
| ApprovalReports.ReturnIsFinal | src/mcp_toolhub/security/approval.py:694-706 | once a call has returned that a request is expired, having had the lock or found the expiry written down, no change of the request's status is ever written again, by whatever clock |
| ApprovalReports.ReturnedIsStored | src/mcp_toolhub/security/approval.py:687-704 | what is returned as expired is stored as expired, if it is stored at all, exactly if it was neither rejected nor consumed between the unlocked look and the locked step; never so if the lock was free at the look and the clock does not go back |
| ApprovalReports.ExecutedAfterReturn | src/mcp_toolhub/tools/filesystem.py:576-603 | an execution of what was returned as expired was won, by the executing process, before that return |
| ApprovalRuns.ExecutionAfterReturn | src/mcp_toolhub/security/approval.py:694-704 | a run in which a request is returned as expired and then executed |
| ApprovalReports.ShownIsFinalUnlessPoised | src/mcp_toolhub/security/approval.py:709-722 | right after an observer has shown a request as expired, some continuation on a clock that never goes back writes a decision on it exactly when the clock has not gone back yet and some process has its decision computed and would succeed with it |
| ApprovalReports.ShownWithLockFree | src/mcp_toolhub/security/approval.py:709-722 | so what an observer shows while nobody holds the lock is final |
| ApprovalSafety.DecisionAfterShown | src/mcp_toolhub/security/approval.py:577-602 | a decision written after an expiry was shown used an earlier time, and on a monotone clock had read it before the observer read its own |
| ApprovalRuns.ApprovalAfterShown | src/mcp_toolhub/security/approval.py:577-602 | a run in which an approval is indeed written after an observer has shown the request as expired and is done |
| ApprovalSafety.StepEvolves | src/mcp_toolhub/security/approval.py:502-602 | one step of any process moves requests along lifecycle edges only, adds only pending ones, and drops only, when it publishes a prune, requests eligible at that pruner's cutoff and time |
| ApprovalSafety.DroppedForGood | src/mcp_toolhub/security/approval.py:862-883 | in every run, what is dropped was eligible for a pruner that had read its time from the clock; no decision could have succeeded on it at that time or later, hence on a monotone clock none whose reading of the clock does not come before the pruner's |
| ApprovalSafety.RunReadsClocks | src/mcp_toolhub/security/approval.py:680-706 | every time written or reported was read from the clock by that process before |
| ApprovalSafety.RunKeepsStore | src/mcp_toolhub/security/approval.py:136-138 | in every run decided requests were decided before their expiry, there are at most 10,000 records, and the store stays below the 64 MiB the program reads |
| FileSystem.Files.WriteAll | src/mcp_toolhub/security/approval.py:378-383 | however short the writes, the file holds a prefix of the bytes, and all of them on success; no other file changes |
| Publication.WriteSerializedStore | src/mcp_toolhub/security/approval.py:340-410 | the call as a function of the disk and of what others do before each system call; unless it succeeds every name but the temporary one is as the others left it; after success its own file holds exactly the bytes, the target names what the others had made of the temporary name before the last two calls, and what was replaced is what they had made of the inspected object before the rename; cleanup unlinks only what they had made of its own file since the check |
| Publication.AtomicWriteText | src/mcp_toolhub/tools/filesystem.py:296-357 | likewise, with the two windows exchanged: the temporary name is exposed before the rename, the target before the last two calls; cleanup that never learned the identity of its own file unlinks what the others have made of the name since its creation |
| Publication.PublishBinding | src/mcp_toolhub/security/paths.py:379-423 | the call as a function of the disk and of what others do before each system call; a name already taken is left alone; otherwise the binding appears in one step, and names the complete file exactly as far as the others have not moved the temporary name since its creation |
| Publication.Fill | src/mcp_toolhub/security/approval.py:375-384 | creates, identifies, secures and writes the temporary file; afterwards its name points where the others have moved it since the creation |
| PublicationExact.BindsCalmly | src/mcp_toolhub/security/paths.py:379-423 | left alone with the temporary name free, the call succeeds: the binding names a new file of exactly the bytes, or is untouched if it was there, and the temporary name is gone |
| PublicationExact.BindsExactly | src/mcp_toolhub/security/paths.py:386-405 | for every schedule of faults and swaps: the call succeeds exactly if the temporary name is free at creation, the calls up to the link are answered, the writes make progress until all is written, and some file is under the temporary name at the link |
| PublicationExact.BindsWhen | src/mcp_toolhub/security/paths.py:400-405 | and then the manifest is linked exactly if the others have left the binding name free up to the link |
| PublicationExact.WritesCalmly | src/mcp_toolhub/security/approval.py:340-410 | left alone with the temporary name free, the store and the workspace writer put a new file of exactly the bytes under the target and leave no temporary name |
| PublicationExact.StoreWrittenExactly | src/mcp_toolhub/security/approval.py:359-393 | for every schedule of faults and swaps, the store write succeeds exactly if all its calls are answered, the writes make progress until all is written, the target is found at every later look where it was found first, the temporary name is free at creation and at the file created when looked at, and exists at the rename |
| PublicationExact.TextWrittenExactly | src/mcp_toolhub/tools/filesystem.py:296-346 | likewise for the workspace writer with its own order of looks |
| PublicationCleanup.StoreLeftAlone | src/mcp_toolhub/security/approval.py:393-410 | if nobody moves a name and at most one call goes wrong, a failed store write leaves every name as it was and no new one, except exactly when the failing call is the one that should have identified the temporary file, which then stays |
| PublicationCleanup.TextLeftAlone | src/mcp_toolhub/tools/filesystem.py:347-357 | a failed workspace write leaves every name as it was and no new one, without that exception |
| PublicationCleanup.BindingLeftAlone | src/mcp_toolhub/security/paths.py:406-423 | so does a failed publication of the binding; a successful one adds at most the binding |
| PublicationWindows.StorePublishesForeignFile | src/mcp_toolhub/security/approval.py:385-392 | a schedule in which the temporary name is swapped between the two checks and the store ends up naming the foreign file |
| PublicationWindows.StoreReplacesForeignObject | src/mcp_toolhub/security/approval.py:391-392 | a schedule in which the target is swapped before the rename and the object put there is lost |
| PublicationWindows.TextReplacesForeignObject | src/mcp_toolhub/tools/filesystem.py:343-346 | a schedule in which the target is swapped between the two checks and the object put there is lost |
| PublicationWindows.TextPublishesForeignFile | src/mcp_toolhub/tools/filesystem.py:344-346 | a schedule in which the temporary name is swapped before the rename and the target ends up naming the foreign file |
| PublicationWindows.TextUnlinksForeignFile | src/mcp_toolhub/tools/filesystem.py:348-357 | a schedule in which the writer fails to learn the identity of its file and cleanup unlinks a foreign one |
| Binding.StepKeepsInv | src/mcp_toolhub/security/paths.py:379-461 | every step of every initializer keeps the files of others and an existing binding as they are |
| Binding.BindingAgreement | src/mcp_toolhub/security/paths.py:200-461 | for any number of initializers, interleavings and stops: the binding never changes once there, is complete when it appears, and all that return successfully have the same workspace identity |
| Binding.LoneBinds | src/mcp_toolhub/security/paths.py:426-461 | a run in which a process alone, on a directory without a binding, binds it to its own workspace and returns successfully |
| Binding.LoneReads | src/mcp_toolhub/security/paths.py:426-461 | a run in which a process finds a binding: it returns successfully exactly if the manifest names its own workspace, and changes no file |
| StateDirectories.LastIsEmpty | src/mcp_toolhub/security/paths.py:769-777 | a directory added to a tree of directories is empty as long as it is the one added last, which is why rollback goes backwards |
| StateDirectories.Directories.EnsureComponent | src/mcp_toolhub/security/paths.py:464-517 | creates or accepts one directory, records what it created even if it then fails, and loses nothing that was there |
| StateDirectories.Directories.EnsureChain | src/mcp_toolhub/security/paths.py:554-587 | climbs to the deepest existing ancestor and creates what is missing below it; on success and without interference the target is a directory; left alone without faults it succeeds whenever everything that exists on the way is a directory |
| StateDirectories.Directories.SecureComponents | src/mcp_toolhub/security/paths.py:802-845 | the directories of its own, each inside the one before, all tracked for rollback |
| StateDirectories.Directories.Rollback | src/mcp_toolhub/security/paths.py:769-777 | removes only empty directories at names this attempt created; left alone without faults it restores the tree if directories are all that was added, and removes nothing if each of them holds something |
| StateBinding.PublishManifest | src/mcp_toolhub/security/paths.py:355-423 | as far as names go: creates, links and unlinks; left alone without cleanup faults it adds the manifest exactly if it was linked, and nothing else; without faults, with hard links and a free temporary name it succeeds, and links exactly if there is no manifest |
| StateBinding.BindNamespace | src/mcp_toolhub/security/paths.py:310-461 | left alone without cleanup faults it adds the lock file, if it got there and the file is new, and the manifest, if it was linked; nothing removes the lock file; left alone without any fault it succeeds exactly if both inspections are clean, the manifest is readable and its own, and there are hard links or a manifest already |
| StateBinding.PrepareState | src/mcp_toolhub/security/paths.py:780-891 | whatever happens nothing that was there and that no other process removed is lost; a refused attempt left alone without cleanup faults leaves the tree as found exactly if the binding step left no file, otherwise the old tree, all created directories and these files; if it created directories it takes them back exactly if it was refused before the lock file; left alone without any fault, on a way of directories, it succeeds exactly under the conditions of the binding step, and then the tree is the old one with the directories created, the lock file and, if there was none, the manifest |
| StateBinding.LoneRefusal | src/mcp_toolhub/security/paths.py:310-316 | a lone first attempt without a fault on a file system without hard links is refused and leaves its state root with the lock file |
| AuditLines.SplitCut | src/mcp_toolhub/observability/audit.py:444-448 | cutting a log anywhere cuts exactly one line in two |
| AuditLines.EventsAreLines | src/mcp_toolhub/observability/audit.py:334-415 | a log of appended events has exactly these events as its lines |
| AuditTail.ReadLastLines | src/mcp_toolhub/observability/audit.py:603-645 | for every file, limit, chunk size and cap: where it stops, the newest non-blank lines of what was read, less than cap plus one chunk read, and exactly the file's last lines if the file is within the cap |
| AuditTail.ReadRecentLines | src/mcp_toolhub/observability/audit.py:617-627 | the same with the program's chunk of 8192 bytes and cap of a million: at most 1,008,191 bytes are read |
| AuditTail.TailIsExact | src/mcp_toolhub/observability/audit.py:622-645 | a reader that did not stop for the cap returns exactly the last `limit` non-blank lines of the file |
| AuditTail.TailMayCutOneLine | src/mcp_toolhub/observability/audit.py:638-645 | wherever it stopped, all returned lines but the oldest are the file's last lines, and the oldest is the next one or its end; a fragment exactly if the reader stopped inside a line, has read something of it that is not blank, and still wants lines |
| AuditTail.FragmentReturned | src/mcp_toolhub/observability/audit.py:622-639 | the oldest line returned is a fragment exactly if the place where the cap stops reading, known from the size alone, cuts a line of which something not blank lies behind it, with fewer than `limit` lines behind that |
| AuditTail.FragmentBeyondCap | src/mcp_toolhub/observability/audit.py:622-639 | a file of one line of 1,007,617 bytes, of which the program reads 1,007,616, beyond its cap, and returns a fragment |
| AuditCompaction.ScanForCompaction | src/mcp_toolhub/observability/audit.py:418-517 | whatever the chunks and whatever the sizes before and after: accepts exactly if the sizes are within the limit, the file ends where reading did, and its lines are all terminated, non-blank, within the bound and events; counts them, and the offset from the bounded queue cuts exactly the newest `keep` lines, none for keep 0 |
| AuditCompaction.Visit | src/mcp_toolhub/observability/audit.py:478-505 | one line: accepted exactly when good, and the queue then holds the offsets of the newest lines |
| AuditLog.Log.Append | src/mcp_toolhub/observability/audit.py:301-331 | succeeds exactly if the sync does and every write asked for before the line is complete reports progress; success appends exactly the line; failure restores the bytes unless truncation itself fails, and then leaves a prefix of the line behind them; each outcome is the operation of that name in a run |
| AuditLog.Log.CopySuffix | src/mcp_toolhub/observability/audit.py:527-542 | the copy is exactly the suffix, in whatever pieces it is read |
| AuditLog.Log.Compact | src/mcp_toolhub/observability/audit.py:552-600 | leaves exactly the newest lines or, planned only, refused or failed, the old bytes, and reports what was removed |
| AuditLog.LogIsSuffix | src/mcp_toolhub/observability/audit.py:301-600 | over every run of appends and compactions with their failures, as long as every failed append is rolled back, the log is a contiguous suffix, in order, of the events whose append succeeded |
| AuditLog.LogIsByteSuffix | src/mcp_toolhub/observability/audit.py:301-600 | over every run, torn appends included, the log is a suffix of all bytes that appends have left |
| AuditLog.TornIsNoSuffix | src/mcp_toolhub/observability/audit.py:318-331 | an append that was not rolled back and left a part of its line leaves no sequence of recorded events; one that left the whole line leaves an event whose append reported failure |
| AuditLog.CompactTwice | src/mcp_toolhub/observability/audit.py:552-600 | compacting to n and then to m is compacting to the smaller |
| Capture.StreamCapture.Consume | src/mcp_toolhub/security/bounded_output.py:75-85 | buffer, counters and flag stay functions of the stream consumed so far |
| Capture.CaptureAll | src/mcp_toolhub/security/bounded_output.py:64-85 | for any chunking: the buffer is the prefix of the stream up to the limit, total is retained plus dropped, and truncated holds exactly beyond the limit |
| Drain.StepKeepsInv | src/mcp_toolhub/security/bounded_output.py:130-264 | every step of a reader or the controller keeps: closed pipes have readers that will not read again, and a join has established what the tasks behind it checked |
| Drain.DrainSafety | src/mcp_toolhub/security/bounded_output.py:130-264 | in every interleaving, with failing starts, reads and bounded joins: no pipe is read after its close, pipes are closed only when their reader will never read again, and a join reports success only if both streams ended without error |
| DrainJoin.JoinReports | src/mcp_toolhub/security/bounded_output.py:221-245 | in every run, a join called when both readers have ended closes both pipes and reports success exactly if both streams were read to their end without error |
| DrainJoin.OnlyWorks | src/mcp_toolhub/security/bounded_output.py:221-245 | while it runs no other step is possible, so this is how it ends |
| DrainJoin.JoinSucceeds | src/mcp_toolhub/security/bounded_output.py:130-245 | a run from the constructor to a join that reports success |
| DrainClosing.ServedPipesAreDone | src/mcp_toolhub/security/bounded_output.py:247-264 | in every run, once the constructor has returned, a pipe is closed only after its reader is done |
| DrainClosing.ClosedWhileAlive | src/mcp_toolhub/security/bounded_output.py:187-208 | a pipe is closed although its reader was started and is not done only in a constructor that raises, which after setting the stop flag found the thread launched and not yet running |
| DrainClosing.LaunchedMayBeClosed | src/mcp_toolhub/security/bounded_output.py:199-208 | and whenever it finds a thread so, that can happen |
| DrainClosing.CornerRun | src/mcp_toolhub/security/bounded_output.py:187-208 | a run in which it does, with the reader about to test the stop flag |
| GitConfig.NulRecordsExact | src/mcp_toolhub/tools/git.py:404-409 | reading accepts exactly the encodings of NUL-free records within the limit, and undoes the encoding |
| GitConfig.ConfigurationExact | src/mcp_toolhub/tools/git.py:412-429 | a text is read as a list of settings exactly if it lists at most 256 of them, each a key, a line feed, a value and a NUL, and each key is the clean or process command of a driver whose name is nonempty, at most 128 long and free of equals signs, replacement and control characters; values may hold line feeds |
| GitConfig.DriverRule | src/mcp_toolhub/tools/git.py:429-433 | a driver is executable exactly if its last process setting is not empty or, without any process setting, its last clean setting is not |
| GitConfig.DriverInExact | src/mcp_toolhub/tools/git.py:79-79 | a key matches exactly when it is `filter.<name>.clean` or `filter.<name>.process` with a nonempty name, and then gives that name and operation |
| GitConfig.LastIsLast | src/mcp_toolhub/tools/git.py:414-429 | the value in force is that of the last entry with the key |
| GitConfig.ExecutableFilterDrivers | src/mcp_toolhub/tools/git.py:412-433 | accepts exactly the readable configurations and finds exactly the drivers whose last process value, or else last clean value, is not empty |
| GitPreflight.BatchesCover | src/mcp_toolhub/tools/git.py:516-530 | the batches ask about each path once from last to first, about all of them exactly when no path is too long by itself |
| GitPreflight.Utf8Exact | src/mcp_toolhub/tools/git.py:521-528 | the length of a path in bytes: one for every character, and one more from each of U+0080, U+0800 and U+10000 on |
| GitPreflight.WeightExact | src/mcp_toolhub/tools/git.py:519-528 | a batch weighs the bytes of its paths and one for each |
| GitPreflight.BatchesAreFull | src/mcp_toolhub/tools/git.py:519-530 | each batch is nonempty, within the byte bound, and would break it with the next path |
| GitPreflight.TakeBatch | src/mcp_toolhub/tools/git.py:517-530 | the inner loop takes the next batch, and takes nothing exactly when there is no path or the last one is too long |
| GitPreflight.CheckAnswer | src/mcp_toolhub/tools/git.py:531-545 | an answer passes exactly when it is the complete list of the paths asked, each with a filter value that is no executable driver |
| GitPreflight.InspectPaths | src/mcp_toolhub/tools/git.py:516-545 | ends without refusal exactly when every path fits and every answer is clear, having asked each path once; a refusal has asked a prefix of the batches |
| GitPreflight.OptionsAreRead | src/mcp_toolhub/tools/git.py:546-549 | Git reads the options back as the overrides meant, because no driver name has an equals sign |
| GitPreflight.Neutralised | src/mcp_toolhub/tools/git.py:546-549 | over any configuration the options empty the command of each known driver and require it, and leave other drivers as configured |
| GitPreflight.BuildOptions | src/mcp_toolhub/tools/git.py:546-559 | the options of the sorted drivers, or a refusal exactly beyond the size limit |
| GitPreflight.OptionCharsExact | src/mcp_toolhub/tools/git.py:554-557 | the options count their bytes and three for each |
| GitPreflight.FilterSafetyOptions | src/mcp_toolhub/tools/git.py:466-559 | succeeds exactly when configuration, listings, answers and options are as they must be, without asking anything if no driver is executable; then nothing is executable in the inspected configuration, and no driver found executable is in any later one |
| ExecutionEnvironment.ValidatedExact | src/mcp_toolhub/security/execution_environment.py:135-164 | validation accepts exactly mappings within the limits, with proper text entries, no forbidden name and distinct keys, and passes their entries on in order |
| ExecutionEnvironment.EntryOkExact | src/mcp_toolhub/security/execution_environment.py:135-162 | an entry passes exactly if it is all text, its name 1 to 128 long without equals signs and NULs and not forbidden, its value at most 4096 long without NULs |
| ExecutionEnvironment.ValidatedItems | src/mcp_toolhub/security/execution_environment.py:145-164 | the loop with its seen set does that, and reports the first error otherwise |
| ExecutionEnvironment.CanonicalPermutes | src/mcp_toolhub/security/execution_environment.py:167-172 | canonical order keeps the items |
| ExecutionEnvironment.CanonicalAscends | src/mcp_toolhub/security/execution_environment.py:167-172 | and puts their keys in ascending order |
| ExecutionEnvironment.OneOrder | src/mcp_toolhub/security/execution_environment.py:167-172 | items with distinct keys have only one ascending arrangement |
| EnvironmentSnapshots.ParentLookup | src/mcp_toolhub/security/execution_environment.py:205-219 | indexes every variable of the parent by its key, or reports the first error |
| EnvironmentSnapshots.BuildExecutionEnvironment | src/mcp_toolhub/security/execution_environment.py:222-271 | the loops build the specified snapshot or report the specified error |
| EnvironmentSnapshots.BuildMeans | src/mcp_toolhub/security/execution_environment.py:222-271 | a snapshot holds exactly the inherited and the additional variables in strict key order, with the digest of what it holds |
| EnvironmentSnapshots.BuildVariables | src/mcp_toolhub/security/execution_environment.py:235-257 | a variable is in a built snapshot with a value exactly if, on Windows, some entry of the parent spelled like one of the four inherited names gives it that value and the value is a usable path, or it is an additional variable with that value |
| EnvironmentSnapshots.PosixInheritsNothing | src/mcp_toolhub/security/execution_environment.py:238-245 | elsewhere a snapshot without additional variables is empty |
| EnvironmentSnapshots.BuildAccepts | src/mcp_toolhub/security/execution_environment.py:235-247 | without additional variables exactly the parents that are all text and name no variable twice are accepted |
| EnvironmentSnapshots.OrderIndependent | src/mcp_toolhub/security/execution_environment.py:167-271 | neither the snapshot nor its digest depends on the order of the parent's or the additional mapping |
| EnvironmentSnapshots.RoundTrip | src/mcp_toolhub/security/execution_environment.py:99-332 | a stored snapshot, its variables listed in any order, is read back as itself exactly when every variable is an inherited name with a valid path; always so without additional variables |
| EnvironmentSnapshots.ParseExact | src/mcp_toolhub/security/execution_environment.py:274-332 | a payload is accepted exactly if it has the four fields and no other, the right version and platform, acceptable variables with inherited names and usable paths only, and the digest of just these in canonical order; what is read holds exactly the listed variables |
| EnvironmentSnapshots.ParsedIsCanonical | src/mcp_toolhub/security/execution_environment.py:274-332 | whatever is read from a request carries only inherited names with valid paths, in canonical form, and reads back as itself |

## Left out

- Assumptions of the protocol model: the OS lock excludes other holders and is freed when its holder dies, rename and link are atomic, and request ids and temporary names are never drawn twice (the program checks only live records and uses exclusive creation).
- JSON text, pydantic validation, SHA-256 and datetime formatting: records are abstract, a digest is any function with 64 hexadecimal digits, and time is an integer of microseconds.
- `Approval.SoundIsReadable`: record separators are counted as part of each record's bytes, and timestamps are taken to be UTC, as the program writes them.
- `list_requests` shows each request as `observe_request` does and is not modelled apart from it; configuration of the expiry period, public handles and result models have no invariant beyond those of the calls modelled.
- Hunk headers are read as ASCII digits of any length; Python's `\d` also matches other decimal digits, and its `int` refuses numbers of more than 4300 digits.
- PatchRoundTrip.RoundTrip: the target name is taken without line breaks, since a header line cannot carry one.
- File modes, ownership, symbolic links, `fsync` durability and Windows sharing rules: a file is an inode with bytes, and every descriptor call may fail.
- Publication.AtomicWriteText: the target is compared by inode only; the program also compares mode, size and times.
- The inspection of existing state directories, the test for hard links and the reading of the manifest: their outcomes are an input of StateBinding.PrepareState.
- `Binding`: the retry that waits for a manifest to become readable is not modelled; a reader that gives up has stopped.
- AuditTail.ReadLastLines: decoding of each line is left out, and a file that cannot be opened gives no lines.
- Audit event fields, redaction, sanitizing and the validity of a JSON event: `isEvent` is any predicate on lines.
- Deadlines, time limits and sleeps: a bounded wait may end at any moment with or without success; nothing is said about how long anything takes.
- `wait_for_eof`: it only waits and reads flags the model already has.
- Parsing of `git ls-files` and `ls-tree` output (`_inspection_paths`): the outcome of each listing, paths or a refusal, is an input, and Git's answer to each question is any text.
- Git's own reading of `-c` options is modelled as its documentation has it: the key ends at the first equals sign, and the command line is read after the files.
- Case folding, Windows path syntax and the table of forbidden names: parameters of the model, with the four inherited names required to fold to their keys and not to be forbidden.
- EnvironmentSnapshots.RoundTrip: the top-level fields of a payload are listed in the program's own order; the variables may be in any.
- Process launch and containment, command risk classification, output formatting and truncation markers, MCP registration and the admin commands: foreign calls, tables and plumbing.
