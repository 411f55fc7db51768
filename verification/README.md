# DeskSSH: verified model

A Dafny model of DeskSSH, the desktop in the browser that drives a remote host over SSH, and
proofs about the places where text, state and the remote machine have to agree.

| file | models |
|---|---|
| `Text.dfy` | the JavaScript string operations the code uses: split, join, trim, printing and reading numbers |
| `Base64.dfy` | RFC 4648 base64: the encoder, the host's strict decoder, Node's lenient decoder |
| `FileSystem.dfy` | the remote file system (a map from paths to files and directories) and `mkdir -p`, `touch`, `mv -n`, `cp -a -n`, `rm -rf`, `>` |
| `ShellLexer.dfy` | the shell's token recognition as a character state machine, and `quote` |
| `Shell.dfy` | what a command line does: pipelines, redirection, `sh -c`, `sudo -S` |
| `Adapter.dfy` | the Debian adapter's command texts and the sudo wrapper |
| `SshExec.dfy`, `Utf8.dfy` | one `exec` over the SSH channel, chunk by chunk; what that does to text that is not ASCII |
| `CommandMeaning.dfy` | the texts mean the operations; file round trip; elevation |
| `UniqueNames.dfy` | the fresh-name loop of the file manager |
| `FilesApp.dfy`, `FilesLaws.dfy`, `FilesCommands.dfy` | the file manager, laws over its sessions, and its calls as command lines |
| `Trust.dfy` | known hosts and the host-key protocol of the gateway |
| `Handshake.dfy` | the login page's half of that protocol, run against the gateway |
| `Windows.dfy` | the window manager |
| `Elevation.dfy` | the privilege-elevation dialog |
| `Transparency.dfy` | the command log, overlapping executions, and executor wrapping |
| `Sessions.dfy` | the session registry and the connections it owns |
| `Listing.dfy`, `Sections.dfy` | the `find -printf` listing and the two marker-section parsers |
| `ListCommand.dfy` | the directory listing from end to end: command text, words, `find`, chunks, parser |

Handlers that update cells, maps or references in the source are classes here, whose methods are
proved equal to steps of a state machine (`Next`); the laws are then proved over all runs of that
machine. Pure code is functions and lemmas.

The host is a parameter where it varies: the status its `mv` and `cp` report when they refuse to
overwrite, the password its `sudo` accepts, whether it asks for one, and how often. A command line
outside the modelled part of the shell has the outcome `Unsupported`, which is never a success.
The decoder of output chunks is any function that is right on ASCII, and in `Utf8.dfy` the UTF-8
decoder of the Unicode Standard, section 3.9. Clocks, generated ids and
replies of the network are parameters or events.

## Model

| member | source | states |
|---|---|---|
| Base64.NodeRoundTrip | packages/core/src/adapters/debian.ts:273-277 | the decoder `readFile` uses inverts the encoder on every byte string |
| Base64.HostRoundTrip | packages/core/src/adapters/debian.ts:279-282 | the host's strict decoder accepts every encoding and inverts the encoder |
| Base64.ShortVectors | packages/core/src/adapters/debian.ts:279-282 | test vectors of RFC 4648, section 10, with both paddings |
| Base64.LongVector | packages/core/src/adapters/debian.ts:279-282 | a test vector of more than one group |
| Base64.LastLetters | packages/core/src/adapters/debian.ts:279-282 | the two letters that are not alphanumeric |
| ShellLexer.ScanQuote | packages/core/src/adapters/shell.ts:5-7 | quoted text adds exactly the quoted string to the current word, whatever characters it holds |
| ShellLexer.SpecialNotPlain | packages/core/src/adapters/shell.ts:5-7 | no character with a meaning to the shell stands for itself outside quotes |
| ShellLexer.LexRender | packages/core/src/adapters/shell.ts:5-7 | any command assembled from plain words, quoted arguments, pipes and redirections is tokenised back into exactly those pieces |
| Adapter.CommandWords | packages/core/src/adapters/debian.ts:284-302 | each operation's text is one command in which every path is exactly one word |
| Adapter.WritePipeline | packages/core/src/adapters/debian.ts:279-282 | a write's text is the pipeline of `printf` and `base64 -d` redirected to the path |
| CommandMeaning.CommandMeans | packages/core/src/adapters/debian.ts:279-302 | running an operation's text performs the operation, for every path and content, whatever is on standard input |
| CommandMeaning.CommandFrame | packages/core/src/adapters/debian.ts:279-302 | no path other than those the arguments name changes |
| CommandMeaning.ReadMeans | packages/core/src/adapters/debian.ts:273-277 | the read text prints the base64 of the file and changes nothing, or fails |
| CommandMeaning.FileRoundTrip | packages/core/src/adapters/debian.ts:273-282 | write then read returns the same bytes, through quoting, tokens, pipeline, redirect, both codecs, trimming and any chunking; only that file changes |
| CommandMeaning.WriteRefused | packages/core/src/adapters/debian.ts:279-282 | a write to a path that cannot hold a file fails and changes nothing |
| CommandMeaning.ElevatedWords | packages/core/src/privilege/elevation.ts:23-29 | the wrapped text is the seven words sudo, -S, -p, empty, sh, -c and the whole command |
| CommandMeaning.ElevatedMeans | packages/core/src/privilege/elevation.ts:23-29 | for every command, once sudo lets it through the wrapped text does what the command does; otherwise nothing happens |
| CommandMeaning.ElevatedOperation | packages/core/src/privilege/elevation.ts:23-29 | with the one password line sent, an operation takes full effect exactly when the password is right or not asked for |
| CommandMeaning.NestedElevation | packages/core/src/privilege/elevation.ts:23-29 | the quoting layers do not interfere: wrapped to any depth, with a password line per layer, a command still means what it meant |
| CommandMeaning.NestedOneLine | packages/core/src/privilege/elevation.ts:23-29 | with the single line that nested wrappers really send, one layer works on a host that asks, and from two layers on nothing happens |
| SshExec.ExecCall.OnClose | packages/core/src/session/ssh-session.ts:108-111 | the first close settles the call with the output so far; a later one changes nothing |
| SshExec.Exec | packages/core/src/session/ssh-session.ts:97-117 | the result is exactly the output chunks before the channel closed, with its exit code, and none before that |
| SshExec.StreamsApart | packages/core/src/session/ssh-session.ts:97-117 | the two streams are kept apart, each in order, and what comes after the close is ignored |
| SshExec.DecodedAscii | packages/core/src/session/ssh-session.ts:105-107 | ASCII output is decoded correctly however it is cut into chunks |
| Utf8.TextRoundTrip | packages/core/src/session/ssh-session.ts:105-107 | undivided, every text is read back from its UTF-8 bytes |
| Utf8.ChunkedText | packages/core/src/session/ssh-session.ts:105-114 | text decoded chunk by chunk comes out as it was if and only if no chunk begins inside a character, and otherwise longer |
| Utf8.ExecText | packages/core/src/session/ssh-session.ts:97-117 | the caller of `exec` gets the text the command printed under exactly that condition |
| Utf8.DecodeConcat | packages/core/src/session/ssh-session.ts:105-107 | divided between characters, any bytes, well-formed or not, decode to the same text |
| Utf8.DividedCharacter | packages/core/src/session/ssh-session.ts:105-107 | the failing case: any character that is not ASCII, divided after its first byte |
| Utf8.FileTransfer | packages/core/src/adapters/debian.ts:273-282 | the file round trip with this very decoder |
| FileSystem.MkdirMeaning | packages/core/src/adapters/debian.ts:284-286 | succeeds exactly when no file is in the way; then all ancestors are directories and nothing else changed |
| FileSystem.TouchMeaning | packages/core/src/adapters/debian.ts:288-290 | an absent path becomes an empty file; no content ever changes |
| FileSystem.MvMeaning | packages/core/src/adapters/debian.ts:292-294 | when the move goes ahead and what it then does: same tree at the landing place, none at the source, all else unchanged; otherwise nothing changes |
| FileSystem.CpMeaning | packages/core/src/adapters/debian.ts:296-298 | never overwrites, changes nothing outside the landing place, and makes the same tree on a free place |
| FileSystem.CpMerges | packages/core/src/adapters/debian.ts:296-298 | onto a directory that is there, everything there stays and every entry that meets no file on its way is added |
| FileSystem.RmMeaning | packages/core/src/adapters/debian.ts:300-302 | nothing is left at or below the path and everything else is as it was |
| FileSystem.PerformValid | packages/core/src/adapters/debian.ts:279-302 | every operation leaves a well-formed file system |
| FileSystem.PerformConserves | packages/core/src/adapters/debian.ts:284-298 | creating and copying only add; a move neither loses nor duplicates content |
| FileSystem.JoinResolves | packages/web/src/features/desktop/apps/lib.ts:4-7 | a joined path names that child of the directory, also with trailing slashes |
| FileSystem.JoinText | packages/web/src/features/desktop/apps/lib.ts:4-7 | one slash between directory and name, whatever slashes the directory ends with |
| UniqueNames.UniqueName | packages/web/src/features/desktop/apps/FilesApp.tsx:570-578 | the loop ends in fewer steps than there are names, with a name not taken and the least free number from 2 on |
| UniqueNames.CandidateInjective | packages/web/src/features/desktop/apps/FilesApp.tsx:573-577 | different numbers give different names |
| UniqueNames.TriedBound | packages/web/src/features/desktop/apps/FilesApp.tsx:576 | pigeonhole: the numbers tried are fewer than the names |
| UniqueNames.UniqueNameDetermined | packages/web/src/features/desktop/apps/FilesApp.tsx:570-578 | what is promised about the result determines it |
| UniqueNames.UniqueNameKeepsParts | packages/web/src/features/desktop/apps/FilesApp.tsx:572-577 | only the number is inserted; base and extension stay intact |
| UniqueNames.CandidateShape | packages/web/src/features/desktop/apps/FilesApp.tsx:570-577 | the number stands in parentheses after a blank, before the extension; a leading dot begins none |
| FilesApp.Remote.Call | packages/web/src/features/desktop/apps/FilesApp.tsx:130-144 | a call that is let through performs its operation and reports its success; one that is not changes nothing |
| FilesApp.FilesWindow.WithConflict | packages/web/src/features/desktop/apps/FilesApp.tsx:148-169 | acts at once on a name not listed, otherwise asks, keeping the directory and listing that the handler saw |
| FilesApp.FilesWindow.SubmitDialog | packages/web/src/features/desktop/apps/FilesApp.tsx:220-244 | one step of the state machine: guards, no-op rename, conflict |
| FilesApp.FilesWindow.Paste | packages/web/src/features/desktop/apps/FilesApp.tsx:204-218 | one step: a cut empties the clipboard, then move or copy, or a conflict |
| FilesApp.FilesWindow.KeepBoth | packages/web/src/features/desktop/apps/FilesApp.tsx:160-163 | one step: acts under the fresh name for the listing the question was asked with |
| FilesApp.FilesWindow.Replace | packages/web/src/features/desktop/apps/FilesApp.tsx:211-217 | one step: removal first, and the rest only if it succeeded; an upload only overwrites |
| FilesApp.FilesWindow.ChooseUpload | packages/web/src/features/desktop/apps/FilesApp.tsx:246-247 | one step: the file is being read, and its handler keeps the directory and listing of this moment |
| FilesApp.FilesWindow.ContinueUpload | packages/web/src/features/desktop/apps/FilesApp.tsx:248-256 | one step, whenever the bytes are there: write, or ask, for that directory and listing |
| FilesApp.FilesWindow.ConfirmDelete | packages/web/src/features/desktop/apps/FilesApp.tsx:528-534 | one step: removes the chosen entry |
| FilesLaws.StepConserves | packages/web/src/features/desktop/apps/FilesApp.tsx:148-256 | one step without Replace or Delete, uploads included, loses content if and only if a write meets a file with other content, whatever the listing says |
| FilesLaws.NoLossWithoutConsent | packages/web/src/features/desktop/apps/FilesApp.tsx:148-244 | over every run without consent or upload the content of every file is still there at the end, no two in the same file |
| FilesLaws.LossExact | packages/web/src/features/desktop/apps/FilesApp.tsx:148-256 | over every run without Replace and Delete, uploads and Keep both included, nothing that was ever there is lost if and only if no write meets a file with other content |
| FilesLaws.PasteKinds | packages/web/src/features/desktop/apps/FilesApp.tsx:204-218 | a copy only adds; a cut neither loses nor duplicates |
| FilesLaws.DialogActs | packages/web/src/features/desktop/apps/FilesApp.tsx:220-244 | with a free name, whatever blanks surround it, New folder makes a directory, New file an empty file and Rename moves the entry; a denied call changes nothing; the dialog closes |
| FilesLaws.NewFromButton | packages/web/src/features/desktop/apps/FilesApp.tsx:220-244 | opening the dialog and submitting a free name makes the folder or the file and changes nothing else |
| FilesLaws.DialogAsks | packages/web/src/features/desktop/apps/FilesApp.tsx:220-244 | with a listed name it asks about that name and for what the dialog was for, and does nothing yet |
| FilesLaws.DialogRefuses | packages/web/src/features/desktop/apps/FilesApp.tsx:220-234 | a blank name or one with a slash is not accepted and the dialog stays; a rename to the same name only closes it |
| FilesLaws.TrimExact | packages/web/src/features/desktop/apps/FilesApp.tsx:222 | trimming takes off the blanks around a name and nothing else |
| FilesLaws.PasteActs | packages/web/src/features/desktop/apps/FilesApp.tsx:204-218 | under a free name a paste brings the source exactly if that is possible; a cut empties the clipboard, a copy keeps it |
| FilesLaws.PasteListed | packages/web/src/features/desktop/apps/FilesApp.tsx:204-218 | under a listed name it asks, with the same effect on the clipboard |
| FilesLaws.ClipExact | packages/web/src/features/desktop/apps/FilesApp.tsx:416-433 | cut and copy record the entry of the current directory and change nothing |
| FilesLaws.DeleteExact | packages/web/src/features/desktop/apps/FilesApp.tsx:528-534 | Delete removes the chosen entry with all it holds and nothing else |
| FilesLaws.KeepBothCloses | packages/web/src/features/desktop/apps/FilesApp.tsx:158-169 | Keep both closes the question and touches no other cell; Cancel does nothing else |
| FilesLaws.ReplaceCloses | packages/web/src/features/desktop/apps/FilesApp.tsx:158-169 | Replace closes the question and touches no other cell |
| FilesLaws.UploadExact | packages/web/src/features/desktop/apps/FilesApp.tsx:246-256 | an upload that does not ask loses something if and only if a file with other content is there by then, unlisted |
| FilesLaws.UploadKeepBothExact | packages/web/src/features/desktop/apps/FilesApp.tsx:160-163 | an upload that asks and is answered with Keep both does so if and only if a file with other content has the fresh name, unlisted |
| FilesLaws.UploadOverwrites | packages/web/src/features/desktop/apps/FilesApp.tsx:246-256 | a failing run: a file of the name appears while the chosen one is being read |
| FilesLaws.KeepBothOverwrites | packages/web/src/features/desktop/apps/FilesApp.tsx:160-163 | another: the user keeps both, and the fresh name is that of an unlisted file |
| FilesLaws.UploadAdds | packages/web/src/features/desktop/apps/FilesApp.tsx:246-256 | so with a listing that still shows the whole directory it only adds |
| FilesLaws.MakeOnFree | packages/web/src/features/desktop/apps/FilesApp.tsx:148-256 | under a free name a new folder, new file, rename, paste or upload does exactly what it is for if and only if it is possible: the directory exists, the source exists, neither path contains the other |
| FilesLaws.KeepBothExact | packages/web/src/features/desktop/apps/FilesApp.tsx:148-202 | Keep both finds a free name if the listing still shows the directory, and under a free name does exactly what was asked for if and only if that is possible |
| FilesLaws.KeepBothTaken | packages/web/src/features/desktop/apps/FilesApp.tsx:148-202 | when the fresh name is taken on the host, an upload overwrites a file, and anything else loses nothing and leaves a file alone |
| FilesLaws.MoverOntoFile | packages/core/src/adapters/debian.ts:292-298 | a move or copy onto a file changes nothing |
| FilesLaws.MoverOntoDir | packages/core/src/adapters/debian.ts:292-298 | onto a directory it brings its source inside, where that is free, if and only if it is possible |
| FilesLaws.ReplaceExact | packages/web/src/features/desktop/apps/FilesApp.tsx:204-256 | for every action that can ask, Replace makes the target exactly what was asked for and changes nothing else if and only if that is possible; a move or copy that is not removes the target and brings nothing |
| FilesLaws.ReplaceEvent | packages/web/src/features/desktop/apps/FilesApp.tsx:211-256 | the removal comes first; when it is denied nothing happens, when what follows is denied the target is gone; an upload removes nothing |
| FilesLaws.ReplaceOntoItself | packages/web/src/features/desktop/apps/FilesApp.tsx:204-218 | a failing run: pasting a file onto itself and choosing Replace destroys it |
| FilesLaws.ReplaceByNothing | packages/web/src/features/desktop/apps/FilesApp.tsx:204-218 | another: the clipboard keeps the name of a deleted file, and Replace removes the target and brings nothing |
| FilesLaws.RenameReplaces | packages/web/src/features/desktop/apps/FilesApp.tsx:220-244 | for a rename the guards leave one condition: Replace does exactly what it says if and only if the renamed entry is still there |
| FilesCommands.CallsEffect | packages/web/src/features/desktop/apps/FilesApp.tsx:194-256 | what an event does to the file system is its calls in order, each only if the one before succeeded |
| FilesCommands.SessionRuns | packages/web/src/features/desktop/apps/FilesApp.tsx:130-256 | over every session, Replace, Delete and uploads included, sending each call as its command line, plainly or under sudo, gives the state machine's file system on the host; every path held is absolute and NUL-free |
| Trust.FileKnownHosts.Add | packages/server/src/known-hosts.ts:41-47 | sets one pin in memory and writes the whole map through, so file and memory agree |
| Trust.KeyInjective | packages/server/src/opener.ts:58 | different (host, port) pairs never share a key, colons in host names included |
| Trust.SshOpener.Connect | packages/server/src/opener.ts:57-62 | a new attempt reads the pin once, at its start |
| Trust.SshOpener.VerifyHostKey | packages/server/src/opener.ts:69-79 | the verifier's decision as a step, and the key it remembers |
| Trust.PinnedTarget | packages/server/src/opener.ts:69-92 | a target with a pin opens if and only if the server presents the pinned key, whatever the request confirms; otherwise it is refused as a mismatch; the pins stay |
| Trust.UnknownTarget | packages/server/src/opener.ts:69-92 | a target without one opens, and the key is pinned, if and only if the request confirms this very key; otherwise it is refused as unknown and nothing is pinned |
| Trust.Remembered | packages/server/src/known-hosts.ts:29-58 | a key confirmed once opens its target after a restart without being asked for, and no other key does |
| Trust.RestartExact | packages/server/src/known-hosts.ts:33-58 | after a restart the pins are those of the file, none if it is absent or unreadable |
| Trust.FailExact | packages/server/src/opener.ts:80-89 | an attempt that fails on the way never opens and pins nothing |
| Trust.DefaultPort | packages/server/src/opener.ts:58 | a request without a port is one for port 22 |
| Trust.SshOpener.Complete | packages/server/src/opener.ts:91-92 | a finished attempt pins its key exactly when it had read no pin |
| Trust.TrustSafety | packages/server/src/opener.ts:57-92 | under every interleaving and restart each pin was loaded or was presented to and confirmed by one request, and each open session presented its pin or its own confirmed fingerprint |
| Trust.PinStability | packages/server/src/opener.ts:57-92 | when connections to one target do not overlap, a pin never changes again, restarts included |
| Trust.FinishKeepsPin | packages/server/src/opener.ts:91-92 | in general, finishing keeps an existing pin if and only if the attempt had read one or was shown the pinned key |
| Trust.OverlapOverwrites | packages/server/src/opener.ts:57-92 | the failing case: two overlapping first connections, the second overwrites the pin of the first |
| Handshake.Page.Attempt | packages/web/src/App.tsx:17-31 | sending a request starts an attempt at the gateway and marks the page busy |
| Handshake.Page.Replied | packages/web/src/App.tsx:20-30 | a reply sets pending request and fingerprint together, or the session, or the error; an opener that broke down after pinning answers with an error |
| Handshake.Page.ConfirmHostKey | packages/web/src/App.tsx:33-39 | the retry is the pending request with the displayed fingerprint |
| Handshake.Page.CancelHostKey | packages/web/src/App.tsx:41-44 | forgets both |
| Handshake.AlwaysCoherent | packages/web/src/App.tsx:17-44 | in every reachable state pending request and fingerprint are both absent or from one reply, and every fingerprint sent was shown and confirmed for its target |
| Handshake.SessionsAreConfirmed | packages/web/src/App.tsx:17-44 | a session's key is the gateway's pin at the start of its attempt, or one the user was shown for that target and confirmed |
| Handshake.AnswerExact | packages/server/src/gateway.ts:174-193 | a reply says exactly what its attempt came to: an open session, the question about the presented key for this request, or an error; nothing else changes |
| Handshake.SendingExact | packages/web/src/App.tsx:17-49 | the form sends a request that confirms nothing, the dialog the pending one with the shown fingerprint; cancelling and disconnecting send nothing |
| Handshake.FirstContact | packages/web/src/App.tsx:17-39 | from no pin file, for every host, port and key: submit, be asked, confirm, and the same key again end in a session with exactly that pin |
| Handshake.DifferentKeyAsksAgain | packages/server/src/gateway.ts:162-194 | another key on the retry pins nothing, opens nothing and only asks again |
| Windows.WindowManager.OpenApp | packages/web/src/features/desktop/useWindows.ts:20-51 | raises the app's window, or appends a new one, to just above the counter that its render saw |
| Windows.WindowManager.FocusWindow | packages/web/src/features/desktop/useWindows.ts:12-18 | raises and shows the window and counts up |
| Windows.OpenExact | packages/web/src/features/desktop/useWindows.ts:20-51 | opening an app keeps the invariant, and is the step of the most-recently-used stack, if and only if the counter its render saw is not below any window of another app |
| Windows.RunExact | packages/web/src/features/desktop/useWindows.ts:12-71 | a run keeps ids, apps and z values distinct, none above the counter, and z order equal to the stack, all along, if and only if that holds at every opening in it |
| Windows.RunRefines | packages/web/src/features/desktop/useWindows.ts:12-71 | at the end of such a run z order is the most-recently-used stack of the same run |
| Windows.CurrentSees | packages/web/src/features/desktop/useWindows.ts:20-51 | handlers that see the counter left by the event before them meet the condition |
| Windows.ByZUnique | packages/web/src/features/desktop/useWindows.ts:12-71 | there is only one order by z |
| Windows.ActiveIsMostRecent | packages/web/src/features/desktop/Desktop.tsx:95-97 | the active window is the most recently used one that is not minimized |
| Windows.FocusActivates | packages/web/src/features/desktop/useWindows.ts:12-18 | a focused window becomes the active one, also if it was minimized |
| Windows.FocusKeeps | packages/web/src/features/desktop/useWindows.ts:12-18 | focusing leaves place, size and maximization of every window, and all of the others, as they were |
| Windows.OpenKeeps | packages/web/src/features/desktop/useWindows.ts:20-51 | so does opening; a new window has the app's size or 560 by 420 and stands on the diagonal |
| Windows.PlacesRepeat | packages/web/src/features/desktop/useWindows.ts:33-40 | places of new windows repeat after six and not before |
| Windows.HandlersExact | packages/web/src/features/desktop/useWindows.ts:57-71 | minimize, maximize, move and resize change what they say of the one window and nothing of any other |
| Windows.CountersExact | packages/web/src/features/desktop/useWindows.ts:4-71 | only focusing and opening count up, and only a new window takes a number |
| Windows.OpenActivates | packages/web/src/features/desktop/useWindows.ts:20-51 | so does the window of an app that is opened under the condition above |
| Windows.QuietHandlers | packages/web/src/features/desktop/useWindows.ts:61-71 | placing, sizing and maximizing never change which window is active; maximizing twice changes nothing |
| Windows.StaleCounterCollides | packages/web/src/features/desktop/useWindows.ts:20-51 | the failing case: two windows opened from one render get the same z |
| Windows.StaleFirstStaysActive | packages/web/src/features/desktop/Desktop.tsx:95-97 | and the one opened first stays the active one |
| Elevation.ElevationRunner.CancelDialog | packages/web/src/features/desktop/useElevation.tsx:67-77 | one cancel event: swallowed during a transition, otherwise resolves and resets |
| Elevation.ElevationRunner.FirstReturned | packages/web/src/features/desktop/useElevation.tsx:79-97 | a first result is delivered unless it reads like a privilege error |
| Elevation.ElevationRunner.ProbeReturned | packages/web/src/features/desktop/useElevation.tsx:85-96 | the references are set and the right stage opens, or the first result is delivered |
| Elevation.ElevationRunner.ApplyCredentials | packages/web/src/features/desktop/useElevation.tsx:103-106 | a retry of the current action starts |
| Elevation.ElevationRunner.RetryReturned | packages/web/src/features/desktop/useElevation.tsx:107-119 | a successful retry resolves the current promise and resets; another one leaves the dialog open |
| Elevation.DialogIsSound | packages/web/src/features/desktop/useElevation.tsx:56-120 | a stage is open exactly when action, resolver and last result are set; each run is resolved at most once, with its own result; the fallback is never delivered |
| Elevation.StartExact | packages/web/src/features/desktop/useElevation.tsx:79-83 | a new run touches nothing but the list of runs |
| Elevation.FirstExact | packages/web/src/features/desktop/useElevation.tsx:83-97 | a first result is delivered as it is unless it reads like a denial; then it is delivered all the same if the lookup fails |
| Elevation.RetryOffered | packages/web/src/features/desktop/useElevation.tsx:93-120 | a retry of the run's own action can be sent at once if and only if the user may use sudo without being root, and after one more step if and only if that or the host offers an escalation path |
| Elevation.ApplyExact | packages/web/src/features/desktop/useElevation.tsx:103-106 | credentials are taken in the two password dialogs only; the way from the notice to the second sets the transition flag |
| Elevation.RetryExact | packages/web/src/features/desktop/useElevation.tsx:107-119 | a successful retry delivers its result and closes the dialog, leaving the transition flag; any other leaves it open, ready to be sent again |
| Elevation.TwoCancelsResolve | packages/web/src/features/desktop/useElevation.tsx:67-77 | one cancel resolves if and only if no transition is awaited; two always do |
| Elevation.LateRetryCrosses | packages/web/src/features/desktop/useElevation.tsx:103-120 | the failing case: a late success of one run's action resolves another run |
| Elevation.RetryGoesHome | packages/web/src/features/desktop/useElevation.tsx:103-120 | in any state results stay with their own run if and only if the dialog is that run's or closed |
| Elevation.ResolvableExact | packages/web/src/features/desktop/useElevation.tsx:56-120 | in any state, with any number of runs at once, an unresolved run can still be resolved if and only if it was not handed to the dialog yet or the resolver is its own |
| Elevation.SecondRunForsakesFirst | packages/web/src/features/desktop/useElevation.tsx:79-97 | the failing case: of two actions denied at once, the first promise is never resolved, whatever follows |
| Transparency.TransparencyLog.Record | packages/core/src/transparency/log.ts:34-40 | appends one record with the next id |
| Transparency.LogIsExact | packages/core/src/transparency/log.ts:59-90 | under any overlap ids are 1..n in order and records and finished executions correspond one to one |
| Transparency.ExecutionLogged | packages/core/src/transparency/log.ts:66-89 | an execution, whatever overlaps it, adds one record at its end: next id, command, host, start, duration and ending |
| Transparency.LogOnlyGrows | packages/core/src/transparency/log.ts:29-45 | every earlier list is a prefix of every later one |
| Transparency.PasswordLeavesNoTrace | packages/server/src/elevate.ts:21-41 | two runs that differ only in passwords leave identical logs and send identical command lines |
| Transparency.PasswordReachesStdin | packages/server/src/elevate.ts:21-41 | the password goes to standard input exactly for the calls that run under sudo, and the right user runs them |
| Transparency.EveryCommandIsLogged | packages/core/src/transparency/log.ts:59-90 | every executor the gateway builds records each command exactly once, as it was sent |
| Transparency.CallSends | packages/server/src/elevate.ts:21-41 | a call sends its commands in order, each decided by the replies before it, one reply each, until it has no more |
| Sessions.SessionManager.Add | packages/server/src/session-manager.ts:57-63 | registers an open connection under a fresh id |
| Sessions.SessionManager.Remove | packages/server/src/session-manager.ts:69-76 | closes the connection of that id once and forgets it; an unknown id changes nothing |
| Sessions.SessionManager.CloseEvery | packages/server/src/session-manager.ts:83-86 | closes each registered connection exactly once and ends at size 0 |
| Sessions.RunCap | packages/server/src/gateway.ts:112-125 | on both ways out the transient connection that came up is closed once, and the outcome of the action, or of the failed connection, is passed on |
| Sessions.Conservation | packages/server/src/session-manager.ts:54-90 | over every run a connection has been closed exactly once if it left the registry or its call ended, and not before |
| Sessions.RegistryExact | packages/server/src/session-manager.ts:57-76 | connecting registers an open connection under a fresh id, disconnecting closes and forgets it, an unknown id changes nothing |
| Sessions.PlainCallExact | packages/server/src/gateway.ts:323-327 | a plain request reaches an adapter if and only if its id is registered |
| Sessions.ElevatedCallLife | packages/server/src/gateway.ts:112-125 | an elevated call under a registered id reaches the adapter once; another user costs one connection, closed at its end, the connected user none; a refused one leaves nothing open |
| Sessions.RemovedStaysRemoved | packages/server/src/gateway.ts:112-125 | an id that left the registry never returns, and reaches an adapter at most once for each elevated call that was waiting under it |
| Sessions.RemovedReachesAdapter | packages/server/src/gateway.ts:112-125 | it can still reach an adapter if and only if a call was waiting under it |
| Sessions.DisconnectedWhileWaiting | packages/server/src/gateway.ts:112-125 | the failing run: disconnecting while the connection for an elevated call comes up |
| Sessions.OnlyAbandonedLeak | packages/server/src/opener.ts:94-98 | after closing everything, with no call running, exactly the connections of openers that failed after connecting are still open |
| Sessions.OpenerLeaks | packages/server/src/opener.ts:94-98 | the connection of an opener that fails after connecting is never closed, whatever follows |
| Listing.TimeRoundTrip | packages/core/src/adapters/debian.ts:48-50 | a printed time is read as the nearest millisecond, halves upwards |
| Listing.LineRoundTrip | packages/core/src/adapters/debian.ts:53-68 | one printed entry is read back, tabs in its name included |
| Listing.TypesRead | packages/core/src/adapters/debian.ts:28-39 | the letters f, d and l, and only they, are read as file, directory and symbolic link |
| Listing.NumbersRead | packages/core/src/adapters/debian.ts:62-63 | a number is read with its sign up to the first character that is no digit |
| Listing.ListingReads | packages/core/src/adapters/debian.ts:53-76 | an output is read if and only if every line that is not blank has six tabs or more |
| Listing.ListingRoundTrip | packages/core/src/adapters/debian.ts:25-76 | a printed listing is read back exactly and in order if and only if no name contains a line end |
| ListCommand.FindWords | packages/core/src/adapters/debian.ts:264-267 | the text is one `find` with the path and the format each as one word |
| ListCommand.FindFormat | packages/core/src/adapters/debian.ts:25 | the format string, with its escapes, prints the seven fields and a line end |
| ListCommand.ListMeans | packages/core/src/adapters/debian.ts:264-267 | for every absolute path the text prints the entries of the directory and changes nothing |
| ListCommand.ListingEndToEnd | packages/core/src/adapters/debian.ts:264-267 | through tokens, format, UTF-8 chunks that begin at characters, and parser, exactly the entries of the directory come out if and only if no name holds a line end |
| ListCommand.ListingShows | packages/web/src/features/desktop/apps/FilesApp.tsx:103-112 | so a listing just read shows every name of the directory and no other |
| ListCommand.ListingTells | packages/core/src/adapters/debian.ts:264-267 | and every entry of it says what is there: directory or file, the file's size, and the mode, owner, group and time the host has |
| Sections.SectionsOf | packages/core/src/adapters/debian.ts:194-207 | each section holds the lines between the last marker of its name and the next marker |
| Sections.MetricsSections | packages/core/src/adapters/debian.ts:110-123 | the same sections, joined, except one named `__proto__` |
| Sections.SectionsUnique | packages/core/src/adapters/debian.ts:194-207 | an output has only one division into sections |
| Sections.MarkerExact | packages/core/src/adapters/debian.ts:199 | a line is a marker of a name if and only if it is the name between two times three equals signs, the name being letters, digits and underscores |
| Sections.JoinedLines | packages/core/src/adapters/debian.ts:123 | the text of a section holds its lines, one to a line |
| Sections.SplittersAgree | packages/core/src/adapters/debian.ts:110-207 | the two parsers agree if and only if no marker is named `__proto__` |
| Sections.SectionsRoundTrip | packages/core/src/adapters/debian.ts:194-207 | printed sections with distinct names, after any junk, are read back as they were |

## Where the code does less than it promises

- Replace in the file manager is documented as removing the target because `mv` and `cp` refuse to
  overwrite (packages/web/src/features/desktop/apps/FilesApp.tsx:211). When the target is the
  source or contains it, the removal deletes the source (`FilesLaws.ReplaceOntoItself`); when the
  source has gone meanwhile, the target is removed for nothing (`FilesLaws.ReplaceByNothing`). The
  exact condition is in `FilesLaws.ReplaceExact`.
- An upload can overwrite a file without consent: one that appeared under its name while it was
  being read (`FilesLaws.UploadOverwrites`), or an unlisted one that has the fresh name of Keep both
  (`FilesLaws.KeepBothOverwrites`). Exactly when, is in `FilesLaws.UploadExact`,
  `FilesLaws.UploadKeepBothExact` and, over runs, `FilesLaws.LossExact`.
- A session can be disconnected while an elevated call under it waits for its executor; the call
  then reaches an adapter under an id that is no longer registered:
  `Sessions.DisconnectedWhileWaiting`, and exactly when, `Sessions.RemovedReachesAdapter`.
- Output is decoded chunk by chunk (packages/core/src/session/ssh-session.ts:105-107), so text that
  is not ASCII, such as a file name in a listing, is spoilt when a chunk begins inside a character:
  `Utf8.ChunkedText`.
- A pin can be overwritten by an overlapping first connection to the same target:
  `Trust.OverlapOverwrites`; exactly when, is in `Trust.FinishKeepsPin`.
- A late retry of a cancelled elevation resolves whichever run owns the dialog by then:
  `Elevation.LateRetryCrosses` and `Elevation.RetryGoesHome`. The flag that swallows one cancel
  survives `reset`, so `Elevation.TwoCancelsResolve` needs two.
- Of two actions that are denied at once the first is never answered
  (`Elevation.SecondRunForsakesFirst`); exactly when a run can still be, is in
  `Elevation.ResolvableExact`.
- Two windows opened from one render share a z value (`Windows.StaleCounterCollides`); exactly when
  an opening spoils the order, is in `Windows.OpenExact`.
- Nested elevation wrappers send one password line only, as each drops the input it is given
  (packages/core/src/privilege/elevation.ts:25): `CommandMeaning.NestedOneLine`. The gateway never
  nests them.
- A file name with a line end spoils its directory's listing: `Listing.ListingRoundTrip`.
- An opener that fails after connecting leaves its connection open: `Sessions.OnlyAbandonedLeak`.
- A section named `__proto__` is lost by the metrics parser only: `Sections.SplittersAgree`.

## Left out

- CommandMeans: covers absolute, NUL-free paths; relative ones depend on the working directory or read as options, as the commands use no `--`.
- FileRoundTrip: does not model the limits on argument length, which bound the size of one write on a real host.
- CpMeaning: a directory copied into itself is an error without effect here; the real `cp` may leave a partial copy, which also loses nothing.
- LexRender: unquoted expansions, patterns, lists, comments and double quotes are outside the lexer, which stops at them; the adapter's metrics, process and service commands are therefore not run.
- TrustSafety: is about the sessions of the connect route; the transient connection of an elevated call accepts any key (packages/server/src/elevate.ts:35).
- FileKnownHosts: writing the pin file is taken to succeed, and the file to hold a map of strings when it is JSON.
- KeyInjective: ports are natural numbers; the route passes on whatever `Number` makes of its input.
- NoLossWithoutConsent: an upload is excluded, since it truncates by design; `LossExact` includes it.
- ReplaceEvent: the two calls of Replace are one step, with nobody else between them; a removal that is denied changes nothing here, while a real `rm -rf` may have removed part of a tree before it meets a permission error.
- RunExact: each state updater is applied once, at its event; rendering twice or batching is not modelled, except that a handler may have seen an older counter.
- DialogIsSound: one run at a time and none while a retry is in flight (`ResolvableExact` and `RetryGoesHome` are about any state); an action that throws at its first call is not modelled, as the promise then stays open; whether a reason reads like a privilege error is part of the event.
- LogIsExact: listeners are left out; they are taken not to throw.
- PasswordLeavesNoTrace: an adapter call is any function from the replies so far to the next command; the connection of the other user is taken to come up in both runs.
- Conservation: `close` does not throw, and generated ids are fresh.
- RemovedReachesAdapter: the call for the connected user, too, waits for its executor, if only for one turn of the event loop; an adapter call that has begun counts once, however many commands it sends.
- HostRoundTrip: input with padding in its middle is refused here, while the real decoder may accept it; no encoding is of that form.
- ListingEndToEnd: `find` without permission errors, symbolic links or special files; the order in which the host reads a directory is any.
- TimeRoundTrip: times are exact decimal numerals; exponents and floating-point rounding are not modelled, nor are sizes beyond the exact range of a JavaScript number.
- Symbolic and hard links, permissions, ownership and times of files, and file systems other than one tree; `.` and `..` in a path are resolved by name.
- Text is a sequence of characters; UTF-16 code units are not modelled, and paths reach the host as characters, which the listing and the commands share.
- HTTP, WebSocket, PTY and SFTP traffic, rendering, translations, the editors and viewers, and the remaining parsers of the adapter (processes, services, memory figures, `stat`).
