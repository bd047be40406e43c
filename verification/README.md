# livesyncd in Dafny

livesyncd is a one-way synchronisation daemon: it watches a local directory
tree with file-system notifications and pushes every change to a remote host
by feeding commands to an `sftp` child process. This project models the
sequential logic of that daemon and proves what it does:

- **The recursive watch installer** (`Watching`, watch.dfy). The file system
  is a tree of `Entry` values (name, is-directory flag, readable flag, listed
  entries). A `Watcher` object records every directory it is asked to watch.
  `Watcher.AddWatchesRecursive` walks the tree depth first. It is proved
  against two specification functions: `Watches`, the watch calls in order,
  and `Count`, the reported count. Lemmas about them show that the count is
  the number of `Watch` calls made. They show that the directories passed to `Watch` are exactly
  the listable directories reachable through non-hidden directory names, and
  that the contents of a skipped entry never matter.
- **The exclusion filter** (`Exclusion`, exclusion.dfy). `Excluded` is the
  verdict: some ignore pattern matches the root-relative path. `IsExcluded` is
  the daemon's loop. It tries the patterns in order, reports malformed ones
  and stops at the first match, and it is proved to agree with `Excluded`.
  Glob matching is a function parameter, `Glob`, returning `matched` and
  `failed`. The verdict depends only on `matched`; `failed` only decides
  which patterns are reported as malformed.
- **The daemon around them** (`Livesyncd`, livesyncd.dfy). It covers the
  comma-separated `--ignore` flag, the gate that keeps excluded records off
  the sync channel, and the first sftp backend. That backend maps raw records
  straight to commands: created or modified gives `put -Pr`, otherwise
  deleted or renamed gives `rm`.
- **The second sftp backend** (`Sftp`, sftp.dfy). It maps `SyncEvent`s to
  commands: a put gives `! mkdir -p parent` and then `put -p`, a delete gives
  `rm`, and every other kind gives nothing. The sync event and its kind tests
  are in `SyncEvents` (sync_event.dfy). Raw notification records are in
  `Notify` (notify.dfy).
- **The dispatch loop** shared by both backends (`SftpSession`,
  commands.dfy). `Pipe.Serve` takes messages in order and appends each event's
  commands to the pipe's `written` log. On quit it writes `exit`, sets
  `acknowledged` and returns. It is proved against `Transcript`. The lemmas
  show that nothing after the quit is read or written, and that `exit` is
  always the last command.

Commands are values (`Mkdir`, `Put`, `Rm`, `Exit`), not text. Note that
`Mkdir` stands for the line `! mkdir -p dir`. sftp passes a line that starts
with `!` to a local shell, so this directory is created on the local side,
not on the remote host.

`Paths` (paths.dfy) holds the reduced forms of `filepath.Rel`,
`filepath.Dir`, `filepath.Join` and `strings.Split` that the code relies on,
with their round-trip lemmas.

The code keeps no index of watched directories, never re-walks the tree
after start-up, has no producer of `SyncEvent`s (nothing turns a raw record
into one) and no shutdown state machine beyond the quit handshake. The model
follows the code. In particular, a `SyncEvent` of kind rename produces no
command at all (sftp.go:30-41).

## Model

| member | source | states |
|---|---|---|
| `Watching.Lists` | livesyncd.go:91-96 | only a directory can be listed; a listing error is an unreadable entry or one that is not a directory |
| `Watching.Descends` | livesyncd.go:104 | the walk descends only into a directory whose name does not start with `.` |
| `Watching.Watches` | livesyncd.go:89-110 | an unlistable entry registers nothing; a listable one registers its own directory first |
| `Watching.Count` | livesyncd.go:89-110 | the count is 0 for an unlistable entry and at least 1 for a listable one |
| `Watching.CountIsWatchCount` | livesyncd.go:89-110 | the returned count equals the number of `Watch` calls made |
| `Watching.WatchesExactlyReached` | livesyncd.go:89-110 | `Watch` is called on a path iff it is a listable directory reached from the start through non-hidden directory entries |
| `Watching.WatchedBelowStart` | livesyncd.go:98-105 | every path passed to `Watch` is the start directory or lies below it |
| `Watching.SkippedEntryIgnored` | livesyncd.go:101-107 | replacing a plain-file or hidden entry by any other such entry changes neither the watches nor the count, so nothing below it is ever visited |
| `Watching.Watcher.Watch` | livesyncd.go:98 | a `Watch` call appends that one directory to the call log |
| `Watching.Watcher.AddWatchesRecursive` | livesyncd.go:89-110 | the walk appends exactly `Watches` to the `Watch` call log and returns `Count` |
| `Exclusion.Excluded` | livesyncd.go:112-128 | excluded iff some pattern matches the root-relative path; an empty pattern list excludes nothing |
| `Exclusion.Failures` | livesyncd.go:115-119 | the reported patterns are exactly the tried ones whose match failed |
| `Exclusion.FailuresCounts` | livesyncd.go:113-119 | a malformed pattern is reported once per time it is tried, a well-formed one never |
| `Exclusion.FailuresAppend` | livesyncd.go:113-119 | reports follow pattern order: the failures of the patterns tried first come first |
| `Exclusion.FailedPatternSkipped` | livesyncd.go:115-124 | a malformed pattern (which never matches) leaves the verdict to the patterns after it |
| `Exclusion.FirstMatchDecides` | livesyncd.go:121-124 | a matching pattern excludes, and the patterns after it do not change the verdict |
| `Exclusion.IsExcluded` | livesyncd.go:112-128 | the loop's verdict equals `Excluded`; it stops right after the first match, tries all patterns when none matches, and reports the malformed ones among those tried |
| `Livesyncd.IgnorePatterns` | livesyncd.go:162 | the flag splits into at least one comma-free pattern, and re-joining them gives the flag back |
| `Livesyncd.IgnoreFlagRoundTrip` | livesyncd.go:162 | every non-empty list of comma-free patterns is recovered from its joined flag |
| `Livesyncd.DefaultIgnoreExcludesNothing` | livesyncd.go:150-162 | an absent flag gives one empty pattern, which excludes no path below the root |
| `Livesyncd.Gate` | livesyncd.go:69-75 | a record is sent on iff its path is not excluded, and only that record |
| `Livesyncd.Forwarded` | livesyncd.go:67-75 | the records reaching the sync channel are exactly the non-excluded ones |
| `Livesyncd.ForwardedCounts` | livesyncd.go:67-75 | each non-excluded record reaches the sync channel as many times as it was recorded, an excluded one never |
| `Livesyncd.CommandsFor` | livesyncd.go:36-49 | at most one command per record, none exactly when no flag is set, never `exit` |
| `Livesyncd.CreateOrModifyUploads` | livesyncd.go:37-40 | a created or modified path gives exactly one `put -Pr` to its relative path, even if also deleted or renamed |
| `Livesyncd.DeleteOrRenameRemoves` | livesyncd.go:45-48 | a deleted or renamed path that was not created or modified gives exactly one `rm` of its relative path |
| `Livesyncd.RootEventTouchesWholeTree` | livesyncd.go:37-48 | a created or modified root uploads the whole tree (`put -Pr root .`); a deleted or renamed root gives `rm .` |
| `Livesyncd.ExcludedWritesNothing` | livesyncd.go:69-75 | an excluded record leads to no command, whatever its flags |
| `Livesyncd.AdmittedWritesItsCommands` | livesyncd.go:69-75 | a record that passes the gate leads to exactly its own commands |
| `Livesyncd.FileSessionEndsWithExit` | livesyncd.go:32-57 | the backend writes each record's commands in order, then one `exit` as the last command, and reads nothing after the quit |
| `Livesyncd.CreateWithTmpIgnored` | livesyncd.go:36-75 | with root `/sync` and pattern `*.tmp`, creating `a.txt` gives one upload of `a.txt` and creating `a.tmp` gives nothing |
| `Livesyncd.SFTPSync` | livesyncd.go:32-57 | the loop appends the transcript of its messages, acknowledges iff a quit arrived, and reads up to the quit |
| `Sftp.CommandsFor` | sftp.go:30-41 | two commands iff put, one iff delete, none otherwise; never `exit`; any upload is of the event's own file |
| `Sftp.PutCreatesParentFirst` | sftp.go:31-36 | a put first creates the parent of the relative path, then uploads to that path |
| `Sftp.PutBelowRoot` | sftp.go:31-36 | for `root/d/f` the parent created is `d` and the upload goes to `d/f` |
| `Sftp.PutTopLevel` | sftp.go:31-36 | for a file directly in the root the parent created is `.` |
| `Sftp.DeleteRemovesOnly` | sftp.go:37-40 | a delete gives exactly one `rm` of the relative path |
| `Sftp.OtherKindsSilent` | sftp.go:30-41 | a rename or an unknown kind gives no command |
| `Sftp.SyncSessionEndsWithExit` | sftp.go:26-49 | the backend writes each event's commands in order, then one `exit` as the last command, and reads nothing after the quit |
| `Sftp.StartSFTPSync` | sftp.go:26-49 | the loop appends the transcript of its messages, acknowledges iff a quit arrived, and reads up to the quit |
| `SftpSession.Transcript` | sftp.go:27-46 | a quit at the head of the inbox writes only `exit`, whatever follows it |
| `SftpSession.TranscriptEndsWithExit` | sftp.go:27-46 | once a quit has arrived, `exit` is the last command written, whatever the events map to |
| `SftpSession.ConsumedUpToQuit` | sftp.go:42-46 | the loop reads the messages before the first quit and the quit itself, and nothing after it |
| `SftpSession.Consumed` | sftp.go:42-46 | the loop reads every message when no quit comes, otherwise up to and including the first quit |
| `SftpSession.TranscriptAppend` | sftp.go:27-41 | events before any quit contribute their commands in order |
| `SftpSession.QuitEndsTranscript` | sftp.go:42-46 | after a quit only `exit` is written, whatever messages follow |
| `SftpSession.ExitOnlyOnQuit` | sftp.go:42-46 | `exit` is written iff a quit arrives, and then it is the last and only `exit` |
| `SftpSession.DeliveredTranscript` | sftp.go:27-41 | delivered events are answered with their commands in arrival order |
| `SftpSession.SessionEndsWithExit` | sftp.go:26-49 | a session of events then quit writes the events' commands then one final `exit` and reads nothing after the quit |
| `SftpSession.Pipe.Serve` | sftp.go:26-49 | the loop appends `Transcript` of its messages, sets the acknowledgement iff a quit arrived, and returns how many messages it read |
| `SyncEvents.SyncEvent.IsPut` | sync_event.go:21-23 | a put carries the put tag and so neither the delete nor the rename tag |
| `SyncEvents.SyncEvent.IsDelete` | sync_event.go:25-27 | a delete carries the delete tag and so neither the put nor the rename tag |
| `SyncEvents.SyncEvent.IsRename` | sync_event.go:29-31 | a rename carries the rename tag and so neither the put nor the delete tag |
| `SyncEvents.KindTags` | sync_event.go:7-31 | `IsPut`, `IsDelete` and `IsRename` hold exactly for tags 1, 2 and 3 |
| `SyncEvents.KindsExclusive` | sync_event.go:21-31 | at most one kind test holds for any event |
| `SyncEvents.UnknownKindMatchesNothing` | sync_event.go:7-31 | a tag outside {1, 2, 3} passes none of the tests |
| `SyncEvents.KindOnlyFromTag` | sync_event.go:13-31 | the tests depend on the tag only, not on the names, directory flag or raw record |
| `Paths.Rel` | livesyncd.go:114 | the root becomes `.`; a path below the root is the root, a separator and the result |
| `Paths.RelJoin` | sftp.go:32 | `Rel` undoes `Join` for a non-empty relative name |
| `Paths.Dir` | sftp.go:33 | a path without a separator has parent `.`; a path whose only separator leads it has parent `/`; otherwise the parent and a separator prefix the path |
| `Paths.DirJoin` | sftp.go:33 | the parent of `dir/name` is `dir` for a single-element name |
| `Paths.Join` | livesyncd.go:105 | the joined path is the directory and a separator followed by the name |
| `Paths.Split` | livesyncd.go:162 | a split gives at least one piece and no piece contains the separator |
| `Paths.JoinSplit` | livesyncd.go:162 | joining the pieces of a split gives the string back |
| `Paths.SplitJoin` | livesyncd.go:162 | splitting a join of separator-free pieces gives the pieces back |

## Left out

- The notification library: its watcher, its event and error channels, and
  flag decoding. A raw record is a path plus four booleans (`Notify.FileEvent`).
  The error channel only logs.
- `Watching.Watcher.Watch`: cannot fail here. The daemon ignores the error
  that the notification library's `Watch` may return (livesyncd.go:98), for
  instance when the directory was removed after it was listed or a limit on
  open files or watches is reached, and counts the directory anyway
  (livesyncd.go:99). So `watched` and `Count` are the `Watch` calls made, not
  the watches actually installed. The `Entry` tree also does not change while
  it is walked: entries created between listing a directory and watching it,
  which the daemon never watches, are not modelled.
- Directory listing: `ioutil.ReadDir` is replaced by the `Entry` tree. Its
  error (unreadable or not a directory) is the `readable` and `isDir` flags.
  The log line for it is not modelled.
- The `sftp` child process: starting it, its stdin pipe as a byte stream,
  `Wait`, and the `%q` quoting of command text. Commands are values.
- Concurrency: the goroutines, the spawn-per-record in `startWatchLoop`, and
  the shutdown handshake in `main` (livesyncd.go:194-221). Because each
  record is gated in its own goroutine, the real sync channel may see records
  in any order. `Livesyncd.Forwarded` is therefore stated as a multiset property
  (which records, and how many times each, but not in what order),
  and the in-order session lemmas apply to whatever order the channel
  delivers.
- `main`'s raising of the open-file limit, flag parsing other than the
  `--ignore` split, the fatal exits for missing flags, and all logging except
  the report of malformed ignore patterns (livesyncd.go:117-119), which
  `Exclusion.IsExcluded` returns as `reported` (see `Exclusion.Failures`).
- `filepath.Match` is the `Glob` parameter. `os.Getwd` is the `root`
  parameter.
- `Paths.Rel`: does not model `filepath.Rel` for a path outside the root
  (which gives a `../` form); such a path is returned unchanged. Notification
  paths lie at or below the root; an event on the root itself becomes `.`,
  so a change to the root re-uploads the whole tree, as the daemon does
  (`Livesyncd.RootEventTouchesWholeTree`).
- `Paths.Rel`: does not model the root `/`. Here `Rel("/", "/a.tmp")` keeps
  the leading separator and gives `/a.tmp`, where Go gives `a.tmp`; with
  root `/` a pattern such as `*.tmp` would then match in the daemon and not
  in the model.
- `Paths.Join`, `Paths.Dir`: do not model the `filepath.Clean` normalisation
  of repeated separators or of `.` and `..` elements. The root `/` itself
  joins to `//name` here.
- `Exclusion.IsExcluded`: the daemon recomputes the relative path once per
  pattern; it is computed once here, which gives the same value.
