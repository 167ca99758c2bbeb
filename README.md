# epiphyte worktree core, modelled in Dafny

epiphyte manages git worktrees for one repository. Every managed worktree lives
in `<root>/.epi/trees/<name>`. A configured list of repository-relative files
(`.epi/config.toml`, `files = [{ path, link_type }]`) is propagated into
every worktree, as a symbolic link back to the main checkout or as a copy.

This project models the core of that tool:

- the parser for `git worktree list --porcelain`, and the listing of managed worktrees;
- finding the repository root from the current directory;
- naming the worktree that holds the current directory;
- the main-branch guard and the branch policy of `add`;
- `link_entry`, `link_files` and `relink`;
- fanning a new entry out to every worktree, and removing an entry's links again;
- adopting worktrees created elsewhere (`import`), with its collision-free naming;
- the post-processing of git's list of ignored files;
- the edits `files add` and `files remove` make to the configured list, and the
  order of checks in the `add`, `relink` and `enter` commands.

How the model is built:

- **Paths** are sequences of components (`Paths`). `Parse` reads a string the way
  `PathBuf::from` and `Path::components` see it. `Join` is `Path::join`: an
  absolute argument replaces the base path, a relative one is appended to it.
- **The filesystem** is a map from path to node (file, directory, or symbolic link)
  inside a `FileSystem` object. Each `std::fs` call the core makes is a pure
  `…Effect` function on the map, returning the new map and the error, if any.
  The object's methods apply that function in place. A fixed set of read-only
  directories gives the I/O error branches a cause.
- **git** is a scripted set of answers (`Git.GitAnswers`). Every method that runs
  git returns the argument vectors of the commands it runs. That makes "no git
  command is run" and "exactly one move per adopted worktree" statable. The
  functions behind `enter` and name resolution read git's answers without
  returning their commands (see "Left out").
- **Loops** of the source are `while` loops. Each is proved against a recursive
  specification function over the prefix of the input handled so far. The
  specification functions carry the lemmas: round trips, frames, idempotence,
  classification and reporting.

All files verify together: `dafny verify *.dfy`.

## Model

| member | source | states |
|---|---|---|
| Porcelain.ListGitWorktrees | src/worktree.rs:571-616 | the line-by-line state machine returns git's error unchanged, or exactly `Records(lines)`: one record per "worktree " line, its branch taken from the last "branch " line before the next record; "refs/heads/" is stripped |
| Porcelain.RunMatchesRecords | src/worktree.rs:590-613 | the state machine, with the final pending record pushed after the last line, equals the reference reading `Records` |
| Porcelain.RunFromPending | src/worktree.rs:590-608 | from a pending record, the rest of the input yields that record, with the branch of its segment, followed by the records of the remaining segments |
| Porcelain.PendingMeetsWorktree | src/worktree.rs:591-599 | a "worktree " line pushes the pending record, with its branch or "", and opens a new one |
| Porcelain.PendingMeetsOther | src/worktree.rs:600-606 | a non-"worktree " line keeps the pending record open; a "branch " line replaces its branch |
| Porcelain.RunFromIdle | src/worktree.rs:587-613 | with no pending record, the input yields exactly its records |
| Porcelain.RecordsFollowWorktreeLines | src/worktree.rs:609-614 | one record per "worktree " line, with the same paths in the same order; the last record is never dropped |
| Porcelain.LeadingLinesIgnored | src/worktree.rs:600-606 | lines before the first "worktree " line, "branch " lines included, have no effect |
| Porcelain.NoBranchLineMeansDetached | src/worktree.rs:594-595 | a record whose segment has no "branch " line gets the empty branch (`unwrap_or_default`) |
| Porcelain.RecordsValid | src/worktree.rs:598 | every listed path consists of proper components |
| Porcelain.NextWorktree | src/worktree.rs:590-591 | the index returned is the first "worktree " line, or the end when there is none |
| Porcelain.LastBranchOrFront | src/worktree.rs:600-606 | reading one more line first: a "branch " line becomes the default the rest of the segment may override |
| Worktrees.ListWorktrees | src/worktree.rs:199-224 | no git command and an empty list when the trees directory is absent; otherwise git's error, or the listed records below the trees directory, in listing order, each named after its last component |
| Worktrees.ManagedExactly | src/worktree.rs:207-221 | a record is listed as managed if and only if its path lies below the trees directory; names come from the path; the list is never longer than git's |
| Worktrees.ManagedAppend | src/worktree.rs:207-221 | filtering distributes over concatenation, so listing order is kept |
| Worktrees.ManagedSkipsOutside | src/worktree.rs:208 | a record outside the trees directory is dropped |
| Worktrees.DisplayEndsWithPath | src/worktree.rs:183-197 | the displayed line ends with the path, which parses back to the same components |
| Worktrees.DisplayShowsBranch | src/worktree.rs:185-195 | the two-column form appears exactly when the branch is empty; otherwise "[branch]" follows the name and two spaces |
| Worktrees.DetectCurrentWorktree | src/worktree.rs:103-127 | a name if and only if cwd lies strictly below the trees directory and trees/<first component> exists; that name is the first component |
| Worktrees.DetectInsideWorktree | src/worktree.rs:103-127 | anywhere inside an existing managed worktree, that worktree's name is detected |
| Worktrees.DetectedContainsCwd | src/worktree.rs:116-123 | the detected worktree's directory contains cwd |
| Worktrees.ResolveWorktreeName | src/worktree.rs:129-141 | an explicit name wins; otherwise the detected one; otherwise the "not inside a worktree" error, and only then |
| Worktrees.GetWorktreePath | src/worktree.rs:86-99 | the joined path if and only if it exists: below the trees directory for a relative name, the name itself for an absolute one; for a missing worktree, git's listing error when the trees directory exists and the listing fails, else the "does not exist" error |
| Worktrees.EnsureOnMainBranch | src/worktree.rs:73-84 | passes if and only if git names the main branch as current; otherwise git's error or NotOnMainBranch(current, expected) |
| Worktrees.BranchChoice | src/worktree.rs:444-453 | an explicit branch is checked out as is; else an existing branch named after the worktree is checked out; else that branch is created |
| Worktrees.AddWorktree | src/worktree.rs:426-478 | the in-place run equals `AddWorktreeSpec`: create the trees directory, refuse an existing trees/name, probe the branch only without an explicit one, run `git worktree add`, then `link_files` |
| Worktrees.AddRefusesExisting | src/worktree.rs:436-439 | an existing trees/name is refused before any git command, and the run leaves only what creating the trees directory made |
| Worktrees.AddBranchPolicy | src/worktree.rs:444-465 | the exact git commands for each of the three branch cases, with `-b <branch> <path>` only when the branch is created |
| Worktrees.AddCreates | src/worktree.rs:432-477 | success implies that `git worktree add` succeeded, and answers the path that command was given: trees/name for a relative name, the name itself for an absolute one |
| Worktrees.Relink | src/worktree.rs:558-569 | the in-place run equals `RelinkSpec`: the "does not exist" error, or `link_files` into trees/name |
| Worktrees.RelinkMissing | src/worktree.rs:562-564 | relinking a missing worktree changes nothing |
| Worktrees.RelinkExtends | src/worktree.rs:566 | with one more configured entry, a relink whose shorter list already failed ends exactly as before |
| Links.LinkEntry | src/worktree.rs:496-541 | the in-place run equals `LinkEntryEffect`: refuse a destination that is the source or one of its ancestors (the correction under "Findings"), else create the parents, remove any occupant (recursively only for a real directory), then link, copy the file, or copy the directory |
| Links.LinkEntryPlaces | src/worktree.rs:517-538 | after success, dst is a link to src, or a file or directory; a non-directory at dst has nothing below it |
| Links.LinkEntryCopiesFile | src/worktree.rs:531-536 | a successful copy of a file leaves at dst the file src names, content included |
| Links.LinkEntryCopiesDir | src/worktree.rs:528-530 | a successful copy of a directory leaves dst a directory holding, at the matching place, every entry of the source's subtree |
| Links.LinkEntryCopiesOnlyDir | src/worktree.rs:528-530 | with nothing stray below dst beforehand, every entry below the copied dst comes from the source's subtree |
| Links.CopyStartsFromSource | src/worktree.rs:497-511 | creating the parents and clearing dst leave the metadata of src as it was, when src lies outside dst |
| Links.AsWrittenLinkEntryLosesSource | src/worktree.rs:480-541 | as written, an absolute entry path joins to the same path for src and dst; link_entry then removes the source and leaves a link to itself, or a failed copy |
| Links.LinkEntryKeepsSource | src/worktree.rs:496-541 | the guarded link_entry never removes or replaces the node at src |
| Links.GuardIdleForRelativeEntries | src/worktree.rs:480-494 | for a relative entry and a worktree deeper than the root, the guarded and the as-written link_entry agree |
| Links.LinkEntryIdempotent | src/worktree.rs:496-541 | a second identical link_entry after a successful one succeeds and changes nothing |
| Links.LinkEntryFrame | src/worktree.rs:496-541 | nothing outside dst changes, except new directories above dst |
| Links.LinkEntrySteps | src/worktree.rs:497-511 | on success, the parents exist as directories and the slot is empty when the final step runs |
| Links.ClearUndoesPlace | src/worktree.rs:505-538 | removing what the final step placed into an empty slot gives back the tree it was placed in |
| Links.ClearFrame | src/worktree.rs:505-511 | removing the occupant touches nothing outside dst; a failed removal is modelled as changing nothing, which is stronger than `remove_dir_all` (see "Left out") |
| Links.ClearEmpties | src/worktree.rs:505-511 | after a successful removal nothing is left at dst |
| Links.PlaceShape | src/worktree.rs:513-538 | the tree each of the three final steps leaves in an empty slot: the link, the file src resolves to, or dst and a copy of the source's subtree |
| Links.PlaceFrame | src/worktree.rs:513-538 | the final step touches nothing outside dst |
| Fs.FileSystem.CopyDirRecursive | src/worktree.rs:543-556 | the in-place run equals `CopyDirEffect`: dst is created and the subtree of src is duplicated below it, links as links (see "Left out") |
| Links.LinkFiles | src/worktree.rs:480-494 | the in-place loop equals `LinkFilesEffect`: entries with a missing source are skipped; the first failing entry stops the loop |
| Links.LinkFilesAppend | src/worktree.rs:480-494 | linking a list in two parts: the second part runs only when the first did not fail |
| Links.LinkFilesAborts | src/worktree.rs:491 | once an entry fails, no later entry is attempted |
| FanOut.LinkEntriesToWorktrees | src/worktree.rs:351-388 | git's error with nothing changed, or the tree and report of `FanAll`: every entry whose source exists, linked into every worktree in order, failures recorded and never stopping the sweep |
| FanOut.LinkEachEntry | src/worktree.rs:362-385 | the outer loop equals `FanAll`, and its two lists are the successful and the failed attempts |
| FanOut.LinkIntoEach | src/worktree.rs:371-384 | the inner loop equals `FanEntry` for one entry |
| FanOut.FanAllNothing | src/worktree.rs:358-360 | with no worktrees or no entries, nothing is attempted and nothing changes |
| FanOut.FanEntryShape | src/worktree.rs:371-373 | one attempt per worktree, in worktree order, each at that worktree's copy of the entry |
| FanOut.PresentSourceFansOut | src/worktree.rs:362-385 | an entry whose source exists adds exactly one attempt per worktree, after the earlier attempts |
| FanOut.MissingSourceSkipped | src/worktree.rs:363-370 | an entry whose source is missing adds no attempt and changes nothing |
| FanOut.FanAllAppend | src/worktree.rs:362-385 | entries are handled one after another: the attempts for es1 + es2 are those for es1 followed by those for es2 |
| FanOut.FanStepAppends | src/worktree.rs:362-385 | a step only appends to the attempts already made |
| FanOut.ReportCounts | src/worktree.rs:373-383 | every attempt lands in exactly one of `linked` and `failed` |
| FanOut.ReportAppend | src/worktree.rs:373-383 | both lists keep the attempt order under concatenation |
| FanOut.RemoveSymlinksFromWorktrees | src/worktree.rs:321-349 | git's error with nothing changed, or the tree and report of `UnlinkAll` over the listed worktrees |
| FanOut.UnlinkEach | src/worktree.rs:329-346 | the loop equals `UnlinkAll` |
| FanOut.UnlinkOne | src/worktree.rs:330-345 | a link at the worktree's copy is removed and reported; a failed removal or metadata error is reported; NotFound and non-links are silent |
| FanOut.UnlinkOnlyLinks | src/worktree.rs:333-341 | only symbolic links are deleted: survivors are unchanged, every vanished entry was a link, every reported removal is gone |
| FanOut.UnlinkReportsBounded | src/worktree.rs:329-346 | at most one report line per worktree |
| Import.UniqueImportPath | src/worktree.rs:619-639 | the in-place search equals `UniqueImportPathSpec`: trees/base when free, else trees/base-N for the first free N ≥ 2; "worktree" stands in for an empty base |
| Import.NumberedCandidate | src/worktree.rs:630-638 | the loop answers the candidate with the first free index from 2 |
| Import.UniqueImportPathLeast | src/worktree.rs:619-639 | the path chosen does not exist; it is trees/base if that is free; otherwise every base-2 … base-(N-1) exists |
| Import.UniqueImportPathIsChild | src/worktree.rs:626-633 | the path chosen is a direct child of the trees directory |
| Import.FirstFreeIndexLeast | src/worktree.rs:630-637 | the index found is free and every index before it from the start is taken |
| Import.CandidateBounded | src/worktree.rs:630-637 | only indices below a bound fixed by the tree can be taken, so the search ends |
| Import.NatToStringLength | src/worktree.rs:631 | a number of at least 10^k has more than k decimal digits |
| Import.ImportOne | src/worktree.rs:257-316 | one turn of the loop, in place, equals `ImportOneSpec`: skip the main and the already managed worktrees, else move to the unique path and relink, or record the failed move |
| Import.ImportNext | src/worktree.rs:257-316 | one turn of the loop extends the state of `ImportSteps` by the next listed worktree, and the report by its outcome |
| Import.ImportListed | src/worktree.rs:257-316 | the loop equals `ImportSteps` over the listed worktrees, and the report files each outcome in its list |
| Import.ImportAllWorktrees | src/worktree.rs:249-319 | the run equals `ImportAllSpec`: create the trees directory, list the worktrees (git's error passes through), import each |
| Import.ImportOneClassified | src/worktree.rs:258-315 | each worktree is classified: main if and only if it is the root; already managed if and only if it is below the trees directory; a failed move if and only if git refuses; otherwise moved to a free direct child of the trees directory |
| Import.FailedMoveClassified | src/worktree.rs:288-297 | a refused move is recorded as a failure and nothing is moved |
| Import.MovedClassified | src/worktree.rs:299-314 | an accepted move is recorded with its destination, the unique path, which was free |
| Import.ImportDestination | src/worktree.rs:273-278 | the destination is a free direct child of the trees directory |
| Import.ImportStepsClassified | src/worktree.rs:257-316 | one outcome per listed worktree, in listing order, each classified as above; a relink error never turns a move into a failure |
| Import.ImportMoveCalls | src/worktree.rs:282-286 | `git worktree move` runs once for every worktree that is not skipped |
| Import.ImportOneCalls | src/worktree.rs:258-286 | a skipped worktree costs no git command; any other costs exactly one move |
| Import.ReportCoversAll | src/worktree.rs:257-316 | every outcome is reported in exactly one of moved, skipped and failed |
| Import.ReportOfAppend | src/worktree.rs:259-313 | one more outcome is appended to exactly its own list |
| Import.ImportStepsStep | src/worktree.rs:257-316 | the state after one more worktree is one more loop turn from the state before |
| Ignored.ListIgnoredFiles | src/worktree.rs:48-71 | git's error passes through; otherwise the result is strictly sorted and holds exactly git's non-empty, '/'-free lines |
| Ignored.SortSpec | src/worktree.rs:67 | sorting orders the list and keeps each element as often as it was there |
| Ignored.SortSorted | src/worktree.rs:67 | the sorted list is ordered |
| Ignored.SortCounts | src/worktree.rs:67 | the sorted list is a permutation of its input |
| Ignored.InsertSorted | src/worktree.rs:67 | insertion keeps a sorted list sorted |
| Ignored.InsertCounts | src/worktree.rs:67 | insertion adds exactly one occurrence |
| Ignored.DedupSpec | src/worktree.rs:68 | dedup keeps the same members and the first element, and makes a sorted list strictly sorted |
| Ignored.LexTotal | src/worktree.rs:67 | String order is total |
| Ignored.LexTransitive | src/worktree.rs:67 | String order is transitive |
| Ignored.LexIrreflexive | src/worktree.rs:67 | String order is irreflexive |
| Config.DefaultLinkType | src/config.rs:17-21 | the default link type is Symlink |
| Config.DefaultConfig | src/config.rs:38-49 | the default configuration: main branch "main", no files |
| Config.FileEntryFromFields | src/config.rs:23-28 | a missing link_type takes the default, Symlink |
| Config.ConfigFromFields | src/config.rs:30-36 | a missing main_branch is "main", missing files are empty |
| Config.Load | src/config.rs:52-62 | an absent config file gives the default configuration; otherwise the stored read-and-parse result |
| Config.TreesDir | src/config.rs:77-79 | the trees directory is root/.epi/trees |
| Config.RootOutsideTrees | src/config.rs:77-79 | the root never lies inside its own trees directory |
| Config.GitdirRootOfLinkedWorktree | src/config.rs:89-101 | the .git file git writes into a linked worktree, "gitdir: <root>/.git/worktrees/<name>" and a newline, names the root of the main checkout |
| Config.FindProjectRoot | src/config.rs:81-116 | "not in a git repository" if and only if no ancestor of cwd holds .git; otherwise the nearest one decides the root (for a .git file, the gitdir minus .git/worktrees/<name>, else the directory) |
| Config.TrimStart | src/config.rs:94 | the result is a suffix of the input, every removed character is whitespace, and the result does not start with whitespace |
| Config.TrimEnd | src/config.rs:94 | the result is a prefix of the input, every removed character is whitespace, and the result does not end with whitespace |
| Cli.FilesAdd | src/main.rs:156-169 | refused with AlreadyConfigured if and only if the path is listed; otherwise the entry is appended with Copy exactly when --copy is given, and nothing else changes |
| Cli.FilesRemove | src/main.rs:174-179 | refused with NotConfigured if and only if the path is not listed; otherwise the list is `Retain` of the old one: exactly the entries with other paths, in their order |
| Cli.RetainAppend | src/main.rs:176 | `retain` works entry by entry: on a concatenation it retains each part, so order and repetitions are kept |
| Cli.RetainSingle | src/main.rs:176 | a single entry is kept exactly when its path differs |
| Cli.RetainLength | src/main.rs:175-179 | `retain` leaves the length unchanged exactly when no entry has the path, so the length test detects an absent path |
| Cli.RetainMembers | src/main.rs:176 | `retain` keeps exactly the entries with another path |
| Cli.RetainUnique | src/main.rs:176 | `retain` keeps paths unique |
| Cli.FilesAddRemove | src/main.rs:156-180 | adding a path and removing it again gives back the configuration |
| Cli.FilesEditsKeepUnique | src/main.rs:156-180 | both edits keep the paths of the file list unique |
| Cli.AddCommand | src/main.rs:106-119 | the run equals `AddCommandSpec`: load the configuration, check the main branch, then add_worktree |
| Cli.AddNeedsMainBranch | src/main.rs:111-113 | off the main branch, `add` fails, changes nothing and never asks git to add a worktree |
| Cli.AddOnMainBranch | src/main.rs:111-113 | on the main branch, `add` is add_worktree preceded only by the branch query |
| Cli.RelinkCommand | src/main.rs:138-143 | the run equals `RelinkCommandSpec`: resolve the name, load the configuration, relink |
| Cli.RelinkFromInside | src/main.rs:138-143 | without a name, `relink` from inside a managed worktree relinks that worktree |
| Cli.EnterTarget | src/main.rs:145-150 | the target exists; it lies below the trees directory unless the name given is absolute, in which case it is that path; with a name it is found if and only if the joined path exists, without one if and only if cwd is inside a worktree; failures are the resolution, missing-worktree or listing errors |
| Cli.EnterContainsCwd | src/main.rs:145-150 | without a name, `enter` goes to the worktree that contains the current directory |
| Paths.ParseRender | src/worktree.rs:185-195 | displaying a path and parsing the text back gives the same components |

## Left out

- Running git and the shell: commands are not executed. Their answers are parameters (`GitAnswers`), and their argument vectors are returned. `enter_worktree`, `select_worktree_name`, the interactive prompt and `format_worktree_list` are not part of this model.
- `Commands::Remove`: only its name resolution (`Worktrees.ResolveWorktreeName`) is modelled; `remove_worktree` is not part of this model. `Commands::Init`, `Commands::List` and `files list` only write to the terminal and are left out.
- Reading and parsing `.epi/config.toml` (TOML) and `Config::save`: `Config.Load` takes the stored read-and-parse result as a parameter. `files add` and `files remove` are modelled as the edit of the in-memory configuration, not the write.
- `std::env::current_dir` is a parameter (`cwd`) of the members that use it.
- Error texts: errors are constructors carrying their data. The failed-move message keeps its fixed prefix and drops git's stderr, and I/O errors are not rendered as strings.
- `fs::read_dir` order: a directory is copied as a whole subtree, so the order of its entries is not modelled. When copying a directory fails halfway, the partial copy is not modelled either: the copy happens in full or fails before it starts.
- Permissions: reduced to a fixed set of read-only directories. Metadata follows a symbolic link to a non-link (one hop), and a symlinked ancestor blocks a path instead of being followed.
- Fs.FileSystem.CopyDirRecursive: symbolic links inside a copied directory are copied as links. The source follows them: a link to a directory is copied as a directory, a link to a file as a regular file, and a dangling link makes the copy fail. The model captures none of this. The top-level source may still be a link to a directory.
- Paths: `..` is not normalised, and every path the model handles is absolute (a relative current directory does not arise). A relative `gitdir:` in a `.git` file is read as absolute. Trimming covers ASCII whitespace only.
- The `.git` file that `git worktree add` writes: a successful add is modelled as the worktree directory appearing (`Fs.FileSystem.Materialize`).
- Windows symlink calls (`symlink_dir`, `symlink_file`) are left out; only the Unix branch is modelled.
- Import.UniqueImportPath: requires that the base name contains no '/'. The source accepts any string, but its only caller passes `file_name()`, which never contains one.
- Config.FindProjectRoot: a `.git` file that exists but cannot be read is not modelled (the read always succeeds), so that error branch of the source is absent.
- Ignored.ListIgnoredFiles: git's output is given already split into lines; `str::lines` itself is not modelled.
- Porcelain.ListGitWorktrees: the same; the porcelain output is given already split into lines, and `str::lines` is not modelled.
- Worktrees.GetWorktreePath: the `git worktree list` it runs on its error path is not among any returned calls; only its answer (`GitAnswers.listing`) decides the error.
- Worktrees.ResolveWorktreeName: the listing it runs to build the "not inside a worktree" message is not modelled; its outcome changes only that message's text, never the result.
- Fs.FileSystem.RemoveDirAll: a recursive removal that meets a read-only directory fails before it changes anything (`Fs.RemoveDirAllEffect`). `std::fs::remove_dir_all` removes entries depth-first and fails only at the first entry it cannot unlink. When only the parent of the directory is read-only, the directory is emptied and then left in place. When a read-only directory lies inside it, whatever was reached first in `read_dir` order is already gone. `Links.LinkEntry` and `Links.LinkEntryEffect` inherit this when clearing dst fails.
- Links.ClearFrame: its clause "a failed removal changes nothing" holds for the all-or-nothing removal above, not for the partial removal the source can leave behind.
- Import.NumberedCandidate: the index in `unique_import_path` is an `i32` starting at 2; the model counts over unbounded naturals, so the overflow after 2^31 - 2 taken candidates is not modelled.
- Import.ImportOne: the relink error is the model's error value, not the "relink failed: …" text the source stores.

## Findings

| source | as written | input that shows it | evidently intended | confidence | as-written member | corrected member |
|---|---|---|---|---|---|---|
| src/worktree.rs:480-541 | `link_files` joins the entry path onto both the root and the worktree. For an absolute entry path `Path::join` gives the same path twice. `link_entry` then removes the occupant of dst, which is the source itself, before linking or copying it. | `files add /a/f` with /a/f a regular file, then `add` or `relink`: /a/f becomes a link to itself (symlink entry), or is removed and the copy fails with NotFound (copy entry) | `link_entry` never removes its own source; a destination that is the source or one of its ancestors is refused | not executed; the loss follows from the std::fs semantics modelled here | Links.AsWrittenLinkEntryLosesSource | Links.LinkEntryKeepsSource |
