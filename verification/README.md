# sb-babel-cli core, modelled in Dafny

sb-babel-cli mirrors a source tree into an output tree. It transpiles each
changed file with Babel and can supervise a child program that it restarts
when sources change. This project models the logic under its file-system,
watcher, Babel and process calls, and proves what that logic promises.

- `common.dfy` (module `Common`): absolute paths as sequences of segments,
  plus the few `path` and `String.prototype` operations the core relies on.
  These are `join`, `relative`, `extname`, `basename`, `endsWith`,
  `indexOf` and `trim`.
- `filetree.dfy` (module `FileTree`): source listings as a tree of entries
  (`File | Dir | Symlink | Special`), and the output volume as a map from
  paths to kinds. The volume is held by the class `Disk`, whose `Delete`,
  `MakeDir` and `DeleteChildren` change it in place.
- `iterate_ts.dfy` (module `IterateTs`): one level of `src/iterate.ts`, and
  the walk. The walk recovers an output path that is not a directory. It
  then sweeps the output entries the whitelist does not protect, classifies
  each source entry, creates the output directory lazily, calls the
  callback and recurses.
- `iterate_js.dfy` (module `IterateJs`): the older Flow variant
  `src/iterate.js`, with the `filesToKeep` that `src/index.js` supplies.
- `helpers.ts` as `helpers.dfy` (module `Helpers`): config values as a JSON
  datatype, `validateConfig`, the manifest/command-line merge of
  `loadConfigFromRoot`, and `posixifyPath`.
- `index.dfy` (module `Index`): the orchestration of `main`. It covers the
  longest-first sort of the extension list, `getOutputFilePath`, the
  restart counter, the gated `execute`, the skip test of the initial pass,
  and the cache write of `processFile`. The class `Session` holds the
  variables of `main` that the watcher events, the `rs` line, the queue and
  the debounce timer update.

These become parameters and are not computed:
- the glob matcher (`anymatch`) is an uninterpreted predicate;
- sha1 is an uninterpreted function;
- the Babel transform, file reads, the outcome of each write and of
  `spawn` are parameters of the event methods.

The transformation queue runs one job at a time, in order. The debounced
`execute` is an armed flag, and an explicit timer event (`Fire`) runs it.

## Model

| member | source | states |
|---|---|---|
| Common.JoinedBasename | src/iterate.ts:47-69 | joining a plain name onto a directory keeps that name as the base name, and its extension as the extension, of the joined path |
| Common.RelativeBelow | src/iterate.ts:57 | below the root, `path.relative(root, p)` is the remaining segments joined by separators |
| Common.IndexOf | src/helpers.ts:81 | `indexOf` gives the first position holding the item, or -1 exactly when the item is absent |
| Common.BasenameFollowsLastSep | src/index.ts:94 | `path.basename` is everything after the last separator: a separator-free suffix that is the whole path or follows a separator |
| Common.ExtName | src/iterate.ts:63 | a non-empty `path.extname` runs from the last '.' of the base name to its end, and does not cover the whole base name |
| Common.ExtNameEmptyIff | src/iterate.ts:63 | `path.extname` is empty exactly when the base name is ".." or has no '.' after its first character |
| Common.TrimStart | src/index.ts:165 | what is left is a suffix that does not start with white space, and every character removed before it is white space |
| Common.TrimEnd | src/index.ts:165 | what is left is a prefix that does not end with white space, and every character removed after it is white space |
| FileTree.Names | src/iterate.ts:19 | `readdir` gives the entry names in listing order |
| FileTree.Children | src/iterate.ts:37 | the names listed in a directory are exactly those whose joined path exists |
| FileTree.Listing | src/iterate.ts:37 | every name listed exists below the output directory; on a well-formed volume the listing is every child of the path; an absent path lists nothing |
| FileTree.Removed | src/iterate.ts:32 | `del(p)` removes `p` and everything below it, and nothing else: `p` is gone, and its parent's children lose exactly its name |
| FileTree.Swept | src/iterate.ts:39-45 | the sweep removes the named children with their subtrees and keeps every other path; the children left are the old ones minus the names |
| FileTree.Recovered | src/iterate.ts:28-37 | an output path that is a file is removed; otherwise the volume is unchanged; nothing outside that path changes |
| FileTree.Made | src/iterate.ts:65-68 | `makeDir(d)` adds `d` and its missing ancestors as directories and keeps every existing path as it was |
| FileTree.RemovedKeepsTree | src/iterate.ts:32 | removing a subtree keeps every ancestor of an existing path a directory |
| FileTree.SweptKeepsTree | src/iterate.ts:44 | the sweep keeps every ancestor of an existing path a directory |
| FileTree.MadeKeepsTree | src/iterate.ts:66 | creating a directory under directories keeps every ancestor of an existing path a directory |
| FileTree.RemovedChildIsSwept | src/iterate.js:54 | deleting one more child after a sweep is the sweep of one more name, so deleting in series is the sweep |
| FileTree.KeptOutsideMade | src/iterate.ts:65-68 | a lazy `makeDir` of the output directory keeps every path the level kept, adding only that directory and its ancestors |
| FileTree.KeptOutsideChild | src/iterate.ts:71-83 | a recursive call confined to one sub-directory keeps everything outside the sub-directories descended into |
| FileTree.OnlyBelowFromKept | src/iterate.ts:19-84 | a level whose sweep and entries change only the output directory's subtree leaves every other path as it was |
| FileTree.ReadyAfterChild | src/iterate.ts:71-83 | a recursive call, which changes only its own sub-directory, leaves the parent level ready for its next entry |
| FileTree.Disk.constructor | src/iterate.ts:21-24 | the disk starts with the given volume |
| FileTree.Disk.Delete | src/iterate.ts:32 | the volume becomes `Removed` of the old volume |
| FileTree.Disk.MakeDir | src/iterate.ts:66 | the volume becomes `Made` of the old volume |
| FileTree.Disk.DeleteChildren | src/iterate.js:54 | deleting the names one after the other leaves the `Swept` volume |
| IterateTs.Classify | src/iterate.ts:49-63 | an entry is visited iff it is a file, not ignored by any of the three tests, with a listed extension; it is descended into iff it is a directory and not ignored; symlinks and ignored entries are skipped |
| IterateTs.CallsAreReachedFiles | src/iterate.ts:46-84 | the callbacks of a walk are exactly the calls for the files it reaches through non-ignored directories |
| IterateTs.KeepExtraFilesIsAdditive | src/iterate.ts:39 | with `keepExtraFiles` the level removes nothing but an output path that is not a directory |
| IterateTs.SweepKeepsExactlyWhitelist | src/iterate.ts:39-45 | the output children left are exactly the old ones in the whitelist, each with its whole subtree |
| IterateTs.WhitelistPrecedesFilters | src/iterate.ts:40-63 | a source name that `filesToKeep` keeps protects its mapped output name, even when it is a symlink, ignored or of another extension |
| IterateTs.CallsAreAccepted | src/iterate.ts:49-70 | every callback is for a regular file, not ignored, with a listed extension, at the same relative path below the source and output directories |
| IterateTs.EntryCallsAreAccepted | src/iterate.ts:46-84 | the callbacks one entry leads to are all accepted |
| IterateTs.SubCallsAccepted | src/iterate.ts:71-83 | the callbacks of a sub-directory's walk are accepted at the parent level |
| IterateTs.AcceptedOneLevelUp | src/iterate.ts:76-77 | a file accepted below a sub-directory is accepted one level up at the longer relative path |
| IterateTs.EntryCallsInPlace | src/iterate.ts:69-83 | a visited file produces the call `(join(src, name), getOutputFilePath(join(out, name)), stat)`; a directory contributes its own walk's calls |
| IterateTs.PrepareLevel | src/iterate.ts:19-45 | returns whether the output directory existed; the volume becomes the sweep of the recovered volume, and stays a tree |
| IterateTs.Iterate | src/iterate.ts:8-85 | the calls are those of the reference walk, in listing order; the output directory is created at most once, exactly when it was missing and some file passes every filter, and exists afterwards; every path the sweep left stays, with its kind, outside the sub-directories descended into, where nothing appears but the output directory and its ancestors; nothing outside the output directory changes |
| IterateTs.VisitAll | src/iterate.ts:46-84 | the `pMap` over the listing makes the reference calls, creates the output directory only for the first visited file, and changes the prepared volume only inside the sub-directories descended into and by that one `makeDir` |
| IterateTs.KeptAfterEntry | src/iterate.ts:46-84 | after one more entry of the `pMap`, every path the sweep left is still there, with its kind, outside the sub-directories descended into so far, this entry's included |
| IterateTs.VisitEntry | src/iterate.ts:46-84 | one entry yields its reference calls; a visited or skipped entry leaves the volume as it was, except that the first visited file runs `makeDir` on the output directory; a descended directory changes only its own output sub-directory |
| IterateTs.VisitFile | src/iterate.ts:65-70 | a file that passes every filter gets the output directory created first, exactly when it is not known to exist, and then its callback with the output path rewritten by `getOutputFilePath` |
| IterateTs.VisitDir | src/iterate.ts:71-83 | the recursive walk of a sub-directory makes that sub-walk's reference calls, keeps the volume a tree, and changes nothing outside the output sub-directory but its missing ancestors |
| IterateJs.Classify | src/iterate.js:59-77 | an entry is visited iff it is a file that is not ignored, whatever its extension; it is descended into iff it is a directory and not ignored |
| IterateJs.CallsAreReachedFiles | src/iterate.js:56-88 | the callbacks of a walk are exactly the calls for the files it reaches |
| IterateJs.KeepExtraFilesIsAdditive | src/iterate.js:49 | with `keepExtraFiles` the level removes nothing but an output path that is not a directory |
| IterateJs.SweepKeepsExactlyFilesToKeep | src/iterate.js:49-55 | the output children left are exactly the old ones that `filesToKeep` returns, each with its subtree |
| IterateJs.WhitelistPrecedesFilters | src/iterate.js:50-70 | a name `filesToKeep` keeps is never deleted, even for a symlink or ignored entry |
| IterateJs.CallsAreMirrored | src/iterate.js:56-88 | every callback is for a non-ignored regular file, and its output path is the source path with the source directory replaced by the output directory |
| IterateJs.EntryCallsAreMirrored | src/iterate.js:56-88 | the callbacks one entry leads to are all mirrored |
| IterateJs.SubCallsMirrored | src/iterate.js:77-86 | the callbacks of a sub-directory's walk are mirrored at the parent level |
| IterateJs.MirroredOneLevelUp | src/iterate.js:80-81 | a file mirrored below a sub-directory is mirrored one level up at the longer relative path |
| IterateJs.FlowSourcesSurviveSweep | src/index.js:14 | with Flow sources written, the sweep of `src/iterate.js:49-55` deletes neither a source name nor its ".flow" companion |
| IterateJs.FlowFilesToKeepContents | src/index.js:14 | that `filesToKeep` keeps exactly the source names and, with `writeFlowSources`, each name plus ".flow" |
| IterateJs.PrepareLevel | src/iterate.js:31-55 | returns whether the output directory existed; the series of deletions leaves the sweep of the recovered volume, before any entry is processed |
| IterateJs.Iterate | src/iterate.js:14-89 | the calls are those of the reference walk, in listing order; the output directory is created at most once, exactly when missing and some file is visited, and exists afterwards; every path the sweep left stays, with its kind, outside the sub-directories descended into, where nothing appears but the output directory and its ancestors; nothing outside the output directory changes |
| IterateJs.VisitAll | src/iterate.js:56-88 | the `pMapSeries` over the listing makes the reference calls, creates the output directory only before the first visited file, and changes the prepared volume only inside the sub-directories descended into and by that one `mkdirp` |
| IterateJs.KeptAfterEntry | src/iterate.js:56-88 | after one more entry of the `pMapSeries`, every path the deletions left is still there, with its kind, outside the sub-directories descended into so far, this entry's included |
| IterateJs.VisitEntry | src/iterate.js:56-88 | one entry yields its reference calls; a visited or skipped entry leaves the volume as it was, except that the first visited file runs `mkdirp` on the output directory; a descended directory changes only its own output sub-directory |
| IterateJs.VisitFile | src/iterate.js:72-76 | a non-ignored file gets `mkdirp` on the output directory first, exactly when it is not known to exist, and then its callback at the mirrored output path |
| IterateJs.VisitDir | src/iterate.js:77-87 | the recursive walk of a sub-directory makes that sub-walk's reference calls, keeps the volume a tree, and changes nothing outside the output sub-directory but its missing ancestors |
| Helpers.Keys | src/helpers.ts:84 | `Object.keys` lists the member keys in order |
| Helpers.Get | src/helpers.ts:167 | a property read is absent exactly when the key is not among the keys |
| Helpers.SplitJoinsBack | src/helpers.ts:15 | `split(sep)` is a round trip: no part holds the separator, and joining the parts with it gives the input back |
| Helpers.ReplaceChar | src/helpers.ts:15 | every occurrence of one character is replaced, and every other character is kept |
| Helpers.PosixifyReplacesSeparators | src/helpers.ts:14-16 | `split(sep).join('/')` replaces every separator by '/' and keeps every other character |
| Helpers.PosixifyPathOnPlatforms | src/helpers.ts:14-16 | on a '/' platform the path is unchanged; otherwise no platform separator remains; the length is kept |
| Helpers.Splice | src/helpers.ts:81 | `splice(start, 1)` removes the element at `start`; with -1 it removes the last element |
| Helpers.ExtraKeys | src/helpers.ts:85 | the extra keys are exactly the received keys that are not valid, and no more of them than received |
| Helpers.ExtraKeysAppend | src/helpers.ts:85-87 | the filter keeps the config's key order: filtering a concatenation is filtering each part in turn, which fixes the order of the joined message |
| Helpers.SpliceExcluded | src/helpers.ts:78-82 | the four splices in order leave `ValidKeys` |
| Helpers.ValidateConfig | src/helpers.ts:72-144 | the issues are the malformed-root message alone for a non-object; otherwise the unknown-keys issue (if any) followed by the failing checks' messages in check order |
| Helpers.TypeIssueIffFails | src/helpers.ts:90-140 | with distinct messages, a check's message is reported iff that check fails |
| Helpers.ChecksMessagesDistinct | src/helpers.ts:90-140 | the twelve fixed messages are pairwise distinct |
| Helpers.ValidateReportsBadField | src/helpers.ts:90-140 | each typed field's message is reported iff the field is present, not null and of the wrong type |
| Helpers.SourceMapsAccepted | src/helpers.ts:105-107 | `sourceMaps` raises no issue iff it is absent, null, a boolean or exactly "inline" |
| Helpers.UnknownKeysReported | src/helpers.ts:84-88 | the unknown keys are exactly the config keys outside the valid keys; no unknown-keys issue when there are none; otherwise one issue listing them, joined by ", ", before the type issues |
| Helpers.SplicePresent | src/helpers.ts:81 | splicing out a present key of a distinct list removes exactly that key |
| Helpers.SplicePresentDistinct | src/helpers.ts:81 | splicing out a present key keeps the list distinct |
| Helpers.SplicePresentLast | src/helpers.ts:81 | splicing out a present key other than the last keeps the last key last |
| Helpers.SpliceAbsentDropsLast | src/helpers.ts:81 | splicing out an absent key removes the last key, because `indexOf` gives -1 |
| Helpers.SpliceAllPresent | src/helpers.ts:80-82 | splicing out present distinct keys removes exactly them and keeps the list distinct |
| Helpers.SpliceAllKeepsLast | src/helpers.ts:80-82 | splicing out present keys that exclude the last keeps the last key last |
| Helpers.ValidKeysWhenAllPresent | src/helpers.ts:78-82 | when the four excluded keys are all present, the valid keys are exactly the other keys |
| Helpers.ValidKeysWithoutSpecifiedArgs | src/helpers.ts:78-82 | when `specifiedArgs` is absent, the valid keys also lose the last key |
| Helpers.ProgramArgsReportedUnknown | src/helpers.ts:78-88 | with the keys the command line builds, `programArgs` is not valid, and a section holding only `programArgs` is reported as unknown |
| Helpers.Includes | src/helpers.ts:177 | `specifiedArgs.includes(key)` throws exactly when `specifiedArgs` is neither an array nor a string |
| Helpers.SetMember | src/helpers.ts:178 | assigning a property keeps the key order, and appends the key when it is new |
| Helpers.SetMemberGet | src/helpers.ts:178 | after the assignment the key reads as the new value and every other key reads as before |
| Helpers.NewKeys | src/helpers.ts:175-181 | the new keys are exactly the command-line keys the manifest lacks |
| Helpers.NewKeysAppend | src/helpers.ts:175-181 | the new keys keep command-line order: those of a concatenation are those of each part in turn |
| Helpers.MergeStep | src/helpers.ts:176-180 | one key of the merge keeps the merge invariant; the copy lacks the key iff the manifest section does |
| Helpers.MergeConfig | src/helpers.ts:175-181 | the merge throws iff the first key's `includes` throws; otherwise the keys are the manifest's then the new command-line keys, and each key reads from the command line iff it overrides, else from the manifest |
| Helpers.LoadConfigFromRoot | src/helpers.ts:146-185 | the command-line config comes back unchanged without a usable manifest, without a non-null section, or when the section has any issue; otherwise the result is the merge |
| Helpers.MissingSpecifiedArgsThrows | src/helpers.ts:177 | a command-line config without `specifiedArgs` makes the first `includes` throw |
| Index.SortLongestFirst | src/index.ts:42 | after the in-place sort no extension is shorter than one after it, and the list is a permutation of the old one |
| Index.Insert | src/index.ts:42 | one insertion step extends the sorted prefix by one, permutes the array and leaves the elements after position `i` untouched |
| Index.FindExt | src/index.ts:54 | `find` returns a listed extension that ends the path, and none exactly when no listed extension ends it |
| Index.FindExtFirstMatch | src/index.ts:54 | `find` returns the first match: no extension listed before the one returned ends the path |
| Index.FindExtLongest | src/index.ts:42-54 | on a longest-first list `find` returns the longest extension that ends the path |
| Index.FindExtOrderIrrelevant | src/index.ts:42-54 | longest-first lists with the same extensions find the same one, so the order among equal lengths does not matter |
| Index.OutputFilePathReplacesLongest | src/index.ts:42-59 | after the sort the longest matching extension is replaced by the output extension, keeping the prefix; a path no extension ends is unchanged |
| Index.OutputFilePathMoves | src/index.ts:53-59 | when the extension found is not the output one, the rewritten path differs from the original |
| Index.SliceTo | src/index.ts:56 | `slice(0, end)` is the prefix whose length is `end` clamped to the string, with a negative `end` counted from the end and clamped at 0 |
| Index.AsWrittenAgreesOnNonEmpty | src/index.ts:56 | the code as written agrees with the corrected rewrite whenever the extension found is not empty |
| Index.EmptyExtensionDropsPath | src/index.ts:56 | with the extension list `[""]`, the code as written turns "/out/a" into ".js"; the corrected rewrite gives "/out/a.js" |
| Index.Bump | src/index.ts:61-63 | after one or more increments the counter is in [0, 1024) |
| Index.BumpIsModular | src/index.ts:61-63 | from a value in range, `n` increments add `n` modulo 1024 |
| Index.RefiresAfterIncrements | src/index.ts:110-117 | after starting at counter `r`, `execute` starts again after `n` increments iff `r` is 0 or `n` is not a multiple of 1024 |
| Index.SuccessMakesFresh | src/index.ts:97-107 | a file processed to the end passes the skip test of the next initial pass while its contents stay the same |
| Index.CacheOnlyOnSuccess | src/index.ts:76-108 | the cache changes only when the transform gave code and every write completed; an unlisted extension or no code changes nothing |
| Index.SourceMapsWritten | src/index.ts:89-105 | with `sourceMaps` true the output ends with the comment naming the map file, which holds the map; otherwise the output is the code and no map file is written |
| Index.SpawnArgs | src/index.ts:130 | the arguments are the node arguments as a prefix, then the command, then the program arguments as the rest |
| Index.RestartTracksOne | src/index.ts:119-134 | killing the tracked child before spawning leaves only the new child tracked, or none when `spawn` threw |
| Index.Session.constructor | src/index.ts:42-46 | the extension list is sorted longest first in place, the counters are 0, no child runs |
| Index.Session.IncrementRestartId | src/index.ts:61-63 | the counter becomes `(restartId + 1) % 1024` and stays in range |
| Index.Session.InitialCallback | src/index.ts:143-153 | a file is skipped iff its output exists and the cache holds the hash of its contents; otherwise a job with the contents read is queued |
| Index.Session.StartWatching | src/index.ts:215-216 | watch mode starts, and `execute` is called once |
| Index.Session.OnAddOrChange | src/index.ts:177-206 | a job for the joined source path and the rewritten joined output path is queued, with the rewrite corrected as under Findings |
| Index.Session.RunNextJob | src/index.ts:181-185 | the first job is removed and processed; a watcher job whose read failed processes nothing; in watch mode a queue that runs empty calls `execute` |
| Index.Session.JobSettled | src/index.ts:186-190 | after a watcher job settles, the counter is incremented unless `ignoredForRestart` matches the posixified source path |
| Index.Session.OnStdin | src/index.ts:164-169 | a chunk that trims to "rs" increments the counter and calls `execute`; anything else changes nothing |
| Index.Session.OnUnlink | src/index.ts:207-213 | the joined output path, not rewritten, is removed; a missing file is no error |
| Index.Session.Fire | src/index.ts:110-138 | a pending `execute` with a command and a moved counter records the counter, kills the tracked child and spawns the program; otherwise nothing but the pending flag changes |
| Index.UnlinkLeavesRewrittenOutput | src/index.ts:207-213 | when the rewrite moves the output, removing the unrewritten path leaves the compiled output in place |

## Left out

- File-system I/O (`readdir`, `stat`, `lstat`, `del`, `rimraf`, `makeDir`, `writeFile`, `unlink`) works on an in-memory volume. Errors from these calls other than those listed below are not modelled. File modes are not modelled.
- Output files live in `Index.Store.files`, keyed by path string. The walk's `Disk` and the `Store` are separate: the directories a write creates are not tracked there.
- `readFile` in the initial callback is assumed to succeed: the contents are a parameter. A failing read in a watcher job is the `None` case of `read`.
- Glob semantics of `anymatch` and the `ignored` patterns are out of scope: the matcher is an uninterpreted predicate.
- sha1 (`getSha1`), lowdb persistence and `getCacheDB` are left out: the hash is an uninterpreted function, and the cache is a map.
- The Babel transform and `getBabelCore` are left out: the transform's result is a parameter.
- IterateTs.Iterate: `pMap` (iterate.ts:46) runs the entries of a level concurrently, and `outputDirectoryExists` is set only after `makeDir` resolves (iterate.ts:65-67). The model runs them one after the other. So "in listing order" and "at most once" hold for that schedule only. In a real run, several files of one level may each call `makeDir`, which is harmless because it is idempotent, and a sub-directory's callbacks may interleave with the level's own. `src/iterate.js` runs in series, so its claims are exact.
- Concurrency is sequentialised. `pMap`, `Promise.all` and the queue's concurrency run one step after the other, in order. `Session` events are atomic, and the caller calls `JobSettled` after the `RunNextJob` that returned the job.
- The debounce timer is the `armed` flag plus the `Fire` event. The delay is not modelled.
- The command-line glue (`src/cli/index.ts`) is not part of this model. Its key list is the constant `Helpers.CliKeys`.
- `main`'s early exits are not modelled: `printConfig`, `execute` without `watch`, and a missing output directory (index.ts:21-36).
- Logging (`log`, `logError`, the `printConfig` output, and the warnings of `loadConfigFromRoot`) is not modelled.
- Prototype keys of JavaScript objects are not modelled. Neither is the JavaScript rule that lists integer-like keys first in `Object.keys`: keys are kept in insertion order.
- `String.prototype.trim` is modelled with the ASCII white space and a few common Unicode spaces. The full Unicode space set is not included.
- `index.ts:140-154` passes `{config, getOutputFilePath, callback}` to `iterate`, which destructures flat fields. `IterateTs` models `iterate` against its own parameter list.
- `Settings.outputFileExtension` is a parameter. The command line never sets it, so at run time the template in `getOutputFilePath` inserts the text "undefined".
- Helpers.ValidateConfig: the twelve consecutive type checks are a loop over the table `Checks`, which holds the same keys, types and messages in the same order.
- Index.Session.OnUnlink: `add` and `change` rewrite the output path with `getOutputFilePath` (index.ts:183, 198), but `unlink` removes the joined output path without rewriting it (index.ts:207-213). The model follows the code, and `UnlinkLeavesRewrittenOutput` shows that the compiled output stays behind.
- Helpers.LoadConfigFromRoot: the command line builds its config without `specifiedArgs`. The merge therefore throws on any section that passes validation (`MissingSpecifiedArgsThrows`), and the excluded-key splice drops `programArgs` (`ProgramArgsReportedUnknown`). Both are modelled as written.
- Index.Session.OnAddOrChange: the queued output path uses the corrected rewrite `OutputFilePath`, as does `Index.Session.GetOutputFilePath`. For an empty listed extension this differs from index.ts:56, whose result is the output extension alone (see Findings). For every other input, `AsWrittenAgreesOnNonEmpty` proves the two equal.
- Index.Session.GetOutputFilePath: is the corrected `OutputFilePath`, not index.ts:53-59 as written. It does not promise the code's result for an empty listed extension, which is the output extension alone (`EmptyExtensionDropsPath`). Elsewhere `AsWrittenAgreesOnNonEmpty` proves the two equal.
- `Common.Sep` is always '/': `join`, `basename` and `extname` are modelled for POSIX only. Only `posixifyPath` takes the platform separator as a parameter.
- `Session` does not run the initial walk itself. The initial pass's callbacks are `InitialCallback` events, which the walk in `IterateTs` produces.

## Findings

| source | as written | input that shows it | evidently intended | confidence | as-written member | corrected member |
|---|---|---|---|---|---|---|
| src/index.ts:56 | `filePath.slice(0, -1 * foundExt.length)` with an empty extension slices to -0, which is 0, so the whole path is dropped | extensions `[""]`, output extension ".js", path "/out/a" gives ".js" | the extension is replaced and the path kept: "/out/a.js" | low; not executed; the command line filters out empty extensions, so only a config given through the API or a manifest reaches it | Index.EmptyExtensionDropsPath | Index.OutputFilePathReplacesLongest |
