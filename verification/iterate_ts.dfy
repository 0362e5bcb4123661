/**
 * One level of the recursive tree walk of `src/iterate.ts`, and the walk
 * itself: recover from an output path that is not a directory, sweep the
 * output entries that no source entry protects, then go through the source
 * listing in order, skipping symlinks, ignored entries and files with an
 * extension outside the list, creating the output directory lazily before
 * the first callback, and recursing into directories.
 *
 * The concurrent `Promise.all` sweep and `pMap` loop are run one step after
 * the other, in listing order.
 */
module IterateTs {
  import opened Common
  import opened FileTree

  /** The parameter object of `iterate`, without the callback (whose calls are the result). */
  datatype Options = Options(
    extensions: seq<string>,
    getOutputFilePath: string -> string,
    rootDirectory: Path,
    ignored: Option<string -> bool>,  // None: a falsy `ignored`; the glob matcher is left uninterpreted
    keepExtraFiles: bool,
    filesToKeep: seq<string> -> seq<string>)

  /** One invocation `callback(sourceFile, outputFile, stat)`. */
  datatype Call = Call(sourceFile: string, outputFile: string, stat: Node)

  /** The output names the sweep must not delete: `filesToKeep(contents).map(getOutputFilePath)`. */
  function Whitelist(o: Options, contents: seq<string>): (r: set<string>)
    ensures forall n :: n in o.filesToKeep(contents) ==> o.getOutputFilePath(n) in r
    ensures forall m :: m in r ==> exists n :: n in o.filesToKeep(contents) && m == o.getOutputFilePath(n)
  {
    set n | n in o.filesToKeep(contents) :: o.getOutputFilePath(n)
  }

  /** The output names the sweep of a level deletes. */
  function Doomed(o: Options, v: Volume, outDir: Path, contents: seq<string>): (r: set<string>)
    ensures o.keepExtraFiles ==> r == {}
    ensures !o.keepExtraFiles ==> r == Listing(v, outDir) - Whitelist(o, contents)
  {
    if o.keepExtraFiles then {} else Listing(v, outDir) - Whitelist(o, contents)
  }

  /** The ignore test: the bare name, the joined path and the path relative to the root. */
  predicate IsIgnored(o: Options, filePath: Path)
  {
    match o.ignored
    case None => false
    case Some(matches) =>
      filePath != [] &&
      (matches(filePath[|filePath| - 1]) || matches(Str(filePath)) || matches(Relative(o.rootDirectory, filePath)))
  }

  /** What the walk does with one source entry. */
  datatype Action = SkipSymlink | SkipIgnored | SkipExtension | SkipOther | Visit | Descend

  function Classify(o: Options, srcDir: Path, e: Entry): (a: Action)
    ensures a == Visit <==> e.node.File? && !IsIgnored(o, srcDir + [e.name]) && ExtName(e.name) in o.extensions
    ensures a == Descend <==> e.node.Dir? && !IsIgnored(o, srcDir + [e.name])
    ensures e.node.Symlink? ==> a == SkipSymlink
    ensures !e.node.Symlink? && IsIgnored(o, srcDir + [e.name]) ==> a == SkipIgnored
  {
    if e.node.Symlink? then SkipSymlink
    else if IsIgnored(o, srcDir + [e.name]) then SkipIgnored
    else if e.node.File? then (if ExtName(e.name) in o.extensions then Visit else SkipExtension)
    else if e.node.Dir? then Descend
    else SkipOther
  }

  /** The callback a visited file receives. */
  function CallFor(o: Options, srcDir: Path, outDir: Path, e: Entry): Call
  {
    Call(Str(srcDir + [e.name]), o.getOutputFilePath(Str(outDir + [e.name])), e.node)
  }

  /** The callbacks of the walk over the first `k` entries of `dir`, in order. */
  function LevelCalls(o: Options, srcDir: Path, outDir: Path, dir: Node, k: nat): seq<Call>
    requires dir.Dir? && k <= |dir.entries|
    decreases dir, k
  {
    if k == 0 then [] else LevelCalls(o, srcDir, outDir, dir, k - 1) + EntryCalls(o, srcDir, outDir, dir, k - 1)
  }

  /** The names of the first `k` entries of `dir` the walk descends into. */
  function Descended(o: Options, srcDir: Path, dir: Node, k: nat): (r: set<string>)
    requires dir.Dir? && k <= |dir.entries|
  {
    if k == 0 then {}
    else if Classify(o, srcDir, dir.entries[k - 1]) == Descend then
      Descended(o, srcDir, dir, k - 1) + {dir.entries[k - 1].name}
    else Descended(o, srcDir, dir, k - 1)
  }

  /** Some of the first `k` entries of `dir` is a file the walk hands to the callback. */
  predicate VisitsAny(o: Options, srcDir: Path, dir: Node, k: nat)
    requires dir.Dir? && k <= |dir.entries|
  {
    exists j :: 0 <= j < k && Classify(o, srcDir, dir.entries[j]) == Visit
  }

  /**
   * Reference definition of the callbacks: `c` is made for a file of the
   * first `k` entries that passes every filter, or for such a file further
   * down, reached through directories that are neither symlinks nor ignored.
   */
  ghost predicate Reaches(o: Options, srcDir: Path, outDir: Path, dir: Node, k: nat, c: Call)
    requires dir.Dir? && k <= |dir.entries|
    decreases dir, k
  {
    exists j :: 0 <= j < k && EntryReaches(o, srcDir, outDir, dir, j, c)
  }

  ghost predicate EntryReaches(o: Options, srcDir: Path, outDir: Path, dir: Node, j: nat, c: Call)
    requires dir.Dir? && j < |dir.entries|
    decreases dir, j
  {
    var e := dir.entries[j];
    || (Classify(o, srcDir, e) == Visit && c == CallFor(o, srcDir, outDir, e))
    || (Classify(o, srcDir, e) == Descend &&
        Reaches(o, srcDir + [e.name], outDir + [e.name], e.node, |e.node.entries|, c))
  }

  /** The callbacks the `k`-th entry of `dir` contributes. */
  function EntryCalls(o: Options, srcDir: Path, outDir: Path, dir: Node, j: nat): seq<Call>
    requires dir.Dir? && j < |dir.entries|
    decreases dir, j
  {
    var e := dir.entries[j];
    match Classify(o, srcDir, e)
    case Visit => [CallFor(o, srcDir, outDir, e)]
    case Descend => LevelCalls(o, srcDir + [e.name], outDir + [e.name], e.node, |e.node.entries|)
    case _ => []
  }

  /** The callbacks of a walk are exactly the calls for the files it reaches. */
  lemma {:induction false} CallsAreReachedFiles(o: Options, srcDir: Path, outDir: Path, dir: Node, k: nat, c: Call)
    requires dir.Dir? && k <= |dir.entries|
    ensures c in LevelCalls(o, srcDir, outDir, dir, k) <==> Reaches(o, srcDir, outDir, dir, k, c)
    decreases dir, k
  {
    if k > 0 {
      CallsAreReachedFiles(o, srcDir, outDir, dir, k - 1, c);
      var e := dir.entries[k - 1];
      assert LevelCalls(o, srcDir, outDir, dir, k) ==
        LevelCalls(o, srcDir, outDir, dir, k - 1) + EntryCalls(o, srcDir, outDir, dir, k - 1);
      if Classify(o, srcDir, e) == Descend {
        CallsAreReachedFiles(o, srcDir + [e.name], outDir + [e.name], e.node, |e.node.entries|, c);
      }
      assert c in EntryCalls(o, srcDir, outDir, dir, k - 1) <==> EntryReaches(o, srcDir, outDir, dir, k - 1, c);
      if EntryReaches(o, srcDir, outDir, dir, k - 1, c) {
        assert Reaches(o, srcDir, outDir, dir, k, c);
      }
      if Reaches(o, srcDir, outDir, dir, k - 1, c) {
        var j :| 0 <= j < k - 1 && EntryReaches(o, srcDir, outDir, dir, j, c);
        assert Reaches(o, srcDir, outDir, dir, k, c);
      }
      if Reaches(o, srcDir, outDir, dir, k, c) {
        var j :| 0 <= j < k && EntryReaches(o, srcDir, outDir, dir, j, c);
        if j < k - 1 {
          assert Reaches(o, srcDir, outDir, dir, k - 1, c);
        }
      }
    }
  }

  /**
   * With `keepExtraFiles` the level deletes nothing but an output path that
   * is not a directory: the pass is additive.
   */
  lemma KeepExtraFilesIsAdditive(o: Options, v: Volume, outDir: Path, contents: seq<string>)
    requires o.keepExtraFiles
    ensures Swept(Recovered(v, outDir), outDir, Doomed(o, v, outDir, contents)) == Recovered(v, outDir)
    ensures IsDirIn(v, outDir) ==> Swept(Recovered(v, outDir), outDir, Doomed(o, v, outDir, contents)) == v
  {
    var r := Recovered(v, outDir);
    assert Swept(r, outDir, {}) == r;
  }

  /**
   * Without `keepExtraFiles`, the sweep leaves exactly the existing output
   * names the whitelist holds, each with its whole subtree.
   */
  lemma SweepKeepsExactlyWhitelist(o: Options, v: Volume, outDir: Path, contents: seq<string>)
    requires !o.keepExtraFiles && IsDirIn(v, outDir)
    ensures var w := Swept(Recovered(v, outDir), outDir, Doomed(o, v, outDir, contents));
      && Children(w, outDir) == Children(v, outDir) * Whitelist(o, contents)
      && forall p :: p in v && |outDir| < |p| && p[..|outDir|] == outDir && p[|outDir|] in Whitelist(o, contents) ==>
           p in w
  {
  }

  /**
   * The whitelist is built from every source name, before any filter: an
   * entry that is a symlink, ignored or of another extension still protects
   * its mapped output name when `filesToKeep` keeps it.
   */
  lemma WhitelistPrecedesFilters(o: Options, v: Volume, srcDir: Path, outDir: Path, entries: seq<Entry>, i: nat)
    requires i < |entries| && entries[i].name in o.filesToKeep(Names(entries))
    ensures o.getOutputFilePath(entries[i].name) !in Doomed(o, v, outDir, Names(entries))
  {
  }

  /**
   * `c` is the callback for a regular file at the same non-empty relative
   * path `rel` below the source and the output directory, whose name passes
   * the ignore test and the extension filter.
   */
  predicate AcceptedAt(o: Options, srcDir: Path, outDir: Path, rel: seq<string>, c: Call)
  {
    && |rel| > 0
    && c.stat.File?
    && c.sourceFile == Str(srcDir + rel)
    && c.outputFile == o.getOutputFilePath(Str(outDir + rel))
    && !IsIgnored(o, srcDir + rel)
    && ExtName(rel[|rel| - 1]) in o.extensions
  }

  ghost predicate Accepted(o: Options, srcDir: Path, outDir: Path, c: Call)
  {
    exists rel :: AcceptedAt(o, srcDir, outDir, rel, c)
  }

  /**
   * Every callback is for a regular file whose name, joined path and
   * root-relative path the ignore patterns do not match and whose extension
   * is in the list: symlinks, ignored entries and other extensions never
   * reach it.
   */
  lemma {:induction false} CallsAreAccepted(o: Options, srcDir: Path, outDir: Path, dir: Node, k: nat)
    requires dir.Dir? && k <= |dir.entries|
    ensures forall c :: c in LevelCalls(o, srcDir, outDir, dir, k) ==> Accepted(o, srcDir, outDir, c)
    decreases dir, k
  {
    if k > 0 {
      CallsAreAccepted(o, srcDir, outDir, dir, k - 1);
      EntryCallsAreAccepted(o, srcDir, outDir, dir, k - 1);
      assert LevelCalls(o, srcDir, outDir, dir, k) ==
        LevelCalls(o, srcDir, outDir, dir, k - 1) + EntryCalls(o, srcDir, outDir, dir, k - 1);
    }
  }

  lemma {:induction false} EntryCallsAreAccepted(o: Options, srcDir: Path, outDir: Path, dir: Node, j: nat)
    requires dir.Dir? && j < |dir.entries|
    ensures forall c :: c in EntryCalls(o, srcDir, outDir, dir, j) ==> Accepted(o, srcDir, outDir, c)
    decreases dir, j
  {
    var e := dir.entries[j];
    match Classify(o, srcDir, e)
    case Visit =>
      assert AcceptedAt(o, srcDir, outDir, [e.name], CallFor(o, srcDir, outDir, e));
    case Descend =>
      assert EntryCalls(o, srcDir, outDir, dir, j) ==
        LevelCalls(o, srcDir + [e.name], outDir + [e.name], e.node, |e.node.entries|);
      SubCallsAccepted(o, srcDir, outDir, e.name, e.node);
    case _ =>
  }

  /** The callbacks of a sub-directory's walk are accepted one level up. */
  lemma SubCallsAccepted(o: Options, srcDir: Path, outDir: Path, name: string, sub: Node)
    requires sub.Dir?
    ensures forall c :: c in LevelCalls(o, srcDir + [name], outDir + [name], sub, |sub.entries|) ==>
      Accepted(o, srcDir, outDir, c)
    decreases sub, |sub.entries| + 1
  {
    CallsAreAccepted(o, srcDir + [name], outDir + [name], sub, |sub.entries|);
    forall c | c in LevelCalls(o, srcDir + [name], outDir + [name], sub, |sub.entries|)
      ensures Accepted(o, srcDir, outDir, c)
    {
      var rel :| AcceptedAt(o, srcDir + [name], outDir + [name], rel, c);
      AcceptedOneLevelUp(o, srcDir, outDir, name, rel, c);
      AcceptedWitness(o, srcDir, outDir, [name] + rel, c);
    }
  }

  lemma AcceptedWitness(o: Options, srcDir: Path, outDir: Path, rel: seq<string>, c: Call)
    requires AcceptedAt(o, srcDir, outDir, rel, c)
    ensures Accepted(o, srcDir, outDir, c)
  {
  }

  lemma AcceptedOneLevelUp(o: Options, srcDir: Path, outDir: Path, name: string, rel: seq<string>, c: Call)
    requires AcceptedAt(o, srcDir + [name], outDir + [name], rel, c)
    ensures AcceptedAt(o, srcDir, outDir, [name] + rel, c)
  {
    var full := [name] + rel;
    assert srcDir + [name] + rel == srcDir + full;
    assert outDir + [name] + rel == outDir + full;
    assert c.sourceFile == Str(srcDir + full);
    assert c.outputFile == o.getOutputFilePath(Str(outDir + full));
    assert !IsIgnored(o, srcDir + full);
    assert full[|full| - 1] == rel[|rel| - 1];
  }

  /**
   * The `i`-th entry, when it passes the filters, is handed to the callback as
   * `(join(srcDir, name), getOutputFilePath(join(outDir, name)), stat)`; a
   * directory contributes exactly the callbacks of the walk one level down,
   * on the joined source and output paths.
   */
  lemma {:induction false} EntryCallsInPlace(o: Options, srcDir: Path, outDir: Path, dir: Node, i: nat)
    requires dir.Dir? && i < |dir.entries|
    ensures var e := dir.entries[i];
      Classify(o, srcDir, e) == Visit ==>
        Call(Str(srcDir + [e.name]), o.getOutputFilePath(Str(outDir + [e.name])), e.node)
          in LevelCalls(o, srcDir, outDir, dir, |dir.entries|)
    ensures var e := dir.entries[i];
      Classify(o, srcDir, e) == Descend ==>
        forall c :: c in LevelCalls(o, srcDir + [e.name], outDir + [e.name], e.node, |e.node.entries|) ==>
          c in LevelCalls(o, srcDir, outDir, dir, |dir.entries|)
  {
    var e := dir.entries[i];
    forall c | c in EntryCalls(o, srcDir, outDir, dir, i)
      ensures c in LevelCalls(o, srcDir, outDir, dir, |dir.entries|)
    {
      CallsAreReachedFiles(o, srcDir, outDir, dir, |dir.entries|, c);
      if Classify(o, srcDir, e) == Descend {
        CallsAreReachedFiles(o, srcDir + [e.name], outDir + [e.name], e.node, |e.node.entries|, c);
      }
      assert EntryReaches(o, srcDir, outDir, dir, i, c);
    }
  }

  /**
   * Lines 19-45 of one level: list the output directory, remove it when it
   * is not a directory, and unless extra files are kept delete every output
   * entry the whitelist does not name.
   */
  method PrepareLevel(o: Options, disk: Disk, contents: seq<string>, outDir: Path) returns (outputDirectoryExists: bool)
    requires TreeShaped(disk.entries)
    modifies disk
    ensures outputDirectoryExists == IsDirIn(old(disk.entries), outDir)
    ensures disk.entries ==
      Swept(Recovered(old(disk.entries), outDir), outDir, Doomed(o, old(disk.entries), outDir, contents))
    ensures TreeShaped(disk.entries)
  {
    ghost var v := disk.entries;
    var outputStats: Option<Kind> := if outDir in disk.entries then Some(disk.entries[outDir]) else None;
    outputDirectoryExists := false;
    if outputStats.Some? {
      if outputStats.value == DirKind {
        outputDirectoryExists := true;
      } else {
        disk.Delete(outDir);
        RemovedKeepsTree(v, outDir);
        outputStats := None;
      }
    }
    assert disk.entries == Recovered(v, outDir);
    var outputContents := if outputStats.Some? then Children(disk.entries, outDir) else {};
    assert outputContents == Listing(v, outDir);
    if !o.keepExtraFiles {
      var whitelist := Whitelist(o, contents);
      var filesToDelete := outputContents - whitelist;
      assert filesToDelete == Doomed(o, v, outDir, contents);
      disk.DeleteChildren(outDir, filesToDelete);
    } else {
      assert disk.entries == Swept(disk.entries, outDir, {});
      assert Doomed(o, v, outDir, contents) == {};
    }
    SweptKeepsTree(Recovered(v, outDir), outDir, Doomed(o, v, outDir, contents));
  }

  lemma VisitsAnyStep(o: Options, srcDir: Path, dir: Node, i: nat)
    requires dir.Dir? && i < |dir.entries|
    ensures VisitsAny(o, srcDir, dir, i + 1) <==>
      VisitsAny(o, srcDir, dir, i) || Classify(o, srcDir, dir.entries[i]) == Visit
  {
  }

  /** One entry's effect on the output volume keeps the level's sweep outside the directories descended into. */
  lemma KeptAfterEntry(o: Options, srcDir: Path, dir: Node, i: nat, outDir: Path,
                       swept: Volume, before: Volume, after: Volume, made: bool)
    requires dir.Dir? && i < |dir.entries|
    requires KeptOutside(swept, before, outDir, Descended(o, srcDir, dir, i))
    requires Classify(o, srcDir, dir.entries[i]) != Descend ==> after == if made then Made(before, outDir) else before
    requires Classify(o, srcDir, dir.entries[i]) == Descend ==> OnlyBelow(before, after, outDir + [dir.entries[i].name])
    ensures KeptOutside(swept, after, outDir, Descended(o, srcDir, dir, i + 1))
  {
    if Classify(o, srcDir, dir.entries[i]) == Descend {
      KeptOutsideChild(swept, before, after, outDir, Descended(o, srcDir, dir, i), dir.entries[i].name);
    } else if made {
      KeptOutsideMade(swept, before, outDir, Descended(o, srcDir, dir, i));
    }
  }

  /**
   * `iterate` on the source directory `srcDir`, whose listing is `dir`, and
   * the output directory `outDir`: returns the callbacks made, in order, and
   * counts the times this level creates its output directory.
   */
  method Iterate(o: Options, disk: Disk, srcDir: Path, dir: Node, outDir: Path)
    returns (calls: seq<Call>, ghost makeDirs: nat)
    requires dir.Dir?
    requires TreeShaped(disk.entries) && NoFileAbove(disk.entries, outDir)
    modifies disk
    ensures calls == LevelCalls(o, srcDir, outDir, dir, |dir.entries|)
    ensures makeDirs <= 1
    ensures makeDirs == 1 <==> !IsDirIn(old(disk.entries), outDir) && VisitsAny(o, srcDir, dir, |dir.entries|)
    ensures TreeShaped(disk.entries)
    ensures OnlyBelow(old(disk.entries), disk.entries, outDir)
    ensures VisitsAny(o, srcDir, dir, |dir.entries|) ==> IsDirIn(disk.entries, outDir)
    ensures KeptOutside(
      Swept(Recovered(old(disk.entries), outDir), outDir, Doomed(o, old(disk.entries), outDir, Names(dir.entries))),
      disk.entries, outDir, Descended(o, srcDir, dir, |dir.entries|))
    decreases dir, 3
  {
    ghost var v := disk.entries;
    var outputDirectoryExists := PrepareLevel(o, disk, Names(dir.entries), outDir);
    ghost var swept := disk.entries;
    calls, makeDirs := VisitAll(o, disk, srcDir, dir, outDir, outputDirectoryExists);
    OnlyBelowFromKept(v, swept, disk.entries, outDir, Descended(o, srcDir, dir, |dir.entries|));
  }

  /**
   * The `pMap` over the listing, once the level is prepared: each entry in
   * turn, creating the output directory before the first callback unless
   * `outputDirectoryExists` says it is there.
   */
  method VisitAll(o: Options, disk: Disk, srcDir: Path, dir: Node, outDir: Path, outputDirectoryExists: bool)
    returns (calls: seq<Call>, ghost makeDirs: nat)
    requires dir.Dir?
    requires Ready(disk.entries, outDir)
    requires outputDirectoryExists ==> IsDirIn(disk.entries, outDir)
    modifies disk
    ensures calls == LevelCalls(o, srcDir, outDir, dir, |dir.entries|)
    ensures makeDirs == if !outputDirectoryExists && VisitsAny(o, srcDir, dir, |dir.entries|) then 1 else 0
    ensures Ready(disk.entries, outDir)
    ensures VisitsAny(o, srcDir, dir, |dir.entries|) ==> IsDirIn(disk.entries, outDir)
    ensures KeptOutside(old(disk.entries), disk.entries, outDir, Descended(o, srcDir, dir, |dir.entries|))
    decreases dir, 2
  {
    ghost var swept := disk.entries;
    var dirExists := outputDirectoryExists;
    calls, makeDirs := [], 0;
    for i := 0 to |dir.entries|
      invariant calls == LevelCalls(o, srcDir, outDir, dir, i)
      invariant dirExists == (outputDirectoryExists || VisitsAny(o, srcDir, dir, i))
      invariant makeDirs == (if !outputDirectoryExists && VisitsAny(o, srcDir, dir, i) then 1 else 0)
      invariant dirExists ==> IsDirIn(disk.entries, outDir)
      invariant Ready(disk.entries, outDir)
      invariant KeptOutside(swept, disk.entries, outDir, Descended(o, srcDir, dir, i))
    {
      ghost var before := disk.entries;
      var added;
      ghost var made;
      added, dirExists, made := VisitEntry(o, disk, srcDir, dir, i, outDir, dirExists);
      KeptAfterEntry(o, srcDir, dir, i, outDir, swept, before, disk.entries, made);
      VisitsAnyStep(o, srcDir, dir, i);
      calls := calls + added;
      if made {
        makeDirs := makeDirs + 1;
      }
    }
  }

  /**
   * The function `pMap` applies to the `i`-th name of the listing
   * (iterate.ts:46-84): returns the callbacks it leads to, the new value of
   * `outputDirectoryExists`, and whether it created the output directory.
   */
  method VisitEntry(o: Options, disk: Disk, srcDir: Path, dir: Node, i: nat, outDir: Path, outputDirectoryExists: bool)
    returns (calls: seq<Call>, nowExists: bool, ghost made: bool)
    requires dir.Dir? && i < |dir.entries|
    requires Ready(disk.entries, outDir)
    requires outputDirectoryExists ==> IsDirIn(disk.entries, outDir)
    modifies disk
    ensures calls == EntryCalls(o, srcDir, outDir, dir, i)
    ensures nowExists == (outputDirectoryExists || Classify(o, srcDir, dir.entries[i]) == Visit)
    ensures made == (!outputDirectoryExists && Classify(o, srcDir, dir.entries[i]) == Visit)
    ensures nowExists ==> IsDirIn(disk.entries, outDir)
    ensures Ready(disk.entries, outDir)
    ensures Classify(o, srcDir, dir.entries[i]) != Descend ==>
      disk.entries == if made then Made(old(disk.entries), outDir) else old(disk.entries)
    ensures Classify(o, srcDir, dir.entries[i]) == Descend ==>
      OnlyBelow(old(disk.entries), disk.entries, outDir + [dir.entries[i].name])
    decreases dir, 1
  {
    // Classify is the chain of tests of iterate.ts:49-72, in that order.
    calls, nowExists, made := [], outputDirectoryExists, false;
    var action := Classify(o, srcDir, dir.entries[i]);
    if action == Visit {
      var call;
      call, made := VisitFile(o, disk, srcDir, outDir, dir.entries[i], nowExists);
      nowExists := true;
      calls := [call];
    } else if action == Descend {
      calls := VisitDir(o, disk, srcDir, dir, i, outDir);
    }
  }

  /**
   * A file that passed every filter (iterate.ts:65-70): the output directory is
   * created first unless it is known to exist, then the callback is made.
   */
  method VisitFile(o: Options, disk: Disk, srcDir: Path, outDir: Path, e: Entry, outputDirectoryExists: bool)
    returns (call: Call, ghost made: bool)
    requires Ready(disk.entries, outDir)
    requires outputDirectoryExists ==> IsDirIn(disk.entries, outDir)
    modifies disk
    ensures call == CallFor(o, srcDir, outDir, e)
    ensures made == !outputDirectoryExists
    ensures disk.entries == if made then Made(old(disk.entries), outDir) else old(disk.entries)
    ensures Ready(disk.entries, outDir) && IsDirIn(disk.entries, outDir)
  {
    made := false;
    if !outputDirectoryExists {
      MadeReady(disk.entries, outDir);
      disk.MakeDir(outDir);
      made := true;
    }
    var outputFile := o.getOutputFilePath(Str(outDir + [e.name]));
    call := Call(Str(srcDir + [e.name]), outputFile, e.node);
  }

  /**
   * The recursive `iterate` call for the `i`-th entry, a directory the walk
   * descends into, on the joined source and output paths.
   */
  method VisitDir(o: Options, disk: Disk, srcDir: Path, dir: Node, i: nat, outDir: Path) returns (calls: seq<Call>)
    requires dir.Dir? && i < |dir.entries| && dir.entries[i].node.Dir?
    requires Ready(disk.entries, outDir)
    modifies disk
    ensures calls == LevelCalls(o, srcDir + [dir.entries[i].name], outDir + [dir.entries[i].name],
      dir.entries[i].node, |dir.entries[i].node.entries|)
    ensures Ready(disk.entries, outDir)
    ensures IsDirIn(old(disk.entries), outDir) ==> IsDirIn(disk.entries, outDir)
    ensures OnlyBelow(old(disk.entries), disk.entries, outDir)
    ensures OnlyBelow(old(disk.entries), disk.entries, outDir + [dir.entries[i].name])
    decreases dir, 0
  {
    var fileName := dir.entries[i].name;
    ghost var before := disk.entries;
    ReadyChild(before, outDir, fileName);
    var sub, _ := Iterate(o, disk, srcDir + [fileName], dir.entries[i].node, outDir + [fileName]);
    ReadyAfterChild(before, disk.entries, outDir, fileName);
    calls := sub;
  }
}
