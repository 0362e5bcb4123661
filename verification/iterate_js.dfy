/**
 * The older Flow variant of the tree walk, `src/iterate.js`: the same level
 * structure as `src/iterate.ts`, except that the whitelist is `filesToKeep`
 * of the source names as they are, the ignore test is always applied, every
 * regular file reaches the callback whatever its extension, the output file
 * is the plain joined output path, and both the deletions and the entries are
 * handled strictly one after the other (`pMapSeries`).
 */
module IterateJs {
  import opened Common
  import opened FileTree

  /** The parameter object of `iterate`, without the callback (whose calls are the result). */
  datatype Options = Options(
    rootDirectory: Path,
    ignored: string -> bool,  // `anymatch(ignored, _)`, the glob matcher left uninterpreted
    keepExtraFiles: bool,
    filesToKeep: seq<string> -> seq<string>)

  /** One invocation `callback(filePath, outputFile, stat)`. */
  datatype Call = Call(sourceFile: string, outputFile: string, stat: Node)

  /** The output names the sweep of a level deletes: those not in `filesToKeep(contents)`. */
  function Doomed(o: Options, v: Volume, outDir: Path, contents: seq<string>): (r: set<string>)
    ensures o.keepExtraFiles ==> r == {}
    ensures !o.keepExtraFiles ==> forall n :: n in r <==> n in Listing(v, outDir) && n !in o.filesToKeep(contents)
  {
    if o.keepExtraFiles then {} else set n | n in Listing(v, outDir) && n !in o.filesToKeep(contents)
  }

  /** The ignore test: the bare name, the joined path and the path relative to the root. */
  predicate IsIgnored(o: Options, filePath: Path)
  {
    filePath != [] &&
    (o.ignored(filePath[|filePath| - 1]) || o.ignored(Str(filePath)) || o.ignored(Relative(o.rootDirectory, filePath)))
  }

  /** What the walk does with one source entry. */
  datatype Action = SkipSymlink | SkipIgnored | SkipOther | Visit | Descend

  function Classify(o: Options, srcDir: Path, e: Entry): (a: Action)
    ensures a == Visit <==> e.node.File? && !IsIgnored(o, srcDir + [e.name])
    ensures a == Descend <==> e.node.Dir? && !IsIgnored(o, srcDir + [e.name])
    ensures e.node.Symlink? ==> a == SkipSymlink
    ensures !e.node.Symlink? && IsIgnored(o, srcDir + [e.name]) ==> a == SkipIgnored
  {
    if e.node.Symlink? then SkipSymlink
    else if IsIgnored(o, srcDir + [e.name]) then SkipIgnored
    else if e.node.File? then Visit
    else if e.node.Dir? then Descend
    else SkipOther
  }

  /** The callback a visited file receives. */
  function CallFor(srcDir: Path, outDir: Path, e: Entry): Call
  {
    Call(Str(srcDir + [e.name]), Str(outDir + [e.name]), e.node)
  }

  /** The callbacks of the walk over the first `k` entries of `dir`, in order. */
  function LevelCalls(o: Options, srcDir: Path, outDir: Path, dir: Node, k: nat): seq<Call>
    requires dir.Dir? && k <= |dir.entries|
    decreases dir, k
  {
    if k == 0 then [] else LevelCalls(o, srcDir, outDir, dir, k - 1) + EntryCalls(o, srcDir, outDir, dir, k - 1)
  }

  /** The callbacks the `j`-th entry of `dir` contributes. */
  function EntryCalls(o: Options, srcDir: Path, outDir: Path, dir: Node, j: nat): seq<Call>
    requires dir.Dir? && j < |dir.entries|
    decreases dir, j
  {
    var e := dir.entries[j];
    match Classify(o, srcDir, e)
    case Visit => [CallFor(srcDir, outDir, e)]
    case Descend => LevelCalls(o, srcDir + [e.name], outDir + [e.name], e.node, |e.node.entries|)
    case _ => []
  }

  /** The names of the first `k` entries of `dir` the walk descends into. */
  function Descended(o: Options, srcDir: Path, dir: Node, k: nat): (r: set<string>)
    requires dir.Dir? && k <= |dir.entries|
  {
    if k == 0 then {}
    else if Classify(o, srcDir, dir.entries[k - 1]) == Descend then
      Descended(o, srcDir, dir, k - 1) + {dir.entries[k - 1].name}
    else Descended(o, srcDir, dir, k - 1)
  }

  /** Some of the first `k` entries of `dir` is a file the walk hands to the callback. */
  predicate VisitsAny(o: Options, srcDir: Path, dir: Node, k: nat)
    requires dir.Dir? && k <= |dir.entries|
  {
    exists j :: 0 <= j < k && Classify(o, srcDir, dir.entries[j]) == Visit
  }

  /**
   * Reference definition of the callbacks: `c` is made for a regular file of
   * the first `k` entries that is not ignored, or for such a file further
   * down, reached through directories that are neither symlinks nor ignored.
   */
  ghost predicate Reaches(o: Options, srcDir: Path, outDir: Path, dir: Node, k: nat, c: Call)
    requires dir.Dir? && k <= |dir.entries|
    decreases dir, k
  {
    exists j :: 0 <= j < k && EntryReaches(o, srcDir, outDir, dir, j, c)
  }

  ghost predicate EntryReaches(o: Options, srcDir: Path, outDir: Path, dir: Node, j: nat, c: Call)
    requires dir.Dir? && j < |dir.entries|
    decreases dir, j
  {
    var e := dir.entries[j];
    || (Classify(o, srcDir, e) == Visit && c == CallFor(srcDir, outDir, e))
    || (Classify(o, srcDir, e) == Descend &&
        Reaches(o, srcDir + [e.name], outDir + [e.name], e.node, |e.node.entries|, c))
  }

  /** The callbacks of a walk are exactly the calls for the files it reaches. */
  lemma {:induction false} CallsAreReachedFiles(o: Options, srcDir: Path, outDir: Path, dir: Node, k: nat, c: Call)
    requires dir.Dir? && k <= |dir.entries|
    ensures c in LevelCalls(o, srcDir, outDir, dir, k) <==> Reaches(o, srcDir, outDir, dir, k, c)
    decreases dir, k
  {
    if k > 0 {
      CallsAreReachedFiles(o, srcDir, outDir, dir, k - 1, c);
      var e := dir.entries[k - 1];
      assert LevelCalls(o, srcDir, outDir, dir, k) ==
        LevelCalls(o, srcDir, outDir, dir, k - 1) + EntryCalls(o, srcDir, outDir, dir, k - 1);
      if Classify(o, srcDir, e) == Descend {
        CallsAreReachedFiles(o, srcDir + [e.name], outDir + [e.name], e.node, |e.node.entries|, c);
      }
      assert c in EntryCalls(o, srcDir, outDir, dir, k - 1) <==> EntryReaches(o, srcDir, outDir, dir, k - 1, c);
      if EntryReaches(o, srcDir, outDir, dir, k - 1, c) {
        assert Reaches(o, srcDir, outDir, dir, k, c);
      }
      if Reaches(o, srcDir, outDir, dir, k - 1, c) {
        var j :| 0 <= j < k - 1 && EntryReaches(o, srcDir, outDir, dir, j, c);
        assert Reaches(o, srcDir, outDir, dir, k, c);
      }
      if Reaches(o, srcDir, outDir, dir, k, c) {
        var j :| 0 <= j < k && EntryReaches(o, srcDir, outDir, dir, j, c);
        if j < k - 1 {
          assert Reaches(o, srcDir, outDir, dir, k - 1, c);
        }
      }
    }
  }

  /**
   * With `keepExtraFiles` the level deletes nothing but an output path that
   * is not a directory: the pass is additive.
   */
  lemma KeepExtraFilesIsAdditive(o: Options, v: Volume, outDir: Path, contents: seq<string>)
    requires o.keepExtraFiles
    ensures Swept(Recovered(v, outDir), outDir, Doomed(o, v, outDir, contents)) == Recovered(v, outDir)
    ensures IsDirIn(v, outDir) ==> Swept(Recovered(v, outDir), outDir, Doomed(o, v, outDir, contents)) == v
  {
    var r := Recovered(v, outDir);
    assert Swept(r, outDir, {}) == r;
  }

  /**
   * Without `keepExtraFiles`, the sweep leaves exactly the existing output
   * names that `filesToKeep` returns for the source names, unmapped, each
   * with its whole subtree.
   */
  lemma SweepKeepsExactlyFilesToKeep(o: Options, v: Volume, outDir: Path, contents: seq<string>)
    requires !o.keepExtraFiles && IsDirIn(v, outDir)
    ensures var w := Swept(Recovered(v, outDir), outDir, Doomed(o, v, outDir, contents));
      && (forall n :: n in Children(w, outDir) <==> n in Children(v, outDir) && n in o.filesToKeep(contents))
      && forall p :: p in v && |outDir| < |p| && p[..|outDir|] == outDir && p[|outDir|] in o.filesToKeep(contents) ==>
           p in w
  {
  }

  /**
   * The whitelist is built from every source name, before any filter: a
   * symlink or ignored entry still protects its output name when
   * `filesToKeep` keeps it.
   */
  lemma WhitelistPrecedesFilters(o: Options, v: Volume, outDir: Path, entries: seq<Entry>, i: nat)
    requires i < |entries| && entries[i].name in o.filesToKeep(Names(entries))
    ensures entries[i].name !in Doomed(o, v, outDir, Names(entries))
  {
  }

  /**
   * `c` is the callback for a regular file at the same non-empty relative
   * path `rel` below the source and the output directory, whose name,
   * joined path and root-relative path are not ignored.
   */
  predicate MirroredAt(o: Options, srcDir: Path, outDir: Path, rel: seq<string>, c: Call)
  {
    && |rel| > 0
    && c.stat.File?
    && c.sourceFile == Str(srcDir + rel)
    && c.outputFile == Str(outDir + rel)
    && !IsIgnored(o, srcDir + rel)
  }

  ghost predicate Mirrored(o: Options, srcDir: Path, outDir: Path, c: Call)
  {
    exists rel :: MirroredAt(o, srcDir, outDir, rel, c)
  }

  /**
   * Every callback is for a regular file that is not ignored, and its output
   * path is its source path with the source directory replaced by the output
   * directory: symlinks and ignored entries never reach it.
   */
  lemma {:induction false} CallsAreMirrored(o: Options, srcDir: Path, outDir: Path, dir: Node, k: nat)
    requires dir.Dir? && k <= |dir.entries|
    ensures forall c :: c in LevelCalls(o, srcDir, outDir, dir, k) ==> Mirrored(o, srcDir, outDir, c)
    decreases dir, k
  {
    if k > 0 {
      CallsAreMirrored(o, srcDir, outDir, dir, k - 1);
      EntryCallsAreMirrored(o, srcDir, outDir, dir, k - 1);
      assert LevelCalls(o, srcDir, outDir, dir, k) ==
        LevelCalls(o, srcDir, outDir, dir, k - 1) + EntryCalls(o, srcDir, outDir, dir, k - 1);
    }
  }

  lemma {:induction false} EntryCallsAreMirrored(o: Options, srcDir: Path, outDir: Path, dir: Node, j: nat)
    requires dir.Dir? && j < |dir.entries|
    ensures forall c :: c in EntryCalls(o, srcDir, outDir, dir, j) ==> Mirrored(o, srcDir, outDir, c)
    decreases dir, j
  {
    var e := dir.entries[j];
    match Classify(o, srcDir, e)
    case Visit =>
      assert MirroredAt(o, srcDir, outDir, [e.name], CallFor(srcDir, outDir, e));
    case Descend =>
      assert EntryCalls(o, srcDir, outDir, dir, j) ==
        LevelCalls(o, srcDir + [e.name], outDir + [e.name], e.node, |e.node.entries|);
      SubCallsMirrored(o, srcDir, outDir, e.name, e.node);
    case _ =>
  }

  /** The callbacks of a sub-directory's walk are mirrored one level up. */
  lemma SubCallsMirrored(o: Options, srcDir: Path, outDir: Path, name: string, sub: Node)
    requires sub.Dir?
    ensures forall c :: c in LevelCalls(o, srcDir + [name], outDir + [name], sub, |sub.entries|) ==>
      Mirrored(o, srcDir, outDir, c)
    decreases sub, |sub.entries| + 1
  {
    CallsAreMirrored(o, srcDir + [name], outDir + [name], sub, |sub.entries|);
    forall c | c in LevelCalls(o, srcDir + [name], outDir + [name], sub, |sub.entries|)
      ensures Mirrored(o, srcDir, outDir, c)
    {
      var rel :| MirroredAt(o, srcDir + [name], outDir + [name], rel, c);
      MirroredOneLevelUp(o, srcDir, outDir, name, rel, c);
      MirroredWitness(o, srcDir, outDir, [name] + rel, c);
    }
  }

  lemma MirroredWitness(o: Options, srcDir: Path, outDir: Path, rel: seq<string>, c: Call)
    requires MirroredAt(o, srcDir, outDir, rel, c)
    ensures Mirrored(o, srcDir, outDir, c)
  {
  }

  lemma MirroredOneLevelUp(o: Options, srcDir: Path, outDir: Path, name: string, rel: seq<string>, c: Call)
    requires MirroredAt(o, srcDir + [name], outDir + [name], rel, c)
    ensures MirroredAt(o, srcDir, outDir, [name] + rel, c)
  {
    var full := [name] + rel;
    assert srcDir + [name] + rel == srcDir + full;
    assert outDir + [name] + rel == outDir + full;
    assert c.sourceFile == Str(srcDir + full);
    assert c.outputFile == Str(outDir + full);
    assert !IsIgnored(o, srcDir + full);
  }

  /** `filesToKeep` as `src/index.js` supplies it: the names, then each with ".flow" appended if asked. */
  function FlowFilesToKeep(writeFlowSources: bool): seq<string> -> seq<string>
  {
    input => input + (if writeFlowSources then MapSeq(i => i + ".flow", input) else [])
  }

  /**
   * That `filesToKeep` keeps exactly the source names and, when
   * `writeFlowSources` is set, each of them with ".flow" appended.
   */
  lemma FlowFilesToKeepContents(writeFlowSources: bool, contents: seq<string>, m: string)
    ensures m in FlowFilesToKeep(writeFlowSources)(contents) <==>
      m in contents || (writeFlowSources && exists n :: n in contents && m == n + ".flow")
  {
    var keep := FlowFilesToKeep(writeFlowSources)(contents);
    if writeFlowSources {
      var flows := MapSeq(i => i + ".flow", contents);
      assert keep == contents + flows;
      if m in flows {
        var k :| 0 <= k < |flows| && flows[k] == m;
        assert contents[k] in contents;
      }
      if exists n :: n in contents && m == n + ".flow" {
        var n :| n in contents && m == n + ".flow";
        var k :| 0 <= k < |contents| && contents[k] == n;
        assert flows[k] == m;
      }
    } else {
      assert keep == contents + [];
    }
  }

  /**
   * With the `filesToKeep` of `src/index.js` and Flow sources written, the
   * sweep spares every source name and its ".flow" companion.
   */
  lemma FlowSourcesSurviveSweep(o: Options, v: Volume, outDir: Path, contents: seq<string>, n: string)
    requires o.filesToKeep == FlowFilesToKeep(true) && n in contents
    ensures n !in Doomed(o, v, outDir, contents)
    ensures n + ".flow" !in Doomed(o, v, outDir, contents)
  {
    FlowFilesToKeepContents(true, contents, n);
    FlowFilesToKeepContents(true, contents, n + ".flow");
  }

  /**
   * One level up to its entries, all in series: recover from an output path
   * that is not a directory, then delete, one after the other, every output
   * entry `filesToKeep` does not keep (lines 31-55).
   */
  method PrepareLevel(o: Options, disk: Disk, contents: seq<string>, outDir: Path) returns (outputDirectoryExists: bool)
    requires TreeShaped(disk.entries)
    modifies disk
    ensures outputDirectoryExists == IsDirIn(old(disk.entries), outDir)
    ensures disk.entries ==
      Swept(Recovered(old(disk.entries), outDir), outDir, Doomed(o, old(disk.entries), outDir, contents))
    ensures TreeShaped(disk.entries)
  {
    ghost var v := disk.entries;
    var outputStats: Option<Kind> := if outDir in disk.entries then Some(disk.entries[outDir]) else None;
    outputDirectoryExists := false;
    if outputStats.Some? && outputStats.value != DirKind {
      disk.Delete(outDir);
      RemovedKeepsTree(v, outDir);
      outputStats := None;
    }
    if outputStats.Some? && outputStats.value == DirKind {
      outputDirectoryExists := true;
    }
    assert disk.entries == Recovered(v, outDir);
    var outputContents := if outputStats.Some? then Children(disk.entries, outDir) else {};
    assert outputContents == Listing(v, outDir);
    if !o.keepExtraFiles {
      var whitelist := o.filesToKeep(contents);
      var filesToDelete := set item | item in outputContents && item !in whitelist;
      assert filesToDelete == Doomed(o, v, outDir, contents);
      disk.DeleteChildren(outDir, filesToDelete);
    } else {
      assert disk.entries == Swept(disk.entries, outDir, {});
      assert Doomed(o, v, outDir, contents) == {};
    }
    SweptKeepsTree(Recovered(v, outDir), outDir, Doomed(o, v, outDir, contents));
  }

  lemma VisitsAnyStep(o: Options, srcDir: Path, dir: Node, i: nat)
    requires dir.Dir? && i < |dir.entries|
    ensures VisitsAny(o, srcDir, dir, i + 1) <==>
      VisitsAny(o, srcDir, dir, i) || Classify(o, srcDir, dir.entries[i]) == Visit
  {
  }

  /** One entry's effect on the output volume keeps the level's sweep outside the directories descended into. */
  lemma KeptAfterEntry(o: Options, srcDir: Path, dir: Node, i: nat, outDir: Path,
                       swept: Volume, before: Volume, after: Volume, made: bool)
    requires dir.Dir? && i < |dir.entries|
    requires KeptOutside(swept, before, outDir, Descended(o, srcDir, dir, i))
    requires Classify(o, srcDir, dir.entries[i]) != Descend ==> after == if made then Made(before, outDir) else before
    requires Classify(o, srcDir, dir.entries[i]) == Descend ==> OnlyBelow(before, after, outDir + [dir.entries[i].name])
    ensures KeptOutside(swept, after, outDir, Descended(o, srcDir, dir, i + 1))
  {
    if Classify(o, srcDir, dir.entries[i]) == Descend {
      KeptOutsideChild(swept, before, after, outDir, Descended(o, srcDir, dir, i), dir.entries[i].name);
    } else if made {
      KeptOutsideMade(swept, before, outDir, Descended(o, srcDir, dir, i));
    }
  }

  /**
   * `iterate` on the source directory `srcDir`, whose listing is `dir`, and
   * the output directory `outDir`: returns the callbacks made, in order, and
   * counts the times this level creates its output directory.
   */
  method Iterate(o: Options, disk: Disk, srcDir: Path, dir: Node, outDir: Path)
    returns (calls: seq<Call>, ghost makeDirs: nat)
    requires dir.Dir?
    requires TreeShaped(disk.entries) && NoFileAbove(disk.entries, outDir)
    modifies disk
    ensures calls == LevelCalls(o, srcDir, outDir, dir, |dir.entries|)
    ensures makeDirs <= 1
    ensures makeDirs == 1 <==> !IsDirIn(old(disk.entries), outDir) && VisitsAny(o, srcDir, dir, |dir.entries|)
    ensures TreeShaped(disk.entries)
    ensures OnlyBelow(old(disk.entries), disk.entries, outDir)
    ensures VisitsAny(o, srcDir, dir, |dir.entries|) ==> IsDirIn(disk.entries, outDir)
    ensures KeptOutside(
      Swept(Recovered(old(disk.entries), outDir), outDir, Doomed(o, old(disk.entries), outDir, Names(dir.entries))),
      disk.entries, outDir, Descended(o, srcDir, dir, |dir.entries|))
    decreases dir, 3
  {
    ghost var v := disk.entries;
    var outputDirectoryExists := PrepareLevel(o, disk, Names(dir.entries), outDir);
    ghost var swept := disk.entries;
    calls, makeDirs := VisitAll(o, disk, srcDir, dir, outDir, outputDirectoryExists);
    OnlyBelowFromKept(v, swept, disk.entries, outDir, Descended(o, srcDir, dir, |dir.entries|));
  }

  /**
   * The `pMapSeries` over the listing, once the level is prepared: each entry in
   * turn, creating the output directory before the first callback unless
   * `outputDirectoryExists` says it is there.
   */
  method VisitAll(o: Options, disk: Disk, srcDir: Path, dir: Node, outDir: Path, outputDirectoryExists: bool)
    returns (calls: seq<Call>, ghost makeDirs: nat)
    requires dir.Dir?
    requires Ready(disk.entries, outDir)
    requires outputDirectoryExists ==> IsDirIn(disk.entries, outDir)
    modifies disk
    ensures calls == LevelCalls(o, srcDir, outDir, dir, |dir.entries|)
    ensures makeDirs == if !outputDirectoryExists && VisitsAny(o, srcDir, dir, |dir.entries|) then 1 else 0
    ensures Ready(disk.entries, outDir)
    ensures VisitsAny(o, srcDir, dir, |dir.entries|) ==> IsDirIn(disk.entries, outDir)
    ensures KeptOutside(old(disk.entries), disk.entries, outDir, Descended(o, srcDir, dir, |dir.entries|))
    decreases dir, 2
  {
    ghost var swept := disk.entries;
    var dirExists := outputDirectoryExists;
    calls, makeDirs := [], 0;
    for i := 0 to |dir.entries|
      invariant calls == LevelCalls(o, srcDir, outDir, dir, i)
      invariant dirExists == (outputDirectoryExists || VisitsAny(o, srcDir, dir, i))
      invariant makeDirs == (if !outputDirectoryExists && VisitsAny(o, srcDir, dir, i) then 1 else 0)
      invariant dirExists ==> IsDirIn(disk.entries, outDir)
      invariant Ready(disk.entries, outDir)
      invariant KeptOutside(swept, disk.entries, outDir, Descended(o, srcDir, dir, i))
    {
      ghost var before := disk.entries;
      var added;
      ghost var made;
      added, dirExists, made := VisitEntry(o, disk, srcDir, dir, i, outDir, dirExists);
      KeptAfterEntry(o, srcDir, dir, i, outDir, swept, before, disk.entries, made);
      VisitsAnyStep(o, srcDir, dir, i);
      calls := calls + added;
      if made {
        makeDirs := makeDirs + 1;
      }
    }
  }

  /**
   * The function `pMapSeries` applies to the `i`-th name of the listing
   * (iterate.js:56-88): returns the callbacks it leads to, the new value of
   * `outputDirectoryExists`, and whether it created the output directory.
   */
  method VisitEntry(o: Options, disk: Disk, srcDir: Path, dir: Node, i: nat, outDir: Path, outputDirectoryExists: bool)
    returns (calls: seq<Call>, nowExists: bool, ghost made: bool)
    requires dir.Dir? && i < |dir.entries|
    requires Ready(disk.entries, outDir)
    requires outputDirectoryExists ==> IsDirIn(disk.entries, outDir)
    modifies disk
    ensures calls == EntryCalls(o, srcDir, outDir, dir, i)
    ensures nowExists == (outputDirectoryExists || Classify(o, srcDir, dir.entries[i]) == Visit)
    ensures made == (!outputDirectoryExists && Classify(o, srcDir, dir.entries[i]) == Visit)
    ensures nowExists ==> IsDirIn(disk.entries, outDir)
    ensures Ready(disk.entries, outDir)
    ensures Classify(o, srcDir, dir.entries[i]) != Descend ==>
      disk.entries == if made then Made(old(disk.entries), outDir) else old(disk.entries)
    ensures Classify(o, srcDir, dir.entries[i]) == Descend ==>
      OnlyBelow(old(disk.entries), disk.entries, outDir + [dir.entries[i].name])
    decreases dir, 1
  {
    // Classify is the chain of tests of iterate.js:59-87, in that order.
    calls, nowExists, made := [], outputDirectoryExists, false;
    var action := Classify(o, srcDir, dir.entries[i]);
    if action == Visit {
      var call;
      call, made := VisitFile(o, disk, srcDir, outDir, dir.entries[i], nowExists);
      nowExists := true;
      calls := [call];
    } else if action == Descend {
      calls := VisitDir(o, disk, srcDir, dir, i, outDir);
    }
  }

  /**
   * A file that passed every filter (iterate.js:72-76): the output directory is
   * created first unless it is known to exist, then the callback is made.
   */
  method VisitFile(o: Options, disk: Disk, srcDir: Path, outDir: Path, e: Entry, outputDirectoryExists: bool)
    returns (call: Call, ghost made: bool)
    requires Ready(disk.entries, outDir)
    requires outputDirectoryExists ==> IsDirIn(disk.entries, outDir)
    modifies disk
    ensures call == CallFor(srcDir, outDir, e)
    ensures made == !outputDirectoryExists
    ensures disk.entries == if made then Made(old(disk.entries), outDir) else old(disk.entries)
    ensures Ready(disk.entries, outDir) && IsDirIn(disk.entries, outDir)
  {
    made := false;
    if !outputDirectoryExists {
      MadeReady(disk.entries, outDir);
      disk.MakeDir(outDir);
      made := true;
    }
    call := Call(Str(srcDir + [e.name]), Str(outDir + [e.name]), e.node);
  }

  /**
   * The recursive `iterate` call for the `i`-th entry, a directory the walk
   * descends into, on the joined source and output paths.
   */
  method VisitDir(o: Options, disk: Disk, srcDir: Path, dir: Node, i: nat, outDir: Path) returns (calls: seq<Call>)
    requires dir.Dir? && i < |dir.entries| && dir.entries[i].node.Dir?
    requires Ready(disk.entries, outDir)
    modifies disk
    ensures calls == LevelCalls(o, srcDir + [dir.entries[i].name], outDir + [dir.entries[i].name],
      dir.entries[i].node, |dir.entries[i].node.entries|)
    ensures Ready(disk.entries, outDir)
    ensures IsDirIn(old(disk.entries), outDir) ==> IsDirIn(disk.entries, outDir)
    ensures OnlyBelow(old(disk.entries), disk.entries, outDir)
    ensures OnlyBelow(old(disk.entries), disk.entries, outDir + [dir.entries[i].name])
    decreases dir, 0
  {
    var fileName := dir.entries[i].name;
    ghost var before := disk.entries;
    ReadyChild(before, outDir, fileName);
    var sub, _ := Iterate(o, disk, srcDir + [fileName], dir.entries[i].node, outDir + [fileName]);
    ReadyAfterChild(before, disk.entries, outDir, fileName);
    calls := sub;
  }
}
