/**
 * The orchestration in `src/index.ts`: the extension rewrite that names each
 * output file, the longest-first sort of the extension list it relies on,
 * the restart counter and the gated `execute` that restarts the supervised
 * program, the content-hash cache that lets the initial pass skip unchanged
 * files, and what each watcher event and each `rs` line on standard input
 * does to that state.
 *
 * The transformation queue runs one job at a time, in the order the jobs
 * were added, and the debounced `execute` is an armed flag that an explicit
 * timer event fires. The hash function, the Babel transform, reading the
 * source and the outcome of each write and of `spawn` are parameters.
 */
module Index {
  import opened Common
  import Helpers

  // ---------------------------------------------------------------------------
  // The extension list and getOutputFilePath (index.ts:42, 53-59)
  // ---------------------------------------------------------------------------

  /** No extension is shorter than one after it. */
  predicate LongestFirst(exts: seq<string>)
  {
    forall i, j :: 0 <= i < j < |exts| ==> |exts[i]| >= |exts[j]|
  }

  /**
   * `config.extensions.sort((a, b) => b.length - a.length)`, in place: an
   * insertion sort that moves an extension only past strictly shorter ones,
   * so extensions of equal length keep their order, as in a stable sort.
   */
  method SortLongestFirst(a: array<string>)
    modifies a
    ensures LongestFirst(a[..])
    ensures multiset(a[..]) == multiset(old(a[..]))
  {
    for i := 0 to a.Length
      invariant LongestFirst(a[..i])
      invariant multiset(a[..]) == multiset(old(a[..]))
    {
      Insert(a, i);
    }
    assert a[..a.Length] == a[..];
  }

  /** Moves `a[i]` left past the strictly shorter extensions before it. */
  method Insert(a: array<string>, i: nat)
    requires i < a.Length && LongestFirst(a[..i])
    modifies a
    ensures LongestFirst(a[..i + 1])
    ensures multiset(a[..]) == multiset(old(a[..]))
    ensures a[i + 1..] == old(a[i + 1..])
  {
    var j := i;
    while j > 0 && |a[j - 1]| < |a[j]|
      invariant 0 <= j <= i
      invariant a[i + 1..] == old(a[i + 1..])
      invariant forall p, q :: 0 <= p < q <= i && p != j && q != j ==> |a[p]| >= |a[q]|
      invariant forall q :: j < q <= i ==> |a[j]| > |a[q]|
      invariant multiset(a[..]) == multiset(old(a[..]))
    {
      a[j - 1], a[j] := a[j], a[j - 1];
      j := j - 1;
    }
  }

  /** `extensions.find(ext => filePath.endsWith(ext))`: the first extension that ends the path. */
  function FindExt(exts: seq<string>, filePath: string): (r: Option<string>)
    ensures r.Some? ==> r.value in exts && EndsWith(filePath, r.value)
    ensures r.None? <==> forall e :: e in exts ==> !EndsWith(filePath, e)
  {
    if exts == [] then None
    else if EndsWith(filePath, exts[0]) then Some(exts[0])
    else
      var r := FindExt(exts[1..], filePath);
      assert forall e :: e in exts ==> e == exts[0] || e in exts[1..];
      r
  }

  /**
   * `find` returns the first match: no extension listed before (the first
   * occurrence of) the one returned ends the path.
   */
  lemma {:induction false} FindExtFirstMatch(exts: seq<string>, filePath: string)
    ensures var r := FindExt(exts, filePath);
      r.Some? ==> forall e :: e in exts[..IndexOf(exts, r.value)] ==> !EndsWith(filePath, e)
  {
    var r := FindExt(exts, filePath);
    if exts != [] && !EndsWith(filePath, exts[0]) && r.Some? {
      FindExtFirstMatch(exts[1..], filePath);
      assert IndexOf(exts, r.value) == IndexOf(exts[1..], r.value) + 1;
      assert exts[..IndexOf(exts, r.value)] == [exts[0]] + exts[1..][..IndexOf(exts[1..], r.value)];
    }
  }

  /** Of a longest-first list, `find` returns an extension at least as long as any other that ends the path. */
  lemma {:induction false} FindExtLongest(exts: seq<string>, filePath: string)
    requires LongestFirst(exts)
    ensures var r := FindExt(exts, filePath);
      r.Some? ==> forall e :: e in exts && EndsWith(filePath, e) ==> |e| <= |r.value|
  {
    if exts != [] && !EndsWith(filePath, exts[0]) {
      FindExtLongest(exts[1..], filePath);
      assert forall e :: e in exts ==> e == exts[0] || e in exts[1..];
    }
  }

  /**
   * Among longest-first lists, the order does not matter: lists with the
   * same extensions find the same one, so extensions of equal length may
   * come in any order.
   */
  lemma FindExtOrderIrrelevant(a: seq<string>, b: seq<string>, filePath: string)
    requires LongestFirst(a) && LongestFirst(b)
    requires forall e :: e in a <==> e in b
    ensures FindExt(a, filePath) == FindExt(b, filePath)
  {
    var ra, rb := FindExt(a, filePath), FindExt(b, filePath);
    if ra.Some? && rb.Some? {
      FindExtLongest(a, filePath);
      FindExtLongest(b, filePath);
      assert ra.value == rb.value;
    }
  }

  /** The path with the extension `ext` that ends it replaced by `outExt`. */
  function ReplaceExt(filePath: string, ext: string, outExt: string): string
    requires |ext| <= |filePath|
  {
    filePath[..|filePath| - |ext|] + outExt
  }

  /**
   * `getOutputFilePath(filePath)`: the first listed extension that ends the
   * path is replaced by the output extension; a path no extension ends is
   * returned as it is.
   */
  function OutputFilePath(exts: seq<string>, outExt: string, filePath: string): string
  {
    match FindExt(exts, filePath)
    case Some(ext) => ReplaceExt(filePath, ext, outExt)
    case None => filePath
  }

  /**
   * After the sort, the rewrite replaces the longest extension that ends the
   * path, keeping everything before it, and leaves a path no extension ends
   * unchanged.
   */
  lemma OutputFilePathReplacesLongest(exts: seq<string>, outExt: string, filePath: string, ext: string)
    requires LongestFirst(exts)
    ensures (forall e :: e in exts ==> !EndsWith(filePath, e)) ==> OutputFilePath(exts, outExt, filePath) == filePath
    ensures (ext in exts && EndsWith(filePath, ext) &&
             (forall e :: e in exts && EndsWith(filePath, e) ==> |e| <= |ext|)) ==>
      OutputFilePath(exts, outExt, filePath) == filePath[..|filePath| - |ext|] + outExt
  {
    var r := FindExt(exts, filePath);
    if r.Some? && ext in exts && EndsWith(filePath, ext) {
      FindExtLongest(exts, filePath);
      if forall e :: e in exts && EndsWith(filePath, e) ==> |e| <= |ext| {
        assert r.value == ext;
      }
    }
  }

  /** A rewritten path differs from the source path unless the extension is already the output one. */
  lemma OutputFilePathMoves(exts: seq<string>, outExt: string, filePath: string)
    requires FindExt(exts, filePath).Some? && FindExt(exts, filePath).value != outExt
    ensures OutputFilePath(exts, outExt, filePath) != filePath
  {
    var ext := FindExt(exts, filePath).value;
    var pre := filePath[..|filePath| - |ext|];
    var r := OutputFilePath(exts, outExt, filePath);
    assert r == pre + outExt;
    assert filePath == pre + ext;
  }

  /** `s.slice(0, end)`, with a negative end counted from the end of the string. */
  function SliceTo(s: string, end: int): (r: string)
    ensures IsPrefix(r, s)
    ensures 0 <= end ==> |r| == if end <= |s| then end else |s|
    ensures end < 0 ==> |r| == if -end <= |s| then |s| + end else 0
  {
    var e := if end < 0 then (if |s| + end < 0 then 0 else |s| + end) else (if end > |s| then |s| else end);
    s[..e]
  }

  /**
   * `getOutputFilePath` as the source writes it, with
   * `filePath.slice(0, -1 * foundExt.length)`: for an empty extension the
   * end is -0, which `slice` reads as 0, and the whole path is dropped.
   */
  function OutputFilePathAsWritten(exts: seq<string>, outExt: string, filePath: string): string
  {
    match FindExt(exts, filePath)
    case Some(ext) => SliceTo(filePath, -1 * |ext|) + outExt
    case None => filePath
  }

  /** The source's rewrite agrees with the intended one whenever the extension found is not empty. */
  lemma AsWrittenAgreesOnNonEmpty(exts: seq<string>, outExt: string, filePath: string)
    requires FindExt(exts, filePath).None? || FindExt(exts, filePath).value != []
    ensures OutputFilePathAsWritten(exts, outExt, filePath) == OutputFilePath(exts, outExt, filePath)
  {
  }

  /** An empty extension in the list turns "/out/a" into ".js" instead of "/out/a.js". */
  lemma EmptyExtensionDropsPath()
    ensures OutputFilePathAsWritten([""], ".js", "/out/a") == ".js"
    ensures OutputFilePath([""], ".js", "/out/a") == "/out/a.js"
  {
    assert EndsWith("/out/a", "");
    assert FindExt([""], "/out/a") == Some("");
  }

  // ---------------------------------------------------------------------------
  // The restart counter and the gate of execute (index.ts:61-63, 110-117)
  // ---------------------------------------------------------------------------

  /** `incrementRestartId`: the counter wraps at 1024. */
  function Increment(restartId: int): int
  {
    (restartId + 1) % 1024
  }

  /** The counter after `n` increments. */
  function Bump(restartId: int, n: nat): (r: int)
    ensures n > 0 ==> 0 <= r < 1024
  {
    if n == 0 then restartId else Increment(Bump(restartId, n - 1))
  }

  /** From any value in range, `n` increments add `n` modulo 1024. */
  lemma {:induction false} BumpIsModular(restartId: int, n: nat)
    requires 0 <= restartId < 1024
    ensures Bump(restartId, n) == (restartId + n) % 1024
  {
    if n > 0 {
      BumpIsModular(restartId, n - 1);
      var x := restartId + n - 1;
      assert Bump(restartId, n) == Increment(x % 1024);
      ModSucc(x);
    }
  }

  /** Reducing before or after the increment gives the same counter. */
  lemma ModSucc(x: int)
    ensures (x % 1024 + 1) % 1024 == (x + 1) % 1024
  {
  }

  /** The gate of `execute`: a command is set, and the counter moved since the last start, or nothing started yet. */
  predicate Fires(execute: string, lastRestartId: int, restartId: int)
  {
    execute != "" && !(lastRestartId != 0 && lastRestartId == restartId)
  }

  /**
   * Once `execute` started the program at counter value `r` (and recorded
   * `r`), it starts it again after `n` more increments exactly when `r` is 0
   * or `n` is not a multiple of 1024: a restart is lost when the counter
   * came all the way round.
   */
  lemma RefiresAfterIncrements(execute: string, r: int, n: nat)
    requires execute != "" && 0 <= r < 1024
    ensures Fires(execute, r, Bump(r, n)) <==> r == 0 || n % 1024 != 0
  {
    BumpIsModular(r, n);
    var q := (r + n) / 1024;
    assert r + n == 1024 * q + Bump(r, n);
    if n % 1024 == 0 {
      assert r + n == 1024 * (n / 1024) + r;
    }
    if Bump(r, n) == r {
      assert n == 1024 * q;
    }
  }

  // ---------------------------------------------------------------------------
  // processFile and the cache (index.ts:76-108, 143-153)
  // ---------------------------------------------------------------------------

  /** `config.sourceMaps`: `false`, `true` or "inline". */
  datatype SourceMaps = NoMaps | Maps | InlineMaps

  /** The fields of the merged config the orchestration reads, with the platform and the hash. */
  datatype Settings = Settings(
    sourceDirectory: Path,
    outputDirectory: Path,
    outputFileExtension: string,
    sourceMaps: SourceMaps,
    execute: string,
    nodeArgs: seq<string>,
    programArgs: seq<string>,
    ignoredForRestart: Option<string -> bool>,  // None: a falsy `ignoredForRestart`; the glob matcher is left uninterpreted
    platformSep: char,                          // `path.sep`
    sha1: string -> string)                     // `getSha1`

  /** What the Babel transform gives when it gives code. */
  datatype Transformed = Transformed(code: string, sourceMap: string)

  /** The output files, by path, and the content-hash cache, from `sha1(sourceFile)` to `sha1(contents)`. */
  datatype Store = Store(files: map<string, string>, cache: map<string, string>)

  /** The skip test of the initial pass: the output exists and the cache holds the hash of these contents. */
  predicate Fresh(st: Store, sha1: string -> string, sourceFile: string, outputFile: string, contents: string)
  {
    outputFile in st.files && sha1(sourceFile) in st.cache && st.cache[sha1(sourceFile)] == sha1(contents)
  }

  /** The comment that points the output at its source map. */
  function MapComment(mapFile: string): string
  {
    "\n\n//# sourceMappingURL=" + Basename(mapFile)
  }

  /** The file is transformed, and every write it starts completes. */
  predicate Succeeds(s: Settings, exts: seq<string>, sourceFile: string, transformed: Option<Transformed>,
                     outputWritten: bool, mapWritten: bool)
  {
    ExtName(sourceFile) in exts && transformed.Some? && outputWritten && (s.sourceMaps == Maps ==> mapWritten)
  }

  /**
   * `processFile(sourceFile, outputFile, contents)`: nothing happens for an
   * extension outside the list or when the transform gives no code;
   * otherwise the output (with the source-map comment when `sourceMaps` is
   * `true`) and, for `true` only, the map file are written, each write
   * taking effect when it completes; the cache entry is set only when every
   * write completed. A failing `makeDir` is a run where neither write completes.
   */
  function Process(s: Settings, exts: seq<string>, st: Store, sourceFile: string, outputFile: string, contents: string,
                   transformed: Option<Transformed>, outputWritten: bool, mapWritten: bool): Store
  {
    if ExtName(sourceFile) !in exts || transformed.None? then st
    else
      var mapFile := outputFile + ".map";
      var code := transformed.value.code + (if s.sourceMaps == Maps then MapComment(mapFile) else "");
      var files := if outputWritten then st.files[outputFile := code] else st.files;
      var files := if s.sourceMaps == Maps && mapWritten then files[mapFile := transformed.value.sourceMap] else files;
      var cache :=
        if Succeeds(s, exts, sourceFile, transformed, outputWritten, mapWritten)
        then st.cache[s.sha1(sourceFile) := s.sha1(contents)] else st.cache;
      Store(files, cache)
  }

  /** A file processed to the end is fresh: the next initial pass skips it while its contents stay the same. */
  lemma SuccessMakesFresh(s: Settings, exts: seq<string>, st: Store, sourceFile: string, outputFile: string,
                          contents: string, transformed: Option<Transformed>, outputWritten: bool, mapWritten: bool)
    requires Succeeds(s, exts, sourceFile, transformed, outputWritten, mapWritten)
    ensures Fresh(Process(s, exts, st, sourceFile, outputFile, contents, transformed, outputWritten, mapWritten),
                  s.sha1, sourceFile, outputFile, contents)
  {
    var mapFile := outputFile + ".map";
    assert |mapFile| > |outputFile| && mapFile != outputFile;
  }

  /**
   * The cache changes only when the file was processed to the end; an
   * extension outside the list or a transform without code changes nothing.
   */
  lemma CacheOnlyOnSuccess(s: Settings, exts: seq<string>, st: Store, sourceFile: string, outputFile: string,
                           contents: string, transformed: Option<Transformed>, outputWritten: bool, mapWritten: bool)
    ensures var r := Process(s, exts, st, sourceFile, outputFile, contents, transformed, outputWritten, mapWritten);
      !Succeeds(s, exts, sourceFile, transformed, outputWritten, mapWritten) ==> r.cache == st.cache
    ensures var r := Process(s, exts, st, sourceFile, outputFile, contents, transformed, outputWritten, mapWritten);
      ExtName(sourceFile) !in exts || transformed.None? ==> r == st
  {
  }

  /**
   * With `sourceMaps` `true` the output ends with the comment naming the
   * map file, which holds the map; otherwise the output is the code alone
   * and no map file is written.
   */
  lemma SourceMapsWritten(s: Settings, exts: seq<string>, st: Store, sourceFile: string, outputFile: string,
                          contents: string, code: string, sourceMap: string)
    requires ExtName(sourceFile) in exts
    ensures var mapFile := outputFile + ".map";
      var r := Process(s, exts, st, sourceFile, outputFile, contents, Some(Transformed(code, sourceMap)), true, true);
      && (s.sourceMaps == Maps ==>
            r.files[outputFile] == code + "\n\n//# sourceMappingURL=" + Basename(mapFile) && r.files[mapFile] == sourceMap)
      && (s.sourceMaps != Maps ==>
            r.files[outputFile] == code &&
            (mapFile in r.files <==> mapFile in st.files) &&
            (mapFile in st.files ==> r.files[mapFile] == st.files[mapFile]))
  {
    var mapFile := outputFile + ".map";
    assert mapFile != outputFile by {
      assert |mapFile| == |outputFile| + 4;
    }
  }

  // ---------------------------------------------------------------------------
  // The supervised program (index.ts:110-138)
  // ---------------------------------------------------------------------------

  /** What `execute` does to child processes, each named by the order of its spawn. */
  datatype ChildEvent = Killed(child: nat) | Spawned(child: nat, args: seq<string>)

  /** The children spawned and not killed since. */
  function Tracked(log: seq<ChildEvent>): set<nat>
  {
    if log == [] then {}
    else
      var before := Tracked(log[..|log| - 1]);
      match log[|log| - 1]
      case Killed(c) => before - {c}
      case Spawned(c, _) => before + {c}
  }

  /** The arguments the program is started with: `nodeArgs.concat([execute]).concat(programArgs)`. */
  function SpawnArgs(s: Settings): (r: seq<string>)
    ensures |r| == |s.nodeArgs| + 1 + |s.programArgs|
    ensures r[..|s.nodeArgs|] == s.nodeArgs && r[|s.nodeArgs|] == s.execute
    ensures r[|s.nodeArgs| + 1..] == s.programArgs
  {
    s.nodeArgs + [s.execute] + s.programArgs
  }

  /** What a firing `execute` adds to the log: the kill of the tracked child, then the spawn when it succeeds. */
  function Restart(tracked: Option<nat>, next: nat, args: seq<string>, spawnOk: bool): seq<ChildEvent>
  {
    (if tracked.Some? then [Killed(tracked.value)] else []) + (if spawnOk then [Spawned(next, args)] else [])
  }

  /**
   * Killing before spawning keeps at most one child tracked: after a
   * restart only the new child is, or none when the spawn threw.
   */
  lemma {:induction false} RestartTracksOne(log: seq<ChildEvent>, tracked: Option<nat>, next: nat, args: seq<string>, spawnOk: bool)
    requires Tracked(log) == if tracked.Some? then {tracked.value} else {}
    ensures Tracked(log + Restart(tracked, next, args, spawnOk)) == if spawnOk then {next} else {}
  {
    var killed := log + (if tracked.Some? then [Killed(tracked.value)] else []);
    if tracked.Some? {
      assert killed[..|killed| - 1] == log && killed[|killed| - 1] == Killed(tracked.value);
    } else {
      assert killed == log;
    }
    assert Tracked(killed) == {};
    assert log + Restart(tracked, next, args, spawnOk) == killed + (if spawnOk then [Spawned(next, args)] else []);
    if spawnOk {
      assert (killed + [Spawned(next, args)])[..|killed|] == killed;
    }
  }

  // ---------------------------------------------------------------------------
  // The state of `main` and its events (index.ts:42-216)
  // ---------------------------------------------------------------------------

  /** A job of the transformation queue. */
  datatype Job =
    | Initial(sourceFile: string, outputFile: string, contents: string)  // from the initial pass, contents already read
    | Watched(sourceFile: string, outputFile: string)                    // from `add` or `change`, read when it runs

  /**
   * What running a job does to the store: an initial job processes the
   * contents read by the initial pass; a watcher job reads the file first
   * (`read`), and processes nothing when that fails.
   */
  function Settle(s: Settings, exts: seq<string>, st: Store, job: Job, read: Option<string>,
                  transformed: Option<Transformed>, outputWritten: bool, mapWritten: bool): Store
  {
    var contents := if job.Initial? then Some(job.contents) else read;
    if contents.None? then st
    else Process(s, exts, st, job.sourceFile, job.outputFile, contents.value, transformed, outputWritten, mapWritten)
  }

  /** `config.ignoredForRestart && anymatch(config.ignoredForRestart, posixifyPath(sourceFile))`. */
  predicate IgnoredForRestart(s: Settings, sourceFile: string)
  {
    s.ignoredForRestart.Some? && s.ignoredForRestart.value(Helpers.PosixifyPath(sourceFile, s.platformSep))
  }

  /** The variables of `main` that its callbacks update. */
  class Session {
    const settings: Settings
    var extensions: seq<string>    // `config.extensions`, sorted
    var restartId: int
    var lastRestartId: int
    var spawned: Option<nat>       // `spawnedProcess`
    var nextChild: nat             // the name the next spawned child gets
    ghost var children: seq<ChildEvent>
    var armed: bool                // a call of the debounced `execute` waits for its timer
    var watching: bool             // the watchers and `onIdle(execute)` are set up
    var store: Store
    var queue: seq<Job>

    ghost predicate Valid()
      reads this`restartId, this`lastRestartId, this`extensions, this`spawned, this`nextChild, this`children
    {
      && 0 <= restartId < 1024 && 0 <= lastRestartId < 1024
      && LongestFirst(extensions)
      && Tracked(children) == (if spawned.Some? then {spawned.value} else {})
      && (spawned.Some? ==> spawned.value < nextChild)
    }

    /** The start of `main`: the extension list is sorted in place, the counters are 0, nothing runs. */
    constructor (s: Settings, exts: array<string>, st: Store)
      modifies exts
      ensures Valid()
      ensures settings == s && extensions == exts[..] && multiset(extensions) == multiset(old(exts[..]))
      ensures restartId == 0 && lastRestartId == 0 && spawned == None && nextChild == 0 && children == []
      ensures !armed && !watching && store == st && queue == []
    {
      SortLongestFirst(exts);
      settings := s;
      extensions := exts[..];
      restartId, lastRestartId := 0, 0;
      spawned, nextChild, children := None, 0, [];
      armed, watching := false, false;
      store, queue := st, [];
    }

    /** `getOutputFilePath`. */
    function GetOutputFilePath(filePath: string): string
      reads this
    {
      OutputFilePath(extensions, settings.outputFileExtension, filePath)
    }

    /** `incrementRestartId`. */
    method IncrementRestartId()
      requires Valid()
      modifies this`restartId
      ensures Valid() && restartId == Increment(old(restartId))
    {
      restartId := (restartId + 1) % 1024;
    }

    /** The callback of the initial pass: skip a fresh file, queue the others with the contents read. */
    method InitialCallback(sourceFile: string, outputFile: string, contents: string)
      modifies this`queue
      ensures Fresh(store, settings.sha1, sourceFile, outputFile, contents) ==> queue == old(queue)
      ensures !Fresh(store, settings.sha1, sourceFile, outputFile, contents) ==>
        queue == old(queue) + [Initial(sourceFile, outputFile, contents)]
    {
      var cached := if settings.sha1(sourceFile) in store.cache then Some(store.cache[settings.sha1(sourceFile)]) else None;
      if outputFile in store.files && cached == Some(settings.sha1(contents)) {
        return;
      }
      queue := queue + [Initial(sourceFile, outputFile, contents)];
    }

    /**
     * The end of `main` in watch mode: the handlers are set up and
     * `execute()` is called once.
     */
    method StartWatching()
      modifies this`watching, this`armed
      ensures watching && armed
    {
      watching := true;
      armed := true;
    }

    /**
     * The `add` and `change` handlers, for the path `rel` below the source
     * directory: queue a job for the source file and its rewritten output path.
     */
    method OnAddOrChange(rel: Path)
      modifies this`queue
      ensures queue == old(queue) +
        [Watched(Str(settings.sourceDirectory + rel), GetOutputFilePath(Str(settings.outputDirectory + rel)))]
    {
      var sourceFile := Str(settings.sourceDirectory + rel);
      var outputFile := Str(settings.outputDirectory + rel);
      queue := queue + [Watched(sourceFile, GetOutputFilePath(outputFile))];
    }

    /**
     * The queue runs its first job: an initial job processes the contents
     * read before, a watcher job reads the file first (`read` is None when
     * that fails, and then nothing is processed). In watch mode a queue
     * that runs empty calls `execute`. The job run is returned, for
     * `JobSettled`.
     */
    method RunNextJob(read: Option<string>, transformed: Option<Transformed>, outputWritten: bool, mapWritten: bool)
      returns (ran: Option<Job>)
      modifies this`queue, this`store, this`armed
      ensures old(queue) == [] ==> ran == None && queue == [] && store == old(store) && armed == old(armed)
      ensures old(queue) != [] ==>
        && ran == Some(old(queue)[0])
        && queue == old(queue)[1..]
        && store == Settle(settings, extensions, old(store), old(queue)[0], read, transformed, outputWritten, mapWritten)
        && armed == (old(armed) || (watching && queue == []))
    {
      if queue == [] {
        return None;
      }
      ran := Some(queue[0]);
      store := Settle(settings, extensions, store, queue[0], read, transformed, outputWritten, mapWritten);
      queue := queue[1..];
      armed := armed || (watching && queue == []);
    }

    /**
     * Once a watcher job has settled, whether it succeeded or failed, the
     * counter goes up unless `ignoredForRestart` matches its source path.
     */
    method JobSettled(job: Job)
      requires Valid()
      modifies this`restartId
      ensures Valid()
      ensures restartId ==
        (if job.Watched? && !IgnoredForRestart(settings, job.sourceFile) then Increment(old(restartId))
         else old(restartId))
    {
      if job.Watched? && !IgnoredForRestart(settings, job.sourceFile) {
        IncrementRestartId();
      }
    }

    /** A chunk on standard input: a trimmed "rs" increments the counter and calls `execute`. */
    method OnStdin(chunk: string)
      requires Valid()
      modifies this`restartId, this`armed
      ensures Valid()
      ensures var rs := settings.execute != "" && Trim(chunk) == "rs";
        && restartId == (if rs then Increment(old(restartId)) else old(restartId))
        && armed == (old(armed) || rs)
    {
      if settings.execute != "" && Trim(chunk) == "rs" {
        IncrementRestartId();
        armed := true;
      }
    }

    /**
     * The `unlink` handler: removes the output path of the same name, with
     * no extension rewrite; a failure (nothing there) is ignored.
     */
    method OnUnlink(rel: Path)
      modifies this`store
      ensures store == Store(old(store).files - {Str(settings.outputDirectory + rel)}, old(store).cache)
    {
      var outputFile := Str(settings.outputDirectory + rel);
      store := Store(store.files - {outputFile}, store.cache);
    }

    /**
     * The debounce timer runs the pending `execute`: when a command is set
     * and the counter moved since the last start (or nothing started yet),
     * it records the counter, kills the tracked child and spawns the program
     * again; `spawnOk` is false when `spawn` throws.
     */
    method Fire(spawnOk: bool)
      requires Valid()
      modifies this`armed, this`lastRestartId, this`spawned, this`nextChild, this`children
      ensures Valid()
      ensures !armed
      ensures !(old(armed) && Fires(settings.execute, old(lastRestartId), restartId)) ==>
        lastRestartId == old(lastRestartId) && spawned == old(spawned) &&
        nextChild == old(nextChild) && children == old(children)
      ensures old(armed) && Fires(settings.execute, old(lastRestartId), restartId) ==>
        && lastRestartId == restartId
        && children == old(children) + Restart(old(spawned), old(nextChild), SpawnArgs(settings), spawnOk)
        && spawned == (if spawnOk then Some(old(nextChild)) else None)
        && nextChild == old(nextChild) + (if spawnOk then 1 else 0)
    {
      if !armed {
        return;
      }
      armed := false;
      if settings.execute == "" {
        return;
      }
      if lastRestartId != 0 && lastRestartId == restartId {
        return;
      }
      lastRestartId := restartId;
      var args := SpawnArgs(settings);
      // `kill('SIGINT')` on the tracked child, then `spawn`
      RestartTracksOne(children, spawned, nextChild, args, spawnOk);
      children := children + Restart(spawned, nextChild, args, spawnOk);
      spawned := if spawnOk then Some(nextChild) else None;
      nextChild := nextChild + (if spawnOk then 1 else 0);
    }
  }

  /**
   * The `unlink` handler removes the unrewritten path: when the rewrite
   * moves the output (a `.ts` source compiled to `.js`), the compiled output
   * stays behind.
   */
  lemma UnlinkLeavesRewrittenOutput(exts: seq<string>, outExt: string, files: map<string, string>, outputFile: string)
    requires FindExt(exts, outputFile).Some? && FindExt(exts, outputFile).value != outExt
    requires OutputFilePath(exts, outExt, outputFile) in files
    ensures OutputFilePath(exts, outExt, outputFile) in files - {outputFile}
  {
    OutputFilePathMoves(exts, outExt, outputFile);
  }
}
