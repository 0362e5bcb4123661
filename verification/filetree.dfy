/**
 * The two file systems the tree walk touches.
 *
 * The source tree is only read: each directory is the listing `readdir`
 * returns, in order, with what `lstat` says about every entry. The output
 * tree is changed in place: it is a volume mapping every existing absolute
 * path to what `stat` says about it, held by a `Disk` whose methods are
 * `del`/`rimraf` (remove a whole subtree) and `makeDir`/`mkdirp` (create a
 * directory and its missing ancestors).
 */
module FileTree {
  import opened Common

  /** What `lstat` reports about a source entry. */
  datatype Node =
    | File(contents: string, mode: int)
    | Dir(entries: seq<Entry>)
    | Symlink
    | Special  // a FIFO, socket or device: neither isFile() nor isDirectory()

  datatype Entry = Entry(name: string, node: Node)

  /** The names `readdir` returns, in listing order. */
  function Names(entries: seq<Entry>): (r: seq<string>)
    ensures |r| == |entries|
    ensures forall i :: 0 <= i < |entries| ==> r[i] == entries[i].name
  {
    if entries == [] then [] else Names(entries[..|entries| - 1]) + [entries[|entries| - 1].name]
  }

  /** What `stat` reports about an existing output path. */
  datatype Kind = FileKind | DirKind

  type Volume = map<Path, Kind>

  /** Every proper ancestor of an existing path exists and is a directory. */
  ghost predicate TreeShaped(v: Volume)
  {
    forall p, k :: p in v && 0 <= k < |p| ==> p[..k] in v && v[p[..k]] == DirKind
  }

  /** No proper ancestor of `d` is a regular file. */
  ghost predicate NoFileAbove(v: Volume, d: Path)
  {
    forall k :: 0 <= k < |d| && d[..k] in v ==> v[d[..k]] == DirKind
  }

  /** The names directly inside `d`. */
  function Children(v: Volume, d: Path): (r: set<string>)
    ensures forall n :: n in r <==> d + [n] in v
  {
    var r := set p | p in v && |p| == |d| + 1 && p[..|d|] == d :: p[|d|];
    assert forall n :: d + [n] in v ==> (d + [n])[..|d|] == d && n in r;
    forall n | n in r ensures d + [n] in v {
      var p :| p in v && |p| == |d| + 1 && p[..|d|] == d && p[|d|] == n;
      assert p == p[..|d|] + [p[|d|]];
    }
    r
  }

  /**
   * What `readdir` on the output directory yields: nothing unless it is a
   * directory. On a well-formed volume that is every name below `d`, since a
   * path that has children is a directory.
   */
  function Listing(v: Volume, d: Path): (r: set<string>)
    ensures forall n :: n in r ==> d + [n] in v
    ensures TreeShaped(v) ==> r == Children(v, d)
    ensures d !in v ==> r == {}
  {
    assert forall n | TreeShaped(v) && d + [n] in v :: IsDirIn(v, d) by {
      forall n | TreeShaped(v) && d + [n] in v ensures IsDirIn(v, d) {
        assert (d + [n])[..|d|] == d;
      }
    }
    if IsDirIn(v, d) then Children(v, d) else {}
  }

  /** The volume after removing `d` and everything below it. */
  function Removed(v: Volume, d: Path): (r: Volume)
    ensures forall p :: p in r <==> p in v && !IsPrefix(d, p)
    ensures forall p :: p in r ==> r[p] == v[p]
    ensures d !in r
    ensures d != [] ==> Children(r, d[..|d| - 1]) == Children(v, d[..|d| - 1]) - {d[|d| - 1]}
  {
    var r := map p | p in v && !IsPrefix(d, p) :: v[p];
    assert d != [] ==> forall n :: IsPrefix(d, d[..|d| - 1] + [n]) <==> n == d[|d| - 1] by {
      if d != [] {
        assert d == d[..|d| - 1] + [d[|d| - 1]];
      }
    }
    r
  }

  /** `p` lies in (or is) the child of `d` named by one of `names`. */
  predicate BelowOneOf(d: Path, names: set<string>, p: Path)
  {
    |d| < |p| && p[..|d|] == d && p[|d|] in names
  }

  /** The volume after removing the children of `d` named in `names`, with their subtrees. */
  function Swept(v: Volume, d: Path, names: set<string>): (r: Volume)
    ensures forall p :: p in r <==> p in v && !BelowOneOf(d, names, p)
    ensures forall p :: p in r ==> r[p] == v[p]
    ensures Children(r, d) == Children(v, d) - names
  {
    var r := map p | p in v && !BelowOneOf(d, names, p) :: v[p];
    assert forall n :: d + [n] in r <==> d + [n] in v && n !in names by {
      forall n ensures BelowOneOf(d, names, d + [n]) <==> n in names {
        assert (d + [n])[..|d|] == d;
      }
    }
    r
  }

  /**
   * The level's type-mismatch recovery: an output path that exists but is
   * not a directory is removed before the walk treats it as absent.
   */
  function Recovered(v: Volume, d: Path): (r: Volume)
    ensures d in v && v[d] == FileKind ==> d !in r
    ensures !(d in v && v[d] == FileKind) ==> r == v
    ensures forall p :: p in v && !IsPrefix(d, p) ==> p in r && r[p] == v[p]
    ensures forall p :: p in r ==> p in v && r[p] == v[p]
  {
    if d in v && v[d] == FileKind then Removed(v, d) else v
  }

  /** The ancestors of `d` and `d` itself. */
  function Prefixes(d: Path): (r: set<Path>)
    ensures forall p :: p in r <==> IsPrefix(p, d)
  {
    set k | 0 <= k <= |d| :: d[..k]
  }

  /** The volume after a recursive `makeDir(d)`: `d` and its missing ancestors become directories. */
  function Made(v: Volume, d: Path): (r: Volume)
    ensures forall p :: p in r <==> p in v || IsPrefix(p, d)
    ensures forall p :: p in v ==> r[p] == v[p]
    ensures forall p :: p in r && p !in v ==> r[p] == DirKind
  {
    v + map p | p in Prefixes(d) && p !in v :: DirKind
  }

  lemma RemovedKeepsTree(v: Volume, d: Path)
    requires TreeShaped(v)
    ensures TreeShaped(Removed(v, d))
  {
    var r := Removed(v, d);
    forall p, k | p in r && 0 <= k < |p| ensures p[..k] in r && r[p[..k]] == DirKind {
    }
  }

  lemma SweptKeepsTree(v: Volume, d: Path, names: set<string>)
    requires TreeShaped(v)
    ensures TreeShaped(Swept(v, d, names))
  {
    var r := Swept(v, d, names);
    forall p, k | p in r && 0 <= k < |p| ensures p[..k] in r && r[p[..k]] == DirKind {
    }
  }

  /** Creating a directory whose ancestors are directories (or missing) keeps the volume a tree. */
  lemma MadeKeepsTree(v: Volume, d: Path)
    requires TreeShaped(v) && NoFileAbove(v, d)
    requires d !in v || v[d] == DirKind
    ensures TreeShaped(Made(v, d))
  {
    var r := Made(v, d);
    forall p, k | p in r && 0 <= k < |p| ensures p[..k] in r && r[p[..k]] == DirKind {
      if p !in v {
        assert IsPrefix(p[..k], d);
        if p[..k] in v {
          assert p[..k] == d[..k];
        }
      }
    }
  }

  /** Removing one more child of `d` extends the set of swept names. */
  lemma RemovedChildIsSwept(v: Volume, d: Path, names: set<string>, n: string)
    ensures Removed(Swept(v, d, names), d + [n]) == Swept(v, d, names + {n})
  {
    var a := Removed(Swept(v, d, names), d + [n]);
    var b := Swept(v, d, names + {n});
    forall p ensures p in a <==> p in b {
      if |d| < |p| && p[..|d|] == d {
        assert IsPrefix(d + [n], p) <==> p[|d|] == n by {
          if p[|d|] == n { assert p[..|d| + 1] == d + [n]; }
          if IsPrefix(d + [n], p) { assert p[..|d| + 1][|d|] == n; }
        }
      } else {
        assert !IsPrefix(d + [n], p);
      }
    }
    assert a == b;
  }

  /** `d` exists and is a directory. */
  predicate IsDirIn(v: Volume, d: Path)
  {
    d in v && v[d] == DirKind
  }

  /**
   * Going from `v` to `w` changed nothing outside the subtree at `d`, except
   * that missing ancestors of `d` may have been created as directories.
   */
  ghost predicate OnlyBelow(v: Volume, w: Volume, d: Path)
  {
    && (forall p :: p in v && !IsPrefix(d, p) ==> p in w && w[p] == v[p])
    && (forall p :: p in w && p !in v && !IsPrefix(d, p) ==> IsPrefix(p, d) && w[p] == DirKind)
  }

  /**
   * Outside the children of `d` named in `names`, `w` still holds every path
   * of `v` with its kind, and holds nothing new but `d` and its ancestors as
   * directories.
   */
  ghost predicate KeptOutside(v: Volume, w: Volume, d: Path, names: set<string>)
  {
    && (forall p :: p in v && !BelowOneOf(d, names, p) ==> p in w && w[p] == v[p])
    && (forall p :: p in w && p !in v && !BelowOneOf(d, names, p) ==> IsPrefix(p, d) && w[p] == DirKind)
  }

  /** A `makeDir(d)` keeps what is kept outside the named children of `d`. */
  lemma KeptOutsideMade(u: Volume, v: Volume, d: Path, names: set<string>)
    requires KeptOutside(u, v, d, names)
    ensures KeptOutside(u, Made(v, d), d, names)
  {
  }

  /**
   * A change confined to the child `n` of `d` keeps what is kept outside the
   * named children, once `n` is named too.
   */
  lemma KeptOutsideChild(u: Volume, v: Volume, w: Volume, d: Path, names: set<string>, n: string)
    requires KeptOutside(u, v, d, names) && OnlyBelow(v, w, d + [n])
    ensures KeptOutside(u, w, d, names + {n})
  {
    forall p | !BelowOneOf(d, names + {n}, p)
      ensures !IsPrefix(d + [n], p)
      ensures IsPrefix(p, d + [n]) ==> IsPrefix(p, d)
    {
      if IsPrefix(p, d + [n]) && |p| <= |d| {
        assert d[..|p|] == (d + [n])[..|p|];
      }
    }
  }

  /**
   * A level that first only removed paths below `d` (giving `swept`) and then
   * kept `swept` outside some children of `d` changed nothing outside `d`.
   */
  lemma OnlyBelowFromKept(v: Volume, swept: Volume, w: Volume, d: Path, names: set<string>)
    requires forall p :: p in swept ==> p in v && swept[p] == v[p]
    requires forall p :: p in v && !IsPrefix(d, p) ==> p in swept
    requires KeptOutside(swept, w, d, names)
    ensures OnlyBelow(v, w, d)
  {
  }

  lemma OnlyBelowChild(v: Volume, w: Volume, d: Path, n: string)
    requires OnlyBelow(v, w, d + [n])
    ensures OnlyBelow(v, w, d)
  {
    forall p | IsPrefix(d + [n], p) ensures IsPrefix(d, p) {
      assert p[..|d|] == (d + [n])[..|d|];
    }
  }

  lemma OnlyBelowTrans(u: Volume, v: Volume, w: Volume, d: Path)
    requires OnlyBelow(u, v, d) && OnlyBelow(v, w, d)
    ensures OnlyBelow(u, w, d)
  {
  }

  /** What a level of the walk needs of the output volume before it visits an entry. */
  ghost predicate Ready(v: Volume, outDir: Path)
  {
    TreeShaped(v) && NoFileAbove(v, outDir) && (outDir in v ==> v[outDir] == DirKind)
  }

  lemma MadeReady(v: Volume, d: Path)
    requires Ready(v, d)
    ensures Ready(Made(v, d), d) && IsDirIn(Made(v, d), d)
    ensures OnlyBelow(v, Made(v, d), d)
  {
    MadeKeepsTree(v, d);
  }

  lemma ReadyChild(v: Volume, d: Path, n: string)
    requires Ready(v, d)
    ensures NoFileAbove(v, d + [n])
  {
    forall k | 0 <= k < |d| + 1 && (d + [n])[..k] in v ensures v[(d + [n])[..k]] == DirKind {
      if k < |d| {
        assert (d + [n])[..k] == d[..k];
      } else {
        assert (d + [n])[..k] == d;
      }
    }
  }

  lemma ReadyAfterChild(v: Volume, w: Volume, d: Path, n: string)
    requires Ready(v, d) && TreeShaped(w) && OnlyBelow(v, w, d + [n])
    ensures Ready(w, d) && OnlyBelow(v, w, d)
    ensures IsDirIn(v, d) ==> IsDirIn(w, d)
  {
    OnlyBelowChild(v, w, d, n);
    assert !IsPrefix(d + [n], d);
    forall k | 0 <= k < |d| ensures !IsPrefix(d + [n], d[..k]) {
    }
    forall k | 0 <= k < |d| && d[..k] in w ensures w[d[..k]] == DirKind {
      assert !IsPrefix(d + [n], d[..k]);
    }
  }

  /** The output side of the file system, changed in place by the walk. */
  class Disk {
    var entries: Volume

    constructor (v: Volume)
      ensures entries == v
    {
      entries := v;
    }

    /** `del(p)` / `rimraf(p)`: remove `p` with everything below it. */
    method Delete(p: Path)
      modifies this
      ensures entries == Removed(old(entries), p)
    {
      entries := Removed(entries, p);
    }

    /** `makeDir(d)` / `mkdirp(d)`: create `d` and its missing ancestors. */
    method MakeDir(d: Path)
      modifies this
      ensures entries == Made(old(entries), d)
    {
      entries := Made(entries, d);
    }

    /**
     * Remove the children of `d` named in `names`, one after the other (the
     * deletion sweep of a level); the order does not matter, since distinct
     * children have disjoint subtrees.
     */
    method DeleteChildren(d: Path, names: set<string>)
      modifies this
      ensures entries == Swept(old(entries), d, names)
    {
      var todo := names;
      ghost var done: set<string> := {};
      assert old(entries) == Swept(old(entries), d, {});
      while todo != {}
        invariant done + todo == names && done !! todo
        invariant entries == Swept(old(entries), d, done)
        decreases todo
      {
        var n :| n in todo;
        Delete(d + [n]);
        RemovedChildIsSwept(old(entries), d, done, n);
        todo, done := todo - {n}, done + {n};
      }
    }
  }
}
