/**
 * Values shared by every part of the model: an Option type, absolute paths as
 * sequences of segments, and the few string operations of Node's `path`
 * module and of `String.prototype` that the core relies on.
 */
module Common {

  datatype Option<+T> = None | Some(value: T)

  /** An absolute path, one directory or file name per segment. */
  type Path = seq<string>

  /** The separator `path.join` inserts on a POSIX platform. */
  const Sep: char := '/'

  /** A name as `readdir` returns it: non-empty and without a separator. */
  predicate IsName(n: string)
  {
    n != [] && Sep !in n
  }

  /** `path.join(dir, name)` for a normalised directory and a plain name. */
  function Join(dir: string, name: string): (r: string)
    ensures |r| == |dir| + 1 + |name|
    ensures r[..|dir|] == dir && r[|dir|] == Sep && r[|dir| + 1..] == name
  {
    dir + [Sep] + name
  }

  /** `path.basename(path.join(dir, name))` gives the name back. */
  lemma JoinedBasename(dir: string, name: string)
    requires IsName(name)
    ensures Basename(Join(dir, name)) == name
    ensures ExtName(Join(dir, name)) == ExtName(name)
  {
    var j := Join(dir, name);
    var i := LastIndexOf(j, Sep);
    assert j[|dir|] == Sep;
    assert i == |dir|;
    assert Basename(name) == name;
  }

  /** The string form of an absolute path: "/a/b" for ["a", "b"]. */
  function Str(p: Path): (r: string)
    ensures p == [] <==> r == []
  {
    if p == [] then [] else Join(Str(p[..|p| - 1]), p[|p| - 1])
  }

  /** Segments joined by the separator, with no leading one. */
  function JoinSegments(segs: seq<string>): string
  {
    if segs == [] then []
    else if |segs| == 1 then segs[0]
    else Join(JoinSegments(segs[..|segs| - 1]), segs[|segs| - 1])
  }

  /** `s.map(f)`. */
  function MapSeq<A, B>(f: A -> B, s: seq<A>): (r: seq<B>)
    ensures |r| == |s|
    ensures forall i :: 0 <= i < |s| ==> r[i] == f(s[i])
  {
    if s == [] then [] else MapSeq(f, s[..|s| - 1]) + [f(s[|s| - 1])]
  }

  predicate IsPrefix<T(==)>(a: seq<T>, b: seq<T>)
  {
    |a| <= |b| && b[..|a|] == a
  }

  function Repeat(s: string, n: nat): (r: seq<string>)
    ensures |r| == n && forall i :: 0 <= i < n ==> r[i] == s
  {
    if n == 0 then [] else Repeat(s, n - 1) + [s]
  }

  /**
   * `path.relative(from, to)` for two normalised absolute paths: drop their
   * common leading segments, then climb out of what is left of `from` and
   * descend into what is left of `to`.
   */
  function Relative(from: Path, to: Path): string
  {
    if from != [] && to != [] && from[0] == to[0] then Relative(from[1..], to[1..])
    else JoinSegments(Repeat("..", |from|) + to)
  }

  /** Below `from`, the relative path is the remaining segments joined. */
  lemma {:induction false} RelativeBelow(from: Path, to: Path)
    requires IsPrefix(from, to)
    ensures Relative(from, to) == JoinSegments(to[|from|..])
  {
    if from != [] {
      assert from[1..] == to[1..][..|from| - 1];
      RelativeBelow(from[1..], to[1..]);
      assert to[1..][|from| - 1..] == to[|from|..];
    } else {
      assert Repeat("..", 0) + to == to[0..];
    }
  }

  /** `s.endsWith(suffix)`. */
  predicate EndsWith(s: string, suffix: string)
  {
    |suffix| <= |s| && s[|s| - |suffix|..] == suffix
  }

  /** `s.indexOf(x)`: the index of the first occurrence of `x` in `s`, or -1 when there is none. */
  function IndexOf<T(==)>(s: seq<T>, x: T): (i: int)
    ensures -1 <= i < |s|
    ensures i >= 0 ==> s[i] == x && x !in s[..i]
    ensures i < 0 <==> x !in s
  {
    if s == [] then -1
    else if s[0] == x then 0
    else
      var j := IndexOf(s[1..], x);
      assert j >= 0 ==> s[..j + 1] == [s[0]] + s[1..][..j];
      assert x in s[1..] ==> x in s;
      assert s == [s[0]] + s[1..];
      if j < 0 then -1 else j + 1
  }

  /** A sequence is what comes before index `i`, the element at `i`, and what follows. */
  lemma SplitAround<T>(s: seq<T>, i: nat)
    requires i < |s|
    ensures s == s[..i] + [s[i]] + s[i + 1..]
  {
  }

  /** Taking one more element appends it. */
  lemma TakeSnoc<T>(s: seq<T>, i: nat)
    requires i < |s|
    ensures s[..i + 1] == s[..i] + [s[i]]
  {
  }

  lemma AppendAssoc<T>(a: seq<T>, b: seq<T>, c: seq<T>)
    ensures a + b + c == a + (b + c)
  {
  }

  /** Index of the last occurrence of `c` in `s`, or -1 when there is none. */
  function LastIndexOf(s: string, c: char): (i: int)
    ensures -1 <= i < |s|
    ensures i >= 0 ==> s[i] == c
    ensures forall j :: i < j < |s| ==> s[j] != c
  {
    if s == [] then -1
    else if s[|s| - 1] == c then |s| - 1
    else LastIndexOf(s[..|s| - 1], c)
  }

  /** `path.basename(p)` for a path string without a trailing separator. */
  function Basename(p: string): (r: string)
    ensures Sep !in r
    ensures EndsWith(p, r)
  {
    p[LastIndexOf(p, Sep) + 1..]
  }

  /**
   * The base name is everything after the last separator: it holds none, and
   * it is the whole path or what follows a separator.
   */
  lemma BasenameFollowsLastSep(p: string)
    ensures var r := Basename(p);
      Sep !in r && EndsWith(p, r) && (|r| < |p| ==> p[|p| - |r| - 1] == Sep)
  {
  }

  /** No '.' in `base` except perhaps a leading one. */
  predicate NoDotAfterFirst(base: string)
  {
    forall j :: 0 < j < |base| ==> base[j] != '.'
  }

  /**
   * `path.extname`: the part of the base name from its last '.', or "" when
   * the base name has no '.', starts with its only '.', or is "..".
   */
  function ExtName(p: string): (r: string)
    ensures r == [] || (r[0] == '.' && EndsWith(Basename(p), r) && '.' !in r[1..])
    ensures r != [] ==> |r| < |Basename(p)|
  {
    var base := Basename(p);
    var i := LastIndexOf(base, '.');
    if base == ".." || i <= 0 then [] else base[i..]
  }

  /** The extension is empty exactly when the base name is ".." or has no '.' after its first character. */
  lemma ExtNameEmptyIff(p: string)
    ensures ExtName(p) == [] <==> Basename(p) == ".." || NoDotAfterFirst(Basename(p))
  {
    var base := Basename(p);
    var i := LastIndexOf(base, '.');
    assert i > 0 ==> base[i] == '.' && !NoDotAfterFirst(base);
    assert i <= 0 ==> NoDotAfterFirst(base);
  }

  /** The characters `String.prototype.trim` removes (the ASCII and common Unicode ones). */
  const Spaces: set<char> :=
    {' ', '\t', '\n', '\r', '\U{000B}', '\U{000C}', '\U{00A0}', '\U{FEFF}', '\U{2028}', '\U{2029}'}

  predicate IsSpace(c: char)
  {
    c in Spaces
  }

  function TrimStart(s: string): (r: string)
    ensures EndsWith(s, r)
    ensures r == [] || !IsSpace(r[0])
    ensures forall i :: 0 <= i < |s| - |r| ==> IsSpace(s[i])
  {
    if s != [] && IsSpace(s[0]) then
      var r := TrimStart(s[1..]);
      assert s[|s| - |r|..] == s[1..][|s| - 1 - |r|..];
      r
    else s
  }

  function TrimEnd(s: string): (r: string)
    ensures IsPrefix(r, s)
    ensures r == [] || !IsSpace(r[|r| - 1])
    ensures forall i :: |r| <= i < |s| ==> IsSpace(s[i])
  {
    if s != [] && IsSpace(s[|s| - 1]) then TrimEnd(s[..|s| - 1]) else s
  }

  /** `s.trim()`. */
  function Trim(s: string): string
  {
    TrimEnd(TrimStart(s))
  }
}
