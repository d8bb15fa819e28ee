/**
 * Path strings: dirname, basename, the absolute-path test, path_join and the
 * right-folding variadic join. The separator and the absolute-path test are
 * those of the platform the library is built for.
 */
module FsUtil {
  import opened Wrappers

  datatype Platform = Posix | Windows

  /** path_sep: '\\' on Windows, '/' elsewhere. */
  function PathSep(plat: Platform): char {
    if plat == Windows then '\\' else '/'
  }

  /** A character of the set "/\\" that dirname and basename search for. */
  predicate IsSep(c: char) { c == '/' || c == '\\' }

  predicate HasSep(p: string) { exists k :: 0 <= k < |p| && IsSep(p[k]) }

  /** find_last_of("/\\"): the position of the last separator, None for npos. */
  function FindLastSep(p: string): (r: Option<nat>)
    ensures r.Some? ==> r.value < |p| && IsSep(p[r.value])
    ensures r.Some? ==> forall k :: r.value < k < |p| ==> !IsSep(p[k])
    ensures r.None? <==> !HasSep(p)
  {
    if |p| == 0 then None
    else if IsSep(p[|p| - 1]) then Some(|p| - 1)
    else
      var r := FindLastSep(p[..|p| - 1]);
      assert r.None? ==> !HasSep(p) by {
        if r.None? {
          forall k | 0 <= k < |p| ensures !IsSep(p[k]) {
            if k < |p| - 1 { assert p[..|p| - 1][k] == p[k]; }
          }
        }
      }
      r
  }

  /** find_first_of(c): the position of the first `c`, None for npos. */
  function FindFirst(p: string, c: char): (r: Option<nat>)
    ensures r.Some? ==> r.value < |p| && p[r.value] == c
    ensures r.Some? ==> forall k :: 0 <= k < r.value ==> p[k] != c
    ensures r.None? <==> forall k :: 0 <= k < |p| ==> p[k] != c
  {
    if |p| == 0 then None
    else if p[0] == c then Some(0)
    else
      var r := FindFirst(p[1..], c);
      assert forall k :: 1 <= k < |p| ==> p[1..][k - 1] == p[k];
      if r.Some? then Some(r.value + 1) else None
  }

  /** dirname: the part of `p` before its last separator; `p` itself when it
      has none. */
  function Dirname(p: string): (r: string)
    ensures !HasSep(p) ==> r == p
    ensures HasSep(p) ==>
      && |r| < |p| && r == p[..|r|] && IsSep(p[|r|])
      && forall k :: |r| < k < |p| ==> !IsSep(p[k])
  {
    match FindLastSep(p)
    case None => p
    case Some(i) => p[..i]
  }

  /** basename: the part of `p` after its last separator, which holds no
      separator; `p` itself when it has none. */
  function Basename(p: string): (r: string)
    ensures !HasSep(p) ==> r == p
    ensures HasSep(p) ==> |r| < |p| && r == p[|p| - |r|..] && IsSep(p[|p| - |r| - 1])
    ensures !HasSep(r)
  {
    match FindLastSep(p)
    case None => p
    case Some(i) => p[i + 1..]
  }

  /** A path with a separator is its dirname, that separator and its basename. */
  lemma DirnameBasenameSplit(p: string)
    requires HasSep(p)
    ensures |Dirname(p)| < |p|
    ensures Dirname(p) + [p[|Dirname(p)|]] + Basename(p) == p
  {
    var i := FindLastSep(p).value;
    assert p == p[..i] + [p[i]] + p[i + 1..];
  }

  /** isAbs: on POSIX a leading '/', on Windows any ':' in the path. */
  predicate IsAbs(plat: Platform, p: string) {
    match plat
    case Windows => FindFirst(p, ':').Some?
    case Posix => |p| > 0 && p[0] == '/'
  }

  /** isAbs in terms of the characters of the path. */
  lemma IsAbsMeaning(plat: Platform, p: string)
    ensures plat == Posix ==> (IsAbs(plat, p) <==> |p| > 0 && p[0] == '/')
    ensures plat == Windows ==> (IsAbs(plat, p) <==> exists k :: 0 <= k < |p| && p[k] == ':')
  {
  }

  /** path_join */
  function PathJoin(plat: Platform, p1: string, p2: string): string {
    if |p1| == 0 || IsAbs(plat, p2) then p2
    else if p1[|p1| - 1] == PathSep(plat) then p1 + p2
    else p1 + [PathSep(plat)] + p2
  }

  /** path_join: `p2` replaces an empty `p1` and is kept alone when absolute;
      otherwise the two are joined by exactly one separator, none added when
      `p1` already ends with one. The result always ends with `p2`. */
  lemma PathJoinShape(plat: Platform, p1: string, p2: string)
    ensures var r := PathJoin(plat, p1, p2);
      && |r| >= |p2| && r[|r| - |p2|..] == p2
      && (|p1| == 0 || IsAbs(plat, p2) ==> r == p2)
      && (|p1| > 0 && !IsAbs(plat, p2) ==>
            && (p1[|p1| - 1] == PathSep(plat) ==> |r| == |p1| + |p2|)
            && (p1[|p1| - 1] != PathSep(plat) ==> |r| == |p1| + 1 + |p2| && r[|p1|] == PathSep(plat))
            && r[..|p1|] == p1)
  {
  }

  /** The variadic join: join(p) = p, join(p, parts...) = path_join(p, join(parts...)). */
  function Join(plat: Platform, parts: seq<string>): string
    requires |parts| >= 1
  {
    if |parts| == 1 then parts[0]
    else PathJoin(plat, parts[0], Join(plat, parts[1..]))
  }

  /** join always ends with its last argument. */
  lemma {:induction false} JoinEndsWithLast(plat: Platform, parts: seq<string>)
    requires |parts| >= 1
    ensures var r := Join(plat, parts); var last := parts[|parts| - 1];
      |r| >= |last| && r[|r| - |last|..] == last
  {
    if |parts| > 1 {
      JoinEndsWithLast(plat, parts[1..]);
      PathJoinShape(plat, parts[0], Join(plat, parts[1..]));
      assert parts[1..][|parts| - 2] == parts[|parts| - 1];
      var inner := Join(plat, parts[1..]);
      var r := Join(plat, parts);
      var last := parts[|parts| - 1];
      assert r[|r| - |inner|..] == inner;
      assert r[|r| - |last|..] == inner[|inner| - |last|..];
    }
  }

  /** An absolute last argument replaces everything joined before it. */
  lemma {:induction false} JoinAbsoluteLast(plat: Platform, parts: seq<string>)
    requires |parts| >= 1 && IsAbs(plat, parts[|parts| - 1])
    ensures Join(plat, parts) == parts[|parts| - 1]
  {
    if |parts| > 1 {
      assert parts[1..][|parts| - 2] == parts[|parts| - 1];
      JoinAbsoluteLast(plat, parts[1..]);
      PathJoinShape(plat, parts[0], Join(plat, parts[1..]));
    }
  }
}
