/**
 * Bounded C-string routines (strlcpy, strlcat and their wide twins) and the
 * prefix/suffix predicates on std::string.
 *
 * A C string is a buffer of cells ended by a terminator cell. The copy
 * routines are written once, generic in the cell type and its terminator,
 * and instantiated for `char` (Byte) and for the 16-bit `wchar_t` (WChar).
 */
module StrUtil {
  import opened Wrappers

  newtype Byte = x: int | 0 <= x < 0x100
  newtype WChar = x: int | 0 <= x < 0x1_0000

  function Min(a: int, b: int): int { if a < b then a else b }

  /** strlen: the number of cells before the first terminator. */
  function StrLen<T(==)>(s: seq<T>, nul: T): (n: nat)
    requires nul in s
    ensures n < |s| && s[n] == nul
  {
    if s[0] == nul then 0 else 1 + StrLen(s[1..], nul)
  }

  /** No terminator comes before the one StrLen finds. */
  lemma {:induction false} StrLenFirst<T>(s: seq<T>, nul: T)
    requires nul in s
    ensures forall i :: 0 <= i < StrLen(s, nul) ==> s[i] != nul
  {
    if s[0] != nul {
      StrLenFirst(s[1..], nul);
      forall i | 1 <= i < StrLen(s, nul) ensures s[i] != nul {
        assert s[i] == s[1..][i - 1];
      }
    }
  }

  /** The first terminator is unique: any terminator with none before it is where StrLen stops. */
  lemma {:induction false} StrLenAt<T>(s: seq<T>, nul: T, n: nat)
    requires n < |s| && s[n] == nul
    requires forall i :: 0 <= i < n ==> s[i] != nul
    ensures StrLen(s, nul) == n
  {
    if n > 0 {
      assert s[1..][n - 1] == nul;
      StrLenAt(s[1..], nul, n - 1);
    }
  }

  /** `d` with the cells from `at` on replaced by the first m cells of `src`
      and a terminator; the cells after that are kept. */
  function Spliced<T>(d: seq<T>, src: seq<T>, at: nat, m: nat, nul: T): seq<T>
    requires at + m < |d| && m <= |src|
  {
    d[..at] + src[..m] + [nul] + d[at + m + 1..]
  }

  /** The cells of a spliced buffer, one by one. */
  lemma SplicedAt<T>(d: seq<T>, src: seq<T>, at: nat, m: nat, nul: T, i: nat)
    requires at + m < |d| && m <= |src| && i < |d|
    ensures |Spliced(d, src, at, m, nul)| == |d|
    ensures Spliced(d, src, at, m, nul)[i] ==
      if i < at then d[i] else if i < at + m then src[i - at] else if i == at + m then nul else d[i]
  {
    var r := Spliced(d, src, at, m, nul);
    if i < at {
      assert r[i] == d[..at][i];
    } else if i < at + m {
      assert r[i] == (d[..at] + src[..m])[i];
    } else if i > at + m {
      assert r[i] == d[at + m + 1..][i - at - m - 1];
    }
  }

  /** The buffer `d` after strlcpy(d, src, siz): the first k cells of `src`
      and a terminator, k = min(strlen(src), siz - 1); nothing when siz == 0. */
  function LcpyResult<T(==)>(d: seq<T>, src: seq<T>, siz: nat, nul: T): seq<T>
    requires nul in src && siz <= |d|
  {
    if siz == 0 then d
    else
      var k := Min(StrLen(src, nul), siz - 1);
      Spliced(d, src, 0, k, nul)
  }

  /** What strlcpy promises: the destination holds `src` truncated to at most
      siz - 1 cells, as a terminated string, and no cell at or past `siz` changes. */
  lemma LcpyResultIsTruncatedCopy<T>(d: seq<T>, src: seq<T>, siz: nat, nul: T)
    requires nul in src && siz <= |d|
    ensures var r := LcpyResult(d, src, siz, nul);
      && |r| == |d|
      && (forall i :: siz <= i < |d| ==> r[i] == d[i])
      && (siz == 0 ==> r == d)
      && (siz > 0 ==>
            var k := Min(StrLen(src, nul), siz - 1);
            r[..k] == src[..k] && nul in r[..siz] && StrLen(r[..siz], nul) == k)
  {
    if siz > 0 {
      var k := Min(StrLen(src, nul), siz - 1);
      var r := Spliced(d, src, 0, k, nul);
      SplicedAt(d, src, 0, k, nul, 0);
      forall i | siz <= i < |d| ensures r[i] == d[i] {
        SplicedAt(d, src, 0, k, nul, i);
      }
      forall i | 0 <= i < k ensures r[i] == src[i] {
        SplicedAt(d, src, 0, k, nul, i);
      }
      StrLenFirst(src, nul);
      SplicedStrLen(d, src, 0, k, nul, siz);
    }
  }

  /** A spliced buffer keeps the cells before `at` and after the
      terminator, and holds the first m cells of `src` in between. */
  lemma SplicedParts<T>(d: seq<T>, src: seq<T>, at: nat, m: nat, nul: T)
    requires at + m < |d| && m <= |src|
    ensures var r := Spliced(d, src, at, m, nul);
      && |r| == |d|
      && r[..at] == d[..at]
      && r[at..at + m] == src[..m]
      && r[at + m] == nul
      && forall i :: at + m < i < |d| ==> r[i] == d[i]
  {
    var r := Spliced(d, src, at, m, nul);
    SplicedAt(d, src, at, m, nul, at + m);
    forall i | 0 <= i < at ensures r[i] == d[i] {
      SplicedAt(d, src, at, m, nul, i);
    }
    forall i | at <= i < at + m ensures r[i] == src[i - at] {
      SplicedAt(d, src, at, m, nul, i);
    }
    forall i | at + m < i < |d| ensures r[i] == d[i] {
      SplicedAt(d, src, at, m, nul, i);
    }
    assert r[..at] == d[..at];
    assert r[at..at + m] == src[..m];
  }

  /** A splice that fits within `siz` cells, after a prefix and a part of
      `src` with no terminator, is a string of their combined length there. */
  lemma SplicedStrLen<T>(d: seq<T>, src: seq<T>, at: nat, m: nat, nul: T, siz: nat)
    requires at + m < siz <= |d| && m <= |src|
    requires forall i :: 0 <= i < at ==> d[i] != nul
    requires forall i :: 0 <= i < m ==> src[i] != nul
    ensures nul in Spliced(d, src, at, m, nul)[..siz]
    ensures StrLen(Spliced(d, src, at, m, nul)[..siz], nul) == at + m
  {
    var r := Spliced(d, src, at, m, nul)[..siz];
    SplicedAt(d, src, at, m, nul, at + m);
    forall i | 0 <= i < at + m ensures r[i] != nul {
      SplicedAt(d, src, at, m, nul, i);
    }
    StrLenAt(r, nul, at + m);
  }

  /** The buffer `d` after strlcat(d, src, siz). Without a terminator in the
      first `siz` cells nothing changes; otherwise the longest prefix of `src`
      that keeps the whole string within siz - 1 cells is appended and terminated. */
  function LcatResult<T(==)>(d: seq<T>, src: seq<T>, siz: nat, nul: T): seq<T>
    requires nul in src && siz <= |d|
  {
    if nul !in d[..siz] then d
    else
      var dlen := StrLen(d[..siz], nul);
      var m := Min(StrLen(src, nul), siz - dlen - 1);
      Spliced(d, src, dlen, m, nul)
  }

  /** strlcat's return value: the length of `d` capped at `siz`, plus strlen(src). */
  function LcatLength<T(==)>(d: seq<T>, src: seq<T>, siz: nat, nul: T): nat
    requires nul in src && siz <= |d|
  {
    (if nul in d[..siz] then StrLen(d[..siz], nul) else siz) + StrLen(src, nul)
  }

  /** strlcat with no terminator in the first `siz` cells leaves the buffer
      alone and returns siz + strlen(src). */
  lemma LcatWithoutTerminator<T>(d: seq<T>, src: seq<T>, siz: nat, nul: T)
    requires nul in src && siz <= |d|
    requires forall i :: 0 <= i < siz ==> d[i] != nul
    ensures LcatResult(d, src, siz, nul) == d
    ensures LcatLength(d, src, siz, nul) == siz + StrLen(src, nul)
  {
    assert nul !in d[..siz] by {
      forall i | 0 <= i < siz ensures d[..siz][i] != nul { }
    }
  }

  /** What strlcat promises otherwise: the old string is kept, the appended
      part is a prefix of `src`, the result is terminated within `siz` cells
      and is as long as fits, no cell at or past `siz` changes, and the
      return value is the old length plus strlen(src). */
  lemma LcatIsTruncatedAppend<T>(d: seq<T>, src: seq<T>, siz: nat, nul: T, dlen: nat)
    requires nul in src && siz <= |d|
    requires dlen < siz && d[dlen] == nul
    requires forall i :: 0 <= i < dlen ==> d[i] != nul
    ensures var r := LcatResult(d, src, siz, nul);
      var m := Min(StrLen(src, nul), siz - dlen - 1);
      && |r| == |d|
      && r[..dlen] == d[..dlen]
      && r[dlen..dlen + m] == src[..m]
      && nul in r[..siz] && StrLen(r[..siz], nul) == dlen + m
      && (forall i :: siz <= i < |d| ==> r[i] == d[i])
  {
    var m := Min(StrLen(src, nul), siz - dlen - 1);
    LcatResultTerminated(d, src, siz, nul, dlen);
    SplicedParts(d, src, dlen, m, nul);
    StrLenFirst(src, nul);
    SplicedStrLen(d, src, dlen, m, nul, siz);
    assert LcatResult(d, src, siz, nul)[..siz] == Spliced(d, src, dlen, m, nul)[..siz];
  }

  /** With `d` terminated at dlen < siz, strlcat splices `src` at dlen. */
  lemma LcatResultTerminated<T>(d: seq<T>, src: seq<T>, siz: nat, nul: T, dlen: nat)
    requires nul in src && siz <= |d|
    requires dlen < siz && d[dlen] == nul
    requires forall i :: 0 <= i < dlen ==> d[i] != nul
    ensures LcatResult(d, src, siz, nul) ==
      Spliced(d, src, dlen, Min(StrLen(src, nul), siz - dlen - 1), nul)
  {
    TerminatedWithin(d, siz, nul, dlen);
  }

  /** strlcat's return value when `d` is terminated within `siz` cells:
      the old length plus strlen(src). */
  lemma LcatLengthTerminated<T>(d: seq<T>, src: seq<T>, siz: nat, nul: T, dlen: nat)
    requires nul in src && siz <= |d|
    requires dlen < siz && d[dlen] == nul
    requires forall i :: 0 <= i < dlen ==> d[i] != nul
    ensures LcatLength(d, src, siz, nul) == dlen + StrLen(src, nul)
  {
    TerminatedWithin(d, siz, nul, dlen);
  }

  /** A terminator at dlen < siz with none before it: the first `siz` cells
      hold a string of length dlen. */
  lemma TerminatedWithin<T>(d: seq<T>, siz: nat, nul: T, dlen: nat)
    requires siz <= |d| && dlen < siz && d[dlen] == nul
    requires forall i :: 0 <= i < dlen ==> d[i] != nul
    ensures nul in d[..siz] && StrLen(d[..siz], nul) == dlen
  {
    assert d[..siz][dlen] == nul;
    StrLenAt(d[..siz], nul, dlen);
  }

  /** strlcpy over any cell type, step by step as the C code does it: copy
      while room remains, then terminate and skip over the rest of `src`. */
  method Lcpy<T(==)>(dst: array<T>, src: seq<T>, siz: nat, nul: T) returns (r: nat)
    requires nul in src && siz <= dst.Length
    modifies dst
    ensures r == StrLen(src, nul)
    ensures dst[..] == LcpyResult(old(dst[..]), src, siz, nul)
  {
    ghost var d0 := dst[..];
    var len := StrLen(src, nul);
    var d, s, n := 0, 0, siz;
    // First loop: while fewer than siz - 1 cells are written and no
    // terminator has been copied, copy the next cell of src.
    if n != 0 {
      n := n - 1;
      if n != 0 {
        while true
          invariant d == s && s + n == siz - 1 && n >= 1
          invariant s <= len
          invariant forall i :: 0 <= i < dst.Length ==> dst[i] == if i < s then src[i] else d0[i]
          decreases n
        {
          var c := src[s];
          dst[d] := c;
          d, s := d + 1, s + 1;
          if c == nul {
            break;
          }
          n := n - 1;
          if n == 0 {
            break;
          }
        }
      }
    }
    // The copy stopped at the siz - 1 limit: write the terminator there
    // (when siz is not 0) and advance s to the end of src for the count.
    if n == 0 {
      if siz != 0 {
        dst[d] := nul;
      }
      while src[s] != nul
        invariant s <= len
        decreases len - s
      {
        s := s + 1;
      }
      s := s + 1;
    }
    StrLenFirst(src, nul);
    r := s - 1;
    if siz != 0 {
      LcpyFinalBuffer(d0, dst[..], src, siz, nul, Min(len, siz - 1));
    }
  }

  /** The buffer the copy loop of strlcpy leaves is LcpyResult. */
  lemma LcpyFinalBuffer<T>(d0: seq<T>, d1: seq<T>, src: seq<T>, siz: nat, nul: T, k: nat)
    requires nul in src && 0 < siz <= |d0| == |d1|
    requires k == Min(StrLen(src, nul), siz - 1)
    requires d1[k] == nul
    requires forall i :: 0 <= i < |d1| && i != k ==> d1[i] == if i < k then src[i] else d0[i]
    ensures d1 == LcpyResult(d0, src, siz, nul)
  {
    var want := Spliced(d0, src, 0, k, nul);
    forall i | 0 <= i < |d1| ensures d1[i] == want[i] {
      SplicedAt(d0, src, 0, k, nul, i);
    }
    SplicedAt(d0, src, 0, k, nul, 0);
  }

  /** The first loop of strlcat: the length of the string in `dst`, looking
      at no more than `siz` cells (siz when no terminator is among them). */
  method BoundedLength<T(==)>(dst: array<T>, siz: nat, nul: T) returns (dlen: nat)
    requires siz <= dst.Length
    ensures dlen <= siz
    ensures forall i :: 0 <= i < dlen ==> dst[i] != nul
    ensures dlen < siz ==> dst[dlen] == nul
  {
    var d: nat, n: nat := 0, siz;
    // strlcat post-decrements the count on the final test too; it
    // is recomputed right after the loop, so that step is not observable.
    while n != 0 && dst[d] != nul
      invariant d + n == siz
      invariant forall i :: 0 <= i < d ==> dst[i] != nul
      decreases n
    {
      d, n := d + 1, n - 1;
    }
    dlen := d;
  }

  /** strlcat over any cell type: find the end of `dst` within `siz` cells,
      then append while room remains and terminate. */
  method Lcat<T(==)>(dst: array<T>, src: seq<T>, siz: nat, nul: T) returns (r: nat)
    requires nul in src && siz <= dst.Length
    modifies dst
    ensures r == LcatLength(old(dst[..]), src, siz, nul)
    ensures dst[..] == LcatResult(old(dst[..]), src, siz, nul)
  {
    ghost var d0 := dst[..];
    var len := StrLen(src, nul);
    var dlen := BoundedLength(dst, siz, nul);
    var n := siz - dlen;
    if n == 0 {
      LcatWithoutTerminator(d0, src, siz, nul);
      return dlen + len;
    }
    var d, s := dlen, 0;
    ghost var cap := siz - dlen - 1;
    while src[s] != nul
      invariant s <= len
      invariant d == dlen + Min(s, cap) && n == siz - d && n >= 1
      invariant forall i :: 0 <= i < dst.Length ==>
        dst[i] == if dlen <= i < d then src[i - dlen] else d0[i]
      decreases len - s
    {
      if n != 1 {
        dst[d] := src[s];
        d, n := d + 1, n - 1;
      }
      s := s + 1;
    }
    StrLenFirst(src, nul);
    dst[d] := nul;
    r := dlen + s;
    LcatFinalBuffer(d0, dst[..], src, siz, nul, dlen, d);
  }

  /** The buffer the append loop of strlcat leaves is LcatResult. */
  lemma LcatFinalBuffer<T>(d0: seq<T>, d1: seq<T>, src: seq<T>, siz: nat, nul: T, dlen: nat, d: nat)
    requires nul in src && siz <= |d0| == |d1|
    requires dlen < siz && d0[dlen] == nul
    requires forall i :: 0 <= i < dlen ==> d0[i] != nul
    requires d == dlen + Min(StrLen(src, nul), siz - dlen - 1)
    requires d1[d] == nul
    requires forall i :: 0 <= i < |d1| && i != d ==>
      d1[i] == if dlen <= i < d then src[i - dlen] else d0[i]
    ensures d1 == LcatResult(d0, src, siz, nul)
    ensures LcatLength(d0, src, siz, nul) == dlen + StrLen(src, nul)
  {
    TerminatedWithin(d0, siz, nul, dlen);
    var want := Spliced(d0, src, dlen, d - dlen, nul);
    assert want == LcatResult(d0, src, siz, nul);
    forall i | 0 <= i < |d1| ensures d1[i] == want[i] {
      SplicedAt(d0, src, dlen, d - dlen, nul, i);
    }
    SplicedAt(d0, src, dlen, d - dlen, nul, 0);
  }

  /** strlcpy on `char` buffers. */
  method Strlcpy(dst: array<Byte>, src: seq<Byte>, siz: nat) returns (r: nat)
    requires 0 in src && siz <= dst.Length
    modifies dst
    ensures r == StrLen(src, 0)
    ensures dst[..] == LcpyResult(old(dst[..]), src, siz, 0)
  {
    r := Lcpy(dst, src, siz, 0);
  }

  /** wstrlcpy on `wchar_t` buffers. */
  method Wstrlcpy(dst: array<WChar>, src: seq<WChar>, siz: nat) returns (r: nat)
    requires 0 in src && siz <= dst.Length
    modifies dst
    ensures r == StrLen(src, 0)
    ensures dst[..] == LcpyResult(old(dst[..]), src, siz, 0)
  {
    r := Lcpy(dst, src, siz, 0);
  }

  /** strlcat on `char` buffers. */
  method Strlcat(dst: array<Byte>, src: seq<Byte>, siz: nat) returns (r: nat)
    requires 0 in src && siz <= dst.Length
    modifies dst
    ensures r == LcatLength(old(dst[..]), src, siz, 0)
    ensures dst[..] == LcatResult(old(dst[..]), src, siz, 0)
  {
    r := Lcat(dst, src, siz, 0);
  }

  /** wstrlcat on `wchar_t` buffers. */
  method Wstrlcat(dst: array<WChar>, src: seq<WChar>, siz: nat) returns (r: nat)
    requires 0 in src && siz <= dst.Length
    modifies dst
    ensures r == LcatLength(old(dst[..]), src, siz, 0)
    ensures dst[..] == LcatResult(old(dst[..]), src, siz, 0)
  {
    r := Lcat(dst, src, siz, 0);
  }

  /** `sub` occurs in `s` starting at index k. */
  predicate OccursAt(s: string, sub: string, k: nat) {
    k + |sub| <= |s| && s[k..k + |sub|] == sub
  }

  /** std::string::find(sub, pos): the first occurrence of `sub` at or after
      `pos`, or None for npos. */
  function Find(s: string, sub: string, pos: nat): (r: Option<nat>)
    ensures r.Some? ==> pos <= r.value && OccursAt(s, sub, r.value)
    ensures r.Some? ==> forall k :: pos <= k < r.value ==> !OccursAt(s, sub, k)
    ensures r.None? ==> forall k :: pos <= k ==> !OccursAt(s, sub, k)
    decreases |s| - pos
  {
    if pos + |sub| > |s| then None
    else if s[pos..pos + |sub|] == sub then Some(pos)
    else Find(s, sub, pos + 1)
  }

  /** util::startsWith: the first occurrence of `sub` is at index 0. */
  function StartsWith(s: string, sub: string): (b: bool)
    ensures b <==> |sub| <= |s| && s[..|sub|] == sub
    ensures sub == [] ==> b
  {
    Find(s, sub, 0) == Some(0)
  }

  /** util::endsWith: compares the last |sub| characters of `s` with `sub`. */
  function EndsWith(s: string, sub: string): bool {
    if |sub| > |s| then false
    else s[|s| - |sub|..] == sub
  }

  /** endsWith holds exactly when `s` is some string followed by `sub`. */
  lemma EndsWithIffSuffix(s: string, sub: string)
    ensures EndsWith(s, sub) <==> exists t :: s == t + sub
    ensures EndsWith(s, [])
  {
    if EndsWith(s, sub) {
      assert s == s[..|s| - |sub|] + sub;
    }
    if exists t :: s == t + sub {
      var t :| s == t + sub;
      assert s[|s| - |sub|..] == sub;
    }
  }
}
