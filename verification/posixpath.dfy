/**
 The string primitives the resolver relies on, with Python's semantics:
 `str.split(sep, 1)`, `posixpath.join` with two components, `posixpath.split`,
 `str.rstrip(sep)` and `str.rsplit('.')[0]`.
 */
module PosixPath {
  import opened Wrappers

  const Sep: char := '/'

  /** Every character of `s` is `c` (Python `s == c * len(s)`). */
  predicate AllOf(s: string, c: char) {
    forall i :: 0 <= i < |s| ==> s[i] == c
  }

  /** A path whose first character is the separator (posixpath's "absolute"). */
  predicate IsAbsolute(p: string) {
    |p| > 0 && p[0] == Sep
  }

  /** Position of the first `c` in `s` (Python `str.find`), None when absent. */
  function FirstIndex(s: string, c: char): (r: Option<nat>)
    ensures r.None? <==> c !in s
    ensures r.Some? ==> r.value < |s| && s[r.value] == c && c !in s[..r.value]
  {
    if |s| == 0 then None
    else if s[0] == c then Some(0)
    else
      match FirstIndex(s[1..], c)
      case None => None
      case Some(i) =>
        assert s[..i + 1] == [s[0]] + s[1..][..i];
        Some(i + 1)
  }

  /** Position of the last `c` in `s` (Python `str.rfind`), None when absent. */
  function LastIndex(s: string, c: char): (r: Option<nat>)
    ensures r.None? <==> c !in s
    ensures r.Some? ==> r.value < |s| && s[r.value] == c && c !in s[r.value + 1..]
  {
    if |s| == 0 then None
    else if s[|s| - 1] == c then Some(|s| - 1)
    else
      var r := LastIndex(s[..|s| - 1], c);
      assert s == s[..|s| - 1] + [s[|s| - 1]];
      r
  }

  /** The first and last occurrence of a character are unique. */
  lemma FirstIndexAt(s: string, c: char, k: nat)
    requires k < |s| && s[k] == c && c !in s[..k]
    ensures FirstIndex(s, c) == Some(k)
  {
    var i := FirstIndex(s, c).value;
    assert i <= k;
    assert i >= k;
  }

  lemma LastIndexAt(s: string, c: char, k: nat)
    requires k < |s| && s[k] == c && c !in s[k + 1..]
    ensures LastIndex(s, c) == Some(k)
  {
    var i := LastIndex(s, c).value;
    assert i >= k;
  }

  /**
   Python `s.split(c, 1)`: a pair exactly when `c` occurs, cut at its first
   occurrence; None stands for the one-element list Python returns otherwise.
   */
  function SplitOnce(s: string, c: char): (r: Option<(string, string)>)
    ensures r.None? <==> c !in s
    ensures r.Some? ==> r.value.0 + [c] + r.value.1 == s && c !in r.value.0
  {
    match FirstIndex(s, c)
    case None => None
    case Some(i) =>
      assert s == s[..i] + [c] + s[i + 1..];
      Some((s[..i], s[i + 1..]))
  }

  /** Any way of writing `s` as `a + c + b` with no `c` in `a` is the one SplitOnce finds. */
  lemma SplitOnceUnique(s: string, c: char, a: string, b: string)
    requires s == a + [c] + b && c !in a
    ensures SplitOnce(s, c) == Some((a, b))
  {
    assert s[..|a|] == a;
    FirstIndexAt(s, c, |a|);
    assert s[|a| + 1..] == b;
  }

  /** What posixpath.join puts in front of a relative second component. */
  function DirPrefix(a: string): (r: string)
    ensures a <= r && |r| <= |a| + 1
    ensures |r| == 0 || r[|r| - 1] == Sep
  {
    if |a| == 0 || a[|a| - 1] == Sep then a else a + [Sep]
  }

  /**
   Python `posixpath.join(a, b)`: an absolute `b` replaces `a`; otherwise `b`
   is appended to `a`, with one separator added unless `a` is empty or already
   ends with one.
   */
  function Join(a: string, b: string): (r: string)
    ensures |b| <= |r| && r[|r| - |b|..] == b
    ensures IsAbsolute(b) ==> r == b
    ensures !IsAbsolute(b) ==> a <= r && |r| <= |a| + 1 + |b|
    ensures !IsAbsolute(b) && |a| > 0 && a[|a| - 1] != Sep ==> |r| > |a| && r[|a|] == Sep
    ensures !IsAbsolute(b) ==> |r| == |a| + |b| + (if |a| > 0 && a[|a| - 1] != Sep then 1 else 0)
  {
    if IsAbsolute(b) then b else DirPrefix(a) + b
  }

  /** Python `s.rstrip(c)`: drop every trailing `c`. */
  function RStrip(s: string, c: char): (r: string)
    ensures r <= s
    ensures AllOf(s[|r|..], c)
    ensures |r| == 0 || r[|r| - 1] != c
  {
    if |s| > 0 && s[|s| - 1] == c then
      var r := RStrip(s[..|s| - 1], c);
      assert s[|r|..] == s[..|s| - 1][|r|..] + [c];
      r
    else s
  }

  /** A character missing from a string is missing from each of its prefixes. */
  lemma PrefixAvoids(a: string, b: string, c: char)
    requires a <= b && c !in b
    ensures c !in a
  {
  }

  /** A head that posixpath.split can produce: empty, all separators, or not ending in one. */
  predicate IsDirName(h: string) {
    |h| == 0 || AllOf(h, Sep) || h[|h| - 1] != Sep
  }

  /**
   Python `posixpath.split(p)`: the tail is everything after the last
   separator; the head is everything up to it, with trailing separators
   stripped unless the head consists of separators only.
   */
  function Split(p: string): (r: (string, string))
    ensures Sep !in r.1 && |r.1| <= |p| && p[|p| - |r.1|..] == r.1
    ensures r.0 <= p && IsDirName(r.0)
    ensures |r.0| + |r.1| <= |p| && AllOf(p[|r.0|..|p| - |r.1|], Sep)
    ensures Sep in p ==> |r.1| < |p| && p[|p| - |r.1| - 1] == Sep
    ensures Sep !in p ==> r == ("", p)
    ensures AllOf(p[..|p| - |r.1|], Sep) ==> |r.0| + |r.1| == |p|
  {
    var i := match LastIndex(p, Sep) case None => 0 case Some(j) => j + 1;
    var head := p[..i];
    var tail := p[i..];
    if |head| > 0 && !AllOf(head, Sep) then
      var h := RStrip(head, Sep);
      assert |h| > 0;
      assert p[|h|..|p| - |tail|] == head[|h|..];
      (h, tail)
    else
      (head, tail)
  }

  lemma RStripOfStripped(s: string, c: char)
    requires |s| == 0 || s[|s| - 1] != c
    ensures RStrip(s + [c], c) == s
  {
    assert (s + [c])[..|s + [c]| - 1] == s;
  }

  /**
   posixpath.split undoes posixpath.join: joining a head that split could
   have produced with a separator-free name and splitting again gives both back.
   */
  lemma {:induction false} SplitJoin(h: string, t: string)
    requires IsDirName(h) && Sep !in t
    ensures Split(Join(h, t)) == (h, t)
  {
    var p := Join(h, t);
    if |h| == 0 {
      assert p == t;
    } else if h[|h| - 1] == Sep {
      assert p == h + t;
      assert p[|h|..] == t;
      LastIndexAt(p, Sep, |h| - 1);
      assert p[..|h|] == h;
    } else {
      assert p == h + [Sep] + t;
      assert p[|h| + 1..] == t;
      LastIndexAt(p, Sep, |h|);
      assert p[..|h| + 1] == h + [Sep];
      assert !AllOf(h + [Sep], Sep) by {
        assert (h + [Sep])[|h| - 1] != Sep;
      }
      RStripOfStripped(h, Sep);
    }
  }

  /** A separator-free name under the root splits into the root and the name. */
  lemma {:induction false} SplitUnderRoot(t: string)
    requires Sep !in t
    ensures Split([Sep] + t) == ([Sep], t)
  {
    assert AllOf([Sep], Sep);
    assert Join([Sep], t) == [Sep] + t;
    SplitJoin([Sep], t);
  }

  /** A separator-free name after a `/` is the tail `split` returns, whatever precedes that `/`. */
  lemma {:induction false} SplitTailAfterSep(h: string, t: string)
    requires Sep !in t
    ensures Split(h + [Sep] + t).1 == t
  {
    var p := h + [Sep] + t;
    assert p[|h| + 1..] == t;
    LastIndexAt(p, Sep, |h|);
  }

  /**
   Python `s.rsplit('.')[0]`: with no maxsplit every dot splits, so the first
   piece is the text before the FIRST dot (all of `s` when it has none).
   */
  function StemBeforeFirstDot(s: string): (r: string)
    ensures r <= s && '.' !in r
    ensures r == s || s[|r|] == '.'
  {
    match SplitOnce(s, '.')
    case None => s
    case Some((stem, _)) => stem
  }
}
