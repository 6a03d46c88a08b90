/**
 String primitives that the login form borrows from JavaScript: the whitespace
 class shared by `String.prototype.trim` and the regular-expression escape `\s`,
 `trim` itself, and `length`, which counts UTF-16 code units.
 */
module Text {

  /** ECMAScript's WhiteSpace and LineTerminator code points. `trim()` strips
      exactly these, and `\s` in a regular expression matches exactly these. */
  predicate IsWs(c: char) {
    || c == '\t' || c == '\n' || c == '\U{000B}' || c == '\U{000C}' || c == '\r'
    || c == ' ' || c == '\U{00A0}' || c == '\U{1680}'
    || ('\U{2000}' <= c <= '\U{200A}')
    || c == '\U{2028}' || c == '\U{2029}' || c == '\U{202F}' || c == '\U{205F}'
    || c == '\U{3000}' || c == '\U{FEFF}'
  }

  /** Drops leading whitespace: the result is a suffix of `s`. */
  function TrimStart(s: string): (r: string)
    ensures |r| <= |s| && r == s[|s| - |r|..]
  {
    if s != [] && IsWs(s[0]) then TrimStart(s[1..]) else s
  }

  /** Everything TrimStart cuts off is whitespace, and what it keeps does not
      start with whitespace. */
  lemma {:induction false} TrimStartCut(s: string)
    ensures forall k :: 0 <= k < |s| - |TrimStart(s)| ==> IsWs(s[k])
    ensures TrimStart(s) != [] ==> !IsWs(TrimStart(s)[0])
  {
    if s != [] && IsWs(s[0]) {
      TrimStartCut(s[1..]);
      forall k | 1 <= k < |s| - |TrimStart(s)| ensures IsWs(s[k]) {
        assert s[k] == s[1..][k - 1];
      }
    }
  }

  /** Drops trailing whitespace: the result is a prefix of `s`. */
  function TrimEnd(s: string): (r: string)
    ensures |r| <= |s| && r == s[..|r|]
  {
    if s != [] && IsWs(s[|s| - 1]) then TrimEnd(s[..|s| - 1]) else s
  }

  /** Everything TrimEnd cuts off is whitespace, and what it keeps does not
      end with whitespace. */
  lemma {:induction false} TrimEndCut(s: string)
    ensures forall k :: |TrimEnd(s)| <= k < |s| ==> IsWs(s[k])
    ensures TrimEnd(s) != [] ==> !IsWs(TrimEnd(s)[|TrimEnd(s)| - 1])
  {
    if s != [] && IsWs(s[|s| - 1]) {
      TrimEndCut(s[..|s| - 1]);
      forall k | |TrimEnd(s)| <= k < |s| - 1 ensures IsWs(s[k]) {
        assert s[k] == s[..|s| - 1][k];
      }
    }
  }

  /** Every character of `t` is whitespace. */
  predicate AllWs(t: string) {
    forall k :: 0 <= k < |t| ==> IsWs(t[k])
  }

  /** Cutting `s` at `a` and `b` removes exactly its leading and trailing
      whitespace: only whitespace lies outside s[a..b], and a non-empty
      s[a..b] starts and ends with a non-whitespace character. */
  ghost predicate TrimBounds(s: string, a: int, b: int) {
    && 0 <= a <= b <= |s|
    && (forall k :: 0 <= k < a ==> IsWs(s[k]))
    && (forall k :: b <= k < |s| ==> IsWs(s[k]))
    && (a < b ==> !IsWs(s[a]) && !IsWs(s[b - 1]))
  }

  /** `r` is `s` with its leading and trailing whitespace removed. */
  ghost predicate IsTrimOf(r: string, s: string) {
    exists a, b :: TrimBounds(s, a, b) && r == s[a..b]
  }

  /** Whitespace at the tail of a suffix of `s` is whitespace of `s`. */
  lemma SuffixWs(t: string, s: string, a: int, m: int)
    requires 0 <= a <= |s| && t == s[a..] && 0 <= m <= |t|
    requires forall k :: m <= k < |t| ==> IsWs(t[k])
    ensures forall k :: a + m <= k < |s| ==> IsWs(s[k])
  {
    forall k | a + m <= k < |s| ensures IsWs(s[k]) {
      assert s[k] == t[k - a];
    }
  }

  /** A cut at trim bounds is a trim. */
  lemma TrimAtBounds(s: string, a: int, b: int)
    requires TrimBounds(s, a, b)
    ensures IsTrimOf(s[a..b], s)
  {
  }

  /** JavaScript's `String.prototype.trim`. */
  function Trim(s: string): string {
    TrimEnd(TrimStart(s))
  }

  /** Where Trim cuts `s`: after the whitespace TrimStart drops. */
  function TrimFrom(s: string): nat {
    |s| - |TrimStart(s)|
  }

  /** The trim of `s` is the slice of `s` from TrimFrom(s). */
  lemma TrimSlice(s: string)
    ensures TrimFrom(s) + |Trim(s)| <= |s|
    ensures Trim(s) == s[TrimFrom(s)..TrimFrom(s) + |Trim(s)|]
  {
    var t := TrimStart(s);
    assert t == s[TrimFrom(s)..];
    assert Trim(s) == t[..|Trim(s)|];
  }

  /** Only whitespace follows the trim of `s`. */
  lemma TrimTail(s: string)
    ensures forall k :: TrimFrom(s) + |Trim(s)| <= k < |s| ==> IsWs(s[k])
  {
    var t := TrimStart(s);
    TrimEndCut(t);
    SuffixWs(t, s, TrimFrom(s), |Trim(s)|);
  }

  /** The trim of `s` begins and ends with a character that is not whitespace. */
  lemma TrimEnds(s: string)
    ensures Trim(s) != [] ==> !IsWs(Trim(s)[0]) && !IsWs(Trim(s)[|Trim(s)| - 1])
  {
    var t := TrimStart(s);
    var r := TrimEnd(t);
    TrimStartCut(s);
    TrimEndCut(t);
    if r != [] {
      assert r[0] == t[0];
    }
  }

  /** The same, read off `s` itself. */
  lemma TrimEndsIn(s: string)
    ensures TrimFrom(s) + |Trim(s)| <= |s|
    ensures Trim(s) != [] ==>
      !IsWs(s[TrimFrom(s)]) && !IsWs(s[TrimFrom(s) + |Trim(s)| - 1])
  {
    TrimSlice(s);
    TrimEnds(s);
    var r := Trim(s);
    if r != [] {
      assert r[0] == s[TrimFrom(s)] && r[|r| - 1] == s[TrimFrom(s) + |r| - 1];
    }
  }

  /** Trim cuts `s` at its trim bounds. */
  lemma TrimCutsAtBounds(s: string)
    ensures IsTrimOf(Trim(s), s)
  {
    TrimStartCut(s);
    TrimSlice(s);
    TrimTail(s);
    TrimEndsIn(s);
    TrimAtBounds(s, TrimFrom(s), TrimFrom(s) + |Trim(s)|);
  }

  /** Trim bounds are unique, unless the result is empty. */
  lemma TrimBoundsUnique(s: string, a1: int, b1: int, a2: int, b2: int)
    requires TrimBounds(s, a1, b1) && TrimBounds(s, a2, b2)
    ensures s[a1..b1] == s[a2..b2]
  {
  }

  /** At most one string is the trim of `s`, so IsTrimOf defines Trim. */
  lemma TrimOfUnique(r1: string, r2: string, s: string)
    requires IsTrimOf(r1, s) && IsTrimOf(r2, s)
    ensures r1 == r2
  {
    var a1, b1 :| TrimBounds(s, a1, b1) && r1 == s[a1..b1];
    var a2, b2 :| TrimBounds(s, a2, b2) && r2 == s[a2..b2];
    TrimBoundsUnique(s, a1, b1, a2, b2);
  }

  /** A string with no whitespace at either end is its own trim. */
  lemma TrimOfUntrimmable(r: string)
    requires r != [] ==> !IsWs(r[0]) && !IsWs(r[|r| - 1])
    ensures Trim(r) == r
  {
    assert TrimBounds(r, 0, |r|);
    assert IsTrimOf(r, r) by {
      assert r == r[0..|r|];
    }
    TrimCutsAtBounds(r);
    TrimOfUnique(Trim(r), r, r);
  }

  /** Trimming a trimmed string changes nothing. */
  lemma TrimIdempotent(s: string)
    ensures Trim(Trim(s)) == Trim(s)
  {
    TrimEnds(s);
    TrimOfUntrimmable(Trim(s));
  }

  /** The trim of `s` is empty exactly when `s` is all whitespace. */
  lemma TrimEmptyIffAllWs(s: string)
    ensures Trim(s) == [] <==> AllWs(s)
  {
    TrimCutsAtBounds(s);
    var r := Trim(s);
    var a, b :| TrimBounds(s, a, b) && r == s[a..b];
    if !AllWs(s) {
      var k :| 0 <= k < |s| && !IsWs(s[k]);
      assert a <= k < b;
    }
  }

  /** How many UTF-16 code units encode `s`: JavaScript's `length`. Code points
      above U+FFFF take a surrogate pair. */
  function Utf16Length(s: string): (n: nat)
    ensures |s| <= n <= 2 * |s|
    ensures n == |s| <==> forall k :: 0 <= k < |s| ==> s[k] as int < 0x1_0000
  {
    if s == [] then 0
    else
      var rest := Utf16Length(s[1..]);
      assert forall k :: 1 <= k < |s| ==> s[k] == s[1..][k - 1];
      (if s[0] as int < 0x1_0000 then 1 else 2) + rest
  }
}
