/** Models of the Go library string and byte-slice operations the proxy relies
    on: `strings.Replace(s, old, new, -1)`, `bytes.Replace(b, old, new, -1)`,
    `strings.Count`, and the `[]byte(s)` conversion. Sequences stand for both
    Go strings (sequences of runes) and byte slices. */
module TextOps {
  import opened Base

  /** An occurrence of `pat` starts at index `i` of `s`. */
  predicate MatchAt<T(==)>(s: seq<T>, pat: seq<T>, i: nat)
  {
    i + |pat| <= |s| && s[i..i + |pat|] == pat
  }

  /** `pat` occurs somewhere in `s` (the empty pattern occurs everywhere). */
  predicate Occurs<T(==)>(s: seq<T>, pat: seq<T>)
  {
    exists i: nat | i <= |s| :: MatchAt(s, pat, i)
  }

  /** Number of non-overlapping occurrences of `pat` in `s`, found left to
      right; the empty pattern is counted once per element plus once, as Go's
      `Count` does. */
  function Count<T(==)>(s: seq<T>, pat: seq<T>): nat
    decreases |s|
  {
    if pat == [] then |s| + 1
    else if pat <= s then 1 + Count(s[|pat|..], pat)
    else if s == [] then 0
    else Count(s[1..], pat)
  }

  /** `Replace(s, pat, rep, -1)`: scans left to right and replaces every
      non-overlapping occurrence of `pat` by `rep`. With an empty `pat`, `rep`
      is inserted before every element and once at the end. */
  function ReplaceAll<T(==)>(s: seq<T>, pat: seq<T>, rep: seq<T>): seq<T>
    decreases |s|
  {
    if pat == [] then
      (if s == [] then rep else rep + [s[0]] + ReplaceAll(s[1..], pat, rep))
    else if pat <= s then rep + ReplaceAll(s[|pat|..], pat, rep)
    else if s == [] then []
    else [s[0]] + ReplaceAll(s[1..], pat, rep)
  }

  lemma MatchShift<T>(s: seq<T>, pat: seq<T>, i: nat)
    requires |s| > 0
    ensures MatchAt(s[1..], pat, i) <==> MatchAt(s, pat, i + 1)
  {
    if i + 1 + |pat| <= |s| {
      assert s[1..][i..i + |pat|] == s[i + 1..i + 1 + |pat|];
    }
  }

  /** Go's `HasPrefix` is the built-in prefix relation, a match at index 0. */
  lemma PrefixIsMatch<T>(s: seq<T>, pat: seq<T>)
    ensures pat <= s <==> MatchAt(s, pat, 0)
  {
  }

  /** Replacing a pattern by itself changes nothing: Go's `old == new`
      shortcut returns `s` and the general loop agrees. */
  lemma {:induction false} ReplaceAllSelf<T>(s: seq<T>, pat: seq<T>)
    ensures ReplaceAll(s, pat, pat) == s
    decreases |s|
  {
    if pat == [] {
      if s != [] {
        ReplaceAllSelf(s[1..], pat);
        assert s == [s[0]] + s[1..];
      }
    } else if pat <= s {
      ReplaceAllSelf(s[|pat|..], pat);
      assert s == pat + s[|pat|..];
    } else if s != [] {
      ReplaceAllSelf(s[1..], pat);
      assert s == [s[0]] + s[1..];
    }
  }

  /** `Count` is zero exactly when the pattern does not occur (both directions). */
  lemma {:induction false} CountZeroIffAbsent<T>(s: seq<T>, pat: seq<T>)
    ensures Count(s, pat) == 0 <==> !Occurs(s, pat)
    decreases |s|
  {
    if pat == [] {
      assert MatchAt(s, pat, 0);
    } else if pat <= s {
      assert MatchAt(s, pat, 0);
    } else if s == [] {
      forall i: nat ensures !MatchAt(s, pat, i) { }
    } else {
      CountZeroIffAbsent(s[1..], pat);
      assert !MatchAt(s, pat, 0);
      forall i: nat ensures MatchAt(s[1..], pat, i) <==> MatchAt(s, pat, i + 1) {
        MatchShift(s, pat, i);
      }
      if Occurs(s, pat) {
        var i: nat :| MatchAt(s, pat, i);
        assert i != 0;
        assert MatchAt(s[1..], pat, i - 1);
      }
    }
  }

  /** A value in which the pattern does not occur comes back unchanged: Go's
      `Count(s, old) == 0` shortcut returns `s` and the general loop agrees. */
  lemma {:induction false} ReplaceAllAbsent<T>(s: seq<T>, pat: seq<T>, rep: seq<T>)
    requires !Occurs(s, pat)
    ensures ReplaceAll(s, pat, rep) == s
    decreases |s|
  {
    assert MatchAt(s, [], 0);
    assert pat != [];
    assert !MatchAt(s, pat, 0);
    if s != [] {
      forall i: nat ensures !MatchAt(s[1..], pat, i) {
        MatchShift(s, pat, i);
      }
      ReplaceAllAbsent(s[1..], pat, rep);
      assert s == [s[0]] + s[1..];
    }
  }

  lemma MulSucc(c: nat, k: nat)
    ensures (1 + c) * k == k + c * k
  {
  }

  /** Every occurrence counted by `Count` trades `|pat|` elements for `|rep|`. */
  lemma {:induction false} ReplaceAllLength<T>(s: seq<T>, pat: seq<T>, rep: seq<T>)
    ensures |ReplaceAll(s, pat, rep)| + Count(s, pat) * |pat| == |s| + Count(s, pat) * |rep|
    decreases |s|
  {
    if pat == [] {
      if s != [] {
        var rest := ReplaceAll(s[1..], pat, rep);
        ReplaceAllLength(s[1..], pat, rep);
        assert ReplaceAll(s, pat, rep) == rep + [s[0]] + rest;
        assert Count(s, pat) == 1 + Count(s[1..], pat);
        MulSucc(Count(s[1..], pat), |rep|);
      }
    } else if pat <= s {
      var tail := s[|pat|..];
      var c := Count(tail, pat);
      ReplaceAllLength(tail, pat, rep);
      assert ReplaceAll(s, pat, rep) == rep + ReplaceAll(tail, pat, rep);
      assert Count(s, pat) == 1 + c;
      MulSucc(c, |pat|);
      MulSucc(c, |rep|);
    } else if s != [] {
      ReplaceAllLength(s[1..], pat, rep);
    }
  }

  /** One scanning step past a position where the pattern does not start. */
  lemma ReplaceAllSkip<T>(s: seq<T>, pat: seq<T>, rep: seq<T>)
    requires pat != [] && s != [] && !MatchAt(s, pat, 0)
    ensures ReplaceAll(s, pat, rep) == [s[0]] + ReplaceAll(s[1..], pat, rep)
  {
    PrefixIsMatch(s, pat);
  }

  /** No match before `|a|` in `a + pat + b` means none before `|a| - 1` once
      the first element is dropped. */
  lemma NoEarlyMatchTail<T>(a: seq<T>, pat: seq<T>, b: seq<T>)
    requires a != []
    requires forall i: nat :: i < |a| ==> !MatchAt(a + pat + b, pat, i)
    ensures forall i: nat :: i < |a[1..]| ==> !MatchAt(a[1..] + pat + b, pat, i)
  {
    var s := a + pat + b;
    assert s[1..] == a[1..] + pat + b;
    forall i: nat | i < |a[1..]| ensures !MatchAt(a[1..] + pat + b, pat, i) {
      assert !MatchAt(s, pat, i + 1);
      MatchShift(s, pat, i);
    }
  }

  /** The leftmost occurrence of `pat` is replaced in place: text before it is
      kept as is and scanning resumes after it. */
  lemma {:induction false} ReplaceAllSplice<T>(a: seq<T>, pat: seq<T>, b: seq<T>, rep: seq<T>)
    requires pat != []
    requires forall i: nat :: i < |a| ==> !MatchAt(a + pat + b, pat, i)
    ensures ReplaceAll(a + pat + b, pat, rep) == a + rep + ReplaceAll(b, pat, rep)
    decreases |a|
  {
    var s := a + pat + b;
    if a == [] {
      assert s == pat + b;
      ReplaceAllFront(pat, b, rep);
    } else {
      var s' := a[1..] + pat + b;
      var tail := ReplaceAll(b, pat, rep);
      assert ReplaceAll(s, pat, rep) == [a[0]] + ReplaceAll(s', pat, rep) by {
        assert s[1..] == s';
        assert !MatchAt(s, pat, 0);
        ReplaceAllSkip(s, pat, rep);
      }
      assert ReplaceAll(s', pat, rep) == a[1..] + rep + tail by {
        NoEarlyMatchTail(a, pat, b);
        ReplaceAllSplice(a[1..], pat, b, rep);
      }
      ConsSplit(a, rep, tail);
    }
  }

  /** A match at the front is replaced and scanning resumes right after it. */
  lemma ReplaceAllFront<T>(pat: seq<T>, b: seq<T>, rep: seq<T>)
    requires pat != []
    ensures ReplaceAll(pat + b, pat, rep) == rep + ReplaceAll(b, pat, rep)
  {
    assert (pat + b)[|pat|..] == b;
  }

  lemma ConsSplit<T>(a: seq<T>, x: seq<T>, y: seq<T>)
    requires a != []
    ensures [a[0]] + (a[1..] + x + y) == a + x + y
  {
    assert a == [a[0]] + a[1..];
  }

  /** The UTF-8 encoding of one character (a Unicode scalar value). */
  function EncodeRune(c: char): (r: seq<byte>)
    ensures 1 <= |r| <= 4
  {
    var n := c as int;
    if n < 0x80 then [n as byte]
    else if n < 0x800 then [(0xC0 + n / 0x40) as byte, (0x80 + n % 0x40) as byte]
    else if n < 0x1_0000 then
      [(0xE0 + n / 0x1000) as byte, (0x80 + (n / 0x40) % 0x40) as byte, (0x80 + n % 0x40) as byte]
    else
      [(0xF0 + n / 0x4_0000) as byte, (0x80 + (n / 0x1000) % 0x40) as byte,
       (0x80 + (n / 0x40) % 0x40) as byte, (0x80 + n % 0x40) as byte]
  }

  /** Go's `[]byte(s)` conversion: the UTF-8 bytes of a string. */
  function Utf8(s: string): (r: seq<byte>)
    ensures |s| <= |r| <= 4 * |s|
    ensures r == [] <==> s == []
  {
    if s == [] then [] else EncodeRune(s[0]) + Utf8(s[1..])
  }
}
