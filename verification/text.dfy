/** String operations of Python that the agent relies on, over `seq<char>`:
    `lower()`, the `in` substring test, `find`/`rfind` of one character,
    slicing, `join`, `set()` de-duplication and `str(n)` for a count. */
module Text {
  import opened Wrappers

  function Min(a: int, b: int): int {
    if a <= b then a else b
  }

  /** ASCII lower-casing of one character; every other character is kept. */
  function LowerChar(c: char): char {
    if 'A' <= c <= 'Z' then (c as int - 'A' as int + 'a' as int) as char else c
  }

  /** `s.lower()`, restricted to ASCII letters. */
  function Lower(s: string): (r: string)
    ensures |r| == |s|
    ensures forall i :: 0 <= i < |s| ==> r[i] == LowerChar(s[i])
  {
    seq(|s|, i requires 0 <= i < |s| => LowerChar(s[i]))
  }

  lemma LowerAppend(a: string, b: string)
    ensures Lower(a + b) == Lower(a) + Lower(b)
  {
    assert forall i :: 0 <= i < |a + b| ==> Lower(a + b)[i] == (Lower(a) + Lower(b))[i];
  }

  predicate StartsWith(s: string, prefix: string) {
    |prefix| <= |s| && s[..|prefix|] == prefix
  }

  /** Python's `sub in s`, as a scan over the start positions of `s`. */
  predicate Contains(s: string, sub: string)
    decreases |s|
  {
    StartsWith(s, sub) || (|s| > 0 && Contains(s[1..], sub))
  }

  /** `sub` occurs in `s` starting at index `i`. */
  ghost predicate OccursAt(s: string, sub: string, i: int) {
    0 <= i && i + |sub| <= |s| && s[i..i + |sub|] == sub
  }

  /** The scan finds `sub` exactly when some start position holds it. */
  lemma {:induction false} ContainsIffOccurs(s: string, sub: string)
    ensures Contains(s, sub) <==> exists i :: OccursAt(s, sub, i)
    decreases |s|
  {
    if |s| > 0 {
      ContainsIffOccurs(s[1..], sub);
      if StartsWith(s, sub) {
        assert OccursAt(s, sub, 0);
      }
      if Contains(s[1..], sub) {
        var j :| OccursAt(s[1..], sub, j);
        assert s[1..][j..j + |sub|] == s[j + 1..j + 1 + |sub|];
        assert OccursAt(s, sub, j + 1);
      }
      if i :| OccursAt(s, sub, i) {
        if i > 0 {
          assert s[1..][i - 1..i - 1 + |sub|] == s[i..i + |sub|];
          assert OccursAt(s[1..], sub, i - 1);
        } else {
          assert StartsWith(s, sub);
        }
      }
    } else if |sub| == 0 {
      assert OccursAt(s, sub, 0);
    }
  }

  /** An occurrence survives text added after it. */
  lemma OccursExtend(s: string, sub: string, i: int, t: string)
    requires OccursAt(s, sub, i)
    ensures OccursAt(s + t, sub, i)
  {
    assert (s + t)[i..i + |sub|] == s[i..i + |sub|];
  }

  /** An occurrence moves right by the length of text added before it. */
  lemma OccursPrepend(t: string, s: string, sub: string, i: int)
    requires OccursAt(s, sub, i)
    ensures OccursAt(t + s, sub, |t| + i)
  {
    assert (t + s)[|t| + i..|t| + i + |sub|] == s[i..i + |sub|];
  }

  /** `a` occurs in `s` ending no later than where an occurrence of `b`
      starts. */
  ghost predicate OccursBefore(s: string, a: string, b: string) {
    exists p, q :: OccursAt(s, a, p) && OccursAt(s, b, q) && p + |a| <= q
  }

  lemma ContainsAt(s: string, sub: string, i: int)
    requires OccursAt(s, sub, i)
    ensures Contains(s, sub)
  {
    ContainsIffOccurs(s, sub);
  }

  /** A character of `sub` that never appears in `s` rules the substring out. */
  lemma NotContainsMissingChar(s: string, sub: string, c: char)
    requires c in sub && c !in s
    ensures !Contains(s, sub)
  {
    ContainsIffOccurs(s, sub);
    var k :| 0 <= k < |sub| && sub[k] == c;
    forall i | 0 <= i && i + |sub| <= |s|
      ensures !OccursAt(s, sub, i)
    {
      assert s[i..i + |sub|][k] == s[i + k] != c;
    }
  }

  /** Some word of the list occurs in `s`. */
  predicate ContainsAny(s: string, words: seq<string>) {
    exists i :: 0 <= i < |words| && Contains(s, words[i])
  }

  lemma ContainsAnyOne(s: string, a: string)
    ensures ContainsAny(s, [a]) <==> Contains(s, a)
  {
    if Contains(s, a) {
      assert [a][0] == a;
    }
  }

  lemma ContainsAnyTwo(s: string, a: string, b: string)
    ensures ContainsAny(s, [a, b]) <==> Contains(s, a) || Contains(s, b)
  {
    if Contains(s, a) {
      assert [a, b][0] == a;
    }
    if Contains(s, b) {
      assert [a, b][1] == b;
    }
  }

  /** Python's `s.find(c)`: the first index of `c`, or -1. */
  function Find(s: string, c: char): (r: int)
    ensures -1 <= r < |s|
    ensures r == -1 <==> c !in s
    ensures r >= 0 ==> s[r] == c && c !in s[..r]
  {
    if |s| == 0 then -1
    else if s[0] == c then 0
    else
      var k := Find(s[1..], c);
      if k == -1 then
        assert s == [s[0]] + s[1..];
        -1
      else
        assert s[..k + 1] == [s[0]] + s[1..][..k];
        k + 1
  }

  /** Python's `s.rfind(c)`: the last index of `c`, or -1. */
  function RFind(s: string, c: char): (r: int)
    ensures -1 <= r < |s|
    ensures r == -1 <==> c !in s
    ensures r >= 0 ==> s[r] == c && c !in s[r + 1..]
  {
    if |s| == 0 then -1
    else if s[|s| - 1] == c then |s| - 1
    else
      var init := s[..|s| - 1];
      var k := RFind(init, c);
      if k == -1 then
        assert s == init + [s[|s| - 1]];
        -1
      else
        assert s[k + 1..] == init[k + 1..] + [s[|s| - 1]];
        k
  }

  /** Python's `xs[-n:]`. For `n > 0` the last `n` elements (all of them when
      there are fewer); `xs[-0:]` is the whole sequence; for `n < 0` the slice
      starts at index `-n`. */
  function Last<T>(xs: seq<T>, n: int): (r: seq<T>)
    ensures n > 0 ==> |r| == Min(n, |xs|)
    ensures n == 0 ==> r == xs
    ensures n < 0 ==> |r| == |xs| - Min(-n, |xs|)
    ensures r == xs[|xs| - |r|..]
  {
    if n > 0 then xs[|xs| - Min(n, |xs|)..]
    else if n == 0 then xs
    else xs[Min(-n, |xs|)..]
  }

  /** Python's `s[:n]` for `n >= 0`. */
  function Truncate<T>(xs: seq<T>, n: nat): (r: seq<T>)
    ensures |r| == Min(n, |xs|)
    ensures r <= xs
  {
    xs[..Min(n, |xs|)]
  }

  /** Python's `sep.join(xs)`. */
  function Join(xs: seq<string>, sep: string): string
    decreases |xs|
  {
    if |xs| == 0 then ""
    else if |xs| == 1 then xs[0]
    else xs[0] + sep + Join(xs[1..], sep)
  }

  /** Every joined piece appears verbatim in the joined text. */
  lemma {:induction false} JoinContainsEach(xs: seq<string>, sep: string, i: int)
    requires 0 <= i < |xs|
    ensures Contains(Join(xs, sep), xs[i])
    decreases |xs|
  {
    var j := Join(xs, sep);
    if |xs| == 1 {
      assert OccursAt(j, xs[0], 0);
    } else if i == 0 {
      assert j[0..|xs[0]|] == xs[0];
      assert OccursAt(j, xs[0], 0);
    } else {
      JoinContainsEach(xs[1..], sep, i - 1);
      var rest := Join(xs[1..], sep);
      ContainsIffOccurs(rest, xs[i]);
      var k :| OccursAt(rest, xs[i], k);
      var off := |xs[0]| + |sep|;
      assert j == xs[0] + sep + rest;
      assert j[off + k..off + k + |xs[i]|] == rest[k..k + |xs[i]|];
      ContainsAt(j, xs[i], off + k);
    }
  }

  /** Where the i-th piece starts in the joined text: the lengths of the
      earlier pieces, each followed by a separator. */
  function JoinOffset(xs: seq<string>, sep: string, i: nat): nat
    requires i <= |xs|
    decreases i
  {
    if i == 0 then 0 else |xs[0]| + |sep| + JoinOffset(xs[1..], sep, i - 1)
  }

  /** The i-th piece occurs in the joined text at its offset. */
  lemma {:induction false} JoinAt(xs: seq<string>, sep: string, i: nat)
    requires i < |xs|
    ensures OccursAt(Join(xs, sep), xs[i], JoinOffset(xs, sep, i))
    decreases |xs|
  {
    var j := Join(xs, sep);
    if |xs| == 1 {
      assert j[0..|xs[0]|] == xs[0];
    } else if i == 0 {
      assert j == xs[0] + (sep + Join(xs[1..], sep));
      assert j[0..|xs[0]|] == xs[0];
    } else {
      JoinAt(xs[1..], sep, i - 1);
      OccursPrepend(xs[0] + sep, Join(xs[1..], sep), xs[i], JoinOffset(xs[1..], sep, i - 1));
    }
  }

  /** A piece ends, and a separator follows it, before any later piece
      starts. */
  lemma {:induction false} JoinOffsetOrder(xs: seq<string>, sep: string, i: nat, j: nat)
    requires i < j < |xs|
    ensures JoinOffset(xs, sep, i) + |xs[i]| + |sep| <= JoinOffset(xs, sep, j)
    decreases |xs|
  {
    if i > 0 {
      JoinOffsetOrder(xs[1..], sep, i - 1, j - 1);
    }
  }

  /** The joined text holds the pieces in their order: an earlier piece
      occurs before a later one, even when the two are equal. */
  lemma JoinOrder(xs: seq<string>, sep: string, i: nat, j: nat)
    requires i < j < |xs|
    ensures OccursBefore(Join(xs, sep), xs[i], xs[j])
  {
    JoinAt(xs, sep, i);
    JoinAt(xs, sep, j);
    JoinOffsetOrder(xs, sep, i, j);
  }

  /** Lower-casing commutes with joining on a single space. */
  lemma {:induction false} LowerJoinSpace(xs: seq<string>)
    ensures Lower(Join(xs, " ")) == Join(seq(|xs|, i requires 0 <= i < |xs| => Lower(xs[i])), " ")
    decreases |xs|
  {
    var ys := seq(|xs|, i requires 0 <= i < |xs| => Lower(xs[i]));
    if |xs| > 1 {
      LowerJoinSpace(xs[1..]);
      assert ys[1..] == seq(|xs[1..]|, i requires 0 <= i < |xs[1..]| => Lower(xs[1..][i]));
      LowerAppend(xs[0] + " ", Join(xs[1..], " "));
      LowerAppend(xs[0], " ");
    }
  }

  /** A match inside `a` or inside `b` is a match in `a + " " + b`. */
  lemma ContainsInPieces(a: string, b: string, w: string)
    ensures Contains(a, w) || Contains(b, w) ==> Contains(a + " " + b, w)
  {
    var s := a + " " + b;
    ContainsIffOccurs(a, w);
    ContainsIffOccurs(b, w);
    if Contains(a, w) {
      var i :| OccursAt(a, w, i);
      assert s[i..i + |w|] == a[i..i + |w|];
      ContainsAt(s, w, i);
    } else if Contains(b, w) {
      var i :| OccursAt(b, w, i);
      var k := |a| + 1 + i;
      assert s[k..k + |w|] == b[i..i + |w|];
      ContainsAt(s, w, k);
    }
  }

  lemma OccursCovers(s: string, w: string, i: int, k: int)
    requires OccursAt(s, w, i) && i <= k < i + |w|
    ensures s[k] == w[k - i]
  {
    assert s[i..i + |w|][k - i] == s[k];
  }

  /** A space-free match in `a + " " + b` lies inside `a` or inside `b`. */
  lemma ContainsAcrossSpace(a: string, b: string, w: string)
    requires |w| > 0 && ' ' !in w
    ensures Contains(a + " " + b, w) ==> Contains(a, w) || Contains(b, w)
  {
    var s := a + " " + b;
    ContainsIffOccurs(s, w);
    if Contains(s, w) {
      var i :| OccursAt(s, w, i);
      if i + |w| <= |a| {
        assert s[i..i + |w|] == a[i..i + |w|];
        ContainsAt(a, w, i);
      } else if i > |a| {
        assert s[i..i + |w|] == b[i - |a| - 1..i - |a| - 1 + |w|];
        ContainsAt(b, w, i - |a| - 1);
      } else {
        OccursCovers(s, w, i, |a|);
        assert false;
      }
    }
  }

  /** A space-free word occurs in the space-joined text exactly when it occurs
      in one of the pieces: joining creates no new matches. */
  lemma {:induction false} ContainsJoinSpace(xs: seq<string>, w: string)
    requires |w| > 0 && ' ' !in w
    ensures Contains(Join(xs, " "), w) <==> exists i :: 0 <= i < |xs| && Contains(xs[i], w)
    decreases |xs|
  {
    if |xs| == 0 {
      assert !StartsWith("", w);
    } else if |xs| > 1 {
      ContainsJoinSpace(xs[1..], w);
      ContainsInPieces(xs[0], Join(xs[1..], " "), w);
      ContainsAcrossSpace(xs[0], Join(xs[1..], " "), w);
      if i :| 0 <= i < |xs| && Contains(xs[i], w) {
        if i > 0 {
          assert xs[1..][i - 1] == xs[i];
        }
      }
      if Contains(Join(xs[1..], " "), w) {
        var i :| 0 <= i < |xs[1..]| && Contains(xs[1..][i], w);
        assert Contains(xs[i + 1], w);
      }
    }
  }

  /** The distinct elements of `xs` in first-occurrence order; the model's
      choice of iteration order for a Python `set(xs)`. */
  function Dedup<T(==)>(xs: seq<T>): (r: seq<T>)
    ensures forall i :: 0 <= i < |r| ==> r[i] in xs
    ensures forall i :: 0 <= i < |xs| ==> xs[i] in r
    ensures forall i, j :: 0 <= i < j < |r| ==> r[i] != r[j]
    ensures |r| <= |xs|
    decreases |xs|
  {
    if |xs| == 0 then []
    else
      var prev := Dedup(xs[..|xs| - 1]);
      assert xs == xs[..|xs| - 1] + [xs[|xs| - 1]];
      if xs[|xs| - 1] in prev then prev else prev + [xs[|xs| - 1]]
  }

  function DigitChar(d: nat): char
    requires d < 10
  {
    ('0' as int + d) as char
  }

  predicate IsDigits(s: string) {
    forall i :: 0 <= i < |s| ==> '0' <= s[i] <= '9'
  }

  /** `str(n)` for a natural number: its decimal digits, no leading zero. */
  function NatToString(n: nat): (r: string)
    ensures |r| > 0 && IsDigits(r)
    ensures |r| > 1 ==> r[0] != '0'
  {
    if n < 10 then [DigitChar(n)] else NatToString(n / 10) + [DigitChar(n % 10)]
  }

  /** Reads a decimal digit string back as a number. */
  function DigitsValue(s: string): nat
    requires IsDigits(s)
  {
    if |s| == 0 then 0
    else DigitsValue(s[..|s| - 1]) * 10 + (s[|s| - 1] as int - '0' as int)
  }

  /** The decimal rendering of a count reads back as that count. */
  lemma {:induction false} NatToStringRoundTrip(n: nat)
    ensures DigitsValue(NatToString(n)) == n
  {
    if n >= 10 {
      NatToStringRoundTrip(n / 10);
      var s := NatToString(n);
      assert s[..|s| - 1] == NatToString(n / 10);
    }
  }
}
