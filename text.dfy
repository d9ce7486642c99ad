/** Python string operations the agent relies on (`lower`, `in`, `strip`, `split`, `join`,
    `replace`, `int`, `str`), written out over `seq<char>`. */
module Text {
  import opened Wrappers

  // ---------------------------------------------------------------------------
  // Characters

  /** `\d` and `int()` over ASCII digits. */
  predicate IsDigit(c: char) { '0' <= c <= '9' }

  /** `str.isspace()` / `\s` over the Latin-1 range. */
  predicate IsSpace(c: char) {
    c == ' ' || c == '\t' || c == '\n' || c == '\r' || c == '\U{0B}' || c == '\U{0C}'
    || ('\U{1C}' <= c <= '\U{1F}') || c == '\U{85}' || c == '\U{A0}'
  }

  /** `str.lower()` on one character, for ASCII letters. */
  function LowerChar(c: char): (r: char)
    ensures 'A' <= c <= 'Z' ==> r as int == c as int + 32
    ensures !('A' <= c <= 'Z') ==> r == c
  {
    if 'A' <= c <= 'Z' then (c as int + 32) as char else c
  }

  function Lower(s: string): (r: string)
    ensures |r| == |s| && forall k :: 0 <= k < |s| ==> r[k] == LowerChar(s[k])
  {
    seq(|s|, k requires 0 <= k < |s| => LowerChar(s[k]))
  }

  lemma LowerConcat(a: string, b: string)
    ensures Lower(a + b) == Lower(a) + Lower(b)
  {
  }

  // ---------------------------------------------------------------------------
  // Substrings

  /** `pat` occurs in `s` at index `i`. */
  predicate OccursAt(s: string, pat: string, i: nat) {
    i + |pat| <= |s| && s[i..i + |pat|] == pat
  }

  /** `s.find(pat, i)`: the first occurrence of `pat` at or after `i`. */
  function IndexFrom(s: string, pat: string, i: nat): (r: Option<nat>)
    ensures r.Some? ==> i <= r.value && OccursAt(s, pat, r.value)
    ensures r.Some? ==> forall t :: i <= t < r.value ==> !OccursAt(s, pat, t)
    ensures r.None? ==> forall t :: i <= t ==> !OccursAt(s, pat, t)
    decreases |s| - i
  {
    if i + |pat| > |s| then None
    else if s[i..i + |pat|] == pat then Some(i)
    else IndexFrom(s, pat, i + 1)
  }

  /** Python's `pat in s`. */
  predicate Contains(s: string, pat: string) {
    IndexFrom(s, pat, 0).Some?
  }

  /** A text occurs in any concatenation that ends with it, right after the prefix. */
  lemma OccursAtEnd(a: string, b: string)
    ensures OccursAt(a + b, b, |a|)
  {
    assert (a + b)[|a|..|a| + |b|] == b;
  }

  /** A slice that spells `u + v` begins with a slice that spells `u`. */
  lemma SliceHead(s: string, i: nat, u: string, v: string)
    requires i + |u| + |v| <= |s| && s[i..i + |u| + |v|] == u + v
    ensures s[i..i + |u|] == u
  {
    assert s[i..i + |u|] == s[i..i + |u| + |v|][..|u|];
  }

  lemma ContainsIff(s: string, pat: string)
    ensures Contains(s, pat) <==> exists t :: OccursAt(s, pat, t)
  {
    if Contains(s, pat) {
      assert OccursAt(s, pat, IndexFrom(s, pat, 0).value);
    }
  }

  /** `s.split(sep)[0]`: everything before the first occurrence of `sep`. */
  function BeforeFirst(s: string, sep: string): (r: string)
    requires |sep| > 0
    ensures |r| <= |s| && r == s[..|r|]
    ensures forall t: nat :: !OccursAt(r, sep, t)
  {
    match IndexFrom(s, sep, 0)
    case None => s
    case Some(k) =>
      var r := s[..k];
      assert forall t: nat :: OccursAt(r, sep, t) ==> OccursAt(s, sep, t) && t < k by {
        forall t: nat | OccursAt(r, sep, t) ensures OccursAt(s, sep, t) && t < k {
          assert r[t..t + |sep|] == s[t..t + |sep|];
        }
      }
      r
  }

  /** The first index at or after `j` holding `c`. */
  function FindFrom(s: string, c: char, j: nat): (r: Option<nat>)
    ensures r.Some? ==> j <= r.value < |s| && s[r.value] == c
    ensures r.Some? ==> forall t :: j <= t < r.value ==> s[t] != c
    ensures r.None? ==> forall t :: j <= t < |s| ==> s[t] != c
    decreases |s| - j
  {
    if j >= |s| then None
    else if s[j] == c then Some(j)
    else FindFrom(s, c, j + 1)
  }

  /** The first `c` at or after `j` is the one at `k`. */
  lemma {:induction false} FindFromAt(s: string, c: char, j: nat, k: nat)
    requires j <= k < |s| && s[k] == c
    requires forall t :: j <= t < k ==> s[t] != c
    ensures FindFrom(s, c, j) == Some(k)
    decreases k - j
  {
    if j < k {
      FindFromAt(s, c, j + 1, k);
    }
  }

  // ---------------------------------------------------------------------------
  // Counting a character

  function CountChar(s: string, c: char): nat
    decreases |s|
  {
    if |s| == 0 then 0 else (if s[0] == c then 1 else 0) + CountChar(s[1..], c)
  }

  lemma {:induction false} CountConcat(a: string, b: string, c: char)
    ensures CountChar(a + b, c) == CountChar(a, c) + CountChar(b, c)
    decreases |a|
  {
    if |a| == 0 {
      assert a + b == b;
    } else {
      assert (a + b)[1..] == a[1..] + b;
      CountConcat(a[1..], b, c);
    }
  }

  lemma {:induction false} CountSlice(s: string, i: nat, j: nat, c: char)
    requires i <= j <= |s|
    ensures CountChar(s[i..j], c) <= CountChar(s, c)
  {
    assert s == s[..i] + s[i..j] + s[j..];
    CountConcat(s[..i] + s[i..j], s[j..], c);
    CountConcat(s[..i], s[i..j], c);
  }

  lemma {:induction false} CountAbsent(s: string, c: char)
    requires c !in s
    ensures CountChar(s, c) == 0
    decreases |s|
  {
    if |s| > 0 {
      assert c !in s[1..] by {
        forall k | 0 <= k < |s| - 1 ensures s[1..][k] != c { assert s[1..][k] == s[k + 1]; }
      }
      CountAbsent(s[1..], c);
    }
  }

  // ---------------------------------------------------------------------------
  // strip()

  /** The end of the text once its trailing whitespace, down to `lo`, is cut off. */
  function TrimEnd(s: string, lo: nat, hi: nat): (e: nat)
    requires lo <= hi <= |s|
    ensures lo <= e <= hi && (e > lo ==> !IsSpace(s[e - 1]))
    ensures forall t :: e <= t < hi ==> IsSpace(s[t])
    decreases hi - lo
  {
    if lo < hi && IsSpace(s[hi - 1]) then TrimEnd(s, lo, hi - 1) else hi
  }

  /** `str.strip()`: the text between the leading and the trailing whitespace. */
  function Strip(s: string): (r: string)
    ensures |r| <= |s|
    ensures IsStripped(r)
  {
    var a := SkipSpace(s, 0);
    s[a..TrimEnd(s, a, |s|)]
  }

  /** No leading and no trailing whitespace. */
  predicate IsStripped(s: string) {
    |s| == 0 || (!IsSpace(s[0]) && !IsSpace(s[|s| - 1]))
  }

  /** The stripped text is the slice of `s` from its first to its last non-space character:
      only whitespace lies outside the slice, and none at its edges. */
  lemma StripIsSlice(s: string)
    ensures var a := SkipSpace(s, 0);
            var b := a + |Strip(s)|;
            && b <= |s| && Strip(s) == s[a..b]
            && (forall t :: 0 <= t < a ==> IsSpace(s[t]))
            && (forall t :: b <= t < |s| ==> IsSpace(s[t]))
            && (a < b ==> !IsSpace(s[a]) && !IsSpace(s[b - 1]))
  {
  }

  /** Only whitespace from `j` to `a`, and no whitespace at `a`: `SkipSpace` stops at `a`. */
  lemma {:induction false} SkipSpaceAt(s: string, j: nat, a: nat)
    requires j <= a <= |s| && (a < |s| ==> !IsSpace(s[a]))
    requires forall t :: j <= t < a ==> IsSpace(s[t])
    ensures SkipSpace(s, j) == a
    decreases a - j
  {
    if j < a {
      SkipSpaceAt(s, j + 1, a);
    }
  }

  lemma {:induction false} TrimEndAt(s: string, lo: nat, hi: nat, b: nat)
    requires lo <= b <= hi <= |s| && (b > lo ==> !IsSpace(s[b - 1]))
    requires forall t :: b <= t < hi ==> IsSpace(s[t])
    ensures TrimEnd(s, lo, hi) == b
    decreases hi - lo
  {
    if b < hi {
      TrimEndAt(s, lo, hi - 1, b);
    }
  }

  /** Whitespace before `a` and from `b` on, and none at either edge of `s[a..b]`: that slice is
      what `strip()` returns. */
  lemma StripBetween(s: string, a: nat, b: nat)
    requires a <= b <= |s|
    requires forall t :: 0 <= t < a ==> IsSpace(s[t])
    requires forall t :: b <= t < |s| ==> IsSpace(s[t])
    requires a < b ==> !IsSpace(s[a]) && !IsSpace(s[b - 1])
    ensures Strip(s) == s[a..b]
  {
    if a < b {
      SkipSpaceAt(s, 0, a);
      TrimEndAt(s, a, |s|, b);
    } else {
      SkipSpaceAt(s, 0, |s|);
      assert s[|s|..TrimEnd(s, |s|, |s|)] == [] == s[a..b];
    }
  }

  lemma StripStripped(s: string)
    requires IsStripped(s)
    ensures Strip(s) == s
  {
    StripBetween(s, 0, |s|);
    assert s[0..|s|] == s;
  }

  lemma StripOmits(s: string, c: char)
    requires c !in s
    ensures c !in Strip(s)
  {
    StripIsSlice(s);
  }

  lemma StripCount(s: string, c: char)
    ensures CountChar(Strip(s), c) <= CountChar(s, c)
  {
    StripIsSlice(s);
    var i := SkipSpace(s, 0);
    CountSlice(s, i, i + |Strip(s)|, c);
  }

  /** Trailing whitespace added to a stripped text is stripped again. */
  lemma StripTrailingSpace(s: string, ws: string)
    requires IsStripped(s) && |s| > 0
    requires forall k :: 0 <= k < |ws| ==> IsSpace(ws[k])
    ensures Strip(s + ws) == s
  {
    var t := s + ws;
    forall k | |s| <= k < |t| ensures IsSpace(t[k]) {
      assert t[k] == ws[k - |s|];
    }
    StripBetween(t, 0, |s|);
    assert t[0..|s|] == s;
  }

  lemma SliceShift(ws: string, x: string, a: nat, b: nat)
    requires a <= b <= |x|
    ensures (ws + x)[a + |ws|..b + |ws|] == x[a..b]
  {
    var t := ws + x;
    forall k | 0 <= k < b - a ensures t[a + |ws|..b + |ws|][k] == x[a..b][k] {
      assert t[a + |ws| + k] == x[a + k];
    }
  }

  /** Leading whitespace makes no difference to `strip()`. */
  lemma StripLeadingSpace(ws: string, x: string)
    requires forall k :: 0 <= k < |ws| ==> IsSpace(ws[k])
    ensures Strip(ws + x) == Strip(x)
  {
    var a := SkipSpace(x, 0);
    var b := TrimEnd(x, a, |x|);
    assert Strip(x) == x[a..b];
    StripShifted(ws, x, a, b);
    SliceShift(ws, x, a, b);
  }

  lemma StripShifted(ws: string, x: string, a: nat, b: nat)
    requires forall k :: 0 <= k < |ws| ==> IsSpace(ws[k])
    requires a <= b <= |x|
    requires forall t :: 0 <= t < a ==> IsSpace(x[t])
    requires forall t :: b <= t < |x| ==> IsSpace(x[t])
    requires a < b ==> !IsSpace(x[a]) && !IsSpace(x[b - 1])
    ensures Strip(ws + x) == (ws + x)[a + |ws|..b + |ws|]
  {
    var t := ws + x;
    var d := |ws|;
    forall k | 0 <= k < a + d ensures IsSpace(t[k]) {
      if k >= d {
        assert t[k] == x[k - d];
      }
    }
    forall k | b + d <= k < |t| ensures IsSpace(t[k]) {
      assert t[k] == x[k - d];
    }
    if a < b {
      assert t[a + d] == x[a] && t[b + d - 1] == x[b - 1];
    }
    StripBetween(t, a + d, b + d);
  }

  // ---------------------------------------------------------------------------
  // split() and join()

  /** `sep.join(parts)` */
  function Join(parts: seq<string>, sep: string): string
    decreases |parts|
  {
    if |parts| == 0 then ""
    else if |parts| == 1 then parts[0]
    else parts[0] + sep + Join(parts[1..], sep)
  }

  /** `s.split(c)` for a one-character separator. */
  function SplitOn(s: string, c: char): (parts: seq<string>)
    ensures |parts| >= 1
    ensures forall k :: 0 <= k < |parts| ==> c !in parts[k]
    decreases |s|
  {
    match FindFrom(s, c, 0)
    case None => [s]
    case Some(k) => [s[..k]] + SplitOn(s[k + 1..], c)
  }

  /** A first piece free of the separator is split off on its own. */
  lemma SplitFirst(x: string, c: char, rest: string)
    requires c !in x
    ensures SplitOn(x + [c] + rest, c) == [x] + SplitOn(rest, c)
  {
    var s := x + [c] + rest;
    FindFromAt(s, c, 0, |x|);
    assert s[..|x|] == x && s[|x| + 1..] == rest;
  }

  lemma {:induction false} SplitJoin(s: string, c: char)
    ensures Join(SplitOn(s, c), [c]) == s
    decreases |s|
  {
    match FindFrom(s, c, 0)
    case None =>
    case Some(k) =>
      var rest := SplitOn(s[k + 1..], c);
      SplitJoin(s[k + 1..], c);
      assert ([s[..k]] + rest)[1..] == rest;
      assert Join(SplitOn(s, c), [c]) == s[..k] + [c] + Join(rest, [c]);
      assert s == s[..k] + [c] + s[k + 1..];
  }

  /** Splitting a join of pieces free of the separator gives back the pieces. */
  lemma {:induction false} SplitOnJoin(parts: seq<string>, c: char)
    requires |parts| >= 1 && forall k :: 0 <= k < |parts| ==> c !in parts[k]
    ensures SplitOn(Join(parts, [c]), c) == parts
    decreases |parts|
  {
    if |parts| == 1 {
      assert Join(parts, [c]) == parts[0];
      assert FindFrom(parts[0], c, 0).None?;
    } else {
      SplitOnJoin(parts[1..], c);
      SplitFirst(parts[0], c, Join(parts[1..], [c]));
      assert [parts[0]] + parts[1..] == parts;
    }
  }

  lemma {:induction false} SplitCount(s: string, c: char)
    ensures |SplitOn(s, c)| == CountChar(s, c) + 1
    decreases |s|
  {
    match FindFrom(s, c, 0)
    case None =>
      CountAbsent(s, c);
    case Some(k) =>
      SplitCount(s[k + 1..], c);
      assert s == s[..k] + [c] + s[k + 1..];
      CountConcat(s[..k] + [c], s[k + 1..], c);
      CountConcat(s[..k], [c], c);
      CountAbsent(s[..k], c);
  }

  lemma {:induction false} JoinCount(parts: seq<string>, sep: string, c: char)
    requires |parts| >= 1
    requires forall k :: 0 <= k < |parts| ==> c !in parts[k]
    ensures CountChar(Join(parts, sep), c) == (|parts| - 1) * CountChar(sep, c)
    decreases |parts|
  {
    if |parts| == 1 {
      CountAbsent(parts[0], c);
    } else {
      JoinCount(parts[1..], sep, c);
      CountConcat(parts[0] + sep, Join(parts[1..], sep), c);
      CountConcat(parts[0], sep, c);
      CountAbsent(parts[0], c);
    }
  }

  lemma {:induction false} JoinOmits(parts: seq<string>, sep: string, c: char)
    requires forall k :: 0 <= k < |parts| ==> c !in parts[k]
    requires c !in sep
    ensures c !in Join(parts, sep)
    decreases |parts|
  {
    if |parts| > 1 {
      JoinOmits(parts[1..], sep, c);
    }
  }

  // ---------------------------------------------------------------------------
  // replace()

  /** `s.replace(from, to)`: every non-overlapping occurrence, scanning left to right. */
  function ReplaceAll(s: string, from: string, to: string): (r: string)
    requires |from| > 0
    ensures (forall t: nat :: !OccursAt(s, from, t)) ==> r == s
    decreases |s|
  {
    if |s| < |from| then s
    else if s[..|from|] == from then
      assert OccursAt(s, from, 0);
      to + ReplaceAll(s[|from|..], from, to)
    else
      assert (forall t: nat :: !OccursAt(s, from, t)) ==> forall t: nat :: !OccursAt(s[1..], from, t) by {
        forall t: nat | OccursAt(s[1..], from, t) ensures OccursAt(s, from, t + 1) {
          assert s[1..][t..t + |from|] == s[t + 1..t + 1 + |from|];
        }
      }
      assert [s[0]] + s[1..] == s;
      [s[0]] + ReplaceAll(s[1..], from, to)
  }

  lemma {:induction false} ReplaceOmits(s: string, from: string, to: string, c: char)
    requires |from| > 0 && c !in s && c !in to
    ensures c !in ReplaceAll(s, from, to)
    decreases |s|
  {
    if |s| < |from| {
    } else if s[..|from|] == from {
      ReplaceOmits(s[|from|..], from, to, c);
    } else {
      ReplaceOmits(s[1..], from, to, c);
    }
  }

  /** A replacement whose pattern holds a character the text lacks changes nothing. */
  lemma {:induction false} ReplaceNoop(s: string, from: string, to: string, c: char)
    requires |from| > 0 && c in from && c !in s
    ensures ReplaceAll(s, from, to) == s
    decreases |s|
  {
    if |s| < |from| {
    } else {
      assert s[..|from|] != from by {
        var k :| 0 <= k < |from| && from[k] == c;
        assert s[..|from|][k] == s[k];
      }
      ReplaceNoop(s[1..], from, to, c);
      assert [s[0]] + s[1..] == s;
    }
  }

  // ---------------------------------------------------------------------------
  // Decimal integers: `int(digits)` and `str(n)`

  predicate AllDigits(d: string) {
    forall k :: 0 <= k < |d| ==> IsDigit(d[k])
  }

  /** `int(d)` for a string of ASCII digits. */
  function DigitsValue(d: string): nat
    requires AllDigits(d)
    decreases |d|
  {
    if |d| == 0 then 0 else 10 * DigitsValue(d[..|d| - 1]) + (d[|d| - 1] as int - '0' as int)
  }

  function DigitChar(n: nat): (c: char)
    requires n < 10
    ensures IsDigit(c) && c as int - '0' as int == n
  {
    ('0' as int + n) as char
  }

  /** `str(n)` for a non-negative integer. */
  function NatToString(n: nat): (r: string)
    ensures |r| >= 1 && AllDigits(r)
    decreases n
  {
    if n < 10 then [DigitChar(n)] else NatToString(n / 10) + [DigitChar(n % 10)]
  }

  /** `int(str(n)) == n` */
  lemma {:induction false} NatToStringRoundTrip(n: nat)
    ensures DigitsValue(NatToString(n)) == n
    decreases n
  {
    var r := NatToString(n);
    if n < 10 {
      assert r[..0] == [];
    } else {
      NatToStringRoundTrip(n / 10);
      assert r[..|r| - 1] == NatToString(n / 10);
    }
  }

  lemma NatToStringInjective(m: nat, n: nat)
    requires NatToString(m) == NatToString(n)
    ensures m == n
  {
    NatToStringRoundTrip(m);
    NatToStringRoundTrip(n);
  }

  // ---------------------------------------------------------------------------
  // Scanning helpers shared by the hand-written regular-expression matchers

  /** End of the maximal run of digits starting at `j` (greedy `\d*`). */
  function DigitsEnd(s: string, j: nat): (e: nat)
    requires j <= |s|
    ensures j <= e <= |s| && (e < |s| ==> !IsDigit(s[e]))
    ensures forall t :: j <= t < e ==> IsDigit(s[t])
    decreases |s| - j
  {
    if j < |s| && IsDigit(s[j]) then DigitsEnd(s, j + 1) else j
  }

  /** End of the maximal run of whitespace starting at `j` (greedy `\s*`). */
  function SkipSpace(s: string, j: nat): (e: nat)
    requires j <= |s|
    ensures j <= e <= |s| && (e < |s| ==> !IsSpace(s[e]))
    ensures forall t :: j <= t < e ==> IsSpace(s[t])
    decreases |s| - j
  {
    if j < |s| && IsSpace(s[j]) then SkipSpace(s, j + 1) else j
  }

  /** The literal `lit` (lower case) occurs at `i` ignoring ASCII case (`re.IGNORECASE`). */
  predicate FoldedAt(s: string, lit: string, i: nat) {
    i + |lit| <= |s| && Lower(s[i..i + |lit|]) == lit
  }

  lemma {:induction false} DigitsEndAt(s: string, j: nat, e: nat)
    requires j <= e <= |s|
    requires forall t :: j <= t < e ==> IsDigit(s[t])
    requires e == |s| || !IsDigit(s[e])
    ensures DigitsEnd(s, j) == e
    decreases e - j
  {
    if j < e {
      DigitsEndAt(s, j + 1, e);
    }
  }
}
