/** The single-group regular expressions that the agent runs with `re.search`, as hand-written
    leftmost matchers. Each pattern below is matched the way Python's backtracking engine
    matches it: in every one of them the greedy choice of each quantifier is the only one that
    can succeed, because what follows a quantified run (a digit, `$`, a letter of a literal, or
    the end of the pattern) cannot match a character that the run would give back. */
module Captures {
  import opened Wrappers
  import opened Text

  datatype Capture =
    | DollarDigits                   // \$(\d+)
    | LiteralDigits(lit: string)     // under (\d+)            with lit == "under "
    | WordLazyDigits(word: string)   // budget.*?(\d+)         with word == "budget"
    | DollarNumber                   // \$(\d+\.?\d*)
    | LabelDollarNumber(tag: string) // Price:\s*\$(\d+\.?\d*)  case-insensitive
    | NumberWord(word: string)       // (\d+\.?\d*)\s*dollars?  case-insensitive
    | DigitNumberWord(word: string)  // (\d\.?\d*)\s*stars?     case-insensitive
    | LabelDigitNumber(tag: string) // Rating:\s*(\d\.?\d*)   case-insensitive

  datatype Span = Span(start: nat, end: nat)

  /** End of a greedy `\d+\.?\d*` starting at the digit at `j`. */
  function NumberEnd(s: string, j: nat): (e: nat)
    requires j < |s| && IsDigit(s[j])
    ensures j < e <= |s|
  {
    var d := DigitsEnd(s, j);
    if d < |s| && s[d] == '.' then DigitsEnd(s, d + 1) else d
  }

  /** End of a greedy `\d\.?\d*` starting at the digit at `j`. */
  function SingleNumberEnd(s: string, j: nat): (e: nat)
    requires j < |s| && IsDigit(s[j])
    ensures j < e <= |s|
  {
    if j + 1 < |s| && s[j + 1] == '.' then DigitsEnd(s, j + 2) else DigitsEnd(s, j + 1)
  }

  /** The first digit reachable from `j` by a lazy `.*?`, which stops at a line break. */
  function FirstDigitOnLine(s: string, j: nat): (r: Option<nat>)
    requires j <= |s|
    ensures r.Some? ==> j <= r.value < |s| && IsDigit(s[r.value])
    ensures r.Some? ==> forall t :: j <= t < r.value ==> !IsDigit(s[t]) && s[t] != '\n'
    decreases |s| - j
  {
    if j >= |s| then None
    else if IsDigit(s[j]) then Some(j)
    else if s[j] == '\n' then None
    else FirstDigitOnLine(s, j + 1)
  }

  /** Text shape of the number a pattern captures. */
  predicate DecimalShape(x: string) {
    |x| > 0 && IsDigit(x[0]) &&
    (AllDigits(x) || exists k :: 0 < k < |x| && x[k] == '.' && AllDigits(x[..k]) && AllDigits(x[k + 1..]))
  }

  predicate Shape(c: Capture, x: string) {
    match c
    case DollarDigits => |x| > 0 && AllDigits(x)
    case LiteralDigits(_) => |x| > 0 && AllDigits(x)
    case WordLazyDigits(_) => |x| > 0 && AllDigits(x)
    case _ => DecimalShape(x)
  }

  lemma NumberShape(s: string, j: nat)
    requires j < |s| && IsDigit(s[j])
    ensures DecimalShape(s[j..NumberEnd(s, j)])
  {
    var d := DigitsEnd(s, j);
    var x := s[j..NumberEnd(s, j)];
    if d < |s| && s[d] == '.' {
      var k := d - j;
      assert x[..k] == s[j..d];
      assert x[k + 1..] == s[d + 1..NumberEnd(s, j)];
      assert 0 < k < |x| && x[k] == '.' && AllDigits(x[..k]) && AllDigits(x[k + 1..]);
    }
  }

  lemma SingleNumberShape(s: string, j: nat)
    requires j < |s| && IsDigit(s[j])
    ensures DecimalShape(s[j..SingleNumberEnd(s, j)])
  {
    var x := s[j..SingleNumberEnd(s, j)];
    if j + 1 < |s| && s[j + 1] == '.' {
      assert x[..1] == s[j..j + 1];
      assert x[2..] == s[j + 2..SingleNumberEnd(s, j)];
    }
  }

  /** The span of the group captured by pattern `c` when it matches starting exactly at `i`. */
  function CaptureAt(c: Capture, s: string, i: nat): (r: Option<Span>)
    requires i < |s|
    ensures r.Some? ==> i <= r.value.start < r.value.end <= |s|
  {
    match c
    case DollarDigits =>
      if s[i] == '$' && i + 1 < |s| && IsDigit(s[i + 1]) then Some(Span(i + 1, DigitsEnd(s, i + 1)))
      else None
    case LiteralDigits(lit) =>
      if OccursAt(s, lit, i) && i + |lit| < |s| && IsDigit(s[i + |lit|])
      then Some(Span(i + |lit|, DigitsEnd(s, i + |lit|)))
      else None
    case WordLazyDigits(word) =>
      if OccursAt(s, word, i) then
        match FirstDigitOnLine(s, i + |word|)
        case Some(d) => Some(Span(d, DigitsEnd(s, d)))
        case None => None
      else None
    case DollarNumber =>
      if s[i] == '$' && i + 1 < |s| && IsDigit(s[i + 1]) then Some(Span(i + 1, NumberEnd(s, i + 1)))
      else None
    case LabelDollarNumber(tag) =>
      if FoldedAt(s, tag, i) then
        var w := SkipSpace(s, i + |tag|);
        if w + 1 < |s| && s[w] == '$' && IsDigit(s[w + 1]) then Some(Span(w + 1, NumberEnd(s, w + 1)))
        else None
      else None
    case NumberWord(word) =>
      if IsDigit(s[i]) then
        var e := NumberEnd(s, i);
        if FoldedAt(s, word, SkipSpace(s, e)) then Some(Span(i, e)) else None
      else None
    case DigitNumberWord(word) =>
      if IsDigit(s[i]) then
        var e := SingleNumberEnd(s, i);
        if FoldedAt(s, word, SkipSpace(s, e)) then Some(Span(i, e)) else None
      else None
    case LabelDigitNumber(tag) =>
      if FoldedAt(s, tag, i) then
        var w := SkipSpace(s, i + |tag|);
        if w < |s| && IsDigit(s[w]) then Some(Span(w, SingleNumberEnd(s, w))) else None
      else None
  }

  /** A run of digits found by `DigitsEnd`. */
  lemma DigitsShape(s: string, j: nat)
    requires j < |s| && IsDigit(s[j])
    ensures |s[j..DigitsEnd(s, j)]| > 0 && AllDigits(s[j..DigitsEnd(s, j)])
  {
    var x := s[j..DigitsEnd(s, j)];
    forall k | 0 <= k < |x| ensures IsDigit(x[k]) {
      assert x[k] == s[j + k];
    }
  }

  /** The group captured has the shape its pattern describes. */
  lemma CaptureShape(c: Capture, s: string, i: nat)
    requires i < |s| && CaptureAt(c, s, i).Some?
    ensures var sp := CaptureAt(c, s, i).value; Shape(c, s[sp.start..sp.end])
  {
    if c.DollarDigits? || c.LiteralDigits? || c.WordLazyDigits? {
      DigitsCaptureShape(c, s, i);
    } else if c.DollarNumber? || c.LabelDollarNumber? || c.NumberWord? {
      NumberCaptureShape(c, s, i);
    } else {
      SingleNumberCaptureShape(c, s, i);
    }
  }

  lemma DigitsCaptureShape(c: Capture, s: string, i: nat)
    requires i < |s| && CaptureAt(c, s, i).Some?
    requires c.DollarDigits? || c.LiteralDigits? || c.WordLazyDigits?
    ensures var sp := CaptureAt(c, s, i).value; |s[sp.start..sp.end]| > 0 && AllDigits(s[sp.start..sp.end])
  {
    DigitsShape(s, CaptureAt(c, s, i).value.start);
  }

  lemma NumberCaptureShape(c: Capture, s: string, i: nat)
    requires i < |s| && CaptureAt(c, s, i).Some?
    requires c.DollarNumber? || c.LabelDollarNumber? || c.NumberWord?
    ensures var sp := CaptureAt(c, s, i).value; DecimalShape(s[sp.start..sp.end])
  {
    NumberShape(s, CaptureAt(c, s, i).value.start);
  }

  lemma SingleNumberCaptureShape(c: Capture, s: string, i: nat)
    requires i < |s| && CaptureAt(c, s, i).Some?
    requires c.DigitNumberWord? || c.LabelDigitNumber?
    ensures var sp := CaptureAt(c, s, i).value; DecimalShape(s[sp.start..sp.end])
  {
    SingleNumberShape(s, CaptureAt(c, s, i).value.start);
  }

  /** `re.search`: the leftmost start position at or after `i` where the pattern matches. */
  function Leftmost(c: Capture, s: string, i: nat): (r: Option<nat>)
    ensures r.Some? ==> i <= r.value < |s| && CaptureAt(c, s, r.value).Some?
    ensures r.Some? ==> forall t :: i <= t < r.value ==> CaptureAt(c, s, t).None?
    ensures r.None? ==> forall t :: i <= t < |s| ==> CaptureAt(c, s, t).None?
    decreases |s| - i
  {
    if i >= |s| then None
    else if CaptureAt(c, s, i).Some? then Some(i)
    else
      var r := Leftmost(c, s, i + 1);
      assert forall t :: i <= t < (if r.Some? then r.value else |s|) ==> CaptureAt(c, s, t).None? by {
        forall t | i < t < (if r.Some? then r.value else |s|) ensures CaptureAt(c, s, t).None? {
        }
      }
      r
  }

  /** `m.group(1)` of `re.search(c, s)`, or `None` when there is no match. */
  function Search(c: Capture, s: string): (r: Option<string>)
    ensures r.Some? ==> Shape(c, r.value)
    ensures r.None? <==> forall t :: 0 <= t < |s| ==> CaptureAt(c, s, t).None?
  {
    match Leftmost(c, s, 0)
    case None => None
    case Some(p) =>
      var sp := CaptureAt(c, s, p).value;
      CaptureShape(c, s, p);
      Some(s[sp.start..sp.end])
  }

  /** The capture of the first pattern, in list order from `k` on, that matches anywhere in
      `s`: the `for pattern in patterns: ... break` loops of the source. */
  function FirstMatch(cs: seq<Capture>, s: string, k: nat): (r: Option<string>)
    requires k <= |cs|
    ensures r.None? <==> forall j :: k <= j < |cs| ==> Search(cs[j], s).None?
    ensures r.Some? ==> exists j :: k <= j < |cs| && Search(cs[j], s) == r
                          && forall t :: k <= t < j ==> Search(cs[t], s).None?
    decreases |cs| - k, |s|  // naming `s` keeps a constant pattern list from being unrolled
  {
    if k == |cs| then None
    else if Search(cs[k], s).Some? then Search(cs[k], s)
    else
      var r := FirstMatch(cs, s, k + 1);
      assert r.Some? ==> exists j :: k <= j < |cs| && Search(cs[j], s) == r
                          && forall t :: k <= t < j ==> Search(cs[t], s).None?
      by {
        if r.Some? {
          var j :| k + 1 <= j < |cs| && Search(cs[j], s) == r && forall t :: k + 1 <= t < j ==> Search(cs[t], s).None?;
          assert forall t :: k <= t < j ==> Search(cs[t], s).None?;
        }
      }
      r
  }

  lemma {:induction false} LeftmostAt(c: Capture, s: string, i: nat, p: nat)
    requires i <= p < |s| && CaptureAt(c, s, p).Some?
    requires forall t :: i <= t < p ==> CaptureAt(c, s, t).None?
    ensures Leftmost(c, s, i) == Some(p)
    decreases p - i
  {
    if i < p {
      LeftmostSkip(c, s, i);
      LeftmostAt(c, s, i + 1, p);
    }
  }

  /** A position where the pattern does not match is passed over. */
  lemma LeftmostSkip(c: Capture, s: string, i: nat)
    requires i < |s| && CaptureAt(c, s, i).None?
    ensures Leftmost(c, s, i) == Leftmost(c, s, i + 1)
  {
  }

  /** `re.search` returns the capture at the first position where the pattern matches. */
  lemma SearchAt(c: Capture, s: string, p: nat, sp: Span, v: string)
    requires p < |s| && CaptureAt(c, s, p) == Some(sp)
    requires forall t :: 0 <= t < p ==> CaptureAt(c, s, t).None?
    requires sp.start <= sp.end <= |s| && s[sp.start..sp.end] == v
    ensures Search(c, s) == Some(v)
  {
    LeftmostAt(c, s, 0, p);
  }
}
