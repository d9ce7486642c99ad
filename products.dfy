/** Product extraction from scraped page text (`_extract_enhanced_product_info`) and the
    per-batch bookkeeping of `extract_product_info`, as functions; the agent's method that
    stores a batch into its fields is ShoppingAgent.ExtractProductInfo. */
module Products {
  import opened Wrappers
  import opened Text
  import opened Captures

  datatype Product = Product(
    url: string,
    name: string,
    price: string,
    rating: string,
    keyFeatures: seq<string>,
    availability: string,
    primeEligible: bool)

  const DefaultName := "Amazon Product"
  const NoPrice := "Price not found"
  const NoRating := "Rating not found"
  const Availability := "Check Amazon"
  const TitleMarker := "Amazon.com:"

  /** `\$(\d+\.?\d*)`, `Price:\s*\$(\d+\.?\d*)`, `(\d+\.?\d*)\s*dollars?`, case-insensitive. */
  const PricePatterns: seq<Capture> :=
    [DollarNumber, LabelDollarNumber("price:"), NumberWord("dollar")]

  /** `(\d\.?\d*)\s*out of 5 stars`, `Rating:\s*(\d\.?\d*)`, `(\d\.?\d*)\s*stars?`, case-insensitive. */
  const RatingPatterns: seq<Capture> :=
    [DigitNumberWord("out of 5 stars"), LabelDigitNumber("rating:"), DigitNumberWord("star")]

  // ---------------------------------------------------------------------------
  // Name: `Amazon\.com:\s*([^|]+)`

  /** The group of the title pattern when it matches at `i`. The `\s*` gives back one
      whitespace character when nothing but whitespace precedes the next `|`. */
  function TitleAt(s: string, i: nat): (r: Option<Span>)
    requires i <= |s|
    ensures r.Some? ==> i + |TitleMarker| <= r.value.start < r.value.end <= |s|
    ensures r.Some? ==> forall t :: r.value.start <= t < r.value.end ==> s[t] != '|'
  {
    if !OccursAt(s, TitleMarker, i) then None
    else
      var j := i + |TitleMarker|;
      var k := match FindFrom(s, '|', j) case None => |s| case Some(b) => b;
      var w := SkipSpace(s, j);
      if w < k then Some(Span(w, k))
      else if j < k then Some(Span(k - 1, k))
      else None
  }

  /** `re.search` of the title pattern from position `i` on. */
  function FirstTitle(s: string, i: nat): (r: Option<Span>)
    requires i <= |s|
    ensures r.Some? ==> r.value.start < r.value.end <= |s|
    ensures r.Some? ==> forall t :: r.value.start <= t < r.value.end ==> s[t] != '|'
    decreases |s| - i
  {
    if TitleAt(s, i).Some? then TitleAt(s, i)
    else if i == |s| then None
    else FirstTitle(s, i + 1)
  }

  function ExtractName(content: string): (r: string)
    ensures !Contains(content, TitleMarker) ==> r == DefaultName
    ensures r == DefaultName || (IsStripped(r) && '|' !in r)
  {
    if Contains(content, TitleMarker) then
      match FirstTitle(content, 0)
      case None => DefaultName
      case Some(sp) =>
        var g := content[sp.start..sp.end];
        assert '|' !in g;
        StripOmits(g, '|');
        Strip(g)
    else DefaultName
  }

  /** A page that starts with the title marker, then a stripped name, then ` |`, yields that name. */
  lemma NameAfterMarker(n: string, rest: string)
    requires |n| > 0 && IsStripped(n) && '|' !in n
    ensures ExtractName(TitleMarker + (" " + n + " |") + rest) == n
  {
    var m := " " + n + " |";
    var s := TitleMarker + m + rest;
    var j := |TitleMarker|;
    assert s[..j] == TitleMarker;
    assert s[j..j + |m|] == m;
    NameField(s, j, n);
    assert OccursAt(s, TitleMarker, 0);
    assert TitleAt(s, 0) == Some(Span(j + 1, j + 2 + |n|));
    assert s[j + 1..j + 2 + |n|] == n + " " by {
      assert s[j + 1..j + 2 + |n|] == m[1..|m| - 1];
    }
    StripTrailingSpace(n, " ");
  }

  /** The first occurrence of the marker decides the name: the text after it up to the next `|`
      (or the end), stripped. */
  lemma NameAtFirstMarker(s: string, i: nat, k: nat)
    requires OccursAt(s, TitleMarker, i)
    requires forall t :: 0 <= t < i ==> !OccursAt(s, TitleMarker, t)
    requires i + |TitleMarker| < k <= |s|
    requires forall t :: i + |TitleMarker| <= t < k ==> s[t] != '|'
    requires k < |s| ==> s[k] == '|'
    ensures ExtractName(s) == Strip(s[i + |TitleMarker|..k])
  {
    var j := i + |TitleMarker|;
    if k < |s| {
      FindFromAt(s, '|', j, k);
    } else {
      assert FindFrom(s, '|', j).None?;
    }
    TitleAtBar(s, i, k);
    TitleFrom(s, 0, i);
    ContainsIff(s, TitleMarker);
    StripGroup(s, j, k);
  }

  /** Stripping the title group gives the stripped field, whichever span the `\s*` left it. */
  lemma StripGroup(s: string, j: nat, k: nat)
    requires j < k <= |s|
    ensures var w := SkipSpace(s, j);
            Strip(if w < k then s[w..k] else s[k - 1..k]) == Strip(s[j..k])
  {
    var w := SkipSpace(s, j);
    var x := s[j..k];
    if w < k {
      assert x == s[j..w] + s[w..k];
      StripLeadingSpace(s[j..w], s[w..k]);
    } else {
      StripBetween(s[k - 1..k], 1, 1);
      StripBetween(x, |x|, |x|);
    }
  }

  /** The title group at a marker, given the position `k` of the next `|` (or the end). */
  lemma TitleAtBar(s: string, i: nat, k: nat)
    requires OccursAt(s, TitleMarker, i) && i + |TitleMarker| <= k <= |s|
    requires if k < |s| then FindFrom(s, '|', i + |TitleMarker|) == Some(k)
             else FindFrom(s, '|', i + |TitleMarker|).None?
    ensures var j := i + |TitleMarker|; var w := SkipSpace(s, j);
            TitleAt(s, i) == if w < k then Some(Span(w, k)) else if j < k then Some(Span(k - 1, k)) else None
  { }

  /** The search for the title skips every position before the first one where it matches. */
  lemma {:induction false} TitleFrom(s: string, t: nat, i: nat)
    requires t <= i <= |s| && TitleAt(s, i).Some?
    requires forall u :: t <= u < i ==> !OccursAt(s, TitleMarker, u)
    ensures FirstTitle(s, t) == TitleAt(s, i)
    decreases i - t
  {
    if t < i {
      TitleFrom(s, t + 1, i);
    }
  }

  /** After the marker ending at `j`: one space, the name, one space and `|`. */
  lemma NameField(s: string, j: nat, n: string)
    requires j + |n| + 3 <= |s| && s[j..j + |n| + 3] == " " + n + " |"
    requires |n| > 0 && IsStripped(n) && '|' !in n
    ensures FindFrom(s, '|', j) == Some(j + |n| + 2)
    ensures SkipSpace(s, j) == j + 1
  {
    var m := " " + n + " |";
    var k := j + |n| + 2;
    assert forall t :: j <= t < j + |n| + 3 ==> s[t] == m[t - j];
    assert s[k] == '|';
    assert forall t :: j + 1 <= t < k - 1 ==> s[t] == n[t - j - 1];
    assert forall t :: j <= t < k ==> s[t] != '|';
    FindFromAt(s, '|', j, k);
    assert IsSpace(s[j]) && !IsSpace(s[j + 1]);
  }

  // ---------------------------------------------------------------------------
  // Price and rating

  function ExtractPrice(content: string): (r: string)
    ensures r == NoPrice <==> forall j :: 0 <= j < |PricePatterns| ==> Search(PricePatterns[j], content).None?
    ensures r != NoPrice ==> |r| > 1 && r[0] == '$' && DecimalShape(r[1..])
  {
    match FirstMatch(PricePatterns, content, 0)
    case None => NoPrice
    case Some(d) =>
      FoundPriceShape(content, d);
      "$" + d
  }

  /** Every price pattern captures a decimal number. */
  lemma FoundPriceShape(content: string, d: string)
    requires FirstMatch(PricePatterns, content, 0) == Some(d)
    ensures DecimalShape(d) && ("$" + d)[1..] == d
  {
    var j :| 0 <= j < |PricePatterns| && Search(PricePatterns[j], content) == Some(d);
    assert Shape(PricePatterns[j], d);
  }

  function ExtractRating(content: string): (r: string)
    ensures r == NoRating <==> forall j :: 0 <= j < |RatingPatterns| ==> Search(RatingPatterns[j], content).None?
    ensures r != NoRating ==> exists x :: DecimalShape(x) && r == x + "/5 stars"
  {
    match FirstMatch(RatingPatterns, content, 0)
    case None => NoRating
    case Some(d) =>
      FoundRatingShape(content, d);
      d + "/5 stars"
  }

  /** Every rating pattern captures a decimal number, which no rating text starts with. */
  lemma FoundRatingShape(content: string, d: string)
    requires FirstMatch(RatingPatterns, content, 0) == Some(d)
    ensures DecimalShape(d) && d + "/5 stars" != NoRating
  {
    var j :| 0 <= j < |RatingPatterns| && Search(RatingPatterns[j], content) == Some(d);
    assert Shape(RatingPatterns[j], d);
    assert IsDigit(d[0]) && (d + "/5 stars")[0] == d[0];
  }

  /** The `Price:` pattern never decides the price: whenever it matches, the `$` pattern before
      it in the list matches too. So the price comes from `$N` or else from `N dollars`. */
  lemma PriceLabelNeverDecides(s: string)
    ensures Search(PricePatterns[1], s).Some? ==> Search(PricePatterns[0], s).Some?
    ensures FirstMatch(PricePatterns, s, 0) ==
      if Search(DollarNumber, s).Some? then Search(DollarNumber, s) else Search(NumberWord("dollar"), s)
  {
    LabelNeedsDollar(s);
    if Search(DollarNumber, s).None? {
      assert FirstMatch(PricePatterns, s, 0) == FirstMatch(PricePatterns, s, 1);
      assert FirstMatch(PricePatterns, s, 1) == FirstMatch(PricePatterns, s, 2);
    }
  }

  /** Wherever `Price:\s*\$(\d+\.?\d*)` matches, `\$(\d+\.?\d*)` matches at its `$`. */
  lemma LabelNeedsDollar(s: string)
    ensures Search(LabelDollarNumber("price:"), s).Some? ==> Search(DollarNumber, s).Some?
  {
    if Search(LabelDollarNumber("price:"), s).Some? {
      var t :| 0 <= t < |s| && CaptureAt(LabelDollarNumber("price:"), s, t).Some?;
      var w := SkipSpace(s, t + |"price:"|);
      assert CaptureAt(DollarNumber, s, w).Some?;
    }
  }

  /** The first `$` followed by a number gives the price, digits and fraction as written. */
  lemma {:induction false} PriceFromDollarSign(p: string, d: string, q: string)
    requires '$' !in p
    requires DecimalShape(d)
    requires |q| == 0 || (!IsDigit(q[0]) && q[0] != '.')
    ensures ExtractPrice(p + "$" + d + q) == "$" + d
  {
    var s := p + "$" + d + q;
    var i := |p|;
    var e := i + 1 + |d|;
    assert s[i + 1..e] == d;
    assert e < |s| ==> s[e] == q[0];
    NumberEndOfDecimal(s, i + 1, d);
    assert CaptureAt(DollarNumber, s, i) == Some(Span(i + 1, e));
    forall t | 0 <= t < i ensures CaptureAt(DollarNumber, s, t).None? {
      assert s[t] == p[t];
    }
    LeftmostAt(DollarNumber, s, 0, i);
    assert Search(PricePatterns[0], s) == Some(d);
  }

  /** A greedy `\d+\.?\d*` over a decimal `d` stops right after it. */
  lemma NumberEndOfDecimal(s: string, j: nat, d: string)
    requires j + |d| <= |s| && s[j..j + |d|] == d && DecimalShape(d)
    requires j + |d| == |s| || (!IsDigit(s[j + |d|]) && s[j + |d|] != '.')
    ensures NumberEnd(s, j) == j + |d|
  {
    if AllDigits(d) {
      DigitsIn(s, j, d, 0, |d|);
      DigitsEndAt(s, j, j + |d|);
    } else {
      var k :| 0 < k < |d| && d[k] == '.' && AllDigits(d[..k]) && AllDigits(d[k + 1..]);
      NumberEndOfSplit(s, j, d, k);
    }
  }

  /** The case of `NumberEndOfDecimal` where `d` has its `.` at `k`. */
  lemma NumberEndOfSplit(s: string, j: nat, d: string, k: nat)
    requires j + |d| <= |s| && s[j..j + |d|] == d
    requires 0 < k < |d| && d[k] == '.' && AllDigits(d[..k]) && AllDigits(d[k + 1..])
    requires j + |d| == |s| || !IsDigit(s[j + |d|])
    ensures NumberEnd(s, j) == j + |d|
  {
    assert forall t :: 0 <= t < k ==> IsDigit(d[t]) by {
      forall t | 0 <= t < k ensures IsDigit(d[t]) { assert d[t] == d[..k][t]; }
    }
    assert forall t :: k + 1 <= t < |d| ==> IsDigit(d[t]) by {
      forall t | k + 1 <= t < |d| ensures IsDigit(d[t]) { assert d[t] == d[k + 1..][t - k - 1]; }
    }
    DigitsIn(s, j, d, 0, k);
    DigitsIn(s, j, d, k + 1, |d|);
    assert s[j + k] == s[j..j + |d|][k];
    NumberEndOfFraction(s, j, j + k, j + |d|);
  }

  /** Digits of `d` between `a` and `b` are digits of `s` where `d` occurs at `j`. */
  lemma DigitsIn(s: string, j: nat, d: string, a: nat, b: nat)
    requires j + |d| <= |s| && s[j..j + |d|] == d && a <= b <= |d|
    requires forall t :: a <= t < b ==> IsDigit(d[t])
    ensures forall t :: j + a <= t < j + b ==> IsDigit(s[t])
  {
    forall t | j + a <= t < j + b ensures IsDigit(s[t]) {
      assert s[t] == s[j..j + |d|][t - j];
    }
  }

  /** `\d+\.?\d*` over digits up to `p`, a `.` at `p`, digits up to `e`, then no digit. */
  lemma NumberEndOfFraction(s: string, j: nat, p: nat, e: nat)
    requires j < p < e <= |s| && s[p] == '.'
    requires forall t :: j <= t < p ==> IsDigit(s[t])
    requires forall t :: p + 1 <= t < e ==> IsDigit(s[t])
    requires e == |s| || !IsDigit(s[e])
    ensures NumberEnd(s, j) == e
  {
    DigitsEndAt(s, j, p);
    DigitsEndAt(s, p + 1, e);
  }

  /** With no digit before it, `x.y out of 5 stars` gives the rating `x.y/5 stars`, even though
      the later `N stars` pattern would have captured the 5. */
  lemma {:induction false} RatingOutOfFive(p: string, x: char, y: string, q: string)
    requires forall t :: 0 <= t < |p| ==> !IsDigit(p[t])
    requires IsDigit(x) && AllDigits(y)
    ensures ExtractRating(p + ([x] + "." + y + " out of 5 stars") + q) == [x] + "." + y + "/5 stars"
  {
    var m := [x] + "." + y + " out of 5 stars";
    var s := p + m + q;
    assert s[|p|..|p| + |m|] == m;
    forall t | 0 <= t < |p| ensures !IsDigit(s[t]) {
      assert s[t] == p[t];
    }
    OutOfFiveSearch(s, |p|, x, y);
    RatingFromFirst(s, [x] + "." + y);
  }

  /** When the first rating pattern matches, its capture is the rating. */
  lemma RatingFromFirst(s: string, v: string)
    requires Search(RatingPatterns[0], s) == Some(v)
    ensures ExtractRating(s) == v + "/5 stars"
  {
    assert FirstMatch(RatingPatterns, s, 0) == Some(v);
  }

  /** The `out of 5 stars` pattern finds `x.y` at `i` when no digit comes before `i`. */
  lemma OutOfFiveSearch(s: string, i: nat, x: char, y: string)
    requires i + 2 + |y| + 15 <= |s| && s[i..i + 2 + |y| + 15] == [x] + "." + y + " out of 5 stars"
    requires forall t :: 0 <= t < i ==> !IsDigit(s[t])
    requires IsDigit(x) && AllDigits(y)
    ensures Search(RatingPatterns[0], s) == Some([x] + "." + y)
  {
    var v := [x] + "." + y;
    assert |v| == 2 + |y|;
    OutOfFiveAt(s, i, x, y);
    SliceHead(s, i, v, " out of 5 stars");
    assert CaptureAt(RatingPatterns[0], s, i) == Some(Span(i, i + |v|));
    SearchAt(RatingPatterns[0], s, i, Span(i, i + |v|), v);
  }

  lemma OutOfFiveAt(s: string, i: nat, x: char, y: string)
    requires IsDigit(x) && AllDigits(y)
    requires i + 2 + |y| + 15 <= |s| && s[i..i + 2 + |y| + 15] == [x] + "." + y + " out of 5 stars"
    ensures SingleNumberEnd(s, i) == i + 2 + |y|
    ensures SkipSpace(s, i + 2 + |y|) == i + 3 + |y|
    ensures FoldedAt(s, "out of 5 stars", i + 3 + |y|)
  {
    var e := i + 2 + |y|;
    var w := s[i..e + 15];
    assert s[i..e] == w[..2 + |y|] == [x] + "." + y;
    assert s[e..e + 15] == w[2 + |y|..] == " out of 5 stars";
    DecimalBeforeSpace(s, i, x, y);
    OutOfFiveLiteral(s, e);
  }

  /** `\d+\.?\d*` over `x.y` followed by a space stops at the space. */
  lemma DecimalBeforeSpace(s: string, i: nat, x: char, y: string)
    requires IsDigit(x) && AllDigits(y)
    requires i + 2 + |y| < |s| && s[i..i + 2 + |y|] == [x] + "." + y && s[i + 2 + |y|] == ' '
    ensures SingleNumberEnd(s, i) == i + 2 + |y|
  {
    var e := i + 2 + |y|;
    assert s[i] == x && s[i + 1] == '.';
    assert forall t :: i + 2 <= t < e ==> s[t] == y[t - i - 2];
    DigitsEndAt(s, i + 2, e);
  }

  /** `\s*out of 5 stars` right after the number. */
  lemma OutOfFiveLiteral(s: string, e: nat)
    requires e + 15 <= |s| && s[e..e + 15] == " out of 5 stars"
    ensures SkipSpace(s, e) == e + 1
    ensures FoldedAt(s, "out of 5 stars", e + 1)
  {
    var lit := "out of 5 stars";
    assert s[e] == ' ' && s[e + 1] == 'o';
    assert s[e + 1..e + 1 + |lit|] == s[e..e + 15][1..] == lit;
    assert Lower(lit) == lit;
  }

  // ---------------------------------------------------------------------------
  // Key features: `re.findall(r'[•\-\*]\s*([^•\-\*\n]{10,100})', content)[:3]`

  predicate IsBullet(c: char) { c == '•' || c == '-' || c == '*' }

  predicate InFeatureClass(c: char) { !IsBullet(c) && c != '\n' }

  /** End of the maximal run of `[^•\-\*\n]` characters from `p`. */
  function ClassRunEnd(s: string, p: nat): (e: nat)
    requires p <= |s|
    ensures p <= e <= |s| && forall t :: p <= t < e ==> InFeatureClass(s[t])
    decreases |s| - p
  {
    if p < |s| && InFeatureClass(s[p]) then ClassRunEnd(s, p + 1) else p
  }

  /** `\s*` backing off from `p` towards `lo` until `{10,100}` characters of the class follow. */
  function BackOff(s: string, lo: nat, p: nat): (r: Option<Span>)
    requires lo <= p <= |s|
    ensures r.Some? ==> lo <= r.value.start && r.value.start + 10 <= r.value.end <= r.value.start + 100
    ensures r.Some? ==> r.value.end <= |s|
    ensures r.Some? ==> forall t :: r.value.start <= t < r.value.end ==> InFeatureClass(s[t])
    decreases p - lo
  {
    var e := ClassRunEnd(s, p);
    if e - p >= 10 then Some(Span(p, if e - p > 100 then p + 100 else e))
    else if p == lo then None
    else BackOff(s, lo, p - 1)
  }

  function FeatureAt(s: string, i: nat): (r: Option<Span>)
    requires i < |s|
    ensures r.Some? ==> i < r.value.start && r.value.start + 10 <= r.value.end <= r.value.start + 100
    ensures r.Some? ==> r.value.end <= |s|
    ensures r.Some? ==> forall t :: r.value.start <= t < r.value.end ==> InFeatureClass(s[t])
  {
    if IsBullet(s[i]) then BackOff(s, i + 1, SkipSpace(s, i + 1)) else None
  }

  /** Whether a string could be a key feature: 10 to 100 characters, no bullet, no line break. */
  predicate FeatureText(f: string) {
    10 <= |f| <= 100 && forall t :: 0 <= t < |f| ==> InFeatureClass(f[t])
  }

  /** `re.findall` of the feature pattern from `i`: non-overlapping, left to right. */
  function FindFeatures(s: string, i: nat): (r: seq<string>)
    ensures forall k :: 0 <= k < |r| ==> FeatureText(r[k])
    decreases |s| - i
  {
    if i >= |s| then []
    else match FeatureAt(s, i)
      case Some(sp) => [s[sp.start..sp.end]] + FindFeatures(s, sp.end)
      case None => FindFeatures(s, i + 1)
  }

  /** The first bullet, at or after `i0`, that has ten class characters after its whitespace
      yields the first feature: those characters, at most a hundred of them. */
  lemma {:induction false} FirstFeature(s: string, i0: nat, i: nat)
    requires i0 <= i < |s| && IsBullet(s[i])
    requires ClassRunEnd(s, SkipSpace(s, i + 1)) - SkipSpace(s, i + 1) >= 10
    requires forall t :: i0 <= t < i ==> FeatureAt(s, t).None?
    ensures var w := SkipSpace(s, i + 1);
            var e := ClassRunEnd(s, w);
            |FindFeatures(s, i0)| > 0 && FindFeatures(s, i0)[0] == s[w..if e - w > 100 then w + 100 else e]
    decreases i - i0
  {
    if i0 < i {
      FirstFeature(s, i0 + 1, i);
    }
  }

  function ExtractFeatures(content: string): (r: seq<string>)
    ensures |r| <= 3
    ensures forall k :: 0 <= k < |r| ==> FeatureText(r[k])
    ensures r != [] ==> Contains(Lower(content), "features") || Contains(Lower(content), "specifications")
  {
    var lower := Lower(content);
    if Contains(lower, "features") || Contains(lower, "specifications") then
      var all := FindFeatures(content, 0);
      all[..if |all| < 3 then |all| else 3]
    else []
  }

  /** On a page that mentions features, the first bullet followed by ten class characters
      gives the first key feature. */
  lemma FirstKeyFeature(content: string, i: nat)
    requires Contains(Lower(content), "features") || Contains(Lower(content), "specifications")
    requires i < |content| && IsBullet(content[i])
    requires ClassRunEnd(content, SkipSpace(content, i + 1)) - SkipSpace(content, i + 1) >= 10
    requires forall t :: 0 <= t < i ==> FeatureAt(content, t).None?
    ensures var w := SkipSpace(content, i + 1);
            var e := ClassRunEnd(content, w);
            |ExtractFeatures(content)| > 0
            && ExtractFeatures(content)[0] == content[w..if e - w > 100 then w + 100 else e]
  {
    FirstFeature(content, 0, i);
    KeyFeaturesHead(content);
  }

  /** Past the gate, the key features open with the first feature found. */
  lemma KeyFeaturesHead(content: string)
    requires Contains(Lower(content), "features") || Contains(Lower(content), "specifications")
    requires |FindFeatures(content, 0)| > 0
    ensures |ExtractFeatures(content)| > 0 && ExtractFeatures(content)[0] == FindFeatures(content, 0)[0]
  {
    var all := FindFeatures(content, 0);
    var m := if |all| < 3 then |all| else 3;
    assert ExtractFeatures(content) == all[..m];
  }

  function PrimeEligible(content: string): (r: bool)
    ensures r <==> (exists t :: OccursAt(Lower(content), "prime", t)) &&
                   ((exists t :: OccursAt(Lower(content), "eligible", t)) || (exists t :: OccursAt(Lower(content), "free", t)))
  {
    var lower := Lower(content);
    ContainsIff(lower, "prime");
    ContainsIff(lower, "eligible");
    ContainsIff(lower, "free");
    Contains(lower, "prime") && (Contains(lower, "eligible") || Contains(lower, "free"))
  }

  /** `_extract_enhanced_product_info(content, url)`: start from the sentinel record and fill
      in each field whose pattern matches. */
  function ExtractProduct(content: string, url: string): (r: Product)
    ensures r.url == url && r.availability == Availability
    ensures r.name == DefaultName || (IsStripped(r.name) && '|' !in r.name)
    ensures r.price == NoPrice || (|r.price| > 1 && r.price[0] == '$' && DecimalShape(r.price[1..]))
    ensures r.rating == NoRating || exists x :: DecimalShape(x) && r.rating == x + "/5 stars"
    ensures |r.keyFeatures| <= 3 && forall k :: 0 <= k < |r.keyFeatures| ==> FeatureText(r.keyFeatures[k])
    ensures r.primeEligible <==>
              (exists t :: OccursAt(Lower(content), "prime", t)) &&
              ((exists t :: OccursAt(Lower(content), "eligible", t)) || (exists t :: OccursAt(Lower(content), "free", t)))
  {
    Product(url, ExtractName(content), ExtractPrice(content), ExtractRating(content),
            ExtractFeatures(content), Availability, PrimeEligible(content))
  }

  // ---------------------------------------------------------------------------
  // A scrape batch: `extract_product_info`

  /** One element of the scrape payload's `data` list: a dict with its `url` and `content`
      (each `''` when the key is absent), or anything that is not a dict. */
  datatype ScrapeEntry = Page(url: string, content: string) | NotADict

  datatype ScrapeData = Entries(items: seq<ScrapeEntry>) | NotAList

  /** `data` is `None` when the payload is not a dict or has no `data` key. */
  datatype ScrapePayload = ScrapePayload(data: Option<ScrapeData>)

  /** The elements the loop visits: the `data` list, or nothing. */
  function BatchEntries(p: ScrapePayload): seq<ScrapeEntry> {
    match p.data
    case Some(Entries(items)) => items
    case _ => []
  }

  /** `f"product_{i+1}"` */
  function ProductKey(i: nat): string {
    "product_" + NatToString(i + 1)
  }

  lemma ProductKeyInjective(i: nat, j: nat)
    requires ProductKey(i) == ProductKey(j)
    ensures i == j
  {
    assert ProductKey(i)[8..] == NatToString(i + 1);
    assert ProductKey(j)[8..] == NatToString(j + 1);
    NatToStringInjective(i + 1, j + 1);
  }

  /** `_extract_enhanced_product_info` of a dict element, `None` for any other element. */
  function EntryProduct(e: ScrapeEntry): Option<Product> {
    if e.Page? then Some(ExtractProduct(e.content, e.url)) else None
  }

  /** The products of a batch, element by element. */
  function BatchProducts(items: seq<ScrapeEntry>): (ps: seq<Option<Product>>)
    ensures |ps| == |items|
    ensures forall i :: 0 <= i < |items| ==> (ps[i].Some? <==> items[i].Page?)
  {
    seq(|items|, i requires 0 <= i < |items| => EntryProduct(items[i]))
  }

  /** `current_products` after the loop has stored the products `ps` of a batch, element `i`
      under `product_{i+1}`. */
  function StoreBatch(m: map<string, Product>, ps: seq<Option<Product>>): map<string, Product>
    decreases |ps|
  {
    if |ps| == 0 then m
    else
      var n := |ps| - 1;
      var before := StoreBatch(m, ps[..n]);
      if ps[n].Some? then before[ProductKey(n) := ps[n].value] else before
  }

  /** What the loop appends to `products_viewed`. */
  function ViewedIn(ps: seq<Option<Product>>): seq<Product>
    decreases |ps|
  {
    if |ps| == 0 then []
    else
      var n := |ps| - 1;
      ViewedIn(ps[..n]) + (if ps[n].Some? then [ps[n].value] else [])
  }

  /** The keys a batch writes. */
  function WrittenKeys(ps: seq<Option<Product>>): set<string> {
    set i | 0 <= i < |ps| && ps[i].Some? :: ProductKey(i)
  }

  /** The indices of the dict elements of a batch. */
  function PageIndices(ps: seq<Option<Product>>): set<nat> {
    set i: nat | i < |ps| && ps[i].Some?
  }

  function PageCount(ps: seq<Option<Product>>): nat {
    |PageIndices(ps)|
  }

  /** The product at index `i` is stored under `product_{i+1}`. */
  lemma {:induction false} StoreBatchWrites(m: map<string, Product>, ps: seq<Option<Product>>, i: nat)
    requires i < |ps| && ps[i].Some?
    ensures ProductKey(i) in StoreBatch(m, ps)
    ensures StoreBatch(m, ps)[ProductKey(i)] == ps[i].value
    decreases |ps|
  {
    var n := |ps| - 1;
    if i < n {
      assert ps[..n][i] == ps[i];
      StoreBatchWrites(m, ps[..n], i);
      if ps[n].Some? && ProductKey(n) == ProductKey(i) {
        ProductKeyInjective(n, i);
      }
    }
  }

  /** Every dict element at index `i` of a batch is stored, as the extractor reads it, under
      `product_{i+1}`. */
  lemma BatchStored(m: map<string, Product>, items: seq<ScrapeEntry>, i: nat)
    requires i < |items| && items[i].Page?
    ensures var stored := StoreBatch(m, BatchProducts(items));
            ProductKey(i) in stored && stored[ProductKey(i)] == ExtractProduct(items[i].content, items[i].url)
  {
    StoreBatchWrites(m, BatchProducts(items), i);
  }

  /** Keys the batch does not write keep their presence and their value. */
  lemma {:induction false} StoreBatchKeeps(m: map<string, Product>, ps: seq<Option<Product>>, key: string)
    requires key !in WrittenKeys(ps)
    ensures key in StoreBatch(m, ps) <==> key in m
    ensures key in m ==> StoreBatch(m, ps)[key] == m[key]
    decreases |ps|
  {
    if |ps| > 0 {
      var n := |ps| - 1;
      assert WrittenKeys(ps[..n]) <= WrittenKeys(ps) by {
        forall k | k in WrittenKeys(ps[..n]) ensures k in WrittenKeys(ps) {
          var i :| 0 <= i < n && ps[..n][i].Some? && k == ProductKey(i);
          assert ps[i] == ps[..n][i];
        }
      }
      StoreBatchKeeps(m, ps[..n], key);
      if ps[n].Some? {
        assert ProductKey(n) in WrittenKeys(ps);
      }
    }
  }

  /** `products_viewed` grows by exactly the number of dict elements. */
  lemma {:induction false} ViewedInCount(ps: seq<Option<Product>>)
    ensures |ViewedIn(ps)| == PageCount(ps)
    decreases |ps|
  {
    if |ps| > 0 {
      var n := |ps| - 1;
      ViewedInCount(ps[..n]);
      PageIndicesStep(ps);
    }
  }

  /** Removing the last element of a batch removes its index, if it was a dict element. */
  lemma PageIndicesStep(ps: seq<Option<Product>>)
    requires |ps| > 0
    ensures var n := |ps| - 1;
      PageIndices(ps) == PageIndices(ps[..n]) + (if ps[n].Some? then {n} else {})
    ensures var n := |ps| - 1;
      n !in PageIndices(ps[..n])
  {
    var n := |ps| - 1;
    forall i: nat ensures i in PageIndices(ps) <==> i in PageIndices(ps[..n]) + (if ps[n].Some? then {n} else {}) {
      if i < n {
        assert ps[..n][i] == ps[i];
      }
    }
  }
}
