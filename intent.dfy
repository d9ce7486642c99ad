/** Intent detection on one user utterance (`detect_user_intent`): two keyword flags and a
    budget figure taken from the first budget pattern that matches. */
module Intent {
  import opened Wrappers
  import opened Text
  import opened Captures

  datatype Intent = Intent(purchaseIntent: bool, comparisonRequest: bool, budgetMentioned: Option<nat>)

  const PurchaseKeywords: seq<string> :=
    ["buy", "purchase", "order", "i want", "i'll take", "add to cart", "checkout"]

  const ComparisonKeywords: seq<string> :=
    ["compare", "difference", "which is better", "vs", "versus"]

  /** `$N`, `under N`, `budget…N`, `spend…N`, tried in this order on the lower-cased text. */
  const BudgetPatterns: seq<Capture> :=
    [DollarDigits, LiteralDigits("under "), WordLazyDigits("budget"), WordLazyDigits("spend")]

  /** `any(keyword in s for keyword in kws)` */
  function AnyKeyword(s: string, kws: seq<string>): (r: bool)
    ensures r <==> exists k, t :: 0 <= k < |kws| && OccursAt(s, kws[k], t)
    decreases |kws|, |s|  // naming `s` keeps a constant keyword list from being unrolled
  {
    ContainsIff(s, if |kws| > 0 then kws[0] else "");
    if |kws| == 0 then false
    else
      var rest := AnyKeyword(s, kws[1..]);
      assert rest ==> exists k, t :: 0 <= k < |kws| && OccursAt(s, kws[k], t) by {
        if rest {
          var k, t :| 0 <= k < |kws| - 1 && OccursAt(s, kws[1..][k], t);
          assert OccursAt(s, kws[k + 1], t);
        }
      }
      assert (exists k, t :: 0 <= k < |kws| && OccursAt(s, kws[k], t)) ==> Contains(s, kws[0]) || rest by {
        if exists k, t :: 0 <= k < |kws| && OccursAt(s, kws[k], t) {
          var k, t :| 0 <= k < |kws| && OccursAt(s, kws[k], t);
          if k > 0 {
            assert OccursAt(s, kws[1..][k - 1], t);
          }
        }
      }
      Contains(s, kws[0]) || rest
  }

  /** The budget figure of a lower-cased utterance: `int(m.group(1))` of the first budget
      pattern that matches, or `None`. */
  function Budget(lower: string): (r: Option<nat>)
    ensures r.None? <==> forall j :: 0 <= j < |BudgetPatterns| ==> Search(BudgetPatterns[j], lower).None?
  {
    match FirstMatch(BudgetPatterns, lower, 0)
    case None => None
    case Some(d) =>
      FoundBudgetShape(lower, d);
      Some(DigitsValue(d))
  }

  /** The `for pattern in budget_patterns: … break` loop: the figure of the first pattern that
      matches. */
  method FirstBudget(lower: string) returns (budget: Option<nat>)
    ensures budget == Budget(lower)
  {
    budget := None;
    for j := 0 to |BudgetPatterns|
      invariant budget.None?
      invariant FirstMatch(BudgetPatterns, lower, j) == FirstMatch(BudgetPatterns, lower, 0)
    {
      var m := Search(BudgetPatterns[j], lower);
      if m.Some? {
        FoundBudgetShape(lower, m.value);
        budget := Some(DigitsValue(m.value));
        break;
      }
    }
  }

  /** The steps of `detect_user_intent`: lower-case the input, scan the two keyword lists and
      run the budget loop. */
  method Detect(userInput: string) returns (intent: Intent)
    ensures intent == DetectIntent(userInput)
  {
    var lower := Lower(userInput);
    var budget := FirstBudget(lower);
    intent := Intent(AnyKeyword(lower, PurchaseKeywords), AnyKeyword(lower, ComparisonKeywords), budget);
  }

  /** Every budget pattern captures a run of digits. */
  lemma FoundBudgetShape(lower: string, d: string)
    requires FirstMatch(BudgetPatterns, lower, 0) == Some(d)
    ensures |d| > 0 && AllDigits(d)
  {
    var cs := BudgetPatterns;
    assert cs[0] == DollarDigits && cs[1] == LiteralDigits("under ");
    assert cs[2] == WordLazyDigits("budget") && cs[3] == WordLazyDigits("spend");
    if Search(cs[0], lower).None? {
      assert FirstMatch(cs, lower, 0) == FirstMatch(cs, lower, 1);
      if Search(cs[1], lower).None? {
        assert FirstMatch(cs, lower, 1) == FirstMatch(cs, lower, 2);
        if Search(cs[2], lower).None? {
          assert FirstMatch(cs, lower, 2) == FirstMatch(cs, lower, 3);
        }
      }
    }
  }

  /** `detect_user_intent` without its write to the session (see ShoppingAgent.DetectUserIntent).
      Purchase and comparison intent are detected exactly when one of their keywords occurs in
      the lower-cased input, and a budget exactly when one of the budget patterns matches. */
  function DetectIntent(userInput: string): (r: Intent)
    ensures r.purchaseIntent <==>
              exists k, t :: 0 <= k < |PurchaseKeywords| && OccursAt(Lower(userInput), PurchaseKeywords[k], t)
    ensures r.comparisonRequest <==>
              exists k, t :: 0 <= k < |ComparisonKeywords| && OccursAt(Lower(userInput), ComparisonKeywords[k], t)
    ensures r.budgetMentioned.None? <==>
              forall j :: 0 <= j < |BudgetPatterns| ==> Search(BudgetPatterns[j], Lower(userInput)).None?
  {
    var lower := Lower(userInput);
    Intent(AnyKeyword(lower, PurchaseKeywords), AnyKeyword(lower, ComparisonKeywords), Budget(lower))
  }

  /** A `$N` figure decides the budget whenever no `$` comes before it, whatever other budget
      phrases ("under M", "budget of M") the utterance also holds. */
  lemma DollarBudgetWins(p: string, d: string, q: string)
    requires '$' !in p
    requires |d| > 0 && AllDigits(d)
    requires |q| == 0 || !IsDigit(q[0])
    ensures DetectIntent(p + "$" + d + q).budgetMentioned == Some(DigitsValue(d))
  {
    var s := Lower(p + "$" + d + q);
    LowerDollar(p, d, q);
    DollarSearch(Lower(p), d, Lower(q));
    assert Search(BudgetPatterns[0], s) == Some(d);
  }

  /** Lower-casing leaves `$` and digits alone. */
  lemma LowerDollar(p: string, d: string, q: string)
    requires '$' !in p && AllDigits(d) && (|q| == 0 || !IsDigit(q[0]))
    ensures Lower(p + "$" + d + q) == Lower(p) + "$" + d + Lower(q)
    ensures '$' !in Lower(p) && (|Lower(q)| == 0 || !IsDigit(Lower(q)[0]))
  {
    LowerConcat(p + "$" + d, q);
    LowerConcat(p + "$", d);
    LowerConcat(p, "$");
    assert Lower(d) == d;
    assert Lower("$") == "$";
    forall t | 0 <= t < |p| ensures Lower(p)[t] != '$' {
      assert p[t] != '$';
    }
  }

  /** `re.search(r'\$(\d+)', s)` finds the digits after the first `$` when they are followed by
      no further digit. */
  lemma DollarSearch(p: string, d: string, q: string)
    requires '$' !in p
    requires |d| > 0 && AllDigits(d)
    requires |q| == 0 || !IsDigit(q[0])
    ensures Search(DollarDigits, p + "$" + d + q) == Some(d)
  {
    var s := p + "$" + d + q;
    var i := |p|;
    forall t | 0 <= t < i ensures CaptureAt(DollarDigits, s, t).None? {
      assert s[t] == p[t];
    }
    assert DigitsEnd(s, i + 1) == i + 1 + |d| by {
      assert forall t :: i + 1 <= t < i + 1 + |d| ==> s[t] == d[t - i - 1];
      if |q| > 0 {
        assert s[i + 1 + |d|] == q[0];
      }
      DigitsEndAt(s, i + 1, i + 1 + |d|);
    }
    assert CaptureAt(DollarDigits, s, i) == Some(Span(i + 1, i + 1 + |d|));
    LeftmostAt(DollarDigits, s, 0, i);
    assert s[i + 1..i + 1 + |d|] == d;
  }
}
