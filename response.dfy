/** `process_response_for_enhanced_features`: the directives of a model reply become link,
    card, comparison and purchase data, and the reply, with the directives cut out, becomes
    the spoken text. */
module Response {
  import opened Wrappers
  import opened Text
  import opened Directives
  import Voice

  datatype Link = Link(name: string, url: string)

  datatype Card = Card(name: string, url: string, price: string, rating: string,
                       feature1: string, feature2: string, imageHint: string)

  datatype PurchaseData = PurchaseData(productName: string, url: string, price: string)

  /** `comparisonData` is the raw group of the first `COMPARE_PRODUCTS` directive. */
  datatype Processed = Processed(spokenText: string, linksToDisplay: seq<Link>, productCards: seq<Card>,
                                 comparisonData: Option<string>, purchaseIntentData: Option<PurchaseData>)

  /** `match[k].strip() if match[k] else ''` */
  function Optional(g: string): (r: string)
    ensures r == Strip(g)
  {
    if |g| > 0 then Strip(g) else ""
  }

  function ToLink(g: seq<string>): Link
    requires |g| == 2
  {
    Link(Strip(g[0]), Strip(g[1]))
  }

  function ToCard(g: seq<string>): Card
    requires |g| == 7
  {
    Card(Strip(g[0]), Strip(g[1]), Strip(g[2]), Strip(g[3]), Optional(g[4]), Optional(g[5]), Optional(g[6]))
  }

  function ToPurchase(g: seq<string>): PurchaseData
    requires |g| == 3
  {
    PurchaseData(Strip(g[0]), Strip(g[1]), Strip(g[2]))
  }

  predicate LinkStripped(l: Link) {
    IsStripped(l.name) && IsStripped(l.url)
  }

  predicate CardStripped(c: Card) {
    IsStripped(c.name) && IsStripped(c.url) && IsStripped(c.price) && IsStripped(c.rating)
    && IsStripped(c.feature1) && IsStripped(c.feature2) && IsStripped(c.imageHint)
  }

  /** `re.sub(pattern, '', …)` for the four patterns, in the order the dictionary lists them.
      Every directive opens with `[`, so a text without one comes through unchanged. */
  function CutDirectives(text: string): (r: string)
    ensures '[' !in text ==> r == text
  {
    BracketFreeKept(DisplayLink, text);
    BracketFreeKept(ProductCard, text);
    BracketFreeKept(CompareProducts, text);
    BracketFreeKept(PurchaseIntent, text);
    SubAll(PurchaseIntent, SubAll(CompareProducts, SubAll(ProductCard, SubAll(DisplayLink, text))))
  }

  /** One link per `DISPLAY_LINK` match, in order. */
  function LinksOf(ms: seq<seq<string>>): (r: seq<Link>)
    requires forall k :: 0 <= k < |ms| ==> |ms[k]| == 2
    ensures |r| == |ms|
    ensures forall k :: 0 <= k < |r| ==> LinkStripped(r[k])
  {
    seq(|ms|, k requires 0 <= k < |ms| => ToLink(ms[k]))
  }

  /** One card per `PRODUCT_CARD` match, in order. */
  function CardsOf(ms: seq<seq<string>>): (r: seq<Card>)
    requires forall k :: 0 <= k < |ms| ==> |ms[k]| == 7
    ensures |r| == |ms|
    ensures forall k :: 0 <= k < |r| ==> CardStripped(r[k])
  {
    seq(|ms|, k requires 0 <= k < |ms| => ToCard(ms[k]))
  }

  /** The directives are read from the reply as the model wrote it; the spoken text is the reply
      with every match cut out, then optimised for voice. */
  function ProcessResponse(text: string): (r: Processed)
    ensures |r.linksToDisplay| == |FindAll(DisplayLink, text)|
    ensures forall k :: 0 <= k < |r.linksToDisplay| ==> LinkStripped(r.linksToDisplay[k])
    ensures |r.productCards| == |FindAll(ProductCard, text)|
    ensures forall k :: 0 <= k < |r.productCards| ==> CardStripped(r.productCards[k])
    ensures r.comparisonData.Some? <==> |FindAll(CompareProducts, text)| > 0
    ensures r.purchaseIntentData.Some? <==> |FindAll(PurchaseIntent, text)| > 0
    ensures r.purchaseIntentData.Some? ==>
              IsStripped(r.purchaseIntentData.value.productName) && IsStripped(r.purchaseIntentData.value.url)
              && IsStripped(r.purchaseIntentData.value.price)
    ensures IsStripped(r.spokenText) && '\n' !in r.spokenText && CountChar(r.spokenText, '.') <= 3
  {
    var compare := FindAll(CompareProducts, text);
    var purchase := FindAll(PurchaseIntent, text);
    Processed(
      Voice.OptimizeForVoice(CutDirectives(text)),
      LinksOf(FindAll(DisplayLink, text)),
      CardsOf(FindAll(ProductCard, text)),
      if |compare| > 0 then Some(compare[0][0]) else None,
      if |purchase| > 0 then Some(ToPurchase(purchase[0])) else None)
  }

  // ---------------------------------------------------------------------------
  // Replies the parser reads back

  /** Each of the four grammars starts with `[` and holds no other `[`. */
  lemma LinkBracket() ensures OneBracket(DisplayLink) { }
  lemma CardBracket() ensures OneBracket(ProductCard) { }
  lemma CompareBracket() ensures OneBracket(CompareProducts) { }
  lemma PurchaseBracket() ensures OneBracket(PurchaseIntent) { }

  /** The literals of `q` and `p` differ at position `m`. */
  predicate Differ(q: Pattern, p: Pattern, m: nat) {
    m < |q.literal| && m < |p.literal| && q.literal[m] != p.literal[m]
  }

  /** Any two of the four literals part within their first three characters. */
  lemma LiteralsDiffer()
    ensures Differ(ProductCard, DisplayLink, 1) && Differ(CompareProducts, DisplayLink, 1)
    ensures Differ(PurchaseIntent, DisplayLink, 1)
    ensures Differ(DisplayLink, ProductCard, 1) && Differ(CompareProducts, ProductCard, 1)
    ensures Differ(PurchaseIntent, ProductCard, 2)
    ensures Differ(DisplayLink, PurchaseIntent, 1) && Differ(ProductCard, PurchaseIntent, 2)
    ensures Differ(CompareProducts, PurchaseIntent, 1)
  {
  }

  /** A reply without `[` holds no directive: it is only spoken. */
  lemma NoDirectives(text: string)
    requires '[' !in text
    ensures ProcessResponse(text) == Processed(Voice.OptimizeForVoice(text), [], [], None, None)
  {
    LinkBracket();
    CardBracket();
    CompareBracket();
    PurchaseBracket();
    PlainTextKept(DisplayLink, text);
    PlainTextKept(ProductCard, text);
    PlainTextKept(CompareProducts, text);
    PlainTextKept(PurchaseIntent, text);
  }

  /** A pattern other than `p` matches nowhere in text followed by a run of `p` directives. */
  lemma OtherPatternAbsent(q: Pattern, p: Pattern, pre: string, fss: seq<seq<string>>, m: nat)
    requires OneBracket(q) && OneBracket(p) && '[' !in pre
    requires Differ(q, p, m)
    requires forall k :: 0 <= k < |fss| ==> |fss[k]| == |p.fields|
    requires NoBracketIn(fss)
    ensures FindAll(q, pre + DirectivesText(p, fss)) == []
    ensures SubAll(q, pre + DirectivesText(p, fss)) == pre + DirectivesText(p, fss)
  {
    OtherAbsent(q, p, fss, m);
    AbsentAfterPlainText(q, pre, DirectivesText(p, fss));
  }

  /** Text without `[` is left alone by every pattern. */
  lemma PlainTextKept(q: Pattern, pre: string)
    requires OneBracket(q) && '[' !in pre
    ensures FindAll(q, pre) == [] && SubAll(q, pre) == pre
  {
    forall t: nat ensures !OccursAt(pre, q.literal, t) {
      if t + |q.literal| <= |pre| {
        assert pre[t..t + |q.literal|][0] == pre[t];
      }
    }
    NoLiteral(q, pre);
  }

  /** `PlainTextKept` for the four directive grammars, as an implication. */
  lemma BracketFreeKept(q: Pattern, text: string)
    requires q in [DisplayLink, ProductCard, CompareProducts, PurchaseIntent]
    ensures |q.literal| > 0
    ensures '[' !in text ==> SubAll(q, text) == text
  {
    LinkBracket();
    CardBracket();
    CompareBracket();
    PurchaseBracket();
    if '[' !in text {
      PlainTextKept(q, text);
    }
  }


  /** A `\s*`-led field's group strips to what its field text strips to. */
  lemma LeadFieldStrips(fields: seq<Field>, groups: seq<string>, fs: seq<string>, k: nat)
    requires ReadBack(fields, groups, fs) && k < |fields| && fields[k].Lead?
    ensures Strip(groups[k]) == Strip(fs[k])
  {
    ReadBackAt(fields, groups, fs, k);
    DropsStrip(groups[k], fs[k]);
  }

  /** A field without `\s*` is read back exactly. */
  lemma PlainFieldExact(fields: seq<Field>, groups: seq<string>, fs: seq<string>, k: nat)
    requires ReadBack(fields, groups, fs) && k < |fields| && fields[k].Plain?
    ensures groups[k] == fs[k]
  {
    ReadBackAt(fields, groups, fs, k);
  }

  /** The link built from a match holds the stripped field texts. */
  lemma LinkFromGroups(g: seq<string>, fs: seq<string>)
    requires ReadBack(DisplayLink.fields, g, fs)
    ensures |g| == 2 && ToLink(g) == Link(Strip(fs[0]), Strip(fs[1]))
  {
    LeadFieldStrips(DisplayLink.fields, g, fs, 0);
    LeadFieldStrips(DisplayLink.fields, g, fs, 1);
  }

  /** The card built from a match holds the stripped field texts. */
  lemma CardFromGroups(g: seq<string>, fs: seq<string>)
    requires ReadBack(ProductCard.fields, g, fs)
    ensures |g| == 7 && |fs| == 7
    ensures ToCard(g) == Card(Strip(fs[0]), Strip(fs[1]), Strip(fs[2]), Strip(fs[3]),
                              Strip(fs[4]), Strip(fs[5]), Strip(fs[6]))
  {
    LeadFieldStrips(ProductCard.fields, g, fs, 0);
    PlainFieldExact(ProductCard.fields, g, fs, 1);
    PlainFieldExact(ProductCard.fields, g, fs, 2);
    PlainFieldExact(ProductCard.fields, g, fs, 3);
    PlainFieldExact(ProductCard.fields, g, fs, 4);
    PlainFieldExact(ProductCard.fields, g, fs, 5);
    PlainFieldExact(ProductCard.fields, g, fs, 6);
  }

  /** Cutting the directives out of text followed by `DISPLAY_LINK` directives leaves the
      text. */
  lemma LinksCut(pre: string, fss: seq<seq<string>>)
    requires '[' !in pre && AllFit(DisplayLink, fss) && NoBracketIn(fss)
    ensures CutDirectives(pre + DirectivesText(DisplayLink, fss)) == pre
  {
    LinkBracket();
    CardBracket();
    CompareBracket();
    PurchaseBracket();
    AfterPlainText(DisplayLink, pre, fss);
    PlainTextKept(ProductCard, pre);
    PlainTextKept(CompareProducts, pre);
    PlainTextKept(PurchaseIntent, pre);
  }

  /** No other grammar matches in text followed by `DISPLAY_LINK` directives. */
  lemma LinksAlone(pre: string, fss: seq<seq<string>>)
    requires '[' !in pre && AllFit(DisplayLink, fss) && NoBracketIn(fss)
    ensures var s := pre + DirectivesText(DisplayLink, fss);
            FindAll(ProductCard, s) == [] && FindAll(CompareProducts, s) == [] && FindAll(PurchaseIntent, s) == []
  {
    LinkBracket();
    CardBracket();
    CompareBracket();
    PurchaseBracket();
    LiteralsDiffer();
    OtherPatternAbsent(ProductCard, DisplayLink, pre, fss, 1);
    OtherPatternAbsent(CompareProducts, DisplayLink, pre, fss, 1);
    OtherPatternAbsent(PurchaseIntent, DisplayLink, pre, fss, 1);
  }

  /** Links built from matches that read back the field texts are the links built from the
      field texts themselves. */
  lemma LinksFromMatches(ms: seq<seq<string>>, fss: seq<seq<string>>)
    requires |ms| == |fss| && forall k :: 0 <= k < |fss| ==> ReadBack(DisplayLink.fields, ms[k], fss[k])
    ensures forall k :: 0 <= k < |fss| ==> |ms[k]| == 2 && |fss[k]| == 2
    ensures LinksOf(ms) == LinksOf(fss)
  {
    forall k | 0 <= k < |fss| ensures |ms[k]| == 2 && |fss[k]| == 2 && ToLink(ms[k]) == ToLink(fss[k]) {
      LinkFromGroups(ms[k], fss[k]);
    }
  }

  /** Text followed by `DISPLAY_LINK` directives: one link per directive, in order, each field
      the stripped text written into it; the rest of the text is what is spoken. */
  lemma LinksReadBack(pre: string, fss: seq<seq<string>>)
    requires '[' !in pre && AllFit(DisplayLink, fss) && NoBracketIn(fss)
    ensures forall k :: 0 <= k < |fss| ==> |fss[k]| == 2
    ensures var r := ProcessResponse(pre + DirectivesText(DisplayLink, fss));
            r.linksToDisplay == LinksOf(fss)
            && r.productCards == [] && r.comparisonData.None? && r.purchaseIntentData.None?
            && r.spokenText == Voice.OptimizeForVoice(pre)
  {
    var s := pre + DirectivesText(DisplayLink, fss);
    LinksCut(pre, fss);
    LinksAlone(pre, fss);
    var ms := FindAll(DisplayLink, s);
    assert |ms| == |fss| && forall k :: 0 <= k < |fss| ==> ReadBack(DisplayLink.fields, ms[k], fss[k]) by {
      LinkBracket();
      AfterPlainText(DisplayLink, pre, fss);
    }
    LinksFromMatches(ms, fss);
  }

  /** Cutting the directives out of text followed by `PRODUCT_CARD` directives leaves the
      text. */
  lemma CardsCut(pre: string, fss: seq<seq<string>>)
    requires '[' !in pre && AllFit(ProductCard, fss) && NoBracketIn(fss)
    ensures CutDirectives(pre + DirectivesText(ProductCard, fss)) == pre
  {
    LinkBracket();
    CardBracket();
    CompareBracket();
    PurchaseBracket();
    LiteralsDiffer();
    OtherPatternAbsent(DisplayLink, ProductCard, pre, fss, 1);
    AfterPlainText(ProductCard, pre, fss);
    PlainTextKept(CompareProducts, pre);
    PlainTextKept(PurchaseIntent, pre);
  }

  /** No other grammar matches in text followed by `PRODUCT_CARD` directives. */
  lemma CardsAlone(pre: string, fss: seq<seq<string>>)
    requires '[' !in pre && AllFit(ProductCard, fss) && NoBracketIn(fss)
    ensures var s := pre + DirectivesText(ProductCard, fss);
            FindAll(DisplayLink, s) == [] && FindAll(CompareProducts, s) == [] && FindAll(PurchaseIntent, s) == []
  {
    LinkBracket();
    CardBracket();
    CompareBracket();
    PurchaseBracket();
    LiteralsDiffer();
    OtherPatternAbsent(DisplayLink, ProductCard, pre, fss, 1);
    OtherPatternAbsent(CompareProducts, ProductCard, pre, fss, 1);
    OtherPatternAbsent(PurchaseIntent, ProductCard, pre, fss, 2);
  }

  /** Cards built from matches that read back the field texts are the cards built from the
      field texts themselves. */
  lemma CardsFromMatches(ms: seq<seq<string>>, fss: seq<seq<string>>)
    requires |ms| == |fss| && forall k :: 0 <= k < |fss| ==> ReadBack(ProductCard.fields, ms[k], fss[k])
    ensures forall k :: 0 <= k < |fss| ==> |ms[k]| == 7 && |fss[k]| == 7
    ensures CardsOf(ms) == CardsOf(fss)
  {
    forall k | 0 <= k < |fss| ensures |ms[k]| == 7 && |fss[k]| == 7 && ToCard(ms[k]) == ToCard(fss[k]) {
      CardFromGroups(ms[k], fss[k]);
    }
  }

  /** Text followed by `PRODUCT_CARD` directives: one card per directive, in order, each field
      the stripped text written into it; the rest of the text is what is spoken. */
  lemma CardsReadBack(pre: string, fss: seq<seq<string>>)
    requires '[' !in pre && AllFit(ProductCard, fss) && NoBracketIn(fss)
    ensures forall k :: 0 <= k < |fss| ==> |fss[k]| == 7
    ensures var r := ProcessResponse(pre + DirectivesText(ProductCard, fss));
            r.productCards == CardsOf(fss)
            && r.linksToDisplay == [] && r.comparisonData.None? && r.purchaseIntentData.None?
            && r.spokenText == Voice.OptimizeForVoice(pre)
  {
    var s := pre + DirectivesText(ProductCard, fss);
    CardsCut(pre, fss);
    CardsAlone(pre, fss);
    var ms := FindAll(ProductCard, s);
    assert |ms| == |fss| && forall k :: 0 <= k < |fss| ==> ReadBack(ProductCard.fields, ms[k], fss[k]) by {
      CardBracket();
      AfterPlainText(ProductCard, pre, fss);
    }
    CardsFromMatches(ms, fss);
  }

  /** Only the first `PURCHASE_INTENT` directive counts, whatever follows it. */
  lemma PurchaseFirstWins(pre: string, fs: seq<string>, post: string)
    requires '[' !in pre && FitsFields(PurchaseIntent.fields, fs)
    ensures ProcessResponse(pre + DirectiveText(PurchaseIntent, fs) + post).purchaseIntentData
            == Some(PurchaseData(Strip(fs[0]), Strip(fs[1]), Strip(fs[2])))
  {
    var s := pre + DirectiveText(PurchaseIntent, fs) + post;
    FirstDirective(PurchaseIntent, fs, pre, post);
    var g := FindAll(PurchaseIntent, s)[0];
    LeadFieldStrips(PurchaseIntent.fields, g, fs, 0);
    LeadFieldStrips(PurchaseIntent.fields, g, fs, 1);
    LeadFieldStrips(PurchaseIntent.fields, g, fs, 2);
  }

  /** Only the first `COMPARE_PRODUCTS` directive counts, whatever follows it; its text is kept
      raw, short only of the whitespace `\s*` consumed. */
  lemma CompareFirstWins(pre: string, fs: seq<string>, post: string)
    requires '[' !in pre && FitsFields(CompareProducts.fields, fs)
    ensures var c := ProcessResponse(pre + DirectiveText(CompareProducts, fs) + post).comparisonData;
            c.Some? && DropsLeadingSpace(c.value, fs[0]) && Strip(c.value) == Strip(fs[0])
  {
    var s := pre + DirectiveText(CompareProducts, fs) + post;
    FirstDirective(CompareProducts, fs, pre, post);
    var g := FindAll(CompareProducts, s)[0];
    ReadBackAt(CompareProducts.fields, g, fs, 0);
    DropsStrip(g[0], fs[0]);
  }

  /** A purchase directive at the end of the reply is cut out of what is spoken. */
  lemma PurchaseNotSpoken(pre: string, fs: seq<string>)
    requires '[' !in pre && FitsFields(PurchaseIntent.fields, fs) && NoBracketIn([fs])
    ensures ProcessResponse(pre + DirectiveText(PurchaseIntent, fs)).spokenText == Voice.OptimizeForVoice(pre)
  {
    var d := DirectiveText(PurchaseIntent, fs);
    assert DirectivesText(PurchaseIntent, [fs]) == d + "";
    assert d + "" == d;
    LinkBracket();
    CardBracket();
    CompareBracket();
    PurchaseBracket();
    LiteralsDiffer();
    OtherPatternAbsent(DisplayLink, PurchaseIntent, pre, [fs], 1);
    OtherPatternAbsent(ProductCard, PurchaseIntent, pre, [fs], 2);
    OtherPatternAbsent(CompareProducts, PurchaseIntent, pre, [fs], 1);
    FirstDirective(PurchaseIntent, fs, pre, "");
    assert pre + d + "" == pre + d;
  }
}
