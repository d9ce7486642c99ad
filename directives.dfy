/** The bracketed directives the model embeds in its replies (`[DISPLAY_LINK: …]`,
    `[PRODUCT_CARD: …]`, `[COMPARE_PRODUCTS: …]`, `[PURCHASE_INTENT: …]`), and the
    `re.findall` / `re.sub` scans over them.

    Every directive pattern is a literal followed by capture fields, each field ending at a
    one-character stop (`|` or `]`). A field's class is "anything but its stop", so the field
    always ends at the FIRST stop character after it: Python's backtracking has no other choice.
    The one place where backtracking matters is a field introduced by `\s*` whose class also
    accepts whitespace: when only whitespace stands before the stop, `\s*` gives one character
    back so that the `+` field is not empty. */
module Directives {
  import opened Wrappers
  import opened Text
  import Captures

  datatype Field =
    | Lead(stop: char)                   // \s*([^stop]+)   then the stop character
    | Plain(stop: char, nonEmpty: bool)  // ([^stop]+) or ([^stop]*)   then the stop character

  datatype Pattern = Pattern(literal: string, fields: seq<Field>)

  /** `\[DISPLAY_LINK:\s*([^|]+)\s*\|\s*([^\]]+)\]` */
  const DisplayLink := Pattern("[DISPLAY_LINK:", [Lead('|'), Lead(']')])

  /** `\[PRODUCT_CARD:\s*([^|]+)\|([^|]+)\|([^|]+)\|([^|]+)\|([^|]*)\|([^|]*)\|([^\]]*)\]` */
  const ProductCard := Pattern("[PRODUCT_CARD:",
    [Lead('|'), Plain('|', true), Plain('|', true), Plain('|', true),
     Plain('|', false), Plain('|', false), Plain(']', false)])

  /** `\[COMPARE_PRODUCTS:\s*([^\]]+)\]` */
  const CompareProducts := Pattern("[COMPARE_PRODUCTS:", [Lead(']')])

  /** `\[PURCHASE_INTENT:\s*([^|]+)\s*\|\s*([^|]+)\s*\|\s*([^\]]+)\]` */
  const PurchaseIntent := Pattern("[PURCHASE_INTENT:", [Lead('|'), Lead('|'), Lead(']')])

  /** The defensive re-pass `\[TAG:[^\]]+\]` of the voice optimiser. */
  function Residual(tag: string): (p: Pattern)
    ensures |p.literal| > 0 && p.literal[0] == '['
  {
    Pattern("[" + tag + ":", [Plain(']', true)])
  }

  /** The span of one field's group when the field starts at `j`; the match goes on after the
      stop character at `r.value.end`. */
  function FieldAt(f: Field, s: string, j: nat): (r: Option<Captures.Span>)
    ensures r.Some? ==> j <= r.value.start <= r.value.end < |s| && s[r.value.end] == f.stop
    ensures r.Some? ==> forall t :: j <= t < r.value.end ==> s[t] != f.stop
    ensures r.Some? && (f.Lead? || f.nonEmpty) ==> r.value.start < r.value.end
    ensures r.None? && f.Plain? && !f.nonEmpty ==> forall t :: j <= t < |s| ==> s[t] != f.stop
    ensures r.Some? && f.Plain? ==> r.value.start == j
    ensures r.Some? && f.Lead? ==> forall t :: j <= t < r.value.start ==> IsSpace(s[t])
  {
    match FindFrom(s, f.stop, j)
    case None => None
    case Some(k) =>
      match f
      case Lead(_) =>
        var w := SkipSpace(s, j);
        if w < k then Some(Captures.Span(w, k))
        else if j < k then Some(Captures.Span(k - 1, k))
        else None
      case Plain(_, nonEmpty) =>
        if nonEmpty && j == k then None else Some(Captures.Span(j, k))
  }

  /** A match: where it ends and its groups, in field order. */
  datatype Hit = Hit(end: nat, groups: seq<string>)

  function MatchFields(fs: seq<Field>, s: string, j: nat): (r: Option<Hit>)
    ensures r.Some? ==> j + |fs| <= r.value.end <= |s| && |r.value.groups| == |fs|
    decreases |fs|, |s|  // naming `s` keeps a constant field list from being unrolled
  {
    if |fs| == 0 then (if j <= |s| then Some(Hit(j, [])) else None)
    else
      match FieldAt(fs[0], s, j)
      case None => None
      case Some(sp) =>
        match MatchFields(fs[1..], s, sp.end + 1)
        case None => None
        case Some(h) => Some(Hit(h.end, [s[sp.start..sp.end]] + h.groups))
  }

  /** The pattern matches starting exactly at `i`. */
  function MatchAt(p: Pattern, s: string, i: nat): (r: Option<Hit>)
    ensures r.Some? ==> OccursAt(s, p.literal, i)
    ensures r.Some? ==> i + |p.literal| + |p.fields| <= r.value.end <= |s|
    ensures r.Some? ==> |r.value.groups| == |p.fields|
  {
    if OccursAt(s, p.literal, i) then MatchFields(p.fields, s, i + |p.literal|) else None
  }

  /** What the pattern matches at each position of the text. */
  function Hits(p: Pattern, s: string): seq<Option<Hit>> {
    seq(|s|, i requires 0 <= i < |s| => MatchAt(p, s, i))
  }

  /** The scan takes the match the table holds at `i`: one that ends after it starts and
      within the text. `Hits` holds no other kind. */
  predicate Takes(hits: seq<Option<Hit>>, s: string, i: nat) {
    i < |hits| && hits[i].Some? && i < hits[i].value.end <= |s|
  }

  lemma HitsGroups(p: Pattern, s: string)
    ensures forall i :: 0 <= i < |s| && Hits(p, s)[i].Some? ==> |Hits(p, s)[i].value.groups| == |p.fields|
  {
  }

  /** The text cut into the characters a left-to-right scan keeps and the matches it removes. */
  datatype Segment = Kept(c: char) | Removed(text: string, groups: seq<string>)

  function Scan(hits: seq<Option<Hit>>, s: string, i: nat): seq<Segment>
    decreases |s| - i
  {
    if i >= |s| then []
    else if Takes(hits, s, i) then
      var h := hits[i].value;
      [Removed(s[i..h.end], h.groups)] + Scan(hits, s, h.end)
    else [Kept(s[i])] + Scan(hits, s, i + 1)
  }

  /** The segments written back out. */
  function Spelled(segs: seq<Segment>): string {
    if |segs| == 0 then ""
    else (match segs[0] case Kept(c) => [c] case Removed(t, _) => t) + Spelled(segs[1..])
  }

  function KeptText(segs: seq<Segment>): string {
    if |segs| == 0 then ""
    else (match segs[0] case Kept(c) => [c] case Removed(_, _) => "") + KeptText(segs[1..])
  }

  function Matches(segs: seq<Segment>): seq<seq<string>> {
    if |segs| == 0 then []
    else (match segs[0] case Kept(_) => [] case Removed(_, g) => [g]) + Matches(segs[1..])
  }

  /** `re.findall(p, s)`: the groups of every non-overlapping match, left to right. */
  function FindAll(p: Pattern, s: string): (r: seq<seq<string>>)
    requires |p.literal| > 0
    ensures forall k :: 0 <= k < |r| ==> |r[k]| == |p.fields|
  {
    HitsGroups(p, s);
    ScanGroups(Hits(p, s), s, 0, |p.fields|);
    Matches(Scan(Hits(p, s), s, 0))
  }

  /** `re.sub(p, '', s)`: the text with every match removed. */
  /** Removing matches only deletes characters: the result holds no character more often than `s`. */
  function SubAll(p: Pattern, s: string): (r: string)
    requires |p.literal| > 0
    ensures multiset(r) <= multiset(s)
  {
    var segs := Scan(Hits(p, s), s, 0);
    ScanSpells(Hits(p, s), s, 0);
    assert s[0..] == s;
    KeptWithin(segs);
    KeptText(segs)
  }

  lemma {:induction false} ScanGroups(hits: seq<Option<Hit>>, s: string, i: nat, n: nat)
    requires forall t :: 0 <= t < |s| && Takes(hits, s, t) ==> |hits[t].value.groups| == n
    ensures forall k :: 0 <= k < |Matches(Scan(hits, s, i))| ==> |Matches(Scan(hits, s, i))[k]| == n
    decreases |s| - i
  {
    if i < |s| {
      if Takes(hits, s, i) {
        var h := hits[i].value;
        ScanGroups(hits, s, h.end, n);
        RemovedCons(s[i..h.end], h.groups, Scan(hits, s, h.end));
      } else {
        ScanGroups(hits, s, i + 1, n);
        KeptCons(s[i], Scan(hits, s, i + 1));
      }
    }
  }

  /** The scan loses nothing: kept characters and removed matches spell the text again. */
  lemma {:induction false} ScanSpells(hits: seq<Option<Hit>>, s: string, i: nat)
    requires i <= |s|
    ensures Spelled(Scan(hits, s, i)) == s[i..]
    decreases |s| - i
  {
    if i < |s| {
      if Takes(hits, s, i) {
        var h := hits[i].value;
        ScanSpells(hits, s, h.end);
        RemovedCons(s[i..h.end], h.groups, Scan(hits, s, h.end));
        assert s[i..] == s[i..h.end] + s[h.end..];
      } else {
        ScanSpells(hits, s, i + 1);
        KeptCons(s[i], Scan(hits, s, i + 1));
        assert s[i..] == [s[i]] + s[i + 1..];
      }
    }
  }

  lemma {:induction false} KeptWithin(segs: seq<Segment>)
    ensures multiset(KeptText(segs)) <= multiset(Spelled(segs))
  {
    if |segs| > 0 {
      var head := match segs[0] case Kept(x) => [x] case Removed(t, _) => t;
      var kept := match segs[0] case Kept(x) => [x] case Removed(_, _) => "";
      assert Spelled(segs) == head + Spelled(segs[1..]);
      assert KeptText(segs) == kept + KeptText(segs[1..]);
      KeptWithin(segs[1..]);
    }
  }

  lemma KeptCons(c: char, rest: seq<Segment>)
    ensures Matches([Kept(c)] + rest) == Matches(rest)
    ensures KeptText([Kept(c)] + rest) == [c] + KeptText(rest)
    ensures Spelled([Kept(c)] + rest) == [c] + Spelled(rest)
  {
    assert ([Kept(c)] + rest)[1..] == rest;
  }

  lemma RemovedCons(t: string, g: seq<string>, rest: seq<Segment>)
    ensures Matches([Removed(t, g)] + rest) == [g] + Matches(rest)
    ensures KeptText([Removed(t, g)] + rest) == KeptText(rest)
    ensures Spelled([Removed(t, g)] + rest) == t + Spelled(rest)
  {
    assert ([Removed(t, g)] + rest)[1..] == rest;
  }

  /** Positions where the pattern does not match are kept one by one and produce no group. */
  lemma {:induction false} ScanSkip(hits: seq<Option<Hit>>, s: string, i: nat, j: nat)
    requires i <= j <= |s|
    requires forall t :: i <= t < j ==> !Takes(hits, s, t)
    ensures Matches(Scan(hits, s, i)) == Matches(Scan(hits, s, j))
    ensures KeptText(Scan(hits, s, i)) == s[i..j] + KeptText(Scan(hits, s, j))
    decreases j - i
  {
    if i < j {
      ScanSkip(hits, s, i + 1, j);
      var rest := Scan(hits, s, i + 1);
      assert Scan(hits, s, i) == [Kept(s[i])] + rest;
      KeptCons(s[i], rest);
      var a, k := s[i + 1..j], KeptText(Scan(hits, s, j));
      assert KeptText(rest) == a + k;
      assert [s[i]] + (a + k) == ([s[i]] + a) + k;
      assert s[i..j] == [s[i]] + a;
    } else {
      assert s[i..j] == [];
    }
  }

  /** A match where the scan stands is removed whole and contributes its groups. */
  lemma ScanMatch(hits: seq<Option<Hit>>, s: string, i: nat)
    requires i < |s| && Takes(hits, s, i)
    ensures var h := hits[i].value;
            Matches(Scan(hits, s, i)) == [h.groups] + Matches(Scan(hits, s, h.end))
            && KeptText(Scan(hits, s, i)) == KeptText(Scan(hits, s, h.end))
  {
    var h := hits[i].value;
    RemovedCons(s[i..h.end], h.groups, Scan(hits, s, h.end));
  }

  /** Where the pattern matches nowhere before `i`, `re.findall` and `re.sub` start at `i`. */
  lemma SkipTo(p: Pattern, s: string, i: nat)
    requires |p.literal| > 0 && i <= |s|
    requires forall t :: 0 <= t < i ==> MatchAt(p, s, t).None?
    ensures FindAll(p, s) == Matches(Scan(Hits(p, s), s, i))
    ensures SubAll(p, s) == s[..i] + KeptText(Scan(Hits(p, s), s, i))
  {
    var hits := Hits(p, s);
    assert forall t :: 0 <= t < i ==> !Takes(hits, s, t);
    ScanSkip(hits, s, 0, i);
    assert s[0..i] == s[..i];
  }

  /** A text in which the pattern's literal never occurs has no match, and `re.sub` leaves it
      as it is. */
  lemma NoLiteral(p: Pattern, s: string)
    requires |p.literal| > 0
    requires forall t :: !OccursAt(s, p.literal, t)
    ensures FindAll(p, s) == [] && SubAll(p, s) == s
  {
    SkipTo(p, s, |s|);
    assert s[..|s|] == s;
  }

  /** `g` is `x` without some of its leading whitespace. */
  predicate DropsLeadingSpace(g: string, x: string) {
    |g| <= |x| && g == x[|x| - |g|..] && forall t :: 0 <= t < |x| - |g| ==> IsSpace(x[t])
  }

  /** Whether `\s*` gives a character back or not, a `Lead` group strips to what its field
      text strips to. */
  lemma DropsStrip(g: string, x: string)
    requires DropsLeadingSpace(g, x)
    ensures Strip(g) == Strip(x)
  {
    var d := |x| - |g|;
    assert x == x[..d] + g;
    StripLeadingSpace(x[..d], g);
  }

  // ---------------------------------------------------------------------------
  // Directives written out from their field texts

  /** Each field text followed by its field's stop character. */
  function FieldsText(fields: seq<Field>, fs: seq<string>): string
    requires |fs| == |fields|
    decreases |fields|
  {
    if |fields| == 0 then "" else fs[0] + [fields[0].stop] + FieldsText(fields[1..], fs[1..])
  }

  /** The directive of pattern `p` carrying the field texts `fs`. */
  function DirectiveText(p: Pattern, fs: seq<string>): string
    requires |fs| == |p.fields|
  {
    p.literal + FieldsText(p.fields, fs)
  }

  /** The field needs at least one character. */
  predicate NeedsText(f: Field) {
    match f
    case Lead(_) => true
    case Plain(_, nonEmpty) => nonEmpty
  }

  /** Field texts the pattern reads back as they are: none holds its field's stop character
      and each field that needs a character has one. */
  predicate FitsFields(fields: seq<Field>, fs: seq<string>) {
    |fs| == |fields| &&
    forall k :: 0 <= k < |fields| ==>
      fields[k].stop !in fs[k] && (NeedsText(fields[k]) ==> |fs[k]| > 0)
  }

  /** The groups read back are the field texts: the same once stripped, and exactly the same
      for fields without a leading `\s*`. */
  predicate ReadBack(fields: seq<Field>, groups: seq<string>, fs: seq<string>)
    decreases |fields|
  {
    |groups| == |fields| == |fs| &&
    (|fields| == 0 ||
     (FieldReadBack(fields[0], groups[0], fs[0]) && ReadBack(fields[1..], groups[1..], fs[1..])))
  }

  predicate FieldReadBack(f: Field, g: string, x: string) {
    if f.Plain? then g == x else DropsLeadingSpace(g, x)
  }

  lemma {:induction false} ReadBackAt(fields: seq<Field>, groups: seq<string>, fs: seq<string>, k: nat)
    requires ReadBack(fields, groups, fs) && k < |fields|
    ensures FieldReadBack(fields[k], groups[k], fs[k])
    decreases k
  {
    if k > 0 {
      ReadBackAt(fields[1..], groups[1..], fs[1..], k - 1);
    }
  }

  /** One field text followed by its stop character is read back as that field's group. */
  lemma FieldText(f: Field, x: string, s: string, j: nat)
    requires f.stop !in x && (NeedsText(f) ==> |x| > 0)
    requires OccursAt(s, x + [f.stop], j)
    ensures FieldAt(f, s, j).Some? && FieldAt(f, s, j).value.end == j + |x|
    ensures var sp := FieldAt(f, s, j).value; FieldReadBack(f, s[sp.start..sp.end], x)
  {
    var k := j + |x|;
    assert s[j..k + 1] == x + [f.stop];
    assert s[j..k] == s[j..k + 1][..|x|] == x;
    forall t | j <= t < k ensures s[t] != f.stop {
      assert s[t] == x[t - j];
    }
    FindFromAt(s, f.stop, j, k);
    var sp := FieldAt(f, s, j).value;
    assert s[sp.start..sp.end] == x[sp.start - j..];
  }

  lemma FitsTail(fields: seq<Field>, fs: seq<string>)
    requires |fields| > 0 && FitsFields(fields, fs)
    ensures FitsFields(fields[1..], fs[1..])
  {
    forall t | 0 <= t < |fields[1..]|
      ensures fields[1..][t].stop !in fs[1..][t] && (NeedsText(fields[1..][t]) ==> |fs[1..][t]| > 0)
    {
      assert fields[1..][t] == fields[t + 1] && fs[1..][t] == fs[t + 1];
    }
  }

  lemma {:induction false} ReadBackCons(fields: seq<Field>, g: string, gs: seq<string>, fs: seq<string>)
    requires |fields| > 0 && |fs| == |fields|
    requires FieldReadBack(fields[0], g, fs[0])
    requires ReadBack(fields[1..], gs, fs[1..])
    ensures ReadBack(fields, [g] + gs, fs)
  {
    assert ([g] + gs)[1..] == gs;
  }

  lemma OccursSplit(s: string, a: string, b: string, j: nat)
    requires OccursAt(s, a + b, j)
    ensures OccursAt(s, a, j) && OccursAt(s, b, j + |a|)
  {
    assert s[j..j + |a|] == s[j..j + |a| + |b|][..|a|];
    assert s[j + |a|..j + |a| + |b|] == s[j..j + |a| + |b|][|a|..];
  }

  /** The field texts, each followed by its stop character, stand one after another from `j`. */
  predicate FieldsAt(fields: seq<Field>, fs: seq<string>, s: string, j: nat)
    decreases |fields|
  {
    |fs| == |fields| &&
    if |fields| == 0 then j <= |s|
    else OccursAt(s, fs[0] + [fields[0].stop], j) && FieldsAt(fields[1..], fs[1..], s, j + |fs[0]| + 1)
  }

  lemma {:induction false} FieldsTextAt(fields: seq<Field>, fs: seq<string>, s: string, j: nat)
    requires |fs| == |fields| && OccursAt(s, FieldsText(fields, fs), j)
    ensures FieldsAt(fields, fs, s, j)
    decreases |fields|
  {
    if |fields| > 0 {
      var rest := FieldsText(fields[1..], fs[1..]);
      assert FieldsText(fields, fs) == (fs[0] + [fields[0].stop]) + rest;
      OccursSplit(s, fs[0] + [fields[0].stop], rest, j);
      FieldsTextAt(fields[1..], fs[1..], s, j + |fs[0]| + 1);
    }
  }

  lemma {:induction false} MatchFieldsText(fields: seq<Field>, fs: seq<string>, s: string, j: nat)
    requires FitsFields(fields, fs)
    requires FieldsAt(fields, fs, s, j)
    ensures MatchFields(fields, s, j).Some?
    ensures MatchFields(fields, s, j).value.end == j + |FieldsText(fields, fs)|
    ensures ReadBack(fields, MatchFields(fields, s, j).value.groups, fs)
    decreases |fields|
  {
    if |fields| > 0 {
      FitsTail(fields, fs);
      MatchFieldsText(fields[1..], fs[1..], s, j + |fs[0]| + 1);
      MatchFieldsTextStep(fields, fs, s, j);
    }
  }

  /** The step of `MatchFieldsText`: the first field's text, then the rest as matched. */
  lemma MatchFieldsTextStep(fields: seq<Field>, fs: seq<string>, s: string, j: nat)
    requires |fields| > 0 && FitsFields(fields, fs) && FieldsAt(fields, fs, s, j)
    requires var e := j + |fs[0]| + 1;
      && MatchFields(fields[1..], s, e).Some?
      && MatchFields(fields[1..], s, e).value.end == e + |FieldsText(fields[1..], fs[1..])|
      && ReadBack(fields[1..], MatchFields(fields[1..], s, e).value.groups, fs[1..])
    ensures MatchFields(fields, s, j).Some?
    ensures MatchFields(fields, s, j).value.end == j + |FieldsText(fields, fs)|
    ensures ReadBack(fields, MatchFields(fields, s, j).value.groups, fs)
  {
    FieldText(fields[0], fs[0], s, j);
    var sp := FieldAt(fields[0], s, j).value;
    var h := MatchFields(fields[1..], s, j + |fs[0]| + 1).value;
    MatchFieldsStep(fields, s, j, sp, h);
    ReadBackCons(fields, s[sp.start..sp.end], h.groups, fs);
  }

  lemma MatchFieldsStep(fields: seq<Field>, s: string, j: nat, sp: Captures.Span, h: Hit)
    requires |fields| > 0
    requires FieldAt(fields[0], s, j) == Some(sp) && MatchFields(fields[1..], s, sp.end + 1) == Some(h)
    ensures sp.start <= sp.end <= |s|
    ensures MatchFields(fields, s, j) == Some(Hit(h.end, [s[sp.start..sp.end]] + h.groups))
  {
  }

  /** A directive written out from fitting field texts matches where it stands, reads its
      field texts back, and ends where its text ends. */
  lemma MatchDirective(p: Pattern, fs: seq<string>, s: string, i: nat)
    requires FitsFields(p.fields, fs)
    requires OccursAt(s, DirectiveText(p, fs), i)
    ensures MatchAt(p, s, i).Some?
    ensures MatchAt(p, s, i).value.end == i + |DirectiveText(p, fs)|
    ensures ReadBack(p.fields, MatchAt(p, s, i).value.groups, fs)
  {
    DirectiveParts(p, fs, s, i);
    MatchLiteralFields(p, fs, s, i);
  }

  /** A directive's text at `i` is its literal followed by its fields. */
  lemma DirectiveParts(p: Pattern, fs: seq<string>, s: string, i: nat)
    requires FitsFields(p.fields, fs)
    requires OccursAt(s, DirectiveText(p, fs), i)
    ensures OccursAt(s, p.literal, i) && FieldsAt(p.fields, fs, s, i + |p.literal|)
  {
    OccursSplit(s, p.literal, FieldsText(p.fields, fs), i);
    FieldsTextAt(p.fields, fs, s, i + |p.literal|);
  }

  /** `MatchDirective` once the literal and the fields have been located. */
  lemma MatchLiteralFields(p: Pattern, fs: seq<string>, s: string, i: nat)
    requires FitsFields(p.fields, fs)
    requires OccursAt(s, p.literal, i) && FieldsAt(p.fields, fs, s, i + |p.literal|)
    ensures var h := MatchAt(p, s, i);
      h.Some? && h.value.end == i + |p.literal| + |FieldsText(p.fields, fs)| && ReadBack(p.fields, h.value.groups, fs)
  {
    MatchFieldsText(p.fields, fs, s, i + |p.literal|);
    MatchAtFields(p, s, i);
  }

  lemma MatchAtFields(p: Pattern, s: string, i: nat)
    requires OccursAt(s, p.literal, i)
    ensures MatchAt(p, s, i) == MatchFields(p.fields, s, i + |p.literal|)
  {
  }

  /** The first directive of a text is the first match of its pattern, however many more
      directives follow it; when nothing follows, `re.sub` leaves the text before it. */
  lemma FirstDirective(p: Pattern, fs: seq<string>, pre: string, post: string)
    requires |p.literal| > 0 && p.literal[0] == '[' && '[' !in pre
    requires FitsFields(p.fields, fs)
    ensures |FindAll(p, pre + DirectiveText(p, fs) + post)| > 0
    ensures ReadBack(p.fields, FindAll(p, pre + DirectiveText(p, fs) + post)[0], fs)
    ensures post == "" ==> SubAll(p, pre + DirectiveText(p, fs)) == pre
  {
    var d := DirectiveText(p, fs);
    var s := pre + d + post;
    var i := |pre|;
    forall t | 0 <= t < i ensures MatchAt(p, s, t).None? {
      assert s[t] == pre[t];
    }
    assert s[i..i + |d|] == d;
    DirectiveFirstAt(p, fs, s, i);
    if post == "" {
      assert s == pre + d && s[..i] == pre;
    }
  }

  /** A directive at `i` with no match before it gives the first groups of `re.findall`; when
      it ends the text, `re.sub` leaves what stands before it. */
  lemma DirectiveFirstAt(p: Pattern, fs: seq<string>, s: string, i: nat)
    requires |p.literal| > 0 && FitsFields(p.fields, fs)
    requires OccursAt(s, DirectiveText(p, fs), i)
    requires forall t :: 0 <= t < i ==> MatchAt(p, s, t).None?
    ensures |FindAll(p, s)| > 0 && ReadBack(p.fields, FindAll(p, s)[0], fs)
    ensures i + |DirectiveText(p, fs)| == |s| ==> SubAll(p, s) == s[..i]
  {
    SkipTo(p, s, i);
    MatchDirective(p, fs, s, i);
    var hits := Hits(p, s);
    var h := MatchAt(p, s, i).value;
    assert hits[i] == Some(h) && Takes(hits, s, i);
    ScanMatch(hits, s, i);
    if h.end == |s| {
      assert Scan(hits, s, h.end) == [];
    }
  }

  /** No match where the text holds a `[` at one place only and the literal is not there. */
  lemma OnlyBracketAt(p: Pattern, s: string, i: nat)
    requires |p.literal| > 0 && p.literal[0] == '['
    requires forall t :: 0 <= t < |s| && t != i ==> s[t] != '['
    requires !OccursAt(s, p.literal, i)
    ensures FindAll(p, s) == [] && SubAll(p, s) == s
  {
    forall t: nat ensures !OccursAt(s, p.literal, t) {
      if t != i && t + |p.literal| <= |s| {
        assert s[t..t + |p.literal|][0] == s[t] != '[';
      }
    }
    NoLiteral(p, s);
  }

  /** A character no field text holds, and no stop is, is absent from the fields' text. */
  lemma {:induction false} FieldsTextOmits(fields: seq<Field>, fs: seq<string>, c: char)
    requires |fs| == |fields|
    requires forall k :: 0 <= k < |fields| ==> c !in fs[k] && c != fields[k].stop
    ensures c !in FieldsText(fields, fs)
    decreases |fields|
  {
    if |fields| > 0 {
      assert forall k :: 0 <= k < |fields[1..]| ==> fields[1..][k] == fields[k + 1] && fs[1..][k] == fs[k + 1];
      FieldsTextOmits(fields[1..], fs[1..], c);
    }
  }

  // ---------------------------------------------------------------------------
  // Several directives of one pattern, one after another

  /** Directives of pattern `p` written one after another, the `k`-th carrying `fss[k]`. */
  function DirectivesText(p: Pattern, fss: seq<seq<string>>): string
    requires forall k :: 0 <= k < |fss| ==> |fss[k]| == |p.fields|
    decreases |fss|
  {
    if |fss| == 0 then "" else DirectiveText(p, fss[0]) + DirectivesText(p, fss[1..])
  }

  /** Field texts that fit every directive of the run. */
  predicate AllFit(p: Pattern, fss: seq<seq<string>>) {
    (forall k :: 0 <= k < |fss| ==> |fss[k]| == |p.fields|)
    && forall k :: 0 <= k < |fss| ==> FitsFields(p.fields, fss[k])
  }

  /** The directives of the run stand one after another from `i` to the end of `s`. */
  predicate RunAt(p: Pattern, fss: seq<seq<string>>, s: string, i: nat)
    decreases |fss|
  {
    (forall k :: 0 <= k < |fss| ==> |fss[k]| == |p.fields|) &&
    if |fss| == 0 then i == |s|
    else OccursAt(s, DirectiveText(p, fss[0]), i) && RunAt(p, fss[1..], s, i + |DirectiveText(p, fss[0])|)
  }

  lemma {:induction false} RunTextAt(p: Pattern, fss: seq<seq<string>>, s: string, i: nat)
    requires forall k :: 0 <= k < |fss| ==> |fss[k]| == |p.fields|
    requires i + |DirectivesText(p, fss)| == |s| && OccursAt(s, DirectivesText(p, fss), i)
    ensures RunAt(p, fss, s, i)
    decreases |fss|
  {
    if |fss| > 0 {
      var d := DirectiveText(p, fss[0]);
      var rest := DirectivesText(p, fss[1..]);
      OccursSplit(s, d, rest, i);
      RunTextAt(p, fss[1..], s, i + |d|);
    }
  }

  /** A run of directives that ends the text is matched directive by directive: one match
      per directive, in order, each reading its field texts back, and nothing kept. */
  lemma {:induction false} ScanDirectives(p: Pattern, fss: seq<seq<string>>, s: string, i: nat)
    requires |p.literal| > 0 && AllFit(p, fss) && RunAt(p, fss, s, i)
    ensures |Matches(Scan(Hits(p, s), s, i))| == |fss|
    ensures forall k :: 0 <= k < |fss| ==> ReadBack(p.fields, Matches(Scan(Hits(p, s), s, i))[k], fss[k])
    ensures KeptText(Scan(Hits(p, s), s, i)) == ""
    decreases |fss|
  {
    var hits := Hits(p, s);
    if |fss| > 0 {
      var d := DirectiveText(p, fss[0]);
      RunSplit(p, fss, s, i);
      MatchDirective(p, fss[0], s, i);
      var h := MatchAt(p, s, i).value;
      var j := i + |d|;
      assert h.end == j && hits[i] == Some(h) && Takes(hits, s, i);
      ScanDirectives(p, fss[1..], s, j);
      var later := Matches(Scan(hits, s, j));
      ScanMatch(hits, s, i);
      ReadBackRun(p.fields, h.groups, later, fss);
    } else {
      assert Scan(hits, s, i) == [];
    }
  }

  /** The first directive of a run, and the rest of the run after it. */
  lemma RunSplit(p: Pattern, fss: seq<seq<string>>, s: string, i: nat)
    requires |fss| > 0 && AllFit(p, fss) && RunAt(p, fss, s, i)
    ensures FitsFields(p.fields, fss[0])
    ensures OccursAt(s, DirectiveText(p, fss[0]), i)
    ensures AllFit(p, fss[1..]) && RunAt(p, fss[1..], s, i + |DirectiveText(p, fss[0])|)
  {
    assert forall k :: 0 <= k < |fss[1..]| ==> fss[1..][k] == fss[k + 1];
  }

  lemma ReadBackRun(fields: seq<Field>, g: seq<string>, later: seq<seq<string>>, fss: seq<seq<string>>)
    requires |fss| == |later| + 1 && ReadBack(fields, g, fss[0])
    requires forall k :: 0 <= k < |later| ==> ReadBack(fields, later[k], fss[1..][k])
    ensures forall k :: 0 <= k < |fss| ==> ReadBack(fields, ([g] + later)[k], fss[k])
  {
    forall k | 0 <= k < |fss| ensures ReadBack(fields, ([g] + later)[k], fss[k]) {
      if k > 0 {
        assert ([g] + later)[k] == later[k - 1] && fss[k] == fss[1..][k - 1];
      }
    }
  }

  /** Directives after a text without `[`: `re.findall` reads every one of them back, in
      order, and `re.sub` leaves the text before them. */
  lemma AfterPlainText(p: Pattern, pre: string, fss: seq<seq<string>>)
    requires |p.literal| > 0 && p.literal[0] == '[' && '[' !in pre
    requires AllFit(p, fss)
    ensures |FindAll(p, pre + DirectivesText(p, fss))| == |fss|
    ensures forall k :: 0 <= k < |fss| ==> ReadBack(p.fields, FindAll(p, pre + DirectivesText(p, fss))[k], fss[k])
    ensures SubAll(p, pre + DirectivesText(p, fss)) == pre
  {
    var x := DirectivesText(p, fss);
    var s := pre + x;
    var i := |pre|;
    forall t | 0 <= t < i ensures MatchAt(p, s, t).None? {
      assert s[t] == pre[t];
    }
    SkipTo(p, s, i);
    RunAfter(p, pre, fss);
    ScanDirectives(p, fss, s, i);
    assert s[..i] == pre;
  }

  /** The directives written after `pre` form a run that starts where `pre` ends. */
  lemma RunAfter(p: Pattern, pre: string, fss: seq<seq<string>>)
    requires AllFit(p, fss)
    ensures RunAt(p, fss, pre + DirectivesText(p, fss), |pre|)
  {
    OccursAtEnd(pre, DirectivesText(p, fss));
    RunTextAt(p, fss, pre + DirectivesText(p, fss), |pre|);
  }

  /** No `[` besides the one that opens it. */
  predicate OneBracket(p: Pattern) {
    |p.literal| > 0 && p.literal[0] == '['
    && (forall t :: 1 <= t < |p.literal| ==> p.literal[t] != '[')
    && forall k :: 0 <= k < |p.fields| ==> p.fields[k].stop != '['
  }

  /** Field texts without `[`. */
  predicate NoBracketIn(fss: seq<seq<string>>) {
    forall k, f :: 0 <= k < |fss| && 0 <= f < |fss[k]| ==> '[' !in fss[k][f]
  }

  /** Another pattern, whose literal differs from `p`'s at `m`, occurs nowhere in a run of
      `p` directives: a `[` stands only where a directive of `p` starts. */
  lemma {:induction false} OtherAbsent(q: Pattern, p: Pattern, fss: seq<seq<string>>, m: nat)
    requires |q.literal| > 0 && q.literal[0] == '[' && OneBracket(p)
    requires m < |q.literal| && m < |p.literal| && q.literal[m] != p.literal[m]
    requires forall k :: 0 <= k < |fss| ==> |fss[k]| == |p.fields|
    requires NoBracketIn(fss)
    ensures forall t: nat :: !OccursAt(DirectivesText(p, fss), q.literal, t)
    decreases |fss|
  {
    if |fss| > 0 {
      var d := DirectiveText(p, fss[0]);
      var rest := DirectivesText(p, fss[1..]);
      var x := d + rest;
      assert NoBracketIn(fss[1..]) by {
        assert forall k :: 0 <= k < |fss[1..]| ==> fss[1..][k] == fss[k + 1];
      }
      OtherAbsent(q, p, fss[1..], m);
      FieldsTextOmits(p.fields, fss[0], '[');
      forall t: nat ensures !OccursAt(x, q.literal, t) {
        if t + |q.literal| <= |x| {
          if t == 0 {
            assert x[..|q.literal|][m] == x[m] == d[m] == p.literal[m];
          } else if t < |d| {
            assert x[t..t + |q.literal|][0] == x[t] == d[t];
            if t < |p.literal| {
              assert d[t] == p.literal[t];
            } else {
              assert d[t] == FieldsText(p.fields, fss[0])[t - |p.literal|];
            }
          } else {
            assert x[t..t + |q.literal|] == rest[t - |d|..t - |d| + |q.literal|];
            assert !OccursAt(rest, q.literal, t - |d|);
          }
        }
      }
    }
  }

  /** Text without `[` before it does not let a `[`-led literal in. */
  lemma AbsentAfterPlainText(q: Pattern, pre: string, x: string)
    requires |q.literal| > 0 && q.literal[0] == '[' && '[' !in pre
    requires forall t: nat :: !OccursAt(x, q.literal, t)
    ensures FindAll(q, pre + x) == [] && SubAll(q, pre + x) == pre + x
  {
    var s := pre + x;
    forall t: nat ensures !OccursAt(s, q.literal, t) {
      if t + |q.literal| <= |s| {
        if t < |pre| {
          assert s[t..t + |q.literal|][0] == s[t] == pre[t];
        } else {
          assert s[t..t + |q.literal|] == x[t - |pre|..t - |pre| + |q.literal|];
          assert !OccursAt(x, q.literal, t - |pre|);
        }
      }
    }
    NoLiteral(q, s);
  }
}
