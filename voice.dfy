/** The voice post-processing of the spoken text (`_optimize_for_voice`): drop list lines, join
    the rest into one line, remove residual directives, make the wording casual, and keep at
    most four sentences. */
module Voice {
  import opened Text
  import opened Directives

  /** A line starting with one of these is a list item and is not spoken. */
  const ListMarkers: seq<string> := ["1.", "2.", "3.", "4.", "5.", "•", "-"]

  predicate IsListItem(line: string) {
    exists k :: 0 <= k < |ListMarkers| && OccursAt(line, ListMarkers[k], 0)
  }

  /** A stripped line that is spoken. */
  predicate Spoken(line: string) {
    |Strip(line)| > 0 && !IsListItem(Strip(line))
  }

  /** The loop over the lines: each stripped, blank lines and list items skipped. */
  function KeepLines(lines: seq<string>): (r: seq<string>)
    ensures |r| <= |lines|
    ensures forall k :: 0 <= k < |r| ==> |r[k]| > 0 && IsStripped(r[k]) && !IsListItem(r[k])
    decreases |lines|
  {
    if |lines| == 0 then []
    else
      var rest := KeepLines(lines[1..]);
      if Spoken(lines[0]) then
        var r := [Strip(lines[0])] + rest;
        assert forall k :: 1 <= k < |r| ==> r[k] == rest[k - 1];
        r
      else rest
  }

  /** Every kept line is a stripped input line. */
  lemma {:induction false} KeptLineOrigin(lines: seq<string>, k: nat)
    requires k < |KeepLines(lines)|
    ensures exists j :: 0 <= j < |lines| && KeepLines(lines)[k] == Strip(lines[j])
    decreases |lines|
  {
    var rest := KeepLines(lines[1..]);
    if Spoken(lines[0]) {
      assert KeepLines(lines) == [Strip(lines[0])] + rest;
      if k > 0 {
        KeptLineOrigin(lines[1..], k - 1);
        var j :| 0 <= j < |lines[1..]| && rest[k - 1] == Strip(lines[1..][j]);
        assert KeepLines(lines)[k] == Strip(lines[j + 1]);
      }
    } else {
      assert KeepLines(lines) == rest;
      KeptLineOrigin(lines[1..], k);
      var j :| 0 <= j < |lines[1..]| && rest[k] == Strip(lines[1..][j]);
      assert KeepLines(lines)[k] == Strip(lines[j + 1]);
    }
  }

  /** Every spoken input line is kept. */
  lemma {:induction false} SpokenLineKept(lines: seq<string>, j: nat)
    requires j < |lines| && Spoken(lines[j])
    ensures Strip(lines[j]) in KeepLines(lines)
    decreases |lines|
  {
    if j > 0 {
      assert lines[j] == lines[1..][j - 1];
      SpokenLineKept(lines[1..], j - 1);
    }
  }

  /** Lines kept and joined with single spaces. */
  function JoinLines(text: string): (r: string)
    ensures '\n' !in r
  {
    var lines := SplitOn(text, '\n');
    var kept := KeepLines(lines);
    assert forall k :: 0 <= k < |kept| ==> '\n' !in kept[k] by {
      forall k | 0 <= k < |kept| ensures '\n' !in kept[k] {
        KeptLineOrigin(lines, k);
        var j :| 0 <= j < |lines| && kept[k] == Strip(lines[j]);
        StripOmits(lines[j], '\n');
      }
    }
    JoinOmits(kept, " ", '\n');
    Join(kept, " ")
  }

  const ResidualTags: seq<string> := ["DISPLAY_LINK", "PRODUCT_CARD", "COMPARE_PRODUCTS", "PURCHASE_INTENT"]

  /** `result = re.sub(pattern, '', result).strip()` for each residual pattern in turn. */
  function RemoveResiduals(s: string, tags: seq<string>): (r: string)
    ensures IsStripped(r) || (|tags| == 0 && r == s)
    ensures forall c :: c !in s ==> c !in r
    decreases |tags|, |s|  // naming `s` keeps the constant tag list from being unrolled
  {
    if |tags| == 0 then s
    else
      var p := Residual(tags[0]);
      var t := Strip(SubAll(p, s));
      assert forall c :: c !in s ==> c !in t by {
        forall c | c !in s ensures c !in t {
          assert multiset(SubAll(p, s))[c] == 0;
          StripOmits(SubAll(p, s), c);
        }
      }
      RemoveResiduals(t, tags[1..])
  }

  /** The formal-to-casual substitutions, in the order the source's dictionary lists them. */
  const Replacements: seq<(string, string)> := [
    ("I apologize", "Sorry about that"),
    ("Could you please", "Can you"),
    ("I would be happy to", "I'd love to"),
    ("assistance", "help"),
    ("purchase", "buy"),
    ("provide me with", "tell me"),
    ("information", "info"),
    ("however", "but"),
    ("therefore", "so"),
    ("additionally", "also"),
    ("Furthermore", "Plus"),
    ("In order to", "To"),
    ("I recommend", "I'd suggest"),
    ("specifications", "details"),
    ("http", ""),
    ("www.", ""),
    ("amazon.com", "Amazon")]

  predicate WellFormedReplacements(rs: seq<(string, string)>) {
    forall k :: 0 <= k < |rs| ==> |rs[k].0| > 0
  }

  /** `result = result.replace(formal, casual)` for each pair in turn. */
  function ApplyReplacements(s: string, rs: seq<(string, string)>): (r: string)
    requires WellFormedReplacements(rs)
    ensures forall c :: c !in s && (forall k :: 0 <= k < |rs| ==> c !in rs[k].1) ==> c !in r
    decreases |rs|, |s|  // naming `s` keeps the constant table from being unrolled
  {
    if |rs| == 0 then s
    else
      var t := ReplaceAll(s, rs[0].0, rs[0].1);
      assert forall c :: c !in s && c !in rs[0].1 ==> c !in t by {
        forall c | c !in s && c !in rs[0].1 ensures c !in t {
          ReplaceOmits(s, rs[0].0, rs[0].1, c);
        }
      }
      assert forall k :: 1 <= k < |rs| ==> rs[k] == rs[1..][k - 1];
      ApplyReplacements(t, rs[1..])
  }

  lemma {:induction false} ApplyConcat(s: string, a: seq<(string, string)>, b: seq<(string, string)>)
    requires WellFormedReplacements(a) && WellFormedReplacements(b)
    ensures WellFormedReplacements(a + b)
    ensures ApplyReplacements(s, a + b) == ApplyReplacements(ApplyReplacements(s, a), b)
    decreases |a|
  {
    if |a| > 0 {
      assert (a + b)[1..] == a[1..] + b;
      ApplyConcat(ReplaceAll(s, a[0].0, a[0].1), a[1..], b);
    } else {
      assert a + b == b;
    }
  }

  lemma ApplyFirst(s: string, r: (string, string), rs: seq<(string, string)>)
    requires |r.0| > 0 && WellFormedReplacements(rs)
    ensures WellFormedReplacements([r] + rs)
    ensures ApplyReplacements(s, [r] + rs) == ApplyReplacements(ReplaceAll(s, r.0, r.1), rs)
  {
    assert ([r] + rs)[1..] == rs;
  }

  /** Replacements whose patterns each hold a character the text lacks leave it unchanged;
      `missing[k]` is such a character for the `k`-th pattern. */
  lemma {:induction false} ApplyNoop(s: string, rs: seq<(string, string)>, missing: string)
    requires WellFormedReplacements(rs)
    requires |missing| == |rs|
    requires forall k :: 0 <= k < |rs| ==> missing[k] in rs[k].0 && missing[k] !in s
    ensures ApplyReplacements(s, rs) == s
    decreases |rs|
  {
    if |rs| > 0 {
      ReplaceNoop(s, rs[0].0, rs[0].1, missing[0]);
      assert forall k :: 1 <= k < |rs| ==> rs[k] == rs[1..][k - 1] && missing[k] == missing[1..][k - 1];
      ApplyNoop(s, rs[1..], missing[1..]);
    }
  }

  /** At most four sentences: more than four `.`-separated pieces become the first three
      joined by ". " and closed by a period. */
  function Truncate(s: string): (r: string)
    ensures CountChar(s, '.') <= 3 ==> r == s
    ensures CountChar(s, '.') > 3 ==> CountChar(r, '.') == 3 && r[|r| - 1] == '.'
    ensures forall c :: c !in s && c != ' ' ==> c !in r
  {
    var sentences := SplitOn(s, '.');
    SplitCount(s, '.');
    if |sentences| > 4 then
      var head := sentences[..3];
      JoinCount(head, ". ", '.');
      CountConcat(Join(head, ". "), ".", '.');
      assert forall c :: c !in s && c != ' ' ==> c !in Join(head, ". ") by {
        forall c | c !in s && c != ' ' ensures c !in Join(head, ". ") {
          SplitOmits(s, '.', c);
          JoinOmits(head, ". ", c);
        }
      }
      Join(head, ". ") + "."
    else s
  }

  /** `'. '.join(sentences[:3]) + '.'`: a text of more than four sentences keeps its first three,
      joined by ". " and closed by a period. Every text is such a join (Text.SplitJoin). */
  lemma TruncateKeepsThree(parts: seq<string>)
    requires |parts| > 4 && forall k :: 0 <= k < |parts| ==> '.' !in parts[k]
    ensures Truncate(Join(parts, ".")) == Join(parts[..3], ". ") + "."
  {
    SplitOnJoin(parts, '.');
  }

  /** No casual phrase holds a line break. */
  lemma CasualOneLine()
    ensures WellFormedReplacements(Replacements)
    ensures forall k :: 0 <= k < |Replacements| ==> '\n' !in Replacements[k].1
  {
  }

  /** `_optimize_for_voice` */
  function OptimizeForVoice(text: string): (r: string)
    ensures IsStripped(r)
    ensures '\n' !in r
    ensures CountChar(r, '.') <= 3
  {
    var cleaned := RemoveResiduals(JoinLines(text), ResidualTags);
    CasualOneLine();
    var casual := ApplyReplacements(cleaned, Replacements);
    assert '\n' !in casual;
    var short := Truncate(casual);
    StripOmits(short, '\n');
    StripCount(short, '.');
    Strip(short)
  }

  lemma {:induction false} SplitOmits(s: string, sep: char, c: char)
    requires c !in s
    ensures forall k :: 0 <= k < |SplitOn(s, sep)| ==> c !in SplitOn(s, sep)[k]
    decreases |s|
  {
    match FindFrom(s, sep, 0)
    case None =>
    case Some(k) =>
      SplitOmits(s[k + 1..], sep, c);
  }

  predicate HtpOnlyText(s: string) {
    forall k :: 0 <= k < |s| ==> s[k] in "htp"
  }

  /** A nonempty text of letters `h`, `t`, `p` is one spoken line. */
  lemma HtpOneLine(s: string)
    requires |s| > 0 && HtpOnlyText(s)
    ensures JoinLines(s) == s
  {
    assert FindFrom(s, '\n', 0).None?;
    assert SplitOn(s, '\n') == [s];
    StripStripped(s);
    assert !IsListItem(s) by {
      forall k | 0 <= k < |ListMarkers| ensures !OccursAt(s, ListMarkers[k], 0) {
        assert s[0] in "htp";
      }
    }
    assert KeepLines([s]) == [s];
  }

  /** The casual substitutions around the removal of `http`. */
  lemma ReplacementsAroundHttp()
    ensures Replacements == Replacements[..14] + ([("http", "")] + Replacements[15..])
    ensures WellFormedReplacements(Replacements[..14])
    ensures WellFormedReplacements([("http", "")] + Replacements[15..])
  {
    CasualOneLine();
  }

  /** Each substitution before `http` needs a letter other than `h`, `t`, `p`... */
  lemma HtpBeforeHttp(s: string)
    requires HtpOnlyText(s)
    ensures WellFormedReplacements(Replacements[..14])
    ensures ApplyReplacements(s, Replacements[..14]) == s
  {
    CasualOneLine();
    ApplyNoop(s, Replacements[..14], "ICIaurioeaFIIs");
  }

  /** ... and so does each one after it. */
  lemma HtpAfterHttp(s: string)
    requires HtpOnlyText(s)
    ensures WellFormedReplacements(Replacements[15..])
    ensures ApplyReplacements(s, Replacements[15..]) == s
  {
    CasualOneLine();
    ApplyNoop(s, Replacements[15..], "wa");
  }

  lemma HtpRemoveHttp(s: string)
    requires HtpOnlyText(s)
    ensures HtpOnlyText(ReplaceAll(s, "http", ""))
  {
    var t := ReplaceAll(s, "http", "");
    forall c | c !in "htp" ensures c !in t {
      ReplaceOmits(s, "http", "", c);
    }
  }

  /** Replacements in three runs: the ones before a given pair, the pair, the ones after it. */
  lemma {:induction false} ApplyAround(s: string, before: seq<(string, string)>, r: (string, string),
                                       after: seq<(string, string)>)
    requires WellFormedReplacements(before) && |r.0| > 0 && WellFormedReplacements(after)
    ensures WellFormedReplacements(before + ([r] + after))
    ensures ApplyReplacements(s, before + ([r] + after))
            == ApplyReplacements(ReplaceAll(ApplyReplacements(s, before), r.0, r.1), after)
  {
    ApplyFirst(ApplyReplacements(s, before), r, after);
    ApplyConcat(s, before, [r] + after);
  }

  /** Of all the casual substitutions, only the removal of `http` can touch such a text. */
  lemma HtpReplacements(s: string)
    requires HtpOnlyText(s)
    ensures WellFormedReplacements(Replacements)
    ensures ApplyReplacements(s, Replacements) == ReplaceAll(s, "http", "")
  {
    ReplacementsAroundHttp();
    HtpBeforeHttp(s);
    ApplyAround(s, Replacements[..14], ("http", ""), Replacements[15..]);
    HtpRemoveHttp(s);
    HtpAfterHttp(ReplaceAll(s, "http", ""));
  }

  /** A line of letters `h`, `t`, `p` alone is spoken as it is, up to the one replacement
      that removes `http`. */
  lemma HtpOnly(s: string)
    requires |s| > 0 && HtpOnlyText(s)
    ensures OptimizeForVoice(s) == ReplaceAll(s, "http", "")
  {
    HtpCleaned(s);
    HtpReplacements(s);
    HtpRemoveHttp(s);
    HtpFinal(ReplaceAll(s, "http", ""));
  }

  lemma HtpCleaned(s: string)
    requires |s| > 0 && HtpOnlyText(s)
    ensures RemoveResiduals(JoinLines(s), ResidualTags) == s
  {
    HtpOneLine(s);
    HtpShape(s);
    ResidualsAbsent(s, ResidualTags);
  }

  lemma HtpShape(t: string)
    requires HtpOnlyText(t)
    ensures '.' !in t && '[' !in t && IsStripped(t)
  {
    if |t| > 0 {
      assert t[0] in "htp" && t[|t| - 1] in "htp";
    }
  }

  lemma HtpFinal(t: string)
    requires HtpOnlyText(t)
    ensures Strip(Truncate(t)) == t
  {
    HtpShape(t);
    CountAbsent(t, '.');
    StripStripped(t);
  }

  lemma {:induction false} ResidualsAbsent(s: string, tags: seq<string>)
    requires '[' !in s && IsStripped(s)
    ensures RemoveResiduals(s, tags) == s
    decreases |tags|
  {
    if |tags| > 0 {
      var p := Residual(tags[0]);
      NoLiteral(p, s);
      StripStripped(s);
      ResidualsAbsent(s, tags[1..]);
    }
  }

  lemma {:induction false} RemoveHttpExample()
    ensures ReplaceAll("hthttptp", "http", "") == "http"
    ensures ReplaceAll("http", "http", "") == ""
  {
    assert ReplaceAll("httptp", "http", "") == "tp";
    assert ReplaceAll("thttptp", "http", "") == "ttp";
  }

  lemma HtpExample(s: string)
    requires s == "hthttptp" || s == "http"
    ensures |s| > 0 && HtpOnlyText(s)
  {
  }

  /** The voice optimiser is not idempotent: removing `http` can bring a new `http` together,
      which the second pass removes. */
  lemma VoiceNotIdempotent(s: string)
    requires s == "hthttptp"
    ensures OptimizeForVoice(s) == "http"
    ensures OptimizeForVoice(OptimizeForVoice(s)) == ""
  {
    RemoveHttpExample();
    HtpExample(s);
    HtpOnly(s);
    var t := OptimizeForVoice(s);
    HtpExample(t);
    HtpOnly(t);
  }
}
