/** Search-result link filtering (`extract_links`): keep Amazon product-page URLs, cut each at
    `?` and at `/ref=`, drop duplicates, keep at most five. */
module Links {
  import opened Wrappers
  import opened Text

  /** One element of `data.web.results`; `url` is `''` when the key is absent. */
  datatype SearchItem = SearchItem(url: string)

  /** `webResults` is `None` when any of `data`, `web` or `results` is absent. */
  datatype SearchPayload = SearchPayload(webResults: Option<seq<SearchItem>>)

  const MaxLinks := 5

  function ResultItems(p: SearchPayload): seq<SearchItem> {
    match p.webResults
    case None => []
    case Some(items) => items
  }

  /** The filter of the loop: an Amazon product detail page that is not a search or browse page. */
  predicate IsProductPage(url: string) {
    Contains(url, "amazon.com") && (Contains(url, "/dp/") || Contains(url, "/gp/product/"))
    && !Contains(url, "/s?") && !Contains(url, "/b?")
  }

  /** `url.split("?")[0].split("/ref=")[0]` */
  function CleanUrl(url: string): (r: string)
    ensures |r| <= |url| && r == url[..|r|]
    ensures '?' !in r
    ensures !Contains(r, "/ref=")
  {
    var q := BeforeFirst(url, "?");
    var r := BeforeFirst(q, "/ref=");
    assert '?' !in q by {
      forall t | 0 <= t < |q| ensures q[t] != '?' {
        assert !OccursAt(q, "?", t);
        assert q[t..t + 1] == [q[t]];
      }
    }
    assert r == q[..|r|];
    ContainsIff(r, "/ref=");
    r
  }

  /** The `amazon_links` list the loop builds, duplicates included. */
  function AmazonLinks(items: seq<SearchItem>): (r: seq<string>)
    ensures forall k :: 0 <= k < |r| ==> '?' !in r[k] && !Contains(r[k], "/ref=")
    decreases |items|
  {
    if |items| == 0 then []
    else
      var n := |items| - 1;
      AmazonLinks(items[..n]) + (if IsProductPage(items[n].url) then [CleanUrl(items[n].url)] else [])
  }

  /** The distinct candidates `set(amazon_links)`. */
  function Candidates(p: SearchPayload): set<string> {
    set l | l in AmazonLinks(ResultItems(p))
  }

  /** Every candidate is a prefix of a product-page URL of the results. */
  lemma {:induction false} CandidateOrigin(items: seq<SearchItem>, l: string)
    requires l in AmazonLinks(items)
    ensures exists k :: 0 <= k < |items| && IsProductPage(items[k].url)
                        && |l| <= |items[k].url| && l == items[k].url[..|l|]
    decreases |items|
  {
    var n := |items| - 1;
    if l in AmazonLinks(items[..n]) {
      CandidateOrigin(items[..n], l);
      var k :| 0 <= k < n && IsProductPage(items[..n][k].url)
               && |l| <= |items[..n][k].url| && l == items[..n][k].url[..|l|];
      assert items[..n][k] == items[k];
    } else {
      assert IsProductPage(items[n].url) && l == CleanUrl(items[n].url);
    }
  }

  /** A URL of the results that passes the filter always contributes its cleaned form. */
  lemma {:induction false} CandidateComplete(items: seq<SearchItem>, k: nat)
    requires k < |items| && IsProductPage(items[k].url)
    ensures CleanUrl(items[k].url) in AmazonLinks(items)
    decreases |items|
  {
    var n := |items| - 1;
    if k < n {
      assert items[..n][k] == items[k];
      CandidateComplete(items[..n], k);
      AmazonLinksPrefix(items);
    } else {
      assert k == n;
      var l := CleanUrl(items[n].url);
      assert AmazonLinks(items) == AmazonLinks(items[..n]) + [l];
      assert AmazonLinks(items)[|AmazonLinks(items)| - 1] == l;
    }
  }

  /** The links of a prefix of the results come first. */
  lemma AmazonLinksPrefix(items: seq<SearchItem>)
    requires |items| > 0
    ensures forall l :: l in AmazonLinks(items[..|items| - 1]) ==> l in AmazonLinks(items)
  {
    var n := |items| - 1;
    var tail := if IsProductPage(items[n].url) then [CleanUrl(items[n].url)] else [];
    assert AmazonLinks(items) == AmazonLinks(items[..n]) + tail;
  }

  /** What `list(set(amazon_links))[:5]` may be: as many distinct candidates as there are, up
      to five, in no particular order. */
  predicate Picked(p: SearchPayload, links: seq<string>) {
    |links| == (if |Candidates(p)| < MaxLinks then |Candidates(p)| else MaxLinks)
    && (forall k :: 0 <= k < |links| ==> links[k] in Candidates(p))
    && forall j, k :: 0 <= j < k < |links| ==> links[j] != links[k]
  }

  /** `list(set(amazon_links))[:5]`. The order of a Python set is unspecified, so the method
      picks the elements in an arbitrary order: callers may rely only on what the contract says. */
  method ExtractLinks(p: SearchPayload) returns (links: seq<string>)
    ensures Picked(p, links)
  {
    var items := ResultItems(p);
    var amazonLinks: seq<string> := [];
    for i := 0 to |items|
      invariant amazonLinks == AmazonLinks(items[..i])
    {
      assert items[..i + 1][..i] == items[..i];
      var url := items[i].url;
      if IsProductPage(url) {
        amazonLinks := amazonLinks + [CleanUrl(url)];
      }
    }
    assert items[..|items|] == items;
    var pool := set l | l in amazonLinks;
    assert pool == Candidates(p);
    links := [];
    while |links| < MaxLinks && pool != {}
      invariant pool <= Candidates(p)
      invariant |links| + |pool| == |Candidates(p)|
      invariant |links| <= MaxLinks
      invariant forall k :: 0 <= k < |links| ==> links[k] in Candidates(p) && links[k] !in pool
      invariant forall j, k :: 0 <= j < k < |links| ==> links[j] != links[k]
      decreases |pool|
    {
      var l :| l in pool;
      links := links + [l];
      pool := pool - {l};
    }
  }
}
