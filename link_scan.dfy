/**
 * The blocked-keyword check on a page's links (pages/api/mupdf/convert-page.ts):
 * a page whose links point at a blocked address is not converted.  The
 * keyword list comes from the edge configuration store; when reading it
 * fails, the check is skipped.
 */
module LinkScan {
  import opened Text

  /** A link of the page: its target URI (None when it has none) and its bounds as text. */
  datatype Link = Link(href: Option<string>, coords: string)

  /** An entry of the configured list; entries that are not strings never match. */
  datatype Keyword = KeywordString(text: string) | NotAString

  /** The configured value under `keywords`: an array, or anything else. */
  datatype KeywordsValue = KeywordArray(items: seq<Keyword>) | NotAnArray

  datatype Verdict = Clean | Blocked(matchedUrl: string, matchedKeyword: string)

  /** The entry is a string that occurs in `href`. */
  predicate Matches(k: Keyword, href: string) {
    k.KeywordString? && Contains(href, k.text)
  }

  /** `keywords.find(k => typeof k === "string" && href.includes(k))`. */
  function FindKeyword(keywords: seq<Keyword>, href: string): (r: Option<string>)
    ensures r.None? <==> forall i | 0 <= i < |keywords| :: !Matches(keywords[i], href)
    ensures r.Some? ==> exists i | 0 <= i < |keywords| ::
      && keywords[i] == KeywordString(r.value)
      && Matches(keywords[i], href)
      && forall j | 0 <= j < i :: !Matches(keywords[j], href)
  {
    if keywords == [] then None
    else if Matches(keywords[0], href) then
      assert keywords[0] == KeywordString(keywords[0].text);
      Some(keywords[0].text)
    else
      var r := FindKeyword(keywords[1..], href);
      assert forall i | 1 <= i < |keywords| :: keywords[i] == keywords[1..][i - 1];
      if r.Some? then
        var i :| 0 <= i < |keywords[1..]| && keywords[1..][i] == KeywordString(r.value)
          && Matches(keywords[1..][i], href) && forall j | 0 <= j < i :: !Matches(keywords[1..][j], href);
        assert forall j | 0 <= j < i + 1 :: !Matches(keywords[j], href) by {
          forall j | 0 <= j < i + 1
            ensures !Matches(keywords[j], href)
          {
            if j > 0 {
              assert keywords[j] == keywords[1..][j - 1];
            }
          }
        }
        assert keywords[i + 1] == keywords[1..][i];
        r
      else
        r
  }

  /**
   * The link blocks the page: it has a non-empty target and the first
   * matching keyword is non-empty (`if (matchedKeyword)`).
   */
  predicate LinkBlocked(link: Link, keywords: seq<Keyword>) {
    Truthy(link.href) && Truthy(FindKeyword(keywords, link.href.value))
  }

  /** The keyword list the scan uses: a non-empty array, when reading it succeeded. */
  predicate ScanApplies(links: seq<Link>, config: Option<KeywordsValue>) {
    |links| > 0 && config.Some? && config.value.KeywordArray? && |config.value.items| > 0
  }

  /**
   * `url` and `keyword` are what the first blocking link of `links` reports:
   * its target and the first keyword that target matches.
   */
  predicate ReportsFirstBlocked(links: seq<Link>, keywords: seq<Keyword>, url: string, keyword: string) {
    exists i | 0 <= i < |links| ::
      && LinkBlocked(links[i], keywords)
      && (forall j | 0 <= j < i :: !LinkBlocked(links[j], keywords))
      && url == links[i].href.value
      && Some(keyword) == FindKeyword(keywords, links[i].href.value)
  }

  /**
   * The scan of the page's links in order: the first blocking link decides,
   * reported with the first keyword it matches.  `config` is None when
   * reading the list threw; the page is then let through.
   */
  method ScanLinks(links: seq<Link>, config: Option<KeywordsValue>) returns (verdict: Verdict)
    ensures verdict.Blocked? <==>
      ScanApplies(links, config) && exists i | 0 <= i < |links| :: LinkBlocked(links[i], config.value.items)
    ensures verdict.Blocked? ==>
      ReportsFirstBlocked(links, config.value.items, verdict.matchedUrl, verdict.matchedKeyword)
  {
    if |links| == 0 || config.None? {
      return Clean;
    }
    var keywords := config.value;
    if !(keywords.KeywordArray? && |keywords.items| > 0) {
      return Clean;
    }
    var i := 0;
    while i < |links|
      invariant 0 <= i <= |links|
      invariant forall j | 0 <= j < i :: !LinkBlocked(links[j], keywords.items)
    {
      var link := links[i];
      if Truthy(link.href) {
        var matchedKeyword := FindKeyword(keywords.items, link.href.value);
        if Truthy(matchedKeyword) {
          return Blocked(link.href.value, matchedKeyword.value);
        }
      }
      i := i + 1;
    }
    return Clean;
  }

  // ----- properties -----

  /**
   * An empty string early in the list masks every later keyword: it is
   * found in every target, and being falsy it blocks nothing.
   */
  lemma EmptyKeywordMasks(keywords: seq<Keyword>, link: Link)
    requires |keywords| > 0 && keywords[0] == KeywordString("")
    ensures !LinkBlocked(link, keywords)
  {
    if link.href.Some? {
      ContainsEmpty(link.href.value);
    }
  }

  /** A keyword occurring in a link's target blocks it unless an earlier entry matches first. */
  lemma FirstKeywordBlocks(keywords: seq<Keyword>, link: Link, i: nat)
    requires Truthy(link.href)
    requires i < |keywords| && keywords[i].KeywordString? && keywords[i].text != ""
    requires Contains(link.href.value, keywords[i].text)
    requires forall j | 0 <= j < i :: !Matches(keywords[j], link.href.value)
    ensures LinkBlocked(link, keywords)
    ensures FindKeyword(keywords, link.href.value) == Some(keywords[i].text)
  {
    var r := FindKeyword(keywords, link.href.value);
    assert !(forall k | 0 <= k < |keywords| :: !Matches(keywords[k], link.href.value));
    var k :| 0 <= k < |keywords| && keywords[k] == KeywordString(r.value)
      && Matches(keywords[k], link.href.value)
      && forall j | 0 <= j < k :: !Matches(keywords[j], link.href.value);
    assert k == i;
  }

  /** Entries that are not strings never change the outcome of the search. */
  lemma {:induction false} NonStringsIgnored(keywords: seq<Keyword>, href: string)
    ensures FindKeyword([NotAString] + keywords, href) == FindKeyword(keywords, href)
  {
    assert ([NotAString] + keywords)[1..] == keywords;
  }

  /** A link without a target, or with an empty one, never blocks. */
  lemma NoTargetNeverBlocks(keywords: seq<Keyword>, link: Link)
    requires link.href.None? || link.href.value == ""
    ensures !LinkBlocked(link, keywords)
  {
  }
}
