/**
 * The document id that convert-page reads off the file URL to choose the
 * upload folder: the first group of `url.match(/(doc_[^\/]+)\//)`, that is
 * the leftmost `doc_` followed by one or more characters other than `/` and
 * then a `/`.
 */
module DocId {
  import opened Text

  const DocPrefix: string := "doc_"

  /** The length of the run of characters other than `/` in `s` from position `k`. */
  function SlashFreeRun(s: string, k: nat): (n: nat)
    requires k <= |s|
    ensures k + n <= |s|
    ensures forall j | k <= j < k + n :: s[j] != '/'
    ensures k + n == |s| || s[k + n] == '/'
    decreases |s| - k
  {
    if k == |s| || s[k] == '/' then 0 else 1 + SlashFreeRun(s, k + 1)
  }

  /**
   * The pattern matches at `i`: `doc_`, then a non-empty run without `/`
   * (greedy, so it runs up to the next `/`), then that `/`.
   */
  predicate MatchAt(url: string, i: nat) {
    && OccursAt(url, DocPrefix, i)
    && SlashFreeRun(url, i + |DocPrefix|) > 0
    && i + |DocPrefix| + SlashFreeRun(url, i + |DocPrefix|) < |url|
  }

  /** The captured group of a match at `i`. */
  function GroupAt(url: string, i: nat): string
    requires MatchAt(url, i)
  {
    url[i..i + |DocPrefix| + SlashFreeRun(url, i + |DocPrefix|)]
  }

  /** The leftmost match at or after `i`. */
  function MatchFrom(url: string, i: nat): (r: Option<nat>)
    requires i <= |url|
    ensures r.Some? ==> i <= r.value && MatchAt(url, r.value)
    ensures r.Some? ==> forall j | i <= j < r.value :: !MatchAt(url, j)
    ensures r.None? ==> forall j | i <= j <= |url| :: !MatchAt(url, j)
    decreases |url| - i
  {
    if MatchAt(url, i) then Some(i)
    else if i == |url| then None
    else MatchFrom(url, i + 1)
  }

  /**
   * The document id of a URL: the leftmost match's group, or None when the
   * pattern does not match anywhere.
   */
  function ExtractDocId(url: string): (id: Option<string>)
    ensures id.None? <==> forall i | 0 <= i <= |url| :: !MatchAt(url, i)
    ensures id.Some? ==> exists i | 0 <= i <= |url| ::
      && MatchAt(url, i)
      && (forall j | 0 <= j < i :: !MatchAt(url, j))
      && id.value == GroupAt(url, i)
    ensures id.Some? ==> StartsWith(id.value, DocPrefix) && |id.value| > |DocPrefix| && '/' !in id.value
  {
    match MatchFrom(url, 0)
    case None => None
    case Some(i) =>
      GroupShape(url, i);
      Some(GroupAt(url, i))
  }

  /** A captured group is `doc_` followed by a non-empty run without `/`. */
  lemma GroupShape(url: string, i: nat)
    requires MatchAt(url, i)
    ensures var g := GroupAt(url, i);
      StartsWith(g, DocPrefix) && |g| > |DocPrefix| && '/' !in g
  {
    var n := SlashFreeRun(url, i + |DocPrefix|);
    var g := GroupAt(url, i);
    assert |g| == |DocPrefix| + n;
    assert g[..|DocPrefix|] == url[i..i + |DocPrefix|];
    forall j | |DocPrefix| <= j < |g|
      ensures g[j] != '/'
    {
      assert g[j] == url[i + j];
    }
  }

  // ----- properties -----

  /**
   * A URL whose text before the first `doc_` has no underscore, and whose id
   * segment is followed by `/`, yields that segment.
   */
  lemma ExtractAfterPlainPrefix(pre: string, id: string, rest: string)
    requires '_' !in pre
    requires id != "" && '/' !in id
    ensures ExtractDocId(pre + DocPrefix + id + "/" + rest) == Some(DocPrefix + id)
  {
    var url := pre + DocPrefix + id + "/" + rest;
    NoEarlierMatch(pre, DocPrefix + id + "/" + rest);
    assert url == pre + (DocPrefix + id + "/" + rest);
    MatchAfterPrefix(pre, id, rest);
    LeftmostMatchDecides(url, |pre|);
  }

  /** No match starts inside text without underscores that precedes a `doc_`. */
  lemma NoEarlierMatch(pre: string, tail: string)
    requires '_' !in pre
    requires StartsWith(tail, DocPrefix)
    ensures forall j | 0 <= j < |pre| :: !MatchAt(pre + tail, j)
  {
    forall j | 0 <= j < |pre|
      ensures !MatchAt(pre + tail, j)
    {
      NoMatchInPlainPrefix(pre, tail, j);
    }
  }

  /** The pattern matches right after the prefix, capturing `doc_<id>`. */
  lemma MatchAfterPrefix(pre: string, id: string, rest: string)
    requires id != "" && '/' !in id
    ensures var url := pre + DocPrefix + id + "/" + rest;
      MatchAt(url, |pre|) && GroupAt(url, |pre|) == DocPrefix + id
  {
    var url := pre + DocPrefix + id + "/" + rest;
    var i := |pre|;
    assert url[i..i + 4] == DocPrefix;
    forall j | i + 4 <= j < i + 4 + |id|
      ensures url[j] != '/'
    {
      assert url[j] == id[j - i - 4];
    }
    assert url[i + 4 + |id|] == '/';
    RunUpToSlash(url, i + 4, |id|);
    assert url[i..i + 4 + |id|] == DocPrefix + id;
  }

  /** The id is the group of the leftmost match. */
  lemma LeftmostMatchDecides(url: string, i: nat)
    requires MatchAt(url, i)
    requires forall j | 0 <= j < i :: !MatchAt(url, j)
    ensures ExtractDocId(url) == Some(GroupAt(url, i))
  {
    var r := ExtractDocId(url);
    var i' :| 0 <= i' <= |url| && MatchAt(url, i') && (forall j | 0 <= j < i' :: !MatchAt(url, j)) && r.value == GroupAt(url, i');
    assert i' == i;
  }

  /** Before a `doc_` that follows text without underscores, `doc_` does not occur. */
  lemma NoMatchInPlainPrefix(pre: string, tail: string, j: nat)
    requires '_' !in pre && j < |pre|
    requires StartsWith(tail, DocPrefix)
    ensures !OccursAt(pre + tail, DocPrefix, j)
  {
    var url := pre + tail;
    assert url[j + 3] != '_' by {
      if j + 3 < |pre| {
        assert url[j + 3] == pre[j + 3];
      } else {
        assert url[j + 3] == tail[j + 3 - |pre|] == DocPrefix[j + 3 - |pre|];
      }
    }
    assert url[j..j + 4][3] == url[j + 3];
  }

  /** The run from `k` is exactly `n` long when `n` characters without `/` are followed by `/`. */
  lemma RunUpToSlash(s: string, k: nat, n: nat)
    requires k + n < |s|
    requires forall j | k <= j < k + n :: s[j] != '/'
    requires s[k + n] == '/'
    ensures SlashFreeRun(s, k) == n
  {
  }

  /** A URL whose `doc_` segment has no `/` after it there has no document id from that segment on. */
  lemma NoTrailingSlashNoId(pre: string, id: string)
    requires '/' !in id
    ensures forall i | |pre| <= i <= |pre + DocPrefix + id| :: !MatchAt(pre + DocPrefix + id, i)
  {
    var url := pre + DocPrefix + id;
    forall i | |pre| <= i <= |url| && OccursAt(url, DocPrefix, i)
      ensures !MatchAt(url, i)
    {
      var k := i + |DocPrefix|;
      assert forall j | k <= j < |url| :: url[j] == id[j - |pre| - |DocPrefix|];
    }
  }
}
