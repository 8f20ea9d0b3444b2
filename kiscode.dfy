/**
 * Identifier discovery: the search-result page's first "more info" anchor
 * carries an href; the company code is what `re.search(r'kiscode=([A-Za-z0-9]+)', href)`
 * captures in its first group.
 */
module Kiscode {
  import opened Wrappers

  /** The literal part of the pattern. */
  const Key: string := "kiscode="

  /** The character class `[A-Za-z0-9]`. */
  predicate IsAlnum(c: char) {
    ('A' <= c <= 'Z') || ('a' <= c <= 'z') || ('0' <= c <= '9')
  }

  predicate AllAlnum(s: string) {
    forall i :: 0 <= i < |s| ==> IsAlnum(s[i])
  }

  /** `Key` occurs in `s` at index `i`. */
  predicate KeyAt(s: string, i: int) {
    0 <= i && i + |Key| <= |s| && s[i..i + |Key|] == Key
  }

  /** Python's `'kiscode=' in s`. */
  predicate ContainsKey(s: string) {
    exists i | 0 <= i <= |s| - |Key| :: KeyAt(s, i)
  }

  /** The pattern can match at `i`: `Key`, then at least one alphanumeric. */
  predicate MatchesAt(s: string, i: int) {
    KeyAt(s, i) && i + |Key| < |s| && IsAlnum(s[i + |Key|])
  }

  /** `e` ends the maximal alphanumeric run of `s` that starts at `j`. */
  predicate RunEndsAt(s: string, j: int, e: int) {
    0 <= j <= e <= |s| && AllAlnum(s[j..e]) && (e == |s| || !IsAlnum(s[e]))
  }

  /** A match object: where the match starts and what group 1 captured. */
  datatype Match = Match(start: nat, group1: string)

  /**
   * What `re.search` returns for this pattern: the leftmost position where it
   * matches, with the greedy `+` capturing the whole alphanumeric run.
   */
  predicate IsLeftmostMatch(s: string, m: Match) {
    && MatchesAt(s, m.start)
    && (forall j :: 0 <= j < m.start ==> !MatchesAt(s, j))
    && RunEndsAt(s, m.start + |Key|, m.start + |Key| + |m.group1|)
    && s[m.start + |Key|..m.start + |Key| + |m.group1|] == m.group1
  }

  /** The scan of `re.search`: the first index at or after `from` where the pattern matches. */
  function FirstMatch(s: string, from: nat): (r: Option<nat>)
    decreases |s| - from
    ensures r.Some? ==> from <= r.value && MatchesAt(s, r.value)
    ensures r.Some? ==> forall j :: from <= j < r.value ==> !MatchesAt(s, j)
    ensures r.None? ==> forall j :: from <= j ==> !MatchesAt(s, j)
  {
    if |s| <= from + |Key| then None
    else if MatchesAt(s, from) then Some(from)
    else FirstMatch(s, from + 1)
  }

  /** The greedy `[A-Za-z0-9]+`: how far the alphanumeric run starting at `j` extends. */
  function RunEnd(s: string, j: nat): (e: nat)
    requires j <= |s|
    decreases |s| - j
    ensures RunEndsAt(s, j, e)
  {
    if j < |s| && IsAlnum(s[j]) then
      var e := RunEnd(s, j + 1);
      assert s[j..e] == [s[j]] + s[j + 1..e];
      e
    else j
  }

  /** `re.search(r'kiscode=([A-Za-z0-9]+)', href)`. */
  function Search(href: string): (r: Option<Match>)
    ensures r.Some? ==> IsLeftmostMatch(href, r.value)
    ensures r.None? <==> forall i :: !MatchesAt(href, i)
    ensures r.Some? ==> |r.value.group1| > 0 && AllAlnum(r.value.group1)
  {
    match FirstMatch(href, 0)
    case None => None
    case Some(i) =>
      var e := RunEnd(href, i + |Key|);
      Some(Match(i, href[i + |Key|..e]))
  }

  /** An alphanumeric run has only one end. */
  lemma RunEndUnique(s: string, j: int, e1: int, e2: int)
    requires RunEndsAt(s, j, e1) && RunEndsAt(s, j, e2)
    ensures e1 == e2
  {
    assert forall k :: j <= k < e1 ==> s[j..e1][k - j] == s[k];
    assert forall k :: j <= k < e2 ==> s[j..e2][k - j] == s[k];
  }

  /** The two leftmost-match conditions pin the match down: there is only one. */
  lemma LeftmostMatchUnique(s: string, m1: Match, m2: Match)
    requires IsLeftmostMatch(s, m1) && IsLeftmostMatch(s, m2)
    ensures m1 == m2
  {
    var j := m1.start + |Key|;
    RunEndUnique(s, j, j + |m1.group1|, j + |m2.group1|);
  }

  /** The page fetched for a search query, or the transport failure that prevented it. */
  datatype SearchResponse =
    | SearchRequestFailed
      /** `moreInfoHref`: the href of the first `<a class="info_more">` that has one. */
    | SearchPage(moreInfoHref: Option<string>)

  /** A resolved company: its code and the link it was read from. */
  datatype Lookup = Lookup(kiscode: string, infoUrl: string)

  /** `find_kiscode_from_naver_search` once its request has been answered. */
  function FindKiscode(response: SearchResponse): (r: Option<Lookup>)
    ensures r.Some? ==> response.SearchPage? && response.moreInfoHref == Some(r.value.infoUrl)
    ensures r.Some? ==> |r.value.kiscode| > 0 && AllAlnum(r.value.kiscode)
  {
    match response
    case SearchRequestFailed => None
    case SearchPage(link) =>
      if link.Some? && ContainsKey(link.value) then
        match Search(link.value)
        case Some(m) => Some(Lookup(m.group1, link.value))
        case None => None
      else None
  }

  /**
   * A code is found exactly when the request succeeded, the page has a "more info"
   * link and the pattern matches somewhere in its href; the code is then group 1
   * of the leftmost match. A failed request, a missing link or an href without a
   * match all give None.
   */
  lemma FindKiscodeMatchesPattern(response: SearchResponse)
    ensures FindKiscode(response).Some? <==>
              && response.SearchPage?
              && response.moreInfoHref.Some?
              && exists i :: MatchesAt(response.moreInfoHref.value, i)
    ensures FindKiscode(response).Some? ==>
              exists start :: IsLeftmostMatch(response.moreInfoHref.value, Match(start, FindKiscode(response).value.kiscode))
  {
    if response.SearchPage? && response.moreInfoHref.Some? {
      var href := response.moreInfoHref.value;
      if m :| MatchesAt(href, m) {
        GuardImpliedByMatch(href, m);
      }
      if FindKiscode(response).Some? {
        var found := Search(href).value;
        assert IsLeftmostMatch(href, Match(found.start, FindKiscode(response).value.kiscode));
      }
    }
  }

  /** The `'kiscode=' in href` guard never rejects an href the pattern matches. */
  lemma GuardImpliedByMatch(href: string, i: int)
    requires MatchesAt(href, i)
    ensures ContainsKey(href)
  {
    assert 0 <= i <= |href| - |Key| && KeyAt(href, i);
  }

  /**
   * An href built as `prefix + "kiscode=" + code + rest`, with an alphanumeric
   * code that `rest` does not extend and no earlier match, yields exactly `code`
   * and the href itself.
   */
  lemma {:induction false} CodeAfterKeyIsFound(prefix: string, code: string, rest: string)
    requires |code| > 0 && AllAlnum(code)
    requires rest == [] || !IsAlnum(rest[0])
    requires forall j :: 0 <= j < |prefix| ==> !MatchesAt(prefix + Key + code + rest, j)
    ensures FindKiscode(SearchPage(Some(prefix + Key + code + rest)))
            == Some(Lookup(code, prefix + Key + code + rest))
  {
    var href := prefix + Key + code + rest;
    var j := |prefix| + |Key|;
    assert href[|prefix|..j] == Key;
    assert href[j..j + |code|] == code;
    assert href[j] == code[0];
    var m := Match(|prefix|, code);
    assert j + |code| < |href| ==> href[j + |code|] == rest[0];
    assert IsLeftmostMatch(href, m);
    LeftmostMatchUnique(href, m, Search(href).value);
  }
}
