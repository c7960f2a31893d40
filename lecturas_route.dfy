/** The extraction of the daily readings page's body (src/app/api/lecturas/route.ts):
    `html.match(/<body[^>]*>([\s\S]*?)<\/body>/i)`, its capture group when
    it matches and the whole page otherwise. Fetching the page is not part
    of this model; the page text is the input.

    The search is written out the way the regular-expression engine runs
    it: at each position from the left, `<body` in any letter case, the
    first `>` after it, then the first `</body>` in any case after that;
    the first position where all three succeed wins. With the `i` flag and
    without the `u` flag, no character beyond ASCII folds onto one of the
    letters of `body`, so ASCII lower-casing is exact here. */
module LecturasRoute {
  import opened Wrappers
  import opened Text

  /** `<body` starts at `p`, in any case. */
  predicate OpenAt(html: string, p: int) {
    0 <= p && p + 5 <= |html| && ToLower(html[p..p + 5]) == "<body"
  }

  /** `</body>` starts at `k`, in any case. */
  predicate CloseAt(html: string, k: int) {
    0 <= k && k + 7 <= |html| && ToLower(html[k..k + 7]) == "</body>"
  }

  /** The first `>` at or after `from`. */
  function NextGt(html: string, from: nat): (r: Option<nat>)
    ensures r.Some? ==> from <= r.value < |html| && html[r.value] == '>'
    ensures forall j :: from <= j < |html| && (r.None? || j < r.value) ==> html[j] != '>'
    decreases |html| - from
  {
    if from >= |html| then None
    else if html[from] == '>' then Some(from)
    else NextGt(html, from + 1)
  }

  /** The first `</body>` at or after `from`. */
  function NextClose(html: string, from: nat): (r: Option<nat>)
    ensures r.Some? ==> from <= r.value && CloseAt(html, r.value)
    ensures forall k :: from <= k && (r.None? || k < r.value) ==> !CloseAt(html, k)
    decreases |html| - from
  {
    if from + 7 > |html| then None
    else if CloseAt(html, from) then Some(from)
    else NextClose(html, from + 1)
  }

  /** The regular expression matches at `p` with its capture group
      `html[s..e]`: `<body` at `p`, a tag that ends at the first `>`, and a
      capture that ends at the first `</body>` after it. */
  predicate MatchesAt(html: string, p: int, s: int, e: int) {
    && OpenAt(html, p)
    && CloseAt(html, e)
    && p + 5 < s <= e
    && html[s - 1] == '>'
    && (forall j :: p + 5 <= j < s - 1 ==> html[j] != '>')
    && (forall k :: s <= k < e ==> !CloseAt(html, k))
  }

  ghost predicate MatchesSomewhereAt(html: string, p: int) {
    exists s, e :: MatchesAt(html, p, s, e)
  }

  /** The search succeeds at `p`: `<body` there, a `>` after it and a
      `</body>` after that. */
  predicate FoundAt(html: string, p: nat) {
    OpenAt(html, p) && NextGt(html, p + 5).Some? && NextClose(html, NextGt(html, p + 5).value + 1).Some?
  }

  /** The leftmost match at or after `p`: the bounds of its capture group. */
  function MatchFrom(html: string, p: nat): (r: Option<(nat, nat)>)
    ensures r.Some? ==> r.value.0 <= r.value.1 <= |html|
    decreases |html| - p
  {
    if p >= |html| then None
    else if FoundAt(html, p) then
      var g := NextGt(html, p + 5).value;
      Some((g + 1, NextClose(html, g + 1).value))
    else MatchFrom(html, p + 1)
  }

  /** The route's `body`: the capture group of the first match, else the page. */
  function ExtractBody(html: string): string {
    match MatchFrom(html, 0)
    case Some((s, e)) => html[s..e]
    case None => html
  }

  /** A match at `p` has its tag end at the first `>` and its capture end
      at the first `</body>` after it: the search finds that very match. */
  lemma MatchDetermined(html: string, p: nat, s: int, e: int)
    requires MatchesAt(html, p, s, e)
    ensures NextGt(html, p + 5) == Some(s - 1)
    ensures NextClose(html, s) == Some(e)
  {
    var g := NextGt(html, p + 5);
    assert g.Some? && g.value <= s - 1;
    var c := NextClose(html, s);
    assert c.Some? && c.value <= e;
  }

  lemma FoundMatches(html: string, p: nat)
    requires FoundAt(html, p)
    ensures var g := NextGt(html, p + 5).value;
      MatchesAt(html, p, g + 1, NextClose(html, g + 1).value)
  {
  }

  /** The search succeeds at `p` exactly when the regular expression
      matches there. */
  lemma MatchHere(html: string, p: nat)
    ensures MatchesSomewhereAt(html, p) <==> FoundAt(html, p)
  {
    if MatchesSomewhereAt(html, p) {
      var s, e :| MatchesAt(html, p, s, e);
      MatchDetermined(html, p, s, e);
    }
    if FoundAt(html, p) {
      FoundMatches(html, p);
    }
  }

  /** No match starts in `[a, b)`. */
  ghost predicate NoMatchBetween(html: string, a: int, b: int) {
    forall q :: a <= q < b ==> !MatchesSomewhereAt(html, q)
  }

  /** No match starts at or after `a`. */
  ghost predicate NoMatchFrom(html: string, a: int) {
    forall q :: a <= q ==> !MatchesSomewhereAt(html, q)
  }

  /** `html[s..e]` is the capture of the leftmost match at or after `p0`. */
  ghost predicate LeftmostFrom(html: string, p0: int, s: int, e: int) {
    exists p :: p0 <= p && MatchesAt(html, p, s, e) && NoMatchBetween(html, p0, p)
  }

  lemma NoMatchPastEnd(html: string, p0: int)
    requires p0 >= |html|
    ensures NoMatchFrom(html, p0)
  {
    forall q | p0 <= q
      ensures !MatchesSomewhereAt(html, q)
    {
      assert !OpenAt(html, q);
    }
  }

  lemma LeftmostStep(html: string, p0: int, s: int, e: int)
    requires !MatchesSomewhereAt(html, p0) && LeftmostFrom(html, p0 + 1, s, e)
    ensures LeftmostFrom(html, p0, s, e)
  {
    var p :| p0 + 1 <= p && MatchesAt(html, p, s, e) && NoMatchBetween(html, p0 + 1, p);
    assert NoMatchBetween(html, p0, p);
  }

  lemma NoMatchStep(html: string, p0: int)
    requires !MatchesSomewhereAt(html, p0) && NoMatchFrom(html, p0 + 1)
    ensures NoMatchFrom(html, p0)
  {
  }

  /** `MatchFrom` finds the leftmost match at or after `p0`, with the
      capture the regular expression gives it, or reports that there is none. */
  lemma {:induction false} MatchFromIsLeftmost(html: string, p0: nat)
    ensures MatchFrom(html, p0).Some? ==>
      LeftmostFrom(html, p0, MatchFrom(html, p0).value.0, MatchFrom(html, p0).value.1)
    ensures MatchFrom(html, p0).None? ==> NoMatchFrom(html, p0)
    decreases |html| - p0
  {
    if p0 >= |html| {
      NoMatchPastEnd(html, p0);
    } else if FoundAt(html, p0) {
      MatchHere(html, p0);
      var g := NextGt(html, p0 + 5).value;
      assert MatchesAt(html, p0, g + 1, NextClose(html, g + 1).value);
      assert NoMatchBetween(html, p0, p0);
    } else {
      MatchHere(html, p0);
      MatchFromIsLeftmost(html, p0 + 1);
      var r := MatchFrom(html, p0 + 1);
      if r.Some? {
        LeftmostStep(html, p0, r.value.0, r.value.1);
      } else {
        NoMatchStep(html, p0);
      }
    }
  }

  /** The result is always a piece of the page: the capture of the leftmost
      match, or the whole page when nothing matches. */
  lemma ExtractBodySpec(html: string)
    ensures Contains(html, ExtractBody(html))
    ensures NoMatchFrom(html, 0) ==> ExtractBody(html) == html
    ensures MatchFrom(html, 0).Some? ==>
      var (s, e) := MatchFrom(html, 0).value;
      LeftmostFrom(html, 0, s, e) && ExtractBody(html) == html[s..e]
  {
    MatchFromIsLeftmost(html, 0);
    var r := MatchFrom(html, 0);
    if r.Some? {
      var (s, e) := r.value;
      var p :| 0 <= p && MatchesAt(html, p, s, e) && NoMatchBetween(html, 0, p);
      MatchHere(html, p);
      assert MatchesSomewhereAt(html, p);
      assert OccursAt(html, html[s..e], s);
    } else {
      assert OccursAt(html, html, 0);
    }
  }

  /** No `</body>` begins inside `t`, in any case. */
  predicate NoClose(t: string) {
    forall k :: 0 <= k < |t| ==> !CloseAt(t, k)
  }

  /** Two leftmost matches are the same match. */
  lemma LeftmostUnique(html: string, p: nat, s: int, e: int, p': nat, s': int, e': int)
    requires MatchesAt(html, p, s, e) && NoMatchBetween(html, 0, p)
    requires MatchesAt(html, p', s', e') && NoMatchBetween(html, 0, p')
    ensures s == s' && e == e'
  {
    assert MatchesSomewhereAt(html, p) && MatchesSomewhereAt(html, p');
    assert p == p';
    MatchDetermined(html, p, s, e);
    MatchDetermined(html, p, s', e');
  }

  /** Conversely, the leftmost match is the one `MatchFrom` reports. */
  lemma LeftmostIsFound(html: string, p: nat, s: nat, e: nat)
    requires MatchesAt(html, p, s, e) && NoMatchBetween(html, 0, p)
    ensures MatchFrom(html, 0) == Some((s, e))
    ensures ExtractBody(html) == html[s..e]
  {
    MatchFromIsLeftmost(html, 0);
    assert MatchesSomewhereAt(html, p);
    var r := MatchFrom(html, 0);
    var p' :| 0 <= p' && MatchesAt(html, p', r.value.0, r.value.1) && NoMatchBetween(html, 0, p');
    LeftmostUnique(html, p, s, e, p', r.value.0, r.value.1);
  }

  /** A page whose first `<` opens the body tag, whose tag has no `>` in
      its attributes, and whose content holds no `</body>`: the route
      returns exactly the content. */
  lemma BodyRoundTrip(pre: string, attrs: string, content: string, post: string)
    requires '<' !in pre && '>' !in attrs && NoClose(content)
    ensures ExtractBody(pre + "<body" + attrs + ">" + content + "</body>" + post) == content
  {
    var html := pre + "<body" + attrs + ">" + content + "</body>" + post;
    var p := |pre|;
    var s := p + 5 + |attrs| + 1;
    var e := s + |content|;
    assert html[s..e] == content;
    RoundTripMatches(pre, attrs, content, post);
    LeftmostIsFound(html, p, s, e);
  }

  lemma RoundTripMatches(pre: string, attrs: string, content: string, post: string)
    requires '<' !in pre && '>' !in attrs && NoClose(content)
    ensures var html := pre + "<body" + attrs + ">" + content + "</body>" + post;
      var s := |pre| + 5 + |attrs| + 1;
      MatchesAt(html, |pre|, s, s + |content|) && NoMatchBetween(html, 0, |pre|)
  {
    var html := pre + "<body" + attrs + ">" + content + "</body>" + post;
    RoundTripTags(html, pre, attrs, content, post);
    RoundTripCapture(html, pre, attrs, content, post);
    RoundTripNothingBefore(html, pre, attrs, content, post);
  }

  /** The opening tag, its end and the closing tag sit where they were put. */
  lemma RoundTripTags(html: string, pre: string, attrs: string, content: string, post: string)
    requires '>' !in attrs
    requires html == pre + "<body" + attrs + ">" + content + "</body>" + post
    ensures var p := |pre|; var s := p + 5 + |attrs| + 1;
      && OpenAt(html, p) && html[s - 1] == '>' && CloseAt(html, s + |content|)
      && forall j :: p + 5 <= j < s - 1 ==> html[j] != '>'
  {
    var p := |pre|;
    var s := p + 5 + |attrs| + 1;
    var e := s + |content|;
    assert html[p..p + 5] == "<body";
    assert html[s - 1] == '>';
    assert html[e..e + 7] == "</body>";
    forall j | p + 5 <= j < s - 1
      ensures html[j] != '>'
    {
      assert html[j] == attrs[j - p - 5];
    }
  }

  /** No closing tag starts inside the content. */
  lemma RoundTripCapture(html: string, pre: string, attrs: string, content: string, post: string)
    requires NoClose(content)
    requires html == pre + "<body" + attrs + ">" + content + "</body>" + post
    ensures var s := |pre| + 5 + |attrs| + 1;
      forall k :: s <= k < s + |content| ==> !CloseAt(html, k)
  {
    var s := |pre| + 5 + |attrs| + 1;
    var e := s + |content|;
    assert html[e] == '<';
    forall k | s <= k < e
      ensures !CloseAt(html, k)
    {
      if k + 7 <= e {
        assert html[k..k + 7] == content[k - s..k - s + 7];
        assert !CloseAt(content, k - s);
      } else if k + 7 <= |html| {
        var off := e - k;
        assert html[k..k + 7][off] == html[e];
        assert ToLower(html[k..k + 7])[off] == '<';
      }
    }
  }

  /** No match starts before the body tag, for no `<` comes before it. */
  lemma RoundTripNothingBefore(html: string, pre: string, attrs: string, content: string, post: string)
    requires '<' !in pre
    requires html == pre + "<body" + attrs + ">" + content + "</body>" + post
    ensures NoMatchBetween(html, 0, |pre|)
  {
    forall q | 0 <= q < |pre|
      ensures !MatchesSomewhereAt(html, q)
    {
      assert html[q] == pre[q];
      if q + 5 <= |html| {
        assert ToLower(html[q..q + 5])[0] != '<';
      }
    }
  }
}
