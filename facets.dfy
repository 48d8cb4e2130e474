/**
 * `getFacetsFromString` of main.go: three passes over the post text (links,
 * mentions, tags) that append byte-indexed facets to one list.
 *
 * The link and mention regexps are library code; their matches are inputs
 * (`links`, `mentions`) that satisfy what `FindAllStringIndex` guarantees.
 * The tag regexp `#(\S*)` is modelled concretely by `TagMatches`.
 */
module Facets {
  import opened Wrappers
  import opened ByteText

  type Did = string

  /** A `[start, end)` byte interval, as in one `FindAllStringIndex` pair. */
  datatype Span = Span(start: int, end: int)

  predicate InText(s: Bytes, m: Span) {
    0 <= m.start < m.end <= |s|
  }

  predicate AllInText(s: Bytes, ms: seq<Span>) {
    forall k :: 0 <= k < |ms| ==> InText(s, ms[k])
  }

  /** Matches are non-empty, inside the text, increasing and non-overlapping. */
  predicate WellFormedMatches(s: Bytes, ms: seq<Span>) {
    AllInText(s, ms) &&
    forall k, l :: 0 <= k < l < |ms| ==> ms[k].end <= ms[l].start
  }

  /** Mention matches in addition begin with `@`. */
  predicate MentionMatches(s: Bytes, ms: seq<Span>) {
    WellFormedMatches(s, ms) &&
    forall k :: 0 <= k < |ms| ==> s[ms[k].start] == AT
  }

  /** The one feature an extracted `RichtextFacet` carries. */
  datatype Feature = Link(uri: Bytes) | Mention(did: Did) | Tag(tag: Bytes)

  /** `RichtextFacet` with its `ByteSlice` index and its single feature. */
  datatype Facet = Facet(byteStart: int, byteEnd: int, feature: Feature)

  /** Facets appear left to right and do not overlap. */
  predicate LeftToRight(fs: seq<Facet>) {
    forall a, b :: 0 <= a < b < |fs| ==> fs[a].byteEnd <= fs[b].byteStart
  }

  // ---------------------------------------------------------------- link pass

  function LinkFacet(s: Bytes, m: Span): Facet
    requires InText(s, m)
  {
    Facet(m.start, m.end, Link(s[m.start..m.end]))
  }

  /** The byte before the match exists and is neither `@` nor `#`. */
  predicate LinkKept(s: Bytes, m: Span)
    requires InText(s, m)
  {
    m.start > 0 && s[m.start - 1] != AT && s[m.start - 1] != HASH
  }

  /** The facets the link pass appends when no match starts at byte 0. */
  function LinkFacets(s: Bytes, ms: seq<Span>): seq<Facet>
    requires AllInText(s, ms)
    decreases |ms|
  {
    if ms == [] then []
    else
      var m := ms[|ms| - 1];
      LinkFacets(s, ms[..|ms| - 1]) + if LinkKept(s, m) then [LinkFacet(s, m)] else []
  }

  // ------------------------------------------------------------- mention pass

  /** `match[1:]`: the handle without its leading `@`. */
  function Handle(s: Bytes, m: Span): Bytes
    requires InText(s, m)
  {
    s[m.start + 1..m.end]
  }

  /** The facet for one mention match, if the resolver knows the handle. */
  function MentionFacet(s: Bytes, m: Span, resolve: Bytes -> Option<Did>): Option<Facet>
    requires InText(s, m)
  {
    match resolve(Handle(s, m))
    case None => None
    case Some(did) => Some(Facet(m.start, m.end, Mention(did)))
  }

  function MentionFacets(s: Bytes, ms: seq<Span>, resolve: Bytes -> Option<Did>): seq<Facet>
    requires AllInText(s, ms)
    decreases |ms|
  {
    if ms == [] then []
    else
      var m := ms[|ms| - 1];
      MentionFacets(s, ms[..|ms| - 1], resolve) +
        match MentionFacet(s, m, resolve) case None => [] case Some(f) => [f]
  }

  // ----------------------------------------------------------------- tag pass

  /** The end of the run of non-space bytes that starts at `i`. */
  function RunEnd(s: Bytes, i: int): (j: int)
    requires 0 <= i <= |s|
    ensures i <= j <= |s| && (j == |s| || IsSpace(s[j]))
    ensures forall p :: i <= p < j ==> !IsSpace(s[p])
    decreases |s| - i
  {
    if i == |s| || IsSpace(s[i]) then i else RunEnd(s, i + 1)
  }

  /**
   * The matches of `#(\S*)` at or after byte `i`, found leftmost first: each
   * starts at a `#` and runs to the next space byte or the end of the text.
   * `\S` excludes only ASCII bytes, so scanning bytes finds the same extents
   * as scanning runes.
   */
  function TagMatchesFrom(s: Bytes, i: int): (ms: seq<Span>)
    requires 0 <= i <= |s|
    ensures WellFormedMatches(s, ms)
    ensures forall k :: 0 <= k < |ms| ==> i <= ms[k].start && s[ms[k].start] == HASH
    decreases |s| - i
  {
    if i == |s| then []
    else if s[i] == HASH then
      var j := RunEnd(s, i + 1);
      [Span(i, j)] + TagMatchesFrom(s, j)
    else TagMatchesFrom(s, i + 1)
  }

  function TagMatches(s: Bytes): seq<Span> {
    TagMatchesFrom(s, 0)
  }

  /** The tag is the match minus its leading `#`. */
  function TagFacet(s: Bytes, m: Span): Facet
    requires InText(s, m)
  {
    Facet(m.start, m.end, Tag(s[m.start + 1..m.end]))
  }

  function TagFacets(s: Bytes, ms: seq<Span>): seq<Facet>
    requires AllInText(s, ms)
  {
    seq(|ms|, k requires 0 <= k < |ms| => TagFacet(s, ms[k]))
  }

  // ------------------------------------------------------------ the whole call

  /** What a call returns when no link match starts at byte 0. */
  function Extracted(s: Bytes, links: seq<Span>, mentions: seq<Span>, resolve: Bytes -> Option<Did>): seq<Facet>
    requires AllInText(s, links) && AllInText(s, mentions)
  {
    LinkFacets(s, links) + MentionFacets(s, mentions, resolve) + TagFacets(s, TagMatches(s))
  }

  /**
   * How a call ends: it returns its list, or Go's slice bounds check on
   * `s[startIndex-1:startIndex]` panics, after the facets in `appended`
   * were added.
   */
  datatype Extraction = Returned(facets: seq<Facet>) | SlicePanic(appended: seq<Facet>)

  /**
   * The link pass: a match is kept when the byte before it is neither `@`
   * nor `#`. A match at byte 0 is first appended unconditionally, and then
   * reading the byte before it panics.
   */
  method LinkPass(s: Bytes, links: seq<Span>) returns (out: Extraction)
    requires WellFormedMatches(s, links)
    ensures out.SlicePanic? <==> |links| > 0 && links[0].start == 0
    ensures out.SlicePanic? ==> out.appended == [LinkFacet(s, links[0])]
    ensures out.Returned? ==> out.facets == LinkFacets(s, links)
  {
    var facets: seq<Facet> := [];
    var i := 0;
    while i < |links|
      invariant 0 <= i <= |links|
      invariant i > 0 ==> links[0].start > 0
      invariant facets == LinkFacets(s, links[..i])
    {
      var m := links[i];
      if m.start == 0 {
        facets := facets + [LinkFacet(s, m)];
      }
      if m.start - 1 < 0 {
        // the preceding-byte slice starts at -1
        return SlicePanic(facets);
      }
      var pre := s[m.start - 1];
      if pre != AT && pre != HASH {
        facets := facets + [LinkFacet(s, m)];
      }
      assert links[..i + 1][..i] == links[..i];
      i := i + 1;
    }
    assert links[..i] == links;
    return Returned(facets);
  }

  /** The mention pass: a match whose handle does not resolve is skipped. */
  method MentionPass(s: Bytes, mentions: seq<Span>, resolve: Bytes -> Option<Did>, facets0: seq<Facet>)
    returns (facets: seq<Facet>)
    requires MentionMatches(s, mentions)
    ensures facets == facets0 + MentionFacets(s, mentions, resolve)
  {
    facets := facets0;
    var j := 0;
    while j < |mentions|
      invariant 0 <= j <= |mentions|
      invariant facets == facets0 + MentionFacets(s, mentions[..j], resolve)
    {
      var m := mentions[j];
      var handle := s[m.start + 1..m.end];
      match resolve(handle) {
        case None =>
          // the handle did not resolve: skip this match
        case Some(did) =>
          facets := facets + [Facet(m.start, m.end, Mention(did))];
      }
      assert mentions[..j + 1][..j] == mentions[..j];
      j := j + 1;
    }
    assert mentions[..j] == mentions;
  }

  /** The tag pass: one facet per `#(\S*)` match, its payload without the `#`. */
  method TagPass(s: Bytes, facets0: seq<Facet>) returns (facets: seq<Facet>)
    ensures facets == facets0 + TagFacets(s, TagMatches(s))
  {
    facets := facets0;
    var tags := TagMatches(s);
    var k := 0;
    while k < |tags|
      invariant 0 <= k <= |tags|
      invariant facets == facets0 + TagFacets(s, tags[..k])
    {
      var m := tags[k];
      facets := facets + [Facet(m.start, m.end, Tag(s[m.start + 1..m.end]))];
      assert TagFacets(s, tags[..k + 1]) == TagFacets(s, tags[..k]) + [TagFacet(s, m)];
      k := k + 1;
    }
    assert tags[..k] == tags;
  }

  /** `getFacetsFromString`: the three passes append to one list. */
  method GetFacetsFromString(s: Bytes, links: seq<Span>, mentions: seq<Span>, resolve: Bytes -> Option<Did>)
    returns (out: Extraction)
    requires WellFormedMatches(s, links)
    requires MentionMatches(s, mentions)
    ensures out.SlicePanic? <==> |links| > 0 && links[0].start == 0
    ensures out.SlicePanic? ==> out.appended == [LinkFacet(s, links[0])]
    ensures out.Returned? ==> out.facets == Extracted(s, links, mentions, resolve)
  {
    out := LinkPass(s, links);
    if out.Returned? {
      var facets := MentionPass(s, mentions, resolve, out.facets);
      facets := TagPass(s, facets);
      out := Returned(facets);
    }
  }


  // ------------------------------------------------------------------ lemmas

  /** Every link facet comes from a kept match. */
  lemma {:induction false} LinkFacetsFromKept(s: Bytes, ms: seq<Span>)
    requires AllInText(s, ms)
    ensures forall f :: f in LinkFacets(s, ms) ==>
      exists k :: 0 <= k < |ms| && LinkKept(s, ms[k]) && f == LinkFacet(s, ms[k])
    decreases |ms|
  {
    if ms != [] {
      var n := |ms| - 1;
      var init := ms[..n];
      LinkFacetsFromKept(s, init);
      forall f | f in LinkFacets(s, ms)
        ensures exists k :: 0 <= k < |ms| && LinkKept(s, ms[k]) && f == LinkFacet(s, ms[k])
      {
        if f in LinkFacets(s, init) {
          var k :| 0 <= k < n && LinkKept(s, init[k]) && f == LinkFacet(s, init[k]);
          assert init[k] == ms[k];
        } else {
          assert LinkKept(s, ms[n]) && f == LinkFacet(s, ms[n]);
        }
      }
    }
  }

  /** Link facets come in match order. */
  lemma {:induction false} LinkFacetsLeftToRight(s: Bytes, ms: seq<Span>)
    requires WellFormedMatches(s, ms)
    ensures LeftToRight(LinkFacets(s, ms))
    decreases |ms|
  {
    if ms != [] {
      var n := |ms| - 1;
      var init := ms[..n];
      assert WellFormedMatches(s, init);
      LinkFacetsLeftToRight(s, init);
      LinkFacetsFromKept(s, init);
      var before := LinkFacets(s, init);
      var fs := LinkFacets(s, ms);
      forall a, b | 0 <= a < b < |fs|
        ensures fs[a].byteEnd <= fs[b].byteStart
      {
        if b < |before| {
          assert fs[a] == before[a] && fs[b] == before[b];
        } else {
          assert fs[a] == before[a] && fs[b] == LinkFacet(s, ms[n]);
          assert before[a] in before;
          var k :| 0 <= k < n && LinkKept(s, init[k]) && before[a] == LinkFacet(s, init[k]);
          assert init[k] == ms[k];
        }
      }
    }
  }

  /** A kept match yields its facet. */
  lemma {:induction false} LinkFacetsHaveKept(s: Bytes, ms: seq<Span>, k: int)
    requires AllInText(s, ms) && 0 <= k < |ms| && LinkKept(s, ms[k])
    ensures LinkFacet(s, ms[k]) in LinkFacets(s, ms)
    decreases |ms|
  {
    var n := |ms| - 1;
    if k < n {
      var init := ms[..n];
      assert init[k] == ms[k];
      LinkFacetsHaveKept(s, init, k);
    }
  }

  /**
   * Link pass: a match yields a facet exactly when the byte before it exists
   * and is neither `@` nor `#`; that facet carries the match's offsets and its
   * bytes verbatim; and the facets come in match order, each once.
   */
  lemma LinkFacetsFaithful(s: Bytes, ms: seq<Span>)
    requires WellFormedMatches(s, ms)
    ensures forall k :: 0 <= k < |ms| ==> (LinkFacet(s, ms[k]) in LinkFacets(s, ms) <==> LinkKept(s, ms[k]))
    ensures forall f :: f in LinkFacets(s, ms) ==>
      exists k :: 0 <= k < |ms| && LinkKept(s, ms[k]) && f == LinkFacet(s, ms[k])
    ensures LeftToRight(LinkFacets(s, ms))
  {
    LinkFacetsFromKept(s, ms);
    LinkFacetsLeftToRight(s, ms);
    forall k | 0 <= k < |ms| && LinkKept(s, ms[k])
      ensures LinkFacet(s, ms[k]) in LinkFacets(s, ms)
    {
      LinkFacetsHaveKept(s, ms, k);
    }
  }

  // -------------------------------------------------- the link pass as meant

  /**
   * What the link pass evidently means to do: a match at byte 0 has no
   * preceding byte, so it cannot follow `@` or `#` and is kept (once); any
   * other match is kept as before.
   */
  predicate LinkIntended(s: Bytes, m: Span)
    requires InText(s, m)
  {
    m.start == 0 || LinkKept(s, m)
  }

  /** The link facets of the intended pass: only the first match can start at byte 0. */
  function IntendedLinkFacets(s: Bytes, ms: seq<Span>): seq<Facet>
    requires AllInText(s, ms)
  {
    if |ms| > 0 && ms[0].start == 0 then [LinkFacet(s, ms[0])] + LinkFacets(s, ms[1..])
    else LinkFacets(s, ms)
  }

  /** Matches after the first start after it ends, so only the first can start at byte 0. */
  lemma LaterMatchesAfterFirst(s: Bytes, ms: seq<Span>)
    requires WellFormedMatches(s, ms) && |ms| > 0
    ensures WellFormedMatches(s, ms[1..])
    ensures forall k :: 1 <= k < |ms| ==> ms[k] == ms[1..][k - 1] && ms[k].start >= ms[0].end > 0
  {
  }

  /** Every facet of the intended pass comes from a match it keeps. */
  lemma IntendedLinkFacetsFrom(s: Bytes, ms: seq<Span>)
    requires WellFormedMatches(s, ms)
    ensures forall f :: f in IntendedLinkFacets(s, ms) ==>
      exists k :: 0 <= k < |ms| && LinkIntended(s, ms[k]) && f == LinkFacet(s, ms[k])
  {
    if |ms| > 0 && ms[0].start == 0 {
      var rest := ms[1..];
      LaterMatchesAfterFirst(s, ms);
      LinkFacetsFromKept(s, rest);
      forall f | f in IntendedLinkFacets(s, ms) && f != LinkFacet(s, ms[0])
        ensures exists k :: 0 <= k < |ms| && LinkIntended(s, ms[k]) && f == LinkFacet(s, ms[k])
      {
        var j :| 0 <= j < |rest| && LinkKept(s, rest[j]) && f == LinkFacet(s, rest[j]);
        assert ms[j + 1] == rest[j];
      }
    } else {
      LinkFacetsFromKept(s, ms);
    }
  }

  /** The intended pass yields a match's facet exactly when it keeps the match. */
  lemma IntendedLinkFacetsHave(s: Bytes, ms: seq<Span>)
    requires WellFormedMatches(s, ms)
    ensures forall k :: 0 <= k < |ms| ==>
      (LinkFacet(s, ms[k]) in IntendedLinkFacets(s, ms) <==> LinkIntended(s, ms[k]))
  {
    if |ms| > 0 && ms[0].start == 0 {
      var rest := ms[1..];
      LaterMatchesAfterFirst(s, ms);
      LinkFacetsFaithful(s, rest);
      forall k | 1 <= k < |ms|
        ensures LinkFacet(s, ms[k]) in IntendedLinkFacets(s, ms) <==> LinkIntended(s, ms[k])
      {
        assert LinkFacet(s, ms[k]) != LinkFacet(s, ms[0]);
        assert LinkFacet(s, ms[k]) in LinkFacets(s, rest) <==> LinkKept(s, rest[k - 1]);
      }
    } else {
      LinkFacetsFaithful(s, ms);
      if |ms| > 0 {
        LaterMatchesAfterFirst(s, ms);
      }
    }
  }

  /** The intended pass emits its facets in match order, without overlap. */
  lemma IntendedLinkFacetsOrdered(s: Bytes, ms: seq<Span>)
    requires WellFormedMatches(s, ms)
    ensures LeftToRight(IntendedLinkFacets(s, ms))
  {
    if |ms| > 0 && ms[0].start == 0 {
      var rest := ms[1..];
      var fs := IntendedLinkFacets(s, ms);
      var ls := LinkFacets(s, rest);
      LaterMatchesAfterFirst(s, ms);
      LinkFacetsLeftToRight(s, rest);
      LinkFacetsFromKept(s, rest);
      forall a, b | 0 <= a < b < |fs|
        ensures fs[a].byteEnd <= fs[b].byteStart
      {
        assert fs[b] == ls[b - 1] && fs[b] in ls;
        if a == 0 {
          var j :| 0 <= j < |rest| && LinkKept(s, rest[j]) && fs[b] == LinkFacet(s, rest[j]);
          assert ms[j + 1] == rest[j];
        } else {
          assert fs[a] == ls[a - 1];
        }
      }
    } else {
      LinkFacetsLeftToRight(s, ms);
    }
  }

  /**
   * The intended pass keeps exactly the matches that are at byte 0 or not
   * preceded by `@` or `#`, each once, in match order, with the match's
   * offsets and bytes.
   */
  lemma IntendedLinkFacetsFaithful(s: Bytes, ms: seq<Span>)
    requires WellFormedMatches(s, ms)
    ensures var fs := IntendedLinkFacets(s, ms);
      forall k :: 0 <= k < |ms| ==> (LinkFacet(s, ms[k]) in fs <==> LinkIntended(s, ms[k]))
    ensures forall f :: f in IntendedLinkFacets(s, ms) ==>
      exists k :: 0 <= k < |ms| && LinkIntended(s, ms[k]) && f == LinkFacet(s, ms[k])
    ensures LeftToRight(IntendedLinkFacets(s, ms))
    ensures var fs := IntendedLinkFacets(s, ms);
      forall a, b :: 0 <= a < b < |fs| ==> fs[a] != fs[b]
  {
    var fs := IntendedLinkFacets(s, ms);
    IntendedLinkFacetsHave(s, ms);
    IntendedLinkFacetsFrom(s, ms);
    IntendedLinkFacetsOrdered(s, ms);
    forall a, b | 0 <= a < b < |fs|
      ensures fs[a] != fs[b]
    {
      assert fs[b] in fs;
    }
  }

  /** One more match adds its facet at the end exactly when the intended pass keeps it. */
  lemma IntendedLinkFacetsSnoc(s: Bytes, ms: seq<Span>, i: int)
    requires WellFormedMatches(s, ms) && 0 <= i < |ms|
    ensures IntendedLinkFacets(s, ms[..i + 1]) ==
      IntendedLinkFacets(s, ms[..i]) + if LinkIntended(s, ms[i]) then [LinkFacet(s, ms[i])] else []
  {
    var pre, cur := ms[..i], ms[..i + 1];
    assert cur[..i] == pre;
    if i > 0 && ms[0].start == 0 {
      assert ms[0].end <= ms[i].start;
      var tail := cur[1..];
      assert tail[..i - 1] == pre[1..] && tail[i - 1] == ms[i];
      assert LinkFacets(s, tail) ==
        LinkFacets(s, pre[1..]) + if LinkKept(s, ms[i]) then [LinkFacet(s, ms[i])] else [];
    } else if i > 0 {
      assert ms[0].end <= ms[i].start;
    }
  }

  /**
   * The link pass with the offset-0 case repaired: a match at byte 0 is
   * appended and the loop goes on to the next match, without reading the
   * byte before it.
   */
  method IntendedLinkPass(s: Bytes, links: seq<Span>) returns (facets: seq<Facet>)
    requires WellFormedMatches(s, links)
    ensures facets == IntendedLinkFacets(s, links)
  {
    facets := [];
    var i := 0;
    while i < |links|
      invariant 0 <= i <= |links|
      invariant facets == IntendedLinkFacets(s, links[..i])
    {
      var m := links[i];
      if m.start == 0 {
        facets := facets + [LinkFacet(s, m)];
      } else {
        var pre := s[m.start - 1];
        if pre != AT && pre != HASH {
          facets := facets + [LinkFacet(s, m)];
        }
      }
      IntendedLinkFacetsSnoc(s, links, i);
      i := i + 1;
    }
    assert links[..i] == links;
  }

  /** A post that starts with a link: the pass as written panics after appending the link once. */
  method LinkAtStartPanics() returns (out: Extraction)
    ensures out == SlicePanic([Facet(0, 19, Link(Ascii("https://example.com")))])
  {
    var s := Ascii("https://example.com");
    out := LinkPass(s, [Span(0, 19)]);
    assert s[0..19] == s;
  }

  /** The same post: the intended pass returns the link once. */
  method LinkAtStartKept() returns (facets: seq<Facet>)
    ensures facets == [Facet(0, 19, Link(Ascii("https://example.com")))]
  {
    var s := Ascii("https://example.com");
    facets := IntendedLinkPass(s, [Span(0, 19)]);
    assert s[0..19] == s;
  }

  /** Every mention facet comes from a match whose handle resolved. */
  lemma {:induction false} MentionFacetsFromResolved(s: Bytes, ms: seq<Span>, resolve: Bytes -> Option<Did>)
    requires AllInText(s, ms)
    ensures forall f :: f in MentionFacets(s, ms, resolve) ==>
      exists k :: 0 <= k < |ms| && MentionFacet(s, ms[k], resolve) == Some(f)
    decreases |ms|
  {
    if ms != [] {
      var n := |ms| - 1;
      var init := ms[..n];
      MentionFacetsFromResolved(s, init, resolve);
      forall f | f in MentionFacets(s, ms, resolve)
        ensures exists k :: 0 <= k < |ms| && MentionFacet(s, ms[k], resolve) == Some(f)
      {
        if f in MentionFacets(s, init, resolve) {
          var k :| 0 <= k < n && MentionFacet(s, init[k], resolve) == Some(f);
          assert init[k] == ms[k];
        } else {
          assert MentionFacet(s, ms[n], resolve) == Some(f);
        }
      }
    }
  }

  /** Mention facets come in match order. */
  lemma {:induction false} MentionFacetsLeftToRight(s: Bytes, ms: seq<Span>, resolve: Bytes -> Option<Did>)
    requires WellFormedMatches(s, ms)
    ensures LeftToRight(MentionFacets(s, ms, resolve))
    decreases |ms|
  {
    if ms != [] {
      var n := |ms| - 1;
      var init := ms[..n];
      assert WellFormedMatches(s, init);
      MentionFacetsLeftToRight(s, init, resolve);
      MentionFacetsFromResolved(s, init, resolve);
      var before := MentionFacets(s, init, resolve);
      var fs := MentionFacets(s, ms, resolve);
      forall a, b | 0 <= a < b < |fs|
        ensures fs[a].byteEnd <= fs[b].byteStart
      {
        if b < |before| {
          assert fs[a] == before[a] && fs[b] == before[b];
        } else {
          assert fs[a] == before[a] && Some(fs[b]) == MentionFacet(s, ms[n], resolve);
          assert before[a] in before;
          var k :| 0 <= k < n && MentionFacet(s, init[k], resolve) == Some(before[a]);
          assert init[k] == ms[k];
        }
      }
    }
  }

  /** A match whose handle resolves yields its facet. */
  lemma {:induction false} MentionFacetsHaveResolved(s: Bytes, ms: seq<Span>, resolve: Bytes -> Option<Did>, k: int)
    requires AllInText(s, ms) && 0 <= k < |ms| && MentionFacet(s, ms[k], resolve).Some?
    ensures MentionFacet(s, ms[k], resolve).value in MentionFacets(s, ms, resolve)
    decreases |ms|
  {
    var n := |ms| - 1;
    if k < n {
      var init := ms[..n];
      assert init[k] == ms[k];
      MentionFacetsHaveResolved(s, init, resolve, k);
    }
  }

  /**
   * Mention pass: a match yields a facet exactly when the resolver knows its
   * handle (the match minus `@`); the facet spans the whole match, `@`
   * included, and carries the resolved DID. A failed lookup is skipped and
   * later matches still yield facets, in match order.
   */
  lemma MentionFacetsFaithful(s: Bytes, ms: seq<Span>, resolve: Bytes -> Option<Did>)
    requires MentionMatches(s, ms)
    ensures forall k :: 0 <= k < |ms| && resolve(Handle(s, ms[k])).Some? ==>
      Facet(ms[k].start, ms[k].end, Mention(resolve(Handle(s, ms[k])).value)) in MentionFacets(s, ms, resolve)
    ensures forall f :: f in MentionFacets(s, ms, resolve) ==>
      exists k :: 0 <= k < |ms| && f.byteStart == ms[k].start && f.byteEnd == ms[k].end &&
        f.feature.Mention? && resolve(Handle(s, ms[k])) == Some(f.feature.did)
    ensures forall f :: f in MentionFacets(s, ms, resolve) ==> s[f.byteStart] == AT
    ensures LeftToRight(MentionFacets(s, ms, resolve))
  {
    MentionFacetsFromResolved(s, ms, resolve);
    MentionFacetsLeftToRight(s, ms, resolve);
    forall k | 0 <= k < |ms| && resolve(Handle(s, ms[k])).Some?
      ensures Facet(ms[k].start, ms[k].end, Mention(resolve(Handle(s, ms[k])).value)) in MentionFacets(s, ms, resolve)
    {
      MentionFacetsHaveResolved(s, ms, resolve, k);
    }
    forall f | f in MentionFacets(s, ms, resolve)
      ensures exists k ::
        0 <= k < |ms| && f.byteStart == ms[k].start && f.byteEnd == ms[k].end &&
        f.feature.Mention? && resolve(Handle(s, ms[k])) == Some(f.feature.did)
      ensures s[f.byteStart] == AT
    {
      var k :| 0 <= k < |ms| && MentionFacet(s, ms[k], resolve) == Some(f);
    }
  }

  /**
   * Tag pass: every `#` of the text lies in exactly one tag match: tags do
   * not overlap and a `#` inside a run does not start a new tag.
   */
  lemma {:induction false} TagMatchesCover(s: Bytes, i: int, p: int)
    requires 0 <= i <= p < |s| && s[p] == HASH
    ensures exists k ::
      0 <= k < |TagMatchesFrom(s, i)| && TagMatchesFrom(s, i)[k].start <= p < TagMatchesFrom(s, i)[k].end
    decreases |s| - i
  {
    var ms := TagMatchesFrom(s, i);
    if s[i] == HASH {
      var j := RunEnd(s, i + 1);
      if p < j {
        assert ms[0] == Span(i, j);
      } else {
        TagMatchesCover(s, j, p);
        var k :| 0 <= k < |TagMatchesFrom(s, j)| && TagMatchesFrom(s, j)[k].start <= p < TagMatchesFrom(s, j)[k].end;
        assert ms[k + 1] == TagMatchesFrom(s, j)[k];
      }
    } else {
      assert p != i;
      TagMatchesCover(s, i + 1, p);
    }
  }

  /** Each tag match runs from a `#` over non-space bytes up to a space byte or the end. */
  lemma {:induction false} TagMatchesMaximal(s: Bytes, i: int)
    requires 0 <= i <= |s|
    ensures forall k :: 0 <= k < |TagMatchesFrom(s, i)| ==>
      var m := TagMatchesFrom(s, i)[k];
      (m.end == |s| || IsSpace(s[m.end])) && forall p :: m.start < p < m.end ==> !IsSpace(s[p])
    decreases |s| - i
  {
    if i < |s| {
      if s[i] == HASH {
        TagMatchesMaximal(s, RunEnd(s, i + 1));
      } else {
        TagMatchesMaximal(s, i + 1);
      }
    }
  }

  /**
   * Everything the tag pass emits: in text order, each facet starts at a `#`,
   * covers a maximal run of non-space bytes, and carries that run minus its
   * `#` verbatim; and every `#` of the text lies inside one of them.
   */
  lemma TagFacetsFaithful(s: Bytes)
    ensures var fs := TagFacets(s, TagMatches(s));
      && LeftToRight(fs)
      && forall a :: 0 <= a < |fs| ==>
           0 <= fs[a].byteStart < fs[a].byteEnd <= |s| &&
           s[fs[a].byteStart] == HASH &&
           fs[a].feature == Tag(s[fs[a].byteStart + 1..fs[a].byteEnd]) &&
           (fs[a].byteEnd == |s| || IsSpace(s[fs[a].byteEnd])) &&
           forall p :: fs[a].byteStart < p < fs[a].byteEnd ==> !IsSpace(s[p])
  {
    TagMatchesMaximal(s, 0);
  }

  /** Every `#` of the text lies inside some tag facet. */
  lemma TagFacetsCoverHashes(s: Bytes)
    ensures var fs := TagFacets(s, TagMatches(s));
      forall p :: 0 <= p < |s| && s[p] == HASH ==>
        exists a :: 0 <= a < |fs| && fs[a].byteStart <= p < fs[a].byteEnd
  {
    var ms := TagMatches(s);
    var fs := TagFacets(s, ms);
    forall p | 0 <= p < |s| && s[p] == HASH
      ensures exists a :: 0 <= a < |fs| && fs[a].byteStart <= p < fs[a].byteEnd
    {
      TagMatchesCover(s, 0, p);
      var k :| 0 <= k < |ms| && ms[k].start <= p < ms[k].end;
      assert fs[k].byteStart == ms[k].start;
    }
  }


  /** The list is all link facets, then all mention facets, then all tag facets. */
  function Rank(f: Facet): int {
    match f.feature
    case Link(_) => 0
    case Mention(_) => 1
    case Tag(_) => 2
  }

  /** Every facet of `fs` has rank `r` and indexes validly into `s`. */
  predicate Group(s: Bytes, fs: seq<Facet>, r: int) {
    forall a :: 0 <= a < |fs| ==> Rank(fs[a]) == r && 0 <= fs[a].byteStart < fs[a].byteEnd <= |s|
  }

  lemma LinkGroup(s: Bytes, ms: seq<Span>)
    requires AllInText(s, ms)
    ensures Group(s, LinkFacets(s, ms), 0)
  {
    var fs := LinkFacets(s, ms);
    LinkFacetsFromKept(s, ms);
    forall a | 0 <= a < |fs|
      ensures Rank(fs[a]) == 0 && 0 <= fs[a].byteStart < fs[a].byteEnd <= |s|
    {
      assert fs[a] in fs;
    }
  }

  lemma MentionGroup(s: Bytes, ms: seq<Span>, resolve: Bytes -> Option<Did>)
    requires AllInText(s, ms)
    ensures Group(s, MentionFacets(s, ms, resolve), 1)
  {
    var fs := MentionFacets(s, ms, resolve);
    MentionFacetsFromResolved(s, ms, resolve);
    forall a | 0 <= a < |fs|
      ensures Rank(fs[a]) == 1 && 0 <= fs[a].byteStart < fs[a].byteEnd <= |s|
    {
      assert fs[a] in fs;
    }
  }

  /**
   * A returned list is ordered by pass first and by position within a pass;
   * facets of different passes are neither merged nor dropped, and every
   * facet indexes validly into the text's bytes.
   */
  lemma ExtractedOrderedAndInBounds(s: Bytes, links: seq<Span>, mentions: seq<Span>, resolve: Bytes -> Option<Did>)
    requires WellFormedMatches(s, links)
    requires MentionMatches(s, mentions)
    ensures var fs := Extracted(s, links, mentions, resolve);
      && (forall a, b :: 0 <= a < b < |fs| ==>
            Rank(fs[a]) < Rank(fs[b]) || (Rank(fs[a]) == Rank(fs[b]) && fs[a].byteEnd <= fs[b].byteStart))
      && (forall a :: 0 <= a < |fs| ==> 0 <= fs[a].byteStart < fs[a].byteEnd <= |s|)
  {
    var ls := LinkFacets(s, links);
    var ns := MentionFacets(s, mentions, resolve);
    var ts := TagFacets(s, TagMatches(s));
    LinkGroup(s, links);
    LinkFacetsLeftToRight(s, links);
    MentionGroup(s, mentions, resolve);
    MentionFacetsLeftToRight(s, mentions, resolve);
    assert Group(s, ts, 2) && LeftToRight(ts);
    GroupsOrdered(s, ls, ns, ts);
  }

  lemma GroupsOrdered(s: Bytes, ls: seq<Facet>, ns: seq<Facet>, ts: seq<Facet>)
    requires Group(s, ls, 0) && Group(s, ns, 1) && Group(s, ts, 2)
    requires LeftToRight(ls) && LeftToRight(ns) && LeftToRight(ts)
    ensures var fs := ls + ns + ts;
      && (forall a, b :: 0 <= a < b < |fs| ==>
            Rank(fs[a]) < Rank(fs[b]) || (Rank(fs[a]) == Rank(fs[b]) && fs[a].byteEnd <= fs[b].byteStart))
      && (forall a :: 0 <= a < |fs| ==> 0 <= fs[a].byteStart < fs[a].byteEnd <= |s|)
  {
    var fs := ls + ns + ts;
    forall a | 0 <= a < |fs|
      ensures Rank(fs[a]) == (if a < |ls| then 0 else if a < |ls| + |ns| then 1 else 2)
      ensures 0 <= fs[a].byteStart < fs[a].byteEnd <= |s|
    {
      if a < |ls| {
        assert fs[a] == ls[a];
      } else if a < |ls| + |ns| {
        assert fs[a] == ns[a - |ls|];
      } else {
        assert fs[a] == ts[a - |ls| - |ns|];
      }
    }
    forall a, b | 0 <= a < b < |fs| && Rank(fs[a]) == Rank(fs[b])
      ensures fs[a].byteEnd <= fs[b].byteStart
    {
      if b < |ls| {
        assert fs[a] == ls[a] && fs[b] == ls[b];
      } else if a >= |ls| && b < |ls| + |ns| {
        assert fs[a] == ns[a - |ls|] && fs[b] == ns[b - |ls|];
      } else if a >= |ls| + |ns| {
        assert fs[a] == ts[a - |ls| - |ns|] && fs[b] == ts[b - |ls| - |ns|];
      }
    }
  }

  // ---------------------------------------------------------------- examples

  /** `#a#b` is one tag, `a#b`: the second `#` lies inside the first run. */
  lemma TagInsideRun()
    ensures var s := Ascii("#") + Ascii("a#b");
      TagFacets(s, TagMatches(s)) == [Facet(0, 4, Tag(Ascii("a#b")))]
  {
    var s := Ascii("#") + Ascii("a#b");
    assert s[0] == HASH && |s| == 4;
    assert RunEnd(s, 1) == 4;
    assert TagMatchesFrom(s, 4) == [];
    assert TagMatches(s) == [Span(0, 4)];
    assert s[1..4] == Ascii("a#b");
  }

  /** `#foo-bar!` is one tag whose payload keeps the trailing punctuation. */
  lemma TagKeepsPunctuation()
    ensures var s := Ascii("#") + Ascii("foo-bar!");
      TagFacets(s, TagMatches(s)) == [Facet(0, 9, Tag(Ascii("foo-bar!")))]
  {
    var s := Ascii("#") + Ascii("foo-bar!");
    assert s[0] == HASH && |s| == 9;
    assert RunEnd(s, 1) == 9;
    assert TagMatchesFrom(s, 9) == [];
    assert TagMatches(s) == [Span(0, 9)];
    assert s[1..9] == Ascii("foo-bar!");
  }

  /** A link right after `#` is dropped; after a space it is kept. */
  lemma LinkPrecedence()
    ensures var s := Ascii("#") + Ascii("https://example.com");
      LinkFacets(s, [Span(1, 20)]) == []
    ensures var s := Ascii("#tag ") + Ascii("https://example.com");
      LinkFacets(s, [Span(5, 24)]) == [Facet(5, 24, Link(Ascii("https://example.com")))]
  {
    var s := Ascii("#tag ") + Ascii("https://example.com");
    assert s[5..24] == Ascii("https://example.com");
  }

  /** A handle the resolver does not know yields no mention and no failure. */
  lemma UnresolvedMentionSkipped(resolve: Bytes -> Option<Did>)
    requires resolve(Ascii("nosuch.handle")) == None
    ensures var s := Ascii("@") + Ascii("nosuch.handle") + Ascii(" hello");
      MentionFacets(s, [Span(0, 14)], resolve) == []
  {
    var s := Ascii("@") + Ascii("nosuch.handle") + Ascii(" hello");
    assert Handle(s, Span(0, 14)) == Ascii("nosuch.handle");
  }
}
