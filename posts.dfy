/**
 * The pieces of main.go around the facet extractor: the `createPost`
 * handler's length gate and record, `generateFacetListFromPost` (the facet
 * lines printed under each post of a feed) and the selection that
 * `getSavedFeeds` makes over the account's preferences.
 */
module Posts {
  import opened Wrappers
  import opened ByteText
  import opened Facets

  // ------------------------------------------------------------- createPost

  /** The gate counts bytes (`len(m)`), although its message speaks of characters. */
  const MAX_POST_BYTES := 300

  const POST_COLLECTION: string := "app.bsky.feed.post"

  datatype PostError = MessageTooLong | MessageEmpty

  /** The create-record input `makePost` builds (the timestamp is not modelled). */
  datatype PostRecord = PostRecord(collection: string, repo: string, text: Bytes, facets: seq<Facet>)

  datatype PostOutcome =
    | Rejected(error: PostError)
    | ExtractionPanicked
    | Built(record: PostRecord)

  /** The checks of the `createPost` handler, in their order: too long first, then empty. */
  function CheckLength(m: Bytes): (r: Option<PostError>)
    ensures r == None <==> 0 < |m| <= MAX_POST_BYTES
    ensures r == Some(MessageEmpty) ==> |m| == 0
  {
    if |m| > MAX_POST_BYTES then Some(MessageTooLong)
    else if |m| == 0 then Some(MessageEmpty)
    else None
  }

  /**
   * The `createPost` handler up to the network call: a message outside the
   * gate is rejected before any extraction; otherwise the post record holds
   * the message verbatim, the client's DID as repo and the extracted facets.
   */
  method CreatePost(repo: string, m: Bytes, links: seq<Span>, mentions: seq<Span>, resolve: Bytes -> Option<Did>)
    returns (out: PostOutcome)
    requires WellFormedMatches(m, links)
    requires MentionMatches(m, mentions)
    ensures |m| > MAX_POST_BYTES ==> out == Rejected(MessageTooLong)
    ensures |m| == 0 ==> out == Rejected(MessageEmpty)
    ensures 0 < |m| <= MAX_POST_BYTES && |links| > 0 && links[0].start == 0 ==> out == ExtractionPanicked
    ensures out.Built? <==> 0 < |m| <= MAX_POST_BYTES && !(|links| > 0 && links[0].start == 0)
    ensures out.Built? ==>
      out.record == PostRecord(POST_COLLECTION, repo, m, Extracted(m, links, mentions, resolve))
  {
    match CheckLength(m) {
      case Some(e) =>
        return Rejected(e);
      case None =>
    }
    var extraction := GetFacetsFromString(m, links, mentions, resolve);
    match extraction {
      case SlicePanic(_) =>
        return ExtractionPanicked;
      case Returned(facets) =>
        return Built(PostRecord(POST_COLLECTION, repo, m, facets));
    }
  }

  // ----------------------------------------------- generateFacetListFromPost

  /**
   * One element of a stored facet's `Features` list: a union in which any of
   * the three pointers may be set.
   */
  datatype FeatureElem = FeatureElem(link: Option<Bytes>, mention: Option<Did>, tag: Option<Bytes>)

  /** A `RichtextFacet` as read back from a post record. */
  datatype PostFacet = PostFacet(byteStart: int, byteEnd: int, features: seq<FeatureElem>)

  /** The lines for one element: link, then mention, then tag, each if set. */
  function ElemLines(start: int, end: int, e: FeatureElem): seq<Facet> {
    (if e.link.Some? then [Facet(start, end, Link(e.link.value))] else []) +
    (if e.mention.Some? then [Facet(start, end, Mention(e.mention.value))] else []) +
    (if e.tag.Some? then [Facet(start, end, Tag(e.tag.value))] else [])
  }

  function FeaturesLines(start: int, end: int, es: seq<FeatureElem>): seq<Facet>
    decreases |es|
  {
    if es == [] then []
    else FeaturesLines(start, end, es[..|es| - 1]) + ElemLines(start, end, es[|es| - 1])
  }

  /** All lines of a post, facet by facet. */
  function Lines(post: seq<PostFacet>): seq<Facet>
    decreases |post|
  {
    if post == [] then []
    else
      var f := post[|post| - 1];
      Lines(post[..|post| - 1]) + FeaturesLines(f.byteStart, f.byteEnd, f.features)
  }

  /**
   * `generateFacetListFromPost`: one line per set feature pointer, in facet
   * order, then feature order, then link/mention/tag; each line is rendered
   * as "<Kind> from byte <start> to byte <end>: <payload>" (the rendering is
   * not modelled).
   */
  method GenerateFacetList(post: seq<PostFacet>) returns (lines: seq<Facet>)
    ensures lines == Lines(post)
  {
    lines := [];
    var i := 0;
    while i < |post|
      invariant 0 <= i <= |post|
      invariant lines == Lines(post[..i])
    {
      lines := AppendFeatureLines(lines, post[i]);
      LinesSnoc(post, i);
      i := i + 1;
    }
    assert post[..i] == post;
  }

  /** The inner loop of `generateFacetListFromPost`, over one facet's features. */
  method AppendFeatureLines(lines0: seq<Facet>, facet: PostFacet) returns (lines: seq<Facet>)
    ensures lines == lines0 + FeaturesLines(facet.byteStart, facet.byteEnd, facet.features)
  {
    lines := lines0;
    var j := 0;
    while j < |facet.features|
      invariant 0 <= j <= |facet.features|
      invariant lines == lines0 + FeaturesLines(facet.byteStart, facet.byteEnd, facet.features[..j])
    {
      // the link, mention and tag lines of this element, each if its pointer is set
      ghost var done := FeaturesLines(facet.byteStart, facet.byteEnd, facet.features[..j]);
      var elem := ElemLines(facet.byteStart, facet.byteEnd, facet.features[j]);
      lines := lines + elem;
      FeaturesLinesSnoc(facet.byteStart, facet.byteEnd, facet.features, j);
      assert lines == lines0 + (done + elem);
      j := j + 1;
    }
    assert facet.features[..j] == facet.features;
  }

  lemma FeaturesLinesSnoc(start: int, end: int, es: seq<FeatureElem>, j: int)
    requires 0 <= j < |es|
    ensures FeaturesLines(start, end, es[..j + 1]) == FeaturesLines(start, end, es[..j]) + ElemLines(start, end, es[j])
  {
    assert es[..j + 1][..j] == es[..j];
  }

  lemma LinesSnoc(post: seq<PostFacet>, i: int)
    requires 0 <= i < |post|
    ensures Lines(post[..i + 1]) == Lines(post[..i]) + FeaturesLines(post[i].byteStart, post[i].byteEnd, post[i].features)
  {
    assert post[..i + 1][..i] == post[..i];
  }

  /** How `makePost` stores an extracted facet: one feature element with one pointer set. */
  function Stored(f: Facet): PostFacet {
    var e := match f.feature
      case Link(u) => FeatureElem(Some(u), None, None)
      case Mention(d) => FeatureElem(None, Some(d), None)
      case Tag(t) => FeatureElem(None, None, Some(t));
    PostFacet(f.byteStart, f.byteEnd, [e])
  }

  function StoredAll(fs: seq<Facet>): (r: seq<PostFacet>)
    ensures |r| == |fs|
  {
    seq(|fs|, k requires 0 <= k < |fs| => Stored(fs[k]))
  }

  /**
   * Listing the facets of a post this server created gives back exactly the
   * extracted facets, in the same order.
   */
  lemma {:induction false} ListingStoredFacets(fs: seq<Facet>)
    ensures Lines(StoredAll(fs)) == fs
    decreases |fs|
  {
    if fs != [] {
      var n := |fs| - 1;
      ListingStoredFacets(fs[..n]);
      assert StoredAll(fs)[..n] == StoredAll(fs[..n]);
      var e := Stored(fs[n]).features;
      assert FeaturesLines(fs[n].byteStart, fs[n].byteEnd, e) == [fs[n]] by {
        assert e[..0] == [];
      }
    }
  }

  /** The number of pointers set in an element. */
  function SetCount(e: FeatureElem): nat {
    (if e.link.Some? then 1 else 0) + (if e.mention.Some? then 1 else 0) + (if e.tag.Some? then 1 else 0)
  }

  function FeaturesSetCount(es: seq<FeatureElem>): nat
    decreases |es|
  {
    if es == [] then 0 else FeaturesSetCount(es[..|es| - 1]) + SetCount(es[|es| - 1])
  }

  /** Each line of a listing comes from one set pointer, and each line carries its facet's offsets. */
  lemma {:induction false} FeaturesLinesCount(start: int, end: int, es: seq<FeatureElem>)
    ensures |FeaturesLines(start, end, es)| == FeaturesSetCount(es)
    ensures forall l :: l in FeaturesLines(start, end, es) ==> l.byteStart == start && l.byteEnd == end
    decreases |es|
  {
    if es != [] {
      FeaturesLinesCount(start, end, es[..|es| - 1]);
    }
  }

  // ------------------------------------------------------------ getSavedFeeds

  /** A saved feed entry of the `savedFeedsPrefV2` preference. */
  datatype SavedFeed = SavedFeed(id: string, kind: string, value: string, pinned: bool)

  /** An element of the preferences union: the saved-feeds preference or some other kind. */
  datatype Preference = SavedFeedsPref(items: seq<SavedFeed>) | OtherPref

  datatype SavedFeedsError = NoPreferences | NoSavedFeedItems | NoSavedFeeds

  /** `k` is the first saved-feeds preference of the list. */
  predicate FirstSavedFeedsPref(prefs: seq<Preference>, k: int) {
    0 <= k < |prefs| && prefs[k].SavedFeedsPref? &&
    forall j :: 0 <= j < k ==> prefs[j].OtherPref?
  }

  /**
   * `getSavedFeeds` after the preferences were fetched: the first saved-feeds
   * preference decides, and fails when it lists nothing.
   */
  method GetSavedFeeds(prefs: seq<Preference>) returns (r: Result<seq<SavedFeed>, SavedFeedsError>)
    ensures |prefs| == 0 <==> r == Err(NoPreferences)
    ensures r == Err(NoSavedFeeds) <==> |prefs| > 0 && forall j :: 0 <= j < |prefs| ==> prefs[j].OtherPref?
    ensures forall k :: FirstSavedFeedsPref(prefs, k) ==>
      r == if |prefs[k].items| == 0 then Err(NoSavedFeedItems) else Ok(prefs[k].items)
  {
    if |prefs| == 0 {
      return Err(NoPreferences);
    }
    var i := 0;
    while i < |prefs|
      invariant 0 <= i <= |prefs|
      invariant forall j :: 0 <= j < i ==> prefs[j].OtherPref?
    {
      match prefs[i] {
        case SavedFeedsPref(items) =>
          assert FirstSavedFeedsPref(prefs, i);
          if |items| == 0 {
            return Err(NoSavedFeedItems);
          }
          return Ok(items);
        case OtherPref =>
      }
      i := i + 1;
    }
    return Err(NoSavedFeeds);
  }
}
