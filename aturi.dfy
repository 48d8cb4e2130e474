/**
 * AT-URI helpers of main.go: `parseURI` (the `at://repo/collection/rkey`
 * splitter used by every handler that takes a record URI), `makeRepost`
 * and the rewrite of a trending-topic link into a feed-generator AT-URI.
 */
module AtUri {
  import opened Wrappers
  import opened ByteText

  const SCHEME: Bytes := Ascii("at://")

  /** The three captures of `^at://([^/]+)/([^/]+)/([^/]+)$`. */
  datatype Uri = Uri(repo: Bytes, collection: Bytes, rkey: Bytes)

  datatype UriError = InvalidUriFormat(uri: Bytes)

  predicate ValidSegment(seg: Bytes) {
    |seg| > 0 && Free(seg, SLASH)
  }

  predicate WellFormed(u: Uri) {
    ValidSegment(u.repo) && ValidSegment(u.collection) && ValidSegment(u.rkey)
  }

  /** The text `at://<repo>/<collection>/<rkey>`. */
  function Render(u: Uri): Bytes {
    SCHEME + Join([u.repo, u.collection, u.rkey], SLASH)
  }

  lemma RenderSegments(u: Uri)
    ensures Render(u) == SCHEME + u.repo + [SLASH] + u.collection + [SLASH] + u.rkey
  {
    assert Join([u.repo, u.collection, u.rkey], SLASH) == u.repo + [SLASH] + Join([u.collection, u.rkey], SLASH);
    assert Join([u.collection, u.rkey], SLASH) == u.collection + [SLASH] + u.rkey;
  }

  /**
   * `parseURI`: succeeds only on the rendering of a well-formed URI, and then
   * returns exactly its three segments; otherwise the error names the input.
   */
  function ParseUri(uri: Bytes): (r: Result<Uri, UriError>)
    ensures r.Ok? ==> WellFormed(r.value) && Render(r.value) == uri
    ensures r.Err? ==> r.error == InvalidUriFormat(uri)
  {
    if |uri| < |SCHEME| || uri[..|SCHEME|] != SCHEME then Err(InvalidUriFormat(uri))
    else
      var rest := uri[|SCHEME|..];
      var parts := Split(rest, SLASH);
      if |parts| == 3 && |parts[0]| > 0 && |parts[1]| > 0 && |parts[2]| > 0 then
        JoinSplit(rest, SLASH);
        SplitPartsFree(rest, SLASH);
        assert parts == [parts[0], parts[1], parts[2]];
        assert uri == uri[..|SCHEME|] + rest;
        Ok(Uri(parts[0], parts[1], parts[2]))
      else
        Err(InvalidUriFormat(uri))
  }

  /** Round trip: a well-formed URI parses back to itself. */
  lemma {:induction false} ParseRender(u: Uri)
    requires WellFormed(u)
    ensures ParseUri(Render(u)) == Ok(u)
  {
    var parts := [u.repo, u.collection, u.rkey];
    SplitJoin(parts, SLASH);
    var s := Render(u);
    assert s[..|SCHEME|] == SCHEME;
    assert s[|SCHEME|..] == Join(parts, SLASH);
  }

  /** `parseURI` succeeds exactly on `at://` followed by three non-empty, slash-free segments. */
  lemma ParseUriIff(uri: Bytes)
    ensures ParseUri(uri).Ok? <==> exists u :: WellFormed(u) && Render(u) == uri
  {
    if exists u :: WellFormed(u) && Render(u) == uri {
      var u :| WellFormed(u) && Render(u) == uri;
      ParseRender(u);
    }
  }

  const REPOST_COLLECTION: string := "app.bsky.feed.repost"

  /** `comatproto.RepoStrongRef`: the repost's subject. */
  datatype StrongRef = StrongRef(uri: Bytes, cid: Bytes)

  /** The create-record input `makeRepost` builds (the timestamp is not modelled). */
  datatype RepostRecord = RepostRecord(collection: string, repo: string, subject: StrongRef)

  /**
   * `makeRepost`: fails exactly when `parseURI` fails; otherwise the subject
   * is the input text verbatim and its `Cid` holds the URI's record key.
   */
  function MakeRepost(repo: string, subj: Bytes): (r: Result<RepostRecord, UriError>)
    ensures r.Err? <==> ParseUri(subj).Err?
    ensures r.Err? ==> r.error == InvalidUriFormat(subj)
    ensures r.Ok? ==> r.value.collection == REPOST_COLLECTION && r.value.repo == repo
    ensures r.Ok? ==> r.value.subject.uri == subj
    ensures r.Ok? ==> exists u :: WellFormed(u) && Render(u) == subj && u.rkey == r.value.subject.cid
  {
    match ParseUri(subj)
    case Err(e) => Err(e)
    case Ok(u) =>
      Ok(RepostRecord(REPOST_COLLECTION, repo, StrongRef(subj, u.rkey)))
  }

  /** A repost of a rendered URI references that URI and carries its record key as the CID. */
  lemma MakeRepostOfRendered(repo: string, u: Uri)
    requires WellFormed(u)
    ensures MakeRepost(repo, Render(u)) == Ok(RepostRecord(REPOST_COLLECTION, repo, StrongRef(Render(u), u.rkey)))
  {
    ParseRender(u);
  }

  /** The last element of `strings.Split(link, "/")`. */
  function LastSegment(link: Bytes): (r: Bytes)
    ensures Free(r, SLASH) && |r| <= |link| && link[|link| - |r|..] == r
    ensures |r| == |link| || link[|link| - |r| - 1] == SLASH
  {
    var parts := Split(link, SLASH);
    JoinSplit(link, SLASH);
    SplitPartsFree(link, SLASH);
    JoinEndsWithLast(parts, SLASH);
    parts[|parts| - 1]
  }

  lemma {:induction false} JoinEndsWithLast(parts: seq<Bytes>, sep: Byte)
    requires |parts| >= 1
    ensures var j, last := Join(parts, sep), parts[|parts| - 1];
      |last| <= |j| && j[|j| - |last|..] == last &&
      (|parts| == 1 ==> j == last) &&
      (|parts| > 1 ==> |last| < |j| && j[|j| - |last| - 1] == sep)
    decreases |parts|
  {
    if |parts| > 1 {
      JoinEndsWithLast(parts[1..], sep);
    }
  }

  const TRENDS_REPO: Bytes := Ascii("did:plc:qrz3lhbyuxbeilrc6nekdqme")
  const FEED_GENERATOR: Bytes := Ascii("app.bsky.feed.generator")

  /** A text of one-byte characters other than `/` encodes to a slash-free byte string. */
  lemma AsciiSlashFree(t: string)
    requires forall i :: 0 <= i < |t| ==> t[i] != '/' && t[i] as int < 0x100
    ensures Free(Ascii(t), SLASH)
  {
  }

  lemma TrendsConstantsValid()
    ensures ValidSegment(TRENDS_REPO) && ValidSegment(FEED_GENERATOR)
  {
    AsciiSlashFree("did:plc:qrz3lhbyuxbeilrc6nekdqme");
    AsciiSlashFree("app.bsky.feed.generator");
  }

  /** The URI the trending-topics handler prints for a trend link. */
  function TrendingFeedUri(link: Bytes): Bytes {
    SCHEME + TRENDS_REPO + [SLASH] + FEED_GENERATOR + [SLASH] + LastSegment(link)
  }

  /**
   * The rewritten link is the feed-generator URI whose record key is the
   * link's last path segment: it parses back to exactly that URI whenever the
   * segment is non-empty.
   */
  lemma TrendingFeedUriParses(link: Bytes)
    requires |LastSegment(link)| > 0
    ensures ParseUri(TrendingFeedUri(link)) == Ok(Uri(TRENDS_REPO, FEED_GENERATOR, LastSegment(link)))
  {
    var k := LastSegment(link);
    assert TrendingFeedUri(link) == SCHEME + TRENDS_REPO + [SLASH] + FEED_GENERATOR + [SLASH] + k;
    TrendsConstantsValid();
    ParseSegments(TRENDS_REPO, FEED_GENERATOR, k);
  }

  lemma ParseSegments(repo: Bytes, collection: Bytes, rkey: Bytes)
    requires ValidSegment(repo) && ValidSegment(collection) && ValidSegment(rkey)
    ensures ParseUri(SCHEME + repo + [SLASH] + collection + [SLASH] + rkey) == Ok(Uri(repo, collection, rkey))
  {
    var u := Uri(repo, collection, rkey);
    RenderSegments(u);
    ParseRender(u);
  }

  /** A trend link ending in `/` is rewritten into a URI that `parseURI` rejects. */
  lemma TrendingFeedUriRejected(link: Bytes)
    requires |link| > 0 && link[|link| - 1] == SLASH
    ensures ParseUri(TrendingFeedUri(link)).Err?
  {
    var s := TrendingFeedUri(link);
    assert LastSegment(link) == [];
    assert s[|s| - 1] == SLASH;
    if ParseUri(s).Ok? {
      var v := ParseUri(s).value;
      RenderSegments(v);
      assert false;
    }
  }
}
