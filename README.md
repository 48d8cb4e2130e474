# bsky-mcp: a verified model of the post, URI and session logic

The Bluesky MCP server exposes Bluesky actions (posting, reposting, reading
feeds, trends) as tools. This project models, in Dafny, the parts of
`main.go` and `auth.go` that hold its own logic, and proves what they do:

- **Facet extraction** (`getFacetsFromString`): three passes over the post
  text. Link matches, resolved `@handle` mentions and `#tag` runs each
  become byte-indexed rich-text facets, appended to one list
  (`facets.dfy`).
- **AT-URIs** (`parseURI`, `makeRepost`, the trending-topic link rewrite):
  `at://repo/collection/rkey` parsing with its round trip, the repost
  record, and the feed-generator URI built from the last path segment of
  a trend link (`aturi.dfy`, with `strings.Split`/`strings.Join` in
  `bytes.dfy`).
- **Posts** (`posts.dfy`):
  - the `createPost` length gate and the record `makePost` builds;
  - `generateFacetListFromPost`, which lists a stored post's facets;
  - the selection `getSavedFeeds` makes over the account preferences.
- **Sessions** (`loadAuthSession`, `refreshAuthSession`, in `auth.dfy`):
  - reading the stored session and reconciling its DID with the configured
    username;
  - refreshing the session, and falling back to one fresh login;
  - the login itself: directory lookup, session creation, the DID check
    and the store write.

Go strings are byte strings (`Bytes = seq<Byte>`), and every offset is a
byte offset, as in the source.

Calls into libraries and the network become inputs:
- The link and mention regexps are represented by their match spans, which
  must be inside the text, non-empty and in increasing order. Mention
  matches also start with `@`.
- Handle resolution is a function parameter, `resolve`.
- For the session code, a `World` value holds the answer to each external
  call. The k-th lookup, session creation and refresh fail when k is not a
  key of their map. `ParseDID` accepts exactly the strings in `validDids`.
  The session methods also return the trace of the external calls they
  issued, so their contracts can say which calls happen, in which order and
  with which arguments.

A link match at byte 0 is a real defect of the source. Its facet is
appended, and then `s[startIndex-1:startIndex]` panics. The model makes
this an explicit outcome (`SlicePanic`, `ExtractionPanicked`) instead of
assuming it away, and defines beside it the pass as evidently meant,
where such a match is emitted once and the loop goes on (see Findings).

## Model

| member | source | states |
|---|---|---|
| Facets.GetFacetsFromString | main.go:895-985 | The call panics exactly when the first link match starts at byte 0, having appended that one link facet. Otherwise it returns the link facets, then the mention facets, then the tag facets. |
| Facets.LinkPass | main.go:904-938 | The link loop panics exactly when the first match starts at byte 0, after appending its facet. Otherwise its facets are those of the kept matches, in match order. |
| Facets.MentionPass | main.go:940-963 | The mention loop appends, to the facets it is given, one facet per match whose handle resolves, in match order. |
| Facets.TagPass | main.go:965-982 | The tag loop appends one facet per `#(\S*)` match, in text order. |
| Facets.RunEnd | main.go:899 | `\S*` stops at the first Go space byte or at the end of the text, and covers only non-space bytes. |
| Facets.TagMatchesFrom | main.go:965-982 | The `#(\S*)` matches found from a position are in bounds, increasing and non-overlapping, and each starts at `#`. |
| Facets.LinkFacetsFromKept | main.go:925-937 | Every link facet is the facet of some match whose preceding byte is neither `@` nor `#`. |
| Facets.LinkFacetsLeftToRight | main.go:904-938 | Link facets do not overlap and come in text order. |
| Facets.LinkFacetsHaveKept | main.go:925-937 | Every match whose preceding byte exists and is neither `@` nor `#` produces its facet. |
| Facets.LinkFacetsFaithful | main.go:904-938 | A match produces a facet if and only if its preceding byte exists and is neither `@` nor `#`. The facet holds the match's offsets and bytes unchanged. Facets come in text order, one per kept match. |
| Facets.LinkAtStartPanics | main.go:911-926 | For a post that starts with `https://example.com`, the pass as written appends the link's facet once and then panics. |
| Facets.IntendedLinkFacetsFrom | main.go:911-937 | Every facet of the intended link pass comes from a match at byte 0 or a match not preceded by `@` or `#`. |
| Facets.IntendedLinkFacetsHave | main.go:911-937 | The intended link pass yields a match's facet if and only if the match is at byte 0 or not preceded by `@` or `#`. |
| Facets.IntendedLinkFacetsOrdered | main.go:904-938 | The intended link pass emits its facets in match order, without overlap. |
| Facets.IntendedLinkFacetsFaithful | main.go:904-938 | The intended link pass keeps exactly the matches at byte 0 or not preceded by `@` or `#`, each exactly once, in match order, with the match's offsets and bytes. |
| Facets.IntendedLinkPass | main.go:904-938 | The link loop with the offset-0 case repaired (append, then go on to the next match) computes the intended link facets. |
| Facets.LinkAtStartKept | main.go:911-926 | For the same post, the repaired pass returns the link exactly once. |
| Facets.MentionFacetsFromResolved | main.go:940-963 | Every mention facet comes from a match whose handle resolved. |
| Facets.MentionFacetsLeftToRight | main.go:940-963 | Mention facets do not overlap and come in text order. |
| Facets.MentionFacetsHaveResolved | main.go:947-962 | Every match whose handle resolves produces its facet. |
| Facets.MentionFacetsFaithful | main.go:940-963 | A match produces a facet if and only if the match minus its `@` resolves. The facet spans the whole match, `@` included, and carries the resolved DID. Unresolved matches are skipped, and the order is kept. |
| Facets.TagMatchesCover | main.go:965 | Every `#` at or after the scan position lies inside some match. |
| Facets.TagMatchesMaximal | main.go:965 | Each match ends at a space byte or at the end of the text, and holds no space byte. |
| Facets.TagFacetsFaithful | main.go:965-982 | Tag facets are in text order and in bounds. Each starts at `#`, covers a maximal run of non-space bytes, and carries that run without its `#`, unchanged. |
| Facets.TagFacetsCoverHashes | main.go:965-982 | Every `#` of the text lies inside some tag facet, including a `#` that is not at the start of its run. |
| Facets.ExtractedOrderedAndInBounds | main.go:895-985 | In a returned facet list, all links come before all mentions, which come before all tags. Within a pass the facets are in text order, and every facet indexes validly into the text. |
| Facets.TagInsideRun | main.go:899 | `#a#b` gives a single tag, `a#b`. |
| Facets.TagKeepsPunctuation | main.go:899 | `#foo-bar!` gives the tag `foo-bar!`, with its punctuation. |
| Facets.LinkPrecedence | main.go:925-926 | A link right after `#` is dropped; a link after a space is kept. |
| Facets.UnresolvedMentionSkipped | main.go:947-951 | A mention whose handle does not resolve produces no facet and no failure. |
| ByteText.Split | main.go:695 | `strings.Split` with a one-byte separator always returns at least one part. |
| ByteText.SplitPartsFree | main.go:695 | No part of a split contains the separator. |
| ByteText.JoinSplit | main.go:695 | Joining the parts of a split with the separator gives back the input. |
| ByteText.SplitJoin | main.go:695 | Splitting a join of separator-free parts gives back the parts. |
| AtUri.ParseUri | main.go:832-843 | A successful parse returns three non-empty, slash-free segments whose rendering `at://repo/collection/rkey` is exactly the input. A failure reports the input. |
| AtUri.ParseRender | main.go:832-843 | Round trip: rendering a well-formed URI and parsing it gives back the same URI. |
| AtUri.ParseUriIff | main.go:833-836 | Parsing succeeds exactly on the renderings of well-formed URIs. |
| AtUri.MakeRepost | main.go:871-893 | The call fails exactly when parsing the subject fails, with the same error. Otherwise it builds an `app.bsky.feed.repost` record for the repo, whose subject URI is the input and whose CID field holds the URI's record key. |
| AtUri.MakeRepostOfRendered | main.go:871-893 | Reposting a rendered URI gives exactly the record that references it and has its rkey as CID. |
| AtUri.LastSegment | main.go:695 | The last element of the split is slash-free and a suffix of the link. It is the whole link, or it follows the link's last `/`. |
| AtUri.JoinEndsWithLast | main.go:695 | A join ends with its last part, preceded by the separator when there is more than one part. |
| AtUri.TrendingFeedUriParses | main.go:695-696 | When the link's last segment is non-empty, the rewritten URI parses back to the trends repo, `app.bsky.feed.generator` and that segment. |
| AtUri.TrendingFeedUriRejected | main.go:695-696 | A trend link ending in `/` is rewritten into a URI that `parseURI` rejects. |
| Posts.CheckLength | main.go:65-70 | A message passes if and only if it has 1 to 300 bytes. The empty-message error is reported only for an empty message. |
| Posts.CreatePost | main.go:65-72 | A message over 300 bytes is rejected as too long, and an empty one as empty. A message in bounds whose first link match starts at byte 0 panics. Otherwise the record is built, and only then. It holds the message unchanged, the client's DID and the extracted facets. |
| Posts.GenerateFacetList | main.go:1072-1092 | The listing of a post is the concatenation, facet by facet, of each facet's feature lines. |
| Posts.AppendFeatureLines | main.go:1076-1088 | The inner loop appends one facet's feature lines to what was already listed. |
| Posts.ListingStoredFacets | main.go:1072-1092 | Listing the facets of a post created by `makePost` gives back exactly the extracted facets, in the same order, with the same offsets and payloads. |
| Posts.FeaturesLinesCount | main.go:1077-1087 | A facet lists one line per pointer that is set in its feature elements, and every line carries that facet's offsets. |
| Posts.GetSavedFeeds | main.go:987-1006 | An empty preference list is an error. The first saved-feeds preference decides: an error if it lists nothing, otherwise its items. "No saved feeds" is reported exactly when there is no such preference. |
| Auth.FindPds | auth.go:92-105 | A given PDS URL is used as is, with no call made. Otherwise a single lookup takes place. It fails when the lookup fails or returns an empty PDS endpoint, and otherwise returns the directory's identity. |
| Auth.OpenSession | auth.go:116-153 | A single `CreateSession` is made at the PDS, with the username's text, the password and the auth-factor token only when non-empty. A failed creation is an error. With no expected DID, the server's DID must be a valid DID; otherwise it must equal the expected one, or a mismatch naming both is returned. The call succeeds exactly when the server creates a session whose DID is accepted, whatever the store write's outcome. On success the new record (DID, password, refresh token, PDS) is written to the store once, as the last call, and returned. |
| Auth.RefreshAuthSession | auth.go:89-154 | No refresh is made, and a lookup is made only when no PDS URL is given, as the first call. The login succeeds exactly when the PDS is known (given, or a non-empty directory endpoint), the server creates a session, and its DID is accepted: a valid DID when no DID was known, and otherwise equal to the directory's DID or, failing that, the username's DID. A mismatch with the expected DID is an error naming both. Exactly one `CreateSession` is made when the PDS is known, right after the lookup, at that PDS with the username's text and the password. On success the record holds that PDS, the created session's DID and refresh token and the given password. The record is written exactly when the call succeeds. |
| Auth.Retry | auth.go:69-82 | The fallback makes one login, with a lookup first and then, when the directory gave a non-empty PDS, exactly one `CreateSession` at that PDS with the username and password. The login writes a session exactly when it succeeds, and the written record is the created session's DID and refresh token, the password and the directory's PDS endpoint, and only then is a second refresh sent, with the new PDS and the new refresh token as both tokens. The fallback succeeds exactly when that login and the second refresh both succeed. A failure of the second refresh is returned. On success the client holds the second refresh's tokens, the directory's PDS endpoint for this login as host, and the session's DID. |
| Auth.ResumeSession | auth.go:58-86 | The first call is a refresh with no host and the stored token as both tokens. If it succeeds, nothing else happens, and the client has an empty host, the session's DID and the new tokens. If it fails, exactly one fallback login follows, starting with a lookup, and at most one more refresh. The call succeeds exactly when the first refresh does, or the fallback login and the refresh after it both do. Every written record is the fallback login's created session with the password and the directory's PDS endpoint. After the fallback, the client holds that endpoint as host, the session's DID and the second refresh's tokens. |
| Auth.Reconcile | auth.go:47-56 | A stored DID equal to the username's DID is kept, and so is an empty stored DID when the username is a handle, with no call made. A handle facing a non-empty stored DID is an error. A DID username with a different stored DID leads to a fresh login: the check succeeds exactly when that login does, and the returned session is the one the login wrote: the created session's DID and refresh token, the password and the directory's PDS endpoint. |
| Auth.LoadStored | auth.go:47-86 | There are at most two logins, two refreshes and two writes. The logins are one for an identity mismatch plus one for a failed first refresh. The first refresh uses the stored token, or the new login's token after a mismatch. Every written record is one login's created session (DID and refresh token) with the password and that login's directory PDS endpoint, so a refreshed token is never written. A decoded record leads to a client exactly when it is kept (or replaced by a successful login) and then resumed. A kept record whose first refresh succeeds gives the client with an empty host, the stored DID and the refreshed tokens. After the fallback, the last written record is the fallback login's (the second login after a mismatch, else the first), the client's host is that login's directory PDS endpoint, and its tokens are those of the second refresh. The client carries the stored DID, or after a mismatch the new session's DID. |
| Auth.LoadAuthSession | auth.go:27-86 | A read error or undecodable JSON is returned with no call made. A missing file leads to one login, starting with a lookup, and always ends in an error. When that login succeeds, its record (the created session with the password and the directory's PDS endpoint) is written and the error is the decoding error. When it fails, nothing is written and a login error is returned. A client is returned exactly when a record was decoded and then kept or replaced and resumed. A stored record matching the username is first refreshed with no host and its token as both tokens; when that refresh succeeds, it gives the client with an empty host, the stored DID and the refreshed tokens. After the fallback the last written record is the fallback login's, the host is that login's directory PDS endpoint, and the tokens come from the second refresh. The client carries the stored DID, or after a mismatch the new session's DID. Whatever the file held, every written record is one login's created session with the password and that login's PDS endpoint. |

## Findings

| source | as written | input that shows it | evidently intended | confidence | as-written member | corrected member |
|---|---|---|---|---|---|---|
| main.go:911-926 | A link match at byte 0 is appended, and then the byte before it is read with `s[startIndex-1:startIndex]`, whose start index is -1, so the call panics and the post is never created. | A post whose text starts with `https://example.com`, that is, the link match `[0, 19)`. | A match at byte 0 has no preceding byte, so it cannot follow `@` or `#`: it is emitted once and the loop goes on to the next match. | high; not executed | Facets.LinkAtStartPanics | Facets.IntendedLinkPass |

The extraction model (`GetFacetsFromString`, `CreatePost`) keeps the
behaviour as written, since that is what the program does; the repaired
pass and its properties (`IntendedLinkFacetsFaithful`) state what the fix
would give.

## Left out

- The link and mention regexps are not modelled. Their matches are inputs satisfying what `FindAllStringIndex` guarantees for them. The tag regexp `#(\S*)` is modelled exactly.
- Network calls are inputs: handle resolution, the directory lookup, `ServerCreateSession`, `ServerRefreshSession`, record creation, preference and trend fetches. The same goes for `ParseDID`, the file read and JSON decoding, each an answer of the `World` or a parameter.
- The `fmt.Println` logging, the `Sprintf` rendering of facet lines and trend entries, timestamps (`DatetimeNow`), the user agent and the HTTP client are left out. `generateFacetListFromPost` lines are modelled as the facet values they render.
- The MCP tool registration and the other handlers of `main.go` are left out, apart from the `createPost` gate and the trending rewrite.
- Posts.GetSavedFeeds: the preference fetch and its error are not modelled. The model starts from the fetched list.
- Posts.GenerateFacetList: a facet with a nil `Index` panics in the source. The model gives every stored facet its offsets. A nil `Facets` or `Features` list is the empty sequence.
- Auth.LoadAuthSession: JSON `null` in the session file decodes to a nil session, and the source then panics on `sess.DID`. The model treats that file as an undecodable record. A nil username pointer is not modelled either.
- Auth.RefreshAuthSession: the `AsDID` error at auth.go:109-111 cannot happen once `IsDID` holds, so the model has no such branch.
- Auth.OpenSession: the outcome of `writeAuthSession` is recorded in the trace but not acted upon, as in the source. The file permissions and JSON encoding of the write are left out.
- Auth.RefreshAuthSession: the clause that the store write is the last call is stated by Auth.OpenSession and not repeated here.
- Auth.ResumeSession: the first refresh is sent by a client whose host is empty. The `World` lets that refresh succeed or fail; whether the HTTP client can reach any server with an empty host is library behaviour outside this model, and it may be that this refresh always fails so every start logs in.
- Concurrency and the context cancellation of the network calls are left out.
