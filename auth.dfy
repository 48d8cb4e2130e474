/**
 * Session acquisition of auth.go: `loadAuthSession` reads the stored session,
 * reconciles it with the configured identity, refreshes it and falls back to
 * one fresh login; `refreshAuthSession` performs that login and stores the
 * new session.
 *
 * Every external step is an answer supplied by a `World`: the session file
 * read and its JSON decoding, the directory lookup, `ServerCreateSession`,
 * `syntax.ParseDID`, the store write and `ServerRefreshSession`. The k-th
 * call of a kind gets the k-th answer. The methods return, besides their
 * result, the trace of external calls they issued.
 */
module Auth {
  import opened Wrappers

  /** `syntax.AtIdentifier`: a DID or a handle. */
  datatype AtIdentifier = DidId(did: string) | HandleId(handle: string) {
    /** `String()` */
    function Text(): string {
      match this
      case DidId(d) => d
      case HandleId(h) => h
    }

    /** The DID `AsDID()` returns: the empty DID for a handle (which also gets an error). */
    function DidOrEmpty(): string {
      match this
      case DidId(d) => d
      case HandleId(_) => ""
    }
  }

  /** The stored record (`did`, `password`, `session_token`, `pds`). */
  datatype AuthSession = AuthSession(did: string, password: string, refreshToken: string, pds: string)

  /** What the directory lookup returns: the account's DID and PDS endpoint. */
  datatype Identity = Identity(did: string, pdsEndpoint: string)

  /** What `ServerCreateSession` returns. */
  datatype CreatedSession = CreatedSession(did: string, accessJwt: string, refreshJwt: string)

  /** What `ServerRefreshSession` returns. */
  datatype Tokens = Tokens(accessJwt: string, refreshJwt: string)

  /** The session file: absent, unreadable, not valid JSON, or a decoded record. */
  datatype StoreRead = Missing | Unreadable | Malformed | Stored(session: AuthSession)

  /**
   * The answers of the outside world. The k-th lookup, session creation and
   * refresh fail when k is not a key of their map; `ParseDID` accepts exactly
   * the strings of `validDids`; the k-th store write succeeds when k is in
   * `writeOk`.
   */
  datatype World = World(
    store: StoreRead,
    lookup: map<nat, Identity>,
    create: map<nat, CreatedSession>,
    validDids: set<string>,
    writeOk: set<nat>,
    refresh: map<nat, Tokens>)

  /** The external calls, with the arguments that matter. */
  datatype Call =
    | Lookup(id: AtIdentifier)
    | CreateSession(host: string, identifier: string, password: string, authFactorToken: Option<string>)
    | WriteStore(session: AuthSession, ok: bool)
    | RefreshSession(host: string, accessJwt: string, refreshJwt: string)

  /** The errors a login can end with. */
  predicate LoginError(e: AuthError) {
    e.LookupFailed? || e.EmptyPdsUrl? || e.CreateSessionFailed? || e.SessionDidInvalid? || e.DidMismatch?
  }

  datatype AuthError =
    | ReadFailed
    | UnmarshalFailed
    | UsernameNotDid
    | LookupFailed
    | EmptyPdsUrl
    | CreateSessionFailed
    | SessionDidInvalid
    | DidMismatch(got: string, expected: string)
    | RefreshFailed

  /** The part of `xrpc.Client` the session manager sets. */
  datatype Client = Client(host: string, did: string, accessJwt: string, refreshJwt: string)

  // ------------------------------------------------------------ call traces

  datatype CallKind = LookupKind | CreateKind | WriteKind | RefreshKind

  function KindOf(c: Call): CallKind {
    match c
    case Lookup(_) => LookupKind
    case CreateSession(_, _, _, _) => CreateKind
    case WriteStore(_, _) => WriteKind
    case RefreshSession(_, _, _) => RefreshKind
  }

  /** How many calls of kind `k` the trace holds. */
  function Count(t: seq<Call>, k: CallKind): nat
    decreases |t|
  {
    if t == [] then 0 else Count(t[..|t| - 1], k) + if KindOf(t[|t| - 1]) == k then 1 else 0
  }

  /** Logins: each `refreshAuthSession` with no PDS URL starts with one lookup. */
  function Logins(t: seq<Call>): nat {
    Count(t, LookupKind)
  }

  function Refreshes(t: seq<Call>): nat {
    Count(t, RefreshKind)
  }

  /** The sessions the trace writes to the store, in order. */
  function Written(t: seq<Call>): seq<AuthSession>
    decreases |t|
  {
    if t == [] then []
    else Written(t[..|t| - 1]) + if t[|t| - 1].WriteStore? then [t[|t| - 1].session] else []
  }

  /** The first refresh call of a trace. */
  function FirstRefresh(t: seq<Call>): Option<Call>
    decreases |t|
  {
    if t == [] then None
    else if t[0].RefreshSession? then Some(t[0])
    else FirstRefresh(t[1..])
  }

  lemma {:induction false} TraceAppend(a: seq<Call>, b: seq<Call>)
    ensures Count(a + b, LookupKind) == Count(a, LookupKind) + Count(b, LookupKind)
    ensures Count(a + b, CreateKind) == Count(a, CreateKind) + Count(b, CreateKind)
    ensures Count(a + b, RefreshKind) == Count(a, RefreshKind) + Count(b, RefreshKind)
    ensures Written(a + b) == Written(a) + Written(b)
    ensures FirstRefresh(a + b) == if FirstRefresh(a).Some? then FirstRefresh(a) else FirstRefresh(b)
    decreases |b|
  {
    if b != [] {
      var n := |b| - 1;
      TraceAppend(a, b[..n]);
      assert b[..n] + [b[n]] == b;
      assert (a + b)[..|a + b| - 1] == a + b[..n];
    } else {
      assert a + b == a;
    }
    FirstRefreshAppend(a, b);
  }

  lemma {:induction false} FirstRefreshAppend(a: seq<Call>, b: seq<Call>)
    ensures FirstRefresh(a + b) == if FirstRefresh(a).Some? then FirstRefresh(a) else FirstRefresh(b)
    decreases |a|
  {
    if a == [] {
      assert a + b == b;
    } else {
      assert (a + b)[1..] == a[1..] + b;
      FirstRefreshAppend(a[1..], b);
    }
  }

  /** A one-call trace. */
  lemma Single(c: Call)
    ensures Count([c], LookupKind) == if c.Lookup? then 1 else 0
    ensures Count([c], CreateKind) == if c.CreateSession? then 1 else 0
    ensures Count([c], RefreshKind) == if c.RefreshSession? then 1 else 0
    ensures Written([c]) == if c.WriteStore? then [c.session] else []
    ensures FirstRefresh([c]) == if c.RefreshSession? then Some(c) else None
  {
    assert [c][..0] == [];
    assert [c][1..] == [];
  }

  /** Appending one call adds one to its kind's count and leaves an earlier first refresh in place. */
  lemma Snoc(t: seq<Call>, c: Call)
    ensures Count(t + [c], LookupKind) == Count(t, LookupKind) + if c.Lookup? then 1 else 0
    ensures Count(t + [c], CreateKind) == Count(t, CreateKind) + if c.CreateSession? then 1 else 0
    ensures Count(t + [c], RefreshKind) == Count(t, RefreshKind) + if c.RefreshSession? then 1 else 0
    ensures Written(t + [c]) == Written(t) + if c.WriteStore? then [c.session] else []
    ensures FirstRefresh(t + [c]) == if FirstRefresh(t).Some? then FirstRefresh(t)
                                     else if c.RefreshSession? then Some(c) else None
  {
    assert (t + [c])[..|t|] == t;
    FirstRefreshAppend(t, [c]);
    assert [c][1..] == [];
  }

  /** A login's trace: an optional lookup followed by calls that are neither lookups nor refreshes. */
  lemma LoginTrace(prefix: seq<Call>, rest: seq<Call>, username: AtIdentifier)
    requires prefix == [] || prefix == [Lookup(username)]
    requires Count(rest, LookupKind) == 0 && Count(rest, RefreshKind) == 0 && FirstRefresh(rest) == None
    ensures Count(prefix + rest, RefreshKind) == 0 && FirstRefresh(prefix + rest) == None
    ensures Logins(prefix + rest) == |prefix|
    ensures Count(prefix + rest, CreateKind) == Count(rest, CreateKind)
    ensures rest != [] ==> (prefix + rest)[|prefix|] == rest[0]
    ensures prefix != [] ==> (prefix + rest)[0] == Lookup(username)
    ensures Written(prefix + rest) == Written(rest)
  {
    Single(Lookup(username));
    TraceAppend(prefix, rest);
  }

  // ------------------------------------------------------ refreshAuthSession

  /**
   * The DID a login accepts from the server: the expected one, or when none
   * is expected any syntactically valid DID.
   */
  predicate DidAccepted(world: World, expected: string, got: string) {
    if expected == "" then got in world.validDids else got == expected
  }

  /** A PDS URL was given, or the directory supplied a non-empty one. */
  predicate LookupPassed(world: World, attempt: nat, pdsURL: string) {
    pdsURL != "" || (attempt in world.lookup && world.lookup[attempt].pdsEndpoint != "")
  }

  /**
   * The DID a login must end with: the directory's, or else the username
   * itself when it is a DID; "" when neither is known.
   */
  function ExpectedDid(world: World, attempt: nat, username: AtIdentifier, pdsURL: string): string {
    var fromLookup := if pdsURL == "" && attempt in world.lookup then world.lookup[attempt].did else "";
    if fromLookup == "" && username.DidId? then username.did else fromLookup
  }

  /**
   * The conditions under which the `attempt`-th login succeeds: the PDS is
   * known, the server creates a session, and its DID is accepted.
   */
  predicate LoginSucceeds(world: World, attempt: nat, username: AtIdentifier, pdsURL: string) {
    && LookupPassed(world, attempt, pdsURL)
    && attempt in world.create
    && DidAccepted(world, ExpectedDid(world, attempt, username, pdsURL), world.create[attempt].did)
  }

  /**
   * The second half of `refreshAuthSession`: create a session at `pds`,
   * reconcile its DID with `did` (the expected DID, "" when unknown), store
   * the new record and return it. The store write's outcome is ignored.
   */
  method OpenSession(world: World, attempt: nat, username: AtIdentifier, password: string,
                     pds: string, did: string, authFactorToken: string)
    returns (r: Result<AuthSession, AuthError>, trace: seq<Call>)
    ensures Count(trace, LookupKind) == 0 && Count(trace, RefreshKind) == 0 && FirstRefresh(trace) == None
    ensures Count(trace, CreateKind) == 1
    ensures trace[0] == CreateSession(pds, username.Text(), password,
                                      if authFactorToken == "" then None else Some(authFactorToken))
    ensures attempt !in world.create ==> r == Err(CreateSessionFailed)
    ensures r.Err? ==> LoginError(r.error)
    ensures r.Ok? ==>
              && attempt in world.create
              && r.value == AuthSession(world.create[attempt].did, password,
                                        world.create[attempt].refreshJwt, pds)
    ensures r.Ok? ==> DidAccepted(world, did, r.value.did)
    ensures r.Ok? <==> attempt in world.create && DidAccepted(world, did, world.create[attempt].did)
    ensures attempt in world.create && did == "" && world.create[attempt].did !in world.validDids ==>
      r == Err(SessionDidInvalid)
    ensures attempt in world.create && did != "" && world.create[attempt].did != did ==>
      r == Err(DidMismatch(world.create[attempt].did, did))
    ensures r.Ok? ==> |trace| > 0 && trace[|trace| - 1] == WriteStore(r.value, attempt in world.writeOk)
    ensures Written(trace) == if r.Ok? then [r.value] else []
  {
    var token := if authFactorToken != "" then Some(authFactorToken) else None;
    Single(CreateSession(pds, username.Text(), password, token));
    trace := [CreateSession(pds, username.Text(), password, token)];
    if attempt !in world.create {
      return Err(CreateSessionFailed), trace;
    }
    var sess := world.create[attempt];
    var sessionDid := did;
    if sessionDid == "" {
      if sess.did !in world.validDids {
        return Err(SessionDidInvalid), trace;
      }
      sessionDid := sess.did;
    } else if sess.did != sessionDid {
      return Err(DidMismatch(sess.did, sessionDid)), trace;
    }
    var authSession := AuthSession(sessionDid, password, sess.refreshJwt, pds);
    Snoc(trace, WriteStore(authSession, attempt in world.writeOk));
    trace := trace + [WriteStore(authSession, attempt in world.writeOk)];
    return Ok(authSession), trace;
  }

  /**
   * The first half of `refreshAuthSession`: a given PDS URL is used as is
   * (the DID is then not yet known); otherwise the directory supplies the
   * PDS endpoint, which must not be empty, and the DID.
   */
  method FindPds(world: World, attempt: nat, username: AtIdentifier, pdsURL: string)
    returns (r: Result<Identity, AuthError>, trace: seq<Call>)
    ensures trace == if pdsURL == "" then [Lookup(username)] else []
    ensures r.Ok? <==> LookupPassed(world, attempt, pdsURL)
    ensures r.Ok? ==> r.value.pdsEndpoint != ""
    ensures pdsURL != "" ==> r == Ok(Identity("", pdsURL))
    ensures pdsURL == "" && attempt !in world.lookup ==> r == Err(LookupFailed)
    ensures pdsURL == "" && attempt in world.lookup ==>
      r == if world.lookup[attempt].pdsEndpoint == "" then Err(EmptyPdsUrl) else Ok(world.lookup[attempt])
  {
    if pdsURL != "" {
      return Ok(Identity("", pdsURL)), [];
    }
    trace := [Lookup(username)];
    if attempt !in world.lookup {
      r := Err(LookupFailed);
    } else if world.lookup[attempt].pdsEndpoint == "" {
      r := Err(EmptyPdsUrl);
    } else {
      r := Ok(world.lookup[attempt]);
    }
  }

  /**
   * `refreshAuthSession` as the `attempt`-th login: find the PDS, then open
   * a session there.
   */
  method RefreshAuthSession(world: World, attempt: nat, username: AtIdentifier, password: string,
                            pdsURL: string, authFactorToken: string)
    returns (r: Result<AuthSession, AuthError>, trace: seq<Call>)
    ensures Count(trace, RefreshKind) == 0 && FirstRefresh(trace) == None
    ensures r.Err? ==> LoginError(r.error)
    ensures Logins(trace) == if pdsURL == "" then 1 else 0
    ensures pdsURL == "" ==> trace[0] == Lookup(username)
    ensures r.Ok? ==> LookupPassed(world, attempt, pdsURL) && r.value.pds != ""
    ensures r.Ok? ==> r.value.pds == if pdsURL == "" then world.lookup[attempt].pdsEndpoint else pdsURL
    ensures r.Ok? ==>
              && attempt in world.create
              && r.value == AuthSession(world.create[attempt].did, password,
                                        world.create[attempt].refreshJwt, r.value.pds)
    ensures r.Ok? ==> DidAccepted(world, ExpectedDid(world, attempt, username, pdsURL), r.value.did)
    ensures r.Ok? <==> LoginSucceeds(world, attempt, username, pdsURL)
    ensures r.Ok? && pdsURL == "" ==> FromLogin(world, r.value, attempt, password)
    ensures Count(trace, CreateKind) == if LookupPassed(world, attempt, pdsURL) then 1 else 0
    ensures LookupPassed(world, attempt, pdsURL) ==>
      |trace| > Logins(trace) &&
      trace[Logins(trace)] == CreateSession(if pdsURL == "" then world.lookup[attempt].pdsEndpoint else pdsURL,
                                            username.Text(), password,
                                            if authFactorToken == "" then None else Some(authFactorToken))
    ensures LookupPassed(world, attempt, pdsURL) && attempt in world.create &&
            ExpectedDid(world, attempt, username, pdsURL) != "" &&
            world.create[attempt].did != ExpectedDid(world, attempt, username, pdsURL) ==>
      r == Err(DidMismatch(world.create[attempt].did, ExpectedDid(world, attempt, username, pdsURL)))
    ensures Written(trace) == if r.Ok? then [r.value] else []
  {
    var found, prefix := FindPds(world, attempt, username, pdsURL);
    if found.Err? {
      Single(Lookup(username));
      return Err(found.error), prefix;
    }
    var did := found.value.did;
    // a DID username supplies the DID when the lookup did not
    if did == "" && username.DidId? {
      did := username.did;
    }
    assert did == ExpectedDid(world, attempt, username, pdsURL);
    assert found.value.pdsEndpoint == if pdsURL == "" then world.lookup[attempt].pdsEndpoint else pdsURL;
    var rest;
    r, rest := OpenSession(world, attempt, username, password, found.value.pdsEndpoint, did, authFactorToken);
    LoginTrace(prefix, rest, username);
    trace := prefix + rest;
  }


  // --------------------------------------------------------- loadAuthSession

  /**
   * `w` is the record the `n`-th login stores when no PDS URL is given: the
   * created session's DID and refresh token, the password, and the PDS
   * endpoint the directory returned.
   */
  predicate FromLogin(world: World, w: AuthSession, n: nat, password: string) {
    && n in world.lookup
    && n in world.create
    && w == AuthSession(world.create[n].did, password, world.create[n].refreshJwt, world.lookup[n].pdsEndpoint)
  }

  /**
   * The fallback of `loadAuthSession` after a failed refresh: log in once
   * more (the `logins`-th login), point the client at the new PDS with the
   * new refresh token as both tokens, and refresh again; a second failure
   * is returned.
   */
  method Retry(world: World, logins: nat, username: AtIdentifier, password: string, did: string)
    returns (r: Result<Client, AuthError>, trace: seq<Call>)
    ensures Logins(trace) == 1 && |trace| > 0 && trace[0] == Lookup(username)
    ensures Refreshes(trace) == if Written(trace) == [] then 0 else 1
    ensures |Written(trace)| <= 1 && forall w | w in Written(trace) :: FromLogin(world, w, logins, password)
    ensures Count(trace, CreateKind) == if LookupPassed(world, logins, "") then 1 else 0
    ensures LookupPassed(world, logins, "") ==>
      |trace| > 1 && trace[1] == CreateSession(world.lookup[logins].pdsEndpoint, username.Text(), password, None)
    ensures Written(trace) != [] ==>
      var w := Written(trace)[0];
      trace[|trace| - 1] == RefreshSession(w.pds, w.refreshToken, w.refreshToken)
    ensures Written(trace) != [] && 1 !in world.refresh ==> r == Err(RefreshFailed)
    ensures Written(trace) != [] <==> LoginSucceeds(world, logins, username, "")
    ensures r.Ok? <==> LoginSucceeds(world, logins, username, "") && 1 in world.refresh
    ensures r.Ok? ==>
      && Written(trace) != []
      && 1 in world.refresh
      && world.refresh[1] == Tokens(r.value.accessJwt, r.value.refreshJwt)
      && r.value.host == Written(trace)[0].pds
      && r.value.host == world.lookup[logins].pdsEndpoint
      && r.value.did == did
  {
    var fallback;
    fallback, trace := RefreshAuthSession(world, logins, username, password, "", "");
    if fallback.Err? {
      return Err(fallback.error), trace;
    }
    var client := Client(fallback.value.pds, did, fallback.value.refreshToken, fallback.value.refreshToken);
    var second := RefreshSession(client.host, client.accessJwt, client.refreshJwt);
    Snoc(trace, second);
    trace := trace + [second];
    if 1 !in world.refresh {
      return Err(RefreshFailed), trace;
    }
    var resp := world.refresh[1];
    return Ok(client.(accessJwt := resp.accessJwt, refreshJwt := resp.refreshJwt)), trace;
  }

  /** A refresh followed by the fallback's trace. */
  lemma FallbackTrace(first: Call, t: seq<Call>)
    requires first.RefreshSession? && t != []
    ensures Logins([first] + t) == Logins(t) && Refreshes([first] + t) == 1 + Refreshes(t)
    ensures Count([first] + t, CreateKind) == Count(t, CreateKind)
    ensures Written([first] + t) == Written(t) && FirstRefresh([first] + t) == Some(first)
  {
    Single(first);
    TraceAppend([first], t);
  }

  /** The refresh succeeds, or the fallback login and the refresh after it both do. */
  predicate ResumeSucceeds(world: World, logins: nat, username: AtIdentifier) {
    0 in world.refresh || (LoginSucceeds(world, logins, username, "") && 1 in world.refresh)
  }

  /**
   * The second half of `loadAuthSession`: refresh `sess` through a client
   * with no host whose access and refresh tokens are both the stored token,
   * and retry once after a failure.
   */
  method ResumeSession(world: World, logins: nat, username: AtIdentifier, password: string, sess: AuthSession)
    returns (r: Result<Client, AuthError>, trace: seq<Call>)
    ensures |trace| > 0 && trace[0] == RefreshSession("", sess.refreshToken, sess.refreshToken)
    ensures FirstRefresh(trace) == Some(trace[0])
    ensures Logins(trace) <= 1 && 1 <= Refreshes(trace) <= 2 && |Written(trace)| <= 1
    ensures 0 in world.refresh ==>
      trace == [trace[0]] &&
      r == Ok(Client("", sess.did, world.refresh[0].accessJwt, world.refresh[0].refreshJwt))
    ensures Logins(trace) == if 0 !in world.refresh then 1 else 0
    ensures 0 !in world.refresh ==> |trace| > 1 && trace[1] == Lookup(username)
    ensures forall w | w in Written(trace) :: FromLogin(world, w, logins, password)
    ensures Refreshes(trace) == 2 ==>
      && |Written(trace)| == 1
      && trace[|trace| - 1] == RefreshSession(Written(trace)[0].pds, Written(trace)[0].refreshToken,
                                              Written(trace)[0].refreshToken)
    ensures Refreshes(trace) == 2 && 1 !in world.refresh ==> r == Err(RefreshFailed)
    ensures r.Ok? <==> ResumeSucceeds(world, logins, username)
    ensures 0 !in world.refresh && r.Ok? ==>
      && |Written(trace)| == 1
      && r.value == Client(Written(trace)[0].pds, sess.did, world.refresh[1].accessJwt, world.refresh[1].refreshJwt)
      && logins in world.lookup
      && r.value.host == world.lookup[logins].pdsEndpoint
    ensures r.Ok? ==>
      && trace[|trace| - 1].RefreshSession?
      && 1 <= Refreshes(trace)
      && Refreshes(trace) - 1 in world.refresh
      && world.refresh[Refreshes(trace) - 1] == Tokens(r.value.accessJwt, r.value.refreshJwt)
      && r.value.host == trace[|trace| - 1].host
      && r.value.did == sess.did
  {
    var first := RefreshSession("", sess.refreshToken, sess.refreshToken);
    Single(first);
    if 0 in world.refresh {
      var resp := world.refresh[0];
      return Ok(Client("", sess.did, resp.accessJwt, resp.refreshJwt)), [first];
    }
    var t;
    r, t := Retry(world, logins, username, password, sess.did);
    FallbackTrace(first, t);
    trace := [first] + t;
    assert trace[0] == first && trace[1] == t[0] && trace[|trace| - 1] == t[|t| - 1];
  }

  /**
   * The identity check of `loadAuthSession`: keep the stored session when
   * its DID equals the username's DID (the empty DID for a handle), and
   * otherwise replace it by a fresh login; a handle username cannot be
   * compared and is an error.
   */
  method Reconcile(world: World, username: AtIdentifier, password: string, stored: AuthSession)
    returns (r: Result<AuthSession, AuthError>, trace: seq<Call>)
    ensures Refreshes(trace) == 0 && FirstRefresh(trace) == None
    ensures Logins(trace) == if username.DidId? && stored.did != username.did then 1 else 0
    ensures stored.did == username.DidOrEmpty() ==> r == Ok(stored) && trace == []
    ensures username.HandleId? && stored.did != "" ==> r == Err(UsernameNotDid) && trace == []
    ensures username.DidId? && stored.did != username.did ==>
      && |trace| > 0
      && trace[0] == Lookup(username)
      && (r.Ok? ==> 0 in world.create && r.value.did == world.create[0].did &&
                    r.value.refreshToken == world.create[0].refreshJwt)
    ensures username.DidId? && stored.did != username.did ==> (r.Ok? <==> LoginSucceeds(world, 0, username, ""))
    ensures Written(trace) == if r.Ok? && trace != [] then [r.value] else []
    ensures r.Ok? && trace != [] ==> FromLogin(world, r.value, 0, password)
  {
    if stored.did == username.DidOrEmpty() {
      return Ok(stored), [];
    }
    if !username.DidId? {
      return Err(UsernameNotDid), [];
    }
    r, trace := RefreshAuthSession(world, 0, username, password, "", "");
  }

  /**
   * The conditions under which a decoded record leads to a client: the
   * record is kept and resumed, or a DID username replaces it by a fresh
   * login whose session is resumed.
   */
  predicate StoredSucceeds(world: World, username: AtIdentifier, stored: AuthSession) {
    if stored.did == username.DidOrEmpty() then ResumeSucceeds(world, 0, username)
    else username.DidId? && LoginSucceeds(world, 0, username, "") && ResumeSucceeds(world, 1, username)
  }

  /** The index of the login a failed refresh falls back to: 1 when a re-login came before it. */
  function FallbackLogin(username: AtIdentifier, stored: AuthSession): nat {
    if stored.did == username.DidOrEmpty() then 0 else 1
  }

  /** A trace with no refresh followed by a non-empty one: refresh facts come from the second part. */
  lemma ResumeTrace(login: seq<Call>, rest: seq<Call>)
    requires Count(login, RefreshKind) == 0 && FirstRefresh(login) == None && rest != []
    ensures Logins(login + rest) == Logins(login) + Logins(rest)
    ensures Refreshes(login + rest) == Refreshes(rest) && FirstRefresh(login + rest) == FirstRefresh(rest)
    ensures Written(login + rest) == Written(login) + Written(rest)
    ensures (login + rest)[0] == if login == [] then rest[0] else login[0]
  {
    TraceAppend(login, rest);
  }

  /** `loadAuthSession` once a session record was decoded: reconcile it, then resume it. */
  method LoadStored(world: World, username: AtIdentifier, password: string, stored: AuthSession)
    returns (r: Result<Client, AuthError>, trace: seq<Call>)
    ensures Logins(trace) <= 2 && Refreshes(trace) <= 2 && |Written(trace)| <= 2
    ensures Logins(trace) == (if username.DidId? && stored.did != username.did then 1 else 0) +
                             (if Refreshes(trace) > 0 && 0 !in world.refresh then 1 else 0)
    ensures username.HandleId? && stored.did != "" ==> r == Err(UsernameNotDid) && trace == []
    ensures stored.did == username.DidOrEmpty() ==>
      |trace| > 0 && trace[0] == RefreshSession("", stored.refreshToken, stored.refreshToken)
    ensures username.DidId? && stored.did != username.did ==>
      && |trace| > 0
      && trace[0] == Lookup(username)
      && (Refreshes(trace) > 0 ==>
            && 0 in world.create
            && FirstRefresh(trace) == Some(RefreshSession("", world.create[0].refreshJwt,
                                                         world.create[0].refreshJwt)))
    ensures forall w | w in Written(trace) :: FromLogin(world, w, 0, password) || FromLogin(world, w, 1, password)
    ensures r.Ok? && stored.did == username.DidOrEmpty() ==> r.value.did == stored.did
    ensures r.Ok? && stored.did != username.DidOrEmpty() ==>
      0 in world.create && r.value.did == world.create[0].did
    ensures r.Ok? <==> StoredSucceeds(world, username, stored)
    ensures stored.did == username.DidOrEmpty() && 0 in world.refresh ==>
      r == Ok(Client("", stored.did, world.refresh[0].accessJwt, world.refresh[0].refreshJwt))
    ensures r.Ok? && 0 in world.refresh ==>
      r.value.host == "" && r.value.accessJwt == world.refresh[0].accessJwt &&
      r.value.refreshJwt == world.refresh[0].refreshJwt
    ensures r.Ok? && 0 !in world.refresh ==>
      && |Written(trace)| > 0
      && r.value.host == Written(trace)[|Written(trace)| - 1].pds
      && FromLogin(world, Written(trace)[|Written(trace)| - 1], FallbackLogin(username, stored), password)
      && r.value.host == world.lookup[FallbackLogin(username, stored)].pdsEndpoint
      && 1 in world.refresh
      && r.value.accessJwt == world.refresh[1].accessJwt
      && r.value.refreshJwt == world.refresh[1].refreshJwt
  {
    var session, login := Reconcile(world, username, password, stored);
    if session.Err? {
      return Err(session.error), login;
    }
    var logins := if login == [] then 0 else 1;
    var rest;
    r, rest := ResumeSession(world, logins, username, password, session.value);
    assert logins == FallbackLogin(username, stored);
    ResumeTrace(login, rest);
    trace := login + rest;
    assert Written(rest) != [] ==> Written(trace)[|Written(trace)| - 1] == Written(rest)[|Written(rest)| - 1];
  }

  /**
   * `loadAuthSession`: read and decode the stored session, logging in
   * first when the file does not exist, and go on with the decoded record.
   */
  method LoadAuthSession(world: World, username: AtIdentifier, password: string)
    returns (r: Result<Client, AuthError>, trace: seq<Call>)
    ensures Logins(trace) <= 2 && Refreshes(trace) <= 2 && |Written(trace)| <= 2
    ensures world.store.Unreadable? ==> r == Err(ReadFailed) && trace == []
    ensures world.store.Malformed? ==> r == Err(UnmarshalFailed) && trace == []
    ensures world.store.Missing? ==>
      && r.Err?
      && Logins(trace) == 1
      && Refreshes(trace) == 0
      && |Written(trace)| <= 1
      && (r.error == UnmarshalFailed <==> |Written(trace)| == 1)
      && (r.error == UnmarshalFailed <==> LoginSucceeds(world, 0, username, ""))
      && (r.error != UnmarshalFailed ==> LoginError(r.error))
      && trace[0] == Lookup(username)
      && (Written(trace) != [] ==> FromLogin(world, Written(trace)[0], 0, password))
    ensures world.store.Stored? && world.store.session.did == username.DidOrEmpty() ==>
      && |trace| > 0
      && trace[0] == RefreshSession("", world.store.session.refreshToken, world.store.session.refreshToken)
      && FirstRefresh(trace) == Some(trace[0])
    ensures forall w | w in Written(trace) :: FromLogin(world, w, 0, password) || FromLogin(world, w, 1, password)
    ensures r.Ok? <==> world.store.Stored? && StoredSucceeds(world, username, world.store.session)
    ensures r.Ok? && world.store.session.did == username.DidOrEmpty() ==> r.value.did == world.store.session.did
    ensures r.Ok? && world.store.session.did != username.DidOrEmpty() ==>
      0 in world.create && r.value.did == world.create[0].did
    ensures world.store.Stored? && world.store.session.did == username.DidOrEmpty() && 0 in world.refresh ==>
      r == Ok(Client("", world.store.session.did, world.refresh[0].accessJwt, world.refresh[0].refreshJwt))
    ensures r.Ok? && 0 in world.refresh ==>
      r.value.host == "" && r.value.accessJwt == world.refresh[0].accessJwt &&
      r.value.refreshJwt == world.refresh[0].refreshJwt
    ensures r.Ok? && 0 !in world.refresh ==>
      && |Written(trace)| > 0
      && r.value.host == Written(trace)[|Written(trace)| - 1].pds
      && FromLogin(world, Written(trace)[|Written(trace)| - 1], FallbackLogin(username, world.store.session), password)
      && r.value.host == world.lookup[FallbackLogin(username, world.store.session)].pdsEndpoint
      && 1 in world.refresh
      && r.value.accessJwt == world.refresh[1].accessJwt
      && r.value.refreshJwt == world.refresh[1].refreshJwt
  {
    match world.store {
      case Unreadable =>
        return Err(ReadFailed), [];
      case Malformed =>
        return Err(UnmarshalFailed), [];
      case Missing =>
        var created, t := RefreshAuthSession(world, 0, username, password, "", "");
        if created.Err? {
          return Err(created.error), t;
        }
        // nothing was read, and decoding the empty input fails
        return Err(UnmarshalFailed), t;
      case Stored(stored) =>
        r, trace := LoadStored(world, username, password, stored);
    }
  }
}
