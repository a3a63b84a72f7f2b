/**
 * Enclave_process_message.cpp on values: what the agent answers to one message, how its state and its
 * table change, and what holds over whole runs of messages.
 */
module AgentSpec {
  import opened Basics
  import opened TcTable
  import opened TcProperties
  import opened Cbor
  import Suit
  import Evidence
  import TcInfo

  /** Sizes fixed by the libraries: name buffers, and the arrays inside TEEP messages. */
  datatype Limits = Limits(nameMax: nat, arrayMax: nat)

  /** TEEP_WORK_BUFFER_SIZE */
  const WORK_LEN: nat := 65536

  /** The room a manifest processor has for an envelope. */
  const SUIT_MAX_DATA_SIZE: nat := 20 * 1024 * 1024

  datatype ErrCode =
    | PERMANENT_ERROR | UNSUPPORTED_MSG_VERSION | UNSUPPORTED_CIPHER_SUITES | TEMPORARY_ERROR
    | MANIFEST_PROCESSING_FAILED

  /** The message built for the TAM. `Unset` stands for a message never written, of no known type. */
  datatype Reply =
    | QueryResponse(token: Option<Bytes>, payload: Option<Bytes>, requested: Option<Bytes>, tcList: Option<seq<Bytes>>)
    | Success(successToken: Bytes, successReport: Bytes)
    | Error(code: ErrCode, errorToken: Option<Bytes>, errorReport: Option<Bytes>)
    | Unset

  /** create_error: the token and the report are included only where they are allowed. */
  function CreateError(token: Bytes, code: ErrCode, report: Bytes): Reply {
    Error(code,
          if 8 <= |token| <= 64 then Some(token) else None,
          if code == MANIFEST_PROCESSING_FAILED && report != [] then Some(report) else None)
  }

  // ------------------------------------------------------------------ update

  /** The steps before an envelope is read, in the order they are made. */
  datatype Setup = Setup(
    reportAlloc: bool, contextAlloc: bool, senderKey: bool, reportInit: bool, reportStart: bool,
    processorInit: bool, publicKey: bool, recipientKey: bool)

  /** One manifest of an Update: its bytes ([] for a null or empty one), the room the processor offers
      for it, whether the library accepts it, and how its envelope is processed. */
  datatype ManifestInput = ManifestInput(setup: Setup, item: Bytes, room: nat, added: bool, envelope: Suit.Envelope)

  datatype Update = Update(hasToken: bool, token: Bytes, manifests: seq<ManifestInput>)

  predicate SetupOk(s: Setup) {
    && s.reportAlloc && s.contextAlloc && s.senderKey && s.reportInit && s.reportStart
    && s.processorInit && s.publicKey && s.recipientKey
  }

  datatype ManifestResult = ManifestResult(state: Suit.State, err: Option<ErrCode>)

  function ProcessManifest(s: Suit.State, m: ManifestInput, sha: DigestFunction): ManifestResult {
    if !SetupOk(m.setup) then ManifestResult(s, Some(TEMPORARY_ERROR))
    else if m.item == [] || |m.item| > m.room || !m.added then ManifestResult(s, Some(PERMANENT_ERROR))
    else
      var r := Suit.ProcessEnvelope(s, m.envelope, sha);
      if !r.ok then ManifestResult(r.state, Some(MANIFEST_PROCESSING_FAILED))
      else
        var f := Finalise(r.state.table, m.envelope.digest);
        ManifestResult(r.state.(table := f.table), if f.ok then None else Some(TEMPORARY_ERROR))
  }

  function ProcessManifests(s: Suit.State, ms: seq<ManifestInput>, sha: DigestFunction): ManifestResult
    decreases |ms|
  {
    if ms == [] then ManifestResult(s, None)
    else
      var r := ProcessManifest(s, ms[0], sha);
      if r.err.Some? then r else ProcessManifests(r.state, ms[1..], sha)
  }

  datatype UpdateResult = UpdateResult(state: Suit.State, reply: Reply)

  function CheckUpdate(u: Update, lim: Limits): bool {
    u.hasToken && 8 <= |u.token| <= 64 && 1 <= |u.manifests| <= lim.arrayMax
  }

  /** process_update. A failed envelope reports the SUIT report last captured, if it fits. */
  function ProcessUpdate(s: Suit.State, u: Update, lim: Limits, sha: DigestFunction): UpdateResult {
    if !CheckUpdate(u, lim) then UpdateResult(s, CreateError(u.token, PERMANENT_ERROR, []))
    else
      var r := ProcessManifests(s, u.manifests, sha);
      match r.err
      case None => UpdateResult(r.state, Success(u.token, r.state.report))
      case Some(code) =>
        UpdateResult(r.state, CreateError(u.token, code, if |r.state.report| <= WORK_LEN then r.state.report else []))
  }

  /** Processing manifests without ever stopping. */
  function Fold(s: Suit.State, ms: seq<ManifestInput>, sha: DigestFunction): Suit.State {
    if ms == [] then s
    else ProcessManifest(Fold(s, ms[..|ms| - 1], sha), ms[|ms| - 1], sha).state
  }

  /** Manifest k passes after the ones before it. */
  predicate Passes(s: Suit.State, ms: seq<ManifestInput>, k: nat, sha: DigestFunction)
    requires k < |ms|
  {
    ProcessManifest(Fold(s, ms[..k], sha), ms[k], sha).err == None
  }

  lemma {:induction false} FoldFirst(s: Suit.State, ms: seq<ManifestInput>, sha: DigestFunction)
    requires ms != []
    ensures Fold(s, ms, sha) == Fold(ProcessManifest(s, ms[0], sha).state, ms[1..], sha)
  {
    var n := |ms| - 1;
    if n > 0 {
      FoldFirst(s, ms[..n], sha);
      assert ms[..n][1..] == ms[1..][..n - 1];
    } else {
      assert ms[..0] == [] && ms[1..] == [];
    }
  }

  predicate AllPass(s: Suit.State, ms: seq<ManifestInput>, n: nat, sha: DigestFunction)
    requires n <= |ms|
  {
    forall k :: 0 <= k < n ==> Passes(s, ms, k, sha)
  }

  /** Manifest k of a well-formed Update is the first that fails. */
  predicate FailsFirst(s: Suit.State, u: Update, lim: Limits, k: nat, sha: DigestFunction) {
    && CheckUpdate(u, lim) && k < |u.manifests|
    && AllPass(s, u.manifests, k, sha) && !Passes(s, u.manifests, k, sha)
  }

  /** Success is built exactly when the request is well-formed and every manifest passed, and then
      carries the token back; a malformed request changes nothing. */
  lemma {:induction false} UpdateSucceedsIff(s: Suit.State, u: Update, lim: Limits, sha: DigestFunction)
    ensures var r := ProcessUpdate(s, u, lim, sha);
      && (r.reply.Success? <==> CheckUpdate(u, lim) && AllPass(s, u.manifests, |u.manifests|, sha))
      && (r.reply.Success? ==>
            && r.reply.successToken == u.token && r.state == Fold(s, u.manifests, sha)
            && r.reply.successReport == r.state.report)
      && (!CheckUpdate(u, lim) ==> r.reply.Error? && r.reply.code == PERMANENT_ERROR && r.state == s)
  {
    var ms := u.manifests;
    if AllPass(s, ms, |ms|, sha) {
      AllPassFold(s, ms, sha);
    } else {
      var k := FirstFailing(s, ms, |ms|, sha);
      FirstFailure(s, ms, k, sha);
    }
  }

  /** Otherwise exactly one error code is reported, that of the first manifest that fails, and the state
      is the fold of the manifests up to and including that one. */
  lemma {:induction false} UpdateStopsAtFirst(s: Suit.State, u: Update, lim: Limits, k: nat, sha: DigestFunction)
    requires FailsFirst(s, u, lim, k, sha)
    ensures var r := ProcessUpdate(s, u, lim, sha);
      && r.reply.Error?
      && Some(r.reply.code) == ProcessManifest(Fold(s, u.manifests[..k], sha), u.manifests[k], sha).err
      && r.state == Fold(s, u.manifests[..k + 1], sha)
  {
    FirstFailure(s, u.manifests, k, sha);
    assert u.manifests[..k + 1][..k] == u.manifests[..k];
  }

  lemma {:induction false} FirstFailing(s: Suit.State, ms: seq<ManifestInput>, n: nat, sha: DigestFunction)
    returns (k: nat)
    requires n <= |ms| && !AllPass(s, ms, n, sha)
    ensures k < n && AllPass(s, ms, k, sha) && !Passes(s, ms, k, sha)
  {
    if AllPass(s, ms, n - 1, sha) {
      k := n - 1;
    } else {
      k := FirstFailing(s, ms, n - 1, sha);
    }
  }

  /** After the first manifest, the rest is processed from the state it left. */
  lemma {:induction false} Shift(s: Suit.State, ms: seq<ManifestInput>, j: nat, sha: DigestFunction)
    requires j < |ms|
    ensures var s1 := ProcessManifest(s, ms[0], sha).state;
      && Fold(s, ms[..j + 1], sha) == Fold(s1, ms[1..][..j], sha)
      && (j + 1 < |ms| ==> Passes(s, ms, j + 1, sha) == Passes(s1, ms[1..], j, sha))
  {
    FoldFirst(s, ms[..j + 1], sha);
    assert ms[..j + 1][1..] == ms[1..][..j];
  }

  lemma {:induction false} PassesFirst(s: Suit.State, ms: seq<ManifestInput>, sha: DigestFunction)
    requires ms != []
    ensures Passes(s, ms, 0, sha) <==> ProcessManifest(s, ms[0], sha).err == None
  {
    assert ms[..0] == [];
  }

  lemma {:induction false} AllPassFold(s: Suit.State, ms: seq<ManifestInput>, sha: DigestFunction)
    requires AllPass(s, ms, |ms|, sha)
    ensures ProcessManifests(s, ms, sha) == ManifestResult(Fold(s, ms, sha), None)
    decreases |ms|
  {
    if ms != [] {
      assert Passes(s, ms, 0, sha);
      PassesFirst(s, ms, sha);
      var s1, rest := ProcessManifest(s, ms[0], sha).state, ms[1..];
      forall j | 0 <= j < |rest|
        ensures Passes(s1, rest, j, sha)
      {
        Shift(s, ms, j, sha);
        assert Passes(s, ms, j + 1, sha);
      }
      AllPassFold(s1, rest, sha);
      FoldFirst(s, ms, sha);
    }
  }

  lemma {:induction false} FirstFailure(s: Suit.State, ms: seq<ManifestInput>, k: nat, sha: DigestFunction)
    requires k < |ms| && AllPass(s, ms, k, sha) && !Passes(s, ms, k, sha)
    ensures ProcessManifests(s, ms, sha) == ProcessManifest(Fold(s, ms[..k], sha), ms[k], sha)
    ensures ProcessManifests(s, ms, sha).err.Some?
    decreases |ms|
  {
    PassesFirst(s, ms, sha);
    if k == 0 {
      assert ms[..0] == [];
    } else {
      assert Passes(s, ms, 0, sha);
      var s1, rest := ProcessManifest(s, ms[0], sha).state, ms[1..];
      Shift(s, ms, k - 1, sha);
      forall j | 0 <= j < k - 1
        ensures Passes(s1, rest, j, sha)
      {
        Shift(s, ms, j, sha);
        assert Passes(s, ms, j + 1, sha);
      }
      FirstFailure(s1, rest, k - 1, sha);
    }
  }

  lemma {:induction false} ManifestKeepsInv(s: Suit.State, m: ManifestInput, sha: DigestFunction)
    requires Inv(s.table)
    ensures Inv(ProcessManifest(s, m, sha).state.table)
  {
    Suit.EnvelopeKeepsInv(s, m.envelope, sha);
    FinaliseFrame(Suit.ProcessEnvelope(s, m.envelope, sha).state.table, m.envelope.digest);
  }

  lemma {:induction false} ManifestsKeepInv(s: Suit.State, ms: seq<ManifestInput>, sha: DigestFunction)
    requires Inv(s.table)
    ensures Inv(ProcessManifests(s, ms, sha).state.table)
    decreases |ms|
  {
    if ms != [] {
      ManifestKeepsInv(s, ms[0], sha);
      ManifestsKeepInv(ProcessManifest(s, ms[0], sha).state, ms[1..], sha);
    }
  }

  // ------------------------------------------------------------------- query

  datatype Query = Query(
    hasToken: bool, token: Bytes, versions: Option<seq<nat>>, suites: Option<seq<nat>>,
    challenge: Evidence.Challenge, attestation: bool, trustedComponents: bool)

  /** TEEP version 0 and the one cipher suite of the agent. */
  const VERSION: nat := 0
  const SUITE: nat := 0

  datatype QueryEnv = QueryEnv(
    key: Bytes, quote: Evidence.QuoteEnv, slice: bool, app: Name, listAlloc: bool, itemAlloc: nat -> bool)

  /** `built` is the tc-info buffers still held by the message when it is returned. */
  datatype QueryResult = QueryResult(reply: Reply, built: seq<Bytes>)

  function RequestedId(app: Name): (i: Item)
    requires |app| < LIMIT
    ensures Ok(i)
  {
    TcInfo.OneItem(Bstr(app));
    Array([Bstr(app)])
  }

  function Failed(q: Query, code: ErrCode): QueryResult {
    QueryResult(CreateError(q.token, code, []), [])
  }

  predicate SmallChallenge(q: Query) {
    |Evidence.ChallengeBytes(q.challenge)| < LIMIT - 2 * Evidence.COORDINATE
  }

  /** process_query_request */
  function ProcessQuery(t: Table, q: Query, lim: Limits, sha: Evidence.Sha384, env: QueryEnv): QueryResult
    requires SmallChallenge(q) && |env.app| < LIMIT && lim.nameMax <= LIMIT
  {
    if q.versions.Some? && VERSION !in q.versions.value then Failed(q, UNSUPPORTED_MSG_VERSION)
    else if q.suites.Some? && SUITE !in q.suites.value then Failed(q, UNSUPPORTED_CIPHER_SUITES)
    else
      var evidence := Evidence.EvidenceOf(env.key, q.challenge, sha, WORK_LEN, env.quote);
      var used := if q.attestation then |evidence.payload| else 0;
      if q.attestation && (evidence.err != Evidence.SUCCESS || !env.slice) then Failed(q, TEMPORARY_ERROR)
      else
        var answer := QueryResponse(if q.hasToken then Some(q.token) else None,
                                    if q.attestation then Some(evidence.payload) else None, None, None);
        if q.trustedComponents then ListComponents(t, q, lim, env, WORK_LEN - used, answer)
        else QueryResult(answer, [])
  }

  /** The part of process_query_request for trusted components, with `room` bytes left to work in. */
  function ListComponents(t: Table, q: Query, lim: Limits, env: QueryEnv, room: int, answer: Reply): QueryResult
    requires |env.app| < LIMIT && lim.nameMax <= LIMIT && answer.QueryResponse?
  {
    var requested := Encode(RequestedId(env.app));
    if env.app == [] then Failed(q, PERMANENT_ERROR)
    else if |requested| > room then Failed(q, TEMPORARY_ERROR)
    else ListTable(t, q, lim, env, answer.(requested := Some(requested)))
  }

  /** The part that exports the table. */
  function ListTable(t: Table, q: Query, lim: Limits, env: QueryEnv, answer: Reply): QueryResult
    requires lim.nameMax <= LIMIT && answer.QueryResponse?
  {
    if |t| > lim.arrayMax then Failed(q, PERMANENT_ERROR)
    else if t == [] then QueryResult(answer, [])
    else if !env.listAlloc || TcList(t, |t|, lim.nameMax).None? then Failed(q, TEMPORARY_ERROR)
    else
      ListOk(t, lim.nameMax);
      var infos := TcInfo.EncodeInfos(TcList(t, |t|, lim.nameMax).value);
      var n := Built(env.itemAlloc, |t|);
      if n < |t| then QueryResult(CreateError(q.token, TEMPORARY_ERROR, []), infos[..n])
      else QueryResult(answer.(tcList := Some(infos)), infos)
  }

  lemma {:induction false} ListOk(t: Table, nameMax: nat)
    requires TcList(t, |t|, nameMax).Some? && nameMax <= LIMIT
    ensures TcList(t, |t|, nameMax).value == ItemsOf(t) && TcInfo.Encodable(ItemsOf(t))
    ensures forall k :: 0 <= k < |t| ==> 0 < |ItemsOf(t)[k].componentId| < nameMax
  {
  }

  /** How many of the first n allocations succeed before one fails. */
  function Built(alloc: nat -> bool, n: nat): (k: nat)
    ensures k <= n
    ensures forall j :: 0 <= j < k ==> alloc(j)
    ensures k < n ==> !alloc(k)
  {
    if n == 0 then 0
    else
      var k := Built(alloc, n - 1);
      if k == n - 1 && alloc(k) then n else k
  }

  // ------------------------------------------- when a query is answered, by its guards

  predicate Negotiated(q: Query) {
    && (q.versions.Some? ==> VERSION in q.versions.value)
    && (q.suites.Some? ==> SUITE in q.suites.value)
  }

  /** Evidence, when asked for, is created and sliced off the work buffer. */
  predicate Attested(q: Query, sha: Evidence.Sha384, env: QueryEnv)
    requires SmallChallenge(q)
  {
    q.attestation ==>
      Evidence.EvidenceOf(env.key, q.challenge, sha, WORK_LEN, env.quote).err == Evidence.SUCCESS && env.slice
  }

  /** The work buffer left for the requested component id. */
  function RoomLeft(q: Query, sha: Evidence.Sha384, env: QueryEnv): int
    requires SmallChallenge(q)
  {
    var evidence := Evidence.EvidenceOf(env.key, q.challenge, sha, WORK_LEN, env.quote);
    WORK_LEN - if q.attestation then |evidence.payload| else 0
  }

  /** The guards before the table is exported. */
  predicate ListReached(t: Table, q: Query, lim: Limits, sha: Evidence.Sha384, env: QueryEnv)
    requires SmallChallenge(q) && |env.app| < LIMIT
  {
    && Negotiated(q) && Attested(q, sha, env) && q.trustedComponents
    && env.app != [] && |Encode(RequestedId(env.app))| <= RoomLeft(q, sha, env) && |t| <= lim.arrayMax
  }

  /** All the guards on the way to a QueryResponse. */
  predicate Answered(t: Table, q: Query, lim: Limits, sha: Evidence.Sha384, env: QueryEnv)
    requires SmallChallenge(q) && |env.app| < LIMIT
  {
    && Negotiated(q) && Attested(q, sha, env)
    && (q.trustedComponents ==>
          && ListReached(t, q, lim, sha, env)
          && (t != [] ==>
                && env.listAlloc && AllExportable(t, lim.nameMax)
                && forall k :: 0 <= k < |t| ==> env.itemAlloc(k)))
  }

  lemma {:induction false} AnsweredIff(t: Table, q: Query, lim: Limits, sha: Evidence.Sha384, env: QueryEnv)
    requires SmallChallenge(q) && |env.app| < LIMIT && lim.nameMax <= LIMIT
    ensures ProcessQuery(t, q, lim, sha, env).reply.QueryResponse? <==> Answered(t, q, lim, sha, env)
  {
    hide Evidence.EvidenceOf, Encode;
    if forall k :: 0 <= k < |t| ==> env.itemAlloc(k) {
      BuiltIs(env.itemAlloc, |t|, |t|);
    }
  }

  /** Exactly when buffers stay behind a query that is answered with an Error. */
  lemma {:induction false} StrandedIff(t: Table, q: Query, lim: Limits, sha: Evidence.Sha384, env: QueryEnv)
    requires SmallChallenge(q) && |env.app| < LIMIT && lim.nameMax <= LIMIT
    ensures var r := ProcessQuery(t, q, lim, sha, env);
      r.reply.Error? && r.built != [] <==>
        && ListReached(t, q, lim, sha, env) && 2 <= |t|
        && env.listAlloc && AllExportable(t, lim.nameMax)
        && env.itemAlloc(0) && exists k :: 0 < k < |t| && !env.itemAlloc(k)
  {
    hide Evidence.EvidenceOf, Encode;
    var n := Built(env.itemAlloc, |t|);
    if n < |t| { assert !env.itemAlloc(n); }
  }

  lemma {:induction false} BuiltIs(alloc: nat -> bool, n: nat, k: nat)
    requires k <= n && (forall j :: 0 <= j < k ==> alloc(j)) && (k < n ==> !alloc(k))
    ensures Built(alloc, n) == k
  {
  }

  /** A QueryResponse carries the (name, hash) projection of the table, in order, in a form the TAM can
      decode; it lists components exactly when asked to, and then every record is complete. */
  lemma {:induction false} ResponseLists(t: Table, q: Query, lim: Limits, sha: Evidence.Sha384, env: QueryEnv)
    requires SmallChallenge(q) && |env.app| < LIMIT && lim.nameMax <= LIMIT
    requires ProcessQuery(t, q, lim, sha, env).reply.QueryResponse?
    ensures var r := ProcessQuery(t, q, lim, sha, env).reply;
      && (r.tcList.Some? <==> q.trustedComponents && t != [])
      && (r.payload.Some? <==> q.attestation)
      && (r.requested.Some? <==> q.trustedComponents)
      && (r.requested.Some? ==> Decode(r.requested.value) == Some((Array([Bstr(env.app)]), [])))
      && (r.tcList.Some? ==>
            && AllExportable(t, lim.nameMax)
            && TcInfo.DecodeInfos(r.tcList.value) == Some(ItemsOf(t)))
  {
    var r := ProcessQuery(t, q, lim, sha, env).reply;
    if r.tcList.Some? {
      ListOk(t, lim.nameMax);
      TcInfo.InfosRoundTrip(ItemsOf(t));
    }
    if r.requested.Some? {
      RoundTrip(RequestedId(env.app), []);
      assert r.requested.value + [] == r.requested.value;
    }
  }

  /** The buffers built for a tc-list that are still held when the query has been processed: all of
      them when a QueryResponse is returned, to be freed after it is sent; and, when an allocation fails
      in mid-list, exactly the ones already built, which the error message no longer refers to. */
  lemma {:induction false} BuffersHeld(t: Table, q: Query, lim: Limits, sha: Evidence.Sha384, env: QueryEnv)
    requires SmallChallenge(q) && |env.app| < LIMIT && lim.nameMax <= LIMIT
    ensures var r := ProcessQuery(t, q, lim, sha, env);
      && (r.reply.QueryResponse? ==> r.built == (if r.reply.tcList.Some? then r.reply.tcList.value else []))
      && (r.reply.Error? && r.built != [] ==>
            && r.reply.code == TEMPORARY_ERROR && TcList(t, |t|, lim.nameMax).Some?
            && |r.built| == Built(env.itemAlloc, |t|) < |t|
            && TcInfo.DecodeInfos(r.built) == Some(ItemsOf(t)[..|r.built|]))
  {
    var r := ProcessQuery(t, q, lim, sha, env);
    if r.reply.Error? && r.built != [] {
      ListOk(t, lim.nameMax);
      var items, n := ItemsOf(t), |r.built|;
      assert TcInfo.EncodeInfos(items)[..n] == TcInfo.EncodeInfos(items[..n]);
      TcInfo.InfosRoundTrip(items[..n]);
    }
  }
}
