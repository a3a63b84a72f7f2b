/**
 * What the agent answers, to every message and by what the libraries and the platform grant: when an Update
 * or a QueryRequest succeeds, the error code when it does not, and what a reply echoes.
 */
module AgentOutcomes {
  import opened Basics
  import opened TcTable
  import opened TcProperties
  import opened TcOutcomes
  import opened Cbor
  import opened AgentSpec
  import opened AgentRuns
  import Suit
  import Evidence
  import TcInfo

  // ------------------------------------------------------------------ update

  /** A manifest passes if and only if every step of the set-up succeeds, it has bytes that fit and are
      accepted, its envelope is processed without error, and all parts of its record have been stored. */
  lemma {:induction false} ManifestPassesIff(s: Suit.State, m: ManifestInput, sha: DigestFunction)
    requires Inv(s.table)
    ensures ProcessManifest(s, m, sha).err == None <==>
      && m.setup.reportAlloc && m.setup.contextAlloc && m.setup.senderKey && m.setup.reportInit
      && m.setup.reportStart && m.setup.processorInit && m.setup.publicKey && m.setup.recipientKey
      && 0 < |m.item| <= m.room && m.added
      && Suit.ProcessEnvelope(s, m.envelope, sha).ok
      && var r := Lookup(Suit.ProcessEnvelope(s, m.envelope, sha).state.table, m.envelope.digest);
         r.Some? && r.value.manifestName != [] && r.value.wappName != []
         && r.value.manifestBin != [] && r.value.wappBin != []
  {
    Suit.EnvelopeKeepsInv(s, m.envelope, sha);
    FinaliseSucceedsIff(Suit.ProcessEnvelope(s, m.envelope, sha).state.table, m.envelope.digest);
  }

  /** The code of a manifest that does not pass. */
  lemma {:induction false} ManifestErrors(s: Suit.State, m: ManifestInput, sha: DigestFunction)
    requires Inv(s.table)
    ensures var r := ProcessManifest(s, m, sha);
      var ready := m.setup.reportAlloc && m.setup.contextAlloc && m.setup.senderKey && m.setup.reportInit
        && m.setup.reportStart && m.setup.processorInit && m.setup.publicKey && m.setup.recipientKey;
      var readable := 0 < |m.item| <= m.room && m.added;
      && (r.err == Some(PERMANENT_ERROR) <==> ready && !readable)
      && (r.err == Some(MANIFEST_PROCESSING_FAILED) <==>
            ready && readable && !Suit.ProcessEnvelope(s, m.envelope, sha).ok)
      && (r.err.Some? ==> r.err.value == PERMANENT_ERROR || r.err.value == MANIFEST_PROCESSING_FAILED
                          || r.err.value == TEMPORARY_ERROR)
      && (!ready || !readable ==> r.state == s)
  {
  }

  /** Of every Update, however many manifests it has: Success is built if and only if it has a token of 8 to
      64 bytes and 1 to `arrayMax` manifests and each of these passes in the state the ones before it left;
      the state is then that after all of them, and the token is echoed. Anything else is answered with an
      Error. */
  lemma {:induction false} UpdateOutcome(s: Suit.State, u: Update, lim: Limits, sha: DigestFunction)
    ensures var r := ProcessUpdate(s, u, lim, sha);
      && (r.reply.Success? <==>
            && u.hasToken && 8 <= |u.token| <= 64 && 1 <= |u.manifests| <= lim.arrayMax
            && forall k :: 0 <= k < |u.manifests| ==> PassesAt(s, u.manifests, k, sha))
      && (r.reply.Success? ==> r.state == Fold(s, u.manifests, sha))
      && (r.reply.Success? ==> r.reply.successToken == u.token && r.reply.successReport == r.state.report)
      && (!r.reply.Success? ==> r.reply.Error?)
      && (r.reply.Error? ==> r.reply.errorToken == if 8 <= |u.token| <= 64 then Some(u.token) else None)
      && (r.reply.Error? ==>
            r.reply.errorReport ==
            if r.reply.code == MANIFEST_PROCESSING_FAILED && 0 < |r.state.report| <= 65536 then Some(r.state.report)
            else None)
  {
    UpdateSucceedsIff(s, u, lim, sha);
    assert forall k :: 0 <= k < |u.manifests| ==>
      PassesAt(s, u.manifests, k, sha) == Passes(s, u.manifests, k, sha);
  }

  predicate PassesAt(s: Suit.State, ms: seq<ManifestInput>, k: nat, sha: DigestFunction)
    requires k < |ms|
  {
    ProcessManifest(Fold(s, ms[..k], sha), ms[k], sha).err == None
  }

  /** What a malformed Update is answered: it changes nothing. */
  lemma {:induction false} MalformedUpdate(s: Suit.State, u: Update, lim: Limits, sha: DigestFunction)
    requires !u.hasToken || |u.token| < 8 || |u.token| > 64 || u.manifests == [] || |u.manifests| > lim.arrayMax
    ensures var r := ProcessUpdate(s, u, lim, sha);
      r.state == s && r.reply.Error? && r.reply.code == PERMANENT_ERROR && r.reply.errorReport == None
  {
  }

  // ------------------------------------------------------------------- query

  predicate Speaks(q: Query) {
    q.versions == None || 0 in q.versions.value
  }

  predicate Signs(q: Query) {
    q.suites == None || 0 in q.suites.value
  }

  /** The whole answer to a QueryRequest: when it is a QueryResponse, and otherwise which error it is. */
  lemma {:induction false} QueryOutcome(t: Table, q: Query, lim: Limits, sha: Evidence.Sha384, env: QueryEnv)
    requires SmallChallenge(q) && |env.app| < LIMIT && lim.nameMax <= LIMIT
    ensures var r := ProcessQuery(t, q, lim, sha, env).reply;
      var evidence := Evidence.EvidenceOf(env.key, q.challenge, sha, 65536, env.quote);
      var attested := q.attestation ==> evidence.err == Evidence.SUCCESS && env.slice;
      var used := if q.attestation then |evidence.payload| else 0;
      var fits := |RequestedBytes(env.app)| <= 65536 - used;
      && (r.QueryResponse? <==>
            && Speaks(q) && Signs(q) && attested
            && (q.trustedComponents ==> env.app != [] && fits && |t| <= lim.arrayMax && Listable(t, lim.nameMax, env)))
      && (!r.QueryResponse? ==> r.Error?)
      && (r.QueryResponse? ==>
            && r.token == (if q.hasToken then Some(q.token) else None)
            && r.payload == (if q.attestation then Some(evidence.payload) else None)
            && r.requested == (if q.trustedComponents then Some(RequestedBytes(env.app)) else None))
      && (r.Error? ==>
            && r.errorReport == None && r.errorToken == (if 8 <= |q.token| <= 64 then Some(q.token) else None)
            && (r.code == UNSUPPORTED_MSG_VERSION <==> !Speaks(q))
            && (r.code == UNSUPPORTED_CIPHER_SUITES <==> Speaks(q) && !Signs(q))
            && (r.code == PERMANENT_ERROR <==>
                  Speaks(q) && Signs(q) && attested && (env.app == [] || (fits && |t| > lim.arrayMax)))
            && (r.code == TEMPORARY_ERROR <==>
                  Speaks(q) && Signs(q) && !(attested && (env.app == [] || (fits && |t| > lim.arrayMax)))))
  {
    hide Evidence.EvidenceOf, RequestedBytes, ListComponents, Listable;
    var evidence := Evidence.EvidenceOf(env.key, q.challenge, sha, WORK_LEN, env.quote);
    var answer := QueryResponse(if q.hasToken then Some(q.token) else None,
                                if q.attestation then Some(evidence.payload) else None, None, None);
    ComponentsOutcome(t, q, lim, env, WORK_LEN - if q.attestation then |evidence.payload| else 0, answer);
  }

  lemma {:induction false} ComponentsOutcome(t: Table, q: Query, lim: Limits, env: QueryEnv, room: int, answer: Reply)
    requires |env.app| < LIMIT && lim.nameMax <= LIMIT && answer.QueryResponse?
    ensures var r := ListComponents(t, q, lim, env, room, answer).reply;
      var fits := |RequestedBytes(env.app)| <= room;
      && (r.QueryResponse? <==> env.app != [] && fits && |t| <= lim.arrayMax && Listable(t, lim.nameMax, env))
      && (r.QueryResponse? ==>
            r.token == answer.token && r.payload == answer.payload && r.requested == Some(RequestedBytes(env.app)))
      && (!r.QueryResponse? ==>
            && r.Error? && r.errorReport == None
            && r.errorToken == (if 8 <= |q.token| <= 64 then Some(q.token) else None)
            && (r.code == PERMANENT_ERROR || r.code == TEMPORARY_ERROR)
            && (r.code == PERMANENT_ERROR <==> env.app == [] || (fits && |t| > lim.arrayMax)))
  {
    hide Encode, TcInfo.EncodeInfos, TcList;
    ExportedIff(t, |t|, lim.nameMax);
    if forall k :: 0 <= k < |t| ==> env.itemAlloc(k) { BuiltIs(env.itemAlloc, |t|, |t|); }
  }

  /** The requested component id on the wire. */
  function RequestedBytes(app: Name): Bytes
    requires |app| < LIMIT
  {
    TcInfo.OneItem(Bstr(app));
    Encode(Array([Bstr(app)]))
  }

  /** The table can be listed: it is empty, or the list, and each of its items, can be allocated and every
      record has all its parts and a name short enough. */
  predicate Listable(t: Table, nameMax: nat, env: QueryEnv) {
    t == [] ||
    (env.listAlloc
     && forall k :: 0 <= k < |t| ==>
          && t[k].manifestName != [] && t[k].wappName != [] && t[k].manifestBin != [] && t[k].wappBin != []
          && |t[k].wappName| < nameMax && env.itemAlloc(k))
  }

  /** What a verifier finds in the attestation payload of a QueryResponse: the quote of report data that is
      bound to the agent's key and the challenge of this very request, beside these. */
  lemma {:induction false} AttestsChallenge(t: Table, q: Query, lim: Limits, sha: Evidence.Sha384, env: QueryEnv)
    requires SmallChallenge(q) && |env.app| < LIMIT && lim.nameMax <= LIMIT
    requires q.attestation && ProcessQuery(t, q, lim, sha, env).reply.QueryResponse?
    ensures |env.key| == 65
    ensures var challenge := Evidence.ChallengeBytes(q.challenge);
      var raw := env.key[1..33] + env.key[33..65] + challenge;
      && ProcessQuery(t, q, lim, sha, env).reply.payload.Some?
      && exists d :: Evidence.DecodeEnvelope(ProcessQuery(t, q, lim, sha, env).reply.payload.value)
                     == Some((env.quote.quote(d), raw))
           && (|challenge| < TWO32 ==> Evidence.Binds(d, raw, sha))
  {
    hide Evidence.EvidenceOf, Encode;
    Evidence.EvidenceBinds(env.key, q.challenge, sha, WORK_LEN, env.quote);
  }

  // ---------------------------------------------------------------- messages

  /** The result of an ECALL: fatal if and only if the agent has no key, the message is not accepted or of
      another type, or the reply cannot be encoded, signed or put into the buffer. Otherwise the result
      tells the kind of reply that is in the buffer. */
  lemma {:induction false} ResultTells(a: Agent, i: Input, cfg: Config)
    requires Sane(i, cfg)
    ensures var r, built := React(a, i, cfg), ReplyOf(a, i, cfg);
      && (built.Some? <==> i.keyReady && i.verified && i.decoded && !i.message.OtherMessage?)
      && (r.result != FATAL <==>
            built.Some? && i.encoded && i.signed && |cfg.seal(built.value, i.salt)| <= cfg.sendMax)
      && (r.result != FATAL ==>
            && r.sent == cfg.seal(built.value, i.salt)
            && (r.result == RESPONSE_IS_TEEP_ERROR <==> built.value.Error?)
            && (r.result == RESULT_SUCCESS <==> built.value.Success?)
            && (r.result == DEVICE_ACTIVATION_FLOW <==> built.value.QueryResponse? && built.value.payload.Some?)
            && (r.result == QUERY_RESPONSE <==> built.value.QueryResponse? && built.value.payload == None)
            && (r.result == RESULT_OK <==> built.value.Unset?))
      && (r.result == FATAL ==> r.sent == [])
  {
    hide ProcessQuery, ProcessUpdate;
  }

  /** A QueryRequest that is answered starts the device activation flow if and only if it asks for
      attestation. */
  lemma {:induction false} ActivationIff(a: Agent, i: Input, cfg: Config)
    requires Sane(i, cfg) && i.message.QueryRequest? && React(a, i, cfg).result != FATAL
    requires ReplyOf(a, i, cfg).value.QueryResponse?
    ensures React(a, i, cfg).result ==
            if i.message.query.attestation then DEVICE_ACTIVATION_FLOW else QUERY_RESPONSE
  {
    hide ProcessQuery;
    QueryOutcome(a.suit.table, i.message.query, cfg.lim, cfg.sha384, i.message.env);
  }
}
