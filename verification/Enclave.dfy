/**
 * The two halves of the enclave together: TEEP messages change the table, invocations run from it, in
 * any order.
 */
module Enclave {
  import opened Basics
  import opened TcTable
  import opened TcProperties
  import opened AgentSpec
  import opened AgentRuns
  import opened ManifestTrail
  import opened TcAnswers
  import WasmCache
  import Suit

  /** No hash computation of this message fails. */
  predicate CallsHash(calls: seq<Suit.Callback>) {
    forall k :: 0 <= k < |calls| && calls[k].StoreCall? ==> calls[k].env.hashFault == None
  }

  predicate ManifestsHash(ms: seq<ManifestInput>) {
    forall k :: 0 <= k < |ms| ==> CallsHash(ms[k].envelope.calls)
  }

  predicate MessageHashes(i: Input) {
    i.message.UpdateMessage? ==> ManifestsHash(i.message.update.manifests)
  }

  lemma {:induction false} CallsKeepHashed(s: Suit.State, calls: seq<Suit.Callback>, sha: DigestFunction)
    requires Hashed(s.table, sha) && CallsHash(calls)
    ensures Hashed(Suit.Calls(s, calls, sha).state.table, sha)
    decreases |calls|
  {
    if calls != [] {
      var c := calls[0];
      if c.StoreCall? { StoreHashedIff(s.table, c.args, c.env, sha); }
      if Suit.Call(s, c, sha).err == Suit.SUIT_SUCCESS {
        CallsKeepHashed(Suit.Call(s, c, sha).state, calls[1..], sha);
      }
    }
  }

  lemma {:induction false} ManifestKeepsHashed(s: Suit.State, m: ManifestInput, sha: DigestFunction)
    requires Hashed(s.table, sha) && CallsHash(m.envelope.calls)
    ensures Hashed(ProcessManifest(s, m, sha).state.table, sha)
  {
    CallsKeepHashed(s, m.envelope.calls, sha);
    FinaliseKeepsHashed(Suit.ProcessEnvelope(s, m.envelope, sha).state.table, m.envelope.digest, sha);
  }

  lemma {:induction false} ManifestsKeepHashed(s: Suit.State, ms: seq<ManifestInput>, sha: DigestFunction)
    requires Hashed(s.table, sha) && ManifestsHash(ms)
    ensures Hashed(ProcessManifests(s, ms, sha).state.table, sha)
    decreases |ms|
  {
    if ms != [] {
      ManifestKeepsHashed(s, ms[0], sha);
      ManifestsKeepHashed(ProcessManifest(s, ms[0], sha).state, ms[1..], sha);
    }
  }

  // -------------------------------------------------------------------- runs

  /** One ECALL: a message from the TAM, or an invocation of an app. */
  datatype Ecall = MessageCall(input: Input) | InvokeCall(name: Name, env: WasmCache.LoadEnv)

  datatype State = State(agent: Agent, engine: WasmCache.Engine)

  const BOOT := State(INITIAL, WasmCache.COLD)

  predicate EcallsSane(calls: seq<Ecall>, cfg: Config) {
    forall k :: 0 <= k < |calls| && calls[k].MessageCall? ==> Sane(calls[k].input, cfg)
  }

  function Next(s: State, c: Ecall, cfg: Config): State
    requires c.MessageCall? ==> Sane(c.input, cfg)
  {
    match c
    case MessageCall(i) => s.(agent := React(s.agent, i, cfg).agent)
    case InvokeCall(name, env) => s.(engine := WasmCache.Ensure(s.agent.suit.table, s.engine, name, env).engine)
  }

  function Run(s: State, calls: seq<Ecall>, cfg: Config): State
    requires EcallsSane(calls, cfg)
    decreases |calls|
  {
    if calls == [] then s else Run(Next(s, calls[0], cfg), calls[1..], cfg)
  }

  predicate EcallsHash(calls: seq<Ecall>) {
    forall k :: 0 <= k < |calls| && calls[k].MessageCall? ==> MessageHashes(calls[k].input)
  }

  /** What every sequence of ECALLs keeps, whatever fails except hashing. */
  ghost predicate Sound(s: State, sha: DigestFunction) {
    Inv(s.agent.suit.table) && Hashed(s.agent.suit.table, sha) && WasmCache.Honest(s.engine.cache, sha)
  }

  lemma {:induction false} NextKeepsSound(s: State, c: Ecall, cfg: Config)
    requires Sound(s, cfg.sha256)
    requires c.MessageCall? ==> Sane(c.input, cfg) && MessageHashes(c.input)
    ensures Sound(Next(s, c, cfg), cfg.sha256)
  {
    match c {
      case MessageCall(i) =>
        if i.message.UpdateMessage? {
          ManifestsKeepInv(s.agent.suit, i.message.update.manifests, cfg.sha256);
          ManifestsKeepHashed(s.agent.suit, i.message.update.manifests, cfg.sha256);
        }
      case InvokeCall(name, env) =>
        WasmCache.EnsureKeepsHonest(s.agent.suit.table, s.engine, name, env, cfg.sha256);
    }
  }

  lemma {:induction false} RunKeepsSound(s: State, calls: seq<Ecall>, cfg: Config)
    requires Sound(s, cfg.sha256) && EcallsSane(calls, cfg) && EcallsHash(calls)
    ensures Sound(Run(s, calls, cfg), cfg.sha256)
    decreases |calls|
  {
    if calls != [] {
      NextKeepsSound(s, calls[0], cfg);
      RunKeepsSound(Next(s, calls[0], cfg), calls[1..], cfg);
    }
  }

  /** After any messages and invocations in any order, failed ones included, an app that runs is the
      binary now in the table under its name, short of a SHA-256 collision; and, collision or not, the
      binary that runs has the hash recorded for that name. */
  lemma {:induction false} RunsWhatIsInstalled(calls: seq<Ecall>, name: Name, env: WasmCache.LoadEnv, cfg: Config)
    requires EcallsSane(calls, cfg) && EcallsHash(calls)
    ensures var s := Run(BOOT, calls, cfg);
      var o := WasmCache.Ensure(s.agent.suit.table, s.engine, name, env);
      o.code == WasmCache.OK ==>
        && LookupName(s.agent.suit.table, name).Some?
        && o.engine.cache.Loaded?
        && var e := LookupName(s.agent.suit.table, name).value;
           && cfg.sha256(o.engine.cache.bin) == e.wappHash
           && (o.engine.cache.bin == e.wappBin || WasmCache.Collision(cfg.sha256, o.engine.cache.bin, e.wappBin))
  {
    RunKeepsSound(BOOT, calls, cfg);
    var s := Run(BOOT, calls, cfg);
    if WasmCache.Ensure(s.agent.suit.table, s.engine, name, env).code == WasmCache.OK {
      RunsHashed(s, name, env, cfg.sha256);
    }
  }

  /** After any messages and invocations in any order, whatever was loaded before and whatever failed, an app
      whose record has a payload runs if and only if its module is loaded or can be: the runtime is up or
      comes up, and the copy, the load and the instantiation succeed. */
  lemma {:induction false} InstalledAppRunsIff(calls: seq<Ecall>, name: Name, env: WasmCache.LoadEnv, cfg: Config)
    requires EcallsSane(calls, cfg)
    requires var found := LookupName(Run(BOOT, calls, cfg).agent.suit.table, name);
      found.Some? && found.value.wappBin != []
    ensures var s := Run(BOOT, calls, cfg);
      var e, g := LookupName(s.agent.suit.table, name).value, s.engine;
      WasmCache.Ensure(s.agent.suit.table, g, name, env).code == WasmCache.OK <==>
        || (g.cache.Loaded? && g.cache.hash == e.wappHash)
        || ((g.inited || env.init) && env.binAlloc && env.load && env.instantiate)
  {
    var s := Run(BOOT, calls, cfg);
    WasmCache.ReadyIff(s.agent.suit.table, s.engine, name, env);
  }

  lemma {:induction false} RunsHashed(s: State, name: Name, env: WasmCache.LoadEnv, sha: DigestFunction)
    requires Sound(s, sha)
    requires WasmCache.Ensure(s.agent.suit.table, s.engine, name, env).code == WasmCache.OK
    ensures var o := WasmCache.Ensure(s.agent.suit.table, s.engine, name, env);
      && LookupName(s.agent.suit.table, name).Some? && o.engine.cache.Loaded?
      && var e := LookupName(s.agent.suit.table, name).value;
         && sha(o.engine.cache.bin) == e.wappHash == sha(e.wappBin)
         && (o.engine.cache.bin == e.wappBin || WasmCache.Collision(sha, o.engine.cache.bin, e.wappBin))
  {
    var t := s.agent.suit.table;
    WasmCache.EnsureKeepsHonest(t, s.engine, name, env, sha);
    WasmCache.RunsSameHash(t, s.engine, name, env, LookupName(t, name).value);
    assert t[FindName(t, name, -1).value] == LookupName(t, name).value;
  }

  // ------------------------------------------------------ manifests of a run

  /** This message is an Update whose manifests are processed. */
  predicate HandlesUpdate(a: Agent, i: Input, cfg: Config) {
    && i.keyReady && i.verified && i.decoded && i.message.UpdateMessage?
    && a.status == WAITING_UPDATE_OR_QUERY_REQUEST && CheckUpdate(i.message.update, cfg.lim)
  }

  function EventsOf(a: Agent, c: Ecall, cfg: Config): seq<Event> {
    if c.MessageCall? && HandlesUpdate(a, c.input, cfg)
    then Processed(a.suit, c.input.message.update.manifests, cfg.sha256) else []
  }

  /** Every manifest processed in a run, in order. */
  function Trail(s: State, calls: seq<Ecall>, cfg: Config): seq<Event>
    requires EcallsSane(calls, cfg)
    decreases |calls|
  {
    if calls == [] then [] else EventsOf(s.agent, calls[0], cfg) + Trail(Next(s, calls[0], cfg), calls[1..], cfg)
  }

  lemma {:induction false} NextChains(s: State, c: Ecall, cfg: Config)
    requires c.MessageCall? ==> Sane(c.input, cfg)
    ensures Chain(s.agent.suit, EventsOf(s.agent, c, cfg), Next(s, c, cfg).agent.suit, cfg.sha256)
  {
    if c.MessageCall? && HandlesUpdate(s.agent, c.input, cfg) {
      ProcessedChains(s.agent.suit, c.input.message.update.manifests, cfg.sha256);
    }
  }

  lemma {:induction false} TrailChains(s: State, calls: seq<Ecall>, cfg: Config)
    requires EcallsSane(calls, cfg)
    ensures Chain(s.agent.suit, Trail(s, calls, cfg), Run(s, calls, cfg).agent.suit, cfg.sha256)
    decreases |calls|
  {
    hide Chain, EventsOf, Next;
    if calls == [] {
      ChainNone(s.agent.suit, cfg.sha256);
    } else {
      var s1 := Next(s, calls[0], cfg);
      NextChains(s, calls[0], cfg);
      TrailChains(s1, calls[1..], cfg);
      ChainJoin(s.agent.suit, EventsOf(s.agent, calls[0], cfg), s1.agent.suit, Trail(s1, calls[1..], cfg),
                Run(s, calls, cfg).agent.suit, cfg.sha256);
    }
  }

  lemma {:induction false} TrailJoin(s: State, xs: seq<Ecall>, ys: seq<Ecall>, cfg: Config)
    requires EcallsSane(xs, cfg) && EcallsSane(ys, cfg)
    ensures EcallsSane(xs + ys, cfg)
    ensures Trail(s, xs + ys, cfg) == Trail(s, xs, cfg) + Trail(Run(s, xs, cfg), ys, cfg)
    ensures Run(s, xs + ys, cfg) == Run(Run(s, xs, cfg), ys, cfg)
    decreases |xs|
  {
    hide EventsOf, Next;
    if xs == [] {
      assert xs + ys == ys;
    } else {
      assert (xs + ys)[0] == xs[0] && (xs + ys)[1..] == xs[1..] + ys;
      TrailJoin(Next(s, xs[0], cfg), xs[1..], ys, cfg);
    }
  }

  /** Manifest k of an Update received after `before` is in the trail of every run that goes on from
      there, when the manifests before it pass. */
  lemma {:induction false} ManifestInTrail(before: seq<Ecall>, i: Input, after: seq<Ecall>, k: nat, cfg: Config)
    requires EcallsSane(before, cfg) && Sane(i, cfg) && EcallsSane(after, cfg)
    requires HandlesUpdate(Run(BOOT, before, cfg).agent, i, cfg) && k < |i.message.update.manifests|
    requires AllPass(Run(BOOT, before, cfg).agent.suit, i.message.update.manifests, k, cfg.sha256)
    ensures EcallsSane(before + ([MessageCall(i)] + after), cfg)
    ensures var s, ms := Run(BOOT, before, cfg), i.message.update.manifests;
      var events, n := Trail(BOOT, before + ([MessageCall(i)] + after), cfg), |Trail(BOOT, before, cfg)| + k;
      n < |events| && events[n] == Event(Fold(s.agent.suit, ms[..k], cfg.sha256), ms[k])
  {
    var s := Run(BOOT, before, cfg);
    var rest := [MessageCall(i)] + after;
    assert rest[1..] == after;
    TrailJoin(BOOT, before, rest, cfg);
    ProcessedAt(s.agent.suit, i.message.update.manifests, k, cfg.sha256);
    assert Trail(s, rest, cfg) == EventsOf(s.agent, rest[0], cfg) + Trail(Next(s, rest[0], cfg), rest[1..], cfg);
  }

  // --------------------------------------------- from manifest to execution

  /** In any run, let a manifest have been processed without error by the library, its last payload store
      followed by an image-match condition, and let nothing be stored as payload for its digest
      afterwards, whatever else happens. Then whatever runs from its record, under any name, has the
      SHA-256 digest that the manifest demanded, and the record's payload the demanded size. */
  lemma {:induction false} RunsWhatWasMatched(calls: seq<Ecall>, k: nat, p: nat, c: nat, name: Name,
      env: WasmCache.LoadEnv, cfg: Config)
    requires EcallsSane(calls, cfg) && EcallsHash(calls) && k < |Trail(BOOT, calls, cfg)|
    requires MatchedAt(Trail(BOOT, calls, cfg)[k], p, c, cfg.sha256)
    requires forall m :: k < m < |Trail(BOOT, calls, cfg)| ==>
      !WritesPayload(Trail(BOOT, calls, cfg)[m], Trail(BOOT, calls, cfg)[k].manifest.envelope.digest, cfg.sha256)
    ensures var s, e := Run(BOOT, calls, cfg), Trail(BOOT, calls, cfg)[k].manifest.envelope;
      var o, found := WasmCache.Ensure(s.agent.suit.table, s.engine, name, env), LookupName(s.agent.suit.table, name);
      o.code == WasmCache.OK && found.Some? && found.value.digest == e.digest ==>
        && o.engine.cache.Loaded? && Demanded(e, c).Some?
        && cfg.sha256(o.engine.cache.bin) == Demanded(e, c).value
        && (e.calls[c].imageMatch.value.size != 0 ==> |found.value.wappBin| == e.calls[c].imageMatch.value.size)
  {
    var events, s := Trail(BOOT, calls, cfg), Run(BOOT, calls, cfg);
    var e, t := events[k].manifest.envelope, s.agent.suit.table;
    TrailChains(BOOT, calls, cfg);
    RunKeepsSound(BOOT, calls, cfg);
    ChainInv(INITIAL.suit, events, s.agent.suit, k, cfg.sha256);
    var r := MatchedRecord(events[k], p, c, cfg.sha256);
    assert Processing(events[k], cfg.sha256).state == At(events, k + 1, s.agent.suit);
    AtMostSince(INITIAL.suit, events, s.agent.suit, e.digest, r.wappBin, r.wappHash, k + 1, cfg.sha256);
    if WasmCache.Ensure(t, s.engine, name, env).code == WasmCache.OK {
      RunsHashed(s, name, env, cfg.sha256);
      FoundIsLookedUp(t, name);
    }
  }

  /** The library processed this manifest without error and its image was matched. */
  ghost predicate MatchedAt(ev: Event, p: nat, c: nat, sha: DigestFunction) {
    && Opened(ev.manifest) && Suit.Keyed(ev.manifest.envelope) && Suit.Checked(ev.manifest.envelope, p, c)
    && Suit.ProcessEnvelope(ev.before, ev.manifest.envelope, sha).ok
  }

  /** The digest demanded by condition `c` of an envelope. */
  function Demanded(e: Suit.Envelope, c: nat): Option<Bytes> {
    if c < |e.calls| && e.calls[c].ConditionCall? && e.calls[c].imageMatch.Some?
        && e.calls[c].imageMatch.value.digest.Some?
    then Some(e.calls[c].imageMatch.value.digest.value.bytes) else None
  }

  /** The record matched: its hash field is the demanded digest; finalising it changes neither payload nor
      hash. */
  lemma {:induction false} MatchedRecord(ev: Event, p: nat, c: nat, sha: DigestFunction) returns (r: Entry)
    requires Inv(ev.before.table) && MatchedAt(ev, p, c, sha)
    ensures var e := ev.manifest.envelope;
      && Lookup(Suit.ProcessEnvelope(ev.before, e, sha).state.table, e.digest) == Some(r)
      && AtMost(Processing(ev, sha).state.table, e.digest, r.wappBin, r.wappHash)
      && Demanded(e, c) == Some(r.wappHash) && r.wappBin != []
      && (e.calls[c].imageMatch.value.size != 0 ==> |r.wappBin| == e.calls[c].imageMatch.value.size)
  {
    var e := ev.manifest.envelope;
    var t := Suit.ProcessEnvelope(ev.before, e, sha).state.table;
    Suit.ImageMatched(ev.before, e, p, c, sha);
    Suit.EnvelopeKeepsInv(ev.before, e, sha);
    FinaliseFrame(t, e.digest);
    r := Lookup(t, e.digest).value;
  }

  lemma {:induction false} FoundIsLookedUp(t: Table, name: Name)
    requires Inv(t) && LookupName(t, name).Some?
    ensures Lookup(t, LookupName(t, name).value.digest) == LookupName(t, name)
  {
    var e := LookupName(t, name).value;
    assert e == t[FindName(t, name, -1).value];
    LookupIsMembership(t, e.digest);
  }

  /** The app of the manifest processed last runs with the demanded digest, unless a newer record made its
      own be dropped or the last record of the table was moved in front of it
      (`TcAnswers.FinalisedAnswersIff`). */
  lemma {:induction false} MatchedAppRuns(calls: seq<Ecall>, p: nat, c: nat, env: WasmCache.LoadEnv, cfg: Config)
    requires EcallsSane(calls, cfg) && EcallsHash(calls) && Trail(BOOT, calls, cfg) != []
    requires var ev := Trail(BOOT, calls, cfg)[|Trail(BOOT, calls, cfg)| - 1];
      && MatchedAt(ev, p, c, cfg.sha256) && Processing(ev, cfg.sha256).err == None
      && Prevails(Suit.ProcessEnvelope(ev.before, ev.manifest.envelope, cfg.sha256).state.table,
          ev.manifest.envelope.digest)
    ensures var s, events := Run(BOOT, calls, cfg), Trail(BOOT, calls, cfg);
      var ev := events[|events| - 1];
      var e := ev.manifest.envelope;
      var stored := Lookup(Suit.ProcessEnvelope(ev.before, e, cfg.sha256).state.table, e.digest);
      && stored.Some?
      && var o := WasmCache.Ensure(s.agent.suit.table, s.engine, stored.value.wappName, env);
         o.code == WasmCache.OK ==>
           o.engine.cache.Loaded? && Demanded(e, c) == Some(cfg.sha256(o.engine.cache.bin))
  {
    var events, s := Trail(BOOT, calls, cfg), Run(BOOT, calls, cfg);
    var n := |events| - 1;
    var e := events[n].manifest.envelope;
    var t := Suit.ProcessEnvelope(events[n].before, e, cfg.sha256).state.table;
    TrailChains(BOOT, calls, cfg);
    ChainInv(INITIAL.suit, events, s.agent.suit, n, cfg.sha256);
    var r := MatchedRecord(events[n], p, c, cfg.sha256);
    Suit.EnvelopeKeepsInv(events[n].before, e, cfg.sha256);
    assert Processing(events[n], cfg.sha256).state == At(events, n + 1, s.agent.suit);
    FinalisedAnswersIff(t, e.digest, FindDigest(t, e.digest).value);
    RunsWhatWasMatched(calls, n, p, c, r.wappName, env, cfg);
  }

  /** The record of `d`, once finalised, stays and answers for its app. */
  predicate Prevails(t: Table, d: Bytes) {
    match FindDigest(t, d)
    case None => false
    case Some(i) =>
      match FindName(t, t[i].wappName, i)
      case None => true
      case Some(j) => t[j].seqNo <= t[i].seqNo && !Overtaken(t, i, j)
  }

  // ------------------------------------------------------ rejected payloads

  ghost predicate EcallsKeyed(calls: seq<Ecall>) {
    forall k :: 0 <= k < |calls| && calls[k].MessageCall? && calls[k].input.message.UpdateMessage? ==>
      ManifestsKeyed(calls[k].input.message.update.manifests)
  }

  ghost predicate ManifestsKeyed(ms: seq<ManifestInput>) {
    forall k :: 0 <= k < |ms| ==> Suit.Keyed(ms[k].envelope)
  }

  lemma {:induction false} ProcessedKeyed(s: Suit.State, ms: seq<ManifestInput>, sha: DigestFunction)
    requires ManifestsKeyed(ms)
    ensures AllKeyed(Processed(s, ms, sha))
    decreases |ms|
  {
    if ms != [] {
      ProcessedKeyed(ProcessManifest(s, ms[0], sha).state, ms[1..], sha);
    }
  }

  lemma {:induction false} TrailKeyed(s: State, calls: seq<Ecall>, cfg: Config)
    requires EcallsSane(calls, cfg) && EcallsKeyed(calls)
    ensures AllKeyed(Trail(s, calls, cfg))
    decreases |calls|
  {
    if calls != [] {
      if calls[0].MessageCall? && HandlesUpdate(s.agent, calls[0].input, cfg) {
        ProcessedKeyed(s.agent.suit, calls[0].input.message.update.manifests, cfg.sha256);
      }
      TrailKeyed(Next(s, calls[0], cfg), calls[1..], cfg);
    }
  }

  /** In any run, what an invocation finds under a name was finalised if and only if it is not the leftover
      of a rejected manifest: one that stored for the record and failed, none of the same digest having
      been accepted since. What was finalised is complete and exactly as the accepted manifest left it. */
  lemma {:induction false} FoundFinalisedIff(calls: seq<Ecall>, name: Name, cfg: Config)
    requires EcallsSane(calls, cfg) && EcallsKeyed(calls)
    ensures var t, events := Run(BOOT, calls, cfg).agent.suit.table, Trail(BOOT, calls, cfg);
      LookupName(t, name).Some? ==>
        var e := LookupName(t, name).value;
        && (Finalised(events, e.digest, cfg.sha256) <==> !Leftover(events, e.digest, cfg.sha256))
        && forall k :: 0 <= k < |events| && FinalisedBy(events, e.digest, k, cfg.sha256) ==>
             Complete(e) && Lookup(Processing(events[k], cfg.sha256).state.table, e.digest) == Some(e)
  {
    var s, events := Run(BOOT, calls, cfg), Trail(BOOT, calls, cfg);
    if LookupName(s.agent.suit.table, name).Some? {
      var d := LookupName(s.agent.suit.table, name).value.digest;
      TrailChains(BOOT, calls, cfg);
      TrailKeyed(BOOT, calls, cfg);
      ChainInv(INITIAL.suit, events, s.agent.suit, |events|, cfg.sha256);
      FoundIsLookedUp(s.agent.suit.table, name);
      FinalisedIff(events, s.agent.suit, d, cfg.sha256);
    }
  }

  // ---------------------------------------------------------- payload sizes

  /** What is stored comes out of an envelope, which the processor has limited room for. */
  predicate StoresFit(calls: seq<Suit.Callback>) {
    forall k :: 0 <= k < |calls| && calls[k].StoreCall? ==> |calls[k].args.src| <= SUIT_MAX_DATA_SIZE
  }

  predicate EcallsFit(calls: seq<Ecall>) {
    forall k :: 0 <= k < |calls| && calls[k].MessageCall? && calls[k].input.message.UpdateMessage? ==>
      ManifestsFit(calls[k].input.message.update.manifests)
  }

  predicate ManifestsFit(ms: seq<ManifestInput>) {
    forall k :: 0 <= k < |ms| ==> StoresFit(ms[k].envelope.calls)
  }

  predicate Small(t: Table) {
    forall k :: 0 <= k < |t| ==> |t[k].wappBin| <= SUIT_MAX_DATA_SIZE
  }

  lemma {:induction false} CallsKeepSmall(s: Suit.State, calls: seq<Suit.Callback>, sha: DigestFunction)
    requires Small(s.table) && StoresFit(calls)
    ensures Small(Suit.Calls(s, calls, sha).state.table)
    decreases |calls|
  {
    if calls != [] && Suit.Call(s, calls[0], sha).err == Suit.SUIT_SUCCESS {
      CallsKeepSmall(Suit.Call(s, calls[0], sha).state, calls[1..], sha);
    }
  }

  lemma {:induction false} FinaliseKeepsSmall(t: Table, d: Bytes)
    requires Small(t)
    ensures Small(Finalise(t, d).table)
  {
    FinaliseConserves(t, d);
    var t' := Finalise(t, d).table;
    forall k | 0 <= k < |t'|
      ensures t'[k] in t
    {
      assert t'[k] in multiset(t');
    }
  }

  lemma {:induction false} ManifestsKeepSmall(s: Suit.State, ms: seq<ManifestInput>, sha: DigestFunction)
    requires Small(s.table) && ManifestsFit(ms)
    ensures Small(ProcessManifests(s, ms, sha).state.table)
    decreases |ms|
  {
    if ms != [] {
      CallsKeepSmall(s, ms[0].envelope.calls, sha);
      FinaliseKeepsSmall(Suit.ProcessEnvelope(s, ms[0].envelope, sha).state.table, ms[0].envelope.digest);
      ManifestsKeepSmall(ProcessManifest(s, ms[0], sha).state, ms[1..], sha);
    }
  }

  predicate SmallState(s: State) {
    Small(s.agent.suit.table) && (s.engine.cache.Loaded? ==> |s.engine.cache.bin| <= SUIT_MAX_DATA_SIZE)
  }

  lemma {:induction false} RunKeepsSmall(s: State, calls: seq<Ecall>, cfg: Config)
    requires SmallState(s) && EcallsSane(calls, cfg) && EcallsFit(calls)
    ensures SmallState(Run(s, calls, cfg))
    decreases |calls|
  {
    if calls != [] {
      NextKeepsSmall(s, calls[0], cfg);
      RunKeepsSmall(Next(s, calls[0], cfg), calls[1..], cfg);
    }
  }

  lemma {:induction false} NextKeepsSmall(s: State, c: Ecall, cfg: Config)
    requires SmallState(s) && (c.MessageCall? ==> Sane(c.input, cfg)) && EcallsFit([c])
    ensures SmallState(Next(s, c, cfg))
  {
    assert [c][0] == c;
    match c {
      case MessageCall(i) =>
        if i.message.UpdateMessage? { ManifestsKeepSmall(s.agent.suit, i.message.update.manifests, cfg.sha256); }
      case InvokeCall(name, env) =>
        SmallEnsure(s, name, env);
    }
  }

  lemma {:induction false} SmallEnsure(s: State, name: Name, env: WasmCache.LoadEnv)
    requires SmallState(s)
    ensures var g := WasmCache.Ensure(s.agent.suit.table, s.engine, name, env).engine;
      g.cache.Loaded? ==> |g.cache.bin| <= SUIT_MAX_DATA_SIZE
  {
    var t := s.agent.suit.table;
    if LookupName(t, name).Some? { assert t[FindName(t, name, -1).value] == LookupName(t, name).value; }
  }

  /** In every run whose payloads come out of envelopes that fit the processor, the length given to the
      runtime is that of the whole binary: the cast to 32 bits loses nothing. */
  lemma {:induction false} WholeBinaryRuns(calls: seq<Ecall>, name: Name, env: WasmCache.LoadEnv, cfg: Config)
    requires EcallsSane(calls, cfg) && EcallsFit(calls)
    ensures var s := Run(BOOT, calls, cfg);
      var g := WasmCache.Ensure(s.agent.suit.table, s.engine, name, env).engine;
      g.cache.Loaded? ==> WasmCache.Runnable(g.cache.bin) == g.cache.bin
  {
    RunKeepsSmall(BOOT, calls, cfg);
    SmallEnsure(Run(BOOT, calls, cfg), name, env);
  }
}
