/**
 * What the agent is for: apps whose manifests store metadata and payload and match their image are installed
 * by one Update, however many they are, and then run, in any order, whatever ran before.
 */
module Lifecycle {
  import opened Basics
  import opened TcTable
  import opened TcProperties
  import opened TcAnswers
  import opened AgentSpec
  import opened AgentRuns
  import opened Suit
  import opened SuitOutcomes
  import opened Scenarios
  import opened Enclave
  import WasmCache

  /** The image match of a manifest: the size of its payload and its SHA-256 digest. */
  function MatchCall(m: Story, sha: DigestFunction): Callback {
    ConditionCall(m.digest, Some(ImageMatch(|m.payload|, Some(SuitDigest(true, sha(m.payload))))))
  }

  /** A manifest that stores metadata and payload and has its image matched. */
  function Complying(m: Story, sha: DigestFunction): ManifestInput {
    Manifest(m.digest, [MetaCall(m), PayloadCall(m), MatchCall(m, sha)], false)
  }

  lemma {:induction false} FullIsFound(t: Table, m: Story, sha: DigestFunction)
    requires Scenarios.Sound(m) && FindDigest(t, m.digest) == None
    ensures FindDigest(t + [Full(m, sha)], m.digest) == Some(|t|)
    ensures Lookup(t + [Full(m, sha)], m.digest) == Some(Full(m, sha))
  {
    var s := t + [Full(m, sha)];
    assert s[|t|].digest == m.digest;
    assert forall k :: 0 <= k < |t| ==> s[k].digest == t[k].digest;
  }

  /** Its envelope is processed without error, and leaves its record at the end of the table. */
  lemma {:induction false} CompliesInCalls(s: Suit.State, m: Story, sha: DigestFunction)
    requires Scenarios.Sound(m) && FindDigest(s.table, m.digest) == None && |s.table| < 20
    ensures Calls(s, [MetaCall(m), PayloadCall(m), MatchCall(m, sha)], sha)
         == Step(s.(table := s.table + [Full(m, sha)]), SUIT_SUCCESS)
  {
    BothNew(s, m, sha);
    FullIsFound(s.table, m, sha);
    CallsOneMore(s, [MetaCall(m), PayloadCall(m)], MatchCall(m, sha), sha);
    assert [MetaCall(m), PayloadCall(m)] + [MatchCall(m, sha)] == [MetaCall(m), PayloadCall(m), MatchCall(m, sha)];
    ImageMatchIff(s.table + [Full(m, sha)], m.digest, ImageMatch(|m.payload|, Some(SuitDigest(true, sha(m.payload)))));
  }

  /** From a table with room, in which no record of the app is newer, it passes; and then its record is in the
      table and answers for its app. */
  lemma {:induction false} CompliesAndAnswers(s: Suit.State, m: Story, sha: DigestFunction)
    requires Inv(s.table) && Scenarios.Sound(m) && FindDigest(s.table, m.digest) == None && |s.table| < 20
    requires FindName(s.table, m.app, -1).Some? ==> s.table[FindName(s.table, m.app, -1).value].seqNo <= m.seqNo
    ensures var r := ProcessManifest(s, Complying(m, sha), sha);
      && r.err == None && r.state.report == s.report
      && Lookup(r.state.table, m.digest) == Some(Full(m, sha)) && LookupName(r.state.table, m.app) == Some(Full(m, sha))
  {
    var t, i := s.table + [Full(m, sha)], |s.table|;
    CompliesInCalls(s, m, sha);
    PassesAfter(s, m.digest, [MetaCall(m), PayloadCall(m), MatchCall(m, sha)], sha);
    FullIsFound(s.table, m, sha);
    EnvelopeKeepsInv(s, Complying(m, sha).envelope, sha);
    assert forall k :: 0 <= k < i ==> t[k] == s.table[k];
    SameFirst(s.table, t, m.app);
    FinaliseConserves(t, m.digest);
    FinalisedAnswersIff(t, m.digest, i);
    FinalisedOrNewer(t, m.digest);
  }

  lemma {:induction false} SameFirst(t: Table, s: Table, name: Name)
    requires |s| == |t| + 1 && forall k :: 0 <= k < |t| ==> s[k] == t[k]
    ensures FindName(s, name, |t|) == FindName(t, name, -1)
  {
  }

  // ------------------------------------------------------------ whole Updates

  function Manifests(ms: seq<Story>, sha: DigestFunction): (r: seq<ManifestInput>)
    ensures |r| == |ms|
  {
    if ms == [] then [] else [Complying(ms[0], sha)] + Manifests(ms[1..], sha)
  }

  function Fulls(ms: seq<Story>, sha: DigestFunction): (r: Table)
    ensures |r| == |ms|
    ensures forall k :: 0 <= k < |ms| ==> r[k] == Full(ms[k], sha)
  {
    if ms == [] then [] else [Full(ms[0], sha)] + Fulls(ms[1..], sha)
  }

  /** Manifests of different apps, none of them in the table, which has room for all. */
  ghost predicate Fresh(t: Table, ms: seq<Story>) {
    && |t| + |ms| <= 20
    && (forall k :: 0 <= k < |ms| ==> Scenarios.Sound(ms[k]))
    && (forall k :: 0 <= k < |ms| ==> FindDigest(t, ms[k].digest) == None && FindName(t, ms[k].app, -1) == None)
    && (forall j, k :: 0 <= j < k < |ms| ==> ms[j].digest != ms[k].digest && ms[j].app != ms[k].app)
  }

  lemma {:induction false} StillFresh(t: Table, ms: seq<Story>, sha: DigestFunction)
    requires Fresh(t, ms) && ms != []
    ensures Fresh(t + [Full(ms[0], sha)], ms[1..])
  {
    var s, rest := t + [Full(ms[0], sha)], ms[1..];
    assert s[|t|] == Full(ms[0], sha) && forall i :: 0 <= i < |t| ==> s[i] == t[i];
    forall k | 0 <= k < |rest|
      ensures Scenarios.Sound(rest[k]) && FindDigest(s, rest[k].digest) == None && FindName(s, rest[k].app, -1) == None
    {
      assert rest[k] == ms[k + 1];
    }
  }

  lemma {:induction false} FirstComplies(s: Suit.State, ms: seq<Story>, sha: DigestFunction)
    requires Fresh(s.table, ms) && ms != []
    ensures ProcessManifest(s, Complying(ms[0], sha), sha)
         == ManifestResult(s.(table := s.table + [Full(ms[0], sha)]), None)
  {
    var m, t := ms[0], s.table + [Full(ms[0], sha)];
    CompliesInCalls(s, m, sha);
    PassesAfter(s, m.digest, [MetaCall(m), PayloadCall(m), MatchCall(m, sha)], sha);
    FullIsFound(s.table, m, sha);
    assert forall k :: 0 <= k < |s.table| ==> t[k] == s.table[k];
    SameFirst(s.table, t, m.app);
  }

  lemma {:induction false} PassesFirstOf(s: Suit.State, m: ManifestInput, rest: seq<ManifestInput>, sha: DigestFunction)
    requires ProcessManifest(s, m, sha).err == None
    ensures ProcessManifests(s, [m] + rest, sha) == ProcessManifests(ProcessManifest(s, m, sha).state, rest, sha)
  {
    assert ([m] + rest)[1..] == rest;
  }

  lemma {:induction false} NoneToInstall(s: Suit.State, sha: DigestFunction)
    ensures ProcessManifests(s, Manifests([], sha), sha) == ManifestResult(s.(table := s.table + Fulls([], sha)), None)
  {
    assert s.table + Fulls([], sha) == s.table;
  }

  lemma {:induction false} OneMoreToInstall(t: Table, ms: seq<Story>, sha: DigestFunction)
    requires ms != []
    ensures Manifests(ms, sha) == [Complying(ms[0], sha)] + Manifests(ms[1..], sha)
    ensures t + Fulls(ms, sha) == t + [Full(ms[0], sha)] + Fulls(ms[1..], sha)
  {
  }

  /** All of them pass, one after the other, and all their records are in the table. */
  lemma {:induction false} AllComply(s: Suit.State, ms: seq<Story>, sha: DigestFunction)
    requires Fresh(s.table, ms)
    ensures ProcessManifests(s, Manifests(ms, sha), sha)
         == ManifestResult(s.(table := s.table + Fulls(ms, sha)), None)
    decreases |ms|
  {
    hide ProcessManifest, ProcessManifests, Manifests, Fulls, Fresh, Complying, Full;
    if ms == [] {
      NoneToInstall(s, sha);
    } else {
      var s1 := s.(table := s.table + [Full(ms[0], sha)]);
      FirstComplies(s, ms, sha);
      StillFresh(s.table, ms, sha);
      AllComply(s1, ms[1..], sha);
      OneMoreToInstall(s.table, ms, sha);
      PassesFirstOf(s, Complying(ms[0], sha), Manifests(ms[1..], sha), sha);
    }
  }

  lemma {:induction false} NotNamedBefore(t: Table, ms: seq<Story>, k: nat, i: nat, sha: DigestFunction)
    requires Fresh(t, ms) && k < |ms| && i < |t| + k
    ensures (t + Fulls(ms, sha))[i].wappName != ms[k].app
  {
    if i < |t| {
      assert (t + Fulls(ms, sha))[i] == t[i];
    } else {
      assert (t + Fulls(ms, sha))[i] == Full(ms[i - |t|], sha);
    }
  }

  lemma {:induction false} EachAnswers(t: Table, ms: seq<Story>, k: nat, sha: DigestFunction)
    requires Fresh(t, ms) && k < |ms|
    ensures LookupName(t + Fulls(ms, sha), ms[k].app) == Some(Full(ms[k], sha))
  {
    var s := t + Fulls(ms, sha);
    assert s[|t| + k] == Full(ms[k], sha) && ms[k].app != [] by { assert Scenarios.Sound(ms[k]); }
    hide Fresh, Fulls, LookupName;
    forall i | 0 <= i < |t| + k
      ensures s[i].wappName != ms[k].app
    {
      NotNamedBefore(t, ms, k, i, sha);
    }
    FirstNamed(s, ms[k].app, |t| + k);
  }

  /** One Update with all these manifests. */
  function DeliverAll(ms: seq<Story>, cfg: Config): Input {
    Input(true, true, true, UpdateMessage(Update(true, Zeros(8), Manifests(ms, cfg.sha256))), Unset, true, true, 0)
  }

  /** An agent that waits for an Update answers it with Success and has all the apps installed. */
  lemma {:induction false} UpdateInstallsAll(a: Agent, ms: seq<Story>, cfg: Config)
    requires Roomy(cfg) && a.status == WAITING_UPDATE_OR_QUERY_REQUEST
    requires Fresh(a.suit.table, ms) && 1 <= |ms| <= cfg.lim.arrayMax
    ensures Sane(DeliverAll(ms, cfg), cfg)
    ensures IsSuccess(ReplyOf(a, DeliverAll(ms, cfg), cfg))
    ensures React(a, DeliverAll(ms, cfg), cfg).agent ==
            Agent(WAITING_QUERY_REQUEST, a.suit.(table := a.suit.table + Fulls(ms, cfg.sha256)))
  {
    hide ProcessManifests;
    AllComply(a.suit, ms, cfg.sha256);
  }

  // --------------------------------------------------------- install and run

  predicate OnlyInvokes(calls: seq<Ecall>) {
    forall k :: 0 <= k < |calls| ==> calls[k].InvokeCall?
  }

  lemma {:induction false} InvocationsKeepAgent(s: Enclave.State, calls: seq<Ecall>, cfg: Config)
    requires OnlyInvokes(calls)
    ensures EcallsSane(calls, cfg) && Enclave.Run(s, calls, cfg).agent == s.agent
    decreases |calls|
  {
    if calls != [] {
      InvocationsKeepAgent(Enclave.Next(s, calls[0], cfg), calls[1..], cfg);
    }
  }

  lemma {:induction false} DeliveredHash(ms: seq<Story>, sha: DigestFunction)
    ensures ManifestsHash(Manifests(ms, sha))
    decreases |ms|
  {
    if ms != [] {
      DeliveredHash(ms[1..], sha);
    }
  }

  /** After any messages and invocations that leave the agent waiting for an Update, any number of new apps is
      installed by one Update; and then, after any invocations, of these apps or others, each of them runs, and
      what runs has the digest its manifest demanded: it is its payload, short of a collision. */
  lemma {:induction false} InstallAndRun(before: seq<Ecall>, ms: seq<Story>, invocations: seq<Ecall>, k: nat,
      cfg: Config)
    requires Roomy(cfg) && EcallsSane(before, cfg) && EcallsHash(before) && OnlyInvokes(invocations)
    requires Enclave.Run(BOOT, before, cfg).agent.status == WAITING_UPDATE_OR_QUERY_REQUEST
    requires Fresh(Enclave.Run(BOOT, before, cfg).agent.suit.table, ms) && k < |ms| <= cfg.lim.arrayMax
    ensures var calls := before + ([MessageCall(DeliverAll(ms, cfg))] + invocations);
      && EcallsSane(calls, cfg)
      && IsSuccess(ReplyOf(Enclave.Run(BOOT, before, cfg).agent, DeliverAll(ms, cfg), cfg))
      && var s := Enclave.Run(BOOT, calls, cfg);
         var o := WasmCache.Ensure(s.agent.suit.table, s.engine, ms[k].app, WasmCache.LoadEnv(true, true, true, true));
         && LookupName(s.agent.suit.table, ms[k].app) == Some(Full(ms[k], cfg.sha256))
         && o.code == WasmCache.OK && o.engine.cache.Loaded?
         && cfg.sha256(o.engine.cache.bin) == cfg.sha256(ms[k].payload)
         && (o.engine.cache.bin == ms[k].payload
             || WasmCache.Collision(cfg.sha256, o.engine.cache.bin, ms[k].payload))
  {
    hide React, ReplyOf, WasmCache.Ensure;
    var i, s := DeliverAll(ms, cfg), Enclave.Run(BOOT, before, cfg);
    var rest := [MessageCall(i)] + invocations;
    UpdateInstallsAll(s.agent, ms, cfg);
    InvocationsKeepAgent(Enclave.Next(s, MessageCall(i), cfg), invocations, cfg);
    assert rest[0] == MessageCall(i) && rest[1..] == invocations;
    assert EcallsSane(rest, cfg);
    TrailJoin(BOOT, before, rest, cfg);
    EachAnswers(s.agent.suit.table, ms, k, cfg.sha256);
    DeliveredHash(ms, cfg.sha256);
    assert EcallsHash(before + rest);
    RunsWhatIsInstalled(before + rest, ms[k].app, WasmCache.LoadEnv(true, true, true, true), cfg);
    InstalledAppRunsIff(before + rest, ms[k].app, WasmCache.LoadEnv(true, true, true, true), cfg);
  }
}
