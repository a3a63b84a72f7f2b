/**
 * Messages to build runs from: a plain QueryRequest, and Updates of one manifest that stores metadata and
 * payload. The lemmas say how the agent reacts to each; runs that break an expected property are put
 * together from them.
 */
module Scenarios {
  import opened Basics
  import opened TcTable
  import opened TcProperties
  import opened AgentSpec
  import opened AgentRuns
  import opened Suit
  import Cbor
  import Evidence

  /** What a manifest stores: its sequence number, its own name and binary, and the app. */
  datatype Story = Story(digest: Bytes, seqNo: nat, name: Name, bin: Bytes, app: Name, payload: Bytes)

  predicate Plain(s: Name) { s != [] && s[0] != SLASH }

  predicate Sound(m: Story) {
    m.digest != [] && m.bin != [] && m.payload != [] && Plain(m.name) && Plain(m.app)
  }

  /** The record with the metadata only, and the whole record. */
  function Half(m: Story): Entry {
    Entry(m.digest, m.name, m.seqNo, m.bin, [], ZERO_HASH, [])
  }

  function Full(m: Story, sha: DigestFunction): Entry {
    Entry(m.digest, m.name, m.seqNo, m.bin, m.app, sha(m.payload), m.payload)
  }

  // ---------------------------------------------------------------- envelopes

  function MetaCall(m: Story): Callback {
    StoreCall(StoreArgs(true, m.digest, true, m.seqNo, Converted(m.name), m.bin), ALL_WELL)
  }

  function PayloadCall(m: Story): Callback {
    StoreCall(StoreArgs(true, m.digest, false, 0, Converted(m.app), m.payload), ALL_WELL)
  }

  lemma {:induction false} OneCall(s: State, c: Callback, sha: DigestFunction)
    ensures Calls(s, [c], sha) == Call(s, c, sha)
  {
    assert [c][1..] == [];
  }

  lemma {:induction false} TwoCalls(s: State, c: Callback, c': Callback, sha: DigestFunction)
    requires Call(s, c, sha).err == SUIT_SUCCESS
    ensures Calls(s, [c, c'], sha) == Call(Call(s, c, sha).state, c', sha)
  {
    assert [c, c'][1..] == [c'];
    OneCall(Call(s, c, sha).state, c', sha);
  }

  lemma {:induction false} MetaNew(s: State, m: Story, sha: DigestFunction)
    requires Sound(m) && FindDigest(s.table, m.digest) == None && |s.table| < MAX_RECORDS
    ensures Call(s, MetaCall(m), sha) == Step(s.(table := s.table + [Half(m)]), SUIT_SUCCESS)
  {
  }

  lemma {:induction false} MetaAgain(s: State, m: Story, i: nat, sha: DigestFunction)
    requires Sound(m) && FindDigest(s.table, m.digest) == Some(i) && s.table[i] == Half(m)
    ensures Call(s, MetaCall(m), sha) == Step(s, SUIT_SUCCESS)
  {
    assert s.table[i := Half(m)] == s.table;
  }

  lemma {:induction false} PayloadNext(s: State, t: Table, m: Story, sha: DigestFunction)
    requires Sound(m) && FindDigest(t, m.digest) == None && s.table == t + [Half(m)]
    ensures Call(s, PayloadCall(m), sha) == Step(s.(table := t + [Full(m, sha)]), SUIT_SUCCESS)
  {
    assert s.table[|t|].digest == m.digest;
    assert forall k :: 0 <= k < |t| ==> s.table[k].digest == t[k].digest;
    assert FindDigest(s.table, m.digest) == Some(|t|);
    assert s.table[|t| := Full(m, sha)] == t + [Full(m, sha)];
  }

  /** Both stores of a new manifest. */
  lemma {:induction false} BothNew(s: State, m: Story, sha: DigestFunction)
    requires Sound(m) && FindDigest(s.table, m.digest) == None && |s.table| < MAX_RECORDS
    ensures Calls(s, [MetaCall(m), PayloadCall(m)], sha) == Step(s.(table := s.table + [Full(m, sha)]), SUIT_SUCCESS)
  {
    TwoCalls(s, MetaCall(m), PayloadCall(m), sha);
    MetaNew(s, m, sha);
    PayloadNext(s.(table := s.table + [Half(m)]), s.table, m, sha);
  }

  // ----------------------------------------------------------------- messages

  /** A manifest whose processing gets as far as its callbacks. */
  function Manifest(digest: Bytes, calls: seq<Callback>, fails: bool): ManifestInput {
    ManifestInput(Setup(true, true, true, true, true, true, true, true), Zeros(1), 1, true,
                  Envelope(digest, calls, fails, None))
  }

  function Deliver(m: ManifestInput): Input {
    Input(true, true, true, UpdateMessage(Update(true, Zeros(8), [m])), Unset, true, true, 0)
  }

  /** The manifest stores everything and passes. */
  function Installs(m: Story): ManifestInput {
    Manifest(m.digest, [MetaCall(m), PayloadCall(m)], false)
  }

  function NoQuote(): Evidence.QuoteEnv {
    Evidence.QuoteEnv(false, false, Evidence.ShaEnv(false, false, false, false, false, false), false, false,
                      (b: Bytes) => b, false, false)
  }

  /** A QueryRequest that asks for nothing. */
  function Ask(): Input {
    Input(true, true, true,
          QueryRequest(Query(false, [], None, None, Evidence.Absent, false, false),
                       QueryEnv([], NoQuote(), false, [], false, (k: nat) => true)),
          Unset, true, true, 0)
  }

  function ErrorFor(r: ManifestResult): Reply
    requires r.err.Some?
  {
    CreateError(Zeros(8), r.err.value, if |r.state.report| <= WORK_LEN then r.state.report else [])
  }

  predicate Roomy(cfg: Config) {
    cfg.lim.nameMax <= Cbor.LIMIT && cfg.lim.arrayMax >= 1
  }

  lemma {:induction false} AskReacts(a: Agent, cfg: Config)
    requires Roomy(cfg)
    ensures Sane(Ask(), cfg) && IsQueryResponse(ReplyOf(a, Ask(), cfg)) && Genuine(a, Ask())
    ensures React(a, Ask(), cfg).agent == Agent(WAITING_UPDATE_OR_QUERY_REQUEST, a.suit)
  {
  }

  lemma {:induction false} OneManifest(s: State, m: ManifestInput, sha: DigestFunction)
    ensures ProcessManifests(s, [m], sha) == ProcessManifest(s, m, sha)
  {
    assert [m][1..] == [];
  }

  lemma {:induction false} DeliverReacts(a: Agent, m: ManifestInput, cfg: Config)
    requires Roomy(cfg) && a.status == WAITING_UPDATE_OR_QUERY_REQUEST
    ensures Sane(Deliver(m), cfg) && Genuine(a, Deliver(m))
    ensures var r := ProcessManifest(a.suit, m, cfg.sha256);
      && React(a, Deliver(m), cfg).agent ==
         Agent(if r.err == None then WAITING_QUERY_REQUEST else WAITING_UPDATE_OR_QUERY_REQUEST, r.state)
      && ReplyOf(a, Deliver(m), cfg).Some?
      && var reply := ReplyOf(a, Deliver(m), cfg).value;
         if r.err == None then reply == Success(Zeros(8), r.state.report)
         else reply == ErrorFor(r)
  {
    hide ProcessManifest;
    OneManifest(a.suit, m, cfg.sha256);
  }

  /** A manifest that makes these callbacks without error and then fails. */
  lemma {:induction false} FailsAfter(s: State, d: Bytes, calls: seq<Callback>, sha: DigestFunction)
    requires Calls(s, calls, sha).err == SUIT_SUCCESS
    ensures ProcessManifest(s, Manifest(d, calls, true), sha)
         == ManifestResult(Calls(s, calls, sha).state, Some(MANIFEST_PROCESSING_FAILED))
  {
  }

  lemma {:induction false} PassesAfter(s: State, d: Bytes, calls: seq<Callback>, sha: DigestFunction)
    requires Calls(s, calls, sha).err == SUIT_SUCCESS
    ensures var r := Calls(s, calls, sha).state;
      var f := Finalise(r.table, d);
      ProcessManifest(s, Manifest(d, calls, false), sha)
        == ManifestResult(r.(table := f.table), if f.ok then None else Some(TEMPORARY_ERROR))
  {
  }

  // --------------------------------------------------------------------- runs

  lemma {:induction false} StepAt(run: seq<Input>, k: nat, cfg: Config)
    requires AllSane(run, cfg) && k < |run|
    ensures After(run[..k + 1], cfg) == React(After(run[..k], cfg), run[k], cfg).agent
  {
    assert run[..k + 1][..k] == run[..k];
  }

  lemma {:induction false} StartsInitial(run: seq<Input>, cfg: Config)
    requires AllSane(run, cfg)
    ensures After(run[..0], cfg) == INITIAL
  {
  }

  lemma {:induction false} AskAt(run: seq<Input>, k: nat, cfg: Config)
    requires AllSane(run, cfg) && k < |run| && run[k] == Ask() && Roomy(cfg)
    ensures After(run[..k + 1], cfg) == Agent(WAITING_UPDATE_OR_QUERY_REQUEST, After(run[..k], cfg).suit)
    ensures IsQueryResponse(BuiltAt(run, k, cfg)) && GenuineAt(run, k, cfg)
  {
    StepAt(run, k, cfg);
    AskReacts(After(run[..k], cfg), cfg);
  }

  lemma {:induction false} DeliverAt(run: seq<Input>, k: nat, m: ManifestInput, cfg: Config)
    requires AllSane(run, cfg) && k < |run| && run[k] == Deliver(m) && Roomy(cfg)
    requires After(run[..k], cfg).status == WAITING_UPDATE_OR_QUERY_REQUEST
    ensures var r := ProcessManifest(After(run[..k], cfg).suit, m, cfg.sha256);
      && After(run[..k + 1], cfg) ==
         Agent(if r.err == None then WAITING_QUERY_REQUEST else WAITING_UPDATE_OR_QUERY_REQUEST, r.state)
      && GenuineAt(run, k, cfg) && BuiltAt(run, k, cfg).Some?
      && (r.err == None ==> BuiltAt(run, k, cfg).value == Success(Zeros(8), r.state.report))
      && (r.err != None ==> BuiltAt(run, k, cfg).value == ErrorFor(r))
  {
    hide React, ReplyOf, ProcessManifest;
    StepAt(run, k, cfg);
    DeliverReacts(After(run[..k], cfg), m, cfg);
  }
}
