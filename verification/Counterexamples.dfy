/**
 * Runs of messages in which a property one would expect does not hold. The exact conditions are proved
 * where the code is specified; here are the inputs.
 */
module Counterexamples {
  import opened Basics
  import opened TcTable
  import opened TcProperties
  import opened AgentSpec
  import opened AgentRuns
  import opened Suit
  import opened Scenarios
  import Cbor
  import Evidence
  import AgentCode
  import WasmCache

  // --------------------------------------------------- fatal results (AgentRuns)

  /** A message whose reply is built but cannot be signed. */
  function Unsigned(i: Input): Input {
    i.(signed := false)
  }

  lemma {:induction false} UnsignedReacts(a: Agent, i: Input, cfg: Config)
    requires Sane(i, cfg) && Sane(Unsigned(i), cfg)
    ensures React(a, Unsigned(i), cfg) == Reaction(React(a, i, cfg).agent, FATAL, [])
  {
    hide ProcessQuery, ProcessUpdate;
    assert ReplyOf(a, Unsigned(i), cfg) == ReplyOf(a, i, cfg);
  }

  lemma {:induction false} InstallsFirst(m: Story, report: Bytes, cfg: Config)
    requires Roomy(cfg) && Sound(m)
    ensures ProcessManifest(State([], report), Installs(m), cfg.sha256)
         == ManifestResult(State([Full(m, cfg.sha256)], report), None)
  {
    BothNew(State([], report), m, cfg.sha256);
    PassesAfter(State([], report), m.digest, [MetaCall(m), PayloadCall(m)], cfg.sha256);
    var t := [] + [Full(m, cfg.sha256)];
    assert t == [Full(m, cfg.sha256)] && FindDigest(t, m.digest) == Some(0) && FindName(t, m.app, 0) == None;
  }

  /** Two fatal results in a row: the first makes the agent wait for an Update, the second installs an app
      and makes it wait for a QueryRequest. */
  lemma {:induction false} FatalResultsChangeState(m: Story, cfg: Config)
    requires Roomy(cfg) && Sound(m)
    ensures Sane(Unsigned(Ask()), cfg) && Sane(Unsigned(Deliver(Installs(m))), cfg)
    ensures var first := React(INITIAL, Unsigned(Ask()), cfg);
      var second := React(first.agent, Unsigned(Deliver(Installs(m))), cfg);
      && first.result == FATAL && first.agent.status == WAITING_UPDATE_OR_QUERY_REQUEST
      && second.result == FATAL && second.agent.status == WAITING_QUERY_REQUEST
      && second.agent.suit.table == [Full(m, cfg.sha256)]
  {
    hide React, ReplyOf, ProcessManifest;
    AskReacts(INITIAL, cfg);
    UnsignedReacts(INITIAL, Ask(), cfg);
    var a := React(INITIAL, Ask(), cfg).agent;
    DeliverReacts(a, Installs(m), cfg);
    UnsignedReacts(a, Deliver(Installs(m)), cfg);
    InstallsFirst(m, [], cfg);
  }

  // ------------------------------------------------- stale reports (SuitReports)

  /** A first Update fails and delivers a report. A second one, with another manifest, fails without making
      a single callback; its Error carries the report of the first. */
  lemma {:induction false} StaleReportSent(d: Bytes, d': Bytes, report: Bytes, cfg: Config)
    requires Roomy(cfg) && 0 < |report| <= WORK_LEN
    ensures var run := [Ask(), Deliver(Manifest(d, [ReportCall(report, true)], true)), Deliver(Manifest(d', [], true))];
      && AllSane(run, cfg)
      && BuiltAt(run, 2, cfg) == Some(Error(MANIFEST_PROCESSING_FAILED, Some(Zeros(8)), Some(report)))
  {
    hide React, ReplyOf, After, ProcessManifest, Calls;
    var reporting, silent := Manifest(d, [ReportCall(report, true)], true), Manifest(d', [], true);
    var run := [Ask(), Deliver(reporting), Deliver(silent)];
    AskReacts(INITIAL, cfg);
    StartsInitial(run, cfg);
    AskAt(run, 0, cfg);
    OneCall(State([], []), ReportCall(report, true), cfg.sha256);
    FailsAfter(State([], []), d, [ReportCall(report, true)], cfg.sha256);
    DeliverAt(run, 1, reporting, cfg);
    NoCalls(State([], report), cfg.sha256);
    FailsAfter(State([], report), d', [], cfg.sha256);
    DeliverAt(run, 2, silent, cfg);
  }

  /** A first Update fails and delivers a report. A second one installs an app without delivering any; its
      Success carries the report of the first, which failed. */
  lemma {:induction false} StaleSuccessReportSent(d: Bytes, m: Story, report: Bytes, cfg: Config)
    requires Roomy(cfg) && Sound(m) && report != []
    ensures var run := [Ask(), Deliver(Manifest(d, [ReportCall(report, true)], true)), Deliver(Installs(m))];
      && AllSane(run, cfg)
      && BuiltAt(run, 1, cfg).Some? && BuiltAt(run, 1, cfg).value.Error?
      && BuiltAt(run, 2, cfg) == Some(Success(Zeros(8), report))
  {
    hide React, ReplyOf, After, ProcessManifest, Calls;
    var reporting := Manifest(d, [ReportCall(report, true)], true);
    var run := [Ask(), Deliver(reporting), Deliver(Installs(m))];
    AskReacts(INITIAL, cfg);
    StartsInitial(run, cfg);
    AskAt(run, 0, cfg);
    OneCall(State([], []), ReportCall(report, true), cfg.sha256);
    FailsAfter(State([], []), d, [ReportCall(report, true)], cfg.sha256);
    DeliverAt(run, 1, reporting, cfg);
    InstallsFirst(m, report, cfg);
    DeliverAt(run, 2, Installs(m), cfg);
  }

  lemma {:induction false} NoCalls(s: State, sha: DigestFunction)
    ensures Calls(s, [], sha) == Step(s, SUIT_SUCCESS)
  {
  }

  // --------------------------------------------------- unwritten messages (AgentRuns)

  /** An Update that arrives too early, while the unwritten reply looks like a QueryResponse. */
  function TooEarly(m: Story): Input {
    Deliver(Installs(m)).(garbage := QueryResponse(None, None, None, None))
  }

  /** Two Success messages are built with nothing but an unwritten message between them. */
  lemma {:induction false} UnwrittenSeparates(m: Story, cfg: Config)
    requires Roomy(cfg) && Sound(m)
    ensures var run := [Ask(), Deliver(Installs(m)), TooEarly(m), Deliver(Manifest(m.digest, [], false))];
      && AllSane(run, cfg)
      && IsSuccess(BuiltAt(run, 1, cfg)) && GenuineAt(run, 1, cfg)
      && IsSuccess(BuiltAt(run, 3, cfg)) && GenuineAt(run, 3, cfg) && !GenuineAt(run, 2, cfg)
  {
    hide React, ReplyOf, After, ProcessManifest, Calls;
    var again := Manifest(m.digest, [], false);
    var run := [Ask(), Deliver(Installs(m)), TooEarly(m), Deliver(again)];
    AskReacts(INITIAL, cfg);
    StartsInitial(run, cfg);
    AskAt(run, 0, cfg);
    InstallsFirst(m, [], cfg);
    DeliverAt(run, 1, Installs(m), cfg);
    StepAt(run, 2, cfg);
    EarlyUpdate(After(run[..2], cfg), TooEarly(m), cfg);
    var t := [Full(m, cfg.sha256)];
    NoCalls(State(t, []), cfg.sha256);
    PassesAfter(State(t, []), m.digest, [], cfg.sha256);
    assert FindDigest(t, m.digest) == Some(0) && t[0] == Full(m, cfg.sha256);
    DeliverAt(run, 3, again, cfg);
  }

  // ---------------------------------------------------------- leaks (AgentCode)

  /** A QueryRequest that asks for the installed components; only the first tc-info can be allocated. */
  function ListWithOneAllocation(app: Name): Input {
    Input(true, true, true,
          QueryRequest(Query(false, [], None, None, Evidence.Absent, false, true),
                       QueryEnv([], NoQuote(), false, app, true, (k: nat) => k == 0)),
          Unset, true, true, 0)
  }

  lemma {:induction false} HeadIsShort(m: Cbor.major, n: nat)
    requires n < Cbor.LIMIT
    ensures |Cbor.Head(m, n)| <= 9
  {
  }

  /** Two apps are installed; then a tc-list that fails half-way leaves its first buffer behind. */
  lemma {:induction false} BuffersLeak(f: Story, g: Story, cfg: Config)
    requires Roomy(cfg) && Sound(f) && Sound(g) && f.digest != g.digest && f.app != g.app
    requires cfg.lim.arrayMax >= 2 && |f.app| < cfg.lim.nameMax && |g.app| < cfg.lim.nameMax && |f.app| < 1024
    ensures var run := [Ask(), Deliver(Installs(f)), Ask(), Deliver(Installs(g))];
      && AllSane(run, cfg) && Sane(ListWithOneAllocation(f.app), cfg)
      && |AgentCode.Leaked(After(run, cfg), ListWithOneAllocation(f.app), cfg)| == 1
  {
    hide React, ReplyOf, After, ProcessManifest, Calls, ProcessQuery, Cbor.Encode, Cbor.Head, UpdateOrDiscard;
    var run := [Ask(), Deliver(Installs(f)), Ask(), Deliver(Installs(g))];
    var sha, i := cfg.sha256, ListWithOneAllocation(f.app);
    AskReacts(INITIAL, cfg);
    StartsInitial(run, cfg);
    AskAt(run, 0, cfg);
    InstallsFirst(f, [], cfg);
    DeliverAt(run, 1, Installs(f), cfg);
    AskAt(run, 2, cfg);
    InstallsSecond(f, g, cfg);
    DeliverAt(run, 3, Installs(g), cfg);
    assert run[..4] == run;
    var t := [Full(f, sha), Full(g, sha)];
    assert t[0] == Full(f, sha) && t[1] == Full(g, sha);
    AgentCode.RequestedEncoding(f.app);
    HeadIsShort(4, 1);
    HeadIsShort(2, |f.app|);
    BstrIs(f.app);
    AgentCode.LeaksIff(After(run, cfg), i, cfg);
    BuiltIs(i.message.env.itemAlloc, 2, 1);
  }

  lemma {:induction false} BstrIs(b: Bytes)
    requires |b| < Cbor.LIMIT
    ensures Cbor.Encode(Cbor.Bstr(b)) == Cbor.Head(2, |b|) + b
  {
  }

  lemma {:induction false} InstallsSecond(f: Story, g: Story, cfg: Config)
    requires Roomy(cfg) && Sound(f) && Sound(g) && f.digest != g.digest && f.app != g.app
    ensures ProcessManifest(State([Full(f, cfg.sha256)], []), Installs(g), cfg.sha256)
         == ManifestResult(State([Full(f, cfg.sha256), Full(g, cfg.sha256)], []), None)
  {
    var s := [Full(f, cfg.sha256)];
    assert s[0] == Full(f, cfg.sha256) && FindDigest(s, g.digest) == None;
    BothNew(State(s, []), g, cfg.sha256);
    PassesAfter(State(s, []), g.digest, [MetaCall(g), PayloadCall(g)], cfg.sha256);
    var t := s + [Full(g, cfg.sha256)];
    assert t == [Full(f, cfg.sha256), Full(g, cfg.sha256)] && t[0] == s[0] && t[1] == Full(g, cfg.sha256);
    assert FindDigest(t, g.digest) == Some(1) && FindName(t, g.app, 1) == None;
  }

  // -------------------------------------------------- rejected payloads (Enclave)

  /** A manifest that stores its payload, and whose image-match condition then demands another digest. */
  function Mismatched(m: Story, demanded: Bytes): ManifestInput {
    Manifest(m.digest, [PayloadCall(m), ConditionCall(m.digest,
        Some(ImageMatch(0, Some(SuitDigest(true, demanded)))))], false)
  }

  /** Without its metadata: the record of a payload alone. */
  function PayloadOnly(m: Story, sha: DigestFunction): Entry {
    Entry(m.digest, [], 0, [], m.app, sha(m.payload), m.payload)
  }

  lemma {:induction false} MismatchRejected(m: Story, demanded: Bytes, cfg: Config)
    requires Sound(m) && |demanded| == HASH_LEN && demanded != cfg.sha256(m.payload)
    ensures ProcessManifest(State([], []), Mismatched(m, demanded), cfg.sha256)
         == ManifestResult(State([PayloadOnly(m, cfg.sha256)], []), Some(MANIFEST_PROCESSING_FAILED))
  {
    var s, e := State([], []), PayloadOnly(m, cfg.sha256);
    var c := ConditionCall(m.digest, Some(ImageMatch(0, Some(SuitDigest(true, demanded)))));
    var t := [] + [e];
    assert Call(s, PayloadCall(m), cfg.sha256) == Step(State(t, []), SUIT_SUCCESS);
    TwoCalls(s, PayloadCall(m), c, cfg.sha256);
    assert t == [e] && t[0] == e && FindDigest(t, m.digest) == Some(0);
  }

  /** The image-match condition fails, the manifest is rejected and an Error is sent; and then an
      invocation under the app's name runs the rejected payload. */
  lemma {:induction false} RejectedPayloadRuns(m: Story, demanded: Bytes, cfg: Config)
    requires Roomy(cfg) && Sound(m) && |demanded| == HASH_LEN && demanded != cfg.sha256(m.payload)
    ensures var run := [Ask(), Deliver(Mismatched(m, demanded))];
      && AllSane(run, cfg) && BuiltAt(run, 1, cfg).Some? && BuiltAt(run, 1, cfg).value.Error?
      && BuiltAt(run, 1, cfg).value.code == MANIFEST_PROCESSING_FAILED
      && var works := WasmCache.LoadEnv(true, true, true, true);
         var o := WasmCache.Ensure(After(run, cfg).suit.table, WasmCache.COLD, m.app, works);
         o.code == WasmCache.OK && o.engine.cache == WasmCache.Loaded(cfg.sha256(m.payload), m.payload)
  {
    hide React, ReplyOf, After, ProcessManifest, Calls;
    var run := [Ask(), Deliver(Mismatched(m, demanded))];
    AskReacts(INITIAL, cfg);
    StartsInitial(run, cfg);
    AskAt(run, 0, cfg);
    MismatchRejected(m, demanded, cfg);
    DeliverAt(run, 1, Mismatched(m, demanded), cfg);
    assert run[..2] == run;
    var t := [PayloadOnly(m, cfg.sha256)];
    assert t[0] == PayloadOnly(m, cfg.sha256) && FindName(t, m.app, -1) == Some(0);
  }
}
