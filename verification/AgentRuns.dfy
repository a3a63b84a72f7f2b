/** The agent's state machine over whole runs of received messages. */
module AgentRuns {
  import opened Basics
  import opened TcTable
  import opened TcProperties
  import opened AgentSpec
  import Cbor
  import Suit
  import Evidence

  datatype Status = WAITING_QUERY_REQUEST | WAITING_UPDATE_OR_QUERY_REQUEST

  datatype Agent = Agent(status: Status, suit: Suit.State)

  const INITIAL := Agent(WAITING_QUERY_REQUEST, Suit.State([], []))

  datatype Message = QueryRequest(query: Query, env: QueryEnv) | UpdateMessage(update: Update) | OtherMessage

  /** One call of ecall_process_message: what the libraries answer, the message, what an unwritten reply
      happens to look like, and the randomness of the signature. */
  datatype Input = Input(
    keyReady: bool, verified: bool, decoded: bool, message: Message, garbage: Reply, encoded: bool,
    signed: bool, salt: nat)

  datatype Result =
    | RESULT_OK | RESPONSE_IS_TEEP_ERROR | FATAL | DEVICE_ACTIVATION_FLOW | QUERY_RESPONSE | RESULT_SUCCESS

  /** The fixed surroundings of an agent. `seal` encodes and signs a reply; it is not looked into. The
      caller's send buffer holds `sendMax` bytes. */
  datatype Config = Config(
    lim: Limits, sha256: DigestFunction, sha384: Evidence.Sha384, seal: (Reply, nat) -> Bytes, sendMax: nat)

  predicate Sane(i: Input, cfg: Config) {
    && cfg.lim.nameMax <= Cbor.LIMIT
    && (i.message.QueryRequest? ==> SmallChallenge(i.message.query) && |i.message.env.app| < Cbor.LIMIT)
  }

  /** The reply built, if any: an Update that arrives too early leaves it unwritten. */
  function ReplyOf(a: Agent, i: Input, cfg: Config): Option<Reply>
    requires Sane(i, cfg)
  {
    if !i.keyReady || !i.verified || !i.decoded then None
    else match i.message
      case QueryRequest(q, env) => Some(ProcessQuery(a.suit.table, q, cfg.lim, cfg.sha384, env).reply)
      case UpdateMessage(u) =>
        if a.status == WAITING_QUERY_REQUEST then Some(i.garbage)
        else Some(ProcessUpdate(a.suit, u, cfg.lim, cfg.sha256).reply)
      case OtherMessage => None
  }

  /** The reply was built by the agent, not left unwritten. */
  predicate Genuine(a: Agent, i: Input) {
    !(i.message.UpdateMessage? && a.status == WAITING_QUERY_REQUEST)
  }

  function NextStatus(s: Status, reply: Reply): Status {
    if s == WAITING_QUERY_REQUEST && reply.QueryResponse? then WAITING_UPDATE_OR_QUERY_REQUEST
    else if s == WAITING_UPDATE_OR_QUERY_REQUEST && reply.Success? then WAITING_QUERY_REQUEST
    else s
  }

  function ResultOf(reply: Reply): Result {
    match reply
    case Error(_, _, _) => RESPONSE_IS_TEEP_ERROR
    case QueryResponse(_, payload, _, _) => if payload.Some? then DEVICE_ACTIVATION_FLOW else QUERY_RESPONSE
    case Success(_, _) => RESULT_SUCCESS
    case Unset => RESULT_OK
  }

  /** The reply is encoded and signed, and what comes out fits the send buffer. */
  predicate Sealed(reply: Reply, i: Input, cfg: Config) {
    i.encoded && i.signed && |cfg.seal(reply, i.salt)| <= cfg.sendMax
  }

  /** `sent` is what the send buffer holds for the caller. */
  datatype Reaction = Reaction(agent: Agent, result: Result, sent: Bytes)

  /** ecall_process_message: the status changes when the reply is built, before it is encoded. */
  function React(a: Agent, i: Input, cfg: Config): Reaction
    requires Sane(i, cfg)
  {
    match ReplyOf(a, i, cfg)
    case None => Reaction(a, FATAL, [])
    case Some(reply) =>
      var suit := if i.message.UpdateMessage? && Genuine(a, i)
                  then ProcessUpdate(a.suit, i.message.update, cfg.lim, cfg.sha256).state else a.suit;
      var agent := Agent(NextStatus(a.status, reply), suit);
      if Sealed(reply, i, cfg) then Reaction(agent, ResultOf(reply), cfg.seal(reply, i.salt))
      else Reaction(agent, FATAL, [])
  }

  // -------------------------------------------------------------------- runs

  predicate AllSane(run: seq<Input>, cfg: Config) {
    forall k :: 0 <= k < |run| ==> Sane(run[k], cfg)
  }

  function After(run: seq<Input>, cfg: Config): Agent
    requires AllSane(run, cfg)
  {
    if run == [] then INITIAL
    else React(After(run[..|run| - 1], cfg), run[|run| - 1], cfg).agent
  }

  /** The reply built in step k of a run. */
  function BuiltAt(run: seq<Input>, k: nat, cfg: Config): Option<Reply>
    requires AllSane(run, cfg) && k < |run|
  {
    ReplyOf(After(run[..k], cfg), run[k], cfg)
  }

  predicate GenuineAt(run: seq<Input>, k: nat, cfg: Config)
    requires AllSane(run, cfg) && k < |run|
  {
    Genuine(After(run[..k], cfg), run[k])
  }

  predicate IsQueryResponse(r: Option<Reply>) { r.Some? && r.value.QueryResponse? }

  predicate IsSuccess(r: Option<Reply>) { r.Some? && r.value.Success? }

  /** The last step that built a QueryResponse or a Success built a QueryResponse. */
  predicate LastIsQueryResponse(run: seq<Input>, cfg: Config)
    requires AllSane(run, cfg)
  {
    exists k :: 0 <= k < |run| && LastAt(run, k, cfg)
  }

  predicate LastAt(run: seq<Input>, k: nat, cfg: Config)
    requires AllSane(run, cfg) && k < |run|
  {
    && IsQueryResponse(BuiltAt(run, k, cfg))
    && forall j :: k < j < |run| ==> !IsSuccess(BuiltAt(run, j, cfg))
  }

  lemma {:induction false} PrefixBuilt(run: seq<Input>, n: nat, k: nat, cfg: Config)
    requires AllSane(run, cfg) && k < n <= |run|
    ensures BuiltAt(run[..n], k, cfg) == BuiltAt(run, k, cfg)
    ensures GenuineAt(run[..n], k, cfg) == GenuineAt(run, k, cfg)
  {
    assert run[..n][..k] == run[..k];
  }

  /** Over every run, failures to encode or sign included, the agent waits for an Update exactly when
      the most recent QueryResponse or Success that was built is a QueryResponse. */
  lemma {:induction false} StatusTracksReplies(run: seq<Input>, cfg: Config)
    requires AllSane(run, cfg)
    ensures After(run, cfg).status == WAITING_UPDATE_OR_QUERY_REQUEST <==> LastIsQueryResponse(run, cfg)
  {
    if run != [] {
      var n := |run| - 1;
      var before := run[..n];
      StatusTracksReplies(before, cfg);
      forall k | 0 <= k < n
        ensures BuiltAt(before, k, cfg) == BuiltAt(run, k, cfg)
      {
        PrefixBuilt(run, n, k, cfg);
      }
      LastOneMore(run, n, cfg);
    }
  }

  lemma {:induction false} LastOneMore(run: seq<Input>, n: nat, cfg: Config)
    requires AllSane(run, cfg) && |run| == n + 1
    requires forall k :: 0 <= k < n ==> BuiltAt(run[..n], k, cfg) == BuiltAt(run, k, cfg)
    ensures LastIsQueryResponse(run, cfg) <==>
      IsQueryResponse(BuiltAt(run, n, cfg)) || (LastIsQueryResponse(run[..n], cfg) && !IsSuccess(BuiltAt(run, n, cfg)))
  {
    hide ReplyOf, React, After, BuiltAt;
    var before := run[..n];
    if IsQueryResponse(BuiltAt(run, n, cfg)) {
      assert LastAt(run, n, cfg);
    } else {
      if LastIsQueryResponse(run, cfg) {
        var k :| 0 <= k < |run| && LastAt(run, k, cfg);
        assert LastAt(before, k, cfg);
      }
      if LastIsQueryResponse(before, cfg) && !IsSuccess(BuiltAt(run, n, cfg)) {
        var k :| 0 <= k < |before| && LastAt(before, k, cfg);
        assert LastAt(run, k, cfg);
      }
    }
  }

  /** A genuine Success is built only while the agent waits for an Update. */
  lemma {:induction false} SuccessWhileWaiting(run: seq<Input>, k: nat, cfg: Config)
    requires AllSane(run, cfg) && k < |run| && IsSuccess(BuiltAt(run, k, cfg)) && GenuineAt(run, k, cfg)
    ensures After(run[..k], cfg).status == WAITING_UPDATE_OR_QUERY_REQUEST
    ensures After(run[..k + 1], cfg).status == WAITING_QUERY_REQUEST
  {
    assert run[..k + 1][..k] == run[..k];
    if run[k].message.QueryRequest? {
      QueryNeverSucceeds(After(run[..k], cfg).suit.table, run[k].message.query, cfg, run[k].message.env);
    }
  }

  lemma {:induction false} QueryNeverSucceeds(t: Table, q: Query, cfg: Config, env: QueryEnv)
    requires SmallChallenge(q) && |env.app| < Cbor.LIMIT && cfg.lim.nameMax <= Cbor.LIMIT
    ensures var r := ProcessQuery(t, q, cfg.lim, cfg.sha384, env).reply; r.QueryResponse? || r.Error?
  {
  }

  /** Between any two Success messages the agent builds there is a QueryResponse, or a message never
      written that looks like one. */
  lemma {:induction false} SuccessesSeparated(run: seq<Input>, i: nat, j: nat, cfg: Config)
    requires AllSane(run, cfg) && i < j < |run|
    requires IsSuccess(BuiltAt(run, i, cfg)) && GenuineAt(run, i, cfg)
    requires IsSuccess(BuiltAt(run, j, cfg)) && GenuineAt(run, j, cfg)
    ensures exists k :: i < k < j && IsQueryResponse(BuiltAt(run, k, cfg))
  {
    hide ReplyOf, React, After;
    SuccessWhileWaiting(run, j, cfg);
    StatusTracksReplies(run[..j], cfg);
    var k :| 0 <= k < j && LastAt(run[..j], k, cfg);
    PrefixBuilt(run, j, k, cfg);
    PrefixBuilt(run, j, i, cfg);
    assert i < k < j && IsQueryResponse(BuiltAt(run, k, cfg));
  }

  /** Unless an unwritten message looked like a QueryResponse in between, the agent built one itself. */
  lemma {:induction false} BuiltResponseBetween(run: seq<Input>, i: nat, j: nat, cfg: Config) returns (k: nat)
    requires AllSane(run, cfg) && i < j < |run|
    requires IsSuccess(BuiltAt(run, i, cfg)) && GenuineAt(run, i, cfg)
    requires IsSuccess(BuiltAt(run, j, cfg)) && GenuineAt(run, j, cfg)
    requires forall m :: i < m < j && !GenuineAt(run, m, cfg) ==> !run[m].garbage.QueryResponse?
    ensures i < k < j && IsQueryResponse(BuiltAt(run, k, cfg)) && GenuineAt(run, k, cfg)
  {
    hide React, After;
    SuccessesSeparated(run, i, j, cfg);
    k :| i < k < j && IsQueryResponse(BuiltAt(run, k, cfg));
    if !GenuineAt(run, k, cfg) { assert false; }
  }

  /** The table, and the captured report, change only in steps that start while the agent waits for an
      Update, and only by processing an Update. */
  lemma {:induction false} TableChangesOnlyWhenWaiting(a: Agent, i: Input, cfg: Config)
    requires Sane(i, cfg) && React(a, i, cfg).agent.suit != a.suit
    ensures a.status == WAITING_UPDATE_OR_QUERY_REQUEST && i.message.UpdateMessage?
    ensures React(a, i, cfg).agent.suit == ProcessUpdate(a.suit, i.message.update, cfg.lim, cfg.sha256).state
  {
  }

  /** An Update that arrives while a QueryRequest is awaited: the reply is whatever the unwritten message
      looks like. The table is safe; but the agent starts waiting for an Update exactly when that message
      looks like a QueryResponse, and its type decides the result. */
  lemma {:induction false} EarlyUpdate(a: Agent, i: Input, cfg: Config)
    requires Sane(i, cfg) && a.status == WAITING_QUERY_REQUEST && i.message.UpdateMessage?
    requires i.keyReady && i.verified && i.decoded
    ensures var r := React(a, i, cfg);
      && r.agent.suit == a.suit
      && (r.agent.status == WAITING_UPDATE_OR_QUERY_REQUEST <==> i.garbage.QueryResponse?)
      && r.result == if Sealed(i.garbage, i, cfg) then ResultOf(i.garbage) else FATAL
  {
  }

  /** An error reply, or none, changes no status, and nothing but an error reply is then sent. */
  lemma {:induction false} ErrorsKeepStatus(a: Agent, i: Input, cfg: Config)
    requires Sane(i, cfg) && (ReplyOf(a, i, cfg) == None || ReplyOf(a, i, cfg).value.Error?)
    ensures React(a, i, cfg).agent.status == a.status
    ensures React(a, i, cfg).result == FATAL || React(a, i, cfg).result == RESPONSE_IS_TEEP_ERROR
    ensures React(a, i, cfg).result == FATAL ==> React(a, i, cfg).sent == []
  {
  }

  /** A step that ends in a fatal result changes the status if and only if the message was accepted and
      the reply built for it, before it could not be sealed, is one that changes the status: the response
      to a first QueryRequest, the Success of an Update, or an unwritten message that looks like a
      QueryResponse. */
  lemma {:induction false} FatalChangesStatusIff(a: Agent, i: Input, cfg: Config)
    requires Sane(i, cfg) && React(a, i, cfg).result == FATAL
    ensures React(a, i, cfg).agent.status != a.status <==>
      && i.keyReady && i.verified && i.decoded
      && if a.status == WAITING_QUERY_REQUEST
         then (i.message.QueryRequest? && Answered(a.suit.table, i.message.query, cfg.lim, cfg.sha384, i.message.env))
              || (i.message.UpdateMessage? && i.garbage.QueryResponse?)
         else i.message.UpdateMessage? && CheckUpdate(i.message.update, cfg.lim)
              && AllPass(a.suit, i.message.update.manifests, |i.message.update.manifests|, cfg.sha256)
  {
    hide ProcessQuery, ProcessUpdate;
    match i.message {
      case QueryRequest(q, env) =>
        QueryNeverSucceeds(a.suit.table, q, cfg, env);
        AnsweredIff(a.suit.table, q, cfg.lim, cfg.sha384, env);
      case UpdateMessage(u) =>
        UpdateSucceedsIff(a.suit, u, cfg.lim, cfg.sha256);
        UpdateNeverQueries(a.suit, u, cfg);
      case OtherMessage =>
    }
  }

  lemma {:induction false} UpdateNeverQueries(s: Suit.State, u: Update, cfg: Config)
    ensures var r := ProcessUpdate(s, u, cfg.lim, cfg.sha256).reply; r.Success? || r.Error?
  {
  }

  /** The table invariant holds in every reachable agent. */
  lemma {:induction false} AgentKeepsInv(run: seq<Input>, cfg: Config)
    requires AllSane(run, cfg)
    ensures Inv(After(run, cfg).suit.table)
  {
    if run != [] {
      var n := |run| - 1;
      AgentKeepsInv(run[..n], cfg);
      if run[n].message.UpdateMessage? {
        ManifestsKeepInv(After(run[..n], cfg).suit, run[n].message.update.manifests, cfg.sha256);
      }
    }
  }
}
