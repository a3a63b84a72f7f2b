/** run_teep_session: the agent against any TAM, one HTTP exchange after another. */
module Session {
  import opened Basics
  import opened AgentSpec
  import opened AgentRuns

  /** What the TAM, the network and the enclave boundary do after one POST: the POST fails; it succeeds
      without a body; or a message arrives, which is handed to the enclave unless the ECALL itself fails. */
  datatype Move = HttpFailure | NoBody | Message(sgxOk: bool, input: Input)

  datatype SessionResult = SESSION_OK | TEEP_ERROR_RESPONSE | SESSION_FATAL | HTTP_ERROR | OK_DEVICE_ACTIVATED

  datatype SendLog = INITIAL_REQUEST | LOG_QUERY_RESPONSE | LOG_WITH_ATTESTATION | LOG_SUCCESS | LOG_ERROR

  /** send_log_type_from_ecall_result */
  function LogOf(r: Result): SendLog {
    match r
    case RESPONSE_IS_TEEP_ERROR => LOG_ERROR
    case DEVICE_ACTIVATION_FLOW => LOG_WITH_ATTESTATION
    case QUERY_RESPONSE => LOG_QUERY_RESPONSE
    case RESULT_SUCCESS => LOG_SUCCESS
    case RESULT_OK => LOG_SUCCESS
    case FATAL => LOG_SUCCESS
  }

  /** The bodies posted and how each was announced, the enclave results seen and what each left in the
      send buffer, the agent afterwards, and the session's result once it has one. */
  datatype Trace = Trace(
    posts: seq<Bytes>, logs: seq<SendLog>, results: seq<Result>, sent: seq<Bytes>, agent: Agent,
    end: Option<SessionResult>)

  function Verdict(error: bool, activation: bool): SessionResult {
    if error then TEEP_ERROR_RESPONSE else if activation then OK_DEVICE_ACTIVATED else SESSION_OK
  }

  predicate MovesSane(moves: seq<Move>, cfg: Config) {
    forall k :: 0 <= k < |moves| && moves[k].Message? ==> Sane(moves[k].input, cfg)
  }

  /** The loop, from its variables on. */
  function Loop(a: Agent, send: Bytes, log: SendLog, error: bool, activation: bool, moves: seq<Move>,
      cfg: Config): (t: Trace)
    requires MovesSane(moves, cfg)
    ensures t.posts != [] && |t.posts| == |t.logs| && |t.results| == |t.sent| <= |moves|
    decreases |moves|
  {
    if moves == [] then Trace([send], [log], [], [], a, None)
    else match moves[0]
      case HttpFailure => Trace([send], [log], [], [], a, Some(HTTP_ERROR))
      case NoBody => Trace([send], [log], [], [], a, Some(Verdict(error, activation)))
      case Message(sgxOk, input) =>
        if !sgxOk then Trace([send], [log], [], [], a, Some(SESSION_FATAL))
        else
          var r := React(a, input, cfg);
          if r.result == FATAL then Trace([send], [log], [FATAL], [r.sent], r.agent, Some(SESSION_FATAL))
          else
            var rest := Loop(r.agent, r.sent, LogOf(r.result), error || r.result == RESPONSE_IS_TEEP_ERROR,
                             activation || r.result == DEVICE_ACTIVATION_FLOW, moves[1..], cfg);
            Trace([send] + rest.posts, [log] + rest.logs, [r.result] + rest.results, [r.sent] + rest.sent,
                  rest.agent, rest.end)
  }

  function RunSession(a: Agent, moves: seq<Move>, cfg: Config): Trace
    requires MovesSane(moves, cfg)
  {
    Loop(a, [], INITIAL_REQUEST, false, false, moves, cfg)
  }

  // ------------------------------------------------------------------- posts

  /** Every POST after the first carries what the enclave left in the send buffer just before, announced
      by the result of that call. */
  ghost predicate Forwards(t: Trace, moves: seq<Move>) {
    && |t.posts| == |t.logs| && |t.results| == |t.sent|
    && forall k :: 0 <= k < |t.posts| - 1 ==> Forwarded(t, moves, k)
  }

  ghost predicate Forwarded(t: Trace, moves: seq<Move>, k: nat)
    requires |t.posts| == |t.logs| && |t.results| == |t.sent| && k < |t.posts| - 1
  {
    && k < |moves| && moves[k].Message? && k < |t.results| && t.results[k] != FATAL
    && t.posts[k + 1] == t.sent[k] && t.logs[k + 1] == LogOf(t.results[k])
  }

  lemma {:induction false} ForwardsCons(t: Trace, rest: Trace, send: Bytes, log: SendLog, r: Reaction, moves: seq<Move>)
    requires moves != [] && moves[0].Message? && Forwards(rest, moves[1..]) && r.result != FATAL
    requires rest.posts != [] && rest.posts[0] == r.sent
    requires |rest.logs| == |rest.posts| && rest.logs[0] == LogOf(r.result)
    requires t.posts == [send] + rest.posts && t.logs == [log] + rest.logs
    requires t.results == [r.result] + rest.results && t.sent == [r.sent] + rest.sent
    ensures Forwards(t, moves)
  {
    forall k | 0 <= k < |t.posts| - 1
      ensures Forwarded(t, moves, k)
    {
      if k > 0 {
        assert Forwarded(rest, moves[1..], k - 1);
        assert moves[1..][k - 1] == moves[k];
      }
    }
  }

  lemma {:induction false} LoopForwards(a: Agent, send: Bytes, log: SendLog, error: bool, activation: bool,
      moves: seq<Move>, cfg: Config)
    requires MovesSane(moves, cfg)
    ensures var t := Loop(a, send, log, error, activation, moves, cfg);
      t.posts[0] == send && t.logs[0] == log && Forwards(t, moves)
    decreases |moves|
  {
    hide React;
    if moves != [] && moves[0].Message? && moves[0].sgxOk {
      var r := React(a, moves[0].input, cfg);
      if r.result != FATAL {
        var error' := error || r.result == RESPONSE_IS_TEEP_ERROR;
        var activation' := activation || r.result == DEVICE_ACTIVATION_FLOW;
        LoopForwards(r.agent, r.sent, LogOf(r.result), error', activation', moves[1..], cfg);
        ForwardsCons(Loop(a, send, log, error, activation, moves, cfg),
                     Loop(r.agent, r.sent, LogOf(r.result), error', activation', moves[1..], cfg),
                     send, log, r, moves);
      }
    }
  }

  // ------------------------------------------------------------------ result

  /** The result is fixed by the last exchange and, when that had no body, by the enclave results seen:
      an error reply outweighs a device activation, wherever in the session either happened. */
  ghost predicate EndsAs(t: Trace, error: bool, activation: bool, moves: seq<Move>) {
    t.posts != [] &&
    var n := |t.posts| - 1;
    && n <= |moves|
    && (t.end == None <==> n == |moves|)
    && (n < |moves| ==>
          t.end == Some(match moves[n]
                        case HttpFailure => HTTP_ERROR
                        case NoBody =>
                          if error || RESPONSE_IS_TEEP_ERROR in t.results then TEEP_ERROR_RESPONSE
                          else if activation || DEVICE_ACTIVATION_FLOW in t.results then OK_DEVICE_ACTIVATED
                          else SESSION_OK
                        case Message(_, _) => SESSION_FATAL))
    && (n < |moves| && moves[n].Message? && moves[n].sgxOk ==> |t.results| == n + 1 && t.results[n] == FATAL)
    && (!(n < |moves| && moves[n].Message? && moves[n].sgxOk) ==> |t.results| == n)
    && (forall k :: 0 <= k < n ==> t.results[k] != FATAL)
  }

  lemma {:induction false} LoopEnds(a: Agent, send: Bytes, log: SendLog, error: bool, activation: bool,
      moves: seq<Move>, cfg: Config)
    requires MovesSane(moves, cfg)
    ensures EndsAs(Loop(a, send, log, error, activation, moves, cfg), error, activation, moves)
    decreases |moves|
  {
    if moves != [] && moves[0].Message? && moves[0].sgxOk {
      var r := React(a, moves[0].input, cfg);
      if r.result != FATAL {
        var error' := error || r.result == RESPONSE_IS_TEEP_ERROR;
        var activation' := activation || r.result == DEVICE_ACTIVATION_FLOW;
        var rest := Loop(r.agent, r.sent, LogOf(r.result), error', activation', moves[1..], cfg);
        LoopEnds(r.agent, r.sent, LogOf(r.result), error', activation', moves[1..], cfg);
        PrependEnds(Loop(a, send, log, error, activation, moves, cfg), rest, send, r.result, error, activation, moves);
      }
    }
  }

  lemma {:induction false} PrependEnds(t: Trace, rest: Trace, send: Bytes, r: Result, error: bool, activation: bool,
      moves: seq<Move>)
    requires moves != [] && r != FATAL && rest.posts != []
    requires t.posts == [send] + rest.posts && t.results == [r] + rest.results && t.end == rest.end
    requires EndsAs(rest, error || r == RESPONSE_IS_TEEP_ERROR, activation || r == DEVICE_ACTIVATION_FLOW, moves[1..])
    ensures EndsAs(t, error, activation, moves)
  {
    assert forall x :: x in t.results <==> x == r || x in rest.results;
    var n := |t.posts| - 1;
    assert n < |moves| ==> moves[n] == moves[1..][n - 1];
    assert forall k :: 0 < k < |t.results| ==> t.results[k] == rest.results[k - 1];
  }

  lemma {:induction false} SessionEnds(a: Agent, moves: seq<Move>, cfg: Config)
    requires MovesSane(moves, cfg)
    ensures EndsAs(RunSession(a, moves, cfg), false, false, moves)
  {
    LoopEnds(a, [], INITIAL_REQUEST, false, false, moves, cfg);
  }

  // ------------------------------------------------- composition with the agent

  /** The messages the enclave handled in the first n exchanges. */
  function Inputs(moves: seq<Move>, n: nat): (r: seq<Input>)
    requires n <= |moves| && forall k :: 0 <= k < n ==> moves[k].Message?
    ensures |r| == n && forall k :: 0 <= k < n ==> r[k] == moves[k].input
  {
    if n == 0 then [] else Inputs(moves, n - 1) + [moves[n - 1].input]
  }

  /** The exchanges of `t` are those of an agent that, after `run`, handles `handled`. */
  ghost predicate Tracks(run: seq<Input>, handled: seq<Input>, t: Trace, moves: seq<Move>, cfg: Config) {
    && AllSane(run, cfg) && |handled| == |t.results| == |t.sent| <= |moves|
    && (forall k :: 0 <= k < |handled| ==> moves[k].Message? && handled[k] == moves[k].input && Sane(handled[k], cfg))
    && AllSane(run + handled, cfg) && t.agent == After(run + handled, cfg)
    && (forall k :: 0 <= k < |handled| ==>
          ReactionAt(run, handled, k, cfg).result == t.results[k] && ReactionAt(run, handled, k, cfg).sent == t.sent[k])
  }

  function ReactionAt(run: seq<Input>, handled: seq<Input>, k: nat, cfg: Config): Reaction
    requires AllSane(run + handled, cfg) && k < |handled|
  {
    assert (run + handled)[|run| + k] == handled[k];
    React(After((run + handled)[..|run| + k], cfg), handled[k], cfg)
  }

  lemma {:induction false} AfterOneMore(run: seq<Input>, input: Input, cfg: Config)
    requires AllSane(run, cfg) && Sane(input, cfg)
    ensures AllSane(run + [input], cfg)
    ensures After(run + [input], cfg) == React(After(run, cfg), input, cfg).agent
  {
    assert (run + [input])[..|run|] == run;
  }

  lemma {:induction false} TracksNone(run: seq<Input>, t: Trace, moves: seq<Move>, cfg: Config)
    requires AllSane(run, cfg) && t.results == [] && t.sent == [] && t.agent == After(run, cfg)
    ensures Tracks(run, [], t, moves, cfg)
  {
    assert run + [] == run;
  }

  lemma {:induction false} TracksCons(run: seq<Input>, input: Input, more: seq<Input>, t: Trace, rest: Trace,
      moves: seq<Move>, cfg: Config)
    requires AllSane(run, cfg) && Sane(input, cfg) && moves != [] && moves[0].Message? && moves[0].input == input
    requires Tracks(run + [input], more, rest, moves[1..], cfg)
    requires t.agent == rest.agent && t.results == [React(After(run, cfg), input, cfg).result] + rest.results
    requires t.sent == [React(After(run, cfg), input, cfg).sent] + rest.sent
    ensures Tracks(run, [input] + more, t, moves, cfg)
  {
    hide React, After;
    var handled := [input] + more;
    assert run + handled == run + [input] + more;
    assert (run + handled)[..|run|] == run;
    forall k | 0 <= k < |handled|
      ensures moves[k].Message? && handled[k] == moves[k].input && Sane(handled[k], cfg)
      ensures ReactionAt(run, handled, k, cfg).result == t.results[k]
      ensures ReactionAt(run, handled, k, cfg).sent == t.sent[k]
    {
      if k > 0 {
        assert moves[k] == moves[1..][k - 1] && handled[k] == more[k - 1];
        assert (run + handled)[..|run| + k] == (run + [input] + more)[..|run + [input]| + (k - 1)];
        assert t.results[k] == rest.results[k - 1] && t.sent[k] == rest.sent[k - 1];
      }
    }
  }

  lemma {:induction false} LoopRunsAgent(run: seq<Input>, send: Bytes, log: SendLog, error: bool, activation: bool,
      moves: seq<Move>, cfg: Config)
    returns (handled: seq<Input>)
    requires AllSane(run, cfg) && MovesSane(moves, cfg)
    ensures Tracks(run, handled, Loop(After(run, cfg), send, log, error, activation, moves, cfg), moves, cfg)
    decreases |moves|
  {
    hide React, After, Tracks;
    var t := Loop(After(run, cfg), send, log, error, activation, moves, cfg);
    if moves != [] && moves[0].Message? && moves[0].sgxOk {
      var input := moves[0].input;
      var r := React(After(run, cfg), input, cfg);
      AfterOneMore(run, input, cfg);
      if r.result == FATAL {
        var rest := Trace([], [], [], [], r.agent, None);
        TracksNone(run + [input], rest, moves[1..], cfg);
        TracksCons(run, input, [], t, rest, moves, cfg);
        handled := [input] + [];
      } else {
        var error' := error || r.result == RESPONSE_IS_TEEP_ERROR;
        var activation' := activation || r.result == DEVICE_ACTIVATION_FLOW;
        var rest := Loop(r.agent, r.sent, LogOf(r.result), error', activation', moves[1..], cfg);
        var more := LoopRunsAgent(run + [input], r.sent, LogOf(r.result), error', activation', moves[1..], cfg);
        TracksCons(run, input, more, t, rest, moves, cfg);
        handled := [input] + more;
      }
    } else {
      handled := [];
      TracksNone(run, t, moves, cfg);
    }
  }

  /** Against any TAM, and after any earlier messages, the first POST of a session is empty and announced
      as the initial request; and POST k + 1 carries the very reply that the agent built for message k of
      the session, sealed. */
  lemma {:induction false} PostsCarryReplies(run: seq<Input>, moves: seq<Move>, cfg: Config)
    returns (handled: seq<Input>)
    requires AllSane(run, cfg) && MovesSane(moves, cfg)
    ensures Tracks(run, handled, RunSession(After(run, cfg), moves, cfg), moves, cfg) && AllSane(run + handled, cfg)
    ensures var t := RunSession(After(run, cfg), moves, cfg);
      && t.posts[0] == [] && t.logs[0] == INITIAL_REQUEST
      && forall k :: 0 <= k < |t.posts| - 1 ==> CarriesReply(run, handled, t, k, cfg)
  {
    hide React, Loop;
    var t := RunSession(After(run, cfg), moves, cfg);
    LoopForwards(After(run, cfg), [], INITIAL_REQUEST, false, false, moves, cfg);
    handled := LoopRunsAgent(run, [], INITIAL_REQUEST, false, false, moves, cfg);
    forall k | 0 <= k < |t.posts| - 1
      ensures CarriesReply(run, handled, t, k, cfg)
    {
      assert Forwarded(t, moves, k);
      CarriesAt(run, handled, t, moves, k, cfg);
    }
  }

  ghost predicate CarriesReply(run: seq<Input>, handled: seq<Input>, t: Trace, k: nat, cfg: Config)
    requires AllSane(run + handled, cfg)
  {
    && k + 1 < |t.posts| == |t.logs| && k < |handled| == |t.results|
    && BuiltAt(run + handled, |run| + k, cfg).Some?
    && t.posts[k + 1] == cfg.seal(BuiltAt(run + handled, |run| + k, cfg).value, handled[k].salt)
    && t.logs[k + 1] == match BuiltAt(run + handled, |run| + k, cfg).value
                        case Error(_, _, _) => LOG_ERROR
                        case QueryResponse(_, payload, _, _) =>
                          if payload.Some? then LOG_WITH_ATTESTATION else LOG_QUERY_RESPONSE
                        case Success(_, _) => LOG_SUCCESS
                        case Unset => LOG_SUCCESS
  }

  lemma {:induction false} CarriesAt(run: seq<Input>, handled: seq<Input>, t: Trace, moves: seq<Move>, k: nat,
      cfg: Config)
    requires Tracks(run, handled, t, moves, cfg) && Forwards(t, moves) && k < |t.posts| - 1
    ensures CarriesReply(run, handled, t, k, cfg)
  {
    hide ReplyOf, After;
    assert Forwarded(t, moves, k);
    assert (run + handled)[|run| + k] == handled[k];
    assert ReactionAt(run, handled, k, cfg).sent == t.sent[k];
    assert ReactionAt(run, handled, k, cfg).result == t.results[k];
    assert BuiltAt(run + handled, |run| + k, cfg) == ReplyOf(After((run + handled)[..|run| + k], cfg), handled[k], cfg);
  }

  /** After any earlier messages, the enclave results of a session are those of the agent's run on the
      messages received, so the session reports an error response exactly when it ends normally and some
      reply it sent was an Error. */
  lemma {:induction false} SessionReportsReplies(run: seq<Input>, moves: seq<Move>, cfg: Config)
    returns (handled: seq<Input>)
    requires AllSane(run, cfg) && MovesSane(moves, cfg)
    ensures Tracks(run, handled, RunSession(After(run, cfg), moves, cfg), moves, cfg) && AllSane(run + handled, cfg)
    ensures var t := RunSession(After(run, cfg), moves, cfg);
      t.end == Some(TEEP_ERROR_RESPONSE) <==>
        && 0 <= |t.posts| - 1 < |moves| && moves[|t.posts| - 1].NoBody?
        && exists k :: |run| <= k < |run + handled| && ErrorBuilt(run + handled, k, cfg)
  {
    hide React, Loop, BuiltAt, ErrorBuilt;
    SessionEnds(After(run, cfg), moves, cfg);
    var t := RunSession(After(run, cfg), moves, cfg);
    handled := LoopRunsAgent(run, [], INITIAL_REQUEST, false, false, moves, cfg);
    if forall k :: 0 <= k < |t.results| ==> t.results[k] != FATAL {
      ErrorsSeen(run, handled, t, moves, cfg);
    }
  }

  lemma {:induction false} ErrorsSeen(run: seq<Input>, handled: seq<Input>, t: Trace, moves: seq<Move>, cfg: Config)
    requires Tracks(run, handled, t, moves, cfg) && AllSane(run + handled, cfg)
    requires forall k :: 0 <= k < |t.results| ==> t.results[k] != FATAL
    ensures RESPONSE_IS_TEEP_ERROR in t.results <==>
            exists k :: |run| <= k < |run + handled| && ErrorBuilt(run + handled, k, cfg)
  {
    hide Tracks, ErrorBuilt;
    assert |handled| == |t.results| by { TracksLength(run, handled, t, moves, cfg); }
    forall k | 0 <= k < |handled|
      ensures t.results[k] == RESPONSE_IS_TEEP_ERROR <==> ErrorBuilt(run + handled, |run| + k, cfg)
    {
      ErrorSeenAt(run, handled, t, moves, k, cfg);
    }
    if RESPONSE_IS_TEEP_ERROR in t.results {
      var k :| 0 <= k < |t.results| && t.results[k] == RESPONSE_IS_TEEP_ERROR;
      assert ErrorBuilt(run + handled, |run| + k, cfg);
    }
    if k :| |run| <= k < |run + handled| && ErrorBuilt(run + handled, k, cfg) {
      assert t.results[k - |run|] == RESPONSE_IS_TEEP_ERROR;
    }
  }

  lemma {:induction false} TracksLength(run: seq<Input>, handled: seq<Input>, t: Trace, moves: seq<Move>, cfg: Config)
    requires Tracks(run, handled, t, moves, cfg)
    ensures |handled| == |t.results|
  {
  }

  lemma {:induction false} ErrorSeenAt(run: seq<Input>, handled: seq<Input>, t: Trace, moves: seq<Move>, k: nat,
      cfg: Config)
    requires Tracks(run, handled, t, moves, cfg) && AllSane(run + handled, cfg) && k < |handled| == |t.results|
    requires t.results[k] != FATAL
    ensures t.results[k] == RESPONSE_IS_TEEP_ERROR <==> ErrorBuilt(run + handled, |run| + k, cfg)
  {
    hide React, After, ReplyOf;
    var all := run + handled;
    assert all[|run| + k] == handled[k];
    assert ReactionAt(run, handled, k, cfg).result == t.results[k];
    ErrorResult(After(all[..|run| + k], cfg), handled[k], cfg);
  }

  /** Step k of the run built an Error reply. */
  predicate ErrorBuilt(run: seq<Input>, k: nat, cfg: Config)
    requires AllSane(run, cfg) && k < |run|
  {
    BuiltAt(run, k, cfg).Some? && BuiltAt(run, k, cfg).value.Error?
  }

  lemma {:induction false} ErrorResult(a: Agent, i: Input, cfg: Config)
    requires Sane(i, cfg) && React(a, i, cfg).result != FATAL
    ensures React(a, i, cfg).result == RESPONSE_IS_TEEP_ERROR <==>
            ReplyOf(a, i, cfg).Some? && ReplyOf(a, i, cfg).value.Error?
  {
  }
}
