/** run_teep_session as it works, driving the agent of `AgentCode`. */
module SessionCode {
  import opened Basics
  import opened AgentRuns
  import opened AgentCode
  import opened Session

  /** `moves` is what the TAM and the network do; the session is still waiting when they run out. The send
      buffer is the one the enclave writes its sealed replies to. */
  method RunTeepSession(agent: AgentProcess, moves: seq<Move>, cfg: Config)
    returns (posts: seq<Bytes>, logs: seq<SendLog>, end: Option<SessionResult>)
    requires agent.Valid() && agent.lib.processors == {} && agent.suit.tcm.sha == cfg.sha256
    requires MovesSane(moves, cfg)
    modifies agent, agent.suit, agent.suit.tcm, agent.suit.tcm.slots, agent.suit.tcm.heap, agent.lib, agent.work
    ensures agent.Valid() && agent.lib.processors == {}
    ensures var t := RunSession(old(agent.Current()), moves, cfg);
      posts == t.posts && logs == t.logs && end == t.end && agent.Current() == t.agent
  {
    hide React, Sane, Loop, Continues, AgentProcess.Valid, AgentProcess.Current, AgentProcess.Apart;
    var sendBuf := SendBuffer(agent, cfg.sendMax);
    var sendLen: nat := 0;
    var log, error, activation, n := INITIAL_REQUEST, false, false, 0;
    assert sendBuf[..sendLen] == [];
    posts, logs := [], [];
    ghost var whole := RunSession(agent.Current(), moves, cfg);
    assert moves[0..] == moves;
    NothingYet(whole);
    while n < |moves|
      invariant n <= |moves| && agent.Valid() && agent.lib.processors == {}
      invariant sendLen <= sendBuf.Length && agent.Apart(sendBuf)
      invariant Continues(whole, posts, logs, Loop(agent.Current(), sendBuf[..sendLen], log, error, activation,
          moves[n..], cfg))
    {
      assert moves[n..][0] == moves[n] && moves[n..][1..] == moves[n + 1..];
      ghost var a := agent.Current();
      LoopStep(whole, posts, logs, a, sendBuf[..sendLen], log, error, activation, moves[n..], cfg);
      posts, logs := posts + [sendBuf[..sendLen]], logs + [log];
      match moves[n] {
        case HttpFailure =>
          return posts, logs, Some(HTTP_ERROR);
        case NoBody =>
          var verdict := if error then TEEP_ERROR_RESPONSE else if activation then OK_DEVICE_ACTIVATED else SESSION_OK;
          return posts, logs, Some(verdict);
        case Message(sgxOk, input) =>
          if !sgxOk {
            return posts, logs, Some(SESSION_FATAL);
          }
          var result, len, leaked := agent.ProcessMessage(input, cfg, sendBuf);
          if result == FATAL {
            return posts, logs, Some(SESSION_FATAL);
          }
          if result == RESPONSE_IS_TEEP_ERROR {
            error := true;
          }
          if result == DEVICE_ACTIVATION_FLOW {
            activation := true;
          }
          sendLen, log := len, LogOf(result);
      }
      n := n + 1;
    }
    assert moves[n..] == [];
    LoopStep(whole, posts, logs, agent.Current(), sendBuf[..sendLen], log, error, activation, moves[n..], cfg);
    return posts + [sendBuf[..sendLen]], logs + [log], None;
  }

  method SendBuffer(agent: AgentProcess, size: nat) returns (sendBuf: array<byte>)
    ensures fresh(sendBuf) && sendBuf.Length == size && agent.Apart(sendBuf)
  {
    sendBuf := new byte[size];
  }

  /** What has been posted so far, followed by the trace `t` still to come, is the whole trace. */
  ghost predicate Continues(whole: Trace, posts: seq<Bytes>, logs: seq<SendLog>, t: Trace) {
    posts + t.posts == whole.posts && logs + t.logs == whole.logs && t.end == whole.end && t.agent == whole.agent
  }

  lemma {:induction false} NothingYet(whole: Trace)
    ensures Continues(whole, [], [], whole)
  {
  }

  /** The session is over with these posts. */
  ghost predicate Over(whole: Trace, posts: seq<Bytes>, logs: seq<SendLog>, a: Agent, end: Option<SessionResult>) {
    posts == whole.posts && logs == whole.logs && a == whole.agent && end == whole.end
  }

  lemma {:induction false} LoopStep(whole: Trace, posts: seq<Bytes>, logs: seq<SendLog>, a: Agent, send: Bytes,
      log: SendLog,
                                    error: bool, activation: bool, moves: seq<Move>, cfg: Config)
    requires MovesSane(moves, cfg)
    requires Continues(whole, posts, logs, Loop(a, send, log, error, activation, moves, cfg))
    ensures var p, l := posts + [send], logs + [log];
      if moves == [] then Over(whole, p, l, a, None)
      else match moves[0]
        case HttpFailure => Over(whole, p, l, a, Some(HTTP_ERROR))
        case NoBody => Over(whole, p, l, a, Some(Verdict(error, activation)))
        case Message(sgxOk, input) =>
          if !sgxOk then Over(whole, p, l, a, Some(SESSION_FATAL))
          else
            var r := React(a, input, cfg);
            if r.result == FATAL then Over(whole, p, l, r.agent, Some(SESSION_FATAL))
            else Continues(whole, p, l,
                           Loop(r.agent, r.sent, LogOf(r.result), error || r.result == RESPONSE_IS_TEEP_ERROR,
                                activation || r.result == DEVICE_ACTIVATION_FLOW, moves[1..], cfg))
  {
    hide React;
    if moves != [] && moves[0].Message? && moves[0].sgxOk {
      var r := React(a, moves[0].input, cfg);
      if r.result != FATAL {
        var rest := Loop(r.agent, r.sent, LogOf(r.result), error || r.result == RESPONSE_IS_TEEP_ERROR,
                         activation || r.result == DEVICE_ACTIVATION_FLOW, moves[1..], cfg);
        assert posts + ([send] + rest.posts) == posts + [send] + rest.posts;
        assert logs + ([log] + rest.logs) == logs + [log] + rest.logs;
      }
    }
  }
}
