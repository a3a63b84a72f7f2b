/** The agent and the Wasm engine as objects over one record table and one heap. */
module EnclaveCode {
  import opened Basics
  import opened Memory
  import opened TcTable
  import opened TcManagerCode
  import opened WasmEngineCode
  import opened SuitProcessorCode
  import opened AgentSpec
  import opened AgentRuns
  import opened AgentCode
  import Enclave
  import WasmCache

  /** Blocks that were there before buffers were stacked up are still there. */
  lemma {:induction false} StackKeeps(held: seq<UsefulBuf>, infos: seq<Bytes>, rest: Blocks, h: Blocks, p: nat)
    requires Stacked(held, infos, rest, h) && p in rest
    ensures p in h && h[p] == rest[p]
  {
    if held != [] { StackKeeps(held[1..], infos[1..], rest, h - {held[0].ptr}, p); }
  }

  class EnclaveProcess {
    const agent: AgentProcess
    const engine: WasmEngine

    ghost predicate Objects()
      reads this, agent, agent.suit, engine
    {
      && engine.tcm == agent.suit.tcm && agent.Objects() && engine.Objects()
      && engine as object != agent && engine as object != agent.suit && engine as object != agent.lib
      && engine as object != agent.work && agent as object != this && engine as object != this
      && agent.suit as object != this && engine.tcm as object != this && engine.tcm.heap as object != this
      && engine.tcm.slots as object != this && agent.lib as object != this && agent.work as object != this
      && engine.rt as object != agent && engine.rt as object != agent.suit && engine.rt as object != agent.lib
      && engine.rt as object != agent.work && engine.rt as object != this
    }

    /** Both halves are in order, and the loaded binary and the captured report are different blocks. */
    ghost predicate Valid()
      reads this, agent, agent.suit, agent.suit.tcm, agent.suit.tcm.slots, agent.suit.tcm.heap, agent.lib
      reads engine, engine.tcm, engine.tcm.slots, engine.tcm.heap, engine.rt
    {
      && Objects() && agent.Valid() && engine.Valid() && agent.lib.processors == {} && engine.Idle()
      && (engine.loaded.wappBin.ptr != 0 ==> engine.loaded.wappBin.ptr != agent.suit.report.ptr)
    }

    ghost function Current(): Enclave.State
      requires Valid()
      reads this, agent, agent.suit, agent.suit.tcm, agent.suit.tcm.slots, agent.suit.tcm.heap, agent.lib
      reads engine, engine.tcm, engine.tcm.slots, engine.tcm.heap, engine.rt
    {
      Enclave.State(agent.Current(), engine.State())
    }

    constructor (agent: AgentProcess, engine: WasmEngine)
      requires engine.tcm == agent.suit.tcm && agent.Valid() && engine.Valid()
      requires agent.lib.processors == {} && engine.Idle()
      requires agent.Current() == INITIAL && engine.State() == WasmCache.COLD
      requires engine as object != agent && engine as object != agent.suit && engine as object != agent.lib
      requires engine as object != agent.work
      requires engine.rt as object != agent && engine.rt as object != agent.suit && engine.rt as object != agent.lib
      requires engine.rt as object != agent.work
      ensures Valid() && Current() == Enclave.BOOT
    {
      this.agent, this.engine := agent, engine;
    }

    /** ecall_process_message leaves the loaded module alone. */
    method Message(i: Input, cfg: Config, sendBuf: array<byte>) returns (result: Result, len: nat)
      requires Valid() && Sane(i, cfg) && agent.suit.tcm.sha == cfg.sha256
      requires agent.Apart(sendBuf) && Apart(sendBuf) && engine.Apart(sendBuf) && sendBuf.Length == cfg.sendMax
      modifies agent, agent.suit, agent.suit.tcm, agent.suit.tcm.slots, agent.suit.tcm.heap, agent.lib, agent.work,
          sendBuf
      ensures Valid() && Current() == Enclave.Next(old(Current()), Enclave.MessageCall(i), cfg)
      ensures result == React(old(agent.Current()), i, cfg).result
      ensures result != FATAL ==> len <= sendBuf.Length && sendBuf[..len] == React(old(agent.Current()), i, cfg).sent
    {
      ghost var p := engine.loaded.wappBin.ptr;
      ghost var rest, h := agent.suit.Elsewhere(), engine.tcm.heap.blocks;
      assert p != 0 ==> p in rest && rest[p] == h[p];
      ghost var leaked;
      result, len, leaked := agent.ProcessMessage(i, cfg, sendBuf);
      if p != 0 {
        StackKeeps(leaked, Leaked(old(agent.Current()), i, cfg), rest, agent.suit.Elsewhere(), p);
        assert p in agent.suit.Elsewhere() && agent.suit.Elsewhere()[p] == h[p];
      }
      EngineUntouched();
    }

    /** What the engine needs of a change made by the agent. */
    twostate lemma EngineUntouched()
      requires old(Valid()) && Objects() && agent.Valid() && agent.lib.processors == {}
      requires engine.loaded == old(engine.loaded) && engine.inited == old(engine.inited)
      requires engine.rt.inited == old(engine.rt.inited) && engine.rt.modules == old(engine.rt.modules)
      requires engine.rt.instances == old(engine.rt.instances) && engine.rt.envs == old(engine.rt.envs)
      requires engine.rt.blocks == old(engine.rt.blocks)
      requires var p := engine.loaded.wappBin.ptr;
        p != 0 ==> p in agent.suit.Elsewhere() && agent.suit.Elsewhere()[p] == old(engine.tcm.heap.blocks)[p]
      ensures Valid() && engine.State() == old(engine.State())
    {
      OwnedLive(engine.tcm.slots[..engine.tcm.len], engine.tcm.heap.blocks);
    }

    /** ecall_invoke_wasm leaves the agent, its table and its report alone; with invalid arguments it
        leaves the engine alone too. */
    method InvokeWasm(name: Name, func: Name, input: Bytes, output: array?<byte>, capacity: nat, env: InvokeEnv)
      returns (r: InvokeResult)
      requires Valid() && Separate(env)
      requires CopySafe(input, env) || name == [] || func == [] || output == null
            || WasmCache.Ensure(engine.tcm.Contents(), engine.State(), name, env.load).code != WasmCache.OK
      requires output != null ==> capacity <= output.Length && engine.Apart(output) && Apart(output)
      modifies engine`loaded, engine`inited, engine.tcm.heap, engine.rt`inited, engine.rt`modules, engine.rt`instances
      modifies engine.rt`envs, engine.rt`blocks, engine.rt`seen, if output == null then {} else {output}
      ensures Valid()
      ensures agent.Current() == old(agent.Current())
      ensures name == [] || func == [] || output == null ==> Current() == old(Current())
      ensures !(name == [] || func == [] || output == null) ==>
        forall cfg: Config :: Current() == Enclave.Next(old(Current()), Enclave.InvokeCall(name, env.load), cfg)
    {
      hide WasmCache.Ensure, TwoPhase, Wf;
      ghost var q, rest, h := agent.suit.report.ptr, engine.Elsewhere(), engine.tcm.heap.blocks;
      assert q != 0 ==> q in rest && rest[q] == h[q];
      r := engine.Invoke(name, func, input, output, capacity, env);
      AgentUntouched();
    }

    ghost predicate Apart(output: array<byte>)
      reads this, agent
    {
      output as object != this && output as object != agent && output as object != agent.suit
      && output as object != agent.lib && output as object != agent.work
    }

    /** What the agent needs of a change made by the engine. */
    twostate lemma AgentUntouched()
      requires old(Valid()) && Objects() && engine.Valid() && engine.Idle()
      requires agent.status == old(agent.status) && agent.suit.report == old(agent.suit.report)
      requires agent.lib.processors == old(agent.lib.processors)
      requires engine.tcm.Contents() == old(engine.tcm.Contents()) && engine.Elsewhere() == old(engine.Elsewhere())
      ensures Valid() && agent.Current() == old(agent.Current())
    {
      OwnedLive(engine.tcm.slots[..engine.tcm.len], engine.tcm.heap.blocks);
      var q := agent.suit.report.ptr;
      if q != 0 {
        assert q in old(engine.Elsewhere()) && old(engine.Elsewhere())[q] == old(engine.tcm.heap.blocks)[q];
        assert q in engine.Elsewhere() && engine.Elsewhere()[q] == engine.tcm.heap.blocks[q];
      }
    }
  }
}
