/**
 * Enclave_wasm.cpp as it works: the loaded module is one global record updated in place, and every
 * runtime resource is acquired and released by hand. The runtime library is a ledger of what is live,
 * so releasing something twice, or never, cannot verify.
 */
module WasmEngineCode {
  import opened Basics
  import opened Memory
  import opened TcTable
  import opened TcProperties
  import opened TcManagerCode
  import opened WasmCache

  /** What the runtime library keeps alive. Module-heap addresses are 32-bit offsets, and an
      allocation is 0 exactly when its native pointer is null. */
  class Runtime {
    var seen: seq<Seen>
    var inited: bool
    var modules: map<nat, Bytes>
    var instances: map<nat, nat>
    var envs: set<nat>
    var blocks: Blocks

    constructor ()
      ensures !inited && modules == map[] && instances == map[] && envs == {} && blocks == map[] && seen == []
    {
      inited, modules, instances, envs, blocks, seen := false, map[], map[], {}, map[], [];
    }

    method FullInit(ok: bool)
      modifies `inited
      ensures inited == (old(inited) || ok)
    {
      inited := inited || ok;
    }

    method Load(code: Bytes, size: nat, ok: bool) returns (m: nat)
      requires inited && size <= |code|
      modifies `modules
      ensures ok ==> m != 0 && m !in old(modules) && modules == old(modules)[m := code[..size]]
      ensures !ok ==> m == 0 && modules == old(modules)
    {
      m := 0;
      if ok {
        ghost var w := Above(modules.Keys);
        assert w != 0 && w !in modules;
        m :| m != 0 && m !in modules;
        modules := modules[m := code[..size]];
      }
    }

    method Unload(m: nat)
      requires m in modules && forall i :: i in instances ==> instances[i] != m
      modifies `modules
      ensures modules == old(modules) - {m}
    {
      modules := modules - {m};
    }

    method Instantiate(m: nat, ok: bool) returns (i: nat)
      requires m in modules
      modifies `instances
      ensures ok ==> i != 0 && i !in old(instances) && instances == old(instances)[i := m]
      ensures !ok ==> i == 0 && instances == old(instances)
    {
      i := 0;
      if ok {
        ghost var w := Above(instances.Keys);
        assert w != 0 && w !in instances;
        i :| i != 0 && i !in instances;
        instances := instances[i := m];
      }
    }

    method Deinstantiate(i: nat)
      requires i in instances
      modifies `instances
      ensures instances == old(instances) - {i}
    {
      instances := instances - {i};
    }

    /** Load and instantiate, or give back what was acquired and return nulls. */
    method LoadAndInstantiate(code: Bytes, size: nat, load: bool, instantiate: bool) returns (m: nat, i: nat)
      requires inited && size <= |code| && modules == map[] && instances == map[]
      modifies `modules, `instances
      ensures load && instantiate ==>
        m != 0 && i != 0 && modules == map[m := code[..size]] && instances == map[i := m]
      ensures !(load && instantiate) ==> m == 0 && i == 0 && modules == map[] && instances == map[]
    {
      m, i := 0, 0;
      var loadedModule := Load(code, size, load);
      if loadedModule == 0 {
        return;
      }
      var instance := Instantiate(loadedModule, instantiate);
      if instance == 0 {
        Unload(loadedModule);
        return;
      }
      m, i := loadedModule, instance;
    }

    /** Deinstantiate, then unload, whichever are there. */
    method Release(m: nat, i: nat)
      requires if i == 0 then instances == map[] else instances == map[i := m]
      requires if m == 0 then modules == map[] else modules.Keys == {m}
      requires i == 0 <==> m == 0
      modifies `modules, `instances
      ensures modules == map[] && instances == map[]
    {
      if i != 0 {
        Deinstantiate(i);
      }
      if m != 0 {
        Unload(m);
      }
    }

    method CreateExecEnv(i: nat, ok: bool) returns (e: nat)
      requires i in instances
      modifies `envs
      ensures ok ==> e != 0 && e !in old(envs) && envs == old(envs) + {e}
      ensures !ok ==> e == 0 && envs == old(envs)
    {
      e := 0;
      if ok {
        ghost var w := Above(envs);
        assert w != 0 && w !in envs;
        e :| e != 0 && e !in envs;
        envs := envs + {e};
      }
    }

    method DestroyExecEnv(e: nat)
      requires e in envs
      modifies `envs
      ensures envs == old(envs) - {e}
    {
      envs := envs - {e};
    }

    /** The address, or 0, is the environment's choice. */
    method ModuleMalloc(size: nat, at: nat) returns (p: nat)
      requires at !in blocks
      modifies `blocks
      ensures p == at
      ensures blocks == if at == 0 then old(blocks) else old(blocks)[at := Zeros(size)]
    {
      p := at;
      if at != 0 {
        blocks := blocks[at := Zeros(size)];
      }
    }

    method ModuleFree(p: nat)
      requires p in blocks
      modifies `blocks
      ensures blocks == old(blocks) - {p}
    {
      blocks := blocks - {p};
    }

    method CopyIn(p: nat, data: Bytes)
      requires p in blocks && |data| <= |blocks[p]|
      modifies `blocks
      ensures blocks == old(blocks)[p := data + old(blocks)[p][|data|..]]
    {
      blocks := blocks[p := data + blocks[p][|data|..]];
    }

    /** One call of the exported function with (input, input length, output, output capacity). The module
        gets to see the block at the first address, and leaves `writes(k)` at offset k of its output block. */
    method CallWasm(e: nat, func: Name, argv: seq<nat>, call: CallEnv) returns (ok: bool, ret: nat)
      requires e in envs && |argv| == 4
      requires argv[0] != 0 ==> argv[0] in blocks && argv[1] <= |blocks[argv[0]]|
      requires argv[2] != 0 ==> argv[2] in blocks && argv[3] <= |blocks[argv[2]]|
      modifies `blocks, `seen
      ensures ok == call.ok && ret == call.ret as nat
      ensures var input := if argv[0] == 0 then [] else old(blocks)[argv[0]][..argv[1]];
        seen == old(seen) + [Seen(func, input, if argv[2] == 0 then 0 else argv[3])]
      ensures blocks == if argv[2] == 0 then old(blocks)
                        else old(blocks)[argv[2] := Written(|old(blocks)[argv[2]]|, call.writes)]
    {
      var input := if argv[0] == 0 then [] else blocks[argv[0]][..argv[1]];
      seen := seen + [Seen(func, input, if argv[2] == 0 then 0 else argv[3])];
      if argv[2] != 0 {
        blocks := blocks[argv[2] := Written(|blocks[argv[2]]|, call.writes)];
      }
      ok, ret := call.ok, call.ret as nat;
    }
  }

  /** What a module sees of a call: the function called, its input, and the room for its output. */
  datatype Seen = Seen(func: Name, input: Bytes, room: nat)

  newtype uint32 = n: int | 0 <= n < 0x1_0000_0000

  function Written(size: nat, writes: nat -> byte): (r: Bytes)
    ensures |r| == size
    ensures forall k :: 0 <= k < size ==> r[k] == writes(k)
  {
    seq(size, (k: nat) => writes(k))
  }

  datatype CallEnv = CallEnv(ok: bool, ret: uint32, writes: nat -> byte)

  datatype InvokeEnv = InvokeEnv(
    load: LoadEnv,
    found: bool,
    execEnv: bool,
    inPtr: nat,
    first: CallEnv,
    outPtr: nat,
    second: CallEnv)

  /** The input is not copied past the end of its block, because it is short enough or never copied. */
  predicate CopySafe(input: Bytes, env: InvokeEnv) {
    |input| < TWO32 || !env.found || !env.execEnv || env.inPtr == 0
  }

  /** Two live blocks never share an address. */
  predicate Separate(env: InvokeEnv) {
    env.inPtr == env.outPtr ==> env.inPtr == 0
  }

  datatype InvokeResult = InvokeResult(code: Code, len: nat)

  /** The result of ecall_invoke_wasm after the module has been made ready: the first failing stage
      decides. */
  function TwoPhase(inputLen: nat, capacity: nat, env: InvokeEnv): InvokeResult {
    if !env.found then InvokeResult(WASM_INCOMPATIBLE, 0)
    else if !env.execEnv then InvokeResult(INTERNAL_ERROR, 0)
    else if inputLen > 0 && env.inPtr == 0 then InvokeResult(RESOURCE_EXHAUSTED, 0)
    else if !env.first.ok || env.first.ret == 0 then InvokeResult(WASM_EXECUTION_FAILED, 0)
    else if env.first.ret as nat > capacity then InvokeResult(OUTPUT_BUFFER_TOO_SMALL, 0)
    else if env.outPtr == 0 then InvokeResult(RESOURCE_EXHAUSTED, 0)
    else if !env.second.ok || env.second.ret == 0 then InvokeResult(WASM_EXECUTION_FAILED, 0)
    else InvokeResult(OK, if env.second.ret > env.first.ret then env.first.ret as nat else env.second.ret as nat)
  }

  /** What the module gets to see of an invocation that got it ready: a first call without room for output, and
      then one with as much room as the first one asked for. */
  function CallsSeen(func: Name, input: Bytes, capacity: nat, env: InvokeEnv): seq<Seen> {
    if !env.found || !env.execEnv || (|input| > 0 && env.inPtr == 0) then []
    else if !env.first.ok || env.first.ret == 0 || env.first.ret as nat > capacity || env.outPtr == 0 then
      [Seen(func, input, 0)]
    else [Seen(func, input, 0), Seen(func, input, env.first.ret as nat)]
  }

  /** Whenever there is output, the module was called twice with the caller's input, the second time with the
      room it had asked for; it never sees anything but that input. */
  lemma {:induction false} SeesItsInput(func: Name, input: Bytes, capacity: nat, env: InvokeEnv)
    ensures var calls, r := CallsSeen(func, input, capacity, env), TwoPhase(|input|, capacity, env);
      && (r.code == OK ==> |calls| == 2 && calls[0].room == 0 && r.len <= calls[1].room <= capacity)
      && (forall k :: 0 <= k < |calls| ==> calls[k].func == func && calls[k].input == input)
      && (calls == [] <==> !env.found || !env.execEnv || (input != [] && env.inPtr == 0))
  {
  }

  lemma {:induction false} OkBounds(inputLen: nat, capacity: nat, env: InvokeEnv)
    ensures var r := TwoPhase(inputLen, capacity, env);
      && (r.code == OK <==> r.len > 0)
      && (r.code == OK ==> r.len <= capacity && r.len <= env.first.ret as nat)
  {
  }

  /** Exactly when an invocation that got its module ready gives output, an output that fills the whole buffer
      included, how much of it, and what every failure stands for. */
  lemma {:induction false} OutputIff(inputLen: nat, capacity: nat, env: InvokeEnv)
    ensures var r, want, got := TwoPhase(inputLen, capacity, env), env.first.ret as nat, env.second.ret as nat;
      var called := env.found && env.execEnv && (inputLen == 0 || env.inPtr != 0);
      && (r.code == OK <==>
            called && env.first.ok && 0 < want <= capacity && env.outPtr != 0 && env.second.ok && 0 < got)
      && (r.code == OK ==> r.len <= got && r.len <= want && (r.len == got || r.len == want))
      && (r.code != OK ==> r.len == 0)
      && (r.code == WASM_INCOMPATIBLE <==> !env.found)
      && (r.code == INTERNAL_ERROR <==> env.found && !env.execEnv)
      && (r.code == OUTPUT_BUFFER_TOO_SMALL <==> called && env.first.ok && want > capacity)
      && (r.code == RESOURCE_EXHAUSTED <==>
            || (env.found && env.execEnv && !called)
            || (called && env.first.ok && 0 < want <= capacity && env.outPtr == 0))
      && (r.code == WASM_EXECUTION_FAILED <==>
            && called
            && (!env.first.ok || want == 0
                || (want <= capacity && env.outPtr != 0 && (!env.second.ok || got == 0))))
  {
  }

  /** The block for the input has the length cast to 32 bits, and the whole input is copied into it: the copy
      stays inside the block exactly when the input is shorter than 2^32 bytes. */
  lemma {:induction false} InputFitsIff(input: Bytes)
    ensures |input| <= |Zeros(ToUint32(|input|))| <==> |input| < TWO32
  {
  }

  datatype LoadedModule = LoadedModule(
    wappName: Name, wappHash: Hash, wappBin: UsefulBuf, mod: nat, inst: nat)

  const NOT_LOADED := LoadedModule([], ZERO_HASH, NULL_BUF, 0, 0)

  /** Module, instance and owned binary are all there or all absent, and the runtime keeps alive
      exactly that module, loaded from that binary, and that instance. */
  ghost predicate Linked(l: LoadedModule, h: Blocks, modules: map<nat, Bytes>, instances: map<nat, nat>) {
    && BufOk(l.wappBin, h)
    && ((l.mod == 0) == (l.inst == 0) == (l.wappBin.ptr == 0))
    && (l.mod == 0 ==> modules == map[] && instances == map[])
    && (l.mod != 0 ==>
          modules == map[l.mod := Runnable(h[l.wappBin.ptr])] && instances == map[l.inst := l.mod])
  }

  class WasmEngine {
    const tcm: TcManager
    const rt: Runtime
    var inited: bool
    var loaded: LoadedModule

    ghost predicate Objects()
      reads this
    {
      && tcm.heap as object != rt && tcm as object != rt && tcm as object != this
      && rt as object != this && tcm.heap as object != this && tcm.heap as object != tcm
      && {tcm.slots} !! {this, tcm, rt, tcm.heap}
    }

    /** Between calls: module, instance and owned binary are all there or all absent; what the runtime
        keeps alive is exactly the loaded module and its instance; the loaded binary is a heap block of
        its own. */
    ghost predicate Valid()
      reads this, tcm, tcm.slots, tcm.heap, rt`inited, rt`modules, rt`instances
    {
      && Objects() && tcm.Valid()
      && loaded.wappBin.ptr !in tcm.Owned() && inited == rt.inited
      && Linked(loaded, tcm.heap.blocks, rt.modules, rt.instances)
    }

    ghost predicate Idle()
      reads rt
    {
      rt.envs == {} && rt.blocks == map[]
    }

    /** The caller's buffer is not the record table. */
    ghost predicate Apart(output: array<byte>) {
      output as object != this && output as object != tcm && output as object != tcm.slots
      && output as object != tcm.heap && output as object != rt
    }

    ghost function State(): Engine
      requires Valid()
      reads this, tcm, tcm.slots, tcm.heap, rt`inited, rt`modules, rt`instances
    {
      Engine(inited, if loaded.mod == 0 then Empty else Loaded(loaded.wappHash, tcm.heap.blocks[loaded.wappBin.ptr]))
    }

    /** The heap without the blocks of the table and of the loaded module. */
    ghost function Elsewhere(): Blocks
      requires tcm.Shape()
      reads this, tcm, tcm.slots, tcm.heap
    {
      tcm.heap.blocks - tcm.Owned() - {loaded.wappBin.ptr}
    }

    constructor (tcm: TcManager, rt: Runtime)
      requires tcm.Valid() && !rt.inited && rt.modules == map[] && rt.instances == map[] && rt.envs == {}
          && rt.blocks == map[]
      requires tcm.heap as object != rt && tcm as object != rt && tcm.heap as object != tcm
      requires {tcm.slots} !! {tcm, rt, tcm.heap}
      ensures Valid() && Idle() && State() == COLD && this.tcm == tcm && this.rt == rt
    {
      this.tcm, this.rt := tcm, rt;
      inited := false;
      loaded := NOT_LOADED;
    }

    /** reset_wamr_loaded_module */
    method Reset()
      requires Valid()
      modifies this`loaded, tcm.heap, rt`modules, rt`instances
      ensures Valid() && loaded == NOT_LOADED
      ensures State() == old(State()).(cache := Empty)
      ensures tcm.Contents() == old(tcm.Contents()) && Elsewhere() == old(Elsewhere())
    {
      hide Wf, Entries, RecordOk, Ptrs, Held;
      ghost var rs, h := tcm.slots[..tcm.len], tcm.heap.blocks;
      ghost var p := loaded.wappBin.ptr;
      OwnedLive(rs, h);
      rt.Release(loaded.mod, loaded.inst);
      if loaded.wappBin.ptr != 0 {
        tcm.heap.Free(loaded.wappBin.ptr);
      }
      assert tcm.heap.blocks - {p} == h - {p};
      BesideTable(rs, h, p, tcm.heap.blocks);
      assert tcm.heap.blocks - Held(rs) - {0} == tcm.heap.blocks - Held(rs) - {p};
      loaded := NOT_LOADED;
    }

    /** The part of ensure_wamr_running that loads record `i`, with nothing loaded before. A failed
        load or instantiation gives back what was acquired. */
    method LoadRecord(i: nat, name: Name, env: LoadEnv) returns (code: Code)
      requires Valid() && loaded.mod == 0 && inited && i < tcm.len && tcm.Contents()[i].wappBin != []
      modifies this`loaded, tcm.heap, rt`modules, rt`instances
      ensures Valid() && inited
      ensures tcm.Contents() == old(tcm.Contents()) && Elsewhere() == old(Elsewhere())
      ensures code == if !env.binAlloc then RESOURCE_EXHAUSTED
                      else if !env.load || !env.instantiate then WASM_INCOMPATIBLE else OK
      ensures var e := tcm.Contents()[i];
        State().cache == if code == OK then Loaded(e.wappHash, e.wappBin) else Empty
    {
      assert tcm.slots[i] == tcm.slots[..tcm.len][i];
      ghost var e := tcm.Contents()[i];
      var hash := tcm.slots[i].wappHash;
      var bin, p := CopyBin(i, env.binAlloc);
      if p == 0 {
        return RESOURCE_EXHAUSTED;
      }
      assert hash == e.wappHash && bin == e.wappBin;
      var ok := LoadCopy(hash, bin, p, name, env.load, env.instantiate);
      code := if ok then OK else WASM_INCOMPATIBLE;
    }

    /** Load the copy at `p` and keep it, or give it back. */
    method LoadCopy(hash: Hash, bin: Bytes, p: nat, name: Name, load: bool, instantiate: bool) returns (ok: bool)
      requires Valid() && loaded.mod == 0 && inited && bin != []
      requires p != 0 && p in tcm.heap.blocks && tcm.heap.blocks[p] == bin && p !in tcm.Owned()
      modifies this`loaded, tcm.heap, rt`modules, rt`instances
      ensures Valid() && inited && ok == (load && instantiate)
      ensures tcm.Contents() == old(tcm.Contents()) && Elsewhere() == old(tcm.Rest()) - {p}
      ensures State().cache == if ok then Loaded(hash, bin) else Empty
    {
      var m, inst := rt.LoadAndInstantiate(bin, ToUint32(|bin|), load, instantiate);
      ok := m != 0;
      if ok {
        loaded := LoadedModule(name, hash, UsefulBuf(p, |bin|), m, inst);
      } else {
        DropBin(p);
        loaded := NOT_LOADED;
      }
    }

    /** A private copy of the payload of record `i`. */
    method CopyBin(i: nat, alloc: bool) returns (bin: Bytes, p: nat)
      requires tcm.Valid() && i < tcm.len && tcm.Contents()[i].wappBin != [] && loaded.wappBin.ptr == 0
      modifies tcm.heap
      ensures tcm.Valid() && tcm.Contents() == old(tcm.Contents()) && bin == tcm.Contents()[i].wappBin
      ensures p == 0 <==> !alloc
      ensures p == 0 ==> Elsewhere() == old(Elsewhere())
      ensures p != 0 ==> p in tcm.heap.blocks && tcm.heap.blocks[p] == bin && p !in tcm.Owned()
      ensures tcm.Rest() - {p} == old(Elsewhere())
    {
      ghost var rs, h := tcm.slots[..tcm.len], tcm.heap.blocks;
      OwnedLive(rs, h);
      var record := tcm.slots[i];
      assert record == rs[i];
      bin := tcm.heap.blocks[record.wappBin.ptr];
      p := tcm.heap.Duplicate(bin, alloc);
      assert tcm.heap.blocks - {p} == h - {p} == h;
      BesideTable(rs, h, p, tcm.heap.blocks);
      assert h - Held(rs) - {p} == h - Held(rs) - {0};
    }

    method DropBin(p: nat)
      requires tcm.Valid() && p in tcm.heap.blocks && p !in tcm.Owned() && loaded.wappBin.ptr == 0
      modifies tcm.heap
      ensures tcm.Valid() && tcm.Contents() == old(tcm.Contents())
      ensures Elsewhere() == old(tcm.Rest()) - {p}
    {
      ghost var rs, h := tcm.slots[..tcm.len], tcm.heap.blocks;
      tcm.heap.Free(p);
      BesideTable(rs, h, p, tcm.heap.blocks);
      assert tcm.heap.blocks - Held(rs) - {0} == h - Held(rs) - {p};
    }

    /** Initialise the runtime if need be, then load record `i`. */
    method Start(i: nat, name: Name, env: LoadEnv) returns (code: Code)
      requires Valid() && loaded.mod == 0 && i < tcm.len && tcm.Contents()[i].wappBin != []
      modifies this`loaded, this`inited, tcm.heap, rt`inited, rt`modules, rt`instances
      ensures Valid()
      ensures tcm.Contents() == old(tcm.Contents()) && Elsewhere() == old(Elsewhere())
      ensures var e := tcm.Contents()[i];
        EnsureOutcome(State(), code) ==
        if !old(inited) && !env.init then EnsureOutcome(Engine(false, Empty), INTERNAL_ERROR)
        else if !env.binAlloc then EnsureOutcome(Engine(true, Empty), RESOURCE_EXHAUSTED)
        else if !env.load || !env.instantiate then EnsureOutcome(Engine(true, Empty), WASM_INCOMPATIBLE)
        else EnsureOutcome(Engine(true, Loaded(e.wappHash, e.wappBin)), OK)
    {
      loaded := loaded.(wappName := name);
      if !inited {
        rt.FullInit(env.init);
        inited := rt.inited;
        if !inited {
          return INTERNAL_ERROR;
        }
      }
      code := LoadRecord(i, name, env);
    }

    /** Reuse the loaded instance if its hash is that of record `i`; otherwise replace it. */
    method Obtain(i: nat, name: Name, env: LoadEnv) returns (code: Code)
      requires Valid() && i < tcm.len && tcm.Contents()[i].wappBin != []
      modifies this`loaded, this`inited, tcm.heap, rt`inited, rt`modules, rt`instances
      ensures Valid()
      ensures tcm.Contents() == old(tcm.Contents()) && Elsewhere() == old(Elsewhere())
      ensures LookupName(tcm.Contents(), name) == Some(tcm.Contents()[i]) ==>
        EnsureOutcome(State(), code) == Ensure(tcm.Contents(), old(State()), name, env)
    {
      hide Wf;
      assert tcm.slots[i] == tcm.slots[..tcm.len][i];
      if loaded.inst != 0 {
        if loaded.wappHash == tcm.slots[i].wappHash {
          return OK;
        }
        Reset();
      }
      code := Start(i, name, env);
    }

    /** ensure_wamr_running */
    method EnsureRunning(name: Name, env: LoadEnv) returns (code: Code)
      requires Valid()
      modifies this`loaded, this`inited, tcm.heap, rt`inited, rt`modules, rt`instances
      ensures Valid()
      ensures tcm.Contents() == old(tcm.Contents()) && Elsewhere() == old(Elsewhere())
      ensures EnsureOutcome(State(), code) == Ensure(old(tcm.Contents()), old(State()), name, env)
    {
      if name == [] {
        return INVALID_ARGUMENT;
      }
      var found := tcm.FindByName(name, -1);
      if found == None {
        return TRUSTED_COMPONENT_NOT_FOUND;
      }
      var i := found.value;
      assert tcm.slots[i] == tcm.slots[..tcm.len][i];
      if tcm.slots[i].wappBin.ptr == 0 {
        return TRUSTED_COMPONENT_NOT_FOUND;
      }
      code := Obtain(i, name, env);
    }

    // ---------------------------------------------------------- interleaving

    method ApplyToTable(op: Op)
      requires Objects() && tcm.Valid()
      modifies tcm, tcm.slots, tcm.heap
      ensures tcm.Valid() && tcm.Rest() == old(tcm.Rest())
      ensures tcm.Contents() == Apply(old(tcm.Contents()), op, tcm.sha)
    {
      match op {
        case StoreOp(a, env) => var rc := tcm.StoreRecord(a, env);
        case FinaliseOp(d) => var rc := tcm.CheckAndUpdate(d);
        case RemoveAllOp =>
          tcm.RemoveAll();
          assert tcm.Rest() == tcm.heap.blocks;
      }
    }

    /** A table operation between invocations leaves the loaded module alone. */
    method TableStepBetween(op: Op)
      requires Valid()
      modifies tcm, tcm.slots, tcm.heap
      ensures Valid() && State() == old(State()) && Elsewhere() == old(Elsewhere())
      ensures tcm.Contents() == Apply(old(tcm.Contents()), op, tcm.sha)
    {
      ghost var p, bin := loaded.wappBin.ptr, loaded.wappBin;
      ghost var rest := tcm.Rest();
      assert p != 0 ==> p in rest && rest[p] == tcm.heap.blocks[p];
      ApplyToTable(op);
      assert tcm.Rest() == rest;
      assert p != 0 ==> p in tcm.heap.blocks && tcm.heap.blocks[p] == rest[p] && p !in tcm.Owned();
      assert tcm.Owned() !! {0} && BufOk(bin, tcm.heap.blocks);
    }

    /** One step of any interleaving, table or invocation, is a step of `WasmCache`. */
    method Step(step: Step)
      requires Valid()
      modifies this`loaded, this`inited, tcm, tcm.slots, tcm.heap, rt`inited, rt`modules, rt`instances
      ensures Valid() && Elsewhere() == old(Elsewhere())
      ensures System(tcm.Contents(), State()) == Next(old(System(tcm.Contents(), State())), step, tcm.sha)
    {
      match step {
        case TableStep(op) =>
          TableStepBetween(op);
        case EnsureStep(name, env) =>
          var code := EnsureRunning(name, env);
      }
    }

    // ------------------------------------------------------------ invocation

    /** The two calls, with the execution environment created: how much output, then the output. All
        module-heap blocks and the execution environment are released on every exit. */
    method CallTwice(e: nat, func: Name, input: Bytes, output: array<byte>, capacity: nat, env: InvokeEnv)
      returns (r: InvokeResult)
      requires e != 0 && rt.envs == {e} && rt.blocks == map[] && Separate(env)
      requires CopySafe(input, env) && capacity <= output.Length && env.found && env.execEnv
      modifies rt`envs, rt`blocks, rt`seen, output
      ensures Idle() && r == TwoPhase(|input|, capacity, env)
      ensures rt.seen == old(rt.seen) + CallsSeen(func, input, capacity, env)
      ensures forall k :: 0 <= k < output.Length ==>
        output[k] == if r.code == OK && k < r.len then env.second.writes(k) else old(output[k])
    {
      var inPtr := 0;
      if |input| > 0 {
        inPtr := rt.ModuleMalloc(ToUint32(|input|), env.inPtr);
        if inPtr == 0 {
          rt.DestroyExecEnv(e);
          return InvokeResult(RESOURCE_EXHAUSTED, 0);
        }
        rt.CopyIn(inPtr, input);
      }
      assert inPtr == 0 ==> input == [];
      var ok, want := rt.CallWasm(e, func, [inPtr, ToUint32(|input|), 0, 0], env.first);
      if !ok || want == 0 {
        FreeInput(inPtr, e);
        return InvokeResult(WASM_EXECUTION_FAILED, 0);
      }
      if want > capacity {
        FreeInput(inPtr, e);
        return InvokeResult(OUTPUT_BUFFER_TOO_SMALL, 0);
      }
      r := SecondCall(e, func, inPtr, |input|, want, output, env);
    }

    /** Allocate as much output as the first call asked for, call again, and copy what was produced. */
    method SecondCall(e: nat, func: Name, inPtr: nat, inputLen: nat, want: nat, output: array<byte>, env: InvokeEnv)
      returns (r: InvokeResult)
      requires rt.envs == {e} && (if inPtr == 0 then rt.blocks == map[] else rt.blocks.Keys == {inPtr})
      requires inPtr != 0 ==> inPtr == env.inPtr && ToUint32(inputLen) <= |rt.blocks[inPtr]|
      requires Separate(env) && want <= output.Length
      modifies rt`envs, rt`blocks, rt`seen, output
      ensures Idle()
      ensures r == if env.outPtr == 0 then InvokeResult(RESOURCE_EXHAUSTED, 0)
                   else if !env.second.ok || env.second.ret == 0 then InvokeResult(WASM_EXECUTION_FAILED, 0)
                   else InvokeResult(OK, if env.second.ret as nat > want then want else env.second.ret as nat)
      ensures var input := if inPtr == 0 then [] else old(rt.blocks)[inPtr][..ToUint32(inputLen)];
        rt.seen == old(rt.seen) + if env.outPtr == 0 then [] else [Seen(func, input, want)]
      ensures forall k :: 0 <= k < output.Length ==>
        output[k] == if r.code == OK && k < r.len then env.second.writes(k) else old(output[k])
    {
      var outPtr := rt.ModuleMalloc(want, env.outPtr);
      if outPtr == 0 {
        FreeInput(inPtr, e);
        return InvokeResult(RESOURCE_EXHAUSTED, 0);
      }
      var ok, got := rt.CallWasm(e, func, [inPtr, ToUint32(inputLen), outPtr, want], env.second);
      var native := rt.blocks[outPtr];
      if !ok || got == 0 {
        rt.ModuleFree(outPtr);
        FreeInput(inPtr, e);
        return InvokeResult(WASM_EXECUTION_FAILED, 0);
      }
      if got > want {
        got := want;
      }
      forall k | 0 <= k < got {
        output[k] := native[k];
      }
      rt.ModuleFree(outPtr);
      FreeInput(inPtr, e);
      return InvokeResult(OK, got);
    }

    method FreeInput(inPtr: nat, e: nat)
      requires rt.envs == {e} && (if inPtr == 0 then rt.blocks == map[] else rt.blocks.Keys == {inPtr})
      modifies rt`envs, rt`blocks
      ensures Idle()
    {
      if inPtr != 0 {
        rt.ModuleFree(inPtr);
      }
      rt.DestroyExecEnv(e);
    }

    /** ecall_invoke_wasm. On OK the first `len` output bytes are those the module wrote and the rest
        is untouched; on every other result the length is 0 and the output is untouched. */
    method Invoke(name: Name, func: Name, input: Bytes, output: array?<byte>, capacity: nat, env: InvokeEnv)
      returns (r: InvokeResult)
      requires Valid() && Idle() && Separate(env)
      requires CopySafe(input, env) || name == [] || func == [] || output == null
            || Ensure(tcm.Contents(), State(), name, env.load).code != OK
      requires output != null ==> capacity <= output.Length && Apart(output)
      modifies this`loaded, this`inited, tcm.heap, rt`inited, rt`modules, rt`instances, rt`envs, rt`blocks, rt`seen
      modifies if output == null then {} else {output}
      ensures Valid() && Idle()
      ensures tcm.Contents() == old(tcm.Contents()) && Elsewhere() == old(Elsewhere())
      ensures var bad := name == [] || func == [] || output == null;
        var o := Ensure(old(tcm.Contents()), old(State()), name, env.load);
        && State() == (if bad then old(State()) else o.engine)
        && r == if bad then InvokeResult(INVALID_ARGUMENT, 0)
                else if o.code != OK then InvokeResult(o.code, 0)
                else TwoPhase(|input|, capacity, env)
      ensures var made := name != [] && func != [] && output != null
                && Ensure(old(tcm.Contents()), old(State()), name, env.load).code == OK;
        rt.seen == old(rt.seen) + if made then CallsSeen(func, input, capacity, env) else []
      ensures output != null ==> forall k :: 0 <= k < output.Length ==>
        output[k] == if r.code == OK && k < r.len then env.second.writes(k) else old(output[k])
    {
      hide Ensure, TwoPhase, Linked, Wf;
      if name == [] || func == [] || output == null {
        return InvokeResult(INVALID_ARGUMENT, 0);
      }
      ReadyIsLoaded(tcm.Contents(), State(), name, env.load);
      var code := EnsureRunning(name, env.load);
      if code != OK {
        return InvokeResult(code, 0);
      }
      r := CallLoaded(func, input, output, capacity, env);
    }

    method CallLoaded(func: Name, input: Bytes, output: array<byte>, capacity: nat, env: InvokeEnv)
      returns (r: InvokeResult)
      requires Valid() && State().cache.Loaded? && Idle() && Separate(env) && CopySafe(input, env)
      requires capacity <= output.Length && Apart(output)
      modifies rt`envs, rt`blocks, rt`seen, output
      ensures Valid() && State() == old(State())
      ensures tcm.Contents() == old(tcm.Contents()) && Elsewhere() == old(Elsewhere())
      ensures Idle() && r == TwoPhase(|input|, capacity, env)
      ensures rt.seen == old(rt.seen) + CallsSeen(func, input, capacity, env)
      ensures forall k :: 0 <= k < output.Length ==>
        output[k] == if r.code == OK && k < r.len then env.second.writes(k) else old(output[k])
    {
      if !env.found {
        return InvokeResult(WASM_INCOMPATIBLE, 0);
      }
      var e := rt.CreateExecEnv(loaded.inst, env.execEnv);
      if e == 0 {
        return InvokeResult(INTERNAL_ERROR, 0);
      }
      r := CallTwice(e, func, input, output, capacity, env);
    }
  }
}
