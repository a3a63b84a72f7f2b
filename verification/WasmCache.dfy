/**
 * The one-entry module cache on values: which binary runs for an app name, given the table, the cache
 * and what the environment lets succeed. `WasmEngineCode` proves that the code computes `Ensure`.
 */
module WasmCache {
  import opened Basics
  import opened TcTable
  import opened TcProperties

  datatype Code =
    | OK | INVALID_ARGUMENT | TRUSTED_COMPONENT_NOT_FOUND | INTERNAL_ERROR | RESOURCE_EXHAUSTED
    | WASM_INCOMPATIBLE | WASM_EXECUTION_FAILED | OUTPUT_BUFFER_TOO_SMALL

  /** The loaded module is keyed by hash only; its app name plays no part. */
  datatype Cache = Empty | Loaded(hash: Hash, bin: Bytes)

  datatype Engine = Engine(inited: bool, cache: Cache)

  const COLD := Engine(false, Empty)

  /** Whether each foreign step succeeds. */
  datatype LoadEnv = LoadEnv(init: bool, binAlloc: bool, load: bool, instantiate: bool)

  datatype EnsureOutcome = EnsureOutcome(engine: Engine, code: Code)

  /** ensure_wamr_running */
  function Ensure(t: Table, g: Engine, name: Name, env: LoadEnv): EnsureOutcome {
    match LookupName(t, name)
    case None =>
      EnsureOutcome(g, if name == [] then INVALID_ARGUMENT else TRUSTED_COMPONENT_NOT_FOUND)
    case Some(e) =>
      if e.wappBin == [] then EnsureOutcome(g, TRUSTED_COMPONENT_NOT_FOUND)
      else if g.cache.Loaded? && g.cache.hash == e.wappHash then EnsureOutcome(g, OK)
      else if !g.inited && !env.init then EnsureOutcome(Engine(false, Empty), INTERNAL_ERROR)
      else if !env.binAlloc then EnsureOutcome(Engine(true, Empty), RESOURCE_EXHAUSTED)
      else if !env.load || !env.instantiate then EnsureOutcome(Engine(true, Empty), WASM_INCOMPATIBLE)
      else EnsureOutcome(Engine(true, Loaded(e.wappHash, e.wappBin)), OK)
  }

  /** The bytes handed to the runtime: the length is cast to 32 bits. */
  function Runnable(bin: Bytes): Bytes {
    bin[..ToUint32(|bin|)]
  }

  ghost predicate Collision(sha: DigestFunction, x: Bytes, y: Bytes) {
    x != y && sha(x) == sha(y)
  }

  ghost predicate Honest(c: Cache, sha: DigestFunction) {
    c.Loaded? ==> c.hash == sha(c.bin)
  }

  /** The binary that runs is that of the record, or was loaded before from a binary of the same hash. */
  lemma {:induction false} RunsSameHash(t: Table, g: Engine, name: Name, env: LoadEnv, e: Entry)
    requires LookupName(t, name) == Some(e) && Ensure(t, g, name, env).code == OK
    ensures Ensure(t, g, name, env).engine.cache.Loaded?
    ensures Ensure(t, g, name, env).engine.cache.hash == e.wappHash
    ensures Ensure(t, g, name, env).engine == g || Ensure(t, g, name, env).engine.cache.bin == e.wappBin
  {
  }

  /** Exactly when an invocation gets its app ready, whatever was loaded before: the module loaded has the
      hash of its record, and is kept; or the runtime is or can be initialised, and the copy, the load and
      the instantiation succeed, and then it is the record's binary that is loaded, in place of any other.
      Otherwise the first of these that fails decides the code, and nothing is left loaded. */
  lemma {:induction false} ReadyIff(t: Table, g: Engine, name: Name, env: LoadEnv)
    ensures var o, found := Ensure(t, g, name, env), LookupName(t, name);
      if found == None || found.value.wappBin == [] then
        o.engine == g && o.code == if name == [] then INVALID_ARGUMENT else TRUSTED_COMPONENT_NOT_FOUND
      else if exists bin :: g.cache == Loaded(found.value.wappHash, bin) then
        o.engine == g && o.code == OK
      else
        && (o.code == OK <==> (g.inited || env.init) && env.binAlloc && env.load && env.instantiate)
        && (o.code == OK ==> o.engine == Engine(true, Loaded(found.value.wappHash, found.value.wappBin)))
        && (o.code != OK ==> o.engine == Engine(g.inited || env.init, Empty))
        && (o.code == INTERNAL_ERROR <==> !g.inited && !env.init)
        && (o.code == RESOURCE_EXHAUSTED <==> (g.inited || env.init) && !env.binAlloc)
        && (o.code == WASM_INCOMPATIBLE <==> (g.inited || env.init) && env.binAlloc && !(env.load && env.instantiate))
  {
    var found := LookupName(t, name);
    if found.Some? && g.cache.Loaded? && g.cache.hash == found.value.wappHash {
      assert g.cache == Loaded(found.value.wappHash, g.cache.bin);
    }
  }

  lemma {:induction false} ReadyIsLoaded(t: Table, g: Engine, name: Name, env: LoadEnv)
    ensures Ensure(t, g, name, env).code == OK ==> Ensure(t, g, name, env).engine.cache.Loaded?
  {
  }

  lemma {:induction false} EnsureKeepsHonest(t: Table, g: Engine, name: Name, env: LoadEnv, sha: DigestFunction)
    requires Hashed(t, sha) && Honest(g.cache, sha)
    ensures Honest(Ensure(t, g, name, env).engine.cache, sha)
  {
    match LookupName(t, name) {
      case None =>
      case Some(e) => assert t[FindName(t, name, -1).value] == e;
    }
  }

  // -------------------------------------------------------------------- runs

  /** Any interleaving of stores, finalisations, removals and invocations. */
  datatype Step = TableStep(op: Op) | EnsureStep(name: Name, env: LoadEnv)

  datatype System = System(table: Table, engine: Engine)

  function Next(s: System, step: Step, sha: DigestFunction): System {
    match step
    case TableStep(op) => s.(table := Apply(s.table, op, sha))
    case EnsureStep(name, env) => s.(engine := Ensure(s.table, s.engine, name, env).engine)
  }

  function RunSteps(s: System, steps: seq<Step>, sha: DigestFunction): System
    decreases |steps|
  {
    if steps == [] then s else RunSteps(Next(s, steps[0], sha), steps[1..], sha)
  }

  predicate StepsHash(steps: seq<Step>) {
    forall k :: 0 <= k < |steps| && steps[k].TableStep? && steps[k].op.StoreOp? ==> steps[k].op.env.hashFault == None
  }

  lemma {:induction false} RunKeepsHonest(s: System, steps: seq<Step>, sha: DigestFunction)
    requires Hashed(s.table, sha) && Honest(s.engine.cache, sha) && StepsHash(steps)
    ensures Hashed(RunSteps(s, steps, sha).table, sha) && Honest(RunSteps(s, steps, sha).engine.cache, sha)
    decreases |steps|
  {
    if steps != [] {
      match steps[0] {
        case TableStep(op) => ApplyKeepsHashed(s.table, op, sha);
        case EnsureStep(name, env) => EnsureKeepsHonest(s.table, s.engine, name, env, sha);
      }
      RunKeepsHonest(Next(s, steps[0], sha), steps[1..], sha);
    }
  }

  /** The cache agrees with the table: after any interleaving in which hashing did not fail, whenever
      `Ensure` answers OK the loaded binary is the one now in the table for the requested name, or the
      two binaries are an actual SHA-256 collision. The cached entry may have been loaded under
      another name, or before the table changed. */
  lemma {:induction false} CacheAgrees(steps: seq<Step>, name: Name, env: LoadEnv, sha: DigestFunction)
    requires StepsHash(steps)
    ensures var s := RunSteps(System([], COLD), steps, sha);
      var o := Ensure(s.table, s.engine, name, env);
      o.code == OK ==>
        && o.engine.cache.Loaded?
        && LookupName(s.table, name).Some?
        && var e := LookupName(s.table, name).value;
           o.engine.cache.bin == e.wappBin || Collision(sha, o.engine.cache.bin, e.wappBin)
  {
    RunKeepsHonest(System([], COLD), steps, sha);
    var s := RunSteps(System([], COLD), steps, sha);
    if Ensure(s.table, s.engine, name, env).code == OK {
      var e := LookupName(s.table, name).value;
      assert s.table[FindName(s.table, name, -1).value] == e;
    }
  }

  /** Answering from the cache runs what a fresh load would run, unless there is a collision. */
  lemma {:induction false} CachedIsFresh(steps: seq<Step>, name: Name, env: LoadEnv, sha: DigestFunction)
    requires StepsHash(steps)
    requires var s := RunSteps(System([], COLD), steps, sha); Ensure(s.table, s.engine, name, env).code == OK
    ensures var s := RunSteps(System([], COLD), steps, sha);
      var here := Ensure(s.table, s.engine, name, env).engine.cache;
      var anew := Ensure(s.table, COLD, name, LoadEnv(true, true, true, true));
      && anew.code == OK
      && (here == anew.engine.cache || Collision(sha, here.bin, anew.engine.cache.bin))
  {
    CacheAgrees(steps, name, env, sha);
  }

  /** The runtime is given the whole binary exactly when its length fits 32 bits. */
  lemma {:induction false} RunnableIff(bin: Bytes)
    ensures Runnable(bin) == bin <==> |bin| < TWO32
  {
    if |bin| >= TWO32 { assert |Runnable(bin)| < |bin|; }
  }

  // -------------------------------------------------------- failed hashing

  /** One payload store during which hashing fails, leaving `left` in the hash field. */
  function FaultyStore(t: Table, a: StoreArgs, left: Hash, sha: DigestFunction): Table {
    Store(t, a, StoreEnv(true, true, Some(left)), sha).table
  }

  /** Any number of invocations in a row. */
  function Invocations(t: Table, g: Engine, calls: seq<(Name, LoadEnv)>): Engine
    decreases |calls|
  {
    if calls == [] then g else Invocations(t, Ensure(t, g, calls[0].0, calls[0].1).engine, calls[1..])
  }

  /** The loaded module has its own hash, or is the payload stored under the wrong one. */
  ghost predicate HonestBut(c: Cache, left: Hash, bin: Bytes, sha: DigestFunction) {
    Honest(c, sha) || c == Loaded(left, bin)
  }

  lemma {:induction false} StoredFields(t: Table, a: StoreArgs, left: Hash, k: nat, sha: DigestFunction)
    requires Inv(t) && StoresPayload(t, a, StoreEnv(true, true, Some(left))) && k < |FaultyStore(t, a, left, sha)|
    ensures var e := FaultyStore(t, a, left, sha)[k];
      if e.digest == a.digest then e.wappBin == a.src && e.wappHash == left else k < |t| && e == t[k]
  {
    var t' := FaultyStore(t, a, left, sha);
    match FindDigest(t, a.digest) {
      case Some(i) =>
        if k != i { assert t'[k] == t[k] && t[k].digest != t[i].digest; }
      case None =>
    }
  }

  lemma {:induction false} InvocationsKeep(t: Table, g: Engine, calls: seq<(Name, LoadEnv)>, a: StoreArgs, left: Hash,
                                           sha: DigestFunction)
    requires Inv(t) && Hashed(t, sha) && StoresPayload(t, a, StoreEnv(true, true, Some(left)))
    requires HonestBut(g.cache, left, a.src, sha)
    ensures HonestBut(Invocations(FaultyStore(t, a, left, sha), g, calls).cache, left, a.src, sha)
    decreases |calls|
  {
    if calls != [] {
      var t', name := FaultyStore(t, a, left, sha), calls[0].0;
      if LookupName(t', name).Some? { StoredFields(t, a, left, FindName(t', name, -1).value, sha); }
      InvocationsKeep(t, Ensure(t', g, name, calls[0].1).engine, calls[1..], a, left, sha);
    }
  }

  /** With hashes and cache in order before a faulty store, exactly when an invocation after it, and after
      any others in between, runs another binary than the one it finds in the table:
      it finds the record just stored, the module loaded is under the value left in the hash field and is
      not the new payload; or the new payload itself is loaded, under the hash of the other binary that is
      found; or the binary found collides with the module loaded. */
  lemma {:induction false} FaultyStoreIff(t: Table, cold: Engine, a: StoreArgs, left: Hash, calls: seq<(Name, LoadEnv)>,
                                          name: Name, env: LoadEnv, sha: DigestFunction)
    requires Inv(t) && Hashed(t, sha) && Honest(cold.cache, sha)
    requires StoresPayload(t, a, StoreEnv(true, true, Some(left)))
    requires var t' := FaultyStore(t, a, left, sha); Ensure(t', Invocations(t', cold, calls), name, env).code == OK
    ensures var t' := FaultyStore(t, a, left, sha);
      var g := Invocations(t', cold, calls);
      && LookupName(t', name).Some? && Ensure(t', g, name, env).engine.cache.Loaded?
      && var found := LookupName(t', name).value;
         Ensure(t', g, name, env).engine.cache.bin != found.wappBin <==>
           && g.cache.Loaded?
           && if found.digest == a.digest then left == g.cache.hash && a.src != g.cache.bin
              else if g.cache == Loaded(left, a.src) then left == sha(found.wappBin) && a.src != found.wappBin
              else Collision(sha, g.cache.bin, found.wappBin)
  {
    var t' := FaultyStore(t, a, left, sha);
    var g := Invocations(t', cold, calls);
    InvocationsKeep(t, cold, calls, a, left, sha);
    var k := FindName(t', name, -1).value;
    StoredFields(t, a, left, k, sha);
    assert t'[k] == LookupName(t', name).value;
  }

  /** This step stores a payload while hashing fails, leaving `h` in the hash field. */
  predicate Misfiles(step: Step, h: Hash, bin: Bytes) {
    && step.TableStep? && step.op.StoreOp? && step.op.args.isStore && !step.op.args.isManifest
    && step.op.args.src == bin && step.op.env.hashFault == Some(h)
  }

  /** Some step of a run put this binary under this hash. */
  ghost predicate Misfiled(all: seq<Step>, h: Hash, bin: Bytes) {
    exists k :: 0 <= k < |all| && Misfiles(all[k], h, bin)
  }

  /** A binary is under its own hash or was misfiled. */
  ghost predicate Filed(all: seq<Step>, h: Hash, bin: Bytes, sha: DigestFunction) {
    bin == [] || h == sha(bin) || Misfiled(all, h, bin)
  }

  ghost predicate AllFiled(t: Table, all: seq<Step>, sha: DigestFunction) {
    forall i :: 0 <= i < |t| ==> Filed(all, t[i].wappHash, t[i].wappBin, sha)
  }

  ghost predicate Accounted(s: System, all: seq<Step>, sha: DigestFunction) {
    && AllFiled(s.table, all, sha)
    && (s.engine.cache.Loaded? ==> Filed(all, s.engine.cache.hash, s.engine.cache.bin, sha) && s.engine.cache.bin != [])
  }

  lemma {:induction false} StoreAccounted(t: Table, a: StoreArgs, env: StoreEnv, all: seq<Step>, k: nat,
      sha: DigestFunction)
    requires AllFiled(t, all, sha) && k < |all| && all[k] == TableStep(StoreOp(a, env))
    ensures AllFiled(Store(t, a, env, sha).table, all, sha)
  {
    hide Filed;
    if a.isStore {
      match FindDigest(t, a.digest) {
        case Some(i) => FieldsAccounted(t[i], a, env, all, k, sha);
        case None => BlankFiled(all, a.digest, sha); FieldsAccounted(Blank(a.digest), a, env, all, k, sha);
      }
    }
  }

  lemma {:induction false} BlankFiled(all: seq<Step>, d: Bytes, sha: DigestFunction)
    ensures Filed(all, Blank(d).wappHash, Blank(d).wappBin, sha)
  {
  }

  lemma {:induction false} FieldsAccounted(e: Entry, a: StoreArgs, env: StoreEnv, all: seq<Step>, k: nat,
      sha: DigestFunction)
    requires Filed(all, e.wappHash, e.wappBin, sha)
    requires k < |all| && all[k] == TableStep(StoreOp(a, env)) && a.isStore
    ensures var e' := WriteFields(e, a, env, sha); Filed(all, e'.wappHash, e'.wappBin, sha)
  {
    if !a.isManifest && env.hashFault.Some? { assert Misfiles(all[k], env.hashFault.value, a.src); }
  }

  lemma {:induction false} FinaliseAccounted(t: Table, d: Bytes, all: seq<Step>, sha: DigestFunction)
    requires AllFiled(t, all, sha)
    ensures AllFiled(Finalise(t, d).table, all, sha)
  {
    hide Filed;
    FinaliseConserves(t, d);
    var t' := Finalise(t, d).table;
    forall i | 0 <= i < |t'|
      ensures t'[i] in t
    {
      assert t'[i] in multiset(t');
    }
  }

  lemma {:induction false} NextAccounted(s: System, step: Step, all: seq<Step>, k: nat, sha: DigestFunction)
    requires Accounted(s, all, sha) && k < |all| && all[k] == step
    ensures Accounted(Next(s, step, sha), all, sha)
  {
    hide Filed, Store, Finalise;
    match step {
      case TableStep(StoreOp(a, env)) => StoreAccounted(s.table, a, env, all, k, sha);
      case TableStep(FinaliseOp(d)) => FinaliseAccounted(s.table, d, all, sha);
      case TableStep(RemoveAllOp) =>
      case EnsureStep(name, env) =>
        if LookupName(s.table, name).Some? {
          assert s.table[FindName(s.table, name, -1).value] == LookupName(s.table, name).value;
        }
    }
  }

  lemma {:induction false} RunAccounted(s: System, steps: seq<Step>, all: seq<Step>, sha: DigestFunction)
    requires Accounted(s, all, sha) && |steps| <= |all| && all[|all| - |steps|..] == steps
    ensures Accounted(RunSteps(s, steps, sha), all, sha)
    decreases |steps|
  {
    hide Accounted;
    if steps != [] {
      var k := |all| - |steps|;
      NextAccounted(s, steps[0], all, k, sha);
      assert all[k + 1..] == steps[1..];
      RunAccounted(Next(s, steps[0], sha), steps[1..], all, sha);
    }
  }

  /** In any run from a cold start, whatever hashing fails in it: exactly when an invocation runs another
      binary than the one it finds. The binary found was misfiled under the hash of the module loaded; or
      the module loaded was misfiled under the hash of the binary found; or the two collide. */
  lemma {:induction false} WrongBinaryIff(steps: seq<Step>, name: Name, env: LoadEnv, sha: DigestFunction)
    requires var s := RunSteps(System([], COLD), steps, sha); Ensure(s.table, s.engine, name, env).code == OK
    ensures var s := RunSteps(System([], COLD), steps, sha);
      var g := s.engine.cache;
      && LookupName(s.table, name).Some? && Ensure(s.table, s.engine, name, env).engine.cache.Loaded?
      && var found := LookupName(s.table, name).value;
         Ensure(s.table, s.engine, name, env).engine.cache.bin != found.wappBin <==>
           && g.Loaded? && g.bin != found.wappBin
           && if Misfiled(steps, found.wappHash, found.wappBin) then found.wappHash == g.hash
              else if Misfiled(steps, g.hash, g.bin) then g.hash == sha(found.wappBin)
              else Collision(sha, g.bin, found.wappBin)
  {
    RunAccounted(System([], COLD), steps, steps, sha);
    var s := RunSteps(System([], COLD), steps, sha);
    assert s.table[FindName(s.table, name, -1).value] == LookupName(s.table, name).value;
  }

  function PayloadStep(d: Bytes, app: Name, bin: Bytes, env: StoreEnv): Step {
    TableStep(StoreOp(StoreArgs(true, d, false, 0, Converted(app), bin), env))
  }

  /** From a cold start: one app is stored under the hash of another, which is stored well; invoking the
      first and then the second runs the first one's binary as the second. */
  lemma {:induction false} MisfiledRunsForAnother(d: Bytes, app: Name, x: Bytes, d': Bytes, app': Name, y: Bytes,
      sha: DigestFunction)
    requires d != [] && d' != [] && d != d' && app != [] && app' != [] && app != app' && app[0] != SLASH
        && app'[0] != SLASH
    requires x != [] && y != [] && x != y
    ensures var works := LoadEnv(true, true, true, true);
      var steps := [PayloadStep(d, app, x, StoreEnv(true, true, Some(sha(y)))),
                    PayloadStep(d', app', y, ALL_WELL),
                    EnsureStep(app, works)];
      var s := RunSteps(System([], COLD), steps, sha);
      && LookupName(s.table, app').Some? && LookupName(s.table, app').value.wappBin == y
      && Ensure(s.table, s.engine, app', works).code == OK
      && Ensure(s.table, s.engine, app', works).engine.cache.bin == x
  {
    var works := LoadEnv(true, true, true, true);
    var bad := PayloadStep(d, app, x, StoreEnv(true, true, Some(sha(y))));
    var good := PayloadStep(d', app', y, ALL_WELL);
    var e, e' := Entry(d, [], 0, [], app, sha(y), x), Entry(d', [], 0, [], app', sha(y), y);
    assert [] + [e] == [e] && [e][0] == e && [e] + [e'] == [e, e'];
    var s1, s2 := System([e], COLD), System([e, e'], COLD);
    assert Next(System([], COLD), bad, sha) == s1;
    assert FindDigest([e], d') == None && Next(s1, good, sha) == s2;
    assert [e, e'][0] == e && [e, e'][1] == e';
    assert FindName([e, e'], app, -1) == Some(0) && FindName([e, e'], app', -1) == Some(1);
    assert Next(s2, EnsureStep(app, works), sha) == System([e, e'], Engine(true, Loaded(sha(y), x)));
    ThreeSteps(System([], COLD), bad, good, EnsureStep(app, works), sha);
  }

  /** From a cold start: an app is stored and invoked; a new payload of the same manifest is stored while
      hashing fails and leaves the field as it was; the next invocation runs the old payload. */
  lemma {:induction false} FailedHashRunsOldBinary(d: Bytes, app: Name, first: Bytes, second: Bytes,
      sha: DigestFunction)
    requires d != [] && app != [] && app[0] != SLASH && first != [] && second != [] && first != second
    ensures var works := LoadEnv(true, true, true, true);
      var steps := [PayloadStep(d, app, first, ALL_WELL),
                    EnsureStep(app, works),
                    PayloadStep(d, app, second, StoreEnv(true, true, Some(sha(first))))];
      var s := RunSteps(System([], COLD), steps, sha);
      && LookupName(s.table, app).Some? && LookupName(s.table, app).value.wappBin == second
      && Ensure(s.table, s.engine, app, works).code == OK
      && Ensure(s.table, s.engine, app, works).engine.cache.bin == first
  {
    var works := LoadEnv(true, true, true, true);
    var store := PayloadStep(d, app, first, ALL_WELL);
    var again := PayloadStep(d, app, second, StoreEnv(true, true, Some(sha(first))));
    var e := Entry(d, [], 0, [], app, sha(first), first);
    var t := [] + [e];
    assert t == [e] && t[0] == e && FindName(t, app, -1) == Some(0) && FindDigest(t, d) == Some(0);
    var s1 := System(t, COLD);
    assert Next(System([], COLD), store, sha) == s1;
    var s2 := System(t, Engine(true, Loaded(sha(first), first)));
    assert Next(s1, EnsureStep(app, works), sha) == s2;
    var t' := t[0 := e.(wappBin := second)];
    assert t'[0] == e.(wappBin := second) && FindName(t', app, -1) == Some(0);
    var s3 := System(t', s2.engine);
    assert Next(s2, again, sha) == s3;
    ThreeSteps(System([], COLD), store, EnsureStep(app, works), again, sha);
  }

  lemma {:induction false} ThreeSteps(s: System, x: Step, y: Step, z: Step, sha: DigestFunction)
    ensures RunSteps(s, [x, y, z], sha) == Next(Next(Next(s, x, sha), y, sha), z, sha)
  {
    var s1 := Next(s, x, sha);
    var s2 := Next(s1, y, sha);
    assert [x, y, z][1..] == [y, z] && [y, z][1..] == [z] && [z][1..] == [];
    assert RunSteps(s2, [z], sha) == Next(s2, z, sha);
    assert RunSteps(s1, [y, z], sha) == RunSteps(s2, [z], sha);
  }
}
