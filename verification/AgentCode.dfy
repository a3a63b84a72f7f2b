/**
 * Enclave_process_message.cpp as it works: status and report are globals, contexts are allocated and
 * released by hand, messages are built in a work buffer and in heap blocks. Every method is proved
 * against `AgentSpec` and `AgentRuns`, and every heap block it takes is accounted for.
 */
module AgentCode {
  import opened Basics
  import opened Memory
  import opened TcTable
  import opened TcManagerCode
  import opened SuitProcessorCode
  import opened AgentSpec
  import opened AgentRuns
  import opened CborEncoding
  import Cbor
  import Suit
  import Evidence
  import TcInfo

  /** The manifest processors the SUIT library has initialised and not yet released. */
  class SuitLibrary {
    var processors: set<nat>

    constructor ()
      ensures processors == {}
    {
      processors := {};
    }

    method Init(context: nat, ok: bool)
      requires context !in processors
      modifies this
      ensures processors == if ok then old(processors) + {context} else old(processors)
    {
      if ok {
        processors := processors + {context};
      }
    }

    method Release(context: nat)
      requires context in processors
      modifies this
      ensures processors == old(processors) - {context}
    {
      processors := processors - {context};
    }
  }

  const REPORT_SIZE: nat := 1024

  class AgentProcess {
    const suit: SuitProcessor
    const lib: SuitLibrary
    const work: array<byte>
    var status: Status

    ghost predicate Objects()
      reads this, suit
    {
      && suit.Objects()
      && suit as object != this && suit.tcm as object != this && suit.tcm.heap as object != this
      && suit.tcm.slots as object != this
      && lib as object != this && lib as object != suit && lib as object != suit.tcm
      && lib as object != suit.tcm.heap && lib as object != suit.tcm.slots
      && work as object != this && work as object != suit && work as object != suit.tcm
      && work as object != suit.tcm.heap && work as object != suit.tcm.slots && work as object != lib
    }

    ghost predicate Valid()
      reads this, suit, suit.tcm, suit.tcm.slots, suit.tcm.heap
    {
      Objects() && suit.Valid() && work.Length == WORK_LEN
    }

    ghost function Current(): Agent
      requires Valid()
      reads this, suit, suit.tcm, suit.tcm.slots, suit.tcm.heap
    {
      Agent(status, suit.Current())
    }

    constructor (suit: SuitProcessor, lib: SuitLibrary)
      requires suit.Valid() && suit.Current() == Suit.State([], []) && lib.processors == {}
      requires lib as object != suit && lib as object != suit.tcm
      requires lib as object != suit.tcm.heap && lib as object != suit.tcm.slots
      ensures Valid() && Current() == INITIAL && this.suit == suit && this.lib == lib && fresh(work)
    {
      this.suit, this.lib := suit, lib;
      status := WAITING_QUERY_REQUEST;
      work := new byte[WORK_LEN];
    }

    // ------------------------------------------------------------ heap blocks

    method Allocate(data: Bytes, ok: bool) returns (p: nat)
      requires Valid()
      modifies suit.tcm.heap
      ensures Valid() && Current() == old(Current())
      ensures p == 0 <==> !ok
      ensures p == 0 ==> suit.Elsewhere() == old(suit.Elsewhere())
      ensures p != 0 ==> p !in old(suit.Elsewhere()) && suit.Elsewhere() == old(suit.Elsewhere())[p := data]
    {
      hide Wf, Entries, RecordOk, Ptrs, Held;
      ghost var e := suit.Elsewhere();
      OwnedLive(suit.tcm.slots[..suit.tcm.len], suit.tcm.heap.blocks);
      p := suit.tcm.heap.Duplicate(data, ok);
      if p != 0 {
        suit.OtherBlock(p);
        assert p !in e && suit.Elsewhere() - {p} == e - {p} == e;
      }
    }

    method Release(p: nat)
      requires Valid() && p in suit.Elsewhere()
      modifies suit.tcm.heap
      ensures Valid() && Current() == old(Current())
      ensures suit.Elsewhere() == old(suit.Elsewhere()) - {p}
    {
      ghost var e := suit.Elsewhere();
      suit.tcm.heap.Free(p);
      suit.OtherBlock(p);
      assert suit.Elsewhere() - {p} == suit.Elsewhere();
    }

    // ----------------------------------------------------------------- update

    /** The agent holds these contexts and nothing else besides `rest`. */
    ghost predicate Holding(engine: nat, context: nat, initialised: bool, rest: Blocks)
      requires Valid()
      reads this, suit, suit.tcm, suit.tcm.slots, suit.tcm.heap, lib
    {
      var e := suit.Elsewhere();
      && (engine != 0 ==> engine in e && engine != context)
      && (context != 0 ==> context in e)
      && 0 !in e && e - {engine, context} == rest
      && lib.processors == (if initialised then {context} else {})
      && (initialised ==> context != 0)
    }

    lemma {:induction false} NoNull()
      requires Valid()
      ensures 0 !in suit.Elsewhere()
    {
    }

    /** The two allocations at the start of an iteration. */
    method TakeContexts(s: Setup) returns (engine: nat, context: nat)
      requires Valid() && lib.processors == {}
      modifies suit.tcm.heap
      ensures Valid() && Current() == old(Current())
      ensures Holding(engine, context, false, old(suit.Elsewhere()))
      ensures context != 0 <==> s.reportAlloc && s.contextAlloc
    {
      hide SuitProcessor.Elsewhere, AgentProcess.Current, TcManager.Shape, TcManager.Contents, TcManager.Owned, BufOk;
      engine, context := 0, 0;
      ghost var e := suit.Elsewhere();
      NoNull();
      engine := Allocate(Zeros(REPORT_SIZE), s.reportAlloc);
      if engine != 0 {
        context := Allocate(Zeros(SUIT_MAX_DATA_SIZE), s.contextAlloc);
      }
      assert suit.Elsewhere() - {engine, context} == e;
    }

    /** The steps of process_update before an envelope is read. */
    method SetUp(s: Setup) returns (engine: nat, context: nat, initialised: bool, ok: bool)
      requires Valid() && lib.processors == {}
      modifies suit.tcm.heap, lib
      ensures Valid() && Current() == old(Current())
      ensures Holding(engine, context, initialised, old(suit.Elsewhere())) && ok == SetupOk(s)
    {
      hide SuitProcessor.Elsewhere, AgentProcess.Current, TcManager.Shape;
      initialised, ok := false, false;
      engine, context := TakeContexts(s);
      if context == 0 || !s.senderKey || !s.reportInit || !s.reportStart {
        return;
      }
      lib.Init(context, s.processorInit);
      if !s.processorInit {
        return;
      }
      initialised := true;
      ok := s.publicKey && s.recipientKey;
    }

    /** The cleanup at the end of an iteration, and after an error: release the processor, free its
        context, free the reporting engine, whichever are held. */
    method CleanUp(engine: nat, context: nat, initialised: bool, ghost rest: Blocks)
      requires Valid() && Holding(engine, context, initialised, rest)
      modifies suit.tcm.heap, lib
      ensures Valid() && Current() == old(Current())
      ensures suit.Elsewhere() == rest && lib.processors == {}
    {
      hide SuitProcessor.Elsewhere, AgentProcess.Current, TcManager.Shape, TcManager.Contents, TcManager.Owned, BufOk;
      ghost var e := suit.Elsewhere();
      if initialised {
        lib.Release(context);
      }
      assert suit.Elsewhere() == e;
      ReleaseIfHeld(context);
      assert suit.Elsewhere() == e - {context};
      ReleaseIfHeld(engine);
      assert e - {context} - {engine} == e - {engine, context};
    }

    method ReleaseIfHeld(p: nat)
      requires Valid() && (p != 0 ==> p in suit.Elsewhere()) && 0 !in suit.Elsewhere()
      modifies suit.tcm.heap
      ensures Valid() && Current() == old(Current())
      ensures suit.Elsewhere() == old(suit.Elsewhere()) - {p}
    {
      if p != 0 {
        Release(p);
      }
    }

    /** The rest of an iteration of process_update: read, process and finalise one envelope. */
    method InstallManifest(m: ManifestInput) returns (err: Option<ErrCode>)
      requires Valid() && SetupOk(m.setup)
      modifies suit, suit.tcm, suit.tcm.slots, suit.tcm.heap
      ensures Valid() && suit.Elsewhere() == old(suit.Elsewhere()) && status == old(status)
      ensures ManifestResult(suit.Current(), err) == ProcessManifest(old(suit.Current()), m, suit.tcm.sha)
    {
      if m.item == [] || |m.item| > m.room {
        return Some(PERMANENT_ERROR);
      }
      if !m.added {
        return Some(PERMANENT_ERROR);
      }
      var ok := suit.Process(m.envelope);
      if !ok {
        return Some(MANIFEST_PROCESSING_FAILED);
      }
      var rc := Finish(m.envelope.digest);
      return if rc == 0 then None else Some(TEMPORARY_ERROR);
    }

    method Finish(d: Bytes) returns (rc: int)
      requires Valid()
      modifies suit.tcm, suit.tcm.slots, suit.tcm.heap
      ensures Valid() && suit.Elsewhere() == old(suit.Elsewhere())
      ensures var f := Finalise(old(suit.Current()).table, d);
        suit.Current() == old(suit.Current()).(table := f.table) && (rc == 0 <==> f.ok)
    {
      rc := suit.tcm.CheckAndUpdate(d);
      suit.TableOnly();
    }

    method RunManifest(m: ManifestInput) returns (err: Option<ErrCode>)
      requires Valid() && lib.processors == {}
      modifies suit, suit.tcm, suit.tcm.slots, suit.tcm.heap, lib
      ensures Valid() && suit.Elsewhere() == old(suit.Elsewhere()) && lib.processors == {} && status == old(status)
      ensures ManifestResult(suit.Current(), err) == ProcessManifest(old(suit.Current()), m, suit.tcm.sha)
    {
      ghost var rest := suit.Elsewhere();
      var engine, context, initialised, ok := SetUp(m.setup);
      err := Some(TEMPORARY_ERROR);
      if ok {
        err := InstallManifest(m);
      }
      CleanUp(engine, context, initialised, rest);
    }

    /** process_update: the manifests in order up to the first that fails; on every exit the contexts of
        every iteration have been released. */
    method HandleUpdate(u: Update, lim: Limits) returns (reply: Reply)
      requires Valid() && lib.processors == {}
      modifies suit, suit.tcm, suit.tcm.slots, suit.tcm.heap, lib, work
      ensures Valid() && suit.Elsewhere() == old(suit.Elsewhere()) && lib.processors == {} && status == old(status)
      ensures UpdateResult(suit.Current(), reply) == ProcessUpdate(old(suit.Current()), u, lim, suit.tcm.sha)
    {
      if !u.hasToken || |u.token| < 8 || 64 < |u.token| {
        return CreateError(u.token, PERMANENT_ERROR, []);
      }
      if |u.manifests| < 1 || |u.manifests| > lim.arrayMax {
        return CreateError(u.token, PERMANENT_ERROR, []);
      }
      var err := RunManifests(u.manifests);
      var report := if suit.report.ptr == 0 then [] else suit.tcm.heap.blocks[suit.report.ptr];
      if err == None {
        return Success(u.token, report);
      }
      var errorReport := [];
      if err == Some(MANIFEST_PROCESSING_FAILED) {
        errorReport := KeepReport(report);
      }
      return CreateError(u.token, err.value, errorReport);
    }

    /** Copy the captured report into the work buffer, if it fits. */
    method KeepReport(report: Bytes) returns (kept: Bytes)
      modifies work
      ensures kept == if |report| <= work.Length then report else []
    {
      kept := [];
      if |report| > 0 && |report| <= work.Length {
        forall k | 0 <= k < |report| {
          work[k] := report[k];
        }
        kept := work[..|report|];
      }
    }

    method RunManifests(ms: seq<ManifestInput>) returns (err: Option<ErrCode>)
      requires Valid() && lib.processors == {}
      modifies suit, suit.tcm, suit.tcm.slots, suit.tcm.heap, lib
      ensures Valid() && suit.Elsewhere() == old(suit.Elsewhere()) && lib.processors == {} && status == old(status)
      ensures ManifestResult(suit.Current(), err) == ProcessManifests(old(suit.Current()), ms, suit.tcm.sha)
    {
      var i := 0;
      while i < |ms|
        invariant i <= |ms| && Valid() && lib.processors == {} && status == old(status)
        invariant suit.Elsewhere() == old(suit.Elsewhere())
        invariant ProcessManifests(suit.Current(), ms[i..], suit.tcm.sha) ==
            ProcessManifests(old(suit.Current()), ms, suit.tcm.sha)
      {
        assert ms[i..][0] == ms[i] && ms[i..][1..] == ms[i + 1..];
        err := RunManifest(ms[i]);
        if err.Some? {
          return;
        }
        i := i + 1;
      }
      return None;
    }

    // ------------------------------------------------------------------ query

    /** Build one tc-info as a heap block of its own. */
    method BuildInfo(item: TcItem, nameMax: nat, alloc: bool) returns (info: UsefulBuf)
      requires Valid() && 0 < |item.componentId| < nameMax <= Cbor.LIMIT
      modifies suit.tcm.heap
      ensures Valid() && Current() == old(Current())
      ensures info.ptr == 0 <==> !alloc
      ensures info.ptr == 0 ==> suit.Elsewhere() == old(suit.Elsewhere())
      ensures info.ptr != 0 ==>
        && info.ptr !in old(suit.Elsewhere())
        && suit.Elsewhere() == old(suit.Elsewhere())[info.ptr := TcInfo.EncodeInfo(item)]
    {
      hide TcInfo.EncodeInfo, Wf, Entries, RecordOk, Ptrs, Held;
      ghost var e := suit.Elsewhere();
      OwnedLive(suit.tcm.slots[..suit.tcm.len], suit.tcm.heap.blocks);
      info := TcInfo.BuildTcInfo(suit.tcm.heap, item, nameMax, alloc);
      if info.ptr != 0 {
        suit.OtherBlock(info.ptr);
        assert info.ptr !in e && suit.Elsewhere() - {info.ptr} == e - {info.ptr} == e;
      }
    }

    method BuildNext(held: seq<UsefulBuf>, item: TcItem, nameMax: nat, alloc: bool, ghost infos: seq<Bytes>,
        ghost rest: Blocks)
      returns (held': seq<UsefulBuf>)
      requires Valid() && 0 < |item.componentId| < nameMax <= Cbor.LIMIT
      requires Stacked(held, infos, rest, suit.Elsewhere())
      modifies suit.tcm.heap
      ensures Valid() && Current() == old(Current())
      ensures |held'| == if alloc then |held| + 1 else |held|
      ensures Stacked(held', if alloc then infos + [TcInfo.EncodeInfo(item)] else infos, rest, suit.Elsewhere())
    {
      ghost var e := suit.Elsewhere();
      var info := BuildInfo(item, nameMax, alloc);
      held' := held;
      if info.ptr != 0 {
        StackOneMore(held, infos, rest, e, info, TcInfo.EncodeInfo(item));
        held' := held + [info];
      }
    }

    /** The loop of process_query_request over the tc-list items. It stops at the first allocation that
        fails; the buffers built until then are all still held. */
    method BuildInfos(items: seq<TcItem>, nameMax: nat, alloc: nat -> bool, ghost infos: seq<Bytes>)
      returns (held: seq<UsefulBuf>)
      requires Valid() && nameMax <= Cbor.LIMIT && |infos| == |items|
      requires forall k :: 0 <= k < |items| ==> 0 < |items[k].componentId| < nameMax
      requires forall k :: 0 <= k < |items| ==> infos[k] == TcInfo.EncodeInfo(items[k])
      modifies suit.tcm.heap
      ensures Valid() && Current() == old(Current())
      ensures |held| == Built(alloc, |items|)
      ensures Stacked(held, infos[..|held|], old(suit.Elsewhere()), suit.Elsewhere())
    {
      hide TcInfo.EncodeInfo, Built, Stacked, SuitProcessor.Elsewhere, AgentProcess.Current, TcManager.Shape;
      StackNone(suit.Elsewhere());
      ghost var rest := suit.Elsewhere();
      held := [];
      assert infos[..0] == [];
      while |held| < |items| && alloc(|held|)
        invariant |held| <= |items| && Valid() && Current() == old(Current())
        invariant forall j :: 0 <= j < |held| ==> alloc(j)
        invariant Stacked(held, infos[..|held|], rest, suit.Elsewhere())
        decreases |items| - |held|
      {
        ghost var i := |held|;
        assert infos[..i] + [infos[i]] == infos[..i + 1];
        held := BuildNext(held, items[|held|], nameMax, alloc(|held|), infos[..i], rest);
      }
      BuiltIs(alloc, |items|, |held|);
    }

    /** free_query_response_tc_list_buffers */
    method FreeInfos(held: seq<UsefulBuf>, ghost infos: seq<Bytes>, ghost rest: Blocks)
      requires Valid() && Stacked(held, infos, rest, suit.Elsewhere())
      modifies suit.tcm.heap
      ensures Valid() && Current() == old(Current()) && suit.Elsewhere() == rest
    {
      var i := 0;
      while i < |held|
        invariant i <= |held| == |infos| && Valid() && Current() == old(Current())
        invariant Stacked(held[i..], infos[i..], rest, suit.Elsewhere())
      {
        assert held[i..][1..] == held[i + 1..] && infos[i..][1..] == infos[i + 1..];
        Release(held[i].ptr);
        i := i + 1;
      }
    }

    /** The requested component id, encoded in the work buffer behind what is already there. */
    method EncodeRequested(app: Name, used: nat) returns (ok: bool, len: nat)
      requires |app| < Cbor.LIMIT && used <= work.Length
      modifies work
      ensures ok <==> |Cbor.Encode(RequestedId(app))| <= work.Length - used
      ensures ok ==> used + len <= work.Length && work[used..used + len] == Cbor.Encode(RequestedId(app))
      ensures work[..used] == old(work[..used])
    {
      hide Cbor.Encode, Cbor.Head, RequestedId;
      RequestedEncoding(app);
      var enc := new Encoder(work, used, work.Length - used);
      var array0 := enc.size;
      enc.AddBytes(app);
      assert enc.log == [] + Cbor.Encode(Cbor.Bstr(app));
      enc.Close(array0, 4, 1, [], Cbor.Encode(Cbor.Bstr(app)));
      assert enc.log == Cbor.Encode(RequestedId(app));
      ok, len := !enc.failed, enc.size;
    }

    method ExportItems(nameMax: nat) returns (items: Option<seq<TcItem>>)
      requires Valid()
      ensures items == TcList(suit.tcm.Contents(), |suit.tcm.Contents()|, nameMax)
    {
      var n := suit.tcm.len;
      if n == 0 {
        return None;
      }
      var storage := new TcItem[n](_ => TcItem([], ZERO_HASH));
      var rc, count := suit.tcm.GetTcList(storage, n, nameMax);
      return if rc == 0 then Some(storage[..count]) else None;
    }

    /** The tc-list of the current table, as held buffers; the list they are made from is freed. */
    method CollectInfos(lim: Limits, env: QueryEnv, ghost infos: seq<Bytes>) returns (ok: bool, held: seq<UsefulBuf>)
      requires Valid() && lim.nameMax <= Cbor.LIMIT
      requires infos == Infos(suit.tcm.Contents(), lim)
      modifies suit.tcm.heap
      ensures Valid() && Current() == old(Current())
      ensures Listed(suit.tcm.Contents(), lim, env) ==>
        |held| == Built(env.itemAlloc, |infos|) && (ok <==> |held| == |infos|)
      ensures !Listed(suit.tcm.Contents(), lim, env) ==> !ok && held == []
      ensures |held| <= |infos| && Stacked(held, infos[..|held|], old(suit.Elsewhere()), suit.Elsewhere())
    {
      hide TcInfo.EncodeInfos, TcList, Stacked, SuitProcessor.Elsewhere, TcManager.Shape;
      ghost var rest := suit.Elsewhere();
      StackNone(rest);
      var list := Allocate(Zeros(suit.tcm.len), env.listAlloc);
      if list == 0 {
        return false, [];
      }
      ghost var with := suit.Elsewhere();
      var items := ExportItems(lim.nameMax);
      if items == None {
        Release(list);
        assert with - {list} == rest;
        return false, [];
      }
      ListOk(suit.tcm.Contents(), lim.nameMax);
      held := BuildInfos(items.value, lim.nameMax, env.itemAlloc, infos);
      ok := |held| == |items.value|;
      StackRelease(held, infos[..|held|], with, suit.Elsewhere(), list);
      Release(list);
      assert with - {list} == rest;
    }

    /** What the tc-list of a message refers to. */
    method ReadInfos(held: seq<UsefulBuf>, ghost infos: seq<Bytes>, ghost rest: Blocks) returns (r: seq<Bytes>)
      requires Valid() && Stacked(held, infos, rest, suit.Elsewhere())
      ensures r == infos
    {
      r := [];
      while |r| < |held|
        invariant |r| <= |held| == |infos| && r == infos[..|r|]
      {
        StackedContent(held, infos, rest, suit.Elsewhere(), |r|);
        r := r + [suit.tcm.heap.blocks[held[|r|].ptr]];
      }
    }

    /** Evidence at the start of the work buffer; the temporary buffers are gone afterwards. */
    method Attest(q: Query, env: QueryEnv, cfg: Config) returns (err: Evidence.TeepErr, used: nat)
      requires Valid() && SmallChallenge(q)
      modifies work, suit.tcm.heap
      ensures Valid() && Current() == old(Current()) && suit.Elsewhere() == old(suit.Elsewhere())
      ensures var r := Evidence.EvidenceOf(env.key, q.challenge, cfg.sha384, WORK_LEN, env.quote);
        err == r.err && used == |r.payload| <= WORK_LEN && (err == Evidence.SUCCESS ==> work[..used] == r.payload)
    {
      ghost var e, p := suit.Elsewhere(), Above(suit.tcm.heap.blocks.Keys);
      OwnedLive(suit.tcm.slots[..suit.tcm.len], suit.tcm.heap.blocks);
      err, used := Evidence.CreateEnvelope(suit.tcm.heap, work, 0, WORK_LEN, env.key, q.challenge, cfg.sha384,
          env.quote);
      assert work[..used] == work[0..0 + used];
      suit.OtherBlock(p);
      assert suit.Elsewhere() == suit.Elsewhere() - {p} == e - {p} == e;
    }

    /** The tc-list of a QueryResponse, if there is anything to list. */
    method ListRecords(q: Query, env: QueryEnv, lim: Limits, ghost answer: Reply)
      returns (err: Option<ErrCode>, held: seq<UsefulBuf>)
      requires Valid() && lim.nameMax <= Cbor.LIMIT && answer.QueryResponse? && answer.tcList == None
      modifies suit.tcm.heap
      ensures Valid() && Current() == old(Current())
      ensures var r := ListTable(suit.tcm.Contents(), q, lim, env, answer);
        && Stacked(held, r.built, old(suit.Elsewhere()), suit.Elsewhere())
        && (err.Some? ==> r.reply == CreateError(q.token, err.value, []))
        && (err.None? ==> r.reply == answer.(tcList := if held == [] then None else Some(r.built)))
    {
      hide TcList, TcInfo.EncodeInfos;
      held := [];
      if suit.tcm.len > lim.arrayMax {
        return Some(PERMANENT_ERROR), held;
      }
      if suit.tcm.len > 0 {
        ghost var infos := Infos(suit.tcm.Contents(), lim);
        var ok;
        ok, held := CollectInfos(lim, env, infos);
        assert infos[..|infos|] == infos;
        if !ok {
          return Some(TEMPORARY_ERROR), held;
        }
      }
      return None, held;
    }

    /** The part of process_query_request for trusted components, behind `used` bytes of evidence. */
    method ListRequested(q: Query, env: QueryEnv, lim: Limits, used: nat, ghost answer: Reply)
      returns (err: Option<ErrCode>, idLen: nat, held: seq<UsefulBuf>)
      requires Valid() && |env.app| < Cbor.LIMIT && lim.nameMax <= Cbor.LIMIT && used <= WORK_LEN
      requires answer.QueryResponse? && answer.tcList == None
      modifies work, suit.tcm.heap
      ensures Valid() && Current() == old(Current()) && work[..used] == old(work[..used])
      ensures var r := ListComponents(suit.tcm.Contents(), q, lim, env, WORK_LEN - used, answer);
        && Stacked(held, r.built, old(suit.Elsewhere()), suit.Elsewhere())
        && (err.Some? ==> r.reply == CreateError(q.token, err.value, []))
        && (err.None? ==>
              && used + idLen <= WORK_LEN
              && r.reply == answer.(requested := Some(work[used..used + idLen]),
                                    tcList := if held == [] then None else Some(r.built)))
    {
      hide Cbor.Encode, ListTable, SuitProcessor.Elsewhere, AgentProcess.Current;
      idLen, held := 0, [];
      if env.app == [] {
        return Some(PERMANENT_ERROR), idLen, held;
      }
      var ok;
      ok, idLen := EncodeRequested(env.app, used);
      if !ok {
        return Some(TEMPORARY_ERROR), idLen, held;
      }
      err, held := ListRecords(q, env, lim, answer.(requested := Some(work[used..used + idLen])));
    }

    /** process_query_request. The evidence and the requested component id are read back from disjoint
        ranges of the work buffer when the message is complete. */
    method HandleQuery(q: Query, env: QueryEnv, cfg: Config) returns (reply: Reply, held: seq<UsefulBuf>)
      requires Valid() && SmallChallenge(q) && |env.app| < Cbor.LIMIT && cfg.lim.nameMax <= Cbor.LIMIT
      modifies work, suit.tcm.heap
      ensures Valid() && Current() == old(Current())
      ensures reply == ProcessQuery(suit.tcm.Contents(), q, cfg.lim, cfg.sha384, env).reply
      ensures Stacked(held, ProcessQuery(suit.tcm.Contents(), q, cfg.lim, cfg.sha384, env).built,
          old(suit.Elsewhere()), suit.Elsewhere())
    {
      hide ListComponents, Evidence.EvidenceOf, Stacked, SuitProcessor.Elsewhere, AgentProcess.Current, TcManager.Shape;
      held := [];
      StackNone(suit.Elsewhere());
      if q.versions.Some? && VERSION !in q.versions.value {
        return CreateError(q.token, UNSUPPORTED_MSG_VERSION, []), held;
      }
      if q.suites.Some? && SUITE !in q.suites.value {
        return CreateError(q.token, UNSUPPORTED_CIPHER_SUITES, []), held;
      }
      var used := 0;
      if q.attestation {
        var err;
        err, used := Attest(q, env, cfg);
        if err != Evidence.SUCCESS || !env.slice {
          return CreateError(q.token, TEMPORARY_ERROR, []), held;
        }
      }
      reply, held := Answer(q, env, cfg, used);
    }

    /** The QueryResponse, with `used` bytes of evidence already in the work buffer. */
    method Answer(q: Query, env: QueryEnv, cfg: Config, used: nat) returns (reply: Reply, held: seq<UsefulBuf>)
      requires Valid() && |env.app| < Cbor.LIMIT && cfg.lim.nameMax <= Cbor.LIMIT && used <= WORK_LEN
      modifies work, suit.tcm.heap
      ensures Valid() && Current() == old(Current())
      ensures var answer := QueryResponse(if q.hasToken then Some(q.token) else None,
                                          if q.attestation then Some(old(work[..used])) else None, None, None);
        var r := if q.trustedComponents
                 then ListComponents(suit.tcm.Contents(), q, cfg.lim, env, WORK_LEN - used, answer)
                 else QueryResult(answer, []);
        && reply == r.reply
        && Stacked(held, r.built, old(suit.Elsewhere()), suit.Elsewhere())
    {
      hide SuitProcessor.Elsewhere, AgentProcess.Current, TcManager.Shape, ListComponents, Stacked;
      var token := if q.hasToken then Some(q.token) else None;
      held := [];
      StackNone(suit.Elsewhere());
      if !q.trustedComponents {
        return QueryResponse(token, if q.attestation then Some(work[..used]) else None, None, None), held;
      }
      ghost var rest := suit.Elsewhere();
      ghost var answer := QueryResponse(token, if q.attestation then Some(work[..used]) else None, None, None);
      var err, idLen;
      err, idLen, held := ListRequested(q, env, cfg.lim, used, answer);
      if err.Some? {
        return CreateError(q.token, err.value, []), held;
      }
      ghost var r := ListComponents(suit.tcm.Contents(), q, cfg.lim, env, WORK_LEN - used, answer);
      var infos := ReadInfos(held, r.built, rest);
      reply := QueryResponse(token, if q.attestation then Some(work[..used]) else None,
                             Some(work[used..used + idLen]), if held == [] then None else Some(infos));
    }

    // ---------------------------------------------------------------- message

    /** The reply to a message that was accepted, and the tc-info buffers it refers to. */
    method BuildReply(i: Input, cfg: Config) returns (reply: Reply, held: seq<UsefulBuf>)
      requires Valid() && lib.processors == {} && Sane(i, cfg) && suit.tcm.sha == cfg.sha256
      requires ReplyOf(Current(), i, cfg).Some?
      modifies suit, suit.tcm, suit.tcm.slots, suit.tcm.heap, lib, work
      ensures Valid() && lib.processors == {} && status == old(status)
      ensures Some(reply) == ReplyOf(old(Current()), i, cfg)
      ensures suit.Current() == SuitAfter(old(Current()), i, cfg)
      ensures Stacked(held, BuiltFor(old(Current()), i, cfg), old(suit.Elsewhere()), suit.Elsewhere())
    {
      hide ProcessQuery, ProcessUpdate, SuitProcessor.Elsewhere, TcManager.Shape;
      reply, held := i.garbage, [];
      StackNone(suit.Elsewhere());
      if i.message.QueryRequest? {
        reply, held := HandleQuery(i.message.query, i.message.env, cfg);
      } else if status != WAITING_QUERY_REQUEST {
        reply := HandleUpdate(i.message.update, cfg.lim);
      }
    }

    /** teep_encode_message and teep_sign_cose_sign1, into the caller's buffer. */
    method Seal(reply: Reply, i: Input, cfg: Config, sendBuf: array<byte>) returns (ok: bool, len: nat)
      requires sendBuf.Length == cfg.sendMax
      modifies sendBuf
      ensures ok == Sealed(reply, i, cfg)
      ensures ok ==> len <= sendBuf.Length && sendBuf[..len] == cfg.seal(reply, i.salt)
    {
      var bytes := cfg.seal(reply, i.salt);
      ok, len := false, 0;
      if i.encoded && i.signed && |bytes| <= sendBuf.Length {
        forall k | 0 <= k < |bytes| {
          sendBuf[k] := bytes[k];
        }
        ok, len := true, |bytes|;
      }
    }

    /** The tc-info buffers of a QueryResponse are freed; those of an Error are not reached any more. */
    method DropReply(reply: Reply, held: seq<UsefulBuf>, ghost infos: seq<Bytes>, ghost rest: Blocks)
      returns (ghost leaked: seq<UsefulBuf>)
      requires Valid() && Stacked(held, infos, rest, suit.Elsewhere())
      modifies suit.tcm.heap
      ensures Valid() && Current() == old(Current())
      ensures Stacked(leaked, if reply.QueryResponse? then [] else infos, rest, suit.Elsewhere())
    {
      leaked := held;
      if reply.QueryResponse? {
        FreeInfos(held, infos, rest);
        leaked := [];
      }
    }

    /** ecall_process_message. The status changes when the reply is built; the tc-info buffers of a
        QueryResponse are freed whether or not it is then encoded and signed. What stays allocated is
        `leaked`: nothing, except after a tc-list that failed half-way. Unless the result is fatal, the
        first `len` bytes of the send buffer are the sealed reply. */
    method ProcessMessage(i: Input, cfg: Config, sendBuf: array<byte>)
      returns (result: Result, len: nat, ghost leaked: seq<UsefulBuf>)
      requires Valid() && lib.processors == {} && Sane(i, cfg) && suit.tcm.sha == cfg.sha256
      requires Apart(sendBuf) && sendBuf.Length == cfg.sendMax
      modifies this, suit, suit.tcm, suit.tcm.slots, suit.tcm.heap, lib, work, sendBuf
      ensures Valid() && lib.processors == {}
      ensures Current() == React(old(Current()), i, cfg).agent && result == React(old(Current()), i, cfg).result
      ensures result != FATAL ==> len <= sendBuf.Length && sendBuf[..len] == React(old(Current()), i, cfg).sent
      ensures Stacked(leaked, Leaked(old(Current()), i, cfg), old(suit.Elsewhere()), suit.Elsewhere())
    {
      hide ReplyOf, ProcessUpdate, BuiltFor, Stacked, SuitProcessor.Elsewhere, TcManager.Shape;
      len, leaked := 0, [];
      ghost var rest, a := suit.Elsewhere(), Current();
      ReplyWhen(a, i, cfg);
      if !i.keyReady || !i.verified || !i.decoded || i.message.OtherMessage? {
        StackNone(rest);
        return FATAL, len, leaked;
      }
      var reply, held := BuildReply(i, cfg);
      SetStatus(reply);
      var ok;
      ok, len := Seal(reply, i, cfg, sendBuf);
      leaked := DropReply(reply, held, BuiltFor(a, i, cfg), rest);
      ReplyKinds(a, i, cfg);
      return if ok then ResultOf(reply) else FATAL, len, leaked;
    }

    /** The caller's send buffer is none of the agent's own objects. */
    ghost predicate Apart(sendBuf: array<byte>) {
      sendBuf as object != this && sendBuf as object != suit && sendBuf as object != suit.tcm
      && sendBuf as object != suit.tcm.slots && sendBuf as object != suit.tcm.heap
      && sendBuf as object != lib && sendBuf != work
    }

    method SetStatus(reply: Reply)
      requires Valid()
      modifies this`status
      ensures Valid() && status == NextStatus(old(status), reply)
      ensures suit.Current() == old(suit.Current()) && suit.Elsewhere() == old(suit.Elsewhere())
    {
      if status == WAITING_QUERY_REQUEST && reply.QueryResponse? {
        status := WAITING_UPDATE_OR_QUERY_REQUEST;
      } else if status == WAITING_UPDATE_OR_QUERY_REQUEST && reply.Success? {
        status := WAITING_QUERY_REQUEST;
      }
    }
  }

  /** `h` is `rest` and, beside it, one block for each of `infos`, held by `held`. */
  ghost predicate Stacked(held: seq<UsefulBuf>, infos: seq<Bytes>, rest: Blocks, h: Blocks) {
    && |held| == |infos|
    && if held == [] then h == rest
       else
         && held[0].ptr != 0 && held[0].ptr in h && h[held[0].ptr] == infos[0]
         && Stacked(held[1..], infos[1..], rest, h - {held[0].ptr})
  }

  lemma {:induction false} StackOneMore(held: seq<UsefulBuf>, infos: seq<Bytes>, rest: Blocks, h: Blocks,
      b: UsefulBuf, info: Bytes)
    requires Stacked(held, infos, rest, h) && b.ptr != 0 && b.ptr !in h
    ensures Stacked(held + [b], infos + [info], rest, h[b.ptr := info])
  {
    if held == [] {
      assert (held + [b])[1..] == [] && (infos + [info])[1..] == [];
      assert h[b.ptr := info] - {b.ptr} == h;
    } else {
      var p := held[0].ptr;
      StackOneMore(held[1..], infos[1..], rest, h - {p}, b, info);
      assert (held + [b])[1..] == held[1..] + [b] && (infos + [info])[1..] == infos[1..] + [info];
      assert h[b.ptr := info] - {p} == (h - {p})[b.ptr := info];
    }
  }

  lemma {:induction false} StackNone(rest: Blocks)
    ensures Stacked([], [], rest, rest)
  {
  }

  lemma {:induction false} StackRelease(held: seq<UsefulBuf>, infos: seq<Bytes>, rest: Blocks, h: Blocks, p: nat)
    requires Stacked(held, infos, rest, h) && p in rest
    ensures p in h && Stacked(held, infos, rest - {p}, h - {p})
  {
    if held != [] {
      var q := held[0].ptr;
      StackRelease(held[1..], infos[1..], rest, h - {q}, p);
      assert h - {p} - {q} == h - {q} - {p};
    }
  }

  lemma {:induction false} StackedContent(held: seq<UsefulBuf>, infos: seq<Bytes>, rest: Blocks, h: Blocks, k: nat)
    requires Stacked(held, infos, rest, h) && k < |held|
    ensures held[k].ptr in h && h[held[k].ptr] == infos[k]
  {
    if k > 0 {
      StackedContent(held[1..], infos[1..], rest, h - {held[0].ptr}, k - 1);
      assert held[1..][k - 1] == held[k];
    }
  }

  /** The table and the report after a message. */
  function SuitAfter(a: Agent, i: Input, cfg: Config): Suit.State {
    if i.message.UpdateMessage? && Genuine(a, i) then ProcessUpdate(a.suit, i.message.update, cfg.lim, cfg.sha256).state
    else a.suit
  }

  /** The tc-info buffers built for a message. */
  function BuiltFor(a: Agent, i: Input, cfg: Config): seq<Bytes>
    requires Sane(i, cfg)
  {
    if i.message.QueryRequest?
    then ProcessQuery(a.suit.table, i.message.query, cfg.lim, cfg.sha384, i.message.env).built
    else []
  }

  /** The tc-info buffers no message refers to any more. */
  function Leaked(a: Agent, i: Input, cfg: Config): seq<Bytes>
    requires Sane(i, cfg)
  {
    if ReplyOf(a, i, cfg).Some? && ReplyOf(a, i, cfg).value.Error? then BuiltFor(a, i, cfg) else []
  }

  lemma {:induction false} ReplyWhen(a: Agent, i: Input, cfg: Config)
    requires Sane(i, cfg)
    ensures ReplyOf(a, i, cfg).Some? <==> i.keyReady && i.verified && i.decoded && !i.message.OtherMessage?
  {
  }

  /** Buffers are built for a QueryResponse, or an Error sent instead of one. */
  lemma {:induction false} ReplyKinds(a: Agent, i: Input, cfg: Config)
    requires Sane(i, cfg) && ReplyOf(a, i, cfg).Some?
    ensures !ReplyOf(a, i, cfg).value.QueryResponse? && !ReplyOf(a, i, cfg).value.Error? ==> BuiltFor(a, i, cfg) == []
  {
    if i.message.QueryRequest? { QueryNeverSucceeds(a.suit.table, i.message.query, cfg, i.message.env); }
  }

  /** A message leaks buffers exactly when it is a QueryRequest that gets as far as exporting a table of
      at least two records, and the first allocation for its tc-list succeeds but some later one does
      not. Then every buffer built until then stays allocated. */
  lemma {:induction false} LeaksIff(a: Agent, i: Input, cfg: Config)
    requires Sane(i, cfg)
    ensures Leaked(a, i, cfg) != [] <==>
      && i.keyReady && i.verified && i.decoded && i.message.QueryRequest?
      && ListReached(a.suit.table, i.message.query, cfg.lim, cfg.sha384, i.message.env) && 2 <= |a.suit.table|
      && i.message.env.listAlloc && AllExportable(a.suit.table, cfg.lim.nameMax)
      && i.message.env.itemAlloc(0) && exists k :: 0 < k < |a.suit.table| && !i.message.env.itemAlloc(k)
    ensures Leaked(a, i, cfg) != [] ==>
      && |Leaked(a, i, cfg)| == Built(i.message.env.itemAlloc, |a.suit.table|)
      && TcInfo.DecodeInfos(Leaked(a, i, cfg)) == Some(ItemsOf(a.suit.table)[..|Leaked(a, i, cfg)|])
  {
    hide ProcessQuery;
    if i.message.QueryRequest? {
      StrandedIff(a.suit.table, i.message.query, cfg.lim, cfg.sha384, i.message.env);
      BuffersHeld(a.suit.table, i.message.query, cfg.lim, cfg.sha384, i.message.env);
    }
  }

  lemma {:induction false} RequestedEncoding(app: Name)
    requires |app| < Cbor.LIMIT
    ensures Cbor.Encode(RequestedId(app)) == [] + (Cbor.Head(4, 1) + Cbor.Encode(Cbor.Bstr(app)))
  {
    TcInfo.OneItem(Cbor.Bstr(app));
  }

  // ------------------------------------------------------- unwritten messages

  /** Freeing these pointers one after the other; None when one of them is not live. */
  function FreeAll(h: Blocks, ptrs: seq<nat>): Option<Blocks> {
    if ptrs == [] then Some(h)
    else if ptrs[0] == 0 then FreeAll(h, ptrs[1..])
    else if ptrs[0] !in h then None
    else FreeAll(h - {ptrs[0]}, ptrs[1..])
  }

  /** The pointers are null, or live blocks that are all different. */
  predicate Freeable(h: Blocks, ptrs: seq<nat>) {
    && (forall i :: 0 <= i < |ptrs| && ptrs[i] != 0 ==> ptrs[i] in h)
    && (forall i, j :: 0 <= i < j < |ptrs| && ptrs[i] != 0 ==> ptrs[i] != ptrs[j])
  }

  lemma {:induction false} FreeAllIff(h: Blocks, ptrs: seq<nat>)
    requires 0 !in h
    ensures FreeAll(h, ptrs).Some? <==> Freeable(h, ptrs)
    ensures FreeAll(h, ptrs).Some? ==> FreeAll(h, ptrs).value == map p | p in h && p !in ptrs :: h[p]
    decreases |ptrs|
  {
    if ptrs != [] {
      var p, rest := ptrs[0], ptrs[1..];
      var h' := if p == 0 then h else h - {p};
      FreeAllIff(h', rest);
      assert forall q :: q in ptrs <==> q == p || q in rest;
      assert forall i :: 0 < i < |ptrs| ==> ptrs[i] == rest[i - 1];
      if Freeable(h, ptrs) {
        assert forall i :: 0 <= i < |rest| ==> rest[i] == ptrs[i + 1];
        assert Freeable(h', rest);
      }
    }
  }

  /** What the frees for an unwritten reply that looks like a QueryResponse do, given the pointers it
      happens to hold: they are defined exactly when the pointers are null or different live blocks, and
      then the records keep their buffers if and only if none of the pointers is one of them. */
  lemma {:induction false} UnwrittenFreesIff(rs: seq<Record>, h: Blocks, ptrs: seq<nat>)
    requires Wf(rs, h) && 0 !in h
    ensures FreeAll(h, ptrs).Some? <==> Freeable(h, ptrs)
    ensures FreeAll(h, ptrs).Some? ==>
      (Wf(rs, FreeAll(h, ptrs).value) <==> forall i :: 0 <= i < |ptrs| ==> ptrs[i] !in Held(rs))
  {
    FreeAllIff(h, ptrs);
    OwnedLive(rs, h);
    if FreeAll(h, ptrs).Some? {
      var h' := FreeAll(h, ptrs).value;
      if i :| 0 <= i < |ptrs| && ptrs[i] in Held(rs) {
        var k :| 0 <= k < |rs| && ptrs[i] in Ptrs(rs[k]);
        assert !RecordOk(rs[k], h');
      } else {
        forall k | 0 <= k < |rs|
          ensures RecordOk(rs[k], h')
        {
          forall p | p in Ptrs(rs[k])
            ensures p in h' && h'[p] == h[p]
          {
            assert p in Held(rs);
          }
        }
      }
    }
  }

  /** The list step succeeds. */
  predicate Listed(t: Table, lim: Limits, env: QueryEnv) {
    env.listAlloc && TcList(t, |t|, lim.nameMax).Some?
  }

  /** The tc-infos of a table that can be exported. */
  function Infos(t: Table, lim: Limits): (r: seq<Bytes>)
    requires lim.nameMax <= Cbor.LIMIT
    ensures TcList(t, |t|, lim.nameMax).Some? ==> |r| == |t|
  {
    if TcList(t, |t|, lim.nameMax).Some? then
      ListOk(t, lim.nameMax);
      TcInfo.EncodeInfos(TcList(t, |t|, lim.nameMax).value)
    else []
  }
}
