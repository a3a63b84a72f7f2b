/** suit_processor_wrapper.cpp as it works: callbacks that update the record table and the captured
    report, which is a heap buffer of its own. */
module SuitProcessorCode {
  import opened Basics
  import opened Memory
  import opened TcTable
  import opened TcProperties
  import opened TcManagerCode
  import opened Suit

  /** suit_callback_ret_t */
  class ConditionRet {
    var notes: Notes

    constructor ()
      ensures notes == NO_NOTES
    {
      notes := NO_NOTES;
    }
  }

  class SuitProcessor {
    const tcm: TcManager
    var report: UsefulBuf

    ghost predicate Objects()
      reads this
    {
      && tcm as object != this && tcm.heap as object != this && tcm.heap as object != tcm
      && tcm.slots as object != this && tcm.slots as object != tcm && tcm.slots as object != tcm.heap
    }

    ghost predicate Valid()
      reads this, tcm, tcm.slots, tcm.heap
    {
      && Objects() && tcm.Valid()
      && BufOk(report, tcm.heap.blocks) && report.ptr !in tcm.Owned()
    }

    ghost function Current(): State
      requires Valid()
      reads this, tcm, tcm.slots, tcm.heap
    {
      State(tcm.Contents(), Content(report, tcm.heap.blocks))
    }

    /** The heap without the blocks of the table and of the captured report. */
    ghost function Elsewhere(): Blocks
      requires tcm.Shape()
      reads this, tcm, tcm.slots, tcm.heap
    {
      tcm.Rest() - {report.ptr}
    }

    constructor (tcm: TcManager)
      requires tcm.Valid() && tcm.heap as object != tcm
      requires tcm.slots as object != tcm && tcm.slots as object != tcm.heap
      ensures Valid() && this.tcm == tcm && Current() == State(tcm.Contents(), [])
    {
      this.tcm := tcm;
      report := NULL_BUF;
      new;
      OwnedLive(tcm.slots[..tcm.len], tcm.heap.blocks);
    }

    /** A change of the table only. */
    twostate lemma TableOnly()
      requires old(Valid()) && Objects() && tcm.Valid() && report == old(report)
      requires tcm.Rest() == old(tcm.Rest())
      ensures Valid() && Current() == old(Current()).(table := tcm.Contents())
      ensures Elsewhere() == old(Elsewhere())
    {
      OwnedLive(tcm.slots[..tcm.len], tcm.heap.blocks);
      var p := report.ptr;
      if p != 0 {
        assert p in old(tcm.Rest()) && old(tcm.Rest())[p] == old(tcm.heap.blocks)[p];
        assert p in tcm.Rest() && tcm.Rest()[p] == tcm.heap.blocks[p];
      }
    }

    /** A change of one heap block that neither the table nor the report holds. */
    twostate lemma OtherBlock(p: nat)
      requires old(Valid()) && Objects() && tcm.heap.Valid() && report == old(report)
      requires tcm.len == old(tcm.len) && tcm.slots[..] == old(tcm.slots[..])
      requires p !in old(tcm.Owned()) && p != report.ptr
      requires tcm.heap.blocks - {p} == old(tcm.heap.blocks) - {p}
      ensures Valid() && Current() == old(Current()) && tcm.Owned() == old(tcm.Owned())
      ensures Elsewhere() - {p} == old(Elsewhere()) - {p}
      ensures p in tcm.heap.blocks ==> p in Elsewhere() && Elsewhere()[p] == tcm.heap.blocks[p]
      ensures p !in tcm.heap.blocks ==> p !in Elsewhere()
    {
      var rs, h, h' := tcm.slots[..tcm.len], old(tcm.heap.blocks), tcm.heap.blocks;
      assert rs == old(tcm.slots[..tcm.len]) by { assert rs == tcm.slots[..][..tcm.len]; }
      BesideTable(rs, h, p, h');
      assert tcm.Shape();
      var q := report.ptr;
      if q != 0 {
        assert q in h - {p} && q in h' - {p};
      }
      assert h' - Held(rs) - {q} - {p} == h' - Held(rs) - {p} - {q};
      assert h - Held(rs) - {q} - {p} == h - Held(rs) - {p} - {q};
    }

    /** __wrap_suit_store_callback */
    method StoreCallback(a: StoreArgs, env: StoreEnv) returns (err: SuitErr)
      requires Valid()
      modifies tcm, tcm.slots, tcm.heap
      ensures Valid() && Elsewhere() == old(Elsewhere())
      ensures Step(Current(), err) == Call(old(Current()), StoreCall(a, env), tcm.sha)
    {
      if a.isStore {
        var rc := tcm.StoreRecord(a, env);
        TableOnly();
        if rc != 0 {
          return SUIT_FATAL;
        }
      }
      return SUIT_SUCCESS;
    }

    /** __wrap_suit_condition_callback */
    method ConditionCallback(digest: Bytes, c: Option<ImageMatch>, ret: ConditionRet?) returns (err: SuitErr)
      requires Valid()
      modifies if ret == null then {} else {ret}
      ensures Valid() && Current() == old(Current()) && Elsewhere() == old(Elsewhere())
      ensures err == if ret == null then SUIT_INVALID_VALUE else Condition(tcm.Contents(), digest, c)
      ensures ret != null ==> ret.notes == Noted(tcm.Contents(), digest, c, old(ret.notes))
    {
      if ret == null {
        return SUIT_INVALID_VALUE;
      }
      var found := tcm.FindByDigest(digest);
      if found == None {
        ret.notes := ret.notes.(reason := Some(COMPONENT_UNSUPPORTED));
        return SUIT_FATAL;
      }
      var r := tcm.slots[found.value];
      assert r == tcm.slots[..tcm.len][found.value];
      err := SUIT_SUCCESS;
      if c.Some? {
        err := MatchImage(r, c.value, ret);
      }
    }

    /** The image-match condition on a record of the table. */
    method MatchImage(r: Record, m: ImageMatch, ret: ConditionRet) returns (err: SuitErr)
      requires Valid() && RecordOk(r, tcm.heap.blocks)
      requires Lookup(tcm.Contents(), Content(r.digest, tcm.heap.blocks)) == Some(EntryOf(r, tcm.heap.blocks))
      modifies ret
      ensures Valid() && Current() == old(Current()) && Elsewhere() == old(Elsewhere())
      ensures err == Condition(tcm.Contents(), Content(r.digest, tcm.heap.blocks), Some(m))
      ensures ret.notes == Noted(tcm.Contents(), Content(r.digest, tcm.heap.blocks), Some(m), old(ret.notes))
    {
      hide SuitProcessor.Elsewhere, SuitProcessor.Current, SuitProcessor.Valid, TcManager.Shape, TcManager.Contents,
          Lookup, Wf;
      var size := r.wappBin.len;
      if size == 0 {
        ret.notes := ret.notes.(reason := Some(COMPONENT_UNSUPPORTED));
        return SUIT_CONDITION_MISMATCH;
      }
      if m.size != 0 && size != m.size {
        ret.notes := ret.notes.(key0 := Some(IMAGE_SIZE), reason := Some(CONDITION_FAILED));
        return SUIT_CONDITION_MISMATCH;
      }
      if m.digest == None {
        ret.notes := ret.notes.(reason := Some(CBOR_UNPARSABLE));
        return SUIT_CBOR_PARSE;
      }
      var d := m.digest.value;
      if !d.isSha256 || |d.bytes| != HASH_LEN {
        ret.notes := ret.notes.(reason := Some(COMPONENT_UNSUPPORTED));
        return SUIT_NOT_IMPLEMENTED;
      }
      ret.notes := ret.notes.(key0 := Some(IMAGE_SIZE), key1 := Some(IMAGE_DIGEST));
      if d.bytes != r.wappHash {
        ret.notes := ret.notes.(reason := Some(CONDITION_FAILED));
        return SUIT_CONDITION_MISMATCH;
      }
      return SUIT_SUCCESS;
    }

    /** suit_clear_report_internal */
    method ClearReport()
      requires Valid()
      modifies this, tcm.heap
      ensures Valid() && report == NULL_BUF && Current() == old(Current()).(report := [])
      ensures Elsewhere() == old(Elsewhere())
    {
      hide Wf, Entries, RecordOk, Ptrs, Held;
      ghost var rs, h := tcm.slots[..tcm.len], tcm.heap.blocks;
      ghost var p := report.ptr;
      OwnedLive(rs, h);
      if report.ptr != 0 {
        tcm.heap.Free(report.ptr);
      }
      assert tcm.heap.blocks - {p} == h - {p};
      BesideTable(rs, h, p, tcm.heap.blocks);
      report := NULL_BUF;
      assert tcm.heap.blocks - Held(rs) - {0} == tcm.heap.blocks - Held(rs) - {p};
    }

    /** __wrap_suit_report_callback */
    method ReportCallback(r: Bytes, alloc: bool) returns (err: SuitErr)
      requires Valid()
      modifies this, tcm.heap
      ensures Valid() && Elsewhere() == old(Elsewhere())
      ensures Step(Current(), err) == Call(old(Current()), ReportCall(r, alloc), tcm.sha)
    {
      hide SuitProcessor.Elsewhere, SuitProcessor.Valid, SuitProcessor.Current;
      if r == [] {
        return SUIT_SUCCESS;
      }
      ClearReport();
      var ok := CopyReport(r, alloc);
      err := if ok then SUIT_SUCCESS else SUIT_NO_MEMORY;
    }

    method CopyReport(r: Bytes, alloc: bool) returns (ok: bool)
      requires Valid() && report == NULL_BUF && r != []
      modifies this, tcm.heap
      ensures Valid() && Elsewhere() == old(Elsewhere()) && ok == alloc
      ensures Current() == old(Current()).(report := if ok then r else [])
    {
      hide Wf, Entries, RecordOk, Ptrs, Held;
      ghost var rs, h := tcm.slots[..tcm.len], tcm.heap.blocks;
      OwnedLive(rs, h);
      var p := tcm.heap.Duplicate(r, alloc);
      ok := p != 0;
      if ok {
        assert tcm.heap.blocks - {p} == h - {p} == h;
        BesideTable(rs, h, p, tcm.heap.blocks);
        report := UsefulBuf(p, |r|);
        assert h - Held(rs) - {p} == h - Held(rs) - {0};
      }
    }

    method Callback(c: Callback) returns (err: SuitErr)
      requires Valid()
      modifies this, tcm, tcm.slots, tcm.heap
      ensures Valid() && Elsewhere() == old(Elsewhere())
      ensures Step(Current(), err) == Call(old(Current()), c, tcm.sha)
    {
      match c {
        case StoreCall(a, env) => err := StoreCallback(a, env);
        case ConditionCall(d, m) =>
          var ret := new ConditionRet();
          err := ConditionCallback(d, m, ret);
        case ReportCall(r, alloc) => err := ReportCallback(r, alloc);
        case InvokeCall => err := SUIT_SUCCESS;
      }
    }

    /** suit_process_envelope, as the library drives the callbacks. */
    method Process(e: Envelope) returns (ok: bool)
      requires Valid()
      modifies this, tcm, tcm.slots, tcm.heap
      ensures Valid() && Elsewhere() == old(Elsewhere())
      ensures EnvelopeResult(Current(), ok) == ProcessEnvelope(old(Current()), e, tcm.sha)
    {
      var err := RunCallbacks(e.calls);
      ok := err == SUIT_SUCCESS && !e.fails;
      if e.closing.Some? && e.closing.value.ReportCall? {
        var last := ReportCallback(e.closing.value.report, e.closing.value.alloc);
        ok := ok && last == SUIT_SUCCESS;
      }
    }

    method RunCallbacks(calls: seq<Callback>) returns (err: SuitErr)
      requires Valid()
      modifies this, tcm, tcm.slots, tcm.heap
      ensures Valid() && Elsewhere() == old(Elsewhere())
      ensures Step(Current(), err) == Calls(old(Current()), calls, tcm.sha)
    {
      var i := 0;
      err := SUIT_SUCCESS;
      while i < |calls|
        invariant i <= |calls| && Valid() && Elsewhere() == old(Elsewhere())
        invariant Calls(Current(), calls[i..], tcm.sha) == Calls(old(Current()), calls, tcm.sha)
        invariant err == SUIT_SUCCESS
      {
        assert calls[i..][0] == calls[i] && calls[i..][1..] == calls[i + 1..];
        err := Callback(calls[i]);
        if err != SUIT_SUCCESS {
          return;
        }
        i := i + 1;
      }
    }
  }
}
