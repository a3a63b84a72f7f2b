/**
 * tc_manager.cpp as it works: a fixed array of records, an active length, and heap buffers owned by
 * the fields of the active records. Every operation is proved to compute the table function of
 * `TcTable` and to keep the ownership invariant, whatever allocations fail.
 */
module TcManagerCode {
  import opened Basics
  import opened Memory
  import opened TcTable
  import opened TcProperties

  datatype Record = Record(
    digest: UsefulBuf,
    manifestName: Name,
    seqNo: nat,
    manifestBin: UsefulBuf,
    wappName: Name,
    wappHash: Hash,
    wappBin: UsefulBuf)

  const ZERO_RECORD := Record(NULL_BUF, [], 0, NULL_BUF, [], ZERO_HASH, NULL_BUF)

  ghost function Ptrs(r: Record): set<nat> {
    {r.digest.ptr, r.manifestBin.ptr, r.wappBin.ptr} - {0}
  }

  ghost predicate RecordOk(r: Record, h: Blocks) {
    && BufOk(r.digest, h) && BufOk(r.manifestBin, h) && BufOk(r.wappBin, h)
    && (r.digest.ptr != 0 ==> r.digest.ptr != r.manifestBin.ptr && r.digest.ptr != r.wappBin.ptr)
    && (r.manifestBin.ptr != 0 ==> r.manifestBin.ptr != r.wappBin.ptr)
  }

  ghost function EntryOf(r: Record, h: Blocks): Entry
    requires RecordOk(r, h)
  {
    Entry(Content(r.digest, h), r.manifestName, r.seqNo, Content(r.manifestBin, h),
          r.wappName, r.wappHash, Content(r.wappBin, h))
  }

  /** Every buffer field is null or a live block, and no block is in two fields. */
  ghost predicate Wf(rs: seq<Record>, h: Blocks) {
    && (forall i :: 0 <= i < |rs| ==> RecordOk(rs[i], h))
    && (forall i, j :: 0 <= i < j < |rs| ==> Ptrs(rs[i]) !! Ptrs(rs[j]))
  }

  /** The blocks held by the fields of these records. */
  ghost function Held(rs: seq<Record>): set<nat> {
    set i, p | 0 <= i < |rs| && p in Ptrs(rs[i]) :: p
  }

  ghost function Entries(rs: seq<Record>, h: Blocks): (t: Table)
    requires Wf(rs, h)
    ensures |t| == |rs|
    ensures forall i :: 0 <= i < |rs| ==> t[i] == EntryOf(rs[i], h)
  {
    if rs == [] then []
    else
      var n := |rs| - 1;
      Entries(rs[..n], h) + [EntryOf(rs[n], h)]
  }

  // ------------------------------------------------- record updates, on values

  lemma {:induction false} DropLastRecord(rs: seq<Record>, h: Blocks)
    requires Wf(rs, h) && rs != []
    ensures var n := |rs| - 1;
      var h' := h - Ptrs(rs[n]);
      && RecordOk(rs[n], h) && Wf(rs[..n], h')
      && h' - Held(rs[..n]) == h - Held(rs)
      && Entries(rs[..n], h') == Entries(rs, h)[..n]
  {
    var n := |rs| - 1;
    var h' := h - Ptrs(rs[n]);
    forall k | 0 <= k < n
      ensures RecordOk(rs[k], h') && EntryOf(rs[k], h') == EntryOf(rs[k], h)
    {
      assert Ptrs(rs[k]) !! Ptrs(rs[n]);
    }
    SplitHeld(rs, n);
    assert rs[n + 1..] == [];
  }

  /** Record `i` may have had blocks freed and reallocated; the other records do not notice. */
  lemma {:induction false} OtherRecord(rs: seq<Record>, h: Blocks, i: nat, r: Record, h': Blocks, k: nat)
    requires Wf(rs, h) && i < |rs| && k < |rs| && k != i
    requires h' - Ptrs(r) == h - Ptrs(rs[i])
    ensures RecordOk(rs[k], h') && EntryOf(rs[k], h') == EntryOf(rs[k], h) && Ptrs(rs[k]) !! Ptrs(r)
  {
    assert Ptrs(rs[k]) !! Ptrs(rs[i]);
    forall p | p in Ptrs(rs[k])
      ensures p in h' && h'[p] == h[p] && p !in Ptrs(r)
    {
      assert p in h - Ptrs(rs[i]);
    }
  }

  lemma {:induction false} ReplaceHeld(rs: seq<Record>, h: Blocks, i: nat, r: Record, h': Blocks)
    requires i < |rs| && h' - Ptrs(r) == h - Ptrs(rs[i])
    ensures h' - Held(rs[i := r]) == h - Held(rs)
  {
    var rs' := rs[i := r];
    var others := Held(rs[..i]) + Held(rs[i + 1..]);
    SplitHeld(rs, i);
    SplitHeld(rs', i);
    assert rs'[..i] == rs[..i] && rs'[i + 1..] == rs[i + 1..];
    calc {
      h' - Held(rs');
      (h' - Ptrs(r)) - others;
      (h - Ptrs(rs[i])) - others;
      h - Held(rs);
    }
  }

  /** Replacing record `i` by one that holds its own blocks only. */
  lemma {:induction false} ReplaceRecord(rs: seq<Record>, h: Blocks, i: nat, r: Record, h': Blocks)
    requires Wf(rs, h) && i < |rs|
    requires RecordOk(r, h') && h' - Ptrs(r) == h - Ptrs(rs[i])
    ensures var rs' := rs[i := r];
      && Wf(rs', h')
      && h' - Held(rs') == h - Held(rs)
      && Entries(rs', h') == Entries(rs, h)[i := EntryOf(r, h')]
  {
    forall k | 0 <= k < |rs| && k != i
      ensures RecordOk(rs[k], h') && EntryOf(rs[k], h') == EntryOf(rs[k], h) && Ptrs(rs[k]) !! Ptrs(r)
    {
      OtherRecord(rs, h, i, r, h', k);
    }
    ReplaceHeld(rs, h, i, r, h');
  }

  /** Freeing one buffer of a record and storing a new one beside the other two. */
  lemma {:induction false} ReplaceField(x: UsefulBuf, y: UsefulBuf, b: UsefulBuf, b': UsefulBuf, h: Blocks, h': Blocks)
    requires 0 !in h && 0 !in h' && BufOk(x, h) && BufOk(y, h) && BufOk(b, h)
    requires b.ptr != 0 ==> b.ptr != x.ptr && b.ptr != y.ptr
    requires BufReplaced(b, b', h, h')
    ensures BufOk(x, h') && Content(x, h') == Content(x, h)
    ensures BufOk(y, h') && Content(y, h') == Content(y, h)
    ensures b'.ptr != 0 ==> b'.ptr != x.ptr && b'.ptr != y.ptr
    ensures h' - ({x.ptr, y.ptr, b'.ptr} - {0}) == h - ({x.ptr, y.ptr, b.ptr} - {0})
  {
    assert x.ptr != 0 ==> x.ptr in h - {b.ptr} && x.ptr in h' - {b'.ptr};
    assert y.ptr != 0 ==> y.ptr in h - {b.ptr} && y.ptr in h' - {b'.ptr};
    assert h' - ({x.ptr, y.ptr, b'.ptr} - {0}) == (h' - {b'.ptr}) - ({x.ptr, y.ptr} - {0});
    assert h - ({x.ptr, y.ptr, b.ptr} - {0}) == (h - {b.ptr}) - ({x.ptr, y.ptr} - {0});
  }

  /** `b` was freed and `b'` is null or a new block. */
  ghost predicate BufReplaced(b: UsefulBuf, b': UsefulBuf, h: Blocks, h': Blocks) {
    && BufOk(b', h')
    && b'.ptr !in h - {b.ptr}
    && h' - {b'.ptr} == h - {b.ptr}
  }

  lemma {:induction false} SplitHeld(rs: seq<Record>, i: nat)
    requires i < |rs|
    ensures Held(rs) == Ptrs(rs[i]) + (Held(rs[..i]) + Held(rs[i + 1..]))
  {
    forall p
      ensures p in Held(rs) <==> p in Ptrs(rs[i]) + (Held(rs[..i]) + Held(rs[i + 1..]))
    {
      if p in Held(rs) {
        var k :| 0 <= k < |rs| && p in Ptrs(rs[k]);
        if k < i { assert p in Ptrs(rs[..i][k]); }
        if k > i { assert p in Ptrs(rs[i + 1..][k - i - 1]); }
      }
      if p in Held(rs[i + 1..]) {
        var k :| 0 <= k < |rs[i + 1..]| && p in Ptrs(rs[i + 1..][k]);
        assert p in Ptrs(rs[k + i + 1]);
      }
      if p in Held(rs[..i]) {
        var k :| 0 <= k < |rs[..i]| && p in Ptrs(rs[..i][k]);
        assert p in Ptrs(rs[k]);
      }
    }
  }

  lemma {:induction false} AppendBlank(rs: seq<Record>, h: Blocks)
    requires Wf(rs, h)
    ensures var rs' := rs + [ZERO_RECORD];
      && Wf(rs', h) && Held(rs') == Held(rs) && Entries(rs', h) == Entries(rs, h) + [Blank([])]
  {
    var rs' := rs + [ZERO_RECORD];
    assert rs'[..|rs|] == rs && rs'[|rs| + 1..] == [];
    SplitHeld(rs', |rs|);
  }

  lemma {:induction false} RecordAt(rs: seq<Record>, h: Blocks, i: nat)
    requires Wf(rs, h) && i < |rs|
    ensures RecordOk(rs[i], h) && Entries(rs, h)[i] == EntryOf(rs[i], h)
  {
  }

  lemma {:induction false} OwnedLive(rs: seq<Record>, h: Blocks)
    requires Wf(rs, h)
    ensures forall p :: p in Held(rs) ==> p in h && p != 0
  {
  }

  /** Adding or removing a block the table does not hold leaves the table as it was. */
  lemma {:induction false} BesideTable(rs: seq<Record>, h: Blocks, p: nat, h': Blocks)
    requires Wf(rs, h) && p !in Held(rs) && h' - {p} == h - {p}
    ensures Wf(rs, h') && Entries(rs, h') == Entries(rs, h)
    ensures h' - Held(rs) - {p} == h - Held(rs) - {p}
  {
    forall k | 0 <= k < |rs|
      ensures RecordOk(rs[k], h') && EntryOf(rs[k], h') == EntryOf(rs[k], h)
    {
      forall q | q in Ptrs(rs[k])
        ensures q in h' && h'[q] == h[q]
      {
        assert q in Held(rs);
        assert q in h - {p};
      }
    }
    assert h' - Held(rs) - {p} == (h' - {p}) - Held(rs);
    assert h - Held(rs) - {p} == (h - {p}) - Held(rs);
  }

  // ---------------------------------------------------------------- the class

  class TcManager {
    const heap: Heap
    const sha: DigestFunction
    const slots: array<Record>
    var len: nat

    /** The ownership invariant: buffers of active records are live and not shared, and the slots
        past the active length are all zero. */
    ghost predicate Shape()
      reads this, slots, heap
    {
      && heap.Valid()
      && slots.Length == MAX_RECORDS && len <= MAX_RECORDS
      && Wf(slots[..len], heap.blocks)
      && forall i :: len <= i < MAX_RECORDS ==> slots[i] == ZERO_RECORD
    }

    ghost function Contents(): Table
      requires Shape()
      reads this, slots, heap
    {
      Entries(slots[..len], heap.blocks)
    }

    ghost predicate Valid()
      reads this, slots, heap
    {
      Shape() && Inv(Contents())
    }

    /** The heap blocks held by the table. */
    ghost function Owned(): set<nat>
      requires Shape()
      reads this, slots, heap
    {
      Held(slots[..len])
    }

    /** Everything on the heap that the table does not hold. */
    ghost function Rest(): Blocks
      requires Shape()
      reads this, slots, heap
    {
      heap.blocks - Owned()
    }

    constructor (heap: Heap, sha: DigestFunction)
      requires heap.Valid()
      ensures Valid() && this.heap == heap && this.sha == sha && fresh(slots)
      ensures Contents() == [] && Rest() == heap.blocks
    {
      this.heap := heap;
      this.sha := sha;
      slots := new Record[MAX_RECORDS](_ => ZERO_RECORD);
      len := 0;
    }

    // -------------------------------------------------------------- searches

    method FindByDigest(d: Bytes) returns (r: Option<nat>)
      requires Shape()
      ensures r == FindDigest(Contents(), d)
    {
      if d == [] {
        return None;
      }
      var i := 0;
      while i < len
        invariant i <= len
        invariant forall k :: 0 <= k < i ==> Contents()[k].digest != d
      {
        var b := slots[i].digest;
        assert slots[i] == slots[..len][i];
        if b.ptr != 0 && b.len == |d| && heap.blocks[b.ptr] == d {
          return Some(i);
        }
        i := i + 1;
      }
      r := None;
    }

    method FindByName(name: Name, skip: int) returns (r: Option<nat>)
      requires Shape()
      ensures r == FindName(Contents(), name, skip)
    {
      if name == [] {
        return None;
      }
      var i := 0;
      while i < len
        invariant i <= len
        invariant forall k :: 0 <= k < i && k != skip ==> Contents()[k].wappName != name
      {
        assert slots[i] == slots[..len][i];
        if i != skip && slots[i].wappName != [] && slots[i].wappName == name {
          return Some(i);
        }
        i := i + 1;
      }
      r := None;
    }

    // ---------------------------------------------------------------- store

    /** manifest_records_alloc, when a slot is free. */
    method Alloc() returns (i: nat)
      requires Shape() && len < MAX_RECORDS
      modifies this
      ensures Shape() && i == old(len) && len == i + 1
      ensures Contents() == old(Contents()) + [Blank([])] && Rest() == old(Rest())
    {
      AppendBlank(slots[..len], heap.blocks);
      assert slots[..len + 1] == slots[..len] + [ZERO_RECORD];
      i := len;
      len := len + 1;
    }

    method StoreRecord(a: StoreArgs, env: StoreEnv) returns (rc: int)
      requires Valid()
      modifies this, slots, heap
      ensures Valid() && Rest() == old(Rest())
      ensures Contents() == Store(old(Contents()), a, env, sha).table
      ensures rc == if Store(old(Contents()), a, env, sha).ok then 0 else -1
    {
      StoreFrame(Contents(), a, env, sha);
      if !a.isStore {
        return -1;
      }
      rc := FindAndWrite(a, env);
    }

    method FindAndWrite(a: StoreArgs, env: StoreEnv) returns (rc: int)
      requires Shape() && a.isStore
      modifies this, slots, heap
      ensures Shape() && Rest() == old(Rest())
      ensures Contents() == Store(old(Contents()), a, env, sha).table
      ensures rc == if Store(old(Contents()), a, env, sha).ok then 0 else -1
    {
      ghost var t := Contents();
      var at := FindByDigest(a.digest);
      if at == None {
        at := NewRecord(a.digest, env.digestAlloc);
        if at == None {
          return -1;
        }
        Appended(t, Blank(a.digest), WriteFields(Blank(a.digest), a, env, sha));
      }
      var ok := WriteRecord(at.value, a, env);
      rc := if ok then 0 else -1;
    }

    method WriteRecord(i: nat, a: StoreArgs, env: StoreEnv) returns (ok: bool)
      requires Shape() && i < len
      modifies slots, heap
      ensures Shape() && Rest() == old(Rest())
      ensures Contents() == old(Contents())[i := WriteFields(old(Contents())[i], a, env, sha)]
      ensures ok == (a.src == [] || env.binAlloc)
    {
      if a.isManifest {
        ok := SetManifest(i, a, env);
      } else {
        ok := SetPayload(i, a, env);
      }
    }

    /** A slot for a digest not yet in the table, or nothing. */
    method NewRecord(d: Bytes, alloc: bool) returns (r: Option<nat>)
      requires Shape()
      modifies this, slots, heap
      ensures Shape() && Rest() == old(Rest())
      ensures r == if old(len) < MAX_RECORDS && d != [] && alloc then Some(old(len)) else None
      ensures Contents() == if r.Some? then old(Contents()) + [Blank(d)] else old(Contents())
    {
      if len >= MAX_RECORDS {
        return None;
      }
      ghost var t := Contents();
      var i := Alloc();
      if d == [] {
        RemoveRecordAt(i);
        assert RemoveAt(t + [Blank([])], i) == t;
        return None;
      }
      var stored := SetDigest(i, d, alloc);
      if !stored {
        RemoveRecordAt(i);
        assert RemoveAt(t + [Blank([])], i) == t;
        return None;
      }
      assert (t + [Blank([])])[i := Blank(d)] == t + [Blank(d)];
      r := Some(i);
    }

    method SetDigest(i: nat, d: Bytes, alloc: bool) returns (ok: bool)
      requires Shape() && i < len && slots[i] == ZERO_RECORD && d != []
      modifies slots, heap
      ensures Shape() && Rest() == old(Rest()) && ok == alloc
      ensures Contents() == if ok then old(Contents())[i := Blank(d)] else old(Contents())
    {
      ghost var rs, h := slots[..len], heap.blocks;
      var p := heap.Duplicate(d, alloc);
      ok := p != 0;
      if ok {
        slots[i] := slots[i].(digest := UsefulBuf(p, |d|));
        assert slots[..len] == rs[i := slots[i]];
        assert heap.blocks - {p} == h;
        ReplaceRecord(rs, h, i, slots[i], heap.blocks);
      }
    }

    /** Free the old buffer, if any, and copy the new contents, if any. */
    method RefreshBuf(b: UsefulBuf, src: Bytes, alloc: bool) returns (b': UsefulBuf, ok: bool)
      requires heap.Valid() && BufOk(b, heap.blocks)
      modifies heap
      ensures heap.Valid() && BufReplaced(b, b', old(heap.blocks), heap.blocks)
      ensures Content(b', heap.blocks) == if alloc then src else []
      ensures ok == (src == [] || alloc)
    {
      FreeBuf(b);
      b', ok := NULL_BUF, true;
      if src != [] {
        var p := heap.Duplicate(src, alloc);
        if p != 0 {
          b' := UsefulBuf(p, |src|);
        } else {
          ok := false;
        }
      }
    }

    method SetManifest(i: nat, a: StoreArgs, env: StoreEnv) returns (ok: bool)
      requires Shape() && i < len && a.isManifest
      modifies slots, heap
      ensures Shape() && Rest() == old(Rest())
      ensures Contents() == old(Contents())[i := WriteFields(old(Contents())[i], a, env, sha)]
      ensures ok == (a.src == [] || env.binAlloc)
    {
      hide Wf, Entries, Held, NameAfter;
      ghost var rs, h := slots[..len], heap.blocks;
      RecordAt(rs, h, i);
      var r := slots[i];
      assert r == rs[i];
      r := r.(seqNo := a.seqNo, manifestName := NameAfter(r.manifestName, a.dst));
      var bin;
      bin, ok := RefreshBuf(r.manifestBin, a.src, env.binAlloc);
      ReplaceField(r.digest, r.wappBin, r.manifestBin, bin, h, heap.blocks);
      slots[i] := r.(manifestBin := bin);
      assert slots[..len] == rs[i := slots[i]];
      assert Ptrs(slots[i]) == {r.digest.ptr, r.wappBin.ptr, bin.ptr} - {0};
      ReplaceRecord(rs, h, i, slots[i], heap.blocks);
    }

    method SetPayload(i: nat, a: StoreArgs, env: StoreEnv) returns (ok: bool)
      requires Shape() && i < len && !a.isManifest
      modifies slots, heap
      ensures Shape() && Rest() == old(Rest())
      ensures Contents() == old(Contents())[i := WriteFields(old(Contents())[i], a, env, sha)]
      ensures ok == (a.src == [] || env.binAlloc)
    {
      hide Wf, Entries, Held, NameAfter, HashAfter;
      ghost var rs, h := slots[..len], heap.blocks;
      RecordAt(rs, h, i);
      var r := slots[i];
      assert r == rs[i];
      r := r.(wappName := NameAfter(r.wappName, a.dst));
      var bin;
      bin, ok := RefreshBuf(r.wappBin, a.src, env.binAlloc);
      ReplaceField(r.digest, r.manifestBin, r.wappBin, bin, h, heap.blocks);
      if bin.ptr != 0 {
        r := r.(wappHash := HashAfter(a.src, env.hashFault, sha));
      }
      slots[i] := r.(wappBin := bin);
      assert slots[..len] == rs[i := slots[i]];
      assert Ptrs(slots[i]) == {r.digest.ptr, r.manifestBin.ptr, bin.ptr} - {0};
      ReplaceRecord(rs, h, i, slots[i], heap.blocks);
    }

    // ------------------------------------------------------ remove and merge

    method FreeBuf(b: UsefulBuf)
      requires heap.Valid() && (b.ptr != 0 ==> b.ptr in heap.blocks)
      modifies heap
      ensures heap.Valid() && heap.blocks == old(heap.blocks) - {b.ptr}
    {
      if b.ptr != 0 {
        heap.Free(b.ptr);
      }
    }

    method FreeRecord(r: Record)
      requires heap.Valid() && RecordOk(r, heap.blocks)
      modifies heap
      ensures heap.Valid() && heap.blocks == old(heap.blocks) - Ptrs(r)
    {
      FreeBuf(r.digest);
      FreeBuf(r.manifestBin);
      FreeBuf(r.wappBin);
    }

    method SwapRecords(i: nat, j: nat)
      requires Shape() && i < len && j < len
      modifies slots
      ensures Shape() && Rest() == old(Rest())
      ensures Contents() == Swap(old(Contents()), i, j)
    {
      hide Wf, Entries, RecordOk, Ptrs, Held;
      ghost var rs := slots[..len];
      SwapHeld(rs, heap.blocks, i, j);
      slots[i], slots[j] := slots[j], slots[i];
      assert slots[..len] == rs[j := rs[i]][i := rs[j]];
    }

    /** Free and zero the last active record. */
    method DropLast()
      requires Shape() && len > 0
      modifies this, slots, heap
      ensures Shape() && Rest() == old(Rest())
      ensures len == old(len) - 1 && Contents() == old(Contents())[..len]
    {
      hide Wf, RecordOk, Ptrs, Held, Entries;
      ghost var rs, h := slots[..len], heap.blocks;
      var last := len - 1;
      var gone := slots[last];
      assert gone == rs[last];
      DropLastRecord(rs, h);
      FreeRecord(gone);
      slots[last] := ZERO_RECORD;
      len := last;
      assert slots[..last] == rs[..last];
    }

    /** manifest_record_remove_at; nothing happens for an index that is not active. */
    method RemoveRecordAt(i: nat)
      requires Shape()
      modifies this, slots, heap
      ensures Shape() && Rest() == old(Rest())
      ensures Contents() == if i < old(len) then RemoveAt(old(Contents()), i) else old(Contents())
      ensures len == if i < old(len) then old(len) - 1 else old(len)
    {
      if i >= len {
        return;
      }
      ghost var t := Contents();
      var last := len - 1;
      if i != last {
        SwapRecords(i, last);
      }
      assert Contents()[..last] == RemoveAt(t, i);
      DropLast();
    }

    method UpdateOrDiscardRecord(i: nat)
      requires Shape() && i < len
      modifies this, slots, heap
      ensures Shape() && Rest() == old(Rest())
      ensures Contents() == UpdateOrDiscard(old(Contents()), i)
    {
      hide Wf, RecordOk, Ptrs, Held;
      assert slots[i] == slots[..len][i];
      var rival := FindByName(slots[i].wappName, i);
      match rival {
        case None =>
        case Some(j) =>
          assert slots[j] == slots[..len][j];
          if slots[j].seqNo <= slots[i].seqNo {
            SwapRecords(i, j);
            RemoveRecordAt(i);
          } else {
            RemoveRecordAt(i);
          }
      }
    }

    /** tc_manager_check_and_update_record */
    method CheckAndUpdate(d: Bytes) returns (rc: int)
      requires Valid()
      modifies this, slots, heap
      ensures Valid() && Rest() == old(Rest())
      ensures Contents() == Finalise(old(Contents()), d).table
      ensures rc == if Finalise(old(Contents()), d).ok then 0 else -1
    {
      FinaliseFrame(Contents(), d);
      var found := FindByDigest(d);
      match found {
        case None =>
          return -1;
        case Some(i) =>
          var r := slots[i];
          assert r == slots[..len][i];
          if r.manifestName == [] || r.wappName == [] || r.manifestBin.ptr == 0 || r.wappBin.ptr == 0 {
            RemoveRecordAt(i);
            return -1;
          }
          UpdateOrDiscardRecord(i);
          return 0;
      }
    }

    method RemoveAll()
      requires Valid()
      modifies this, slots, heap
      ensures Valid() && Contents() == []
      ensures heap.blocks == old(Rest())
    {
      while len > 0
        invariant Shape() && Rest() == old(Rest())
        decreases len
      {
        RemoveRecordAt(0);
      }
      assert Rest() == heap.blocks;
    }

    // ---------------------------------------------------------------- export

    method ExportRecord(i: nat, nameMax: nat) returns (item: Option<TcItem>)
      requires Shape() && i < len
      ensures item == if Exportable(Contents()[i], nameMax) then Some(ItemOf(Contents()[i])) else None
    {
      var r := slots[i];
      assert r == slots[..len][i];
      if r.manifestName == [] || r.wappName == [] || r.manifestBin.ptr == 0 || r.wappBin.ptr == 0
         || |r.wappName| >= nameMax {
        return None;
      }
      return Some(TcItem(r.wappName, r.wappHash));
    }

    /** The export loop: all records, or failure at the first that cannot be exported. */
    method FillItems(out: array<TcItem>, nameMax: nat) returns (ok: bool)
      requires Shape() && len <= out.Length
      requires out as object != this && out as object != slots && out as object != heap
      modifies out
      ensures Shape() && Contents() == old(Contents())
      ensures ok <==> AllExportable(Contents(), nameMax)
      ensures ok ==> forall k :: 0 <= k < len ==> out[k] == ItemOf(Contents()[k])
    {
      hide Wf, RecordOk, Ptrs, Held;
      ghost var t := Contents();
      var i := 0;
      while i < len
        invariant i <= len
        invariant Shape() && Contents() == t
        invariant forall k :: 0 <= k < i ==> Exportable(t[k], nameMax)
        invariant forall k :: 0 <= k < i ==> out[k] == ItemOf(t[k])
      {
        var item := ExportRecord(i, nameMax);
        if item == None {
          return false;
        }
        out[i] := item.value;
        i := i + 1;
      }
      return true;
    }

    /** tc_manager_get_tc_list */
    method GetTcList(out: array?<TcItem>, capacity: nat, nameMax: nat) returns (rc: int, count: nat)
      requires Shape() && (out != null ==> capacity <= out.Length)
      requires out as object? != this && out as object? != slots && out as object? != heap
      modifies if out == null then {} else {out}
      ensures Shape() && Contents() == old(Contents())
      ensures rc == if out != null && TcList(Contents(), capacity, nameMax).Some? then 0 else -1
      ensures rc == 0 ==> count <= out.Length && out[..count] == TcList(Contents(), capacity, nameMax).value
      ensures rc != 0 ==> count == 0
    {
      if capacity == 0 || out == null {
        return -1, 0;
      }
      if len == 0 {
        return 0, 0;
      }
      if capacity < len {
        return -1, 0;
      }
      var ok := FillItems(out, nameMax);
      if ok {
        assert out[..len] == ItemsOf(Contents());
        return 0, len;
      }
      return -1, 0;
    }
  }

  lemma {:induction false} Appended(t: Table, e: Entry, e': Entry)
    ensures (t + [e])[|t|] == e && (t + [e])[|t| := e'] == t + [e']
  {
  }

  lemma {:induction false} SwapHeld(rs: seq<Record>, h: Blocks, i: nat, j: nat)
    requires Wf(rs, h) && i < |rs| && j < |rs|
    ensures var rs' := rs[j := rs[i]][i := rs[j]];
      && Wf(rs', h) && Held(rs') == Held(rs) && Entries(rs', h) == Swap(Entries(rs, h), i, j)
  {
    var rs' := rs[j := rs[i]][i := rs[j]];
    forall p
      ensures p in Held(rs') <==> p in Held(rs)
    {
      if p in Held(rs) {
        var k :| 0 <= k < |rs| && p in Ptrs(rs[k]);
        assert p in Ptrs(rs'[if k == i then j else if k == j then i else k]);
      }
    }
  }
}
