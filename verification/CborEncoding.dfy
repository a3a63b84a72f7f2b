/**
 * An encode context over a region of a buffer, or over no buffer at all to compute a size. The head of
 * an array, map or wrapped byte string is inserted when it is closed, before what it encloses.
 */
module CborEncoding {
  import opened Basics
  import opened Cbor

  /** memmove within a buffer: open a gap of |bytes| at `at` and fill it. */
  method InsertInto(buf: array<byte>, at: nat, end: nat, bytes: Bytes)
    requires at <= end && end + |bytes| <= buf.Length
    modifies buf
    ensures forall k :: 0 <= k < at || end + |bytes| <= k < buf.Length ==> buf[k] == old(buf[k])
    ensures forall k :: at <= k < at + |bytes| ==> buf[k] == bytes[k - at]
    ensures forall k :: at + |bytes| <= k < end + |bytes| ==> buf[k] == old(buf[k - |bytes|])
  {
    forall k | at <= k < end {
      buf[k + |bytes|] := buf[k];
    }
    forall k | 0 <= k < |bytes| {
      buf[at + k] := bytes[k];
    }
  }

  class Encoder {
    const buf: array?<byte>
    const start: nat
    const cap: nat
    var size: nat
    var failed: bool
    ghost var log: Bytes

    /** `log` is everything encoded so far; the buffer holds it as long as it fits, and the context
        has failed exactly when it does not. Without a buffer nothing fails. */
    ghost predicate Valid()
      reads this, if buf == null then {} else {buf}
    {
      && size == |log|
      && (buf == null ==> !failed)
      && (buf != null ==>
            && start + cap <= buf.Length
            && (failed <==> |log| > cap)
            && (!failed ==> forall k :: start <= k < start + size ==> buf[k] == log[k - start]))
    }

    constructor (buf: array?<byte>, start: nat, cap: nat)
      requires buf != null ==> start + cap <= buf.Length
      ensures Valid() && log == [] && this.buf == buf && this.start == start && this.cap == cap
    {
      this.buf, this.start, this.cap := buf, start, cap;
      size, failed, log := 0, false, [];
    }

    twostate predicate OutsideKept()
      reads this, if buf == null then {} else {buf}
    {
      buf != null ==> forall k :: 0 <= k < buf.Length && !(start <= k < start + cap) ==> buf[k] == old(buf[k])
    }

    method Insert(at: nat, bytes: Bytes)
      requires Valid() && at <= size
      modifies this, if buf == null then {} else {buf}
      ensures Valid() && log == old(log)[..at] + bytes + old(log)[at..]
      ensures OutsideKept()
    {
      log := log[..at] + bytes + log[at..];
      if buf != null && !failed {
        if size + |bytes| > cap {
          failed := true;
        } else {
          InsertInto(buf, start + at, start + size, bytes);
        }
      }
      size := size + |bytes|;
    }

    method AddHead(m: major, n: nat)
      requires Valid() && n < LIMIT
      modifies this, if buf == null then {} else {buf}
      ensures Valid() && log == old(log) + Head(m, n) && OutsideKept()
    {
      Insert(size, Head(m, n));
    }

    method AddBytes(bytes: Bytes)
      requires Valid() && |bytes| < LIMIT
      modifies this, if buf == null then {} else {buf}
      ensures Valid() && log == old(log) + Encode(Bstr(bytes)) && OutsideKept()
    {
      AddHead(2, |bytes|);
      label L:
      Insert(size, bytes);
      assert old@L(log) + bytes == old(log) + (Head(2, |bytes|) + bytes);
    }

    /** Close the array, map or wrapped string opened at `mark`, which encloses `body`. */
    method Close(mark: nat, m: major, n: nat, ghost before: Bytes, ghost body: Bytes)
      requires Valid() && n < LIMIT && log == before + body && mark == |before|
      modifies this, if buf == null then {} else {buf}
      ensures Valid() && log == before + (Head(m, n) + body) && OutsideKept()
    {
      assert log[..mark] == before && log[mark..] == body;
      Insert(mark, Head(m, n));
      assert before + Head(m, n) + body == before + (Head(m, n) + body);
    }
  }
}
