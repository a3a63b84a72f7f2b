/** teep_http_client.cpp: the buffer that receive callbacks append to. */
module HttpBuffer {
  import opened Basics

  function Take(b: Bytes, cap: nat): (r: Bytes)
    ensures |r| == if |b| < cap then |b| else cap
    ensures r <= b
  {
    if |b| <= cap then b else b[..cap]
  }

  function Concat(chunks: seq<Bytes>): Bytes {
    if chunks == [] then [] else Concat(chunks[..|chunks| - 1]) + chunks[|chunks| - 1]
  }

  /** What arrived is the chunks one after the other. */
  lemma {:induction false} ConcatJoin(xs: seq<Bytes>, ys: seq<Bytes>)
    ensures Concat(xs + ys) == Concat(xs) + Concat(ys)
    ensures |xs| == 1 ==> Concat(xs) == xs[0]
    decreases |ys|
  {
    if |xs| == 1 { assert xs[..0] == []; }
    if ys == [] {
      assert xs + ys == xs;
    } else {
      var n := |ys| - 1;
      assert (xs + ys)[..|xs + ys| - 1] == xs + ys[..n];
      ConcatJoin(xs, ys[..n]);
    }
  }

  lemma {:induction false} TakeAppend(x: Bytes, y: Bytes, cap: nat)
    ensures Take(Take(x, cap) + y, cap) == Take(x + y, cap)
  {
    if |x| > cap {
      assert (x[..cap] + y)[..cap] == x[..cap] == (x + y)[..cap];
    }
  }

  /** teep_http_recv_context_t: `len` bytes of `out` are used, of `capacity`. */
  class RecvContext {
    const out: array<byte>
    const capacity: nat
    var len: nat

    ghost predicate Valid()
      reads this
    {
      len <= capacity <= out.Length
    }

    ghost function Contents(): Bytes
      requires Valid()
      reads this, out
    {
      out[..len]
    }

    constructor (out: array<byte>)
      ensures Valid() && this.out == out && capacity == out.Length && Contents() == []
    {
      this.out, capacity, len := out, out.Length, 0;
    }

    /** write_callback: keeps what still fits, and reports everything as consumed. */
    method WriteCallback(data: Bytes, size: nat, nitems: nat) returns (consumed: nat)
      requires Valid() && |data| == size * nitems
      modifies this, out
      ensures Valid() && consumed == |data|
      ensures Contents() == Take(old(Contents()) + data, capacity)
    {
      ghost var before := Contents();
      var recvSize := size * nitems;
      var remain := if len < capacity then capacity - len else 0;
      var copy := if recvSize < remain then recvSize else remain;
      if copy > 0 {
        forall k | 0 <= k < copy {
          out[len + k] := data[k];
        }
        len := len + copy;
      }
      assert out[..|before|] == before && out[..len] == before + data[..copy];
      if copy < recvSize {
        assert before + data[..copy] == (before + data)[..capacity];
      } else {
        assert data[..copy] == data;
      }
      return recvSize;
    }

    /** After any sequence of callbacks the buffer holds exactly the first `capacity` bytes of all that
        was received. */
    method Receive(chunks: seq<Bytes>)
      requires Valid() && Contents() == []
      modifies this, out
      ensures Valid() && Contents() == Take(Concat(chunks), capacity)
    {
      var i := 0;
      assert chunks[..0] == [];
      while i < |chunks|
        invariant i <= |chunks| && Valid()
        invariant Contents() == Take(Concat(chunks[..i]), capacity)
      {
        assert chunks[..i + 1][..i] == chunks[..i];
        TakeAppend(Concat(chunks[..i]), chunks[i], capacity);
        var consumed := WriteCallback(chunks[i], 1, |chunks[i]|);
        i := i + 1;
      }
      assert chunks[..i] == chunks;
    }
  }

  /** A body arrives whole exactly when it fits; the caller is not told when it does not. */
  lemma {:induction false} WholeIff(chunks: seq<Bytes>, cap: nat)
    ensures Take(Concat(chunks), cap) == Concat(chunks) <==> |Concat(chunks)| <= cap
  {
  }
}
