/** The C heap: live blocks by address. Freeing demands a live block, so a verified caller can neither
    free twice nor free what it does not hold; comparing key sets shows that nothing leaks. */
module Memory {
  import opened Basics

  type Blocks = map<nat, Bytes>

  /** A null pointer is 0. */
  datatype UsefulBuf = UsefulBuf(ptr: nat, len: nat)

  const NULL_BUF := UsefulBuf(0, 0)

  /** Null with length 0, or a live block of that (positive) length. */
  ghost predicate BufOk(b: UsefulBuf, h: Blocks) {
    if b.ptr == 0 then b.len == 0 else b.ptr in h && |h[b.ptr]| == b.len > 0
  }

  ghost function Content(b: UsefulBuf, h: Blocks): Bytes
    requires BufOk(b, h)
  {
    if b.ptr == 0 then [] else h[b.ptr]
  }

  ghost function Above(s: set<nat>): (n: nat)
    ensures n != 0 && n !in s
    ensures forall x :: x in s ==> x < n
  {
    if s == {} then 1
    else
      var x :| x in s;
      var n := Above(s - {x});
      assert forall y :: y in s ==> y == x || y in s - {x};
      if x < n then n else x + 1
  }

  class Heap {
    var blocks: Blocks

    ghost predicate Valid()
      reads this
    {
      0 !in blocks
    }

    constructor ()
      ensures Valid() && blocks == map[]
    {
      blocks := map[];
    }

    /** malloc and memcpy. Whether the allocation succeeds is the environment's choice; the address
        is any address not in use. */
    method Duplicate(src: Bytes, ok: bool) returns (p: nat)
      requires Valid()
      modifies this
      ensures Valid()
      ensures ok ==> p != 0 && p !in old(blocks) && blocks == old(blocks)[p := src]
      ensures !ok ==> p == 0 && blocks == old(blocks)
    {
      p := 0;
      if ok {
        ghost var w := Above(blocks.Keys);
        assert w != 0 && w !in blocks;
        p :| p != 0 && p !in blocks;
        blocks := blocks[p := src];
      }
    }

    method Free(p: nat)
      requires Valid() && p in blocks
      modifies this
      ensures Valid() && blocks == old(blocks) - {p}
    {
      blocks := blocks - {p};
    }
  }
}
