/**
 * The CBOR data items the agent writes (section 3 of RFC 8949): integers, byte strings, arrays and
 * maps of definite length, with the shortest form of every head, and a decoder for them.
 */
module Cbor {
  import opened Basics

  /** A map is the sequence of its keys and values in turn. */
  datatype Item =
    | Uint(n: nat)
    | Nint(n: nat)           // the integer -1 - n
    | Bstr(bytes: Bytes)
    | Array(items: seq<Item>)
    | Map(entries: seq<Item>)

  const LIMIT: nat := 0x1_0000_0000_0000_0000

  /** Every length and number fits a head, and maps hold whole pairs. */
  predicate Ok(i: Item) {
    match i
    case Uint(n) => n < LIMIT
    case Nint(n) => n < LIMIT
    case Bstr(b) => |b| < LIMIT
    case Array(items) => |items| < LIMIT && AllOk(items)
    case Map(entries) => |entries| % 2 == 0 && |entries| / 2 < LIMIT && AllOk(entries)
  }

  predicate AllOk(items: seq<Item>) {
    forall i :: i in items ==> Ok(i)
  }

  // ------------------------------------------------------------------- heads

  function Pow256(k: nat): (p: nat)
    ensures p > 0
  {
    if k == 0 then 1 else 256 * Pow256(k - 1)
  }

  /** The `k` low bytes of n, most significant first. */
  function BigEndian(n: nat, k: nat): (b: Bytes)
    ensures |b| == k
  {
    if k == 0 then [] else BigEndian(n / 256, k - 1) + [(n % 256) as byte]
  }

  function FromBigEndian(b: Bytes): nat {
    if b == [] then 0 else 256 * FromBigEndian(b[..|b| - 1]) + b[|b| - 1] as nat
  }

  lemma {:induction false} BigEndianRoundTrip(n: nat, k: nat)
    requires n < Pow256(k)
    ensures FromBigEndian(BigEndian(n, k)) == n
  {
    if k > 0 {
      assert n / 256 < Pow256(k - 1);
      BigEndianRoundTrip(n / 256, k - 1);
      var b := BigEndian(n, k);
      assert b[..k - 1] == BigEndian(n / 256, k - 1);
    }
  }

  lemma {:induction false} Powers()
    ensures Pow256(1) == 0x100 && Pow256(2) == 0x1_0000
    ensures Pow256(4) == 0x1_0000_0000 && Pow256(8) == LIMIT
  {
    assert Pow256(3) == 256 * Pow256(2);
    assert Pow256(5) == 256 * Pow256(4);
    assert Pow256(6) == 256 * Pow256(5);
    assert Pow256(7) == 256 * Pow256(6);
  }

  newtype major = n: int | 0 <= n < 8

  /** The argument bytes that follow an initial byte with this additional information. */
  function Width(info: nat): nat {
    if info == 24 then 1 else if info == 25 then 2 else if info == 26 then 4 else if info == 27 then 8 else 0
  }

  /** The additional information of the shortest head for n. */
  function Info(n: nat): (info: nat)
    requires n < LIMIT
    ensures info < 28 && (Width(info) == 0 <==> info < 24)
    ensures if info < 24 then n == info else n < Pow256(Width(info))
  {
    Powers();
    if n < 24 then n
    else if n < 0x100 then 24
    else if n < 0x1_0000 then 25
    else if n < 0x1_0000_0000 then 26
    else 27
  }

  function Head(m: major, n: nat): (b: Bytes)
    requires n < LIMIT
    ensures |b| == 1 + Width(Info(n))
  {
    [(m as int * 32 + Info(n)) as byte] + BigEndian(n, Width(Info(n)))
  }

  datatype HeadResult = HeadResult(m: major, n: nat, size: nat)

  function ReadHead(b: Bytes): (r: Option<HeadResult>)
    ensures r.Some? ==> 1 <= r.value.size <= |b|
  {
    if b == [] then None
    else
      var m, info := (b[0] as int / 32) as major, b[0] as int % 32;
      if info < 24 then Some(HeadResult(m, info, 1))
      else if info > 27 || |b| < 1 + Width(info) then None
      else Some(HeadResult(m, FromBigEndian(b[1..1 + Width(info)]), 1 + Width(info)))
  }

  lemma {:induction false} HeadRoundTrip(m: major, n: nat, rest: Bytes)
    requires n < LIMIT
    ensures ReadHead(Head(m, n) + rest) == Some(HeadResult(m, n, |Head(m, n)|))
  {
    var b := Head(m, n) + rest;
    var info := Info(n);
    var w := Width(info);
    assert b[0] as int == m as int * 32 + info;
    assert b[0] as int / 32 == m as int && b[0] as int % 32 == info;
    if info >= 24 {
      assert b == [b[0]] + BigEndian(n, w) + rest;
      assert b[1..1 + w] == BigEndian(n, w);
      BigEndianRoundTrip(n, w);
    }
  }

  /** The bytes of every head, as section 3 of RFC 8949 has them. */
  lemma {:induction false} HeadBytes(m: major, n: nat)
    requires n < LIMIT
    ensures var b, major := Head(m, n), m as int * 32;
      && (n < 24 ==> b == [(major + n) as byte])
      && (24 <= n < 0x100 ==> b == [(major + 24) as byte, n as byte])
      && (0x100 <= n < 0x1_0000 ==> b == [(major + 25) as byte, (n / 256) as byte, (n % 256) as byte])
      && (0x1_0000 <= n < 0x1_0000_0000 ==> |b| == 5 && b[0] as int == major + 26 && FromBigEndian(b[1..]) == n)
      && (0x1_0000_0000 <= n ==> |b| == 9 && b[0] as int == major + 27 && FromBigEndian(b[1..]) == n)
  {
    hide BigEndian, FromBigEndian, Pow256;
    var b, w := Head(m, n), Width(Info(n));
    assert b[1..] == BigEndian(n, w);
    if w > 0 { BigEndianRoundTrip(n, w); }
    ShortBigEndian(n);
  }

  lemma {:induction false} ShortBigEndian(n: nat)
    ensures BigEndian(n, 0) == [] && BigEndian(n, 1) == [(n % 256) as byte]
    ensures BigEndian(n, 2) == [(n / 256 % 256) as byte, (n % 256) as byte]
  {
    assert BigEndian(n / 256, 1) == BigEndian(n / 256 / 256, 0) + [(n / 256 % 256) as byte];
  }

  // ------------------------------------------------------------------- items

  function Encode(i: Item): (b: Bytes)
    requires Ok(i)
    ensures b != []
    decreases i, 1
  {
    match i
    case Uint(n) => Head(0, n)
    case Nint(n) => Head(1, n)
    case Bstr(bytes) => Head(2, |bytes|) + bytes
    case Array(items) => Head(4, |items|) + EncodeAll(items)
    case Map(entries) => Head(5, |entries| / 2) + EncodeAll(entries)
  }

  function EncodeAll(items: seq<Item>): Bytes
    requires AllOk(items)
    decreases items, 0
  {
    if items == [] then [] else Encode(items[0]) + EncodeAll(items[1..])
  }

  /** The first item of `b` and the bytes after it. */
  function Decode(b: Bytes): (r: Option<(Item, Bytes)>)
    ensures r.Some? ==> |r.value.1| < |b|
    decreases |b|, 0
  {
    match ReadHead(b)
    case None => None
    case Some(HeadResult(m, n, size)) =>
      var rest := b[size..];
      if m == 0 then Some((Uint(n), rest))
      else if m == 1 then Some((Nint(n), rest))
      else if m == 2 then
        if n <= |rest| then Some((Bstr(rest[..n]), rest[n..])) else None
      else if m == 4 then
        match DecodeMany(rest, n) case None => None case Some((items, after)) => Some((Array(items), after))
      else if m == 5 then
        match DecodeMany(rest, 2 * n) case None => None case Some((items, after)) => Some((Map(items), after))
      else None
  }

  function DecodeMany(b: Bytes, count: nat): (r: Option<(seq<Item>, Bytes)>)
    ensures r.Some? ==> |r.value.1| <= |b| && |r.value.0| == count
    decreases |b|, 1
  {
    if count == 0 then Some(([], b))
    else
      match Decode(b)
      case None => None
      case Some((i, rest)) =>
        match DecodeMany(rest, count - 1)
        case None => None
        case Some((items, after)) => Some(([i] + items, after))
  }

  /** Decoding recovers every item that was encoded, whatever follows it. */
  lemma {:induction false} RoundTrip(i: Item, rest: Bytes)
    requires Ok(i)
    ensures Decode(Encode(i) + rest) == Some((i, rest))
    decreases i, 1
  {
    var b := Encode(i) + rest;
    match i {
      case Uint(n) => RoundTripHead(0, n, [], rest, b);
      case Nint(n) => RoundTripHead(1, n, [], rest, b);
      case Bstr(bytes) => RoundTripHead(2, |bytes|, bytes, rest, b);
      case Array(items) =>
        RoundTripAll(items, rest);
        RoundTripArray(items, EncodeAll(items), rest);
      case Map(entries) =>
        RoundTripAll(entries, rest);
        RoundTripMap(entries, EncodeAll(entries), rest);
    }
  }

  lemma {:induction false} DecodeArray(b: Bytes, n: nat, size: nat, items: seq<Item>, after: Bytes)
    requires ReadHead(b) == Some(HeadResult(4, n, size)) && DecodeMany(b[size..], n) == Some((items, after))
    ensures Decode(b) == Some((Array(items), after))
  {
  }

  lemma {:induction false} DecodeMap(b: Bytes, n: nat, size: nat, items: seq<Item>, after: Bytes)
    requires ReadHead(b) == Some(HeadResult(5, n, size)) && DecodeMany(b[size..], 2 * n) == Some((items, after))
    ensures Decode(b) == Some((Map(items), after))
  {
  }

  lemma {:induction false} RoundTripArray(items: seq<Item>, body: Bytes, rest: Bytes)
    requires |items| < LIMIT && DecodeMany(body + rest, |items|) == Some((items, rest))
    ensures Decode(Head(4, |items|) + body + rest) == Some((Array(items), rest))
  {
    var b := Head(4, |items|) + body + rest;
    RoundTripHead(4, |items|, body, rest, b);
    DecodeArray(b, |items|, |Head(4, |items|)|, items, rest);
  }

  lemma {:induction false} RoundTripMap(entries: seq<Item>, body: Bytes, rest: Bytes)
    requires |entries| % 2 == 0 && |entries| / 2 < LIMIT && DecodeMany(body + rest, |entries|) == Some((entries, rest))
    ensures Decode(Head(5, |entries| / 2) + body + rest) == Some((Map(entries), rest))
  {
    var n := |entries| / 2;
    var b := Head(5, n) + body + rest;
    RoundTripHead(5, n, body, rest, b);
    DecodeMap(b, n, |Head(5, n)|, entries, rest);
  }

  lemma {:induction false} RoundTripHead(m: major, n: nat, body: Bytes, rest: Bytes, b: Bytes)
    requires n < LIMIT && b == Head(m, n) + body + rest
    ensures ReadHead(b) == Some(HeadResult(m, n, |Head(m, n)|))
    ensures b[|Head(m, n)|..] == body + rest
    ensures (body + rest)[..|body|] == body && (body + rest)[|body|..] == rest
  {
    SplitThree(Head(m, n), body, rest);
    HeadRoundTrip(m, n, body + rest);
  }

  lemma {:induction false} SplitThree(a: Bytes, b: Bytes, c: Bytes)
    ensures a + b + c == a + (b + c)
    ensures (a + b + c)[|a|..] == b + c
    ensures (b + c)[..|b|] == b && (b + c)[|b|..] == c
  {
  }

  lemma {:induction false} DecodeManyStep(i: Item, items: seq<Item>, b: Bytes, tail: Bytes, rest: Bytes)
    requires Decode(b) == Some((i, tail)) && DecodeMany(tail, |items|) == Some((items, rest))
    ensures DecodeMany(b, |items| + 1) == Some(([i] + items, rest))
  {
  }

  lemma {:induction false} RoundTripAll(items: seq<Item>, rest: Bytes)
    requires AllOk(items)
    ensures DecodeMany(EncodeAll(items) + rest, |items|) == Some((items, rest))
    decreases items, 0
  {
    if items == [] {
      assert EncodeAll(items) + rest == rest;
    } else {
      var i, more := items[0], items[1..];
      var tail := EncodeAll(more) + rest;
      RoundTrip(i, tail);
      RoundTripAll(more, rest);
      DecodeManyStep(i, more, Encode(i) + tail, tail, rest);
      SplitThree(Encode(i), EncodeAll(more), rest);
      assert [i] + more == items;
    }
  }

  /** Hence encodings are prefix-free, and in particular injective. */
  lemma {:induction false} PrefixFree(i: Item, j: Item, x: Bytes, y: Bytes)
    requires Ok(i) && Ok(j) && Encode(i) + x == Encode(j) + y
    ensures i == j && x == y
  {
    RoundTrip(i, x);
    RoundTrip(j, y);
  }

  // ---------------------------------------------- examples of RFC 8949, appendix A

  /** Integers and byte strings. */
  lemma {:induction false} AppendixA()
    ensures Encode(Uint(0)) == [0x00] && Encode(Uint(23)) == [0x17] && Encode(Uint(24)) == [0x18, 0x18]
    ensures Encode(Uint(100)) == [0x18, 0x64] && Encode(Uint(1000)) == [0x19, 0x03, 0xe8]
    ensures Encode(Nint(0)) == [0x20] && Encode(Nint(9)) == [0x29] && Encode(Nint(99)) == [0x38, 0x63]
    ensures Encode(Bstr([1, 2, 3, 4])) == [0x44, 0x01, 0x02, 0x03, 0x04]
  {
    hide Head;
    HeadBytes(0, 0);
    HeadBytes(0, 23);
    HeadBytes(0, 24);
    HeadBytes(0, 100);
    HeadBytes(0, 1000);
    HeadBytes(1, 0);
    HeadBytes(1, 9);
    HeadBytes(1, 99);
    HeadBytes(2, 4);
  }

  /** Arrays and maps. */
  lemma {:induction false} AppendixAContainers()
    ensures Ok(Array([Uint(1), Uint(2), Uint(3)])) && Ok(Map([Uint(1), Uint(2), Uint(3), Uint(4)]))
    ensures Encode(Array([Uint(1), Uint(2), Uint(3)])) == [0x83, 0x01, 0x02, 0x03]
    ensures Encode(Map([Uint(1), Uint(2), Uint(3), Uint(4)])) == [0xa2, 0x01, 0x02, 0x03, 0x04]
  {
    hide Head, EncodeAll;
    HeadBytes(4, 3);
    HeadBytes(5, 2);
    ExampleItems();
    assert [0x83] + [0x01, 0x02, 0x03] == [0x83, 0x01, 0x02, 0x03];
    assert [0xa2] + [0x01, 0x02, 0x03, 0x04] == [0xa2, 0x01, 0x02, 0x03, 0x04];
  }

  lemma {:induction false} SmallUint(n: nat)
    requires n < 24
    ensures Encode(Uint(n)) == [n as byte]
  {
    HeadBytes(0, n);
  }

  lemma {:induction false} NoItems()
    ensures EncodeAll([]) == []
  {
  }

  lemma {:induction false} ExampleItems()
    ensures AllOk([Uint(1), Uint(2), Uint(3)]) && EncodeAll([Uint(1), Uint(2), Uint(3)]) == [1, 2, 3]
    ensures AllOk([Uint(1), Uint(2), Uint(3), Uint(4)])
    ensures EncodeAll([Uint(1), Uint(2), Uint(3), Uint(4)]) == [1, 2, 3, 4]
  {
    hide Encode, EncodeAll;
    NoItems();
    assert [Uint(3)] + [] == [Uint(3)] && [Uint(4)] + [] == [Uint(4)];
    assert [Uint(2)] + [Uint(3)] == [Uint(2), Uint(3)] && [Uint(3)] + [Uint(4)] == [Uint(3), Uint(4)];
    assert [Uint(1)] + [Uint(2), Uint(3)] == [Uint(1), Uint(2), Uint(3)];
    assert [Uint(2)] + [Uint(3), Uint(4)] == [Uint(2), Uint(3), Uint(4)];
    assert [Uint(1)] + [Uint(2), Uint(3), Uint(4)] == [Uint(1), Uint(2), Uint(3), Uint(4)];
    Prepend(3, [], []);
    Prepend(2, [Uint(3)], [3]);
    Prepend(1, [Uint(2), Uint(3)], [2, 3]);
    Prepend(4, [], []);
    Prepend(3, [Uint(4)], [4]);
    Prepend(2, [Uint(3), Uint(4)], [3, 4]);
    Prepend(1, [Uint(2), Uint(3), Uint(4)], [2, 3, 4]);
  }

  lemma {:induction false} Prepend(n: nat, items: seq<Item>, bytes: Bytes)
    requires n < 24 && AllOk(items) && EncodeAll(items) == bytes
    ensures AllOk([Uint(n)] + items) && EncodeAll([Uint(n)] + items) == [n as byte] + bytes
  {
    SmallUint(n);
    OneMore(Uint(n), items);
  }

  lemma {:induction false} OneMore(i: Item, items: seq<Item>)
    requires Ok(i) && AllOk(items)
    ensures AllOk([i] + items) && EncodeAll([i] + items) == Encode(i) + EncodeAll(items)
  {
    assert ([i] + items)[1..] == items;
  }
}
