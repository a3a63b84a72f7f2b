/**
 * tc-info: one trusted component of a QueryResponse as a CBOR map, written in two passes into a buffer
 * of exactly the size of the first.
 */
module TcInfo {
  import opened Basics
  import opened Memory
  import opened TcTable
  import opened Cbor
  import opened CborEncoding

  /** suit-parameter component id 0, image digest 3; SHA-256 is -16. */
  function DigestItem(digest: Hash): Item {
    Array([Nint(15), Bstr(digest)])
  }

  lemma {:induction false} DigestOk(digest: Hash)
    ensures Ok(DigestItem(digest)) && |Encode(DigestItem(digest))| == 36
  {
    var items := [Nint(15), Bstr(digest)];
    assert AllOk(items);
    TwoItems(Nint(15), Bstr(digest));
  }

  function InfoItem(item: TcItem): Item
    requires |item.componentId| < LIMIT
  {
    DigestOk(item.imageDigest);
    Map([Uint(0), Array([Bstr(item.componentId)]), Uint(3), Bstr(Encode(DigestItem(item.imageDigest)))])
  }

  lemma {:induction false} OneItem(a: Item)
    requires Ok(a)
    ensures AllOk([a]) && EncodeAll([a]) == Encode(a)
  {
    assert [a][1..] == [];
    assert Encode(a) + EncodeAll([]) == Encode(a);
  }

  lemma {:induction false} TwoItems(a: Item, b: Item)
    requires Ok(a) && Ok(b)
    ensures AllOk([a, b]) && EncodeAll([a, b]) == Encode(a) + Encode(b)
  {
    OneItem(b);
    assert [a, b][1..] == [b];
  }

  lemma {:induction false} FourItems(a: Item, b: Item, c: Item, d: Item)
    requires Ok(a) && Ok(b) && Ok(c) && Ok(d)
    ensures AllOk([a, b, c, d])
    ensures EncodeAll([a, b, c, d]) == Encode(a) + (Encode(b) + (Encode(c) + Encode(d)))
  {
    TwoItems(c, d);
    assert [b, c, d][1..] == [c, d];
    assert [a, b, c, d][1..] == [b, c, d];
  }

  lemma {:induction false} InfoOk(item: TcItem)
    requires |item.componentId| < LIMIT
    ensures Ok(InfoItem(item))
    ensures Encode(InfoItem(item)) == Head(5, 2)
      + (Head(0, 0) + ((Head(4, 1) + (Head(2, |item.componentId|) + item.componentId))
      + (Head(0, 3) + (Head(2, 36) + Encode(DigestItem(item.imageDigest))))))
  {
    DigestOk(item.imageDigest);
    OneItem(Bstr(item.componentId));
    FourItems(Uint(0), Array([Bstr(item.componentId)]), Uint(3), Bstr(Encode(DigestItem(item.imageDigest))));
  }

  /** The size of a tc-info, for every length of name. */
  lemma {:induction false} InfoSize(item: TcItem)
    requires |item.componentId| < LIMIT
    ensures Ok(InfoItem(item))
    ensures |Encode(InfoItem(item))| == 42 + |Head(2, |item.componentId|)| + |item.componentId|
  {
    InfoOk(item);
    DigestOk(item.imageDigest);
  }

  /** The bytes of a tc-info: component id under key 0, and under key 3 the wrapped digest, of algorithm -16. */
  lemma {:induction false} InfoBytes(item: TcItem)
    requires |item.componentId| < LIMIT
    ensures Ok(InfoItem(item))
    ensures Encode(InfoItem(item)) ==
            [0xa2, 0x00, 0x81] + Head(2, |item.componentId|) + item.componentId
            + [0x03, 0x58, 0x24, 0x82, 0x2f, 0x58, 0x20] + item.imageDigest
  {
    hide Head, Encode;
    InfoOk(item);
    DigestBytes(item.imageDigest);
    HeadBytes(5, 2);
    HeadBytes(0, 0);
    HeadBytes(4, 1);
    HeadBytes(0, 3);
    HeadBytes(2, 36);
    var id := Head(2, |item.componentId|) + item.componentId;
    var digest := [0x82, 0x2f, 0x58, 0x20] + item.imageDigest;
    assert [0xa2] + ([0x00] + (([0x81] + id) + ([0x03] + ([0x58, 0x24] + digest))))
        == [0xa2, 0x00, 0x81] + id + [0x03, 0x58, 0x24, 0x82, 0x2f, 0x58, 0x20] + item.imageDigest;
  }

  lemma {:induction false} DigestBytes(digest: Hash)
    ensures Ok(DigestItem(digest)) && Encode(DigestItem(digest)) == [0x82, 0x2f, 0x58, 0x20] + digest
  {
    hide Head;
    DigestOk(digest);
    TwoItems(Nint(15), Bstr(digest));
    HeadBytes(4, 2);
    HeadBytes(1, 15);
    HeadBytes(2, 32);
    assert [0x82] + ([0x2f] + ([0x58, 0x20] + digest)) == [0x82, 0x2f, 0x58, 0x20] + digest;
  }

  // --------------------------------------------------------------- decoding

  function DecodeDigest(b: Bytes): Option<Hash> {
    match Decode(b)
    case Some((Array(items), rest)) =>
      if rest == [] && |items| == 2 && items[0] == Nint(15) && items[1].Bstr? && |items[1].bytes| == HASH_LEN
      then Some(items[1].bytes) else None
    case _ => None
  }

  /** What a TAM reads from one tc-info. */
  function DecodeInfo(b: Bytes): Option<TcItem> {
    match Decode(b)
    case Some((Map(entries), rest)) =>
      if && rest == [] && |entries| == 4 && entries[0] == Uint(0) && entries[2] == Uint(3)
         && entries[1].Array? && |entries[1].items| == 1 && entries[1].items[0].Bstr? && entries[3].Bstr?
      then match DecodeDigest(entries[3].bytes)
        case Some(digest) => Some(TcItem(entries[1].items[0].bytes, digest))
        case None => None
      else None
    case _ => None
  }

  lemma {:induction false} DigestRoundTrip(digest: Hash)
    ensures Ok(DigestItem(digest)) && DecodeDigest(Encode(DigestItem(digest))) == Some(digest)
  {
    DigestOk(digest);
    RoundTrip(DigestItem(digest), []);
    assert Encode(DigestItem(digest)) + [] == Encode(DigestItem(digest));
  }

  /** The decoder recovers the component id and the digest, for every name. */
  lemma {:induction false} InfoRoundTrip(item: TcItem)
    requires |item.componentId| < LIMIT
    ensures Ok(InfoItem(item)) && DecodeInfo(Encode(InfoItem(item))) == Some(item)
  {
    InfoOk(item);
    DigestRoundTrip(item.imageDigest);
    RoundTrip(InfoItem(item), []);
    assert Encode(InfoItem(item)) + [] == Encode(InfoItem(item));
  }

  function DecodeInfos(infos: seq<Bytes>): Option<seq<TcItem>> {
    if infos == [] then Some([])
    else
      match (DecodeInfo(infos[0]), DecodeInfos(infos[1..]))
      case (Some(item), Some(items)) => Some([item] + items)
      case _ => None
  }

  predicate Encodable(items: seq<TcItem>) {
    forall k :: 0 <= k < |items| ==> 0 < |items[k].componentId| < LIMIT
  }

  function EncodeInfo(item: TcItem): Bytes
    requires |item.componentId| < LIMIT
  {
    InfoOk(item);
    Encode(InfoItem(item))
  }

  function EncodeInfos(items: seq<TcItem>): (r: seq<Bytes>)
    requires Encodable(items)
    ensures |r| == |items|
    ensures forall k :: 0 <= k < |items| ==> r[k] == EncodeInfo(items[k])
  {
    if items == [] then [] else [EncodeInfo(items[0])] + EncodeInfos(items[1..])
  }

  lemma {:induction false} InfosRoundTrip(items: seq<TcItem>)
    requires Encodable(items)
    ensures DecodeInfos(EncodeInfos(items)) == Some(items)
  {
    if items != [] {
      InfoRoundTrip(items[0]);
      InfosRoundTrip(items[1..]);
      assert EncodeInfos(items)[1..] == EncodeInfos(items[1..]);
      assert [items[0]] + items[1..] == items;
    }
  }

  /** What a TAM decodes from the tc-list of a table is the index-wise (name, hash) projection of the
      table; and a tc-list is produced exactly when every record is complete with a name that fits. */
  lemma {:induction false} TcListRoundTrip(t: Table, nameMax: nat)
    requires |t| <= MAX_RECORDS && nameMax <= LIMIT
    ensures TcList(t, MAX_RECORDS, nameMax).Some? <==> AllExportable(t, nameMax)
    ensures TcList(t, MAX_RECORDS, nameMax).Some? ==>
      var items := TcList(t, MAX_RECORDS, nameMax).value;
      && Encodable(items) && DecodeInfos(EncodeInfos(items)) == Some(items) && |items| == |t|
      && forall k :: 0 <= k < |t| ==> items[k] == TcItem(t[k].wappName, t[k].wappHash)
  {
    if TcList(t, MAX_RECORDS, nameMax).Some? {
      var items := TcList(t, MAX_RECORDS, nameMax).value;
      assert Encodable(items);
      InfosRoundTrip(items);
    }
  }

  // --------------------------------------------------------------- encoding

  /** encode_tc_info_map, run once without a buffer and once with. */
  method EncodeTcInfoMap(enc: Encoder, item: TcItem)
    requires enc.Valid() && |item.componentId| < LIMIT
    modifies enc, if enc.buf == null then {} else {enc.buf}
    ensures enc.Valid() && enc.log == old(enc.log) + EncodeInfo(item) && enc.OutsideKept()
  {
    ghost var log0, body := enc.log, InfoBody(item);
    var map0 := enc.size;
    EncodeInfoBody(enc, item);
    enc.Close(map0, 5, 2, log0, body);
    InfoAsBody(item);
  }

  lemma {:induction false} InfoAsBody(item: TcItem)
    requires |item.componentId| < LIMIT
    ensures EncodeInfo(item) == Head(5, 2) + InfoBody(item)
  {
    InfoOk(item);
  }

  ghost function InfoBody(item: TcItem): Bytes
    requires |item.componentId| < LIMIT
  {
    ComponentPart(item.componentId) + WrappedPart(item.imageDigest)
  }

  method EncodeInfoBody(enc: Encoder, item: TcItem)
    requires enc.Valid() && |item.componentId| < LIMIT
    modifies enc, if enc.buf == null then {} else {enc.buf}
    ensures enc.Valid() && enc.log == old(enc.log) + InfoBody(item) && enc.OutsideKept()
  {
    ghost var log0 := enc.log;
    EncodeComponent(enc, item.componentId);
    EncodeWrappedDigest(enc, item.imageDigest);
    assert enc.log == log0 + InfoBody(item);
  }

  ghost function ComponentPart(id: Name): Bytes
    requires |id| < LIMIT
  {
    Head(0, 0) + (Head(4, 1) + Encode(Bstr(id)))
  }

  ghost function WrappedPart(digest: Hash): Bytes {
    DigestOk(digest);
    Head(0, 3) + (Head(2, 36) + Encode(DigestItem(digest)))
  }

  method EncodeComponent(enc: Encoder, id: Name)
    requires enc.Valid() && |id| < LIMIT
    modifies enc, if enc.buf == null then {} else {enc.buf}
    ensures enc.Valid() && enc.log == old(enc.log) + ComponentPart(id) && enc.OutsideKept()
  {
    ghost var log0 := enc.log;
    enc.AddHead(0, 0);
    var array0 := enc.size;
    enc.AddBytes(id);
    enc.Close(array0, 4, 1, log0 + Head(0, 0), Encode(Bstr(id)));
    assert enc.log == log0 + ComponentPart(id);
  }

  method EncodeWrappedDigest(enc: Encoder, digest: Hash)
    requires enc.Valid()
    modifies enc, if enc.buf == null then {} else {enc.buf}
    ensures enc.Valid() && enc.log == old(enc.log) + WrappedPart(digest) && enc.OutsideKept()
  {
    ghost var log0 := enc.log;
    DigestOk(digest);
    enc.AddHead(0, 3);
    var wrap := enc.size;
    EncodeDigest(enc, digest);
    enc.Close(wrap, 2, enc.size - wrap, log0 + Head(0, 3), Encode(DigestItem(digest)));
    assert enc.log == log0 + WrappedPart(digest);
  }

  method EncodeDigest(enc: Encoder, digest: Hash)
    requires enc.Valid()
    modifies enc, if enc.buf == null then {} else {enc.buf}
    ensures Ok(DigestItem(digest))
    ensures enc.Valid() && enc.log == old(enc.log) + Encode(DigestItem(digest)) && enc.OutsideKept()
  {
    ghost var log0 := enc.log;
    var array0 := enc.size;
    enc.AddHead(1, 15);
    enc.AddBytes(digest);
    DigestOk(digest);
    TwoItems(Nint(15), Bstr(digest));
    ghost var body := Head(1, 15) + Encode(Bstr(digest));
    assert enc.log == log0 + body;
    enc.Close(array0, 4, 2, log0, body);
  }

  /** build_tc_info_cbor_from_tc_list_item: the buffer allocated between the passes always fits. */
  method BuildTcInfo(heap: Heap, item: TcItem, nameMax: nat, alloc: bool) returns (info: UsefulBuf)
    requires heap.Valid() && nameMax <= LIMIT
    modifies heap
    ensures heap.Valid()
    ensures info.ptr != 0 <==> 0 < |item.componentId| < nameMax && alloc
    ensures info.ptr == 0 ==> heap.blocks == old(heap.blocks)
    ensures info.ptr != 0 ==>
      && info.ptr !in old(heap.blocks) && info.len == |EncodeInfo(item)|
      && heap.blocks == old(heap.blocks)[info.ptr := EncodeInfo(item)]
  {
    info := NULL_BUF;
    if |item.componentId| == 0 || |item.componentId| >= nameMax {
      return;
    }
    var sizing := new Encoder(null, 0, 0);
    EncodeTcInfoMap(sizing, item);
    var size := sizing.size;
    if !alloc {
      return;
    }
    var storage := new byte[size];
    var enc := new Encoder(storage, 0, size);
    EncodeTcInfoMap(enc, item);
    assert !enc.failed && storage[..] == enc.log == EncodeInfo(item);
    var p := heap.Duplicate(storage[..], true);
    info := UsefulBuf(p, enc.size);
  }
}
