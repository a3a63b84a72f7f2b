/**
 * Enclave_generate_evidence.cpp, DCAP mode: the report data that the quote signs, the raw report data
 * sent beside the quote, and the CBOR array holding both.
 */
module Evidence {
  import opened Basics
  import opened Memory
  import opened Cbor
  import opened CborEncoding
  import TcInfo

  const COORDINATE: nat := 32
  const PUBLIC_KEY: nat := 65
  const DIGEST: nat := 48
  const REPORT_DATA: nat := 64

  type Sha384 = Bytes -> Digest48
  type Digest48 = b: Bytes | |b| == DIGEST witness Zeros(DIGEST)

  datatype TeepErr = SUCCESS | INVALID_VALUE | NO_MEMORY | UNEXPECTED_ERROR

  /** The challenge of a QueryRequest; `Dangling` is a null pointer with a positive length. */
  datatype Challenge = Absent | Dangling | Given(bytes: Bytes)

  predicate IsUncompressedP256(key: Bytes) {
    |key| == PUBLIC_KEY && key[0] == 4
  }

  function ChallengeBytes(c: Challenge): Bytes {
    if c.Given? then c.bytes else []
  }

  /** x || y || challenge */
  function RawReportData(key: Bytes, c: Challenge): Bytes
    requires IsUncompressedP256(key)
  {
    key[1..] + ChallengeBytes(c)
  }

  /** What is hashed: the length of the challenge is cast to 32 bits. */
  function Hashed(key: Bytes, c: Challenge): Bytes
    requires IsUncompressedP256(key)
  {
    key[1..] + ChallengeBytes(c)[..ToUint32(|ChallengeBytes(c)|)]
  }

  function ReportData(key: Bytes, c: Challenge, sha: Sha384): (r: Bytes)
    requires IsUncompressedP256(key)
    ensures |r| == REPORT_DATA
  {
    sha(Hashed(key, c)) + Zeros(REPORT_DATA - DIGEST)
  }

  /** The verifier's check of a quote's report data against the raw report data sent with it. */
  predicate Bound(reportData: Bytes, raw: Bytes, sha: Sha384) {
    |reportData| == REPORT_DATA && reportData[..DIGEST] == sha(raw)
    && reportData[DIGEST..] == Zeros(REPORT_DATA - DIGEST)
  }

  ghost predicate Collision384(sha: Sha384, x: Bytes, y: Bytes) {
    x != y && sha(x) == sha(y)
  }

  /** The quote is bound to the raw report data exactly when the challenge is shorter than 2^32 bytes,
      short of an actual SHA-384 collision. */
  lemma {:induction false} BindingIff(key: Bytes, c: Challenge, sha: Sha384)
    requires IsUncompressedP256(key)
    ensures Bound(ReportData(key, c, sha), RawReportData(key, c), sha) <==>
            |ChallengeBytes(c)| < TWO32 || Collision384(sha, Hashed(key, c), RawReportData(key, c))
  {
    var n := |ChallengeBytes(c)|;
    var r := ReportData(key, c, sha);
    assert r[..DIGEST] == sha(Hashed(key, c)) && r[DIGEST..] == Zeros(REPORT_DATA - DIGEST);
    if n < TWO32 {
      assert ChallengeBytes(c)[..ToUint32(n)] == ChallengeBytes(c);
    } else {
      assert |Hashed(key, c)| < |RawReportData(key, c)|;
    }
  }

  /** MAX_RECEIVE_BUFFER_SIZE: what the application can receive from the TAM. */
  const MAX_RECEIVED: nat := 20 * 1024 * 1024

  /** A challenge that came in a message of the TAM is hashed whole. */
  lemma {:induction false} ReceivedChallengeBound(key: Bytes, c: Challenge, sha: Sha384)
    requires IsUncompressedP256(key) && |ChallengeBytes(c)| <= MAX_RECEIVED
    ensures Hashed(key, c) == RawReportData(key, c) && Bound(ReportData(key, c, sha), RawReportData(key, c), sha)
  {
    BindingIff(key, c, sha);
    assert ChallengeBytes(c)[..ToUint32(|ChallengeBytes(c)|)] == ChallengeBytes(c);
  }

  // ---------------------------------------------------------------- envelope

  function Envelope(quote: Bytes, raw: Bytes): Item {
    Array([Bstr(quote), Bstr(raw)])
  }

  function DecodeEnvelope(b: Bytes): Option<(Bytes, Bytes)> {
    match Decode(b)
    case Some((Array(items), rest)) =>
      if rest == [] && |items| == 2 && items[0].Bstr? && items[1].Bstr?
      then Some((items[0].bytes, items[1].bytes)) else None
    case _ => None
  }

  /** The attestation payload decodes to the quote and to x || y || challenge; cut at byte 64, the latter
      gives back both coordinates and the challenge; and the quote's report data is bound to it. */
  lemma {:induction false} EnvelopeRoundTrip(key: Bytes, c: Challenge, quote: Bytes, sha: Sha384)
    requires IsUncompressedP256(key) && |quote| < LIMIT && |ChallengeBytes(c)| < TWO32
    ensures Ok(Envelope(quote, RawReportData(key, c)))
    ensures DecodeEnvelope(Encode(Envelope(quote, RawReportData(key, c)))) == Some((quote, RawReportData(key, c)))
    ensures RawReportData(key, c)[..2 * COORDINATE] == key[1..]
    ensures RawReportData(key, c)[2 * COORDINATE..] == ChallengeBytes(c)
    ensures Bound(ReportData(key, c, sha), RawReportData(key, c), sha)
  {
    var raw := RawReportData(key, c);
    var i := Envelope(quote, raw);
    TcInfo.TwoItems(Bstr(quote), Bstr(raw));
    RoundTrip(i, []);
    assert Encode(i) + [] == Encode(i);
    BindingIff(key, c, sha);
  }

  // ---------------------------------------------------------------- the code

  /** The hash context of the SGX library: what it has absorbed so far. */
  class ShaStream {
    var absorbed: Bytes
    var open: bool

    constructor ()
      ensures absorbed == [] && open
    {
      absorbed, open := [], true;
    }

    method Update(data: Bytes, len: nat, ok: bool)
      requires open && len <= |data|
      modifies this`absorbed
      ensures ok ==> absorbed == old(absorbed) + data[..len]
    {
      absorbed := absorbed + data[..len];
    }

    method Close()
      requires open
      modifies this`open
      ensures !open
    {
      open := false;
    }
  }

  datatype ShaEnv = ShaEnv(init: bool, x: bool, y: bool, challenge: bool, hash: bool, close: bool)

  predicate ShaWorks(env: ShaEnv, c: Challenge) {
    env.init && env.x && env.y && (ChallengeBytes(c) == [] || env.challenge) && env.hash && env.close
  }

  /** create_dcap_report_data */
  method CreateReportData(key: Bytes, c: Challenge, sha: Sha384, env: ShaEnv) returns (err: TeepErr, data: Bytes)
    ensures err == if !IsUncompressedP256(key) || c.Dangling? then INVALID_VALUE
                   else if ShaWorks(env, c) then SUCCESS else UNEXPECTED_ERROR
    ensures err == SUCCESS ==> data == ReportData(key, c, sha)
  {
    data := [];
    if !IsUncompressedP256(key) || c.Dangling? {
      return INVALID_VALUE, data;
    }
    var challenge := ChallengeBytes(c);
    if !env.init {
      return UNEXPECTED_ERROR, data;
    }
    var stream := new ShaStream();
    var x, y := key[1..1 + COORDINATE], key[1 + COORDINATE..];
    stream.Update(x, COORDINATE, env.x);
    var ok := env.x;
    if ok {
      stream.Update(y, COORDINATE, env.y);
      ok := env.y;
    }
    if ok && |challenge| > 0 {
      stream.Update(challenge, ToUint32(|challenge|), env.challenge);
      ok := env.challenge;
    }
    var digest := Zeros(DIGEST);
    if ok {
      digest := sha(stream.absorbed);
      ok := env.hash;
      assert stream.absorbed == Hashed(key, c) by { assert x + y == key[1..]; }
    }
    stream.Close();
    if !ok || !env.close {
      return UNEXPECTED_ERROR, data;
    }
    return SUCCESS, digest + Zeros(REPORT_DATA - DIGEST);
  }

  /** create_raw_dcap_report_data */
  method CreateRawReportData(heap: Heap, key: Bytes, c: Challenge, alloc: bool) returns (err: TeepErr, raw: UsefulBuf)
    requires heap.Valid()
    modifies heap
    ensures heap.Valid()
    ensures err == if !IsUncompressedP256(key) || c.Dangling? then INVALID_VALUE
                   else if alloc then SUCCESS else NO_MEMORY
    ensures err != SUCCESS ==> raw == NULL_BUF && heap.blocks == old(heap.blocks)
    ensures err == SUCCESS ==> raw.ptr !in old(heap.blocks) && raw.ptr != 0
    ensures err == SUCCESS ==> heap.blocks == old(heap.blocks)[raw.ptr := RawReportData(key, c)]
  {
    if !IsUncompressedP256(key) || c.Dangling? {
      return INVALID_VALUE, NULL_BUF;
    }
    var challenge := ChallengeBytes(c);
    var buf := new byte[2 * COORDINATE + |challenge|];
    forall k | 0 <= k < 2 * COORDINATE {
      buf[k] := key[1 + k];
    }
    forall k | 0 <= k < |challenge| {
      buf[2 * COORDINATE + k] := challenge[k];
    }
    assert buf[..] == RawReportData(key, c);
    var p := heap.Duplicate(buf[..], alloc);
    if p == 0 {
      return NO_MEMORY, NULL_BUF;
    }
    return SUCCESS, UsefulBuf(p, buf.Length);
  }

  /** The platform: whether each call succeeds, and the quote it gives for a report. */
  datatype QuoteEnv = QuoteEnv(
    quoteAlloc: bool, targetInfo: bool, sha: ShaEnv, report: bool, quoteSize: bool,
    quote: Bytes -> Bytes, getQuote: bool, rawAlloc: bool)

  /** create_evidence_dcap, after its arguments have been checked. */
  method CreateQuote(key: Bytes, c: Challenge, sha: Sha384, cap: nat, env: QuoteEnv)
    returns (err: TeepErr, quote: Bytes)
    requires IsUncompressedP256(key)
    ensures err == QuoteErr(key, c, sha, cap, env)
    ensures err == SUCCESS ==> quote == env.quote(ReportData(key, c, sha)) && 0 < |quote| <= cap
  {
    quote := [];
    if c.Dangling? {
      return INVALID_VALUE, quote;
    }
    if !env.targetInfo {
      return UNEXPECTED_ERROR, quote;
    }
    var data;
    err, data := CreateReportData(key, c, sha, env.sha);
    if err != SUCCESS {
      return;
    }
    if !env.report || !env.quoteSize {
      return UNEXPECTED_ERROR, quote;
    }
    var q := env.quote(data);
    if |q| == 0 || |q| > cap {
      return NO_MEMORY, quote;
    }
    if !env.getQuote {
      return UNEXPECTED_ERROR, quote;
    }
    return SUCCESS, q;
  }

  function QuoteErr(key: Bytes, c: Challenge, sha: Sha384, cap: nat, env: QuoteEnv): TeepErr
    requires IsUncompressedP256(key)
  {
    if c.Dangling? then INVALID_VALUE
    else if !env.targetInfo || !ShaWorks(env.sha, c) || !env.report || !env.quoteSize then UNEXPECTED_ERROR
    else
      var size := |env.quote(ReportData(key, c, sha))|;
      if size == 0 || size > cap then NO_MEMORY
      else if !env.getQuote then UNEXPECTED_ERROR
      else SUCCESS
  }

  /** What create_evidence_dcap_envelope returns for a region of `cap` bytes. */
  datatype EvidenceResult = EvidenceResult(err: TeepErr, payload: Bytes)

  function EvidenceOf(key: Bytes, c: Challenge, sha: Sha384, cap: nat, env: QuoteEnv): EvidenceResult
    requires cap < LIMIT && |ChallengeBytes(c)| < LIMIT - 2 * COORDINATE
  {
    if !IsUncompressedP256(key) || cap == 0 then EvidenceResult(INVALID_VALUE, [])
    else if !env.quoteAlloc then EvidenceResult(NO_MEMORY, [])
    else if QuoteErr(key, c, sha, cap, env) != SUCCESS then EvidenceResult(QuoteErr(key, c, sha, cap, env), [])
    else if !env.rawAlloc then EvidenceResult(NO_MEMORY, [])
    else
      var q, raw := env.quote(ReportData(key, c, sha)), RawReportData(key, c);
      TcInfo.TwoItems(Bstr(q), Bstr(raw));
      var bytes := Encode(Envelope(q, raw));
      if |bytes| <= cap then EvidenceResult(SUCCESS, bytes) else EvidenceResult(UNEXPECTED_ERROR, [])
  }

  function EnvelopeBytes(quote: Bytes, raw: Bytes): Bytes
    requires |quote| < LIMIT && |raw| < LIMIT
  {
    TcInfo.TwoItems(Bstr(quote), Bstr(raw));
    Encode(Envelope(quote, raw))
  }

  /** Evidence is created if and only if the key is an uncompressed point, the challenge is not a dangling
      pointer, both buffers can be allocated, the platform answers every call and hashes everything there
      is, and quote and payload fit the region. */
  lemma {:induction false} EvidenceSucceedsIff(key: Bytes, c: Challenge, sha: Sha384, cap: nat, env: QuoteEnv)
    requires cap < LIMIT && |ChallengeBytes(c)| < LIMIT - 2 * COORDINATE
    ensures EvidenceOf(key, c, sha, cap, env).err == SUCCESS <==>
      && |key| == 65 && key[0] == 4 && cap > 0 && !c.Dangling?
      && env.quoteAlloc && env.rawAlloc && env.targetInfo && env.report && env.quoteSize && env.getQuote
      && env.sha.init && env.sha.x && env.sha.y && env.sha.hash && env.sha.close
      && (ChallengeBytes(c) == [] || env.sha.challenge)
      && var quote := env.quote(ReportData(key, c, sha));
         0 < |quote| <= cap && |EnvelopeBytes(quote, RawReportData(key, c))| <= cap
  {
    hide Encode;
    if IsUncompressedP256(key) && |env.quote(ReportData(key, c, sha))| <= cap {
      TcInfo.TwoItems(Bstr(env.quote(ReportData(key, c, sha))), Bstr(RawReportData(key, c)));
    }
  }

  /** What each error stands for. */
  lemma {:induction false} EvidenceErrors(key: Bytes, c: Challenge, sha: Sha384, cap: nat, env: QuoteEnv)
    requires cap < LIMIT && |ChallengeBytes(c)| < LIMIT - 2 * COORDINATE
    ensures var r := EvidenceOf(key, c, sha, cap, env);
      var usable := |key| == 65 && key[0] == 4 && cap > 0;
      && (r.err == INVALID_VALUE <==> !usable || (env.quoteAlloc && c.Dangling?))
      && (usable && !env.quoteAlloc ==> r.err == NO_MEMORY)
      && (r.err != SUCCESS ==> r.payload == [])
  {
  }

  /** These 64 bytes, put into a quote, bind it to this raw data: its SHA-384, and zeros. */
  ghost predicate Binds(d: Bytes, raw: Bytes, sha: Sha384) {
    |d| == 64 && d[..48] == sha(raw) && forall k :: 48 <= k < 64 ==> d[k] == 0
  }

  /** What a verifier finds in evidence: the quote of some report data, together with x, y and the challenge;
      and the report data in the quote is bound to these, when the challenge is shorter than 2^32 bytes. */
  lemma {:induction false} EvidenceBinds(key: Bytes, c: Challenge, sha: Sha384, cap: nat, env: QuoteEnv)
    requires cap < LIMIT && |ChallengeBytes(c)| < LIMIT - 2 * COORDINATE
    requires EvidenceOf(key, c, sha, cap, env).err == SUCCESS
    ensures |key| == 65
    ensures exists d :: DecodeEnvelope(EvidenceOf(key, c, sha, cap, env).payload)
                        == Some((env.quote(d), key[1..33] + key[33..65] + ChallengeBytes(c)))
              && (|ChallengeBytes(c)| < TWO32 ==> Binds(d, key[1..33] + key[33..65] + ChallengeBytes(c), sha))
  {
    var d, raw := ReportData(key, c, sha), RawReportData(key, c);
    var i := Envelope(env.quote(d), raw);
    assert raw == key[1..33] + key[33..65] + ChallengeBytes(c);
    TcInfo.TwoItems(Bstr(env.quote(d)), Bstr(raw));
    RoundTrip(i, []);
    assert Encode(i) + [] == Encode(i);
    if |ChallengeBytes(c)| < TWO32 {
      BindingIff(key, c, sha);
      assert d[..48] == sha(raw);
      assert forall k :: 48 <= k < 64 ==> d[k] == d[48..][k - 48];
    }
  }

  /** create_evidence_dcap_envelope: the payload is left at the start of the region, nothing outside the
      region is touched, and both temporary buffers are freed on every exit. */
  method CreateEnvelope(heap: Heap, buf: array<byte>, start: nat, cap: nat, key: Bytes, c: Challenge, sha: Sha384,
      env: QuoteEnv)
    returns (err: TeepErr, len: nat)
    requires heap.Valid() && start + cap <= buf.Length && cap < LIMIT
    requires |ChallengeBytes(c)| < LIMIT - 2 * COORDINATE
    modifies heap, buf
    ensures heap.Valid() && heap.blocks == old(heap.blocks)
    ensures var r := EvidenceOf(key, c, sha, cap, env);
      err == r.err && len == |r.payload| <= cap && (err == SUCCESS ==> buf[start..start + len] == r.payload)
    ensures forall k :: 0 <= k < buf.Length && !(start <= k < start + cap) ==> buf[k] == old(buf[k])
  {
    len := 0;
    if !IsUncompressedP256(key) || cap == 0 {
      return INVALID_VALUE, len;
    }
    var quoteBuf := heap.Duplicate(Zeros(cap), env.quoteAlloc);
    if quoteBuf == 0 {
      return NO_MEMORY, len;
    }
    var quote;
    err, quote := CreateQuote(key, c, sha, cap, env);
    var raw := NULL_BUF;
    if err == SUCCESS {
      err, raw := CreateRawReportData(heap, key, c, env.rawAlloc);
      if err == SUCCESS {
        err, len := EncodeEnvelope(buf, start, cap, quote, heap.blocks[raw.ptr]);
      }
    }
    if raw.ptr != 0 {
      heap.Free(raw.ptr);
    }
    heap.Free(quoteBuf);
    assert heap.blocks == old(heap.blocks);
  }

  method EncodeEnvelope(buf: array<byte>, start: nat, cap: nat, quote: Bytes, raw: Bytes)
    returns (err: TeepErr, len: nat)
    requires start + cap <= buf.Length && |quote| < LIMIT && |raw| < LIMIT
    modifies buf
    ensures Ok(Envelope(quote, raw))
    ensures var bytes := Encode(Envelope(quote, raw));
      if |bytes| <= cap then err == SUCCESS && len == |bytes| && buf[start..start + len] == bytes
      else err == UNEXPECTED_ERROR && len == 0
    ensures forall k :: 0 <= k < buf.Length && !(start <= k < start + cap) ==> buf[k] == old(buf[k])
  {
    hide Encode, Head;
    var enc := new Encoder(buf, start, cap);
    EncodePair(enc, quote, raw);
    assert [] + Encode(Envelope(quote, raw)) == Encode(Envelope(quote, raw));
    if enc.failed {
      return UNEXPECTED_ERROR, 0;
    }
    assert buf[start..start + enc.size] == enc.log;
    return SUCCESS, enc.size;
  }

  method EncodePair(enc: Encoder, quote: Bytes, raw: Bytes)
    requires enc.Valid() && |quote| < LIMIT && |raw| < LIMIT
    modifies enc, if enc.buf == null then {} else {enc.buf}
    ensures Ok(Envelope(quote, raw))
    ensures enc.Valid() && enc.log == old(enc.log) + Encode(Envelope(quote, raw)) && enc.OutsideKept()
  {
    ghost var log0 := enc.log;
    TcInfo.TwoItems(Bstr(quote), Bstr(raw));
    var array0 := enc.size;
    enc.AddBytes(quote);
    enc.AddBytes(raw);
    ghost var body := Encode(Bstr(quote)) + Encode(Bstr(raw));
    assert enc.log == log0 + body;
    enc.Close(array0, 4, 2, log0, body);
  }
}
