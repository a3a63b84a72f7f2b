/**
 * suit_processor_wrapper.cpp on values, and the processing of one SUIT envelope as the library drives
 * it: any list of callbacks, stopping at the first that fails, then possibly a closing report.
 */
module Suit {
  import opened Basics
  import opened TcTable
  import opened TcProperties

  datatype SuitErr =
    | SUIT_SUCCESS | SUIT_FATAL | SUIT_CONDITION_MISMATCH | SUIT_NOT_IMPLEMENTED | SUIT_CBOR_PARSE | SUIT_NO_MEMORY
    | SUIT_INVALID_VALUE

  /** A decoded SUIT digest. */
  datatype SuitDigest = SuitDigest(isSha256: bool, bytes: Bytes)

  /** The expected size (0 when not given) and digest (None when it does not decode). */
  datatype ImageMatch = ImageMatch(size: nat, digest: Option<SuitDigest>)

  datatype Callback =
    | StoreCall(args: StoreArgs, env: StoreEnv)
    | ConditionCall(digest: Bytes, imageMatch: Option<ImageMatch>)   // None: any other condition
    | ReportCall(report: Bytes, alloc: bool)
    | InvokeCall

  /** The table, and the SUIT report last captured ([] when none is). */
  datatype State = State(table: Table, report: Bytes)

  datatype Step = Step(state: State, err: SuitErr)

  /** __wrap_suit_condition_callback */
  function Condition(t: Table, digest: Bytes, c: Option<ImageMatch>): SuitErr {
    match Lookup(t, digest)
    case None => SUIT_FATAL
    case Some(e) =>
      match c
      case None => SUIT_SUCCESS
      case Some(ImageMatch(size, expected)) =>
        if e.wappBin == [] then SUIT_CONDITION_MISMATCH
        else if size != 0 && |e.wappBin| != size then SUIT_CONDITION_MISMATCH
        else match expected
          case None => SUIT_CBOR_PARSE
          case Some(d) =>
            if !d.isSha256 || |d.bytes| != HASH_LEN then SUIT_NOT_IMPLEMENTED
            else if d.bytes != e.wappHash then SUIT_CONDITION_MISMATCH
            else SUIT_SUCCESS
  }

  datatype Reason = COMPONENT_UNSUPPORTED | CONDITION_FAILED | CBOR_UNPARSABLE

  datatype Parameter = IMAGE_SIZE | IMAGE_DIGEST

  /** What a condition callback notes down for the library: why it failed, and which parameters it used. */
  datatype Notes = Notes(reason: Option<Reason>, key0: Option<Parameter>, key1: Option<Parameter>)

  const NO_NOTES := Notes(None, None, None)

  function Noted(t: Table, digest: Bytes, c: Option<ImageMatch>, before: Notes): Notes {
    match Lookup(t, digest)
    case None => before.(reason := Some(COMPONENT_UNSUPPORTED))
    case Some(e) =>
      match c
      case None => before
      case Some(ImageMatch(size, expected)) =>
        if e.wappBin == [] then before.(reason := Some(COMPONENT_UNSUPPORTED))
        else if size != 0 && |e.wappBin| != size then
          before.(reason := Some(CONDITION_FAILED), key0 := Some(IMAGE_SIZE))
        else match expected
          case None => before.(reason := Some(CBOR_UNPARSABLE))
          case Some(d) =>
            if !d.isSha256 || |d.bytes| != HASH_LEN then before.(reason := Some(COMPONENT_UNSUPPORTED))
            else
              var used := before.(key0 := Some(IMAGE_SIZE), key1 := Some(IMAGE_DIGEST));
              if d.bytes != e.wappHash then used.(reason := Some(CONDITION_FAILED)) else used
  }

  predicate DigestCompared(t: Table, digest: Bytes, c: Option<ImageMatch>) {
    && Lookup(t, digest).Some? && c.Some?
    && var e, m := Lookup(t, digest).value, c.value;
       && e.wappBin != [] && (m.size == 0 || |e.wappBin| == m.size)
       && m.digest.Some? && m.digest.value.isSha256 && |m.digest.value.bytes| == HASH_LEN
  }

  predicate WrongSize(t: Table, digest: Bytes, c: Option<ImageMatch>) {
    && Lookup(t, digest).Some? && c.Some?
    && Lookup(t, digest).value.wappBin != [] && c.value.size != 0 && |Lookup(t, digest).value.wappBin| != c.value.size
  }

  /** A reason is noted exactly when the condition fails; the digest is noted as used exactly when it was
      compared; and CONDITION_FAILED stands for another digest than demanded if it was, and otherwise for
      another size. */
  lemma {:induction false} NotesTell(t: Table, digest: Bytes, c: Option<ImageMatch>)
    ensures var n := Noted(t, digest, c, NO_NOTES);
      && (n.reason == None <==> Condition(t, digest, c) == SUIT_SUCCESS)
      && (n.key1 == Some(IMAGE_DIGEST) <==> DigestCompared(t, digest, c))
      && (n.reason == Some(CONDITION_FAILED) <==>
            if DigestCompared(t, digest, c) then c.value.digest.value.bytes != Lookup(t, digest).value.wappHash
            else WrongSize(t, digest, c))
  {
  }

  /** __wrap_suit_report_callback: an empty report leaves the last one; a report that cannot be copied
      leaves none. */
  function Report(before: Bytes, report: Bytes, alloc: bool): (Bytes, SuitErr) {
    if report == [] then (before, SUIT_SUCCESS)
    else if !alloc then ([], SUIT_NO_MEMORY)
    else (report, SUIT_SUCCESS)
  }

  function Call(s: State, c: Callback, sha: DigestFunction): Step {
    match c
    case StoreCall(a, env) =>
      if !a.isStore then Step(s, SUIT_SUCCESS)
      else
        var o := Store(s.table, a, env, sha);
        Step(s.(table := o.table), if o.ok then SUIT_SUCCESS else SUIT_FATAL)
    case ConditionCall(d, m) => Step(s, Condition(s.table, d, m))
    case ReportCall(r, alloc) => var (report, err) := Report(s.report, r, alloc); Step(s.(report := report), err)
    case InvokeCall => Step(s, SUIT_SUCCESS)
  }

  /** The callbacks in order, up to and including the first that fails. */
  function Calls(s: State, calls: seq<Callback>, sha: DigestFunction): Step
    decreases |calls|
  {
    if calls == [] then Step(s, SUIT_SUCCESS)
    else
      var r := Call(s, calls[0], sha);
      if r.err != SUIT_SUCCESS then r else Calls(r.state, calls[1..], sha)
  }

  /** One envelope: the digest of its manifest, the callbacks made for it, whether the library fails on
      its own, and the report it delivers at the end, which may follow a failure. */
  datatype Envelope = Envelope(digest: Bytes, calls: seq<Callback>, fails: bool, closing: Option<Callback>)

  datatype EnvelopeResult = EnvelopeResult(state: State, ok: bool)

  function ProcessEnvelope(s: State, e: Envelope, sha: DigestFunction): EnvelopeResult {
    var r := Calls(s, e.calls, sha);
    var ok := r.err == SUIT_SUCCESS && !e.fails;
    match e.closing
    case Some(ReportCall(report, alloc)) =>
      var last := Call(r.state, ReportCall(report, alloc), sha);
      EnvelopeResult(last.state, ok && last.err == SUIT_SUCCESS)
    case _ => EnvelopeResult(r.state, ok)
  }

  /** All callbacks carry the digest of the one manifest being processed. */
  predicate Keyed(e: Envelope) {
    forall k :: 0 <= k < |e.calls| ==>
      && (e.calls[k].StoreCall? ==> e.calls[k].args.digest == e.digest)
      && (e.calls[k].ConditionCall? ==> e.calls[k].digest == e.digest)
  }

  /** A callback does to the table what one operation does, or nothing. */
  lemma {:induction false} CallIsOperation(s: State, c: Callback, sha: DigestFunction)
    ensures Call(s, c, sha).state.table ==
            if c.StoreCall? then Apply(s.table, StoreOp(c.args, c.env), sha) else s.table
  {
  }

  // ------------------------------------------------------------------ frames

  lemma {:induction false} CallKeepsInv(s: State, c: Callback, sha: DigestFunction)
    requires Inv(s.table)
    ensures Inv(Call(s, c, sha).state.table)
  {
    if c.StoreCall? { StoreFrame(s.table, c.args, c.env, sha); }
  }

  lemma {:induction false} CallsKeepInv(s: State, calls: seq<Callback>, sha: DigestFunction)
    requires Inv(s.table)
    ensures Inv(Calls(s, calls, sha).state.table)
    decreases |calls|
  {
    if calls != [] {
      CallKeepsInv(s, calls[0], sha);
      if Call(s, calls[0], sha).err == SUIT_SUCCESS {
        CallsKeepInv(Call(s, calls[0], sha).state, calls[1..], sha);
      }
    }
  }

  /** Processing an envelope, failing or not, keeps the table invariant. */
  lemma {:induction false} EnvelopeKeepsInv(s: State, e: Envelope, sha: DigestFunction)
    requires Inv(s.table)
    ensures Inv(ProcessEnvelope(s, e, sha).state.table)
  {
    CallsKeepInv(s, e.calls, sha);
  }

  // ------------------------------------------------------------- image match

  predicate StoresAPayload(c: Callback) {
    c.StoreCall? && c.args.isStore && !c.args.isManifest
  }

  lemma {:induction false} CallsSplit(s: State, calls: seq<Callback>, k: nat, sha: DigestFunction)
    requires k <= |calls| && Calls(s, calls, sha).err == SUIT_SUCCESS
    ensures Calls(s, calls[..k], sha).err == SUIT_SUCCESS
    ensures Calls(Calls(s, calls[..k], sha).state, calls[k..], sha) == Calls(s, calls, sha)
    decreases |calls|
  {
    if k > 0 {
      var s1 := Call(s, calls[0], sha).state;
      CallsSplit(s1, calls[1..], k - 1, sha);
      assert calls[..k][0] == calls[0] && calls[..k][1..] == calls[1..][..k - 1];
      assert calls[1..][k - 1..] == calls[k..];
    } else {
      assert calls[k..] == calls;
    }
  }

  /** The payload and its hash, as stored for a manifest. */
  ghost predicate Carries(t: Table, d: Bytes, bin: Bytes, hash: Hash) {
    Lookup(t, d).Some? && Lookup(t, d).value.wappBin == bin && Lookup(t, d).value.wappHash == hash
  }

  lemma {:induction false} StoreLookup(t: Table, a: StoreArgs, env: StoreEnv, sha: DigestFunction)
    requires a.isStore && Store(t, a, env, sha).ok
    ensures var t' := Store(t, a, env, sha).table;
      && Lookup(t', a.digest).Some?
      && Lookup(t', a.digest).value ==
         WriteFields(if Lookup(t, a.digest).Some? then Lookup(t, a.digest).value else Blank(a.digest), a, env, sha)
  {
    var t' := Store(t, a, env, sha).table;
    match FindDigest(t, a.digest) {
      case Some(i) =>
        assert t'[i].digest == a.digest && forall k :: 0 <= k < i ==> t'[k] == t[k];
      case None =>
        assert t'[|t|].digest == a.digest && forall k :: 0 <= k < |t| ==> t'[k] == t[k];
    }
  }

  lemma {:induction false} CallCarries(s: State, c: Callback, d: Bytes, bin: Bytes, hash: Hash, sha: DigestFunction)
    requires Inv(s.table) && Carries(s.table, d, bin, hash)
    requires !StoresAPayload(c) && Call(s, c, sha).err == SUIT_SUCCESS
    ensures Carries(Call(s, c, sha).state.table, d, bin, hash)
  {
    if c.StoreCall? && c.args.isStore {
      StoreFrame(s.table, c.args, c.env, sha);
      StoreLookup(s.table, c.args, c.env, sha);
    }
  }

  lemma {:induction false} CallsCarry(s: State, calls: seq<Callback>, d: Bytes, bin: Bytes, hash: Hash,
      sha: DigestFunction)
    requires Inv(s.table) && Carries(s.table, d, bin, hash)
    requires (forall k :: 0 <= k < |calls| ==> !StoresAPayload(calls[k])) && Calls(s, calls, sha).err == SUIT_SUCCESS
    ensures Carries(Calls(s, calls, sha).state.table, d, bin, hash)
    decreases |calls|
  {
    if calls != [] {
      CallKeepsInv(s, calls[0], sha);
      CallCarries(s, calls[0], d, bin, hash, sha);
      CallsCarry(Call(s, calls[0], sha).state, calls[1..], d, bin, hash, sha);
    }
  }

  /** Callback `p` is the last payload store of the envelope, and callback `c` after it is an
      image-match condition. */
  predicate Checked(e: Envelope, p: nat, c: nat) {
    && p < c < |e.calls| && StoresAPayload(e.calls[p])
    && (forall k :: p < k < |e.calls| ==> !StoresAPayload(e.calls[k]))
    && e.calls[c].ConditionCall? && e.calls[c].imageMatch.Some?
  }

  /** What an envelope that was processed without error leaves, when its last payload store is followed
      by an image-match condition: a record whose hash field is the expected digest and whose payload has
      the expected size; and the payload really has that digest exactly when hashing it did not fail with
      a wrong value left in the field. */
  lemma {:induction false} ImageMatched(s: State, e: Envelope, p: nat, c: nat, sha: DigestFunction)
    requires Inv(s.table) && Keyed(e) && Checked(e, p, c) && ProcessEnvelope(s, e, sha).ok
    ensures var t := ProcessEnvelope(s, e, sha).state.table;
      var m := e.calls[c].imageMatch.value;
      var fault := e.calls[p].env.hashFault;
      var bin := e.calls[p].args.src;
      && Lookup(t, e.digest).Some?
      && var r := Lookup(t, e.digest).value;
         && r.wappBin == bin && r.wappBin != [] && (m.size != 0 ==> |r.wappBin| == m.size)
         && m.digest.Some? && m.digest.value.isSha256 && r.wappHash == m.digest.value.bytes
         && (sha(r.wappBin) == m.digest.value.bytes <==> !(fault.Some? && fault.value != sha(bin)))
  {
    var bin, fault := e.calls[p].args.src, e.calls[p].env.hashFault;
    var s1 := Calls(s, e.calls[..p], sha).state;
    CallsSplit(s, e.calls, p, sha);
    CallsKeepInv(s, e.calls[..p], sha);
    var rest := e.calls[p..];
    assert rest[0] == e.calls[p];
    var s2 := Call(s1, rest[0], sha).state;
    CallKeepsInv(s1, rest[0], sha);
    StoreLookup(s1.table, e.calls[p].args, e.calls[p].env, sha);
    var r := Lookup(s2.table, e.digest).value;
    var after := rest[1..];
    assert forall k :: 0 <= k < |after| ==> after[k] == e.calls[p + 1 + k];
    var q := c - p - 1;
    CallsSplit(s2, after, q, sha);
    CallsCarry(s2, after[..q], e.digest, r.wappBin, r.wappHash, sha);
    var s3 := Calls(s2, after[..q], sha).state;
    assert after[q..][0] == e.calls[c];
    assert Condition(s3.table, e.digest, e.calls[c].imageMatch) == SUIT_SUCCESS;
    CallsCarry(s2, after, e.digest, r.wappBin, r.wappHash, sha);
    assert r.wappBin == bin;
  }

  /** End to end: when such an envelope is then finalised without error, its record is in the table as
      image-matched, or it was discarded because a record of the same app is newer. */
  lemma {:induction false} InstalledImageMatches(s: State, e: Envelope, p: nat, c: nat, sha: DigestFunction)
    requires Inv(s.table) && Keyed(e) && Checked(e, p, c) && ProcessEnvelope(s, e, sha).ok
    requires e.calls[p].env.hashFault == None
    requires Finalise(ProcessEnvelope(s, e, sha).state.table, e.digest).ok
    ensures var t := ProcessEnvelope(s, e, sha).state.table;
      var t' := Finalise(t, e.digest).table;
      var m := e.calls[c].imageMatch.value;
      if Lookup(t', e.digest) == None
      then exists i :: 0 <= i < |t'| && t'[i].wappName == Lookup(t, e.digest).value.wappName
             && t'[i].seqNo > Lookup(t, e.digest).value.seqNo
      else
        var r := Lookup(t', e.digest).value;
        && Complete(r) && m.digest.Some? && sha(r.wappBin) == m.digest.value.bytes == r.wappHash
        && (m.size != 0 ==> |r.wappBin| == m.size)
  {
    var t := ProcessEnvelope(s, e, sha).state.table;
    ImageMatched(s, e, p, c, sha);
    EnvelopeKeepsInv(s, e, sha);
    FinalisedOrNewer(t, e.digest);
  }

  /** A finalised record is kept as it is, unless a record of the same app is newer. */
  lemma {:induction false} FinalisedOrNewer(t: Table, d: Bytes)
    requires Inv(t) && Finalise(t, d).ok
    ensures var t' := Finalise(t, d).table;
      var r := Lookup(t, d).value;
      if Lookup(t', d) == None then exists i :: 0 <= i < |t'| && t'[i].wappName == r.wappName && t'[i].seqNo > r.seqNo
      else Lookup(t', d) == Some(r) && Complete(r)
  {
    FinaliseFrame(t, d);
    FinaliseConserves(t, d);
    var i := FindDigest(t, d).value;
    match FindName(t, t[i].wappName, i) {
      case None =>
      case Some(j) =>
        if t[j].seqNo > t[i].seqNo {
          var t' := Finalise(t, d).table;
          assert t'[if j == |t| - 1 then i else j] == t[j];
        }
    }
  }
}
