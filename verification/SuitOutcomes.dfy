/** When the SUIT callbacks succeed, and when the processing of an envelope does. */
module SuitOutcomes {
  import opened Basics
  import opened TcTable
  import opened TcProperties
  import opened Suit

  // --------------------------------------------------------------- condition

  /** An image match succeeds if and only if the manifest has a record with a payload, of the demanded size
      when one is given, whose hash field is the demanded SHA-256 digest. */
  lemma {:induction false} ImageMatchIff(t: Table, digest: Bytes, m: ImageMatch)
    ensures Condition(t, digest, Some(m)) == SUIT_SUCCESS <==>
      && Lookup(t, digest).Some?
      && var e := Lookup(t, digest).value;
         && e.wappBin != [] && (m.size == 0 || m.size == |e.wappBin|)
         && m.digest.Some? && m.digest.value.isSha256 && m.digest.value.bytes == e.wappHash
  {
  }

  /** Any other condition succeeds if and only if the manifest has a record; and what each failure of a
      condition stands for. */
  lemma {:induction false} ConditionErrors(t: Table, digest: Bytes, c: Option<ImageMatch>)
    ensures c == None ==> (Condition(t, digest, c) == SUIT_SUCCESS <==> Lookup(t, digest).Some?)
    ensures Condition(t, digest, c) == SUIT_FATAL <==> Lookup(t, digest) == None
    ensures Lookup(t, digest).Some? && c.Some? ==>
      var e, m := Lookup(t, digest).value, c.value;
      var sized := e.wappBin != [] && (m.size == 0 || m.size == |e.wappBin|);
      var usable := m.digest.Some? && m.digest.value.isSha256 && |m.digest.value.bytes| == 32;
      && (Condition(t, digest, c) == SUIT_CBOR_PARSE <==> sized && m.digest == None)
      && (Condition(t, digest, c) == SUIT_NOT_IMPLEMENTED <==> sized && m.digest.Some? && !usable)
      && (Condition(t, digest, c) == SUIT_CONDITION_MISMATCH <==>
            !sized || (usable && m.digest.value.bytes != e.wappHash))
  {
  }

  /** The reason noted for each of these. */
  lemma {:induction false} ReasonsTell(t: Table, digest: Bytes, c: Option<ImageMatch>)
    ensures var err, reason := Condition(t, digest, c), Noted(t, digest, c, NO_NOTES).reason;
      && (reason == Some(CBOR_UNPARSABLE) <==> err == SUIT_CBOR_PARSE)
      && (reason == Some(COMPONENT_UNSUPPORTED) <==>
            || err == SUIT_FATAL || err == SUIT_NOT_IMPLEMENTED
            || (err == SUIT_CONDITION_MISMATCH && Lookup(t, digest).value.wappBin == []))
  {
  }

  // ------------------------------------------------------------------ report

  /** A report with contents replaces the last one, or leaves none when it cannot be copied; one without
      contents changes nothing. */
  lemma {:induction false} ReportReplaces(s: State, report: Bytes, alloc: bool, sha: DigestFunction)
    ensures var r := Call(s, ReportCall(report, alloc), sha);
      && r.state.table == s.table
      && (report != [] && alloc ==> r.state.report == report)
      && (report != [] && !alloc ==> r.state.report == [])
      && (report == [] ==> r.state.report == s.report)
      && (r.err == SUIT_SUCCESS <==> report == [] || alloc)
  {
  }

  /** A store callback succeeds if and only if its store does, and one that is for another operation than
      storing always does; conditions and invocations change nothing, and an invocation succeeds. */
  lemma {:induction false} CallOutcomes(s: State, c: Callback, sha: DigestFunction)
    ensures var r := Call(s, c, sha);
      && (c.StoreCall? && c.args.isStore ==>
            && r.state == s.(table := Store(s.table, c.args, c.env, sha).table)
            && r.err == if Store(s.table, c.args, c.env, sha).ok then SUIT_SUCCESS else SUIT_FATAL)
      && (c.StoreCall? && !c.args.isStore ==> r == Step(s, SUIT_SUCCESS))
      && (c.ConditionCall? ==> r == Step(s, Condition(s.table, c.digest, c.imageMatch)))
      && (c.InvokeCall? ==> r == Step(s, SUIT_SUCCESS))
  {
  }

  // ---------------------------------------------------------------- envelope

  /** The state after all these callbacks, none left out. */
  function FoldCalls(s: State, calls: seq<Callback>, sha: DigestFunction): State {
    if calls == [] then s
    else Call(FoldCalls(s, calls[..|calls| - 1], sha), calls[|calls| - 1], sha).state
  }

  predicate CallSucceeds(s: State, calls: seq<Callback>, k: nat, sha: DigestFunction)
    requires k < |calls|
  {
    Call(FoldCalls(s, calls[..k], sha), calls[k], sha).err == SUIT_SUCCESS
  }

  predicate AllSucceed(s: State, calls: seq<Callback>, n: nat, sha: DigestFunction)
    requires n <= |calls|
  {
    forall k :: 0 <= k < n ==> CallSucceeds(s, calls, k, sha)
  }

  /** One more callback, after callbacks that all succeed or not. */
  lemma {:induction false} CallsOneMore(s: State, calls: seq<Callback>, c: Callback, sha: DigestFunction)
    ensures var r := Calls(s, calls, sha);
      Calls(s, calls + [c], sha) == if r.err == SUIT_SUCCESS then Call(r.state, c, sha) else r
    decreases |calls|
  {
    var all := calls + [c];
    if calls == [] {
      assert all == [c] && all[1..] == [];
    } else {
      assert all[0] == calls[0] && all[1..] == calls[1..] + [c];
      var r := Call(s, calls[0], sha);
      if r.err == SUIT_SUCCESS { CallsOneMore(r.state, calls[1..], c, sha); }
    }
  }

  /** The callbacks end without error if and only if each of them succeeds in the state left by the ones
      before it; then all have been made. */
  lemma {:induction false} CallsSucceedIff(s: State, calls: seq<Callback>, sha: DigestFunction)
    ensures Calls(s, calls, sha).err == SUIT_SUCCESS <==> AllSucceed(s, calls, |calls|, sha)
    ensures Calls(s, calls, sha).err == SUIT_SUCCESS ==> Calls(s, calls, sha).state == FoldCalls(s, calls, sha)
    decreases |calls|
  {
    if calls != [] {
      hide Call;
      var n := |calls| - 1;
      var before := calls[..n];
      assert before + [calls[n]] == calls;
      CallsOneMore(s, before, calls[n], sha);
      CallsSucceedIff(s, before, sha);
      assert forall k :: 0 <= k < n ==> before[..k] == calls[..k] && before[k] == calls[k];
      if AllSucceed(s, calls, |calls|, sha) {
        forall k | 0 <= k < n
          ensures CallSucceeds(s, before, k, sha)
        {
          assert CallSucceeds(s, calls, k, sha);
        }
        assert CallSucceeds(s, calls, n, sha);
      }
      if AllSucceed(s, before, n, sha) && CallSucceeds(s, calls, n, sha) {
        forall k | 0 <= k < |calls|
          ensures CallSucceeds(s, calls, k, sha)
        {
          if k < n { assert CallSucceeds(s, before, k, sha); }
        }
      }
    }
  }

  /** The first callback that fails is the last that is made, and its error is the one reported. */
  lemma {:induction false} CallsStopAtFirst(s: State, calls: seq<Callback>, k: nat, sha: DigestFunction)
    requires k < |calls| && AllSucceed(s, calls, k, sha) && !CallSucceeds(s, calls, k, sha)
    ensures Calls(s, calls, sha) == Call(FoldCalls(s, calls[..k], sha), calls[k], sha)
    decreases |calls|
  {
    hide Call;
    var n := |calls| - 1;
    var before := calls[..n];
    assert before + [calls[n]] == calls;
    CallsOneMore(s, before, calls[n], sha);
    assert forall j :: 0 <= j < n ==> before[..j] == calls[..j] && before[j] == calls[j];
    if k < n {
      assert AllSucceed(s, before, k, sha) && !CallSucceeds(s, before, k, sha) by {
        forall j | 0 <= j < k
          ensures CallSucceeds(s, before, j, sha)
        {
          assert CallSucceeds(s, calls, j, sha);
        }
      }
      CallsStopAtFirst(s, before, k, sha);
    } else {
      assert AllSucceed(s, before, n, sha) by {
        forall j | 0 <= j < n
          ensures CallSucceeds(s, before, j, sha)
        {
          assert CallSucceeds(s, calls, j, sha);
        }
      }
      CallsSucceedIff(s, before, sha);
    }
  }

  /** An envelope is processed without error if and only if every callback succeeds, the library does not
      fail on its own, and the closing report, if there is one with contents, can be kept. */
  lemma {:induction false} EnvelopeSucceedsIff(s: State, e: Envelope, sha: DigestFunction)
    ensures ProcessEnvelope(s, e, sha).ok <==>
      && AllSucceed(s, e.calls, |e.calls|, sha) && !e.fails
      && match e.closing
         case Some(ReportCall(report, alloc)) => report == [] || alloc
         case _ => true
    ensures ProcessEnvelope(s, e, sha).ok ==>
      ProcessEnvelope(s, e, sha).state.table == FoldCalls(s, e.calls, sha).table
  {
    CallsSucceedIff(s, e.calls, sha);
  }
}
