/**
 * Where the SUIT report sent with a reply comes from. The processor keeps the last report captured, so a
 * manifest that fails without delivering one is reported with that of an earlier manifest or message, and
 * an Update whose manifests deliver none with that of an earlier Update.
 */
module SuitReports {
  import opened Basics
  import opened TcTable
  import opened Suit
  import opened AgentSpec

  /** How many callbacks are made: all, or those up to and including the first that fails. */
  function Made(s: State, calls: seq<Callback>, sha: DigestFunction): (n: nat)
    ensures n <= |calls|
    decreases |calls|
  {
    if calls == [] then 0
    else
      var r := Call(s, calls[0], sha);
      if r.err != SUIT_SUCCESS then 1 else 1 + Made(r.state, calls[1..], sha)
  }

  /** A report that the processor keeps, or fails to keep for want of memory. */
  predicate Delivers(c: Callback) {
    c.ReportCall? && c.report != []
  }

  predicate AnyDelivers(calls: seq<Callback>, n: nat)
    requires n <= |calls|
  {
    exists k :: 0 <= k < n && Delivers(calls[k])
  }

  /** A report was delivered while this envelope was processed. */
  predicate Reported(s: State, e: Envelope, sha: DigestFunction) {
    AnyDelivers(e.calls, Made(s, e.calls, sha)) || (e.closing.Some? && Delivers(e.closing.value))
  }

  lemma {:induction false} AnyDeliversFirst(calls: seq<Callback>, n: nat)
    requires 0 < n <= |calls|
    ensures AnyDelivers(calls, n) <==> Delivers(calls[0]) || AnyDelivers(calls[1..], n - 1)
  {
    if AnyDelivers(calls[1..], n - 1) {
      var k :| 0 <= k < n - 1 && Delivers(calls[1..][k]);
      assert Delivers(calls[k + 1]);
    }
    if AnyDelivers(calls, n) && !Delivers(calls[0]) {
      var k :| 0 <= k < n && Delivers(calls[k]);
      assert Delivers(calls[1..][k - 1]);
    }
  }

  /** An earlier report changes nothing but the report, and that only while none is delivered. */
  lemma {:induction false} CallsReport(s: State, x: Bytes, calls: seq<Callback>, sha: DigestFunction)
    ensures var r, r' := Calls(s, calls, sha), Calls(s.(report := x), calls, sha);
      && r'.err == r.err && r'.state.table == r.state.table
      && Made(s.(report := x), calls, sha) == Made(s, calls, sha)
      && r'.state.report == if AnyDelivers(calls, Made(s, calls, sha)) then r.state.report else x
    decreases |calls|
  {
    if calls != [] {
      var r, r' := Call(s, calls[0], sha), Call(s.(report := x), calls[0], sha);
      AnyDeliversFirst(calls, Made(s, calls, sha));
      if r.err == SUIT_SUCCESS {
        if Delivers(calls[0]) {
          CallsReport(r.state, r.state.report, calls[1..], sha);
          assert r' == r;
        } else {
          CallsReport(r.state, x, calls[1..], sha);
          assert r'.state == r.state.(report := x);
        }
      }
    }
  }

  /** The report left by an envelope is its own, whatever was there before, if and only if one was
      delivered while it was processed; otherwise it is the one that was there before. */
  lemma {:induction false} EnvelopeReport(s: State, x: Bytes, e: Envelope, sha: DigestFunction)
    ensures var r, r' := ProcessEnvelope(s, e, sha), ProcessEnvelope(s.(report := x), e, sha);
      && r'.ok == r.ok && r'.state.table == r.state.table
      && Reported(s.(report := x), e, sha) == Reported(s, e, sha)
      && r'.state.report == if Reported(s, e, sha) then r.state.report else x
  {
    CallsReport(s, x, e.calls, sha);
  }

  // ------------------------------------------------------------ error replies

  /** The report in the reply to an Update whose manifest `m` is the first to fail, processed from `s`. */
  function ErrorReport(s: State, token: Bytes, m: ManifestInput, sha: DigestFunction): Option<Bytes>
    requires ProcessManifest(s, m, sha).err.Some?
  {
    var r := ProcessManifest(s, m, sha);
    CreateError(token, r.err.value, if |r.state.report| <= WORK_LEN then r.state.report else []).errorReport
  }

  lemma {:induction false} ManifestFails(s: State, x: Bytes, m: ManifestInput, sha: DigestFunction)
    ensures ProcessManifest(s.(report := x), m, sha).err == ProcessManifest(s, m, sha).err
  {
    EnvelopeReport(s, x, m.envelope, sha);
  }

  /** The report sent when manifest `k` of an Update is the first that fails does not depend on what was
      captured before that manifest if and only if its own processing delivered a report. Otherwise it is
      the earlier report, when that fits. */
  lemma {:induction false} OwnReportIff(s: State, u: Update, lim: Limits, k: nat, sha: DigestFunction)
    requires FailsFirst(s, u, lim, k, sha)
    requires Some(MANIFEST_PROCESSING_FAILED)
          == ProcessManifest(Fold(s, u.manifests[..k], sha), u.manifests[k], sha).err
    ensures var before, m := Fold(s, u.manifests[..k], sha), u.manifests[k];
      && (forall x :: ProcessManifest(before.(report := x), m, sha).err.Some?)
      && ProcessUpdate(s, u, lim, sha).reply.Error?
      && ProcessUpdate(s, u, lim, sha).reply.errorReport == ErrorReport(before, u.token, m, sha)
      && ((forall x :: ErrorReport(before.(report := x), u.token, m, sha) == ErrorReport(before, u.token, m, sha))
          <==> Reported(before, m.envelope, sha))
      && (!Reported(before, m.envelope, sha) ==>
            ErrorReport(before, u.token, m, sha) ==
            if before.report != [] && |before.report| <= WORK_LEN then Some(before.report) else None)
  {
    var before, m := Fold(s, u.manifests[..k], sha), u.manifests[k];
    FirstFailure(s, u.manifests, k, sha);
    forall x
      ensures ProcessManifest(before.(report := x), m, sha).err == Some(MANIFEST_PROCESSING_FAILED)
    {
      ManifestFails(before, x, m, sha);
    }
    if Reported(before, m.envelope, sha) {
      forall x
        ensures ErrorReport(before.(report := x), u.token, m, sha) == ErrorReport(before, u.token, m, sha)
      {
        EnvelopeReport(before, x, m.envelope, sha);
      }
    } else {
      EnvelopeReport(before, before.report, m.envelope, sha);
      EnvelopeReport(before, [], m.envelope, sha);
      EnvelopeReport(before, Zeros(1), m.envelope, sha);
      assert ErrorReport(before.(report := []), u.token, m, sha) == None;
      assert ErrorReport(before.(report := Zeros(1)), u.token, m, sha) == Some(Zeros(1));
    }
  }

  // ---------------------------------------------------------- Success replies

  /** Some manifest of an Update delivered a report. */
  predicate ReportedIn(s: State, ms: seq<ManifestInput>, sha: DigestFunction) {
    exists k :: 0 <= k < |ms| && ReportedAt(s, ms, k, sha)
  }

  predicate ReportedAt(s: State, ms: seq<ManifestInput>, k: nat, sha: DigestFunction)
    requires k < |ms|
  {
    Reported(Fold(s, ms[..k], sha), ms[k].envelope, sha)
  }

  lemma {:induction false} ReportedOneMore(s: State, ms: seq<ManifestInput>, n: nat, sha: DigestFunction)
    requires |ms| == n + 1
    ensures ReportedIn(s, ms, sha) <==> ReportedIn(s, ms[..n], sha) || ReportedAt(s, ms, n, sha)
  {
    hide Reported;
    var before := ms[..n];
    assert forall k :: 0 <= k < n ==> before[..k] == ms[..k] && before[k] == ms[k];
    if ReportedIn(s, before, sha) {
      var k :| 0 <= k < n && ReportedAt(s, before, k, sha);
      assert ReportedAt(s, ms, k, sha);
    }
    if ReportedIn(s, ms, sha) && !ReportedAt(s, ms, n, sha) {
      var k :| 0 <= k < |ms| && ReportedAt(s, ms, k, sha);
      assert ReportedAt(s, before, k, sha);
    }
  }

  /** What a manifest that passes does to an earlier report. */
  lemma {:induction false} PassedReport(s: State, x: Bytes, m: ManifestInput, sha: DigestFunction)
    requires ProcessManifest(s, m, sha).err == None
    ensures var r, r' := ProcessManifest(s, m, sha), ProcessManifest(s.(report := x), m, sha);
      && r'.err == None && r'.state.table == r.state.table
      && Reported(s.(report := x), m.envelope, sha) == Reported(s, m.envelope, sha)
      && r'.state.report == if Reported(s, m.envelope, sha) then r.state.report else x
  {
    EnvelopeReport(s, x, m.envelope, sha);
  }

  lemma {:induction false} AllPassPrefix(s: State, ms: seq<ManifestInput>, n: nat, sha: DigestFunction)
    requires |ms| == n + 1
    ensures AllPass(s, ms, |ms|, sha) <==>
      AllPass(s, ms[..n], n, sha) && ProcessManifest(Fold(s, ms[..n], sha), ms[n], sha).err == None
  {
    hide ProcessManifest, Fold;
    var before := ms[..n];
    assert forall k :: 0 <= k < n ==> before[..k] == ms[..k] && before[k] == ms[k];
    forall k | 0 <= k < n
      ensures Passes(s, before, k, sha) == Passes(s, ms, k, sha)
    {
    }
    if AllPass(s, ms, |ms|, sha) {
      assert Passes(s, ms, n, sha);
      assert forall k :: 0 <= k < n ==> Passes(s, ms, k, sha);
    }
  }

  /** Manifests that all pass leave the same table whatever was captured before them, and the same report
      exactly when one of them delivered one. */
  lemma {:induction false} FoldReport(s: State, x: Bytes, ms: seq<ManifestInput>, sha: DigestFunction)
    requires AllPass(s, ms, |ms|, sha)
    ensures AllPass(s.(report := x), ms, |ms|, sha)
    ensures ReportedIn(s.(report := x), ms, sha) == ReportedIn(s, ms, sha)
    ensures Fold(s.(report := x), ms, sha) ==
            Fold(s, ms, sha).(report := if ReportedIn(s, ms, sha) then Fold(s, ms, sha).report else x)
    decreases |ms|
  {
    hide ProcessManifest, Reported, ReportedIn, AllPass, Fold;
    var s' := s.(report := x);
    if ms == [] {
      NothingFolded(s, sha);
      NothingFolded(s', sha);
    } else {
      var n := |ms| - 1;
      var before := ms[..n];
      AllPassPrefix(s, ms, n, sha);
      AllPassPrefix(s', ms, n, sha);
      FoldReport(s, x, before, sha);
      var mid := Fold(s, before, sha);
      PassedReport(mid, if ReportedIn(s, before, sha) then mid.report else x, ms[n], sha);
      ReportedOneMore(s, ms, n, sha);
      ReportedOneMore(s', ms, n, sha);
      FoldLast(s, ms, sha);
      FoldLast(s', ms, sha);
      assert ReportedAt(s', ms, n, sha) == ReportedAt(s, ms, n, sha);
    }
  }

  lemma {:induction false} NothingFolded(s: State, sha: DigestFunction)
    ensures AllPass(s, [], 0, sha) && !ReportedIn(s, [], sha) && Fold(s, [], sha) == s
  {
  }

  lemma {:induction false} FoldLast(s: State, ms: seq<ManifestInput>, sha: DigestFunction)
    requires ms != []
    ensures var n := |ms| - 1; Fold(s, ms, sha) == ProcessManifest(Fold(s, ms[..n], sha), ms[n], sha).state
  {
  }

  /** The report sent with a Success does not depend on what was captured before the Update if and only if
      one of its manifests delivered a report. Otherwise it is the earlier report. */
  lemma {:induction false} OwnSuccessReportIff(s: State, u: Update, lim: Limits, sha: DigestFunction)
    requires ProcessUpdate(s, u, lim, sha).reply.Success?
    ensures (forall x :: ProcessUpdate(s.(report := x), u, lim, sha).reply == ProcessUpdate(s, u, lim, sha).reply)
        <==> ReportedIn(s, u.manifests, sha)
    ensures !ReportedIn(s, u.manifests, sha) ==>
      ProcessUpdate(s, u, lim, sha).reply.successReport == s.report
  {
    hide ReportedIn, ProcessManifests, AllPass, Fold;
    UpdateSucceedsIff(s, u, lim, sha);
    AllPassFold(s, u.manifests, sha);
    forall x
      ensures ProcessUpdate(s.(report := x), u, lim, sha).reply ==
              Success(u.token, if ReportedIn(s, u.manifests, sha) then Fold(s, u.manifests, sha).report else x)
    {
      FoldReport(s, x, u.manifests, sha);
      AllPassFold(s.(report := x), u.manifests, sha);
    }
    assert s.(report := s.report) == s;
    assert ProcessUpdate(s.(report := []), u, lim, sha).reply ==
           Success(u.token, if ReportedIn(s, u.manifests, sha) then Fold(s, u.manifests, sha).report else []);
    assert ProcessUpdate(s.(report := Zeros(1)), u, lim, sha).reply ==
           Success(u.token, if ReportedIn(s, u.manifests, sha) then Fold(s, u.manifests, sha).report else Zeros(1));
  }
}
