/**
 * Chains of manifests: what a sequence of manifests, some accepted and some rejected, does to the record
 * of one manifest digest, and which record in the table was finalised.
 */
module ManifestTrail {
  import opened Basics
  import opened TcTable
  import opened TcProperties
  import opened Suit
  import opened SuitReports
  import opened AgentSpec

  /** One manifest that was processed, with the table and report it found. */
  datatype Event = Event(before: State, manifest: ManifestInput)

  function Processing(ev: Event, sha: DigestFunction): ManifestResult {
    ProcessManifest(ev.before, ev.manifest, sha)
  }

  /** The manifests of an Update that are processed, the first that fails included. */
  function Processed(s: State, ms: seq<ManifestInput>, sha: DigestFunction): seq<Event>
    decreases |ms|
  {
    if ms == [] then []
    else
      var r := ProcessManifest(s, ms[0], sha);
      [Event(s, ms[0])] + if r.err.Some? then [] else Processed(r.state, ms[1..], sha)
  }

  /** The state after the first k events of a chain that ends in `end`. */
  function At(events: seq<Event>, k: nat, end: State): State
    requires k <= |events|
  {
    if k < |events| then events[k].before else end
  }

  /** The events follow one another from `start` to `end`. */
  ghost predicate Chain(start: State, events: seq<Event>, end: State, sha: DigestFunction) {
    && At(events, 0, end) == start
    && forall k :: 0 <= k < |events| ==> Processing(events[k], sha).state == At(events, k + 1, end)
  }

  lemma {:induction false} ChainNone(s: State, sha: DigestFunction)
    ensures Chain(s, [], s, sha)
  {
  }

  lemma {:induction false} ChainJoin(s: State, xs: seq<Event>, m: State, ys: seq<Event>, end: State,
      sha: DigestFunction)
    requires Chain(s, xs, m, sha) && Chain(m, ys, end, sha)
    ensures Chain(s, xs + ys, end, sha)
  {
    assert At(ys, 0, end) == m;
    forall k | 0 <= k < |xs + ys|
      ensures Processing((xs + ys)[k], sha).state == At(xs + ys, k + 1, end)
    {
      if k >= |xs| { assert (xs + ys)[k] == ys[k - |xs|]; }
    }
  }

  lemma {:induction false} ProcessedChains(s: State, ms: seq<ManifestInput>, sha: DigestFunction)
    ensures Chain(s, Processed(s, ms, sha), ProcessManifests(s, ms, sha).state, sha)
    decreases |ms|
  {
    if ms == [] {
      ChainNone(s, sha);
    } else {
      var r := ProcessManifest(s, ms[0], sha);
      var first := [Event(s, ms[0])];
      assert Chain(s, first, r.state, sha);
      if r.err.Some? {
        assert first + [] == first;
      } else {
        ProcessedChains(r.state, ms[1..], sha);
        ChainJoin(s, first, r.state, Processed(r.state, ms[1..], sha), ProcessManifests(s, ms, sha).state, sha);
      }
    }
  }

  /** Manifest k is processed, in the state left by the ones before it, when those all pass. */
  lemma {:induction false} ProcessedAt(s: State, ms: seq<ManifestInput>, k: nat, sha: DigestFunction)
    requires k < |ms| && AllPass(s, ms, k, sha)
    ensures k < |Processed(s, ms, sha)| && Processed(s, ms, sha)[k] == Event(Fold(s, ms[..k], sha), ms[k])
    decreases k
  {
    if k == 0 {
      assert ms[..0] == [];
    } else {
      assert Passes(s, ms, 0, sha);
      PassesFirst(s, ms, sha);
      var s1, rest := ProcessManifest(s, ms[0], sha).state, ms[1..];
      forall j | 0 <= j < k - 1
        ensures Passes(s1, rest, j, sha)
      {
        Shift(s, ms, j, sha);
        assert Passes(s, ms, j + 1, sha);
      }
      ProcessedAt(s1, rest, k - 1, sha);
      Shift(s, ms, k - 1, sha);
    }
  }

  // ------------------------------------------------- what an event does to a record

  /** The envelope of this manifest is read. */
  predicate Opened(m: ManifestInput) {
    SetupOk(m.setup) && m.item != [] && |m.item| <= m.room && m.added
  }

  predicate StoresFor(c: Callback, d: Bytes) {
    c.StoreCall? && c.args.isStore && c.args.digest == d
  }

  predicate StoresPayloadFor(c: Callback, d: Bytes) {
    StoresFor(c, d) && !c.args.isManifest
  }

  /** A callback that was made stores something for manifest digest `d`. */
  predicate Writes(ev: Event, d: Bytes, sha: DigestFunction) {
    && Opened(ev.manifest)
    && exists k :: 0 <= k < Made(ev.before, ev.manifest.envelope.calls, sha)
        && StoresFor(ev.manifest.envelope.calls[k], d)
  }

  predicate WritesPayload(ev: Event, d: Bytes, sha: DigestFunction) {
    && Opened(ev.manifest)
    && exists k :: 0 <= k < Made(ev.before, ev.manifest.envelope.calls, sha)
        && StoresPayloadFor(ev.manifest.envelope.calls[k], d)
  }

  /** The manifest of digest `d` was processed and its record finalised. */
  predicate Accepts(ev: Event, d: Bytes, sha: DigestFunction) {
    ev.manifest.envelope.digest == d && Processing(ev, sha).err == None
  }

  lemma {:induction false} CallsFrame(s: State, calls: seq<Callback>, d: Bytes, sha: DigestFunction)
    requires Inv(s.table)
    requires forall k :: 0 <= k < Made(s, calls, sha) ==> !StoresFor(calls[k], d)
    ensures Lookup(Calls(s, calls, sha).state.table, d) == Lookup(s.table, d)
    decreases |calls|
  {
    if calls != [] {
      var c := calls[0];
      if c.StoreCall? { StoreFrame(s.table, c.args, c.env, sha); }
      var r := Call(s, c, sha);
      if r.err == SUIT_SUCCESS {
        assert forall k :: 0 <= k < Made(r.state, calls[1..], sha) ==> calls[1..][k] == calls[k + 1];
        CallsFrame(r.state, calls[1..], d, sha);
      }
    }
  }

  /** A record that no callback stores for is kept, or was lost to another record in finalisation. */
  lemma {:induction false} EventFrame(ev: Event, d: Bytes, sha: DigestFunction)
    requires Inv(ev.before.table) && !Writes(ev, d, sha)
    ensures var after := Lookup(Processing(ev, sha).state.table, d);
      after == None || after == Lookup(ev.before.table, d)
  {
    var e := ev.manifest.envelope;
    if Opened(ev.manifest) {
      CallsFrame(ev.before, e.calls, d, sha);
      EnvelopeKeepsInv(ev.before, e, sha);
      FinaliseFrame(ProcessEnvelope(ev.before, e, sha).state.table, e.digest);
    }
  }

  /** A payload and its hash stored for `d`, unless the record has none or is gone. */
  ghost predicate AtMost(t: Table, d: Bytes, bin: Bytes, hash: Hash) {
    Lookup(t, d).Some? && Lookup(t, d).value.wappBin != [] ==>
      Lookup(t, d).value.wappBin == bin && Lookup(t, d).value.wappHash == hash
  }

  lemma {:induction false} CallAtMost(s: State, c: Callback, d: Bytes, bin: Bytes, hash: Hash, sha: DigestFunction)
    requires Inv(s.table) && AtMost(s.table, d, bin, hash) && !StoresPayloadFor(c, d)
    ensures AtMost(Call(s, c, sha).state.table, d, bin, hash)
  {
    if c.StoreCall? && c.args.isStore {
      StoreFrame(s.table, c.args, c.env, sha);
      if c.args.digest == d {
        var t, t' := s.table, Store(s.table, c.args, c.env, sha).table;
        match FindDigest(t, d) {
          case Some(i) => assert t'[i] == WriteFields(t[i], c.args, c.env, sha);
          case None => if |t'| > |t| { assert t'[|t|] == WriteFields(Blank(d), c.args, c.env, sha); }
        }
      }
    }
  }

  lemma {:induction false} CallsAtMost(s: State, calls: seq<Callback>, d: Bytes, bin: Bytes, hash: Hash,
      sha: DigestFunction)
    requires Inv(s.table) && AtMost(s.table, d, bin, hash)
    requires forall k :: 0 <= k < Made(s, calls, sha) ==> !StoresPayloadFor(calls[k], d)
    ensures AtMost(Calls(s, calls, sha).state.table, d, bin, hash)
    decreases |calls|
  {
    if calls != [] {
      CallAtMost(s, calls[0], d, bin, hash, sha);
      CallKeepsInv(s, calls[0], sha);
      var r := Call(s, calls[0], sha);
      if r.err == SUIT_SUCCESS {
        assert forall k :: 0 <= k < Made(r.state, calls[1..], sha) ==> calls[1..][k] == calls[k + 1];
        CallsAtMost(r.state, calls[1..], d, bin, hash, sha);
      }
    }
  }

  lemma {:induction false} EventAtMost(ev: Event, d: Bytes, bin: Bytes, hash: Hash, sha: DigestFunction)
    requires Inv(ev.before.table) && AtMost(ev.before.table, d, bin, hash) && !WritesPayload(ev, d, sha)
    ensures AtMost(Processing(ev, sha).state.table, d, bin, hash)
  {
    hide Finalise, Loser, Inv;
    var e := ev.manifest.envelope;
    if Opened(ev.manifest) {
      CallsAtMost(ev.before, e.calls, d, bin, hash, sha);
      EnvelopeKeepsInv(ev.before, e, sha);
      FinaliseFrame(ProcessEnvelope(ev.before, e, sha).state.table, e.digest);
    }
  }

  // ------------------------------------------------------------------- chains

  lemma {:induction false} ChainInv(start: State, events: seq<Event>, end: State, k: nat, sha: DigestFunction)
    requires Chain(start, events, end, sha) && Inv(start.table) && k <= |events|
    ensures Inv(At(events, k, end).table)
  {
    hide ProcessManifest, Inv;
    if k > 0 {
      ChainInv(start, events, end, k - 1, sha);
      ManifestKeepsInv(events[k - 1].before, events[k - 1].manifest, sha);
      assert Processing(events[k - 1], sha).state == At(events, k, end);
    }
  }

  /** From event j on nothing is stored for `d`: its record stays what it was, or is gone. */
  lemma {:induction false} KeptSince(start: State, events: seq<Event>, end: State, d: Bytes, j: nat, k: nat,
      sha: DigestFunction)
    requires Chain(start, events, end, sha) && Inv(start.table) && j <= k <= |events|
    requires forall m :: j <= m < k ==> !Writes(events[m], d, sha)
    ensures Lookup(At(events, k, end).table, d) == None
         || Lookup(At(events, k, end).table, d) == Lookup(At(events, j, end).table, d)
    decreases k - j
  {
    hide ProcessManifest, Inv, Writes;
    if j < k {
      KeptSince(start, events, end, d, j, k - 1, sha);
      ChainInv(start, events, end, k - 1, sha);
      EventFrame(events[k - 1], d, sha);
      assert Processing(events[k - 1], sha).state == At(events, k, end);
    }
  }

  lemma {:induction false} AtMostSince(start: State, events: seq<Event>, end: State, d: Bytes, bin: Bytes, hash: Hash,
      j: nat, sha: DigestFunction)
    requires Chain(start, events, end, sha) && Inv(start.table) && j <= |events|
    requires AtMost(At(events, j, end).table, d, bin, hash)
    requires forall m :: j <= m < |events| ==> !WritesPayload(events[m], d, sha)
    ensures AtMost(end.table, d, bin, hash)
    decreases |events| - j
  {
    if j < |events| {
      ChainInv(start, events, end, j, sha);
      EventAtMost(events[j], d, bin, hash, sha);
      assert Processing(events[j], sha).state == At(events, j + 1, end);
      AtMostSince(start, events, end, d, bin, hash, j + 1, sha);
    }
  }

  // ---------------------------------------------------------------- finalised

  predicate Quiet(events: seq<Event>, d: Bytes, k: nat, sha: DigestFunction) {
    forall m :: k < m < |events| ==> !Writes(events[m], d, sha)
  }

  /** Event k finalised the record of `d`, and nothing was stored for it afterwards. */
  predicate FinalisedBy(events: seq<Event>, d: Bytes, k: nat, sha: DigestFunction) {
    k < |events| && Accepts(events[k], d, sha) && Quiet(events, d, k, sha)
  }

  predicate Finalised(events: seq<Event>, d: Bytes, sha: DigestFunction) {
    exists k :: 0 <= k < |events| && FinalisedBy(events, d, k, sha)
  }

  /** A manifest that was then rejected stored for `d`, and no manifest of that digest was accepted since. */
  predicate LeftBy(events: seq<Event>, d: Bytes, k: nat, sha: DigestFunction) {
    && k < |events| && Writes(events[k], d, sha) && Processing(events[k], sha).err.Some?
    && forall m :: k < m < |events| ==> !Accepts(events[m], d, sha)
  }

  predicate Leftover(events: seq<Event>, d: Bytes, sha: DigestFunction) {
    exists k :: 0 <= k < |events| && LeftBy(events, d, k, sha)
  }

  ghost predicate AllKeyed(events: seq<Event>) {
    forall k :: 0 <= k < |events| ==> Keyed(events[k].manifest.envelope)
  }

  /** Touched last: the last event that stored for `d` or accepted it. */
  lemma {:induction false} LastTouch(events: seq<Event>, d: Bytes, n: nat, sha: DigestFunction) returns (k: Option<nat>)
    requires n <= |events|
    ensures k.None? ==> forall m :: 0 <= m < n ==> !Writes(events[m], d, sha) && !Accepts(events[m], d, sha)
    ensures k.Some? ==>
      && k.value < n && (Writes(events[k.value], d, sha) || Accepts(events[k.value], d, sha))
      && forall m :: k.value < m < n ==> !Writes(events[m], d, sha) && !Accepts(events[m], d, sha)
  {
    if n == 0 {
      k := None;
    } else if Writes(events[n - 1], d, sha) || Accepts(events[n - 1], d, sha) {
      k := Some(n - 1);
    } else {
      k := LastTouch(events, d, n - 1, sha);
    }
  }

  lemma {:induction false} WritesItsOwn(ev: Event, d: Bytes, sha: DigestFunction)
    requires Keyed(ev.manifest.envelope) && Writes(ev, d, sha)
    ensures ev.manifest.envelope.digest == d
  {
  }

  /** A record in the table after any chain of manifests was finalised if and only if it is not the
      leftover of a rejected one. A finalised record is complete, and exactly as the manifest that was
      accepted left it. */
  lemma {:induction false} FinalisedIff(events: seq<Event>, end: State, d: Bytes, sha: DigestFunction)
    requires Chain(State([], []), events, end, sha) && AllKeyed(events) && Lookup(end.table, d).Some?
    ensures Finalised(events, d, sha) <==> !Leftover(events, d, sha)
    ensures forall k :: 0 <= k < |events| && FinalisedBy(events, d, k, sha) ==>
      Lookup(end.table, d) == Lookup(Processing(events[k], sha).state.table, d) && Complete(Lookup(end.table, d).value)
  {
    var start := State([], []);
    var last := LastTouch(events, d, |events|, sha);
    if last == None {
      KeptSince(start, events, end, d, 0, |events|, sha);
      assert false;
    }
    var k := last.value;
    if Accepts(events[k], d, sha) {
      assert FinalisedBy(events, d, k, sha);
    } else {
      WritesItsOwn(events[k], d, sha);
      assert LeftBy(events, d, k, sha);
    }
    forall m | 0 <= m < |events| && FinalisedBy(events, d, m, sha)
      ensures Lookup(end.table, d) == Lookup(Processing(events[m], sha).state.table, d)
          && Complete(Lookup(end.table, d).value)
    {
      AcceptedStays(start, events, end, d, m, sha);
    }
  }

  lemma {:induction false} AcceptedStays(start: State, events: seq<Event>, end: State, d: Bytes, k: nat,
      sha: DigestFunction)
    requires Chain(start, events, end, sha) && Inv(start.table) && FinalisedBy(events, d, k, sha)
    ensures Lookup(end.table, d).Some? ==>
      Lookup(end.table, d) == Lookup(Processing(events[k], sha).state.table, d) && Complete(Lookup(end.table, d).value)
  {
    var e := events[k].manifest.envelope;
    ChainInv(start, events, end, k, sha);
    EnvelopeKeepsInv(events[k].before, e, sha);
    KeptSince(start, events, end, d, k + 1, |events|, sha);
    assert Processing(events[k], sha).state == At(events, k + 1, end);
    FinalisedOrNewer(ProcessEnvelope(events[k].before, e, sha).state.table, d);
  }
}
