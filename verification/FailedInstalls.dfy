/**
 * doc/tc-manager.md promises one latest record per app name, and that an app is never downgraded. Neither
 * holds in runs with failed manifests. A failed manifest leaves its record behind; a later removal can
 * move such a leftover in front of an installed record, and the next install then replaces the leftover
 * instead; another removal can move the older of the two records to the front. The first run here does
 * both. In the second no record is removed at all: a rejected payload is stored into a leftover in front.
 * `TcAnswers.DistinctIff` and `TcAnswers.DowngradesIff` say of every table operation exactly when it does
 * either.
 */
module FailedInstalls {
  import opened Basics
  import opened TcTable
  import opened TcProperties
  import opened TcAnswers
  import opened AgentSpec
  import opened AgentRuns
  import opened Suit
  import opened Scenarios

  /** The manifest fails after its metadata, or after both stores, was stored. */
  function FailsHalf(m: Story): ManifestInput {
    Manifest(m.digest, [MetaCall(m)], true)
  }

  function FailsFull(m: Story): ManifestInput {
    Manifest(m.digest, [MetaCall(m), PayloadCall(m)], true)
  }

  /** The manifest is processed again; it brings no payload. */
  function RetriesHalf(m: Story): ManifestInput {
    Manifest(m.digest, [MetaCall(m)], false)
  }

  /** `f` and later `n` install an app; `z`, `y` and `x` fail. */
  predicate Cast(z: Story, y: Story, f: Story, x: Story, n: Story) {
    && Sound(z) && Sound(y) && Sound(f) && Sound(x) && Sound(n)
    && f.app == x.app == n.app && f.seqNo < n.seqNo && x.seqNo <= n.seqNo
    && z.digest != y.digest && z.digest != f.digest && z.digest != x.digest && z.digest != n.digest
    && y.digest != f.digest && y.digest != x.digest && y.digest != n.digest
    && f.digest != x.digest && f.digest != n.digest && x.digest != n.digest
  }

  function History(z: Story, y: Story, f: Story, x: Story, n: Story): (run: seq<Input>)
    ensures |run| == 10
  {
    [Ask(), Deliver(FailsHalf(z)), Deliver(FailsHalf(y)), Deliver(Installs(f)), Ask(),
     Deliver(FailsFull(x)), Deliver(RetriesHalf(y)), Deliver(Installs(n)), Ask(), Deliver(RetriesHalf(z))]
  }

  lemma {:induction false} HistorySane(z: Story, y: Story, f: Story, x: Story, n: Story, cfg: Config)
    requires Roomy(cfg)
    ensures AllSane(History(z, y, f, x, n), cfg)
  {
    hide React, ReplyOf;
    AskReacts(INITIAL, cfg);
  }

  // ------------------------------------------------------- single manifests

  lemma {:induction false} HalfFails(s: State, m: Story, sha: DigestFunction)
    requires Sound(m) && FindDigest(s.table, m.digest) == None && |s.table| < MAX_RECORDS
    ensures ProcessManifest(s, FailsHalf(m), sha)
         == ManifestResult(s.(table := s.table + [Half(m)]), Some(MANIFEST_PROCESSING_FAILED))
  {
    MetaNew(s, m, sha);
    OneCall(s, MetaCall(m), sha);
    FailsAfter(s, m.digest, [MetaCall(m)], sha);
  }

  lemma {:induction false} FullFails(s: State, m: Story, sha: DigestFunction)
    requires Sound(m) && FindDigest(s.table, m.digest) == None && |s.table| < MAX_RECORDS
    ensures ProcessManifest(s, FailsFull(m), sha)
         == ManifestResult(s.(table := s.table + [Full(m, sha)]), Some(MANIFEST_PROCESSING_FAILED))
  {
    BothNew(s, m, sha);
    FailsAfter(s, m.digest, [MetaCall(m), PayloadCall(m)], sha);
  }

  lemma {:induction false} HalfRetried(s: State, m: Story, i: nat, sha: DigestFunction)
    requires Sound(m) && FindDigest(s.table, m.digest) == Some(i) && s.table[i] == Half(m)
    ensures ProcessManifest(s, RetriesHalf(m), sha)
         == ManifestResult(s.(table := RemoveAt(s.table, i)), Some(TEMPORARY_ERROR))
  {
    MetaAgain(s, m, i, sha);
    OneCall(s, MetaCall(m), sha);
    PassesAfter(s, m.digest, [MetaCall(m)], sha);
  }

  lemma {:induction false} FullInstalled(s: State, m: Story, sha: DigestFunction)
    requires Sound(m) && FindDigest(s.table, m.digest) == None && |s.table| < MAX_RECORDS
    ensures var t := s.table + [Full(m, sha)];
      && FindDigest(t, m.digest) == Some(|s.table|)
      && ProcessManifest(s, Installs(m), sha) == ManifestResult(s.(table := UpdateOrDiscard(t, |s.table|)), None)
  {
    BothNew(s, m, sha);
    var t := s.table + [Full(m, sha)];
    assert t[|s.table|].digest == m.digest;
    assert forall k :: 0 <= k < |s.table| ==> t[k].digest == s.table[k].digest;
    PassesAfter(s, m.digest, [MetaCall(m), PayloadCall(m)], sha);
  }

  // ------------------------------------------------------------- the tables

  lemma {:induction false} NoRival(z: Entry, y: Entry, f: Entry)
    requires z.wappName == y.wappName == [] && f.wappName != []
    ensures UpdateOrDiscard([z, y] + [f], 2) == [z, y, f]
  {
    var t := [z, y] + [f];
    assert t == [z, y, f] && t[0] == z && t[1] == y;
    assert FindName(t, f.wappName, 2) == None;
  }

  lemma {:induction false} LeftoverReplaced(z: Entry, x: Entry, f: Entry, n: Entry)
    requires z.wappName == [] && x.wappName == f.wappName == n.wappName != [] && x.seqNo <= n.seqNo
    ensures UpdateOrDiscard([z, x, f] + [n], 3) == [z, n, f]
  {
    var t := [z, x, f] + [n];
    assert t == [z, x, f, n] && t[0] == z && t[1] == x;
    assert FindName(t, n.wappName, 3) == Some(1);
    assert RemoveAt(Swap(t, 3, 1), 3) == [z, n, f];
  }

  lemma {:induction false} Answers(z: Entry, n: Entry, f: Entry)
    requires z.wappName == [] && n.wappName == f.wappName != []
    ensures LookupName([z, n, f], n.wappName) == Some(n) && !DistinctNames([z, n, f])
    ensures RemoveAt([z, n, f], 0) == [f, n] && LookupName([f, n], n.wappName) == Some(f)
  {
    var t, t' := [z, n, f], [f, n];
    assert t[0] == z && t[1] == n && t[2] == f && t'[0] == f && t'[1] == n;
    FirstNamed(t, n.wappName, 1);
    FirstNamed(t', n.wappName, 0);
  }

  // ---------------------------------------------------------------- the run

  /** Up to the first install. */
  lemma {:induction false} FirstInstall(z: Story, y: Story, f: Story, x: Story, n: Story, cfg: Config)
    requires Cast(z, y, f, x, n) && Roomy(cfg)
    ensures var run := History(z, y, f, x, n);
      && AllSane(run, cfg) && IsSuccess(BuiltAt(run, 3, cfg))
      && After(run[..5], cfg) == Agent(WAITING_UPDATE_OR_QUERY_REQUEST,
          State([Half(z), Half(y), Full(f, cfg.sha256)], []))
  {
    hide React, ReplyOf, After, ProcessManifest, UpdateOrDiscard, Calls;
    var run := History(z, y, f, x, n);
    HistorySane(z, y, f, x, n, cfg);
    StartsInitial(run, cfg);
    AskAt(run, 0, cfg);
    HalfFails(State([], []), z, cfg.sha256);
    DeliverAt(run, 1, FailsHalf(z), cfg);
    assert [] + [Half(z)] == [Half(z)];
    HalfFails(State([Half(z)], []), y, cfg.sha256);
    DeliverAt(run, 2, FailsHalf(y), cfg);
    assert [Half(z)] + [Half(y)] == [Half(z), Half(y)];
    FullInstalled(State([Half(z), Half(y)], []), f, cfg.sha256);
    NoRival(Half(z), Half(y), Full(f, cfg.sha256));
    DeliverAt(run, 3, Installs(f), cfg);
    AskAt(run, 4, cfg);
  }

  /** Up to the second install: it replaces the leftover of `x`, not the record of `f`. */
  lemma {:induction false} SecondInstall(z: Story, y: Story, f: Story, x: Story, n: Story, cfg: Config)
    requires Cast(z, y, f, x, n) && Roomy(cfg)
    ensures var run := History(z, y, f, x, n);
      && AllSane(run, cfg) && IsSuccess(BuiltAt(run, 7, cfg))
      && After(run[..8], cfg).suit == State([Half(z), Full(n, cfg.sha256), Full(f, cfg.sha256)], [])
      && After(run[..9], cfg) == Agent(WAITING_UPDATE_OR_QUERY_REQUEST, After(run[..8], cfg).suit)
  {
    hide React, ReplyOf, After, ProcessManifest, UpdateOrDiscard, Calls;
    var run, sha := History(z, y, f, x, n), cfg.sha256;
    FirstInstall(z, y, f, x, n, cfg);
    var t5 := [Half(z), Half(y), Full(f, sha)];
    FullFails(State(t5, []), x, sha);
    DeliverAt(run, 5, FailsFull(x), cfg);
    var t6 := [Half(z), Half(y), Full(f, sha), Full(x, sha)];
    assert t5 + [Full(x, sha)] == t6;
    assert t6[0] == Half(z) && t6[1] == Half(y);
    assert FindDigest(t6, y.digest) == Some(1);
    HalfRetried(State(t6, []), y, 1, sha);
    DeliverAt(run, 6, RetriesHalf(y), cfg);
    var t7 := [Half(z), Full(x, sha), Full(f, sha)];
    assert RemoveAt(t6, 1) == t7;
    FullInstalled(State(t7, []), n, sha);
    LeftoverReplaced(Half(z), Full(x, sha), Full(f, sha), Full(n, sha));
    DeliverAt(run, 7, Installs(n), cfg);
    AskAt(run, 8, cfg);
  }

  /** Both manifests of an app are accepted, the newer one last. Yet both records are in the table; and
      after one more failed manifest, of another app, the app's name answers with the older one. */
  lemma {:induction false} FailedManifestsBreakPromise(z: Story, y: Story, f: Story, x: Story, n: Story, cfg: Config)
    requires Cast(z, y, f, x, n) && Roomy(cfg)
    ensures var run := History(z, y, f, x, n);
      && AllSane(run, cfg) && IsSuccess(BuiltAt(run, 3, cfg)) && IsSuccess(BuiltAt(run, 7, cfg))
      && var before, after := After(run[..8], cfg).suit.table, After(run, cfg).suit.table;
         && !DistinctNames(before) && LookupName(before, n.app) == Some(Full(n, cfg.sha256))
         && LookupName(after, n.app) == Some(Full(f, cfg.sha256)) && Downgrades(before, after, n.app)
  {
    hide React, ReplyOf, After, ProcessManifest, Calls;
    var run, sha := History(z, y, f, x, n), cfg.sha256;
    FirstInstall(z, y, f, x, n, cfg);
    SecondInstall(z, y, f, x, n, cfg);
    var t9 := [Half(z), Full(n, sha), Full(f, sha)];
    assert t9[0] == Half(z) && FindDigest(t9, z.digest) == Some(0);
    HalfRetried(State(t9, []), z, 0, sha);
    DeliverAt(run, 9, RetriesHalf(z), cfg);
    Answers(Half(z), Full(n, sha), Full(f, sha));
    assert run[..10] == run;
  }

  // ------------------------------------------------------ downgrade by a store

  lemma {:induction false} FullFailsAgain(s: State, m: Story, i: nat, sha: DigestFunction)
    requires Sound(m) && FindDigest(s.table, m.digest) == Some(i) && s.table[i] == Half(m)
    ensures ProcessManifest(s, FailsFull(m), sha)
         == ManifestResult(s.(table := s.table[i := Full(m, sha)]), Some(MANIFEST_PROCESSING_FAILED))
  {
    MetaAgain(s, m, i, sha);
    TwoCalls(s, MetaCall(m), PayloadCall(m), sha);
    FailsAfter(s, m.digest, [MetaCall(m), PayloadCall(m)], sha);
  }

  function StoreHistory(z: Story, n: Story): (run: seq<Input>)
    ensures |run| == 5
  {
    [Ask(), Deliver(FailsHalf(z)), Deliver(Installs(n)), Ask(), Deliver(FailsFull(z))]
  }

  lemma {:induction false} TwoRecords(z: Entry, n: Entry)
    requires z.wappName != n.wappName && n.wappName != []
    ensures UpdateOrDiscard([z] + [n], 1) == [z, n]
    ensures LookupName([z, n], n.wappName) == Some(n) && DistinctNames([z, n])
  {
    var t := [z, n];
    assert [z] + [n] == t && t[0] == z && t[1] == n;
    assert FindName(t, n.wappName, 1) == None;
    FirstNamed(t, n.wappName, 1);
  }

  lemma {:induction false} FirstOfTwo(z: Entry, n: Entry)
    requires z.wappName == n.wappName != []
    ensures LookupName([z, n], n.wappName) == Some(z) && !DistinctNames([z, n])
  {
    var t := [z, n];
    assert t[0] == z && t[1] == n;
    FirstNamed(t, n.wappName, 0);
  }

  /** A manifest fails after its metadata; a newer one installs the app; then the first is sent again and
      fails once more, after its payload was stored. The name now answers with the rejected, older record. */
  lemma {:induction false} RejectedStoreDowngrades(z: Story, n: Story, cfg: Config)
    requires Sound(z) && Sound(n) && z.digest != n.digest && z.app == n.app && z.seqNo < n.seqNo && Roomy(cfg)
    ensures var run := StoreHistory(z, n);
      && AllSane(run, cfg) && IsSuccess(BuiltAt(run, 2, cfg))
      && BuiltAt(run, 4, cfg).Some? && BuiltAt(run, 4, cfg).value.Error?
      && var before, after := After(run[..4], cfg).suit.table, After(run, cfg).suit.table;
         && LookupName(before, n.app) == Some(Full(n, cfg.sha256)) && DistinctNames(before)
         && LookupName(after, n.app) == Some(Full(z, cfg.sha256)) && !DistinctNames(after)
         && Downgrades(before, after, n.app)
  {
    hide React, ReplyOf, After, ProcessManifest, UpdateOrDiscard, Calls;
    var run, sha := StoreHistory(z, n), cfg.sha256;
    AskReacts(INITIAL, cfg);
    StartsInitial(run, cfg);
    AskAt(run, 0, cfg);
    HalfFails(State([], []), z, sha);
    DeliverAt(run, 1, FailsHalf(z), cfg);
    assert [] + [Half(z)] == [Half(z)];
    FullInstalled(State([Half(z)], []), n, sha);
    TwoRecords(Half(z), Full(n, sha));
    DeliverAt(run, 2, Installs(n), cfg);
    AskAt(run, 3, cfg);
    var t := [Half(z), Full(n, sha)];
    assert t[0] == Half(z) && FindDigest(t, z.digest) == Some(0);
    FullFailsAgain(State(t, []), z, 0, sha);
    DeliverAt(run, 4, FailsFull(z), cfg);
    assert t[0 := Full(z, sha)] == [Full(z, sha), Full(n, sha)];
    FirstOfTwo(Full(z, sha), Full(n, sha));
    assert run[..5] == run;
  }
}
