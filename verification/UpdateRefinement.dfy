/**
 * The refinement of `TcRefinement`, for the agent: over any run of messages and invocations in which every
 * manifest that stores anything is clean and passes, the record table is a map from app names to records.
 * Manifests that are rejected before they store anything may come at any point.
 */
module UpdateRefinement {
  import opened Basics
  import opened TcTable
  import opened TcRefinement
  import opened Suit
  import opened SuitReports
  import opened AgentSpec
  import opened AgentRuns
  import opened ManifestTrail
  import Enclave

  /** The stores among the callbacks of an envelope, in order. */
  function StoresOf(calls: seq<Callback>): seq<StoreArgs> {
    if calls == [] then []
    else (if calls[0].StoreCall? && calls[0].args.isStore then [calls[0].args] else []) + StoresOf(calls[1..])
  }

  function InstallOf(m: ManifestInput): Install {
    Install(m.envelope.digest, StoresOf(m.envelope.calls))
  }

  /** The manifest stores what its digest stands for, both parts, and hashing works. Whether it passes is
      not asked here. */
  ghost predicate CleanManifest(cat: Catalogue, m: ManifestInput) {
    Clean(cat, InstallOf(m)) && Enclave.CallsHash(m.envelope.calls)
  }

  lemma {:induction false} StoresFirst(t: Table, a: StoreArgs, rest: seq<StoreArgs>, sha: DigestFunction)
    ensures Stores(t, [a] + rest, sha) == Stores(Store(t, a, ALL_WELL, sha).table, rest, sha)
  {
    var all, n := [a] + rest, |rest|;
    if rest == [] {
      assert all == [a] && all[..0] == [];
    } else {
      assert all[..n] == [a] + rest[..n - 1] && all[n] == rest[n - 1];
      StoresFirst(t, a, rest[..n - 1], sha);
    }
  }

  /** A store that succeeds does what it does when nothing fails. */
  lemma {:induction false} SucceedsWell(t: Table, a: StoreArgs, env: StoreEnv, sha: DigestFunction)
    requires a.isStore && Store(t, a, env, sha).ok && env.hashFault == None
    ensures Store(t, a, env, sha).table == Store(t, a, ALL_WELL, sha).table && HasRoom(t, a.digest)
  {
  }

  lemma {:induction false} CallsStore(s: State, calls: seq<Callback>, sha: DigestFunction)
    requires Calls(s, calls, sha).err == SUIT_SUCCESS && Enclave.CallsHash(calls)
    ensures Calls(s, calls, sha).state.table == Stores(s.table, StoresOf(calls), sha)
    ensures StoresOf(calls) != [] ==> HasRoom(s.table, StoresOf(calls)[0].digest)
    decreases |calls|
  {
    if calls != [] {
      var c := calls[0];
      CallsStore(Call(s, c, sha).state, calls[1..], sha);
      if c.StoreCall? && c.args.isStore {
        SucceedsWell(s.table, c.args, c.env, sha);
        StoresFirst(s.table, c.args, StoresOf(calls[1..]), sha);
      } else {
        assert StoresOf(calls) == StoresOf(calls[1..]);
      }
    }
  }

  /** A clean manifest that passes is one install, and had room for it. */
  lemma {:induction false} EventInstalls(ev: Event, cat: Catalogue, sha: DigestFunction)
    requires Processing(ev, sha).err == None && CleanManifest(cat, ev.manifest)
    ensures Processing(ev, sha).state.table == RunInstall(ev.before.table, InstallOf(ev.manifest), sha)
    ensures HasRoom(ev.before.table, ev.manifest.envelope.digest)
  {
    hide Finalise, Stores, Calls, StoresOf, Clean, HasRoom;
    CallsStore(ev.before, ev.manifest.envelope.calls, sha);
    FirstStore(cat, InstallOf(ev.manifest));
  }

  lemma {:induction false} FirstStore(cat: Catalogue, inst: Install)
    requires Clean(cat, inst)
    ensures inst.stores != [] && inst.stores[0].digest == inst.digest
  {
    assert Faithful(cat, inst.digest, inst.stores[0]);
  }

  // ------------------------------------------------ manifests that store nothing

  /** Some callback that was made stores. */
  predicate StoresAny(ev: Event, sha: DigestFunction) {
    && Opened(ev.manifest)
    && exists k :: 0 <= k < Made(ev.before, ev.manifest.envelope.calls, sha) && IsStore(ev.manifest.envelope.calls[k])
  }

  predicate IsStore(c: Callback) {
    c.StoreCall? && c.args.isStore
  }

  lemma {:induction false} CallsIdle(s: State, calls: seq<Callback>, sha: DigestFunction)
    requires forall k :: 0 <= k < Made(s, calls, sha) ==> !IsStore(calls[k])
    ensures Calls(s, calls, sha).state.table == s.table
    decreases |calls|
  {
    if calls != [] {
      var r := Call(s, calls[0], sha);
      if r.err == SUIT_SUCCESS {
        assert forall k :: 0 <= k < Made(r.state, calls[1..], sha) ==> calls[1..][k] == calls[k + 1];
        CallsIdle(r.state, calls[1..], sha);
      }
    }
  }

  /** It leaves a table of finished records with distinct names as it is, rejected or not. */
  lemma {:induction false} EventIdle(ev: Event, m: AppMap, cat: Catalogue, sha: DigestFunction)
    requires !StoresAny(ev, sha) && Settled(ev.before.table, cat, sha) && Refines(ev.before.table, m)
    ensures Processing(ev, sha).state.table == ev.before.table
  {
    var t, e := ev.before.table, ev.manifest.envelope;
    if Opened(ev.manifest) {
      CallsIdle(ev.before, e.calls, sha);
      match FindDigest(t, e.digest) {
        case None =>
        case Some(i) => FinaliseAgain(t, m, cat, i, sha);
      }
    }
  }

  // ------------------------------------------------------------------- chains

  /** The installs a chain makes: its manifests, without those that store nothing. */
  function HistoryOf(events: seq<Event>, sha: DigestFunction): seq<Install> {
    if events == [] then []
    else
      var n := |events| - 1;
      HistoryOf(events[..n], sha) + if StoresAny(events[n], sha) then [InstallOf(events[n].manifest)] else []
  }

  /** Every manifest is clean and passes, or stores nothing. */
  ghost predicate AllInstalledOrIdle(events: seq<Event>, cat: Catalogue, sha: DigestFunction) {
    forall k :: 0 <= k < |events| && StoresAny(events[k], sha) ==>
      Processing(events[k], sha).err == None && CleanManifest(cat, events[k].manifest)
  }

  lemma {:induction false} OneMoreInstall(h: seq<Install>, inst: Install, cat: Catalogue, sha: DigestFunction)
    requires CleanHistory(h, cat, sha) && Clean(cat, inst) && HasRoom(RunInstalls(h, sha), inst.digest)
    ensures CleanHistory(h + [inst], cat, sha)
    ensures RunInstalls(h + [inst], sha) == RunInstall(RunInstalls(h, sha), inst, sha)
  {
    hide RunInstall, Clean, HasRoom;
    var h' := h + [inst];
    assert h'[..|h|] == h;
    forall n | 0 <= n < |h'|
      ensures CleanAt(h', n, cat, sha)
    {
      if n < |h| { assert CleanAt(h, n, cat, sha) && h'[..n] == h[..n]; }
    }
  }

  lemma {:induction false} ChainInit(start: State, events: seq<Event>, end: State, sha: DigestFunction)
    requires Chain(start, events, end, sha) && events != []
    ensures Chain(start, events[..|events| - 1], events[|events| - 1].before, sha)
    ensures Processing(events[|events| - 1], sha).state == end
  {
    hide Processing;
    var n := |events| - 1;
    assert At(events, n + 1, end) == end;
    forall k | 0 <= k < n
      ensures Processing(events[..n][k], sha).state == At(events[..n], k + 1, events[n].before)
    {
      assert Processing(events[k], sha).state == At(events, k + 1, end);
    }
  }

  /** Such a chain is a run of clean installs. */
  lemma {:induction false} ChainInstalls(events: seq<Event>, end: State, cat: Catalogue, sha: DigestFunction)
    requires Chain(State([], []), events, end, sha) && AllInstalledOrIdle(events, cat, sha)
    ensures CleanHistory(HistoryOf(events, sha), cat, sha) && end.table == RunInstalls(HistoryOf(events, sha), sha)
  {
    if events != [] {
      hide StoresAny, CleanManifest, Processing, CleanHistory, RunInstalls, RunInstall, MapOf, Chain;
      var n := |events| - 1;
      var before, ev := HistoryOf(events[..n], sha), events[n];
      ChainInit(State([], []), events, end, sha);
      ChainInstalls(events[..n], ev.before, cat, sha);
      HistoryRefines(before, cat, sha);
      if StoresAny(ev, sha) {
        EventInstalls(ev, cat, sha);
        ManifestIsClean(cat, ev.manifest);
        OneMoreInstall(before, InstallOf(ev.manifest), cat, sha);
      } else {
        EventIdle(ev, MapOf(before, cat, sha), cat, sha);
        assert HistoryOf(events, sha) == before;
      }
    }
  }

  lemma {:induction false} ManifestIsClean(cat: Catalogue, m: ManifestInput)
    requires CleanManifest(cat, m)
    ensures Clean(cat, InstallOf(m))
  {
  }

  /** Over any run of messages and invocations in which every manifest that stores anything is clean and
      passes, whatever else is received, the table refines the map of "replace if and only if existing <= new",
      and a name answers with the manifest of greatest sequence number, the latest on ties. */
  lemma {:induction false} UpdatesRefine(calls: seq<Enclave.Ecall>, cat: Catalogue, cfg: Config)
    requires Enclave.EcallsSane(calls, cfg) && AllInstalledOrIdle(Enclave.Trail(Enclave.BOOT, calls, cfg), cat,
        cfg.sha256)
    ensures var t := Enclave.Run(Enclave.BOOT, calls, cfg).agent.suit.table;
      var h := HistoryOf(Enclave.Trail(Enclave.BOOT, calls, cfg), cfg.sha256);
      && Settled(t, cat, cfg.sha256) && Refines(t, MapOf(h, cat, cfg.sha256))
      && (forall k :: 0 <= k < |h| && Newest(h, cat, k) ==>
            LookupName(t, AppAt(h, cat, k)) == Some(Installed(cat, h[k].digest, cfg.sha256)))
      && forall name :: LookupName(t, name).Some? <==> exists k :: 0 <= k < |h| && AppAt(h, cat, k) == name
  {
    hide Chain, AllInstalledOrIdle, CleanHistory, RunInstalls, MapOf, Settled, Refines, Newest, LookupName,
        Installed, HistoryOf;
    var events, end := Enclave.Trail(Enclave.BOOT, calls, cfg), Enclave.Run(Enclave.BOOT, calls, cfg).agent.suit;
    var h := HistoryOf(events, cfg.sha256);
    Enclave.TrailChains(Enclave.BOOT, calls, cfg);
    ChainInstalls(events, end, cat, cfg.sha256);
    HistoryRefines(h, cat, cfg.sha256);
    forall k | 0 <= k < |h| && Newest(h, cat, k)
      ensures LookupName(end.table, AppAt(h, cat, k)) == Some(Installed(cat, h[k].digest, cfg.sha256))
    {
      LookupReturnsNewest(h, cat, cfg.sha256, k);
    }
    forall name
      ensures LookupName(end.table, name).Some? <==> exists k :: 0 <= k < |h| && AppAt(h, cat, k) == name
    {
      LookupFindsInstalled(h, cat, cfg.sha256, name);
    }
  }
}
