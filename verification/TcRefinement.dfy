/**
 * Over clean installs, the swap-delete table refines a map from app name to record under the rule
 * "replace if and only if the existing sequence number is not larger". Failed installs break this:
 * `FailedInstalls` exhibits a run.
 */
module TcRefinement {
  import opened Basics
  import opened TcTable
  import opened TcProperties

  /** What a manifest digest stands for. That a digest fixes its manifest is the assumption under
      which re-storing a known digest in place is harmless; it is expressed by the catalogue being a
      function. */
  datatype Manifest = Manifest(seqNo: nat, name: Name, bin: Bytes, app: Name, payload: Bytes)

  type Catalogue = Bytes -> Manifest

  predicate WellFormed(m: Manifest) {
    m.name != [] && m.app != [] && m.bin != [] && m.payload != []
  }

  /** One SUIT store made on behalf of manifest `d`, carrying what the manifest says. */
  predicate Faithful(cat: Catalogue, d: Bytes, a: StoreArgs) {
    var m := cat(d);
    && a.isStore && a.digest == d && a.dst.Converted?
    && (if a.isManifest then a.seqNo == m.seqNo && a.src == m.bin && TrimSlashes(a.dst.text) == m.name
        else a.src == m.payload && TrimSlashes(a.dst.text) == m.app)
  }

  /** The stores made for one manifest, in any order and any number, followed by finalisation. */
  datatype Install = Install(digest: Bytes, stores: seq<StoreArgs>)

  predicate Seen(stores: seq<StoreArgs>, isManifest: bool) {
    exists k :: 0 <= k < |stores| && stores[k].isManifest == isManifest
  }

  predicate Clean(cat: Catalogue, inst: Install) {
    && inst.digest != [] && WellFormed(cat(inst.digest))
    && (forall k :: 0 <= k < |inst.stores| ==> Faithful(cat, inst.digest, inst.stores[k]))
    && Seen(inst.stores, true) && Seen(inst.stores, false)
  }

  function Stores(t: Table, stores: seq<StoreArgs>, sha: DigestFunction): Table {
    if stores == [] then t
    else
      var n := |stores| - 1;
      Store(Stores(t, stores[..n], sha), stores[n], ALL_WELL, sha).table
  }

  function RunInstall(t: Table, inst: Install, sha: DigestFunction): Table {
    Finalise(Stores(t, inst.stores, sha), inst.digest).table
  }

  /** The record of manifest `d` once its metadata and its payload may have been stored. */
  function Progress(cat: Catalogue, d: Bytes, meta: bool, payload: bool, sha: DigestFunction): Entry {
    var m := cat(d);
    Entry(d,
          if meta then m.name else [], if meta then m.seqNo else 0, if meta then m.bin else [],
          if payload then m.app else [], if payload then sha(m.payload) else ZERO_HASH,
          if payload then m.payload else [])
  }

  function Installed(cat: Catalogue, d: Bytes, sha: DigestFunction): Entry {
    Progress(cat, d, true, true, sha)
  }

  /** A table in which every record is the finished record of its digest. */
  ghost predicate Settled(t: Table, cat: Catalogue, sha: DigestFunction) {
    && Inv(t)
    && forall i :: 0 <= i < |t| ==> t[i] == Installed(cat, t[i].digest, sha) && WellFormed(cat(t[i].digest))
  }

  /** A free slot is needed only for a digest not yet in the table. */
  predicate HasRoom(t: Table, d: Bytes) {
    FindDigest(t, d).Some? || |t| < MAX_RECORDS
  }

  lemma {:induction false} FindAppended(t: Table, e: Entry)
    requires FindDigest(t, e.digest) == None && e.digest != []
    ensures FindDigest(t + [e], e.digest) == Some(|t|)
  {
    var s := t + [e];
    assert s[|t|].digest == e.digest;
    assert forall k :: 0 <= k < |t| ==> s[k].digest == t[k].digest;
  }

  /** Re-storing part of a finished record changes nothing. */
  lemma {:induction false} StoreAgain(t: Table, cat: Catalogue, a: StoreArgs, sha: DigestFunction)
    requires Settled(t, cat, sha) && FindDigest(t, a.digest).Some? && Faithful(cat, a.digest, a)
    ensures Store(t, a, ALL_WELL, sha).table == t
  {
    var i := FindDigest(t, a.digest).value;
    assert WriteFields(t[i], a, ALL_WELL, sha) == t[i];
  }

  lemma {:induction false} WriteProgress(cat: Catalogue, a: StoreArgs, meta: bool, payload: bool, sha: DigestFunction)
    requires Faithful(cat, a.digest, a) && WellFormed(cat(a.digest))
    ensures WriteFields(Progress(cat, a.digest, meta, payload, sha), a, ALL_WELL, sha)
         == Progress(cat, a.digest, meta || a.isManifest, payload || !a.isManifest, sha)
  {
  }

  /** Storing part of a record under construction adds that part. */
  lemma {:induction false} StoreProgress(t: Table, cat: Catalogue, a: StoreArgs, meta: bool, payload: bool,
      sha: DigestFunction)
    requires FindDigest(t, a.digest) == None && a.digest != []
    requires Faithful(cat, a.digest, a) && WellFormed(cat(a.digest))
    ensures Store(t + [Progress(cat, a.digest, meta, payload, sha)], a, ALL_WELL, sha).table
         == t + [Progress(cat, a.digest, meta || a.isManifest, payload || !a.isManifest, sha)]
  {
    var e := Progress(cat, a.digest, meta, payload, sha);
    var e' := WriteFields(e, a, ALL_WELL, sha);
    WriteProgress(cat, a, meta, payload, sha);
    FindAppended(t, e);
    assert (t + [e])[|t| := e'] == t + [e'];
  }

  lemma {:induction false} SeenSplit(stores: seq<StoreArgs>, n: nat, isManifest: bool)
    requires |stores| == n + 1
    ensures Seen(stores, isManifest) <==> Seen(stores[..n], isManifest) || stores[n].isManifest == isManifest
  {
    if Seen(stores[..n], isManifest) {
      var k :| 0 <= k < n && stores[..n][k].isManifest == isManifest;
      assert stores[k].isManifest == isManifest;
    }
    if Seen(stores, isManifest) && stores[n].isManifest != isManifest {
      var k :| 0 <= k <= n && stores[k].isManifest == isManifest;
      assert stores[..n][k].isManifest == isManifest;
    }
  }

  /** The table while the stores of one manifest are being made. */
  function Underway(t: Table, cat: Catalogue, d: Bytes, stores: seq<StoreArgs>, sha: DigestFunction): Table {
    if FindDigest(t, d).Some? || stores == [] then t
    else t + [Progress(cat, d, Seen(stores, true), Seen(stores, false), sha)]
  }

  lemma {:induction false} StoreUnderway(t: Table, cat: Catalogue, d: Bytes, stores: seq<StoreArgs>, a: StoreArgs,
      sha: DigestFunction)
    requires Settled(t, cat, sha) && d != [] && HasRoom(t, d)
    requires Faithful(cat, d, a) && WellFormed(cat(d))
    ensures Store(Underway(t, cat, d, stores, sha), a, ALL_WELL, sha).table == Underway(t, cat, d, stores + [a], sha)
  {
    if FindDigest(t, d).Some? {
      StoreAgain(t, cat, a, sha);
    } else {
      StoreNew(t, cat, d, stores, a, sha);
    }
  }

  lemma {:induction false} StoreNew(t: Table, cat: Catalogue, d: Bytes, stores: seq<StoreArgs>, a: StoreArgs,
      sha: DigestFunction)
    requires FindDigest(t, d) == None && d != [] && |t| < MAX_RECORDS
    requires Faithful(cat, d, a) && WellFormed(cat(d))
    ensures Store(Underway(t, cat, d, stores, sha), a, ALL_WELL, sha).table
         == t + [Progress(cat, d, Seen(stores + [a], true), Seen(stores + [a], false), sha)]
  {
    assert (stores + [a])[..|stores|] == stores;
    SeenSplit(stores + [a], |stores|, true);
    SeenSplit(stores + [a], |stores|, false);
    if stores == [] {
      assert Blank(d) == Progress(cat, d, false, false, sha);
      WriteProgress(cat, a, false, false, sha);
    } else {
      StoreProgress(t, cat, a, Seen(stores, true), Seen(stores, false), sha);
    }
  }

  lemma {:induction false} StoresOneMore(t: Table, stores: seq<StoreArgs>, sha: DigestFunction)
    requires stores != []
    ensures var n := |stores| - 1;
      && stores == stores[..n] + [stores[n]]
      && Stores(t, stores, sha) == Store(Stores(t, stores[..n], sha), stores[n], ALL_WELL, sha).table
  {
  }

  lemma {:induction false} StoresState(t: Table, cat: Catalogue, d: Bytes, stores: seq<StoreArgs>, sha: DigestFunction)
    requires Settled(t, cat, sha) && d != [] && HasRoom(t, d) && WellFormed(cat(d))
    requires forall k :: 0 <= k < |stores| ==> Faithful(cat, d, stores[k])
    ensures Stores(t, stores, sha) == Underway(t, cat, d, stores, sha)
  {
    if stores != [] {
      var n := |stores| - 1;
      StoresState(t, cat, d, stores[..n], sha);
      StoreUnderway(t, cat, d, stores[..n], stores[n], sha);
      StoresOneMore(t, stores, sha);
    }
  }

  // --------------------------------------------------------- the abstract map

  type AppMap = map<Name, Entry>

  /** The documented duplicate rule, on the map. */
  function InstallInMap(m: AppMap, e: Entry): AppMap {
    if e.wappName in m && m[e.wappName].seqNo > e.seqNo then m else m[e.wappName := e]
  }

  /** The table lists exactly the records of the map, one per app name. */
  ghost predicate Refines(t: Table, m: AppMap) {
    && DistinctNames(t)
    && (forall i :: 0 <= i < |t| ==> t[i].wappName != [] && t[i].wappName in m && m[t[i].wappName] == t[i])
    && (forall n :: n in m ==> exists i :: 0 <= i < |t| && t[i].wappName == n)
  }

  /** Under the refinement, a lookup by app name is a lookup in the map. */
  lemma {:induction false} LookupInMap(t: Table, m: AppMap, name: Name)
    requires Refines(t, m)
    ensures LookupName(t, name) == if name in m then Some(m[name]) else None
  {
    if name in m {
      var i :| 0 <= i < |t| && t[i].wappName == name;
    }
  }

  /** One clean install, whichever of its stores come first and however often they repeat, acts on
      the table as the duplicate rule acts on the map. */
  lemma {:induction false} InstallRefines(t: Table, m: AppMap, cat: Catalogue, inst: Install, sha: DigestFunction)
    requires Settled(t, cat, sha) && Refines(t, m) && Clean(cat, inst) && HasRoom(t, inst.digest)
    ensures Settled(RunInstall(t, inst, sha), cat, sha)
    ensures Refines(RunInstall(t, inst, sha), InstallInMap(m, Installed(cat, inst.digest, sha)))
  {
    var d := inst.digest;
    StoresState(t, cat, d, inst.stores, sha);
    match FindDigest(t, d) {
      case Some(i) => FinaliseAgain(t, m, cat, i, sha);
      case None =>
        var e := Installed(cat, d, sha);
        FindAppended(t, e);
        AppendFinalised(t, m, e);
        AppendFinalisedSettled(t, e, cat, sha);
    }
  }

  lemma {:induction false} FinaliseAgain(t: Table, m: AppMap, cat: Catalogue, i: nat, sha: DigestFunction)
    requires Settled(t, cat, sha) && Refines(t, m) && i < |t| && FindDigest(t, t[i].digest) == Some(i)
    ensures Finalise(t, t[i].digest).table == t
    ensures InstallInMap(m, t[i]) == m
  {
    assert FindName(t, t[i].wappName, i) == None;
    assert m[t[i].wappName := t[i]] == m;
  }

  /** Finalising the record just appended: append it, replace its rival, or drop it. */
  lemma {:induction false} FinaliseAppended(t: Table, e: Entry)
    requires Complete(e)
    ensures UpdateOrDiscard(t + [e], |t|) ==
      match FindName(t, e.wappName, -1)
      case None => t + [e]
      case Some(j) => if t[j].seqNo <= e.seqNo then t[j := e] else t
  {
    var s := t + [e];
    assert forall k :: 0 <= k < |t| ==> s[k] == t[k];
    assert FindName(s, e.wappName, |t|) == FindName(t, e.wappName, -1);
    match FindName(t, e.wappName, -1) {
      case None =>
      case Some(j) =>
        assert RemoveAt(Swap(s, |t|, j), |t|) == t[j := e];
        assert RemoveAt(s, |t|) == t;
    }
  }

  lemma {:induction false} RefinesAppend(t: Table, m: AppMap, e: Entry)
    requires Refines(t, m) && e.wappName != [] && e.wappName !in m
    ensures Refines(t + [e], m[e.wappName := e])
  {
    var t', m' := t + [e], m[e.wappName := e];
    assert t'[|t|] == e;
    forall n | n in m'
      ensures exists i :: 0 <= i < |t'| && t'[i].wappName == n
    {
      if n != e.wappName {
        var i :| 0 <= i < |t| && t[i].wappName == n;
        assert t'[i].wappName == n;
      }
    }
  }

  lemma {:induction false} RefinesReplace(t: Table, m: AppMap, e: Entry, j: nat)
    requires Refines(t, m) && j < |t| && t[j].wappName == e.wappName
    ensures Refines(t[j := e], m[e.wappName := e])
  {
    var t', m' := t[j := e], m[e.wappName := e];
    assert forall k :: 0 <= k < |t| ==> t'[k].wappName == t[k].wappName;
    forall k | 0 <= k < |t|
      ensures t'[k].wappName in m' && m'[t'[k].wappName] == t'[k]
    {
      if k < j || k > j { assert t[k].wappName != e.wappName; }
    }
    forall n | n in m'
      ensures exists i :: 0 <= i < |t'| && t'[i].wappName == n
    {
      assert n in m;
      var i :| 0 <= i < |t| && t[i].wappName == n;
      assert t'[i].wappName == n;
    }
  }

  lemma {:induction false} AppendFinalised(t: Table, m: AppMap, e: Entry)
    requires Refines(t, m) && Complete(e)
    ensures Refines(UpdateOrDiscard(t + [e], |t|), InstallInMap(m, e))
  {
    FinaliseAppended(t, e);
    LookupInMap(t, m, e.wappName);
    match FindName(t, e.wappName, -1) {
      case None =>
        RefinesAppend(t, m, e);
      case Some(j) =>
        if t[j].seqNo <= e.seqNo { RefinesReplace(t, m, e, j); }
    }
  }

  lemma {:induction false} AppendFinalisedSettled(t: Table, e: Entry, cat: Catalogue, sha: DigestFunction)
    requires Settled(t, cat, sha) && Complete(e) && FindDigest(t, e.digest) == None && |t| < MAX_RECORDS
    requires e == Installed(cat, e.digest, sha) && WellFormed(cat(e.digest)) && e.digest != []
    ensures Settled(UpdateOrDiscard(t + [e], |t|), cat, sha)
  {
    FinaliseAppended(t, e);
    UpdateOrDiscardKeepsInv(t + [e], |t|);
  }

  // -------------------------------------------------------------------- runs

  function RunInstalls(history: seq<Install>, sha: DigestFunction): Table {
    if history == [] then []
    else RunInstall(RunInstalls(history[..|history| - 1], sha), history[|history| - 1], sha)
  }

  function MapOf(history: seq<Install>, cat: Catalogue, sha: DigestFunction): AppMap {
    if history == [] then map[]
    else InstallInMap(MapOf(history[..|history| - 1], cat, sha),
                      Installed(cat, history[|history| - 1].digest, sha))
  }

  predicate CleanAt(history: seq<Install>, n: nat, cat: Catalogue, sha: DigestFunction)
    requires n < |history|
  {
    Clean(cat, history[n]) && HasRoom(RunInstalls(history[..n], sha), history[n].digest)
  }

  /** Every install is clean and finds a slot when it needs one. */
  ghost predicate CleanHistory(history: seq<Install>, cat: Catalogue, sha: DigestFunction) {
    forall n :: 0 <= n < |history| ==> CleanAt(history, n, cat, sha)
  }

  /** Refinement over whole runs. */
  lemma {:induction false} HistoryRefines(history: seq<Install>, cat: Catalogue, sha: DigestFunction)
    requires CleanHistory(history, cat, sha)
    ensures Settled(RunInstalls(history, sha), cat, sha)
    ensures Refines(RunInstalls(history, sha), MapOf(history, cat, sha))
  {
    hide RunInstall, HasRoom, Clean, InstallInMap, Installed;
    if history != [] {
      var n := |history| - 1;
      assert CleanAt(history, n, cat, sha);
      forall k | 0 <= k < n
        ensures CleanAt(history[..n], k, cat, sha)
      {
        assert CleanAt(history, k, cat, sha) && history[..n][..k] == history[..k];
      }
      HistoryRefines(history[..n], cat, sha);
      InstallRefines(RunInstalls(history[..n], sha), MapOf(history[..n], cat, sha), cat, history[n], sha);
    }
  }

  function AppAt(history: seq<Install>, cat: Catalogue, k: nat): Name
    requires k < |history|
  {
    cat(history[k].digest).app
  }

  /** Install `k` has the greatest sequence number of its app, and is the latest such install. */
  ghost predicate Newest(history: seq<Install>, cat: Catalogue, k: nat) {
    && k < |history|
    && forall j :: 0 <= j < |history| && AppAt(history, cat, j) == AppAt(history, cat, k) ==>
         && cat(history[j].digest).seqNo <= cat(history[k].digest).seqNo
         && (j > k ==> cat(history[j].digest).seqNo < cat(history[k].digest).seqNo)
  }

  /** The map holds, for a name, the newest install of that name. */
  ghost predicate HeldBy(history: seq<Install>, cat: Catalogue, sha: DigestFunction, name: Name, k: nat) {
    && k < |history| && AppAt(history, cat, k) == name && Newest(history, cat, k)
    && name in MapOf(history, cat, sha)
    && MapOf(history, cat, sha)[name] == Installed(cat, history[k].digest, sha)
  }

  lemma {:induction false} NewestAfterOneMore(before: seq<Install>, last: Install, cat: Catalogue, k: nat)
    requires k < |before| && Newest(before, cat, k)
    ensures AppAt(before + [last], cat, k) == AppAt(before, cat, k)
    ensures var history := before + [last];
      if cat(last.digest).app == AppAt(before, cat, k) && cat(before[k].digest).seqNo <= cat(last.digest).seqNo
      then Newest(history, cat, |before|) else Newest(history, cat, k)
  {
    var history := before + [last];
    assert history[|before|] == last;
    assert forall j :: 0 <= j < |before| ==> history[j] == before[j] && AppAt(history, cat, j) == AppAt(before, cat, j);
  }

  lemma {:induction false} FirstOfItsName(before: seq<Install>, last: Install, cat: Catalogue)
    requires forall j :: 0 <= j < |before| ==> AppAt(before, cat, j) != cat(last.digest).app
    ensures Newest(before + [last], cat, |before|)
  {
    var history := before + [last];
    assert history[|before|] == last;
    assert forall j :: 0 <= j < |before| ==> AppAt(history, cat, j) == AppAt(before, cat, j);
  }

  lemma {:induction false} MapHoldsNewest(history: seq<Install>, cat: Catalogue, sha: DigestFunction, name: Name)
    returns (k: nat)
    ensures name in MapOf(history, cat, sha) ==> HeldBy(history, cat, sha, name, k)
    ensures name !in MapOf(history, cat, sha) ==>
      forall j :: 0 <= j < |history| ==> AppAt(history, cat, j) != name
  {
    k := 0;
    if history != [] {
      var n := |history| - 1;
      var before, last := history[..n], history[n];
      assert history == before + [last];
      k := MapHoldsNewest(before, cat, sha, name);
      assert forall j :: 0 <= j < n ==> AppAt(history, cat, j) == AppAt(before, cat, j);
      if name in MapOf(before, cat, sha) {
        NewestAfterOneMore(before, last, cat, k);
        if cat(last.digest).app == name && cat(before[k].digest).seqNo <= cat(last.digest).seqNo {
          k := n;
        }
      } else if cat(last.digest).app == name {
        FirstOfItsName(before, last, cat);
        k := n;
      }
    }
  }

  /** After any run of clean installs, a lookup by app name returns the install of greatest sequence
      number, the latest one on ties; a name never installed is not found. */
  lemma {:induction false} LookupReturnsNewest(history: seq<Install>, cat: Catalogue, sha: DigestFunction, k: nat)
    requires CleanHistory(history, cat, sha)
    requires k < |history| && Newest(history, cat, k)
    ensures LookupName(RunInstalls(history, sha), AppAt(history, cat, k))
         == Some(Installed(cat, history[k].digest, sha))
  {
    var name := AppAt(history, cat, k);
    HistoryRefines(history, cat, sha);
    LookupInMap(RunInstalls(history, sha), MapOf(history, cat, sha), name);
    var j := MapHoldsNewest(history, cat, sha, name);
    assert j == k;
  }

  lemma {:induction false} LookupFindsInstalled(history: seq<Install>, cat: Catalogue, sha: DigestFunction, name: Name)
    requires CleanHistory(history, cat, sha)
    ensures LookupName(RunInstalls(history, sha), name).Some? <==>
            exists k :: 0 <= k < |history| && AppAt(history, cat, k) == name
  {
    HistoryRefines(history, cat, sha);
    LookupInMap(RunInstalls(history, sha), MapOf(history, cat, sha), name);
    var k := MapHoldsNewest(history, cat, sha, name);
    if name in MapOf(history, cat, sha) { assert AppAt(history, cat, k) == name; }
  }

  // ---------------------------------------------- while a digest is being stored

  function StoreAll(t: Table, calls: seq<(StoreArgs, StoreEnv)>, sha: DigestFunction): Table {
    if calls == [] then t
    else
      var n := |calls| - 1;
      Store(StoreAll(t, calls[..n], sha), calls[n].0, calls[n].1, sha).table
  }

  /** `s` is `t`, possibly followed by one record of digest `d`. */
  ghost predicate Beside(t: Table, s: Table, d: Bytes) {
    |t| <= |s| <= |t| + 1 && s[..|t|] == t && (|s| > |t| ==> s[|t|].digest == d)
  }

  lemma {:induction false} StoreBeside(t: Table, s: Table, a: StoreArgs, env: StoreEnv, sha: DigestFunction)
    requires FindDigest(t, a.digest) == None && Beside(t, s, a.digest)
    ensures Beside(t, Store(s, a, env, sha).table, a.digest)
  {
    assert forall k :: 0 <= k < |t| ==> s[k] == t[k];
    var s' := Store(s, a, env, sha).table;
    assert forall k :: 0 <= k < |t| ==> s'[k] == t[k];
  }

  lemma {:induction false} StoreAllBeside(t: Table, d: Bytes, calls: seq<(StoreArgs, StoreEnv)>, sha: DigestFunction)
    requires FindDigest(t, d) == None
    requires forall k :: 0 <= k < |calls| ==> calls[k].0.digest == d
    ensures Beside(t, StoreAll(t, calls, sha), d)
  {
    if calls != [] {
      var n := |calls| - 1;
      StoreAllBeside(t, d, calls[..n], sha);
      StoreBeside(t, StoreAll(t, calls[..n], sha), calls[n].0, calls[n].1, sha);
    }
  }

  /** While a new digest is being stored, by any calls and with any failures, every app name that was
      answered before is answered by the same record. */
  lemma {:induction false} OldNameAnswers(t: Table, d: Bytes, calls: seq<(StoreArgs, StoreEnv)>, sha: DigestFunction)
    requires FindDigest(t, d) == None
    requires forall k :: 0 <= k < |calls| ==> calls[k].0.digest == d
    ensures forall name :: LookupName(t, name).Some? ==>
      LookupName(StoreAll(t, calls, sha), name) == LookupName(t, name)
  {
    StoreAllBeside(t, d, calls, sha);
    PrefixAnswers(t, StoreAll(t, calls, sha));
  }

  lemma {:induction false} PrefixAnswers(t: Table, t': Table)
    requires |t| <= |t'| && t'[..|t|] == t
    ensures forall name :: LookupName(t, name).Some? ==> LookupName(t', name) == LookupName(t, name)
  {
    forall name | LookupName(t, name).Some?
      ensures LookupName(t', name) == LookupName(t, name)
    {
      assert forall k :: 0 <= k < |t| ==> t'[k] == t[k];
    }
  }
}
