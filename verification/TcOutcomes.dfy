/**
 * When the operations on the table succeed, and what they leave when they do not, in terms of the fields of
 * a record and of what the environment grants.
 */
module TcOutcomes {
  import opened Basics
  import opened TcTable
  import opened TcProperties
  import opened TcRefinement

  // ------------------------------------------------------------------- store

  /** Whether a store succeeds: it is a store; the digest has a record or gets one of twenty; and the copy of
      the source, if there is anything to copy, can be allocated. */
  lemma {:induction false} StoreSucceedsIff(t: Table, a: StoreArgs, env: StoreEnv, sha: DigestFunction)
    requires Inv(t)
    ensures Store(t, a, env, sha).ok <==>
      && a.isStore
      && (Lookup(t, a.digest).Some? || (a.digest != [] && |t| < 20 && env.digestAlloc))
      && (a.src == [] || env.binAlloc)
  {
  }

  /** What a store leaves for its digest when it has a record to write to, successful or not: the part it is
      for is written, the other part is as it was; a payload that could not be copied keeps its old hash. */
  lemma {:induction false} StoredRecord(t: Table, a: StoreArgs, env: StoreEnv, sha: DigestFunction)
    requires Inv(t) && a.isStore
    requires Lookup(t, a.digest).Some? || (a.digest != [] && |t| < 20 && env.digestAlloc)
    ensures var after := Lookup(Store(t, a, env, sha).table, a.digest);
      && after.Some?
      && var e := if Lookup(t, a.digest).Some? then Lookup(t, a.digest).value
                  else Entry(a.digest, [], 0, [], [], ZERO_HASH, []);
         var copied := if env.binAlloc then a.src else [];
         var name := if a.isManifest then e.manifestName else e.wappName;
         var named := match a.dst
                      case Undecodable => name
                      case Unconvertible(left) => left
                      case Converted(text) => TrimSlashes(text);
         if a.isManifest then
           after.value == Entry(a.digest, named, a.seqNo, copied, e.wappName, e.wappHash, e.wappBin)
         else
           && after.value.manifestName == e.manifestName && after.value.seqNo == e.seqNo
           && after.value.manifestBin == e.manifestBin && after.value.digest == a.digest
           && after.value.wappName == named && after.value.wappBin == copied
           && (copied == [] ==> after.value.wappHash == e.wappHash)
           && (copied != [] && env.hashFault == None ==> after.value.wappHash == sha(copied))
  {
    var t' := Store(t, a, env, sha).table;
    match FindDigest(t, a.digest) {
      case Some(i) =>
        assert t'[i].digest == a.digest && forall k :: 0 <= k < i ==> t'[k] == t[k];
      case None =>
        assert t'[|t|].digest == a.digest && forall k :: 0 <= k < |t| ==> t'[k] == t[k];
    }
  }

  /** A store that has no record to write to changes nothing. */
  lemma {:induction false} StoreRefused(t: Table, a: StoreArgs, env: StoreEnv, sha: DigestFunction)
    requires !a.isStore || (Lookup(t, a.digest) == None && (a.digest == [] || |t| >= 20 || !env.digestAlloc))
    ensures Store(t, a, env, sha) == Outcome(t, false)
  {
  }

  // ---------------------------------------------------------------- finalise

  /** Finalising succeeds if and only if the digest has a record in which manifest name, app name, manifest
      and payload have all been stored. A record in which one is missing is gone afterwards, and no other
      digest notices; without a record nothing changes. */
  lemma {:induction false} FinaliseSucceedsIff(t: Table, d: Bytes)
    requires Inv(t)
    ensures var r, o := Lookup(t, d), Finalise(t, d);
      && (o.ok <==>
            && r.Some? && r.value.manifestName != [] && r.value.wappName != []
            && r.value.manifestBin != [] && r.value.wappBin != [])
      && (!o.ok && r.Some? ==> Lookup(o.table, d) == None && forall x :: x != d ==> Lookup(o.table, x) == Lookup(t, x))
      && (r == None ==> o.table == t)
  {
    FinaliseConserves(t, d);
    FinaliseFrame(t, d);
  }

  /** A new manifest is accepted if and only if both its metadata and its payload were stored; otherwise the
      table is as if it had never come. */
  lemma {:induction false} NewFinalisesIff(t: Table, cat: Catalogue, d: Bytes, meta: bool, payload: bool,
      sha: DigestFunction)
    requires FindDigest(t, d) == None && d != [] && WellFormed(cat(d))
    ensures var o := Finalise(t + [Progress(cat, d, meta, payload, sha)], d);
      (o.ok <==> meta && payload) && (!o.ok ==> o.table == t)
  {
    var e := Progress(cat, d, meta, payload, sha);
    FindAppended(t, e);
    assert RemoveAt(t + [e], |t|) == t;
  }

  // ------------------------------------------------------------------ export

  /** The table is exported if and only if there is room for all of it and every record has manifest name, app
      name, manifest and payload, and a name short enough. */
  lemma {:induction false} ExportedIff(t: Table, capacity: nat, nameMax: nat)
    ensures TcList(t, capacity, nameMax).Some? <==>
      && 0 < capacity && |t| <= capacity
      && forall k :: 0 <= k < |t| ==>
           && t[k].manifestName != [] && t[k].wappName != [] && t[k].manifestBin != [] && t[k].wappBin != []
           && |t[k].wappName| < nameMax
  {
    if t != [] && capacity >= |t| {
      assert AllExportable(t, nameMax) <==> forall k :: 0 <= k < |t| ==>
        && t[k].manifestName != [] && t[k].wappName != [] && t[k].manifestBin != [] && t[k].wappBin != []
        && |t[k].wappName| < nameMax;
    }
  }
}
