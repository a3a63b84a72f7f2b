/**
 * What the table operations keep: invariants and frames over every run, conservation of records by
 * finalisation, and exactly when app names are distinct and stored hashes are those of the payload.
 */
module TcProperties {
  import opened Basics
  import opened TcTable

  ghost predicate DistinctDigests(t: Table) {
    forall i, j :: 0 <= i < j < |t| ==> t[i].digest != t[j].digest
  }

  /** Holds in every reachable table, failed allocations and failed manifests included. */
  ghost predicate Inv(t: Table) {
    && |t| <= MAX_RECORDS
    && (forall i :: 0 <= i < |t| ==> t[i].digest != [])
    && DistinctDigests(t)
  }

  /** No two records other than the one at `skip` share a non-empty app name. */
  ghost predicate DistinctNamesBut(t: Table, skip: int) {
    forall i, j :: 0 <= i < j < |t| && i != skip && j != skip && t[i].wappName != []
      ==> t[i].wappName != t[j].wappName
  }

  ghost predicate DistinctNames(t: Table) { DistinctNamesBut(t, -1) }

  /** With distinct digests, looking a digest up is the same as membership. */
  lemma {:induction false} LookupIsMembership(t: Table, d: Bytes)
    requires Inv(t)
    ensures d == [] ==> Lookup(t, d) == None
    ensures forall e :: Lookup(t, d) == Some(e) <==> e in t && e.digest == d
  {
    forall e | e in t && e.digest == d
      ensures Lookup(t, d) == Some(e)
    {
      var i :| 0 <= i < |t| && t[i] == e;
    }
  }

  // ------------------------------------------------------------------- store

  /** A store keeps the invariant and touches the record of its own digest only: every other
      position keeps its record and every other digest its lookup result. */
  lemma {:induction false} StoreFrame(t: Table, a: StoreArgs, env: StoreEnv, sha: DigestFunction)
    requires Inv(t)
    ensures var t' := Store(t, a, env, sha).table;
      && Inv(t')
      && |t| <= |t'| <= |t| + 1
      && (forall i :: 0 <= i < |t| && t[i].digest != a.digest ==> t'[i] == t[i])
      && (forall i :: 0 <= i < |t| ==> t'[i].digest == t[i].digest)
      && (|t'| == |t| + 1 ==> t'[|t|].digest == a.digest && Lookup(t, a.digest) == None)
      && (forall d :: d != a.digest ==> Lookup(t', d) == Lookup(t, d))
  {
    var t' := Store(t, a, env, sha).table;
    forall d | d != a.digest
      ensures Lookup(t', d) == Lookup(t, d)
    {
      match FindDigest(t, d) {
        case Some(i) => assert t'[i] == t[i];
        case None =>
      }
    }
  }

  // ---------------------------------------------------------------- finalise

  lemma {:induction false} RemoveAtConserves(t: Table, i: nat)
    requires i < |t|
    ensures multiset(RemoveAt(t, i)) == multiset(t) - multiset{t[i]}
  {
    var last := |t| - 1;
    var u := t[i := t[last]];
    assert u == RemoveAt(t, i) + [t[last]];
    assert multiset(u) == multiset(RemoveAt(t, i)) + multiset{t[last]};
    assert multiset(u) == multiset(t) - multiset{t[i]} + multiset{t[last]};
    forall e
      ensures multiset(RemoveAt(t, i))[e] == (multiset(t) - multiset{t[i]})[e]
    {
      assert multiset(u)[e] == (multiset(t) - multiset{t[i]})[e] + multiset{t[last]}[e];
    }
  }

  lemma {:induction false} SwapConserves(t: Table, i: nat, j: nat)
    requires i < |t| && j < |t|
    ensures multiset(Swap(t, i, j)) == multiset(t)
  {
    assert multiset(t[j := t[i]]) == multiset(t) - multiset{t[j]} + multiset{t[i]};
  }

  /** The record that finalising `d` removes, stated without positions after the removal:
      an incomplete target; otherwise, when another record has the target's app name, the first such
      record if its sequence number is not larger, and else the target. */
  function Loser(t: Table, d: Bytes): Option<Entry> {
    match FindDigest(t, d)
    case None => None
    case Some(i) =>
      if !Complete(t[i]) then Some(t[i])
      else match FindName(t, t[i].wappName, i)
        case None => None
        case Some(j) => if t[j].seqNo <= t[i].seqNo then Some(t[j]) else Some(t[i])
  }

  lemma {:induction false} UpdateOrDiscardConserves(t: Table, i: nat, j: nat)
    requires i < |t| && FindName(t, t[i].wappName, i) == Some(j)
    ensures multiset(UpdateOrDiscard(t, i)) ==
            multiset(t) - multiset{if t[j].seqNo <= t[i].seqNo then t[j] else t[i]}
  {
    if t[j].seqNo <= t[i].seqNo {
      SwapConserves(t, i, j);
      RemoveAtConserves(Swap(t, i, j), i);
    } else {
      RemoveAtConserves(t, i);
    }
  }

  /** Finalising conserves records: the multiset of records loses exactly the loser. This covers the
      aliasing cases of the in-place merge (target last, rival last, neither). */
  lemma {:induction false} FinaliseConserves(t: Table, d: Bytes)
    ensures multiset(Finalise(t, d).table) ==
      match Loser(t, d) case None => multiset(t) case Some(e) => multiset(t) - multiset{e}
    ensures Loser(t, d).Some? ==> Loser(t, d).value in t
    ensures Finalise(t, d).ok <==> Lookup(t, d).Some? && Complete(Lookup(t, d).value)
  {
    match FindDigest(t, d) {
      case None =>
      case Some(i) =>
        if !Complete(t[i]) {
          RemoveAtConserves(t, i);
        } else {
          match FindName(t, t[i].wappName, i) {
            case None =>
            case Some(j) => UpdateOrDiscardConserves(t, i, j);
          }
        }
    }
  }

  lemma {:induction false} RemoveAtKeepsInv(t: Table, i: nat)
    requires Inv(t) && i < |t|
    ensures Inv(RemoveAt(t, i))
  {
    var r := RemoveAt(t, i);
    assert forall k :: 0 <= k < |r| ==> r[k] == if k == i then t[|t| - 1] else t[k];
  }

  lemma {:induction false} UpdateOrDiscardKeepsInv(t: Table, i: nat)
    requires Inv(t) && i < |t|
    ensures Inv(UpdateOrDiscard(t, i))
  {
    RemoveAtKeepsInv(t, i);
    match FindName(t, t[i].wappName, i) {
      case None =>
      case Some(j) => RemoveAtKeepsInv(Swap(t, i, j), i);
    }
  }

  /** Finalising keeps the invariant and touches at most the target and one record of the same app
      name: every digest but the loser's keeps its lookup result, and the loser is gone. */
  lemma {:induction false} FinaliseFrame(t: Table, d: Bytes)
    requires Inv(t)
    ensures var t' := Finalise(t, d).table;
      && Inv(t')
      && (Loser(t, d) == None ==> t' == t)
      && (forall l :: Loser(t, d) == Some(l) ==>
            && (l.digest == d || (Lookup(t, d).Some? && l.wappName == Lookup(t, d).value.wappName))
            && Lookup(t', l.digest) == None
            && (forall x :: x != l.digest ==> Lookup(t', x) == Lookup(t, x)))
  {
    var t' := Finalise(t, d).table;
    match FindDigest(t, d) {
      case None =>
      case Some(i) =>
        RemoveAtKeepsInv(t, i);
        UpdateOrDiscardKeepsInv(t, i);
    }
    if Loser(t, d).Some? {
      var l := Loser(t, d).value;
      LosingOne(t, t', d, l);
    }
  }

  lemma {:induction false} LosingOne(t: Table, t': Table, d: Bytes, l: Entry)
    requires Inv(t) && Inv(t') && t' == Finalise(t, d).table && Loser(t, d) == Some(l)
    ensures Lookup(t', l.digest) == None
    ensures forall x :: x != l.digest ==> Lookup(t', x) == Lookup(t, x)
  {
    FinaliseConserves(t, d);
    OneOfEach(t);
    forall e
      ensures e in t' <==> e in t && e != l
    {
      assert e in t' <==> e in multiset(t');
      assert e in t <==> e in multiset(t);
    }
    forall x
      ensures Lookup(t', x) == if x == l.digest then None else Lookup(t, x)
    {
      LookupIsMembership(t, x);
      LookupIsMembership(t', x);
      if x == l.digest { assert Lookup(t, x) == Some(l); }
      if Lookup(t', x).Some? { assert Lookup(t', x).value in t; }
    }
  }

  lemma {:induction false} OneOfEach(t: Table)
    requires DistinctDigests(t)
    ensures forall e :: e in t ==> multiset(t)[e] == 1
  {
    if t != [] {
      var s := t[..|t| - 1];
      OneOfEach(s);
      assert t == s + [t[|t| - 1]];
      forall e | e in t
        ensures multiset(t)[e] == 1
      {
        assert e in s <==> e in multiset(s);
      }
    }
  }

  /** Exactly when finalising leaves all app names distinct: when the records other than the target
      already had distinct names. Nothing is required of the target, of its position, of the
      position of its rival, or of the sequence numbers. */
  lemma {:induction false} FinaliseUniqueIff(t: Table, d: Bytes, i: nat)
    requires FindDigest(t, d) == Some(i)
    ensures DistinctNames(Finalise(t, d).table) <==> DistinctNamesBut(t, i)
  {
    if !Complete(t[i]) {
      RemoveAtNames(t, i);
    } else {
      match FindName(t, t[i].wappName, i) {
        case None =>
          assert forall k :: 0 <= k < |t| && k != i ==> t[k].wappName != t[i].wappName;
        case Some(j) =>
          var s := Swap(t, i, j);
          RemoveAtNames(s, i);
          RemoveAtNames(t, i);
          assert forall k :: 0 <= k < |t| ==> s[k].wappName == t[k].wappName;
      }
    }
  }

  lemma {:induction false} RemoveAtNames(t: Table, i: nat)
    requires i < |t|
    ensures DistinctNames(RemoveAt(t, i)) <==> DistinctNamesBut(t, i)
  {
    var r := RemoveAt(t, i);
    var last := |t| - 1;
    assert forall k :: 0 <= k < |r| ==> r[k] == if k == i then t[last] else t[k];
    if DistinctNames(r) {
      forall k, l | 0 <= k < l < |t| && k != i && l != i && t[k].wappName != []
        ensures t[k].wappName != t[l].wappName
      {
        assert r[k] == t[k];
        assert t[l] == r[if l == last then i else l];
      }
    }
  }

  // -------------------------------------------------------------------- runs

  datatype Op =
    | StoreOp(args: StoreArgs, env: StoreEnv)
    | FinaliseOp(digest: Bytes)
    | RemoveAllOp

  function Apply(t: Table, op: Op, sha: DigestFunction): Table {
    match op
    case StoreOp(a, env) => Store(t, a, env, sha).table
    case FinaliseOp(d) => Finalise(t, d).table
    case RemoveAllOp => []
  }

  function Run(t: Table, ops: seq<Op>, sha: DigestFunction): Table
    decreases |ops|
  {
    if ops == [] then t else Run(Apply(t, ops[0], sha), ops[1..], sha)
  }

  /** Every run, whatever fails in it, keeps the table invariant. */
  lemma {:induction false} RunKeepsInv(t: Table, ops: seq<Op>, sha: DigestFunction)
    requires Inv(t)
    ensures Inv(Run(t, ops, sha))
    decreases |ops|
  {
    if ops != [] {
      match ops[0] {
        case StoreOp(a, env) => StoreFrame(t, a, env, sha);
        case FinaliseOp(d) => FinaliseFrame(t, d);
        case RemoveAllOp =>
      }
      RunKeepsInv(Apply(t, ops[0], sha), ops[1..], sha);
    }
  }

  // ------------------------------------------------------------------ hashes

  /** Every stored payload carries its own hash. */
  ghost predicate Hashed(t: Table, sha: DigestFunction) {
    forall i :: 0 <= i < |t| && t[i].wappBin != [] ==> t[i].wappHash == sha(t[i].wappBin)
  }

  /** This store reaches the hashing step. */
  predicate StoresPayload(t: Table, a: StoreArgs, env: StoreEnv) {
    && a.isStore && !a.isManifest && a.src != [] && env.binAlloc
    && (FindDigest(t, a.digest).Some? || (|t| < MAX_RECORDS && a.digest != [] && env.digestAlloc))
  }

  /** The result of hashing is ignored, so a store can leave a payload under another hash. It does
      so exactly when a payload is stored, hashing fails, and the field is left with a wrong value. */
  lemma {:induction false} StoreHashedIff(t: Table, a: StoreArgs, env: StoreEnv, sha: DigestFunction)
    requires Hashed(t, sha)
    ensures Hashed(Store(t, a, env, sha).table, sha) <==>
            !(StoresPayload(t, a, env) && env.hashFault.Some? && env.hashFault.value != sha(a.src))
  {
    var t' := Store(t, a, env, sha).table;
    match FindDigest(t, a.digest) {
      case Some(i) =>
        if a.isStore { assert t'[i] == WriteFields(t[i], a, env, sha); }
      case None =>
        if |t'| > |t| { assert t'[|t|] == WriteFields(Blank(a.digest), a, env, sha); }
    }
  }

  lemma {:induction false} FinaliseKeepsHashed(t: Table, d: Bytes, sha: DigestFunction)
    requires Hashed(t, sha)
    ensures Hashed(Finalise(t, d).table, sha)
  {
    FinaliseConserves(t, d);
    var t' := Finalise(t, d).table;
    forall i | 0 <= i < |t'|
      ensures t'[i] in t
    {
      assert t'[i] in multiset(t');
    }
  }

  lemma {:induction false} ApplyKeepsHashed(t: Table, op: Op, sha: DigestFunction)
    requires Hashed(t, sha) && (op.StoreOp? ==> op.env.hashFault == None)
    ensures Hashed(Apply(t, op, sha), sha)
  {
    match op {
      case StoreOp(a, env) => StoreHashedIff(t, a, env, sha);
      case FinaliseOp(d) => FinaliseKeepsHashed(t, d, sha);
      case RemoveAllOp =>
    }
  }

  predicate HashingWorks(ops: seq<Op>) {
    forall k :: 0 <= k < |ops| && ops[k].StoreOp? ==> ops[k].env.hashFault == None
  }

  /** In every run in which hashing never fails, every stored payload carries its own hash. */
  lemma {:induction false} RunKeepsHashed(t: Table, ops: seq<Op>, sha: DigestFunction)
    requires Hashed(t, sha) && HashingWorks(ops)
    ensures Hashed(Run(t, ops, sha), sha)
    decreases |ops|
  {
    if ops != [] {
      ApplyKeepsHashed(t, ops[0], sha);
      RunKeepsHashed(Apply(t, ops[0], sha), ops[1..], sha);
    }
  }
}
