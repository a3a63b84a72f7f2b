/**
 * Which record answers for an app name after a table operation: an exact description by the table before
 * it, and from it the exact conditions under which a finalised record is shadowed by another one, under
 * which an app name falls back to an older record, and under which app names stay distinct.
 */
module TcAnswers {
  import opened Basics
  import opened TcTable
  import opened TcProperties

  /** Finalising the record at `i` removes a record from the table. */
  predicate Removes(t: Table, i: nat)
    requires i < |t|
  {
    !Complete(t[i]) || FindName(t, t[i].wappName, i).Some?
  }

  /** The target at `i` replaces the record at `j`. */
  predicate Wins(t: Table, i: nat, j: nat)
    requires i < |t| && j < |t|
  {
    Complete(t[i]) && t[i].wappName == t[j].wappName && t[j].seqNo <= t[i].seqNo
  }

  /** The last record is moved in front of the record at `j`, and has its app name. */
  predicate Overtaken(t: Table, i: nat, j: nat)
    requires i < |t| && j < |t|
  {
    i < j < |t| - 1 && t[|t| - 1].wappName == t[j].wappName
  }

  /** The record that answers for a name after finalising the one at `i`, by the table before. */
  function AnswerAfter(t: Table, i: nat, name: Name): Option<Entry>
    requires i < |t|
  {
    match FindName(t, name, i)
    case None => None
    case Some(j) => if Overtaken(t, i, j) then Some(t[|t| - 1]) else if Wins(t, i, j) then Some(t[i]) else Some(t[j])
  }

  lemma {:induction false} FirstNamed(t: Table, name: Name, j: nat)
    requires name != [] && j < |t| && t[j].wappName == name
    requires forall k :: 0 <= k < j ==> t[k].wappName != name
    ensures LookupName(t, name) == Some(t[j])
  {
  }

  lemma {:induction false} NoneNamed(t: Table, name: Name)
    requires forall k :: 0 <= k < |t| ==> t[k].wappName != name
    ensures LookupName(t, name) == None
  {
  }

  /** What answers after the record at `i` was removed. */
  lemma {:induction false} AnswerAfterRemoval(t: Table, i: nat, name: Name)
    requires i < |t|
    ensures LookupName(RemoveAt(t, i), name) ==
      match FindName(t, name, i)
      case None => None
      case Some(j) => if Overtaken(t, i, j) then Some(t[|t| - 1]) else Some(t[j])
  {
    var r, last := RemoveAt(t, i), |t| - 1;
    assert forall k :: 0 <= k < |r| ==> r[k] == if k == i then t[last] else t[k];
    match FindName(t, name, i) {
      case None =>
        if name != [] { NoneNamed(r, name); }
      case Some(j) =>
        FirstNamed(r, name, if Overtaken(t, i, j) || j == last then i else j);
    }
  }

  /** What answers after the record at `i` replaced the first other record of its name. */
  lemma {:induction false} AnswerAfterReplacing(t: Table, i: nat, j: nat, name: Name)
    requires i < |t| && FindName(t, t[i].wappName, i) == Some(j) && Wins(t, i, j)
    ensures LookupName(RemoveAt(Swap(t, i, j), i), name) == AnswerAfter(t, i, name)
  {
    var s := Swap(t, i, j);
    assert forall k :: 0 <= k < |t| ==> s[k].wappName == t[k].wappName;
    assert FindName(s, name, i) == FindName(t, name, i) by {
      SameNames(t, s, name, i);
    }
    AnswerAfterRemoval(s, i, name);
  }

  lemma {:induction false} SameNames(t: Table, s: Table, name: Name, skip: int)
    requires |s| == |t| && forall k :: 0 <= k < |t| ==> s[k].wappName == t[k].wappName
    ensures FindName(s, name, skip) == FindName(t, name, skip)
  {
  }

  /** The answer for every app name after a finalisation, in every aliasing case of the in-place merge. */
  lemma {:induction false} FinaliseAnswers(t: Table, d: Bytes, i: nat, name: Name)
    requires FindDigest(t, d) == Some(i)
    ensures LookupName(Finalise(t, d).table, name)
         == if Removes(t, i) then AnswerAfter(t, i, name) else LookupName(t, name)
  {
    hide LookupName;
    if !Complete(t[i]) {
      AnswerAfterRemoval(t, i, name);
    } else {
      match FindName(t, t[i].wappName, i) {
        case None =>
        case Some(j) =>
          if Wins(t, i, j) {
            AnswerAfterReplacing(t, i, j, name);
          } else {
            AnswerAfterRemoval(t, i, name);
            assert FindName(t, name, i).Some? ==> !Wins(t, i, FindName(t, name, i).value);
          }
      }
    }
  }

  // -------------------------------------------------------------- shadowing

  /** Exactly when a record that has just been finalised answers for its app: not when the record it
      replaced came after it and the last record, which has the same app name, was moved in front. */
  lemma {:induction false} FinalisedAnswersIff(t: Table, d: Bytes, i: nat)
    requires Inv(t) && FindDigest(t, d) == Some(i) && Finalise(t, d).ok
    ensures var t' := Finalise(t, d).table;
      var rival := FindName(t, t[i].wappName, i);
      && (Lookup(t', d).Some? <==> !(rival.Some? && t[rival.value].seqNo > t[i].seqNo))
      && (Lookup(t', d).Some? ==>
            (LookupName(t', t[i].wappName) == Lookup(t', d) <==> !(rival.Some? && Overtaken(t, i, rival.value))))
      && (Lookup(t', d).Some? && DistinctNamesBut(t, i) ==> LookupName(t', t[i].wappName) == Lookup(t', d))
  {
    FinaliseFrame(t, d);
    FinaliseConserves(t, d);
    FinaliseAnswers(t, d, i, t[i].wappName);
    match FindName(t, t[i].wappName, i) {
      case None =>
        FirstNamed(t, t[i].wappName, i);
      case Some(j) =>
        if DistinctNamesBut(t, i) { DistinctNeverOvertaken(t, i, j); }
    }
  }

  /** In particular it answers when the other records have distinct names. */
  lemma {:induction false} DistinctNeverOvertaken(t: Table, i: nat, j: nat)
    requires i < |t| && DistinctNamesBut(t, i) && FindName(t, t[i].wappName, i) == Some(j)
    ensures !Overtaken(t, i, j)
  {
  }

  // -------------------------------------------------------------- downgrade

  /** The record that answers for a name has a smaller sequence number than the one that did. */
  predicate Downgrades(t: Table, t': Table, name: Name) {
    && LookupName(t, name).Some? && LookupName(t', name).Some?
    && LookupName(t', name).value.seqNo < LookupName(t, name).value.seqNo
  }

  /** What makes a finalisation of the record at `i` downgrade a name: the last record is moved in front of
      the newer one that answered, or an incomplete record that answered is dropped for an older one. */
  predicate FinaliseDowngrades(t: Table, i: nat, name: Name)
    requires i < |t|
  {
    && Removes(t, i) && FindName(t, name, i).Some?
    && var j := FindName(t, name, i).value;
       if Overtaken(t, i, j) then t[|t| - 1].seqNo < (if t[i].wappName == name then t[i] else t[j]).seqNo
       else i < j && t[i].wappName == name && !Complete(t[i]) && t[j].seqNo < t[i].seqNo
  }

  lemma {:induction false} FinaliseDowngradesIff(t: Table, d: Bytes, i: nat, name: Name)
    requires FindDigest(t, d) == Some(i)
    ensures Downgrades(t, Finalise(t, d).table, name) <==> FinaliseDowngrades(t, i, name)
  {
    FinaliseAnswers(t, d, i, name);
    match FindName(t, name, i) {
      case None =>
      case Some(j) =>
        FirstNamed(t, name, if i < j && t[i].wappName == name then i else j);
    }
  }

  /** The app name of the record of a store after it. */
  function NameStored(before: Name, a: StoreArgs): Name {
    if a.isManifest then before else NameAfter(before, a.dst)
  }

  /** What makes a store to the record at `i` downgrade a name: that record answers for it and gets a smaller
      sequence number; or takes the name over from a newer record; or gives it up to an older one. */
  predicate StoreDowngrades(t: Table, i: nat, a: StoreArgs, name: Name)
    requires i < |t|
  {
    var j, named := FindName(t, name, i), NameStored(t[i].wappName, a) == name;
    if named && t[i].wappName == name then
      name != [] && a.isManifest && a.seqNo < t[i].seqNo && (j == None || i < j.value)
    else
      && j.Some? && i < j.value
      && ((named && t[i].seqNo < t[j.value].seqNo) || (t[i].wappName == name && t[j.value].seqNo < t[i].seqNo))
  }

  lemma {:induction false} AnswerBefore(t: Table, i: nat, name: Name)
    requires i < |t|
    ensures LookupName(t, name) ==
      match FindName(t, name, i)
      case None => if name != [] && t[i].wappName == name then Some(t[i]) else None
      case Some(j) => if i < j && t[i].wappName == name then Some(t[i]) else Some(t[j])
  {
    match FindName(t, name, i) {
      case None =>
        if name != [] && t[i].wappName == name { FirstNamed(t, name, i); } else if name != [] { NoneNamed(t, name); }
      case Some(j) =>
        FirstNamed(t, name, if i < j && t[i].wappName == name then i else j);
    }
  }

  lemma {:induction false} OthersNamed(t: Table, s: Table, name: Name, i: nat)
    requires |s| == |t| && forall k :: 0 <= k < |t| && k != i ==> s[k] == t[k]
    ensures FindName(s, name, i) == FindName(t, name, i)
  {
  }

  /** A store never downgrades a name when it takes a new slot, or none. */
  lemma {:induction false} StoreDowngradesIff(t: Table, a: StoreArgs, env: StoreEnv, name: Name, sha: DigestFunction)
    ensures Downgrades(t, Store(t, a, env, sha).table, name) <==>
      a.isStore && FindDigest(t, a.digest).Some? && StoreDowngrades(t, FindDigest(t, a.digest).value, a, name)
  {
    var t' := Store(t, a, env, sha).table;
    match FindDigest(t, a.digest) {
      case Some(i) =>
        if a.isStore {
          OthersNamed(t, t', name, i);
          AnswerBefore(t, i, name);
          AnswerBefore(t', i, name);
        }
      case None =>
        if LookupName(t, name).Some? {
          var j := FindName(t, name, -1).value;
          assert forall k :: 0 <= k < |t| ==> t'[k] == t[k];
          FirstNamed(t', name, j);
        }
    }
  }

  /** What makes a table operation downgrade a name. */
  predicate OpDowngrades(t: Table, op: Op, name: Name) {
    match op
    case StoreOp(a, _) =>
      a.isStore && FindDigest(t, a.digest).Some? && StoreDowngrades(t, FindDigest(t, a.digest).value, a, name)
    case FinaliseOp(d) => FindDigest(t, d).Some? && FinaliseDowngrades(t, FindDigest(t, d).value, name)
    case RemoveAllOp => false
  }

  /** Exactly when an operation, whichever it is and whatever fails in it, makes an app name answer with an
      older record than before. */
  lemma {:induction false} DowngradesIff(t: Table, op: Op, name: Name, sha: DigestFunction)
    ensures Downgrades(t, Apply(t, op, sha), name) <==> OpDowngrades(t, op, name)
  {
    match op {
      case StoreOp(a, env) => StoreDowngradesIff(t, a, env, name, sha);
      case FinaliseOp(d) =>
        if FindDigest(t, d).Some? { FinaliseDowngradesIff(t, d, FindDigest(t, d).value, name); }
      case RemoveAllOp =>
    }
  }

  // ---------------------------------------------------------- distinct names

  /** What an operation needs to leave app names distinct. A store needs it of the other records, and that
      none of them has the name it leaves in its own. */
  ghost predicate OpKeepsDistinct(t: Table, op: Op) {
    match op
    case StoreOp(a, env) =>
      if !a.isStore then DistinctNames(t)
      else
        (match FindDigest(t, a.digest)
         case Some(i) => DistinctNamesBut(t, i) && FindName(t, NameStored(t[i].wappName, a), i) == None
         case None =>
           DistinctNames(t)
           && (|t| < MAX_RECORDS && a.digest != [] && env.digestAlloc ==> FindName(t, NameStored([], a), -1) == None))
    case FinaliseOp(d) =>
      if FindDigest(t, d).Some? then DistinctNamesBut(t, FindDigest(t, d).value) else DistinctNames(t)
    case RemoveAllOp => true
  }

  lemma {:induction false} StoreNamesIff(t: Table, a: StoreArgs, env: StoreEnv, sha: DigestFunction)
    ensures DistinctNames(Store(t, a, env, sha).table) <==> OpKeepsDistinct(t, StoreOp(a, env))
  {
    var t' := Store(t, a, env, sha).table;
    match FindDigest(t, a.digest) {
      case Some(i) =>
        if a.isStore { WrittenNamesIff(t, i, t'[i]); }
      case None =>
        if |t'| > |t| { AppendedNamesIff(t, t'[|t|]); }
    }
  }

  lemma {:induction false} WrittenNamesIff(t: Table, i: nat, e: Entry)
    requires i < |t|
    ensures DistinctNames(t[i := e]) <==> DistinctNamesBut(t, i) && FindName(t, e.wappName, i) == None
  {
    var s := t[i := e];
    if FindName(t, e.wappName, i).Some? {
      var j := FindName(t, e.wappName, i).value;
      assert s[j] == t[j] && s[i] == e;
    }
    if DistinctNames(s) {
      forall k, l | 0 <= k < l < |t| && k != i && l != i && t[k].wappName != []
        ensures t[k].wappName != t[l].wappName
      {
        assert s[k] == t[k] && s[l] == t[l];
      }
    }
  }

  lemma {:induction false} AppendedNamesIff(t: Table, e: Entry)
    ensures DistinctNames(t + [e]) <==> DistinctNames(t) && FindName(t, e.wappName, -1) == None
  {
    var s := t + [e];
    if FindName(t, e.wappName, -1).Some? {
      var j := FindName(t, e.wappName, -1).value;
      assert s[j] == t[j] && s[|t|] == e;
    }
    if DistinctNames(s) {
      forall k, l | 0 <= k < l < |t| && t[k].wappName != []
        ensures t[k].wappName != t[l].wappName
      {
        assert s[k] == t[k] && s[l] == t[l];
      }
    }
  }

  /** Exactly when an operation leaves all app names distinct. */
  lemma {:induction false} DistinctIff(t: Table, op: Op, sha: DigestFunction)
    ensures DistinctNames(Apply(t, op, sha)) <==> OpKeepsDistinct(t, op)
  {
    match op {
      case StoreOp(a, env) => StoreNamesIff(t, a, env, sha);
      case FinaliseOp(d) =>
        if FindDigest(t, d).Some? { FinaliseUniqueIff(t, d, FindDigest(t, d).value); }
      case RemoveAllOp =>
    }
  }
}
