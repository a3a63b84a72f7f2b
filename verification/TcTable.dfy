/**
 * The trusted-component table on values: what each operation of tc_manager.cpp does to the list of
 * active records. `TcManagerCode` proves that the array-and-heap code computes exactly these functions.
 */
module TcTable {
  import opened Basics

  /** TC_MANAGER_RECORD_MAX_COUNT. */
  const MAX_RECORDS: nat := 20

  /** A record with every buffer replaced by its contents; a null buffer is []. */
  datatype Entry = Entry(
    digest: Bytes,
    manifestName: Name,
    seqNo: nat,
    manifestBin: Bytes,
    wappName: Name,
    wappHash: Hash,
    wappBin: Bytes)

  type Table = seq<Entry>

  function Blank(digest: Bytes): Entry {
    Entry(digest, [], 0, [], [], ZERO_HASH, [])
  }

  predicate Complete(e: Entry) {
    e.manifestName != [] && e.wappName != [] && e.manifestBin != [] && e.wappBin != []
  }

  // ---------------------------------------------------------------- searches

  function FindDigestFrom(t: Table, d: Bytes, from: nat): (r: Option<nat>)
    requires from <= |t|
    ensures r.Some? ==> from <= r.value < |t| && t[r.value].digest == d
    ensures r.Some? ==> forall k :: from <= k < r.value ==> t[k].digest != d
    ensures r.None? ==> forall k :: from <= k < |t| ==> t[k].digest != d
    decreases |t| - from
  {
    if from == |t| then None
    else if t[from].digest == d then Some(from)
    else FindDigestFrom(t, d, from + 1)
  }

  /** The first record with this digest; an empty digest never matches. */
  function FindDigest(t: Table, d: Bytes): (r: Option<nat>)
    ensures r.Some? ==> r.value < |t| && d != [] && t[r.value].digest == d
    ensures r.Some? ==> forall k :: 0 <= k < r.value ==> t[k].digest != d
    ensures r.None? ==> d == [] || forall k :: 0 <= k < |t| ==> t[k].digest != d
  {
    if d == [] then None else FindDigestFrom(t, d, 0)
  }

  function FindNameFrom(t: Table, name: Name, skip: int, from: nat): (r: Option<nat>)
    requires from <= |t|
    ensures r.Some? ==> from <= r.value < |t| && r.value != skip && t[r.value].wappName == name
    ensures r.Some? ==> forall k :: from <= k < r.value && k != skip ==> t[k].wappName != name
    ensures r.None? ==> forall k :: from <= k < |t| && k != skip ==> t[k].wappName != name
    decreases |t| - from
  {
    if from == |t| then None
    else if from != skip && t[from].wappName == name then Some(from)
    else FindNameFrom(t, name, skip, from + 1)
  }

  /** The first record with this app name, other than the one at `skip`; [] never matches. */
  function FindName(t: Table, name: Name, skip: int): (r: Option<nat>)
    ensures r.Some? ==> r.value < |t| && r.value != skip && name != [] && t[r.value].wappName == name
    ensures r.Some? ==> forall k :: 0 <= k < r.value && k != skip ==> t[k].wappName != name
    ensures r.None? ==> name == [] || forall k :: 0 <= k < |t| && k != skip ==> t[k].wappName != name
  {
    if name == [] then None else FindNameFrom(t, name, skip, 0)
  }

  /** The record an outside caller gets for a digest, or for an app name. */
  function Lookup(t: Table, d: Bytes): Option<Entry> {
    match FindDigest(t, d) case Some(i) => Some(t[i]) case None => None
  }

  function LookupName(t: Table, name: Name): Option<Entry> {
    match FindName(t, name, -1) case Some(i) => Some(t[i]) case None => None
  }

  // ------------------------------------------------------------------- store

  /** What decoding and converting the component identifier did to the name buffer. */
  datatype NameUpdate =
    | Undecodable                    // decoding failed: buffer untouched
    | Unconvertible(left: Name)    // conversion failed: buffer as the conversion left it
    | Converted(text: Name)        // leading slashes still present

  function TrimSlashes(s: Name): (r: Name)
    ensures |r| <= |s| && r == s[|s| - |r|..]
    ensures r != [] ==> r[0] != SLASH
    ensures forall k :: 0 <= k < |s| - |r| ==> s[k] == SLASH
  {
    if s != [] && s[0] == SLASH then TrimSlashes(s[1..]) else s
  }

  function NameAfter(before: Name, u: NameUpdate): Name {
    match u
    case Undecodable => before
    case Unconvertible(left) => left
    case Converted(text) => TrimSlashes(text)
  }

  datatype StoreArgs = StoreArgs(
    isStore: bool,
    digest: Bytes,
    isManifest: bool,
    seqNo: nat,
    dst: NameUpdate,
    src: Bytes)

  /** The environment's answers: the two allocations, and whether hashing failed. The code ignores
      the result of hashing, so a failure leaves whatever bytes are then in the hash field. */
  datatype StoreEnv = StoreEnv(digestAlloc: bool, binAlloc: bool, hashFault: Option<Hash>)

  const ALL_WELL := StoreEnv(true, true, None)

  datatype Outcome = Outcome(table: Table, ok: bool)

  function HashAfter(src: Bytes, fault: Option<Hash>, sha: DigestFunction): Hash {
    match fault case None => sha(src) case Some(left) => left
  }

  function WriteFields(e: Entry, a: StoreArgs, env: StoreEnv, sha: DigestFunction): Entry {
    var bin := if env.binAlloc then a.src else [];
    if a.isManifest then
      e.(seqNo := a.seqNo, manifestName := NameAfter(e.manifestName, a.dst), manifestBin := bin)
    else
      e.(wappName := NameAfter(e.wappName, a.dst), wappBin := bin,
         wappHash := if bin == [] then e.wappHash else HashAfter(bin, env.hashFault, sha))
  }

  /** tc_manager_store_record_from_store_args */
  function Store(t: Table, a: StoreArgs, env: StoreEnv, sha: DigestFunction): Outcome {
    var ok := a.src == [] || env.binAlloc;
    if !a.isStore then Outcome(t, false)
    else match FindDigest(t, a.digest)
      case Some(i) => Outcome(t[i := WriteFields(t[i], a, env, sha)], ok)
      case None =>
        if |t| >= MAX_RECORDS || a.digest == [] || !env.digestAlloc then Outcome(t, false)
        else Outcome(t + [WriteFields(Blank(a.digest), a, env, sha)], ok)
  }

  // ---------------------------------------------------------------- finalise

  /** manifest_record_remove_at: the last active record takes the place of the removed one. */
  function RemoveAt(t: Table, i: nat): (r: Table)
    requires i < |t|
    ensures |r| == |t| - 1
  {
    t[i := t[|t| - 1]][..|t| - 1]
  }

  function Swap(t: Table, i: nat, j: nat): (r: Table)
    requires i < |t| && j < |t|
    ensures |r| == |t|
  {
    t[j := t[i]][i := t[j]]
  }

  /** manifest_record_update_or_discard */
  function UpdateOrDiscard(t: Table, i: nat): Table
    requires i < |t|
  {
    match FindName(t, t[i].wappName, i)
    case None => t
    case Some(j) => if t[j].seqNo <= t[i].seqNo then RemoveAt(Swap(t, i, j), i) else RemoveAt(t, i)
  }

  /** tc_manager_check_and_update_record */
  function Finalise(t: Table, d: Bytes): Outcome {
    match FindDigest(t, d)
    case None => Outcome(t, false)
    case Some(i) =>
      if !Complete(t[i]) then Outcome(RemoveAt(t, i), false)
      else Outcome(UpdateOrDiscard(t, i), true)
  }

  // ------------------------------------------------------------------ export

  datatype TcItem = TcItem(componentId: Name, imageDigest: Hash)

  /** A record the export accepts: complete, with a name that fits the item's name field. */
  predicate Exportable(e: Entry, nameMax: nat) {
    Complete(e) && |e.wappName| < nameMax
  }

  predicate AllExportable(t: Table, nameMax: nat) {
    forall k :: 0 <= k < |t| ==> Exportable(t[k], nameMax)
  }

  function ItemOf(e: Entry): TcItem {
    TcItem(e.wappName, e.wappHash)
  }

  function ItemsOf(t: Table): (r: seq<TcItem>)
    ensures |r| == |t|
    ensures forall k :: 0 <= k < |t| ==> r[k] == ItemOf(t[k])
  {
    if t == [] then [] else [ItemOf(t[0])] + ItemsOf(t[1..])
  }

  /** tc_manager_get_tc_list: all records or none. */
  function TcList(t: Table, capacity: nat, nameMax: nat): Option<seq<TcItem>> {
    if capacity == 0 then None
    else if t == [] then Some([])
    else if capacity < |t| then None
    else if AllExportable(t, nameMax) then Some(ItemsOf(t))
    else None
  }
}
