/** The on-chain account list: a header with a capacity, and a byte-level vector
    of records with pairwise distinct keys (program/src/state.rs); and the
    packed form of a validator (program/src/state/validator.rs). */
module AccountList {
  import opened Bytes
  import opened Results
  import opened Token
  import opened State
  import opened Instructions
  import opened BigVec

  // ---------------------------------------------------------------- sizes

  /** Entry capacity, account type and version. */
  const HEADER_LEN: nat := 6
  const HEADER_SIZE: nat := HEADER_LEN + VEC_SIZE_BYTES

  function RequiredBytes(len: nat, maxEntries: nat): nat {
    HEADER_SIZE + len * maxEntries
  }

  function CalculateMaxEntries(len: nat, bufferLength: nat): nat
    requires 0 < len
  {
    (if HEADER_SIZE <= bufferLength then bufferLength - HEADER_SIZE else 0) / len
  }

  /** The capacity of a buffer is the largest number of entries that it can hold. */
  lemma CapacityIsLargest(len: nat, bufferLength: nat, entries: nat)
    requires 0 < len && HEADER_SIZE <= bufferLength
    ensures RequiredBytes(len, entries) <= bufferLength <==> entries <= CalculateMaxEntries(len, bufferLength)
  {
    var room: nat := bufferLength - HEADER_SIZE;
    FloorFitsU64(room, len);
    var capacity := CalculateMaxEntries(len, bufferLength);
    if entries <= capacity {
      MulMonotone(entries, capacity, len);
    } else {
      MulMonotone(capacity + 1, entries, len);
    }
  }

  /** The bytes of a list are the header and a vector of so many records. */
  lemma RequiredIsRoom(len: nat, maxEntries: nat)
    ensures RequiredBytes(len, maxEntries) == 4 + 1 + 1 + Start(len, maxEntries)
  {
  }

  // ---------------------------------------------------------------- lists as sequences

  /** The key is the first field of a record. */
  function Key(e: Record): Record {
    if PUBKEY_BYTES <= |e| then e[..PUBKEY_BYTES] else e
  }

  predicate HasRecordKey(es: seq<Record>, key: Record) {
    exists i :: 0 <= i < |es| && Key(es[i]) == key
  }

  ghost predicate DistinctKeys(es: seq<Record>) {
    forall i, j :: 0 <= i < j < |es| ==> Key(es[i]) != Key(es[j])
  }

  function PushUnique(es: seq<Record>, maxEntries: nat, e: Record): Result<seq<Record>> {
    if |es| == maxEntries then Err(MaximumNumberOfAccountsExceeded)
    else
      :- Need(!HasRecordKey(es, Key(e)), DuplicatedEntry);
      Ok(es + [e])
  }

  function GetKeyed(es: seq<Record>, index: nat, key: Record): Result<Record> {
    if index >= |es| then Err(AccountListIndexOutOfBounds)
    else if Key(es[index]) != key then Err(PubkeyIndexMismatch)
    else Ok(es[index])
  }

  function RemoveKeyed(es: seq<Record>, index: nat, key: Record): (r: Result<seq<Record>>) {
    var _ :- GetKeyed(es, index, key);
    Ok(SwapRemove(es, index))
  }

  /** A write through a reference that was looked up by index and key; it leaves
      the key alone. */
  function WriteKeyed(es: seq<Record>, index: nat, key: Record, e: Record): Result<seq<Record>> {
    var _ :- GetKeyed(es, index, key);
    :- Need(Key(e) == key, InvalidArgument);
    Ok(es[index := e])
  }

  datatype ListOp = PushOp(e: Record) | RemoveOp(index: nat, key: Record) | WriteOp(index: nat, key: Record, e: Record)

  function ApplyOp(es: seq<Record>, maxEntries: nat, op: ListOp): Result<seq<Record>> {
    match op
    case PushOp(e) => PushUnique(es, maxEntries, e)
    case RemoveOp(index, key) => RemoveKeyed(es, index, key)
    case WriteOp(index, key, e) => WriteKeyed(es, index, key, e)
  }

  /** Attempted operations; those that fail change nothing. */
  function RunOps(es: seq<Record>, maxEntries: nat, ops: seq<ListOp>): seq<Record> {
    if ops == [] then es
    else
      var before := RunOps(es, maxEntries, ops[..|ops| - 1]);
      match ApplyOp(before, maxEntries, ops[|ops| - 1])
      case Ok(after) => after
      case Err(_) => before
  }

  lemma OpKeepsDistinct(es: seq<Record>, maxEntries: nat, op: ListOp)
    requires DistinctKeys(es) && |es| <= maxEntries && ApplyOp(es, maxEntries, op).Ok?
    ensures DistinctKeys(ApplyOp(es, maxEntries, op).value) && |ApplyOp(es, maxEntries, op).value| <= maxEntries
  {
    match op
    case PushOp(e) =>
      assert forall i :: 0 <= i < |es| ==> Key((es + [e])[i]) != Key(e);
    case RemoveOp(index, key) =>
      var n := |es| - 1;
      assert forall i :: 0 <= i < n ==> SwapRemove(es, index)[i] == if i == index then es[n] else es[i];
    case WriteOp(index, key, e) =>
  }

  /** Over every run of operations the keys stay pairwise distinct, and there are
      never more entries than the header allows. */
  lemma {:induction false} RunKeepsDistinct(es: seq<Record>, maxEntries: nat, ops: seq<ListOp>)
    requires DistinctKeys(es) && |es| <= maxEntries
    ensures DistinctKeys(RunOps(es, maxEntries, ops)) && |RunOps(es, maxEntries, ops)| <= maxEntries
  {
    if ops != [] {
      RunKeepsDistinct(es, maxEntries, ops[..|ops| - 1]);
      var before := RunOps(es, maxEntries, ops[..|ops| - 1]);
      if ApplyOp(before, maxEntries, ops[|ops| - 1]).Ok? {
        OpKeepsDistinct(before, maxEntries, ops[|ops| - 1]);
      }
    }
  }

  // ---------------------------------------------------------------- the list on chain

  predicate SameKey(record: Record, key: Record) {
    Key(record) == key
  }

  class List {
    const maxEntries: nat
    const vector: Vector

    /** The buffer was allocated for exactly `maxEntries` records. */
    ghost predicate Valid()
      reads vector.data
    {
      && vector.Valid() && PUBKEY_BYTES <= vector.len <= MAX_U32
      && vector.data.Length == Start(vector.len, maxEntries)
      && |vector.View()| <= maxEntries
    }

    ghost function View(): seq<Record>
      reads vector.data
      requires Valid()
    {
      vector.View()
    }

    constructor (maxEntries: nat, vector: Vector)
      requires vector.Valid() && PUBKEY_BYTES <= vector.len <= MAX_U32
      requires vector.data.Length == Start(vector.len, maxEntries) && |vector.View()| <= maxEntries
      ensures this.maxEntries == maxEntries && this.vector == vector && Valid()
    {
      this.maxEntries, this.vector := maxEntries, vector;
    }

    /** Appends a record if there is space and no record has its key. */
    method Push(e: Record) returns (r: Result<()>)
      requires Valid() && |e| == vector.len
      modifies vector.data
      ensures Valid()
      ensures match PushUnique(old(View()), maxEntries, e)
        case Ok(es) => r.Ok? && View() == es
        case Err(error) => r == Err(error) && View() == old(View())
    {
      var n := vector.Len();
      if maxEntries == n {
        return Err(MaximumNumberOfAccountsExceeded);
      }
      var found := vector.Find(Key(e), SameKey);
      FoundIffPresent(View(), Key(e), found);
      if found.Some? {
        return Err(DuplicatedEntry);
      }
      RoomForOneMore(vector.len, n, maxEntries);
      r := vector.Push(e);
    }

    /** The record at an index, if it has the expected key. */
    method GetMut(index: nat, key: Record) returns (r: Result<Record>)
      requires Valid() && index <= MAX_U32
      ensures r == GetKeyed(View(), index, key)
    {
      var element :- vector.Get(index);
      if Key(element) != key {
        return Err(PubkeyIndexMismatch);
      }
      r := Ok(element);
    }

    /** A write through the reference to a looked-up record. */
    method Write(index: nat, key: Record, e: Record) returns (r: Result<()>)
      requires Valid() && index <= MAX_U32 && |e| == vector.len && Key(e) == key
      modifies vector.data
      ensures Valid()
      ensures match WriteKeyed(old(View()), index, key, e)
        case Ok(es) => r.Ok? && View() == es
        case Err(error) => r == Err(error) && View() == old(View())
    {
      var _ :- GetMut(index, key);
      r := vector.Set(index, e);
    }

    /** Removes the record at an index, if it has the expected key. */
    method Remove(index: nat, key: Record) returns (r: Result<Record>)
      requires Valid() && index <= MAX_U32
      modifies vector.data
      ensures Valid()
      ensures r == GetKeyed(old(View()), index, key)
      ensures View() == if r.Ok? then SwapRemove(old(View()), index) else old(View())
    {
      var element :- vector.Get(index);
      if Key(element) != key {
        return Err(PubkeyIndexMismatch);
      }
      r := vector.SwapRemoveAt(index);
    }
  }

  /** What looking for a key says about its presence. */
  lemma FoundIffPresent(es: seq<Record>, key: Record, found: Option<nat>)
    requires found.None? ==> forall i :: 0 <= i < |es| ==> !SameKey(es[i], key)
    requires found.Some? ==> found.value < |es| && SameKey(es[found.value], key)
    ensures found.Some? <==> HasRecordKey(es, key)
  {
    assert found.None? ==> forall i :: 0 <= i < |es| ==> !SameKey(es[i], key);
  }

  lemma RoomForOneMore(len: nat, n: nat, maxEntries: nat)
    requires n < maxEntries
    ensures Start(len, n + 1) <= Start(len, maxEntries)
  {
    MulMonotone(n + 1, maxEntries, len);
  }

  // ---------------------------------------------------------------- packed validators

  const VALIDATOR_LEN: nat := 89

  function StatusByte(status: Status): byte {
    match status
    case AcceptingStakes => 0
    case StakesSuspended => 1
    case PendingRemoval => 255
  }

  function StatusOf(b: byte): Status {
    if b == 0 then AcceptingStakes else if b == 1 then StakesSuspended else PendingRemoval
  }

  /** All numbers of the validator fit their fields. */
  predicate FitsRecord(v: Validator) {
    && v.stakeSeeds.begin <= MAX_U64 && v.stakeSeeds.end <= MAX_U64
    && v.unstakeSeeds.begin <= MAX_U64 && v.unstakeSeeds.end <= MAX_U64
    && v.stakeAccountsBalance <= MAX_U64 && v.unstakeAccountsBalance <= MAX_U64 && v.effectiveStakeBalance <= MAX_U64
  }

  function Pack(v: Validator): (r: Record)
    ensures |r| == VALIDATOR_LEN
  {
    ToLe(v.voteAccount, PUBKEY_BYTES)
    + (ToLe(v.stakeSeeds.begin, 8) + ToLe(v.stakeSeeds.end, 8))
    + (ToLe(v.unstakeSeeds.begin, 8) + ToLe(v.unstakeSeeds.end, 8))
    + (ToLe(v.stakeAccountsBalance, 8) + ToLe(v.unstakeAccountsBalance, 8) + ToLe(v.effectiveStakeBalance, 8))
    + [StatusByte(v.status)]
  }

  /** The little-endian number in `width` bytes at an offset. */
  function Field(r: Record, offset: nat, width: nat): nat
    requires offset + width <= |r|
  {
    FromLe(r[offset..offset + width])
  }

  function KeyNumber(r: Record): nat
    requires PUBKEY_BYTES <= |r|
  {
    Field(r, 0, PUBKEY_BYTES)
  }

  function Unpack(r: Record): Validator
    requires |r| == VALIDATOR_LEN
  {
    KeyFits(r);
    Validator(KeyNumber(r), SeedRange(Field(r, 32, 8), Field(r, 40, 8)), SeedRange(Field(r, 48, 8), Field(r, 56, 8)),
              Field(r, 64, 8), Field(r, 72, 8), Field(r, 80, 8), StatusOf(r[88]))
  }

  const TWO_64: nat := 0x1_0000_0000_0000_0000
  const TWO_256: nat := 0x1_0000000000000000_0000000000000000_0000000000000000_0000000000000000

  lemma MoveFactor(x: nat, y: nat)
    ensures 256 * (x * y) == (256 * x) * y
  {
  }

  lemma {:induction false} PowerSplits(a: nat, b: nat)
    ensures Pow256(a + b) == Pow256(a) * Pow256(b)
  {
    if a > 0 {
      PowerSplits(a - 1, b);
      MoveFactor(Pow256(a - 1), Pow256(b));
    }
  }

  lemma Powers()
    ensures Pow256(8) == TWO_64 && Pow256(PUBKEY_BYTES) == TWO_256
  {
    assert Pow256(1) == 256 && Pow256(2) == 0x1_0000;
    PowerSplits(2, 2);
    PowerSplits(4, 4);
    PowerSplits(8, 8);
    PowerSplits(16, 16);
  }

  lemma KeyFits(r: Record)
    requires PUBKEY_BYTES <= |r|
    ensures KeyNumber(r) < TWO_256
  {
    FromLeToLe(r[0..PUBKEY_BYTES]);
    Powers();
  }

  /** Reading back what was written gives the same validator. */
  lemma UnpackPack(v: Validator)
    requires FitsRecord(v)
    ensures Unpack(Pack(v)) == v
  {
    var r := Pack(v);
    Powers();
    ToLeFromLe(v.voteAccount, PUBKEY_BYTES);
    ToLeFromLe(v.stakeSeeds.begin, 8);
    ToLeFromLe(v.stakeSeeds.end, 8);
    ToLeFromLe(v.unstakeSeeds.begin, 8);
    ToLeFromLe(v.unstakeSeeds.end, 8);
    ToLeFromLe(v.stakeAccountsBalance, 8);
    ToLeFromLe(v.unstakeAccountsBalance, 8);
    ToLeFromLe(v.effectiveStakeBalance, 8);
    PackedFields(v);
  }

  /** Where each field is in a record. */
  lemma PackedFields(v: Validator)
    ensures var r := Pack(v);
      && r[0..32] == ToLe(v.voteAccount, PUBKEY_BYTES)
      && r[32..40] == ToLe(v.stakeSeeds.begin, 8) && r[40..48] == ToLe(v.stakeSeeds.end, 8)
      && r[48..56] == ToLe(v.unstakeSeeds.begin, 8) && r[56..64] == ToLe(v.unstakeSeeds.end, 8)
      && r[64..72] == ToLe(v.stakeAccountsBalance, 8) && r[72..80] == ToLe(v.unstakeAccountsBalance, 8)
      && r[80..88] == ToLe(v.effectiveStakeBalance, 8)
      && r[88] == if v.status.AcceptingStakes? then 0 else if v.status.StakesSuspended? then 1 else 255
  {
    var r := Pack(v);
    var stake := ToLe(v.stakeSeeds.begin, 8) + ToLe(v.stakeSeeds.end, 8);
    var unstake := ToLe(v.unstakeSeeds.begin, 8) + ToLe(v.unstakeSeeds.end, 8);
    var balances := ToLe(v.stakeAccountsBalance, 8) + ToLe(v.unstakeAccountsBalance, 8) + ToLe(v.effectiveStakeBalance, 8);
    assert r[32..48] == stake && r[48..64] == unstake && r[64..88] == balances;
    assert r[32..40] == stake[..8] && r[40..48] == stake[8..];
    assert r[48..56] == unstake[..8] && r[56..64] == unstake[8..];
    assert r[64..72] == balances[..8] && r[72..80] == balances[8..16] && r[80..88] == balances[16..];
  }

  // ---------------------------------------------------------------- the validator list

  function PackAll(vs: seq<Validator>): seq<Record> {
    seq(|vs|, i requires 0 <= i < |vs| => Pack(vs[i]))
  }

  function PackedKey(vote: Pubkey): Record {
    ToLe(vote, PUBKEY_BYTES)
  }

  lemma PackedKeysMatch(v: Validator, vote: Pubkey)
    ensures Key(Pack(v)) == PackedKey(vote) <==> v.voteAccount == vote
  {
    PackedFields(v);
    assert Pack(v)[0..32] == Pack(v)[..PUBKEY_BYTES];
    Powers();
    ToLeFromLe(v.voteAccount, PUBKEY_BYTES);
    ToLeFromLe(vote, PUBKEY_BYTES);
  }

  lemma KeysMatch(vs: seq<Validator>, vote: Pubkey)
    ensures forall i :: 0 <= i < |vs| ==> (Key(PackAll(vs)[i]) == PackedKey(vote) <==> vs[i].voteAccount == vote)
    ensures HasRecordKey(PackAll(vs), PackedKey(vote)) <==> HasKey(vs, vote)
  {
    var es := PackAll(vs);
    forall i | 0 <= i < |vs|
      ensures Key(es[i]) == PackedKey(vote) <==> vs[i].voteAccount == vote
    {
      PackedKeysMatch(vs[i], vote);
    }
  }

  lemma AddRefines(s: State, vote: Pubkey)
    ensures AddValidator(s, vote).Ok? <==> PushUnique(PackAll(s.validators), s.maxValidators, Pack(NewValidator(vote))).Ok?
    ensures AddValidator(s, vote).Ok? ==>
      PushUnique(PackAll(s.validators), s.maxValidators, Pack(NewValidator(vote))) == Ok(PackAll(AddValidator(s, vote).value.validators))
  {
    KeysMatch(s.validators, vote);
    PackedKeysMatch(NewValidator(vote), vote);
    assert PackAll(s.validators) + [Pack(NewValidator(vote))] == PackAll(s.validators + [NewValidator(vote)]);
  }

  lemma LookupRefines(vs: seq<Validator>, index: nat, vote: Pubkey, v: Validator)
    ensures GetAt(vs, index, vote).Ok? <==> GetKeyed(PackAll(vs), index, PackedKey(vote)).Ok?
    ensures GetAt(vs, index, vote).Ok? ==>
      && GetKeyed(PackAll(vs), index, PackedKey(vote)) == Ok(Pack(vs[index]))
      && PackAll(vs)[index := Pack(v)] == PackAll(vs[index := v])
      && SwapRemove(PackAll(vs), index) == PackAll(SwapRemove(vs, index))
  {
    KeysMatch(vs, vote);
  }

  /** The instructions' view of the list as a sequence of validators is the view
      of the byte-level list: adding, looking up, removing and replacing have the
      same outcomes, and keep the packed list the packed form of the sequence. */
  lemma ListRefinesSequence(s: State, index: nat, vote: Pubkey, v: Validator)
    ensures AddValidator(s, vote).Ok? <==> PushUnique(PackAll(s.validators), s.maxValidators, Pack(NewValidator(vote))).Ok?
    ensures AddValidator(s, vote).Ok? ==>
      PushUnique(PackAll(s.validators), s.maxValidators, Pack(NewValidator(vote))) == Ok(PackAll(AddValidator(s, vote).value.validators))
    ensures GetAt(s.validators, index, vote).Ok? <==> GetKeyed(PackAll(s.validators), index, PackedKey(vote)).Ok?
    ensures GetAt(s.validators, index, vote).Ok? ==>
      && GetKeyed(PackAll(s.validators), index, PackedKey(vote)) == Ok(Pack(s.validators[index]))
      && PackAll(s.validators)[index := Pack(v)] == PackAll(s.validators[index := v])
      && SwapRemove(PackAll(s.validators), index) == PackAll(SwapRemove(s.validators, index))
  {
    AddRefines(s, vote);
    LookupRefines(s.validators, index, vote, v);
  }
}
