/** The client's snapshot reader (cli/common/src/snapshot.rs): reading a set of
    accounts from a server with an unknown limit, and retrying a callback until
    every account that it reads is in the set. */
module Snapshot {
  import opened Bytes
  import opened Results

  datatype Account = Account(lamports: nat, data: seq<byte>)

  const MAX_USIZE: nat := 0xFFFF_FFFF_FFFF_FFFF

  // ---------------------------------------------------------------- ordered sets

  predicate NoDuplicates(xs: seq<Pubkey>) {
    forall i, j :: 0 <= i < j < |xs| ==> xs[i] != xs[j]
  }

  function Elements(xs: seq<Pubkey>): set<Pubkey> {
    set x | x in xs
  }

  /** The elements in the order of their first occurrence. */
  function Distinct(xs: seq<Pubkey>): (ys: seq<Pubkey>)
    ensures NoDuplicates(ys) && Elements(ys) == Elements(xs)
  {
    if xs == [] then []
    else
      var front, last := Distinct(xs[..|xs| - 1]), xs[|xs| - 1];
      ElementsSnoc(xs[..|xs| - 1], last);
      ElementsSnoc(front, last);
      assert xs == xs[..|xs| - 1] + [last];
      if last in front then front else front + [last]
  }

  lemma ElementsSnoc(xs: seq<Pubkey>, x: Pubkey)
    ensures Elements(xs + [x]) == Elements(xs) + {x}
  {
  }

  lemma {:induction false} DistinctSize(xs: seq<Pubkey>)
    requires NoDuplicates(xs)
    ensures |Elements(xs)| == |xs|
  {
    if xs != [] {
      var front, last := xs[..|xs| - 1], xs[|xs| - 1];
      DistinctSize(front);
      assert Elements(xs) == Elements(front) + {last};
    }
  }

  /** A set that preserves insertion order. */
  class OrderedSet {
    var elementsVec: seq<Pubkey>
    var elementsSet: set<Pubkey>

    ghost predicate Valid()
      reads this
    {
      NoDuplicates(elementsVec) && elementsSet == Elements(elementsVec)
    }

    constructor ()
      ensures Valid() && elementsVec == []
    {
      elementsVec, elementsSet := [], {};
    }

    /** Appends an element, if it is not yet in the set. */
    method Push(element: Pubkey)
      requires Valid()
      modifies this
      ensures Valid()
      ensures elementsVec == if element in old(elementsVec) then old(elementsVec) else old(elementsVec) + [element]
    {
      if element !in elementsSet {
        elementsSet := elementsSet + {element};
        elementsVec := elementsVec + [element];
      }
    }

    /** Appends the elements of another set that are not yet in this one. */
    method UnionWith(other: OrderedSet)
      requires Valid() && other.Valid() && other != this
      modifies this
      ensures Valid()
      ensures elementsVec == Distinct(old(elementsVec) + other.elementsVec)
      ensures elementsSet == old(elementsSet) + other.elementsSet
    {
      DistinctAlready(elementsVec);
      assert elementsVec + other.elementsVec[..0] == elementsVec;
      for i := 0 to |other.elementsVec|
        invariant Valid()
        invariant elementsVec == Distinct(old(elementsVec) + other.elementsVec[..i])
      {
        OneMoreOfOther(old(elementsVec), other.elementsVec, i);
        Push(other.elementsVec[i]);
      }
      assert other.elementsVec[..|other.elementsVec|] == other.elementsVec;
    }
  }

  lemma OneMoreOfOther(xs: seq<Pubkey>, ys: seq<Pubkey>, i: nat)
    requires i < |ys|
    ensures var d := Distinct(xs + ys[..i]);
      Distinct(xs + ys[..i + 1]) == if ys[i] in d then d else d + [ys[i]]
  {
    assert xs + ys[..i + 1] == (xs + ys[..i]) + [ys[i]];
    OneMoreAddress(xs + ys[..i], ys[i]);
  }

  lemma {:induction false} DistinctAlready(xs: seq<Pubkey>)
    requires NoDuplicates(xs)
    ensures Distinct(xs) == xs
  {
    if xs != [] {
      DistinctAlready(xs[..|xs| - 1]);
      assert xs == xs[..|xs| - 1] + [xs[|xs| - 1]];
    }
  }

  // ---------------------------------------------------------------- the server

  /** A server as a function of time: it answers requests for at most `limit`
      accounts from one moment, and at some moments it fails. */
  datatype Server = Server(limit: nat, serve: (nat, Pubkey) -> Option<Account>, down: nat -> bool)

  datatype Response = Accounts(values: seq<Option<Account>>) | TooManyInputs | Failure

  function Respond(server: Server, now: nat, query: seq<Pubkey>): Response {
    if |query| > server.limit then TooManyInputs
    else if server.down(now) then Failure
    else Accounts(At(server, now, query))
  }

  /** The accounts as they are at one moment. */
  function At(server: Server, now: nat, query: seq<Pubkey>): seq<Option<Account>> {
    seq(|query|, i requires 0 <= i < |query| => server.serve(now, query[i]))
  }

  /** The value that an account had at some moment in a period. */
  ghost predicate SeenBetween(server: Server, start: nat, end: nat, address: Pubkey, value: Option<Account>) {
    exists t :: start <= t < end && value == server.serve(t, address)
  }

  ghost predicate AllSeenBetween(server: Server, start: nat, end: nat, query: seq<Pubkey>, values: seq<Option<Account>>) {
    |values| == |query| && forall i :: 0 <= i < |query| ==> SeenBetween(server, start, end, query[i], values[i])
  }

  /** The server failed at some moment in a period. */
  ghost predicate WasDown(server: Server, start: nat, end: nat) {
    exists t :: start <= t < end && server.down(t)
  }

  lemma MoreSeen(server: Server, start: nat, now: nat, query: seq<Pubkey>, pos: nat, end: nat, values: seq<Option<Account>>)
    requires start <= now && pos <= end <= |query|
    requires AllSeenBetween(server, start, now, query[..pos], values)
    ensures AllSeenBetween(server, start, now + 1, query[..end], values + At(server, now, query[pos..end]))
  {
    var values' := values + At(server, now, query[pos..end]);
    forall i | 0 <= i < end
      ensures SeenBetween(server, start, now + 1, query[i], values'[i])
    {
      if i < pos {
        assert SeenBetween(server, start, now, query[..pos][i], values[i]);
      } else {
        assert values'[i] == server.serve(now, query[i]);
      }
    }
  }

  // ---------------------------------------------------------------- callbacks

  /** What a callback does next, knowing what it has read so far. */
  datatype Action<+T> = GetAccount(address: Pubkey) | AccountExists(address: Pubkey) | Return(value: T) | Abort

  /** What a read tells the callback. That an account does not exist is an error of
      the read, which the callback can pass up by aborting, or handle and read on. */
  datatype Observation = Got(account: Account) | Absent | Known(exists_: bool)

  /** A callback reads at most `bound` times before it comes to an end. */
  datatype Callback<!T> = Callback(next: seq<Observation> -> Action<T>, bound: nat)

  ghost predicate Bounded<T(!new)>(f: Callback<T>) {
    forall h: seq<Observation> {:trigger f.next(h)} :: |h| >= f.bound ==> f.next(h).Return? || f.next(h).Abort?
  }

  /** Every address that the callback may read is in a set. */
  ghost predicate ReadsFrom<T(!new)>(f: Callback<T>, universe: set<Pubkey>) {
    forall h: seq<Observation> {:trigger f.next(h)} ::
      (f.next(h).GetAccount? || f.next(h).AccountExists?) ==> f.next(h).address in universe
  }

  datatype Outcome<+T> = Finished(value: T) | MissingAccount | OtherError

  /** What looking an account up in a snapshot gives. Only that an account is not in
      the snapshot must be passed up. */
  datatype Reading = Read(observation: Observation) | NotInSnapshot

  function Look<T>(accounts: map<Pubkey, Option<Account>>, action: Action<T>): Reading
    requires action.GetAccount? || action.AccountExists?
  {
    if action.address !in accounts then NotInSnapshot
    else
      var account := accounts[action.address];
      if action.AccountExists? then Read(Known(account.Some?))
      else Read(if account.Some? then Got(account.value) else Absent)
  }

  /** The addresses that a callback refers to from some point on, in order, and
      how it ends. */
  ghost function Trace<T(!new)>(f: Callback<T>, accounts: map<Pubkey, Option<Account>>, h: seq<Observation>): (seq<Pubkey>, Outcome<T>)
    requires Bounded(f)
    decreases f.bound - |h|
  {
    var action := f.next(h);
    if action.Return? then ([], Finished(action.value))
    else if action.Abort? then ([], OtherError)
    else
      match Look(accounts, action)
      case NotInSnapshot => ([action.address], MissingAccount)
      case Read(o) =>
        var rest := Trace(f, accounts, h + [o]);
        ([action.address] + rest.0, rest.1)
  }

  /** A callback that finishes has read only accounts of the snapshot; one that
      misses an account has referred to one outside of it. */
  lemma {:induction false} TraceReads<T(!new)>(f: Callback<T>, accounts: map<Pubkey, Option<Account>>, h: seq<Observation>, universe: set<Pubkey>)
    requires Bounded(f) && ReadsFrom(f, universe)
    ensures Elements(Trace(f, accounts, h).0) <= universe
    ensures Trace(f, accounts, h).1.Finished? ==> Elements(Trace(f, accounts, h).0) <= accounts.Keys
    ensures Trace(f, accounts, h).1.MissingAccount? ==> !(Elements(Trace(f, accounts, h).0) <= accounts.Keys)
    decreases f.bound - |h|
  {
    var addresses := Trace(f, accounts, h).0;
    var action := f.next(h);
    if action.GetAccount? || action.AccountExists? {
      match Look(accounts, action)
      case Read(o) =>
        TraceReads(f, accounts, h + [o], universe);
        FirstOfElements(action.address, Trace(f, accounts, h + [o]).0);
      case _ =>
        assert action.address in Elements(addresses);
    }
  }

  lemma FirstOfElements(a: Pubkey, xs: seq<Pubkey>)
    ensures Elements([a] + xs) == {a} + Elements(xs)
  {
  }

  // ---------------------------------------------------------------- the snapshot

  /** The accounts read at one time, and those referred to so far. */
  class Snapshot {
    const accounts: map<Pubkey, Option<Account>>
    const referenced: OrderedSet

    constructor (accounts: map<Pubkey, Option<Account>>)
      ensures this.accounts == accounts
      ensures fresh(referenced) && referenced.Valid() && referenced.elementsVec == []
    {
      this.accounts := accounts;
      referenced := new OrderedSet();
    }

    method GetAccount(address: Pubkey) returns (r: Reading)
      requires referenced.Valid()
      modifies referenced
      ensures referenced.Valid() && r == Look(accounts, Action<()>.GetAccount(address))
      ensures referenced.elementsVec
           == if address in old(referenced.elementsVec) then old(referenced.elementsVec) else old(referenced.elementsVec) + [address]
    {
      referenced.Push(address);
      if address !in accounts {
        return NotInSnapshot;
      }
      match accounts[address]
      case Some(account) => return Read(Got(account));
      case None => return Read(Absent);
    }

    method AccountExists(address: Pubkey) returns (r: Reading)
      requires referenced.Valid()
      modifies referenced
      ensures referenced.Valid() && r == Look(accounts, Action<()>.AccountExists(address))
      ensures referenced.elementsVec
           == if address in old(referenced.elementsVec) then old(referenced.elementsVec) else old(referenced.elementsVec) + [address]
    {
      referenced.Push(address);
      if address !in accounts {
        return NotInSnapshot;
      }
      return Read(Known(accounts[address].Some?));
    }
  }

  /** The callback has referred to these addresses and made these observations. */
  ghost predicate Traced<T(!new)>(f: Callback<T>, accounts: map<Pubkey, Option<Account>>, addresses: seq<Pubkey>, h: seq<Observation>)
    requires Bounded(f)
  {
    && Trace(f, accounts, []).0 == addresses + Trace(f, accounts, h).0
    && Trace(f, accounts, []).1 == Trace(f, accounts, h).1
  }

  lemma TracedStep<T(!new)>(f: Callback<T>, accounts: map<Pubkey, Option<Account>>, addresses: seq<Pubkey>, h: seq<Observation>)
    requires Bounded(f) && Traced(f, accounts, addresses, h)
    ensures var action, whole := f.next(h), Trace(f, accounts, []);
      if action.Return? then whole == (addresses, Finished(action.value))
      else if action.Abort? then whole == (addresses, OtherError)
      else match Look(accounts, action)
        case NotInSnapshot => whole == (addresses + [action.address], MissingAccount)
        case Read(o) => |h| < f.bound && Traced(f, accounts, addresses + [action.address], h + [o])
  {
    var action := f.next(h);
    if action.Return? || action.Abort? {
      assert addresses + [] == addresses;
    } else if Look(accounts, action).Read? {
      var rest := Trace(f, accounts, h + [Look(accounts, action).observation]).0;
      assert addresses + ([action.address] + rest) == (addresses + [action.address]) + rest;
    }
  }

  // ---------------------------------------------------------------- the client

  class SnapshotClient {
    const server: Server
    var now: nat
    var accountsToQuery: OrderedSet
    var maxItemsPerCall: nat

    /** The learned limit is never below the server's. */
    ghost predicate Valid()
      reads this, accountsToQuery
    {
      accountsToQuery.Valid() && 1 <= server.limit <= maxItemsPerCall
    }

    constructor (server: Server)
      requires 1 <= server.limit <= MAX_USIZE
      ensures this.server == server && Valid() && accountsToQuery.elementsVec == []
    {
      this.server := server;
      now := 0;
      accountsToQuery := new OrderedSet();
      maxItemsPerCall := MAX_USIZE;
    }

    method GetMultipleAccounts(chunk: seq<Pubkey>) returns (r: Response)
      modifies `now
      ensures r == Respond(server, old(now), chunk) && now == old(now) + 1
    {
      r := Respond(server, now, chunk);
      now := now + 1;
    }

    /** Queries one chunk after the other. */
    method GetChunks(itemsPerChunk: nat) returns (r: Response)
      requires Valid() && 1 <= itemsPerChunk <= maxItemsPerCall
      modifies `now, `maxItemsPerCall
      ensures Valid() && old(now) <= now && maxItemsPerCall <= old(maxItemsPerCall)
      ensures r.Accounts? ==> AllSeenBetween(server, old(now), now, accountsToQuery.elementsVec, r.values)
      ensures r.TooManyInputs? ==> itemsPerChunk > server.limit && itemsPerChunk > maxItemsPerCall
      ensures r.Failure? ==> WasDown(server, old(now), now)
      ensures |accountsToQuery.elementsVec| <= itemsPerChunk && r.Accounts? && accountsToQuery.elementsVec != [] ==>
        r.values == At(server, old(now), accountsToQuery.elementsVec)
    {
      var query := accountsToQuery.elementsVec;
      var result: seq<Option<Account>> := [];
      var pos := 0;
      while pos < |query|
        invariant 0 <= pos <= |query| && old(now) <= now
        invariant Valid() && maxItemsPerCall == old(maxItemsPerCall)
        invariant AllSeenBetween(server, old(now), now, query[..pos], result)
        invariant pos == 0 ==> now == old(now) && result == []
        invariant |query| <= itemsPerChunk && pos > 0 ==> pos == |query| && result == At(server, old(now), query)
      {
        var end := if pos + itemsPerChunk <= |query| then pos + itemsPerChunk else |query|;
        var chunk := query[pos..end];
        MoreSeen(server, old(now), now, query, pos, end, result);
        var response := GetMultipleAccounts(chunk);
        match response {
          case Accounts(values) =>
            result := result + values;
          case TooManyInputs =>
            maxItemsPerCall := |chunk| - 1;
            return TooManyInputs;
          case Failure =>
            return Failure;
        }
        assert |query| <= itemsPerChunk ==> pos == 0 && chunk == query;
        pos := end;
      }
      assert query[..|query|] == query;
      r := Accounts(result);
    }

    /** Queries all accounts, in as few chunks as the known limit allows, and
        learns a tighter limit whenever the server refuses. It needs no more
        chunks than there are accounts, so every chunk has at least one. */
    method GetMultipleAccountsChunked() returns (r: Option<seq<Option<Account>>>)
      requires Valid()
      modifies `now, `maxItemsPerCall
      ensures Valid() && old(now) <= now && maxItemsPerCall <= old(maxItemsPerCall)
      ensures r.Some? ==> AllSeenBetween(server, old(now), now, accountsToQuery.elementsVec, r.value)
      ensures r.None? ==> WasDown(server, old(now), now)
      ensures r.Some? && |accountsToQuery.elementsVec| <= server.limit ==>
        r.value == At(server, old(now), accountsToQuery.elementsVec)
    {
      var n := |accountsToQuery.elementsVec|;
      if n == 0 {
        return Some([]);
      }
      var numChunks := 1;
      while true
        invariant 1 <= numChunks <= n && old(now) <= now
        invariant Valid() && maxItemsPerCall <= old(maxItemsPerCall)
        invariant n <= server.limit ==> numChunks == 1 && now == old(now)
        decreases n - numChunks
      {
        var itemsPerChunk := n / numChunks;
        Quotient(n, numChunks);
        assert itemsPerChunk > 0;
        if itemsPerChunk <= maxItemsPerCall {
          ghost var before := now;
          var response := GetChunks(itemsPerChunk);
          match response {
            case Accounts(values) =>
              SeenLonger(server, old(now), before, now, accountsToQuery.elementsVec, values);
              return Some(values);
            case TooManyInputs =>
            case Failure =>
              return None;
          }
        }
        numChunks := numChunks + 1;
      }
    }

    /** Runs a callback on a snapshot. */
    method RunCallback<T(!new)>(f: Callback<T>, snapshot: Snapshot) returns (outcome: Outcome<T>)
      requires Bounded(f) && snapshot.referenced.Valid() && snapshot.referenced.elementsVec == []
      modifies snapshot.referenced
      ensures snapshot.referenced.Valid()
      ensures outcome == Trace(f, snapshot.accounts, []).1
      ensures snapshot.referenced.elementsVec == Distinct(Trace(f, snapshot.accounts, []).0)
    {
      var h: seq<Observation> := [];
      ghost var addresses: seq<Pubkey> := [];
      while true
        invariant snapshot.referenced.Valid() && snapshot.referenced.elementsVec == Distinct(addresses)
        invariant Traced(f, snapshot.accounts, addresses, h)
        decreases f.bound - |h|
      {
        var action := f.next(h);
        TracedStep(f, snapshot.accounts, addresses, h);
        var reading: Reading;
        match action {
          case Return(value) =>
            return Finished(value);
          case Abort =>
            return OtherError;
          case GetAccount(a) =>
            reading := snapshot.GetAccount(a);
          case AccountExists(a) =>
            reading := snapshot.AccountExists(a);
        }
        OneMoreAddress(addresses, action.address);
        addresses := addresses + [action.address];
        match reading {
          case NotInSnapshot =>
            return MissingAccount;
          case Read(o) =>
            h := h + [o];
        }
      }
    }

    /** Reads the accounts to query, and runs the callback on them. */
    method Attempt<T(!new)>(f: Callback<T>, ghost universe: set<Pubkey>) returns (outcome: Outcome<T>, referenced: OrderedSet)
      requires Valid() && Bounded(f) && ReadsFrom(f, universe)
      modifies `now, `maxItemsPerCall
      ensures Valid() && old(now) <= now && maxItemsPerCall <= old(maxItemsPerCall)
      ensures fresh(referenced) && referenced.Valid() && referenced.elementsSet <= universe
      ensures outcome.MissingAccount? ==> !(referenced.elementsSet <= accountsToQuery.elementsSet)
      ensures outcome.Finished? ==> FinishedBetween(f, server, old(now), now, outcome.value, referenced.elementsVec)
      ensures outcome.OtherError? ==> WasDown(server, old(now), now) || AbortedBetween(f, server, old(now), now)
    {
      var values := GetMultipleAccountsChunked();
      if values.None? {
        referenced := new OrderedSet();
        return OtherError, referenced;
      }
      var accounts := Zip(accountsToQuery.elementsVec, values.value);
      var snapshot := new Snapshot(accounts);
      outcome := RunCallback(f, snapshot);
      referenced := snapshot.referenced;
      ZipIsServed(server, old(now), now, accountsToQuery.elementsVec, values.value);
      TraceReads(f, accounts, [], universe);
      if outcome.OtherError? {
        assert Trace(f, accounts, []).1 == OtherError && ServedBetween(server, old(now), now, accounts);
      }
      if outcome.Finished? {
        assert FinishedOn(f, accounts, outcome.value, referenced.elementsVec);
      }
    }

    /** Retries a callback with more and more accounts until it finds all that it
        reads. It terminates because every retry adds an account of the finite
        set that the callback reads from. When it succeeds, the accounts to query
        next time are those that the callback referred to, in that order. */
    method WithSnapshot<T(!new)>(f: Callback<T>, ghost universe: set<Pubkey>) returns (r: Outcome<T>)
      requires Valid() && Bounded(f) && ReadsFrom(f, universe)
      modifies this
      ensures Valid() && maxItemsPerCall <= old(maxItemsPerCall) && old(now) <= now
      ensures !r.MissingAccount?
      ensures r.Finished? ==> FinishedBetween(f, server, old(now), now, r.value, accountsToQuery.elementsVec)
      ensures r.OtherError? ==> WasDown(server, old(now), now) || AbortedBetween(f, server, old(now), now)
      ensures !r.Finished? ==> old(accountsToQuery.elementsSet) <= accountsToQuery.elementsSet
    {
      ghost var all := universe + accountsToQuery.elementsSet;
      while true
        invariant Valid() && maxItemsPerCall <= old(maxItemsPerCall) && old(now) <= now
        invariant old(accountsToQuery.elementsSet) <= accountsToQuery.elementsSet <= all
        invariant accountsToQuery == old(accountsToQuery) || fresh(accountsToQuery)
        invariant unchanged(old(accountsToQuery))
        decreases all - accountsToQuery.elementsSet
      {
        ghost var asked := now;
        var outcome, referenced := Attempt(f, universe);
        match outcome {
          case Finished(value) =>
            FinishedLonger(f, server, old(now), asked, now, value, referenced.elementsVec);
            accountsToQuery := referenced;
            return outcome;
          case OtherError =>
            AbortedLonger(f, server, old(now), asked, now);
            return outcome;
          case MissingAccount =>
            referenced.UnionWith(accountsToQuery);
            accountsToQuery := referenced;
        }
      }
    }
  }

  lemma ServedLonger(server: Server, start: nat, asked: nat, end: nat, snapshot: map<Pubkey, Option<Account>>)
    requires start <= asked && ServedBetween(server, asked, end, snapshot)
    ensures ServedBetween(server, start, end, snapshot)
  {
    forall a | a in snapshot
      ensures SeenBetween(server, start, end, a, snapshot[a])
    {
      assert SeenBetween(server, asked, end, a, snapshot[a]);
    }
  }

  lemma AbortedLonger<T(!new)>(f: Callback<T>, server: Server, start: nat, asked: nat, end: nat)
    requires Bounded(f) && start <= asked
    ensures WasDown(server, asked, end) ==> WasDown(server, start, end)
    ensures AbortedBetween(f, server, asked, end) ==> AbortedBetween(f, server, start, end)
  {
    if AbortedBetween(f, server, asked, end) {
      var snapshot :| Trace(f, snapshot, []).1 == OtherError && ServedBetween(server, asked, end, snapshot);
      ServedLonger(server, start, asked, end, snapshot);
    }
  }

  lemma FinishedLonger<T(!new)>(f: Callback<T>, server: Server, start: nat, asked: nat, end: nat, value: T, referenced: seq<Pubkey>)
    requires Bounded(f) && start <= asked && FinishedBetween(f, server, asked, end, value, referenced)
    ensures FinishedBetween(f, server, start, end, value, referenced)
  {
    var snapshot :| FinishedOn(f, snapshot, value, referenced) && ServedBetween(server, asked, end, snapshot);
    ServedLonger(server, start, asked, end, snapshot);
  }

  /** The callback succeeded on a snapshot, and these are the accounts that it
      referred to; all of them were in the snapshot. */
  ghost predicate FinishedOn<T(!new)>(f: Callback<T>, snapshot: map<Pubkey, Option<Account>>, value: T, referenced: seq<Pubkey>)
    requires Bounded(f)
  {
    && Trace(f, snapshot, []).1 == Finished(value)
    && referenced == Distinct(Trace(f, snapshot, []).0)
    && Elements(referenced) <= snapshot.Keys
  }

  /** The callback succeeded on a snapshot that was served in a period. */
  ghost predicate FinishedBetween<T(!new)>(f: Callback<T>, server: Server, start: nat, end: nat, value: T, referenced: seq<Pubkey>)
    requires Bounded(f)
  {
    exists snapshot :: FinishedOn(f, snapshot, value, referenced) && ServedBetween(server, start, end, snapshot)
  }

  /** The callback gives up on a snapshot that was served in a period. */
  ghost predicate AbortedBetween<T(!new)>(f: Callback<T>, server: Server, start: nat, end: nat)
    requires Bounded(f)
  {
    exists snapshot :: Trace(f, snapshot, []).1 == OtherError && ServedBetween(server, start, end, snapshot)
  }

  /** Every value in the snapshot was served in a period, and all of them at one
      moment if the server answers so many at once. */
  ghost predicate ServedBetween(server: Server, start: nat, end: nat, snapshot: map<Pubkey, Option<Account>>) {
    && (forall a :: a in snapshot ==> SeenBetween(server, start, end, a, snapshot[a]))
    && (|snapshot| <= server.limit ==> exists t :: start <= t <= end && ServedAt(server, t, snapshot))
  }

  predicate ServedAt(server: Server, t: nat, snapshot: map<Pubkey, Option<Account>>) {
    forall a :: a in snapshot ==> snapshot[a] == server.serve(t, a)
  }

  lemma {:induction false} ZipValue(query: seq<Pubkey>, values: seq<Option<Account>>, i: nat)
    requires |query| == |values| && NoDuplicates(query) && i < |query|
    ensures Zip(query, values)[query[i]] == values[i]
  {
    var n := |query| - 1;
    if i < n {
      ZipValue(query[..n], values[..n], i);
      assert query[..n][i] == query[i] && query[i] != query[n];
    }
  }

  lemma ZipSize(query: seq<Pubkey>, values: seq<Option<Account>>)
    requires |query| == |values| && NoDuplicates(query)
    ensures |Zip(query, values)| == |query|
  {
    DistinctSize(query);
    assert |Zip(query, values).Keys| == |query|;
  }

  lemma ZipIsServed(server: Server, asked: nat, end: nat, query: seq<Pubkey>, values: seq<Option<Account>>)
    requires asked <= end && NoDuplicates(query) && AllSeenBetween(server, asked, end, query, values)
    requires |query| <= server.limit ==> values == At(server, asked, query)
    ensures ServedBetween(server, asked, end, Zip(query, values))
  {
    var snapshot := Zip(query, values);
    ZipSize(query, values);
    forall a | a in snapshot
      ensures SeenBetween(server, asked, end, a, snapshot[a])
      ensures |query| <= server.limit ==> snapshot[a] == server.serve(asked, a)
    {
      assert a in Elements(query);
      var i :| 0 <= i < |query| && query[i] == a;
      ZipValue(query, values, i);
      assert SeenBetween(server, asked, end, query[i], values[i]);
    }
    if |query| <= server.limit {
      assert ServedAt(server, asked, snapshot);
    }
  }

  /** The snapshot of a query: addresses with their values. */
  function Zip(query: seq<Pubkey>, values: seq<Option<Account>>): (m: map<Pubkey, Option<Account>>)
    requires |query| == |values|
    ensures m.Keys == Elements(query)
  {
    if query == [] then map[]
    else
      var n := |query| - 1;
      assert query == query[..n] + [query[n]];
      Zip(query[..n], values[..n])[query[n] := values[n]]
  }

  lemma Quotient(n: nat, d: nat)
    requires 1 <= d <= n
    ensures 1 <= n / d && (d == 1 ==> n / d == n)
    ensures n / d >= 2 ==> d + 1 <= n
  {
    var q := n / d;
    assert q * d <= n < q * d + d;
    if q >= 2 {
      assert 2 * d <= q * d;
    }
  }

  lemma SeenLonger(server: Server, start: nat, later: nat, end: nat, query: seq<Pubkey>, values: seq<Option<Account>>)
    requires start <= later && AllSeenBetween(server, later, end, query, values)
    ensures AllSeenBetween(server, start, end, query, values)
  {
    forall i | 0 <= i < |query|
      ensures SeenBetween(server, start, end, query[i], values[i])
    {
      assert SeenBetween(server, later, end, query[i], values[i]);
    }
  }

  lemma OneMoreAddress(addresses: seq<Pubkey>, a: Pubkey)
    ensures Distinct(addresses + [a]) == if a in Distinct(addresses) then Distinct(addresses) else Distinct(addresses) + [a]
  {
    assert (addresses + [a])[..|addresses|] == addresses;
  }
}
