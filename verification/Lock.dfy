/**
  Expiring leases released by compare-and-delete (`packages/queue/src/lock.ts`). The store runs
  one command at a time; an entry set with a time to live is gone once that time has passed.
 */
module Lock {
  import opened Wrappers

  datatype Lease = Lease(token: string, expiresAt: int)

  datatype Held = Held(key: string, token: string)

  datatype LockError = InvalidExpireTime

  /** What a read of the key sees at `now`. */
  function Visible(leases: map<string, Lease>, key: string, now: int): Option<Lease> {
    if key in leases && now < leases[key].expiresAt then Some(leases[key]) else None
  }

  function Acquired(leases: map<string, Lease>, key: string, token: string, ttlMs: int, now: int): map<string, Lease> {
    if ttlMs > 0 && Visible(leases, key, now).None? then leases[key := Lease(token, now + ttlMs)] else leases
  }

  function Released(leases: map<string, Lease>, key: string, token: string, now: int): map<string, Lease> {
    match Visible(leases, key, now)
    case Some(lease) => if lease.token == token then leases - {key} else leases
    case None => leases
  }

  class LockStore {
    var leases: map<string, Lease>

    constructor ()
      ensures leases == map[]
    {
      leases := map[];
    }

    /** The lock, or none if someone else holds it. */
    method AcquireLock(key: string, token: string, ttlMs: int, now: int) returns (r: Result<Option<Held>, LockError>)
      modifies this
      ensures leases == Acquired(old(leases), key, token, ttlMs, now)
      ensures r.Err? <==> ttlMs <= 0
      ensures r.Ok? ==> r.value == if Visible(old(leases), key, now).None? then Some(Held(key, token)) else None
      ensures r.Ok? && r.value.Some? ==> Visible(leases, key, now) == Some(Lease(token, now + ttlMs))
    {
      if ttlMs <= 0 { return Err(InvalidExpireTime); }
      if Visible(leases, key, now).Some? { return Ok(None); }
      leases := leases[key := Lease(token, now + ttlMs)];
      return Ok(Some(Held(key, token)));
    }

    /** Whether the lease was still this holder's, and so was given back. */
    method ReleaseLock(lock: Held, now: int) returns (released: bool)
      modifies this
      ensures leases == Released(old(leases), lock.key, lock.token, now)
      ensures released <==> Visible(old(leases), lock.key, now).Some? && Visible(old(leases), lock.key, now).value.token == lock.token
      ensures released ==> Visible(leases, lock.key, now).None?
    {
      var found := Visible(leases, lock.key, now);
      if found.Some? && found.value.token == lock.token {
        leases := leases - {lock.key};
        return true;
      }
      return false;
    }
  }

  // ---------------------------------------------------------------- histories

  /** A call as it reached the store. A release names the acquiring event whose lock it gives back. */
  datatype Event =
    | Acquire(key: string, token: string, ttlMs: int, at: int)
    | Release(grant: nat, at: int)

  /** Clocks do not run back, tokens are fresh, and only a lock that was asked for is given back. */
  ghost predicate History(events: seq<Event>) {
    && (forall i, j :: 0 <= i < j < |events| ==> events[i].at <= events[j].at)
    && (forall i, j :: 0 <= i < j < |events| && events[i].Acquire? && events[j].Acquire? ==> events[i].token != events[j].token)
    && (forall j :: 0 <= j < |events| && events[j].Release? ==> events[j].grant < j && events[events[j].grant].Acquire?)
  }

  /** Any history goes on: with a request under a fresh token, or with a lock given back, no earlier than what came before. */
  lemma HistoryGoesOn(events: seq<Event>, e: Event)
    requires History(events) && (events != [] ==> events[|events| - 1].at <= e.at)
    requires e.Acquire? ==> forall i :: 0 <= i < |events| && events[i].Acquire? ==> events[i].token != e.token
    requires e.Release? ==> e.grant < |events| && events[e.grant].Acquire?
    ensures History([]) && History(events + [e])
  {
    var more := events + [e];
    forall i, j | 0 <= i < j < |more| ensures more[i].at <= more[j].at {
      if j == |events| && i < |events| - 1 { assert events[i].at <= events[|events| - 1].at; }
    }
  }

  /** The store after the first `n` events. */
  ghost function Store(events: seq<Event>, n: nat): map<string, Lease>
    requires History(events) && n <= |events|
  {
    if n == 0 then map[]
    else match events[n - 1]
      case Acquire(key, token, ttlMs, at) => Acquired(Store(events, n - 1), key, token, ttlMs, at)
      case Release(grant, at) => Released(Store(events, n - 1), events[grant].key, events[grant].token, at)
  }

  // ---------------------------------------------------------------- leases, without the store

  ghost predicate GivenBack(events: seq<Event>, i: nat, n: nat)
    requires n <= |events|
  {
    exists j :: 0 <= j < n && events[j].Release? && events[j].grant == i
  }

  /** Event `i`'s lease would still run at `now`, after `n` events: neither its own time nor its own holder has ended it. */
  ghost predicate Runs(events: seq<Event>, i: nat, n: nat, now: int)
    requires i < n <= |events| && events[i].Acquire?
  {
    now < events[i].at + events[i].ttlMs && !GivenBack(events, i, n)
  }

  /** Event `i` is granted: no earlier grant of the same key still runs. */
  ghost predicate Granted(events: seq<Event>, i: nat)
    requires i < |events|
    decreases i
  {
    && events[i].Acquire? && events[i].ttlMs > 0
    && forall j :: 0 <= j < i && events[j].Acquire? && events[j].key == events[i].key && Granted(events, j) ==>
         !Runs(events, j, i, events[i].at)
  }

  function LeaseOf(e: Event): Lease
    requires e.Acquire?
  {
    Lease(e.token, e.at + e.ttlMs)
  }

  /** The store's entry for `key` is the lease of event `i`. */
  ghost predicate Backs(events: seq<Event>, i: nat, n: nat, key: string)
    requires History(events) && n <= |events|
  {
    && i < n && Granted(events, i) && events[i].key == key && !GivenBackInTime(events, i, n)
    && key in Store(events, n) && Store(events, n)[key] == LeaseOf(events[i])
  }

  /** Given back while it still ran. */
  ghost predicate GivenBackInTime(events: seq<Event>, i: nat, n: nat)
    requires i < n <= |events| && events[i].Acquire?
  {
    exists j :: 0 <= j < n && events[j].Release? && events[j].grant == i && events[j].at < events[i].at + events[i].ttlMs
  }

  // ---------------------------------------------------------------- the store holds the running lease

  lemma {:induction false} EntryHasGrant(events: seq<Event>, n: nat, key: string) returns (i: nat)
    requires History(events) && n <= |events| && key in Store(events, n)
    ensures Backs(events, i, n, key)
    decreases n
  {
    var e, before := events[n - 1], Store(events, n - 1);
    if e.Acquire? && e.key == key && e.ttlMs > 0 && Visible(before, key, e.at).None? {
      i := n - 1;
      forall j | 0 <= j < i && events[j].Acquire? && events[j].key == key && Granted(events, j)
        ensures !Runs(events, j, i, e.at)
      {
        if Runs(events, j, i, e.at) { GrantInStore(events, j, i, e.at); }
      }
    } else {
      i := EntryHasGrant(events, n - 1, key);
    }
  }

  lemma {:induction false} GrantInStore(events: seq<Event>, i: nat, n: nat, now: int)
    requires History(events) && i < n <= |events| && Granted(events, i)
    requires events[n - 1].at <= now && Runs(events, i, n, now)
    ensures events[i].key in Store(events, n) && Store(events, n)[events[i].key] == LeaseOf(events[i])
    decreases n
  {
    var e, before := events[n - 1], Store(events, n - 1);
    if i == n - 1 {
      if Visible(before, e.key, e.at).Some? {
        var _ := EntryHasGrant(events, n - 1, e.key);
      }
    } else {
      assert !GivenBack(events, i, n - 1);
      GrantInStore(events, i, n - 1, now);
      if e.Release? { assert e.grant != i; }
    }
  }

  /** What a reader of the key sees is exactly the one lease still running. */
  lemma {:induction false} StoreIsRunningLease(events: seq<Event>, n: nat, key: string, now: int, lease: Lease)
    requires History(events) && n <= |events| && (n > 0 ==> events[n - 1].at <= now)
    ensures Visible(Store(events, n), key, now) == Some(lease) <==>
      exists i :: 0 <= i < n && Granted(events, i) && events[i].key == key && Runs(events, i, n, now) && lease == LeaseOf(events[i])
  {
    if Visible(Store(events, n), key, now) == Some(lease) {
      var i := EntryHasGrant(events, n, key);
      assert Runs(events, i, n, now);
    }
    forall i | 0 <= i < n && Granted(events, i) && events[i].key == key && Runs(events, i, n, now)
      ensures Visible(Store(events, n), key, now) == Some(LeaseOf(events[i]))
    {
      GrantInStore(events, i, n, now);
    }
  }

  /** The acquiring call of event `i` was answered with the lock. */
  ghost predicate Succeeds(events: seq<Event>, i: nat)
    requires History(events) && i < |events|
  {
    events[i].Acquire? && events[i].ttlMs > 0 && Visible(Store(events, i), events[i].key, events[i].at).None?
  }

  /** A call is answered with the lock exactly when no earlier lease of the key still runs. */
  lemma {:induction false} GrantedIffFree(events: seq<Event>, n: nat)
    requires History(events) && n < |events|
    ensures Granted(events, n) <==> Succeeds(events, n)
  {
    var e := events[n];
    if e.Release? {
    } else if Visible(Store(events, n), e.key, e.at).Some? {
      var k := EntryHasGrant(events, n, e.key);
      assert Runs(events, k, n, e.at);
    } else if e.ttlMs > 0 {
      forall j | 0 <= j < n && events[j].Acquire? && events[j].key == e.key && Granted(events, j)
        ensures !Runs(events, j, n, e.at)
      {
        if Runs(events, j, n, e.at) { GrantInStore(events, j, n, e.at); }
      }
    }
  }

  /** Of two calls answered with the same lock, one has given it back or outlived it: at most one lease per key runs. */
  lemma {:induction false} MutualExclusion(events: seq<Event>, i: nat, k: nat, n: nat, now: int)
    requires History(events) && i < n <= |events| && k < n && events[n - 1].at <= now
    requires Succeeds(events, i) && Succeeds(events, k) && events[i].key == events[k].key
    requires Runs(events, i, n, now) && Runs(events, k, n, now)
    ensures i == k
  {
    GrantedIffFree(events, i);
    GrantedIffFree(events, k);
    GrantInStore(events, i, n, now);
    GrantInStore(events, k, n, now);
  }

  /** A release, early or late, leaves another holder's running lease in the store. */
  lemma {:induction false} ReleaseFreesOnlyItsOwn(events: seq<Event>, n: nat, i: nat, now: int)
    requires History(events) && i < n < |events| && events[n].Release? && events[n].grant != i
    requires Succeeds(events, i) && events[n].at <= now && Runs(events, i, n, now)
    ensures Visible(Store(events, n + 1), events[i].key, now) == Some(LeaseOf(events[i]))
  {
    GrantedIffFree(events, i);
    assert !GivenBack(events, i, n + 1);
    GrantInStore(events, i, n + 1, now);
  }

  /** The first release answers yes exactly when the work was done before its lease ran out. */
  lemma {:induction false} ReleaseTellsExpiry(events: seq<Event>, n: nat)
    requires History(events) && n < |events| && events[n].Release? && Succeeds(events, events[n].grant)
    requires !GivenBack(events, events[n].grant, n)
    ensures
      var g := events[events[n].grant];
      var seen := Visible(Store(events, n), g.key, events[n].at);
      (seen.Some? && seen.value.token == g.token) <==> events[n].at < g.at + g.ttlMs
  {
    var i, at := events[n].grant, events[n].at;
    GrantedIffFree(events, i);
    if at < events[i].at + events[i].ttlMs {
      GrantInStore(events, i, n, at);
    } else if Visible(Store(events, n), events[i].key, at).Some? {
      var k := EntryHasGrant(events, n, events[i].key);
      assert k != i;
    }
  }

  /** Two bodies run under one key at once only if the first has outlived its lease. */
  lemma {:induction false} OverlapMeansOutlived(events: seq<Event>, i: nat, k: nat)
    requires History(events) && i < k < |events| && Succeeds(events, i)
    requires Succeeds(events, k) && events[k].key == events[i].key && !GivenBack(events, i, k)
    ensures events[k].at >= events[i].at + events[i].ttlMs
  {
    GrantedIffFree(events, i);
    GrantedIffFree(events, k);
  }
}
