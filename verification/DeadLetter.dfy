/**
  The bounded record of jobs that will not be retried (`packages/queue/src/dead-letter.ts`):
  entries that expire, a sorted index over them, and a cap on its size.
 */
module DeadLetter {
  import opened Helpers
  import opened Wrappers
  import opened SortedIndex

  const RETENTION_MS := 30 * 24 * 3600 * 1000

  const MAX_DEAD_LETTERS := 1000

  datatype Frame = Frame(code: string, message: string)

  datatype Entry = Entry(id: string, queue: string, jobId: string, organizationId: Option<string>, correlationId: string,
                         errorCode: string, message: string, reason: string, attempts: int, failedAt: int,
                         chain: seq<Frame>, payload: Option<string>)

  datatype Saved = Saved(entry: Entry, expiresAt: int)

  datatype Store = Store(entries: map<string, Saved>, index: seq<Member>)

  // ---------------------------------------------------------------- the cause chain

  /** A raised value, already described; only an error carries a cause. */
  datatype Raised = Raised(described: Frame, cause: Option<Raised>)

  function Frames(error: Option<Raised>): seq<Frame> {
    match error
    case None => []
    case Some(e) => [e.described] + Frames(e.cause)
  }

  /** The outermost `limit` frames, outermost first. */
  method CauseChain(error: Option<Raised>, limit: int) returns (chain: seq<Frame>)
    ensures chain == if limit <= 0 then [] else if limit < |Frames(error)| then Frames(error)[..limit] else Frames(error)
  {
    chain := [];
    var current := error;
    while current.Some? && |chain| < limit
      invariant Frames(error) == chain + Frames(current)
      invariant |chain| <= if limit < 0 then 0 else limit
      decreases limit - |chain|
    {
      chain := chain + [current.value.described];
      current := current.value.cause;
    }
  }

  // ---------------------------------------------------------------- commands

  function MemberOf(e: Entry): Member {
    Member(e.failedAt, e.id)
  }

  /** What a read of an entry's key sees at `now`. */
  function Lookup(s: Store, id: string, now: int): Option<Entry> {
    if id in s.entries && now < s.entries[id].expiresAt then Some(s.entries[id].entry) else None
  }

  /** The first transaction of a recording: entry, index, and the retention trim. */
  function Indexed(s: Store, e: Entry): Store {
    Store(s.entries[e.id := Saved(e, e.failedAt + RETENTION_MS)],
          RemoveScores(Add(s.index, MemberOf(e)), 0, e.failedAt - RETENTION_MS))
  }

  function Ids(members: seq<Member>): (r: seq<string>)
    ensures |r| == |members|
    ensures forall i :: 0 <= i < |members| ==> r[i] == members[i].id
  {
    if members == [] then [] else [members[0].id] + Ids(members[1..])
  }

  /** The ids past the cap, oldest first. */
  function Overflow(index: seq<Member>): seq<string> {
    if |index| > MAX_DEAD_LETTERS then Ids(index[..|index| - MAX_DEAD_LETTERS]) else []
  }

  /** Entries and index members deleted together. */
  function Dropped(s: Store, ids: seq<string>): Store {
    Store(map id | id in s.entries && id !in ids :: s.entries[id], Remove(s.index, ids))
  }

  // ---------------------------------------------------------------- the invariant

  /** Index and entries agree, at any time no earlier than `clock`. */
  ghost predicate Valid(s: Store, clock: int) {
    && Sorted(s.index)
    && (forall m :: m in s.index ==> m.id in s.entries && m.score == s.entries[m.id].entry.failedAt && 0 <= m.score <= clock)
    && (forall id :: id in s.entries ==>
          && s.entries[id].entry.id == id
          && s.entries[id].expiresAt == s.entries[id].entry.failedAt + RETENTION_MS
          && (MemberOf(s.entries[id].entry) in s.index || s.entries[id].expiresAt <= clock))
  }

  lemma {:induction false} IndexedKeeps(s: Store, clock: int, e: Entry)
    requires Valid(s, clock) && 0 <= clock <= e.failedAt
    ensures Valid(Indexed(s, e), e.failedAt)
    ensures |Indexed(s, e).index| <= |s.index| + 1
    ensures forall m :: m in Indexed(s, e).index <==>
      m == MemberOf(e) || (m in s.index && m.id != e.id && m.score > e.failedAt - RETENTION_MS)
  {
    hide Add, Filter, Before, Sorted;
    AddKeeps(s.index, MemberOf(e));
    FilterKeeps(Add(s.index, MemberOf(e)), ScoreOutside(0, e.failedAt - RETENTION_MS));
  }

  lemma {:induction false} DroppedKeeps(s: Store, clock: int, ids: seq<string>)
    requires Valid(s, clock)
    ensures Valid(Dropped(s, ids), clock)
    ensures |Dropped(s, ids).index| <= |s.index|
    ensures forall m :: m in Dropped(s, ids).index <==> m in s.index && m.id !in ids
  {
    FilterKeeps(s.index, NoneOf(ids));
  }

  lemma SameIdSameMember(s: Store, clock: int, i: nat, j: nat)
    requires Valid(s, clock) && i < |s.index| && j < |s.index| && s.index[i].id == s.index[j].id
    ensures i == j
  {
    assert s.index[i] in s.index && s.index[j] in s.index;
    if i < j { BeforeTrichotomy(s.index[i], s.index[j]); }
    if j < i { BeforeTrichotomy(s.index[j], s.index[i]); }
  }

  /** Dropping the overflow leaves the newest members, and no more than the cap of them. */
  lemma {:induction false} OverflowLeavesNewest(s: Store, clock: int)
    requires Valid(s, clock)
    ensures
      var excess := if |s.index| > MAX_DEAD_LETTERS then |s.index| - MAX_DEAD_LETTERS else 0;
      Dropped(s, Overflow(s.index)).index == s.index[excess..]
  {
    var excess := if |s.index| > MAX_DEAD_LETTERS then |s.index| - MAX_DEAD_LETTERS else 0;
    var old_, kept, ids := s.index[..excess], s.index[excess..], Overflow(s.index);
    forall i | 0 <= i < |s.index| ensures s.index[i].id in ids <==> i < excess {
      if i < excess { assert ids[i] == s.index[i].id; }
      if s.index[i].id in ids {
        var k :| 0 <= k < |ids| && ids[k] == s.index[i].id;
        SameIdSameMember(s, clock, k, i);
      }
    }
    FilterDrops(old_, NoneOf(ids), kept);
    assert s.index == old_ + kept;
  }

  lemma {:induction false} FilterAll(kept: seq<Member>, keep: Member -> bool)
    requires forall m :: m in kept ==> keep(m)
    ensures Filter(kept, keep) == kept
    decreases |kept|
  {
    if kept != [] {
      FilterAll(kept[1..], keep);
      assert kept == [kept[0]] + kept[1..];
    }
  }

  lemma {:induction false} FilterDrops(gone: seq<Member>, keep: Member -> bool, kept: seq<Member>)
    requires forall m :: m in gone ==> !keep(m)
    requires forall m :: m in kept ==> keep(m)
    ensures Filter(gone + kept, keep) == kept
    decreases |gone|
  {
    if gone == [] {
      assert gone + kept == kept;
      FilterAll(kept, keep);
    } else {
      assert (gone + kept)[1..] == gone[1..] + kept;
      assert gone[0] in gone;
      FilterDrops(gone[1..], keep, kept);
    }
  }

  // ---------------------------------------------------------------- what readers see

  predicate Live(s: Store, e: Entry, now: int) {
    Lookup(s, e.id, now) == Some(e)
  }

  predicate Newer(a: Entry, b: Entry) {
    Before(MemberOf(b), MemberOf(a))
  }

  /** The newest live entries, newest first: at most `k`, and nothing left out unless `k` newer ones are there. */
  ghost predicate NewestOf(r: seq<Entry>, s: Store, k: nat, now: int) {
    && |r| <= k
    && (forall e :: e in r ==> Live(s, e, now))
    && (forall i, j :: 0 <= i < j < |r| ==> Newer(r[i], r[j]))
    && (forall e :: Live(s, e, now) && e !in r ==> |r| == k && forall x :: x in r ==> Newer(x, e))
  }

  /** Up to `k` members read downwards from position `hi`, the expired ones skipped. */
  function ReadDown(s: Store, hi: nat, k: nat, now: int): seq<Entry>
    requires hi <= |s.index|
  {
    if hi == 0 || k == 0 then []
    else
      var rest := ReadDown(s, hi - 1, k - 1, now);
      match Lookup(s, s.index[hi - 1].id, now)
      case Some(e) => [e] + rest
      case None => rest
  }

  function ListDeadLetters(s: Store, limit: int, now: int): seq<Entry> {
    ReadDown(s, |s.index|, if limit - 1 > 0 then limit else 1, now)
  }

  lemma {:induction false} ReadDownExact(s: Store, clock: int, hi: nat, k: nat, now: int)
    requires Valid(s, clock) && clock <= now && hi <= |s.index|
    ensures
      var r := ReadDown(s, hi, k, now);
      && |r| <= k
      && (forall e :: e in r ==> Live(s, e, now) && MemberOf(e) in s.index[..hi])
      && (forall i, j :: 0 <= i < j < |r| ==> Newer(r[i], r[j]))
      && (forall e :: Live(s, e, now) && MemberOf(e) in s.index[..hi] && e !in r ==>
            |r| == k && forall x :: x in r ==> Newer(x, e))
    decreases hi
  {
    hide Valid, Live, Lookup, Newer, MemberOf;
    if hi > 0 && k > 0 {
      var top, below := s.index[hi - 1], s.index[..hi - 1];
      ReadDownExact(s, clock, hi - 1, k - 1, now);
      assert s.index[..hi] == below + [top];
      forall e | Live(s, e, now) && MemberOf(e) in below
        ensures Lookup(s, top.id, now).Some? && Newer(Lookup(s, top.id, now).value, e)
      {
        LiveAbove(s, clock, hi, e, now);
      }
      TopEntry(s, clock, hi, now);
    }
  }

  lemma TopEntry(s: Store, clock: int, hi: nat, now: int)
    requires Valid(s, clock) && 0 < hi <= |s.index|
    ensures forall e :: Live(s, e, now) && MemberOf(e) == s.index[hi - 1] ==> Lookup(s, s.index[hi - 1].id, now) == Some(e)
    ensures forall e :: Lookup(s, s.index[hi - 1].id, now) == Some(e) ==> Live(s, e, now) && MemberOf(e) == s.index[hi - 1]
  {
    assert s.index[hi - 1] in s.index;
  }

  /** What stands above a live entry is live, and newer. */
  lemma LiveAbove(s: Store, clock: int, hi: nat, e: Entry, now: int)
    requires Valid(s, clock) && 0 < hi <= |s.index| && Live(s, e, now) && MemberOf(e) in s.index[..hi - 1]
    ensures
      var found := Lookup(s, s.index[hi - 1].id, now);
      found.Some? && Newer(found.value, e)
  {
    hide Before;
    var i :| 0 <= i < hi - 1 && s.index[i] == MemberOf(e);
    assert s.index[hi - 1] in s.index;
    BeforeScore(s.index[i], s.index[hi - 1]);
  }

  lemma BeforeScore(a: Member, b: Member)
    requires Before(a, b)
    ensures a.score <= b.score
  {
  }

  /** A list is exactly the newest live entries; a limit below one reads as one. */
  lemma {:induction false} ListIsNewest(s: Store, clock: int, limit: int, now: int)
    requires Valid(s, clock) && clock <= now
    ensures NewestOf(ListDeadLetters(s, limit, now), s, if limit < 1 then 1 else limit, now)
  {
    ReadDownExact(s, clock, |s.index|, if limit - 1 > 0 then limit else 1, now);
    assert s.index[..|s.index|] == s.index;
  }

  /** There is only one such list. */
  lemma {:induction false} NewestIsUnique(r: seq<Entry>, q: seq<Entry>, s: Store, k: nat, now: int)
    requires NewestOf(r, s, k, now) && NewestOf(q, s, k, now)
    ensures r == q
  {
    hide Live, Newer;
    NewestAgree(r, q, s, k, now, if |r| < |q| then |r| else |q|);
    if |r| < |q| { NewestNoLonger(r, q, s, k, now); }
    if |q| < |r| { NewestNoLonger(q, r, s, k, now); }
  }

  lemma NewerTrichotomy(a: Entry, b: Entry)
    ensures Newer(a, b) ==> a != b && !Newer(b, a)
  {
    BeforeTrichotomy(MemberOf(a), MemberOf(b));
  }

  lemma {:induction false} NewestAgree(r: seq<Entry>, q: seq<Entry>, s: Store, k: nat, now: int, n: nat)
    requires NewestOf(r, s, k, now) && NewestOf(q, s, k, now) && n <= |r| && n <= |q|
    ensures r[..n] == q[..n]
    decreases n
  {
    hide Live, Newer;
    if n > 0 {
      NewestAgree(r, q, s, k, now, n - 1);
      var a, b := r[n - 1], q[n - 1];
      assert a in r && b in q;
      NewerTrichotomy(a, b);
      NewerTrichotomy(b, a);
      if a != b {
        if a in q { NextInOther(r, q, n - 1); }
        if b in r { NextInOther(q, r, n - 1); }
      }
      assert r[..n] == r[..n - 1] + [a] && q[..n] == q[..n - 1] + [b];
    }
  }

  /** In two descending lists that agree so far, an element of both is no newer than the other's next. */
  lemma NextInOther(r: seq<Entry>, q: seq<Entry>, n: nat)
    requires n < |r| && n < |q| && r[..n] == q[..n] && r[n] in q && r[n] != q[n]
    requires forall i, j :: 0 <= i < j < |r| ==> Newer(r[i], r[j])
    requires forall i, j :: 0 <= i < j < |q| ==> Newer(q[i], q[j])
    ensures Newer(q[n], r[n])
  {
    hide Newer;
    var i :| 0 <= i < |q| && q[i] == r[n];
    if i < n {
      assert q[i] == q[..n][i] == r[..n][i] == r[i];
      NewerTrichotomy(r[i], r[n]);
    }
  }

  lemma NewestNoLonger(r: seq<Entry>, q: seq<Entry>, s: Store, k: nat, now: int)
    requires NewestOf(r, s, k, now) && NewestOf(q, s, k, now) && |r| <= |q| && q[..|r|] == r
    ensures |r| == |q|
  {
    hide Live, Newer;
    if |r| < |q| {
      var e := q[|r|];
      assert e in q;
      if e in r {
        var i :| 0 <= i < |r| && r[i] == e;
        assert q[i] == q[..|r|][i] == e;
        NewerTrichotomy(q[i], q[|r|]);
      }
    }
  }

  // ---------------------------------------------------------------- one recorder at a time

  /** `t` holds what `s` held and `e`, less what more than the cap of newer entries pushed out. */
  ghost predicate KeepsNewest(s: Store, e: Entry, t: Store, now: int) {
    && (forall x :: Live(t, x, now) ==> x == e || (Live(s, x, now) && x.id != e.id))
    && (forall x :: (x == e || (Live(s, x, now) && x.id != e.id)) && !Live(t, x, now) ==>
          |t.index| == MAX_DEAD_LETTERS && forall m :: m in t.index ==> Before(MemberOf(x), m))
  }

  lemma IndexedLive(s: Store, e: Entry)
    ensures forall x :: Live(Indexed(s, e), x, e.failedAt) <==> x == e || (Live(s, x, e.failedAt) && x.id != e.id)
  {
  }

  lemma DroppedLive(s: Store, ids: seq<string>)
    ensures forall x, now :: Live(Dropped(s, ids), x, now) <==> Live(s, x, now) && x.id !in ids
  {
  }

  lemma {:induction false} RecordKeepsNewest(s: Store, clock: int, e: Entry)
    requires Valid(s, clock) && 0 <= clock <= e.failedAt
    ensures
      var u := Indexed(s, e);
      var t := Dropped(u, Overflow(u.index));
      && Valid(t, e.failedAt)
      && |t.index| <= MAX_DEAD_LETTERS
      && (forall m :: m in t.index ==> Lookup(t, m.id, e.failedAt).Some?)
      && KeepsNewest(s, e, t, e.failedAt)
  {
    hide Before, Valid, Live, Overflow, Lookup;
    var now, u := e.failedAt, Indexed(s, e);
    var ids := Overflow(u.index);
    var t := Dropped(u, ids);
    IndexedKeeps(s, clock, e);
    DroppedKeeps(u, now, ids);
    OverflowLeavesNewest(u, now);
    IndexedLive(s, e);
    DroppedLive(u, ids);
    forall m | m in t.index ensures Lookup(t, m.id, now).Some? {
      IndexedIsLive(t, now, m);
    }
    forall x | Live(u, x, now) && x.id in ids
      ensures |t.index| == MAX_DEAD_LETTERS && forall m :: m in t.index ==> Before(MemberOf(x), m)
    {
      PushedOut(u, now, x);
    }
  }

  lemma IndexedIsLive(t: Store, now: int, m: Member)
    requires Valid(t, now) && m in t.index && m.score > now - RETENTION_MS
    ensures Lookup(t, m.id, now).Some?
  {
  }

  lemma {:induction false} PushedOut(u: Store, now: int, x: Entry)
    requires Valid(u, now) && Live(u, x, now) && x.id in Overflow(u.index)
    ensures
      var t := Dropped(u, Overflow(u.index));
      |t.index| == MAX_DEAD_LETTERS && forall m :: m in t.index ==> Before(MemberOf(x), m)
  {
    hide Before;
    var ids := Overflow(u.index);
    OverflowLeavesNewest(u, now);
    var k :| 0 <= k < |ids| && ids[k] == x.id;
    assert u.index[k] in u.index && u.index[k] == MemberOf(x);
    var excess := |u.index| - MAX_DEAD_LETTERS;
    forall m | m in u.index[excess..] ensures Before(MemberOf(x), m) {
      var i :| 0 <= i < MAX_DEAD_LETTERS && u.index[excess..][i] == m;
      assert u.index[excess + i] == m;
    }
  }

  // ---------------------------------------------------------------- recording

  /** What a caller reports; nothing at all may have been thrown. */
  datatype Input = Input(queue: string, jobId: string, organizationId: Option<string>, correlationId: string,
                         described: Frame, error: Option<Raised>, reason: string, attempts: int, payload: Option<string>)

  function Decimal(n: nat): string {
    if n < 10 then [('0' as int + n) as char] else Decimal(n / 10) + [('0' as int + n % 10) as char]
  }

  function EntryId(queue: string, jobId: string, now: nat): string {
    queue + ":" + jobId + ":" + Decimal(now)
  }

  lemma {:induction false} DecimalExact(n: nat, m: nat)
    ensures ':' !in Decimal(n)
    ensures Decimal(n) == Decimal(m) ==> n == m
    decreases n
  {
    var a, b := Decimal(n), Decimal(m);
    assert a[|a| - 1] == ('0' as int + n % 10) as char && b[|b| - 1] == ('0' as int + m % 10) as char;
    assert n >= 10 ==> a[..|a| - 1] == Decimal(n / 10);
    assert m >= 10 ==> b[..|b| - 1] == Decimal(m / 10);
    if n >= 10 { DecimalExact(n / 10, m / 10); }
  }

  /** A recording replaces an entry only if the same millisecond already recorded one under the same name. */
  lemma {:induction false} EntryIdFixesTime(queue: string, jobId: string, now: nat, queue2: string, jobId2: string, now2: nat)
    requires EntryId(queue, jobId, now) == EntryId(queue2, jobId2, now2)
    ensures now == now2 && queue + ":" + jobId == queue2 + ":" + jobId2
  {
    hide Decimal;
    var a, b := queue + ":" + jobId, queue2 + ":" + jobId2;
    var d, e := Decimal(now), Decimal(now2);
    DecimalExact(now, now2);
    DecimalExact(now2, now);
    var whole := EntryId(queue, jobId, now);
    assert whole == a + ":" + d == b + ":" + e;
    assert forall j :: |a| < j < |whole| ==> whole[j] == d[j - |a| - 1];
    assert forall j :: |b| < j < |whole| ==> whole[j] == e[j - |b| - 1];
    assert whole[|a|] == ':' && whole[|b|] == ':';
    assert whole[..|a|] == a && whole[|a| + 1..] == d;
    assert whole[..|b|] == b && whole[|b| + 1..] == e;
  }

  function EntryOf(input: Input, now: nat): Entry {
    Entry(EntryId(input.queue, input.jobId, now), input.queue, input.jobId, input.organizationId, input.correlationId,
          input.described.code, input.described.message, input.reason, input.attempts, now,
          if |Frames(input.error)| > 5 then Frames(input.error)[..5] else Frames(input.error), input.payload)
  }

  /** The keys of the store, updated in place. */
  class DeadLetters {
    var entries: map<string, Saved>
    var index: seq<Member>
    ghost var clock: int

    ghost function Kept(): Store
      reads this
    {
      Store(entries, index)
    }

    ghost predicate Agrees()
      reads this
    {
      Valid(Kept(), clock) && clock >= 0
    }

    constructor ()
      ensures Agrees() && clock == 0 && Kept() == Store(map[], [])
    {
      entries, index, clock := map[], [], 0;
    }

    method RecordDeadLetter(input: Input, now: nat) returns (entry: Entry)
      requires Agrees() && clock <= now
      modifies this
      ensures entry == EntryOf(input, now)
      ensures entry.errorCode == input.described.code && entry.message == input.described.message
      ensures entry.jobId == input.jobId && entry.queue == input.queue && entry.correlationId == input.correlationId
      ensures Agrees() && clock == now
      ensures |index| <= MAX_DEAD_LETTERS
      ensures forall m :: m in index ==> Lookup(Kept(), m.id, now).Some?
      ensures KeepsNewest(old(Kept()), entry, Kept(), now)
    {
      hide Valid, KeepsNewest, Lookup, Overflow, Remove, RemoveScores, Add, Frames, EntryId;
      var chain := CauseChain(input.error, 5);
      entry := Entry(EntryId(input.queue, input.jobId, now), input.queue, input.jobId, input.organizationId, input.correlationId,
                     input.described.code, input.described.message, input.reason, input.attempts, now, chain, input.payload);
      RecordKeepsNewest(Kept(), clock, entry);
      entries := entries[entry.id := Saved(entry, now + RETENTION_MS)];
      index := Add(index, Member(now, entry.id));
      index := RemoveScores(index, 0, now - RETENTION_MS);
      var overflow := Overflow(index);
      ghost var u := Indexed(old(Kept()), entry);
      if |overflow| > 0 {
        entries := map id | id in entries && id !in overflow :: entries[id];
        index := Remove(index, overflow);
      } else {
        DropNothing(u);
      }
      clock := now;
    }

    method List(limit: int, now: int) returns (r: seq<Entry>)
      requires Agrees() && clock <= now
      ensures NewestOf(r, Kept(), if limit < 1 then 1 else limit, now)
    {
      ListIsNewest(Kept(), clock, limit, now);
      r := ListDeadLetters(Store(entries, index), limit, now);
    }

    method GetDeadLetter(id: string, now: int) returns (r: Option<Entry>)
      requires Agrees() && clock <= now
      ensures r == Lookup(Kept(), id, now)
      ensures r.Some? ==> r.value.id == id && MemberOf(r.value) in index
    {
      r := if id in entries && now < entries[id].expiresAt then Some(entries[id].entry) else None;
    }

    method DiscardDeadLetter(id: string)
      requires Agrees()
      modifies this`entries, this`index
      ensures Agrees()
      ensures forall x, now :: Live(Kept(), x, now) <==> Live(old(Kept()), x, now) && x.id != id
      ensures forall m :: m in index <==> m in old(index) && m.id != id
    {
      hide Valid, Remove, Lookup, Live;
      DroppedKeeps(Kept(), clock, [id]);
      DroppedLive(Kept(), [id]);
      entries := map k | k in entries && k !in [id] :: entries[k];
      index := Remove(index, [id]);
    }
  }

  lemma DropNothing(s: Store)
    ensures Dropped(s, []) == s
  {
    FilterDrops([], NoneOf([]), s.index);
    assert [] + s.index == s.index;
  }

  // ---------------------------------------------------------------- many recorders at once

  /**
    Recorders between their transactions: `adding` have written and not yet read the overflow,
    `trimming` hold what they read. `latest` is the last to have read.
   */
  datatype Shared = Shared(store: Store, clock: int, adding: set<nat>, trimming: map<nat, seq<string>>, latest: Option<nat>)

  datatype Step =
    | Write(w: nat, entry: Entry)
    | ReadOverflow(w: nat)
    | Trim(w: nat)
    | Discard(id: string)

  predicate Enabled(s: Shared, step: Step) {
    match step
    case Write(w, entry) => w !in s.adding && w !in s.trimming && s.clock <= entry.failedAt
    case ReadOverflow(w) => w in s.adding && w !in s.trimming
    case Trim(w) => w in s.trimming
    case Discard(_) => true
  }

  function Next(s: Shared, step: Step): Shared
    requires Enabled(s, step)
  {
    match step
    case Write(w, entry) => s.(store := Indexed(s.store, entry), clock := entry.failedAt, adding := s.adding + {w})
    case ReadOverflow(w) =>
      s.(adding := s.adding - {w}, trimming := s.trimming[w := Overflow(s.store.index)], latest := Some(w))
    case Trim(w) => s.(store := Dropped(s.store, s.trimming[w]), trimming := s.trimming - {w})
    case Discard(id) => s.(store := Dropped(s.store, [id]))
  }

  ghost predicate Runs(s: Shared, steps: seq<Step>)
    decreases |steps|
  {
    steps == [] || (Enabled(s, steps[0]) && Runs(Next(s, steps[0]), steps[1..]))
  }

  ghost function After(s: Shared, steps: seq<Step>): Shared
    requires Runs(s, steps)
    decreases |steps|
  {
    if steps == [] then s else After(Next(s, steps[0]), steps[1..])
  }

  /** What the last reader of the overflow is still about to delete. */
  function Pending(s: Shared): seq<string> {
    if s.latest.Some? && s.latest.value in s.trimming then s.trimming[s.latest.value] else []
  }

  /** Past the pending deletion, the index exceeds the cap by no more than the recorders yet to look. */
  ghost predicate Inv(s: Shared) {
    && Valid(s.store, s.clock) && s.clock >= 0
    && |Remove(s.store.index, Pending(s))| <= MAX_DEAD_LETTERS + |s.adding|
  }

  function Elements(index: seq<Member>): set<Member> {
    set m | m in index
  }

  lemma {:induction false} SortedSize(index: seq<Member>)
    requires Sorted(index)
    ensures |Elements(index)| == |index|
    decreases |index|
  {
    hide Before;
    if index != [] {
      var rest := index[1..];
      assert index == [index[0]] + rest;
      SortedSize(rest);
      if index[0] in rest {
        var i :| 0 <= i < |rest| && rest[i] == index[0];
        assert index[i + 1] == index[0];
        BeforeTrichotomy(index[0], index[0]);
      }
      assert Elements(index) == {index[0]} + Elements(rest);
    }
  }

  lemma {:induction false} NoLarger(a: seq<Member>, b: seq<Member>, extra: set<Member>)
    requires Sorted(a) && Sorted(b) && Elements(a) <= Elements(b) + extra
    ensures |a| <= |b| + |extra|
  {
    SortedSize(a);
    SortedSize(b);
    Subset(Elements(a), Elements(b) + extra);
  }

  lemma {:induction false} Subset(a: set<Member>, b: set<Member>)
    requires a <= b
    ensures |a| <= |b|
  {
    assert b == a + (b - a);
  }

  lemma {:induction false} WriteKeeps(s: Shared, step: Step)
    requires Inv(s) && step.Write? && Enabled(s, step)
    ensures Inv(Next(s, step))
  {
    hide Valid, Sorted, Remove, Overflow, Indexed;
    var t, ids := Next(s, step), Pending(s);
    ValidSorted(s.store, s.clock);
    IndexedKeeps(s.store, s.clock, step.entry);
    ValidSorted(t.store, t.clock);
    FilterKeeps(s.store.index, NoneOf(ids));
    FilterKeeps(t.store.index, NoneOf(ids));
    assert Remove(s.store.index, ids) == Filter(s.store.index, NoneOf(ids)) by { RemoveIs(s.store.index, ids); }
    assert Remove(t.store.index, ids) == Filter(t.store.index, NoneOf(ids)) by { RemoveIs(t.store.index, ids); }
    NoLarger(Remove(t.store.index, ids), Remove(s.store.index, ids), {MemberOf(step.entry)});
  }

  lemma ValidSorted(s: Store, clock: int)
    requires Valid(s, clock)
    ensures Sorted(s.index)
  {
  }

  lemma RemoveIs(index: seq<Member>, ids: seq<string>)
    ensures Remove(index, ids) == Filter(index, NoneOf(ids))
  {
  }

  lemma {:induction false} ReadKeeps(s: Shared, step: Step)
    requires Inv(s) && step.ReadOverflow? && Enabled(s, step)
    ensures Inv(Next(s, step))
  {
    OverflowLeavesNewest(s.store, s.clock);
  }

  /** Deleting anything leaves no more, whichever deletion is then pending. */
  lemma {:induction false} DropLeavesNoMore(s: Store, clock: int, gone: seq<string>, before: seq<string>, after: seq<string>)
    requires Valid(s, clock)
    requires forall id :: id in before ==> id in gone || id in after
    ensures |Remove(Dropped(s, gone).index, after)| <= |Remove(s.index, before)|
  {
    hide Valid, Sorted;
    ValidSorted(s, clock);
    DroppedKeeps(s, clock, gone);
    var t := Dropped(s, gone);
    ValidSorted(t, clock);
    FilterKeeps(s.index, NoneOf(before));
    FilterKeeps(t.index, NoneOf(after));
    NoLarger(Remove(t.index, after), Remove(s.index, before), {});
  }

  lemma {:induction false} StepKeeps(s: Shared, step: Step)
    requires Inv(s) && Enabled(s, step)
    ensures Inv(Next(s, step))
  {
    hide Valid, Sorted, Remove, Overflow, Dropped;
    match step
    case Write(_, _) => WriteKeeps(s, step);
    case ReadOverflow(_) => ReadKeeps(s, step);
    case Trim(w) =>
      DroppedKeeps(s.store, s.clock, s.trimming[w]);
      DropLeavesNoMore(s.store, s.clock, s.trimming[w], Pending(s), Pending(Next(s, step)));
    case Discard(id) =>
      DroppedKeeps(s.store, s.clock, [id]);
      DropLeavesNoMore(s.store, s.clock, [id], Pending(s), Pending(s));
  }

  lemma {:induction false} RunKeeps(s: Shared, steps: seq<Step>)
    requires Inv(s) && Runs(s, steps)
    ensures Inv(After(s, steps))
    decreases |steps|
  {
    if steps != [] {
      StepKeeps(s, steps[0]);
      RunKeeps(Next(s, steps[0]), steps[1..]);
    }
  }

  function Start(): Shared {
    Shared(Store(map[], []), 0, {}, map[], None)
  }

  /**
    However recorders interleave with each other and with discards: no live entry is left out of the
    index, a list is exactly the newest live entries, and once every recorder is through the cap holds.
   */
  lemma {:induction false} InterleavingsAgree(steps: seq<Step>, limit: int, now: int)
    requires Runs(Start(), steps) && After(Start(), steps).clock <= now
    ensures
      var t := After(Start(), steps);
      && (forall e :: Live(t.store, e, now) ==> MemberOf(e) in t.store.index)
      && NewestOf(ListDeadLetters(t.store, limit, now), t.store, if limit < 1 then 1 else limit, now)
      && (t.adding == {} && t.trimming == map[] ==> |t.store.index| <= MAX_DEAD_LETTERS)
  {
    hide Runs, After, Valid, NewestOf, ListDeadLetters;
    assert Inv(Start()) by { StartHolds(); }
    RunKeeps(Start(), steps);
    var t := After(Start(), steps);
    ListIsNewest(t.store, t.clock, limit, now);
    LiveIsIndexed(t.store, t.clock, now);
    FilterAll(t.store.index, NoneOf([]));
  }

  lemma StartHolds()
    ensures Inv(Start())
  {
  }

  lemma LiveIsIndexed(s: Store, clock: int, now: int)
    requires Valid(s, clock) && clock <= now
    ensures forall e :: Live(s, e, now) ==> MemberOf(e) in s.index
  {
  }

  // ---------------------------------------------------------------- what an interleaving may lose

  /** At least a thousand newer members are indexed. */
  ghost predicate CrowdedOut(index: seq<Member>, id: string) {
    Sorted(index) && exists i :: 0 <= i < |index| - MAX_DEAD_LETTERS && index[i].id == id
  }

  lemma {:induction false} OverflowIsCrowded(index: seq<Member>, id: string)
    requires Sorted(index) && id in Overflow(index)
    ensures CrowdedOut(index, id)
  {
    hide Sorted;
    var ids := Overflow(index);
    var k :| 0 <= k < |ids| && ids[k] == id;
    assert index[..|index| - MAX_DEAD_LETTERS][k] == index[k];
  }

  /** No recorder is about to delete it. */
  ghost predicate NotHeld(s: Shared, id: string) {
    forall w :: w in s.trimming ==> id !in s.trimming[w]
  }

  ghost predicate Kept(s: Shared, e: Entry) {
    e.id in s.store.entries && s.store.entries[e.id] == Saved(e, e.failedAt + RETENTION_MS) && NotHeld(s, e.id)
  }

  /** The step neither discards the id, nor records under it, nor reads it among the overflow. */
  ghost predicate Spares(s: Shared, step: Step, id: string) {
    match step
    case Write(_, entry) => entry.id != id
    case ReadOverflow(_) => !CrowdedOut(s.store.index, id)
    case Trim(_) => true
    case Discard(gone) => gone != id
  }

  ghost predicate AllSpare(s: Shared, steps: seq<Step>, id: string)
    requires Runs(s, steps)
    decreases |steps|
  {
    steps == [] || (Spares(s, steps[0], id) && AllSpare(Next(s, steps[0]), steps[1..], id))
  }

  lemma {:induction false} SparedStays(s: Shared, e: Entry, steps: seq<Step>)
    requires Inv(s) && Kept(s, e) && Runs(s, steps) && AllSpare(s, steps, e.id)
    ensures Kept(After(s, steps), e)
    decreases |steps|
  {
    hide Inv, Kept, Spares, Next, Enabled;
    if steps != [] {
      StepKeeps(s, steps[0]);
      SparedOnce(s, e, steps[0]);
      SparedStays(Next(s, steps[0]), e, steps[1..]);
    }
  }

  lemma {:induction false} SparedOnce(s: Shared, e: Entry, step: Step)
    requires Inv(s) && Kept(s, e) && Enabled(s, step) && Spares(s, step, e.id)
    ensures Kept(Next(s, step), e)
  {
    hide Sorted, Remove, Overflow, RemoveScores, Add, CrowdedOut;
    if step.ReadOverflow? && e.id in Overflow(s.store.index) {
      ValidSorted(s.store, s.clock);
      OverflowIsCrowded(s.store.index, e.id);
    }
  }

  /** An id under which nothing was recorded is neither stored nor about to be deleted. */
  lemma {:induction false} UnwrittenIsUnheld(s: Shared, steps: seq<Step>, id: string)
    requires Inv(s) && Runs(s, steps) && id !in s.store.entries && NotHeld(s, id)
    requires forall step :: step in steps && step.Write? ==> step.entry.id != id
    ensures id !in After(s, steps).store.entries && NotHeld(After(s, steps), id)
    decreases |steps|
  {
    hide Inv, Next, Enabled, NotHeld;
    if steps != [] {
      StepKeeps(s, steps[0]);
      assert steps[0] in steps;
      UnwrittenOnce(s, steps[0], id);
      UnwrittenIsUnheld(Next(s, steps[0]), steps[1..], id);
    }
  }

  lemma {:induction false} UnwrittenOnce(s: Shared, step: Step, id: string)
    requires Inv(s) && Enabled(s, step) && id !in s.store.entries && NotHeld(s, id) && (step.Write? ==> step.entry.id != id)
    ensures id !in Next(s, step).store.entries && NotHeld(Next(s, step), id)
  {
    hide Sorted, Remove, Overflow, RemoveScores, Add;
    if step.ReadOverflow? && id in Overflow(s.store.index) {
      ValidSorted(s.store, s.clock);
      OverflowIsCrowded(s.store.index, id);
    }
  }

  /**
    However recorders interleave, an entry recorded for the first time under its id is live for the whole
    retention, unless it is discarded, recorded under again, or older than a thousand others when some recorder
    read the overflow.
   */
  lemma {:induction false} RecordedStaysLive(before: seq<Step>, w: nat, e: Entry, after: seq<Step>, now: int)
    requires Runs(Start(), before) && Enabled(After(Start(), before), Write(w, e))
    requires Runs(Next(After(Start(), before), Write(w, e)), after)
    requires forall step :: step in before && step.Write? ==> step.entry.id != e.id
    requires AllSpare(Next(After(Start(), before), Write(w, e)), after, e.id)
    requires now < e.failedAt + 30 * 86_400_000
    ensures Live(After(Next(After(Start(), before), Write(w, e)), after).store, e, now)
  {
    hide Inv, AllSpare, Runs, After, Spares;
    assert Inv(Start()) by { StartHolds(); }
    RunKeeps(Start(), before);
    UnwrittenIsUnheld(Start(), before, e.id);
    var s := After(Start(), before);
    StepKeeps(s, Write(w, e));
    SparedStays(Next(s, Write(w, e)), e, after);
  }

  // ---------------------------------------------------------------- the numbers, and who may step

  /** An entry is found for thirty days from its recording, and not after. */
  lemma KeptThirtyDays(s: Store, e: Entry, now: int)
    ensures Live(Indexed(s, e), e, now) <==> now < e.failedAt + 2_592_000_000
  {
    hide Add, RemoveScores;
  }

  /** What is read as overflow are the oldest members past a thousand. */
  lemma OverflowIs(index: seq<Member>)
    ensures |Overflow(index)| == if |index| > 1000 then |index| - 1000 else 0
    ensures forall i :: 0 <= i < |Overflow(index)| ==> Overflow(index)[i] == index[i].id
  {
  }

  /** Nobody is ever held up: a recorder may begin at any time, look and trim whenever it comes to it, and anyone may discard. */
  lemma {:induction false} RecorderPasses(s: Shared, w: nat, e: Entry, id: string)
    requires w !in s.adding && w !in s.trimming && s.clock <= e.failedAt
    ensures Enabled(s, Discard(id))
    ensures
      && Enabled(s, Write(w, e))
      && var t := Next(s, Write(w, e));
      && t.adding == s.adding + {w} && t.clock == e.failedAt && t.store == Indexed(s.store, e)
      && Enabled(t, ReadOverflow(w))
      && var u := Next(t, ReadOverflow(w));
      && u.adding == s.adding && u.store == t.store && u.latest == Some(w)
      && Enabled(u, Trim(w))
      && var v := Next(u, Trim(w));
      && v.trimming == s.trimming && v.adding == s.adding && v.store == Dropped(t.store, Overflow(t.store.index))
  {
    hide Indexed, Dropped, Overflow;
    var u := Next(Next(s, Write(w, e)), ReadOverflow(w));
    assert u.adding == s.adding;
    assert u.trimming - {w} == s.trimming;
  }

  lemma RunsCons(s: Shared, step: Step, rest: seq<Step>)
    requires Enabled(s, step) && Runs(Next(s, step), rest)
    ensures Runs(s, [step] + rest) && After(s, [step] + rest) == After(Next(s, step), rest)
    ensures Runs(s, []) && After(s, []) == s
  {
    hide Enabled, Next;
    assert ([step] + rest)[1..] == rest;
  }
}
