/**
 The cached on-chain signer list.  Times are milliseconds on one clock.  A refresh suspends its caller,
 so refreshes by age (one at a time) and forced refreshes (one at a time per key) overlap freely; the
 transition system below has one step for each stretch of code between two suspensions.
 */
module NodeListCache {
  import opened Collections

  const NODE_LIST_TTL := 30_000
  const MISS_REFRESH_MIN := 5_000

  type Key = string
  type Address = int
  type Addresses = seq<Address>

  datatype Entry = Entry(addrs: Addresses, fetchedAt: int, missRefreshAt: Option<int>)

  type Cache = map<Key, Entry>

  // ---- What each stretch of code does ----

  predicate IsWarm(cache: Cache, k: Key, now: int) {
    k in cache && now - cache[k].fetchedAt < NODE_LIST_TTL
  }

  /** Storing the chain's reply to a refresh by age; a failure leaves the cache alone. */
  function Refreshed(cache: Cache, k: Key, reply: Option<Addresses>, now: int): Cache {
    if reply.Some? then cache[k := Entry(reply.value, now, None)] else cache
  }

  /** What the caller of that refresh gets: the reply, else the stale list, else nothing. */
  function RefreshResult(cache: Cache, k: Key, reply: Option<Addresses>): Option<Addresses> {
    if reply.Some? then reply else if k in cache then Some(cache[k].addrs) else None
  }

  predicate Recent(t: int, now: int) { now - t < MISS_REFRESH_MIN }

  /** Under the miss lock: may the list be fetched again for a signer it lacks? */
  predicate MayForce(cache: Cache, k: Key, signer: Address, now: int) {
    k in cache ==>
      && signer !in cache[k].addrs
      && !Recent(cache[k].fetchedAt, now)
      && (cache[k].missRefreshAt.Some? ==> !Recent(cache[k].missRefreshAt.value, now))
  }

  /** Storing the outcome of a forced refresh; a failure only marks the entry. */
  function Forced(cache: Cache, k: Key, reply: Option<Addresses>, now: int): Cache {
    if reply.Some? then cache[k := Entry(reply.value, now, Some(now))]
    else if k in cache then cache[k := cache[k].(missRefreshAt := Some(now))]
    else cache
  }

  /** What another task does to the cache while a lookup is suspended. */
  datatype Change = ByAge(k: Key, reply: Option<Addresses>, at: int) | ByMiss(k: Key, reply: Option<Addresses>, at: int)

  function Changed(cache: Cache, ch: Change): Cache {
    if ch.ByAge? then Refreshed(cache, ch.k, ch.reply, ch.at) else Forced(cache, ch.k, ch.reply, ch.at)
  }

  function ChangedAll(cache: Cache, changes: seq<Change>): Cache {
    if changes == [] then cache else Changed(ChangedAll(cache, changes[..|changes| - 1]), changes[|changes| - 1])
  }

  // ---- The two lookups, with other tasks running at every suspension ----

  /** The chain returned `addrs` for `k`, received at `at`. */
  datatype Answer = Answer(k: Key, addrs: Addresses, at: int)

  ghost predicate IsAnswer(answers: set<Answer>, k: Key, l: Addresses) {
    exists at :: Answer(k, l, at) in answers
  }

  function Heard(answers: set<Answer>, k: Key, reply: Option<Addresses>, now: int): set<Answer> {
    if reply.Some? then answers + {Answer(k, reply.value, now)} else answers
  }

  /**
   The course of one lookup: `queued` happens while it waits for the refresh lock, `during` while the
   chain is asked; `reply`, received at `end`, is what the chain answers if it is asked.
   */
  datatype Course = Course(
    now: int, queued: seq<Change>, locked: int, during: seq<Change>, reply: Option<Addresses>, end: int)

  /** What a lookup leaves and returns: a warm list, the chain's reply, or the list the cache has by then. */
  ghost predicate LookedUp(before: Cache, k: Key, course: Course, after: Cache, r: Option<Addresses>) {
    var waited := ChangedAll(before, course.queued);
    var asked := ChangedAll(waited, course.during);
    if k in before && course.now - before[k].fetchedAt < 30_000 then after == before && r == Some(before[k].addrs)
    else if k in waited && course.locked - waited[k].fetchedAt < 30_000 then
      after == waited && r == Some(waited[k].addrs)
    else if course.reply.Some? then
      after == asked[k := Entry(course.reply.value, course.end, None)] && r == course.reply
    else after == asked && r == if k in asked then Some(asked[k].addrs) else None
  }

  /** A lookup that asks the chain ends as a refresh by age does. */
  lemma LookupRefreshes(before: Cache, k: Key, course: Course, after: Cache, r: Option<Addresses>)
    requires LookedUp(before, k, course, after, r) && !IsWarm(before, k, course.now)
    requires !IsWarm(ChangedAll(before, course.queued), k, course.locked)
    ensures
      var asked := ChangedAll(ChangedAll(before, course.queued), course.during);
      after == Refreshed(asked, k, course.reply, course.end) && r == RefreshResult(asked, k, course.reply)
  {
  }

  /** The chain may be asked again: the list lacks the signer, and no fetch or attempt is under five seconds old. */
  predicate MayAskAgain(e: Entry, signer: Address, now: int) {
    && signer !in e.addrs
    && now - e.fetchedAt >= 5_000
    && (e.missRefreshAt.Some? ==> now - e.missRefreshAt.value >= 5_000)
  }

  class NodeList {
    var cache: Cache
    /** Everything the chain ever returned. */
    ghost var answers: set<Answer>

    ghost predicate Valid()
      reads this
    {
      forall k :: k in cache ==> Answer(k, cache[k].addrs, cache[k].fetchedAt) in answers
    }

    constructor ()
      ensures cache == map[] && answers == {} && Valid()
    {
      cache := map[];
      answers := {};
    }

    method Interleave(changes: seq<Change>)
      requires Valid()
      modifies this
      ensures Valid() && cache == ChangedAll(old(cache), changes)
      ensures old(answers) <= answers && old(cache).Keys <= cache.Keys
    {
      for i := 0 to |changes|
        invariant Valid() && cache == ChangedAll(old(cache), changes[..i])
        invariant old(answers) <= answers && old(cache).Keys <= cache.Keys
      {
        assert changes[..i + 1][..i] == changes[..i];
        var ch := changes[i];
        if ch.ByAge? {
          cache := Refreshed(cache, ch.k, ch.reply, ch.at);
        } else {
          cache := Forced(cache, ch.k, ch.reply, ch.at);
        }
        answers := Heard(answers, ch.k, ch.reply, ch.at);
      }
      assert changes[..|changes|] == changes;
    }

    /**
     A warm list is served as it is, before or after the wait for the lock; otherwise the chain's reply
     is, else whatever list the cache has by then.  The result is always a list the chain returned for
     `k`, and it is missing only if the chain failed and there is no list.
     */
    method GetSignerAddresses(k: Key, course: Course) returns (r: Option<Addresses>)
      requires Valid()
      modifies this
      ensures Valid() && old(answers) <= answers && old(cache).Keys <= cache.Keys
      ensures r.Some? <==> k in cache
      ensures r.Some? ==> IsAnswer(answers, k, r.value) && r.value == cache[k].addrs
      ensures LookedUp(old(cache), k, course, cache, r)
    {
      if k in cache && course.now - cache[k].fetchedAt < NODE_LIST_TTL {
        return Some(cache[k].addrs);
      }
      Interleave(course.queued);
      if k in cache && course.locked - cache[k].fetchedAt < NODE_LIST_TTL {
        return Some(cache[k].addrs);
      }
      Interleave(course.during);
      match course.reply
      case Some(addrs) =>
        cache := cache[k := Entry(addrs, course.end, None)];
        answers := Heard(answers, k, course.reply, course.end);
        return Some(addrs);
      case None =>
        return if k in cache then Some(cache[k].addrs) else None;
    }

    /**
     The lookup that authorises `signer`; `waiting` happens while it waits for the miss lock, `during`
     while the chain is asked again.  `first` is what the plain lookup returned, leaving the cache as
     `looked`; `under` is the cache once the miss lock is held.  A list that names the signer, first or
     under the lock, is returned without asking again.  The chain is asked again exactly when the list
     under the lock may be refreshed, and then its reply is returned, or the first list if it fails.
     */
    method GetSignerAddressesFor(k: Key, signer: Address, course: Course, waiting: seq<Change>, locked: int,
                                 during: seq<Change>, second: Option<Addresses>, end: int)
      returns (r: Option<Addresses>, forced: bool,
               ghost first: Option<Addresses>, ghost looked: Cache, ghost under: Cache)
      requires Valid()
      modifies this
      ensures Valid() && old(answers) <= answers && old(cache).Keys <= cache.Keys
      ensures r.None? ==> k !in old(cache) && k !in cache
      ensures r.Some? ==> k in cache && IsAnswer(answers, k, r.value)
      ensures LookedUp(old(cache), k, course, looked, first)
      ensures first.None? || signer in first.value ==> !forced && r == first && cache == looked
      ensures forced ==> cache == Forced(ChangedAll(under, during), k, second, end)
      ensures first.Some? && signer !in first.value ==>
        && under == ChangedAll(looked, waiting) && k in under && forced == MayAskAgain(under[k], signer, locked)
        && (!forced ==> r == Some(under[k].addrs) && cache == under)
        && (forced ==>
              var asked := ChangedAll(under, during);
              && k in asked && r == (if second.Some? then second else first)
              && cache == asked[k := if second.Some? then Entry(second.value, end, Some(end))
                                     else Entry(asked[k].addrs, asked[k].fetchedAt, Some(end))])
    {
      forced := false;
      var list := GetSignerAddresses(k, course);
      first, looked, under := list, cache, cache;
      if list.None? || signer in list.value { return list, false, first, looked, under; }
      Interleave(waiting);
      under := cache;
      if !MayForce(cache, k, signer, locked) {
        return Some(cache[k].addrs), false, first, looked, under;
      }
      Interleave(during);
      match second
      case Some(addrs) =>
        cache := cache[k := Entry(addrs, end, Some(end))];
        answers := Heard(answers, k, second, end);
        return Some(addrs), true, first, looked, under;
      case None =>
        cache := cache[k := cache[k].(missRefreshAt := Some(end))];
        return list, true, first, looked, under;
    }
  }

  // ---- Every interleaving ----

  /** One forced refresh; no end while it is under way. */
  datatype Attempt = Attempt(k: Key, start: int, end: Option<int>)

  /**
   `refreshing` holds the refresh lock; `forcing[k]` is the index of the attempt that holds the miss lock
   of `k` and the list its caller had.  `answers`, `returned` and `attempts` record the run.
   */
  datatype State = State(now: int, cache: Cache, refreshing: Option<Key>, forcing: map<Key, Force>,
                         answers: set<Answer>, returned: set<(Key, Addresses)>, attempts: seq<Attempt>)

  datatype Force = Force(attempt: nat, held: Addresses)

  datatype Step =
    | Tick(t: int)
    | Hit(k: Key)
    | BeginRefresh(k: Key)
    | EndRefresh(reply: Option<Addresses>)
    | BeginForce(k: Key, signer: Address, held: Addresses)
    | RefuseForce(k: Key, signer: Address)
    | EndForce(k: Key, reply: Option<Addresses>)

  function Returning(returned: set<(Key, Addresses)>, k: Key, r: Option<Addresses>): set<(Key, Addresses)> {
    if r.Some? then returned + {(k, r.value)} else returned
  }

  predicate Enabled(s: State, step: Step) {
    match step
    case Tick(t) => s.now <= t
    case Hit(k) => IsWarm(s.cache, k, s.now)
    case BeginRefresh(k) => s.refreshing.None? && !IsWarm(s.cache, k, s.now)
    case EndRefresh(_) => s.refreshing.Some?
    case BeginForce(k, signer, held) =>
      (k, held) in s.returned && signer !in held && k !in s.forcing && MayForce(s.cache, k, signer, s.now)
    case RefuseForce(k, signer) => k in s.cache && k !in s.forcing && !MayForce(s.cache, k, signer, s.now)
    case EndForce(k, _) => k in s.forcing && s.forcing[k].attempt < |s.attempts|
  }

  function Take(s: State, step: Step): State
    requires Enabled(s, step)
  {
    match step
    case Tick(t) => s.(now := t)
    case Hit(k) => s.(returned := Returning(s.returned, k, Some(s.cache[k].addrs)))
    case BeginRefresh(k) => s.(refreshing := Some(k))
    case EndRefresh(reply) =>
      var k := s.refreshing.value;
      s.(refreshing := None,
         cache := Refreshed(s.cache, k, reply, s.now),
         answers := Heard(s.answers, k, reply, s.now),
         returned := Returning(s.returned, k, RefreshResult(s.cache, k, reply)))
    case BeginForce(k, signer, held) =>
      s.(forcing := s.forcing[k := Force(|s.attempts|, held)],
         attempts := s.attempts + [Attempt(k, s.now, None)])
    case RefuseForce(k, signer) => s.(returned := Returning(s.returned, k, Some(s.cache[k].addrs)))
    case EndForce(k, reply) =>
      var f := s.forcing[k];
      s.(forcing := s.forcing - {k},
         cache := Forced(s.cache, k, reply, s.now),
         answers := Heard(s.answers, k, reply, s.now),
         returned := Returning(s.returned, k, Some(if reply.Some? then reply.value else f.held)),
         attempts := s.attempts[f.attempt := s.attempts[f.attempt].(end := Some(s.now))])
  }

  function Start(now: int): State {
    State(now, map[], None, map[], {}, {}, [])
  }

  ghost predicate IsRun(run: seq<State>) {
    && |run| > 0 && run[0] == Start(run[0].now)
    && forall i :: 0 <= i < |run| - 1 ==> IsStep(run[i], run[i + 1])
  }

  ghost predicate IsStep(s: State, s': State) {
    exists step :: Enabled(s, step) && s' == Take(s, step)
  }

  // ---- The invariant ----

  /** Every list in the cache, and every list handed out, is one the chain returned for that key. */
  ghost predicate ListsAreAnswers(s: State) {
    && (forall k :: k in s.cache ==> Answer(k, s.cache[k].addrs, s.cache[k].fetchedAt) in s.answers)
    && (forall k, l :: (k, l) in s.returned ==> k in s.cache && IsAnswer(s.answers, k, l))
    && (forall k :: k in s.forcing ==> (k, s.forcing[k].held) in s.returned)
    && (forall a :: a in s.answers ==> a.at <= s.now)
  }

  /** The entry remembers, in its fetch time or its miss marker, that an attempt ended at `end`. */
  predicate Remembers(e: Entry, end: int) {
    end <= e.fetchedAt || (e.missRefreshAt.Some? && end <= e.missRefreshAt.value)
  }

  predicate AttemptOk(s: State, i: nat)
    requires i < |s.attempts|
  {
    var a := s.attempts[i];
    && a.start <= s.now
    && a.k in s.cache
    && (a.end.None? <==> a.k in s.forcing && s.forcing[a.k].attempt == i)
    && (a.end.Some? ==> a.start <= a.end.value <= s.now && Remembers(s.cache[a.k], a.end.value))
  }

  /** Attempt `j` on the key of an earlier attempt `i` starts well after `i` ended. */
  predicate WellApart(a: Attempt, b: Attempt) {
    a.k == b.k ==> a.end.Some? && a.end.value + 5_000 <= b.start
  }

  ghost predicate Spaced(attempts: seq<Attempt>) {
    forall i, j :: 0 <= i < j < |attempts| ==> WellApart(attempts[i], attempts[j])
  }

  ghost predicate Inv(s: State) {
    && ListsAreAnswers(s)
    && (forall i :: 0 <= i < |s.attempts| ==> AttemptOk(s, i))
    && (forall k :: k in s.forcing ==> s.forcing[k].attempt < |s.attempts| && s.attempts[s.forcing[k].attempt].k == k)
    && (forall k :: k in s.cache ==> s.cache[k].fetchedAt <= s.now)
    && Spaced(s.attempts)
  }

  lemma BeginForceKeepsInv(s: State, k: Key, signer: Address, held: Addresses)
    requires Inv(s) && Enabled(s, BeginForce(k, signer, held))
    ensures Inv(Take(s, BeginForce(k, signer, held)))
  {
    var s' := Take(s, BeginForce(k, signer, held));
    var n := |s.attempts|;
    assert k in s.cache;
    forall i | 0 <= i < |s'.attempts| ensures AttemptOk(s', i) {
      if i < n { assert AttemptOk(s, i); }
    }
    forall i, j | 0 <= i < j < |s'.attempts| ensures WellApart(s'.attempts[i], s'.attempts[j]) {
      if j < n {
        assert WellApart(s.attempts[i], s.attempts[j]);
      } else {
        assert AttemptOk(s, i);
      }
    }
  }

  lemma EndForceKeepsInv(s: State, k: Key, reply: Option<Addresses>)
    requires Inv(s) && Enabled(s, EndForce(k, reply))
    ensures Inv(Take(s, EndForce(k, reply)))
  {
    var s' := Take(s, EndForce(k, reply));
    var n := s.forcing[k].attempt;
    assert AttemptOk(s, n);
    forall i | 0 <= i < |s'.attempts| ensures AttemptOk(s', i) {
      assert AttemptOk(s, i);
    }
    forall i, j | 0 <= i < j < |s'.attempts| ensures WellApart(s'.attempts[i], s'.attempts[j]) {
      assert WellApart(s.attempts[i], s.attempts[j]);
    }
    EndForceKeepsLists(s, k, reply);
  }

  lemma EndForceKeepsLists(s: State, k: Key, reply: Option<Addresses>)
    requires Inv(s) && Enabled(s, EndForce(k, reply))
    ensures ListsAreAnswers(Take(s, EndForce(k, reply)))
  {
    var s' := Take(s, EndForce(k, reply));
    forall j, l | (j, l) in s'.returned ensures j in s'.cache && IsAnswer(s'.answers, j, l) {
      if (j, l) in s.returned {
        var at :| Answer(j, l, at) in s.answers;
        assert Answer(j, l, at) in s'.answers;
      } else {
        assert j == k && reply == Some(l) && Answer(k, l, s.now) in s'.answers;
      }
    }
  }

  lemma EndRefreshKeepsInv(s: State, reply: Option<Addresses>)
    requires Inv(s) && Enabled(s, EndRefresh(reply))
    ensures Inv(Take(s, EndRefresh(reply)))
  {
    var s' := Take(s, EndRefresh(reply));
    var k := s.refreshing.value;
    forall i | 0 <= i < |s'.attempts| ensures AttemptOk(s', i) {
      assert AttemptOk(s, i);
    }
    forall j, l | (j, l) in s'.returned ensures j in s'.cache && IsAnswer(s'.answers, j, l) {
      if (j, l) in s.returned {
        var at :| Answer(j, l, at) in s.answers;
        assert Answer(j, l, at) in s'.answers;
      } else if reply.Some? {
        assert Answer(k, l, s.now) in s'.answers;
      } else {
        assert Answer(k, l, s.cache[k].fetchedAt) in s'.answers;
      }
    }
  }

  lemma StepKeepsInv(s: State, step: Step)
    requires Inv(s) && Enabled(s, step)
    ensures Inv(Take(s, step))
  {
    match step
    case Tick(t) =>
      forall i | 0 <= i < |s.attempts| ensures AttemptOk(Take(s, step), i) {
        assert AttemptOk(s, i);
      }
    case Hit(k) => HandingOutKeepsInv(s, k);
    case BeginRefresh(k) =>
      forall i | 0 <= i < |s.attempts| ensures AttemptOk(Take(s, step), i) {
        assert AttemptOk(s, i);
      }
    case EndRefresh(reply) => EndRefreshKeepsInv(s, reply);
    case BeginForce(k, signer, held) => BeginForceKeepsInv(s, k, signer, held);
    case RefuseForce(k, signer) => HandingOutKeepsInv(s, k);
    case EndForce(k, reply) => EndForceKeepsInv(s, k, reply);
  }

  lemma HandingOutKeepsInv(s: State, k: Key)
    requires Inv(s) && k in s.cache
    ensures Inv(s.(returned := Returning(s.returned, k, Some(s.cache[k].addrs))))
  {
    var s' := s.(returned := Returning(s.returned, k, Some(s.cache[k].addrs)));
    assert Answer(k, s.cache[k].addrs, s.cache[k].fetchedAt) in s.answers;
    forall i | 0 <= i < |s.attempts| ensures AttemptOk(s', i) {
      assert AttemptOk(s, i);
    }
  }

  lemma {:induction false} RunKeepsInv(run: seq<State>)
    requires IsRun(run)
    ensures Inv(run[|run| - 1])
  {
    if |run| > 1 {
      var n := |run| - 1;
      RunKeepsInv(run[..n]);
      assert IsStep(run[n - 1], run[n - 1 + 1]);
      var step :| Enabled(run[n - 1], step) && run[n] == Take(run[n - 1], step);
      StepKeepsInv(run[n - 1], step);
    }
  }

  // ---- What holds of every run ----

  /**
   Forced refreshes of one key never overlap, and each starts at least the minimum interval after the
   one before ended: also when every fetch fails, and when a refresh by age wipes the marker in between.
   */
  lemma ForcedRefreshesAreSpaced(run: seq<State>, i: nat, j: nat)
    requires IsRun(run)
    requires var a := run[|run| - 1].attempts; i < j < |a| && a[i].k == a[j].k
    ensures
      var a := run[|run| - 1].attempts;
      a[i].end.Some? && a[i].end.value + 5_000 <= a[j].start
  {
    RunKeepsInv(run);
    assert WellApart(run[|run| - 1].attempts[i], run[|run| - 1].attempts[j]);
  }

  /** Every list handed out for a key is one the chain returned for that key, and the key stays cached. */
  lemma ReturnedListsAreChainAnswers(run: seq<State>, k: Key, l: Addresses)
    requires IsRun(run) && (k, l) in run[|run| - 1].returned
    ensures k in run[|run| - 1].cache && IsAnswer(run[|run| - 1].answers, k, l)
  {
    RunKeepsInv(run);
  }

  /** A list served without asking is one the chain returned less than the time to live ago. */
  lemma HitIsYoung(run: seq<State>, k: Key)
    requires IsRun(run) && Enabled(run[|run| - 1], Hit(k))
    ensures
      var s := run[|run| - 1];
      exists at :: Answer(k, s.cache[k].addrs, at) in s.answers && s.now - 30_000 < at <= s.now
  {
    RunKeepsInv(run);
    var s := run[|run| - 1];
    assert Answer(k, s.cache[k].addrs, s.cache[k].fetchedAt) in s.answers;
  }

  /**
   In every run a caller whose list lacks its signer, once it has the miss lock, starts an attempt exactly
   when the cached list may be refreshed for it, and is otherwise given the cached list.
   */
  lemma AttemptExactlyWhenMissing(run: seq<State>, k: Key, signer: Address, held: Addresses)
    requires IsRun(run)
    requires var s := run[|run| - 1]; (k, held) in s.returned && signer !in held && k !in s.forcing
    ensures
      var s := run[|run| - 1];
      && k in s.cache
      && (Enabled(s, BeginForce(k, signer, held)) <==> MayAskAgain(s.cache[k], signer, s.now))
      && (Enabled(s, RefuseForce(k, signer)) <==> !MayAskAgain(s.cache[k], signer, s.now))
      && (Enabled(s, RefuseForce(k, signer)) ==> (k, s.cache[k].addrs) in Take(s, RefuseForce(k, signer)).returned)
  {
    RunKeepsInv(run);
  }

  /** A list under thirty seconds old is handed out, and the chain is asked by age only for want of one. */
  lemma AskedExactlyWhenOld(s: State, k: Key)
    ensures
      var young := k in s.cache && s.now - s.cache[k].fetchedAt < 30_000;
      && (Enabled(s, Hit(k)) <==> young) && (Enabled(s, BeginRefresh(k)) <==> s.refreshing.None? && !young)
      && (young ==> (k, s.cache[k].addrs) in Take(s, Hit(k)).returned)
  {
  }

  /** A finished attempt hands out the chain's list, or the one its caller had, and leaves its mark. */
  lemma AttemptEnds(run: seq<State>, k: Key, reply: Option<Addresses>)
    requires IsRun(run) && Enabled(run[|run| - 1], EndForce(k, reply))
    ensures
      var s := run[|run| - 1];
      var after := Take(s, EndForce(k, reply));
      && k in s.cache && after.cache.Keys == s.cache.Keys && k !in after.forcing
      && after.cache[k].missRefreshAt == Some(s.now)
      && (reply.Some? ==> after.cache[k].addrs == reply.value && after.cache[k].fetchedAt == s.now)
      && (reply.None? ==> after.cache[k].addrs == s.cache[k].addrs && after.cache[k].fetchedAt == s.cache[k].fetchedAt)
      && (k, if reply.Some? then reply.value else s.forcing[k].held) in after.returned
      && after.attempts[s.forcing[k].attempt] == Attempt(k, s.attempts[s.forcing[k].attempt].start, Some(s.now))
  {
    RunKeepsInv(run);
    assert AttemptOk(run[|run| - 1], run[|run| - 1].forcing[k].attempt);
  }

  /** A finished refresh by age hands out the chain's list, else the cached one, and clears the mark. */
  lemma RefreshEnds(s: State, reply: Option<Addresses>)
    requires Enabled(s, EndRefresh(reply))
    ensures
      var k, after := s.refreshing.value, Take(s, EndRefresh(reply));
      && after.refreshing.None?
      && (reply.Some? ==> k in after.cache && after.cache[k] == Entry(reply.value, s.now, None))
      && (reply.Some? ==> (k, reply.value) in after.returned)
      && (reply.None? ==> after.cache == s.cache && (k in s.cache ==> (k, s.cache[k].addrs) in after.returned))
  {
  }
}
