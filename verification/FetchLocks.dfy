/**
 The verdict gate's fetch locks, for one key, with a step for each stretch of code between two waits.  A
 request takes the lock that the lock map has for its key, or a new one; a request that fetched drops the
 map's entry before it lets go of the lock, whoever else still waits for it.  Does one fetch at a time
 follow?
 */
module FetchLocks {
  import opened Collections
  import opened VerdictCache

  /**
   A request looks for its lock, waits for it, looks at the cache again under it, fetches, waits to write
   the answer that came in at `stamp`, and waits to drop the map's entry.
   */
  datatype Phase =
    | Seeking
    | Waiting(lock: nat)
    | Rechecking(lock: nat)
    | Fetching(lock: nat)
    | Writing(lock: nat, answer: Answer, stamp: int)
    | Dropping(lock: nat)

  /**
   The cache decides on `key` until `lapses`; `entry` is the lock in the map, and locks from `next` on are
   unused.  `log` lists the answers committed.
   */
  datatype State = State(
    key: Key, now: int, lapses: int, entry: Option<nat>, next: nat, requests: map<int, Phase>, log: seq<Event>)

  datatype Step =
    | Tick(t: int)
    | Arrive(r: int)
    | Enlist(r: int)
    | Acquire(r: int)
    | Recheck(r: int)
    | Receive(r: int, answer: Answer)
    | Store(r: int, lapses: int)
    | Drop(r: int)

  predicate Holds(ph: Phase, lock: nat) {
    !ph.Seeking? && !ph.Waiting? && ph.lock == lock
  }

  ghost predicate IsHeld(s: State, lock: nat) {
    exists r :: r in s.requests && Holds(s.requests[r], lock)
  }

  predicate Standing(s: State) { s.now < s.lapses }

  ghost predicate Enabled(s: State, step: Step) {
    match step
    case Tick(t) => s.now <= t
    case Arrive(r) => r !in s.requests
    case Enlist(r) => r in s.requests && s.requests[r].Seeking?
    case Acquire(r) => r in s.requests && s.requests[r].Waiting? && !IsHeld(s, s.requests[r].lock)
    case Recheck(r) => r in s.requests && s.requests[r].Rechecking?
    case Receive(r, _) => r in s.requests && s.requests[r].Fetching?
    case Store(r, _) => r in s.requests && s.requests[r].Writing?
    case Drop(r) => r in s.requests && s.requests[r].Dropping?
  }

  function Take(s: State, step: Step): State
    requires step.Tick? || step.Arrive? || step.r in s.requests
    requires step.Acquire? || step.Recheck? || step.Receive? || step.Store? ==> !s.requests[step.r].Seeking?
    requires step.Store? ==> s.requests[step.r].Writing?
  {
    match step
    case Tick(t) => s.(now := t)
    case Arrive(r) => if Standing(s) then s else s.(requests := s.requests[r := Seeking])
    case Enlist(r) =>
      if s.entry.Some? then s.(requests := s.requests[r := Waiting(s.entry.value)])
      else s.(entry := Some(s.next), next := s.next + 1, requests := s.requests[r := Waiting(s.next)])
    case Acquire(r) => s.(requests := s.requests[r := Rechecking(s.requests[r].lock)])
    case Recheck(r) =>
      if Standing(s) then s.(requests := s.requests - {r})
      else s.(requests := s.requests[r := Fetching(s.requests[r].lock)])
    case Receive(r, answer) => s.(requests := s.requests[r := Writing(s.requests[r].lock, answer, s.now)])
    case Store(r, lapses) =>
      var ph := s.requests[r];
      s.(lapses := lapses, requests := s.requests[r := Dropping(ph.lock)],
         log := s.log + [Commit(s.key, s.now, ph.answer, ph.stamp)])
    case Drop(r) => s.(entry := None, requests := s.requests - {r})
  }

  function Start(key: Key, now: int): State { State(key, now, now, None, 0, map[], []) }

  predicate InFlight(ph: Phase) { ph.Fetching? || ph.Writing? }

  /** At most one request is between asking the verifier and storing its answer. */
  predicate SingleFlight(s: State) {
    forall r, q :: r in s.requests && q in s.requests && InFlight(s.requests[r]) && InFlight(s.requests[q]) ==> r == q
  }

  ghost predicate StepAt(states: seq<State>, steps: seq<Step>, k: int)
    requires |states| == |steps| + 1 && 0 <= k < |steps|
  {
    Enabled(states[k], steps[k]) && states[k + 1] == Take(states[k], steps[k])
  }

  ghost predicate IsPath(states: seq<State>, steps: seq<Step>) {
    |states| == |steps| + 1 && forall k :: 0 <= k < |steps| ==> StepAt(states, steps, k)
  }

  ghost predicate IsRun(states: seq<State>, steps: seq<Step>) {
    IsPath(states, steps) && states[0] == Start(states[0].key, states[0].now)
  }

  // ---- The condition ----

  /** The request is at the lock in the map, or has no lock yet. */
  predicate AtMapLock(s: State, ph: Phase) {
    ph.Seeking? || (!ph.Dropping? && s.entry == Some(ph.lock))
  }

  /** Nobody is about to drop the map's entry, and nobody is at a lock that was dropped. */
  predicate Clear(s: State) {
    forall r :: r in s.requests ==> AtMapLock(s, s.requests[r])
  }

  /** With this step the stored decision lapses, or is stored when it has lapsed already. */
  predicate Lapses(s: State, step: Step)
    requires step.Tick? || (step.Store? && step.r in s.requests && s.requests[step.r].Writing?)
  {
    !Standing(Take(s, step)) && (step.Store? || Standing(s))
  }

  ghost predicate Settles(s: State, step: Step)
    requires Enabled(s, step)
  {
    (step.Tick? || step.Store?) && Lapses(s, step) ==> Clear(Take(s, step))
  }

  /** While a decision stands nobody joins the requests, and nobody starts to fetch. */
  lemma {:induction false} StandingDecisionIsServed(states: seq<State>, steps: seq<Step>)
    requires IsPath(states, steps) && forall k :: 0 <= k < |states| ==> Standing(states[k])
    ensures
      var first, last := states[0], states[|states| - 1];
      && last.requests.Keys <= first.requests.Keys
      && forall r :: r in last.requests && last.requests[r].Fetching? ==> first.requests[r].Fetching?
  {
    if steps != [] {
      var n := |steps| - 1;
      var before := states[..n + 1];
      forall k | 0 <= k < n ensures StepAt(before, steps[..n], k) {
        assert StepAt(states, steps, k);
      }
      StandingDecisionIsServed(before, steps[..n]);
      assert StepAt(states, steps, n);
      assert before[|before| - 1] == states[n] && Standing(states[n]);
    }
  }

  // ---- Settled runs ----

  ghost predicate Exclusive(s: State) {
    forall r, q, lock: nat ::
      r in s.requests && q in s.requests && Holds(s.requests[r], lock) && Holds(s.requests[q], lock) ==> r == q
  }

  predicate LocksOk(s: State) {
    && (s.entry.Some? ==> s.entry.value < s.next)
    && forall r :: r in s.requests && !s.requests[r].Seeking? ==> s.requests[r].lock < s.next
  }

  /** Nobody fetches, and at most one request is about to drop the entry. */
  predicate Calm(s: State) {
    && (forall r :: r in s.requests ==> !InFlight(s.requests[r]))
    && (forall r, q ::
          r in s.requests && q in s.requests && s.requests[r].Dropping? && s.requests[q].Dropping? ==> r == q)
  }

  ghost predicate LocksInv(s: State) {
    Exclusive(s) && LocksOk(s) && (Standing(s) ==> Calm(s)) && (!Standing(s) ==> Clear(s))
  }

  lemma LocksGiveSingleFlight(s: State)
    requires LocksInv(s)
    ensures SingleFlight(s)
  {
    forall r, q | r in s.requests && q in s.requests && InFlight(s.requests[r]) && InFlight(s.requests[q])
      ensures r == q
    {
      assert s.requests[r].lock == s.requests[q].lock;
      assert Holds(s.requests[r], s.requests[r].lock) && Holds(s.requests[q], s.requests[r].lock);
    }
  }

  lemma StepKeepsLocks(s: State, step: Step)
    requires LocksInv(s) && Enabled(s, step) && Settles(s, step)
    ensures LocksInv(Take(s, step))
  {
    match step
    case Tick(t) =>
    case Arrive(r) =>
    case Enlist(r) =>
    case Acquire(r) => AcquireKeepsLocks(s, r);
    case Recheck(r) => RecheckKeepsLocks(s, r);
    case Receive(r, answer) => ReceiveKeepsLocks(s, r, answer);
    case Store(r, lapses) => StoreKeepsLocks(s, r, lapses);
    case Drop(r) =>
  }

  lemma AcquireKeepsLocks(s: State, r: int)
    requires LocksInv(s) && Enabled(s, Acquire(r))
    ensures LocksInv(Take(s, Acquire(r)))
  {
    var l := s.requests[r].lock;
    assert forall q :: q in s.requests ==> !Holds(s.requests[q], l);
  }

  /** The holder goes on to another phase, holding the same lock. */
  lemma HolderMovesOn(s: State, s': State, r: int, ph: Phase)
    requires Exclusive(s) && LocksOk(s) && r in s.requests && s'.requests == s.requests[r := ph]
    requires !ph.Seeking? && Holds(s.requests[r], ph.lock) && s'.next == s.next && s'.entry == s.entry
    ensures Exclusive(s') && LocksOk(s')
  {
    forall a, b, lock: nat
      | a in s'.requests && b in s'.requests && Holds(s'.requests[a], lock) && Holds(s'.requests[b], lock)
      ensures a == b
    {
      assert Holds(s.requests[a], lock) && Holds(s.requests[b], lock);
    }
  }

  lemma RecheckKeepsLocks(s: State, r: int)
    requires LocksInv(s) && Enabled(s, Recheck(r))
    ensures LocksInv(Take(s, Recheck(r)))
  {
    if !Standing(s) {
      HolderMovesOn(s, Take(s, Recheck(r)), r, Fetching(s.requests[r].lock));
    }
  }

  lemma ReceiveKeepsLocks(s: State, r: int, answer: Answer)
    requires LocksInv(s) && Enabled(s, Receive(r, answer))
    ensures LocksInv(Take(s, Receive(r, answer)))
  {
    HolderMovesOn(s, Take(s, Receive(r, answer)), r, Writing(s.requests[r].lock, answer, s.now));
  }

  lemma StoreKeepsLocks(s: State, r: int, lapses: int)
    requires LocksInv(s) && Enabled(s, Store(r, lapses)) && Settles(s, Store(r, lapses))
    ensures LocksInv(Take(s, Store(r, lapses))) && Standing(Take(s, Store(r, lapses)))
  {
    var s' := Take(s, Store(r, lapses));
    HolderMovesOn(s, s', r, Dropping(s.requests[r].lock));
    LocksGiveSingleFlight(s);
    assert s'.requests[r].Dropping? && !AtMapLock(s', s'.requests[r]);
    assert !Standing(s) && Clear(s);
    assert forall q :: q in s.requests && q != r ==> !InFlight(s.requests[q]) && !s.requests[q].Dropping?;
  }

  // ---- The log of a settled run ----

  /** Commits are timely and do not overlap, and an answer not yet stored came in after all of them. */
  ghost predicate LogOk(s: State) {
    && Timely(s.log) && Serial(s.log, s.key)
    && (forall i :: 0 <= i < |s.log| ==> IsCommit(s.log[i], s.key) && s.log[i].t <= s.now)
    && (forall r, i ::
          r in s.requests && s.requests[r].Writing? && 0 <= i < |s.log| ==> s.log[i].t <= s.requests[r].stamp)
    && (forall r :: r in s.requests && s.requests[r].Writing? ==> s.requests[r].stamp <= s.now)
  }

  lemma LogGrows(log: seq<Event>, k: Key, ev: Event)
    requires Timely(log) && Serial(log, k) && IsCommit(ev, k) && ev.stamp <= ev.t
    requires forall i :: 0 <= i < |log| ==> log[i].t <= ev.stamp
    ensures Timely(log + [ev]) && Serial(log + [ev], k)
  {
    var g := log + [ev];
    forall j | 0 <= j < |g| ensures SerialAt(g, k, j) {
      if j < |log| { assert SerialAt(log, k, j); }
    }
  }

  lemma StepKeepsLog(s: State, step: Step)
    requires LocksInv(s) && LogOk(s) && Enabled(s, step) && Settles(s, step)
    ensures LogOk(Take(s, step)) && Take(s, step).key == s.key
  {
    if step.Store? {
      var ph := s.requests[step.r];
      LogGrows(s.log, s.key, Commit(s.key, s.now, ph.answer, ph.stamp));
      LocksGiveSingleFlight(s);
    }
  }

  /**
   In every run in which, whenever the stored decision lapses, nobody is about to drop the map's entry and
   nobody is at a dropped lock, no two requests for the key fetch at once, and answers are committed in
   the order in which they came in.
   */
  lemma {:induction false} SettledRunsAreSingleFlight(states: seq<State>, steps: seq<Step>, k: nat)
    requires IsRun(states, steps) && k < |states|
    requires forall l :: 0 <= l < |steps| ==> StepAt(states, steps, l) && Settles(states[l], steps[l])
    ensures LocksInv(states[k]) && LogOk(states[k]) && SingleFlight(states[k]) && states[k].key == states[0].key
  {
    if k > 0 {
      SettledRunsAreSingleFlight(states, steps, k - 1);
      assert StepAt(states, steps, k - 1) && Settles(states[k - 1], steps[k - 1]);
      StepKeepsLocks(states[k - 1], steps[k - 1]);
      StepKeepsLog(states[k - 1], steps[k - 1]);
    }
    LocksGiveSingleFlight(states[k]);
  }

  // ---- The condition is exact ----

  predicate NoStore(steps: seq<Step>) {
    forall k :: 0 <= k < |steps| ==> !steps[k].Store?
  }

  /** Whatever happens from `s` on, until an answer is stored, one request at a time fetches. */
  ghost predicate SafeFrom(s: State) {
    forall states, steps ::
      IsPath(states, steps) && states[0] == s && NoStore(steps) ==> SingleFlight(states[|steps|])
  }

  lemma {:induction false} ClearPath(states: seq<State>, steps: seq<Step>, k: nat)
    requires IsPath(states, steps) && NoStore(steps) && k < |states|
    requires LocksInv(states[0]) && !Standing(states[0])
    ensures LocksInv(states[k]) && !Standing(states[k])
  {
    if k > 0 {
      ClearPath(states, steps, k - 1);
      assert StepAt(states, steps, k - 1) && !steps[k - 1].Store?;
      StepKeepsLocks(states[k - 1], steps[k - 1]);
    }
  }

  /** A path without a commit leads from `s` to `s'`. */
  ghost predicate Leads(s: State, s': State) {
    exists states, steps :: IsPath(states, steps) && NoStore(steps) && states[0] == s && states[|steps|] == s'
  }

  lemma LeadsHere(s: State)
    ensures Leads(s, s)
  {
    var steps: seq<Step> := [];
    assert IsPath([s], steps) && [s][|steps|] == s;
  }

  lemma LeadsOn(s: State, s1: State, step: Step) returns (s2: State)
    requires Leads(s, s1) && Enabled(s1, step) && !step.Store?
    ensures s2 == Take(s1, step) && Leads(s, s2)
  {
    s2 := Take(s1, step);
    var states, steps :| IsPath(states, steps) && NoStore(steps) && states[0] == s && states[|steps|] == s1;
    var states', steps' := states + [s2], steps + [step];
    forall k | 0 <= k < |steps'| ensures StepAt(states', steps', k) {
      if k < |steps| { assert StepAt(states, steps, k); }
    }
    assert IsPath(states', steps') && NoStore(steps') && states'[|steps'|] == s2;
  }

  lemma {:induction false} AboveAll(s: set<int>) returns (m: int)
    ensures forall x :: x in s ==> x < m
  {
    EmptyOrInhabited(s);
    if s == {} {
      m := 0;
    } else {
      var x :| x in s;
      var rest := AboveAll(s - {x});
      m := if x < rest then rest else x + 1;
      forall y | y in s ensures y < m {
        assert y == x || y in s - {x};
      }
    }
  }

  /** A newcomer takes the lock in the map, or a new one. */
  lemma Newcomer(s0: State, s: State) returns (s': State, q: int, lock: nat)
    requires Leads(s0, s) && !Standing(s) && LocksOk(s)
    ensures Leads(s0, s') && !Standing(s') && LocksOk(s') && q !in s.requests
    ensures s'.requests == s.requests[q := Waiting(lock)] && s'.entry == Some(lock)
    ensures if s.entry.Some? then s.entry == Some(lock) else lock == s.next
  {
    q := AboveAll(s.requests.Keys);
    lock := if s.entry.Some? then s.entry.value else s.next;
    s' := LeadsOn(s0, s, Arrive(q));
    s' := LeadsOn(s0, s', Enlist(q));
    assert s'.requests == s.requests[q := Waiting(lock)];
  }

  /** Whoever is at `lock`, waiting or looking at the cache again, goes on to fetch. */
  lemma FetchAt(s0: State, s: State, lock: nat, r: int) returns (s': State, q: int)
    requires Leads(s0, s) && !Standing(s) && r in s.requests && s.requests[r] in {Waiting(lock), Rechecking(lock)}
    requires forall x :: x in s.requests && Holds(s.requests[x], lock) ==> s.requests[x].Rechecking?
    ensures Leads(s0, s') && !Standing(s') && q in s.requests && s.requests[q] in {Waiting(lock), Rechecking(lock)}
    ensures s' == s.(requests := s.requests[q := Fetching(lock)])
  {
    if x :| x in s.requests && s.requests[x] == Rechecking(lock) {
      q := x;
      s' := LeadsOn(s0, s, Recheck(q));
    } else {
      q := r;
      assert forall x :: x in s.requests ==> !Holds(s.requests[x], lock);
      s' := LeadsOn(s0, s, Acquire(q));
      s' := LeadsOn(s0, s', Recheck(q));
      assert s'.requests == s.requests[q := Fetching(lock)];
    }
  }

  /** A request at a lock that is not the map's, and a newcomer, fetch at once. */
  lemma StrayBreaks(s0: State, s: State, r: int) returns (bad: State)
    requires Leads(s0, s) && !Standing(s) && LocksOk(s)
    requires forall x :: x in s.requests ==> !InFlight(s.requests[x]) && !s.requests[x].Dropping?
    requires r in s.requests && (s.requests[r].Waiting? || s.requests[r].Rechecking?)
    requires s.entry != Some(s.requests[r].lock)
    ensures Leads(s0, bad) && !SingleFlight(bad)
  {
    var lock := s.requests[r].lock;
    var s1, q1 := FetchAt(s0, s, lock, r);
    var s2, q, lock2 := Newcomer(s0, s1);
    assert lock2 != lock;
    assert forall x :: x in s2.requests && x != q1 ==> !InFlight(s2.requests[x]) && !s2.requests[x].Dropping?;
    var s3, q2 := FetchAt(s0, s2, lock2, q);
    bad := s3;
    assert q1 != q2 && InFlight(bad.requests[q1]) && InFlight(bad.requests[q2]);
  }

  /** If someone is about to drop the entry, a newcomer is left at the dropped lock. */
  lemma DropperBreaks(s0: State, s: State, d: int) returns (bad: State)
    requires Leads(s0, s) && !Standing(s) && LocksOk(s) && Calm(s) && d in s.requests && s.requests[d].Dropping?
    ensures Leads(s0, bad) && !SingleFlight(bad)
  {
    var s1, q, lock := Newcomer(s0, s);
    var s2 := LeadsOn(s0, s1, Drop(d));
    assert s2.requests == s.requests[q := Waiting(lock)] - {d} && s2.entry == None;
    assert forall x :: x in s2.requests ==> !InFlight(s2.requests[x]) && !s2.requests[x].Dropping?;
    bad := StrayBreaks(s0, s2, q);
  }

  /** When a decision lapses nobody fetches. */
  lemma LapseIsCalm(s: State, step: Step)
    requires LocksInv(s) && Enabled(s, step) && (step.Tick? || step.Store?) && Lapses(s, step)
    ensures Exclusive(Take(s, step)) && LocksOk(Take(s, step)) && Calm(Take(s, step))
  {
    if step.Store? {
      LocksGiveSingleFlight(s);
      HolderMovesOn(s, Take(s, step), step.r, Dropping(s.requests[step.r].lock));
      assert !Standing(s) && Clear(s);
      assert forall q :: q in s.requests && q != step.r ==> !InFlight(s.requests[q]) && !s.requests[q].Dropping?;
    }
  }

  /**
   The exact condition.  When a stored decision lapses, fetches stay single, until the next answer is
   stored, if and only if nobody is about to drop the map's entry and nobody is at a dropped lock.
   */
  lemma LapseIsSafeExactlyWhen(s: State, step: Step)
    requires LocksInv(s) && Enabled(s, step) && (step.Tick? || step.Store?) && Lapses(s, step)
    ensures Clear(Take(s, step)) <==> SafeFrom(Take(s, step))
  {
    var s' := Take(s, step);
    LapseIsCalm(s, step);
    if Clear(s') {
      forall states, steps | IsPath(states, steps) && states[0] == s' && NoStore(steps)
        ensures SingleFlight(states[|steps|])
      {
        ClearPath(states, steps, |steps|);
        LocksGiveSingleFlight(states[|steps|]);
      }
    } else {
      var r :| r in s'.requests && !AtMapLock(s', s'.requests[r]);
      LeadsHere(s');
      var bad := BadFrom(s', r);
      var states, steps :| IsPath(states, steps) && NoStore(steps) && states[0] == s' && states[|steps|] == bad;
    }
  }

  lemma BadFrom(s: State, r: int) returns (bad: State)
    requires !Standing(s) && LocksOk(s) && Calm(s) && Leads(s, s)
    requires r in s.requests && !AtMapLock(s, s.requests[r])
    ensures Leads(s, bad) && !SingleFlight(bad)
  {
    if d :| d in s.requests && s.requests[d].Dropping? {
      bad := DropperBreaks(s, s, d);
    } else {
      bad := StrayBreaks(s, s, r);
    }
  }

  // ---- Two runs in which two requests fetch at once ----

  /** The stored decision stands exactly as long as the gate's cache decides on the key. */
  predicate IsTied(s: State) {
    Standing(s) <==> CachedDecision(CacheAfter(s.log), s.key, s.now).Some?
  }

  /** Some run reaches `s`, with every state tied to the gate. */
  ghost predicate Reached(s: State) {
    exists states, steps :: IsRun(states, steps) && states[|steps|] == s && AllTied(states)
  }

  predicate AllTied(states: seq<State>) {
    forall k :: 0 <= k < |states| ==> IsTied(states[k])
  }

  lemma Begin(key: Key) returns (s: State)
    ensures s == Start(key, 0) && Reached(s)
  {
    s := Start(key, 0);
    var steps: seq<Step> := [];
    assert IsRun([s], steps) && [s][|steps|] == s && AllTied([s]);
  }

  lemma Go(s: State, step: Step) returns (s': State)
    requires Reached(s) && Enabled(s, step) && IsTied(Take(s, step))
    ensures s' == Take(s, step) && Reached(s')
  {
    s' := Take(s, step);
    var states, steps :| IsRun(states, steps) && states[|steps|] == s && AllTied(states);
    var states', steps' := states + [s'], steps + [step];
    forall k | 0 <= k < |steps'| ensures StepAt(states', steps', k) {
      if k < |steps| { assert StepAt(states, steps, k); }
    }
    assert IsRun(states', steps') && states'[|steps'|] == s' && AllTied(states');
  }

  /** A step that neither passes time nor stores an answer. */
  lemma GoOn(s: State, step: Step) returns (s': State)
    requires Reached(s) && Enabled(s, step) && !step.Tick? && !step.Store?
    ensures s' == Take(s, step) && Reached(s')
  {
    var states, steps :| IsRun(states, steps) && states[|steps|] == s && AllTied(states);
    assert IsTied(states[|steps|]);
    s' := Go(s, step);
  }

  /** After the commit, the gate decides on `key` exactly until `lapses`. */
  ghost predicate DecidesUntil(log: seq<Event>, key: Key, lapses: int) {
    forall t :: CachedDecision(CacheAfter(log), key, t).Some? <==> t < lapses
  }

  lemma GoTick(s: State, t: int) returns (s': State)
    requires Reached(s) && s.now <= t && DecidesUntil(s.log, s.key, s.lapses)
    ensures s' == s.(now := t) && Reached(s')
  {
    s' := Go(s, Tick(t));
  }

  lemma GoStore(s: State, r: int, lapses: int) returns (s': State)
    requires Reached(s) && Enabled(s, Store(r, lapses))
    requires DecidesUntil(Take(s, Store(r, lapses)).log, s.key, lapses)
    ensures s' == Take(s, Store(r, lapses)) && Reached(s')
  {
    s' := Go(s, Store(r, lapses));
  }

  /** How long the gate repeats each of the answers of the runs below. */
  lemma {:induction false} VerdictDecides(log: seq<Event>, k: Key, now: int, verified: bool, stamp: int)
    ensures DecidesUntil(log + [Commit(k, now, Verdict(verified, ""), stamp)], k,
                         stamp + if verified then POSITIVE_REFRESH else NEGATIVE_TTL)
  {
    CacheSnoc(log, Commit(k, now, Verdict(verified, ""), stamp));
  }

  lemma {:induction false} FirstUnknownDecides(k: Key)
    ensures DecidesUntil([Commit(k, 0, Unknown, 0)], k, SCAN_LAG_DAMP)
  {
    var ev := Commit(k, 0, Unknown, 0);
    CacheSnoc([], ev);
    assert [] + [ev] == [ev] && CacheAfter([]) == map[];
  }

  /** Request `r` arrives, with the state's requests and lock map as given, and waits at `lock`. */
  lemma Queue(s: State, r: int, lock: nat) returns (s': State)
    requires Reached(s) && r !in s.requests && !Standing(s)
    requires if s.entry.Some? then s.entry == Some(lock) else s.next == lock
    ensures Reached(s') && s'.requests == s.requests[r := Waiting(lock)] && s'.entry == Some(lock)
    ensures s' == s.(requests := s'.requests, entry := Some(lock), next := s'.next)
    ensures s'.next == if s.entry.Some? then s.next else s.next + 1
  {
    s' := GoOn(s, Arrive(r));
    s' := GoOn(s', Enlist(r));
    assert s'.requests == s.requests[r := Waiting(lock)];
  }

  /** Request `r` gets its lock, which nobody holds, and fetches. */
  lemma FetchNow(s: State, r: int, lock: nat) returns (s': State)
    requires Reached(s) && r in s.requests && s.requests[r] == Waiting(lock) && !Standing(s)
    requires forall q :: q in s.requests ==> !Holds(s.requests[q], lock)
    ensures Reached(s') && s' == s.(requests := s.requests[r := Fetching(lock)])
  {
    s' := GoOn(s, Acquire(r));
    s' := GoOn(s', Recheck(r));
    assert s'.requests == s.requests[r := Fetching(lock)];
  }

  /** The first request has stored an unknown answer, damped for three seconds; the second waits for its lock. */
  lemma FirstStored(key: Key) returns (s: State)
    ensures Reached(s)
    ensures s == State(key, 0, 3000, Some(0), 1, map[1 := Dropping(0), 2 := Waiting(0)], [Commit(key, 0, Unknown, 0)])
  {
    s := Begin(key);
    s := Queue(s, 1, 0);
    s := FetchNow(s, 1, 0);
    s := Queue(s, 2, 0);
    s := GoOn(s, Receive(1, Unknown));
    FirstUnknownDecides(key);
    assert s.log + [Commit(key, 0, Unknown, 0)] == [Commit(key, 0, Unknown, 0)];
    s := GoStore(s, 1, 3000);
    assert s.requests == map[1 := Dropping(0), 2 := Waiting(0)];
  }

  /** Requests 2 and 3 fetch at once, under different locks. */
  function Doubled(key: Key): State {
    State(key, 3000, 3000, Some(1), 2, map[2 := Fetching(0), 3 := Fetching(1)], [Commit(key, 0, Unknown, 0)])
  }

  lemma BothFetch(s: State) returns (s': State)
    requires Reached(s) && s.requests == map[2 := Waiting(0)] && s.entry == None && s.next == 1
    requires s.now == 3000 && s.lapses == 3000 && s.log == [Commit(s.key, 0, Unknown, 0)]
    ensures Reached(s') && s' == Doubled(s.key) && !SingleFlight(s')
  {
    s' := FetchNow(s, 2, 0);
    s' := Queue(s', 3, 1);
    s' := FetchNow(s', 3, 1);
    assert s'.requests == map[2 := Fetching(0), 3 := Fetching(1)];
    assert InFlight(s'.requests[2]) && InFlight(s'.requests[3]);
  }

  /**
   The first request drops the map's entry, the decision lapses before the second, waiting, gets its lock,
   and the third is given a new lock.  At every state the decision stands exactly as long as the gate's
   cache decides.
   */
  lemma LateWaiterFetchesAlongside(key: Key) returns (s: State)
    ensures Reached(s) && s == Doubled(key) && !SingleFlight(s)
  {
    s := FirstStored(key);
    s := GoOn(s, Drop(1));
    FirstUnknownDecides(key);
    s := GoTick(s, 3000);
    assert s.requests == map[2 := Waiting(0)];
    s := BothFetch(s);
  }

  /** The same when the decision lapses while the first request still waits to drop the map's entry. */
  lemma LateDropFetchesAlongside(key: Key) returns (s: State)
    ensures Reached(s) && s == Doubled(key) && !SingleFlight(s)
  {
    s := FirstStored(key);
    FirstUnknownDecides(key);
    s := GoTick(s, 3000);
    s := GoOn(s, Drop(1));
    assert s.requests == map[2 := Waiting(0)];
    s := BothFetch(s);
  }

  // ---- What it means for freshness ----

  /** The commits of `k` in a history of all keys. */
  function KeyEvents(h: seq<Event>, k: Key): seq<Event> {
    if h == [] then []
    else KeyEvents(h[..|h| - 1], k) + if IsCommit(h[|h| - 1], k) then [h[|h| - 1]] else []
  }

  lemma {:induction false} KeyEventsHasAll(h: seq<Event>, k: Key, i: nat) returns (j: nat)
    requires i < |h| && IsCommit(h[i], k)
    ensures j < |KeyEvents(h, k)| && KeyEvents(h, k)[j] == h[i]
  {
    if i < |h| - 1 {
      j := KeyEventsHasAll(h[..|h| - 1], k, i);
    } else {
      j := |KeyEvents(h, k)| - 1;
    }
  }

  lemma {:induction false} SerialFromKeyEvents(h: seq<Event>, k: Key)
    requires Serial(KeyEvents(h, k), k)
    ensures Serial(h, k)
  {
    if h != [] {
      var n := |h| - 1;
      var before, events := h[..n], KeyEvents(h, k);
      var earlier := KeyEvents(before, k);
      assert forall i :: 0 <= i < |earlier| ==> events[i] == earlier[i];
      forall j | 0 <= j < |earlier| ensures SerialAt(earlier, k, j) {
        assert SerialAt(events, k, j);
      }
      SerialFromKeyEvents(before, k);
      forall j | 0 <= j < n ensures SerialAt(h, k, j) {
        assert SerialAt(before, k, j);
      }
      if IsCommit(h[n], k) {
        forall i | 0 <= i < n && IsCommit(h[i], k) ensures h[i].t <= h[n].stamp {
          var j := KeyEventsHasAll(before, k, i);
          assert SerialAt(events, k, |events| - 1) && IsCommit(events[j], k) && events[|events| - 1] == h[n];
        }
      }
    }
  }

  /**
   The gate and its locks together: in every settled run, and whatever requests for other keys come in
   between, an admission of the key, from the cache or on a fetched answer, is itself a positive verdict
   or rests on one received less than a day ago with no negative one received after it.
   */
  lemma SettledGateIsFreshByReceipt(states: seq<State>, steps: seq<Step>, h: seq<Event>, ev: Event)
    requires IsRun(states, steps)
    requires forall l :: 0 <= l < |steps| ==> StepAt(states, steps, l) && Settles(states[l], steps[l])
    requires Timely(h) && KeyEvents(h, states[0].key) == states[|steps|].log
    requires ev.k == states[0].key && Answered(CacheAfter(h), ev) == Some(Allow)
    ensures IsVerdict(ev, ev.k, true) || FreshByReceipt(h, ev.k, ev.t)
  {
    SettledRunsAreSingleFlight(states, steps, |steps|);
    SerialFromKeyEvents(h, ev.k);
    AdmissionIsFresh(h, ev);
    if !IsVerdict(ev, ev.k, true) {
      FreshIsByReceipt(h, ev.k, ev.t);
    }
  }

  /** Both answers are in, the positive one first, and neither is stored. */
  lemma BothReceive(key: Key) returns (s: State)
    ensures Reached(s) && s.key == key && s.now == 3002 && s.log == [Commit(key, 0, Unknown, 0)]
    ensures s.requests
      == map[2 := Writing(0, Verdict(true, ""), 3000), 3 := Writing(1, Verdict(false, ""), 3001)]
  {
    FirstUnknownDecides(key);
    s := LateWaiterFetchesAlongside(key);
    s := GoOn(s, Receive(2, Verdict(true, "")));
    s := GoTick(s, 3001);
    s := GoOn(s, Receive(3, Verdict(false, "")));
    s := GoTick(s, 3002);
    assert s.requests
      == map[2 := Writing(0, Verdict(true, ""), 3000), 3 := Writing(1, Verdict(false, ""), 3001)];
  }

  /** Without that, a positive verdict that is stored late hides a negative one received after it. */
  lemma DoubleFetchHidesANegative(key: Key) returns (s: State)
    ensures Reached(s) && Timely(s.log)
    ensures CachedDecision(CacheAfter(s.log), key, 3004) == Some(Allow) && !FreshByReceipt(s.log, key, 3004)
  {
    s := BothReceive(key);
    VerdictDecides(s.log, key, 3002, false, 3001);
    s := GoStore(s, 3, 33_001);
    s := GoTick(s, 3003);
    VerdictDecides(s.log, key, 3003, true, 3000);
    s := GoStore(s, 2, 3_603_000);
    var h := LatePositiveHidesANegative(key);
    assert s.log == h;
  }
}
