/**
 When one epoch does name two polynomials: two kinds of run that complete two sessions on epoch 2, and
 the exact conditions they leave for epochs to be unique.
 */
module EpochReuse {
  import opened Collections
  import opened Membership
  import opened Epochs

  // ---- Honest runs ----

  /** What peers' gossiped epochs say is what they hold. */
  predicate Truthful(s: State, m: Membership) {
    forall q :: q in m.peers ==> q.id in s.held && s.held[q.id].epoch == q.epoch
  }

  /** Views are true, and a restarting node's freshness test knows every share then held. */
  predicate HonestAt(s: State, ev: Event) {
    match ev
    case Crash(_) => true
    case Reload(_, _, known) => forall x :: x in s.held ==> s.held[x].epoch <= known
    case _ => Truthful(s, ev.m)
  }

  predicate Honest(n: nat, evs: seq<Event>) {
    forall j :: 0 <= j < |evs| ==> HonestAt(Before(n, evs, j), evs[j])
  }

  /** A valid and honest run of committee `n`, `t` that ends in state `s`. */
  ghost predicate Reaches(n: nat, t: nat, evs: seq<Event>, s: State) {
    Valid(n, t, evs) && Honest(n, evs) && After(n, evs) == s
  }

  lemma {:induction false} Go(n: nat, t: nat, evs: seq<Event>, s: State, ev: Event) returns (all: seq<Event>)
    requires Reaches(n, t, evs, s) && Enabled(n, t, s, ev) && HonestAt(s, ev)
    ensures all == evs + [ev] && Reaches(n, t, all, Apply(n, s, ev))
    ensures LatestReloads(n, evs) && TakesLatest(s, ev) ==> LatestReloads(n, all)
  {
    all := evs + [ev];
    assert Init(all) == evs && Last(all) == ev;
    forall j | 0 <= j < |all|
      ensures EnabledAt(n, t, all, j) && HonestAt(Before(n, all, j), all[j])
      ensures LatestReloads(n, evs) && TakesLatest(s, ev) ==> TakesLatest(Before(n, all, j), all[j])
    {
      InitKeepsStates(n, all, j);
      if j < |evs| {
        assert EnabledAt(n, t, evs, j) && HonestAt(Before(n, evs, j), evs[j]);
        assert LatestReloads(n, evs) ==> TakesLatest(Before(n, evs, j), evs[j]);
      }
    }
  }

  // ---- Views in which everyone is on epoch 1 ----

  /** Peers `from` to `from + k - 1`, all on epoch 1. */
  function FirstEpochPeers(from: int, k: nat): (peers: seq<SessionPeer>)
    ensures |peers| == k && forall j :: 0 <= j < k ==> peers[j] == SessionPeer(from + j, "", [], 1)
  {
    seq(k, j => SessionPeer(from + j, "", [], 1))
  }

  /** What node 1 sees of these peers. */
  function ViewFrom(n: nat, t: nat, from: int, k: nat): Membership {
    Membership(1, FirstEpochPeers(from, k), t, n, k == n - 1)
  }

  lemma ViewDealers(n: nat, t: nat, from: int, k: nat)
    requires k >= 1
    ensures LeadingDealers(ViewFrom(n, t, from, k).peers) == FirstEpochPeers(from, k)
    ensures forall x :: x in PeerIds(FirstEpochPeers(from, k)) <==> from <= x < from + k
  {
    var peers := FirstEpochPeers(from, k);
    AllOnOneEpochLead(peers, 1);
    forall x | from <= x < from + k ensures x in PeerIds(peers) {
      assert peers[x - from].id == x;
    }
  }

  lemma ViewIsOk(n: nat, t: nat, from: nat, k: nat)
    requires n >= 1 && 2 <= from && from + k <= n + 1
    ensures ViewOk(n, t, ViewFrom(n, t, from, k), 1)
  {
  }

  // ---- An odd committee with a low threshold ----

  /** Node 1, without a share, recovers from `half` peers that all hold a share of epoch 1. */
  lemma RecoverFromHalf(n: nat, t: nat, half: nat, from: nat, s: State)
    requires t >= 1 && half >= 1 && n == 2 * half + 1 && t <= half && 2 <= from <= half + 2 && 1 !in s.held
    requires forall x :: from <= x < from + half ==> x in s.held && s.held[x] == Holding(1, 0)
    ensures
      var ev := Recover(ViewFrom(n, t, from, half), 1);
      var s' := Apply(n, s, ev);
      && Enabled(n, t, s, ev) && HonestAt(s, ev) && s'.completed == s.completed + [2]
      && forall x :: from + half <= x <= n && x in s.held ==> x in s'.held && s'.held[x] == s.held[x]
  {
    HalfMayRecover(n, t, half, from, s);
    HalfCommits(n, t, half, from, s);
  }

  lemma HalfMayRecover(n: nat, t: nat, half: nat, from: nat, s: State)
    requires t >= 1 && half >= 1 && n == 2 * half + 1 && t <= half && 2 <= from <= half + 2 && 1 !in s.held
    requires forall x :: from <= x < from + half ==> x in s.held && s.held[x] == Holding(1, 0)
    ensures
      var ev := Recover(ViewFrom(n, t, from, half), 1);
      Enabled(n, t, s, ev) && HonestAt(s, ev)
  {
    ViewIsOk(n, t, from, half);
    ViewDealers(n, t, from, half);
    assert NextEpoch(s, 1, 1) == 2;
  }

  lemma HalfCommits(n: nat, t: nat, half: nat, from: nat, s: State)
    requires half >= 1 && 2 <= from && 1 !in s.held
    ensures
      var s' := Apply(n, s, Recover(ViewFrom(n, t, from, half), 1));
      && s'.completed == s.completed + [2]
      && forall x :: from + half <= x <= n && x in s.held ==> x in s'.held && s'.held[x] == s.held[x]
  {
    ViewDealers(n, t, from, half);
    assert NextEpoch(s, 1, 1) == 2;
  }

  lemma CrashAlone(n: nat, s: State, i: int)
    ensures Apply(n, s, Crash(i)) == s.(held := s.held - {i}) && i !in Apply(n, s, Crash(i)).held
    ensures forall x :: x != i && x in s.held ==>
      x in Apply(n, s, Crash(i)).held && Apply(n, s, Crash(i)).held[x] == s.held[x]
  {
  }

  lemma {:induction false} GenesisRun(n: nat, t: nat) returns (evs: seq<Event>)
    ensures Reaches(n, t, evs, Genesis(n)) && LatestReloads(n, evs)
  {
    evs := [];
  }

  /** Everyone from `from` on is still on its first share. */
  predicate FirstFrom(n: nat, s: State, from: int) {
    forall x :: from <= x <= n ==> x in s.held && s.held[x] == Holding(1, 0)
  }

  lemma {:induction false} CrashOne(n: nat, t: nat, from: nat, evs: seq<Event>, s: State)
    returns (all: seq<Event>, s': State)
    requires n >= 1 && 2 <= from && Reaches(n, t, evs, s) && LatestReloads(n, evs) && FirstFrom(n, s, from)
    ensures Reaches(n, t, all, s') && LatestReloads(n, all) && FirstFrom(n, s', from)
    ensures 1 !in s'.held && s'.completed == s.completed
  {
    all := Go(n, t, evs, s, Crash(1));
    CrashAlone(n, s, 1);
    s' := Apply(n, s, Crash(1));
  }

  lemma {:induction false} RecoverOne(n: nat, t: nat, half: nat, from: nat, evs: seq<Event>, s: State)
    returns (all: seq<Event>, s': State)
    requires t >= 1 && half >= 1 && n == 2 * half + 1 && t <= half && 2 <= from <= half + 2
    requires Reaches(n, t, evs, s) && LatestReloads(n, evs) && FirstFrom(n, s, from) && 1 !in s.held
    ensures Reaches(n, t, all, s') && LatestReloads(n, all) && FirstFrom(n, s', from + half)
    ensures s'.completed == s.completed + [2]
  {
    var ev := Recover(ViewFrom(n, t, from, half), 1);
    RecoverFromHalf(n, t, half, from, s);
    all := Go(n, t, evs, s, ev);
    s' := Apply(n, s, ev);
  }

  /**
   With an odd committee and a threshold below half, node 1 recovers from one half of the rest,
   crashes, and recovers from the other half: an epoch is reused, though every view is true.
   */
  lemma {:induction false} SplitRunReusesAnEpoch(n: nat, t: nat) returns (evs: seq<Event>)
    requires 1 <= t <= n && 2 * RecoveryThreshold(t, n) < n
    ensures Valid(n, t, evs) && Honest(n, evs) && LatestReloads(n, evs) && After(n, evs).completed == [1, 2, 2]
  {
    var half, s := n / 2, Genesis(n);
    assert n == 2 * half + 1 && t <= half;
    assert s.completed == [1];
    assert FirstFrom(n, s, 2);
    evs := GenesisRun(n, t);
    evs, s := CrashOne(n, t, 2, evs, s);
    evs, s := RecoverOne(n, t, half, 2, evs, s);
    evs, s := CrashOne(n, t, half + 2, evs, s);
    evs, s := RecoverOne(n, t, half, half + 2, evs, s);
  }

  /**
   The exact condition when every restart is on the last share stored: epochs grow strictly over every
   run, so that no epoch ever names two polynomials, if and only if twice the recovery threshold
   reaches the committee size.
   */
  lemma EpochsAreUniqueExactlyWhen(n: nat, t: nat)
    requires 1 <= t <= n
    ensures (forall evs :: Valid(n, t, evs) && LatestReloads(n, evs) ==> Increasing(After(n, evs).completed))
            <==> 2 * RecoveryThreshold(t, n) >= n
  {
    if 2 * RecoveryThreshold(t, n) >= n {
      forall evs | Valid(n, t, evs) && LatestReloads(n, evs) ensures Increasing(After(n, evs).completed) {
        LatestReloadsLinkSessions(n, t, evs);
        LinkedSessionsGrow(n, t, evs);
      }
    } else {
      var evs := SplitRunReusesAnEpoch(n, t);
      var es := After(n, evs).completed;
      assert !(es[1] < es[2]);
    }
  }

  // ---- Restarts on an older share ----

  /** The whole committee refreshes from epoch 1 to epoch 2. */
  lemma RefreshToTwo(n: nat, t: nat, s: State)
    requires n >= 2 && forall x :: x in Range(n) ==> x in s.held && s.held[x] == Holding(1, 0)
    ensures
      var ev := Refresh(ViewFrom(n, t, 2, n - 1), 1);
      && Enabled(n, t, s, ev) && HonestAt(s, ev) && Apply(n, s, ev) == Commit(s, Range(n), 2)
  {
    ViewIsOk(n, t, 2, n - 1);
    assert NextEpoch(s, 1, 1) == 2;
  }

  predicate StillStored(n: nat, s: State) {
    forall x :: x in Range(n) ==> Holding(1, 0) in StoredBy(s, x)
  }

  /** From some reachable state: the completed sessions, and the first share still on record everywhere. */
  ghost predicate Stands(n: nat, t: nat, evs: seq<Event>, s: State, completed: seq<nat>) {
    Reaches(n, t, evs, s) && s.completed == completed && StillStored(n, s)
  }

  lemma {:induction false} CrashNext(n: nat, t: nat, evs: seq<Event>, s: State, completed: seq<nat>, i: int)
    returns (all: seq<Event>, s': State)
    requires Stands(n, t, evs, s, completed) && i in Range(n)
    ensures Stands(n, t, all, s', completed) && forall x :: x in s'.held <==> x in s.held && x != i
  {
    all := Go(n, t, evs, s, Crash(i));
    s' := Apply(n, s, Crash(i));
    assert forall x :: StoredBy(s', x) == StoredBy(s, x);
  }

  lemma {:induction false} ReloadNext(n: nat, t: nat, evs: seq<Event>, s: State, completed: seq<nat>, i: int)
    returns (all: seq<Event>, s': State)
    requires Stands(n, t, evs, s, completed) && i in Range(n) && i !in s.held
    requires forall x :: x in s.held ==> s.held[x] == Holding(1, 0)
    ensures Stands(n, t, all, s', completed) && forall x :: x in s'.held <==> x in s.held || x == i
    ensures forall x :: x in s'.held ==> s'.held[x] == Holding(1, 0)
  {
    all := Go(n, t, evs, s, Reload(i, Holding(1, 0), 1));
    s' := Apply(n, s, Reload(i, Holding(1, 0), 1));
    assert forall x :: StoredBy(s', x) == StoredBy(s, x);
  }

  /** The whole committee restarts, each member on its first share, after all of them crashed. */
  lemma {:induction false} EveryoneRestarts(n: nat, t: nat, evs: seq<Event>, s: State, completed: seq<nat>)
    returns (all: seq<Event>, s': State)
    requires Stands(n, t, evs, s, completed) && s.held.Keys == Range(n)
    ensures Stands(n, t, all, s', completed)
    ensures forall x :: x in Range(n) ==> x in s'.held && s'.held[x] == Holding(1, 0)
  {
    all, s' := evs, s;
    var i := 1;
    while i <= n
      invariant 1 <= i <= n + 1 && Stands(n, t, all, s', completed)
      invariant forall x :: x in s'.held ==> i <= x <= n
    {
      all, s' := CrashNext(n, t, all, s', completed, i);
      i := i + 1;
    }
    i := 1;
    while i <= n
      invariant 1 <= i <= n + 1 && Stands(n, t, all, s', completed)
      invariant forall x :: x in s'.held <==> 1 <= x < i
      invariant forall x :: x in s'.held ==> s'.held[x] == Holding(1, 0)
    {
      all, s' := ReloadNext(n, t, all, s', completed, i);
      i := i + 1;
    }
  }

  /**
   In every committee of two or more, whatever its threshold, the members refresh, all restart on the
   share they stored before, and refresh again: an epoch is reused.  Every view is true, and every
   freshness test is made with knowledge of all shares then held.
   */
  lemma {:induction false} StaleRestartsReuseAnEpoch(n: nat, t: nat) returns (evs: seq<Event>)
    requires 1 <= t <= n && n >= 2
    ensures Valid(n, t, evs) && Honest(n, evs) && After(n, evs).completed == [1, 2, 2]
  {
    assert [1, 2] + [2] == [1, 2, 2];
    var early, s := FirstRefresh(n, t);
    var late, s' := EveryoneRestarts(n, t, early, s, [1, 2]);
    evs := RefreshAgain(n, t, late, s');
  }

  lemma {:induction false} RefreshAgain(n: nat, t: nat, evs: seq<Event>, s: State) returns (all: seq<Event>)
    requires n >= 2 && Reaches(n, t, evs, s)
    requires forall x :: x in Range(n) ==> x in s.held && s.held[x] == Holding(1, 0)
    ensures Valid(n, t, all) && Honest(n, all) && After(n, all).completed == s.completed + [2]
  {
    var s';
    all, s' := RefreshAll(n, t, evs, s);
  }

  lemma {:induction false} FirstRefresh(n: nat, t: nat) returns (evs: seq<Event>, s: State)
    requires n >= 2
    ensures Stands(n, t, evs, s, [1, 2]) && s.held.Keys == Range(n)
  {
    evs := GenesisRun(n, t);
    evs, s := RefreshAll(n, t, evs, Genesis(n));
    assert [1] + [2] == [1, 2];
    forall x | x in Range(n) ensures Holding(1, 0) in StoredBy(s, x) {
      CommitStores(Genesis(n), Range(n), 2, x);
    }
  }

  lemma {:induction false} RefreshAll(n: nat, t: nat, evs: seq<Event>, s: State) returns (all: seq<Event>, s': State)
    requires n >= 2 && Reaches(n, t, evs, s)
    requires forall x :: x in Range(n) ==> x in s.held && s.held[x] == Holding(1, 0)
    ensures Reaches(n, t, all, s') && s' == Commit(s, Range(n), 2) && s'.completed == s.completed + [2]
  {
    RefreshToTwo(n, t, s);
    all := Go(n, t, evs, s, Refresh(ViewFrom(n, t, 2, n - 1), 1));
    s' := Commit(s, Range(n), 2);
  }

  lemma LoneNodeStartsNoSession(t: nat, s: State, ev: Event)
    requires t >= 1 && Enabled(1, t, s, ev)
    ensures !IsSession(ev)
  {
    if ev.Recover? {
      DealersOf(1, t, ev.m, ev.known);
      SubsetIsNoLarger(PeerIds(LeadingDealers(ev.m.peers)) + {ev.m.ownId}, Range(1));
    }
  }

  lemma {:induction false} LoneNodeKeepsItsEpoch(t: nat, evs: seq<Event>)
    requires t >= 1 && Valid(1, t, evs)
    ensures After(1, evs).completed == [1]
  {
    if evs != [] {
      ValidInit(1, t, evs);
      LoneNodeKeepsItsEpoch(t, Init(evs));
      LoneNodeStartsNoSession(t, After(1, Init(evs)), Last(evs));
    }
  }

  /** The exact condition when a restart may be on any share ever stored: only a lone node is safe. */
  lemma StaleRestartsAreSafeExactlyWhen(n: nat, t: nat)
    requires 1 <= t <= n
    ensures (forall evs :: Valid(n, t, evs) ==> Increasing(After(n, evs).completed)) <==> n == 1
  {
    if n == 1 {
      forall evs | Valid(n, t, evs) ensures Increasing(After(n, evs).completed) {
        LoneNodeKeepsItsEpoch(t, evs);
      }
    } else {
      var evs := StaleRestartsReuseAnEpoch(n, t);
      var es := After(n, evs).completed;
      assert !(es[1] < es[2]);
    }
  }
}
