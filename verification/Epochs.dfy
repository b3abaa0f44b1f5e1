/**
 Epochs over whole runs of the cluster.  Sessions here are all-or-none and do not overlap; nodes
 crash and lose their share at any time, and may restart on any share they ever stored that passes
 the freshness test.  The question is when one epoch can name two polynomials.
 */
module Epochs {
  import opened Collections
  import opened Membership

  /** A share's epoch, and the number of the session that produced it. */
  datatype Holding = Holding(epoch: nat, origin: nat)

  /**
   `completed[k]` is the epoch of session `k` and `quorums[k]` are its participants; `stored[i]` lists
   every share node `i` ever stored, the last one last.
   */
  datatype State = State(
    held: map<int, Holding>,
    stored: map<int, seq<Holding>>,
    completed: seq<nat>,
    quorums: seq<set<int>>)

  /** `known` is the highest epoch the acting node has learned from gossip. */
  datatype Event =
    | Crash(i: int)
    | Reload(i: int, h: Holding, known: nat)
    | Recover(m: Membership, known: nat)
    | Refresh(m: Membership, known: nat)

  function Genesis(n: nat): State {
    State(map i | i in Range(n) :: Holding(1, 0), map i | i in Range(n) :: [Holding(1, 0)], [1], [Range(n)])
  }

  /** One more than the highest epoch the initiator knows: its own and those in its peer table. */
  function NextEpoch(s: State, i: int, known: nat): nat {
    1 + if i in s.held && s.held[i].epoch > known then s.held[i].epoch else known
  }

  function StoredBy(s: State, i: int): seq<Holding> {
    if i in s.stored then s.stored[i] else []
  }

  function Commit(s: State, who: set<int>, e: nat): State {
    var h := Holding(e, |s.completed|);
    State(s.held + map x | x in who :: h,
          s.stored + map x | x in who :: StoredBy(s, x) + [h],
          s.completed + [e],
          s.quorums + [who])
  }

  /** A committee view of `n` nodes: ids in range, our own not among the peers. */
  predicate ViewOk(n: nat, t: nat, m: Membership, known: nat) {
    && m.threshold == t && m.total == n && m.ownId in Range(n) && Ascending(m.peers)
    && (forall q :: q in m.peers ==> q.id in Range(n) && q.id != m.ownId && q.epoch <= known)
  }

  /** `run_reshare_dealer` deals only with a share whose epoch is behind the target. */
  predicate WillDeal(s: State, d: int, e: nat) {
    d in s.held && s.held[d].epoch < e
  }

  /** A refresh needs a second node: a lone participant never passes its first barrier. */
  predicate Enabled(n: nat, t: nat, s: State, ev: Event) {
    match ev
    case Crash(i) => i in Range(n)
    case Reload(i, h, known) => i in Range(n) && i !in s.held && h in StoredBy(s, i) && known <= h.epoch
    case Recover(m, known) =>
      && ViewOk(n, t, m, known) && RecoveryGates(m)
      && forall q :: q in LeadingDealers(m.peers) ==> WillDeal(s, q.id, NextEpoch(s, m.ownId, known))
    case Refresh(m, known) =>
      && n >= 2 && ViewOk(n, t, m, known) && m.allDiscovered && |m.peers| == n - 1 && m.ownId in s.held
      && (forall q :: q in m.peers ==> q.epoch == s.held[m.ownId].epoch)
      && forall d :: d in Range(n) ==> WillDeal(s, d, NextEpoch(s, m.ownId, known))
  }

  predicate IsSession(ev: Event) { ev.Recover? || ev.Refresh? }

  /** The participants of a session: the dealers, and the recovering node if there is one. */
  function Who(n: nat, ev: Event): set<int>
    requires IsSession(ev)
  {
    if ev.Recover? then PeerIds(LeadingDealers(ev.m.peers)) + {ev.m.ownId} else Range(n)
  }

  function Target(s: State, ev: Event): nat
    requires IsSession(ev)
  {
    NextEpoch(s, ev.m.ownId, ev.known)
  }

  function Apply(n: nat, s: State, ev: Event): State {
    match ev
    case Crash(i) => s.(held := s.held - {i})
    case Reload(i, h, known) => s.(held := s.held[i := h])
    case _ => Commit(s, Who(n, ev), Target(s, ev))
  }

  function After(n: nat, evs: seq<Event>): State {
    if evs == [] then Genesis(n) else Apply(n, After(n, evs[..|evs| - 1]), evs[|evs| - 1])
  }

  /** The state before event `j`. */
  function Before(n: nat, evs: seq<Event>, j: int): State
    requires 0 <= j <= |evs|
  {
    After(n, evs[..j])
  }

  predicate EnabledAt(n: nat, t: nat, evs: seq<Event>, j: int)
    requires 0 <= j < |evs|
  {
    Enabled(n, t, Before(n, evs, j), evs[j])
  }

  /** A run: every event is enabled when it happens. */
  predicate Valid(n: nat, t: nat, evs: seq<Event>) {
    forall j :: 0 <= j < |evs| ==> EnabledAt(n, t, evs, j)
  }

  function Init(evs: seq<Event>): seq<Event>
    requires evs != []
  {
    evs[..|evs| - 1]
  }

  function Last(evs: seq<Event>): Event
    requires evs != []
  {
    evs[|evs| - 1]
  }

  lemma {:induction false} InitKeepsStates(n: nat, evs: seq<Event>, j: int)
    requires 0 <= j < |evs|
    ensures Before(n, Init(evs), j) == Before(n, evs, j) && (j < |evs| - 1 ==> Init(evs)[j] == evs[j])
    ensures Before(n, evs, |evs| - 1) == After(n, Init(evs))
    ensures After(n, evs) == Apply(n, After(n, Init(evs)), Last(evs))
  {
    assert Init(evs)[..j] == evs[..j];
  }

  /** A run without its last event is a run, and the last event was enabled. */
  lemma {:induction false} ValidInit(n: nat, t: nat, evs: seq<Event>)
    requires evs != [] && Valid(n, t, evs)
    ensures Valid(n, t, Init(evs)) && Enabled(n, t, After(n, Init(evs)), Last(evs))
    ensures After(n, evs) == Apply(n, After(n, Init(evs)), Last(evs))
  {
    forall j | 0 <= j < |evs| - 1 ensures EnabledAt(n, t, Init(evs), j) {
      assert EnabledAt(n, t, evs, j);
      InitKeepsStates(n, evs, j);
    }
    assert EnabledAt(n, t, evs, |evs| - 1);
    InitKeepsStates(n, evs, |evs| - 1);
  }

  predicate Increasing(es: seq<nat>) {
    forall i, j :: 0 <= i < j < |es| ==> es[i] < es[j]
  }

  // ---- Counting participants ----

  lemma {:induction false} PeerIdsCount(peers: seq<SessionPeer>)
    requires Ascending(peers)
    ensures |PeerIds(peers)| == |peers|
  {
    if peers == [] {
      assert forall x :: x !in PeerIds(peers);
      EmptyOrInhabited(PeerIds(peers));
    } else {
      var last := |peers| - 1;
      PeerIdsCount(peers[..last]);
      assert PeerIds(peers) == PeerIds(peers[..last]) + {peers[last].id} by {
        forall x | x in PeerIds(peers) ensures x in PeerIds(peers[..last]) + {peers[last].id} {
          var k :| 0 <= k < |peers| && peers[k].id == x;
          if k < last { assert peers[..last][k].id == x; }
        }
      }
      assert peers[last].id !in PeerIds(peers[..last]);
    }
  }

  lemma DealersOf(n: nat, t: nat, m: Membership, known: nat)
    requires ViewOk(n, t, m, known) && RecoveryGates(m)
    ensures PeerIds(LeadingDealers(m.peers)) <= Range(n)
    ensures |PeerIds(LeadingDealers(m.peers))| >= RecoveryThreshold(t, n)
    ensures m.ownId !in PeerIds(LeadingDealers(m.peers))
  {
    var dealers := LeadingDealers(m.peers);
    LeadingDealersAscend(m.peers);
    LeadingDealersLead(m.peers);
    PeerIdsCount(dealers);
    forall x | x in PeerIds(dealers) ensures x in Range(n) && x != m.ownId {
      var k :| 0 <= k < |dealers| && dealers[k].id == x;
      assert dealers[k] in dealers && dealers[k] in m.peers;
    }
  }

  /** Every session of the cluster involves a majority of it. */
  lemma SessionIsAMajority(n: nat, t: nat, s: State, ev: Event)
    requires n >= 1 && IsSession(ev) && Enabled(n, t, s, ev)
    ensures Who(n, ev) <= Range(n) && |Who(n, ev)| >= Majority(n)
  {
    if ev.Recover? {
      DealersOf(n, t, ev.m, ev.known);
    }
  }

  // ---- What holds in every run ----

  predicate IsRecord(completed: seq<nat>, h: Holding) {
    h.origin < |completed| && h.epoch == completed[h.origin]
  }

  /** Shares are of completed sessions, and every session so far involved a majority. */
  ghost predicate Sound(n: nat, s: State) {
    && |s.completed| == |s.quorums| > 0
    && (forall i :: i in s.held ==> IsRecord(s.completed, s.held[i]))
    && (forall i :: AllRecords(s.completed, StoredBy(s, i)))
    && (forall k :: 0 <= k < |s.quorums| ==> s.quorums[k] <= Range(n) && |s.quorums[k]| >= Majority(n))
  }

  predicate AllRecords(completed: seq<nat>, hs: seq<Holding>) {
    forall j :: 0 <= j < |hs| ==> IsRecord(completed, hs[j])
  }

  lemma CommitStores(s: State, who: set<int>, e: nat, i: int)
    ensures StoredBy(Commit(s, who, e), i) == StoredBy(s, i) + if i in who then [Holding(e, |s.completed|)] else []
  {
  }

  lemma CommitKeepsSound(n: nat, s: State, who: set<int>, e: nat)
    requires Sound(n, s) && who <= Range(n) && |who| >= Majority(n)
    ensures Sound(n, Commit(s, who, e))
  {
    var s' := Commit(s, who, e);
    forall i ensures AllRecords(s'.completed, StoredBy(s', i)) {
      CommitStores(s, who, e, i);
      assert AllRecords(s.completed, StoredBy(s, i));
    }
  }

  lemma RestartKeepsSound(n: nat, s: State, held: map<int, Holding>)
    requires Sound(n, s) && forall i :: i in held ==> IsRecord(s.completed, held[i])
    ensures Sound(n, s.(held := held))
  {
    forall i ensures AllRecords(s.completed, StoredBy(s.(held := held), i)) {
      assert AllRecords(s.completed, StoredBy(s, i));
    }
  }

  lemma EventKeepsSound(n: nat, t: nat, s: State, ev: Event)
    requires n >= 1 && Sound(n, s) && Enabled(n, t, s, ev)
    ensures Sound(n, Apply(n, s, ev))
  {
    if IsSession(ev) {
      SessionIsAMajority(n, t, s, ev);
      CommitKeepsSound(n, s, Who(n, ev), Target(s, ev));
    } else {
      assert AllRecords(s.completed, StoredBy(s, ev.i));
      RestartKeepsSound(n, s, Apply(n, s, ev).held);
    }
  }

  lemma {:induction false} RunIsSound(n: nat, t: nat, evs: seq<Event>)
    requires n >= 1 && Valid(n, t, evs)
    ensures Sound(n, After(n, evs))
  {
    if evs != [] {
      ValidInit(n, t, evs);
      RunIsSound(n, t, Init(evs));
      EventKeepsSound(n, t, After(n, Init(evs)), Last(evs));
    }
  }

  // ---- Quorum intersection, for every committee and threshold ----

  /** Any two sessions of a run share a participant. */
  lemma SessionsIntersect(n: nat, t: nat, evs: seq<Event>, k: nat, l: nat) returns (x: int)
    requires n >= 1 && Valid(n, t, evs) && k < l < |After(n, evs).quorums|
    ensures x in After(n, evs).quorums[k] && x in After(n, evs).quorums[l]
  {
    RunIsSound(n, t, evs);
    x := Overlap(After(n, evs).quorums[k], After(n, evs).quorums[l], Range(n));
  }

  /** For an even committee, every earlier session has a participant among a recovery's dealers. */
  lemma EvenCommitteeSharesADealer(n: nat, t: nat, evs: seq<Event>, ev: Event, k: nat) returns (x: int)
    requires n >= 1 && n % 2 == 0 && Valid(n, t, evs + [ev]) && ev.Recover? && k < |After(n, evs).quorums|
    ensures x in After(n, evs).quorums[k] && x in PeerIds(LeadingDealers(ev.m.peers))
  {
    Snoc(n, t, evs, ev);
    RunIsSound(n, t, evs);
    DealersOf(n, t, ev.m, ev.known);
    x := Overlap(After(n, evs).quorums[k], PeerIds(LeadingDealers(ev.m.peers)), Range(n));
  }

  lemma {:induction false} Snoc(n: nat, t: nat, evs: seq<Event>, ev: Event)
    requires Valid(n, t, evs + [ev])
    ensures Valid(n, t, evs) && Enabled(n, t, After(n, evs), ev) && After(n, evs + [ev]) == Apply(n, After(n, evs), ev)
  {
    assert Init(evs + [ev]) == evs && Last(evs + [ev]) == ev;
    ValidInit(n, t, evs + [ev]);
  }

  lemma HolderIsBehind(n: nat, t: nat, s: State, ev: Event, x: int)
    requires Sound(n, s) && Enabled(n, t, s, ev) && IsSession(ev) && x in Who(n, ev) && x in s.held
    ensures s.held[x].origin < |s.completed| && s.completed[s.held[x].origin] < Target(s, ev)
  {
    if ev.Recover? && x != ev.m.ownId {
      var dealers := LeadingDealers(ev.m.peers);
      var k :| 0 <= k < |dealers| && dealers[k].id == x;
      assert dealers[k] in dealers;
    }
  }

  /**
   A participant of any kind, dealer or recovering, that comes with a share makes the session's epoch
   larger than that of the session its share is from, in every run of every committee.
   */
  lemma SharedHolderForcesGrowth(n: nat, t: nat, evs: seq<Event>, ev: Event, x: int)
    requires n >= 1 && Valid(n, t, evs + [ev]) && IsSession(ev) && x in Who(n, ev) && x in After(n, evs).held
    ensures
      var s, s' := After(n, evs), After(n, evs + [ev]);
      var k := s.held[x].origin;
      && k < |s.completed| && s'.completed == s.completed + [Target(s, ev)] && s'.quorums == s.quorums + [Who(n, ev)]
      && s.completed[k] < s'.completed[|s.completed|]
  {
    Snoc(n, t, evs, ev);
    RunIsSound(n, t, evs);
    HolderIsBehind(n, t, After(n, evs), ev, x);
  }

  /** The session brings together a holder of the last session's share. */
  ghost predicate LinkedAt(n: nat, s: State, ev: Event) {
    IsSession(ev) ==> exists x :: x in Who(n, ev) && x in s.held && s.held[x].origin == |s.completed| - 1
  }

  ghost predicate Linked(n: nat, evs: seq<Event>) {
    forall j :: 0 <= j < |evs| ==> LinkedAt(n, Before(n, evs, j), evs[j])
  }

  lemma {:induction false} LinkedInit(n: nat, evs: seq<Event>)
    requires evs != []
    ensures Linked(n, evs) <==> Linked(n, Init(evs)) && LinkedAt(n, After(n, Init(evs)), Last(evs))
  {
    forall j | 0 <= j < |evs|
      ensures Before(n, Init(evs), j) == Before(n, evs, j) && (j < |evs| - 1 ==> Init(evs)[j] == evs[j])
    {
      InitKeepsStates(n, evs, j);
    }
    InitKeepsStates(n, evs, |evs| - 1);
  }

  lemma IncreasingGrows(es: seq<nat>, e: nat)
    requires Increasing(es) && es != [] && es[|es| - 1] < e
    ensures Increasing(es + [e])
  {
  }

  lemma LinkedHolder(n: nat, s: State, ev: Event) returns (x: int)
    requires LinkedAt(n, s, ev) && IsSession(ev)
    ensures x in Who(n, ev) && x in s.held && s.held[x].origin == |s.completed| - 1
  {
    x :| x in Who(n, ev) && x in s.held && s.held[x].origin == |s.completed| - 1;
  }

  lemma SessionCompletes(n: nat, s: State, ev: Event)
    requires IsSession(ev)
    ensures Apply(n, s, ev).completed == s.completed + [Target(s, ev)]
  {
  }

  lemma LinkedEventGrows(n: nat, t: nat, s: State, ev: Event)
    requires Sound(n, s) && Enabled(n, t, s, ev) && LinkedAt(n, s, ev) && Increasing(s.completed)
    ensures Increasing(Apply(n, s, ev).completed)
  {
    if IsSession(ev) {
      var es, e := s.completed, Target(s, ev);
      assert es != [] && es[|es| - 1] < e by {
        var x := LinkedHolder(n, s, ev);
        LastHolderIsBehind(n, t, s, ev, x);
      }
      IncreasingGrows(es, e);
      SessionCompletes(n, s, ev);
    }
  }

  lemma LastHolderIsBehind(n: nat, t: nat, s: State, ev: Event, x: int)
    requires Sound(n, s) && Enabled(n, t, s, ev) && IsSession(ev) && x in Who(n, ev) && x in s.held
    requires s.held[x].origin == |s.completed| - 1
    ensures s.completed[|s.completed| - 1] < Target(s, ev)
  {
    HolderIsBehind(n, t, s, ev, x);
  }

  /**
   In every run of every committee whose sessions each contain a participant that still holds its
   share of the session before, epochs grow strictly.
   */
  lemma {:induction false} LinkedSessionsGrow(n: nat, t: nat, evs: seq<Event>)
    requires n >= 1 && Valid(n, t, evs) && Linked(n, evs)
    ensures Increasing(After(n, evs).completed)
  {
    if evs != [] {
      ValidInit(n, t, evs);
      LinkedInit(n, evs);
      LinkedSessionsGrow(n, t, Init(evs));
      RunIsSound(n, t, Init(evs));
      LinkedEventGrows(n, t, After(n, Init(evs)), Last(evs));
    }
  }

  // ---- Epochs never run ahead ----

  /** What the initiator has heard of is an epoch that some session completed. */
  predicate KnowsCompleted(s: State, ev: Event) {
    IsSession(ev) ==> ev.known in s.completed
  }

  predicate TrueKnowledge(n: nat, evs: seq<Event>) {
    forall j :: 0 <= j < |evs| ==> KnowsCompleted(Before(n, evs, j), evs[j])
  }

  lemma {:induction false} TrueKnowledgeInit(n: nat, evs: seq<Event>)
    requires evs != [] && TrueKnowledge(n, evs)
    ensures TrueKnowledge(n, Init(evs)) && KnowsCompleted(After(n, Init(evs)), Last(evs))
  {
    forall j | 0 <= j < |evs| - 1 ensures KnowsCompleted(Before(n, Init(evs), j), Init(evs)[j]) {
      InitKeepsStates(n, evs, j);
      assert KnowsCompleted(Before(n, evs, j), evs[j]);
    }
    InitKeepsStates(n, evs, |evs| - 1);
    assert KnowsCompleted(Before(n, evs, |evs| - 1), evs[|evs| - 1]);
  }

  /** A session's epoch is exactly one above an epoch completed before, its initiator's own or one it heard of. */
  lemma TargetIsOneAbove(n: nat, s: State, ev: Event) returns (k: nat)
    requires Sound(n, s) && IsSession(ev) && KnowsCompleted(s, ev)
    ensures k < |s.completed| && Target(s, ev) == s.completed[k] + 1
    ensures s.completed[k] >= ev.known && (ev.m.ownId in s.held ==> s.completed[k] >= s.held[ev.m.ownId].epoch)
  {
    var own := ev.m.ownId;
    if own in s.held && s.held[own].epoch > ev.known {
      k := s.held[own].origin;
    } else {
      k :| 0 <= k < |s.completed| && s.completed[k] == ev.known;
    }
  }

  /** So no epoch runs ahead of the number of sessions, in any run of any committee. */
  lemma {:induction false} EpochsNeverRunAhead(n: nat, t: nat, evs: seq<Event>)
    requires n >= 1 && Valid(n, t, evs) && TrueKnowledge(n, evs)
    ensures var es := After(n, evs).completed; forall k :: 0 <= k < |es| ==> 1 <= es[k] <= k + 1
  {
    if evs != [] {
      ValidInit(n, t, evs);
      TrueKnowledgeInit(n, evs);
      EpochsNeverRunAhead(n, t, Init(evs));
      var s, ev := After(n, Init(evs)), Last(evs);
      if IsSession(ev) {
        RunIsSound(n, t, Init(evs));
        var k := TargetIsOneAbove(n, s, ev);
        SessionCompletes(n, s, ev);
      }
    }
  }

  /** Every participant of a session comes out with its share. */
  lemma ParticipantsHoldTheShare(n: nat, s: State, ev: Event, x: int)
    requires IsSession(ev) && x in Who(n, ev)
    ensures x in Apply(n, s, ev).held && Apply(n, s, ev).held[x] == Holding(Target(s, ev), |s.completed|)
  {
  }

  lemma TargetIs(s: State, ev: Event, e: nat)
    requires IsSession(ev) && ev.known <= e && (ev.m.ownId in s.held ==> s.held[ev.m.ownId].epoch <= e)
    requires ev.known == e || (ev.m.ownId in s.held && s.held[ev.m.ownId].epoch == e)
    ensures Target(s, ev) == e + 1
  {
  }

  /** The session completes epoch `e + 1` when `e` is the highest epoch its initiator holds or has heard of. */
  lemma SessionCompletesNext(n: nat, s: State, ev: Event, e: nat)
    requires IsSession(ev) && ev.known <= e && (ev.m.ownId in s.held ==> s.held[ev.m.ownId].epoch <= e)
    requires ev.known == e || (ev.m.ownId in s.held && s.held[ev.m.ownId].epoch == e)
    ensures Apply(n, s, ev).completed == s.completed + [e + 1]
  {
    TargetIs(s, ev, e);
    SessionCompletes(n, s, ev);
  }

  /** A view with a peer for everyone else has one for each of them. */
  lemma WholeView(n: nat, t: nat, m: Membership, known: nat, x: int) returns (q: SessionPeer)
    requires ViewOk(n, t, m, known) && |m.peers| == n - 1 && x in Range(n) && x != m.ownId
    ensures q in m.peers && q.id == x
  {
    PeerIdsCount(m.peers);
    var ids := PeerIds(m.peers);
    forall y | y in ids ensures y in Range(n) && y != m.ownId {
      var k :| 0 <= k < |m.peers| && m.peers[k].id == y;
      assert m.peers[k] in m.peers;
    }
    if x !in ids {
      SubsetIsNoLarger(ids + {m.ownId} + {x}, Range(n));
      assert false;
    }
    var k :| 0 <= k < |m.peers| && m.peers[k].id == x;
    q := m.peers[k];
  }

  /** On true views a refresh runs only when the whole committee is on one epoch, and completes the next. */
  lemma RefreshCompletesNext(n: nat, t: nat, s: State, m: Membership)
    requires m.ownId in s.held && Enabled(n, t, s, Refresh(m, s.held[m.ownId].epoch))
    requires forall q :: q in m.peers ==> q.id in s.held && s.held[q.id].epoch == q.epoch
    ensures
      var e := s.held[m.ownId].epoch;
      && Apply(n, s, Refresh(m, e)).completed == s.completed + [e + 1]
      && forall x :: x in Range(n) ==> x in s.held && s.held[x].epoch == e
  {
    var e := s.held[m.ownId].epoch;
    SessionCompletesNext(n, s, Refresh(m, e), e);
    forall x | x in Range(n) ensures x in s.held && s.held[x].epoch == e {
      if x != m.ownId {
        var q := WholeView(n, t, m, e, x);
      }
    }
  }

  /** A restart that knows of every share held is never behind one of them. */
  lemma InformedReloadIsNotBehind(n: nat, t: nat, s: State, ev: Event)
    requires ev.Reload? && Enabled(n, t, s, ev) && forall x :: x in s.held ==> s.held[x].epoch <= ev.known
    ensures forall x :: x in s.held ==> s.held[x].epoch <= Apply(n, s, ev).held[ev.i].epoch
  {
  }

  lemma {:induction false} ShareIsLostByCrash(n: nat, t: nat, evs: seq<Event>, i: int)
    requires Valid(n, t, evs) && i in Range(n) && i !in After(n, evs).held
    ensures exists k :: 0 <= k < |evs| && evs[k] == Crash(i)
  {
    if evs != [] && Last(evs) != Crash(i) {
      ValidInit(n, t, evs);
      ShareIsLostByCrash(n, t, Init(evs), i);
      var k :| 0 <= k < |Init(evs)| && Init(evs)[k] == Crash(i);
      assert evs[k] == Crash(i);
    }
  }

  /** A node restarts on a stored share only after a crash. */
  lemma ReloadFollowsACrash(n: nat, t: nat, evs: seq<Event>, ev: Event)
    requires Valid(n, t, evs) && ev.Reload? && Enabled(n, t, After(n, evs), ev)
    ensures exists k :: 0 <= k < |evs| && evs[k] == Crash(ev.i)
  {
    ShareIsLostByCrash(n, t, evs, ev.i);
  }

  // ---- When sessions are always linked ----

  /** A restart takes the last share stored. */
  predicate TakesLatest(s: State, ev: Event) {
    ev.Reload? ==> StoredBy(s, ev.i) != [] && ev.h == StoredBy(s, ev.i)[|StoredBy(s, ev.i)| - 1]
  }

  predicate LatestReloads(n: nat, evs: seq<Event>) {
    forall j :: 0 <= j < |evs| ==> TakesLatest(Before(n, evs, j), evs[j])
  }

  lemma {:induction false} LatestInit(n: nat, evs: seq<Event>)
    requires evs != [] && LatestReloads(n, evs)
    ensures LatestReloads(n, Init(evs)) && TakesLatest(After(n, Init(evs)), Last(evs))
  {
    forall j | 0 <= j < |evs| - 1 ensures TakesLatest(Before(n, Init(evs), j), Init(evs)[j]) {
      InitKeepsStates(n, evs, j);
      assert TakesLatest(Before(n, evs, j), evs[j]);
    }
    InitKeepsStates(n, evs, |evs| - 1);
    assert TakesLatest(Before(n, evs, |evs| - 1), evs[|evs| - 1]);
  }

  predicate IsOfLast(s: State, h: Holding) { h.origin == |s.completed| - 1 }

  predicate StoredLast(s: State, i: int) {
    StoredBy(s, i) != [] && IsOfLast(s, StoredBy(s, i)[|StoredBy(s, i)| - 1])
  }

  /** The last session's participants stored its share last, and hold that one if any. */
  ghost predicate UpToDate(n: nat, t: nat, s: State) {
    && |s.completed| == |s.quorums| > 0
    && var last := s.quorums[|s.quorums| - 1];
       && last <= Range(n) && |last| + RecoveryThreshold(t, n) > n
       && (forall i :: i in last ==> StoredLast(s, i))
       && (forall i :: i in last && i in s.held ==> IsOfLast(s, s.held[i]))
  }

  /** A session then finds a holder of the last session's share among those who deal. */
  lemma UpToDateIsLinked(n: nat, t: nat, s: State, ev: Event)
    requires 1 <= t <= n && 2 * RecoveryThreshold(t, n) >= n && UpToDate(n, t, s)
    requires IsSession(ev) && Enabled(n, t, s, ev)
    ensures LinkedAt(n, s, ev) && Who(n, ev) <= Range(n) && |Who(n, ev)| + RecoveryThreshold(t, n) > n
  {
    var last := s.quorums[|s.quorums| - 1];
    if ev.Refresh? {
      SubsetIsNoLarger(last, Range(n));
      var x := Overlap(last, Range(n), Range(n));
      assert x in s.held && IsOfLast(s, s.held[x]);
    } else {
      var dealers := LeadingDealers(ev.m.peers);
      DealersOf(n, t, ev.m, ev.known);
      var x := Overlap(last, PeerIds(dealers), Range(n));
      var k :| 0 <= k < |dealers| && dealers[k].id == x;
      assert dealers[k] in dealers;
      assert x in s.held && IsOfLast(s, s.held[x]);
    }
  }

  lemma CommitIsUpToDate(n: nat, t: nat, s: State, who: set<int>, e: nat)
    requires |s.completed| == |s.quorums| && who <= Range(n) && |who| + RecoveryThreshold(t, n) > n
    ensures UpToDate(n, t, Commit(s, who, e))
  {
    forall i | i in who ensures StoredLast(Commit(s, who, e), i) {
      CommitStores(s, who, e, i);
    }
  }

  lemma RestartKeepsUpToDate(n: nat, t: nat, s: State, held: map<int, Holding>)
    requires UpToDate(n, t, s)
    requires forall i :: i in held ==>
      (i in s.held && held[i] == s.held[i]) || (StoredBy(s, i) != [] && held[i] == StoredBy(s, i)[|StoredBy(s, i)| - 1])
    ensures UpToDate(n, t, s.(held := held))
  {
    forall i | StoredLast(s, i) ensures StoredLast(s.(held := held), i) {
    }
  }

  lemma EventKeepsUpToDate(n: nat, t: nat, s: State, ev: Event)
    requires 1 <= t <= n && 2 * RecoveryThreshold(t, n) >= n && UpToDate(n, t, s)
    requires Enabled(n, t, s, ev) && TakesLatest(s, ev)
    ensures UpToDate(n, t, Apply(n, s, ev)) && LinkedAt(n, s, ev)
  {
    if IsSession(ev) {
      UpToDateIsLinked(n, t, s, ev);
      CommitIsUpToDate(n, t, s, Who(n, ev), Target(s, ev));
    } else {
      RestartKeepsUpToDate(n, t, s, Apply(n, s, ev).held);
    }
  }

  lemma {:induction false} LatestReloadsLinkSessions(n: nat, t: nat, evs: seq<Event>)
    requires 1 <= t <= n && 2 * RecoveryThreshold(t, n) >= n && Valid(n, t, evs) && LatestReloads(n, evs)
    ensures UpToDate(n, t, After(n, evs)) && Linked(n, evs)
  {
    if evs != [] {
      ValidInit(n, t, evs);
      LatestInit(n, evs);
      LatestReloadsLinkSessions(n, t, Init(evs));
      EventKeepsUpToDate(n, t, After(n, Init(evs)), Last(evs));
      LinkedInit(n, evs);
    }
  }

  /** Whatever the committee, if epochs grow then shares on one epoch come from one session. */
  lemma OneSessionPerEpoch(n: nat, t: nat, evs: seq<Event>, i: int, j: int)
    requires n >= 1 && Valid(n, t, evs) && Increasing(After(n, evs).completed)
    requires i in After(n, evs).held && j in After(n, evs).held
    requires After(n, evs).held[i].epoch == After(n, evs).held[j].epoch
    ensures After(n, evs).held[i].origin == After(n, evs).held[j].origin
  {
    RunIsSound(n, t, evs);
    var s := After(n, evs);
    IncreasingIsInjective(s.completed, s.held[i].origin, s.held[j].origin);
  }

  lemma IncreasingIsInjective(es: seq<nat>, i: nat, j: nat)
    requires Increasing(es) && i < |es| && j < |es| && es[i] == es[j]
    ensures i == j
  {
  }
}
