/**
 What the lifecycle guarantees about the master: over every interleaving a node's group key never
 changes during a process lifetime, shares from one session interpolate to it, and the cluster has
 one master as long as nodes without a key recover from dealers of one session.
 */
module Master {
  import opened Collections
  import opened PrimeField
  import opened Polynomial
  import opened Lagrange
  import opened Threshold
  import opened Reshare
  import opened Lifecycle

  lemma {:induction false} RunKeepsInv(c: Config, states: seq<State>, steps: seq<Step>, k: nat)
    requires c.p >= 2 && IsRun(c, states, steps) && k < |states|
    ensures Inv(c, states[k])
  {
    if k > 0 {
      RunKeepsInv(c, states, steps, k - 1);
      assert StepAt(c, states, steps, k - 1);
      StepKeepsInv(c, states[k - 1], states[k], steps[k - 1]);
    }
  }

  // ---- Constancy of a node's key ----

  /** Storing writes the key that was checked, so a task that ends a session keeps a key already set. */
  lemma TaskKeepsKey(c: Config, s: State, nd: Node, nd': Node, step: Step, i: int)
    requires c.p >= 2 && NodeOk(c, s.sessions, i, nd) && nd.key.Some? && !step.Crash?
    requires GenesisStep(c, s, nd, nd', step) || RecoveryStep(c, s, nd, nd', step) || FormStep(c, s, nd, nd', step)
    ensures nd'.key == nd.key
  {
  }

  lemma NodeStepKeepsKey(c: Config, s: State, nd': Node, step: Step)
    requires c.p >= 2 && !step.Propose? && !step.Crash? && step.i in s.nodes && s.nodes[step.i].key.Some?
    requires NodeOk(c, s.sessions, step.i, s.nodes[step.i]) && NodeStep(c, s, s.nodes[step.i], nd', step)
    ensures nd'.key == s.nodes[step.i].key
  {
    if IsDealing(step) {
      DealingStepKeepsKey(c, s, nd', step);
    } else {
      TaskKeepsKey(c, s, s.nodes[step.i], nd', step, step.i);
    }
  }

  lemma StepKeepsKey(c: Config, s: State, s': State, step: Step, i: int)
    requires c.p >= 2 && Inv(c, s) && Next(c, s, s', step) && i in s.nodes && step != Crash(i)
    requires s.nodes[i].key.Some?
    ensures i in s'.nodes && s'.nodes[i].key == s.nodes[i].key
  {
    if !step.Propose? && step.i == i {
      assert NodeOk(c, s.sessions, i, s.nodes[i]);
      NodeStepKeepsKey(c, s, s'.nodes[i], step);
    }
  }

  /**
   Master constancy: between two moments of one process lifetime of node `i`, over every
   interleaving of genesis, recovery, dealing, refresh and reload anywhere in the cluster, the
   node's group key does not change once set.
   */
  lemma {:induction false} KeyNeverChanges(c: Config, states: seq<State>, steps: seq<Step>, i: int, a: nat, b: nat)
    requires c.p >= 2 && IsRun(c, states, steps) && a <= b < |states| && i in Members(c)
    requires forall k :: a <= k < b ==> steps[k] != Crash(i)
    requires i in states[a].nodes && states[a].nodes[i].key.Some?
    ensures i in states[b].nodes && states[b].nodes[i].key == states[a].nodes[i].key
    decreases b
  {
    if a < b {
      KeyNeverChanges(c, states, steps, i, a, b - 1);
      RunStepKeepsKey(c, states, steps, i, b - 1);
    }
  }

  lemma RunStepKeepsKey(c: Config, states: seq<State>, steps: seq<Step>, i: int, k: nat)
    requires c.p >= 2 && IsRun(c, states, steps) && k < |steps| && steps[k] != Crash(i)
    requires i in states[k].nodes && states[k].nodes[i].key.Some?
    ensures i in states[k + 1].nodes && states[k + 1].nodes[i].key == states[k].nodes[i].key
  {
    RunKeepsInv(c, states, steps, k);
    assert StepAt(c, states, steps, k);
    StepKeepsKey(c, states[k], states[k + 1], steps[k], i);
  }

  /** In every reachable state a node with a share knows the key of the session the share is from. */
  lemma HeldShareHasItsKey(c: Config, states: seq<State>, steps: seq<Step>, k: nat, i: int)
    requires c.p >= 2 && IsRun(c, states, steps) && k < |states| && i in Members(c)
    ensures i in states[k].nodes
    ensures states[k].nodes[i].shard.Some? ==>
      states[k].nodes[i].key.Some? &&
      ShardOk(c, states[k].sessions, i, states[k].nodes[i].shard.value, states[k].nodes[i].key.value)
  {
    RunKeepsInv(c, states, steps, k);
    assert NodeOk(c, states[k].sessions, i, states[k].nodes[i]);
  }

  /** No node ever has shards to hand out, so the legacy assignment is never taken in any run. */
  lemma NoShareIsEverAssigned(c: Config, states: seq<State>, steps: seq<Step>, k: nat)
    requires c.p >= 2 && IsRun(c, states, steps) && k < |steps|
    ensures !steps[k].AdoptAssigned?
    ensures forall i :: i in states[k].nodes ==> states[k].nodes[i].pending.None?
  {
    RunKeepsInv(c, states, steps, k);
    assert StepAt(c, states, steps, k);
    forall i | i in states[k].nodes ensures states[k].nodes[i].pending.None? {
      assert NodeOk(c, states[k].sessions, i, states[k].nodes[i]);
    }
  }

  /**
   In every reachable state a dealt share comes from a finished session on an earlier epoch, so no
   session is ever dealt from itself, directly or through others.
   */
  lemma DealtSharesAreOlder(c: Config, states: seq<State>, steps: seq<Step>, k: nat, sid: nat, d: int)
    requires c.p >= 2 && IsRun(c, states, steps) && k < |states|
    requires sid in states[k].sessions && d in states[k].sessions[sid].dealt
    ensures
      var ss := states[k].sessions;
      var sh := ss[sid].dealt[d];
      Done(c, ss, sh.origin) && sh == ShardFrom(c, ss, sh.origin, d) && ss[sh.origin].epoch < ss[sid].epoch
  {
    RunKeepsInv(c, states, steps, k);
    assert SessionOk(c, states[k].sessions, states[k].sessions[sid]);
  }

  /** Every reshare of a run has at least `t` dealers and, with the node recovering, more than half the committee. */
  lemma ReshareHasAQuorum(c: Config, states: seq<State>, steps: seq<Step>, k: nat, sid: nat)
    requires c.p >= 2 && 1 <= c.t <= c.n && IsRun(c, states, steps) && k < |states|
    requires sid in states[k].sessions && !states[k].sessions[sid].genesis
    ensures
      var s := states[k].sessions[sid];
      |s.dealers| >= c.t && 2 * |Participants(c, s)| > c.n
  {
    RunKeepsInv(c, states, steps, k);
    assert SessionOk(c, states[k].sessions, states[k].sessions[sid]);
  }

  // ---- Shares of one session interpolate to the key ----

  lemma SessionPolynomial(c: Config, ss: Sessions, s: Session)
    requires c.p >= 2 && SessionOk(c, ss, s) && Complete(c, s)
    ensures AllShort(c.t, Contributions(s, Participants(c, s)))
    ensures |Total(Contributions(s, Participants(c, s)))| <= c.t
    ensures forall id :: ShareOf(c, s, id) == Eval(Total(Contributions(s, Participants(c, s))), id) % c.p
    ensures KeyOf(c, s) == Eval(Total(Contributions(s, Participants(c, s))), 0) % c.p
  {
    var ids := Participants(c, s);
    var polys := Contributions(s, ids);
    forall j | 0 <= j < |polys| ensures |polys[j]| <= c.t {
      var id := ids[j];
      assert id in s.polys && id in Participants(c, s);
      assert |s.polys[id]| <= c.t;
    }
    TotalDeals(c.t, polys, 0);
    forall id ensures ShareOf(c, s, id) == Eval(Total(polys), id) % c.p {
      TotalDeals(c.t, polys, id);
    }
  }

  /** The polynomial that a finished session shares the key with. */
  function Sharing(c: Config, s: Session): Poly
    requires Complete(c, s)
  {
    Total(Contributions(s, Participants(c, s)))
  }

  /** Node `j` holds, or has sealed, the share `sh`. */
  predicate Keeps(s: State, j: int, sh: Shard) {
    j in s.nodes && (s.nodes[j].shard == Some(sh) || exists b :: b in s.nodes[j].seals && b.shard == sh)
  }

  lemma KeptShareLiesOn(c: Config, s: State, j: int, sh: Shard)
    requires c.p >= 2 && Inv(c, s) && Keeps(s, j, sh)
    ensures Done(c, s.sessions, sh.origin) && sh.value == Eval(Sharing(c, s.sessions[sh.origin]), j) % c.p
  {
    assert NodeOk(c, s.sessions, j, s.nodes[j]);
    SessionPolynomial(c, s.sessions, s.sessions[sh.origin]);
  }

  /**
   The master of a process lifetime: whatever sessions overlapped and whichever epochs their dealers
   mixed, the share node `i` holds at moment `b` is from a session whose polynomial has the key `i`
   knew at moment `a` as its intercept; and every share of that session that any node holds or has
   sealed lies on that same polynomial.
   */
  lemma AdoptedShareKeepsTheMaster(c: Config, states: seq<State>, steps: seq<Step>, i: int, a: nat, b: nat)
    requires c.p >= 2 && IsRun(c, states, steps) && a <= b < |states| && i in Members(c)
    requires forall k :: a <= k < b ==> steps[k] != Crash(i)
    requires i in states[a].nodes && states[a].nodes[i].key.Some?
    requires i in states[b].nodes && states[b].nodes[i].shard.Some?
    ensures
      var s, o := states[b], states[b].nodes[i].shard.value.origin;
      && Done(c, s.sessions, o)
      && var f := Sharing(c, s.sessions[o]);
         && |f| <= c.t && states[a].nodes[i].key == Some(Eval(f, 0) % c.p)
         && s.nodes[i].shard.value.value == Eval(f, i) % c.p
         && forall j, sh :: Keeps(s, j, sh) && sh.origin == o ==> sh.value == Eval(f, j) % c.p
  {
    KeyNeverChanges(c, states, steps, i, a, b);
    HeldShareHasItsKey(c, states, steps, b, i);
    RunKeepsInv(c, states, steps, b);
    var s, o := states[b], states[b].nodes[i].shard.value.origin;
    SessionPolynomial(c, s.sessions, s.sessions[o]);
    forall j, sh | Keeps(s, j, sh) && sh.origin == o ensures sh.value == Eval(Sharing(c, s.sessions[o]), j) % c.p {
      KeptShareLiesOn(c, s, j, sh);
    }
  }

  /** Members' ids are distinct non-zero scalars. */
  lemma MembersAreUsable(c: Config, ids: seq<int>)
    requires ValidConfig(c) && NoRepeats(ids) && forall i :: 0 <= i < |ids| ==> 1 <= ids[i] <= c.n
    ensures UsableIds(c.p, ids)
  {
    forall i | 0 <= i < |ids| ensures ids[i] % c.p == ids[i] {
      SmallResidue(c.p, ids[i]);
    }
  }

  /**
   In every reachable state, the shares of any `t` nodes that hold shares of one session
   interpolate to the group key, and each of those nodes holds that key.
   */
  lemma HeldSharesGiveTheKey(c: Config, states: seq<State>, steps: seq<Step>, k: nat, ids: seq<int>, origin: nat)
    requires ValidConfig(c) && IsRun(c, states, steps) && k < |states|
    requires NoRepeats(ids) && |ids| >= c.t
    requires forall i :: 0 <= i < |ids| ==>
      ids[i] in states[k].nodes && states[k].nodes[ids[i]].shard.Some? &&
      states[k].nodes[ids[i]].shard.value.origin == origin
    ensures var s := states[k];
            var values := seq(|ids|, i requires 0 <= i < |ids| => s.nodes[ids[i]].shard.value.value);
            forall i :: 0 <= i < |ids| ==> s.nodes[ids[i]].key == Some(AtZero(c.p, ids, values))
  {
    var s := states[k];
    RunKeepsInv(c, states, steps, k);
    var values := seq(|ids|, i requires 0 <= i < |ids| => s.nodes[ids[i]].shard.value.value);
    forall i | 0 <= i < |ids|
      ensures 1 <= ids[i] <= c.n && s.nodes[ids[i]].key.Some?
      ensures ShardOk(c, s.sessions, ids[i], s.nodes[ids[i]].shard.value, s.nodes[ids[i]].key.value)
    {
      assert NodeOk(c, s.sessions, ids[i], s.nodes[ids[i]]);
      MemberIsInUpTo(c, ids[i]);
    }
    MembersAreUsable(c, ids);
    assert Done(c, s.sessions, origin) by {
      assert ShardOk(c, s.sessions, ids[0], s.nodes[ids[0]].shard.value, s.nodes[ids[0]].key.value);
    }
    SessionPolynomial(c, s.sessions, s.sessions[origin]);
    var f := Total(Contributions(s.sessions[origin], Participants(c, s.sessions[origin])));
    forall i | 0 <= i < |ids| ensures Same(c.p, values[i], Eval(f, ids[i])) {
      ReducedIsSame(c.p, Eval(f, ids[i]));
    }
    InterceptRecovered(c.p, f, ids, values);
  }

  // ---- What a reshare session's key is ----

  function DealtValues(s: Session, k: nat): (values: seq<int>)
    requires k <= |s.dealers| && forall i :: 0 <= i < k ==> s.dealers[i] in s.dealt
    ensures |values| == k && forall i :: 0 <= i < k ==> values[i] == s.dealt[s.dealers[i]].value
  {
    if k == 0 then [] else DealtValues(s, k - 1) + [s.dealt[s.dealers[k - 1]].value]
  }

  ghost predicate FullyDealt(c: Config, ss: Sessions, s: Session)
    requires c.p >= 2
  {
    SessionOk(c, ss, s) && Complete(c, s) && !s.genesis
  }

  lemma {:induction false} IndexIsUnique(xs: seq<int>, i: nat)
    requires NoRepeats(xs) && i < |xs|
    ensures IndexOf(xs, xs[i]) == i
  {
    if i > 0 {
      assert xs[0] != xs[i];
      IndexIsUnique(xs[1..], i - 1);
    }
  }

  lemma DealerIntercept(c: Config, ss: Sessions, s: Session, i: nat)
    requires c.p >= 2 && FullyDealt(c, ss, s) && i < |s.dealers|
    ensures s.dealers[i] in s.dealt && s.dealers[i] in s.polys
    ensures Same(c.p, Eval(s.polys[s.dealers[i]], 0), Weight(c.p, s.dealers, i) * s.dealt[s.dealers[i]].value)
  {
    var d := s.dealers[i];
    assert Participants(c, s)[i] == d;
    assert d in s.dealers && d in s.polys;
    IndexIsUnique(s.dealers, i);
    assert DealerPoly(c, s, d, s.dealt[d].value, s.polys[d]);
  }

  lemma EveryDealerDealt(c: Config, ss: Sessions, s: Session)
    requires c.p >= 2 && FullyDealt(c, ss, s)
    ensures forall i :: 0 <= i < |s.dealers| ==> s.dealers[i] in s.dealt
    ensures Intercepts(c.p, s.dealers, DealtValues(s, |s.dealers|), Contributions(s, Participants(c, s)))
  {
    var ids := Participants(c, s);
    var polys := Contributions(s, ids);
    forall i | 0 <= i < |s.dealers|
      ensures s.dealers[i] in s.dealt
      ensures Same(c.p, Eval(polys[i], 0), Weight(c.p, s.dealers, i) * s.dealt[s.dealers[i]].value)
    {
      assert ids[i] == s.dealers[i];
      DealerIntercept(c, ss, s, i);
    }
    forall i | |s.dealers| <= i < |polys| ensures Same(c.p, Eval(polys[i], 0), 0) {
      RecoveringIntercept(c, ss, s, i);
    }
  }

  lemma RecoveringIntercept(c: Config, ss: Sessions, s: Session, i: nat)
    requires c.p >= 2 && FullyDealt(c, ss, s) && |s.dealers| <= i < |Participants(c, s)|
    ensures Same(c.p, Eval(Contributions(s, Participants(c, s))[i], 0), 0)
  {
    assert Participants(c, s)[i] == s.recovering && s.recovering in s.polys;
  }

  /** A reshare's group key is the interpolation of the shares its dealers brought, mixed or not. */
  lemma SessionKeyInterpolatesDealtShares(c: Config, ss: Sessions, s: Session)
    requires c.p >= 2 && FullyDealt(c, ss, s)
    ensures forall i :: 0 <= i < |s.dealers| ==> s.dealers[i] in s.dealt
    ensures KeyOf(c, s) == AtZero(c.p, s.dealers, DealtValues(s, |s.dealers|))
  {
    EveryDealerDealt(c, ss, s);
    SessionPolynomial(c, ss, s);
    SessionOutcome(c.p, c.t, s.dealers, DealtValues(s, |s.dealers|), Contributions(s, Participants(c, s)));
  }

  /** All dealers brought shares of the session `origin`. */
  predicate OneOrigin(s: Session, origin: nat) {
    forall d :: d in s.dealt ==> s.dealt[d].origin == origin
  }

  lemma DealtShareLiesOn(c: Config, ss: Sessions, s: Session, origin: nat, i: nat)
    requires ValidConfig(c) && FullyDealt(c, ss, s) && OneOrigin(s, origin)
    requires i < |s.dealers| && s.dealers[i] in s.dealt
    requires origin in ss && SessionOk(c, ss, ss[origin])
    ensures Done(c, ss, origin) && 1 <= s.dealers[i] <= c.n
    ensures
      var f := Total(Contributions(ss[origin], Participants(c, ss[origin])));
      Same(c.p, s.dealt[s.dealers[i]].value, Eval(f, s.dealers[i]))
  {
    assert s.dealers[i] in s.dealers;
    assert s.dealt[s.dealers[i]] == ShardFrom(c, ss, origin, s.dealers[i]);
    SessionPolynomial(c, ss, ss[origin]);
    ReducedIsSame(c.p, Eval(Total(Contributions(ss[origin], Participants(c, ss[origin]))), s.dealers[i]));
  }

  /** A reshare whose dealers bring shares of one session has that session's key. */
  lemma OneOriginPreservesKey(c: Config, ss: Sessions, s: Session, origin: nat)
    requires ValidConfig(c) && FullyDealt(c, ss, s) && |s.dealers| >= c.t && OneOrigin(s, origin)
    requires origin in ss && SessionOk(c, ss, ss[origin])
    ensures Done(c, ss, origin) && KeyOf(c, s) == KeyOf(c, ss[origin])
  {
    SessionKeyInterpolatesDealtShares(c, ss, s);
    var values := DealtValues(s, |s.dealers|);
    DealtShareLiesOn(c, ss, s, origin, 0);
    var f := Total(Contributions(ss[origin], Participants(c, ss[origin])));
    forall i | 0 <= i < |s.dealers|
      ensures Same(c.p, values[i], Eval(f, s.dealers[i])) && 1 <= s.dealers[i] <= c.n
    {
      DealtShareLiesOn(c, ss, s, origin, i);
    }
    MembersAreUsable(c, s.dealers);
    SessionPolynomial(c, ss, ss[origin]);
    InterceptRecovered(c.p, f, s.dealers, values);
  }

  // ---- One master for the cluster ----

  /** Everything the cluster holds, seals or deals belongs to master `m`. */
  ghost predicate OneMaster(c: Config, s: State, m: int)
    requires c.p >= 2
  {
    && (forall i :: i in s.nodes ==> s.nodes[i].key.Some? ==> s.nodes[i].key.value == m)
    && (forall i, b :: i in s.nodes && b in s.nodes[i].seals ==> b.key == m)
    && (forall sid, d :: sid in s.sessions && d in s.sessions[sid].dealt ==>
          Done(c, s.sessions, s.sessions[sid].dealt[d].origin) &&
          KeyOf(c, s.sessions[s.sessions[sid].dealt[d].origin]) == m)
  }

  /** A genesis that finishes has key `m`. */
  predicate OneGenesis(c: Config, s: State, step: Step, m: int)
    requires c.p > 0
  {
    step.StoreGenesisKey? && step.i in s.nodes && s.nodes[step.i].form.InGenesis? &&
    Done(c, s.sessions, s.nodes[step.i].form.sid)
    ==> KeyOf(c, s.sessions[s.nodes[step.i].form.sid]) == m
  }

  /** A node that knows no key is about to store the outcome of a recovery. */
  predicate KeylessRecovery(c: Config, s: State, step: Step) {
    && step.StoreRecoveryKey? && step.i in s.nodes
    && s.nodes[step.i].form.RecoveryChecked? && s.nodes[step.i].key.None?
    && Done(c, s.sessions, s.nodes[step.i].form.sid)
  }

  /** What the code does not check: that a keyless node recovers from dealers on one polynomial. */
  ghost predicate CleanStep(c: Config, s: State, step: Step) {
    KeylessRecovery(c, s, step) ==> exists o :: OneOrigin(s.sessions[s.nodes[step.i].form.sid], o)
  }

  /** The step brings no second master: a finished genesis, and a keyless recovery, have key `m`. */
  predicate SafeStep(c: Config, s: State, step: Step, m: int)
    requires c.p > 0
  {
    && OneGenesis(c, s, step, m)
    && (KeylessRecovery(c, s, step) ==> KeyOf(c, s.sessions[s.nodes[step.i].form.sid]) == m)
  }

  lemma CleanStepIsSafe(c: Config, s: State, step: Step, m: int)
    requires ValidConfig(c) && Inv(c, s) && OneMaster(c, s, m) && OneGenesis(c, s, step, m) && CleanStep(c, s, step)
    ensures SafeStep(c, s, step, m)
  {
    if KeylessRecovery(c, s, step) {
      assert NodeOk(c, s.sessions, step.i, s.nodes[step.i]);
      CleanRecoveryHasMaster(c, s, m, s.nodes[step.i].form.sid);
    }
  }

  lemma CleanRecoveryHasMaster(c: Config, s: State, m: int, sid: nat)
    requires ValidConfig(c) && Inv(c, s) && OneMaster(c, s, m) && Done(c, s.sessions, sid)
    requires !s.sessions[sid].genesis && exists o :: OneOrigin(s.sessions[sid], o)
    ensures KeyOf(c, s.sessions[sid]) == m
  {
    var sess := s.sessions[sid];
    var o :| OneOrigin(sess, o);
    assert SessionOk(c, s.sessions, sess);
    EveryDealerDealt(c, s.sessions, sess);
    assert sess.dealers[0] in sess.dealt;
    assert sess.dealt[sess.dealers[0]].origin == o;
    OneOriginPreservesKey(c, s.sessions, sess, o);
  }

  /** Only a reload, a store or a crash touches a node's key or its sealed records. */
  lemma OthersKeepKeyAndSeals(c: Config, s: State, s': State, step: Step, i: int)
    requires c.p >= 2 && Next(c, s, s', step) && i in s'.nodes
    requires step.Propose? || step.i != i ||
             !(step.Reload? || step.StoreGenesisKey? || step.StoreRecoveryKey? || step.StoreDealingKey? || step.Crash?)
    ensures i in s.nodes && s'.nodes[i].key == s.nodes[i].key && s'.nodes[i].seals == s.nodes[i].seals
  {
  }

  lemma StoredKeyIsMaster(c: Config, s: State, nd': Node, step: Step, m: int)
    requires c.p >= 2 && Inv(c, s) && OneMaster(c, s, m) && SafeStep(c, s, step, m)
    requires step.StoreGenesisKey? || step.StoreRecoveryKey? || step.StoreDealingKey?
    requires step.i in s.nodes && NodeStep(c, s, s.nodes[step.i], nd', step)
    ensures nd'.key == Some(m) && forall b :: b in nd'.seals && b !in s.nodes[step.i].seals ==> b.key == m
  {
    var nd := s.nodes[step.i];
    assert NodeOk(c, s.sessions, step.i, nd);
    if step.StoreDealingKey? {
      DealingStepKeepsKey(c, s, nd', step);
    }
  }

  lemma SafeStepKeepsNodes(c: Config, s: State, s': State, step: Step, m: int, i: int)
    requires c.p >= 2 && Inv(c, s) && Next(c, s, s', step)
    requires OneMaster(c, s, m) && SafeStep(c, s, step, m) && i in s'.nodes
    ensures s'.nodes[i].key.Some? ==> s'.nodes[i].key.value == m
    ensures forall b :: b in s'.nodes[i].seals ==> b.key == m
  {
    if !step.Propose? && step.i == i && (step.StoreGenesisKey? || step.StoreRecoveryKey? || step.StoreDealingKey?) {
      StoredKeyIsMaster(c, s, s'.nodes[i], step, m);
    } else if !step.Propose? && step.i == i && (step.Reload? || step.Crash?) {
      assert s'.nodes[i].seals == s.nodes[i].seals;
    } else {
      OthersKeepKeyAndSeals(c, s, s', step, i);
    }
  }

  lemma DealtBefore(c: Config, s: State, s': State, step: Step, sid: nat, d: int)
    requires c.p >= 2 && Next(c, s, s', step) && sid in s'.sessions && d in s'.sessions[sid].dealt
    ensures
      || (sid in s.sessions && d in s.sessions[sid].dealt && s'.sessions[sid].dealt[d] == s.sessions[sid].dealt[d])
      || (step.JoinDealing? && step.i == d && d in s.nodes && s.nodes[d].shard == Some(s'.sessions[sid].dealt[d]))
  {
  }

  lemma HeldShardIsOfMaster(c: Config, s: State, m: int, d: int)
    requires c.p >= 2 && Inv(c, s) && OneMaster(c, s, m) && d in s.nodes && s.nodes[d].shard.Some?
    ensures Done(c, s.sessions, s.nodes[d].shard.value.origin)
    ensures KeyOf(c, s.sessions[s.nodes[d].shard.value.origin]) == m
  {
    assert NodeOk(c, s.sessions, d, s.nodes[d]);
  }

  lemma StepKeepsDealt(c: Config, s: State, s': State, step: Step, m: int, sid: nat, d: int)
    requires c.p >= 2 && Inv(c, s) && Next(c, s, s', step) && OneMaster(c, s, m)
    requires sid in s'.sessions && d in s'.sessions[sid].dealt
    ensures Done(c, s'.sessions, s'.sessions[sid].dealt[d].origin)
    ensures KeyOf(c, s'.sessions[s'.sessions[sid].dealt[d].origin]) == m
  {
    SessionsGrow(c, s, s'.sessions, step);
    DealtBefore(c, s, s', step, sid, d);
    var o := s'.sessions[sid].dealt[d].origin;
    if !(sid in s.sessions && d in s.sessions[sid].dealt) {
      HeldShardIsOfMaster(c, s, m, d);
    }
    assert Done(c, s.sessions, o) && KeyOf(c, s.sessions[o]) == m;
  }

  lemma SafeStepKeepsMaster(c: Config, s: State, s': State, step: Step, m: int)
    requires c.p >= 2 && Inv(c, s) && Next(c, s, s', step) && OneMaster(c, s, m) && SafeStep(c, s, step, m)
    ensures OneMaster(c, s', m)
  {
    forall i | i in s'.nodes
      ensures s'.nodes[i].key.Some? ==> s'.nodes[i].key.value == m
      ensures forall b :: b in s'.nodes[i].seals ==> b.key == m
    {
      SafeStepKeepsNodes(c, s, s', step, m, i);
    }
    forall sid, d | sid in s'.sessions && d in s'.sessions[sid].dealt
      ensures Done(c, s'.sessions, s'.sessions[sid].dealt[d].origin)
      ensures KeyOf(c, s'.sessions[s'.sessions[sid].dealt[d].origin]) == m
    {
      StepKeepsDealt(c, s, s', step, m, sid, d);
    }
  }

  /** In every clean run the whole cluster has one master, across crashes and reloads. */
  lemma {:induction false} CleanRunHasOneMaster(c: Config, states: seq<State>, steps: seq<Step>, m: int, k: nat)
    requires ValidConfig(c) && IsRun(c, states, steps) && k < |states|
    requires forall l :: 0 <= l < |steps| ==> OneGenesis(c, states[l], steps[l], m) && CleanStep(c, states[l], steps[l])
    ensures OneMaster(c, states[k], m)
  {
    if k > 0 {
      CleanRunHasOneMaster(c, states, steps, m, k - 1);
      RunKeepsInv(c, states, steps, k - 1);
      assert StepAt(c, states, steps, k - 1);
      CleanStepIsSafe(c, states[k - 1], steps[k - 1], m);
      SafeStepKeepsMaster(c, states[k - 1], states[k], steps[k - 1], m);
    }
  }

  // ---- Genesis exclusivity ----

  lemma NewContribution(c: Config, s: State, ss': Sessions, step: Step, sid: nat, j: int)
    requires c.p >= 2 && SessionStep(c, s, ss', step)
    requires sid in ss' && ss'[sid].genesis && j in ss'[sid].polys
    requires !(sid in s.sessions && s.sessions[sid].genesis && j in s.sessions[sid].polys)
    ensures step.JoinGenesis? && step.i == j && step.sid == sid
  {
  }

  lemma JoinerIsShareless(c: Config, s: State, nd': Node, step: Step)
    requires c.p >= 2 && step.JoinGenesis? && step.i in s.nodes && NodeOk(c, s.sessions, step.i, s.nodes[step.i])
    requires NodeStep(c, s, s.nodes[step.i], nd', step)
    ensures s.nodes[step.i].shard.None? && s.nodes[step.i].key.None?
  {
  }

  /** Whoever contributed to a genesis session joined it at a moment when it held no share. */
  lemma {:induction false} ContributorWasShareless(
    c: Config, states: seq<State>, steps: seq<Step>, k: nat, sid: nat, j: int) returns (l: nat)
    requires c.p >= 2 && IsRun(c, states, steps) && k < |states|
    requires sid in states[k].sessions && states[k].sessions[sid].genesis && j in states[k].sessions[sid].polys
    ensures l < k && steps[l].JoinGenesis? && steps[l].i == j && steps[l].sid == sid
    ensures j in states[l].nodes && states[l].nodes[j].shard.None? && states[l].nodes[j].key.None?
    decreases k
  {
    var s, step := states[k - 1], steps[k - 1];
    assert StepAt(c, states, steps, k - 1);
    if sid in s.sessions && s.sessions[sid].genesis && j in s.sessions[sid].polys {
      l := ContributorWasShareless(c, states, steps, k - 1, sid, j);
    } else {
      l := k - 1;
      RunKeepsInv(c, states, steps, l);
      NewContribution(c, s, states[k].sessions, step, sid, j);
      assert NodeOk(c, s.sessions, j, s.nodes[j]);
      JoinerIsShareless(c, s, states[k].nodes[j], step);
    }
  }

  /** Genesis finishes at a node only if every committee member joined that session without a share. */
  lemma GenesisNeedsAShareLessCommittee(c: Config, states: seq<State>, steps: seq<Step>, k: nat, j: int)
    returns (l: nat)
    requires c.p >= 2 && IsRun(c, states, steps) && k < |steps| && steps[k].StoreGenesisKey? && j in Members(c)
    ensures steps[k].i in states[k].nodes && states[k].nodes[steps[k].i].form.InGenesis?
    ensures l < k && steps[l].JoinGenesis? && steps[l].i == j && steps[l].sid == states[k].nodes[steps[k].i].form.sid
    ensures j in states[l].nodes && states[l].nodes[j].shard.None?
  {
    RunKeepsInv(c, states, steps, k);
    assert StepAt(c, states, steps, k);
    var i := steps[k].i;
    var sid := states[k].nodes[i].form.sid;
    assert NodeOk(c, states[k].sessions, i, states[k].nodes[i]);
    MemberIsInUpTo(c, j);
    assert UpTo(c.n)[j - 1] == j;
    l := ContributorWasShareless(c, states, steps, k, sid, j);
  }

  /** Only the top of the formation loop starts a fresh attempt. */
  lemma {:induction false} DeclinedLasts(c: Config, states: seq<State>, steps: seq<Step>, j: int, a: nat, b: nat)
    requires c.p >= 2 && IsRun(c, states, steps) && a <= b < |states|
    requires j in states[a].nodes && !states[a].nodes[j].form.Attempt?
    requires forall k :: a <= k < b ==> steps[k] != SeeNoShard(j)
    ensures j in states[b].nodes && !states[b].nodes[j].form.Attempt?
    decreases b
  {
    if a < b {
      DeclinedLasts(c, states, steps, j, a, b - 1);
      assert StepAt(c, states, steps, b - 1);
      OnlyTheLoopAttempts(c, states[b - 1], states[b], steps[b - 1], j);
    }
  }

  lemma OnlyTheLoopAttempts(c: Config, s: State, s': State, step: Step, j: int)
    requires c.p >= 2 && Next(c, s, s', step) && j in s.nodes && !s.nodes[j].form.Attempt? && step != SeeNoShard(j)
    ensures j in s'.nodes && !s'.nodes[j].form.Attempt?
  {
  }

  /** In the attempt in which a node joins genesis, no seed that answered it held a share. */
  lemma GenesisProbesFoundNoShare(c: Config, states: seq<State>, steps: seq<Step>, l: nat, a: nat)
    requires c.p >= 2 && IsRun(c, states, steps) && a < l < |steps| && steps[l].JoinGenesis?
    requires steps[a].Ask? && steps[a].i == steps[l].i
    requires forall k :: a < k < l ==> steps[k] != SeeNoShard(steps[l].i)
    ensures steps[a].seed in states[a].nodes && states[a].nodes[steps[a].seed].shard.None?
  {
    var j := steps[l].i;
    assert StepAt(c, states, steps, a);
    assert StepAt(c, states, steps, l);
    if !states[a + 1].nodes[j].form.Attempt? {
      DeclinedLasts(c, states, steps, j, a + 1, l);
      assert false;
    }
  }
}
