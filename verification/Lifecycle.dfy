/**
 The life of the cluster as a transition system.  Each node runs one formation task (boot, form
 loop, genesis or recovery, watchdog) and any number of dealer tasks; a task's reads, its group-key
 check and its two writes are separate steps, so tasks interleave between them.  A session is an
 attempt whose members' contributions are agreed by the key-generation library.
 */
module Lifecycle {
  import opened Collections
  import opened PrimeField
  import opened Polynomial
  import opened Lagrange
  import opened Reshare
  import Membership

  /** Field order, threshold and committee size. */
  datatype Config = Config(p: int, t: nat, n: nat)

  ghost predicate ValidConfig(c: Config) {
    IsPrime(c.p) && 1 <= c.t <= c.n < c.p
  }

  /** A held share.  `origin` names the session that produced it; it annotates the model only. */
  datatype Shard = Shard(value: int, epoch: nat, origin: nat)

  /** What `store_share` seals for the next process lifetime. */
  datatype Sealed = Sealed(shard: Shard, key: int)

  datatype Session = Session(
    genesis: bool,
    dealers: seq<int>,
    recovering: int,
    epoch: nat,
    polys: map<int, Poly>,
    dealt: map<int, Shard>)

  datatype Form =
    | Boot
    | LoopTop
    | Attempt
    | Declined
    | InGenesis(sid: nat)
    | GenesisStoring(sid: nat)
    | InRecovery(sid: nat)
    | RecoveryChecked(sid: nat)
    | RecoveryStoring(sid: nat)
    | Watching

  datatype Job = Running | Checked | Storing

  datatype Node = Node(
    shard: Option<Shard>,
    key: Option<int>,
    pending: Option<seq<int>>,
    form: Form,
    jobs: map<nat, Job>,
    seals: set<Sealed>)

  type Sessions = map<nat, Session>

  datatype State = State(nodes: map<int, Node>, sessions: Sessions)

  function Members(c: Config): set<int> {
    set i | i in UpTo(c.n)
  }

  // ---- Sessions ----

  function UpTo(k: nat): (ids: seq<int>)
    ensures |ids| == k && forall i :: 0 <= i < k ==> ids[i] == i + 1
  {
    if k == 0 then [] else UpTo(k - 1) + [k]
  }

  function Participants(c: Config, s: Session): seq<int> {
    if s.genesis then UpTo(c.n)
    else if s.recovering != 0 then s.dealers + [s.recovering]
    else s.dealers
  }

  predicate NoRepeats(xs: seq<int>) {
    forall i, j :: 0 <= i < j < |xs| ==> xs[i] != xs[j]
  }

  /**
   What an initiator asks for: genesis with everyone; a refresh dealt by the whole committee
   (`recovering` is 0); or a recovery with at least `t` dealers and a majority of participants.
   */
  predicate WellFormed(c: Config, s: Session) {
    if s.genesis then s.dealers == []
    else
      && NoRepeats(s.dealers)
      && s.recovering !in s.dealers
      && (forall d :: d in s.dealers ==> 1 <= d <= c.n)
      && (if s.recovering == 0 then |s.dealers| == c.n
          else 1 <= s.recovering <= c.n && |s.dealers| >= c.t && |s.dealers| + 1 >= Membership.Majority(c.n))
  }

  predicate Covers(polys: map<int, Poly>, ids: seq<int>) {
    forall i :: 0 <= i < |ids| ==> ids[i] in polys
  }

  predicate Complete(c: Config, s: Session) {
    Covers(s.polys, Participants(c, s))
  }

  function Contributions(s: Session, ids: seq<int>): (polys: seq<Poly>)
    requires Covers(s.polys, ids)
    ensures |polys| == |ids| && forall i :: 0 <= i < |ids| ==> polys[i] == s.polys[ids[i]]
  {
    if ids == [] then [] else [s.polys[ids[0]]] + Contributions(s, ids[1..])
  }

  function KeyOf(c: Config, s: Session): int
    requires c.p > 0 && Complete(c, s)
  {
    SessionKey(c.p, Contributions(s, Participants(c, s)))
  }

  function ShareOf(c: Config, s: Session, id: int): int
    requires c.p > 0 && Complete(c, s)
  {
    NewShare(c.p, Contributions(s, Participants(c, s)), id)
  }

  function IndexOf(xs: seq<int>, x: int): (i: nat)
    requires x in xs
    ensures i < |xs| && xs[i] == x
  {
    if xs[0] == x then 0 else 1 + IndexOf(xs[1..], x)
  }

  /** A dealer's polynomial: its intercept is the dealer's share times its Lagrange weight. */
  ghost predicate DealerPoly(c: Config, s: Session, d: int, v: int, f: Poly)
    requires c.p >= 2
  {
    d in s.dealers && |f| <= c.t && Same(c.p, Eval(f, 0), Weight(c.p, s.dealers, IndexOf(s.dealers, d)) * v)
  }

  // ---- Steps ----

  datatype Step =
    | Propose(sid: nat, session: Session)
    | Reload(i: int, blob: Sealed)
    | SkipReload(i: int)
    | SeeNoShard(i: int)
    | SeeShard(i: int)
    | Ask(i: int, seed: int)
    | Rebuff(i: int)
    | GiveUp(i: int)
    | AdoptAssigned(i: int, from: int)
    | JoinGenesis(i: int, sid: nat, f: Poly)
    | StoreGenesisKey(i: int)
    | StoreGenesisShard(i: int)
    | JoinRecovery(i: int, sid: nat, f: Poly)
    | CheckRecovery(i: int)
    | StoreRecoveryKey(i: int)
    | StoreRecoveryShard(i: int)
    | JoinDealing(i: int, sid: nat, f: Poly)
    | CheckDealing(i: int, sid: nat)
    | StoreDealingKey(i: int, sid: nat)
    | StoreDealingShard(i: int, sid: nat)
    | AbandonDealing(i: int, sid: nat)
    | Crash(i: int)

  predicate Done(c: Config, ss: Sessions, sid: nat) {
    sid in ss && Complete(c, ss[sid])
  }

  function ShardFrom(c: Config, ss: Sessions, sid: nat, i: int): Shard
    requires c.p > 0 && Done(c, ss, sid)
  {
    Shard(ShareOf(c, ss[sid], i), ss[sid].epoch, sid)
  }

  /** The check `run_reshare_recovery` and `run_reshare_dealer` make before storing. */
  predicate GuardPasses(c: Config, ss: Sessions, sid: nat, nd: Node)
    requires c.p > 0 && Done(c, ss, sid)
  {
    nd.key.None? || nd.key.value == KeyOf(c, ss[sid])
  }

  function FreshNode(seals: set<Sealed>): Node {
    Node(None, None, None, Boot, map[], seals)
  }

  function StoreKey(c: Config, ss: Sessions, sid: nat, i: int, nd: Node): Node
    requires c.p > 0 && Done(c, ss, sid)
  {
    var k := KeyOf(c, ss[sid]);
    nd.(key := Some(k), seals := nd.seals + {Sealed(ShardFrom(c, ss, sid, i), k)})
  }

  predicate IsGenesis(step: Step) {
    step.StoreGenesisKey? || step.StoreGenesisShard?
  }

  predicate IsRecovery(step: Step) {
    step.CheckRecovery? || step.StoreRecoveryKey? || step.StoreRecoveryShard?
  }

  predicate IsDealing(step: Step) {
    step.JoinDealing? || step.CheckDealing? || step.StoreDealingKey? || step.StoreDealingShard? || step.AbandonDealing?
  }

  /**
   Formation up to a session: reload, the loop, the probe of the seeds, joining, and the end of a
   lifetime.  A seed that holds a share declines, and so may any other for reasons of its own; an
   attempt that was declined can only recover, one that was not can only take part in genesis.
   */
  ghost predicate FormStep(c: Config, s: State, nd: Node, nd': Node, step: Step)
    requires c.p >= 2
  {
    var ss := s.sessions;
    match step
    case Reload(i, blob) =>
      nd.form.Boot? && blob in nd.seals &&
      nd' == nd.(shard := Some(blob.shard), key := Some(blob.key), form := LoopTop)
    case SkipReload(i) => nd.form.Boot? && nd' == nd.(form := LoopTop)
    case SeeNoShard(i) => nd.form.LoopTop? && nd.shard.None? && nd' == nd.(form := Attempt)
    case SeeShard(i) => nd.form.LoopTop? && nd.shard.Some? && nd' == nd.(form := Watching)
    case Ask(i, seed) =>
      (nd.form.Attempt? || nd.form.Declined?) && seed in s.nodes &&
      nd' == if s.nodes[seed].shard.Some? then nd.(form := Declined) else nd
    case Rebuff(i) => (nd.form.Attempt? || nd.form.Declined?) && nd' == nd.(form := Declined)
    case GiveUp(i) =>
      (nd.form.Attempt? || nd.form.Declined? || nd.form.InGenesis? || nd.form.InRecovery?) &&
      nd' == nd.(form := LoopTop)
    case AdoptAssigned(i, from) =>
      (nd.form.Attempt? || nd.form.Declined?) && from in s.nodes && s.nodes[from].pending.Some? &&
      1 <= i <= |s.nodes[from].pending.value| &&
      nd' == nd.(shard := Some(Shard(s.nodes[from].pending.value[i - 1], 1, 0)), form := LoopTop)
    case JoinGenesis(i, sid, f) =>
      nd.form.Attempt? && sid in ss && ss[sid].genesis && nd' == nd.(form := InGenesis(sid))
    case JoinRecovery(i, sid, f) =>
      (nd.form.Declined? || nd.form.Watching?) && sid in ss && !ss[sid].genesis &&
      nd' == nd.(form := InRecovery(sid))
    case Crash(i) => nd' == FreshNode(nd.seals)
    case _ => false
  }

  /** The end of a genesis session: the key is stored, then the share. */
  ghost predicate GenesisStep(c: Config, s: State, nd: Node, nd': Node, step: Step)
    requires c.p >= 2
  {
    var ss := s.sessions;
    match step
    case StoreGenesisKey(i) =>
      nd.form.InGenesis? && Done(c, ss, nd.form.sid) &&
      nd' == StoreKey(c, ss, nd.form.sid, i, nd).(form := GenesisStoring(nd.form.sid))
    case StoreGenesisShard(i) =>
      nd.form.GenesisStoring? && Done(c, ss, nd.form.sid) &&
      nd' == nd.(shard := Some(ShardFrom(c, ss, nd.form.sid, i)), form := LoopTop)
    case _ => false
  }

  /** The end of a recovery session: the key is checked, then key and share are stored. */
  ghost predicate RecoveryStep(c: Config, s: State, nd: Node, nd': Node, step: Step)
    requires c.p >= 2
  {
    var ss := s.sessions;
    match step
    case CheckRecovery(i) =>
      nd.form.InRecovery? && Done(c, ss, nd.form.sid) && GuardPasses(c, ss, nd.form.sid, nd) &&
      nd' == nd.(form := RecoveryChecked(nd.form.sid))
    case StoreRecoveryKey(i) =>
      nd.form.RecoveryChecked? && Done(c, ss, nd.form.sid) &&
      nd' == StoreKey(c, ss, nd.form.sid, i, nd).(form := RecoveryStoring(nd.form.sid))
    case StoreRecoveryShard(i) =>
      nd.form.RecoveryStoring? && Done(c, ss, nd.form.sid) &&
      nd' == nd.(shard := Some(ShardFrom(c, ss, nd.form.sid, i)), form := LoopTop)
    case _ => false
  }

  /** A dealer task, from entering a session to storing its new share. */
  ghost predicate DealingStep(c: Config, s: State, nd: Node, nd': Node, step: Step)
    requires c.p >= 2
  {
    var ss := s.sessions;
    match step
    case JoinDealing(i, sid, f) =>
      nd.shard.Some? && sid !in nd.jobs && nd' == nd.(jobs := nd.jobs[sid := Running])
    case CheckDealing(i, sid) =>
      sid in nd.jobs && nd.jobs[sid].Running? && Done(c, ss, sid) && GuardPasses(c, ss, sid, nd) &&
      nd' == nd.(jobs := nd.jobs[sid := Checked])
    case StoreDealingKey(i, sid) =>
      sid in nd.jobs && nd.jobs[sid].Checked? && Done(c, ss, sid) &&
      nd' == StoreKey(c, ss, sid, i, nd).(jobs := nd.jobs[sid := Storing])
    case StoreDealingShard(i, sid) =>
      sid in nd.jobs && nd.jobs[sid].Storing? && Done(c, ss, sid) &&
      nd' == nd.(shard := Some(ShardFrom(c, ss, sid, i)), jobs := nd.jobs - {sid})
    case AbandonDealing(i, sid) =>
      sid in nd.jobs && nd.jobs[sid].Running? && nd' == nd.(jobs := nd.jobs - {sid})
    case _ => false
  }

  /** The effect of a step on its node, given the sessions before the step. */
  ghost predicate NodeStep(c: Config, s: State, nd: Node, nd': Node, step: Step)
    requires c.p >= 2
  {
    if IsGenesis(step) then GenesisStep(c, s, nd, nd', step)
    else if IsRecovery(step) then RecoveryStep(c, s, nd, nd', step)
    else if IsDealing(step) then DealingStep(c, s, nd, nd', step)
    else FormStep(c, s, nd, nd', step)
  }

  /** The effect of a step on the sessions: proposals and first contributions, nothing else. */
  ghost predicate SessionStep(c: Config, s: State, ss': Sessions, step: Step)
    requires c.p >= 2
  {
    var ss := s.sessions;
    match step
    case Propose(sid, session) =>
      sid !in ss && WellFormed(c, session) && session.polys == map[] && session.dealt == map[] &&
      ss' == ss[sid := session]
    case JoinGenesis(i, sid, f) =>
      sid in ss && ss[sid].genesis && i in s.nodes && i !in ss[sid].polys && |f| <= c.t &&
      ss' == ss[sid := ss[sid].(polys := ss[sid].polys[i := f])]
    case JoinRecovery(i, sid, f) =>
      sid in ss && !ss[sid].genesis && ss[sid].recovering == i && 1 <= i && i !in ss[sid].polys &&
      |f| <= c.t && Same(c.p, Eval(f, 0), 0) &&
      ss' == ss[sid := ss[sid].(polys := ss[sid].polys[i := f])]
    case JoinDealing(i, sid, f) =>
      sid in ss && !ss[sid].genesis && i !in ss[sid].polys &&
      i in s.nodes && s.nodes[i].shard.Some? &&
      s.nodes[i].shard.value.epoch < ss[sid].epoch &&
      DealerPoly(c, ss[sid], i, s.nodes[i].shard.value.value, f) &&
      ss' == ss[sid := ss[sid].(polys := ss[sid].polys[i := f],
                                dealt := ss[sid].dealt[i := s.nodes[i].shard.value])]
    case _ => ss' == ss
  }

  ghost predicate Next(c: Config, s: State, s': State, step: Step)
    requires c.p >= 2
  {
    && SessionStep(c, s, s'.sessions, step)
    && if step.Propose? then s'.nodes == s.nodes
       else step.i in s.nodes && step.i in s'.nodes &&
            s'.nodes == s.nodes[step.i := s'.nodes[step.i]] &&
            NodeStep(c, s, s.nodes[step.i], s'.nodes[step.i], step)
  }

  ghost predicate Init(c: Config, s: State) {
    && s.nodes.Keys == Members(c)
    && (forall i :: i in s.nodes ==> s.nodes[i] == FreshNode({}))
    && s.sessions == map[]
  }

  ghost predicate IsRun(c: Config, states: seq<State>, steps: seq<Step>)
    requires c.p >= 2
  {
    && |states| == |steps| + 1
    && Init(c, states[0])
    && forall k :: 0 <= k < |steps| ==> StepAt(c, states, steps, k)
  }

  ghost predicate StepAt(c: Config, states: seq<State>, steps: seq<Step>, k: int)
    requires c.p >= 2 && |states| == |steps| + 1 && 0 <= k < |steps|
  {
    Next(c, states[k], states[k + 1], steps[k])
  }

  // ---- The invariant ----

  /** The share and key are the outcome of one finished session, for this node. */
  ghost predicate ShardOk(c: Config, ss: Sessions, i: int, sh: Shard, key: int)
    requires c.p >= 2
  {
    Done(c, ss, sh.origin) && sh == ShardFrom(c, ss, sh.origin, i) && key == KeyOf(c, ss[sh.origin])
  }

  ghost predicate KeyIs(c: Config, ss: Sessions, key: Option<int>, sid: nat)
    requires c.p >= 2
  {
    Done(c, ss, sid) && key == Some(KeyOf(c, ss[sid]))
  }

  ghost predicate FormOk(c: Config, ss: Sessions, nd: Node)
    requires c.p >= 2
  {
    match nd.form
    case Boot => nd.shard.None? && nd.key.None?
    case Attempt => nd.shard.None? && nd.key.None?
    case Declined => nd.shard.None? && nd.key.None?
    case InGenesis(sid) => nd.shard.None? && nd.key.None? && sid in ss && ss[sid].genesis
    case GenesisStoring(sid) => nd.shard.None? && KeyIs(c, ss, nd.key, sid)
    case LoopTop => nd.shard.None? ==> nd.key.None?
    case InRecovery(sid) => (nd.shard.None? ==> nd.key.None?) && sid in ss && !ss[sid].genesis
    case RecoveryChecked(sid) =>
      (nd.shard.None? ==> nd.key.None?) && Done(c, ss, sid) && !ss[sid].genesis &&
      (nd.key.Some? ==> KeyIs(c, ss, nd.key, sid))
    case RecoveryStoring(sid) => KeyIs(c, ss, nd.key, sid)
    case Watching => nd.shard.Some?
  }

  ghost predicate NodeOk(c: Config, ss: Sessions, i: int, nd: Node)
    requires c.p >= 2
  {
    && nd.pending.None?
    && FormOk(c, ss, nd)
    && (nd.shard.None? ==> nd.jobs == map[])
    && (nd.shard.Some? ==> nd.key.Some? && ShardOk(c, ss, i, nd.shard.value, nd.key.value))
    && (forall sid :: sid in nd.jobs && !nd.jobs[sid].Running? ==> KeyIs(c, ss, nd.key, sid))
    && (forall b :: b in nd.seals ==> ShardOk(c, ss, i, b.shard, b.key))
  }

  /**
   Contributions come from participants, fit in `t` coefficients and have the right intercepts; every
   share dealt is on an epoch before the session's.
   */
  ghost predicate SessionOk(c: Config, ss: Sessions, s: Session)
    requires c.p >= 2
  {
    && WellFormed(c, s)
    && (forall id :: id in s.polys ==> id in Participants(c, s) && |s.polys[id]| <= c.t)
    && (!s.genesis ==>
          && (forall d :: d in s.dealers && d in s.polys ==> d in s.dealt)
          && (s.recovering in s.polys ==> Same(c.p, Eval(s.polys[s.recovering], 0), 0)))
    && (forall d :: d in s.dealt ==> DealtOk(c, ss, s, d))
  }

  ghost predicate DealtOk(c: Config, ss: Sessions, s: Session, d: int)
    requires c.p >= 2 && d in s.dealt
  {
    && d in s.polys
    && DealerPoly(c, s, d, s.dealt[d].value, s.polys[d])
    && s.dealt[d].epoch < s.epoch
    && Done(c, ss, s.dealt[d].origin)
    && s.dealt[d] == ShardFrom(c, ss, s.dealt[d].origin, d)
  }

  ghost predicate Inv(c: Config, s: State)
    requires c.p >= 2
  {
    && s.nodes.Keys == Members(c)
    && (forall i :: i in s.nodes ==> NodeOk(c, s.sessions, i, s.nodes[i]))
    && (forall sid :: sid in s.sessions ==> SessionOk(c, s.sessions, s.sessions[sid]))
  }

  /** Sessions are only added to, and a finished session never changes. */
  ghost predicate Grows(c: Config, ss: Sessions, ss': Sessions) {
    && (forall sid :: sid in ss ==> sid in ss' && ss'[sid].genesis == ss[sid].genesis)
    && (forall sid :: Done(c, ss, sid) ==> ss'[sid] == ss[sid])
  }

  /** A participant that had not contributed yet joins: no finished session is touched. */
  lemma JoiningGrows(c: Config, ss: Sessions, sid: nat, i: int, after: Session)
    requires sid in ss && i !in ss[sid].polys && i in Participants(c, ss[sid]) && after.genesis == ss[sid].genesis
    ensures Grows(c, ss, ss[sid := after])
  {
  }

  lemma SessionsGrow(c: Config, s: State, ss': Sessions, step: Step)
    requires c.p >= 2 && Inv(c, s) && SessionStep(c, s, ss', step)
    ensures Grows(c, s.sessions, ss')
  {
    if step.JoinGenesis? || step.JoinRecovery? || step.JoinDealing? {
      var before := s.sessions[step.sid];
      assert SessionOk(c, s.sessions, before);
      if step.JoinGenesis? { MemberIsInUpTo(c, step.i); }
      JoiningGrows(c, s.sessions, step.sid, step.i, ss'[step.sid]);
    }
  }

  lemma NodeOkGrows(c: Config, ss: Sessions, ss': Sessions, i: int, nd: Node)
    requires c.p >= 2 && Grows(c, ss, ss') && NodeOk(c, ss, i, nd)
    ensures NodeOk(c, ss', i, nd)
  {
  }

  lemma FormStepKeepsNodeOk(c: Config, s: State, nd': Node, step: Step)
    requires c.p >= 2 && Inv(c, s) && !step.Propose? && step.i in s.nodes
    requires FormStep(c, s, s.nodes[step.i], nd', step)
    ensures NodeOk(c, s.sessions, step.i, nd')
  {
    assert NodeOk(c, s.sessions, step.i, s.nodes[step.i]);
  }

  lemma GenesisStepKeepsNodeOk(c: Config, s: State, nd': Node, step: Step)
    requires c.p >= 2 && !step.Propose? && step.i in s.nodes && NodeOk(c, s.sessions, step.i, s.nodes[step.i])
    requires GenesisStep(c, s, s.nodes[step.i], nd', step)
    ensures NodeOk(c, s.sessions, step.i, nd')
  {
    assert NodeOk(c, s.sessions, step.i, s.nodes[step.i]);
  }

  lemma RecoveryStepKeepsNodeOk(c: Config, s: State, nd': Node, step: Step)
    requires c.p >= 2 && !step.Propose? && step.i in s.nodes && NodeOk(c, s.sessions, step.i, s.nodes[step.i])
    requires RecoveryStep(c, s, s.nodes[step.i], nd', step)
    ensures NodeOk(c, s.sessions, step.i, nd')
  {
    assert NodeOk(c, s.sessions, step.i, s.nodes[step.i]);
  }

  lemma FormOkUnderShare(c: Config, ss: Sessions, nd: Node, nd': Node)
    requires c.p >= 2 && FormOk(c, ss, nd)
    requires nd.shard.Some? && nd'.shard.Some? && nd'.form == nd.form && nd'.key == nd.key
    ensures FormOk(c, ss, nd')
  {
  }

  /** A dealer task never changes the key: what it checked against is what it writes. */
  lemma DealingStepKeepsKey(c: Config, s: State, nd': Node, step: Step)
    requires c.p >= 2 && !step.Propose? && step.i in s.nodes && NodeOk(c, s.sessions, step.i, s.nodes[step.i])
    requires DealingStep(c, s, s.nodes[step.i], nd', step)
    ensures nd'.key == s.nodes[step.i].key && nd'.key.Some? && s.nodes[step.i].shard.Some?
    ensures step.CheckDealing? || step.StoreDealingKey? || step.StoreDealingShard?
            ==> KeyIs(c, s.sessions, nd'.key, step.sid)
  {
    assert NodeOk(c, s.sessions, step.i, s.nodes[step.i]);
  }

  lemma DealingStepKeepsNodeOk(c: Config, s: State, nd': Node, step: Step)
    requires c.p >= 2 && !step.Propose? && step.i in s.nodes && NodeOk(c, s.sessions, step.i, s.nodes[step.i])
    requires DealingStep(c, s, s.nodes[step.i], nd', step)
    ensures NodeOk(c, s.sessions, step.i, nd')
  {
    var ss, nd := s.sessions, s.nodes[step.i];
    assert NodeOk(c, ss, step.i, nd);
    DealingStepKeepsKey(c, s, nd', step);
    FormOkUnderShare(c, ss, nd, nd');
    if step.StoreDealingShard? {
      assert ShardOk(c, ss, step.i, nd'.shard.value, nd'.key.value);
    } else {
      assert nd'.shard == nd.shard;
    }
    forall b | b in nd'.seals ensures ShardOk(c, ss, step.i, b.shard, b.key) {
      if b !in nd.seals {
        assert b == Sealed(ShardFrom(c, ss, step.sid, step.i), KeyOf(c, ss[step.sid]));
      }
    }
  }

  lemma NodeStepKeepsNodeOk(c: Config, s: State, nd': Node, step: Step)
    requires c.p >= 2 && Inv(c, s) && !step.Propose? && step.i in s.nodes
    requires NodeStep(c, s, s.nodes[step.i], nd', step)
    ensures NodeOk(c, s.sessions, step.i, nd')
  {
    assert NodeOk(c, s.sessions, step.i, s.nodes[step.i]);
    if IsGenesis(step) {
      GenesisStepKeepsNodeOk(c, s, nd', step);
    } else if IsRecovery(step) {
      RecoveryStepKeepsNodeOk(c, s, nd', step);
    } else if IsDealing(step) {
      DealingStepKeepsNodeOk(c, s, nd', step);
    } else {
      FormStepKeepsNodeOk(c, s, nd', step);
    }
  }

  lemma SessionOkGrows(c: Config, ss: Sessions, ss': Sessions, s: Session)
    requires c.p >= 2 && Grows(c, ss, ss') && SessionOk(c, ss, s)
    ensures SessionOk(c, ss', s)
  {
  }

  lemma PlainJoinKeepsSessionOk(c: Config, ss: Sessions, s: Session, i: int, f: Poly)
    requires c.p >= 2 && SessionOk(c, ss, s) && i !in s.polys && |f| <= c.t && i in Participants(c, s)
    requires !s.genesis ==> i == s.recovering && Same(c.p, Eval(f, 0), 0)
    ensures SessionOk(c, ss, s.(polys := s.polys[i := f]))
  {
    var s' := s.(polys := s.polys[i := f]);
    forall d | d in s'.dealt ensures DealtOk(c, ss, s', d) {
      assert DealtOk(c, ss, s, d);
    }
  }

  lemma DealerJoinKeepsSessionOk(c: Config, ss: Sessions, s: Session, i: int, f: Poly, sh: Shard)
    requires c.p >= 2 && SessionOk(c, ss, s) && !s.genesis && i !in s.polys
    requires DealerPoly(c, s, i, sh.value, f) && Done(c, ss, sh.origin) && sh == ShardFrom(c, ss, sh.origin, i)
    requires sh.epoch < s.epoch
    ensures SessionOk(c, ss, s.(polys := s.polys[i := f], dealt := s.dealt[i := sh]))
  {
    assert i in Participants(c, s);
  }

  lemma JoinKeepsSessionOk(c: Config, s: State, ss': Sessions, step: Step)
    requires c.p >= 2 && Inv(c, s) && SessionStep(c, s, ss', step)
    requires step.JoinGenesis? || step.JoinRecovery? || step.JoinDealing?
    ensures SessionOk(c, s.sessions, ss'[step.sid])
  {
    var ss := s.sessions;
    var before := ss[step.sid];
    assert SessionOk(c, ss, before);
    if step.JoinDealing? {
      assert NodeOk(c, ss, step.i, s.nodes[step.i]);
      DealerJoinKeepsSessionOk(c, ss, before, step.i, step.f, s.nodes[step.i].shard.value);
    } else {
      if step.JoinGenesis? { MemberIsInUpTo(c, step.i); } else { RecoveringIsParticipant(c, before); }
      PlainJoinKeepsSessionOk(c, ss, before, step.i, step.f);
    }
  }

  lemma SessionStepKeepsSessionOk(c: Config, s: State, ss': Sessions, step: Step, sid: nat)
    requires c.p >= 2 && Inv(c, s) && SessionStep(c, s, ss', step) && sid in ss'
    requires Grows(c, s.sessions, ss')
    ensures SessionOk(c, ss', ss'[sid])
  {
    if step.Propose? && step.sid == sid {
      assert SessionOk(c, s.sessions, ss'[sid]);
    } else if (step.JoinGenesis? || step.JoinRecovery? || step.JoinDealing?) && step.sid == sid {
      JoinKeepsSessionOk(c, s, ss', step);
    } else {
      assert ss'[sid] == s.sessions[sid];
    }
    SessionOkGrows(c, s.sessions, ss', ss'[sid]);
  }

  lemma MemberIsInUpTo(c: Config, i: int)
    ensures i in Members(c) <==> 1 <= i <= c.n
    ensures i in UpTo(c.n) <==> 1 <= i <= c.n
  {
    if 1 <= i <= c.n {
      assert UpTo(c.n)[i - 1] == i;
    }
  }

  lemma RecoveringIsParticipant(c: Config, s: Session)
    requires WellFormed(c, s) && !s.genesis && s.recovering != 0
    ensures s.recovering in Participants(c, s)
  {
  }

  lemma StepKeepsNodeOk(c: Config, s: State, s': State, step: Step, i: int)
    requires c.p >= 2 && Inv(c, s) && Next(c, s, s', step) && i in s'.nodes
    requires Grows(c, s.sessions, s'.sessions)
    ensures NodeOk(c, s'.sessions, i, s'.nodes[i])
  {
    if !step.Propose? && step.i == i {
      NodeStepKeepsNodeOk(c, s, s'.nodes[i], step);
    }
    NodeOkGrows(c, s.sessions, s'.sessions, i, s'.nodes[i]);
  }

  lemma StepKeepsMembers(c: Config, s: State, s': State, step: Step)
    requires c.p >= 2 && Next(c, s, s', step)
    ensures s'.nodes.Keys == s.nodes.Keys
  {
  }

  lemma StepKeepsInv(c: Config, s: State, s': State, step: Step)
    requires c.p >= 2 && Inv(c, s) && Next(c, s, s', step)
    ensures Inv(c, s')
  {
    SessionsGrow(c, s, s'.sessions, step);
    StepKeepsMembers(c, s, s', step);
    forall i | i in s'.nodes ensures NodeOk(c, s'.sessions, i, s'.nodes[i]) {
      StepKeepsNodeOk(c, s, s', step, i);
    }
    forall sid | sid in s'.sessions ensures SessionOk(c, s'.sessions, s'.sessions[sid]) {
      SessionStepKeepsSessionOk(c, s, s'.sessions, step, sid);
    }
  }
}
