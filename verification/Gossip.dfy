/**
 Gossip over whole runs of honest nodes.  Pushes and replies may be delayed, reordered and delivered more
 than once; nodes adopt shares, restart with nothing, and read the clock at any time in between.
 */
module Gossip {
  import opened Membership
  import opened PeerTable

  /** The URL each node is reached at, and its public key. */
  datatype Config = Config(url: Addr -> string, pubkey: Addr -> seq<int>)

  datatype Node = Node(epoch: nat, groupKey: seq<int>, table: Table)

  datatype Push = Push(caller: Addr, info: SelfInfo)

  datatype Reply = Reply(answerer: Addr, caller: Addr, rows: seq<Row>)

  /** At `at`, `node` handled a push of `peer` or had its own push to `peer` answered. */
  datatype Contact = Contact(node: Addr, peer: Addr, at: int)

  /**
   `held` and `contacts` record the run: every epoch a node ever had, every direct contact.  `records` are
   what each node has been told since it last restarted.
   */
  datatype State = State(now: int, nodes: map<Addr, Node>, pushes: set<Push>, replies: set<Reply>,
                         held: set<(Addr, nat)>, contacts: set<Contact>, records: Records)

  /**
   `seen` has every contact that reached an entry: a push of the peer handled, or a push to the URL then
   recorded for it answered.  `direct[(i, k)]` is the epoch of the last push of `k` that `i` handled, and
   `relayed` has the epochs relayed to `i` about `k` since then.
   */
  datatype Records = Records(
    seen: set<Contact>, direct: map<(Addr, Addr), nat>, relayed: set<(Addr, Addr, nat)>)

  function Forgotten(r: Records, i: Addr): Records {
    Records(set x | x in r.seen && x.node != i :: x,
            map p | p in r.direct && p.0 != i :: r.direct[p],
            set x | x in r.relayed && x.0 != i :: x)
  }

  function Told(r: Records, i: Addr, push: Push, now: int): Records {
    if push.info.url == "" then r
    else Records(r.seen + {Contact(i, push.caller, now)},
                 r.direct[(i, push.caller) := push.info.epoch],
                 set x | x in r.relayed && !(x.0 == i && x.1 == push.caller) :: x)
  }

  function Learned(
    r: Records, i: Addr, selfUrl: string, table: Table, target: string, rows: seq<Row>, now: int): Records
  {
    Records(r.seen + (set k | k in table && table[k].url == target :: Contact(i, k, now)),
            r.direct,
            r.relayed + EpochsIn(i, selfUrl, rows))
  }

  /** What the rows of a reply to `i` say of the others' epochs. */
  function EpochsIn(i: Addr, selfUrl: string, rows: seq<Row>): set<(Addr, Addr, nat)> {
    set n | 0 <= n < |rows| && Counts(rows[n], selfUrl) :: (i, rows[n].addr.value, rows[n].epoch)
  }

  datatype Step =
    | Tick(t: int)
    | Adopt(i: Addr, epoch: nat, groupKey: seq<int>)
    | Restart(i: Addr)
    | BeginRound(i: Addr)
    | Handle(i: Addr, push: Push, rows: seq<Row>)
    | Absorb(i: Addr, reply: Reply)

  predicate Enabled(c: Config, s: State, step: Step) {
    match step
    case Tick(t) => s.now <= t
    case Adopt(i, _, _) => i in s.nodes
    case Restart(i) => i in s.nodes
    case BeginRound(i) => i in s.nodes && c.url(i) != ""
    case Handle(i, push, rows) =>
      && i in s.nodes && push in s.pushes && c.url(i) != c.url(push.caller)
      && AreRowsOf(rows, TableAfter(c, s, i, push))
    case Absorb(i, reply) => i in s.nodes && reply in s.replies && reply.caller == i
  }

  function TableAfter(c: Config, s: State, i: Addr, push: Push): Table
    requires i in s.nodes
  {
    Pushed(s.nodes[i].table, push.caller, c.pubkey(push.caller), push.info, s.now)
  }

  function Take(c: Config, s: State, step: Step): State
    requires Enabled(c, s, step)
  {
    match step
    case Tick(t) => s.(now := t)
    case Adopt(i, epoch, groupKey) =>
      s.(nodes := s.nodes[i := s.nodes[i].(epoch := epoch, groupKey := groupKey)], held := s.held + {(i, epoch)})
    case Restart(i) =>
      s.(nodes := s.nodes[i := Node(0, [], map[])], held := s.held + {(i, 0)}, records := Forgotten(s.records, i))
    case BeginRound(i) =>
      s.(pushes := s.pushes + {Push(i, SelfInfo(c.url(i), s.nodes[i].epoch, s.nodes[i].groupKey))})
    case Handle(i, push, rows) =>
      s.(nodes := s.nodes[i := s.nodes[i].(table := TableAfter(c, s, i, push))],
         replies := s.replies + {Reply(i, push.caller, rows)},
         contacts := s.contacts + {Contact(i, push.caller, s.now)},
         records := Told(s.records, i, push, s.now))
    case Absorb(i, reply) =>
      var table := Absorbed(s.nodes[i].table, c.url(i), c.url(reply.answerer), reply.rows, s.now);
      s.(nodes := s.nodes[i := s.nodes[i].(table := table)],
         contacts := s.contacts + {Contact(i, reply.answerer, s.now)},
         records := Learned(s.records, i, c.url(i), s.nodes[i].table, c.url(reply.answerer), reply.rows, s.now))
  }

  /** Nothing known, nobody holds a share; the clock is past the first ninety seconds of its era. */
  ghost predicate Init(s: State) {
    && s.now > LIVENESS_WINDOW
    && (forall i :: i in s.nodes ==> s.nodes[i] == Node(0, [], map[]))
    && s.pushes == {} && s.replies == {} && s.contacts == {} && s.records == Records({}, map[], {})
    && s.held == set i | i in s.nodes :: (i, 0)
  }

  ghost predicate IsStep(c: Config, s: State, s': State) {
    exists step :: Enabled(c, s, step) && s' == Take(c, s, step)
  }

  ghost predicate IsRun(c: Config, run: seq<State>) {
    |run| > 0 && Init(run[0]) && forall n :: 0 <= n < |run| - 1 ==> IsStep(c, run[n], run[n + 1])
  }

  function Last(run: seq<State>): State
    requires |run| > 0
  {
    run[|run| - 1]
  }

  // ---- The invariant ----

  /** What a row or an entry says of `k` is true of `k`: its URL, its key, an epoch it really held. */
  predicate Truthful(c: Config, s: State, k: Addr, url: string, pubkey: seq<int>, epoch: nat) {
    k in s.nodes && url == c.url(k) && url != "" && pubkey == c.pubkey(k) && (k, epoch) in s.held
  }

  /** `peer` could answer a push of `i` to the URL recorded for `k`. */
  predicate AnswersFor(c: Config, s: State, i: Addr, k: Addr, peer: Addr) {
    peer == k || (peer in s.nodes && c.url(peer) == c.url(k) && c.url(i) != "" && c.url(i) != c.url(peer))
  }

  ghost predicate SeenAt(c: Config, s: State, i: Addr, k: Addr, t: int) {
    exists peer :: AnswersFor(c, s, i, k, peer) && Contact(i, peer, t) in s.contacts
  }

  ghost predicate EntryOk(c: Config, s: State, i: Addr, k: Addr, e: PeerInfo) {
    Truthful(c, s, k, e.url, e.pubkey, e.epoch) && (e.lastSeen == 0 || SeenAt(c, s, i, k, e.lastSeen))
  }

  ghost predicate TableOk(c: Config, s: State, i: Addr, table: Table) {
    forall k :: k in table ==> EntryOk(c, s, i, k, table[k])
  }

  predicate RowOk(c: Config, s: State, row: Row) {
    row.addr.Some? && Truthful(c, s, row.addr.value, row.url, row.pubkey, row.epoch)
  }

  predicate PushOk(c: Config, s: State, push: Push) {
    Truthful(c, s, push.caller, push.info.url, c.pubkey(push.caller), push.info.epoch)
  }

  ghost predicate ReplyOk(c: Config, s: State, reply: Reply) {
    && reply.answerer in s.nodes && c.url(reply.caller) != "" && c.url(reply.answerer) != c.url(reply.caller)
    && forall n :: 0 <= n < |reply.rows| ==> RowOk(c, s, reply.rows[n])
  }

  ghost predicate Inv(c: Config, s: State) {
    && s.now > LIVENESS_WINDOW
    && (forall contact :: contact in s.contacts ==> contact.at <= s.now)
    && (forall i :: i in s.nodes ==> (i, s.nodes[i].epoch) in s.held)
    && (forall i :: i in s.nodes ==> TableOk(c, s, i, s.nodes[i].table))
    && (forall push :: push in s.pushes ==> PushOk(c, s, push))
    && (forall reply :: reply in s.replies ==> ReplyOk(c, s, reply))
  }

  /** Records only grow, so what was true stays true. */
  predicate Grows(s: State, s': State) {
    s.nodes.Keys == s'.nodes.Keys && s.held <= s'.held && s.contacts <= s'.contacts && s.now <= s'.now
  }

  lemma TableStaysOk(c: Config, s: State, s': State, i: Addr, table: Table)
    requires Grows(s, s') && TableOk(c, s, i, table)
    ensures TableOk(c, s', i, table)
  {
    forall k | k in table ensures EntryOk(c, s', i, k, table[k]) {
      assert EntryOk(c, s, i, k, table[k]);
      if table[k].lastSeen != 0 {
        var peer :| AnswersFor(c, s, i, k, peer) && Contact(i, peer, table[k].lastSeen) in s.contacts;
        assert AnswersFor(c, s', i, k, peer);
      }
    }
  }

  /** The invariant survives a step that keeps every message and changes at most node `i`'s table. */
  lemma InvExtends(c: Config, s: State, s': State, i: Addr)
    requires Inv(c, s) && Grows(s, s') && i in s'.nodes
    requires forall j :: j in s'.nodes && j != i ==> s'.nodes[j] == s.nodes[j]
    requires forall contact :: contact in s'.contacts && contact !in s.contacts ==> contact.at <= s'.now
    requires (i, s'.nodes[i].epoch) in s'.held && TableOk(c, s', i, s'.nodes[i].table)
    requires forall push :: push in s'.pushes && push !in s.pushes ==> PushOk(c, s', push)
    requires forall reply :: reply in s'.replies && reply !in s.replies ==> ReplyOk(c, s', reply)
    ensures Inv(c, s')
  {
    forall j | j in s'.nodes ensures TableOk(c, s', j, s'.nodes[j].table) {
      if j != i { TableStaysOk(c, s, s', j, s.nodes[j].table); }
    }
    forall reply | reply in s'.replies ensures ReplyOk(c, s', reply) {
      if reply in s.replies {
        assert ReplyOk(c, s, reply);
        forall n | 0 <= n < |reply.rows| ensures RowOk(c, s', reply.rows[n]) {
          assert RowOk(c, s, reply.rows[n]);
        }
      }
    }
  }

  lemma HandleKeepsInv(c: Config, s: State, i: Addr, push: Push, rows: seq<Row>)
    requires Inv(c, s) && Enabled(c, s, Handle(i, push, rows))
    ensures Inv(c, Take(c, s, Handle(i, push, rows)))
  {
    var s' := Take(c, s, Handle(i, push, rows));
    var table := s'.nodes[i].table;
    assert PushOk(c, s, push);
    TableStaysOk(c, s, s', i, s.nodes[i].table);
    assert AnswersFor(c, s', i, push.caller, push.caller);
    assert SeenAt(c, s', i, push.caller, s.now);
    forall n | 0 <= n < |rows| ensures RowOk(c, s', rows[n]) {
      assert IsRowOf(rows[n], table);
      assert EntryOk(c, s', i, rows[n].addr.value, table[rows[n].addr.value]);
    }
    InvExtends(c, s, s', i);
  }

  lemma AbsorbKeepsInv(c: Config, s: State, i: Addr, reply: Reply)
    requires Inv(c, s) && Enabled(c, s, Absorb(i, reply))
    ensures Inv(c, Take(c, s, Absorb(i, reply)))
  {
    var s' := Take(c, s, Absorb(i, reply));
    var touched := Touched(s.nodes[i].table, c.url(reply.answerer), s.now);
    assert ReplyOk(c, s, reply);
    TableStaysOk(c, s, s', i, s.nodes[i].table);
    forall k | k in touched ensures EntryOk(c, s', i, k, touched[k]) {
      assert EntryOk(c, s', i, k, s.nodes[i].table[k]);
      if s.nodes[i].table[k].url == c.url(reply.answerer) {
        assert AnswersFor(c, s', i, k, reply.answerer);
        assert SeenAt(c, s', i, k, s.now);
      }
    }
    RowsKeepTable(c, s', i, touched, reply.rows);
    InvExtends(c, s, s', i);
  }

  lemma {:induction false} RowsKeepTable(c: Config, s: State, i: Addr, table: Table, rows: seq<Row>)
    requires TableOk(c, s, i, table) && forall n :: 0 <= n < |rows| ==> RowOk(c, s, rows[n])
    ensures TableOk(c, s, i, MergedAll(table, c.url(i), rows))
  {
    if rows != [] {
      var before := rows[..|rows| - 1];
      assert forall n :: 0 <= n < |before| ==> before[n] == rows[n];
      RowsKeepTable(c, s, i, table, before);
    }
  }

  lemma StepKeepsInv(c: Config, s: State, step: Step)
    requires Inv(c, s) && Enabled(c, s, step)
    ensures Inv(c, Take(c, s, step)) && Grows(s, Take(c, s, step))
  {
    var s' := Take(c, s, step);
    match step
    case Tick(t) =>
      forall j | j in s'.nodes ensures TableOk(c, s', j, s'.nodes[j].table) {
        TableStaysOk(c, s, s', j, s.nodes[j].table);
      }
      forall reply | reply in s'.replies ensures ReplyOk(c, s', reply) {
        assert ReplyOk(c, s, reply);
      }
    case Adopt(i, _, _) =>
      TableStaysOk(c, s, s', i, s.nodes[i].table);
      InvExtends(c, s, s', i);
    case Restart(i) => InvExtends(c, s, s', i);
    case BeginRound(i) =>
      TableStaysOk(c, s, s', i, s.nodes[i].table);
      InvExtends(c, s, s', i);
    case Handle(i, push, rows) => HandleKeepsInv(c, s, i, push, rows);
    case Absorb(i, reply) => AbsorbKeepsInv(c, s, i, reply);
  }

  /** An epoch on record is one the node had in some state of the run. */
  ghost predicate WasHeld(run: seq<State>, k: Addr, e: nat) {
    exists n :: 0 <= n < |run| && k in run[n].nodes && run[n].nodes[k].epoch == e
  }

  lemma {:induction false} RunKeepsInv(c: Config, run: seq<State>)
    requires IsRun(c, run)
    ensures Inv(c, Last(run)) && Last(run).nodes.Keys == run[0].nodes.Keys
  {
    if |run| > 1 {
      var step := LastStep(c, run);
      RunKeepsInv(c, run[..|run| - 1]);
      StepKeepsInv(c, run[|run| - 2], step);
    }
  }

  lemma LastStep(c: Config, run: seq<State>) returns (step: Step)
    requires IsRun(c, run) && |run| > 1
    ensures IsRun(c, run[..|run| - 1])
    ensures Enabled(c, run[|run| - 2], step) && Last(run) == Take(c, run[|run| - 2], step)
  {
    var n := |run| - 2;
    assert IsStep(c, run[n], run[n + 1]);
    step :| Enabled(c, run[n], step) && run[n + 1] == Take(c, run[n], step);
  }

  lemma NewlyHeld(c: Config, s: State, step: Step, k: Addr, e: nat)
    requires Enabled(c, s, step) && (k, e) in Take(c, s, step).held && (k, e) !in s.held
    ensures k in Take(c, s, step).nodes && Take(c, s, step).nodes[k].epoch == e
  {
  }

  lemma {:induction false} RecordIsTrue(c: Config, run: seq<State>, k: Addr, e: nat)
    requires IsRun(c, run) && (k, e) in Last(run).held
    ensures WasHeld(run, k, e)
  {
    if |run| == 1 {
      assert k in run[0].nodes && run[0].nodes[k].epoch == e;
    } else {
      var step := LastStep(c, run);
      var prior := run[..|run| - 1];
      if (k, e) in Last(prior).held {
        RecordIsTrue(c, prior, k, e);
        var m :| 0 <= m < |prior| && k in prior[m].nodes && prior[m].nodes[k].epoch == e;
        assert run[m] == prior[m];
      } else {
        NewlyHeld(c, Last(prior), step, k, e);
      }
    }
  }

  // ---- No epoch inflation ----

  /** Every epoch in every table is one that peer really held at some point of the run. */
  lemma EntryEpochWasHeld(c: Config, run: seq<State>, i: Addr, k: Addr)
    requires IsRun(c, run) && i in Last(run).nodes && k in Last(run).nodes[i].table
    ensures WasHeld(run, k, Last(run).nodes[i].table[k].epoch)
  {
    RunKeepsInv(c, run);
    assert EntryOk(c, Last(run), i, k, Last(run).nodes[i].table[k]);
    RecordIsTrue(c, run, k, Last(run).nodes[i].table[k].epoch);
  }

  /** So the epoch a node would target next is one above an epoch that some node really held. */
  lemma KnownEpochWasHeld(c: Config, run: seq<State>, i: Addr, e: nat)
    requires IsRun(c, run) && i in Last(run).nodes
    requires IsKnownEpoch(Last(run).nodes[i].epoch, Last(run).nodes[i].table, e)
    ensures exists k :: WasHeld(run, k, e)
  {
    RunKeepsInv(c, run);
    var node := Last(run).nodes[i];
    if e == node.epoch {
      assert WasHeld(run, i, e);
    } else {
      var k :| k in node.table && node.table[k].epoch == e;
      EntryEpochWasHeld(c, run, i, k);
    }
  }

  // ---- Liveness is direct evidence ----

  /** Node `i` was in contact with `k` itself within the liveness window. */
  ghost predicate RecentlyInContact(s: State, i: Addr, k: Addr) {
    exists t :: Contact(i, k, t) in s.contacts && s.now - LIVENESS_WINDOW <= t <= s.now
  }

  /** Every entry judged live is backed by contact with that very node. */
  ghost predicate LivenessIsDirect(s: State) {
    forall i, k ::
      i in s.nodes && k in s.nodes[i].table && IsLive(s.nodes[i].table[k], s.now) ==> RecentlyInContact(s, i, k)
  }

  /** Two nodes answer at one URL that a third one gossips with. */
  ghost predicate SharedUrl(c: Config, who: set<Addr>) {
    exists i, a, b :: i in who && a in who && b in who && Clash(c, i, a, b)
  }

  predicate Clash(c: Config, i: Addr, a: Addr, b: Addr) {
    a != b && c.url(a) == c.url(b) && c.url(a) != "" && c.url(i) != "" && c.url(i) != c.url(a)
  }

  /** An entry judged live had its signer push to us, or a push to its recorded URL answered, in the window. */
  lemma LiveEntryWasSeen(c: Config, run: seq<State>, i: Addr, k: Addr)
    requires IsRun(c, run) && i in Last(run).nodes && k in Last(run).nodes[i].table
    requires IsLive(Last(run).nodes[i].table[k], Last(run).now)
    ensures
      var s := Last(run);
      exists t :: SeenAt(c, s, i, k, t) && s.now - t <= LIVENESS_WINDOW
  {
    RunKeepsInv(c, run);
    var s := Last(run);
    assert EntryOk(c, s, i, k, s.nodes[i].table[k]);
    assert SeenAt(c, s, i, k, s.nodes[i].table[k].lastSeen);
  }

  lemma UniqueUrlsMakeLivenessDirect(c: Config, run: seq<State>)
    requires IsRun(c, run) && !SharedUrl(c, run[0].nodes.Keys)
    ensures LivenessIsDirect(Last(run))
  {
    var s := Last(run);
    forall i, k | i in s.nodes && k in s.nodes[i].table && IsLive(s.nodes[i].table[k], s.now)
      ensures RecentlyInContact(s, i, k)
    {
      RunKeepsInv(c, run);
      LiveEntryWasSeen(c, run, i, k);
      assert EntryOk(c, s, i, k, s.nodes[i].table[k]);
      var t :| SeenAt(c, s, i, k, t) && s.now - t <= LIVENESS_WINDOW;
      var peer :| AnswersFor(c, s, i, k, peer) && Contact(i, peer, t) in s.contacts;
      assert peer != k ==> Clash(c, i, k, peer);
      assert peer == k;
    }
  }

  /** Node `i` has heard from `a` once, long ago, and nobody knows anything else. */
  ghost predicate HeardOnce(c: Config, s: State, who: set<Addr>, i: Addr, a: Addr) {
    && s.nodes.Keys == who && i in who
    && s.now == 2000 && s.contacts == {Contact(i, a, 1000)}
    && (forall k :: k in who ==> s.nodes[k].epoch == 0 && s.nodes[k].groupKey == [])
    && (forall k :: k in who && k != i ==> s.nodes[k].table == map[])
    && s.nodes[i].table == map[a := PeerInfo(c.url(a), 1000, c.pubkey(a), 0, [])]
  }

  lemma HearOnce(c: Config, who: set<Addr>, i: Addr, a: Addr) returns (run: seq<State>)
    requires i in who && a in who && c.url(a) != "" && c.url(i) != c.url(a)
    ensures IsRun(c, run) && run[0].nodes.Keys == who && HeardOnce(c, Last(run), who, i, a)
  {
    var s0 := State(1000, map k | k in who :: Node(0, [], map[]), {}, {}, set k | k in who :: (k, 0), {},
                    Records({}, map[], {}));
    var s1 := Take(c, s0, BeginRound(a));
    var push := Push(a, SelfInfo(c.url(a), 0, []));
    var rows := [RowOf(a, PeerInfo(c.url(a), 1000, c.pubkey(a), 0, []))];
    assert push in s1.pushes && rows[0] in rows;
    var s2 := Take(c, s1, Handle(i, push, rows));
    var s3 := Take(c, s2, Tick(2000));
    run := [s0, s1, s2, s3];
    assert IsStep(c, s0, s1) && IsStep(c, s1, s2) && IsStep(c, s2, s3);
    assert s3.contacts == {Contact(i, a, 1000)};
  }

  /** A round trip of `i` with `b`, reached at the URL of the silent `a`. */
  lemma AnsweredInItsPlace(c: Config, s: State, who: set<Addr>, i: Addr, a: Addr, b: Addr) returns (tail: seq<State>)
    requires b in who && Clash(c, i, a, b) && HeardOnce(c, s, who, i, a)
    ensures |tail| == 3 && IsStep(c, s, tail[0]) && IsStep(c, tail[0], tail[1]) && IsStep(c, tail[1], tail[2])
    ensures !LivenessIsDirect(tail[2])
  {
    var s4 := Take(c, s, BeginRound(i));
    var push := Push(i, SelfInfo(c.url(i), 0, []));
    var rows := [RowOf(i, PeerInfo(c.url(i), 2000, c.pubkey(i), 0, []))];
    assert push in s4.pushes && rows[0] in rows;
    var s5 := Take(c, s4, Handle(b, push, rows));
    var s6 := Take(c, s5, Absorb(i, Reply(b, i, rows)));
    tail := [s4, s5, s6];
    var touched := Touched(s5.nodes[i].table, c.url(b), 2000);
    assert MergedAll(touched, c.url(i), rows) == touched by {
      assert rows[..0] == [] && !Counts(rows[0], c.url(i));
    }
    assert s6.nodes[i].table == touched && touched[a].lastSeen == 2000;
    assert !RecentlyInContact(s6, i, a);
  }

  /** A silent node at a shared URL keeps looking alive: `b` answers, and the entry of `a` is refreshed. */
  lemma SharedUrlHidesSilence(c: Config, who: set<Addr>, i: Addr, a: Addr, b: Addr) returns (run: seq<State>)
    requires i in who && a in who && b in who && Clash(c, i, a, b)
    ensures IsRun(c, run) && run[0].nodes.Keys == who && !LivenessIsDirect(Last(run))
  {
    var early := HearOnce(c, who, i, a);
    var tail := AnsweredInItsPlace(c, Last(early), who, i, a, b);
    run := early + tail;
  }

  /** In a given cluster liveness is direct evidence in every run, exactly when URLs are unique. */
  lemma LivenessIsDirectExactlyWhen(c: Config, who: set<Addr>)
    ensures (forall run: seq<State> :: IsRun(c, run) && run[0].nodes.Keys == who ==> LivenessIsDirect(Last(run)))
       <==> !SharedUrl(c, who)
  {
    if SharedUrl(c, who) {
      var i, a, b :| i in who && a in who && b in who && Clash(c, i, a, b);
      var run := SharedUrlHidesSilence(c, who, i, a, b);
    } else {
      forall run: seq<State> | IsRun(c, run) && run[0].nodes.Keys == who ensures LivenessIsDirect(Last(run)) {
        UniqueUrlsMakeLivenessDirect(c, run);
      }
    }
  }

  /**
   With unique URLs a node out of contact for longer than the window is in no session assembled now,
   and every peer that is assembled is described truly.
   */
  lemma SessionPeersWereInContact(c: Config, run: seq<State>, i: Addr, list: seq<Addr>, own: int, q: SessionPeer)
    requires IsRun(c, run) && !SharedUrl(c, run[0].nodes.Keys) && i in Last(run).nodes
    requires q in Assembled(list, Last(run).nodes[i].table, own, Last(run).now, |list|)
    ensures 1 <= q.id <= |list| && RecentlyInContact(Last(run), i, list[q.id - 1])
    ensures q.url == c.url(list[q.id - 1]) && q.pubkey == c.pubkey(list[q.id - 1])
    ensures WasHeld(run, list[q.id - 1], q.epoch)
  {
    var s := Last(run);
    AssembledIsExact(list, s.nodes[i].table, own, s.now, |list|);
    var k := list[q.id - 1];
    assert RecentlyInContact(s, i, k) by { UniqueUrlsMakeLivenessDirect(c, run); }
    assert Truthful(c, s, k, q.url, q.pubkey, q.epoch) by {
      RunKeepsInv(c, run);
      assert EntryOk(c, s, i, k, s.nodes[i].table[k]);
    }
    RecordIsTrue(c, run, k, q.epoch);
  }

  // ---- What a table says is what was told ----

  /** The entry's epoch is the largest of the last direct push and what was relayed since. */
  ghost predicate IsLargestTold(r: Records, i: Addr, k: Addr, e: nat) {
    && ((i, k) in r.direct ==> r.direct[(i, k)] <= e)
    && (forall x :: (i, k, x) in r.relayed ==> x <= e)
    && (((i, k) in r.direct && r.direct[(i, k)] == e) || (i, k, e) in r.relayed)
  }

  /** The entry of `k` at `i` was last seen at a contact on record, and no contact on record is later. */
  ghost predicate IsLastSeen(r: Records, i: Addr, k: Addr, t: int) {
    && (t == 0 || Contact(i, k, t) in r.seen)
    && (forall x :: Contact(i, k, x) in r.seen ==> x <= t)
  }

  ghost predicate TableIsTold(r: Records, i: Addr, table: Table) {
    && (forall k :: k in table ==> IsLargestTold(r, i, k, table[k].epoch) && IsLastSeen(r, i, k, table[k].lastSeen))
    && (forall k, t :: Contact(i, k, t) in r.seen ==> k in table)
    && (forall k :: (i, k) in r.direct ==> k in table)
    && (forall k, x :: (i, k, x) in r.relayed ==> k in table)
  }

  ghost predicate AllTold(s: State) {
    && (forall i :: i in s.nodes ==> TableIsTold(s.records, i, s.nodes[i].table))
    && (forall x :: x in s.records.seen ==> 0 < x.at <= s.now)
  }

  /** Records of other nodes' knowledge do not matter. */
  ghost predicate SameFor(r: Records, r': Records, i: Addr) {
    && (forall x: Contact :: x.node == i ==> (x in r.seen <==> x in r'.seen))
    && (forall p: (Addr, Addr) :: p.0 == i ==> (p in r.direct <==> p in r'.direct))
    && (forall p: (Addr, Addr) :: p in r.direct && p in r'.direct && p.0 == i ==> r.direct[p] == r'.direct[p])
    && (forall x: (Addr, Addr, nat) :: x.0 == i ==> (x in r.relayed <==> x in r'.relayed))
  }

  lemma OthersStayTold(r: Records, r': Records, i: Addr, table: Table)
    requires SameFor(r, r', i) && TableIsTold(r, i, table)
    ensures TableIsTold(r', i, table)
  {
    forall k, t | Contact(i, k, t) in r'.seen ensures k in table {
      assert Contact(i, k, t).node == i;
    }
    forall k | (i, k) in r'.direct ensures k in table {
      assert (i, k).0 == i;
    }
    forall k, x | (i, k, x) in r'.relayed ensures k in table {
      assert (i, k, x).0 == i;
    }
    forall k | k in table
      ensures IsLargestTold(r', i, k, table[k].epoch) && IsLastSeen(r', i, k, table[k].lastSeen)
    {
      OneStaysTold(r, r', i, k, table[k].epoch, table[k].lastSeen);
    }
  }

  lemma OneStaysTold(r: Records, r': Records, i: Addr, k: Addr, e: nat, t: int)
    requires IsLargestTold(r, i, k, e) && IsLastSeen(r, i, k, t)
    requires forall x :: Contact(i, k, x) in r.seen <==> Contact(i, k, x) in r'.seen
    requires (i, k) in r.direct <==> (i, k) in r'.direct
    requires (i, k) in r.direct ==> r.direct[(i, k)] == r'.direct[(i, k)]
    requires forall x :: (i, k, x) in r.relayed <==> (i, k, x) in r'.relayed
    ensures IsLargestTold(r', i, k, e) && IsLastSeen(r', i, k, t)
  {
  }

  lemma PushKeepsTold(r: Records, i: Addr, table: Table, pubkey: seq<int>, push: Push, now: int)
    requires TableIsTold(r, i, table) && now > 0
    requires forall x :: x in r.seen ==> x.at <= now
    ensures TableIsTold(Told(r, i, push, now), i, Pushed(table, push.caller, pubkey, push.info, now))
  {
    if push.info.url != "" {
      var r', table' := Told(r, i, push, now), Pushed(table, push.caller, pubkey, push.info, now);
      forall k | k in table'
        ensures IsLargestTold(r', i, k, table'[k].epoch) && IsLastSeen(r', i, k, table'[k].lastSeen)
      {
        if k != push.caller { OneStaysTold(r, r', i, k, table[k].epoch, table[k].lastSeen); }
      }
    }
  }

  /** What absorbing a reply does to one entry. */
  lemma AbsorbedEntry(
    r: Records, i: Addr, selfUrl: string, table: Table, target: string, rows: seq<Row>, now: int, k: Addr)
    requires TableIsTold(r, i, table) && now > 0 && k in Absorbed(table, selfUrl, target, rows, now)
    requires forall x :: x in r.seen ==> x.at <= now
    ensures
      var r', e := Learned(r, i, selfUrl, table, target, rows, now), Absorbed(table, selfUrl, target, rows, now)[k];
      IsLargestTold(r', i, k, e.epoch) && IsLastSeen(r', i, k, e.lastSeen)
  {
    var touched := Touched(table, target, now);
    var r', e := Learned(r, i, selfUrl, table, target, rows, now), Absorbed(table, selfUrl, target, rows, now)[k];
    RelaysInFull(touched, selfUrl, rows, k);
    assert IsLargestTold(r', i, k, e.epoch) by {
      LargestIsTold(r, r', i, selfUrl, touched, rows, k, e.epoch);
    }
    assert IsLastSeen(r', i, k, e.lastSeen);
  }

  lemma LargestIsTold(r: Records, r': Records, i: Addr, selfUrl: string, table: Table, rows: seq<Row>, k: Addr, e: nat)
    requires IsLargest(e, table, selfUrl, rows, k) && r'.direct == r.direct
    requires k in table ==> IsLargestTold(r, i, k, table[k].epoch)
    requires k !in table ==> (i, k) !in r.direct && forall x :: (i, k, x) !in r.relayed
    requires r'.relayed == r.relayed + EpochsIn(i, selfUrl, rows)
    ensures IsLargestTold(r', i, k, e)
  {
    forall x | (i, k, x) in r'.relayed ensures x <= e {
      if (i, k, x) !in r.relayed {
        var n :| 0 <= n < |rows| && Counts(rows[n], selfUrl) && (i, rows[n].addr.value, rows[n].epoch) == (i, k, x);
        assert RowFor(rows[n], selfUrl, k);
      }
    }
    if !(k in table && table[k].epoch == e) {
      var n :| 0 <= n < |rows| && RowFor(rows[n], selfUrl, k) && rows[n].epoch == e;
      assert (i, rows[n].addr.value, rows[n].epoch) in r'.relayed;
    }
  }

  lemma ReplyKeepsTold(r: Records, i: Addr, selfUrl: string, table: Table, target: string, rows: seq<Row>, now: int)
    requires TableIsTold(r, i, table) && now > 0
    requires forall x :: x in r.seen ==> x.at <= now
    ensures
      TableIsTold(Learned(r, i, selfUrl, table, target, rows, now), i, Absorbed(table, selfUrl, target, rows, now))
  {
    var r', after := Learned(r, i, selfUrl, table, target, rows, now), Absorbed(table, selfUrl, target, rows, now);
    forall k | k in after
      ensures IsLargestTold(r', i, k, after[k].epoch) && IsLastSeen(r', i, k, after[k].lastSeen)
    {
      AbsorbedEntry(r, i, selfUrl, table, target, rows, now, k);
    }
    forall k | k in table ensures k in after {
      RelaysInFull(Touched(table, target, now), selfUrl, rows, k);
    }
    forall k, x | (i, k, x) in r'.relayed ensures k in after {
      if (i, k, x) !in r.relayed {
        RelaysInFull(Touched(table, target, now), selfUrl, rows, k);
        var n :| 0 <= n < |rows| && Counts(rows[n], selfUrl) && (i, rows[n].addr.value, rows[n].epoch) == (i, k, x);
        assert RowFor(rows[n], selfUrl, k);
      }
    }
  }

  lemma StepKeepsTold(c: Config, s: State, step: Step)
    requires AllTold(s) && s.now > 0 && Enabled(c, s, step)
    ensures AllTold(Take(c, s, step))
  {
    var s' := Take(c, s, step);
    forall j | j in s'.nodes ensures TableIsTold(s'.records, j, s'.nodes[j].table) {
      assert TableIsTold(s.records, j, s.nodes[j].table);
      match step
      case Restart(i) => if j != i { OthersStayTold(s.records, s'.records, j, s.nodes[j].table); }
      case Handle(i, push, rows) =>
        if j == i {
          PushKeepsTold(s.records, i, s.nodes[i].table, c.pubkey(push.caller), push, s.now);
        } else {
          OthersStayTold(s.records, s'.records, j, s.nodes[j].table);
        }
      case Absorb(i, reply) =>
        if j == i {
          ReplyKeepsTold(s.records, i, c.url(i), s.nodes[i].table, c.url(reply.answerer), reply.rows, s.now);
        } else {
          OthersStayTold(s.records, s'.records, j, s.nodes[j].table);
        }
      case _ =>
    }
  }

  lemma {:induction false} RunIsTold(c: Config, run: seq<State>)
    requires IsRun(c, run)
    ensures AllTold(Last(run))
  {
    if |run| > 1 {
      var step := LastStep(c, run);
      var prior := run[..|run| - 1];
      RunIsTold(c, prior);
      RunKeepsInv(c, prior);
      StepKeepsTold(c, Last(prior), step);
    }
  }

  // ---- Who is seen is live, and nobody else ----

  /** Contact with the entry of `k` on record at `i`, at most ninety seconds old. */
  ghost predicate SeenLately(s: State, i: Addr, k: Addr) {
    exists t :: Contact(i, k, t) in s.records.seen && s.now - t <= 90
  }

  /** In every run an entry is judged live exactly when its peer was seen in the last ninety seconds. */
  lemma LiveExactlyWhenSeen(c: Config, run: seq<State>, i: Addr, k: Addr)
    requires IsRun(c, run) && i in Last(run).nodes
    ensures
      var s := Last(run);
      (k in s.nodes[i].table && IsLive(s.nodes[i].table[k], s.now)) <==> SeenLately(s, i, k)
  {
    RunKeepsInv(c, run);
    RunIsTold(c, run);
    var s := Last(run);
    var table := s.nodes[i].table;
    assert TableIsTold(s.records, i, table);
    if k in table && IsLive(table[k], s.now) {
      assert Contact(i, k, table[k].lastSeen) in s.records.seen;
    }
  }

  /** So a member of the list whose public key is known is assembled exactly when it was seen. */
  lemma AssembledExactlyWhenSeen(c: Config, run: seq<State>, i: Addr, list: seq<Addr>, own: int, id: int)
    requires IsRun(c, run) && i in Last(run).nodes && 1 <= id <= |list| && id != own
    requires c.pubkey(list[id - 1]) != []
    ensures
      var s := Last(run);
      (exists q :: q in Assembled(list, s.nodes[i].table, own, s.now, |list|) && q.id == id)
        <==> SeenLately(s, i, list[id - 1])
  {
    var s := Last(run);
    var k, table := list[id - 1], s.nodes[i].table;
    LiveExactlyWhenSeen(c, run, i, k);
    AssembledIsExact(list, table, own, s.now, |list|);
    if k in table && IsLive(table[k], s.now) {
      RunKeepsInv(c, run);
      assert EntryOk(c, s, i, k, table[k]);
      var q := SessionPeer(id, table[k].url, table[k].pubkey, table[k].epoch);
      assert Belongs(list, table, own, s.now, q);
    }
  }

  /** From `s` to `s'` node `i` handles a push of `k`, or hears the answer to its push to the URL it has for `k`. */
  ghost predicate Sees(c: Config, s: State, s': State, i: Addr, k: Addr) {
    || (exists push, rows ::
          Enabled(c, s, Handle(i, push, rows)) && push.caller == k && s' == Take(c, s, Handle(i, push, rows)))
    || (exists reply ::
          && Enabled(c, s, Absorb(i, reply)) && s' == Take(c, s, Absorb(i, reply))
          && k in s.nodes[i].table && s.nodes[i].table[k].url == c.url(reply.answerer))
  }

  predicate Restarts(c: Config, s: State, s': State, i: Addr) {
    Enabled(c, s, Restart(i)) && s' == Take(c, s, Restart(i))
  }

  lemma OnlyRestartForgets(c: Config, s: State, s': State, x: Contact)
    requires IsStep(c, s, s') && x in s.records.seen && !Restarts(c, s, s', x.node)
    ensures x in s'.records.seen
  {
    var step :| Enabled(c, s, step) && s' == Take(c, s, step);
    assert step != Restart(x.node);
  }

  /** The step after `run[m]` does not forget `x`. */
  predicate Keeps(run: seq<State>, m: nat, x: Contact) {
    m + 1 < |run| && (x in run[m].records.seen ==> x in run[m + 1].records.seen)
  }

  lemma {:induction false} KeptToTheEnd(run: seq<State>, n: nat, x: Contact)
    requires n < |run| && x in run[n].records.seen && forall m :: n <= m < |run| - 1 ==> Keeps(run, m, x)
    ensures x in Last(run).records.seen
    decreases |run| - n
  {
    if n + 1 < |run| {
      assert Keeps(run, n, x);
      KeptToTheEnd(run, n + 1, x);
    }
  }

  lemma SeenUntilRestart(c: Config, run: seq<State>, n: nat, x: Contact)
    requires IsRun(c, run) && n < |run| && x in run[n].records.seen
    requires forall m :: n <= m < |run| - 1 ==> !Restarts(c, run[m], run[m + 1], x.node)
    ensures x in Last(run).records.seen
  {
    forall m | n <= m < |run| - 1 ensures Keeps(run, m, x) {
      assert IsStep(c, run[m], run[m + 1]) && !Restarts(c, run[m], run[m + 1], x.node);
      if x in run[m].records.seen { OnlyRestartForgets(c, run[m], run[m + 1], x); }
    }
    KeptToTheEnd(run, n, x);
  }

  lemma SeeingIsRecorded(c: Config, s: State, s': State, i: Addr, k: Addr)
    requires Inv(c, s) && Sees(c, s, s', i, k)
    ensures Contact(i, k, s.now) in s'.records.seen
  {
    if push, rows :|
      Enabled(c, s, Handle(i, push, rows)) && push.caller == k && s' == Take(c, s, Handle(i, push, rows))
    {
      assert PushOk(c, s, push);
    }
  }

  lemma PrefixIsRun(c: Config, run: seq<State>, n: nat)
    requires IsRun(c, run) && n < |run|
    ensures IsRun(c, run[..n + 1])
  {
    var prior := run[..n + 1];
    forall m | 0 <= m < |prior| - 1 ensures IsStep(c, prior[m], prior[m + 1]) {
      assert IsStep(c, run[m], run[m + 1]);
    }
  }

  /** Contact keeps an entry live for ninety seconds, unless the node restarts. */
  lemma ContactKeepsAlive(c: Config, run: seq<State>, n: nat, i: Addr, k: Addr)
    requires IsRun(c, run) && n + 1 < |run| && i in Last(run).nodes && Sees(c, run[n], run[n + 1], i, k)
    requires forall m :: n < m < |run| - 1 ==> !Restarts(c, run[m], run[m + 1], i)
    requires Last(run).now - run[n].now <= 90
    ensures k in Last(run).nodes[i].table && IsLive(Last(run).nodes[i].table[k], Last(run).now)
  {
    PrefixIsRun(c, run, n);
    RunKeepsInv(c, run[..n + 1]);
    SeeingIsRecorded(c, run[n], run[n + 1], i, k);
    SeenUntilRestart(c, run, n + 1, Contact(i, k, run[n].now));
    LiveExactlyWhenSeen(c, run, i, k);
  }

  /** A contact on record is one with a node that answers for the peer. */
  ghost predicate SeenIsReal(c: Config, s: State) {
    forall x :: x in s.records.seen ==> SeenAt(c, s, x.node, x.peer, x.at)
  }

  lemma StepKeepsSeenReal(c: Config, s: State, step: Step)
    requires Inv(c, s) && SeenIsReal(c, s) && Enabled(c, s, step)
    ensures SeenIsReal(c, Take(c, s, step))
  {
    StepKeepsInv(c, s, step);
    var s' := Take(c, s, step);
    forall x | x in s'.records.seen ensures SeenAt(c, s', x.node, x.peer, x.at) {
      if x in s.records.seen {
        var peer :| AnswersFor(c, s, x.node, x.peer, peer) && Contact(x.node, peer, x.at) in s.contacts;
        assert AnswersFor(c, s', x.node, x.peer, peer);
      } else if step.Handle? {
        assert AnswersFor(c, s', x.node, x.peer, x.peer);
      } else {
        assert step.Absorb? && ReplyOk(c, s, step.reply);
        assert EntryOk(c, s, x.node, x.peer, s.nodes[x.node].table[x.peer]);
        assert AnswersFor(c, s', x.node, x.peer, step.reply.answerer);
      }
    }
  }

  lemma {:induction false} RunKeepsSeenReal(c: Config, run: seq<State>)
    requires IsRun(c, run)
    ensures SeenIsReal(c, Last(run))
  {
    if |run| > 1 {
      var step := LastStep(c, run);
      RunKeepsSeenReal(c, run[..|run| - 1]);
      RunKeepsInv(c, run[..|run| - 1]);
      StepKeepsSeenReal(c, run[|run| - 2], step);
    }
  }

  /** With unique URLs everything seen is contact with that very node. */
  lemma UniqueUrlsMakeSeeingDirect(c: Config, run: seq<State>, x: Contact)
    requires IsRun(c, run) && !SharedUrl(c, run[0].nodes.Keys) && x in Last(run).records.seen
    requires x.node in run[0].nodes && x.peer in run[0].nodes && c.url(x.peer) != ""
    ensures x in Last(run).contacts
  {
    RunKeepsInv(c, run);
    RunKeepsSeenReal(c, run);
    var s := Last(run);
    var peer :| AnswersFor(c, s, x.node, x.peer, peer) && Contact(x.node, peer, x.at) in s.contacts;
    assert peer != x.peer ==> Clash(c, x.node, x.peer, peer);
    assert peer == x.peer;
  }

  // ---- Epochs and keys reach the others ----

  /** In every run a table's epoch is the largest of the last direct push and what was relayed since. */
  lemma EpochIsLargestTold(c: Config, run: seq<State>, i: Addr, k: Addr)
    requires IsRun(c, run) && i in Last(run).nodes && k in Last(run).nodes[i].table
    ensures IsLargestTold(Last(run).records, i, k, Last(run).nodes[i].table[k].epoch)
  {
    RunIsTold(c, run);
    assert TableIsTold(Last(run).records, i, Last(run).nodes[i].table);
  }

  /** Node `k` had this epoch and this group key together. */
  ghost predicate Had(run: seq<State>, k: Addr, epoch: nat, groupKey: seq<int>) {
    exists n :: 0 <= n < |run| && k in run[n].nodes && run[n].nodes[k].epoch == epoch
      && run[n].nodes[k].groupKey == groupKey
  }

  lemma {:induction false} PushIsTrue(c: Config, run: seq<State>, push: Push)
    requires IsRun(c, run) && push in Last(run).pushes
    ensures push.info.url == c.url(push.caller) && Had(run, push.caller, push.info.epoch, push.info.groupKey)
  {
    if |run| > 1 {
      var step := LastStep(c, run);
      var prior := run[..|run| - 1];
      if push in Last(prior).pushes {
        PushIsTrue(c, prior, push);
        var n :| 0 <= n < |prior| && push.caller in prior[n].nodes
          && prior[n].nodes[push.caller].epoch == push.info.epoch
          && prior[n].nodes[push.caller].groupKey == push.info.groupKey;
        assert run[n] == prior[n];
      } else {
        assert run[|run| - 2] == Last(prior) && step == BeginRound(push.caller);
        assert Last(prior).nodes[push.caller].epoch == push.info.epoch;
      }
    }
  }

  /** Handling a push leaves the caller's entry as the caller was, in full, and marks it seen now. */
  lemma PushInforms(c: Config, run: seq<State>, i: Addr, push: Push, rows: seq<Row>)
    requires IsRun(c, run) && Enabled(c, Last(run), Handle(i, push, rows))
    ensures
      var k := push.caller;
      var table := Take(c, Last(run), Handle(i, push, rows)).nodes[i].table;
      && k in table && table[k].url == c.url(k) && table[k].pubkey == c.pubkey(k) && table[k].lastSeen == Last(run).now
      && table[k].epoch == push.info.epoch && Had(run, k, table[k].epoch, table[k].groupKey)
  {
    RunKeepsInv(c, run);
    assert PushOk(c, Last(run), push);
    PushIsTrue(c, run, push);
  }

  /** The rows list the table that node `j` had at some point of the run. */
  ghost predicate TableOnce(run: seq<State>, j: Addr, rows: seq<Row>, n: nat) {
    n < |run| && j in run[n].nodes && AreRowsOf(rows, run[n].nodes[j].table)
  }

  lemma {:induction false} ReplyIsATable(c: Config, run: seq<State>, reply: Reply) returns (n: nat)
    requires IsRun(c, run) && reply in Last(run).replies
    ensures TableOnce(run, reply.answerer, reply.rows, n)
  {
    n := 0;
    if |run| > 1 {
      var step := LastStep(c, run);
      var prior := run[..|run| - 1];
      if reply in Last(prior).replies {
        n := ReplyIsATable(c, prior, reply);
        assert run[n] == prior[n];
      } else {
        n := |run| - 1;
        assert run[|run| - 2] == Last(prior) && step.Handle?;
      }
    }
  }

  /** Absorbing a reply, a node falls behind the answerer's table on no peer but itself. */
  lemma RelayInforms(c: Config, run: seq<State>, i: Addr, reply: Reply) returns (n: nat)
    requires IsRun(c, run) && Enabled(c, Last(run), Absorb(i, reply))
    ensures n < |run| && reply.answerer in run[n].nodes
    ensures
      var known := run[n].nodes[reply.answerer].table;
      var table := Take(c, Last(run), Absorb(i, reply)).nodes[i].table;
      forall k :: k in known && c.url(k) != c.url(i) ==> k in table && known[k].epoch <= table[k].epoch
  {
    n := ReplyIsATable(c, run, reply);
    PrefixIsRun(c, run, n);
    RunKeepsInv(c, run[..n + 1]);
    var known := run[n].nodes[reply.answerer].table;
    var table := Take(c, Last(run), Absorb(i, reply)).nodes[i].table;
    forall k | k in known && c.url(k) != c.url(i) ensures k in table && known[k].epoch <= table[k].epoch {
      assert EntryOk(c, run[n], reply.answerer, k, known[k]);
      RowInforms(Last(run).nodes[i].table, c.url(i), c.url(reply.answerer), reply.rows, Last(run).now, known, k);
    }
  }

  lemma RowInforms(
    table: Table, selfUrl: string, target: string, rows: seq<Row>, now: int, known: Table, k: Addr)
    requires AreRowsOf(rows, known) && k in known && known[k].url != selfUrl && known[k].url != ""
    ensures
      var after := Absorbed(table, selfUrl, target, rows, now);
      k in after && known[k].epoch <= after[k].epoch
  {
    RelaysInFull(Touched(table, target, now), selfUrl, rows, k);
    var m :| 0 <= m < |rows| && rows[m] == RowOf(k, known[k]);
    assert RowFor(rows[m], selfUrl, k);
  }
}
