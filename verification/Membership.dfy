/**
 Who can take part in a session: liveness of peer-table entries, assembly of the committee from the
 node list and the table, choice of dealers, and the operator's alert line.
 */
module Membership {
  import opened Collections

  const LIVENESS_WINDOW := 90

  type Addr = int

  datatype PeerInfo = PeerInfo(url: string, lastSeen: int, pubkey: seq<int>, epoch: nat, groupKey: seq<int>)

  predicate IsLive(info: PeerInfo, now: int) {
    now - info.lastSeen <= LIVENESS_WINDOW
  }

  type Table = map<Addr, PeerInfo>

  datatype SessionPeer = SessionPeer(id: int, url: string, pubkey: seq<int>, epoch: nat)

  datatype Membership = Membership(ownId: int, peers: seq<SessionPeer>, threshold: nat, total: nat, allDiscovered: bool)

  // ---- Dealers and gates ----

  function LiveDealers(peers: seq<SessionPeer>): seq<SessionPeer> {
    if peers == [] then []
    else (if peers[0].epoch > 0 then [peers[0]] else []) + LiveDealers(peers[1..])
  }

  function MaxEpoch(peers: seq<SessionPeer>): nat {
    if peers == [] then 0
    else var m := MaxEpoch(peers[1..]); if peers[0].epoch > m then peers[0].epoch else m
  }

  function AtEpoch(peers: seq<SessionPeer>, e: nat): seq<SessionPeer> {
    if peers == [] then []
    else (if peers[0].epoch == e then [peers[0]] else []) + AtEpoch(peers[1..], e)
  }

  /** The live share-holders on the leading epoch. */
  function LeadingDealers(peers: seq<SessionPeer>): seq<SessionPeer> {
    var dealers := LiveDealers(peers);
    AtEpoch(dealers, MaxEpoch(dealers))
  }

  function Majority(total: nat): nat { total / 2 + 1 }

  /** The two gates `run_reshare_recovery` checks before it starts a session. */
  predicate RecoveryGates(m: Membership) {
    var dealers := |LeadingDealers(m.peers)|;
    dealers >= m.threshold && dealers + 1 >= Majority(m.total)
  }

  function RecoveryThreshold(t: nat, n: nat): nat {
    if t >= n / 2 then t else n / 2
  }

  function PeerIds(peers: seq<SessionPeer>): (ids: set<int>) {
    set k | 0 <= k < |peers| :: peers[k].id
  }

  /** Ids ascend, as assembly produces them. */
  predicate Ascending(peers: seq<SessionPeer>) {
    forall i, j :: 0 <= i < j < |peers| ==> peers[i].id < peers[j].id
  }

  /** A peer leads: it holds a share and no live holder is on a later epoch. */
  predicate Leads(peers: seq<SessionPeer>, q: SessionPeer) {
    q in peers && q.epoch > 0 && forall r :: r in peers ==> r.epoch <= q.epoch
  }

  lemma {:induction false} MaxEpochBounds(peers: seq<SessionPeer>)
    ensures forall r :: r in peers ==> r.epoch <= MaxEpoch(peers)
    ensures peers != [] ==> exists r :: r in peers && r.epoch == MaxEpoch(peers)
  {
    if peers != [] {
      MaxEpochBounds(peers[1..]);
      assert peers == [peers[0]] + peers[1..];
      if |peers| == 1 || peers[0].epoch >= MaxEpoch(peers[1..]) {
        assert peers[0] in peers && MaxEpoch(peers) == peers[0].epoch;
      } else {
        var r :| r in peers[1..] && r.epoch == MaxEpoch(peers[1..]);
        assert r in peers;
      }
    }
  }

  lemma {:induction false} LiveDealersMembers(peers: seq<SessionPeer>)
    ensures forall q :: q in LiveDealers(peers) <==> q in peers && q.epoch > 0
  {
    if peers != [] {
      LiveDealersMembers(peers[1..]);
      assert peers == [peers[0]] + peers[1..];
    }
  }

  lemma {:induction false} AtEpochMembers(peers: seq<SessionPeer>, e: nat)
    ensures forall q :: q in AtEpoch(peers, e) <==> q in peers && q.epoch == e
  {
    if peers != [] {
      AtEpochMembers(peers[1..], e);
      assert peers == [peers[0]] + peers[1..];
    }
  }

  /** The dealers chosen are exactly the peers that lead, so they all sit on one epoch. */
  lemma LeadingDealersLead(peers: seq<SessionPeer>)
    ensures forall q :: q in LeadingDealers(peers) <==> Leads(peers, q)
  {
    var dealers := LiveDealers(peers);
    LiveDealersMembers(peers);
    MaxEpochBounds(dealers);
    AtEpochMembers(dealers, MaxEpoch(dealers));
    forall q ensures q in LeadingDealers(peers) <==> Leads(peers, q) {
      if q in LeadingDealers(peers) {
        forall r | r in peers ensures r.epoch <= q.epoch {
          if r.epoch > 0 { assert r in dealers; }
        }
      }
      if Leads(peers, q) {
        assert q in dealers;
        var r :| r in dealers && r.epoch == MaxEpoch(dealers);
      }
    }
  }

  lemma {:induction false} LiveDealersAscend(peers: seq<SessionPeer>)
    requires Ascending(peers)
    ensures Ascending(LiveDealers(peers))
  {
    if peers != [] {
      LiveDealersAscend(peers[1..]);
      LiveDealersMembers(peers[1..]);
      AscendingCons(peers, LiveDealers(peers[1..]));
    }
  }

  lemma {:induction false} AtEpochAscends(peers: seq<SessionPeer>, e: nat)
    requires Ascending(peers)
    ensures Ascending(AtEpoch(peers, e))
  {
    if peers != [] {
      AtEpochAscends(peers[1..], e);
      AtEpochMembers(peers[1..], e);
      AscendingCons(peers, AtEpoch(peers[1..], e));
    }
  }

  lemma AscendingCons(peers: seq<SessionPeer>, rest: seq<SessionPeer>)
    requires peers != [] && Ascending(peers) && Ascending(rest) && forall q :: q in rest ==> q in peers[1..]
    ensures Ascending([peers[0]] + rest)
  {
    var all := [peers[0]] + rest;
    forall i, j | 0 <= i < j < |all| ensures all[i].id < all[j].id {
      assert all[j] == rest[j - 1] && rest[j - 1] in peers[1..];
      var k :| 0 <= k < |peers[1..]| && peers[1..][k] == rest[j - 1];
      assert peers[0].id < peers[k + 1].id;
    }
  }

  lemma LeadingDealersAscend(peers: seq<SessionPeer>)
    requires Ascending(peers)
    ensures Ascending(LeadingDealers(peers))
  {
    LiveDealersAscend(peers);
    AtEpochAscends(LiveDealers(peers), MaxEpoch(LiveDealers(peers)));
  }

  /** Peers that all hold a share of one epoch all lead. */
  lemma {:induction false} AllOnOneEpochLead(peers: seq<SessionPeer>, e: nat)
    requires e > 0 && forall k :: 0 <= k < |peers| ==> peers[k].epoch == e
    ensures LiveDealers(peers) == peers && AtEpoch(peers, e) == peers
    ensures MaxEpoch(peers) == if peers == [] then 0 else e
  {
    if peers != [] {
      AllOnOneEpochLead(peers[1..], e);
      assert peers == [peers[0]] + peers[1..];
    }
  }

  // ---- Assembly ----

  predicate Usable(table: Table, a: Addr, now: int) {
    a in table && table[a].pubkey != [] && IsLive(table[a], now)
  }

  function PeerOf(table: Table, a: Addr, id: int): SessionPeer
    requires a in table
  {
    SessionPeer(id, table[a].url, table[a].pubkey, table[a].epoch)
  }

  /** The usable members among the first `k` of the node list, leaving out position `own`. */
  function Assembled(nodes: seq<Addr>, table: Table, own: int, now: int, k: nat): seq<SessionPeer>
    requires k <= |nodes|
  {
    if k == 0 then []
    else
      var before := Assembled(nodes, table, own, now, k - 1);
      if k != own && Usable(table, nodes[k - 1], now) then before + [PeerOf(table, nodes[k - 1], k)] else before
  }

  datatype Assembly = NotAMember | ListTooShort | Ready(m: Membership)

  function PositionOf(nodes: seq<Addr>, a: Addr): (i: nat)
    requires a in nodes
    ensures i < |nodes| && nodes[i] == a && forall j :: 0 <= j < i ==> nodes[j] != a
  {
    if nodes[0] == a then 0 else 1 + PositionOf(nodes[1..], a)
  }

  /**
   Committee assembly.  Every peer returned is usable, every usable other member is returned, in
   node-list order, and `allDiscovered` says exactly that no other member is missing.
   */
  method AssembleParticipants(nodes: seq<Addr>, table: Table, ownAddr: Addr, threshold: nat, total: nat, now: int)
    returns (r: Assembly)
    ensures r.ListTooShort? <==> |nodes| < total
    ensures r.NotAMember? <==> |nodes| >= total && ownAddr !in nodes
    ensures r.Ready? ==>
      && r.m.ownId == PositionOf(nodes, ownAddr) + 1 && r.m.threshold == threshold && r.m.total == total
      && r.m.peers == Assembled(nodes, table, r.m.ownId, now, |nodes|)
      && (r.m.allDiscovered <==>
            forall i :: 0 <= i < |nodes| && i + 1 != r.m.ownId ==>
              nodes[i] in table && table[nodes[i]].pubkey != [] && now - table[nodes[i]].lastSeen <= 90)
  {
    if |nodes| < total { return ListTooShort; }
    if ownAddr !in nodes { return NotAMember; }
    var ownId := PositionOf(nodes, ownAddr) + 1;
    var peers: seq<SessionPeer> := [];
    var all := true;
    var i := 0;
    while i < |nodes|
      invariant 0 <= i <= |nodes|
      invariant peers == Assembled(nodes, table, ownId, now, i)
      invariant all <==> forall j :: 0 <= j < i && j + 1 != ownId ==> Usable(table, nodes[j], now)
    {
      var id := i + 1;
      if id != ownId {
        if Usable(table, nodes[i], now) {
          peers := peers + [PeerOf(table, nodes[i], id)];
        } else {
          all := false;
        }
      }
      i := i + 1;
    }
    return Ready(Membership(ownId, peers, threshold, total, all));
  }

  /** Another member of the list, with a known key and direct contact within 90 seconds, as the table has it. */
  predicate Belongs(nodes: seq<Addr>, table: Table, own: int, now: int, q: SessionPeer) {
    && 1 <= q.id <= |nodes| && q.id != own && nodes[q.id - 1] in table
    && var e := table[nodes[q.id - 1]];
       && e.pubkey != [] && now - e.lastSeen <= 90
       && q.url == e.url && q.pubkey == e.pubkey && q.epoch == e.epoch
  }

  lemma {:induction false} AssembledIsExact(nodes: seq<Addr>, table: Table, own: int, now: int, k: nat)
    requires k <= |nodes|
    ensures Ascending(Assembled(nodes, table, own, now, k))
    ensures forall q :: q in Assembled(nodes, table, own, now, k) <==> q.id <= k && Belongs(nodes, table, own, now, q)
  {
    if k > 0 {
      AssembledIsExact(nodes, table, own, now, k - 1);
      var before := Assembled(nodes, table, own, now, k - 1);
      forall i | 0 <= i < |before| ensures before[i].id < k {
        assert before[i] in before;
      }
    }
  }

  // ---- Participants of one request ----

  /** The ids a dealer resolves: the request's ids without zero and without its own. */
  function OtherIds(ids: seq<int>, own: int): seq<int> {
    if ids == [] then []
    else
      var last := ids[|ids| - 1];
      OtherIds(ids[..|ids| - 1], own) + if last == 0 || last == own then [] else [last]
  }

  datatype Resolution = Unknown(id: int) | Resolved(peers: seq<SessionPeer>)

  /** Resolve the ids of a request; it fails on the first id that is off the list or undiscovered. */
  method ResolvePeers(nodes: seq<Addr>, table: Table, ids: seq<int>, own: int) returns (r: Resolution)
    requires forall i :: 0 <= i < |ids| ==> ids[i] >= 0
    ensures r.Resolved? ==>
      && |r.peers| == |OtherIds(ids, own)|
      && forall i :: 0 <= i < |r.peers| ==> r.peers[i].id == OtherIds(ids, own)[i] && IsEntry(nodes, table, r.peers[i])
    ensures r.Resolved? <==>
      forall i :: 0 <= i < |ids| && ids[i] != 0 && ids[i] != own ==>
        1 <= ids[i] <= |nodes| && nodes[ids[i] - 1] in table && table[nodes[ids[i] - 1]].pubkey != []
    ensures r.Unknown? ==>
      && r.id in ids && r.id != 0 && r.id != own
      && (1 <= r.id <= |nodes| && nodes[r.id - 1] in table ==> table[nodes[r.id - 1]].pubkey == [])
  {
    var peers: seq<SessionPeer> := [];
    var k := 0;
    while k < |ids|
      invariant 0 <= k <= |ids|
      invariant |peers| == |OtherIds(ids[..k], own)|
      invariant forall i :: 0 <= i < |peers| ==>
        peers[i].id == OtherIds(ids[..k], own)[i] && IsEntry(nodes, table, peers[i])
      invariant forall i :: 0 <= i < k && ids[i] != 0 && ids[i] != own ==> Discovered(nodes, table, ids[i])
    {
      var id := ids[k];
      assert ids[..k + 1][..k] == ids[..k];
      if id != 0 && id != own {
        if !Discovered(nodes, table, id) { return Unknown(id); }
        peers := peers + [PeerOf(table, nodes[id - 1], id)];
      }
      k := k + 1;
    }
    assert ids[..|ids|] == ids;
    return Resolved(peers);
  }

  predicate Discovered(nodes: seq<Addr>, table: Table, id: int) {
    1 <= id <= |nodes| && nodes[id - 1] in table && table[nodes[id - 1]].pubkey != []
  }

  /** The peer carries the URL, key and epoch that the table has for its place on the list. */
  predicate IsEntry(nodes: seq<Addr>, table: Table, q: SessionPeer) {
    && 1 <= q.id <= |nodes| && nodes[q.id - 1] in table
    && var e := table[nodes[q.id - 1]];
       e.pubkey != [] && q.url == e.url && q.pubkey == e.pubkey && q.epoch == e.epoch
  }

  /** A request for dealers and a recovering node (0 for a refresh). */
  function RequestIds(dealers: seq<int>, recovering: int): seq<int> {
    if recovering != 0 then dealers + [recovering] else dealers
  }

  lemma {:induction false} OtherIdsMembers(ids: seq<int>, own: int)
    ensures forall x :: x in OtherIds(ids, own) <==> x in ids && x != 0 && x != own
  {
    if ids != [] {
      OtherIdsMembers(ids[..|ids| - 1], own);
      assert ids == ids[..|ids| - 1] + [ids[|ids| - 1]];
    }
  }

  /** Every dealer of a request, together with the peers it waits for, sees the same participant set. */
  lemma DealersAgreeOnParticipants(dealers: seq<int>, recovering: int, d: int, e: int)
    requires 0 !in dealers && d in dealers && e in dealers
    ensures SeenBy(dealers, recovering, d) == SeenBy(dealers, recovering, e)
    ensures SeenBy(dealers, recovering, d) == set x | x in RequestIds(dealers, recovering)
  {
    DealerSeesRequest(dealers, recovering, d);
    DealerSeesRequest(dealers, recovering, e);
  }

  /** The participants from a dealer's point of view: itself and the peers it waits for. */
  function SeenBy(dealers: seq<int>, recovering: int, d: int): set<int> {
    (set x | x in OtherIds(RequestIds(dealers, recovering), d)) + {d}
  }

  lemma DealerSeesRequest(dealers: seq<int>, recovering: int, d: int)
    requires 0 !in dealers && d in dealers
    ensures SeenBy(dealers, recovering, d) == set x | x in RequestIds(dealers, recovering)
  {
    var ids := RequestIds(dealers, recovering);
    OtherIdsMembers(ids, d);
    forall x ensures x in SeenBy(dealers, recovering, d) <==> x in ids {
      assert x in ids ==> x != 0;
    }
  }

  /** The dealer ids a recovering node sends, in the order it sends them. */
  function DealerIds(m: Membership): (ids: seq<int>) {
    var dealers := LeadingDealers(m.peers);
    seq(|dealers|, i requires 0 <= i < |dealers| => dealers[i].id)
  }

  /**
   All participants of a recovery agree: the ids sent are already in ascending order, so that every
   dealer weighs its share by one list and finds itself in one place of it; and each dealer's
   participant set is the recovering node's own, its dealers and itself.
   */
  lemma RecoveryParticipantsAgree(m: Membership, d: int)
    requires Ascending(m.peers) && m.ownId > 0 && d in DealerIds(m)
    requires forall q :: q in m.peers ==> q.id > 0 && q.id != m.ownId
    ensures forall i, j :: 0 <= i < j < |DealerIds(m)| ==> DealerIds(m)[i] < DealerIds(m)[j]
    ensures forall i :: 0 <= i < |DealerIds(m)| && DealerIds(m)[i] == d ==> i == PositionOf(DealerIds(m), d)
    ensures SeenBy(DealerIds(m), m.ownId, d) == PeerIds(LeadingDealers(m.peers)) + {m.ownId}
  {
    var dealers, ids := LeadingDealers(m.peers), DealerIds(m);
    LeadingDealersAscend(m.peers);
    LeadingDealersLead(m.peers);
    forall i | 0 <= i < |ids| ensures ids[i] > 0 && ids[i] in PeerIds(dealers) {
      assert dealers[i] in dealers && dealers[i].id == ids[i];
    }
    DealerSeesRequest(ids, m.ownId, d);
    forall x ensures x in PeerIds(dealers) <==> x in ids {
      if x in PeerIds(dealers) {
        var k :| 0 <= k < |dealers| && dealers[k].id == x;
        assert ids[k] == x;
      }
    }
  }

  // ---- The alert line ----

  /** Live table entries that hold a share on the leading epoch of the live holders and of `own`. */
  ghost function LeadingHolders(table: Table, now: int, own: nat): set<Addr> {
    set a | a in table && IsLive(table[a], now) && table[a].epoch > 0 && own <= table[a].epoch &&
            forall b :: b in table && IsLive(table[b], now) ==> table[b].epoch <= table[a].epoch
  }

  method LeadingEpoch(table: Table, now: int, own: nat) returns (best: nat)
    ensures own <= best && forall b :: b in table && IsLive(table[b], now) ==> table[b].epoch <= best
    ensures best == own || exists b :: b in table && IsLive(table[b], now) && table[b].epoch == best
  {
    best := own;
    var rest := table.Keys;
    while rest != {}
      invariant rest <= table.Keys && own <= best
      invariant forall b :: b in table && b !in rest && IsLive(table[b], now) ==> table[b].epoch <= best
      invariant best == own || exists b :: b in table && IsLive(table[b], now) && table[b].epoch == best
      decreases |rest|
    {
      EmptyOrInhabited(rest);
      var a :| a in rest;
      if IsLive(table[a], now) && table[a].epoch > best { best := table[a].epoch; }
      rest := rest - {a};
    }
  }

  method CountAtEpoch(table: Table, now: int, e: nat) returns (count: nat)
    ensures count == |set a | a in table && IsLive(table[a], now) && table[a].epoch == e|
  {
    var counted: set<Addr> := {};
    count := 0;
    var rest := table.Keys;
    while rest != {}
      invariant rest <= table.Keys && count == |counted|
      invariant counted == set a | a in table && a !in rest && IsLive(table[a], now) && table[a].epoch == e
      decreases |rest|
    {
      EmptyOrInhabited(rest);
      var a :| a in rest;
      if IsLive(table[a], now) && table[a].epoch == e {
        counted, count := counted + {a}, count + 1;
      }
      rest := rest - {a};
    }
    assert counted == set a | a in table && IsLive(table[a], now) && table[a].epoch == e;
  }

  /** The leading-holder count of the cluster view, ourselves included when we lead (`own` 0: no share). */
  method CountLeadingHolders(table: Table, now: int, own: nat) returns (leading: nat)
    ensures leading == |LeadingHolders(table, now, own)| + if OwnLeads(table, now, own) then 1 else 0
  {
    var best := LeadingEpoch(table, now, own);
    if best == 0 {
      assert forall a :: a !in LeadingHolders(table, now, own);
      EmptyOrInhabited(LeadingHolders(table, now, own));
      return 0;
    }
    leading := CountAtEpoch(table, now, best);
    assert LeadingHolders(table, now, own) == set a | a in table && IsLive(table[a], now) && table[a].epoch == best by {
      forall a | a in LeadingHolders(table, now, own) ensures table[a].epoch == best {
        if best != own {
          var b :| b in table && IsLive(table[b], now) && table[b].epoch == best;
        }
      }
    }
    if own == best { leading := leading + 1; }
  }

  ghost predicate OwnLeads(table: Table, now: int, own: nat) {
    own > 0 && forall b :: b in table && IsLive(table[b], now) ==> table[b].epoch <= own
  }

  /** The live entries are exactly usable members of the node list other than ourselves. */
  ghost predicate LiveEntriesAreMembers(nodes: seq<Addr>, table: Table, own: int, now: int) {
    && (forall i, j :: 0 <= i < j < |nodes| ==> nodes[i] != nodes[j])
    && (forall a :: a in table && IsLive(table[a], now) ==>
          table[a].pubkey != [] && exists i :: 0 <= i < |nodes| && i + 1 != own && nodes[i] == a)
  }

  ghost function AddressesOf(nodes: seq<Addr>, peers: seq<SessionPeer>): set<Addr> {
    set q | q in peers && 1 <= q.id <= |nodes| :: nodes[q.id - 1]
  }

  lemma {:induction false} AddressesAreDistinct(nodes: seq<Addr>, peers: seq<SessionPeer>)
    requires forall i, j :: 0 <= i < j < |nodes| ==> nodes[i] != nodes[j]
    requires Ascending(peers) && forall q :: q in peers ==> 1 <= q.id <= |nodes|
    ensures |AddressesOf(nodes, peers)| == |peers|
    decreases |peers|
  {
    if peers == [] {
      assert AddressesOf(nodes, peers) == {};
    } else {
      var last := |peers| - 1;
      var init, q := peers[..last], peers[last];
      AddressesAreDistinct(nodes, init);
      assert peers == init + [q];
      OneMoreAddress(nodes, init, q);
      forall i | 0 <= i < |init| ensures 1 <= init[i].id < q.id {
        assert init[i] == peers[i];
      }
      LaterAddressIsNew(nodes, init, q);
    }
  }

  lemma LaterAddressIsNew(nodes: seq<Addr>, peers: seq<SessionPeer>, q: SessionPeer)
    requires forall i, j :: 0 <= i < j < |nodes| ==> nodes[i] != nodes[j]
    requires forall i :: 0 <= i < |peers| ==> 1 <= peers[i].id < q.id
    requires 1 <= q.id <= |nodes|
    ensures nodes[q.id - 1] !in AddressesOf(nodes, peers)
  {
  }

  lemma OneMoreAddress(nodes: seq<Addr>, peers: seq<SessionPeer>, q: SessionPeer)
    requires 1 <= q.id <= |nodes|
    ensures AddressesOf(nodes, peers + [q]) == AddressesOf(nodes, peers) + {nodes[q.id - 1]}
  {
    assert q in peers + [q];
  }

  lemma LiveEntryIsAPeer(nodes: seq<Addr>, table: Table, own: int, now: int, a: Addr) returns (q: SessionPeer)
    requires LiveEntriesAreMembers(nodes, table, own, now) && a in table && IsLive(table[a], now)
    ensures q in Assembled(nodes, table, own, now, |nodes|)
    ensures 1 <= q.id <= |nodes| && nodes[q.id - 1] == a && q.epoch == table[a].epoch
  {
    var i :| 0 <= i < |nodes| && i + 1 != own && nodes[i] == a;
    q := PeerOf(table, a, i + 1);
    AssembledIsExact(nodes, table, own, now, |nodes|);
  }

  lemma DealerIsLeadingHolder(nodes: seq<Addr>, table: Table, own: int, now: int, q: SessionPeer)
    requires LiveEntriesAreMembers(nodes, table, own, now)
    requires Leads(Assembled(nodes, table, own, now, |nodes|), q)
    ensures 1 <= q.id <= |nodes| && nodes[q.id - 1] in LeadingHolders(table, now, 0)
  {
    AssembledIsExact(nodes, table, own, now, |nodes|);
    forall b | b in table && IsLive(table[b], now) ensures table[b].epoch <= q.epoch {
      var r := LiveEntryIsAPeer(nodes, table, own, now, b);
    }
  }

  lemma LeadingHolderIsDealer(nodes: seq<Addr>, table: Table, own: int, now: int, a: Addr) returns (q: SessionPeer)
    requires LiveEntriesAreMembers(nodes, table, own, now) && a in LeadingHolders(table, now, 0)
    ensures Leads(Assembled(nodes, table, own, now, |nodes|), q)
    ensures 1 <= q.id <= |nodes| && nodes[q.id - 1] == a
  {
    q := LiveEntryIsAPeer(nodes, table, own, now, a);
    AssembledIsExact(nodes, table, own, now, |nodes|);
    var peers := Assembled(nodes, table, own, now, |nodes|);
    forall r | r in peers ensures r.epoch <= q.epoch {
      assert Usable(table, nodes[r.id - 1], now);
    }
  }

  /**
   The alert line equals the gates: a node without a share passes both gates of the recovery exactly
   when the leading holders reach `max(threshold, total / 2)`.
   */
  lemma AlertLineEqualsGates(nodes: seq<Addr>, table: Table, own: int, now: int, m: Membership)
    requires LiveEntriesAreMembers(nodes, table, own, now) && m.peers == Assembled(nodes, table, own, now, |nodes|)
    ensures RecoveryGates(m) <==> |LeadingHolders(table, now, 0)| >= RecoveryThreshold(m.threshold, m.total)
  {
    var dealers := LeadingDealers(m.peers);
    AssembledIsExact(nodes, table, own, now, |nodes|);
    LeadingDealersLead(m.peers);
    LeadingDealersAscend(m.peers);
    forall q | q in dealers ensures 1 <= q.id <= |nodes| && nodes[q.id - 1] in LeadingHolders(table, now, 0) {
      DealerIsLeadingHolder(nodes, table, own, now, q);
    }
    forall a | a in LeadingHolders(table, now, 0) ensures a in AddressesOf(nodes, dealers) {
      var q := LeadingHolderIsDealer(nodes, table, own, now, a);
      assert q in dealers;
    }
    AddressesAreDistinct(nodes, dealers);
    assert AddressesOf(nodes, dealers) == LeadingHolders(table, now, 0);
  }
}
