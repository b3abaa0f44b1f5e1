/** The probe a node without a share makes before it may start a new cluster, and what follows from it. */
module Formation {

  /** The node behind a seed URL, as its shard handler sees itself. */
  datatype Server = Server(admitsCaller: bool, hasPendingShard: bool, holdsShare: bool)

  datatype Code = Unavailable | FailedPrecondition | OtherCode

  datatype Reply = Shard | Refused(code: Code)

  /** One attempt on one seed: no connection, a call that broke off, or an answer of the server. */
  datatype Exchange = NoConnection | BrokeOff(code: Code) | Answered(server: Server, verifies: bool)

  datatype Probe = Received | Unreachable | Declined

  datatype JoinResult = Joined | SeedReachableDeclined | NoSeedReachable

  function RequestShard(server: Server): Reply {
    if !server.admitsCaller then Refused(OtherCode)
    else if server.hasPendingShard then Shard
    else if server.holdsShare then Refused(FailedPrecondition)
    else Refused(Unavailable)
  }

  function OfCode(code: Code): Probe {
    if code == Unavailable then Unreachable else Declined
  }

  function ProbeOf(x: Exchange): Probe {
    match x
    case NoConnection => Unreachable
    case BrokeOff(code) => OfCode(code)
    case Answered(server, verifies) =>
      match RequestShard(server)
      case Shard => if verifies then Received else Declined
      case Refused(code) => OfCode(code)
  }

  /** An answer that shows a cluster may exist: anything but "unavailable" from behind a connection. */
  predicate ShowsACluster(x: Exchange) {
    match x
    case NoConnection => false
    case BrokeOff(code) => code != Unavailable
    case Answered(server, _) => !server.admitsCaller || server.hasPendingShard || server.holdsShare
  }

  /** A seed with shards to hand out admits the caller, and the reply passes its checks. */
  predicate GivesShard(x: Exchange) {
    x.Answered? && x.server.admitsCaller && x.server.hasPendingShard && x.verifies
  }

  /** Ask the seeds in order; the first shard received ends the round. */
  method JoinCluster(seeds: seq<Exchange>) returns (r: JoinResult, asked: nat)
    ensures asked <= |seeds|
    ensures r == Joined <==> exists i :: 0 <= i < |seeds| && GivesShard(seeds[i])
    ensures r == Joined ==>
      asked > 0 && GivesShard(seeds[asked - 1]) && forall i :: 0 <= i < asked - 1 ==> !GivesShard(seeds[i])
    ensures r == NoSeedReachable <==> forall i :: 0 <= i < |seeds| ==> !ShowsACluster(seeds[i])
    ensures r != Joined ==> asked == |seeds|
  {
    var anyReachable := false;
    asked := 0;
    while asked < |seeds|
      invariant asked <= |seeds|
      invariant forall i :: 0 <= i < asked ==> ProbeOf(seeds[i]) != Received && !GivesShard(seeds[i])
      invariant anyReachable <==> exists i :: 0 <= i < asked && ProbeOf(seeds[i]) == Declined
    {
      var probe := ProbeOf(seeds[asked]);
      asked := asked + 1;
      match probe
      case Received =>
        assert GivesShard(seeds[asked - 1]) && ShowsACluster(seeds[asked - 1]);
        return Joined, asked;
      case Unreachable =>
      case Declined => anyReachable := true;
    }
    r := if anyReachable then SeedReachableDeclined else NoSeedReachable;
  }

  /** One turn of cluster formation: genesis needs silent seeds and every member discovered. */
  method FormationTurn(seeds: seq<Exchange>, allDiscovered: bool) returns (startsGenesis: bool)
    ensures startsGenesis <==> allDiscovered && forall i :: 0 <= i < |seeds| ==> !ShowsACluster(seeds[i])
    ensures (exists i :: 0 <= i < |seeds| && seeds[i].Answered? && seeds[i].server.holdsShare) ==> !startsGenesis
  {
    var join, _ := JoinCluster(seeds);
    startsGenesis := join == NoSeedReachable && allDiscovered;
  }
}
