/**
 The peer table and the three ways gossip changes it: a peer pushes to us, our push to a peer succeeds,
 and a reply relays what the peer knows of others.
 */
module PeerTable {
  import opened Collections
  import opened Membership

  /** One relayed entry; the address is missing when it does not decode. */
  datatype Row = Row(url: string, addr: Option<Addr>, pubkey: seq<int>, epoch: nat, groupKey: seq<int>)

  /** What a node says of itself in a push. */
  datatype SelfInfo = SelfInfo(url: string, epoch: nat, groupKey: seq<int>)

  // ---- What the table becomes ----

  /** A signed push: the caller's entry is replaced, epoch included, and marked seen. */
  function Pushed(table: Table, caller: Addr, pubkey: seq<int>, info: SelfInfo, now: int): Table {
    if info.url == "" then table else table[caller := PeerInfo(info.url, now, pubkey, info.epoch, info.groupKey)]
  }

  /** Our push to `target` succeeded: every entry with that URL is marked seen. */
  function Touched(table: Table, target: string, now: int): Table {
    map k | k in table :: if table[k].url == target then table[k].(lastSeen := now) else table[k]
  }

  predicate Counts(row: Row, selfUrl: string) {
    row.url != selfUrl && row.url != "" && row.addr.Some?
  }

  predicate RowFor(row: Row, selfUrl: string, k: Addr) {
    Counts(row, selfUrl) && row.addr.value == k
  }

  function Fresher(e: PeerInfo, row: Row): PeerInfo {
    PeerInfo(row.url, e.lastSeen,
             if row.pubkey != [] then row.pubkey else e.pubkey,
             if row.epoch > e.epoch then row.epoch else e.epoch,
             if row.groupKey != [] then row.groupKey else e.groupKey)
  }

  function Merged(table: Table, selfUrl: string, row: Row): Table {
    if !Counts(row, selfUrl) then table
    else if row.addr.value in table then table[row.addr.value := Fresher(table[row.addr.value], row)]
    else table[row.addr.value := PeerInfo(row.url, 0, row.pubkey, row.epoch, row.groupKey)]
  }

  function MergedAll(table: Table, selfUrl: string, rows: seq<Row>): Table {
    if rows == [] then table else Merged(MergedAll(table, selfUrl, rows[..|rows| - 1]), selfUrl, rows[|rows| - 1])
  }

  function Absorbed(table: Table, selfUrl: string, target: string, rows: seq<Row>, now: int): Table {
    MergedAll(Touched(table, target, now), selfUrl, rows)
  }

  // ---- What relays can and cannot do ----

  ghost predicate Relayed(rows: seq<Row>, selfUrl: string, k: Addr) {
    exists i :: 0 <= i < |rows| && RowFor(rows[i], selfUrl, k)
  }

  /** `e` is the larger of the old epoch and all epochs relayed for `k`. */
  ghost predicate IsLargest(e: nat, table: Table, selfUrl: string, rows: seq<Row>, k: Addr) {
    && (k in table ==> table[k].epoch <= e)
    && (forall i :: 0 <= i < |rows| && RowFor(rows[i], selfUrl, k) ==> rows[i].epoch <= e)
    && ((k in table && table[k].epoch == e) ||
        exists i :: 0 <= i < |rows| && RowFor(rows[i], selfUrl, k) && rows[i].epoch == e)
  }

  /**
   Relaying in full: it forgets no one, adds exactly the peers named, takes the largest epoch heard, and
   leaves every known peer's liveness as it was and every new peer's at "never seen".
   */
  lemma {:induction false} RelaysInFull(table: Table, selfUrl: string, rows: seq<Row>, k: Addr)
    ensures
      var after := MergedAll(table, selfUrl, rows);
      && (k in after <==> k in table || Relayed(rows, selfUrl, k))
      && (k in after ==>
            && after[k].lastSeen == (if k in table then table[k].lastSeen else 0)
            && IsLargest(after[k].epoch, table, selfUrl, rows, k))
  {
    if rows != [] {
      var n := |rows| - 1;
      var before, row := rows[..n], rows[n];
      RelaysInFull(table, selfUrl, before, k);
      var mid, after := MergedAll(table, selfUrl, before), MergedAll(table, selfUrl, rows);
      assert RowFor(row, selfUrl, k) ==> Relayed(rows, selfUrl, k);
      if Relayed(before, selfUrl, k) {
        var i :| 0 <= i < |before| && RowFor(before[i], selfUrl, k);
        assert RowFor(rows[i], selfUrl, k);
      }
      if k in after {
        LargestGrows(table, selfUrl, rows, k, if k in mid then mid[k].epoch else 0, after[k].epoch);
      }
    }
  }

  lemma LargestGrows(table: Table, selfUrl: string, rows: seq<Row>, k: Addr, mid: nat, e: nat)
    requires rows != []
    requires var before, row := rows[..|rows| - 1], rows[|rows| - 1];
      && (IsLargest(mid, table, selfUrl, before, k)
          || (mid == 0 && k !in table && !Relayed(before, selfUrl, k) && RowFor(row, selfUrl, k)))
      && e == (if RowFor(row, selfUrl, k) && row.epoch > mid then row.epoch else mid)
    ensures IsLargest(e, table, selfUrl, rows, k)
  {
    var n := |rows| - 1;
    var before := rows[..n];
    forall i | 0 <= i < |rows| && RowFor(rows[i], selfUrl, k) ensures rows[i].epoch <= e {
      if i < n { assert before[i] == rows[i]; }
    }
    if !(k in table && table[k].epoch == e) && e == mid && Relayed(before, selfUrl, k) {
      var i :| 0 <= i < |before| && RowFor(before[i], selfUrl, k) && before[i].epoch == mid;
      assert rows[i] == before[i];
    }
  }

  /** `i` is the last row relayed for `k`. */
  ghost predicate IsLatest(rows: seq<Row>, selfUrl: string, k: Addr, i: nat)
    requires i < |rows|
  {
    RowFor(rows[i], selfUrl, k) && forall j :: i < j < |rows| ==> !RowFor(rows[j], selfUrl, k)
  }

  /** The last row relayed for a peer settles its URL and, where the row has them, its two keys. */
  lemma {:induction false} LatestRowWins(table: Table, selfUrl: string, rows: seq<Row>, k: Addr, i: nat)
    requires i < |rows| && IsLatest(rows, selfUrl, k, i)
    ensures
      var after := MergedAll(table, selfUrl, rows);
      && k in after && after[k].url == rows[i].url
      && (rows[i].pubkey != [] ==> after[k].pubkey == rows[i].pubkey)
      && (rows[i].groupKey != [] ==> after[k].groupKey == rows[i].groupKey)
  {
    var n := |rows| - 1;
    if i < n {
      assert !RowFor(rows[n], selfUrl, k);
      LatestRowWins(table, selfUrl, rows[..n], k, i);
    }
  }

  /** An entry that no row names is left exactly as it was. */
  lemma {:induction false} UnnamedEntryIsUntouched(table: Table, selfUrl: string, rows: seq<Row>, k: Addr)
    requires k in table && !Relayed(rows, selfUrl, k)
    ensures k in MergedAll(table, selfUrl, rows) && MergedAll(table, selfUrl, rows)[k] == table[k]
  {
    if rows != [] {
      var n := |rows| - 1;
      assert !RowFor(rows[n], selfUrl, k);
      assert forall i :: 0 <= i < n ==> rows[..n][i] == rows[i];
      UnnamedEntryIsUntouched(table, selfUrl, rows[..n], k);
    }
  }

  /** The last public key relayed for `k` that is not empty, or the one known before. */
  function LatestKey(rows: seq<Row>, selfUrl: string, k: Addr, known: seq<int>): seq<int> {
    if rows == [] then known
    else
      var row := rows[|rows| - 1];
      if RowFor(row, selfUrl, k) && row.pubkey != [] then row.pubkey
      else LatestKey(rows[..|rows| - 1], selfUrl, k, known)
  }

  /** The same for the group key. */
  function LatestGroupKey(rows: seq<Row>, selfUrl: string, k: Addr, known: seq<int>): seq<int> {
    if rows == [] then known
    else
      var row := rows[|rows| - 1];
      if RowFor(row, selfUrl, k) && row.groupKey != [] then row.groupKey
      else LatestGroupKey(rows[..|rows| - 1], selfUrl, k, known)
  }

  /** Nobody relayed is nobody's news. */
  lemma {:induction false} UnrelayedKeys(rows: seq<Row>, selfUrl: string, k: Addr, known: seq<int>)
    requires !Relayed(rows, selfUrl, k)
    ensures LatestKey(rows, selfUrl, k, known) == known && LatestGroupKey(rows, selfUrl, k, known) == known
  {
    if rows != [] {
      var n := |rows| - 1;
      assert !RowFor(rows[n], selfUrl, k);
      assert forall i :: 0 <= i < n ==> rows[..n][i] == rows[i];
      UnrelayedKeys(rows[..n], selfUrl, k, known);
    }
  }

  /** A row without a key never erases one: the last key relayed counts, else the one known before. */
  lemma {:induction false} LatestKeysWin(table: Table, selfUrl: string, rows: seq<Row>, k: Addr)
    requires k in MergedAll(table, selfUrl, rows)
    ensures
      var e := MergedAll(table, selfUrl, rows)[k];
      && e.pubkey == LatestKey(rows, selfUrl, k, if k in table then table[k].pubkey else [])
      && e.groupKey == LatestGroupKey(rows, selfUrl, k, if k in table then table[k].groupKey else [])
  {
    if rows != [] {
      var before := rows[..|rows| - 1];
      if k in MergedAll(table, selfUrl, before) {
        LatestKeysWin(table, selfUrl, before, k);
      } else {
        RelaysInFull(table, selfUrl, before, k);
        UnrelayedKeys(before, selfUrl, k, []);
      }
    }
  }

  /** Rows about ourselves, without a URL, or with an address that does not decode, are passed over; no others. */
  lemma {:induction false} OnlySuchRowsAreIgnored(table: Table, selfUrl: string, row: Row)
    ensures row.url == selfUrl || row.url == "" || row.addr.None? ==> MergedAll(table, selfUrl, [row]) == table
    ensures row.url != selfUrl && row.url != "" && row.addr.Some? ==>
      row.addr.value in MergedAll(table, selfUrl, [row])
  {
    assert [row][..0] == [];
    assert MergedAll(table, selfUrl, [row]) == Merged(MergedAll(table, selfUrl, []), selfUrl, row);
  }

  /** What a push leaves: the caller's entry in full, everyone else's as it was; nothing without a URL. */
  ghost predicate PushLeaves(table: Table, caller: Addr, pubkey: seq<int>, info: SelfInfo, now: int, after: Table) {
    && (info.url == "" ==> after == table)
    && (info.url != "" ==>
          && after.Keys == table.Keys + {caller}
          && after[caller].url == info.url && after[caller].lastSeen == now && after[caller].pubkey == pubkey
          && after[caller].epoch == info.epoch && after[caller].groupKey == info.groupKey
          && forall k :: k in table && k != caller ==> after[k] == table[k])
  }

  lemma PushReplacesTheEntry(table: Table, caller: Addr, pubkey: seq<int>, info: SelfInfo, now: int)
    ensures PushLeaves(table, caller, pubkey, info, now, Pushed(table, caller, pubkey, info, now))
  {
  }

  // ---- The table, in place ----

  class Peers {
    var table: Table
    const selfUrl: string

    constructor (selfUrl: string)
      ensures table == map[] && this.selfUrl == selfUrl
    {
      table := map[];
      this.selfUrl := selfUrl;
    }

    /** The gossip handler: register the caller, return a row for everyone known. */
    method HandlePush(caller: Addr, pubkey: seq<int>, info: SelfInfo, now: int) returns (rows: seq<Row>)
      modifies this
      ensures table == Pushed(old(table), caller, pubkey, info, now)
      ensures PushLeaves(old(table), caller, pubkey, info, now, table)
      ensures AreRowsOf(rows, table)
      ensures forall k :: k in table ==>
        Row(table[k].url, Some(k), table[k].pubkey, table[k].epoch, table[k].groupKey) in rows
    {
      if info.url != "" {
        table := table[caller := PeerInfo(info.url, now, pubkey, info.epoch, info.groupKey)];
      }
      rows := [];
      var todo := table.Keys;
      while todo != {}
        invariant todo <= table.Keys && table == Pushed(old(table), caller, pubkey, info, now)
        invariant forall i :: 0 <= i < |rows| ==> IsRowOf(rows[i], table)
        invariant forall k :: k in table.Keys - todo ==> RowOf(k, table[k]) in rows
      {
        EmptyOrInhabited(todo);
        var k :| k in todo;
        rows := rows + [RowOf(k, table[k])];
        todo := todo - {k};
      }
    }

    /** Every entry recorded under `target` was just seen alive. */
    method MarkSeen(target: string, now: int)
      modifies this
      ensures table == Touched(old(table), target, now)
      ensures table.Keys == old(table).Keys
      ensures forall k :: k in table ==>
        if old(table)[k].url == target then table[k] == old(table)[k].(lastSeen := now) else table[k] == old(table)[k]
    {
      ghost var goal := Touched(table, target, now);
      var todo := table.Keys;
      while todo != {}
        invariant todo <= table.Keys == goal.Keys == old(table).Keys
        invariant forall k :: k in goal && k !in todo ==> table[k] == goal[k]
        invariant forall k :: k in todo ==> table[k] == old(table)[k]
      {
        EmptyOrInhabited(todo);
        var k :| k in todo;
        if table[k].url == target {
          table := table[k := table[k].(lastSeen := now)];
        }
        todo := todo - {k};
      }
      assert forall k :: k in goal ==> k in table && table[k] == goal[k];
      assert forall k :: k in table <==> k in goal by { assert table.Keys == goal.Keys; }
      assert table == goal;
    }

    /** A successful push to `target` at time `now`, with the rows of its reply. */
    method AbsorbReply(target: string, rows: seq<Row>, now: int)
      modifies this
      ensures table == Absorbed(old(table), selfUrl, target, rows, now)
    {
      MarkSeen(target, now);
      for i := 0 to |rows|
        invariant table == MergedAll(Touched(old(table), target, now), selfUrl, rows[..i])
      {
        var row := rows[i];
        assert rows[..i + 1][..i] == rows[..i];
        if row.url == selfUrl || row.url == "" { continue; }
        match row.addr
        case Some(k) =>
          if k in table {
            var e := table[k];
            e := e.(url := row.url);
            if row.pubkey != [] { e := e.(pubkey := row.pubkey); }
            if row.epoch > e.epoch { e := e.(epoch := row.epoch); }
            if row.groupKey != [] { e := e.(groupKey := row.groupKey); }
            table := table[k := e];
          } else {
            table := table[k := PeerInfo(row.url, 0, row.pubkey, row.epoch, row.groupKey)];
          }
        case None =>
      }
      assert rows[..|rows|] == rows;
    }

    /** The highest epoch known: the own share's and every entry's. */
    method KnownEpoch(own: nat) returns (e: nat)
      ensures IsKnownEpoch(own, table, e)
    {
      e := own;
      var todo := table.Keys;
      while todo != {}
        invariant todo <= table.Keys && own <= e
        invariant forall k :: k in table.Keys - todo ==> table[k].epoch <= e
        invariant e == own || exists k :: k in table && table[k].epoch == e
      {
        EmptyOrInhabited(todo);
        var k :| k in todo;
        if table[k].epoch > e { e := table[k].epoch; }
        todo := todo - {k};
      }
    }
  }

  function RowOf(k: Addr, e: PeerInfo): Row {
    Row(e.url, Some(k), e.pubkey, e.epoch, e.groupKey)
  }

  predicate IsRowOf(row: Row, table: Table) {
    row.addr.Some? && row.addr.value in table && row == RowOf(row.addr.value, table[row.addr.value])
  }

  /** The reply lists the table, in any order. */
  predicate AreRowsOf(rows: seq<Row>, table: Table) {
    (forall i :: 0 <= i < |rows| ==> IsRowOf(rows[i], table)) && forall k :: k in table ==> RowOf(k, table[k]) in rows
  }

  ghost predicate IsKnownEpoch(own: nat, table: Table, e: nat) {
    && own <= e && (forall k :: k in table ==> table[k].epoch <= e)
    && (e == own || exists k :: k in table && table[k].epoch == e)
  }
}
