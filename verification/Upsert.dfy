/** Tables that a sync loop updates row by row, matched on (connection, key). A sync refines
    overriding the connection's map with the inventory. */
module Upsert {
  import opened Prelude

  datatype Row<K, D> = Row(conn: nat, org: nat, key: K, data: D, seenAt: int)

  function FindRow<K(==), D>(rows: seq<Row<K, D>>, conn: nat, key: K): (r: Option<nat>)
    ensures r.Some? ==> r.value < |rows| && rows[r.value].conn == conn && rows[r.value].key == key
    ensures r.None? ==> forall i :: 0 <= i < |rows| ==> rows[i].conn != conn || rows[i].key != key
  {
    FindLast(rows, (r: Row<K, D>) => r.conn == conn && r.key == key)
  }

  /** One iteration: update the row of the key, or add one. */
  function Put<K(==), D>(rows: seq<Row<K, D>>, conn: nat, org: nat, item: (K, D), now: int): seq<Row<K, D>>
  {
    var i := FindRow(rows, conn, item.0);
    if i.Some? then rows[i.value := rows[i.value].(data := item.1, seenAt := now)]
    else rows + [Row(conn, org, item.0, item.1, now)]
  }

  function PutAll<K(==), D>(rows: seq<Row<K, D>>, conn: nat, org: nat, items: seq<(K, D)>, now: int): seq<Row<K, D>>
  {
    if items == [] then rows
    else Put(PutAll(rows, conn, org, items[..|items| - 1], now), conn, org, items[|items| - 1], now)
  }

  /** What an inventory says, the last entry of a key winning. */
  function AsMap<K(==), D>(items: seq<(K, D)>): map<K, D>
  {
    if items == [] then map[] else AsMap(items[..|items| - 1])[items[|items| - 1].0 := items[|items| - 1].1]
  }

  /** What a connection's rows say. */
  function View<K(==), D>(rows: seq<Row<K, D>>, conn: nat): map<K, D>
  {
    if rows == [] then map[]
    else
      var last := rows[|rows| - 1];
      var before := View(rows[..|rows| - 1], conn);
      if last.conn == conn then before[last.key := last.data] else before
  }

  ghost predicate UniqueKeys<K, D>(rows: seq<Row<K, D>>)
  {
    forall i, j :: 0 <= i < j < |rows| ==> rows[i].conn != rows[j].conn || rows[i].key != rows[j].key
  }

  lemma {:induction false} ViewAt<K, D>(rows: seq<Row<K, D>>, conn: nat, i: nat)
    requires UniqueKeys(rows) && i < |rows| && rows[i].conn == conn
    ensures rows[i].key in View(rows, conn) && View(rows, conn)[rows[i].key] == rows[i].data
  {
    if i < |rows| - 1 { ViewAt(rows[..|rows| - 1], conn, i); }
  }

  lemma {:induction false} ViewKeys<K(!new), D>(rows: seq<Row<K, D>>, conn: nat, key: K)
    ensures key in View(rows, conn) <==> FindRow(rows, conn, key).Some?
  {
    if rows != [] { ViewKeys(rows[..|rows| - 1], conn, key); }
  }

  lemma PutUnique<K, D>(rows: seq<Row<K, D>>, conn: nat, org: nat, item: (K, D), now: int)
    requires UniqueKeys(rows)
    ensures UniqueKeys(Put(rows, conn, org, item, now))
  {
    var i := FindRow(rows, conn, item.0);
  }

  /** One iteration overrides one key of the connection's map. */
  lemma PutView<K(!new), D>(rows: seq<Row<K, D>>, conn: nat, org: nat, item: (K, D), now: int)
    requires UniqueKeys(rows)
    ensures View(Put(rows, conn, org, item, now), conn) == View(rows, conn)[item.0 := item.1]
  {
    var after := Put(rows, conn, org, item, now);
    var i := FindRow(rows, conn, item.0);
    PutUnique(rows, conn, org, item, now);
    if i.None? {
      assert after[..|after| - 1] == rows;
    } else {
      forall key ensures key in View(after, conn) <==> key in View(rows, conn)[item.0 := item.1] {
        ViewKeys(after, conn, key);
        ViewKeys(rows, conn, key);
        SameKeys(rows, after, conn, key);
      }
      forall key | key in View(after, conn) ensures View(after, conn)[key] == View(rows, conn)[item.0 := item.1][key] {
        ViewKeys(after, conn, key);
        var k := FindRow(after, conn, key).value;
        ViewAt(after, conn, k);
        ViewAt(rows, conn, k);
      }
    }
  }

  lemma SameKeys<K, D>(a: seq<Row<K, D>>, b: seq<Row<K, D>>, conn: nat, key: K)
    requires |a| == |b| && forall i :: 0 <= i < |a| ==> a[i].conn == b[i].conn && a[i].key == b[i].key
    ensures FindRow(a, conn, key).Some? <==> FindRow(b, conn, key).Some?
  {
    var i, j := FindRow(a, conn, key), FindRow(b, conn, key);
    if i.Some? { assert b[i.value].conn == conn; }
    if j.Some? { assert a[j.value].conn == conn; }
  }

  /** A sync is map override: the connection's map afterwards is the old one overridden by the
      inventory, and keys stay unique. */
  lemma {:induction false} SyncIsOverride<K(!new), D>(rows: seq<Row<K, D>>, conn: nat, org: nat,
                                                     items: seq<(K, D)>, now: int)
    requires UniqueKeys(rows)
    ensures View(PutAll(rows, conn, org, items, now), conn) == View(rows, conn) + AsMap(items)
    ensures UniqueKeys(PutAll(rows, conn, org, items, now))
  {
    if items != [] {
      var before := items[..|items| - 1];
      SyncIsOverride(rows, conn, org, before, now);
      PutView(PutAll(rows, conn, org, before, now), conn, org, items[|items| - 1], now);
      PutUnique(PutAll(rows, conn, org, before, now), conn, org, items[|items| - 1], now);
    }
  }

  /** Rows keep their ids, keys and organization; rows of other connections are untouched; and
      every new row belongs to the connection. */
  lemma {:induction false} SyncFrame<K, D>(rows: seq<Row<K, D>>, conn: nat, org: nat, items: seq<(K, D)>, now: int)
    ensures var after := PutAll(rows, conn, org, items, now);
      && |rows| <= |after|
      && (forall i :: 0 <= i < |rows| ==>
            after[i].conn == rows[i].conn && after[i].org == rows[i].org && after[i].key == rows[i].key)
      && (forall i :: 0 <= i < |rows| && rows[i].conn != conn ==> after[i] == rows[i])
      && (forall i :: |rows| <= i < |after| ==> after[i].conn == conn && after[i].org == org)
  {
    if items != [] { SyncFrame(rows, conn, org, items[..|items| - 1], now); }
  }

  lemma {:induction false} PutKeepsOther<K(!new), D>(rows: seq<Row<K, D>>, conn: nat, org: nat, item: (K, D),
                                                    now: int, c: nat)
    requires c != conn
    ensures View(Put(rows, conn, org, item, now), c) == View(rows, c)
  {
    var i := FindRow(rows, conn, item.0);
    if i.None? {
      assert Put(rows, conn, org, item, now)[..|rows|] == rows;
    } else {
      UpdateKeepsOther(rows, i.value, rows[i.value].(data := item.1, seenAt := now), c);
    }
  }

  lemma {:induction false} UpdateKeepsOther<K(!new), D>(rows: seq<Row<K, D>>, i: nat, row: Row<K, D>, c: nat)
    requires i < |rows| && rows[i].conn != c && row.conn != c
    ensures View(rows[i := row], c) == View(rows, c)
  {
    var last := |rows| - 1;
    if i == last {
      assert rows[i := row][..last] == rows[..last];
    } else {
      UpdateKeepsOther(rows[..last], i, row, c);
      assert rows[i := row][..last] == rows[..last][i := row];
    }
  }

  /** A sync leaves every other connection's map as it is. */
  lemma {:induction false} OthersKeepView<K(!new), D>(rows: seq<Row<K, D>>, conn: nat, org: nat,
                                                     items: seq<(K, D)>, now: int)
    ensures forall c :: c != conn ==> View(PutAll(rows, conn, org, items, now), c) == View(rows, c)
  {
    if items != [] {
      var before := items[..|items| - 1];
      OthersKeepView(rows, conn, org, before, now);
      forall c | c != conn ensures View(PutAll(rows, conn, org, items, now), c) == View(rows, c) {
        PutKeepsOther(PutAll(rows, conn, org, before, now), conn, org, items[|items| - 1], now, c);
      }
    }
  }

  /** What a sync leaves in one existing row. */
  lemma {:induction false} SyncedRow<K, D>(rows: seq<Row<K, D>>, conn: nat, org: nat, items: seq<(K, D)>,
                                          now: int, i: nat)
    requires UniqueKeys(rows) && i < |rows| && rows[i].conn == conn
    ensures i < |PutAll(rows, conn, org, items, now)|
    ensures PutAll(rows, conn, org, items, now)[i] ==
      if rows[i].key in AsMap(items) then rows[i].(data := AsMap(items)[rows[i].key], seenAt := now) else rows[i]
    ensures UniqueKeys(PutAll(rows, conn, org, items, now))
  {
    if items != [] {
      var before := items[..|items| - 1];
      SyncedRow(rows, conn, org, before, now, i);
      var mid := PutAll(rows, conn, org, before, now);
      PutUnique(mid, conn, org, items[|items| - 1], now);
      var k := FindRow(mid, conn, items[|items| - 1].0);
    }
  }

  lemma {:induction false} NewRowsAreSeen<K, D>(rows: seq<Row<K, D>>, conn: nat, org: nat, items: seq<(K, D)>,
                                               now: int)
    ensures var after := PutAll(rows, conn, org, items, now);
      |rows| <= |after| && forall i :: |rows| <= i < |after| ==> after[i].seenAt == now
  {
    if items != [] { NewRowsAreSeen(rows, conn, org, items[..|items| - 1], now); }
  }

  /** A row of the connection and key holds the data, and was seen now. */
  ghost predicate Holds<K, D>(rows: seq<Row<K, D>>, conn: nat, key: K, data: D, now: int)
  {
    exists r :: 0 <= r < |rows| && rows[r] == Row(conn, rows[r].org, key, data, now)
  }

  /** After a sync the last inventory entry of every key is in the connection's row of that key. */
  lemma SyncStores<K(!new), D>(rows: seq<Row<K, D>>, conn: nat, org: nat, items: seq<(K, D)>, now: int, i: nat)
    requires UniqueKeys(rows) && i < |items| && forall j :: i < j < |items| ==> items[j].0 != items[i].0
    ensures Holds(PutAll(rows, conn, org, items, now), conn, items[i].0, items[i].1, now)
  {
    var after, key := PutAll(rows, conn, org, items, now), items[i].0;
    SyncIsOverride(rows, conn, org, items, now);
    LastEntryWins(items, i);
    ViewKeys(after, conn, key);
    var r := FindRow(after, conn, key).value;
    ViewAt(after, conn, r);
    if r < |rows| {
      SyncFrame(rows, conn, org, items, now);
      SyncedRow(rows, conn, org, items, now, r);
    } else {
      NewRowsAreSeen(rows, conn, org, items, now);
    }
    assert after[r] == Row(conn, after[r].org, key, items[i].1, now);
  }

  lemma {:induction false} LastEntryWins<K, D>(items: seq<(K, D)>, i: nat)
    requires i < |items| && forall j :: i < j < |items| ==> items[j].0 != items[i].0
    ensures items[i].0 in AsMap(items) && AsMap(items)[items[i].0] == items[i].1
  {
    if i < |items| - 1 { LastEntryWins(items[..|items| - 1], i); }
  }

  lemma {:induction false} MapKeysAreEntries<K, D>(items: seq<(K, D)>, key: K)
    ensures key in AsMap(items) <==> exists i :: 0 <= i < |items| && items[i].0 == key
  {
    if items != [] {
      var last := |items| - 1;
      MapKeysAreEntries(items[..last], key);
      if i :| 0 <= i < last && items[..last][i].0 == key { assert items[i].0 == key; }
    }
  }

  /** Rows keep their place; those of other connections, and those whose key is not listed, are as
      before; every new row is one of the connection with a listed key. */
  ghost predicate OnlyListed<K(!new), D>(before: seq<Row<K, D>>, after: seq<Row<K, D>>, conn: nat, org: nat,
                                         isListed: K -> bool)
  {
    && UniqueKeys(after) && |before| <= |after|
    && (forall r :: 0 <= r < |before| && (before[r].conn != conn || !isListed(before[r].key)) ==> after[r] == before[r])
    && (forall r :: 0 <= r < |before| ==>
          after[r].conn == before[r].conn && after[r].org == before[r].org && after[r].key == before[r].key)
    && (forall r :: |before| <= r < |after| ==>
          after[r].conn == conn && after[r].org == org && isListed(after[r].key))
  }

  lemma SyncTouchesOnly<K(!new), D>(rows: seq<Row<K, D>>, conn: nat, org: nat, items: seq<(K, D)>, now: int,
                                    isListed: K -> bool)
    requires UniqueKeys(rows) && forall i :: 0 <= i < |items| ==> isListed(items[i].0)
    ensures OnlyListed(rows, PutAll(rows, conn, org, items, now), conn, org, isListed)
  {
    var after := PutAll(rows, conn, org, items, now);
    SyncIsOverride(rows, conn, org, items, now);
    SyncFrame(rows, conn, org, items, now);
    forall r | 0 <= r < |rows| && (rows[r].conn != conn || !isListed(rows[r].key)) ensures after[r] == rows[r] {
      if rows[r].conn == conn {
        SyncedRow(rows, conn, org, items, now, r);
        MapKeysAreEntries(items, rows[r].key);
      }
    }
    forall r | |rows| <= r < |after| ensures isListed(after[r].key) {
      NewRowIsListed(rows, conn, org, items, now, r);
    }
  }

  lemma {:induction false} NewRowIsListed<K(!new), D>(rows: seq<Row<K, D>>, conn: nat, org: nat, items: seq<(K, D)>,
                                                     now: int, r: nat)
    requires |rows| <= r < |PutAll(rows, conn, org, items, now)|
    ensures exists i :: 0 <= i < |items| && items[i].0 == PutAll(rows, conn, org, items, now)[r].key
  {
    if items != [] {
      var last := |items| - 1;
      var mid := PutAll(rows, conn, org, items[..last], now);
      if r < |mid| {
        NewRowIsListed(rows, conn, org, items[..last], now, r);
        var i :| 0 <= i < last && items[..last][i].0 == mid[r].key;
        assert items[i].0 == mid[r].key;
      } else {
        assert items[last].0 == PutAll(rows, conn, org, items, now)[r].key;
      }
    }
  }

  lemma {:induction false} KnownKeysAddNothing<K(!new), D>(rows: seq<Row<K, D>>, conn: nat, org: nat,
                                                          items: seq<(K, D)>, now: int)
    requires forall k :: k in AsMap(items) ==> FindRow(rows, conn, k).Some?
    ensures |PutAll(rows, conn, org, items, now)| == |rows|
  {
    if items != [] {
      var before := items[..|items| - 1];
      var key := items[|items| - 1].0;
      assert key in AsMap(items);
      KnownKeysAddNothing(rows, conn, org, before, now);
      SyncFrame(rows, conn, org, before, now);
      var mid := PutAll(rows, conn, org, before, now);
      SameKeys(rows, mid, conn, key);
    }
  }

  /** Equal but for the time stamps. */
  predicate SameButSeen<K(==), D(==)>(a: seq<Row<K, D>>, b: seq<Row<K, D>>)
  {
    |a| == |b| && forall i :: 0 <= i < |a| ==> a[i] == b[i].(seenAt := a[i].seenAt)
  }

  /** A second sync with the same inventory changes only time stamps. */
  lemma SyncTwice<K(!new), D>(rows: seq<Row<K, D>>, conn: nat, org: nat, items: seq<(K, D)>, now: int, later: int)
    requires UniqueKeys(rows)
    ensures SameButSeen(PutAll(PutAll(rows, conn, org, items, now), conn, org, items, later),
        PutAll(rows, conn, org, items, now))
  {
    var once := PutAll(rows, conn, org, items, now);
    var twice := PutAll(once, conn, org, items, later);
    SyncIsOverride(rows, conn, org, items, now);
    forall k | k in AsMap(items) ensures FindRow(once, conn, k).Some? {
      ViewKeys(once, conn, k);
    }
    KnownKeysAddNothing(once, conn, org, items, later);
    SyncFrame(once, conn, org, items, later);
    forall i | 0 <= i < |once| ensures twice[i] == once[i].(seenAt := twice[i].seenAt) {
      if once[i].conn == conn {
        SyncedRow(once, conn, org, items, later, i);
        ViewAt(once, conn, i);
      }
    }
  }
}
