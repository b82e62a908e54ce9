/** SELECT DISTINCT ON (key) ... ORDER BY key, stamp DESC: sorting the rows and keeping the
    first of each run of equal keys is the same as choosing, for every key, a row with the
    greatest stamp. Rows with equal key and stamp may come in any order, so a query has a set
    of possible results; both descriptions allow the same set. */
module DistinctOn {

  /** The first row of each run of equal keys. */
  function FirstOfRuns<R(!new)>(rows: seq<R>, key: R -> int): seq<R>
  {
    if |rows| == 0 then []
    else
      var last := |rows| - 1;
      FirstOfRuns(rows[..last], key) +
      (if last == 0 || key(rows[last - 1]) != key(rows[last]) then [rows[last]] else [])
  }

  ghost predicate Sorted<R(!new)>(rows: seq<R>, key: R -> int, stamp: R -> int)
  {
    forall i, j :: 0 <= i < j < |rows| ==>
      key(rows[i]) < key(rows[j]) || (key(rows[i]) == key(rows[j]) && stamp(rows[i]) >= stamp(rows[j]))
  }

  /** An order in which the database may deliver the rows. */
  ghost predicate IsAnswer<R(!new)>(rows: seq<R>, answer: seq<R>, key: R -> int, stamp: R -> int)
  {
    multiset(rows) == multiset(answer) && Sorted(answer, key, stamp)
  }

  /** `p` is a row of greatest stamp among the rows with its key. */
  ghost predicate IsLatest<R(!new)>(rows: seq<R>, p: R, key: R -> int, stamp: R -> int)
  {
    p in rows && forall r :: r in rows && key(r) == key(p) ==> stamp(r) <= stamp(p)
  }

  ghost predicate Ascending<R(!new)>(picks: seq<R>, key: R -> int)
  {
    forall i, j :: 0 <= i < j < |picks| ==> key(picks[i]) < key(picks[j])
  }

  ghost predicate Covers<R(!new)>(picks: seq<R>, key: R -> int, k: int)
  {
    exists i :: 0 <= i < |picks| && key(picks[i]) == k
  }

  /** One latest row for every key that occurs, in key order. */
  ghost predicate LatestPerKey<R(!new)>(rows: seq<R>, picks: seq<R>, key: R -> int, stamp: R -> int)
  {
    && Ascending(picks, key)
    && (forall i :: 0 <= i < |picks| ==> IsLatest(rows, picks[i], key, stamp))
    && (forall r :: r in rows ==> Covers(picks, key, key(r)))
  }

  lemma {:induction false} RunsAreRows<R(!new)>(answer: seq<R>, key: R -> int)
    ensures forall p :: p in FirstOfRuns(answer, key) ==> p in answer
    ensures answer != [] ==>
      FirstOfRuns(answer, key) != [] &&
      key(FirstOfRuns(answer, key)[|FirstOfRuns(answer, key)| - 1]) == key(answer[|answer| - 1])
  {
    if answer != [] {
      RunsAreRows(answer[..|answer| - 1], key);
    }
  }

  lemma {:induction false} RunsAscend<R(!new)>(answer: seq<R>, key: R -> int, stamp: R -> int)
    requires Sorted(answer, key, stamp)
    ensures Ascending(FirstOfRuns(answer, key), key)
  {
    if |answer| > 1 {
      var before := answer[..|answer| - 1];
      RunsAscend(before, key, stamp);
      RunsAreRows(before, key);
      var kept := FirstOfRuns(before, key);
      if key(before[|before| - 1]) != key(answer[|before|]) {
        forall i | 0 <= i < |kept| ensures key(kept[i]) < key(answer[|before|]) {
          assert kept[i] in before;
        }
      }
    }
  }

  lemma {:induction false} RunsCover<R(!new)>(answer: seq<R>, key: R -> int, r: R)
    requires r in answer
    ensures Covers(FirstOfRuns(answer, key), key, key(r))
  {
    var last := |answer| - 1;
    var kept, picks := FirstOfRuns(answer[..last], key), FirstOfRuns(answer, key);
    if r in answer[..last] {
      RunsCover(answer[..last], key, r);
      var i :| 0 <= i < |kept| && key(kept[i]) == key(r);
      assert key(picks[i]) == key(r);
    } else {
      RunsAreRows(answer, key);
      assert key(picks[|picks| - 1]) == key(r);
    }
  }

  // In sorted rows a latest row of all but the last stays one.
  lemma LatestExtends<R(!new)>(answer: seq<R>, key: R -> int, stamp: R -> int, p: R)
    requires answer != [] && Sorted(answer, key, stamp)
    requires IsLatest(answer[..|answer| - 1], p, key, stamp)
    ensures IsLatest(answer, p, key, stamp)
  {
    var last := |answer| - 1;
    var k :| 0 <= k < last && answer[..last][k] == p;
    assert answer[k] == p;
    forall r | r in answer && key(r) == key(p) ensures stamp(r) <= stamp(p) {
      if r !in answer[..last] { assert r == answer[last]; }
    }
  }

  // The last of sorted rows is latest when no earlier row has its key.
  lemma LatestAtEnd<R(!new)>(answer: seq<R>, key: R -> int, stamp: R -> int)
    requires answer != [] && Sorted(answer, key, stamp)
    requires |answer| == 1 || key(answer[|answer| - 2]) != key(answer[|answer| - 1])
    ensures IsLatest(answer, answer[|answer| - 1], key, stamp)
  {
    var last := |answer| - 1;
    forall k | 0 <= k < last ensures key(answer[k]) < key(answer[last]) {
      if k < last - 1 { assert key(answer[k]) <= key(answer[last - 1]); }
    }
  }

  lemma {:induction false} RunsAreLatest<R(!new)>(answer: seq<R>, key: R -> int, stamp: R -> int, p: R)
    requires Sorted(answer, key, stamp) && p in FirstOfRuns(answer, key)
    ensures IsLatest(answer, p, key, stamp)
  {
    var before := answer[..|answer| - 1];
    assert Sorted(before, key, stamp);
    hide Sorted, IsLatest;
    if p in FirstOfRuns(before, key) {
      RunsAreLatest(before, key, stamp, p);
      LatestExtends(answer, key, stamp, p);
    } else {
      LatestAtEnd(answer, key, stamp);
    }
  }

  lemma RunsPickLatest<R(!new)>(rows: seq<R>, answer: seq<R>, key: R -> int, stamp: R -> int)
    requires IsAnswer(rows, answer, key, stamp)
    ensures LatestPerKey(rows, FirstOfRuns(answer, key), key, stamp)
  {
    var picks := FirstOfRuns(answer, key);
    SameRows(rows, answer);
    RunsAscend(answer, key, stamp);
    forall i | 0 <= i < |picks| ensures IsLatest(rows, picks[i], key, stamp) {
      RunsAreLatest(answer, key, stamp, picks[i]);
    }
    forall r | r in rows ensures Covers(picks, key, key(r)) {
      RunsCover(answer, key, r);
    }
  }

  lemma SameRows<R(!new)>(rows: seq<R>, answer: seq<R>)
    requires multiset(rows) == multiset(answer)
    ensures forall r :: r in rows <==> r in answer
  {
    forall r ensures r in rows <==> r in answer {
      assert r in multiset(rows) <==> r in multiset(answer);
    }
  }

  // ---------------------------------------------------------------- every choice of latest rows can occur

  function WithKey<R(!new)>(rows: seq<R>, key: R -> int, k: int, same: bool): (r: seq<R>)
    ensures forall x :: x in r <==> x in rows && (key(x) == k) == same
  {
    if rows == [] then []
    else
      var rest := WithKey(rows[1..], key, k, same);
      if (key(rows[0]) == k) == same then [rows[0]] + rest else rest
  }

  lemma Partition<R(!new)>(rows: seq<R>, key: R -> int, k: int)
    ensures multiset(rows) == multiset(WithKey(rows, key, k, false)) + multiset(WithKey(rows, key, k, true))
  {
    if rows != [] {
      Partition(rows[1..], key, k);
      assert rows == [rows[0]] + rows[1..];
    }
  }

  function Insert<R(!new)>(x: R, rows: seq<R>, stamp: R -> int): (r: seq<R>)
    ensures multiset(r) == multiset(rows) + multiset{x}
  {
    if rows == [] || stamp(x) >= stamp(rows[0]) then
      assert multiset([x] + rows) == multiset(rows) + multiset{x};
      [x] + rows
    else
      assert rows == [rows[0]] + rows[1..];
      [rows[0]] + Insert(x, rows[1..], stamp)
  }

  function NewestFirst<R(!new)>(rows: seq<R>, stamp: R -> int): (r: seq<R>)
    ensures multiset(r) == multiset(rows)
  {
    if rows == [] then []
    else
      assert rows == [rows[0]] + rows[1..];
      Insert(rows[0], NewestFirst(rows[1..], stamp), stamp)
  }

  ghost predicate Descending<R(!new)>(rows: seq<R>, stamp: R -> int)
  {
    forall i, j :: 0 <= i < j < |rows| ==> stamp(rows[i]) >= stamp(rows[j])
  }

  lemma {:induction false} InsertDescends<R(!new)>(x: R, rows: seq<R>, stamp: R -> int)
    requires Descending(rows, stamp)
    ensures Descending(Insert(x, rows, stamp), stamp)
  {
    if rows != [] && stamp(x) < stamp(rows[0]) {
      InsertDescends(x, rows[1..], stamp);
      var tail := Insert(x, rows[1..], stamp);
      forall j | 0 <= j < |tail| ensures stamp(rows[0]) >= stamp(tail[j]) {
        assert tail[j] in multiset(tail);
        assert tail[j] == x || tail[j] in rows[1..];
      }
    }
  }

  lemma {:induction false} NewestFirstDescends<R(!new)>(rows: seq<R>, stamp: R -> int)
    ensures Descending(NewestFirst(rows, stamp), stamp)
  {
    if rows != [] {
      NewestFirstDescends(rows[1..], stamp);
      InsertDescends(rows[0], NewestFirst(rows[1..], stamp), stamp);
    }
  }

  function Without<R(==,!new)>(rows: seq<R>, x: R): (r: seq<R>)
    requires x in rows
    ensures multiset(r) == multiset(rows) - multiset{x}
  {
    assert rows == [rows[0]] + rows[1..];
    if rows[0] == x then rows[1..] else [rows[0]] + Without(rows[1..], x)
  }

  lemma {:induction false} RunsOfGroup<R(!new)>(front: seq<R>, group: seq<R>, key: R -> int, n: nat)
    requires 1 <= n <= |group|
    requires forall i :: 0 <= i < |group| ==> key(group[i]) == key(group[0])
    requires front != [] ==> key(front[|front| - 1]) != key(group[0])
    ensures FirstOfRuns(front + group[..n], key) == FirstOfRuns(front, key) + [group[0]]
  {
    var all := front + group[..n];
    if n == 1 {
      assert all[..|all| - 1] == front;
    } else {
      RunsOfGroup(front, group, key, n - 1);
      assert all[..|all| - 1] == front + group[..n - 1];
    }
  }

  lemma OthersLatest<R(!new)>(rows: seq<R>, picks: seq<R>, key: R -> int, stamp: R -> int)
    requires LatestPerKey(rows, picks, key, stamp) && picks != []
    ensures LatestPerKey(WithKey(rows, key, key(picks[|picks| - 1]), false), picks[..|picks| - 1], key, stamp)
  {
    var last := |picks| - 1;
    var others := WithKey(rows, key, key(picks[last]), false);
    forall i | 0 <= i < last ensures IsLatest(others, picks[..last][i], key, stamp) {
      assert IsLatest(rows, picks[i], key, stamp);
    }
    forall r | r in others ensures Covers(picks[..last], key, key(r)) {
      assert Covers(picks, key, key(r));
      var k :| 0 <= k < |picks| && key(picks[k]) == key(r);
      assert key(picks[..last][k]) == key(r);
    }
  }

  /** The rows sharing the key of a latest row `p`, with `p` first. */
  function Group<R(==,!new)>(rows: seq<R>, p: R, key: R -> int, stamp: R -> int): (g: seq<R>)
    requires p in rows
    ensures g != [] && g[0] == p
    ensures multiset(g) == multiset(WithKey(rows, key, key(p), true))
  {
    [p] + NewestFirst(Without(WithKey(rows, key, key(p), true), p), stamp)
  }

  lemma GroupKeys<R(!new)>(rows: seq<R>, p: R, key: R -> int, stamp: R -> int)
    requires p in rows
    ensures forall x :: x in Group(rows, p, key, stamp) ==> x in rows && key(x) == key(p)
  {
    SameRows(WithKey(rows, key, key(p), true), Group(rows, p, key, stamp));
  }

  lemma GroupDescends<R(!new)>(rows: seq<R>, p: R, key: R -> int, stamp: R -> int)
    requires IsLatest(rows, p, key, stamp)
    ensures Descending(Group(rows, p, key, stamp), stamp)
  {
    GroupKeys(rows, p, key, stamp);
    var tail := NewestFirst(Without(WithKey(rows, key, key(p), true), p), stamp);
    NewestFirstDescends(Without(WithKey(rows, key, key(p), true), p), stamp);
    var group := Group(rows, p, key, stamp);
    assert group == [p] + tail;
    hide Group, NewestFirst, Without, WithKey;
    forall i, j | 0 <= i < j < |group| ensures stamp(group[i]) >= stamp(group[j]) {
      if i == 0 {
        assert group[j] in group;
      } else {
        assert group[i] == tail[i - 1] && group[j] == tail[j - 1];
      }
    }
  }

  lemma AppendSorted<R(!new)>(front: seq<R>, group: seq<R>, p: R, key: R -> int, stamp: R -> int)
    requires Sorted(front, key, stamp) && Descending(group, stamp)
    requires forall x :: x in front ==> key(x) < key(p)
    requires forall x :: x in group ==> key(x) == key(p)
    ensures Sorted(front + group, key, stamp)
  {
    var all := front + group;
    forall i, j | 0 <= i < j < |all|
      ensures key(all[i]) < key(all[j]) || (key(all[i]) == key(all[j]) && stamp(all[i]) >= stamp(all[j]))
    {
      if i < |front| {
        assert all[i] in front;
        if j >= |front| { assert all[j] in group; }
      } else {
        assert all[i] == group[i - |front|] && all[j] == group[j - |front|];
        assert group[i - |front|] in group && group[j - |front|] in group;
      }
    }
  }

  lemma AppendGroup<R(!new)>(rows: seq<R>, p: R, front: seq<R>, key: R -> int, stamp: R -> int)
    requires IsLatest(rows, p, key, stamp)
    requires IsAnswer(WithKey(rows, key, key(p), false), front, key, stamp)
    requires forall x :: x in front ==> key(x) < key(p)
    ensures IsAnswer(rows, front + Group(rows, p, key, stamp), key, stamp)
    ensures FirstOfRuns(front + Group(rows, p, key, stamp), key) == FirstOfRuns(front, key) + [p]
  {
    var group := Group(rows, p, key, stamp);
    hide Group, FirstOfRuns;
    GroupKeys(rows, p, key, stamp);
    GroupDescends(rows, p, key, stamp);
    AppendSorted(front, group, p, key, stamp);
    assert multiset(front + group) == multiset(rows) by {
      Partition(rows, key, key(p));
    }
    forall i | 0 <= i < |group| ensures key(group[i]) == key(group[0]) {
      assert group[i] in group && group[0] in group;
    }
    if front != [] { assert front[|front| - 1] in front; }
    RunsOfGroup(front, group, key, |group|);
    assert group[..|group|] == group;
  }

  lemma RowsNeedPicks<R(!new)>(rows: seq<R>, picks: seq<R>, key: R -> int, stamp: R -> int)
    requires LatestPerKey(rows, picks, key, stamp)
    ensures rows != [] ==> picks != []
  {
    if rows != [] { assert Covers(picks, key, key(rows[0])); }
  }

  lemma OthersBelow<R(!new)>(rows: seq<R>, picks: seq<R>, front: seq<R>, key: R -> int, stamp: R -> int)
    requires LatestPerKey(rows, picks, key, stamp) && picks != []
    requires multiset(WithKey(rows, key, key(picks[|picks| - 1]), false)) == multiset(front)
    ensures forall x :: x in front ==> key(x) < key(picks[|picks| - 1])
  {
    hide WithKey;
    SameRows(WithKey(rows, key, key(picks[|picks| - 1]), false), front);
    forall x | x in front ensures key(x) < key(picks[|picks| - 1]) {
      assert Covers(picks, key, key(x));
    }
  }

  /** Some order in which the database may deliver the rows has these first rows. */
  ghost predicate CanResult<R(!new)>(rows: seq<R>, picks: seq<R>, key: R -> int, stamp: R -> int)
  {
    exists answer :: IsAnswer(rows, answer, key, stamp) && FirstOfRuns(answer, key) == picks
  }

  lemma ResultIs<R(!new)>(rows: seq<R>, answer: seq<R>, picks: seq<R>, key: R -> int, stamp: R -> int)
    requires IsAnswer(rows, answer, key, stamp) && FirstOfRuns(answer, key) == picks
    ensures CanResult(rows, picks, key, stamp)
  {
  }

  lemma ResultGrows<R(!new)>(rows: seq<R>, picks: seq<R>, front: seq<R>, key: R -> int, stamp: R -> int)
    requires LatestPerKey(rows, picks, key, stamp) && picks != []
    requires IsAnswer(WithKey(rows, key, key(picks[|picks| - 1]), false), front, key, stamp)
    requires FirstOfRuns(front, key) == picks[..|picks| - 1]
    ensures CanResult(rows, picks, key, stamp)
  {
    hide FirstOfRuns, Sorted, WithKey, Group, CanResult;
    var p := picks[|picks| - 1];
    OthersBelow(rows, picks, front, key, stamp);
    assert IsLatest(rows, p, key, stamp);
    hide LatestPerKey;
    AppendGroup(rows, p, front, key, stamp);
    assert picks == picks[..|picks| - 1] + [p];
    ResultIs(rows, front + Group(rows, p, key, stamp), picks, key, stamp);
  }

  lemma {:induction false} EveryChoiceOccurs<R(!new)>(rows: seq<R>, picks: seq<R>, key: R -> int, stamp: R -> int)
    requires LatestPerKey(rows, picks, key, stamp)
    ensures CanResult(rows, picks, key, stamp)
    decreases |picks|
  {
    if picks == [] {
      RowsNeedPicks(rows, picks, key, stamp);
      ResultIs(rows, [], picks, key, stamp);
    } else {
      hide FirstOfRuns, Sorted, WithKey, IsAnswer, LatestPerKey;
      var last := |picks| - 1;
      var others := WithKey(rows, key, key(picks[last]), false);
      OthersLatest(rows, picks, key, stamp);
      EveryChoiceOccurs(others, picks[..last], key, stamp);
      var front :| IsAnswer(others, front, key, stamp) && FirstOfRuns(front, key) == picks[..last];
      hide CanResult;
      ResultGrows(rows, picks, front, key, stamp);
    }
  }

  /** The two descriptions of DISTINCT ON allow the same results. */
  lemma DistinctOnIsLatestPerKey<R(!new)>(rows: seq<R>, picks: seq<R>, key: R -> int, stamp: R -> int)
    ensures CanResult(rows, picks, key, stamp) <==> LatestPerKey(rows, picks, key, stamp)
  {
    if CanResult(rows, picks, key, stamp) {
      var answer :| IsAnswer(rows, answer, key, stamp) && FirstOfRuns(answer, key) == picks;
      RunsPickLatest(rows, answer, key, stamp);
    }
    if LatestPerKey(rows, picks, key, stamp) {
      EveryChoiceOccurs(rows, picks, key, stamp);
    }
  }
}
