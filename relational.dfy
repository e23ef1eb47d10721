/**
 * Bag semantics of the SQL constructs the vendor summary query is built
 * from: selection, the equi-join forms of a joined table (inner and left
 * outer, ISO/IEC 9075-2 section 7.7), GROUP BY with the SUM aggregate
 * (section 10.9) and ORDER BY ... DESC. A table is a sequence of rows;
 * duplicate rows are kept and counted, as in SQL.
 */
module Relational {
  import opened Wrappers

  // ---------------------------------------------------------------------
  // Selection

  /** The rows whose key equals `k`, in table order. A plain `WHERE p`
      is `Where(rows, p, true)`. */
  function Where<T(!new), K(==)>(rows: seq<T>, key: T -> K, k: K): (r: seq<T>)
    ensures |r| <= |rows|
    ensures forall x :: x in r <==> x in rows && key(x) == k
    ensures forall x {:trigger multiset(r)[x]} :: multiset(r)[x] == if key(x) == k then multiset(rows)[x] else 0
  {
    if rows == [] then []
    else
      var init, last := rows[..|rows| - 1], rows[|rows| - 1];
      assert rows == init + [last];
      Where(init, key, k) + (if key(last) == k then [last] else [])
  }

  /** No two rows share a key. */
  predicate UniqueKeys<T, K(==)>(rows: seq<T>, key: T -> K)
  {
    forall i, j :: 0 <= i < j < |rows| ==> key(rows[i]) != key(rows[j])
  }

  /** The row with key `k`, if there is one. */
  function Lookup<T(!new), K(==)>(rows: seq<T>, key: T -> K, k: K): Option<T>
  {
    var m := Where(rows, key, k);
    if m == [] then None else Some(m[0])
  }

  /** No row has key `k`, so none is selected. */
  lemma {:induction false} WhereNone<T(!new), K>(rows: seq<T>, key: T -> K, k: K)
    requires forall x :: x in rows ==> key(x) != k
    ensures Where(rows, key, k) == []
  {
    if rows != [] {
      assert rows[..|rows| - 1] <= rows;
      WhereNone(rows[..|rows| - 1], key, k);
    }
  }

  /** Over a table with unique keys, at most one row has a given key, and
      looking a row's own key up finds that row. */
  lemma {:induction false} WhereOfUniqueKeys<T(!new), K>(rows: seq<T>, key: T -> K, k: K)
    requires UniqueKeys(rows, key)
    ensures |Where(rows, key, k)| <= 1
    ensures forall i :: 0 <= i < |rows| && key(rows[i]) == k ==> Where(rows, key, k) == [rows[i]]
  {
    if rows != [] {
      var init, last := rows[..|rows| - 1], rows[|rows| - 1];
      assert UniqueKeys(init, key) by {
        forall i, j | 0 <= i < j < |init| ensures key(init[i]) != key(init[j]) {
          assert init[i] == rows[i] && init[j] == rows[j];
        }
      }
      WhereOfUniqueKeys(init, key, k);
      if key(last) == k {
        forall x | x in init ensures key(x) != k {
          var i :| 0 <= i < |init| && init[i] == x;
          assert rows[i] == x;
        }
        WhereNone(init, key, k);
      }
    }
  }

  // ---------------------------------------------------------------------
  // Joins

  /** `l` paired with each of `rs`, in order. */
  function PairWith<L(!new), R(!new)>(l: L, rs: seq<R>): (out: seq<(L, R)>)
    ensures |out| == |rs|
    ensures forall p :: p in out <==> p.0 == l && p.1 in rs
    ensures forall p {:trigger multiset(out)[p]} :: multiset(out)[p] == if p.0 == l then multiset(rs)[p.1] else 0
  {
    if rs == [] then []
    else
      assert rs == [rs[0]] + rs[1..];
      [(l, rs[0])] + PairWith(l, rs[1..])
  }

  /** The count of a joined pair after one more left row: the new row adds
      one copy of each of its matches. */
  lemma JoinCountStep(same: bool, matches: bool, leftCount: nat, restCount: nat, rightCount: nat)
    requires leftCount == (if same then 1 else 0) + restCount
    ensures (if same && matches then rightCount else 0) + (if matches then restCount * rightCount else 0)
      == if matches then leftCount * rightCount else 0
  {
  }

  /** `left JOIN right ON leftKey(l) = rightKey(r)`: every left row paired
      with every matching right row. */
  function InnerJoin<L(!new), R(!new), K(==)>(left: seq<L>, right: seq<R>, leftKey: L -> K, rightKey: R -> K)
    : (out: seq<(L, R)>)
    ensures forall p :: p in out <==> p.0 in left && p.1 in right && leftKey(p.0) == rightKey(p.1)
  {
    if left == [] then []
    else
      assert left == [left[0]] + left[1..];
      PairWith(left[0], Where(right, rightKey, leftKey(left[0])))
        + InnerJoin(left[1..], right, leftKey, rightKey)
  }

  /** Bag semantics of the inner join: a pair of matching rows occurs once
      for each copy of its left row and each copy of its right row, and a
      pair whose keys differ does not occur. */
  lemma {:induction false} InnerJoinCount<L(!new), R(!new), K>(
    left: seq<L>, right: seq<R>, leftKey: L -> K, rightKey: R -> K, p: (L, R))
    ensures multiset(InnerJoin(left, right, leftKey, rightKey))[p]
      == if leftKey(p.0) == rightKey(p.1) then multiset(left)[p.0] * multiset(right)[p.1] else 0
  {
    if left != [] {
      var l, rest := left[0], left[1..];
      assert left == [l] + rest;
      var head := PairWith(l, Where(right, rightKey, leftKey(l)));
      var restOut := InnerJoin(rest, right, leftKey, rightKey);
      InnerJoinCount(rest, right, leftKey, rightKey, p);
      assert multiset(head + restOut)[p] == multiset(head)[p] + multiset(restOut)[p];
      assert multiset(head)[p] == if p.0 == l && leftKey(p.0) == rightKey(p.1) then multiset(right)[p.1] else 0;
      assert multiset(left)[p.0] == (if p.0 == l then 1 else 0) + multiset(rest)[p.0];
      JoinCountStep(p.0 == l, leftKey(p.0) == rightKey(p.1), multiset(left)[p.0], multiset(rest)[p.0], multiset(right)[p.1]);
    }
  }

  /** `l` paired with each of `rs` as a present right row, in order. */
  function PairWithSome<L(!new), R(!new)>(l: L, rs: seq<R>): (out: seq<(L, Option<R>)>)
    ensures |out| == |rs|
    ensures forall i :: 0 <= i < |rs| ==> out[i] == (l, Some(rs[i]))
    ensures forall p {:trigger multiset(out)[p]} :: multiset(out)[p] == if p.0 == l && p.1.Some? then multiset(rs)[p.1.value] else 0
  {
    if rs == [] then []
    else
      assert rs == [rs[0]] + rs[1..];
      [(l, Some(rs[0]))] + PairWithSome(l, rs[1..])
  }

  /** One left row extended by its matches, or by NULL when nothing matches. */
  function Extend<L(!new), R(!new)>(l: L, matches: seq<R>): (out: seq<(L, Option<R>)>)
    ensures |out| >= 1 && out[0].0 == l
    ensures forall o :: o in out ==> o.0 == l && (o.1.Some? ==> o.1.value in matches) && (o.1.None? ==> matches == [])
    ensures forall r :: r in matches ==> (l, Some(r)) in out
    ensures forall p {:trigger multiset(out)[p]} :: multiset(out)[p] == ExtendCount(l, matches, p)
  {
    if matches == [] then [(l, None)]
    else
      var out := PairWithSome(l, matches);
      assert forall r :: r in matches ==> (l, Some(r)) in out by {
        forall r | r in matches ensures (l, Some(r)) in out {
          var i :| 0 <= i < |matches| && matches[i] == r;
          assert out[i] == (l, Some(r));
        }
      }
      out
  }

  /** How often `p` occurs among `l`'s extended rows. */
  ghost function ExtendCount<L, R>(l: L, matches: seq<R>, p: (L, Option<R>)): nat
  {
    if p.0 != l then 0
    else if p.1.Some? then multiset(matches)[p.1.value]
    else if matches == [] then 1 else 0
  }

  /** `left LEFT JOIN right ON leftKey(l) = rightKey(r)`: every left row
      paired with every matching right row, and paired with NULL when no
      right row matches. */
  function LeftJoin<L(!new), R(!new), K(==)>(left: seq<L>, right: seq<R>, leftKey: L -> K, rightKey: R -> K)
    : (out: seq<(L, Option<R>)>)
    ensures |out| >= |left|
    ensures forall l :: l in left ==> exists o :: o in out && o.0 == l
    ensures forall o :: o in out ==>
      && o.0 in left
      && (o.1.Some? ==> o.1.value in right && rightKey(o.1.value) == leftKey(o.0))
      && (o.1.None? ==> Where(right, rightKey, leftKey(o.0)) == [])
    ensures forall l, r :: l in left && r in right && rightKey(r) == leftKey(l) ==> (l, Some(r)) in out
  {
    if left == [] then []
    else
      var l, rest := left[0], left[1..];
      var m := Where(right, rightKey, leftKey(l));
      var e := Extend(l, m);
      var restOut := LeftJoin(rest, right, leftKey, rightKey);
      assert left == [l] + rest;
      var out := e + restOut;
      forall x, y | x in left && y in right && rightKey(y) == leftKey(x) ensures (x, Some(y)) in out {
        if x == l {
          assert y in m;
          assert (x, Some(y)) in e;
        } else {
          assert x in rest;
          assert (x, Some(y)) in restOut;
        }
      }
      out
  }

  /** Bag semantics of the left join, for matched rows: a pair of matching
      rows occurs once for each copy of its left row and each copy of its
      right row, and a pair whose keys differ does not occur. */
  lemma {:induction false} LeftJoinMatchCount<L(!new), R(!new), K>(
    left: seq<L>, right: seq<R>, leftKey: L -> K, rightKey: R -> K, x: L, y: R)
    ensures multiset(LeftJoin(left, right, leftKey, rightKey))[(x, Some(y))]
      == if leftKey(x) == rightKey(y) then multiset(left)[x] * multiset(right)[y] else 0
  {
    if left != [] {
      var l, rest := left[0], left[1..];
      assert left == [l] + rest;
      var m := Where(right, rightKey, leftKey(l));
      var head := Extend(l, m);
      var restOut := LeftJoin(rest, right, leftKey, rightKey);
      LeftJoinMatchCount(rest, right, leftKey, rightKey, x, y);
      assert multiset(head + restOut)[(x, Some(y))] == multiset(head)[(x, Some(y))] + multiset(restOut)[(x, Some(y))];
      assert multiset(head)[(x, Some(y))] == ExtendCount(l, m, (x, Some(y)));
      assert multiset(head)[(x, Some(y))] == if x == l && leftKey(x) == rightKey(y) then multiset(right)[y] else 0;
      assert multiset(left)[x] == (if x == l then 1 else 0) + multiset(rest)[x];
      JoinCountStep(x == l, leftKey(x) == rightKey(y), multiset(left)[x], multiset(rest)[x], multiset(right)[y]);
    }
  }

  /** Bag semantics of the left join, for unmatched rows: a left row occurs
      with NULL once per copy when no right row matches it, and never
      otherwise. */
  lemma {:induction false} LeftJoinNullCount<L(!new), R(!new), K>(
    left: seq<L>, right: seq<R>, leftKey: L -> K, rightKey: R -> K, x: L)
    ensures multiset(LeftJoin(left, right, leftKey, rightKey))[(x, None)]
      == if Where(right, rightKey, leftKey(x)) == [] then multiset(left)[x] else 0
  {
    if left != [] {
      var l, rest := left[0], left[1..];
      assert left == [l] + rest;
      var m := Where(right, rightKey, leftKey(l));
      var head := Extend(l, m);
      var restOut := LeftJoin(rest, right, leftKey, rightKey);
      LeftJoinNullCount(rest, right, leftKey, rightKey, x);
      assert multiset(head + restOut)[(x, None)] == multiset(head)[(x, None)] + multiset(restOut)[(x, None)];
      assert multiset(head)[(x, None)] == ExtendCount(l, m, (x, None));
      assert multiset(left)[x] == (if x == l then 1 else 0) + multiset(rest)[x];
    }
  }

  /** When the right table's keys are unique, a left join neither drops nor
      multiplies left rows: it is the left table with each row's match (or
      NULL) alongside. */
  lemma {:induction false} LeftJoinOfUniqueKeys<L(!new), R(!new), K>(
    left: seq<L>, right: seq<R>, leftKey: L -> K, rightKey: R -> K)
    requires UniqueKeys(right, rightKey)
    ensures |LeftJoin(left, right, leftKey, rightKey)| == |left|
    ensures forall i :: 0 <= i < |left| ==>
      LeftJoin(left, right, leftKey, rightKey)[i] == (left[i], Lookup(right, rightKey, leftKey(left[i])))
  {
    if left != [] {
      var l := left[0];
      var m := Where(right, rightKey, leftKey(l));
      WhereOfUniqueKeys(right, rightKey, leftKey(l));
      assert Extend(l, m) == [(l, Lookup(right, rightKey, leftKey(l)))];
      var rest := LeftJoin(left[1..], right, leftKey, rightKey);
      LeftJoinOfUniqueKeys(left[1..], right, leftKey, rightKey);
      assert LeftJoin(left, right, leftKey, rightKey) == [(l, Lookup(right, rightKey, leftKey(l)))] + rest;
      forall i | 1 <= i < |left|
        ensures LeftJoin(left, right, leftKey, rightKey)[i] == (left[i], Lookup(right, rightKey, leftKey(left[i])))
      {
        assert left[i] == left[1..][i - 1];
      }
    }
  }

  // ---------------------------------------------------------------------
  // GROUP BY

  /** A group: its key and the rows that share it. */
  datatype Group<T, K> = Group(key: K, rows: seq<T>)

  function KeysOf<T, K>(groups: seq<Group<T, K>>): (ks: seq<K>)
    ensures |ks| == |groups|
    ensures forall i :: 0 <= i < |groups| ==> ks[i] == groups[i].key
  {
    seq(|groups|, i requires 0 <= i < |groups| => groups[i].key)
  }

  /** No two groups share a key. */
  predicate DistinctKeys<T, K(==)>(groups: seq<Group<T, K>>)
  {
    forall i, j :: 0 <= i < j < |groups| ==> groups[i].key != groups[j].key
  }

  /** One step of a single-pass aggregation: `row` joins the group with its
      key, or opens a new group at the end. */
  function Place<T, K(==)>(groups: seq<Group<T, K>>, row: T, key: T -> K): (r: seq<Group<T, K>>)
    requires DistinctKeys(groups)
    ensures |r| == if key(row) in KeysOf(groups) then |groups| else |groups| + 1
    ensures forall i :: 0 <= i < |groups| ==>
      r[i] == if groups[i].key == key(row) then Group(key(row), groups[i].rows + [row]) else groups[i]
    ensures key(row) !in KeysOf(groups) ==> r[|groups|] == Group(key(row), [row])
    decreases |groups|
  {
    if groups == [] then [Group(key(row), [row])]
    else if groups[0].key == key(row) then
      assert KeysOf(groups)[0] == key(row);
      [Group(key(row), groups[0].rows + [row])] + groups[1..]
    else
      var tail := Place(groups[1..], row, key);
      assert key(row) in KeysOf(groups) <==> key(row) in KeysOf(groups[1..]) by {
        assert KeysOf(groups) == [groups[0].key] + KeysOf(groups[1..]);
      }
      [groups[0]] + tail
  }

  lemma PlaceKeepsKeysDistinct<T, K>(groups: seq<Group<T, K>>, row: T, key: T -> K)
    requires DistinctKeys(groups)
    ensures DistinctKeys(Place(groups, row, key))
    ensures KeysOf(Place(groups, row, key))
      == if key(row) in KeysOf(groups) then KeysOf(groups) else KeysOf(groups) + [key(row)]
  {
    var r := Place(groups, row, key);
    var ks := KeysOf(groups);
    var expected := if key(row) in ks then ks else ks + [key(row)];
    assert |KeysOf(r)| == |expected|;
    forall i | 0 <= i < |r| ensures KeysOf(r)[i] == expected[i] {
      if i < |groups| {
        assert r[i].key == groups[i].key;
      }
    }
    forall i, j | 0 <= i < j < |r| ensures r[i].key != r[j].key {
      assert KeysOf(r)[i] == expected[i] && KeysOf(r)[j] == expected[j];
      if j < |groups| {
        assert ks[i] == groups[i].key && ks[j] == groups[j].key;
      } else {
        assert ks[i] in ks;
      }
    }
  }

  lemma WhereSnoc<T(!new), K>(init: seq<T>, last: T, key: T -> K, k: K)
    ensures Where(init + [last], key, k) == Where(init, key, k) + (if key(last) == k then [last] else [])
  {
    assert (init + [last])[..|init|] == init;
  }

  /** A group `row` joins keeps its rows right: `row` is appended to the
      group with its key. */
  lemma PlaceJoinsGroup<T(!new), K>(before: seq<Group<T, K>>, init: seq<T>, last: T, key: T -> K, i: nat)
    requires DistinctKeys(before) && i < |before|
    requires before[i].rows != [] && before[i].rows == Where(init, key, before[i].key)
    ensures Place(before, last, key)[i].rows != []
    ensures Place(before, last, key)[i].rows == Where(init + [last], key, Place(before, last, key)[i].key)
  {
    WhereSnoc(init, last, key, before[i].key);
  }

  /** A group `row` opens holds `row` alone, as no earlier row has its key. */
  lemma PlaceOpensGroup<T(!new), K>(before: seq<Group<T, K>>, init: seq<T>, last: T, key: T -> K)
    requires DistinctKeys(before) && key(last) !in KeysOf(before)
    requires Where(init, key, key(last)) == []
    ensures Place(before, last, key)[|before|].rows == Where(init + [last], key, key(last)) == [last]
  {
    WhereSnoc(init, last, key, key(last));
  }

  /** A key no group of `init` has selects no row of `init`. */
  lemma NewKeyUnselected<T(!new), K>(before: seq<Group<T, K>>, init: seq<T>, last: T, key: T -> K)
    requires forall x :: x in init ==> key(x) in KeysOf(before)
    ensures key(last) in KeysOf(before) || Where(init, key, key(last)) == []
  {
    if key(last) !in KeysOf(before) {
      WhereNone(init, key, key(last));
    }
  }

  /** Where the groups of `init` are right, placing `last` gives the right
      groups of `init + [last]`. */
  lemma PlaceGroupsRows<T(!new), K>(before: seq<Group<T, K>>, init: seq<T>, last: T, key: T -> K)
    requires DistinctKeys(before)
    requires forall g :: g in before ==> g.rows != [] && g.rows == Where(init, key, g.key)
    requires key(last) in KeysOf(before) || Where(init, key, key(last)) == []
    ensures forall g :: g in Place(before, last, key) ==> g.rows != [] && g.rows == Where(init + [last], key, g.key)
  {
    var after := Place(before, last, key);
    forall i | 0 <= i < |after| ensures after[i].rows != [] && after[i].rows == Where(init + [last], key, after[i].key) {
      if i < |before| {
        assert before[i] in before;
        PlaceJoinsGroup(before, init, last, key, i);
      } else {
        assert key(last) !in KeysOf(before);
        assert i == |before|;
        PlaceOpensGroup(before, init, last, key);
        assert after[i] == Group(key(last), [last]);
      }
    }
  }

  /** `GROUP BY key`, computed in one pass over the rows. Groups come in
      order of their key's first appearance; SQL leaves that order open. */
  function GroupBy<T(!new), K(==)>(rows: seq<T>, key: T -> K): (groups: seq<Group<T, K>>)
    ensures DistinctKeys(groups)
    ensures forall g :: g in groups ==> g.rows != [] && g.rows == Where(rows, key, g.key)
    ensures forall x :: x in rows ==> key(x) in KeysOf(groups)
  {
    if rows == [] then []
    else
      var init, last := rows[..|rows| - 1], rows[|rows| - 1];
      assert rows == init + [last];
      var before := GroupBy(init, key);
      PlaceKeepsKeysDistinct(before, last, key);
      NewKeyUnselected(before, init, last, key);
      PlaceGroupsRows(before, init, last, key);
      Place(before, last, key)
  }

  /** A row of a GROUP BY result: the grouping columns and the aggregates. */
  datatype Summary<K, S> = Summary(key: K, totals: S)

  function SummaryKey<K, S>(s: Summary<K, S>): K
  {
    s.key
  }

  /** One summary row per group, holding `total` of the group's rows. */
  function SummariesOf<T, K, S>(groups: seq<Group<T, K>>, total: seq<T> -> S): (out: seq<Summary<K, S>>)
    ensures |out| == |groups|
    ensures forall i :: 0 <= i < |groups| ==> out[i] == Summary(groups[i].key, total(groups[i].rows))
  {
    seq(|groups|, i requires 0 <= i < |groups| => Summary(groups[i].key, total(groups[i].rows)))
  }

  /** `SELECT key, aggregates ... GROUP BY key`: one summary row per key
      that occurs, so its keys are unique; looking key `k` up finds the
      total of exactly the rows with key `k`, or nothing when no row has
      key `k`. */
  function Aggregate<T(!new), K(==, !new), S(!new)>(rows: seq<T>, key: T -> K, total: seq<T> -> S)
    : (out: seq<Summary<K, S>>)
    ensures UniqueKeys(out, SummaryKey)
    ensures forall k :: Lookup(out, SummaryKey, k) == SummaryRowFor(rows, key, total, k)
  {
    var groups := GroupBy(rows, key);
    var out := SummariesOf(groups, total);
    assert UniqueKeys(out, SummaryKey) by {
      forall i, j | 0 <= i < j < |out| ensures SummaryKey(out[i]) != SummaryKey(out[j]) {
        assert out[i].key == groups[i].key && out[j].key == groups[j].key;
      }
    }
    forall k ensures Lookup(out, SummaryKey, k) == SummaryRowFor(rows, key, total, k) {
      AggregateLookup(rows, key, total, groups, out, k);
    }
    out
  }

  /** The summary row owed for key `k`: none when no row has key `k`,
      otherwise `total` of exactly the rows with key `k`. */
  function SummaryRowFor<T(!new), K(==), S>(rows: seq<T>, key: T -> K, total: seq<T> -> S, k: K): Option<Summary<K, S>>
  {
    var group := Where(rows, key, k);
    if group == [] then None else Some(Summary(k, total(group)))
  }

  /** The lookup step of `Aggregate`, for one key. */
  lemma AggregateLookup<T(!new), K(!new), S(!new)>(
    rows: seq<T>, key: T -> K, total: seq<T> -> S, groups: seq<Group<T, K>>, out: seq<Summary<K, S>>, k: K)
    requires groups == GroupBy(rows, key) && out == SummariesOf(groups, total)
    requires UniqueKeys(out, SummaryKey)
    ensures Lookup(out, SummaryKey, k) == SummaryRowFor(rows, key, total, k)
  {
    if Where(rows, key, k) == [] {
      forall s | s in out ensures SummaryKey(s) != k {
        var i :| 0 <= i < |out| && out[i] == s;
        assert groups[i] in groups;
      }
      WhereNone(out, SummaryKey, k);
    } else {
      var x := Where(rows, key, k)[0];
      assert x in rows;
      var i :| 0 <= i < |groups| && KeysOf(groups)[i] == k;
      assert groups[i] in groups;
      assert SummaryKey(out[i]) == k;
      WhereOfUniqueKeys(out, SummaryKey, k);
    }
  }

  // ---------------------------------------------------------------------
  // SUM

  /** `SUM(f(row))` over the rows; 0 over none. A sum of nonnegative
      terms is nonnegative, and the sum of one row is its term. */
  function Sum<T>(rows: seq<T>, f: T -> real): (s: real)
    ensures (forall x :: x in rows ==> f(x) >= 0.0) ==> s >= 0.0
    ensures |rows| == 1 ==> s == f(rows[0])
  {
    if rows == [] then 0.0
    else
      assert rows[..|rows| - 1] <= rows;
      Sum(rows[..|rows| - 1], f) + f(rows[|rows| - 1])
  }

  /** SUM is additive: the sum over a concatenation is the sum of the sums. */
  lemma {:induction false} SumAppend<T>(a: seq<T>, b: seq<T>, f: T -> real)
    ensures Sum(a + b, f) == Sum(a, f) + Sum(b, f)
  {
    if b != [] {
      var init := b[..|b| - 1];
      assert (a + b)[..|a + b| - 1] == a + init;
      SumAppend(a, init, f);
    } else {
      assert a + b == a;
    }
  }

  /** `SUM` over the rows a left join matched: NULL when it matched none. */
  function SumOrNull<T>(rows: seq<T>, f: T -> real): Option<real>
  {
    if rows == [] then None else Some(Sum(rows, f))
  }

  lemma SumSnoc<T>(rows: seq<T>, x: T, f: T -> real)
    ensures Sum(rows + [x], f) == Sum(rows, f) + f(x)
  {
    assert (rows + [x])[..|rows|] == rows;
  }

  /** The sum of every group's total. */
  function GroupsSum<T, K>(groups: seq<Group<T, K>>, f: T -> real): real
  {
    if groups == [] then 0.0 else Sum(groups[0].rows, f) + GroupsSum(groups[1..], f)
  }

  lemma {:induction false} PlaceSum<T, K>(groups: seq<Group<T, K>>, row: T, key: T -> K, f: T -> real)
    requires DistinctKeys(groups)
    ensures GroupsSum(Place(groups, row, key), f) == GroupsSum(groups, f) + f(row)
    decreases |groups|
  {
    var r := Place(groups, row, key);
    if groups == [] {
      SumSnoc([], row, f);
    } else if groups[0].key == key(row) {
      SumSnoc(groups[0].rows, row, f);
      assert r[1..] == groups[1..];
    } else {
      PlaceSum(groups[1..], row, key, f);
      assert r[1..] == Place(groups[1..], row, key);
    }
  }

  /** Grouping neither loses nor double-counts a row: the group totals add
      up to the total over the whole table. */
  lemma {:induction false} GroupBySum<T(!new), K>(rows: seq<T>, key: T -> K, f: T -> real)
    ensures GroupsSum(GroupBy(rows, key), f) == Sum(rows, f)
  {
    if rows != [] {
      var init, last := rows[..|rows| - 1], rows[|rows| - 1];
      GroupBySum(init, key, f);
      PlaceSum(GroupBy(init, key), last, key, f);
    }
  }

  /** Summing a measure of the summary rows sums the groups' totals. */
  lemma {:induction false} SummariesSum<T, K, S>(
    groups: seq<Group<T, K>>, total: seq<T> -> S, measure: Summary<K, S> -> real, f: T -> real)
    requires forall g :: g in groups ==> measure(Summary(g.key, total(g.rows))) == Sum(g.rows, f)
    ensures Sum(SummariesOf(groups, total), measure) == GroupsSum(groups, f)
  {
    if groups != [] {
      var out := SummariesOf(groups, total);
      assert out == [out[0]] + SummariesOf(groups[1..], total);
      assert groups[0] in groups;
      SummariesSum(groups[1..], total, measure, f);
      SumAppend([out[0]], SummariesOf(groups[1..], total), measure);
    }
  }

  /** Every row is counted in exactly one summary row: when each summary
      row's measure is the sum of `f` over its group, the measures add up to
      the sum of `f` over the whole table. */
  lemma AggregateSum<T(!new), K(!new), S(!new)>(
    rows: seq<T>, key: T -> K, total: seq<T> -> S, measure: Summary<K, S> -> real, f: T -> real)
    requires forall k, g :: measure(Summary(k, total(g))) == Sum(g, f)
    ensures Sum(Aggregate(rows, key, total), measure) == Sum(rows, f)
  {
    SummariesSum(GroupBy(rows, key), total, measure, f);
    GroupBySum(rows, key, f);
  }

  // ---------------------------------------------------------------------
  // ORDER BY ... DESC

  predicate SortedDesc<T>(rows: seq<T>, measure: T -> real)
  {
    forall i, j :: 0 <= i < j < |rows| ==> measure(rows[i]) >= measure(rows[j])
  }

  /** A row no lower than every row of a sorted sequence can lead it. */
  lemma SortedCons<T>(head: T, rest: seq<T>, measure: T -> real)
    requires SortedDesc(rest, measure)
    requires forall y :: y in rest ==> measure(y) <= measure(head)
    ensures SortedDesc([head] + rest, measure)
  {
    var r := [head] + rest;
    forall i, j | 0 <= i < j < |r| ensures measure(r[i]) >= measure(r[j]) {
      assert r[j] == rest[j - 1];
      assert rest[j - 1] in rest;
    }
  }

  function InsertDesc<T(!new)>(x: T, sorted: seq<T>, measure: T -> real): (r: seq<T>)
    requires SortedDesc(sorted, measure)
    ensures SortedDesc(r, measure)
    ensures multiset(r) == multiset(sorted) + multiset{x}
    ensures forall y :: y in r ==> y == x || y in sorted
  {
    if sorted == [] || measure(x) >= measure(sorted[0]) then
      SortedCons(x, sorted, measure);
      [x] + sorted
    else
      var head, tail := sorted[0], sorted[1..];
      assert sorted == [head] + tail;
      assert forall y :: y in tail ==> measure(y) <= measure(head) by {
        forall y | y in tail ensures measure(y) <= measure(head) {
          var j :| 0 <= j < |tail| && tail[j] == y;
          assert sorted[j + 1] == y;
        }
      }
      var rest := InsertDesc(x, tail, measure);
      SortedCons(head, rest, measure);
      [head] + rest
  }

  /** `ORDER BY measure DESC`: a reordering of the rows, non-increasing in `by`.
      Ties come out in some order; SQL does not fix one. */
  function SortDesc<T(!new)>(rows: seq<T>, measure: T -> real): (r: seq<T>)
    ensures SortedDesc(r, measure)
    ensures multiset(r) == multiset(rows)
  {
    if rows == [] then []
    else
      assert rows == [rows[0]] + rows[1..];
      InsertDesc(rows[0], SortDesc(rows[1..], measure), measure)
  }
}
