/** `sorted(users.items(), key=lambda x: x[1], reverse=True)[:n]`: the users of a
    per-user job-count dict, most jobs first. Python's sort is stable, also with
    `reverse=True`, so users with equal counts keep the dict's insertion order.
    Used with n = 5 (monitor.py) and n = 15 (cogs/commands.py). */
module Ranking {
  import opened PyDict

  /** One `(user, count)` item. */
  type Entry = (string, nat)

  /** `d.items()`, in insertion order. */
  function Items(d: Dict<string, nat>): (r: seq<Entry>)
    requires d.Valid()
    ensures |r| == |d.order|
    ensures forall i :: 0 <= i < |r| ==> r[i] == (d.order[i], d.entries[d.order[i]])
  {
    seq(|d.order|, i requires 0 <= i < |d.order| => (d.order[i], d.entries[d.order[i]]))
  }

  predicate Descending(r: seq<Entry>) {
    forall i, j :: 0 <= i < j < |r| ==> r[i].1 >= r[j].1
  }

  /** The items with count `c`, in the order they appear. */
  function WithCount(r: seq<Entry>, c: nat): seq<Entry> {
    if |r| == 0 then [] else (if r[0].1 == c then [r[0]] else []) + WithCount(r[1..], c)
  }

  /** The first item decides its own membership. */
  lemma WithCountCons(e: Entry, r: seq<Entry>, c: nat)
    ensures WithCount([e] + r, c) == (if e.1 == c then [e] else []) + WithCount(r, c)
  {
    var s := [e] + r;
    assert s[0] == e && s[1..] == r;
  }

  lemma {:induction false} WithCountAppend(a: seq<Entry>, b: seq<Entry>, c: nat)
    ensures WithCount(a + b, c) == WithCount(a, c) + WithCount(b, c)
  {
    if |a| == 0 {
      assert a + b == b;
    } else {
      var head := if a[0].1 == c then [a[0]] else [];
      WithCountAppend(a[1..], b, c);
      assert a + b == [a[0]] + (a[1..] + b);
      assert a == [a[0]] + a[1..];
      WithCountCons(a[0], a[1..] + b, c);
      WithCountCons(a[0], a[1..], c);
      assert head + (WithCount(a[1..], c) + WithCount(b, c)) == (head + WithCount(a[1..], c)) + WithCount(b, c);
    }
  }

  lemma {:induction false} WithCountNone(r: seq<Entry>, c: nat)
    requires forall i :: 0 <= i < |r| ==> r[i].1 < c
    ensures WithCount(r, c) == []
  {
    if |r| > 0 {
      WithCountNone(r[1..], c);
    }
  }

  /** Insert `x` after every item whose count is at least `x`'s. */
  function InsertByCount(x: Entry, r: seq<Entry>): (s: seq<Entry>)
    ensures |s| == |r| + 1
  {
    if |r| == 0 then [x]
    else if r[0].1 >= x.1 then [r[0]] + InsertByCount(x, r[1..]) else [x] + r
  }

  /** Inserting adds `x` and loses nothing. */
  lemma {:induction false} InsertByCountPerm(x: Entry, r: seq<Entry>)
    ensures multiset(InsertByCount(x, r)) == multiset(r) + multiset{x}
  {
    if |r| > 0 {
      assert r == [r[0]] + r[1..];
      if r[0].1 >= x.1 {
        InsertByCountPerm(x, r[1..]);
      }
    }
  }

  lemma {:induction false} InsertByCountBounded(x: Entry, r: seq<Entry>, b: nat)
    requires forall i :: 0 <= i < |r| ==> r[i].1 <= b
    requires x.1 <= b
    ensures forall i :: 0 <= i < |InsertByCount(x, r)| ==> InsertByCount(x, r)[i].1 <= b
  {
    if |r| > 0 && r[0].1 >= x.1 {
      InsertByCountBounded(x, r[1..], b);
    }
  }

  lemma {:induction false} InsertByCountDescending(x: Entry, r: seq<Entry>)
    requires Descending(r)
    ensures Descending(InsertByCount(x, r))
  {
    if |r| > 0 && r[0].1 >= x.1 {
      InsertByCountDescending(x, r[1..]);
      InsertByCountBounded(x, r[1..], r[0].1);
      var s := InsertByCount(x, r[1..]);
      assert InsertByCount(x, r) == [r[0]] + s;
    }
  }

  /** Inserting `x` puts it after the items of equal count already there. */
  lemma {:induction false} InsertByCountStable(x: Entry, r: seq<Entry>, c: nat)
    requires Descending(r)
    ensures WithCount(InsertByCount(x, r), c) == WithCount(r, c) + (if x.1 == c then [x] else [])
  {
    if |r| == 0 {
      WithCountCons(x, [], c);
      assert [x] == [x] + [];
    } else if r[0].1 >= x.1 {
      DescendingTail(r);
      InsertByCountStable(x, r[1..], c);
      StableBehindHead(x, r, c);
    } else {
      if x.1 == c {
        NoneAboveHead(r, c);
      }
      WithCountCons(x, r, c);
    }
  }

  /** When `x` goes behind the head, the head's contribution stays in front. */
  lemma StableBehindHead(x: Entry, r: seq<Entry>, c: nat)
    requires |r| > 0 && r[0].1 >= x.1
    requires WithCount(InsertByCount(x, r[1..]), c) == WithCount(r[1..], c) + (if x.1 == c then [x] else [])
    ensures WithCount(InsertByCount(x, r), c) == WithCount(r, c) + (if x.1 == c then [x] else [])
  {
    var rest := r[1..];
    var head := if r[0].1 == c then [r[0]] else [];
    var tail := if x.1 == c then [x] else [];
    assert r == [r[0]] + rest;
    WithCountCons(r[0], InsertByCount(x, rest), c);
    WithCountCons(r[0], rest, c);
    assert head + (WithCount(rest, c) + tail) == (head + WithCount(rest, c)) + tail;
  }

  /** Nothing in a descending list has a count above its head's. */
  lemma NoneAboveHead(r: seq<Entry>, c: nat)
    requires Descending(r) && |r| > 0 && r[0].1 < c
    ensures WithCount(r, c) == []
  {
    assert forall i :: 0 <= i < |r| ==> r[i].1 <= r[0].1;
    WithCountNone(r, c);
  }

  lemma DescendingTail(r: seq<Entry>)
    requires Descending(r) && |r| > 0
    ensures Descending(r[1..])
  {
    var rest := r[1..];
    forall i, j | 0 <= i < j < |rest|
      ensures rest[i].1 >= rest[j].1
    {
      assert rest[i] == r[i + 1] && rest[j] == r[j + 1];
    }
  }

  /** Insertion sort: the last item is inserted last, after its ties. */
  function SortByCount(items: seq<Entry>): (s: seq<Entry>)
    ensures |s| == |items|
  {
    if |items| == 0 then []
    else InsertByCount(items[|items| - 1], SortByCount(items[..|items| - 1]))
  }

  /** The sort is a permutation. */
  lemma {:induction false} SortByCountPerm(items: seq<Entry>)
    ensures multiset(SortByCount(items)) == multiset(items)
  {
    if |items| > 0 {
      var pre := items[..|items| - 1];
      SortByCountPerm(pre);
      InsertByCountPerm(items[|items| - 1], SortByCount(pre));
      assert items == pre + [items[|items| - 1]];
    }
  }

  /** The sort orders by count, most first. */
  lemma {:induction false} SortByCountDescending(items: seq<Entry>)
    ensures Descending(SortByCount(items))
  {
    if |items| > 0 {
      var pre := items[..|items| - 1];
      SortByCountDescending(pre);
      InsertByCountDescending(items[|items| - 1], SortByCount(pre));
    }
  }

  /** The sort is stable: the items of each count come out in their original order. */
  lemma {:induction false} SortByCountStable(items: seq<Entry>, c: nat)
    ensures WithCount(SortByCount(items), c) == WithCount(items, c)
  {
    if |items| > 0 {
      var pre := items[..|items| - 1];
      var x := items[|items| - 1];
      SortByCountStable(pre, c);
      SortByCountDescending(pre);
      InsertByCountStable(x, SortByCount(pre), c);
      assert SortByCount(items) == InsertByCount(x, SortByCount(pre));
      assert items == pre + [x];
      WithCountAppend(pre, [x], c);
      assert WithCount([x], c) == if x.1 == c then [x] else [] by {
        assert [x][1..] == [];
      }
    }
  }

  /** The first `n` items of the sorted list. */
  function TopUsers(d: Dict<string, nat>, n: nat): (r: seq<Entry>)
    requires d.Valid()
  {
    var s := SortByCount(Items(d));
    if |s| <= n then s else s[..n]
  }

  /** `TopUsers` lists min(n, len(d)) users, most jobs first, each with its count. */
  lemma TopUsersSpec(d: Dict<string, nat>, n: nat)
    requires d.Valid()
    ensures |TopUsers(d, n)| == if |d.order| <= n then |d.order| else n
    ensures Descending(TopUsers(d, n))
    ensures forall e :: e in TopUsers(d, n) ==> e.0 in d.entries && d.entries[e.0] == e.1
  {
    var items := Items(d);
    var s := SortByCount(items);
    SortByCountDescending(items);
    SortByCountPerm(items);
    var r := TopUsers(d, n);
    assert r == s[..|r|];
    forall e | e in r
      ensures e.0 in d.entries && d.entries[e.0] == e.1
    {
      assert e in multiset(s);
      assert e in multiset(items);
    }
  }

  /** In a descending sequence, every entry of a prefix counts at least as much as any
      entry after it. */
  lemma PrefixDominates(s: seq<Entry>, m: nat, j: nat)
    requires Descending(s) && m <= j < |s|
    ensures forall e :: e in s[..m] ==> s[j].1 <= e.1
  {
    forall e | e in s[..m] ensures s[j].1 <= e.1 {
      var i :| 0 <= i < m && s[..m][i] == e;
      assert s[i] == e;
    }
  }

  /** Every user left out of `TopUsers` has at most as many jobs as every user listed. */
  lemma TopUsersDominate(d: Dict<string, nat>, n: nat, u: string)
    requires d.Valid()
    requires u in d.entries && forall e :: e in TopUsers(d, n) ==> e.0 != u
    ensures forall e :: e in TopUsers(d, n) ==> d.entries[u] <= e.1
  {
    var items := Items(d);
    var s := SortByCount(items);
    SortByCountDescending(items);
    SortByCountPerm(items);
    var r := TopUsers(d, n);
    assert r == s[..|r|];
    var k :| 0 <= k < |d.order| && d.order[k] == u;
    var item := items[k];
    assert item in multiset(items);
    assert item in multiset(s);
    var j :| 0 <= j < |s| && s[j] == item;
    assert item.0 == u;
    assert item !in r;
    assert j >= |r|;
    PrefixDominates(s, |r|, j);
  }
}
