/** The defensive re-sort of a fetched batch: a copy of the activities ordered by
    ascending `id` with the comparator `(a, b) => a.id - b.id`. JavaScript's
    `Array.prototype.sort` is stable, so records with equal ids keep the order in
    which the source returned them. */
module ActivitySort {
  import opened NinjaTypes

  ghost predicate SortedById(s: seq<Activity>) {
    forall i, j :: 0 <= i < j < |s| ==> s[i].id <= s[j].id
  }

  /** The records of `s` whose id is `k`, in their order in `s`. */
  function WithId(s: seq<Activity>, k: int): (r: seq<Activity>) {
    if s == [] then [] else (if s[0].id == k then [s[0]] else []) + WithId(s[1..], k)
  }

  /** The largest id of a non-empty batch, defined independently of any sort. */
  function MaxId(s: seq<Activity>): (m: int)
    requires s != []
    ensures exists a :: a in s && a.id == m
    ensures forall a :: a in s ==> a.id <= m
  {
    if |s| == 1 then s[0].id
    else
      var rest := MaxId(s[1..]);
      assert forall a :: a in s ==> a == s[0] || a in s[1..];
      if s[0].id >= rest then s[0].id else rest
  }

  /** Inserts `x` in front of the first record of `t` whose id is not smaller. */
  function Insert(x: Activity, t: seq<Activity>): (r: seq<Activity>)
    ensures |r| == |t| + 1
  {
    if t == [] || x.id <= t[0].id then [x] + t else [t[0]] + Insert(x, t[1..])
  }

  /** The sorted copy of a batch: each record, from the last to the first, is
      inserted into the sorted copy of the records after it. */
  function SortById(s: seq<Activity>): (r: seq<Activity>)
    ensures |r| == |s|
  {
    if s == [] then [] else Insert(s[0], SortById(s[1..]))
  }

  lemma {:induction false} InsertPermutes(x: Activity, t: seq<Activity>)
    ensures multiset(Insert(x, t)) == multiset(t) + multiset{x}
  {
    if t != [] && x.id > t[0].id {
      InsertPermutes(x, t[1..]);
      assert t == [t[0]] + t[1..];
    }
  }

  lemma {:induction false} InsertMembers(x: Activity, t: seq<Activity>)
    ensures forall a :: a in Insert(x, t) <==> a == x || a in t
  {
    if t != [] && x.id > t[0].id {
      InsertMembers(x, t[1..]);
      assert t == [t[0]] + t[1..];
    }
  }

  /** A record no larger than every record of a sorted sequence can go in front. */
  lemma ConsSorted(h: Activity, tail: seq<Activity>)
    requires SortedById(tail)
    requires forall a :: a in tail ==> h.id <= a.id
    ensures SortedById([h] + tail)
  {
  }

  lemma {:induction false} InsertSorted(x: Activity, t: seq<Activity>)
    requires SortedById(t)
    ensures SortedById(Insert(x, t))
  {
    if t == [] || x.id <= t[0].id {
      forall a | a in t ensures x.id <= a.id {
        var j :| 0 <= j < |t| && t[j] == a;
        assert j == 0 || t[0].id <= t[j].id;
      }
      ConsSorted(x, t);
    } else {
      var rest := t[1..];
      assert SortedById(rest) by {
        forall i, j | 0 <= i < j < |rest| ensures rest[i].id <= rest[j].id {
          assert rest[i] == t[i + 1] && rest[j] == t[j + 1];
        }
      }
      InsertSorted(x, rest);
      InsertMembers(x, rest);
      forall a | a in Insert(x, rest) ensures t[0].id <= a.id {
        if a != x {
          var j :| 0 <= j < |rest| && rest[j] == a;
          assert t[j + 1] == a;
        }
      }
      ConsSorted(t[0], Insert(x, rest));
    }
  }

  /** The sorted copy is ordered by ascending id and holds exactly the records of
      the batch, duplicates included. */
  lemma {:induction false} SortByIdSortsAndPermutes(s: seq<Activity>)
    ensures SortedById(SortById(s))
    ensures multiset(SortById(s)) == multiset(s)
  {
    if s != [] {
      SortByIdSortsAndPermutes(s[1..]);
      InsertSorted(s[0], SortById(s[1..]));
      InsertPermutes(s[0], SortById(s[1..]));
      assert s == [s[0]] + s[1..];
    }
  }

  lemma {:induction false} WithIdAppend(a: seq<Activity>, b: seq<Activity>, k: int)
    ensures WithId(a + b, k) == WithId(a, k) + WithId(b, k)
  {
    if a == [] {
      assert a + b == b;
    } else {
      var head := if a[0].id == k then [a[0]] else [];
      assert (a + b)[0] == a[0];
      assert (a + b)[1..] == a[1..] + b;
      calc {
        WithId(a + b, k);
        head + WithId(a[1..] + b, k);
        { WithIdAppend(a[1..], b, k); }
        head + (WithId(a[1..], k) + WithId(b, k));
        (head + WithId(a[1..], k)) + WithId(b, k);
        WithId(a, k) + WithId(b, k);
      }
    }
  }

  lemma WithIdSingle(a: Activity, k: int)
    ensures WithId([a], k) == if a.id == k then [a] else []
  {
  }

  /** Two records with different ids can trade places in front of any sequence
      without changing which records carry a given id, or their order. */
  lemma WithIdSwap(a: Activity, b: Activity, rest: seq<Activity>, k: int)
    requires a.id != b.id
    ensures WithId([a], k) + (WithId([b], k) + WithId(rest, k))
         == WithId([b], k) + (WithId([a], k) + WithId(rest, k))
  {
  }

  /** Insertion never moves `x` past a record with the same id. */
  lemma {:induction false} InsertKeepsEqualIds(x: Activity, t: seq<Activity>, k: int)
    ensures WithId(Insert(x, t), k) == WithId([x] + t, k)
  {
    if t != [] && x.id > t[0].id {
      var head, rest := t[0], t[1..];
      assert t == [head] + rest;
      assert Insert(x, t) == [head] + Insert(x, rest);
      calc {
        WithId(Insert(x, t), k);
        { WithIdAppend([head], Insert(x, rest), k); }
        WithId([head], k) + WithId(Insert(x, rest), k);
        { InsertKeepsEqualIds(x, rest, k); WithIdAppend([x], rest, k); }
        WithId([head], k) + (WithId([x], k) + WithId(rest, k));
        { WithIdSwap(head, x, rest, k); }
        WithId([x], k) + (WithId([head], k) + WithId(rest, k));
        { WithIdAppend([head], rest, k); }
        WithId([x], k) + WithId(t, k);
        { WithIdAppend([x], t, k); }
        WithId([x] + t, k);
      }
    }
  }

  /** The sort is stable: for every id, the records carrying it come out in the
      order the source returned them (duplicates are kept, none is dropped). */
  lemma {:induction false} SortByIdIsStable(s: seq<Activity>, k: int)
    ensures WithId(SortById(s), k) == WithId(s, k)
  {
    if s != [] {
      SortByIdIsStable(s[1..], k);
      InsertKeepsEqualIds(s[0], SortById(s[1..]), k);
      WithIdAppend([s[0]], SortById(s[1..]), k);
      WithIdAppend([s[0]], s[1..], k);
      assert [s[0]] + s[1..] == s;
    }
  }

  /** The sorted copy holds the same records as the batch. */
  lemma {:induction false} SortByIdSameMembers(s: seq<Activity>)
    ensures forall a :: a in SortById(s) <==> a in s
  {
    if s != [] {
      SortByIdSameMembers(s[1..]);
      InsertMembers(s[0], SortById(s[1..]));
      assert s == [s[0]] + s[1..];
    }
  }

  lemma SortedPair(s: seq<Activity>, i: nat, j: nat)
    requires i <= j < |s|
    ensures SortById(s)[i].id <= SortById(s)[j].id
  {
    SortByIdSortsAndPermutes(s);
  }

  /** The last record of the sorted copy carries the largest id of the batch. */
  lemma LastIsMax(s: seq<Activity>)
    requires s != []
    ensures SortById(s)[|s| - 1] in s
    ensures SortById(s)[|s| - 1].id == MaxId(s)
  {
    var r := SortById(s);
    var n := |r| - 1;
    SortByIdSameMembers(s);
    assert r[n] in r;
    var m :| m in s && m.id == MaxId(s);
    var i :| 0 <= i < |r| && r[i] == m;
    SortedPair(s, i, n);
  }

  /** The ordering example of a four-record batch with a duplicate id:
      ids [5, 2, 9, 2] come out as 2, 2, 5, 9, the two 2s in arrival order. */
  lemma SortExample(p: string, q: string, u: string, v: string)
    ensures SortById([Activity(5, p), Activity(2, q), Activity(9, u), Activity(2, v)])
         == [Activity(2, q), Activity(2, v), Activity(5, p), Activity(9, u)]
  {
    var a5, a2, a9, b2 := Activity(5, p), Activity(2, q), Activity(9, u), Activity(2, v);
    assert [b2][1..] == [];
    assert SortById([b2]) == [b2];
    assert [a9, b2][1..] == [b2];
    assert SortById([a9, b2]) == [b2] + Insert(a9, []) == [b2, a9];
    assert [a2, a9, b2][1..] == [a9, b2];
    assert SortById([a2, a9, b2]) == [a2] + [b2, a9] == [a2, b2, a9];
    assert [a5, a2, a9, b2][1..] == [a2, a9, b2];
    assert [a2, b2, a9][1..] == [b2, a9] && [b2, a9][1..] == [a9];
    assert Insert(a5, [a9]) == [a5] + [a9] == [a5, a9];
    assert Insert(a5, [b2, a9]) == [b2] + [a5, a9] == [b2, a5, a9];
    assert Insert(a5, [a2, b2, a9]) == [a2] + [b2, a5, a9] == [a2, b2, a5, a9];
  }
}
