/** Vocabulary of the relational store: row ids, timestamps, the row order an
    `orderBy` clause produces, `skip`/`take` windows and autoincrement ids.

    The database leaves the order of rows with equal sort keys unspecified; the
    model breaks such ties by row id, in the same direction as the sort, so that
    every ordering is a strict total order and every query has one answer.
 */
module Tables {

  /** Autoincrement primary keys start at 1, so a row id is never falsy. */
  type Id = n: nat | n >= 1 witness 1

  /** A point in time, in milliseconds. */
  type Time = int

  function Min(a: int, b: int): int {
    if a <= b then a else b
  }

  datatype Direction = Ascending | Descending

  /** Row `a` comes strictly before row `b` when rows are sorted by `rank` in
      direction `dir`, ties broken by id in the same direction. */
  predicate Before(rank: map<Id, int>, dir: Direction, a: Id, b: Id)
    requires a in rank && b in rank
  {
    match dir
    case Ascending => rank[a] < rank[b] || (rank[a] == rank[b] && a < b)
    case Descending => rank[a] > rank[b] || (rank[a] == rank[b] && a > b)
  }

  /** `x` comes before every other row of `rank`. */
  predicate IsFirst(rank: map<Id, int>, dir: Direction, x: Id)
    requires x in rank
  {
    forall y :: y in rank && y != x ==> Before(rank, dir, x, y)
  }

  /** Every non-empty table has a first row. */
  lemma {:induction false} FirstExists(rank: map<Id, int>, dir: Direction)
    requires |rank| > 0
    ensures exists x :: x in rank && IsFirst(rank, dir, x)
    decreases |rank|
  {
    var y :| y in rank;
    var rest := rank - {y};
    assert rest.Keys == rank.Keys - {y};
    if |rest| == 0 {
      assert rest.Keys == {};
      assert rank.Keys == {y};
      assert IsFirst(rank, dir, y);
    } else {
      FirstExists(rest, dir);
      var z :| z in rest && IsFirst(rest, dir, z);
      if Before(rank, dir, y, z) {
        assert IsFirst(rank, dir, y) by {
          forall w | w in rank && w != y
            ensures Before(rank, dir, y, w)
          {
            if w != z {
              assert w in rest && Before(rest, dir, z, w);
            }
          }
        }
      } else {
        assert IsFirst(rank, dir, z) by {
          forall w | w in rank && w != z
            ensures Before(rank, dir, z, w)
          {
            if w != y {
              assert w in rest && Before(rest, dir, z, w);
            }
          }
        }
      }
    }
  }

  /** The first row is unique, because `Before` is a strict total order. */
  lemma FirstIsUnique(rank: map<Id, int>, dir: Direction)
    ensures forall x, x' | x in rank && x' in rank && IsFirst(rank, dir, x) && IsFirst(rank, dir, x') :: x == x'
  {
  }

  /** All rows of `rank`, each exactly once, sorted by `Before`. */
  function Order(rank: map<Id, int>, dir: Direction): (r: seq<Id>)
    ensures |r| == |rank|
    ensures forall i :: 0 <= i < |r| ==> r[i] in rank
    ensures forall k {:trigger k in r} :: k in rank ==> k in r
    ensures forall i, j :: 0 <= i < j < |r| ==> Before(rank, dir, r[i], r[j])
    decreases |rank|
  {
    if |rank| == 0 then []
    else
      FirstExists(rank, dir);
      FirstIsUnique(rank, dir);
      var x :| x in rank && IsFirst(rank, dir, x);
      var rest := Order(rank - {x}, dir);
      ConsOrder(rank, dir, x, rest);
      [x] + rest
  }

  /** Putting the first row in front of an ordering of the other rows orders them all. */
  lemma ConsOrder(rank: map<Id, int>, dir: Direction, x: Id, rest: seq<Id>)
    requires x in rank && IsFirst(rank, dir, x)
    requires |rest| == |rank - {x}|
    requires forall i :: 0 <= i < |rest| ==> rest[i] in rank - {x}
    requires forall k {:trigger k in rest} :: k in rank - {x} ==> k in rest
    requires forall i, j :: 0 <= i < j < |rest| ==> Before(rank - {x}, dir, rest[i], rest[j])
    ensures |[x] + rest| == |rank|
    ensures forall i :: 0 <= i < |[x] + rest| ==> ([x] + rest)[i] in rank
    ensures forall k {:trigger k in [x] + rest} :: k in rank ==> k in [x] + rest
    ensures forall i, j :: 0 <= i < j < |[x] + rest| ==> Before(rank, dir, ([x] + rest)[i], ([x] + rest)[j])
  {
    assert (rank - {x}).Keys == rank.Keys - {x};
    var r := [x] + rest;
    forall i, j | 0 <= i < j < |r|
      ensures Before(rank, dir, r[i], r[j])
    {
      ConsPair(rank, dir, x, rest, i, j);
    }
    ConsCovers(rank, x, rest);
  }

  lemma ConsCovers(rank: map<Id, int>, x: Id, rest: seq<Id>)
    requires forall k {:trigger k in rest} :: k in rank - {x} ==> k in rest
    ensures forall k {:trigger k in [x] + rest} :: k in rank ==> k in [x] + rest
  {
    forall k | k in rank
      ensures k in [x] + rest
    {
      if k != x {
        assert k in rank - {x};
        assert k in rest;
      }
    }
  }

  lemma ConsPair(rank: map<Id, int>, dir: Direction, x: Id, rest: seq<Id>, i: nat, j: nat)
    requires x in rank && IsFirst(rank, dir, x)
    requires forall i :: 0 <= i < |rest| ==> rest[i] in rank - {x}
    requires forall i, j :: 0 <= i < j < |rest| ==> Before(rank - {x}, dir, rest[i], rest[j])
    requires i < j <= |rest|
    ensures ([x] + rest)[j] in rank && ([x] + rest)[i] in rank
    ensures Before(rank, dir, ([x] + rest)[i], ([x] + rest)[j])
  {
    var b := rest[j - 1];
    assert ([x] + rest)[j] == b && b in rank - {x};
    if i > 0 {
      var a := rest[i - 1];
      assert ([x] + rest)[i] == a && a in rank - {x};
      assert Before(rank - {x}, dir, a, b);
    }
  }

  /** Sorting by `Before` sorts by rank, and lists no row twice. */
  lemma OrderSorted(rank: map<Id, int>, dir: Direction)
    ensures var o := Order(rank, dir);
      forall i, j :: 0 <= i < j < |o| ==> o[i] != o[j]
    ensures var o := Order(rank, dir);
      dir == Ascending ==> forall i, j :: 0 <= i < j < |o| ==> rank[o[i]] <= rank[o[j]]
    ensures var o := Order(rank, dir);
      dir == Descending ==> forall i, j :: 0 <= i < j < |o| ==> rank[o[i]] >= rank[o[j]]
  {
    var o := Order(rank, dir);
    forall i, j | 0 <= i < j < |o|
      ensures o[i] != o[j]
      ensures dir == Ascending ==> rank[o[i]] <= rank[o[j]]
      ensures dir == Descending ==> rank[o[i]] >= rank[o[j]]
    {
      assert Before(rank, dir, o[i], o[j]);
    }
  }

  /** The head of the order comes before every other row. */
  lemma OrderHeadIsFirst(rank: map<Id, int>, dir: Direction)
    requires |rank| > 0
    ensures IsFirst(rank, dir, Order(rank, dir)[0])
  {
    var o := Order(rank, dir);
    forall y | y in rank && y != o[0]
      ensures Before(rank, dir, o[0], y)
    {
      assert y in o;
      var j :| 0 <= j < |o| && o[j] == y;
      assert j != 0;
    }
  }

  /** Rows `skip .. skip + take` of `xs` (Prisma's `skip`/`take`). */
  function Window<T>(xs: seq<T>, skip: nat, take: nat): (r: seq<T>)
    ensures |r| == if skip >= |xs| then 0 else Min(take, |xs| - skip)
    ensures forall i :: 0 <= i < |r| ==> r[i] == xs[skip + i]
  {
    if skip >= |xs| then [] else xs[skip .. skip + Min(take, |xs| - skip)]
  }

  /** A window of an ordering lists rows of the table, none twice, in sort order. */
  lemma WindowOfOrder(rank: map<Id, int>, dir: Direction, skip: nat, take: nat)
    ensures var w := Window(Order(rank, dir), skip, take);
      && (forall i :: 0 <= i < |w| ==> w[i] in rank)
      && (forall i, j :: 0 <= i < j < |w| ==> w[i] != w[j])
      && (dir == Ascending ==> forall i, j :: 0 <= i < j < |w| ==> rank[w[i]] <= rank[w[j]])
      && (dir == Descending ==> forall i, j :: 0 <= i < j < |w| ==> rank[w[i]] >= rank[w[j]])
  {
    var o := Order(rank, dir);
    var w := Window(o, skip, take);
    forall i, j | 0 <= i < j < |w|
      ensures w[i] != w[j]
      ensures dir == Ascending ==> rank[w[i]] <= rank[w[j]]
      ensures dir == Descending ==> rank[w[i]] >= rank[w[j]]
    {
      assert w[i] == o[skip + i] && w[j] == o[skip + j];
      assert Before(rank, dir, o[skip + i], o[skip + j]);
    }
  }

  /** `(page - 1) * size`, the number of rows before 1-based page `page`,
      written as repeated addition to keep multiplication out of proofs. */
  function Offset(page: nat, size: nat): nat {
    if page <= 1 then 0 else Offset(page - 1, size) + size
  }

  lemma {:induction false} OffsetIsProduct(page: nat, size: nat)
    requires page >= 1
    ensures Offset(page, size) == (page - 1) * size
  {
    if page > 1 {
      OffsetIsProduct(page - 1, size);
      assert (page - 1) * size == (page - 2) * size + size;
    }
  }

  /** Inserting a row under a fresh id grows a table by exactly one row. */
  lemma InsertGrows<T>(m: map<Id, T>, k: Id, v: T)
    requires k !in m
    ensures |m[k := v]| == |m| + 1
  {
  }

  /** The id an autoincrement column hands out next: the first id at or
      after the counter `from` that no row holds yet. */
  function FreshId<T>(m: map<Id, T>, from: Id): (r: Id)
    ensures r !in m && from <= r
    ensures from !in m ==> r == from
    decreases |IdsFrom(m, from)|
  {
    if from !in m then from
    else
      assert IdsFrom(m, from) == IdsFrom(m, from + 1) + {from};
      FreshId(m, from + 1)
  }

  /** The ids in use at or after `from`. */
  function IdsFrom<T>(m: map<Id, T>, from: Id): set<Id> {
    set k | k in m.Keys && from <= k
  }
}
