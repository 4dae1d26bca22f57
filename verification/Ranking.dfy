/**
 The SQL window row_number() OVER (PARTITION BY ... ORDER BY ...), with the partition and the
 sort key of every row given as maps.  A sort key is a sequence of integers that ends in the row's
 id, compared lexicographically, so no two rows tie.
 */
module Ranking {
  import opened Common

  type Id = nat
  type SortKeys = map<Id, seq<int>>

  predicate Less(a: seq<int>, b: seq<int>) {
    b != [] && (a == [] || a[0] < b[0] || (a[0] == b[0] && Less(a[1..], b[1..])))
  }

  lemma {:induction false} LessIsTotal(a: seq<int>, b: seq<int>)
    ensures a == b || Less(a, b) || Less(b, a)
  {
    if a != [] && b != [] && a[0] == b[0] {
      LessIsTotal(a[1..], b[1..]);
      assert a == [a[0]] + a[1..] && b == [b[0]] + b[1..];
    }
  }

  lemma {:induction false} LessIsTransitive(a: seq<int>, b: seq<int>, c: seq<int>)
    requires Less(a, b) && Less(b, c)
    ensures Less(a, c)
  {
    if a != [] && a[0] == b[0] && b[0] == c[0] {
      LessIsTransitive(a[1..], b[1..], c[1..]);
    }
  }

  lemma {:induction false} LessIsIrreflexive(a: seq<int>)
    ensures !Less(a, a)
  {
    if a != [] {
      LessIsIrreflexive(a[1..]);
    }
  }

  lemma LessStartsLow(a: seq<int>, b: seq<int>)
    requires Less(a, b) && |a| >= 2 && |b| >= 2
    ensures a[0] < b[0] || (a[0] == b[0] && a[1] <= b[1])
  {
    assert a[1..][0] == a[1] && b[1..][0] == b[1];
  }

  ghost predicate Decides(order: SortKeys, ids: set<Id>) {
    ids <= order.Keys && forall a, b :: a in ids && b in ids && order[a] == order[b] ==> a == b
  }

  lemma IdLastDecides(order: SortKeys, ids: set<Id>)
    requires ids <= order.Keys && forall a :: a in ids ==> order[a] != [] && order[a][|order[a]| - 1] == a
    ensures Decides(order, ids)
  {
  }

  // ----- Partitions

  function Preceding<K(==)>(ids: set<Id>, part: map<Id, K>, order: SortKeys, id: Id): set<Id>
    requires ids <= part.Keys && ids <= order.Keys && id in ids
  {
    set b | b in ids && part[b] == part[id] && Less(order[b], order[id])
  }

  function RowNumber<K(==)>(ids: set<Id>, part: map<Id, K>, order: SortKeys, id: Id): nat
    requires ids <= part.Keys && ids <= order.Keys && id in ids
  {
    1 + |Preceding(ids, part, order, id)|
  }

  /** The rows whose row_number is 1. */
  function Firsts<K(==)>(ids: set<Id>, part: map<Id, K>, order: SortKeys): (r: set<Id>)
    requires ids <= part.Keys && ids <= order.Keys
    ensures r <= ids
  {
    set a | a in ids && RowNumber(ids, part, order, a) == 1
  }

  predicate IsLeast(ids: set<Id>, order: SortKeys, id: Id)
    requires ids <= order.Keys
  {
    id in ids && forall k :: k in ids && k != id ==> Less(order[id], order[k])
  }

  lemma {:induction false} LeastExists(ids: set<Id>, order: SortKeys) returns (least: Id)
    requires ids != {} && Decides(order, ids)
    ensures IsLeast(ids, order, least)
  {
    var x :| x in ids;
    if ids == {x} {
      least := x;
    } else {
      var y := LeastExists(ids - {x}, order);
      least := if Less(order[x], order[y]) then x else y;
      LessIsTotal(order[x], order[y]);
      forall k | k in ids && k != least
        ensures Less(order[least], order[k])
      {
        if k != x && k != y && least == x {
          LessIsTransitive(order[x], order[y], order[k]);
        }
      }
    }
  }

  lemma LeastIsUnique(ids: set<Id>, order: SortKeys, a: Id, b: Id)
    requires ids <= order.Keys && IsLeast(ids, order, a) && IsLeast(ids, order, b)
    ensures a == b
  {
    if a != b {
      LessIsTransitive(order[a], order[b], order[a]);
      LessIsIrreflexive(order[a]);
    }
  }

  /** Row a stands for row b: it is the first of b's partition. */
  predicate StandsFor<K(==)>(ids: set<Id>, part: map<Id, K>, order: SortKeys, a: Id, b: Id)
    requires ids <= part.Keys && ids <= order.Keys && b in ids
  {
    a in Firsts(ids, part, order) && part[a] == part[b] && (a == b || Less(order[a], order[b]))
  }

  /** Every row has a first row of its partition. */
  lemma EachHasAFirst<K>(ids: set<Id>, part: map<Id, K>, order: SortKeys, b: Id) returns (a: Id)
    requires ids <= part.Keys && Decides(order, ids) && b in ids
    ensures StandsFor(ids, part, order, a, b)
  {
    var group := set k | k in ids && part[k] == part[b];
    assert b in group;
    a := LeastExists(group, order);
    assert Preceding(ids, part, order, a) == {} by {
      forall k | k in Preceding(ids, part, order, a)
        ensures false
      {
        if k == a {
          LessIsIrreflexive(order[a]);
        } else {
          assert k in group;
          LessIsTransitive(order[a], order[k], order[a]);
          LessIsIrreflexive(order[a]);
        }
      }
    }
  }

  /** No partition has two first rows. */
  lemma FirstsAreUnique<K>(ids: set<Id>, part: map<Id, K>, order: SortKeys, a: Id, b: Id)
    requires ids <= part.Keys && Decides(order, ids)
    requires a in Firsts(ids, part, order) && b in Firsts(ids, part, order) && part[a] == part[b]
    ensures a == b
  {
    LessIsTotal(order[a], order[b]);
    assert Preceding(ids, part, order, a) == {} && Preceding(ids, part, order, b) == {};
    assert Less(order[a], order[b]) ==> a in Preceding(ids, part, order, b);
    assert Less(order[b], order[a]) ==> b in Preceding(ids, part, order, a);
  }

  function Image<K>(ids: set<Id>, part: map<Id, K>): set<K>
    requires ids <= part.Keys
  {
    set a | a in ids :: part[a]
  }

  lemma {:induction false} InjectiveImageSize<K>(ids: set<Id>, part: map<Id, K>)
    requires ids <= part.Keys && forall a, b :: a in ids && b in ids && part[a] == part[b] ==> a == b
    ensures |Image(ids, part)| == |ids|
  {
    if ids != {} {
      var x :| x in ids;
      InjectiveImageSize(ids - {x}, part);
      assert Image(ids, part) == Image(ids - {x}, part) + {part[x]};
    }
  }

  /** Keeping row_number 1 keeps as many rows as GROUP BY the same partition has groups. */
  lemma FirstsCountGroups<K>(ids: set<Id>, part: map<Id, K>, order: SortKeys)
    requires ids <= part.Keys && Decides(order, ids)
    ensures |Firsts(ids, part, order)| == |Image(ids, part)|
  {
    var firsts := Firsts(ids, part, order);
    forall a, b | a in firsts && b in firsts && part[a] == part[b]
      ensures a == b
    {
      FirstsAreUnique(ids, part, order, a, b);
    }
    InjectiveImageSize(firsts, part);
    assert Image(firsts, part) == Image(ids, part) by {
      forall key | key in Image(ids, part)
        ensures key in Image(firsts, part)
      {
        var b :| b in ids && part[b] == key;
        var a := EachHasAFirst(ids, part, order, b);
        assert part[a] == key;
      }
    }
  }

  // ----- ORDER BY, LIMIT and OFFSET

  /** `list` holds exactly the given rows, each once, in order. */
  ghost predicate Lists(list: seq<Id>, ids: set<Id>, order: SortKeys) {
    && ids <= order.Keys
    && (forall i :: 0 <= i < |list| ==> list[i] in ids)
    && (forall a :: a in ids ==> a in list)
    && forall i, j :: 0 <= i < j < |list| ==> Less(order[list[i]], order[list[j]])
  }

  lemma SomeLeast(ids: set<Id>, order: SortKeys)
    requires ids != {} && Decides(order, ids)
    ensures exists least :: IsLeast(ids, order, least)
  {
    var least := LeastExists(ids, order);
  }

  /** ORDER BY: the rows in ascending order of their sort keys. */
  ghost function Ordered(ids: set<Id>, order: SortKeys): (list: seq<Id>)
    requires Decides(order, ids)
    ensures Lists(list, ids, order) && |list| == |ids|
  {
    if ids == {} then [] else
      SomeLeast(ids, order);
      var least :| IsLeast(ids, order, least);
      [least] + Ordered(ids - {least}, order)
  }

  /** The order leaves nothing to chance: two listings of the same rows are the same. */
  lemma {:induction false} ListingIsUnique(a: seq<Id>, b: seq<Id>, ids: set<Id>, order: SortKeys)
    requires Lists(a, ids, order) && Lists(b, ids, order)
    ensures a == b
  {
    if ids != {} {
      FirstIsLeast(a, ids, order);
      FirstIsLeast(b, ids, order);
      LeastIsUnique(ids, order, a[0], b[0]);
      ListingRest(a, ids, order);
      ListingRest(b, ids, order);
      ListingIsUnique(a[1..], b[1..], ids - {a[0]}, order);
      assert a == [a[0]] + a[1..] && b == [b[0]] + b[1..];
    }
  }

  lemma FirstIsLeast(list: seq<Id>, ids: set<Id>, order: SortKeys)
    requires Lists(list, ids, order) && ids != {}
    ensures list != [] && IsLeast(ids, order, list[0])
  {
    var x :| x in ids;
    assert x in list;
    forall k | k in ids && k != list[0]
      ensures Less(order[list[0]], order[k])
    {
      var i :| 0 <= i < |list| && list[i] == k;
    }
  }

  lemma ListingRest(list: seq<Id>, ids: set<Id>, order: SortKeys)
    requires Lists(list, ids, order) && list != []
    ensures Lists(list[1..], ids - {list[0]}, order)
  {
    LessIsIrreflexive(order[list[0]]);
    forall a | a in ids && a != list[0]
      ensures a in list[1..]
    {
      var i :| 0 <= i < |list| && list[i] == a;
      assert list[1..][i - 1] == a;
    }
  }

  function Page<T>(list: seq<T>, limit: nat, offset: nat): seq<T> {
    var from := Min(offset, |list|);
    list[from..Min(from + limit, |list|)]
  }

  /** The first `n` pages of a given size, one after the other. */
  function Pages<T>(list: seq<T>, size: nat, n: nat): seq<T> {
    if n == 0 then [] else Pages(list, size, n - 1) + Page(list, size, (n - 1) * size)
  }

  lemma {:induction false} PagesConcatenate<T>(list: seq<T>, size: nat, n: nat)
    ensures Pages(list, size, n) == list[..Min(n * size, |list|)]
  {
    if n != 0 {
      PagesConcatenate(list, size, n - 1);
      assert n * size == (n - 1) * size + size;
      PageExtends(list, size, (n - 1) * size);
    }
  }

  lemma PageExtends<T>(list: seq<T>, size: nat, offset: nat)
    ensures list[..Min(offset, |list|)] + Page(list, size, offset) == list[..Min(offset + size, |list|)]
  {
  }
}
