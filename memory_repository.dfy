/**
 * The store contract: a map from integer ids to entities, changed in place by
 * save/update/delete and read by findById/findAll. The database adapters of
 * the system honour the same contract, so the services are modelled over it.
 *
 * Java's HashMap does not specify its iteration order; the model enumerates
 * entries in ascending id order, and every query that returns "the first
 * match" returns the match with the smallest id.
 */
module Repository {
  import opened Wrappers

  // ---------------------------------------------------------------------------
  // Minimum of a set of ids and the ascending enumeration of a map
  // ---------------------------------------------------------------------------

  lemma EmptyIfNoMember(s: set<int>)
    ensures (forall z :: z !in s) ==> s == {}
  {
    var e: set<int> := {};
    if forall z :: z !in s {
      assert forall z :: z in s <==> z in e;
      assert s == e;
    }
  }

  lemma {:induction false} HasMinimum(s: set<int>)
    requires s != {}
    ensures exists r :: r in s && forall x :: x in s ==> r <= x
    decreases |s|
  {
    EmptyIfNoMember(s);
    var y :| y in s;
    var rest := s - {y};
    assert forall x :: x in s ==> x == y || x in rest;
    if rest == {} {
      assert forall x :: x in s ==> x == y;
    } else {
      HasMinimum(rest);
      var r :| r in rest && forall x :: x in rest ==> r <= x;
      var m := if y < r then y else r;
      forall x | x in s
        ensures m <= x
      {
        if x != y {
          assert x in rest;
        }
      }
      assert m in s;
    }
  }

  /** The smallest id of a non-empty set. */
  function MinOf(s: set<int>): (r: int)
    requires s != {}
    ensures r in s && forall x :: x in s ==> r <= x
  {
    HasMinimum(s);
    var r :| r in s && forall x :: x in s ==> r <= x;
    r
  }

  /** The elements of `s` in ascending order. */
  function Ascending(s: set<int>): (ks: seq<int>)
    ensures |ks| == |s|
    ensures forall k :: k in s <==> k in ks
    decreases |s|
  {
    if s == {} then []
    else
      var k := MinOf(s);
      [k] + Ascending(s - {k})
  }

  /** The enumeration is strictly increasing, so it lists every id exactly once. */
  lemma {:induction false} AscendingIsStrict(s: set<int>)
    ensures forall i, j :: 0 <= i < j < |Ascending(s)| ==> Ascending(s)[i] < Ascending(s)[j]
    decreases |s|
  {
    if s != {} {
      var k := MinOf(s);
      var rest := Ascending(s - {k});
      AscendingIsStrict(s - {k});
      forall i | 0 <= i < |rest|
        ensures k < rest[i]
      {
        assert rest[i] in s - {k};
      }
    }
  }

  /** The ids of a store, in the order the model enumerates them. */
  function SortedKeys<T>(m: map<int, T>): (ks: seq<int>)
    ensures |ks| == |m.Keys|
    ensures forall k :: k in m <==> k in ks
  {
    Ascending(m.Keys)
  }

  /** The values of a store, one per id, in ascending id order (what its iterator yields). */
  function ValuesOf<T>(m: map<int, T>): (vs: seq<T>)
    ensures |vs| == |m.Keys|
    ensures forall i :: 0 <= i < |vs| ==> SortedKeys(m)[i] in m && vs[i] == m[SortedKeys(m)[i]]
  {
    var ks := SortedKeys(m);
    seq(|ks|, i requires 0 <= i < |ks| => m[ks[i]])
  }

  /** Every stored value occurs in the enumeration, and nothing else does. */
  lemma ValuesOfMembers<T>(m: map<int, T>)
    ensures forall k :: k in m ==> m[k] in ValuesOf(m)
    ensures forall v :: v in ValuesOf(m) ==> exists k :: k in m && m[k] == v
  {
    var ks := SortedKeys(m);
    var vs := ValuesOf(m);
    forall k | k in m
      ensures m[k] in vs
    {
      var i :| 0 <= i < |ks| && ks[i] == k;
      assert vs[i] == m[k];
    }
  }

  /** The elements of `xs` satisfying `p`, in order. */
  function Filter<T(!new)>(xs: seq<T>, p: T -> bool): (r: seq<T>)
    ensures |r| <= |xs|
    ensures forall x :: x in r <==> x in xs && p(x)
    decreases |xs|
  {
    if xs == [] then []
    else
      var rest := Filter(xs[1..], p);
      assert forall x :: x in xs <==> x == xs[0] || x in xs[1..];
      if p(xs[0]) then [xs[0]] + rest else rest
  }

  // ---------------------------------------------------------------------------
  // MemoryRepository
  // ---------------------------------------------------------------------------

  /** A store kept in a hash map that save, update and delete change in place. */
  class MemoryRepository<T> {
    var data: map<int, T>

    constructor()
      ensures data == map[]
    {
      data := map[];
    }

    /** data.get(id): the stored entity, or null. */
    function FindById(id: int): (r: Option<T>)
      reads this
      ensures r.Some? <==> id in data
      ensures r.Some? ==> r.value == data[id]
    {
      if id in data then Some(data[id]) else None
    }

    /** data.values().iterator(), as the sequence it yields: one value per key, in ascending key order. */
    function FindAll(): (r: seq<T>)
      reads this
      ensures |r| == |data.Keys|
      ensures forall i :: 0 <= i < |r| ==> SortedKeys(data)[i] in data && r[i] == data[SortedKeys(data)[i]]
      ensures forall k :: k in data ==> data[k] in r
      ensures forall v :: v in r ==> exists k :: k in data && data[k] == v
    {
      ValuesOfMembers(data);
      ValuesOf(data)
    }

    /** data.put(id, entity). */
    method Save(id: int, entity: T)
      modifies this
      ensures data == old(data)[id := entity]
      ensures FindById(id) == Some(entity)
      ensures forall k :: k != id ==> FindById(k) == old(FindById(k))
    {
      data := data[id := entity];
    }

    /** data.remove(id); removing an absent id changes nothing. */
    method Delete(id: int)
      modifies this
      ensures data == old(data) - {id}
      ensures FindById(id) == None
      ensures id !in old(data) ==> data == old(data)
      ensures forall k :: k != id ==> FindById(k) == old(FindById(k))
    {
      data := data - {id};
    }

    /** data.put(id, entity): the same effect as Save, inserting when the id is absent. */
    method Update(id: int, entity: T)
      modifies this
      ensures data == old(data)[id := entity]
      ensures FindById(id) == Some(entity)
      ensures forall k :: k != id ==> FindById(k) == old(FindById(k))
    {
      data := data[id := entity];
    }
  }
}
