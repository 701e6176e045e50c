/** In-memory tables standing for the database: a map from primary key to row. A store allocates
    keys from a counter `bound`, so every key is below it and a scan in key order visits the rows
    in the order they were inserted. */
module Tables {
  import opened Common
  import Sorting

  /** Every key is below `bound`, the next key the store will hand out. */
  predicate Bounded<T>(m: map<Id, T>, bound: nat) {
    forall k :: k in m ==> k < bound
  }

  /** Each row is stored under its own primary key. */
  predicate Keyed<T>(m: map<Id, T>, key: T -> Id) {
    forall k :: k in m ==> key(m[k]) == k
  }

  predicate Increasing(ks: seq<Id>) {
    forall i, j :: 0 <= i < j < |ks| ==> ks[i] < ks[j]
  }

  /** The keys of the rows satisfying `p`. */
  ghost function MatchingKeys<T>(m: map<Id, T>, p: T -> bool): set<Id> {
    set k | k in m && p(m[k])
  }

  /** A table scan with a `where` filter: the keys below `bound` of the rows satisfying `p`, in ascending order. */
  function Select<T>(m: map<Id, T>, bound: nat, p: T -> bool): (ks: seq<Id>)
    ensures forall k :: k in ks <==> k in m && k < bound && p(m[k])
    ensures Increasing(ks)
    decreases bound
  {
    if bound == 0 then
      []
    else
      var earlier := Select(m, bound - 1, p);
      assert forall i :: 0 <= i < |earlier| ==> earlier[i] in earlier;
      earlier + (if bound - 1 in m && p(m[bound - 1]) then [bound - 1] else [])
  }

  /** The rows stored under `ks`, in that order. */
  function Fetch<T>(m: map<Id, T>, ks: seq<Id>): (rows: seq<T>)
    requires forall k :: k in ks ==> k in m
    ensures |rows| == |ks|
    ensures forall i :: 0 <= i < |ks| ==> rows[i] == m[ks[i]]
  {
    seq(|ks|, i requires 0 <= i < |ks| => m[ks[i]])
  }

  /** `findMany({ where })` with no `orderBy`: the matching rows in key order. */
  function Scan<T>(m: map<Id, T>, bound: nat, p: T -> bool): seq<T> {
    Fetch(m, Select(m, bound, p))
  }

  /** `findMany({ where, orderBy })`: the matching rows arranged by `le`. */
  function Query<T(!new)>(m: map<Id, T>, bound: nat, p: T -> bool, le: (T, T) -> bool): (rows: seq<T>)
    requires Sorting.Total(le)
    ensures Sorting.SortedBy(rows, le)
    ensures multiset(rows) == multiset(Scan(m, bound, p))
  {
    Sorting.SortBy(Scan(m, bound, p), le)
  }

  /** The first matching row in key order (`FirstOrDefault` over the table). */
  function FirstWhere<T>(m: map<Id, T>, bound: nat, p: T -> bool): (r: Option<Id>)
    ensures r.Some? ==> r.value in m && p(m[r.value]) && forall k :: k in m && k < r.value ==> !p(m[k])
    ensures r.None? ==> forall k :: k in m && k < bound ==> !p(m[k])
  {
    var ks := Select(m, bound, p);
    if ks == [] then None else Some(ks[0])
  }

  /** The keys occurring in `ks`. */
  ghost function Elems(ks: seq<Id>): set<Id> {
    set k | k in ks
  }

  /** A sequence of keys without repetition has as many elements as the set of its keys. */
  lemma {:induction false} DistinctCard(ks: seq<Id>)
    requires NoDups(ks)
    ensures |Elems(ks)| == |ks|
  {
    if ks != [] {
      DistinctCard(ks[1..]);
      assert Elems(ks) == Elems(ks[1..]) + {ks[0]};
    }
  }

  /** A scan returns exactly the stored rows that satisfy the filter, each once. */
  lemma ScanExact<T>(m: map<Id, T>, bound: nat, p: T -> bool, key: T -> Id)
    requires Bounded(m, bound) && Keyed(m, key)
    ensures forall x :: x in Scan(m, bound, p) ==> key(x) in m && m[key(x)] == x && p(x)
    ensures forall k :: k in m && p(m[k]) ==> m[k] in Scan(m, bound, p)
    ensures |Scan(m, bound, p)| == |MatchingKeys(m, p)|
  {
    var ks := Select(m, bound, p);
    var rows := Scan(m, bound, p);
    forall k | k in m && p(m[k]) ensures m[k] in rows {
      var i :| 0 <= i < |ks| && ks[i] == k;
      assert rows[i] == m[k];
    }
    DistinctCard(ks);
    assert Elems(ks) == MatchingKeys(m, p);
  }

  /** An ordered query returns exactly the stored rows that satisfy the filter, each once. */
  lemma QueryExact<T(!new)>(m: map<Id, T>, bound: nat, p: T -> bool, le: (T, T) -> bool, key: T -> Id)
    requires Sorting.Total(le) && Bounded(m, bound) && Keyed(m, key)
    ensures forall x :: x in Query(m, bound, p, le) ==> key(x) in m && m[key(x)] == x && p(x)
    ensures forall k :: k in m && p(m[k]) ==> m[k] in Query(m, bound, p, le)
    ensures |Query(m, bound, p, le)| == |MatchingKeys(m, p)|
  {
    ScanExact(m, bound, p, key);
    var rows := Query(m, bound, p, le);
    var scan := Scan(m, bound, p);
    forall x | x in rows ensures x in scan {
      assert x in multiset(rows);
    }
    forall x | x in scan ensures x in rows {
      assert x in multiset(scan);
    }
    assert |rows| == |multiset(rows)| == |multiset(scan)| == |scan|;
  }

  /** `deleteMany({ where })`: the table without the rows satisfying `p`. */
  function DeleteWhere<T>(m: map<Id, T>, p: T -> bool): (r: map<Id, T>)
    ensures r.Keys == m.Keys - MatchingKeys(m, p)
    ensures forall k :: k in r ==> r[k] == m[k]
  {
    map k | k in m && !p(m[k]) :: m[k]
  }

  /** The rows `deleteMany` reports as deleted and the rows it keeps add up to the old table. */
  lemma DeleteWhereCount<T>(m: map<Id, T>, p: T -> bool)
    ensures |DeleteWhere(m, p)| + |MatchingKeys(m, p)| == |m|
  {
    var kept := DeleteWhere(m, p).Keys;
    var gone := MatchingKeys(m, p);
    assert m.Keys == kept + gone && kept !! gone;
    assert |DeleteWhere(m, p)| == |kept|;
  }
}
