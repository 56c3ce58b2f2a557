/** Maps from hashes to lists of hashes, the shape of the program's claim, conflict and dependency tables. */
module ListMap {
  import opened Basics
  import opened Graphs

  type Lists = map<Hash, seq<Hash>>

  function List(m: Lists, k: Hash): seq<Hash> {
    if k in m then m[k] else []
  }

  predicate Has(m: Lists, k: Hash, x: Hash) {
    k in m && x in m[k]
  }

  function Push(m: Lists, k: Hash, x: Hash): Lists {
    m[k := List(m, k) + [x]]
  }

  lemma PushHas(m: Lists, k: Hash, x: Hash)
    ensures forall a: Hash, b: Hash :: Has(Push(m, k, x), a, b) <==> Has(m, a, b) || (a == k && b == x)
  {
    assert forall b: Hash :: b in Push(m, k, x)[k] <==> b in List(m, k) || b == x;
  }

  /** The lists as edges. */
  function AsGraph(deps: Lists): Graph {
    map t | t in deps :: Elems(deps[t])
  }

  function Retain(s: seq<Hash>, drop: set<Hash>): seq<Hash> {
    if s == [] then []
    else if s[0] in drop then Retain(s[1..], drop)
    else [s[0]] + Retain(s[1..], drop)
  }

  function RetainAll(m: Lists, drop: set<Hash>): Lists {
    map k | k in m :: Retain(m[k], drop)
  }

  lemma {:induction false} RetainMembers(s: seq<Hash>, drop: set<Hash>, x: Hash)
    ensures x in Retain(s, drop) <==> x in s && x !in drop
  {
    if s == [] {
    } else {
      RetainMembers(s[1..], drop, x);
    }
  }
}
