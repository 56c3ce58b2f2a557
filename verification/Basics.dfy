/** Shared vocabulary: hashes, options, duplicate-free sequences and sums over finite maps. */
module Basics {

  /** A 32-byte hash read as a big-endian number: numeric order is the byte order the program compares by. */
  type Hash = nat

  const TWO_32 := 0x1_0000_0000
  const TWO_64 := 0x1_0000_0000_0000_0000
  const TWO_128 := 0x1_0000_0000_0000_0000_0000_0000_0000_0000

  datatype Option<+T> = None | Some(value: T)

  function Elems<T>(s: seq<T>): set<T> {
    set x | x in s
  }

  ghost predicate NoDup<T>(s: seq<T>) {
    forall i, j :: 0 <= i < j < |s| ==> s[i] != s[j]
  }

  lemma {:induction false} NoDupCardinality<T>(s: seq<T>)
    requires NoDup(s)
    ensures |Elems(s)| == |s|
  {
    if s == [] {
      assert Elems(s) == {};
    } else {
      var front, last := s[..|s| - 1], s[|s| - 1];
      NoDupCardinality(front);
      assert Elems(s) == Elems(front) + {last};
      assert last !in front;
    }
  }

  lemma NoDupAppend<T>(s: seq<T>, x: T)
    requires NoDup(s) && x !in Elems(s)
    ensures NoDup(s + [x]) && Elems(s + [x]) == Elems(s) + {x}
  {
    assert x !in s by {
      assert x in s ==> x in Elems(s);
    }
  }

  lemma NoDupConcat<T>(a: seq<T>, b: seq<T>)
    requires Elems(a) !! Elems(b)
    ensures NoDup(a + b) <==> NoDup(a) && NoDup(b)
  {
    if NoDup(a + b) {
      forall i, j | 0 <= i < j < |a|
        ensures a[i] != a[j]
      {
        assert (a + b)[i] != (a + b)[j];
      }
      forall i, j | 0 <= i < j < |b|
        ensures b[i] != b[j]
      {
        assert (a + b)[|a| + i] != (a + b)[|a| + j];
      }
    }
    if NoDup(a) && NoDup(b) {
      forall i, j | 0 <= i < j < |a + b|
        ensures (a + b)[i] != (a + b)[j]
      {
        if i < |a| <= j {
          assert a[i] in Elems(a) && b[j - |a|] in Elems(b);
        }
      }
    }
  }

  lemma ElemsPrefix<T>(s: seq<T>, i: nat)
    requires i < |s|
    ensures Elems(s[..i + 1]) == Elems(s[..i]) + {s[i]}
  {
    assert s[..i + 1] == s[..i] + [s[i]];
  }

  lemma ElemsLast<T>(s: seq<T>)
    requires s != []
    ensures Elems(s) == Elems(s[..|s| - 1]) + {s[|s| - 1]}
  {
    assert s == s[..|s| - 1] + [s[|s| - 1]];
  }

  lemma ElemsConcat<T>(a: seq<T>, b: seq<T>)
    ensures Elems(a + b) == Elems(a) + Elems(b)
    ensures Elems(b) == {} <==> b == []
  {
    assert b != [] ==> b[0] in Elems(b);
  }

  lemma InsertAt<T>(s: seq<T>, j: nat, x: T)
    requires NoDup(s) && x !in s && j <= |s|
    ensures NoDup(s[..j] + [x] + s[j..]) && Elems(s[..j] + [x] + s[j..]) == Elems(s) + {x}
  {
    var t := s[..j] + [x] + s[j..];
    forall a, b | 0 <= a < b < |t|
      ensures t[a] != t[b]
    {
      assert forall k :: 0 <= k < |t| ==> t[k] == if k < j then s[k] else if k == j then x else s[k - 1];
    }
    forall y
      ensures y in Elems(t) <==> y in Elems(s) + {x}
    {
      if i :| 0 <= i < |s| && s[i] == y {
        assert t[if i < j then i else i + 1] == y;
      }
      assert t[j] == x;
    }
  }

  lemma MinusOneMore<K, V>(m: map<K, V>, a: set<K>, x: K)
    ensures m - a - {x} == m - (a + {x})
  {
  }

  lemma Remaining<T>(all: set<T>, pending: set<T>, d: T)
    requires d in pending
    ensures all - (pending - {d}) == if d in all then (all - pending) + {d} else all - pending
  {
  }

  lemma SubsetCardinality<T>(a: set<T>, b: set<T>)
    requires a <= b
    ensures |a| <= |b|
    ensures |a| == |b| ==> a == b
  {
    assert b == a + (b - a);
  }

  lemma Assoc<T>(a: seq<T>, b: seq<T>, c: seq<T>)
    ensures (a + b) + c == a + (b + c)
  {
  }

  // ----- sums over finite maps -----

  ghost function Pick<K, V>(m: map<K, V>): (k: K)
    requires m != map[]
    ensures k in m
  {
    assert m.Keys != {};
    var k :| k in m;
    k
  }

  ghost function Sum<K, V>(m: map<K, V>, f: V -> nat): nat
    decreases |m|
  {
    if m == map[] then 0 else var k := Pick(m); f(m[k]) + Sum(m - {k}, f)
  }

  /** The sum does not depend on the order in which the map is consumed. */
  lemma {:induction false} SumSplit<K, V>(m: map<K, V>, k: K, f: V -> nat)
    requires k in m
    ensures Sum(m, f) == f(m[k]) + Sum(m - {k}, f)
    decreases |m|
  {
    var k0 := Pick(m);
    if k != k0 {
      SumSplit(m - {k0}, k, f);
      SumSplit(m - {k}, k0, f);
      assert (m - {k0}) - {k} == (m - {k}) - {k0};
    }
  }

  lemma SumInsert<K, V>(m: map<K, V>, k: K, v: V, f: V -> nat)
    ensures Sum(m[k := v], f) == f(v) + Sum(m - {k}, f)
    ensures k !in m ==> Sum(m[k := v], f) == f(v) + Sum(m, f)
  {
    SumSplit(m[k := v], k, f);
    assert m[k := v] - {k} == m - {k};
    if k !in m {
      assert m - {k} == m;
    }
  }
}
