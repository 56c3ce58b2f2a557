/**
 The fee buckets: transactions filed by fee rate into consecutive ranges, each bucket kept in order by binary search.
 The floating-point score is an integer rank here; only its order matters.
 */
module PriorityBuckets {
  import opened Basics

  datatype PTx = PTx(hash: Hash, score: int, fee: nat)

  const MAX_FEE := TWO_64 - 1

  type Buckets = seq<seq<PTx>>

  /** The deterministic comparison: `a` ranks above `b` by a higher score, or by the smaller hash. */
  predicate RanksAbove(a: PTx, b: PTx) {
    a.score > b.score || (a.score == b.score && a.hash < b.hash)
  }

  /** A bucket lists the lower score first, and of equal scores the larger hash. */
  ghost predicate NotAfter(a: PTx, b: PTx) {
    a.score <= b.score && (a.score == b.score ==> a.hash >= b.hash)
  }

  /** Which is the reverse of the comparison. */
  ghost predicate Ordered(s: seq<PTx>) {
    forall i, j :: 0 <= i < j < |s| ==> NotAfter(s[i], s[j])
  }

  // ----- ranges -----

  function Lower(thresholds: seq<nat>, k: nat): nat
    requires k <= |thresholds|
  {
    if k == 0 then 0 else thresholds[k - 1]
  }

  function Upper(thresholds: seq<nat>, k: nat): nat
    requires k <= |thresholds|
  {
    if k < |thresholds| then thresholds[k] else MAX_FEE
  }

  predicate InRange(thresholds: seq<nat>, k: nat, fee: nat)
    requires k <= |thresholds|
  {
    Lower(thresholds, k) <= fee < Upper(thresholds, k)
  }

  lemma InRangeIff(thresholds: seq<nat>, k: nat, fee: nat)
    requires k <= |thresholds|
    ensures InRange(thresholds, k, fee) <==>
              && (k > 0 ==> thresholds[k - 1] <= fee)
              && (k < |thresholds| ==> fee < thresholds[k]) && (k == |thresholds| ==> fee < 0xFFFF_FFFF_FFFF_FFFF)
  {
  }

  /** The bucket a fee rate belongs to: the first one whose upper bound exceeds it. */
  function BucketOf(thresholds: seq<nat>, fee: nat): (k: nat)
    ensures k <= |thresholds|
  {
    if thresholds == [] || fee < thresholds[0] then 0 else 1 + BucketOf(thresholds[1..], fee)
  }

  lemma {:induction false} BucketOfFirst(thresholds: seq<nat>, fee: nat)
    ensures forall j :: 0 <= j < BucketOf(thresholds, fee) ==> thresholds[j] <= fee
    ensures BucketOf(thresholds, fee) < |thresholds| ==> fee < thresholds[BucketOf(thresholds, fee)]
  {
    if thresholds != [] && fee >= thresholds[0] {
      BucketOfFirst(thresholds[1..], fee);
      var k := BucketOf(thresholds[1..], fee);
      forall j | 0 <= j < k + 1
        ensures thresholds[j] <= fee
      {
        if j > 0 {
          assert thresholds[1..][j - 1] == thresholds[j];
        }
      }
    }
  }

  /** For any thresholds, sorted or not, the buckets cover exactly the fee rates below the largest number. */
  lemma BucketsTile(thresholds: seq<nat>, fee: nat)
    ensures fee < MAX_FEE ==> InRange(thresholds, BucketOf(thresholds, fee), fee)
    ensures forall k :: 0 <= k <= |thresholds| && InRange(thresholds, k, fee) ==> BucketOf(thresholds, fee) <= k
  {
    BucketOfFirst(thresholds, fee);
  }

  /** A higher fee never lands in a lower bucket. */
  lemma {:induction false} BucketsMonotone(thresholds: seq<nat>, low: nat, high: nat)
    requires low <= high
    ensures BucketOf(thresholds, low) <= BucketOf(thresholds, high)
  {
    if thresholds != [] && thresholds[0] <= low {
      BucketsMonotone(thresholds[1..], low, high);
    }
  }

  // ----- the buckets -----

  /** All transactions, the highest bucket first. */
  function Listing(buckets: Buckets): seq<PTx> {
    if buckets == [] then [] else buckets[|buckets| - 1] + Listing(buckets[..|buckets| - 1])
  }

  lemma ListingStep(buckets: Buckets, k: nat)
    requires k < |buckets|
    ensures Listing(buckets[..k + 1]) == buckets[k] + Listing(buckets[..k])
  {
    assert buckets[..k + 1][..k] == buckets[..k];
  }

  lemma {:induction false} ListingMembers(buckets: Buckets, tx: PTx)
    ensures tx in Listing(buckets) <==> InBuckets(buckets, tx)
  {
    if buckets == [] {
    } else {
      ListingMembers(buckets[..|buckets| - 1], tx);
      InFrontOrLast(buckets, tx);
    }
  }

  lemma InFrontOrLast(buckets: Buckets, tx: PTx)
    requires buckets != []
    ensures InBuckets(buckets, tx) <==> tx in buckets[|buckets| - 1] || InBuckets(buckets[..|buckets| - 1], tx)
  {
    var front := buckets[..|buckets| - 1];
    if InBuckets(buckets, tx) {
      var k :| 0 <= k < |buckets| && tx in buckets[k];
      assert k < |front| ==> tx in front[k];
    }
    if InBuckets(front, tx) {
      var k :| 0 <= k < |front| && tx in front[k];
      assert tx in buckets[k];
    }
  }

  /** Taking from the next bucket either uses it up or stops inside it. */
  lemma ListingTaken(all: seq<PTx>, done: seq<PTx>, bucket: seq<PTx>, rest: seq<PTx>, result: seq<PTx>)
    requires all == done + (bucket + rest)
    ensures result == done + bucket ==> all == result + rest
    ensures |done| <= |result| <= |done| + |bucket| && result == done + bucket[..|result| - |done|] ==> result <= all
  {
  }

  ghost predicate Filed(thresholds: seq<nat>, buckets: Buckets) {
    && |buckets| == |thresholds| + 1
    && forall k :: 0 <= k < |buckets| ==> BucketRight(thresholds, buckets, k)
  }

  ghost predicate BucketRight(thresholds: seq<nat>, buckets: Buckets, k: nat)
    requires k < |buckets|
  {
    Ordered(buckets[k]) && forall tx :: tx in buckets[k] ==> BucketOf(thresholds, tx.fee) == k && tx.fee < MAX_FEE
  }

  ghost predicate UniqueHashes(s: seq<PTx>) {
    forall i, j :: 0 <= i < j < |s| ==> s[i].hash != s[j].hash
  }

  ghost predicate HasHash(s: seq<PTx>, h: Hash) {
    exists tx :: tx in s && tx.hash == h
  }

  /** Every live hash stands once, and the index knows its bucket. */
  ghost predicate Distinct(buckets: Buckets, index: map<Hash, nat>) {
    && (forall k :: 0 <= k < |buckets| ==> UniqueHashes(buckets[k]))
    && (forall k, tx :: 0 <= k < |buckets| && tx in buckets[k] ==> tx.hash in index && index[tx.hash] == k)
    && (forall h :: h in index ==> index[h] < |buckets| && HasHash(buckets[index[h]], h))
  }

  ghost predicate InBuckets(buckets: Buckets, tx: PTx) {
    exists k :: 0 <= k < |buckets| && tx in buckets[k]
  }

  ghost predicate Bounded(thresholds: seq<nat>) {
    forall k :: 0 <= k < |thresholds| ==> thresholds[k] <= MAX_FEE
  }

  class PriorityBuckets {
    const thresholds: seq<nat>
    const deterministic: bool
    var buckets: Buckets
    /** The bucket of each hash. The program also stores a position there, which nothing reads. */
    var hashIndex: map<Hash, nat>

    ghost predicate Valid()
      reads this
    {
      Bounded(thresholds) && Filed(thresholds, buckets) && forall h :: h in hashIndex ==> hashIndex[h] < |buckets|
    }

    constructor (thresholds: seq<nat>, deterministic: bool)
      requires Bounded(thresholds)
      ensures Valid() && Distinct(buckets, hashIndex) && Listing(buckets) == []
      ensures this.thresholds == thresholds && this.deterministic == deterministic
    {
      this.thresholds, this.deterministic := thresholds, deterministic;
      var empty: Buckets := [];
      var i := 0;
      while i < |thresholds| + 1
        invariant 0 <= i <= |thresholds| + 1 && |empty| == i && forall k :: 0 <= k < i ==> empty[k] == []
        invariant Listing(empty) == []
      {
        assert (empty + [[]])[..|empty|] == empty;
        empty := empty + [[]];
        i := i + 1;
      }
      buckets, hashIndex := empty, map[];
    }

    method Insert(tx: PTx) returns (ok: bool)
      requires Valid()
      modifies this
      ensures Valid()
      ensures ok <==> deterministic && tx.fee < 0xFFFF_FFFF_FFFF_FFFF
      ensures !ok ==> unchanged(this)
      ensures ok ==>
                var k := BucketOf(thresholds, tx.fee);
                && hashIndex == old(hashIndex)[tx.hash := k]
                && buckets == old(buckets)[k := buckets[k]] && InsertedInto(old(buckets)[k], tx, buckets[k])
      ensures ok ==> forall x :: InBuckets(buckets, x) <==> InBuckets(old(buckets), x) || x == tx
      ensures ok && old(Distinct(buckets, hashIndex)) && tx.hash !in old(hashIndex) ==> Distinct(buckets, hashIndex)
    {
      if !deterministic {
        return false;
      }
      BucketsTile(thresholds, tx.fee);
      var k := 0;
      while k < |buckets| && !InRange(thresholds, k, tx.fee)
        invariant 0 <= k <= |buckets| && forall j :: 0 <= j < k ==> !InRange(thresholds, j, tx.fee)
      {
        k := k + 1;
      }
      if k == |buckets| {
        return false;
      }
      assert tx.fee < MAX_FEE by {
        BucketOfFirst(thresholds, tx.fee);
        InRangeBelowMax(thresholds, k, tx.fee);
      }
      assert BucketRight(thresholds, buckets, k);
      var s := InsertIntoBucket(buckets[k], tx);
      BucketUpdated(thresholds, buckets, hashIndex, k, tx, s);
      LiveAfter(buckets, k, tx, s);
      buckets := buckets[k := s];
      hashIndex := hashIndex[tx.hash := k];
      return true;
    }

    method Remove(h: Hash) returns (removed: Option<PTx>)
      requires Valid()
      modifies this
      ensures Valid() && hashIndex == old(hashIndex) - {h}
      ensures removed.Some? ==>
                && removed.value.hash == h && h in old(hashIndex)
                && var k := old(hashIndex)[h];
                   buckets == old(buckets)[k := buckets[k]] && RemovedFrom(old(buckets)[k], removed.value, buckets[k])
      ensures removed.None? ==> buckets == old(buckets)
      ensures old(Distinct(buckets, hashIndex)) ==> Distinct(buckets, hashIndex) && (removed.Some? <==> h in old(hashIndex))
      ensures old(Distinct(buckets, hashIndex)) ==>
                forall x :: InBuckets(buckets, x) <==> InBuckets(old(buckets), x) && x.hash != h
    {
      removed := None;
      if h in hashIndex {
        var k := hashIndex[h];
        hashIndex := hashIndex - {h};
        assert BucketRight(thresholds, buckets, k);
        var s;
        removed, s := RemoveFromBucket(buckets[k], h);
        if removed.Some? {
          BucketReduced(thresholds, buckets, old(hashIndex), k, removed.value, s);
          LiveAfter(buckets[k := s], k, removed.value, buckets[k]);
          assert buckets[k := s][k := buckets[k]] == buckets;
          buckets := buckets[k := s];
        } else {
          assert !HasHash(buckets[k], h);
          assert !old(Distinct(buckets, hashIndex));
        }
      }
      if old(Distinct(buckets, hashIndex)) {
        OnlyTheHash(old(buckets), old(hashIndex), buckets, hashIndex, removed, h);
      }
    }

    /** A limit of zero still yields one transaction. */
    method GetOrderedTransactions(limit: nat) returns (result: seq<PTx>)
      ensures var all := Listing(buckets); var n := if limit == 0 then 1 else limit;
              result == if n <= |all| then all[..n] else all
    {
      result := [];
      var k := |buckets|;
      assert buckets[..k] == buckets;
      while k > 0
        invariant 0 <= k <= |buckets| && Listing(buckets) == result + Listing(buckets[..k])
        invariant result == [] || |result| < limit
      {
        k := k - 1;
        ghost var done := result;
        ListingStep(buckets, k);
        var full;
        result, full := TakeFrom(buckets[k], result, limit);
        ListingTaken(Listing(buckets), done, buckets[k], Listing(buckets[..k]), result);
        if full {
          return;
        }
      }
    }

    static method TakeFrom(bucket: seq<PTx>, taken: seq<PTx>, limit: nat) returns (result: seq<PTx>, full: bool)
      requires taken == [] || |taken| < limit
      ensures full ==> |taken| <= |result| <= |taken| + |bucket| && result == taken + bucket[..|result| - |taken|]
      ensures full ==> |result| == if limit == 0 then 1 else limit
      ensures !full ==> result == taken + bucket && (result == [] || |result| < limit)
    {
      result := taken;
      var i := 0;
      while i < |bucket|
        invariant 0 <= i <= |bucket| && result == taken + bucket[..i]
        invariant result == [] || |result| < limit
      {
        result := result + [bucket[i]];
        i := i + 1;
        if |result| >= limit {
          return result, true;
        }
      }
      full := false;
    }

    /**
     The program's own consistency check. It compares neighbours, but refuses them whatever the comparison says, so
     it accepts only buckets without neighbours.
     */
    method VerifyConsistency() returns (ok: bool)
      requires Valid()
      ensures ok ==> forall k :: 0 <= k < |buckets| ==> |buckets[k]| <= 1
      ensures Distinct(buckets, hashIndex) ==> (ok <==> forall k :: 0 <= k < |buckets| ==> |buckets[k]| <= 1)
    {
      var k := 0;
      while k < |buckets|
        invariant 0 <= k <= |buckets| && forall j :: 0 <= j < k ==> |buckets[j]| <= 1
      {
        var i := 0;
        assert BucketRight(thresholds, buckets, k);
        while i < |buckets[k]|
          invariant 0 <= i <= |buckets[k]|
        {
          var tx := buckets[k][i];
          assert tx in buckets[k];
          BucketsTile(thresholds, tx.fee);
          if !InRange(thresholds, k, tx.fee) {
            return false;
          }
          if tx.hash in hashIndex && hashIndex[tx.hash] != k {
            return false;
          }
          i := i + 1;
        }
        if |buckets[k]| > 1 {
          return false;
        }
        k := k + 1;
      }
      return true;
    }
  }

  // ----- one bucket -----

  ghost predicate InsertedInto(s: seq<PTx>, tx: PTx, r: seq<PTx>) {
    exists pos :: 0 <= pos <= |s| && InsertedAt(s, tx, r, pos)
  }

  ghost predicate InsertedAt(s: seq<PTx>, tx: PTx, r: seq<PTx>, pos: nat)
    requires pos <= |s|
  {
    r == s[..pos] + [tx] + s[pos..]
  }

  ghost predicate RemovedFrom(s: seq<PTx>, tx: PTx, r: seq<PTx>) {
    InsertedInto(r, tx, s)
  }

  method InsertIntoBucket(s: seq<PTx>, tx: PTx) returns (r: seq<PTx>)
    requires Ordered(s)
    ensures Ordered(r) && InsertedInto(s, tx, r)
  {
    var low, high := 0, |s|;
    while low < high
      invariant 0 <= low <= high <= |s|
      invariant forall i :: 0 <= i < low ==> RanksAbove(tx, s[i])
      invariant forall i :: high <= i < |s| ==> RanksAbove(s[i], tx)
    {
      var mid := (low + high) / 2;
      if RanksAbove(tx, s[mid]) {
        forall i | 0 <= i <= mid
          ensures RanksAbove(tx, s[i])
        {
          assert i < mid ==> NotAfter(s[i], s[mid]);
        }
        low := mid + 1;
      } else if RanksAbove(s[mid], tx) {
        forall i | mid <= i < |s|
          ensures RanksAbove(s[i], tx)
        {
          assert i > mid ==> NotAfter(s[mid], s[i]);
        }
        high := mid;
      } else {
        InsertOrdered(s, tx, mid);
        r := s[..mid] + [tx] + s[mid..];
        assert InsertedAt(s, tx, r, mid);
        return;
      }
    }
    InsertOrdered(s, tx, low);
    r := s[..low] + [tx] + s[low..];
    assert InsertedAt(s, tx, r, low);
  }

  lemma InsertOrdered(s: seq<PTx>, tx: PTx, pos: nat)
    requires Ordered(s) && pos <= |s|
    requires pos == |s| || !RanksAbove(tx, s[pos])
    requires pos == 0 || RanksAbove(tx, s[pos - 1]) || (pos < |s| && !RanksAbove(s[pos], tx) && !RanksAbove(tx, s[pos]))
    ensures Ordered(s[..pos] + [tx] + s[pos..])
  {
    var r := s[..pos] + [tx] + s[pos..];
    assert forall k :: 0 <= k < |r| ==> r[k] == if k < pos then s[k] else if k == pos then tx else s[k - 1];
    forall i | 0 <= i < pos
      ensures NotAfter(s[i], tx)
    {
      assert i < pos - 1 ==> NotAfter(s[i], s[pos - 1]);
      assert pos < |s| ==> NotAfter(s[i], s[pos]);
    }
    forall i | pos <= i < |s|
      ensures NotAfter(tx, s[i])
    {
      assert i > pos ==> NotAfter(s[pos], s[i]);
    }
  }

  method RemoveFromBucket(s: seq<PTx>, h: Hash) returns (removed: Option<PTx>, r: seq<PTx>)
    ensures removed.None? <==> !HasHash(s, h)
    ensures removed.Some? ==> removed.value.hash == h && RemovedFrom(s, removed.value, r)
    ensures removed.Some? && Ordered(s) ==> Ordered(r)
  {
    var i := 0;
    while i < |s| && s[i].hash != h
      invariant 0 <= i <= |s| && forall j :: 0 <= j < i ==> s[j].hash != h
    {
      i := i + 1;
    }
    if i == |s| {
      return None, s;
    }
    removed := Some(s[i]);
    r := s[..i] + s[i + 1..];
    TakenOut(s, i, r);
    assert InsertedAt(r, s[i], s, i);
  }

  lemma TakenOut(s: seq<PTx>, i: nat, r: seq<PTx>)
    requires i < |s| && r == s[..i] + s[i + 1..]
    ensures s == r[..i] + [s[i]] + r[i..]
    ensures Ordered(s) ==> Ordered(r)
  {
    assert forall k :: 0 <= k < |r| ==> r[k] == if k < i then s[k] else s[k + 1];
  }

  // ----- keeping the invariants -----

  lemma InRangeBelowMax(thresholds: seq<nat>, k: nat, fee: nat)
    requires Bounded(thresholds) && k <= |thresholds| && InRange(thresholds, k, fee)
    ensures fee < MAX_FEE
  {
  }

  lemma InsertedMembers(s: seq<PTx>, tx: PTx, r: seq<PTx>)
    requires InsertedInto(s, tx, r)
    ensures forall x :: x in r <==> x in s || x == tx
  {
    var pos :| 0 <= pos <= |s| && InsertedAt(s, tx, r, pos);
    assert s == s[..pos] + s[pos..];
  }

  lemma InsertedUnique(s: seq<PTx>, tx: PTx, r: seq<PTx>)
    requires InsertedInto(s, tx, r)
    ensures UniqueHashes(r) <==> UniqueHashes(s) && !HasHash(s, tx.hash)
  {
    var pos :| 0 <= pos <= |s| && InsertedAt(s, tx, r, pos);
    assert forall i :: 0 <= i < |r| ==> r[i] == if i < pos then s[i] else if i == pos then tx else s[i - 1];
    if UniqueHashes(r) {
      UniqueWithout(s, tx, r, pos);
    } else {
      var i, j :| 0 <= i < j < |r| && r[i].hash == r[j].hash;
      if i == pos {
        assert s[j - 1] in s;
      } else if j == pos {
        assert s[i] in s;
      } else {
        assert s[if i < pos then i else i - 1].hash == s[if j < pos then j else j - 1].hash;
      }
    }
  }

  lemma UniqueWithout(s: seq<PTx>, tx: PTx, r: seq<PTx>, pos: nat)
    requires pos <= |s| && InsertedAt(s, tx, r, pos) && UniqueHashes(r)
    ensures UniqueHashes(s) && !HasHash(s, tx.hash)
  {
    assert forall i :: 0 <= i < |r| ==> r[i] == if i < pos then s[i] else if i == pos then tx else s[i - 1];
    forall i, j | 0 <= i < j < |s|
      ensures s[i].hash != s[j].hash
    {
      assert r[if i < pos then i else i + 1].hash != r[if j < pos then j else j + 1].hash;
    }
    forall x | x in s
      ensures x.hash != tx.hash
    {
      var i :| 0 <= i < |s| && s[i] == x;
      assert r[if i < pos then i else i + 1] == x && r[pos] == tx;
    }
  }

  lemma HasHashAfter(s: seq<PTx>, tx: PTx, r: seq<PTx>, h: Hash)
    requires InsertedInto(s, tx, r)
    ensures HasHash(r, h) <==> HasHash(s, h) || h == tx.hash
  {
    InsertedMembers(s, tx, r);
    if HasHash(s, h) {
      var x :| x in s && x.hash == h;
      assert x in r;
    }
    assert tx in r;
  }

  lemma BucketUpdated(thresholds: seq<nat>, buckets: Buckets, index: map<Hash, nat>, k: nat, tx: PTx, s: seq<PTx>)
    requires Filed(thresholds, buckets) && k < |buckets| && k == BucketOf(thresholds, tx.fee) && tx.fee < MAX_FEE
    requires Ordered(s) && InsertedInto(buckets[k], tx, s)
    ensures Filed(thresholds, buckets[k := s])
    ensures Distinct(buckets, index) && tx.hash !in index ==> Distinct(buckets[k := s], index[tx.hash := k])
  {
    InsertedMembers(buckets[k], tx, s);
    InsertedUnique(buckets[k], tx, s);
    FiledUpdate(thresholds, buckets, k, s);
    if Distinct(buckets, index) && tx.hash !in index {
      assert !HasHash(buckets[k], tx.hash);
      forall h: Hash | h in index.Keys + {tx.hash}
        ensures HasHash(buckets[k := s][index[tx.hash := k][h]], h)
      {
        HasHashAfter(buckets[k], tx, s, h);
      }
    }
  }

  lemma FiledUpdate(thresholds: seq<nat>, buckets: Buckets, k: nat, s: seq<PTx>)
    requires Filed(thresholds, buckets) && k < |buckets| && Ordered(s)
    requires forall tx :: tx in s ==> tx in buckets[k] || (BucketOf(thresholds, tx.fee) == k && tx.fee < MAX_FEE)
    ensures Filed(thresholds, buckets[k := s])
  {
    assert BucketRight(thresholds, buckets, k);
    var more := buckets[k := s];
    forall j | 0 <= j < |more|
      ensures BucketRight(thresholds, more, j)
    {
      assert BucketRight(thresholds, buckets, j);
    }
  }

  lemma BucketReduced(thresholds: seq<nat>, buckets: Buckets, index: map<Hash, nat>, k: nat, tx: PTx, s: seq<PTx>)
    requires Filed(thresholds, buckets) && k < |buckets| && Ordered(s) && RemovedFrom(buckets[k], tx, s)
    ensures Filed(thresholds, buckets[k := s])
    ensures Distinct(buckets, index) && tx.hash in index && index[tx.hash] == k ==> Distinct(buckets[k := s], index - {tx.hash})
  {
    InsertedMembers(s, tx, buckets[k]);
    InsertedUnique(s, tx, buckets[k]);
    FiledUpdate(thresholds, buckets, k, s);
    if Distinct(buckets, index) && tx.hash in index && index[tx.hash] == k {
      assert UniqueHashes(buckets[k]) && !HasHash(s, tx.hash);
      forall h | h in index - {tx.hash}
        ensures HasHash(buckets[k := s][index[h]], h)
      {
        HasHashAfter(s, tx, buckets[k], h);
      }
    }
  }

  /** Updating one bucket adds exactly one live transaction. */
  lemma LiveAfter(buckets: Buckets, k: nat, tx: PTx, s: seq<PTx>)
    requires k < |buckets| && InsertedInto(buckets[k], tx, s)
    ensures forall x :: InBuckets(buckets[k := s], x) <==> InBuckets(buckets, x) || x == tx
  {
    var more := buckets[k := s];
    InsertedMembers(buckets[k], tx, s);
    forall x
      ensures InBuckets(more, x) <==> InBuckets(buckets, x) || x == tx
    {
      if j :| 0 <= j < |buckets| && x in buckets[j] {
        assert x in more[j];
      }
      assert x == tx ==> x in more[k];
    }
  }

  lemma OnlyTheHash(buckets: Buckets, index: map<Hash, nat>, buckets1: Buckets, index1: map<Hash, nat>, removed: Option<PTx>, h: Hash)
    requires Distinct(buckets, index) && Distinct(buckets1, index1) && index1 == index - {h}
    requires removed.Some? <==> h in index
    requires removed.None? ==> buckets1 == buckets
    requires removed.Some? ==>
               removed.value.hash == h && forall x :: InBuckets(buckets, x) <==> InBuckets(buckets1, x) || x == removed.value
    ensures forall x :: InBuckets(buckets1, x) <==> InBuckets(buckets, x) && x.hash != h
  {
    forall x | InBuckets(buckets1, x)
      ensures x.hash in index1
    {
      var k :| 0 <= k < |buckets1| && x in buckets1[k];
    }
    forall x | InBuckets(buckets, x)
      ensures x.hash in index
    {
      var k :| 0 <= k < |buckets| && x in buckets[k];
    }
  }

  // ----- theorems -----

  /**
   With distinct hashes the buckets, and so every listing, are determined by the thresholds and the set of live
   transactions: the order of insertions and removals leaves no trace.
   */
  lemma OrderIndependence(thresholds: seq<nat>, buckets1: Buckets, index1: map<Hash, nat>, buckets2: Buckets, index2: map<Hash, nat>)
    requires Filed(thresholds, buckets1) && Filed(thresholds, buckets2)
    requires Distinct(buckets1, index1) && Distinct(buckets2, index2)
    requires forall tx :: InBuckets(buckets1, tx) <==> InBuckets(buckets2, tx)
    ensures buckets1 == buckets2 && Listing(buckets1) == Listing(buckets2)
  {
    forall k | 0 <= k < |buckets1|
      ensures buckets1[k] == buckets2[k]
    {
      forall tx
        ensures tx in buckets1[k] <==> tx in buckets2[k]
      {
        InItsBucket(thresholds, buckets1, k, tx);
        InItsBucket(thresholds, buckets2, k, tx);
      }
      assert BucketRight(thresholds, buckets1, k) && BucketRight(thresholds, buckets2, k);
      SameSorted(buckets1[k], buckets2[k]);
    }
  }

  lemma InItsBucket(thresholds: seq<nat>, buckets: Buckets, k: nat, tx: PTx)
    requires Filed(thresholds, buckets) && k < |buckets|
    ensures tx in buckets[k] <==> InBuckets(buckets, tx) && BucketOf(thresholds, tx.fee) == k
  {
    assert BucketRight(thresholds, buckets, k);
    if InBuckets(buckets, tx) {
      var j :| 0 <= j < |buckets| && tx in buckets[j];
      assert BucketRight(thresholds, buckets, j);
    }
  }

  lemma {:induction false} SameSorted(s: seq<PTx>, t: seq<PTx>)
    requires Ordered(s) && Ordered(t) && UniqueHashes(s) && UniqueHashes(t)
    requires forall tx :: tx in s <==> tx in t
    ensures s == t
  {
    BothEmpty(s, t);
    if s == [] {
    } else {
      var n, m := |s| - 1, |t| - 1;
      SameLast(s, t);
      forall tx
        ensures tx in s[..n] <==> tx in t[..m]
      {
        FrontMembers(s, tx);
        FrontMembers(t, tx);
      }
      SameSorted(s[..n], t[..m]);
      assert s == s[..n] + [s[n]] && t == t[..m] + [t[m]];
    }
  }

  lemma BothEmpty(s: seq<PTx>, t: seq<PTx>)
    requires forall tx :: tx in s <==> tx in t
    ensures s == [] <==> t == []
  {
    if s != [] {
      assert s[0] in s;
    }
    if t != [] {
      assert t[0] in t;
    }
  }

  lemma FrontMembers(s: seq<PTx>, tx: PTx)
    requires UniqueHashes(s) && s != []
    ensures tx in s[..|s| - 1] <==> tx in s && tx != s[|s| - 1]
  {
    assert s == s[..|s| - 1] + [s[|s| - 1]];
  }

  lemma SameLast(s: seq<PTx>, t: seq<PTx>)
    requires Ordered(s) && Ordered(t) && UniqueHashes(s) && UniqueHashes(t) && s != [] && t != []
    requires forall tx :: tx in s <==> tx in t
    ensures s[|s| - 1] == t[|t| - 1]
  {
    var a, b := s[|s| - 1], t[|t| - 1];
    assert a in t && b in s;
    var i :| 0 <= i < |t| && t[i] == a;
    var j :| 0 <= j < |s| && s[j] == b;
    assert i < |t| - 1 ==> NotAfter(a, b);
    assert j < |s| - 1 ==> NotAfter(b, a);
    assert a.hash == b.hash;
  }

  /**
   What the listing order is: higher buckets first, but inside a bucket the lower scores come first, and of equal scores
   the larger hash.
   */
  lemma {:induction false} ListingOrder(thresholds: seq<nat>, buckets: Buckets, n: nat, i: nat, j: nat)
    requires Filed(thresholds, buckets) && n <= |buckets| && i < j < |Listing(buckets[..n])|
    ensures var a, b := Listing(buckets[..n])[i], Listing(buckets[..n])[j];
            || BucketOf(thresholds, a.fee) > BucketOf(thresholds, b.fee)
            || (BucketOf(thresholds, a.fee) == BucketOf(thresholds, b.fee)
                && (a.score < b.score || (a.score == b.score && a.hash >= b.hash)))
  {
    var top := buckets[n - 1];
    assert buckets[..n][..n - 1] == buckets[..n - 1];
    var rest := Listing(buckets[..n - 1]);
    assert BucketRight(thresholds, buckets, n - 1);
    if i >= |top| {
      ListingOrder(thresholds, buckets, n - 1, i - |top|, j - |top|);
    } else if j >= |top| {
      assert top[i] in top;
      ListedBelow(thresholds, buckets, n - 1, j - |top|);
    } else {
      assert top[i] in top && top[j] in top;
    }
  }

  lemma {:induction false} ListedBelow(thresholds: seq<nat>, buckets: Buckets, n: nat, j: nat)
    requires Filed(thresholds, buckets) && n <= |buckets| && j < |Listing(buckets[..n])|
    ensures BucketOf(thresholds, Listing(buckets[..n])[j].fee) < n
  {
    var top := buckets[n - 1];
    assert buckets[..n][..n - 1] == buckets[..n - 1];
    assert BucketRight(thresholds, buckets, n - 1);
    if j >= |top| {
      ListedBelow(thresholds, buckets, n - 1, j - |top|);
    } else {
      assert top[j] in top;
    }
  }
}
