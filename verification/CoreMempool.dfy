/**
 The core mempool: stored transactions, the priority index beside them, and the byte counter. The ordered set of keys
 is a strictly increasing sequence here; its last key has the lowest priority.
 */
module CoreMempool {
  import opened Basics

  datatype Pending = Pending(insertedAt: nat, size: nat, fee: nat)

  datatype PriorityKey = PriorityKey(fee: nat, insertedAt: nat, id: Hash)

  datatype Insertion = Inserted | Rejected | DuplicateTransaction | PoolFull

  type Store = map<Hash, Pending>

  /** Higher fee first, then older, then smaller id. */
  predicate Above(a: PriorityKey, b: PriorityKey) {
    || a.fee > b.fee
    || (a.fee == b.fee && (a.insertedAt < b.insertedAt || (a.insertedAt == b.insertedAt && a.id < b.id)))
  }

  function KeyOf(id: Hash, p: Pending): PriorityKey {
    PriorityKey(p.fee, p.insertedAt, id)
  }

  function Keys(s: Store): set<PriorityKey> {
    set id | id in s :: KeyOf(id, s[id])
  }

  function SizeOf(p: Pending): nat {
    p.size
  }

  ghost function Bytes(s: Store): nat {
    Sum(s, SizeOf)
  }

  function SaturatingSub(a: nat, b: nat): nat {
    if b <= a then a - b else 0
  }

  function Max1(n: nat): nat {
    if n == 0 then 1 else n
  }

  ghost predicate Sorted(index: seq<PriorityKey>) {
    forall i, j :: 0 <= i < j < |index| ==> Above(index[i], index[j])
  }

  /**
   The keys are totally ordered: the order decides between any two different ones, one way only, and a key that stands
   higher never has the smaller fee, for an equal fee the later insertion, and for both equal the larger id.
   */
  lemma AboveTotal(a: PriorityKey, b: PriorityKey, c: PriorityKey)
    ensures !(Above(a, b) && Above(b, a)) && (a != b ==> Above(a, b) || Above(b, a))
    ensures Above(a, b) && Above(b, c) ==> Above(a, c)
    ensures Above(a, b) ==> a.fee >= b.fee && (a.fee == b.fee ==> a.insertedAt <= b.insertedAt)
    ensures Above(a, b) && a.fee == b.fee && a.insertedAt == b.insertedAt ==> a.id < b.id
  {
  }

  /** Nobody pays less; of those that pay as little nobody came later; of those nobody has a larger id. */
  ghost predicate IsLowest(s: Store, id: Hash) {
    id in s && forall other :: other in s ==>
      && s[id].fee <= s[other].fee
      && (s[other].fee == s[id].fee ==> s[other].insertedAt <= s[id].insertedAt)
      && (s[other].fee == s[id].fee && s[other].insertedAt == s[id].insertedAt ==> other <= id)
  }

  class Mempool {
    const maxBytes: nat
    const maxTransactions: nat
    const ttl: nat
    var transactions: Store
    var priorityIndex: seq<PriorityKey>
    var totalBytes: nat

    ghost predicate Valid()
      reads this
    {
      && Sorted(priorityIndex) && Elems(priorityIndex) == Keys(transactions)
      && totalBytes == Bytes(transactions)
      && |transactions| <= Max1(maxTransactions)
    }

    constructor (maxBytes: nat, maxTransactions: nat, ttl: nat)
      ensures Valid() && transactions == map[]
    {
      this.maxBytes, this.maxTransactions, this.ttl := maxBytes, maxTransactions, ttl;
      transactions, priorityIndex, totalBytes := map[], [], 0;
    }

    predicate OverLimit(size: nat)
      reads this
    {
      totalBytes + size > maxBytes || |transactions| + 1 > maxTransactions
    }

    predicate ShouldAccept(fee: nat)
      reads this
    {
      || (|transactions| < maxTransactions && totalBytes < maxBytes)
      || priorityIndex == []
      || fee > priorityIndex[|priorityIndex| - 1].fee
    }

    /**
     `valid` is the verdict of the validation, `now` the clock. One transaction makes room at most: the lowest-priority
     one, when there is any.
     */
    method InsertTransaction(id: Hash, size: nat, fee: nat, valid: bool, now: nat) returns (r: Insertion, ghost evicted: Option<Hash>)
      requires Valid()
      modifies this
      ensures Valid()
      ensures r == Rejected <==> !valid
      ensures r == DuplicateTransaction <==> valid && id in old(transactions)
      ensures r == PoolFull <==>
                && valid && id !in old(transactions)
                && (old(totalBytes) + size > maxBytes || |old(transactions)| + 1 > maxTransactions)
                && (old(totalBytes) >= maxBytes || |old(transactions)| >= maxTransactions)
                && old(transactions) != map[]
                && (forall other :: other in old(transactions) ==> fee <= old(transactions)[other].fee)
      ensures r != Inserted ==> unchanged(this)
      ensures r == Inserted ==> transactions == Without(old(transactions), evicted)[id := Pending(now, size, fee)]
      ensures r == Inserted ==> (evicted.Some? <==>
                && (old(totalBytes) + size > maxBytes || |old(transactions)| + 1 > maxTransactions)
                && old(transactions) != map[])
      ensures r == Inserted && evicted.Some? ==> IsLowest(old(transactions), evicted.value)
      ensures r == Inserted ==>
                totalBytes + (if evicted.Some? then old(transactions)[evicted.value].size else 0) == old(totalBytes) + size
    {
      evicted := None;
      if !valid {
        return Rejected, None;
      }
      if id in transactions {
        return DuplicateTransaction, None;
      }
      EmptyIndex(transactions, priorityIndex);
      if OverLimit(size) {
        if transactions != map[] {
          LastIsLowest(transactions, priorityIndex);
        }
        if !ShouldAccept(fee) {
          return PoolFull, None;
        }
        evicted := EvictLowestPriority();
      }
      Add(id, Pending(now, size, fee));
      r := Inserted;
    }

    method Add(id: Hash, p: Pending)
      requires id !in transactions && Sorted(priorityIndex) && Elems(priorityIndex) == Keys(transactions)
      requires totalBytes == Bytes(transactions) && |transactions| + 1 <= Max1(maxTransactions)
      modifies this
      ensures Valid() && transactions == old(transactions)[id := p] && totalBytes == old(totalBytes) + p.size
    {
      SumInsert(transactions, id, p, SizeOf);
      totalBytes := totalBytes + p.size;
      KeysAdd(transactions, id, p);
      var key := KeyOf(id, p);
      var j := 0;
      while j < |priorityIndex| && Above(priorityIndex[j], key)
        invariant 0 <= j <= |priorityIndex| && forall k :: 0 <= k < j ==> Above(priorityIndex[k], key)
      {
        j := j + 1;
      }
      InsertSorted(priorityIndex, key, j);
      priorityIndex := priorityIndex[..j] + [key] + priorityIndex[j..];
      transactions := transactions[id := p];
    }

    method EvictLowestPriority() returns (ghost evicted: Option<Hash>)
      requires Valid()
      modifies this
      ensures Valid() && transactions == Without(old(transactions), evicted)
      ensures evicted.Some? <==> old(transactions) != map[]
      ensures evicted.Some? ==> IsLowest(old(transactions), evicted.value) && |transactions| == |old(transactions)| - 1
      ensures evicted.Some? ==> totalBytes + old(transactions)[evicted.value].size == old(totalBytes)
      ensures evicted.None? ==> totalBytes == old(totalBytes)
    {
      EmptyIndex(transactions, priorityIndex);
      if priorityIndex == [] {
        return None;
      }
      var lowest := priorityIndex[|priorityIndex| - 1];
      LastIsLowest(transactions, priorityIndex);
      var _ := RemoveOne(lowest.id);
      return Some(lowest.id);
    }

    /** Takes one transaction out of the store, the counter and the index; the subtraction never saturates. */
    method RemoveOne(id: Hash) returns (found: bool)
      requires Valid()
      modifies this
      ensures Valid() && transactions == old(transactions) - {id} && (found <==> id in old(transactions))
      ensures found ==> totalBytes + old(transactions)[id].size == old(totalBytes)
    {
      found := id in transactions;
      if found {
        var p := transactions[id];
        SumSplit(transactions, id, SizeOf);
        KeysRemove(transactions, id);
        totalBytes := SaturatingSub(totalBytes, p.size);
        priorityIndex := DropKey(priorityIndex, KeyOf(id, p));
        transactions := transactions - {id};
      }
    }

    method RemoveTransactions(ids: seq<Hash>) returns (removed: nat)
      requires Valid()
      modifies this
      ensures Valid() && transactions == old(transactions) - Elems(ids)
      ensures removed == |old(transactions).Keys * Elems(ids)|
    {
      removed := 0;
      var i := 0;
      while i < |ids|
        invariant 0 <= i <= |ids| && Valid() && transactions == old(transactions) - Elems(ids[..i])
        invariant removed == |old(transactions).Keys * Elems(ids[..i])|
      {
        ElemsPrefix(ids, i);
        RemovedCount(old(transactions).Keys, Elems(ids[..i]), ids[i]);
        MinusOneMore(old(transactions), Elems(ids[..i]), ids[i]);
        var found := RemoveOne(ids[i]);
        if found {
          removed := removed + 1;
        }
        i := i + 1;
      }
      assert ids[..i] == ids;
    }

    method ExpireOldTransactions(now: nat) returns (expired: nat)
      requires Valid()
      modifies this
      ensures Valid() && expired == |old(transactions)| - |transactions|
      ensures forall id :: id in transactions <==> id in old(transactions) && now < old(transactions)[id].insertedAt + ttl
      ensures forall id :: id in transactions ==> transactions[id] == old(transactions)[id]
    {
      var ids: seq<Hash> := [];
      var pending := Expired(transactions, ttl, now);
      ghost var all := pending;
      while pending != {}
        invariant pending <= all && NoDup(ids) && Elems(ids) == all - pending
        modifies {}
        decreases pending
      {
        var id :| id in pending;
        NoDupAppend(ids, id);
        ids := ids + [id];
        pending := pending - {id};
      }
      NoDupCardinality(ids);
      WithoutSize(transactions, all);
      var removed := RemoveTransactions(ids);
      expired := |ids|;
    }

    method GetTopTransactions(limit: nat) returns (top: seq<Hash>)
      requires Valid()
      ensures IsTop(transactions, limit, top)
    {
      top := [];
      var i := 0;
      while i < |priorityIndex| && i < limit
        invariant 0 <= i <= |priorityIndex| && i <= limit
        invariant |top| == i && forall k :: 0 <= k < i ==> top[k] == priorityIndex[k].id
      {
        assert priorityIndex[i] in Elems(priorityIndex);
        if priorityIndex[i].id in transactions {
          top := top + [priorityIndex[i].id];
        }
        i := i + 1;
      }
      TopOfIndex(transactions, priorityIndex, limit, top);
    }
  }

  function Without(s: Store, evicted: Option<Hash>): Store {
    match evicted
    case None => s
    case Some(id) => s - {id}
  }

  function Expired(s: Store, ttl: nat, now: nat): set<Hash> {
    set id | id in s && s[id].insertedAt + ttl <= now
  }

  lemma WithoutSize(s: Store, gone: set<Hash>)
    requires gone <= s.Keys
    ensures |s - gone| == |s| - |gone|
  {
    assert (s - gone).Keys == s.Keys - gone;
    assert |s - gone| == |(s - gone).Keys| && |s| == |s.Keys|;
  }

  /**
   The `limit` best-paying transactions: fees never rise along the list, equal fees stand oldest first, then by id, and
   nothing left out pays more than a listed one, or as much and is older, or is as old and has a smaller id.
   */
  ghost predicate IsTop(s: Store, limit: nat, top: seq<Hash>) {
    && |top| == (if limit <= |s| then limit else |s|)
    && (forall id :: id in top ==> id in s)
    && (forall i, j :: 0 <= i < j < |top| ==> PaysBetter(s, top[i], top[j]))
    && (forall i, id :: 0 <= i < |top| && id in s && id !in top ==> PaysBetter(s, top[i], id))
  }

  ghost predicate PaysBetter(s: Store, x: Hash, y: Hash)
    requires x in s && y in s
  {
    && s[x].fee >= s[y].fee
    && (s[x].fee == s[y].fee ==> s[x].insertedAt <= s[y].insertedAt)
    && (s[x].fee == s[y].fee && s[x].insertedAt == s[y].insertedAt ==> x < y)
  }

  // ----- the index -----

  lemma {:induction false} IndexSize(s: Store, index: seq<PriorityKey>)
    requires Sorted(index) && Elems(index) == Keys(s)
    ensures |index| == |s|
    decreases |s|
  {
    if s == map[] {
      ElemsConcat([], index);
    } else {
      var id :| id in s;
      KeysRemove(s, id);
      var rest := DropKey(index, KeyOf(id, s[id]));
      IndexSize(s - {id}, rest);
      assert |s| == |s.Keys| && |s - {id}| == |(s - {id}).Keys|;
      assert (s - {id}).Keys == s.Keys - {id};
    }
  }

  lemma EmptyIndex(s: Store, index: seq<PriorityKey>)
    requires Elems(index) == Keys(s)
    ensures index == [] <==> s == map[]
  {
    if index != [] {
      assert index[0] in Elems(index);
    }
    if id :| id in s {
      assert KeyOf(id, s[id]) in Keys(s);
    }
  }

  /** A key is taken out of the index and nothing else moves. */
  function DropKey(index: seq<PriorityKey>, key: PriorityKey): (r: seq<PriorityKey>)
    requires Sorted(index)
    ensures Sorted(r) && Elems(r) == Elems(index) - {key}
    ensures |r| == if key in Elems(index) then |index| - 1 else |index|
  {
    if index == [] then []
    else
      var n := |index| - 1;
      assert index == index[..n] + [index[n]];
      ElemsConcat(index[..n], [index[n]]);
      LastNotBefore(index);
      if index[n] == key then index[..n]
      else
        var front := DropKey(index[..n], key);
        AppendLower(index[..n], front, index[n]);
        ElemsConcat(front, [index[n]]);
        front + [index[n]]
  }

  ghost predicate AllAbove(s: set<PriorityKey>, key: PriorityKey) {
    forall k :: k in s ==> Above(k, key)
  }

  lemma LastNotBefore(index: seq<PriorityKey>)
    requires Sorted(index) && index != []
    ensures index[|index| - 1] !in Elems(index[..|index| - 1])
    ensures AllAbove(Elems(index[..|index| - 1]), index[|index| - 1])
  {
  }

  lemma AppendLower(s: seq<PriorityKey>, front: seq<PriorityKey>, last: PriorityKey)
    requires Sorted(front) && Elems(front) <= Elems(s) && AllAbove(Elems(s), last)
    ensures Sorted(front + [last])
  {
    assert forall i :: 0 <= i < |front| ==> front[i] in Elems(front);
  }

  lemma InsertSorted(index: seq<PriorityKey>, key: PriorityKey, j: nat)
    requires Sorted(index) && key !in Elems(index) && j <= |index|
    requires forall k :: 0 <= k < j ==> Above(index[k], key)
    requires j < |index| ==> !Above(index[j], key)
    ensures Sorted(index[..j] + [key] + index[j..])
    ensures Elems(index[..j] + [key] + index[j..]) == Elems(index) + {key}
  {
    assert NoDup(index);
    InsertAt(index, j, key);
    var r := index[..j] + [key] + index[j..];
    assert forall k :: 0 <= k < |r| ==> r[k] == if k < j then index[k] else if k == j then key else index[k - 1];
    forall k | j <= k < |index|
      ensures Above(key, index[k])
    {
      assert index[j] in Elems(index);
      assert k > j ==> Above(index[j], index[k]);
    }
  }

  lemma KeysAdd(s: Store, id: Hash, p: Pending)
    requires id !in s
    ensures Keys(s[id := p]) == Keys(s) + {KeyOf(id, p)} && KeyOf(id, p) !in Keys(s)
  {
    var s1 := s[id := p];
    forall k | k in Keys(s) + {KeyOf(id, p)}
      ensures k in Keys(s1)
    {
      assert k.id in s1 && KeyOf(k.id, s1[k.id]) == k;
    }
  }

  lemma KeysRemove(s: Store, id: Hash)
    requires id in s
    ensures Keys(s - {id}) == Keys(s) - {KeyOf(id, s[id])} && KeyOf(id, s[id]) in Keys(s)
  {
    var s1 := s - {id};
    forall k | k in Keys(s) - {KeyOf(id, s[id])}
      ensures k in Keys(s1)
    {
      assert k.id in s1 && KeyOf(k.id, s1[k.id]) == k;
    }
  }

  lemma LastIsLowest(s: Store, index: seq<PriorityKey>)
    requires Sorted(index) && Elems(index) == Keys(s) && index != []
    ensures IsLowest(s, index[|index| - 1].id) && |s - {index[|index| - 1].id}| == |s| - 1
    ensures s[index[|index| - 1].id].fee == index[|index| - 1].fee
  {
    var last := index[|index| - 1];
    assert last in Elems(index);
    forall other | other in s && other != last.id
      ensures Above(KeyOf(other, s[other]), last)
    {
      assert KeyOf(other, s[other]) in Elems(index);
    }
    assert (s - {last.id}).Keys == s.Keys - {last.id};
    assert |s| == |s.Keys| && |s - {last.id}| == |(s - {last.id}).Keys|;
  }

  lemma RemovedCount(keys: set<Hash>, seen: set<Hash>, id: Hash)
    ensures |keys * (seen + {id})| == |keys * seen| + if id in keys - seen then 1 else 0
  {
    if id in keys - seen {
      assert keys * (seen + {id}) == keys * seen + {id};
    } else {
      assert keys * (seen + {id}) == keys * seen;
    }
  }

  lemma TopOfIndex(s: Store, index: seq<PriorityKey>, limit: nat, top: seq<Hash>)
    requires Sorted(index) && Elems(index) == Keys(s)
    requires |top| == if limit <= |index| then limit else |index|
    requires forall k :: 0 <= k < |top| ==> top[k] == index[k].id
    ensures IsTop(s, limit, top)
  {
    IndexSize(s, index);
    forall k | 0 <= k < |index|
      ensures index[k].id in s && KeyOf(index[k].id, s[index[k].id]) == index[k]
    {
      assert index[k] in Elems(index);
    }
    forall i, id | 0 <= i < |top| && id in s && id !in top
      ensures PaysBetter(s, top[i], id)
    {
      assert KeyOf(id, s[id]) in Elems(index);
      var k :| 0 <= k < |index| && index[k] == KeyOf(id, s[id]);
      assert k >= |top|;
    }
  }
}
