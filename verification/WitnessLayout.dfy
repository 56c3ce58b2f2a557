/** The witness format byte by byte: where every field stands, and what the parser makes of bytes no printer writes. */
module WitnessLayout {
  import opened Basics
  import opened WitnessCodec

  // ----- positions -----

  /** A length is four bytes, the highest first. */
  lemma LengthBytes(n: nat)
    requires n < 0x1_0000_0000
    ensures EncodeLength(n) ==
            [(n / 0x100_0000) as Byte, (n / 0x1_0000 % 256) as Byte, (n / 0x100 % 256) as Byte, (n % 256) as Byte]
  {
    assert n / 256 / 256 == n / 0x1_0000 && n / 256 / 256 / 256 == n / 0x100_0000;
    assert ToBe(n / 0x100_0000, 1) == ToBe(n / 0x100_0000 / 256, 0) + [(n / 0x100_0000 % 256) as Byte];
    assert ToBe(n / 0x1_0000, 2) == ToBe(n / 0x100_0000, 1) + [(n / 0x1_0000 % 256) as Byte];
    assert ToBe(n / 256, 3) == ToBe(n / 0x1_0000, 2) + [(n / 256 % 256) as Byte];
    assert ToBe(n, 4) == ToBe(n / 256, 3) + [(n % 256) as Byte];
  }

  lemma {:induction false} ConcatAt(b: Bytes, c: nat, parts: seq<Digest>, k: nat)
    requires AllDigests(parts) && At(b, c, Concat(parts)) && k < |parts|
    ensures At(b, c + 32 * k, parts[k])
    decreases k
  {
    AtSplit(b, c, parts[0], Concat(parts[1..]));
    if k > 0 {
      ConcatAt(b, c + 32, parts[1..], k - 1);
    }
  }

  ghost predicate OptionalAt(b: Bytes, c: nat, o: Option<Bytes>, c1: nat) {
    && c < |b| && b[c] == (if o.Some? then 1 else 0)
    && c1 == (if o.Some? then c + 5 + |o.value| else c + 1)
    && (o.Some? ==> At(b, c + 1, EncodeLength(|o.value|)) && At(b, c + 5, o.value))
  }

  lemma OptionalStands(b: Bytes, c: nat, o: Option<Bytes>)
    requires At(b, c, EncodeOptional(o))
    ensures OptionalAt(b, c, o, c + |EncodeOptional(o)|)
  {
    match o
    case None =>
      assert b[c + 0] == [0 as Byte][0];
    case Some(s) =>
      AtSplit(b, c, [1], EncodeBytes(s));
      assert b[c + 0] == [1 as Byte][0];
      BeWidth(|s| % TWO_32, 4);
      AtSplit(b, c + 1, EncodeLength(|s|), s);
  }

  /** A flag, then total, miner share and full-node share in sixteen bytes each, ending at `c1`. */
  ghost predicate GasAt(b: Bytes, c: nat, o: Option<GasWitness>, c1: nat) {
    && c < |b| && b[c] == (if o.Some? then 1 else 0)
    && c1 == (if o.Some? then c + 49 else c + 1)
    && (o.Some? ==>
          && c + 49 <= |b|
          && FromBe(b, c + 1, 16) == o.value.total && FromBe(b, c + 17, 16) == o.value.miner
          && FromBe(b, c + 33, 16) == o.value.fullnode)
  }

  lemma GasStands(b: Bytes, c: nat, o: Option<GasWitness>)
    requires At(b, c, EncodeGas(o))
    ensures GasAt(b, c, o, c + |EncodeGas(o)|)
  {
    match o
    case None =>
      assert b[c + 0] == [0 as Byte][0];
    case Some(g) =>
      Ranges();
      BeWidth(g.total, 16);
      BeWidth(g.miner, 16);
      AtSplit(b, c, [1] + ToBe(g.total, 16) + ToBe(g.miner, 16), ToBe(g.fullnode, 16));
      AtSplit(b, c, [1] + ToBe(g.total, 16), ToBe(g.miner, 16));
      AtSplit(b, c, [1], ToBe(g.total, 16));
      assert b[c + 0] == [1 as Byte][0];
      BeRoundTrip(b, c + 1, g.total, 16);
      BeRoundTrip(b, c + 17, g.miner, 16);
      BeRoundTrip(b, c + 33, g.fullnode, 16);
  }

  ghost predicate SiblingsAt(b: Bytes, c: nat, siblings: seq<Digest>) {
    At(b, c, EncodeLength(|siblings|)) && forall k :: 0 <= k < |siblings| ==> At(b, c + 4 + 32 * k, siblings[k])
  }

  /** The path with its length at `c`, the number of siblings at `d`, the siblings, the root at `f`, leaf and fees. */
  ghost predicate TailAt(b: Bytes, c: nat, p: Proof, end: nat) {
    var d := c + 4 + |p.path|;
    var f := d + 4 + 32 * |p.siblings|;
    var g := if p.leaf.Some? then f + 37 + |p.leaf.value| else f + 33;
    && At(b, c, EncodeLength(|p.path|)) && At(b, c + 4, p.path)
    && SiblingsAt(b, d, p.siblings)
    && At(b, f, p.root) && OptionalAt(b, f + 32, p.leaf, g) && GasAt(b, g, p.gas, end)
  }

  lemma {:induction false} SiblingsStand(b: Bytes, c: nat, siblings: seq<Digest>)
    requires AllDigests(siblings) && At(b, c, EncodeLength(|siblings|) + Concat(siblings))
    ensures SiblingsAt(b, c, siblings)
    ensures |EncodeLength(|siblings|) + Concat(siblings)| == 4 + 32 * |siblings|
  {
    BeWidth(|siblings| % TWO_32, 4);
    AtSplit(b, c, EncodeLength(|siblings|), Concat(siblings));
    ConcatLength(siblings);
    forall k | 0 <= k < |siblings|
      ensures At(b, c + 4 + 32 * k, siblings[k])
    {
      ConcatAt(b, c + 4, siblings, k);
    }
  }

  lemma PathStands(b: Bytes, c: nat, path: Bytes)
    requires At(b, c, EncodeBytes(path))
    ensures At(b, c, EncodeLength(|path|)) && At(b, c + 4, path) && |EncodeBytes(path)| == 4 + |path|
  {
    BeWidth(|path| % TWO_32, 4);
    AtSplit(b, c, EncodeLength(|path|), path);
  }

  lemma {:induction false} TailStands(b: Bytes, c: nat, p: Proof)
    requires FitsProof(p) && At(b, c, EncodeProofTail(p))
    ensures TailAt(b, c, p, c + |EncodeProofTail(p)|)
  {
    var c1, c3, c4 := TailPieces(b, c, p);
    PathStands(b, c, p.path);
    SiblingsStand(b, c1, p.siblings);
    EndStands(b, c3, c4, p);
    TailGathers(b, c, p, c1, c3, c4, c4 + |EncodeGas(p.gas)|);
  }

  lemma {:induction false} EndStands(b: Bytes, c3: nat, c4: nat, p: Proof)
    requires At(b, c3 + 32, EncodeOptional(p.leaf)) && c4 == c3 + 32 + |EncodeOptional(p.leaf)| && At(b, c4, EncodeGas(p.gas))
    ensures OptionalAt(b, c3 + 32, p.leaf, c4) && GasAt(b, c4, p.gas, c4 + |EncodeGas(p.gas)|)
  {
    OptionalStands(b, c3 + 32, p.leaf);
    GasStands(b, c4, p.gas);
  }

  lemma {:induction false} TailGathers(b: Bytes, c: nat, p: Proof, c1: nat, c3: nat, c4: nat, end: nat)
    requires At(b, c, EncodeLength(|p.path|)) && At(b, c + 4, p.path) && c1 == c + 4 + |p.path|
    requires SiblingsAt(b, c1, p.siblings) && c3 == c1 + 4 + 32 * |p.siblings| && At(b, c3, p.root)
    requires OptionalAt(b, c3 + 32, p.leaf, c4) && GasAt(b, c4, p.gas, end)
    ensures TailAt(b, c, p, end)
  {
  }

  /** Where the fields of an entry stand: 32 bytes of key, the type, which is 0 for membership, the value, the proof. */
  lemma EntryLayout(b: Bytes, c: nat, e: Entry)
    requires FitsEntry(e) && At(b, c, EncodeEntry(e))
    ensures At(b, c, e.key) && c + 33 < |b| && b[c + 32] == if e.proof.proofType == Membership then 0 else 1
    ensures var c1 := if e.value.Some? then c + 38 + |e.value.value| else c + 34;
            OptionalAt(b, c + 33, e.value, c1) && TailAt(b, c1, e.proof, c + |EncodeEntry(e)|)
  {
    var t, value := [TypeByte(e.proof.proofType)], EncodeOptional(e.value);
    AtSplit(b, c, e.key + t + value, EncodeProofTail(e.proof));
    AtSplit(b, c, e.key + t, value);
    AtSplit(b, c, e.key, t);
    assert b[c + 32 + 0] == t[0];
    OptionalStands(b, c + 33, e.value);
    TailStands(b, c + 33 + |value|, e.proof);
  }

  lemma {:induction false} ListLayout<T>(print1: T -> Bytes, b: Bytes, c: nat, xs: seq<T>, i: nat)
    requires At(b, c, PrintAll(print1, xs)) && i < |xs|
    ensures At(b, c + |PrintAll(print1, xs[..i])|, print1(xs[i]))
    decreases i
  {
    AtSplit(b, c, print1(xs[0]), PrintAll(print1, xs[1..]));
    if i > 0 {
      ListLayout(print1, b, c + |print1(xs[0])|, xs[1..], i - 1);
      assert xs[1..][..i - 1] == xs[..i][1..];
    }
  }

  /** A witness: the root, the number of entries, then the entries one after the other. */
  lemma WitnessLayout(w: Witness, i: nat)
    requires Fits(w) && i < |w.entries|
    ensures var b := Encode(w);
            && At(b, 0, w.root) && At(b, 32, EncodeLength(|w.entries|))
            && At(b, 36 + |PrintAll(EncodeEntry, w.entries[..i])|, EncodeEntry(w.entries[i]))
  {
    var b := Encode(w);
    AtSplit(b, 0, w.root + EncodeLength(|w.entries|), PrintAll(EncodeEntry, w.entries));
    AtSplit(b, 0, w.root, EncodeLength(|w.entries|));
    BeWidth(|w.entries| % TWO_32, 4);
    ListLayout(EncodeEntry, b, 36, w.entries, i);
  }

  // ----- flags and types -----

  /** Absent is whatever is not exactly 1. */
  lemma AbsentIff(b: Bytes, c: nat)
    ensures (ParseOptional(b, c).Ok? && ParseOptional(b, c).value == None) <==> c < |b| && b[c] != 1
    ensures (ParseGas(b, c).Ok? && ParseGas(b, c).value == None) <==> c < |b| && b[c] != 1
  {
  }

  /** A type byte above 1 is the one thing that is refused as such, and 1 is read as membership. */
  lemma BadTypeIff(b: Bytes, c: nat)
    ensures ParseEntry(b, c) == Bad(BadProofType) <==> c + 34 <= |b| && b[c + 32] > 1
    ensures ParseEntry(b, c).Ok? ==> (ParseEntry(b, c).value.proof.proofType == Membership <==> b[c + 32] == 1)
  {
    if c + 34 <= |b| && b[c + 32] <= 1 {
      var value := ParseOptional(b, c + 33);
      if value.Ok? {
        TailTruncated(b, value.next, ParseType(b[c + 32]).value);
      }
    }
  }

  lemma TailTruncated(b: Bytes, c: nat, t: ProofType)
    ensures ParseProofTail(b, c, t).Bad? ==> ParseProofTail(b, c, t).error == Truncated
    ensures ParseProofTail(b, c, t).Ok? ==> ParseProofTail(b, c, t).value.proofType == t
  {
    var path := ParseBytes(b, c);
    if path.Ok? && ParseLength(b, path.next).Ok? {
      DigestsTruncated(b, path.next + 4, ParseLength(b, path.next).value, []);
    }
  }

  lemma {:induction false} DigestsTruncated(b: Bytes, c: nat, n: nat, acc: seq<Digest>)
    ensures ParseDigests(b, c, n, acc).Bad? ==> ParseDigests(b, c, n, acc).error == Truncated
    decreases n
  {
    if n > 0 && c + 32 <= |b| {
      DigestsTruncated(b, c + 32, n - 1, acc + [b[c..c + 32]]);
    }
  }

  // ----- truncated input -----

  /** Whatever is answered other than truncation is answered for every longer input too. */
  ghost predicate Kept<T>(r: Parsed<T>, r1: Parsed<T>) {
    r == Bad(Truncated) || r1 == r
  }

  lemma {:induction false} NumberKept(b: Bytes, b1: Bytes, c: nat, width: nat)
    requires b <= b1 && c + width <= |b|
    ensures FromBe(b1, c, width) == FromBe(b, c, width)
  {
    if width == 0 {
    } else {
      NumberKept(b, b1, c, width - 1);
    }
  }

  lemma LengthKept(b: Bytes, b1: Bytes, c: nat)
    requires b <= b1
    ensures Kept(ParseLength(b, c), ParseLength(b1, c))
  {
    if c + 4 <= |b| {
      NumberKept(b, b1, c, 4);
    }
  }

  lemma SliceKept(b: Bytes, b1: Bytes, c: nat, d: nat)
    requires b <= b1 && c <= d <= |b|
    ensures b1[c..d] == b[c..d]
  {
  }

  lemma BytesKept(b: Bytes, b1: Bytes, c: nat)
    requires b <= b1
    ensures Kept(ParseBytes(b, c), ParseBytes(b1, c))
  {
    LengthKept(b, b1, c);
    var r := ParseBytes(b, c);
    if r.Ok? {
      SliceKept(b, b1, c + 4, r.next);
    }
  }

  lemma OptionalKept(b: Bytes, b1: Bytes, c: nat)
    requires b <= b1
    ensures Kept(ParseOptional(b, c), ParseOptional(b1, c))
  {
    BytesKept(b, b1, c + 1);
  }

  lemma {:induction false} DigestsKept(b: Bytes, b1: Bytes, c: nat, n: nat, acc: seq<Digest>)
    requires b <= b1
    ensures Kept(ParseDigests(b, c, n, acc), ParseDigests(b1, c, n, acc))
    decreases n
  {
    if n > 0 && c + 32 <= |b| {
      SliceKept(b, b1, c, c + 32);
      DigestsKept(b, b1, c + 32, n - 1, acc + [b[c..c + 32]]);
    }
  }

  lemma GasKept(b: Bytes, b1: Bytes, c: nat)
    requires b <= b1
    ensures Kept(ParseGas(b, c), ParseGas(b1, c))
  {
    if c + 49 <= |b| {
      NumberKept(b, b1, c + 1, 16);
      NumberKept(b, b1, c + 17, 16);
      NumberKept(b, b1, c + 33, 16);
    }
  }

  lemma {:induction false} TailKept(b: Bytes, b1: Bytes, c: nat, t: ProofType)
    requires b <= b1
    ensures Kept(ParseProofTail(b, c, t), ParseProofTail(b1, c, t))
  {
    TailTruncated(b, c, t);
    if ParseProofTail(b, c, t).Ok? {
      var c1 := ParseBytes(b, c).next;
      var count := ParseLength(b, c1).value;
      TailSame(b, b1, c, c1, count);
      RestKept(b, b1, ParseDigests(b, c1 + 4, count, []).next);
    }
  }

  /** All that stands before the root of a proof that parses. */
  lemma {:induction false} TailSame(b: Bytes, b1: Bytes, c: nat, c1: nat, count: nat)
    requires b <= b1 && ParseBytes(b, c).Ok? && c1 == ParseBytes(b, c).next
    requires ParseLength(b, c1).Ok? && count == ParseLength(b, c1).value && ParseDigests(b, c1 + 4, count, []).Ok?
    ensures ParseBytes(b1, c) == ParseBytes(b, c) && ParseLength(b1, c1) == ParseLength(b, c1)
    ensures ParseDigests(b1, c1 + 4, count, []) == ParseDigests(b, c1 + 4, count, [])
  {
    BytesKept(b, b1, c);
    LengthKept(b, b1, c1);
    DigestsKept(b, b1, c1 + 4, count, []);
  }

  lemma RestKept(b: Bytes, b1: Bytes, c: nat)
    requires b <= b1
    ensures c + 32 <= |b| ==> b1[c..c + 32] == b[c..c + 32]
    ensures Kept(ParseOptional(b, c + 32), ParseOptional(b1, c + 32))
    ensures ParseOptional(b, c + 32).Ok? ==>
              Kept(ParseGas(b, ParseOptional(b, c + 32).next), ParseGas(b1, ParseOptional(b, c + 32).next))
  {
    OptionalKept(b, b1, c + 32);
    if ParseOptional(b, c + 32).Ok? {
      GasKept(b, b1, ParseOptional(b, c + 32).next);
    }
  }

  lemma EntryKept(b: Bytes, b1: Bytes, c: nat)
    requires b <= b1
    ensures Kept(ParseEntry(b, c), ParseEntry(b1, c))
  {
    if c + 34 <= |b| && ParseType(b[c + 32]).Some? {
      OptionalKept(b, b1, c + 33);
      SliceKept(b, b1, c, c + 32);
      if ParseOptional(b, c + 33).Ok? {
        TailKept(b, b1, ParseOptional(b, c + 33).next, ParseType(b[c + 32]).value);
      }
    }
  }

  lemma {:induction false} ListKept<T>(parse1: (Bytes, nat) -> Parsed<T>, b: Bytes, b1: Bytes, c: nat, n: nat, acc: seq<T>)
    requires forall d: nat :: Kept(parse1(b, d), parse1(b1, d))
    ensures Kept(ParseAll(parse1, b, c, n, acc), ParseAll(parse1, b1, c, n, acc))
    decreases n
  {
    if n > 0 {
      assert Kept(parse1(b, c), parse1(b1, c));
      match parse1(b, c)
      case Bad(e) =>
      case Ok(x, c1) => ListKept(parse1, b, b1, c1, n - 1, acc + [x]);
    }
  }

  lemma {:induction false} ListNotShort<T>(parse1: (Bytes, nat) -> Parsed<T>, b: Bytes, c: nat, n: nat, acc: seq<T>)
    requires forall d: nat :: parse1(b, d) != Bad(TooShort)
    ensures ParseAll(parse1, b, c, n, acc) != Bad(TooShort)
    decreases n
  {
    if n > 0 {
      match parse1(b, c)
      case Bad(e) => assert parse1(b, c) != Bad(TooShort);
      case Ok(x, c1) => ListNotShort(parse1, b, c1, n - 1, acc + [x]);
    }
  }

  lemma EntryNotShort(b: Bytes, c: nat)
    ensures ParseEntry(b, c) != Bad(TooShort)
  {
    if c + 34 <= |b| && ParseType(b[c + 32]).Some? && ParseOptional(b, c + 33).Ok? {
      TailTruncated(b, ParseOptional(b, c + 33).next, ParseType(b[c + 32]).value);
    }
  }

  lemma ShortIff(b: Bytes)
    ensures Decode(b) == Bad(TooShort) <==> |b| < 36
  {
    if |b| >= 36 {
      forall d: nat
        ensures ParseEntry(b, d) != Bad(TooShort)
      {
        EntryNotShort(b, d);
      }
      ListNotShort(ParseEntry, b, 36, FromBe(b, 32, 4), []);
    }
  }

  /** More bytes at the end change no answer but that the input is too short or cut off. */
  lemma DecodeKept(b: Bytes, tail: Bytes)
    ensures Decode(b) == Bad(TooShort) || Decode(b) == Bad(Truncated) || Decode(b + tail) == Decode(b)
  {
    var b1 := b + tail;
    if |b| >= 36 {
      forall d: nat
        ensures Kept(ParseEntry(b, d), ParseEntry(b1, d))
      {
        EntryKept(b, b1, d);
      }
      NumberKept(b, b1, 32, 4);
      ListKept(ParseEntry, b, b1, 36, FromBe(b, 32, 4), []);
      SliceKept(b, b1, 0, 32);
      assert b1[..32] == b1[0..32] && b[..32] == b[0..32];
    }
  }

  lemma CutOff(b: Bytes, tail: Bytes)
    requires Decode(b + tail).Ok? && Decode(b + tail).next == |b + tail| && tail != []
    ensures Decode(b) == Bad(if |b| < 36 then TooShort else Truncated)
  {
    DecodeKept(b, tail);
    ShortIff(b);
    if Decode(b).Ok? {
      DecodedFits(b);
    }
  }

  lemma {:induction false} CutAt(b: Bytes, n: nat, front: Bytes, tail: Bytes)
    requires Decode(b).Ok? && Decode(b).next == |b| && n < |b| && front == b[..n] && tail == b[n..]
    ensures Decode(front) == Bad(if n < 36 then TooShort else Truncated)
  {
    Pieces(b, n, front, tail);
    CutOff(front, tail);
  }

  lemma Pieces(b: Bytes, n: nat, front: Bytes, tail: Bytes)
    requires n < |b| && front == b[..n] && tail == b[n..]
    ensures front + tail == b && |front| == n && tail != []
  {
  }

  lemma PrintParses(w: Witness)
    requires Fits(w)
    ensures Decode(Encode(w)) == Ok(Returned(w), |Encode(w)|)
  {
    RoundTrip(w, []);
    assert Encode(w) + [] == Encode(w);
  }

  /** No proper prefix of a printed witness parses: it is too short below 36 bytes and cut off from there on. */
  lemma TruncatedRefused(w: Witness, n: nat)
    requires Fits(w) && n < |Encode(w)|
    ensures Decode(Encode(w)[..n]) == Bad(if n < 36 then TooShort else Truncated)
  {
    PrintParses(w);
    var b := Encode(w);
    CutAt(b, n, b[..n], b[n..]);
  }
}
