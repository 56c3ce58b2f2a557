/**
 The compact execution-witness format: a length-prefixed byte printer and the cursor-driven parser for it.
 Lengths are 32-bit and amounts 128-bit, both big-endian.
 */
module WitnessCodec {
  import opened Basics

  newtype Byte = n: int | 0 <= n < 256

  type Bytes = seq<Byte>

  /** A 32-byte array; `Fits` states the length, which the program's type carries. */
  type Digest = Bytes

  type U128 = n: nat | n < TWO_128

  datatype ProofType = Membership | NonMembership

  datatype GasWitness = GasWitness(total: U128, miner: U128, fullnode: U128)

  datatype Proof = Proof(proofType: ProofType, path: Bytes, siblings: seq<Digest>, leaf: Option<Bytes>, root: Digest,
                         openings: seq<nat>, gas: Option<GasWitness>)

  datatype Entry = Entry(key: Digest, value: Option<Bytes>, proof: Proof)

  datatype Witness = Witness(root: Digest, entries: seq<Entry>)

  datatype Error = TooShort | Truncated | BadProofType

  datatype Parsed<+T> = Ok(value: T, next: nat) | Bad(error: Error)

  // ----- big-endian numbers -----

  /** `part` stands in `b` at position `c`. */
  ghost predicate At(b: Bytes, c: nat, part: Bytes) {
    c + |part| <= |b| && forall i :: 0 <= i < |part| ==> b[c + i] == part[i]
  }

  lemma AtSlice(b: Bytes, c: nat, part: Bytes)
    requires At(b, c, part)
    ensures b[c..c + |part|] == part
  {
  }

  lemma AtSplit(b: Bytes, c: nat, x: Bytes, y: Bytes)
    requires At(b, c, x + y)
    ensures At(b, c, x) && At(b, c + |x|, y)
  {
    assert forall i :: 0 <= i < |x| ==> (x + y)[i] == x[i];
    forall i | 0 <= i < |y|
      ensures b[c + |x| + i] == y[i]
    {
      assert (x + y)[|x| + i] == y[i];
    }
  }

  function ToBe(n: nat, width: nat): Bytes {
    if width == 0 then [] else ToBe(n / 256, width - 1) + [(n % 256) as Byte]
  }

  /** The number the `width` bytes at `c` spell. */
  function FromBe(b: Bytes, c: nat, width: nat): nat
    requires c + width <= |b|
  {
    if width == 0 then 0 else 256 * FromBe(b, c, width - 1) + b[c + width - 1] as nat
  }

  function Range(width: nat): nat {
    if width == 0 then 1 else 256 * Range(width - 1)
  }

  lemma {:induction false} BeRoundTrip(b: Bytes, c: nat, n: nat, width: nat)
    requires n < Range(width) && At(b, c, ToBe(n, width))
    ensures |ToBe(n, width)| == width && FromBe(b, c, width) == n
  {
    if width == 0 {
    } else {
      AtSplit(b, c, ToBe(n / 256, width - 1), [(n % 256) as Byte]);
      BeRoundTrip(b, c, n / 256, width - 1);
      assert b[c + width - 1 + 0] == [(n % 256) as Byte][0];
    }
  }

  lemma {:induction false} BeWidth(n: nat, width: nat)
    ensures |ToBe(n, width)| == width
  {
    if width == 0 {
    } else {
      BeWidth(n / 256, width - 1);
    }
  }

  lemma {:induction false} BeBound(b: Bytes, c: nat, width: nat)
    requires c + width <= |b|
    ensures FromBe(b, c, width) < Range(width)
  {
    if width == 0 {
    } else {
      BeBound(b, c, width - 1);
    }
  }

  lemma LengthRange()
    ensures Range(4) == TWO_32
  {
    assert Range(4) == 256 * (256 * (256 * (256 * Range(0))));
  }

  lemma Ranges()
    ensures Range(4) == TWO_32 && Range(16) == TWO_128
  {
    LengthRange();
    assert Range(8) == 256 * (256 * (256 * (256 * Range(4))));
    assert Range(12) == 256 * (256 * (256 * (256 * Range(8))));
    assert Range(16) == 256 * (256 * (256 * (256 * Range(12))));
  }

  // ----- the printer -----

  /** A length is cast to 32 bits before it is written. */
  function EncodeLength(n: nat): Bytes {
    ToBe(n % TWO_32, 4)
  }

  function EncodeBytes(s: Bytes): Bytes {
    EncodeLength(|s|) + s
  }

  function EncodeOptional(o: Option<Bytes>): Bytes {
    match o
    case None => [0]
    case Some(s) => [1] + EncodeBytes(s)
  }

  function Concat(parts: seq<Digest>): Bytes {
    if parts == [] then [] else parts[0] + Concat(parts[1..])
  }

  function EncodeGas(o: Option<GasWitness>): Bytes {
    match o
    case None => [0]
    case Some(g) => [1] + ToBe(g.total, 16) + ToBe(g.miner, 16) + ToBe(g.fullnode, 16)
  }

  /** The discriminant: variants are numbered in the order they are declared. */
  function TypeByte(t: ProofType): Byte {
    match t
    case Membership => 0
    case NonMembership => 1
  }

  function EncodeProofTail(p: Proof): Bytes {
    EncodeBytes(p.path) + (EncodeLength(|p.siblings|) + Concat(p.siblings)) + p.root + EncodeOptional(p.leaf) + EncodeGas(p.gas)
  }

  function EncodeEntry(e: Entry): Bytes {
    e.key + [TypeByte(e.proof.proofType)] + EncodeOptional(e.value) + EncodeProofTail(e.proof)
  }

  function PrintAll<T>(print1: T -> Bytes, xs: seq<T>): Bytes {
    if xs == [] then [] else print1(xs[0]) + PrintAll(print1, xs[1..])
  }

  function Encode(w: Witness): Bytes {
    w.root + EncodeLength(|w.entries|) + PrintAll(EncodeEntry, w.entries)
  }

  // ----- the parser -----

  function ParseLength(b: Bytes, c: nat): Parsed<nat> {
    if c + 4 > |b| then Bad(Truncated) else Ok(FromBe(b, c, 4), c + 4)
  }

  function ParseBytes(b: Bytes, c: nat): Parsed<Bytes> {
    match ParseLength(b, c)
    case Bad(e) => Bad(e)
    case Ok(len, c1) => if c1 + len > |b| then Bad(Truncated) else Ok(b[c1..c1 + len], c1 + len)
  }

  /** A flag byte counts as set only when it is exactly 1. */
  function ParseOptional(b: Bytes, c: nat): Parsed<Option<Bytes>> {
    if c + 1 > |b| then Bad(Truncated)
    else if b[c] != 1 then Ok(None, c + 1)
    else
      match ParseBytes(b, c + 1)
      case Bad(e) => Bad(e)
      case Ok(s, c1) => Ok(Some(s), c1)
  }

  function ParseDigests(b: Bytes, c: nat, n: nat, acc: seq<Digest>): Parsed<seq<Digest>>
    decreases n
  {
    if n == 0 then Ok(acc, c)
    else if c + 32 > |b| then Bad(Truncated)
    else ParseDigests(b, c + 32, n - 1, acc + [b[c..c + 32]])
  }

  function ParseGas(b: Bytes, c: nat): Parsed<Option<GasWitness>> {
    if c + 1 > |b| then Bad(Truncated)
    else if b[c] != 1 then Ok(None, c + 1)
    else if c + 49 > |b| then Bad(Truncated)
    else
      BeBound(b, c + 1, 16); BeBound(b, c + 17, 16); BeBound(b, c + 33, 16); Ranges();
      Ok(Some(GasWitness(FromBe(b, c + 1, 16), FromBe(b, c + 17, 16), FromBe(b, c + 33, 16))), c + 49)
  }

  /** The parser reads the type byte the other way round. */
  function ParseType(x: Byte): Option<ProofType> {
    if x == 0 then Some(NonMembership) else if x == 1 then Some(Membership) else None
  }

  function ParseProofTail(b: Bytes, c: nat, t: ProofType): Parsed<Proof> {
    match ParseBytes(b, c)
    case Bad(e) => Bad(e)
    case Ok(path, c1) =>
      match ParseLength(b, c1)
      case Bad(e) => Bad(e)
      case Ok(count, c2) =>
        match ParseDigests(b, c2, count, [])
        case Bad(e) => Bad(e)
        case Ok(siblings, c3) =>
          if c3 + 32 > |b| then Bad(Truncated)
          else
            match ParseOptional(b, c3 + 32)
            case Bad(e) => Bad(e)
            case Ok(leaf, c4) =>
              match ParseGas(b, c4)
              case Bad(e) => Bad(e)
              case Ok(gas, c5) => Ok(Proof(t, path, siblings, leaf, b[c3..c3 + 32], [], gas), c5)
  }

  function ParseEntry(b: Bytes, c: nat): Parsed<Entry> {
    if c + 34 > |b| then Bad(Truncated)
    else
      match ParseType(b[c + 32])
      case None => Bad(BadProofType)
      case Some(t) =>
        match ParseOptional(b, c + 33)
        case Bad(e) => Bad(e)
        case Ok(value, c1) =>
          match ParseProofTail(b, c1, t)
          case Bad(e) => Bad(e)
          case Ok(proof, c2) => Ok(Entry(b[c..c + 32], value, proof), c2)
  }

  function ParseAll<T>(parse1: (Bytes, nat) -> Parsed<T>, b: Bytes, c: nat, n: nat, acc: seq<T>): Parsed<seq<T>>
    decreases n
  {
    if n == 0 then Ok(acc, c)
    else
      match parse1(b, c)
      case Bad(e) => Bad(e)
      case Ok(x, c1) => ParseAll(parse1, b, c1, n - 1, acc + [x])
  }

  /** `next` is where the parser stops; bytes after it are ignored. */
  function Decode(b: Bytes): Parsed<Witness> {
    if |b| < 36 then Bad(TooShort)
    else
      match ParseAll(ParseEntry, b, 36, FromBe(b, 32, 4), [])
      case Bad(e) => Bad(e)
      case Ok(entries, c) => Ok(Witness(b[..32], entries), c)
  }

  // ----- the program's loops -----

  method SerializeCompact(w: Witness) returns (buffer: Bytes)
    ensures buffer == Encode(w)
  {
    buffer := [];
    buffer := buffer + w.root;
    assert buffer == w.root;
    buffer := buffer + EncodeLength(|w.entries|);
    buffer := PushEntries(buffer, w.entries);
  }

  method PushEntries(buffer: Bytes, entries: seq<Entry>) returns (out: Bytes)
    ensures out == buffer + PrintAll(EncodeEntry, entries)
  {
    ghost var print1 := EncodeEntry;
    out := buffer;
    var i := 0;
    assert entries[0..] == entries;
    while i < |entries|
      invariant 0 <= i <= |entries|
      invariant out + PrintAll(print1, entries[i..]) == buffer + PrintAll(print1, entries)
    {
      assert entries[i..][1..] == entries[i + 1..];
      Assoc(out, print1(entries[i]), PrintAll(print1, entries[i + 1..]));
      out := PushEntry(out, entries[i]);
      i := i + 1;
    }
    assert out + [] == out;
  }

  method PushEntry(buffer: Bytes, e: Entry) returns (out: Bytes)
    ensures out == buffer + EncodeEntry(e)
  {
    out := buffer + e.key;
    out := out + [TypeByte(e.proof.proofType)];
    out := PushOptional(out, e.value);
    ghost var head := e.key + [TypeByte(e.proof.proofType)] + EncodeOptional(e.value);
    assert out == buffer + head;
    out := PushProofTail(out, e.proof);
    assert (buffer + head) + EncodeProofTail(e.proof) == buffer + (head + EncodeProofTail(e.proof));
  }

  method PushProofTail(buffer: Bytes, p: Proof) returns (out: Bytes)
    ensures out == buffer + EncodeProofTail(p)
  {
    ghost var path, siblings := EncodeBytes(p.path), EncodeLength(|p.siblings|) + Concat(p.siblings);
    out := buffer + EncodeLength(|p.path|);
    out := out + p.path;
    assert out == buffer + path;
    out := PushSiblings(out, p.siblings);
    assert out == buffer + (path + siblings);
    out := out + p.root;
    assert out == buffer + (path + siblings + p.root);
    out := PushOptional(out, p.leaf);
    assert out == buffer + (path + siblings + p.root + EncodeOptional(p.leaf));
    out := PushGas(out, p.gas);
  }

  method PushGas(buffer: Bytes, o: Option<GasWitness>) returns (out: Bytes)
    ensures out == buffer + EncodeGas(o)
  {
    out := buffer + [if o.Some? then 1 else 0];
    if o.Some? {
      out := out + ToBe(o.value.total, 16);
      out := out + ToBe(o.value.miner, 16);
      out := out + ToBe(o.value.fullnode, 16);
    }
  }

  method PushOptional(buffer: Bytes, o: Option<Bytes>) returns (out: Bytes)
    ensures out == buffer + EncodeOptional(o)
  {
    out := buffer + [if o.Some? then 1 else 0];
    if o.Some? {
      out := out + EncodeLength(|o.value|);
      out := out + o.value;
    }
  }

  method PushSiblings(buffer: Bytes, siblings: seq<Digest>) returns (out: Bytes)
    ensures out == buffer + (EncodeLength(|siblings|) + Concat(siblings))
  {
    out := buffer + EncodeLength(|siblings|);
    var i := 0;
    assert siblings[0..] == siblings;
    while i < |siblings|
      invariant 0 <= i <= |siblings|
      invariant out + Concat(siblings[i..]) == buffer + (EncodeLength(|siblings|) + Concat(siblings))
    {
      assert siblings[i..][1..] == siblings[i + 1..];
      assert (out + siblings[i]) + Concat(siblings[i + 1..]) == out + (siblings[i] + Concat(siblings[i + 1..]));
      out := out + siblings[i];
      i := i + 1;
    }
    assert out + [] == out;
  }

  method DeserializeCompact(b: Bytes) returns (r: Parsed<Witness>)
    ensures r == Decode(b)
  {
    var cursor := 0;
    if |b| < 36 {
      return Bad(TooShort);
    }
    var root := b[cursor..cursor + 32];
    cursor := cursor + 32;
    var entryCount := FromBe(b, cursor, 4);
    cursor := cursor + 4;
    var entries := ReadEntries(ParseEntry, b, cursor, entryCount);
    match entries
    case Bad(e) => return Bad(e);
    case Ok(list, next) => return Ok(Witness(root, list), next);
  }

  lemma ParseOneMore<T>(parse1: (Bytes, nat) -> Parsed<T>, b: Bytes, c: nat, n: nat, acc: seq<T>)
    requires n > 0
    ensures ParseAll(parse1, b, c, n, acc) ==
              match parse1(b, c)
              case Bad(e) => Bad(e)
              case Ok(x, c1) => ParseAll(parse1, b, c1, n - 1, acc + [x])
  {
  }

  /** `parse1` parses entries; stated from the entry's side, so that a loop can be about any parser. */
  ghost predicate ParsesEntries(parse1: (Bytes, nat) -> Parsed<Entry>) {
    forall b: Bytes, c: nat {:trigger ParseEntry(b, c)} :: parse1(b, c) == ParseEntry(b, c)
  }

  method ReadEntries(ghost parse1: (Bytes, nat) -> Parsed<Entry>, b: Bytes, start: nat, count: nat) returns (r: Parsed<seq<Entry>>)
    requires ParsesEntries(parse1)
    ensures r == ParseAll(parse1, b, start, count, [])
  {
    ghost var target := ParseAll(parse1, b, start, count, []);
    var cursor, entries := start, [];
    var left := count;
    while left > 0
      invariant 0 <= left && 0 <= cursor
      invariant target == ParseAll(parse1, b, cursor, left, entries)
    {
      var e := ReadOneEntry(parse1, b, cursor);
      ParseOneMore(parse1, b, cursor, left, entries);
      match e {
        case Bad(error) =>
          return Bad(error);
        case Ok(entry, next) =>
          entries := entries + [entry];
          cursor := next;
          left := left - 1;
      }
    }
    r := Ok(entries, cursor);
  }

  method ReadOneEntry(ghost parse1: (Bytes, nat) -> Parsed<Entry>, b: Bytes, start: nat) returns (r: Parsed<Entry>)
    requires ParsesEntries(parse1)
    ensures r == parse1(b, start)
  {
    r := ReadEntry(b, start);
  }

  method ReadEntry(b: Bytes, start: nat) returns (r: Parsed<Entry>)
    ensures r == ParseEntry(b, start)
  {
    var cursor := start;
    if cursor + 32 + 1 + 1 > |b| {
      return Bad(Truncated);
    }
    var key := b[cursor..cursor + 32];
    cursor := cursor + 32;
    var t := ParseType(b[cursor]);
    if t.None? {
      return Bad(BadProofType);
    }
    cursor := cursor + 1;
    var value := ReadOptional(b, cursor);
    if value.Bad? {
      return Bad(value.error);
    }
    var proof := ReadProofTail(b, value.next, t.value);
    if proof.Bad? {
      return Bad(proof.error);
    }
    r := Ok(Entry(key, value.value, proof.value), proof.next);
  }

  method ReadProofTail(b: Bytes, start: nat, t: ProofType) returns (r: Parsed<Proof>)
    ensures r == ParseProofTail(b, start, t)
  {
    var path := ReadBytes(b, start);
    if path.Bad? {
      return Bad(path.error);
    }
    var cursor := path.next;
    if cursor + 4 > |b| {
      return Bad(Truncated);
    }
    var siblingCount := FromBe(b, cursor, 4);
    cursor := cursor + 4;
    ghost var first := cursor;
    var siblings := [];
    var i := 0;
    while i < siblingCount
      invariant 0 <= i <= siblingCount && 0 <= cursor
      invariant ParseDigests(b, cursor, siblingCount - i, siblings) == ParseDigests(b, first, siblingCount, [])
    {
      if cursor + 32 > |b| {
        return Bad(Truncated);
      }
      siblings := siblings + [b[cursor..cursor + 32]];
      cursor := cursor + 32;
      i := i + 1;
    }
    if cursor + 32 > |b| {
      return Bad(Truncated);
    }
    var root := b[cursor..cursor + 32];
    cursor := cursor + 32;
    var leaf := ReadOptional(b, cursor);
    if leaf.Bad? {
      return Bad(leaf.error);
    }
    cursor := leaf.next;
    var gas := ParseGas(b, cursor);
    if gas.Bad? {
      return Bad(gas.error);
    }
    r := Ok(Proof(t, path.value, siblings, leaf.value, root, [], gas.value), gas.next);
  }

  method ReadBytes(b: Bytes, start: nat) returns (r: Parsed<Bytes>)
    ensures r == ParseBytes(b, start)
  {
    var cursor := start;
    if cursor + 4 > |b| {
      return Bad(Truncated);
    }
    var len := FromBe(b, cursor, 4);
    cursor := cursor + 4;
    if cursor + len > |b| {
      return Bad(Truncated);
    }
    r := Ok(b[cursor..cursor + len], cursor + len);
  }

  method ReadOptional(b: Bytes, start: nat) returns (r: Parsed<Option<Bytes>>)
    ensures r == ParseOptional(b, start)
  {
    if start + 1 > |b| {
      return Bad(Truncated);
    }
    if b[start] != 1 {
      return Ok(None, start + 1);
    }
    var s := ReadBytes(b, start + 1);
    if s.Bad? {
      return Bad(s.error);
    }
    r := Ok(Some(s.value), s.next);
  }

  // ----- printing then parsing -----

  lemma LengthBack(b: Bytes, c: nat, n: nat)
    requires n < TWO_32 && At(b, c, EncodeLength(n))
    ensures |EncodeLength(n)| == 4 && ParseLength(b, c) == Ok(n, c + 4)
  {
    LengthRange();
    BeRoundTrip(b, c, n, 4);
  }

  lemma BytesBack(b: Bytes, c: nat, s: Bytes)
    requires |s| < TWO_32 && At(b, c, EncodeBytes(s))
    ensures ParseBytes(b, c) == Ok(s, c + |EncodeBytes(s)|)
  {
    AtSplit(b, c, EncodeLength(|s|), s);
    LengthBack(b, c, |s|);
    AtSlice(b, c + 4, s);
  }

  lemma OptionalBack(b: Bytes, c: nat, o: Option<Bytes>)
    requires o.Some? ==> |o.value| < TWO_32
    requires At(b, c, EncodeOptional(o))
    ensures ParseOptional(b, c) == Ok(o, c + |EncodeOptional(o)|)
  {
    match o
    case None =>
      assert b[c + 0] == [0 as Byte][0];
    case Some(s) =>
      AtSplit(b, c, [1], EncodeBytes(s));
      assert b[c + 0] == [1 as Byte][0];
      BytesBack(b, c + 1, s);
  }

  lemma {:induction false} DigestsBack(b: Bytes, c: nat, parts: seq<Digest>, acc: seq<Digest>)
    requires AllDigests(parts) && At(b, c, Concat(parts))
    ensures ParseDigests(b, c, |parts|, acc) == Ok(acc + parts, c + |Concat(parts)|)
    decreases parts
  {
    if parts == [] {
      assert acc + parts == acc;
    } else {
      AtSplit(b, c, parts[0], Concat(parts[1..]));
      AtSlice(b, c, parts[0]);
      DigestsBack(b, c + 32, parts[1..], acc + [parts[0]]);
      assert acc + parts == (acc + [parts[0]]) + parts[1..];
    }
  }

  lemma GasBack(b: Bytes, c: nat, o: Option<GasWitness>)
    requires At(b, c, EncodeGas(o))
    ensures ParseGas(b, c) == Ok(o, c + |EncodeGas(o)|)
  {
    match o
    case None =>
      assert b[c + 0] == [0 as Byte][0];
    case Some(g) =>
      Ranges();
      BeWidth(g.total, 16);
      BeWidth(g.miner, 16);
      AtSplit(b, c, [1] + ToBe(g.total, 16) + ToBe(g.miner, 16), ToBe(g.fullnode, 16));
      AtSplit(b, c, [1] + ToBe(g.total, 16), ToBe(g.miner, 16));
      AtSplit(b, c, [1], ToBe(g.total, 16));
      assert b[c + 0] == [1 as Byte][0];
      BeRoundTrip(b, c + 1, g.total, 16);
      BeRoundTrip(b, c + 17, g.miner, 16);
      BeRoundTrip(b, c + 33, g.fullnode, 16);
  }

  ghost predicate AllDigests(parts: seq<Digest>) {
    forall i :: 0 <= i < |parts| ==> |parts[i]| == 32
  }

  /** Every digest has 32 bytes and every length the format writes fits 32 bits. */
  ghost predicate FitsProof(p: Proof) {
    && |p.path| < TWO_32 && |p.siblings| < TWO_32 && (p.leaf.Some? ==> |p.leaf.value| < TWO_32)
    && |p.root| == 32 && AllDigests(p.siblings)
  }

  ghost predicate FitsEntry(e: Entry) {
    |e.key| == 32 && FitsProof(e.proof) && (e.value.Some? ==> |e.value.value| < TWO_32)
  }

  ghost predicate Fits(w: Witness) {
    |w.root| == 32 && |w.entries| < TWO_32 && FitsEntries(w.entries)
  }

  ghost predicate FitsEntries(entries: seq<Entry>) {
    forall e :: e in entries ==> FitsEntry(e)
  }

  /** What a proof comes back as: the type is the other one, the opening proofs are gone. */
  function Flip(t: ProofType): ProofType {
    match t
    case Membership => NonMembership
    case NonMembership => Membership
  }

  function ReturnedEntry(e: Entry): Entry {
    e.(proof := e.proof.(proofType := Flip(e.proof.proofType), openings := []))
  }

  function MapAll<T>(f: T -> T, xs: seq<T>): seq<T> {
    if xs == [] then [] else [f(xs[0])] + MapAll(f, xs[1..])
  }

  function Returned(w: Witness): Witness {
    Witness(w.root, MapAll(ReturnedEntry, w.entries))
  }

  /** What the design promises to get back. */
  function StrippedEntry(e: Entry): Entry {
    e.(proof := e.proof.(openings := []))
  }

  function Stripped(w: Witness): Witness {
    Witness(w.root, MapAll(StrippedEntry, w.entries))
  }

  lemma SiblingsBack(b: Bytes, c: nat, siblings: seq<Digest>)
    requires AllDigests(siblings) && |siblings| < TWO_32 && At(b, c, EncodeLength(|siblings|) + Concat(siblings))
    ensures ParseLength(b, c) == Ok(|siblings|, c + 4)
    ensures ParseDigests(b, c + 4, |siblings|, []) == Ok(siblings, c + |EncodeLength(|siblings|) + Concat(siblings)|)
  {
    AtSplit(b, c, EncodeLength(|siblings|), Concat(siblings));
    LengthBack(b, c, |siblings|);
    DigestsBack(b, c + 4, siblings, []);
    assert [] + siblings == siblings;
  }

  lemma FivePieces(b: Bytes, c: nat, v: Bytes, w: Bytes, x: Bytes, y: Bytes, z: Bytes)
    requires At(b, c, v + w + x + y + z)
    ensures At(b, c, v) && At(b, c + |v|, w) && At(b, c + |v| + |w|, x)
    ensures At(b, c + |v| + |w| + |x|, y) && At(b, c + |v| + |w| + |x| + |y|, z)
  {
    AtSplit(b, c, v + w + x + y, z);
    AtSplit(b, c, v + w + x, y);
    AtSplit(b, c, v + w, x);
    AtSplit(b, c, v, w);
  }

  lemma ProofTailBack(b: Bytes, c: nat, p: Proof, t: ProofType)
    requires FitsProof(p) && At(b, c, EncodeProofTail(p))
    ensures ParseProofTail(b, c, t) == Ok(p.(proofType := t, openings := []), c + |EncodeProofTail(p)|)
  {
    var c1, c3, c4 := TailPieces(b, c, p);
    ProofTailParts(b, c, t, p, c1, c3, c4);
  }

  /** Where the pieces of a proof tail start. */
  lemma TailPieces(b: Bytes, c: nat, p: Proof) returns (c1: nat, c3: nat, c4: nat)
    requires FitsProof(p) && At(b, c, EncodeProofTail(p))
    ensures At(b, c, EncodeBytes(p.path)) && c1 == c + |EncodeBytes(p.path)|
    ensures At(b, c1, EncodeLength(|p.siblings|) + Concat(p.siblings))
    ensures c3 == c1 + |EncodeLength(|p.siblings|) + Concat(p.siblings)| && At(b, c3, p.root)
    ensures At(b, c3 + 32, EncodeOptional(p.leaf)) && c4 == c3 + 32 + |EncodeOptional(p.leaf)|
    ensures At(b, c4, EncodeGas(p.gas)) && c4 + |EncodeGas(p.gas)| == c + |EncodeProofTail(p)|
  {
    c1 := c + |EncodeBytes(p.path)|;
    c3 := c1 + |EncodeLength(|p.siblings|) + Concat(p.siblings)|;
    c4 := c3 + 32 + |EncodeOptional(p.leaf)|;
    FiveStarts(b, c, EncodeBytes(p.path), EncodeLength(|p.siblings|) + Concat(p.siblings), p.root, EncodeOptional(p.leaf),
               EncodeGas(p.gas), c1, c3, c4);
  }

  lemma FiveStarts(b: Bytes, c: nat, v: Bytes, w: Bytes, x: Bytes, y: Bytes, z: Bytes, c1: nat, c3: nat, c4: nat)
    requires At(b, c, v + w + x + y + z) && |x| == 32
    requires c1 == c + |v| && c3 == c1 + |w| && c4 == c3 + 32 + |y|
    ensures At(b, c, v) && At(b, c1, w) && At(b, c3, x) && At(b, c3 + 32, y) && At(b, c4, z)
    ensures c4 + |z| == c + |v + w + x + y + z|
  {
    FivePieces(b, c, v, w, x, y, z);
  }

  lemma {:induction false} ProofTailParts(b: Bytes, c: nat, t: ProofType, p: Proof, c1: nat, c3: nat, c4: nat)
    requires FitsProof(p)
    requires At(b, c, EncodeBytes(p.path)) && c1 == c + |EncodeBytes(p.path)|
    requires At(b, c1, EncodeLength(|p.siblings|) + Concat(p.siblings))
    requires c3 == c1 + |EncodeLength(|p.siblings|) + Concat(p.siblings)| && At(b, c3, p.root)
    requires At(b, c3 + 32, EncodeOptional(p.leaf)) && c4 == c3 + 32 + |EncodeOptional(p.leaf)|
    requires At(b, c4, EncodeGas(p.gas))
    ensures ParseProofTail(b, c, t) == Ok(p.(proofType := t, openings := []), c4 + |EncodeGas(p.gas)|)
  {
    TailFront(b, c, p, c1, c3);
    TailEnd(b, c3, p, c4);
    ProofTailRead(b, c, t, p, c1, c3, c4, c4 + |EncodeGas(p.gas)|);
  }

  lemma {:induction false} TailFront(b: Bytes, c: nat, p: Proof, c1: nat, c3: nat)
    requires FitsProof(p) && At(b, c, EncodeBytes(p.path)) && c1 == c + |EncodeBytes(p.path)|
    requires At(b, c1, EncodeLength(|p.siblings|) + Concat(p.siblings))
    requires c3 == c1 + |EncodeLength(|p.siblings|) + Concat(p.siblings)|
    ensures ParseBytes(b, c) == Ok(p.path, c1) && ParseLength(b, c1) == Ok(|p.siblings|, c1 + 4)
    ensures ParseDigests(b, c1 + 4, |p.siblings|, []) == Ok(p.siblings, c3)
  {
    BytesBack(b, c, p.path);
    SiblingsBack(b, c1, p.siblings);
  }

  lemma {:induction false} TailEnd(b: Bytes, c3: nat, p: Proof, c4: nat)
    requires FitsProof(p) && At(b, c3 + 32, EncodeOptional(p.leaf)) && c4 == c3 + 32 + |EncodeOptional(p.leaf)|
    requires At(b, c4, EncodeGas(p.gas))
    ensures ParseOptional(b, c3 + 32) == Ok(p.leaf, c4) && ParseGas(b, c4) == Ok(p.gas, c4 + |EncodeGas(p.gas)|)
  {
    OptionalBack(b, c3 + 32, p.leaf);
    GasBack(b, c4, p.gas);
  }

  lemma ProofTailRead(b: Bytes, c: nat, t: ProofType, p: Proof, c1: nat, c3: nat, c4: nat, c5: nat)
    requires ParseBytes(b, c) == Ok(p.path, c1)
    requires ParseLength(b, c1) == Ok(|p.siblings|, c1 + 4)
    requires ParseDigests(b, c1 + 4, |p.siblings|, []) == Ok(p.siblings, c3)
    requires At(b, c3, p.root) && |p.root| == 32
    requires ParseOptional(b, c3 + 32) == Ok(p.leaf, c4)
    requires ParseGas(b, c4) == Ok(p.gas, c5)
    ensures ParseProofTail(b, c, t) == Ok(p.(proofType := t, openings := []), c5)
  {
    AtSlice(b, c3, p.root);
  }

  lemma EntryBack(b: Bytes, c: nat, e: Entry)
    requires FitsEntry(e) && At(b, c, EncodeEntry(e))
    ensures ParseEntry(b, c) == Ok(ReturnedEntry(e), c + |EncodeEntry(e)|)
  {
    var t, value := [TypeByte(e.proof.proofType)], EncodeOptional(e.value);
    AtSplit(b, c, e.key + t + value, EncodeProofTail(e.proof));
    AtSplit(b, c, e.key + t, value);
    AtSplit(b, c, e.key, t);
    EntryParts(b, c, e, c + 33 + |value|);
  }

  lemma EntryParts(b: Bytes, c: nat, e: Entry, c1: nat)
    requires FitsEntry(e) && At(b, c, e.key) && At(b, c + 32, [TypeByte(e.proof.proofType)])
    requires At(b, c + 33, EncodeOptional(e.value)) && c1 == c + 33 + |EncodeOptional(e.value)|
    requires At(b, c1, EncodeProofTail(e.proof))
    ensures ParseEntry(b, c) == Ok(ReturnedEntry(e), c1 + |EncodeProofTail(e.proof)|)
  {
    assert b[c + 32 + 0] == [TypeByte(e.proof.proofType)][0];
    OptionalBack(b, c + 33, e.value);
    ProofTailBack(b, c1, e.proof, Flip(e.proof.proofType));
    EntryCompose(b, c, e, c1, c1 + |EncodeProofTail(e.proof)|);
  }

  lemma EntryCompose(b: Bytes, c: nat, e: Entry, c1: nat, c2: nat)
    requires At(b, c, e.key) && |e.key| == 32 && c + 34 <= |b| && b[c + 32] == TypeByte(e.proof.proofType)
    requires ParseOptional(b, c + 33) == Ok(e.value, c1)
    requires ParseProofTail(b, c1, Flip(e.proof.proofType)) ==
             Ok(e.proof.(proofType := Flip(e.proof.proofType), openings := []), c2)
    ensures ParseEntry(b, c) == Ok(ReturnedEntry(e), c2)
  {
    AtSlice(b, c, e.key);
  }

  lemma EntryParsesBack(b: Bytes, e: Entry)
    requires FitsEntry(e)
    ensures ParsesBack(EncodeEntry, ParseEntry, ReturnedEntry, b, e)
  {
    forall d: nat
      ensures ParsesBackAt(EncodeEntry, ParseEntry, ReturnedEntry, b, e, d)
    {
      if At(b, d, EncodeEntry(e)) {
        EntryBack(b, d, e);
      }
    }
  }

  ghost predicate ParsesBackAt<T>(print1: T -> Bytes, parse1: (Bytes, nat) -> Parsed<T>, back: T -> T,
                                  b: Bytes, x: T, d: nat) {
    At(b, d, print1(x)) ==> parse1(b, d) == Ok(back(x), d + |print1(x)|)
  }

  ghost predicate ParsesBack<T>(print1: T -> Bytes, parse1: (Bytes, nat) -> Parsed<T>, back: T -> T, b: Bytes, x: T) {
    forall d: nat :: ParsesBackAt(print1, parse1, back, b, x, d)
  }

  /** If every element of a list parses back where it was printed, so does the list. */
  lemma {:induction false} ListBack<T>(print1: T -> Bytes, parse1: (Bytes, nat) -> Parsed<T>, back: T -> T,
                                       b: Bytes, c: nat, xs: seq<T>, acc: seq<T>)
    requires forall i :: 0 <= i < |xs| ==> ParsesBack(print1, parse1, back, b, xs[i])
    requires At(b, c, PrintAll(print1, xs))
    ensures ParseAll(parse1, b, c, |xs|, acc) == Ok(acc + MapAll(back, xs), c + |PrintAll(print1, xs)|)
    decreases xs
  {
    if xs == [] {
      assert acc + [] == acc;
    } else {
      var x, rest := xs[0], xs[1..];
      AtSplit(b, c, print1(x), PrintAll(print1, rest));
      assert ParsesBack(print1, parse1, back, b, x);
      assert ParsesBackAt(print1, parse1, back, b, x, c);
      ParseOneMore(parse1, b, c, |xs|, acc);
      ListBack(print1, parse1, back, b, c + |print1(x)|, rest, acc + [back(x)]);
      Assoc(acc, [back(x)], MapAll(back, rest));
    }
  }

  /**
   The round trip as the code has it, whatever bytes follow: everything comes back except that every proof type is
   swapped (the printer numbers the variants one way, the parser the other) and the opening proofs are gone.
   */
  lemma {:induction false} RoundTrip(w: Witness, tail: Bytes)
    requires Fits(w)
    ensures Decode(Encode(w) + tail) == Ok(Returned(w), |Encode(w)|)
  {
    var b := Encode(w) + tail;
    assert At(b, 0, Encode(w));
    AtSplit(b, 0, w.root + EncodeLength(|w.entries|), PrintAll(EncodeEntry, w.entries));
    AtSplit(b, 0, w.root, EncodeLength(|w.entries|));
    LengthBack(b, 32, |w.entries|);
    RoundTripAt(b, w);
  }

  lemma RoundTripAt(b: Bytes, w: Witness)
    requires Fits(w) && At(b, 0, w.root)
    requires ParseLength(b, 32) == Ok(|w.entries|, 36)
    requires At(b, 36, PrintAll(EncodeEntry, w.entries))
    ensures Decode(b) == Ok(Returned(w), 36 + |PrintAll(EncodeEntry, w.entries)|)
  {
    forall i | 0 <= i < |w.entries|
      ensures ParsesBack(EncodeEntry, ParseEntry, ReturnedEntry, b, w.entries[i])
    {
      EntryParsesBack(b, w.entries[i]);
    }
    ListBack(EncodeEntry, ParseEntry, ReturnedEntry, b, 36, w.entries, []);
    DecodeRead(b, w, MapAll(ReturnedEntry, w.entries), 36 + |PrintAll(EncodeEntry, w.entries)|);
  }

  lemma DecodeRead(b: Bytes, w: Witness, entries: seq<Entry>, c: nat)
    requires At(b, 0, w.root) && |w.root| == 32
    requires ParseLength(b, 32) == Ok(|w.entries|, 36)
    requires ParseAll(ParseEntry, b, 36, |w.entries|, []) == Ok([] + entries, c)
    ensures Decode(b) == Ok(Witness(w.root, entries), c)
  {
    assert [] + entries == entries;
    AtSlice(b, 0, w.root);
    assert b[..32] == b[0..0 + 32];
  }

  /** The promised round trip therefore holds exactly for witnesses without entries. */
  lemma PromisedRoundTripIff(w: Witness, tail: Bytes)
    requires Fits(w)
    ensures Decode(Encode(w) + tail) == Ok(Stripped(w), |Encode(w)|) <==> w.entries == []
  {
    RoundTrip(w, tail);
    if w.entries != [] {
      assert MapAll(ReturnedEntry, w.entries)[0].proof.proofType != MapAll(StrippedEntry, w.entries)[0].proof.proofType;
    }
  }

  lemma {:induction false} ReturnedFits(entries: seq<Entry>)
    requires FitsEntries(entries)
    ensures FitsEntries(MapAll(ReturnedEntry, entries)) && |MapAll(ReturnedEntry, entries)| == |entries|
  {
    if entries == [] {
    } else {
      ReturnedFits(entries[1..]);
      var returned, rest := MapAll(ReturnedEntry, entries), MapAll(ReturnedEntry, entries[1..]);
      assert returned == [ReturnedEntry(entries[0])] + rest;
      assert entries[0] in entries;
    }
  }

  lemma ReturnedSize(e: Entry)
    ensures |EncodeEntry(ReturnedEntry(e))| == |EncodeEntry(e)|
    ensures ReturnedEntry(ReturnedEntry(e)) == StrippedEntry(e)
  {
  }

  lemma {:induction false} TwiceMapped<T>(f: T -> T, g: T -> T, print1: T -> Bytes, xs: seq<T>)
    requires forall i :: 0 <= i < |xs| ==> f(f(xs[i])) == g(xs[i]) && |print1(f(xs[i]))| == |print1(xs[i])|
    ensures |PrintAll(print1, MapAll(f, xs))| == |PrintAll(print1, xs)|
    ensures MapAll(f, MapAll(f, xs)) == MapAll(g, xs)
  {
    if xs == [] {
    } else {
      var mapped := MapAll(f, xs);
      assert mapped[0] == f(xs[0]) && mapped[1..] == MapAll(f, xs[1..]);
      TwiceMapped(f, g, print1, xs[1..]);
    }
  }

  /** A second trip swaps the types back. */
  lemma DoubleRoundTrip(w: Witness, tail: Bytes, tail1: Bytes)
    requires Fits(w)
    ensures Decode(Encode(w) + tail).Ok?
    ensures Decode(Encode(Decode(Encode(w) + tail).value) + tail1) == Ok(Stripped(w), |Encode(w)|)
  {
    RoundTrip(w, tail);
    ReturnedFits(w.entries);
    forall i | 0 <= i < |w.entries| {
      ReturnedSize(w.entries[i]);
    }
    TwiceMapped(ReturnedEntry, StrippedEntry, EncodeEntry, w.entries);
    RoundTrip(Returned(w), tail1);
  }

  lemma {:induction false} ReturnedInjective(xs: seq<Entry>, ys: seq<Entry>)
    requires MapAll(ReturnedEntry, xs) == MapAll(ReturnedEntry, ys)
    ensures MapAll(StrippedEntry, xs) == MapAll(StrippedEntry, ys)
  {
    if xs == [] || ys == [] {
      assert |MapAll(ReturnedEntry, xs)| == 0;
    } else {
      var rx, ry := MapAll(ReturnedEntry, xs), MapAll(ReturnedEntry, ys);
      assert rx[0] == ry[0] && rx[1..] == ry[1..];
      assert rx[1..] == MapAll(ReturnedEntry, xs[1..]) && ry[1..] == MapAll(ReturnedEntry, ys[1..]);
      ReturnedInjective(xs[1..], ys[1..]);
      assert StrippedEntry(xs[0]) == StrippedEntry(ys[0]);
    }
  }

  /** The format is prefix-free: one encoding starts with another only if both encode the same witness. */
  lemma PrefixFree(v: Witness, w: Witness, tail: Bytes)
    requires Fits(v) && Fits(w) && Encode(w) == Encode(v) + tail
    ensures Stripped(v) == Stripped(w) && tail == []
  {
    RoundTrip(v, tail);
    RoundTrip(w, []);
    assert Encode(w) + [] == Encode(w);
    ReturnedInjective(v.entries, w.entries);
  }

  // ----- parsing then printing -----

  lemma LengthConsumed(b: Bytes, c: nat)
    requires ParseLength(b, c).Ok?
    ensures var r := ParseLength(b, c);
            r.next == c + 4 <= |b| && r.value < TWO_32 && |EncodeLength(r.value)| == 4
  {
    BeBound(b, c, 4);
    Ranges();
    BeWidth(ParseLength(b, c).value % TWO_32, 4);
  }

  lemma BytesConsumed(b: Bytes, c: nat)
    requires ParseBytes(b, c).Ok?
    ensures var r := ParseBytes(b, c);
            r.next <= |b| && |r.value| < TWO_32 && r.next == c + |EncodeBytes(r.value)|
  {
    LengthConsumed(b, c);
  }

  lemma OptionalConsumed(b: Bytes, c: nat)
    requires ParseOptional(b, c).Ok?
    ensures var r := ParseOptional(b, c);
            r.next <= |b| && (r.value.Some? ==> |r.value.value| < TWO_32) && r.next == c + |EncodeOptional(r.value)|
  {
    if b[c] == 1 {
      BytesConsumed(b, c + 1);
    }
  }

  lemma {:induction false} DigestsConsumed(b: Bytes, c: nat, n: nat, acc: seq<Digest>)
    requires ParseDigests(b, c, n, acc).Ok? && c <= |b|
    requires AllDigests(acc)
    ensures var r := ParseDigests(b, c, n, acc);
            r.next <= |b| && r.next == c + 32 * n && |r.value| == |acc| + n && AllDigests(r.value)
    decreases n
  {
    if n == 0 {
    } else {
      DigestsConsumed(b, c + 32, n - 1, acc + [b[c..c + 32]]);
    }
  }

  lemma {:induction false} ConcatLength(parts: seq<Digest>)
    requires AllDigests(parts)
    ensures |Concat(parts)| == 32 * |parts|
  {
    if parts == [] {
    } else {
      ConcatLength(parts[1..]);
    }
  }

  lemma GasConsumed(b: Bytes, c: nat)
    requires ParseGas(b, c).Ok?
    ensures var r := ParseGas(b, c); r.next <= |b| && r.next == c + |EncodeGas(r.value)|
  {
    var r := ParseGas(b, c);
    if r.value.Some? {
      BeWidth(r.value.value.total, 16);
      BeWidth(r.value.value.miner, 16);
      BeWidth(r.value.value.fullnode, 16);
    }
  }

  lemma ProofTailConsumed(b: Bytes, c: nat, t: ProofType)
    requires ParseProofTail(b, c, t).Ok?
    ensures var r := ParseProofTail(b, c, t);
            r.next <= |b| && FitsProof(r.value) && r.value.openings == [] && r.next == c + |EncodeProofTail(r.value)|
  {
    var r := ParseProofTail(b, c, t);
    BytesConsumed(b, c);
    var c1 := ParseBytes(b, c).next;
    LengthConsumed(b, c1);
    var count := ParseLength(b, c1).value;
    DigestsConsumed(b, c1 + 4, count, []);
    ConcatLength(r.value.siblings);
    var c3 := c1 + 4 + 32 * count;
    OptionalConsumed(b, c3 + 32);
    GasConsumed(b, ParseOptional(b, c3 + 32).next);
  }

  lemma EntryConsumed(b: Bytes, c: nat)
    requires ParseEntry(b, c).Ok?
    ensures var r := ParseEntry(b, c);
            r.next <= |b| && FitsEntry(r.value) && r.value == StrippedEntry(r.value) && r.next == c + |EncodeEntry(r.value)|
  {
    OptionalConsumed(b, c + 33);
    ProofTailConsumed(b, ParseOptional(b, c + 33).next, ParseType(b[c + 32]).value);
  }

  /** If parsing an element consumes what printing it takes and meets `good`, so does parsing a list. */
  lemma {:induction false} ListConsumed<T(!new)>(print1: T -> Bytes, parse1: (Bytes, nat) -> Parsed<T>, good: T -> bool,
                                           b: Bytes, c: nat, n: nat, acc: seq<T>) returns (more: seq<T>)
    requires forall d: nat :: parse1(b, d).Ok? ==>
               var r := parse1(b, d); r.next == d + |print1(r.value)| <= |b| && good(r.value)
    requires ParseAll(parse1, b, c, n, acc).Ok? && c <= |b|
    ensures ParseAll(parse1, b, c, n, acc) == Ok(acc + more, c + |PrintAll(print1, more)|)
    ensures |more| == n && c + |PrintAll(print1, more)| <= |b| && forall x :: x in more ==> good(x)
    decreases n
  {
    if n == 0 {
      more := [];
      assert acc + more == acc;
    } else {
      var x := parse1(b, c);
      var rest := ListConsumed(print1, parse1, good, b, x.next, n - 1, acc + [x.value]);
      more := [x.value] + rest;
      assert more[0] == x.value && more[1..] == rest;
      Assoc(acc, [x.value], rest);
    }
  }

  lemma {:induction false} AllStripped(entries: seq<Entry>)
    requires forall e :: e in entries ==> e == StrippedEntry(e)
    ensures entries == MapAll(StrippedEntry, entries)
  {
    if entries == [] {
    } else {
      assert entries[0] in entries;
      AllStripped(entries[1..]);
    }
  }

  /**
   Whatever byte string the parser accepts, it stays inside it, its result has no opening proofs and fits the format,
   and it consumes exactly as many bytes as printing the result takes.
   */
  lemma DecodedFits(b: Bytes)
    requires Decode(b).Ok?
    ensures var r := Decode(b);
            r.next <= |b| && Fits(r.value) && r.value == Stripped(r.value) && r.next == |Encode(r.value)|
  {
    LengthConsumed(b, 32);
    forall d: nat | ParseEntry(b, d).Ok?
      ensures var r := ParseEntry(b, d);
              r.next == d + |EncodeEntry(r.value)| <= |b| && FitsEntry(r.value) && r.value == StrippedEntry(r.value)
    {
      EntryConsumed(b, d);
    }
    var good := (e: Entry) => FitsEntry(e) && e == StrippedEntry(e);
    var entries := ListConsumed(EncodeEntry, ParseEntry, good, b, 36, FromBe(b, 32, 4), []);
    assert [] + entries == entries;
    AllStripped(entries);
    BeWidth(|entries| % TWO_32, 4);
  }
}
