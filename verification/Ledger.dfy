/**
 The UTXO side of a block: a flat list of spends and creations run against a UTXO map, a running supply
 and an undo record, the way `apply_utxo_transaction` and `disconnect_block` do it.
 */
module Ledger {
  import opened Basics

  const MAX_GLOBAL_SUPPLY: nat := 600_000_000_000_000_000
  const BURN_ADDRESS: Hash := 0

  type U64 = n: nat | n < TWO_64

  type U32 = n: nat | n < TWO_32

  /** Transaction id and output index. */
  type OutPoint = (Hash, U32)

  datatype TxOutput = TxOutput(value: U64, owner: Hash)

  type UtxoMap = map<OutPoint, TxOutput>

  /** `contract` says whether the transaction names a contract address. */
  datatype Tx = Tx(id: Hash, inputs: seq<OutPoint>, outputs: seq<TxOutput>,
                   payload: seq<nat>, contract: bool, gasLimit: U64, maxFeePerGas: nat)

  datatype Op = Spend(o: OutPoint) | Create(o: OutPoint, out: TxOutput)

  /** `spent` and `created` in the order they happened; `delta` is the change of the supply. */
  datatype Undo = Undo(spent: seq<(OutPoint, TxOutput)>, created: seq<OutPoint>, delta: int)

  datatype Books = Books(utxo: UtxoMap, supply: nat, undo: Undo)

  const NO_UNDO := Undo([], [], 0)

  function SatAdd128(a: nat, b: nat): nat {
    if a + b < TWO_128 then a + b else TWO_128 - 1
  }

  function SatAdd64(a: nat, b: nat): nat {
    if a + b < TWO_64 then a + b else TWO_64 - 1
  }

  function SatSub(a: nat, b: nat): nat {
    if b <= a then a - b else 0
  }

  // ----- running a block -----

  /** The index is cast to 32 bits. */
  function OutputPoint(id: Hash, index: nat): OutPoint {
    (id, index % TWO_32)
  }

  function Spends(inputs: seq<OutPoint>): seq<Op> {
    if inputs == [] then [] else [Spend(inputs[0])] + Spends(inputs[1..])
  }

  function Creates(id: Hash, outputs: seq<TxOutput>, index: nat): seq<Op> {
    if outputs == [] then [] else [Create(OutputPoint(id, index), outputs[0])] + Creates(id, outputs[1..], index + 1)
  }

  function Ops(tx: Tx): seq<Op> {
    Spends(tx.inputs) + Creates(tx.id, tx.outputs, 0)
  }

  function BlockOps(txs: seq<Tx>): seq<Op> {
    if txs == [] then [] else Ops(txs[0]) + BlockOps(txs[1..])
  }

  function Step(b: Books, op: Op): Option<Books> {
    match op
    case Spend(o) =>
      if o !in b.utxo then None
      else
        var out := b.utxo[o];
        Some(Books(b.utxo - {o}, SatSub(b.supply, out.value),
                   Undo(b.undo.spent + [(o, out)], b.undo.created, b.undo.delta - out.value)))
    case Create(o, out) =>
      Some(Books(b.utxo[o := out], SatAdd128(b.supply, out.value),
                 Undo(b.undo.spent, b.undo.created + [o], b.undo.delta + out.value)))
  }

  function Run(b: Books, ops: seq<Op>): Option<Books>
    decreases ops
  {
    if ops == [] then Some(b)
    else
      match Step(b, ops[0])
      case None => None
      case Some(b1) => Run(b1, ops[1..])
  }

  lemma {:induction false} RunAppend(b: Books, xs: seq<Op>, ys: seq<Op>)
    ensures Run(b, xs + ys) == match Run(b, xs) case None => None case Some(b1) => Run(b1, ys)
    decreases xs
  {
    if xs == [] {
      assert xs + ys == ys;
    } else {
      assert (xs + ys)[1..] == xs[1..] + ys;
      match Step(b, xs[0])
      case None =>
      case Some(b1) => RunAppend(b1, xs[1..], ys);
    }
  }

  lemma RunOne(b: Books, op: Op)
    ensures Run(b, [op]) == Step(b, op)
  {
    assert [op][1..] == [];
    if Step(b, op).Some? {
      assert Run(Step(b, op).value, []) == Step(b, op);
    }
  }

  lemma RunTwo(b: Books, x: Op, y: Op)
    requires Step(b, x).Some?
    ensures Run(b, [x, y]) == Step(Step(b, x).value, y)
  {
    assert [x, y][1..] == [y];
    RunOne(Step(b, x).value, y);
  }

  // ----- taking a block back -----

  /** The entries are put back first to last, so a later entry wins. */
  function Restore(u: UtxoMap, spent: seq<(OutPoint, TxOutput)>): UtxoMap {
    if spent == [] then u
    else
      var last := spent[|spent| - 1];
      Restore(u, spent[..|spent| - 1])[last.0 := last.1]
  }

  function UndoUtxo(u: UtxoMap, undo: Undo): UtxoMap {
    Restore(u - Elems(undo.created), undo.spent)
  }

  function UndoSupply(supply: nat, delta: int): nat {
    if delta > 0 then SatSub(supply, delta) else SatAdd128(supply, -delta)
  }

  ghost predicate IsSpent(spent: seq<(OutPoint, TxOutput)>, o: OutPoint) {
    exists i :: 0 <= i < |spent| && spent[i].0 == o
  }

  /** The output recorded by the last spend of `o`. */
  ghost function LastSpent(spent: seq<(OutPoint, TxOutput)>, o: OutPoint): TxOutput
    requires IsSpent(spent, o)
  {
    var n := |spent| - 1;
    if spent[n].0 == o then spent[n].1 else LastSpent(spent[..n], o)
  }

  lemma SpentSnoc(spent: seq<(OutPoint, TxOutput)>, e: (OutPoint, TxOutput), o: OutPoint)
    ensures IsSpent(spent + [e], o) <==> e.0 == o || IsSpent(spent, o)
    ensures IsSpent(spent + [e], o) ==>
              LastSpent(spent + [e], o) == if e.0 == o then e.1 else LastSpent(spent, o)
  {
    var all := spent + [e];
    assert all[..|all| - 1] == spent;
    if e.0 == o {
      assert all[|spent|].0 == o;
    }
    if IsSpent(spent, o) {
      var i :| 0 <= i < |spent| && spent[i].0 == o;
      assert all[i].0 == o;
    }
  }

  lemma {:induction false} RestoreLookup(u: UtxoMap, spent: seq<(OutPoint, TxOutput)>, o: OutPoint)
    ensures o in Restore(u, spent) <==> o in u || IsSpent(spent, o)
    ensures IsSpent(spent, o) ==> Restore(u, spent)[o] == LastSpent(spent, o)
    ensures o in u && !IsSpent(spent, o) ==> Restore(u, spent)[o] == u[o]
  {
    if spent == [] {
    } else {
      var front, e := spent[..|spent| - 1], spent[|spent| - 1];
      RestoreLookup(u, front, o);
      SpentSnoc(front, e, o);
      assert front + [e] == spent;
    }
  }

  /**
   What the books remember of the UTXO map `u` they started from: an outpoint the block did not create is
   either untouched, or was live in `u`, is gone now and its recorded output is the one `u` held.
   */
  ghost predicate Remembers(u: UtxoMap, b: Books) {
    forall o :: o !in b.undo.created ==> RemembersAt(u, b, o)
  }

  ghost predicate RemembersAt(u: UtxoMap, b: Books, o: OutPoint) {
    if IsSpent(b.undo.spent, o)
    then o in u && o !in b.utxo && LastSpent(b.undo.spent, o) == u[o]
    else (o in u <==> o in b.utxo) && (o in u ==> b.utxo[o] == u[o])
  }

  lemma StepRemembers(u: UtxoMap, b: Books, op: Op)
    requires Remembers(u, b) && Step(b, op).Some?
    ensures Remembers(u, Step(b, op).value)
  {
    var b1 := Step(b, op).value;
    forall o | o !in b1.undo.created
      ensures RemembersAt(u, b1, o)
    {
      assert RemembersAt(u, b, o);
      match op
      case Spend(p) =>
        SpentSnoc(b.undo.spent, (p, b.utxo[p]), o);
      case Create(p, out) =>
        assert b1.undo.created[|b.undo.created|] == p;
    }
  }

  lemma {:induction false} RunRemembers(u: UtxoMap, b: Books, ops: seq<Op>)
    requires Remembers(u, b) && Run(b, ops).Some?
    ensures Remembers(u, Run(b, ops).value)
    decreases ops
  {
    if ops == [] {
    } else {
      StepRemembers(u, b, ops[0]);
      RunRemembers(u, Step(b, ops[0]).value, ops[1..]);
    }
  }

  /**
   The exact condition under which undoing gives `u` back: a created outpoint was either not live in `u` and
   stayed unspent, or it was live in `u` and the last spend of it took the very output `u` held.
   */
  ghost predicate Undoable(u: UtxoMap, undo: Undo) {
    forall o :: o in undo.created ==> UndoableAt(u, undo, o)
  }

  ghost predicate UndoableAt(u: UtxoMap, undo: Undo, o: OutPoint) {
    if IsSpent(undo.spent, o) then o in u && LastSpent(undo.spent, o) == u[o] else o !in u
  }

  lemma UndoExact(u: UtxoMap, b: Books)
    requires Remembers(u, b)
    ensures UndoUtxo(b.utxo, b.undo) == u <==> Undoable(u, b.undo)
  {
    var back := UndoUtxo(b.utxo, b.undo);
    forall o
      ensures (o in back <==> o in u) && (o in u ==> back[o] == u[o]) <==> (o in b.undo.created ==> UndoableAt(u, b.undo, o))
    {
      RestoreLookup(b.utxo - Elems(b.undo.created), b.undo.spent, o);
      if o !in b.undo.created {
        assert RemembersAt(u, b, o);
      }
    }
    if Undoable(u, b.undo) {
      assert back.Keys == u.Keys;
    } else {
      var o :| o in b.undo.created && !UndoableAt(u, b.undo, o);
    }
  }

  // ----- fresh outputs -----

  ghost function CreatedPoints(ops: seq<Op>): seq<OutPoint> {
    if ops == [] then []
    else if ops[0].Create? then [ops[0].o] + CreatedPoints(ops[1..])
    else CreatedPoints(ops[1..])
  }

  /** No creation names a live outpoint of `u` or an outpoint another creation of the list names. */
  ghost predicate Fresh(u: UtxoMap, ops: seq<Op>) {
    NoDup(CreatedPoints(ops)) && forall o :: o in CreatedPoints(ops) ==> o !in u
  }

  /** Every input is live before the block starts. */
  ghost predicate InputsLive(u: UtxoMap, ops: seq<Op>) {
    forall i :: 0 <= i < |ops| && ops[i].Spend? ==> ops[i].o in u
  }

  lemma {:induction false} RunRecord(b: Books, ops: seq<Op>)
    requires Run(b, ops).Some?
    ensures Run(b, ops).value.undo.created == b.undo.created + CreatedPoints(ops)
    ensures forall o :: IsSpent(Run(b, ops).value.undo.spent, o) <==>
                          IsSpent(b.undo.spent, o) || exists i :: 0 <= i < |ops| && ops[i] == Spend(o)
    decreases ops
  {
    if ops != [] {
      var b1 := Step(b, ops[0]).value;
      RunRecord(b1, ops[1..]);
      forall o
        ensures IsSpent(Run(b, ops).value.undo.spent, o) <==>
                  IsSpent(b.undo.spent, o) || exists i :: 0 <= i < |ops| && ops[i] == Spend(o)
      {
        if ops[0].Spend? {
          SpentSnoc(b.undo.spent, (ops[0].o, b.utxo[ops[0].o]), o);
        }
        if i :| 0 <= i < |ops[1..]| && ops[1..][i] == Spend(o) {
          assert ops[i + 1] == Spend(o);
        }
        if i :| 0 <= i < |ops| && ops[i] == Spend(o) && !IsSpent(b1.undo.spent, o) {
          assert i > 0 && ops[1..][i - 1] == Spend(o);
        }
      }
    }
  }

  /**
   A block whose inputs were live before it and whose outputs are fresh can be undone exactly: what it spends
   and what it creates do not meet.
   */
  lemma FreshUndoable(u: UtxoMap, supply: nat, ops: seq<Op>)
    requires Fresh(u, ops) && InputsLive(u, ops)
    requires Run(Books(u, supply, NO_UNDO), ops).Some?
    ensures Undoable(u, Run(Books(u, supply, NO_UNDO), ops).value.undo)
  {
    var b := Books(u, supply, NO_UNDO);
    RunRecord(b, ops);
    assert b.undo.created + CreatedPoints(ops) == CreatedPoints(ops);
  }

  // ----- the supply against the UTXO map -----

  function ValueOf(out: TxOutput): nat {
    out.value
  }

  ghost function Total(u: UtxoMap): nat {
    Sum(u, ValueOf)
  }

  function CreatedValue(ops: seq<Op>): nat {
    if ops == [] then 0
    else (if ops[0].Create? then ops[0].out.value else 0) + CreatedValue(ops[1..])
  }

  /** The value of the live entries that creations write over. */
  function Overwritten(u: UtxoMap, ops: seq<Op>): nat
    decreases ops
  {
    if ops == [] then 0
    else
      match ops[0]
      case Spend(o) => Overwritten(u - {o}, ops[1..])
      case Create(o, out) => (if o in u then u[o].value else 0) + Overwritten(u[o := out], ops[1..])
  }

  /**
   As long as the supply covers the UTXO map and leaves room below 2^128 no saturating operation saturates:
   the supply moves by exactly the recorded delta, and it runs ahead of the UTXO total by exactly the value
   that was written over.
   */
  lemma {:induction false} RunBalance(b: Books, ops: seq<Op>)
    requires Run(b, ops).Some?
    requires Total(b.utxo) <= b.supply && b.supply + CreatedValue(ops) < TWO_128
    ensures var b1 := Run(b, ops).value;
            && b1.supply - b1.undo.delta == b.supply - b.undo.delta
            && b1.supply - Total(b1.utxo) == b.supply - Total(b.utxo) + Overwritten(b.utxo, ops)
            && b1.supply <= b.supply + CreatedValue(ops)
    decreases ops
  {
    if ops == [] {
    } else {
      match ops[0] {
        case Spend(o) =>
          SumSplit(b.utxo, o, ValueOf);
        case Create(o, out) =>
          SumInsert(b.utxo, o, out, ValueOf);
          if o in b.utxo {
            SumSplit(b.utxo, o, ValueOf);
          }
      }
      RunBalance(Step(b, ops[0]).value, ops[1..]);
    }
  }

  lemma {:induction false} FreshOverwritesNothing(u: UtxoMap, ops: seq<Op>)
    requires Fresh(u, ops)
    ensures Overwritten(u, ops) == 0
    decreases ops
  {
    if ops == [] {
    } else {
      var created, rest := CreatedPoints(ops), CreatedPoints(ops[1..]);
      match ops[0] {
        case Spend(o) =>
          FreshOverwritesNothing(u - {o}, ops[1..]);
        case Create(o, out) =>
          assert created[0] == o;
          assert rest == created[1..];
          assert forall p :: p in rest ==> p in created;
          FreshOverwritesNothing(u[o := out], ops[1..]);
      }
    }
  }
}
