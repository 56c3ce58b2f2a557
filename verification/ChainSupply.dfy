/** The supply against the UTXO set, block by block: conservation and the absence of inflation. */
module ChainSupply {
  import opened Basics
  import opened Ledger
  import opened ChainState
  import opened ChainUndo

  /**
   Exactly when an applied block keeps the supply equal to the UTXO total: when no creation wrote over a live
   output that carried value.
   */
  lemma ConservedIff(env: Env, s: Core, b: Block)
    requires s.supply == Total(s.utxo) <= MAX_GLOBAL_SUPPLY
    requires ApplyBlock(env, s, b).1 == Done
    ensures var s1 := ApplyBlock(env, s, b).0;
            && Backed(s1.utxo, s1.supply)
            && (s1.supply == Total(s1.utxo) <==> Overwritten(s.utxo, BlockOps(b.txs)) == 0)
            && (Fresh(s.utxo, BlockOps(b.txs)) ==> s1.supply == Total(s1.utxo))
  {
    ApplyDone(env, s, b);
    NoSaturation(s.utxo, s.supply, b);
    if Fresh(s.utxo, BlockOps(b.txs)) {
      FreshOverwritesNothing(s.utxo, BlockOps(b.txs));
    }
  }

  // ----- no inflation -----

  function InputTotal(u: UtxoMap, inputs: seq<OutPoint>): nat {
    if inputs == [] then 0
    else
      var front, last := inputs[..|inputs| - 1], inputs[|inputs| - 1];
      InputTotal(u, front) + if last in u then u[last].value else 0
  }

  function OutputTotal(outputs: seq<TxOutput>): nat {
    if outputs == [] then 0 else OutputTotal(outputs[..|outputs| - 1]) + outputs[|outputs| - 1].value
  }

  function CoinbaseTotal(txs: seq<Tx>): nat {
    if txs == [] then 0
    else (if txs[0].inputs == [] then OutputTotal(txs[0].outputs) else 0) + CoinbaseTotal(txs[1..])
  }

  /**
   The gas fee a transaction declares: gas limit times price. From 2^64 on only the low 64 bits of the product count, and
   from 2^128 on it counts as 2^64 - 1.
   */
  function FeeOf(tx: Tx): nat {
    var product := tx.gasLimit * tx.maxFeePerGas;
    if product < TWO_64 then product
    else if product < TWO_128 then product % TWO_64
    else TWO_64 - 1
  }

  /** The gas fees declared by the transactions that are no coinbase. */
  function FeeTotal(txs: seq<Tx>): nat {
    if txs == [] then 0
    else (if txs[0].inputs == [] then 0 else FeeOf(txs[0])) + FeeTotal(txs[1..])
  }

  /** The fee is the product exactly below 2^64; a limit and a price of 2^32 each declare a fee of nothing. */
  lemma FeeIsProductIff(tx: Tx)
    ensures FeeOf(tx) == tx.gasLimit * tx.maxFeePerGas <==> tx.gasLimit * tx.maxFeePerGas < 0x1_0000_0000_0000_0000
    ensures tx.gasLimit == tx.maxFeePerGas == 0x1_0000_0000 ==> FeeOf(tx) == 0
  {
    var product := tx.gasLimit * tx.maxFeePerGas;
    assert product >= TWO_64 ==> FeeOf(tx) < TWO_64;
  }

  lemma DeclaredIsFee(tx: Tx)
    ensures DeclaredFee(tx) == FeeOf(tx) < TWO_64
  {
  }

  function Clamp64(n: nat): nat {
    if n < TWO_64 then n else TWO_64 - 1
  }

  ghost predicate PaysItsWay(u: UtxoMap, tx: Tx) {
    && (forall i :: 0 <= i < |tx.inputs| ==> tx.inputs[i] in u)
    && Clamp64(InputTotal(u, tx.inputs)) >= Clamp64(OutputTotal(tx.outputs) + FeeOf(tx))
  }

  /**
   What validation asks of a transaction: nothing of one without inputs; otherwise that every input is live and that the
   input values cover the output values and the declared fee, both sides clamped to 64 bits. Where nothing reaches 2^64
   the sums and the product are compared as they are.
   */
  lemma TxValidIff(u: UtxoMap, tx: Tx)
    ensures TxValid(u, tx) <==> tx.inputs == [] || PaysItsWay(u, tx)
    ensures tx.inputs != [] && (forall i :: 0 <= i < |tx.inputs| ==> tx.inputs[i] in u)
            && InputTotal(u, tx.inputs) < TWO_64 && OutputTotal(tx.outputs) + tx.gasLimit * tx.maxFeePerGas < TWO_64 ==>
              (TxValid(u, tx) <==>
               InputTotal(u, tx.inputs) >= OutputTotal(tx.outputs) + tx.gasLimit * tx.maxFeePerGas)
  {
    InputSumClamps(u, tx.inputs);
    OutputSumClamps(tx.outputs);
    DeclaredIsFee(tx);
    FeeIsProductIff(tx);
  }

  /** Validation of a block: every transaction with inputs pays its way, and the root it declares is the current one. */
  lemma ValidIff(env: Env, s: Core, b: Block)
    ensures Valid(env, s, b) <==>
              && (forall i :: 0 <= i < |b.txs| ==> b.txs[i].inputs == [] || PaysItsWay(s.utxo, b.txs[i]))
              && (b.declaredRoot == None || b.txs == [] || b.declaredRoot == Some(env.rootOf(s.tree)))
  {
    forall i | 0 <= i < |b.txs|
      ensures TxValid(s.utxo, b.txs[i]) <==> b.txs[i].inputs == [] || PaysItsWay(s.utxo, b.txs[i])
    {
      TxValidIff(s.utxo, b.txs[i]);
    }
  }

  /** Every live output `u` held keeps at least its value. */
  ghost predicate Dominates(v: UtxoMap, u: UtxoMap) {
    forall o :: o in v && o in u ==> v[o].value >= u[o].value
  }

  /** No creation writes a live output of `u` down to a smaller value; fresh outputs satisfy this trivially. */
  ghost predicate NeverLowers(u: UtxoMap, ops: seq<Op>) {
    forall i :: 0 <= i < |ops| && ops[i].Create? && ops[i].o in u ==> ops[i].out.value >= u[ops[i].o].value
  }

  lemma {:induction false} RunDominates(u: UtxoMap, b: Books, ops: seq<Op>)
    requires Dominates(b.utxo, u) && NeverLowers(u, ops) && Run(b, ops).Some?
    ensures Dominates(Run(b, ops).value.utxo, u)
    decreases ops
  {
    if ops == [] {
    } else {
      assert forall i :: 0 <= i < |ops[1..]| ==> ops[1..][i] == ops[i + 1];
      RunDominates(u, Step(b, ops[0]).value, ops[1..]);
    }
  }

  lemma {:induction false} SpendsSnoc(front: seq<OutPoint>, last: OutPoint)
    ensures Spends(front + [last]) == Spends(front) + [Spend(last)]
  {
    if front == [] {
      assert front + [last] == [last];
    } else {
      assert (front + [last])[1..] == front[1..] + [last];
      SpendsSnoc(front[1..], last);
    }
  }

  ghost predicate SpentExactly(b: Books, inputs: seq<OutPoint>, b1: Books) {
    && NoDup(inputs) && (forall o :: o in inputs ==> o in b.utxo)
    && b1.utxo == b.utxo - Elems(inputs)
    && b1.undo.delta == b.undo.delta - InputTotal(b.utxo, inputs)
  }

  lemma SpendOneMore(b: Books, front: seq<OutPoint>, bf: Books, last: OutPoint)
    requires SpentExactly(b, front, bf) && last in bf.utxo
    ensures SpentExactly(b, front + [last], Step(bf, Spend(last)).value)
  {
    NoDupAppend(front, last);
    assert (front + [last])[..|front|] == front;
    assert bf.utxo - {last} == b.utxo - Elems(front + [last]);
  }

  /** Spending a list of inputs needs them distinct and live, and lowers the delta by their total. */
  lemma {:induction false} RunSpends(b: Books, inputs: seq<OutPoint>)
    requires Run(b, Spends(inputs)).Some?
    ensures SpentExactly(b, inputs, Run(b, Spends(inputs)).value)
  {
    if inputs == [] {
      assert b.utxo - Elems(inputs) == b.utxo;
    } else {
      var front, last := inputs[..|inputs| - 1], inputs[|inputs| - 1];
      assert front + [last] == inputs;
      SpendsSnoc(front, last);
      RunAppend(b, Spends(front), [Spend(last)]);
      RunSpends(b, front);
      var bf := Run(b, Spends(front)).value;
      RunOne(bf, Spend(last));
      SpendOneMore(b, front, bf, last);
    }
  }

  lemma {:induction false} CreatesSnoc(id: Hash, front: seq<TxOutput>, last: TxOutput, index: nat)
    ensures Creates(id, front + [last], index) ==
            Creates(id, front, index) + [Create(OutputPoint(id, index + |front|), last)]
  {
    if front == [] {
      assert front + [last] == [last];
    } else {
      assert (front + [last])[1..] == front[1..] + [last];
      CreatesSnoc(id, front[1..], last, index + 1);
    }
  }

  lemma {:induction false} CreatesTotal(id: Hash, outputs: seq<TxOutput>, index: nat)
    ensures CreatedValue(Creates(id, outputs, index)) == OutputTotal(outputs)
  {
    if outputs == [] {
    } else {
      var front, last := outputs[..|outputs| - 1], outputs[|outputs| - 1];
      assert front + [last] == outputs;
      CreatesSnoc(id, front, last, index);
      CreatesTotal(id, front, index);
      CreatedValueAppend(Creates(id, front, index), [Create(OutputPoint(id, index + |front|), last)]);
    }
  }

  lemma {:induction false} RunCreates(b: Books, id: Hash, outputs: seq<TxOutput>, index: nat)
    requires Run(b, Creates(id, outputs, index)).Some?
    ensures Run(b, Creates(id, outputs, index)).value.undo.delta
            == b.undo.delta + CreatedValue(Creates(id, outputs, index))
    decreases outputs
  {
    if outputs == [] {
    } else {
      RunCreates(Step(b, Creates(id, outputs, index)[0]).value, id, outputs[1..], index + 1);
    }
  }

  /** What one transaction does to the delta. */
  lemma TxDelta(b: Books, tx: Tx)
    requires Run(b, Ops(tx)).Some?
    ensures NoDup(tx.inputs) && forall o :: o in tx.inputs ==> o in b.utxo
    ensures Run(b, Ops(tx)).value.undo.delta
            == b.undo.delta - InputTotal(b.utxo, tx.inputs) + OutputTotal(tx.outputs)
  {
    RunAppend(b, Spends(tx.inputs), Creates(tx.id, tx.outputs, 0));
    RunSpends(b, tx.inputs);
    RunCreates(Run(b, Spends(tx.inputs)).value, tx.id, tx.outputs, 0);
    CreatesTotal(tx.id, tx.outputs, 0);
  }

  lemma {:induction false} InputsWithinTotal(u: UtxoMap, inputs: seq<OutPoint>)
    requires NoDup(inputs)
    ensures InputTotal(u, inputs) <= Total(u)
    decreases |inputs|
  {
    if inputs == [] {
    } else {
      var front, last := inputs[..|inputs| - 1], inputs[|inputs| - 1];
      if last in u {
        SumSplit(u, last, ValueOf);
        InputsWithinTotal(u - {last}, front);
        assert last !in front;
        InputsElsewhere(u, front, last);
      } else {
        InputsWithinTotal(u, front);
      }
    }
  }

  lemma {:induction false} InputsElsewhere(u: UtxoMap, inputs: seq<OutPoint>, o: OutPoint)
    requires o !in inputs
    ensures InputTotal(u, inputs) == InputTotal(u - {o}, inputs)
  {
    if inputs == [] {
    } else {
      InputsElsewhere(u, inputs[..|inputs| - 1], o);
    }
  }

  /** How much less these inputs carry in `v` than in `u`. */
  function Shortfall(u: UtxoMap, v: UtxoMap, inputs: seq<OutPoint>): nat {
    if inputs == [] then 0
    else
      var front, o := inputs[..|inputs| - 1], inputs[|inputs| - 1];
      Shortfall(u, v, front) + if o in u && o in v then SatSub(u[o].value, v[o].value) else 0
  }

  lemma {:induction false} InputsShort(u: UtxoMap, v: UtxoMap, inputs: seq<OutPoint>)
    requires forall i :: 0 <= i < |inputs| ==> inputs[i] in v && inputs[i] in u
    ensures InputTotal(v, inputs) + Shortfall(u, v, inputs) >= InputTotal(u, inputs)
    ensures Dominates(v, u) ==> Shortfall(u, v, inputs) == 0
  {
    if inputs == [] {
    } else {
      InputsShort(u, v, inputs[..|inputs| - 1]);
    }
  }

  /** What a block's transactions lose on inputs that the block itself wrote down before they were spent. */
  function Lowered(u: UtxoMap, b: Books, txs: seq<Tx>): nat
    decreases txs
  {
    if txs == [] || Run(b, Ops(txs[0])).None? then 0
    else
      (if txs[0].inputs == [] then 0 else Shortfall(u, b.utxo, txs[0].inputs)) + Lowered(u, Run(b, Ops(txs[0])).value, txs[1..])
  }

  lemma {:induction false} InputSumClamps(u: UtxoMap, inputs: seq<OutPoint>)
    ensures InputSum(u, inputs) == Clamp64(InputTotal(u, inputs))
  {
    if inputs == [] {
    } else {
      InputSumClamps(u, inputs[..|inputs| - 1]);
    }
  }

  lemma {:induction false} OutputSumClamps(outputs: seq<TxOutput>)
    ensures OutputSum(outputs) == Clamp64(OutputTotal(outputs))
  {
    if outputs == [] {
    } else {
      OutputSumClamps(outputs[..|outputs| - 1]);
    }
  }

  /**
   The inflation check is made with clamped 64-bit sums on the set before the block, the spending happens on the
   evolving set. Below the supply cap no sum can clamp, because the inputs of an applying transaction are distinct.
   */
  lemma TxNeverInflates(u: UtxoMap, b: Books, tx: Tx)
    requires Total(u) <= MAX_GLOBAL_SUPPLY
    requires TxValid(u, tx) && tx.inputs != []
    requires Run(b, Ops(tx)).Some?
    ensures Run(b, Ops(tx)).value.undo.delta + FeeOf(tx) <= b.undo.delta + Shortfall(u, b.utxo, tx.inputs)
  {
    TxDelta(b, tx);
    InputsWithinTotal(u, tx.inputs);
    InputsShort(u, b.utxo, tx.inputs);
    TxValidIff(u, tx);
    DeclaredIsFee(tx);
  }

  lemma {:induction false} BlockNeverInflates(u: UtxoMap, b: Books, txs: seq<Tx>)
    requires Total(u) <= MAX_GLOBAL_SUPPLY && BooksValid(u, txs)
    requires Run(b, BlockOps(txs)).Some?
    ensures Run(b, BlockOps(txs)).value.undo.delta + FeeTotal(txs) <= b.undo.delta + CoinbaseTotal(txs) + Lowered(u, b, txs)
    decreases txs
  {
    if txs == [] {
    } else {
      assert TxValid(u, txs[0]);
      assert forall i :: 0 <= i < |txs[1..]| ==> txs[1..][i] == txs[i + 1];
      RunAppend(b, Ops(txs[0]), BlockOps(txs[1..]));
      if txs[0].inputs == [] {
        TxDelta(b, txs[0]);
      } else {
        TxNeverInflates(u, b, txs[0]);
      }
      BlockNeverInflates(u, Run(b, Ops(txs[0])).value, txs[1..]);
    }
  }

  lemma {:induction false} NothingLowered(u: UtxoMap, b: Books, txs: seq<Tx>)
    requires Dominates(b.utxo, u) && BooksValid(u, txs) && NeverLowers(u, BlockOps(txs))
    requires Run(b, BlockOps(txs)).Some?
    ensures Lowered(u, b, txs) == 0
    decreases txs
  {
    if txs == [] {
    } else {
      var ops, rest := Ops(txs[0]), BlockOps(txs[1..]);
      assert TxValid(u, txs[0]);
      assert forall i :: 0 <= i < |txs[1..]| ==> txs[1..][i] == txs[i + 1];
      assert forall i :: 0 <= i < |ops| ==> ops[i] == BlockOps(txs)[i];
      assert forall i :: 0 <= i < |rest| ==> rest[i] == BlockOps(txs)[|ops| + i];
      RunAppend(b, ops, rest);
      RunDominates(u, b, ops);
      TxDelta(b, txs[0]);
      if txs[0].inputs != [] {
        InputsShort(u, b.utxo, txs[0].inputs);
      }
      NothingLowered(u, Run(b, ops).value, txs[1..]);
    }
  }

  /**
   Connecting a block to a backed state raises the supply by at most the coinbase outputs minus the declared gas fees,
   plus what the block wrote down before spending it. No bound on the sums is needed. A block that writes nothing down
   does not inflate.
   */
  lemma NoInflation(env: Env, s: Core, b: Block)
    requires Backed(s.utxo, s.supply) && Connect(env, s, b).1 == Done
    ensures Connect(env, s, b).0.supply + FeeTotal(b.txs) <=
            s.supply + CoinbaseTotal(b.txs) + Lowered(s.utxo, Books(s.utxo, s.supply, NO_UNDO), b.txs)
    ensures NeverLowers(s.utxo, BlockOps(b.txs)) ==>
              Connect(env, s, b).0.supply + FeeTotal(b.txs) <= s.supply + CoinbaseTotal(b.txs)
  {
    ApplyDone(env, s, b);
    NoSaturation(s.utxo, s.supply, b);
    BlockNeverInflates(s.utxo, Books(s.utxo, s.supply, NO_UNDO), b.txs);
    if NeverLowers(s.utxo, BlockOps(b.txs)) {
      NothingLowered(s.utxo, Books(s.utxo, s.supply, NO_UNDO), b.txs);
    }
  }

  lemma FreshNeverLowers(u: UtxoMap, ops: seq<Op>)
    requires Fresh(u, ops)
    ensures NeverLowers(u, ops)
  {
    forall i | 0 <= i < |ops| && ops[i].Create?
      ensures ops[i].o in CreatedPoints(ops)
    {
      CreatedPointsComplete(ops, i);
    }
  }

  lemma {:induction false} CreatedPointsComplete(ops: seq<Op>, i: nat)
    requires i < |ops| && ops[i].Create?
    ensures ops[i].o in CreatedPoints(ops)
  {
    if i == 0 {
    } else {
      CreatedPointsComplete(ops[1..], i - 1);
    }
  }

  // ----- ids computed from the contents -----

  /** Transactions with the same id have the same outputs, whose number fits a 32-bit index. */
  ghost predicate SameContents(contents: map<Hash, seq<TxOutput>>, txs: seq<Tx>) {
    forall i :: 0 <= i < |txs| ==> ContentOf(contents, txs[i])
  }

  ghost predicate ContentOf(contents: map<Hash, seq<TxOutput>>, tx: Tx) {
    tx.id in contents && contents[tx.id] == tx.outputs && |tx.outputs| <= TWO_32
  }

  ghost predicate FromContents(contents: map<Hash, seq<TxOutput>>, u: UtxoMap) {
    forall o :: o in u ==> IsContent(contents, o, u[o])
  }

  ghost predicate IsContent(contents: map<Hash, seq<TxOutput>>, o: OutPoint, out: TxOutput) {
    o.0 in contents && o.1 < |contents[o.0]| && out == contents[o.0][o.1]
  }

  ghost predicate CreatesContents(contents: map<Hash, seq<TxOutput>>, ops: seq<Op>) {
    forall i :: 0 <= i < |ops| && ops[i].Create? ==> IsContent(contents, ops[i].o, ops[i].out)
  }

  lemma {:induction false} OutputsAreContents(contents: map<Hash, seq<TxOutput>>, id: Hash, outputs: seq<TxOutput>, index: nat)
    requires id in contents && |contents[id]| <= TWO_32 && index + |outputs| == |contents[id]|
    requires contents[id][index..] == outputs
    ensures CreatesContents(contents, Creates(id, outputs, index))
  {
    if outputs == [] {
    } else {
      assert contents[id][index] == outputs[0];
      assert contents[id][index + 1..] == outputs[1..];
      OutputsAreContents(contents, id, outputs[1..], index + 1);
    }
  }

  lemma {:induction false} BlockCreatesContents(contents: map<Hash, seq<TxOutput>>, txs: seq<Tx>)
    requires SameContents(contents, txs)
    ensures CreatesContents(contents, BlockOps(txs))
  {
    if txs == [] {
    } else {
      var tx := txs[0];
      assert ContentOf(contents, tx);
      assert contents[tx.id][0..] == tx.outputs;
      OutputsAreContents(contents, tx.id, tx.outputs, 0);
      SpendsAreInputs(tx.inputs);
      assert forall i :: 0 <= i < |txs[1..]| ==> txs[1..][i] == txs[i + 1];
      BlockCreatesContents(contents, txs[1..]);
    }
  }

  lemma {:induction false} RunFromContents(contents: map<Hash, seq<TxOutput>>, b: Books, ops: seq<Op>)
    requires FromContents(contents, b.utxo) && CreatesContents(contents, ops) && Run(b, ops).Some?
    ensures FromContents(contents, Run(b, ops).value.utxo)
    decreases ops
  {
    if ops == [] {
    } else {
      assert forall i :: 0 <= i < |ops[1..]| ==> ops[1..][i] == ops[i + 1];
      assert ops[0].Create? ==> IsContent(contents, ops[0].o, ops[0].out);
      RunFromContents(contents, Step(b, ops[0]).value, ops[1..]);
    }
  }

  /** With ids computed from the contents no block inflates, and the next state is of the same kind. */
  lemma ContentIdsNeverInflate(env: Env, s: Core, b: Block, contents: map<Hash, seq<TxOutput>>)
    requires Backed(s.utxo, s.supply) && FromContents(contents, s.utxo) && SameContents(contents, b.txs)
    requires Connect(env, s, b).1 == Done
    ensures NeverLowers(s.utxo, BlockOps(b.txs)) && FromContents(contents, Connect(env, s, b).0.utxo)
    ensures Connect(env, s, b).0.supply + FeeTotal(b.txs) <= s.supply + CoinbaseTotal(b.txs)
  {
    var ops := BlockOps(b.txs);
    BlockCreatesContents(contents, b.txs);
    assert NeverLowers(s.utxo, ops) by {
      forall i | 0 <= i < |ops| && ops[i].Create? && ops[i].o in s.utxo
        ensures ops[i].out == s.utxo[ops[i].o]
      {
        assert IsContent(contents, ops[i].o, ops[i].out) && IsContent(contents, ops[i].o, s.utxo[ops[i].o]);
      }
    }
    ApplyDone(env, s, b);
    RunFromContents(contents, Books(s.utxo, s.supply, NO_UNDO), ops);
    NoInflation(env, s, b);
  }
}
