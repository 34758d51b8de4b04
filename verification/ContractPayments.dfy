/** All money that enters and leaves the cross-chain contract over a run. */
module ContractPayments {
  import opened Words
  import opened CrossStruct
  import opened AnchorTable
  import opened SignatureCount
  import opened OrderEncoding
  import opened Contract
  import opened ContractRuns
  import opened ContractTheorems
  import opened ContractAcceptance

  function SumOf(sent: seq<Transfer>): nat {
    if sent == [] then 0 else SumOf(sent[..|sent| - 1]) + sent[|sent| - 1].amount
  }

  /** The values attached to the successful transactions of a run. */
  function Received(g: Guard, k: Crypto, owner: Address, txs: seq<Tx>): nat {
    if txs == [] then 0
    else
      var w := After(g, k, owner, txs[..|txs| - 1]).0;
      var tx := txs[|txs| - 1];
      Received(g, k, owner, txs[..|txs| - 1]) + if Execute(g, k, w, tx.msg, tx.call).Some? then tx.msg.value else 0
  }

  lemma SumOfSend(w: World, to: Address, amount: nat)
    ensures SumOf(Send(w, to, amount).sent) == SumOf(w.sent) + amount
  {
    assert (w.sent + [Transfer(to, amount)])[..|w.sent|] == w.sent;
  }

  lemma StepConserves(g: Guard, k: Crypto, w: World, tx: Tx)
    ensures var r := Execute(g, k, w, tx.msg, tx.call);
            r.Some? ==> r.value.balance + SumOf(r.value.sent) == w.balance + SumOf(w.sent) + tx.msg.value
  {
    hide CheckSignatures, MayApprove, PaysOut, RegisterAll, AddAll, RemoveAll, LeavesEnough, CountAvailable, SumOf;
    match tx.call
    case AccumulateRewards(p, anchor, amount, _) => SumOfSend(w, anchor, amount);
    case MakerFinish(rtx, _) => SumOfSend(w, rtx.taker, MakerOf(At(w, rtx.origin).makerTxs, rtx.txId).value);
    case Taker(o, _) => SumOfSend(w, o.from, tx.msg.value);
    case _ =>
  }

  /** Over any run the balance is what was attached to successful transactions minus
      what was sent. */
  lemma {:induction false} BalanceIsInMinusOut(g: Guard, k: Crypto, owner: Address, txs: seq<Tx>)
    ensures var w := After(g, k, owner, txs).0;
            w.balance + SumOf(w.sent) == Received(g, k, owner, txs)
  {
    hide Execute, Note;
    if txs == [] {
      assert SumOf(Empty(owner).sent) == 0;
    } else {
      BalanceIsInMinusOut(g, k, owner, txs[..|txs| - 1]);
      StepConserves(g, k, After(g, k, owner, txs[..|txs| - 1]).0, txs[|txs| - 1]);
    }
  }

  /** What a successful transaction has to send, given what was noted before: a
      reward to its anchor, the value attached to a taking to the maker, and the
      value of an order to the taker named by the approval that completes it. */
  function Due(w: World, h: History, tx: Tx): seq<Transfer> {
    match tx.call
    case AccumulateRewards(_, anchor, amount, _) => [Transfer(anchor, amount)]
    case Taker(o, _) => [Transfer(o.from, tx.msg.value)]
    case MakerFinish(rtx, _) =>
      var key := OrderKey(rtx.origin, rtx.txId);
      if key in h.started && h.started[key].value >= 0 && Completes(At(w, key.p), Approvals(h, key))
      then [Transfer(rtx.taker, h.started[key].value)] else []
    case _ => []
  }

  function AllDue(g: Guard, k: Crypto, owner: Address, txs: seq<Tx>): seq<Transfer> {
    if txs == [] then []
    else
      var (w, h) := After(g, k, owner, txs[..|txs| - 1]);
      var tx := txs[|txs| - 1];
      AllDue(g, k, owner, txs[..|txs| - 1]) + if Execute(g, k, w, tx.msg, tx.call).Some? then Due(w, h, tx) else []
  }

  lemma StepSendsDue(g: Guard, k: Crypto, owner: Address, txs: seq<Tx>, tx: Tx)
    requires FreshRun(g, k, owner, txs)
    ensures var (w, h) := After(g, k, owner, txs);
            var r := Execute(g, k, w, tx.msg, tx.call);
            r.Some? ==> r.value.sent == w.sent + Due(w, h, tx)
  {
    var (w, h) := After(g, k, owner, txs);
    hide After, FreshRun, CheckSignatures, RegisterAll, AddAll, RemoveAll, LeavesEnough, CountAvailable, Completes;
    match tx.call
    case MakerFinish(rtx, accepts) =>
      hide DoMakerFinish;
      ApprovalEffect(g, k, owner, txs, tx.msg, rtx, accepts);
      StartedWithinLimit(g, k, owner, txs);
      assert w.sent + [] == w.sent;
    case _ =>
      assert w.sent + [] == w.sent;
  }

  /** Over any run with new order identifiers the contract has sent exactly what was
      due, in that order: every payout, reward and forwarded value and no more. */
  lemma {:induction false} SentIsDue(g: Guard, k: Crypto, owner: Address, txs: seq<Tx>)
    requires FreshRun(g, k, owner, txs)
    ensures After(g, k, owner, txs).0.sent == AllDue(g, k, owner, txs)
  {
    hide Execute, Note, Due;
    if txs != [] {
      var init, tx := txs[..|txs| - 1], txs[|txs| - 1];
      var (w, h) := After(g, k, owner, init);
      SentIsDue(g, k, owner, init);
      StepSendsDue(g, k, owner, init, tx);
      assert w.sent + [] == w.sent;
    }
  }
}
