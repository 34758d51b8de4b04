/** What holds in every state the cross-chain contract can reach. */
module ContractTheorems {
  import opened Words
  import opened CrossStruct
  import opened AnchorTable
  import opened SignatureCount
  import opened OrderEncoding
  import opened Contract
  import opened ChainInvariant
  import opened ContractRuns
  import opened Totals
  import opened Transactions

  // ---------- Money ----------

  /** Conservation over any run. */
  lemma BalanceIsConserved(g: Guard, k: Crypto, owner: Address, txs: seq<Tx>)
    ensures var (w, h) := After(g, k, owner, txs);
            w.balance == h.stuck + Total(w.chains, Held)
  {
    hide Step, After, ChainInv, BookOk;
    RunKeepsInv(g, k, owner, txs);
  }

  /** The balance covers every open order and every reward pot, also together. */
  lemma BalanceCovers(w: World, h: History, p: uint8, txId: Hash)
    requires Money(w, h)
    ensures w.balance >= Held(At(w, p)) >= At(w, p).totalReward + MakerOf(At(w, p).makerTxs, txId).value
  {
    forall q | q in w.chains ensures Held(w.chains[q]) >= 0 {
      TotalCovers(w.chains[q].makerTxs, OrderValue, txId);
    }
    TotalCovers(w.chains, Held, p);
    TotalCovers(At(w, p).makerTxs, OrderValue, txId);
  }

  /** No payout fails for lack of funds: in every reachable state a permitted
      approval goes through whenever the recipient takes the money, and so does
      an authorised reward. */
  lemma PayoutsAreFunded(g: Guard, k: Crypto, owner: Address, txs: seq<Tx>,
                         msg: Message, rtx: Recept, p: uint8, anchor: Address, amount: uint256)
    ensures var w := After(g, k, owner, txs).0;
            && (MayApprove(w, msg, rtx) ==> DoMakerFinish(w, msg, rtx, true).Some?)
            && (amount <= At(w, p).totalReward && AnchorOf(At(w, p).anchors, anchor).purpose == p
                ==> DoAccumulateRewards(w, p, anchor, amount, true).Some?)
  {
    hide Step, After, ChainInv, BookOk, Held, Money;
    RunKeepsInv(g, k, owner, txs);
    var (w, h) := After(g, k, owner, txs);
    assert Money(w, h);
    BalanceCovers(w, h, rtx.origin, rtx.txId);
    BalanceCovers(w, h, p, 0);
  }

  // ---------- Orders ----------

  /** What is known of one order after a run with new identifiers. */
  lemma OrderAfterRun(g: Guard, k: Crypto, owner: Address, txs: seq<Tx>, key: OrderKey)
    requires FreshRun(g, k, owner, txs)
    ensures var (w, h) := After(g, k, owner, txs);
            OrderOk(MakerOf(At(w, key.p).makerTxs, key.txId), h, key) && BookOk(At(w, key.p), h, key)
  {
    hide Step, After, FreshRun, ChainInv, Money, OrderOk, BookOk;
    RunKeepsInv(g, k, owner, txs);
    RunKeepsOrders(g, k, owner, txs);
  }

  /** In every run an order pays out at most once, its stored value, after as
      many approvals as were required, from different callers, each an available
      anchor when it called. */
  lemma OrderPaysOnce(g: Guard, k: Crypto, owner: Address, txs: seq<Tx>, key: OrderKey)
    requires FreshRun(g, k, owner, txs)
    ensures var h := After(g, k, owner, txs).1;
            var ap, pay := Approvals(h, key), Payouts(h, key);
            && |pay| <= 1
            && DistinctCallers(ap)
            && (forall i :: 0 <= i < |ap| ==> ap[i].available)
            && (|pay| == 1 ==>
                  && key in h.started && pay[0].amount == h.started[key].value
                  && 1 <= |ap| && pay[0].needed <= |ap| && pay[0].to == ap[|ap| - 1].taker)
  {
    hide Step, After, FreshRun;
    OrderAfterRun(g, k, owner, txs, key);
  }

  /** Every approval names the maker as sender. If the maker named a receiver, and
      itself by a nonempty text, it names that receiver or the maker as receiver. */
  lemma ApprovalsNameTheParties(g: Guard, k: Crypto, owner: Address, txs: seq<Tx>, key: OrderKey, i: nat)
    requires FreshRun(g, k, owner, txs)
    requires i < |Approvals(After(g, k, owner, txs).1, key)|
    ensures var h := After(g, k, owner, txs).1;
            && key in h.started
            && var o, a := h.started[key], Approvals(h, key)[i];
               a.from == o.from && (o.from != "" && o.to != "" ==> a.to == o.to || a.to == o.from)
  {
    hide Step, After, FreshRun;
    OrderAfterRun(g, k, owner, txs, key);
    var h := After(g, k, owner, txs).1;
    ReceiverIsParty(h.started[key], Approvals(h, key), i);
  }

  lemma {:induction false} ReceiverIsParty(o: Opening, s: seq<Approval>, i: nat)
    requires i < |s| && Parties(o, s)
    ensures s[i].from == o.from && (o.from != "" && o.to != "" ==> s[i].to == o.to || s[i].to == o.from)
  {
    if i > 0 {
      ReceiverIsParty(o, s, i - 1);
      assert s[..i][i - 1] == s[i - 1];
    }
  }

  /** All approvals of an order name one taker hash exactly when the first names a
      nonzero one or the last still names zero. */
  lemma ApprovalsAgreeIff(g: Guard, k: Crypto, owner: Address, txs: seq<Tx>, key: OrderKey)
    requires FreshRun(g, k, owner, txs)
    requires Approvals(After(g, k, owner, txs).1, key) != []
    ensures var ap := Approvals(After(g, k, owner, txs).1, key);
            (forall i, j :: 0 <= i < j < |ap| ==> ap[i].hash == ap[j].hash) <==>
            ap[0].hash != 0 || ap[|ap| - 1].hash == 0
  {
    hide Step, After, FreshRun;
    HashesAfterRun(g, k, owner, txs, key);
    hide HashesSettle, Approvals;
    HashesAgreeIff(Approvals(After(g, k, owner, txs).1, key));
  }

  lemma HashesAfterRun(g: Guard, k: Crypto, owner: Address, txs: seq<Tx>, key: OrderKey)
    requires FreshRun(g, k, owner, txs)
    ensures HashesSettle(Approvals(After(g, k, owner, txs).1, key))
  {
    hide Step, After, FreshRun;
    OrderAfterRun(g, k, owner, txs, key);
  }

  lemma HashesAgreeIff(s: seq<Approval>)
    requires HashesSettle(s) && s != []
    ensures (forall i, j :: 0 <= i < j < |s| ==> s[i].hash == s[j].hash) <==> s[0].hash != 0 || s[|s| - 1].hash == 0
  {
    if s[0].hash != 0 {
      assert forall i :: 0 < i < |s| ==> s[i].hash == s[0].hash;
    }
    if s[|s| - 1].hash == 0 {
      assert forall i :: 0 <= i < |s| - 1 ==> s[i].hash == 0;
    }
  }

  /** While an order is open its 8-bit counter is the number of recorded
      approvers and stays below its last value, so it never wraps. */
  lemma CounterCountsApprovers(g: Guard, k: Crypto, owner: Address, txs: seq<Tx>, key: OrderKey)
    requires FreshRun(g, k, owner, txs)
    ensures var (w, h) := After(g, k, owner, txs);
            var m := MakerOf(At(w, key.p).makerTxs, key.txId);
            m.value > 0 ==> m.signatureCount == |m.signatures| == |Approvals(h, key)| <= 254
  {
    hide Step, After, FreshRun;
    OrderAfterRun(g, k, owner, txs, key);
    var (w, h) := After(g, k, owner, txs);
    CallersSize(Approvals(h, key), MakerOf(At(w, key.p).makerTxs, key.txId).signatures);
  }

  lemma {:induction false} CallersSize(s: seq<Approval>, callers: set<Address>)
    requires DistinctCallers(s)
    requires forall i :: 0 <= i < |s| ==> s[i].caller in callers
    requires forall a :: a in callers ==> exists i :: 0 <= i < |s| && s[i].caller == a
    ensures |callers| == |s|
  {
    if s == [] {
      assert callers == {};
    } else {
      var n := |s| - 1;
      forall a | a in callers - {s[n].caller} ensures exists i :: 0 <= i < n && s[..n][i].caller == a {
        var i :| 0 <= i < |s| && s[i].caller == a;
        assert s[..n][i].caller == a;
      }
      CallersSize(s[..n], callers - {s[n].caller});
    }
  }

  // ---------- Identifiers used again ----------

  lemma BookAfterRun(g: Guard, k: Crypto, owner: Address, txs: seq<Tx>, key: OrderKey)
    ensures var (w, h) := After(g, k, owner, txs); BookOk(At(w, key.p), h, key)
  {
    hide Step, After, ChainInv, Money, BookOk;
    RunKeepsInv(g, k, owner, txs);
  }

  /** After any run, identifiers used again or not: an order just started has a
      counter that agrees with its recorded approvers exactly when nobody has
      approved an order under its identifier before. */
  lemma ReusedIdentifierIff(g: Guard, k: Crypto, owner: Address, txs: seq<Tx>,
                            msg: Message, p: uint8, txId: Hash, from: string, to: string)
    ensures var (w, h) := After(g, k, owner, txs);
            var r := DoMakerStart(w, msg, p, txId, from, to);
            r.Some? ==>
              var m := MakerOf(At(r.value, p).makerTxs, txId);
              m.signatureCount == |m.signatures| <==> Approvals(h, OrderKey(p, txId)) == []
  {
    BookAfterRun(g, k, owner, txs, OrderKey(p, txId));
    hide Step, After;
    var (w, h) := After(g, k, owner, txs);
    CallersSize(Approvals(h, OrderKey(p, txId)), MakerOf(At(w, p).makerTxs, txId).signatures);
  }

  /** Who has approved an order never approves again under its identifier, in any
      continuation of the run, whatever orders are started there; so all
      approvals under an identifier have different callers. */
  lemma ApproversNeverReturn(g: Guard, k: Crypto, owner: Address, txs: seq<Tx>, later: seq<Tx>, key: OrderKey,
                             i: nat, value: uint256, rtx: Recept)
    requires txs <= later && i < |Approvals(After(g, k, owner, txs).1, key)|
    requires rtx.origin == key.p && rtx.txId == key.txId
    ensures var a := Approvals(After(g, k, owner, txs).1, key)[i].caller;
            var (w, h) := After(g, k, owner, later);
            && !MayApprove(w, Message(a, value), rtx)
            && Approvals(After(g, k, owner, txs).1, key) <= Approvals(h, key) && DistinctCallers(Approvals(h, key))
  {
    BookAfterRun(g, k, owner, later, key);
    ApprovalsGrow(g, k, owner, txs, later, key);
    hide Step, After;
  }

  /** In every reachable state: once all available anchors of a chain have
      approved under an identifier, no order under it can be approved any more. */
  lemma UsedUpIdentifierIsStuck(g: Guard, k: Crypto, owner: Address, txs: seq<Tx>, msg: Message, rtx: Recept)
    ensures var (w, h) := After(g, k, owner, txs);
            var ap := Approvals(h, OrderKey(rtx.origin, rtx.txId));
            (forall a: Address :: IsAvailable(At(w, rtx.origin), rtx.origin, a) ==>
               exists i :: 0 <= i < |ap| && ap[i].caller == a) ==> !MayApprove(w, msg, rtx)
  {
    BookAfterRun(g, k, owner, txs, OrderKey(rtx.origin, rtx.txId));
    hide Step, After;
    var w := After(g, k, owner, txs).0;
    if MayApprove(w, msg, rtx) { assert IsAvailable(At(w, rtx.origin), rtx.origin, msg.sender); }
  }

  lemma {:induction false} ApprovalsGrow(g: Guard, k: Crypto, owner: Address, txs: seq<Tx>, later: seq<Tx>, key: OrderKey)
    requires txs <= later
    ensures Approvals(After(g, k, owner, txs).1, key) <= Approvals(After(g, k, owner, later).1, key)
    decreases |later|
  {
    hide Step;
    if txs != later {
      var n := |later| - 1;
      assert txs <= later[..n];
      ApprovalsGrow(g, k, owner, txs, later[..n], key);
      var (w, h) := After(g, k, owner, later[..n]);
      StepGrows(g, k, w, h, later[n], key);
    } else {
      assert txs == later;
    }
  }

  lemma StepGrows(g: Guard, k: Crypto, w: World, h: History, tx: Tx, key: OrderKey)
    ensures Approvals(h, key) <= Approvals(Step(g, k, w, h, tx).1, key)
  {
    hide Execute, PaysOut;
  }

  // ---------- Anchors ----------

  lemma ChainAfterRun(g: Guard, k: Crypto, owner: Address, txs: seq<Tx>, p: uint8)
    ensures var (w, h) := After(g, k, owner, txs); ChainInv(g, At(w, p), p, Removed(h, p))
  {
    hide Step, After, BookOk, Money, ChainInv;
    RunKeepsInv(g, k, owner, txs);
  }

  /** The ring remembers exactly the last 64 removed addresses, in distinct
      slots, and no current anchor: whichever guard removal has. */
  lemma RingOverRuns(g: Guard, k: Crypto, owner: Address, txs: seq<Tx>, p: uint8, a: Address)
    requires p > 0
    ensures var (w, h) := After(g, k, owner, txs);
            var c, removed := At(w, p), Removed(h, p);
            && (IsRetired(c, a) <==> a in removed[if |removed| < 64 then 0 else |removed| - 64..])
            && Slots(c.delAnchors, c.delsAddress, p)
            && (|removed| >= 64 ==> c.delId < |c.delsAddress| == 64 && c.delsAddress[c.delId] == removed[|removed| - 64])
            && (IsListed(c, a) ==> !IsRetired(c, a))
  {
    ChainAfterRun(g, k, owner, txs, p);
    hide Step, After, Slots;
    var (w, h) := After(g, k, owner, txs);
    var c, removed := At(w, p), Removed(h, p);
    RingIsLast64(c, p, removed, a);
    if |removed| >= 64 {
      assert (|removed| - 64) % 64 == |removed| % 64;
    }
  }

  /** The anchor table over runs. With the guard that accepts registered
      addresses it is always valid. With the guard as written it is valid exactly
      as long as no removal has succeeded; what remains in any case is a list of
      different, registered anchors. */
  lemma TableOverRuns(g: Guard, k: Crypto, owner: Address, txs: seq<Tx>, p: uint8)
    requires p > 0
    ensures var (w, h) := After(g, k, owner, txs);
            && (Table(At(w, p), p) <==> g.Registered? || Removed(h, p) == [])
            && |At(w, p).anchorAddress| <= 64 && Entries(At(w, p))
  {
    ChainAfterRun(g, k, owner, txs, p);
    hide Step, After, Entries;
    var (w, h) := After(g, k, owner, txs);
    var c := At(w, p);
    if !(g.Registered? || Removed(h, p) == []) {
      var x :| Orphan(c, x);
      assert x in c.anchors;
    }
  }

  /** Registering a chain with anchors gives a valid table exactly when its
      number is not zero: purpose zero is also how an unregistered chain reads. */
  lemma RegisterGivesTableIff(g: Guard, k: Crypto, owner: Address, txs: seq<Tx>, p: uint8, maxValue: uint256,
                              count: uint8, list: seq<Address>, router: string)
    requires list != []
    ensures var r := DoChainRegister(After(g, k, owner, txs).0, p, maxValue, count, list, router);
            r.Some? ==> (Table(At(r.value, p), p) <==> p > 0)
  {
    var w := After(g, k, owner, txs).0;
    if DoChainRegister(w, p, maxValue, count, list, router).Some? {
      ChainAfterRun(g, k, owner, txs, p);
      hide Step, After, Table, ChainInv;
      RegisterTableIff(g, At(w, p), p, maxValue, count, list, router, Removed(After(g, k, owner, txs).1, p));
    }
  }

  lemma RegisterTableIff(g: Guard, c: Chain, p: uint8, maxValue: uint256, count: uint8, list: seq<Address>,
                         router: string, removed: seq<Address>)
    requires ChainInv(g, c, p, removed) && c.purpose == 0 && 0 < |list| <= 64
    requires RegisterAll(FreshChain(c, p, maxValue, count, router), p, list).Some?
    ensures Table(RegisterAll(FreshChain(c, p, maxValue, count, router), p, list).value, p) <==> p > 0
  {
    if p > 0 {
      RegisterKeepsInv(g, c, p, maxValue, count, list, router);
    } else {
      RegisterAllLength(FreshChain(c, p, maxValue, count, router), p, list);
      var d := RegisterAll(FreshChain(c, p, maxValue, count, router), p, list).value;
      assert d.anchorAddress[0] in d.anchorAddress;
    }
  }

  lemma {:induction false} RegisterAllLength(c: Chain, p: uint8, list: seq<Address>)
    requires RegisterAll(c, p, list).Some?
    ensures |RegisterAll(c, p, list).value.anchorAddress| == |c.anchorAddress| + |list|
    decreases |list|
  {
    if list != [] { RegisterAllLength(Enlist(c, p, list[0]), p, list[1..]); }
  }

  /** Switching an anchor off leaves at least as many available as are required,
      also after removals that have broken the table. */
  lemma DisableKeepsQuorum(g: Guard, k: Crypto, owner: Address, txs: seq<Tx>, p: uint8, anchor: Address)
    requires p > 0
    ensures var w := After(g, k, owner, txs).0;
            DoSetAnchorStatus(w, p, anchor, false).Some? ==>
              var d := At(DoSetAnchorStatus(w, p, anchor, false).value, p);
              CountAvailable(d, d.anchorAddress) >= d.signConfirmCount
  {
    ChainAfterRun(g, k, owner, txs, p);
    var c := At(After(g, k, owner, txs).0, p);
    assert |c.anchorAddress| <= 64 && Entries(c);
    hide After, ChainInv, Entries, CountAvailable;
    if CountAvailable(c, c.anchorAddress) % U8 > c.signConfirmCount {
      DisabledQuorum(c, anchor);
    }
  }

  lemma DisabledQuorum(c: Chain, anchor: Address)
    requires |c.anchorAddress| <= 64 && Entries(c) && CountAvailable(c, c.anchorAddress) % U8 > c.signConfirmCount
    ensures CountAvailable(SetStatus(c, anchor, false), c.anchorAddress) >= c.signConfirmCount
  {
    CountAvailableBounded(c, c.anchorAddress);
    DisabledCount(c, c.anchorAddress, anchor);
  }

  lemma {:induction false} CountAvailableBounded(c: Chain, list: seq<Address>)
    ensures CountAvailable(c, list) <= |list|
    decreases |list|
  {
    if list != [] { CountAvailableBounded(c, list[1..]); }
  }

  lemma {:induction false} DisabledCount(c: Chain, list: seq<Address>, a: Address)
    requires forall i, j :: 0 <= i < j < |list| ==> list[i] != list[j]
    ensures CountAvailable(SetStatus(c, a, false), list) >= CountAvailable(c, list) - (if a in list then 1 else 0)
    decreases |list|
  {
    if list != [] {
      DisabledCount(c, list[1..], a);
      assert a in list <==> a == list[0] || a in list[1..];
    }
  }

  /** A removal leaves at least as many anchors as approvals are required exactly
      when there were enough before: otherwise the subtraction has wrapped. */
  lemma RemovalKeepsQuorumIff(g: Guard, w: World, p: uint8, list: seq<Address>)
    requires DoRemoveAnchors(g, w, p, list).Some?
    ensures var c, d := At(w, p), At(DoRemoveAnchors(g, w, p, list).value, p);
            |d.anchorAddress| >= c.signConfirmCount <==> |c.anchorAddress| >= c.signConfirmCount
  {
    RemoveAllLength(g, At(w, p), p, list);
  }

  lemma {:induction false} RemoveAllLength(g: Guard, c: Chain, p: uint8, list: seq<Address>)
    requires RemoveAll(g, c, p, list).Some?
    ensures |RemoveAll(g, c, p, list).value.anchorAddress| == |c.anchorAddress| - |list|
    decreases |list|
  {
    if list != [] {
      RemoveAllLength(g, RemoveBody(c, p, list[0]).value, p, list[1..]);
    }
  }

  // ---------- Takers ----------

  /** The signers of an order that are anchors of its chain, or were among the
      last 64 removed. */
  ghost function Vouchers(c: Chain, signers: seq<Address>): set<Address> {
    set a | a in signers && (IsListed(c, a) || IsRetired(c, a))
  }

  /** The signers that count: for the maker itself current and remembered anchors,
      for everybody else the available ones. */
  ghost function Counted(c: Chain, p: uint8, signers: seq<Address>, byOwner: bool): set<Address> {
    if byOwner then Current(c, p, signers) + Remembered(c, p, signers) else Available(c, p, signers)
  }

  /** Soundness of taker in every reachable state, whatever removals have done to
      the table: an accepted order from a chain with a nonzero number carries the
      signatures of at least as many different anchors as are required, all of
      them registered, or, for the maker itself, among the last 64 removed. */
  lemma TakenOrderIsSigned(g: Guard, k: Crypto, owner: Address, txs: seq<Tx>, msg: Message, o: Order, accepts: bool)
    requires o.origin > 0
    ensures var w := After(g, k, owner, txs).0;
            DoTaker(k, w, msg, o, accepts).Some? ==>
              var c, signers, byOwner := At(w, o.origin), Recovered(k, o), msg.sender == o.from;
              && |Counted(c, o.origin, signers, byOwner)| >= c.signConfirmCount
              && Counted(c, o.origin, signers, byOwner) <= Vouchers(c, signers)
              && (!byOwner ==> forall a :: a in Counted(c, o.origin, signers, byOwner) ==> IsListed(c, a))
  {
    ChainAfterRun(g, k, owner, txs, o.origin);
    var c := At(After(g, k, owner, txs).0, o.origin);
    assert Narrow(c) && Apart(c);
    hide Step, After, ChainInv;
    if |o.v| == |o.r| == |o.s| {
      hide Tally, OwnerTally, CountOf, OwnerCountOf, Recovered, Narrow, Apart;
      var signers := Recovered(k, o);
      CountIsSound(c, o.origin, signers);
      OwnerCountIsSound(c, o.origin, signers);
      CurrentApartFromRemembered(c, o.origin, signers);
    }
  }

  /** The exact condition: an accepted order carries the signatures of as many
      current or remembered anchors as are required if and only if its chain has a
      nonzero number or requires none. Chain zero has no anchors at all: there
      every address that was never written counts. */
  lemma TakenOrderIsSignedIff(g: Guard, k: Crypto, owner: Address, txs: seq<Tx>, msg: Message, o: Order, accepts: bool)
    ensures var w := After(g, k, owner, txs).0;
            DoTaker(k, w, msg, o, accepts).Some? ==>
              var c := At(w, o.origin);
              |Vouchers(c, Recovered(k, o))| >= c.signConfirmCount <==> o.origin > 0 || c.signConfirmCount == 0
  {
    var w := After(g, k, owner, txs).0;
    var c := At(w, o.origin);
    if DoTaker(k, w, msg, o, accepts).Some? {
      var signers := Recovered(k, o);
      ChainAfterRun(g, k, owner, txs, o.origin);
      if o.origin > 0 {
        TakenOrderIsSigned(g, k, owner, txs, msg, o, accepts);
        hide After, DoTaker, Vouchers, Counted;
        SubsetSize(Counted(c, o.origin, signers, msg.sender == o.from), Vouchers(c, signers));
      } else {
        hide After, DoTaker;
        assert Vouchers(c, signers) == {};
      }
    }
  }

  lemma {:induction false} SubsetSize(s: set<Address>, t: set<Address>)
    requires s <= t
    ensures |s| <= |t|
  {
    if s != {} {
      var a :| a in s;
      SubsetSize(s - {a}, t - {a});
    }
  }

  /** An order without any signature passes everywhere where no signature is
      required, and nowhere else; that includes every chain with a nonzero number
      that is not registered. */
  lemma UnsignedIsTakenIff(g: Guard, k: Crypto, owner: Address, txs: seq<Tx>, msg: Message, o: Order)
    requires o.v == [] && o.r == [] && o.s == []
    requires o.to == 0 && msg.value >= o.charge
    ensures var w := After(g, k, owner, txs).0;
            var c := At(w, o.origin);
            && (TakerOf(c.takerTxs, o.txId).value == 0 ==> (DoTaker(k, w, msg, o, true).Some? <==> c.signConfirmCount == 0))
            && (o.origin > 0 && c.purpose == 0 ==> c.signConfirmCount == 0)
  {
    ChainAfterRun(g, k, owner, txs, o.origin);
    var c := At(After(g, k, owner, txs).0, o.origin);
    assert Narrow(c);
    hide Step, After;
    hide Tally, OwnerTally, CountOf, OwnerCountOf, Narrow;
    CountIsSound(c, o.origin, []);
    OwnerCountIsSound(c, o.origin, []);
    assert Recovered(k, o) == [];
    CurrentUnfold(c, o.origin, []);
    AvailableUnfold(c, o.origin, []);
  }

  /** In every reachable state an order is accepted from a taker exactly when it is
      addressed to it, new and paid for, and the number of bit positions of the
      available anchors that signed, modulo 63, is as large as required. For the
      maker itself current and remembered anchors count, each kind modulo 63. An
      accepted order is recorded, and the attached value passed on to the maker. */
  lemma OrderIsTakenIff(g: Guard, k: Crypto, owner: Address, txs: seq<Tx>, msg: Message, o: Order)
    requires |o.v| == |o.r| == |o.s|
    ensures var w := After(g, k, owner, txs).0;
            var c, p, signers := At(w, o.origin), o.origin, Recovered(k, o);
            var seen := TakerOf(c.takerTxs, o.txId);
            var r := Execute(g, k, w, msg, Taker(o, true));
            && (r.Some? <==>
                  && (seen.value == 0 || seen.from != o.from)
                  && (if msg.sender == o.from then
                        |Positions(c.anchors, Current(c, p, signers))| % 63
                        + |Positions(c.delAnchors, Remembered(c, p, signers))| % 63 >= c.signConfirmCount
                      else
                        && (o.to == 0 || o.to == msg.sender) && msg.value >= o.charge
                        && |Positions(c.anchors, Available(c, p, signers))| % 63 >= c.signConfirmCount))
            && (r.Some? ==>
                  && TakerOf(At(r.value, p).takerTxs, o.txId) == TakerInfo(o.value, o.from)
                  && r.value.balance == w.balance && r.value.sent == w.sent + [Transfer(o.from, msg.value)])
  {
    ChainAfterRun(g, k, owner, txs, o.origin);
    var c := At(After(g, k, owner, txs).0, o.origin);
    assert Narrow(c);
    hide Step, After, ChainInv, Narrow;
    hide Available, Current, Remembered, Positions, Recovered, CheckSignatures, DoTaker, Execute;
    CheckCounts(k, c, o);
    TakeIff(k, After(g, k, owner, txs).0, msg, o);
    ExecuteTaker(g, k, After(g, k, owner, txs).0, msg, o);
  }

  lemma ExecuteTaker(g: Guard, k: Crypto, w: World, msg: Message, o: Order)
    ensures Execute(g, k, w, msg, Taker(o, true)) == DoTaker(k, w, msg, o, true)
  {
    hide DoTaker;
  }

  lemma TakeIff(k: Crypto, w: World, msg: Message, o: Order)
    requires |o.v| == |o.r| == |o.s|
    ensures var c := At(w, o.origin);
            var seen, count := TakerOf(c.takerTxs, o.txId), CheckSignatures(k, c, o, msg.sender == o.from).1;
            var r := DoTaker(k, w, msg, o, true);
            && (r.Some? <==>
                  && (seen.value == 0 || seen.from != o.from) && count >= c.signConfirmCount
                  && (msg.sender != o.from ==> (o.to == 0 || o.to == msg.sender) && msg.value >= o.charge))
            && (r.Some? ==>
                  && TakerOf(At(r.value, o.origin).takerTxs, o.txId) == TakerInfo(o.value, o.from)
                  && r.value.balance == w.balance && r.value.sent == w.sent + [Transfer(o.from, msg.value)])
  {
    hide CheckSignatures;
  }

  lemma CheckCounts(k: Crypto, c: Chain, o: Order)
    requires Narrow(c) && |o.v| == |o.r| == |o.s|
    ensures var p, signers := o.origin, Recovered(k, o);
            && CheckSignatures(k, c, o, false).1 == |Positions(c.anchors, Available(c, p, signers))| % 63
            && CheckSignatures(k, c, o, true).1 ==
                 |Positions(c.anchors, Current(c, p, signers))| % 63 + |Positions(c.delAnchors, Remembered(c, p, signers))| % 63
  {
    hide Tally, OwnerTally, Available, Current, Remembered, Positions, CountOf, OwnerCountOf, Recovered, Narrow;
    CountIsSound(c, o.origin, Recovered(k, o));
    OwnerCountIsSound(c, o.origin, Recovered(k, o));
  }

  /** From hub to contract, in every reachable state: an order signed on the hub is
      accepted under exactly that condition on the anchors that signed there. */
  lemma HubOrderIsTakenIff(g: Guard, k: Crypto, owner: Address, txs: seq<Tx>, msg: Message,
                           tx: CrossTransaction, hex: string -> Address, sigs: seq<Signature>, signers: seq<Address>)
    requires k.chainId > 0 && 0 <= tx.value < U256 && 0 <= tx.charge < U256
    requires |sigs| == |signers| && forall i :: 0 <= i < |sigs| ==> Signs(k, hex, tx, sigs[i], signers[i])
    ensures var w := After(g, k, owner, txs).0;
            var c, p, from := At(w, tx.origin), tx.origin, hex(tx.from);
            var seen := TakerOf(c.takerTxs, tx.ctxId);
            var r := DoTaker(k, w, msg, SignedOrder(k, hex, tx, sigs), true);
            && (r.Some? <==>
                  && (seen.value == 0 || seen.from != from)
                  && (if msg.sender == from then
                        |Positions(c.anchors, Current(c, p, signers))| % 63
                        + |Positions(c.delAnchors, Remembered(c, p, signers))| % 63 >= c.signConfirmCount
                      else
                        && (hex(tx.to) == 0 || hex(tx.to) == msg.sender) && msg.value >= tx.charge
                        && |Positions(c.anchors, Available(c, p, signers))| % 63 >= c.signConfirmCount))
            && (r.Some? ==> TakerOf(At(r.value, p).takerTxs, tx.ctxId) == TakerInfo(tx.value, from))
  {
    var o := SignedOrder(k, hex, tx, sigs);
    HubSignersRecovered(k, hex, tx, sigs, signers);
    hide Step, After, DoTaker, Execute, Available, Current, Remembered, Positions, Recovered, TakerOf, At;
    OrderIsTakenIff(g, k, owner, txs, msg, o);
    ExecuteTaker(g, k, After(g, k, owner, txs).0, msg, o);
  }

  /** While the table of a chain is valid, positions stand for anchors: the
      numbers compared are numbers of anchors, each modulo 63. */
  lemma PositionsAreAnchors(g: Guard, k: Crypto, owner: Address, txs: seq<Tx>, p: uint8, signers: seq<Address>)
    requires p > 0 && Table(At(After(g, k, owner, txs).0, p), p)
    ensures var c := At(After(g, k, owner, txs).0, p);
            && |Positions(c.anchors, Available(c, p, signers))| == |Available(c, p, signers)| <= 64
            && |Positions(c.anchors, Current(c, p, signers))| == |Current(c, p, signers)| <= 64
            && |Positions(c.delAnchors, Remembered(c, p, signers))| == |Remembered(c, p, signers)| <= 64
  {
    ChainAfterRun(g, k, owner, txs, p);
    var c := At(After(g, k, owner, txs).0, p);
    assert Slots(c.delAnchors, c.delsAddress, p) && |c.delsAddress| <= 64 && Apart(c);
    hide Step, After, ChainInv, Slots, Positions, Apart;
    CurrentApartFromRemembered(c, p, signers);
    SlotsGiveDistinctPositions(c.anchors, c.anchorAddress, p, Available(c, p, signers));
    SlotsGiveDistinctPositions(c.anchors, c.anchorAddress, p, Current(c, p, signers));
    SlotsGiveDistinctPositions(c.delAnchors, c.delsAddress, p, Remembered(c, p, signers));
  }

  /** An order just taken is not taken again, by anybody, if it has a value; and
      the very same call succeeds a second time exactly when it has none. */
  lemma RetakenIff(g: Guard, k: Crypto, owner: Address, txs: seq<Tx>, msg: Message, o: Order)
    ensures DoTaker(k, After(g, k, owner, txs).0, msg, o, true).Some? ==>
            var w' := DoTaker(k, After(g, k, owner, txs).0, msg, o, true).value;
            && (DoTaker(k, w', msg, o, true).Some? <==> o.value == 0)
            && (o.value > 0 ==> forall m: Message, o': Order ::
                  o'.origin == o.origin && o'.txId == o.txId && o'.from == o.from ==> DoTaker(k, w', m, o', true).None?)
  {
    ChainAfterRun(g, k, owner, txs, o.origin);
    hide Step, After;
    var c := At(After(g, k, owner, txs).0, o.origin);
    var byOwner := msg.sender == o.from;
    if |o.v| == |o.r| == |o.s| {
      var d := CheckSignatures(k, c, o, byOwner).0;
      RecountSame(k, c, d.takerTxs[o.txId := TakerInfo(o.value, o.from)], o, byOwner);
      hide CheckSignatures;
    }
  }

  /** Over any run: between two takings of one identifier for the same maker, the
      first with a value, the identifier was taken for another maker. */
  lemma TakenOnceUnlessDisplaced(g: Guard, k: Crypto, owner: Address, txs: seq<Tx>, key: OrderKey, i: nat, j: nat)
    requires i < j < |Takings(After(g, k, owner, txs).1, key)|
    ensures var s := Takings(After(g, k, owner, txs).1, key);
            s[i].value > 0 && s[i].from == s[j].from ==> i + 1 < j && s[i + 1].from != s[i].from
  {
    BookAfterRun(g, k, owner, txs, key);
    hide Step, After, ApproversFit;
    var s := Takings(After(g, k, owner, txs).1, key);
    assert s[i].value == 0 || s[i].from != s[i + 1].from;
  }

  /** Exactly the taking before it can stand in an order's way: it is accepted if
      and only if it would be under an identifier never taken, and the last
      taking under its own had no value or another maker. */
  lemma LastTakingDecides(g: Guard, k: Crypto, owner: Address, txs: seq<Tx>, msg: Message, o: Order, accepts: bool)
    ensures var (w, h) := After(g, k, owner, txs);
            var c, s := At(w, o.origin), Takings(h, OrderKey(o.origin, o.txId));
            DoTaker(k, w, msg, o, accepts).Some? <==>
              && DoTaker(k, Put(w, o.origin, c.(takerTxs := c.takerTxs - {o.txId})), msg, o, accepts).Some?
              && (s == [] || s[|s| - 1].value == 0 || s[|s| - 1].from != o.from)
  {
    BookAfterRun(g, k, owner, txs, OrderKey(o.origin, o.txId));
    ChainAfterRun(g, k, owner, txs, o.origin);
    var w := After(g, k, owner, txs).0;
    assert Narrow(At(w, o.origin));
    hide Step, After, ApproversFit, ChainInv;
    RecordDecides(k, w, msg, o, accepts);
    hide DoTaker;
  }

  lemma RecordDecides(k: Crypto, w: World, msg: Message, o: Order, accepts: bool)
    requires Narrow(At(w, o.origin))
    ensures var c, seen := At(w, o.origin), TakerOf(At(w, o.origin).takerTxs, o.txId);
            DoTaker(k, w, msg, o, accepts).Some? <==>
              && DoTaker(k, Put(w, o.origin, c.(takerTxs := c.takerTxs - {o.txId})), msg, o, accepts).Some?
              && (seen.value == 0 || seen.from != o.from)
  {
    if |o.v| == |o.r| == |o.s| {
      hide Tally, OwnerTally, CountOf, OwnerCountOf, Narrow, Recovered;
      var c := At(w, o.origin);
      var c' := c.(takerTxs := c.takerTxs - {o.txId});
      SameReflexive(c.anchors);
      SameReflexive(c.delAnchors);
      CountsAgree(c, c', o.origin, Recovered(k, o));
    }
  }

  /** Counting the same signatures again gives the same count. */
  lemma RecountSame(k: Crypto, c: Chain, taken: map<Hash, TakerInfo>, o: Order, byOwner: bool)
    requires |o.v| == |o.r| == |o.s| && Narrow(c)
    ensures var c' := CheckSignatures(k, c, o, byOwner).0.(takerTxs := taken);
            CheckSignatures(k, c', o, byOwner).1 == CheckSignatures(k, c, o, byOwner).1
    ensures CheckSignatures(k, c, o, byOwner).0.signConfirmCount == c.signConfirmCount
  {
    var p, signers := o.origin, Recovered(k, o);
    var c' := CheckSignatures(k, c, o, byOwner).0.(takerTxs := taken);
    hide Recovered, Tally, OwnerTally, CountOf, OwnerCountOf;
    if byOwner {
      OwnerTallyCounters(c, p, signers, 0, 0);
    } else {
      TallyCounters(c, p, signers, 0, 0);
    }
    CountsAgree(c, c', p, signers);
  }

  lemma CountsAgree(c: Chain, c': Chain, p: uint8, signers: seq<Address>)
    requires Narrow(c) && c'.anchorAddress == c.anchorAddress
    requires SameAnchors(c.anchors, c'.anchors) && SameAnchors(c.delAnchors, c'.delAnchors)
    ensures CountOf(Tally(c, p, signers, 0).1) == CountOf(Tally(c', p, signers, 0).1)
    ensures var (_, m, n) := OwnerTally(c, p, signers, 0, 0);
            var (_, m', n') := OwnerTally(c', p, signers, 0, 0);
            OwnerCountOf(m, n) == OwnerCountOf(m', n')
  {
    hide Tally, OwnerTally, CountOf, OwnerCountOf, Available, Current, Remembered, Positions, Narrow;
    SameAnchorsSamePlaces(c.anchors, c'.anchors);
    SameAnchorsSamePlaces(c.delAnchors, c'.delAnchors);
    PlacesKeepNarrow(c, c');
    SameAvailable(c, c', p, signers);
    SameRemembered(c, c', p, signers);
    SamePositions(c.anchors, c'.anchors, Available(c, p, signers));
    SamePositions(c.anchors, c'.anchors, Current(c, p, signers));
    SamePositions(c.delAnchors, c'.delAnchors, Remembered(c, p, signers));
    CountIsSound(c, p, signers);
    CountIsSound(c', p, signers);
    OwnerCountIsSound(c, p, signers);
    OwnerCountIsSound(c', p, signers);
  }
}
