/** When the entry points of the cross-chain contract succeed, in every reachable
    state, in terms of what has happened before. */
module ContractAcceptance {
  import opened Words
  import opened CrossStruct
  import opened AnchorTable
  import opened SignatureCount
  import opened OrderEncoding
  import opened Contract
  import opened ChainInvariant
  import opened ContractRuns
  import opened ContractTheorems
  import opened ContractAuthority

  // ---------- Starting an order ----------

  /** An order was started under the identifier and has not been paid out. */
  predicate IsOpen(h: History, key: OrderKey) {
    key in h.started && Payouts(h, key) == [] && h.started[key].value > 0
  }

  /** The stored order of an identifier has a value exactly while one is open. */
  lemma OpenIff(g: Guard, k: Crypto, owner: Address, txs: seq<Tx>, key: OrderKey)
    requires FreshRun(g, k, owner, txs)
    ensures var (w, h) := After(g, k, owner, txs);
            MakerOf(At(w, key.p).makerTxs, key.txId).value > 0 <==> IsOpen(h, key)
  {
    hide Step, After, FreshRun;
    OrderAfterRun(g, k, owner, txs, key);
  }

  /** A registered chain accepts exactly the orders whose attached value covers the
      reward and stays below the limit, under an identifier without an open order,
      while its pot has room. */
  lemma OrderMayStartIff(g: Guard, k: Crypto, owner: Address, txs: seq<Tx>,
                         msg: Message, p: uint8, txId: Hash, from: string, to: string)
    requires FreshRun(g, k, owner, txs)
    ensures var (w, h) := After(g, k, owner, txs);
            var c := At(w, p);
            Execute(g, k, w, msg, MakerStart(p, txId, from, to)).Some? <==>
              && c.purpose > 0 && c.reward <= msg.value < c.maxValue
              && !IsOpen(h, OrderKey(p, txId)) && c.totalReward + c.reward < U256
  {
    hide Step, After, FreshRun, IsOpen;
    OpenIff(g, k, owner, txs, OrderKey(p, txId));
  }

  ghost predicate WithinLimit(h: History) {
    forall key | key in h.started :: 0 <= h.started[key].value && h.started[key].value + h.started[key].reward < h.started[key].limit
  }

  lemma StepKeepsWithinLimit(g: Guard, k: Crypto, w: World, h: History, tx: Tx)
    requires WithinLimit(h)
    ensures WithinLimit(Step(g, k, w, h, tx).1)
  {
    hide WithinLimit, Execute, Note, DoMakerStart;
    if Execute(g, k, w, tx.msg, tx.call).Some? {
      if tx.call.MakerStart? {
        ExecuteStart(g, k, w, tx);
        StartKeepsWithinLimit(w, h, tx);
      } else {
        NothingNewStarted(w, h, tx);
      }
    }
  }

  lemma NothingNewStarted(w: World, h: History, tx: Tx)
    requires WithinLimit(h) && !tx.call.MakerStart?
    ensures WithinLimit(Note(w, h, tx))
  {
    assert Note(w, h, tx).started == h.started;
    hide Note;
  }

  lemma ExecuteStart(g: Guard, k: Crypto, w: World, tx: Tx)
    requires tx.call.MakerStart?
    ensures Execute(g, k, w, tx.msg, tx.call) ==
            DoMakerStart(w, tx.msg, tx.call.p, tx.call.txId, tx.call.from, tx.call.to)
  {
    hide DoMakerStart;
  }

  lemma StartKeepsWithinLimit(w: World, h: History, tx: Tx)
    requires WithinLimit(h) && tx.call.MakerStart?
    ensures DoMakerStart(w, tx.msg, tx.call.p, tx.call.txId, tx.call.from, tx.call.to).Some? ==> WithinLimit(Note(w, h, tx))
  {
  }

  /** Over any run the value an order was started with, reward included, was below
      the limit its chain had then. */
  lemma {:induction false} StartedWithinLimit(g: Guard, k: Crypto, owner: Address, txs: seq<Tx>)
    ensures WithinLimit(After(g, k, owner, txs).1)
  {
    hide Step, WithinLimit;
    if txs == [] {
      NothingStarted();
    } else {
      StartedWithinLimit(g, k, owner, txs[..|txs| - 1]);
      var (w, h) := After(g, k, owner, txs[..|txs| - 1]);
      StepKeepsWithinLimit(g, k, w, h, txs[|txs| - 1]);
    }
  }

  lemma NothingStarted()
    ensures WithinLimit(NO_HISTORY)
  {
  }

  // ---------- Approving an order ----------

  /** What an approval must say, given what was started and approved before. */
  predicate Agrees(o: Opening, ap: seq<Approval>, rtx: Recept) {
    && rtx.from == o.from
    && (LastTo(o, ap) == "" || rtx.to == LastTo(o, ap) || rtx.to == o.from)
    && (LastHash(ap) == 0 || rtx.txHash == LastHash(ap))
  }

  predicate HasApproved(ap: seq<Approval>, a: Address) {
    exists i :: 0 <= i < |ap| && ap[i].caller == a
  }

  /** The approvals, this one included, are as many as required. */
  predicate Completes(c: Chain, ap: seq<Approval>) {
    |ap| + 1 >= c.signConfirmCount
  }

  /** An approval is accepted exactly from an available anchor that has not approved
      the order, of an open order, if it names the parties and the taker hash as
      before; if it completes the order the recipient must take the money. The
      contract always has the funds. */
  lemma ApprovalIsAcceptedIff(g: Guard, k: Crypto, owner: Address, txs: seq<Tx>, msg: Message, rtx: Recept, accepts: bool)
    requires FreshRun(g, k, owner, txs)
    ensures var (w, h) := After(g, k, owner, txs);
            var c, key := At(w, rtx.origin), OrderKey(rtx.origin, rtx.txId);
            var ap := Approvals(h, key);
            Execute(g, k, w, msg, MakerFinish(rtx, accepts)).Some? <==>
              && c.purpose > 0 && IsAvailable(c, rtx.origin, msg.sender)
              && IsOpen(h, key) && !HasApproved(ap, msg.sender) && Agrees(h.started[key], ap, rtx)
              && (Completes(c, ap) ==> accepts)
  {
    var (w, h) := After(g, k, owner, txs);
    var key := OrderKey(rtx.origin, rtx.txId);
    hide After, FreshRun, DoMakerFinish, MayApprove, PaysOut, OrderOk, BookOk, HasApproved, Agrees, IsOpen, Completes, IsAvailable, At;
    OrderAfterRun(g, k, owner, txs, key);
    PayoutsAreFunded(g, k, owner, txs, msg, rtx, 0, 0, 0);
    ApproverKnown(At(w, key.p), h, key, msg.sender);
    MayApproveIff(w, h, msg, rtx);
    FinishIff(w, msg, rtx, accepts);
    hide RegisterAll, AddAll, RemoveAll;
  }

  lemma FinishIff(w: World, msg: Message, rtx: Recept, accepts: bool)
    requires MayApprove(w, msg, rtx) ==> DoMakerFinish(w, msg, rtx, true).Some?
    ensures DoMakerFinish(w, msg, rtx, accepts).Some? <==>
            MayApprove(w, msg, rtx) && (PaysOut(w, msg, rtx) ==> accepts)
  {
    hide MayApprove, PaysOut;
  }

  lemma ApproverKnown(c: Chain, h: History, key: OrderKey, a: Address)
    requires BookOk(c, h, key)
    ensures a in MakerOf(c.makerTxs, key.txId).signatures <==> HasApproved(Approvals(h, key), a)
  {
    hide TakingsFit, DistinctCallers;
  }

  lemma MayApproveIff(w: World, h: History, msg: Message, rtx: Recept)
    requires var key := OrderKey(rtx.origin, rtx.txId);
             var m := MakerOf(At(w, key.p).makerTxs, key.txId);
             OrderOk(m, h, key) && (msg.sender in m.signatures <==> HasApproved(Approvals(h, key), msg.sender))
    ensures var c, key := At(w, rtx.origin), OrderKey(rtx.origin, rtx.txId);
            var ap := Approvals(h, key);
            && (MayApprove(w, msg, rtx) <==>
                  && c.purpose > 0 && IsAvailable(c, rtx.origin, msg.sender)
                  && IsOpen(h, key) && !HasApproved(ap, msg.sender) && Agrees(h.started[key], ap, rtx))
            && (MayApprove(w, msg, rtx) ==> (PaysOut(w, msg, rtx) <==> Completes(c, ap)))
  {
    hide HashesSettle, Parties, HasApproved, LastTo, LastHash;
  }

  /** What an accepted approval does: it pays the order's value to the taker it names
      and closes the order exactly when it completes the required number; else the
      order stays open. The attached value stays with the contract. */
  lemma ApprovalEffect(g: Guard, k: Crypto, owner: Address, txs: seq<Tx>, msg: Message, rtx: Recept, accepts: bool)
    requires FreshRun(g, k, owner, txs)
    ensures var (w, h) := After(g, k, owner, txs);
            var key := OrderKey(rtx.origin, rtx.txId);
            var r := Execute(g, k, w, msg, MakerFinish(rtx, accepts));
            r.Some? ==>
              && key in h.started
              && var value := h.started[key].value;
                 var left := MakerOf(At(r.value, key.p).makerTxs, key.txId).value;
                 if Completes(At(w, key.p), Approvals(h, key)) then
                   && r.value.balance == w.balance + msg.value - value && left == 0
                   && r.value.sent == w.sent + [Transfer(rtx.taker, value)]
                 else
                   && r.value.balance == w.balance + msg.value && left == value && r.value.sent == w.sent
  {
    var (w, h) := After(g, k, owner, txs);
    var key := OrderKey(rtx.origin, rtx.txId);
    OrderAfterRun(g, k, owner, txs, key);
    hide Step, After, FreshRun;
    ApproverKnown(At(w, key.p), h, key, msg.sender);
    hide ApproversFit, TakingsFit, HashesSettle, Parties, HasApproved;
    MayApproveIff(w, h, msg, rtx);
    hide MayApprove, Agrees, IsAvailable;
  }

  // ---------- Rewards ----------

  /** A reward is paid exactly when the owner asks, without attaching money, the pot
      of the chain covers it, the receiver is an anchor of the chain and takes it;
      it then goes to that anchor, out of that pot. */
  lemma RewardIsPaidIff(g: Guard, k: Crypto, owner: Address, txs: seq<Tx>, msg: Message,
                        p: uint8, anchor: Address, amount: uint256, accepts: bool)
    requires p > 0
    ensures var w := After(g, k, owner, txs).0;
            var r := Execute(g, k, w, msg, AccumulateRewards(p, anchor, amount, accepts));
            && (r.Some? <==>
                  && msg.sender == owner && msg.value == 0 && accepts
                  && amount <= At(w, p).totalReward && IsListed(At(w, p), anchor))
            && (r.Some? ==>
                  && r.value.sent == w.sent + [Transfer(anchor, amount)] && r.value.balance == w.balance - amount
                  && At(r.value, p).totalReward == At(w, p).totalReward - amount)
  {
    OwnerStays(g, k, owner, txs);
    ChainAfterRun(g, k, owner, txs, p);
    PayoutsAreFunded(g, k, owner, txs, msg, Recept(0, 0, "", "", 0, 0), p, anchor, amount);
    assert Own(At(After(g, k, owner, txs).0, p), p);
    hide After, ChainInv, MayApprove, DoMakerFinish;
  }

  // ---------- Anchors ----------

  function Last64Of(s: seq<Address>): seq<Address> {
    s[if |s| < 64 then 0 else |s| - 64..]
  }

  predicate Distinct(list: seq<Address>) {
    forall i, j :: 0 <= i < j < |list| ==> list[i] != list[j]
  }

  /** A chain can be registered exactly by the owner, once, with at most 64 different
      anchors. */
  lemma ChainMayBeRegisteredIff(g: Guard, k: Crypto, owner: Address, txs: seq<Tx>, msg: Message,
                                p: uint8, maxValue: uint256, count: uint8, list: seq<Address>, router: string)
    requires p > 0
    ensures var w := After(g, k, owner, txs).0;
            Execute(g, k, w, msg, ChainRegister(p, maxValue, count, list, router)).Some? <==>
              && msg.sender == owner && msg.value == 0
              && At(w, p).purpose == 0 && |list| <= 64 && Distinct(list)
  {
    OwnerStays(g, k, owner, txs);
    ChainAfterRun(g, k, owner, txs, p);
    var (w, h) := After(g, k, owner, txs);
    var c := At(w, p);
    if c.purpose == 0 {
      NobodyListed(g, c, p, Removed(h, p));
      hide After, ChainInv;
      RegisterAllFailsIff(FreshChain(c, p, maxValue, count, router), p, list);
      hide RegisterAll;
    } else {
      hide After, RegisterAll;
    }
  }

  lemma NobodyListed(g: Guard, c: Chain, p: uint8, removed: seq<Address>)
    requires p > 0 && ChainInv(g, c, p, removed) && c.purpose == 0
    ensures forall a: Address :: !IsListed(c, a)
  {
    forall a: Address ensures !IsListed(c, a) { SlotsMembers(c.anchors, c.anchorAddress, p, a); }
  }

  lemma {:induction false} RegisterAllFailsIff(c: Chain, p: uint8, list: seq<Address>)
    requires p > 0
    ensures RegisterAll(c, p, list).Some? <==>
            (forall i :: 0 <= i < |list| ==> !IsListed(c, list[i])) && Distinct(list)
    decreases |list|
  {
    if list != [] && !IsListed(c, list[0]) {
      var c1, rest := Enlist(c, p, list[0]), list[1..];
      RegisterAllFailsIff(c1, p, rest);
      assert forall a: Address :: IsListed(c1, a) <==> IsListed(c, a) || a == list[0];
      assert forall i :: 0 <= i < |rest| ==> rest[i] == list[i + 1];
      hide RegisterAll, Enlist, IsListed;
      UnlistedSplit(c, c1, list);
    }
  }

  lemma UnlistedSplit(c: Chain, c1: Chain, list: seq<Address>)
    requires list != [] && !IsListed(c, list[0])
    requires forall a: Address :: IsListed(c1, a) <==> IsListed(c, a) || a == list[0]
    ensures (forall i :: 0 <= i < |list| ==> !IsListed(c, list[i])) && Distinct(list) <==>
            (forall i :: 0 <= i < |list[1..]| ==> !IsListed(c1, list[1..][i])) && Distinct(list[1..])
  {
    var rest := list[1..];
    assert forall i :: 0 <= i < |rest| ==> rest[i] == list[i + 1];
    assert forall i :: 0 < i < |list| ==> list[i] == rest[i - 1];
    hide IsListed;
  }

  /** Anchors can be added exactly by the owner, to a registered chain, up to 63 at a
      time and 64 in all, if they are different, not registered there and not among
      the last 64 removed. */
  lemma AnchorsMayBeAddedIff(g: Guard, k: Crypto, owner: Address, txs: seq<Tx>, msg: Message, p: uint8, list: seq<Address>)
    requires p > 0
    ensures var (w, h) := After(g, k, owner, txs);
            var c := At(w, p);
            Execute(g, k, w, msg, Call.AddAnchors(p, list)).Some? <==>
              && msg.sender == owner && msg.value == 0 && c.purpose > 0
              && 0 < |list| < 64 && |c.anchorAddress| + |list| <= 64 && Distinct(list)
              && forall i :: 0 <= i < |list| ==> !IsListed(c, list[i]) && list[i] !in Last64Of(Removed(h, p))
  {
    OwnerStays(g, k, owner, txs);
    ChainAfterRun(g, k, owner, txs, p);
    var (w, h) := After(g, k, owner, txs);
    var c := At(w, p);
    assert c.purpose == 0 || c.purpose == p;
    AddAllFailsIff(c, p, list);
    forall i | 0 <= i < |list| ensures IsRetired(c, list[i]) <==> list[i] in Last64Of(Removed(h, p)) {
      RingIsLast64(c, p, Removed(h, p), list[i]);
    }
    hide After, ChainInv, AddAll, Last64Of, IsListed, IsRetired;
  }

  /** The addresses a removal can take one after the other: with the guard as written
      strangers not among the last 64 removed at their turn, with the other guard
      registered ones, each once. */
  predicate Removable(g: Guard, c: Chain, list: seq<Address>, removed: seq<Address>) {
    forall i :: 0 <= i < |list| ==>
      if g.AsWritten? then !IsListed(c, list[i]) && list[i] !in Last64Of(removed + list[..i])
      else IsListed(c, list[i]) && list[i] !in list[..i]
  }

  lemma {:induction false} RemoveAllFailsIff(g: Guard, c: Chain, p: uint8, list: seq<Address>, removed: seq<Address>)
    requires p > 0 && Ring(c, p, removed) && Apart(c) && (g.Registered? ==> Table(c, p))
    ensures RemoveAll(g, c, p, list).Some? <==> |list| <= |c.anchorAddress| && Removable(g, c, list, removed)
    decreases |list|
  {
    hide Ring, Apart, Table, RemoveBody, Removable, RemoveAll;
    RemoveAllUnfold(g, c, p, list);
    if list == [] {
      NothingRemovable(g, c, removed);
    } else {
      var a := list[0];
      FirstRemovableIff(g, c, p, a, removed);
      RemovableUnfold(g, c, list, removed);
      if RemoveOne(g, c, p, a).Some? {
        var c1 := RemoveBody(c, p, a).value;
        BodyKeepsRing(c, p, a, removed);
        BodyKeepsApart(c, p, a);
        BodyFrame(c, p, a);
        if g.Registered? { RemoveListedKeepsTable(c, p, a); }
        RemoveAllFailsIff(g, c1, p, list[1..], removed + [a]);
        BodyListed(g, c, p, a);
        RemovableRest(g, c, c1, list, removed);
      }
    }
  }

  lemma RemoveAllUnfold(g: Guard, c: Chain, p: uint8, list: seq<Address>)
    ensures list == [] ==> RemoveAll(g, c, p, list).Some?
    ensures list != [] ==>
              (RemoveAll(g, c, p, list).Some? <==>
                 RemoveOne(g, c, p, list[0]).Some? && RemoveAll(g, RemoveOne(g, c, p, list[0]).value, p, list[1..]).Some?)
  {
  }

  lemma NothingRemovable(g: Guard, c: Chain, removed: seq<Address>)
    ensures Removable(g, c, [], removed)
  {
  }

  lemma FirstRemovableIff(g: Guard, c: Chain, p: uint8, a: Address, removed: seq<Address>)
    requires p > 0 && Ring(c, p, removed) && Apart(c)
    ensures RemoveOne(g, c, p, a).Some? <==>
            && |c.anchorAddress| > 0
            && (if g.AsWritten? then !IsListed(c, a) && a !in Last64Of(removed) else IsListed(c, a))
    ensures RemoveOne(g, c, p, a).Some? ==> RemoveOne(g, c, p, a) == RemoveBody(c, p, a)
  {
    RingIsLast64(c, p, removed, a);
    RingBounds(c, p, removed);
    assert |c.delsAddress| == 64 ==> c.delId < |c.delsAddress|;
    hide Ring, Slots, Last64;
    assert IsListed(c, a) ==> !IsRetired(c, a);
    hide Apart;
  }

  lemma RemovableUnfold(g: Guard, c: Chain, list: seq<Address>, removed: seq<Address>)
    requires list != []
    ensures Removable(g, c, list, removed) ==>
              if g.AsWritten? then !IsListed(c, list[0]) && list[0] !in Last64Of(removed) else IsListed(c, list[0])
  {
    assert removed + list[..0] == removed;
    hide Last64Of, IsListed;
  }

  /** Who is registered after one removal. */
  lemma BodyListed(g: Guard, c: Chain, p: uint8, a: Address)
    requires RemoveOne(g, c, p, a).Some?
    ensures var d := RemoveBody(c, p, a).value;
            forall b: Address :: IsListed(d, b) <==> IsListed(c, b) && (g.Registered? ==> b != a)
  {
  }

  lemma RemovableRest(g: Guard, c: Chain, c1: Chain, list: seq<Address>, removed: seq<Address>)
    requires list != []
    requires if g.AsWritten? then !IsListed(c, list[0]) && list[0] !in Last64Of(removed) else IsListed(c, list[0])
    requires forall b: Address :: IsListed(c1, b) <==> IsListed(c, b) && (g.Registered? ==> b != list[0])
    ensures Removable(g, c, list, removed) <==> Removable(g, c1, list[1..], removed + [list[0]])
  {
    var rest := list[1..];
    hide IsListed, Last64Of;
    assert removed + list[..0] == removed;
    forall i | 0 <= i < |rest|
      ensures rest[i] == list[i + 1] && removed + [list[0]] + rest[..i] == removed + list[..i + 1]
      ensures list[..i + 1] == [list[0]] + rest[..i]
    {
    }
    forall i | 0 < i < |list| ensures list[i] == rest[i - 1] {}
  }

  /** Anchors can be removed exactly by the owner, from a registered chain, if as many
      remain as signatures are required, or fewer were there than that before. */
  lemma AnchorsMayBeRemovedIff(g: Guard, k: Crypto, owner: Address, txs: seq<Tx>, msg: Message, p: uint8, list: seq<Address>)
    requires p > 0
    ensures var (w, h) := After(g, k, owner, txs);
            var c := At(w, p);
            Execute(g, k, w, msg, Call.RemoveAnchors(p, list)).Some? <==>
              && msg.sender == owner && msg.value == 0 && c.purpose > 0 && list != []
              && (c.signConfirmCount + |list| <= |c.anchorAddress| || c.signConfirmCount > |c.anchorAddress|)
              && |list| <= |c.anchorAddress| && Removable(g, c, list, Removed(h, p))
  {
    OwnerStays(g, k, owner, txs);
    ChainAfterRun(g, k, owner, txs, p);
    var (w, h) := After(g, k, owner, txs);
    hide After, ChainInv, RegisterAll, AddAll, RemoveAll, Removable, DoRemoveAnchors, At;
    RemovalIff(g, w, p, list, Removed(h, p));
  }

  lemma RemovalIff(g: Guard, w: World, p: uint8, list: seq<Address>, removed: seq<Address>)
    requires p > 0 && ChainInv(g, At(w, p), p, removed)
    ensures var c := At(w, p);
            DoRemoveAnchors(g, w, p, list).Some? <==>
              && c.purpose > 0 && list != []
              && (c.signConfirmCount + |list| <= |c.anchorAddress| || c.signConfirmCount > |c.anchorAddress|)
              && |list| <= |c.anchorAddress| && Removable(g, c, list, removed)
  {
    var c := At(w, p);
    assert |c.anchorAddress| <= 64 && Ring(c, p, removed) && Apart(c) && (g.Registered? ==> Table(c, p));
    hide ChainInv, RemoveAll, Removable, LeavesEnough, Ring, Apart, Table;
    RemoveAllFailsIff(g, c, p, list, removed);
    EnoughIff(c, |list|);
  }

  lemma EnoughIff(c: Chain, n: nat)
    requires |c.anchorAddress| <= 64
    ensures n <= |c.anchorAddress| ==>
              (LeavesEnough(c, n) <==> c.signConfirmCount + n <= |c.anchorAddress| || c.signConfirmCount > |c.anchorAddress|)
  {
  }

  /** An anchor can be switched off exactly by the owner while more are available than
      required, and switched on at any time. */
  lemma StatusMayBeSetIff(g: Guard, k: Crypto, owner: Address, txs: seq<Tx>, msg: Message, p: uint8, anchor: Address, status: bool)
    ensures var w := After(g, k, owner, txs).0;
            var c := At(w, p);
            Execute(g, k, w, msg, Call.SetAnchorStatus(p, anchor, status)).Some? <==>
              && msg.sender == owner && msg.value == 0
              && (!status ==> CountAvailable(c, c.anchorAddress) > c.signConfirmCount)
  {
    OwnerStays(g, k, owner, txs);
    ChainAfterRun(g, k, owner, txs, p);
    var w := After(g, k, owner, txs).0;
    assert |At(w, p).anchorAddress| <= 64;
    hide After, ChainInv, At, CountAvailable, DoSetAnchorStatus, RegisterAll, AddAll, RemoveAll;
    StatusIff(w, p, anchor, status);
  }

  lemma StatusIff(w: World, p: uint8, anchor: Address, status: bool)
    requires |At(w, p).anchorAddress| <= 64
    ensures DoSetAnchorStatus(w, p, anchor, status).Some? <==>
            (!status ==> CountAvailable(At(w, p), At(w, p).anchorAddress) > At(w, p).signConfirmCount)
  {
    CountAvailableBounded(At(w, p), At(w, p).anchorAddress);
    hide CountAvailable;
  }

  /** The settings answer to the owner alone, within their bounds. */
  lemma SettingsMayChangeIff(g: Guard, k: Crypto, owner: Address, txs: seq<Tx>, msg: Message, p: uint8,
                             amount: uint256, count: uint8, router: string)
    ensures var w := After(g, k, owner, txs).0;
            var s := SettingsOf(At(w, p));
            var byOwner := msg.sender == owner && msg.value == 0;
            && (Execute(g, k, w, msg, Call.SetReward(p, amount)).Some? <==> byOwner)
            && (Execute(g, k, w, msg, Call.SetMaxValue(p, amount)).Some? <==> byOwner && s.purpose > 0 && amount > s.reward)
            && (Execute(g, k, w, msg, Call.SetSignConfirmCount(p, count)).Some? <==>
                  byOwner && s.purpose > 0 && 0 < count <= |s.list|)
            && (Execute(g, k, w, msg, Call.UpdateRouter(p, router)).Some? <==> byOwner && s.purpose > 0 && router != s.router)
  {
    OwnerStays(g, k, owner, txs);
    hide After;
  }
}
