/** Who may change what: the settings and anchors of a chain answer to the owner
    alone, each administrative call changes one thing, and the required count of
    signatures never exceeds the number of anchors. */
module ContractAuthority {
  import opened Words
  import opened CrossStruct
  import opened AnchorTable
  import opened SignatureCount
  import opened OrderEncoding
  import opened Contract
  import opened ChainInvariant
  import opened ContractRuns
  import opened ContractTheorems

  /** Anchors that differ at most in their counters. */
  ghost predicate SameStanding(m: map<Address, Anchor>, m': map<Address, Anchor>) {
    forall a :: AnchorOf(m, a).(signCount := 0, finishCount := 0) == AnchorOf(m', a).(signCount := 0, finishCount := 0)
  }

  /** Lists, ring, standing of the anchors and settings are the same. */
  ghost predicate SameRule(c: Chain, d: Chain) {
    && c.anchorAddress == d.anchorAddress && c.delsAddress == d.delsAddress && c.delId == d.delId
    && SameStanding(c.anchors, d.anchors) && SameStanding(c.delAnchors, d.delAnchors)
    && c.purpose == d.purpose && c.signConfirmCount == d.signConfirmCount && c.reward == d.reward
    && c.maxValue == d.maxValue && c.router == d.router
  }

  lemma SameRuleReflexive(c: Chain)
    ensures SameRule(c, c)
  {
  }

  lemma CheckKeepsRule(k: Crypto, c: Chain, o: Order, byOwner: bool)
    requires |o.v| == |o.r| == |o.s|
    ensures var d := CheckSignatures(k, c, o, byOwner).0;
            SameRule(c, d) && d.totalReward == c.totalReward && d.makerTxs == c.makerTxs && d.takerTxs == c.takerTxs
  {
    var signers := Recovered(k, o);
    if byOwner { OwnerTallyCounters(c, o.origin, signers, 0, 0); } else { TallyCounters(c, o.origin, signers, 0, 0); }
    var d := CheckSignatures(k, c, o, byOwner).0;
    hide Tally, OwnerTally;
    SameAnchorsSameStanding(c.anchors, d.anchors);
    SameAnchorsSameStanding(c.delAnchors, d.delAnchors);
    hide SameAnchors, SameStanding;
  }

  lemma SameAnchorsSameStanding(m: map<Address, Anchor>, m': map<Address, Anchor>)
    requires SameAnchors(m, m')
    ensures SameStanding(m, m')
  {
    forall a ensures AnchorOf(m, a).(signCount := 0, finishCount := 0) == AnchorOf(m', a).(signCount := 0, finishCount := 0) {
      assert AnchorOf(m, a).(signCount := 0) == AnchorOf(m', a).(signCount := 0);
    }
  }

  /** What a call open to everybody leaves alone. */
  lemma PublicCallsKeepRules(g: Guard, k: Crypto, w: World, msg: Message, call: Call, p: uint8)
    requires IsPayable(call)
    ensures Execute(g, k, w, msg, call).Some? ==>
              var w' := Execute(g, k, w, msg, call).value;
              SameRule(At(w, p), At(w', p)) && At(w', p).totalReward >= At(w, p).totalReward && w'.owner == w.owner
  {
    SameRuleReflexive(At(w, p));
    match call
    case MakerStart(_, _, _, _) =>
    case MakerFinish(rtx, accepts) =>
      FinishKeepsStanding(At(w, rtx.origin).anchors, msg.sender);
      hide SameStanding, MayApprove, PaysOut;
    case Taker(o, accepts) =>
      if |o.v| == |o.r| == |o.s| { CheckKeepsRule(k, At(w, o.origin), o, msg.sender == o.from); }
      hide CheckSignatures, SameStanding;
  }

  lemma FinishKeepsStanding(m: map<Address, Anchor>, a: Address)
    ensures SameStanding(m, m[a := AnchorOf(m, a).(finishCount := (AnchorOf(m, a).finishCount + 1) % U256)])
  {
  }

  lemma StepKeepsOwner(g: Guard, k: Crypto, w: World, h: History, tx: Tx)
    ensures Step(g, k, w, h, tx).0.owner == w.owner
  {
    hide RegisterAll, AddAll, RemoveAll, CheckSignatures, Note, MayApprove, PaysOut, SetStatus, CountAvailable, LeavesEnough;
  }

  lemma {:induction false} OwnerStays(g: Guard, k: Crypto, owner: Address, txs: seq<Tx>)
    ensures After(g, k, owner, txs).0.owner == owner
  {
    hide Step;
    if txs != [] {
      OwnerStays(g, k, owner, txs[..|txs| - 1]);
      var (w, h) := After(g, k, owner, txs[..|txs| - 1]);
      StepKeepsOwner(g, k, w, h, txs[|txs| - 1]);
    }
  }

  /** In every reachable state a transaction that is not the deployer's leaves the
      owner, and on every chain the list, the ring, purpose, position and status of
      every anchor and all settings as they are, and takes nothing from a pot. */
  lemma OnlyTheOwnerRules(g: Guard, k: Crypto, owner: Address, txs: seq<Tx>, tx: Tx, p: uint8)
    requires tx.msg.sender != owner
    ensures var (w, h) := After(g, k, owner, txs);
            var w' := Step(g, k, w, h, tx).0;
            && w'.owner == owner && SameRule(At(w, p), At(w', p))
            && At(w', p).totalReward >= At(w, p).totalReward
  {
    OwnerStays(g, k, owner, txs);
    var (w, h) := After(g, k, owner, txs);
    hide After, SameRule, At, Note;
    SameRuleReflexive(At(w, p));
    if IsPayable(tx.call) {
      PublicCallsKeepRules(g, k, w, tx.msg, tx.call, p);
      hide Execute;
    }
  }

  /** In every reachable state an administrative call that succeeds is the
      deployer's, carries no money, touches one chain, no order or taking there,
      and no money but for a reward. */
  lemma AdministrationIsConfined(g: Guard, k: Crypto, owner: Address, txs: seq<Tx>, msg: Message, call: Call)
    requires !IsPayable(call)
    ensures var w := After(g, k, owner, txs).0;
            var r := Execute(g, k, w, msg, call);
            r.Some? ==>
              && msg.sender == owner && msg.value == 0
              && r.value.chains.Keys <= w.chains.Keys + {call.p}
              && (forall p: uint8 :: p != call.p ==> At(r.value, p) == At(w, p))
              && At(r.value, call.p).makerTxs == At(w, call.p).makerTxs
              && At(r.value, call.p).takerTxs == At(w, call.p).takerTxs
              && (!call.RemoveAnchors? ==> At(r.value, call.p).delAnchors == At(w, call.p).delAnchors)
              && (!call.AccumulateRewards? ==> r.value.balance == w.balance && r.value.sent == w.sent)
  {
    OwnerStays(g, k, owner, txs);
    var w := After(g, k, owner, txs).0;
    hide After, LeavesEnough, CountAvailable;
    if Execute(g, k, w, msg, call).Some? {
      match call
      case ChainRegister(p, maxValue, count, list, router) =>
        RegisterFrame(FreshChain(At(w, p), p, maxValue, count, router), p, list);
        hide RegisterAll;
      case AddAnchors(p, list) =>
        AddFrame(At(w, p), p, list);
        hide AddAll;
      case RemoveAnchors(p, list) =>
        RemoveFrame(g, At(w, p), p, list);
        hide RemoveAll;
      case _ =>
        hide RegisterAll, AddAll, RemoveAll;
    }
  }

  lemma {:induction false} RegisterFrame(c: Chain, p: uint8, list: seq<Address>)
    requires RegisterAll(c, p, list).Some?
    ensures var d := RegisterAll(c, p, list).value;
            && d == c.(anchors := d.anchors, anchorAddress := d.anchorAddress)
            && d.anchorAddress == c.anchorAddress + list
    decreases |list|
  {
    if list == [] {
      assert c.anchorAddress + list == c.anchorAddress;
    } else {
      AppendFirst(c.anchorAddress, list);
      RegisterFrame(Enlist(c, p, list[0]), p, list[1..]);
    }
  }

  lemma {:induction false} AddFrame(c: Chain, p: uint8, list: seq<Address>)
    requires AddAll(c, p, list).Some?
    ensures var d := AddAll(c, p, list).value;
            && d == c.(anchors := d.anchors, anchorAddress := d.anchorAddress)
            && d.anchorAddress == c.anchorAddress + list
    decreases |list|
  {
    if list == [] {
      assert c.anchorAddress + list == c.anchorAddress;
    } else {
      AppendFirst(c.anchorAddress, list);
      AddFrame(Enlist(c, p, list[0]), p, list[1..]);
    }
  }

  lemma {:induction false} RemoveFrame(g: Guard, c: Chain, p: uint8, list: seq<Address>)
    requires RemoveAll(g, c, p, list).Some?
    ensures var d := RemoveAll(g, c, p, list).value;
            && SameOrders(c, d) && |d.anchorAddress| == |c.anchorAddress| - |list|
    decreases |list|
  {
    if list != [] {
      var c1 := RemoveBody(c, p, list[0]).value;
      BodyFrame(c, p, list[0]);
      hide RemoveBody;
      RemoveFrame(g, c1, p, list[1..]);
    }
  }

  lemma BodyFrame(c: Chain, p: uint8, a: Address)
    requires RemoveBody(c, p, a).Some?
    ensures var d := RemoveBody(c, p, a).value;
            SameOrders(c, d) && |d.anchorAddress| == |c.anchorAddress| - 1
  {
  }

  // ---------- The settings ----------

  /** What the getters of a chain show. */
  datatype Settings = Settings(purpose: uint8, count: uint8, maxValue: uint256, reward: uint256, router: string,
                               list: seq<Address>)

  function SettingsOf(c: Chain): Settings {
    Settings(c.purpose, c.signConfirmCount, c.maxValue, c.reward, c.router, c.anchorAddress)
  }

  /** The settings that a successful administrative call leaves. Removal only
      shortens the list. */
  lemma SettingsAfter(g: Guard, k: Crypto, w: World, msg: Message, call: Call)
    requires !IsPayable(call)
    ensures var r := Execute(g, k, w, msg, call);
            r.Some? ==>
              var s, s' := SettingsOf(At(w, call.p)), SettingsOf(At(r.value, call.p));
              match call
              case SetReward(_, amount) => s' == s.(reward := amount)
              case AccumulateRewards(_, _, _, _) => s' == s
              case ChainRegister(p, maxValue, count, list, router) => s' == Settings(p, count, maxValue, 0, router, list)
              case AddAnchors(_, list) => s' == s.(list := s.list + list)
              case RemoveAnchors(_, list) => s' == s.(list := s'.list) && |s'.list| == |s.list| - |list|
              case UpdateRouter(_, router) => s' == s.(router := router) && router != s.router
              case SetAnchorStatus(_, _, _) => s' == s
              case SetSignConfirmCount(_, count) => s' == s.(count := count) && 0 < count <= |s.list|
              case SetMaxValue(_, maxValue) => s' == s.(maxValue := maxValue) && maxValue > s.reward
  {
    hide LeavesEnough, CountAvailable;
    if Execute(g, k, w, msg, call).Some? {
      match call
      case ChainRegister(p, maxValue, count, list, router) =>
        RegisterFrame(FreshChain(At(w, p), p, maxValue, count, router), p, list);
        assert [] + list == list;
        hide RegisterAll;
      case AddAnchors(p, list) =>
        AddFrame(At(w, p), p, list);
        hide AddAll;
      case RemoveAnchors(p, list) =>
        RemoveFrame(g, At(w, p), p, list);
        hide RemoveAll;
      case _ =>
        hide RegisterAll, AddAll, RemoveAll;
    }
  }

  /** Switching an anchor makes it available or not and concerns nobody else. */
  lemma StatusAfter(g: Guard, k: Crypto, w: World, msg: Message, p: uint8, anchor: Address, status: bool, a: Address)
    ensures var r := Execute(g, k, w, msg, SetAnchorStatus(p, anchor, status));
            r.Some? ==>
              (IsAvailable(At(r.value, p), p, a) <==>
                 if a == anchor then IsCurrent(At(w, p), p, a) && status else IsAvailable(At(w, p), p, a))
  {
    hide CountAvailable;
  }

  // ---------- The quorum ----------

  /** The required count is at most the number of anchors, and at least one on a
      registered chain. */
  predicate Quorum(c: Chain) {
    c.signConfirmCount <= |c.anchorAddress| && (c.purpose > 0 ==> c.signConfirmCount > 0)
  }

  /** A registration of the chain that goes through. */
  predicate Registers(g: Guard, k: Crypto, w: World, tx: Tx, p: uint8) {
    tx.call.ChainRegister? && tx.call.p == p && Execute(g, k, w, tx.msg, tx.call).Some?
  }

  predicate SoundRegistration(call: Call)
    requires call.ChainRegister?
  {
    0 < call.count <= |call.list|
  }

  lemma StepKeepsQuorum(g: Guard, k: Crypto, w: World, h: History, tx: Tx, p: uint8)
    requires p > 0 && Quorum(At(w, p)) && |At(w, p).anchorAddress| <= 64
    requires Registers(g, k, w, tx, p) ==> SoundRegistration(tx.call)
    ensures Quorum(At(Step(g, k, w, h, tx).0, p))
  {
    if Execute(g, k, w, tx.msg, tx.call).Some? {
      if IsPayable(tx.call) {
        PublicCallsKeepRules(g, k, w, tx.msg, tx.call, p);
        hide Execute;
      } else if tx.call.p == p {
        SettingsAfter(g, k, w, tx.msg, tx.call);
        assert tx.call.RemoveAnchors? ==> LeavesEnough(At(w, p), |tx.call.list|);
        assert tx.call.AddAnchors? ==> At(w, p).purpose == p;
        hide Execute;
      } else {
        OtherChainStays(g, k, w, tx.msg, tx.call, p);
        hide Execute;
      }
    }
  }

  lemma OtherChainStays(g: Guard, k: Crypto, w: World, msg: Message, call: Call, p: uint8)
    requires !IsPayable(call) && call.p != p
    ensures Execute(g, k, w, msg, call).Some? ==> At(Execute(g, k, w, msg, call).value, p) == At(w, p)
  {
    hide RegisterAll, AddAll, RemoveAll, LeavesEnough, CountAvailable, SetStatus;
  }

  /** Throughout a run the required count of a chain lies between one and the number
      of its anchors if and only if each of its registrations asks for such a count:
      no later call breaks that. */
  lemma {:induction false} QuorumIff(g: Guard, k: Crypto, owner: Address, txs: seq<Tx>, p: uint8)
    requires p > 0
    ensures (forall n: nat :: n <= |txs| ==> Quorum(At(After(g, k, owner, txs[..n]).0, p))) <==>
            (forall n: nat :: n < |txs| && Registers(g, k, After(g, k, owner, txs[..n]).0, txs[n], p) ==>
               SoundRegistration(txs[n].call))
    decreases |txs|
  {
    hide After, Step, Quorum, Registers, SoundRegistration;
    if txs == [] {
      assert txs[..0] == [];
      FirstQuorum(g, k, owner, p);
    } else {
      var m := |txs| - 1;
      var init := txs[..m];
      QuorumIff(g, k, owner, init, p);
      forall n: nat | n <= m ensures init[..n] == txs[..n] {}
      assert txs[..m + 1] == txs;
      assert forall n: nat :: n < m ==> init[n] == txs[n];
      QuorumStepIff(g, k, owner, txs, p);
    }
  }

  lemma FirstQuorum(g: Guard, k: Crypto, owner: Address, p: uint8)
    ensures Quorum(At(After(g, k, owner, []).0, p))
  {
  }

  lemma QuorumStepIff(g: Guard, k: Crypto, owner: Address, txs: seq<Tx>, p: uint8)
    requires p > 0 && txs != []
    ensures var w := After(g, k, owner, txs[..|txs| - 1]).0;
            var tx := txs[|txs| - 1];
            Quorum(At(w, p)) ==>
              (Quorum(At(After(g, k, owner, txs).0, p)) <==> (Registers(g, k, w, tx, p) ==> SoundRegistration(tx.call)))
  {
    var (w, h) := After(g, k, owner, txs[..|txs| - 1]);
    var tx := txs[|txs| - 1];
    assert After(g, k, owner, txs) == Step(g, k, w, h, tx);
    ChainAfterRun(g, k, owner, txs[..|txs| - 1], p);
    assert |At(w, p).anchorAddress| <= 64;
    hide After, ChainInv;
    if Quorum(At(w, p)) {
      if Registers(g, k, w, tx, p) {
        SettingsAfter(g, k, w, tx.msg, tx.call);
        hide Execute;
      } else {
        StepKeepsQuorum(g, k, w, h, tx, p);
        hide Step;
      }
    }
  }
}
