/** Whole runs of the cross-chain contract: money, orders and anchors over any
    sequence of transactions, failing ones included. */
module ContractRuns {
  import opened Words
  import opened CrossStruct
  import opened AnchorTable
  import opened SignatureCount
  import opened OrderEncoding
  import opened Contract
  import opened ChainInvariant
  import opened Totals

  datatype Tx = Tx(msg: Message, call: Call)

  datatype OrderKey = OrderKey(p: uint8, txId: Hash)

  /** An approval as it happened: who called, which taker hash, parties and
      recipient it named, and whether the caller was an available anchor in the
      state it called in. */
  datatype Approval = Approval(caller: Address, hash: Hash, from: string, to: string, taker: Address, available: bool)

  /** An order as its maker started it, with the chain's reward and limit of then. */
  datatype Opening = Opening(value: int, from: string, to: string, reward: nat, limit: nat)

  /** A payout: how much, to whom, and how many confirmations were required. */
  datatype Payout = Payout(amount: nat, to: Address, needed: nat)

  /** What an observer of the run has written down. */
  datatype History = History(stuck: nat, started: map<OrderKey, Opening>, approvals: map<OrderKey, seq<Approval>>,
                             payouts: map<OrderKey, seq<Payout>>, takings: map<OrderKey, seq<TakerInfo>>,
                             removed: map<uint8, seq<Address>>)

  function Approvals(h: History, key: OrderKey): seq<Approval> {
    if key in h.approvals then h.approvals[key] else []
  }

  function Payouts(h: History, key: OrderKey): seq<Payout> {
    if key in h.payouts then h.payouts[key] else []
  }

  /** The orders taken under an identifier, value and maker of each. */
  function Takings(h: History, key: OrderKey): seq<TakerInfo> {
    if key in h.takings then h.takings[key] else []
  }

  function Removed(h: History, p: uint8): seq<Address> {
    if p in h.removed then h.removed[p] else []
  }

  /** The notes taken when the transaction succeeds. */
  function Note(w: World, h: History, tx: Tx): History {
    match tx.call
    case MakerStart(p, txId, from, to) =>
      h.(started := h.started[OrderKey(p, txId) := Opening(tx.msg.value - At(w, p).reward, from, to,
                                                             At(w, p).reward, At(w, p).maxValue)])
    case MakerFinish(rtx, _) =>
      var key := OrderKey(rtx.origin, rtx.txId);
      var c := At(w, rtx.origin);
      var h1 := h.(stuck := h.stuck + tx.msg.value,
                   approvals := h.approvals[key := Approvals(h, key)
                     + [Approval(tx.msg.sender, rtx.txHash, rtx.from, rtx.to, rtx.taker,
                                 IsAvailable(c, rtx.origin, tx.msg.sender))]]);
      if PaysOut(w, tx.msg, rtx) then
        h1.(payouts := h.payouts[key := Payouts(h, key)
          + [Payout(MakerOf(c.makerTxs, rtx.txId).value, rtx.taker, c.signConfirmCount)]])
      else h1
    case Taker(o, _) =>
      var key := OrderKey(o.origin, o.txId);
      h.(takings := h.takings[key := Takings(h, key) + [TakerInfo(o.value, o.from)]])
    case RemoveAnchors(p, list) =>
      h.(removed := h.removed[p := Removed(h, p) + list])
    case _ => h
  }

  function Step(g: Guard, k: Crypto, w: World, h: History, tx: Tx): (World, History) {
    match Execute(g, k, w, tx.msg, tx.call)
    case None => (w, h)
    case Some(w') => (w', Note(w, h, tx))
  }

  /** An order identifier hashes the sender with its nonce, so it is new. */
  predicate Fresh(h: History, tx: Tx) {
    tx.call.MakerStart? ==> OrderKey(tx.call.p, tx.call.txId) !in h.started
  }

  const NO_HISTORY := History(0, map[], map[], map[], map[], map[])

  /** The state after a run from the deployment of the contract. */
  function After(g: Guard, k: Crypto, owner: Address, txs: seq<Tx>): (World, History) {
    if txs == [] then (Empty(owner), NO_HISTORY)
    else
      var (w, h) := After(g, k, owner, txs[..|txs| - 1]);
      Step(g, k, w, h, txs[|txs| - 1])
  }

  /** Every order of the run has an identifier of its own. */
  predicate FreshRun(g: Guard, k: Crypto, owner: Address, txs: seq<Tx>) {
    txs == [] ||
    (FreshRun(g, k, owner, txs[..|txs| - 1]) &&
     Fresh(After(g, k, owner, txs[..|txs| - 1]).1, txs[|txs| - 1]))
  }

  // ---------- Invariants ----------

  function OrderValue(m: MakerInfo): int {
    m.value
  }

  /** What the contract holds for one chain: open orders and collected rewards. */
  ghost function Held(c: Chain): int {
    c.totalReward + Total(c.makerTxs, OrderValue)
  }

  /** Conservation: the balance is what is held for all chains plus the value
      attached to successful approvals, which nothing pays out again. */
  ghost predicate Money(w: World, h: History) {
    w.balance == h.stuck + Total(w.chains, Held)
  }

  /** No caller approves twice. */
  predicate DistinctCallers(s: seq<Approval>) {
    forall i, j :: 0 <= i < j < |s| ==> s[i].caller != s[j].caller
  }

  /** Zero hashes first, then one and the same hash. */
  predicate HashesSettle(s: seq<Approval>) {
    forall i, j :: 0 <= i < j < |s| ==> s[i].hash == 0 || s[i].hash == s[j].hash
  }

  function LastHash(s: seq<Approval>): Hash {
    if s == [] then 0 else s[|s| - 1].hash
  }

  /** The receiver named last, at first the one the maker named. */
  function LastTo(o: Opening, s: seq<Approval>): string {
    if s == [] then o.to else s[|s| - 1].to
  }

  /** Every approval names the maker's own address text, and the receiver named
      before it unless that is empty or it names the maker. */
  predicate Parties(o: Opening, s: seq<Approval>) {
    forall i :: 0 <= i < |s| ==>
      s[i].from == o.from && (LastTo(o, s[..i]) == "" || s[i].to == LastTo(o, s[..i]) || s[i].to == o.from)
  }

  ghost predicate OrderOk(m: MakerInfo, h: History, key: OrderKey) {
    if key in h.started then OrderFits(m, h.started[key], Approvals(h, key), Payouts(h, key))
    else m == NO_MAKER.(signatures := m.signatures) && Approvals(h, key) == [] && Payouts(h, key) == []
  }

  /** The stored form of an order agrees with its opening, approvals and payouts. */
  ghost predicate OrderFits(m: MakerInfo, o: Opening, ap: seq<Approval>, pay: seq<Payout>) {
    && HashesSettle(ap) && Parties(o, ap)
    && (pay == [] ==>
          && m.value == o.value && m.signatureCount == |ap| <= 254 && m.takerHash == LastHash(ap)
          && m.from == o.from && m.to == LastTo(o, ap))
    && (pay != [] ==>
          && |pay| == 1 && m == NO_MAKER.(signatures := m.signatures) && pay[0].amount == o.value > 0
          && |ap| >= pay[0].needed && ap != [] && pay[0].to == ap[|ap| - 1].taker)
  }

  /** The recorded signatures are those of the approvals, all by available anchors. */
  ghost predicate ApproversFit(signatures: set<Address>, ap: seq<Approval>) {
    && (forall i :: 0 <= i < |ap| ==> ap[i].available && ap[i].caller in signatures)
    && (forall a :: a in signatures ==> exists i :: 0 <= i < |ap| && ap[i].caller == a)
    && DistinctCallers(ap)
  }

  function LastTaking(s: seq<TakerInfo>): TakerInfo {
    if s == [] then NO_TAKER else s[|s| - 1]
  }

  /** The record is the order taken last; after an order with a value the next
      one taken has another maker. */
  ghost predicate TakingsFit(t: TakerInfo, s: seq<TakerInfo>) {
    && t == LastTaking(s)
    && forall i, j :: 0 <= i < j < |s| && j == i + 1 ==> s[i].value == 0 || s[i].from != s[j].from
  }

  /** The storage of one chain agrees with the notes on one identifier. */
  ghost predicate BookOk(c: Chain, h: History, key: OrderKey) {
    && ApproversFit(MakerOf(c.makerTxs, key.txId).signatures, Approvals(h, key))
    && TakingsFit(TakerOf(c.takerTxs, key.txId), Takings(h, key))
  }

  /** What every run keeps, whatever identifiers its orders have. */
  ghost predicate Inv(g: Guard, w: World, h: History) {
    && Money(w, h)
    && (forall p: uint8 :: ChainInv(g, At(w, p), p, Removed(h, p)))
    && (forall key: OrderKey :: BookOk(At(w, key.p), h, key))
  }

  /** What runs keep whose orders have identifiers of their own. */
  ghost predicate OrdersInv(w: World, h: History) {
    forall key: OrderKey :: OrderOk(MakerOf(At(w, key.p).makerTxs, key.txId), h, key)
  }

  lemma DeploymentInv(g: Guard, owner: Address)
    ensures Inv(g, Empty(owner), NO_HISTORY) && OrdersInv(Empty(owner), NO_HISTORY)
  {
    forall p: uint8 ensures ChainInv(g, At(Empty(owner), p), p, Removed(NO_HISTORY, p)) {
      NewChainInv(g, p);
    }
  }

  // ---------- Steps on one chain ----------

  lemma MoneyAfterPut(w: World, h: History, w': World, h': History, p: uint8, d: Chain)
    requires Money(w, h) && w'.chains == w.chains[p := d]
    requires w'.balance - h'.stuck - Held(d) == w.balance - h.stuck - Held(At(w, p))
    ensures Money(w', h')
  {
    TotalUpdate(w.chains, Held, p, d);
    assert Total<Hash, MakerInfo>(map[], OrderValue) == 0;
    assert Held(NO_CHAIN) == 0;
  }

  /** What both histories note on an identifier is the same. */
  predicate SameNotes(h: History, h': History, key: OrderKey) {
    SameOrderNotes(h, h', key) && Takings(h, key) == Takings(h', key)
  }

  predicate SameOrderNotes(h: History, h': History, key: OrderKey) {
    && Approvals(h, key) == Approvals(h', key) && Payouts(h, key) == Payouts(h', key)
    && (key in h.started <==> key in h'.started)
    && (key in h.started ==> h.started[key] == h'.started[key])
  }

  lemma SameNotesKeepBook(c: Chain, d: Chain, h: History, h': History, key: OrderKey)
    requires SameNotes(h, h', key) && BookOk(c, h, key)
    requires MakerOf(d.makerTxs, key.txId) == MakerOf(c.makerTxs, key.txId)
    requires TakerOf(d.takerTxs, key.txId) == TakerOf(c.takerTxs, key.txId)
    ensures BookOk(d, h', key)
  {
  }

  lemma SameNotesKeepOrder(m: MakerInfo, h: History, h': History, key: OrderKey)
    requires SameOrderNotes(h, h', key) && OrderOk(m, h, key)
    ensures OrderOk(m, h', key)
  {
  }

  /** A transaction that rewrites one chain keeps the invariant if it does so on
      that chain and moves the balance with what is held for it. */
  lemma PutKeepsInv(g: Guard, w: World, h: History, w': World, h': History, p: uint8, d: Chain)
    requires Inv(g, w, h) && w'.chains == w.chains[p := d]
    requires w'.balance - h'.stuck - Held(d) == w.balance - h.stuck - Held(At(w, p))
    requires ChainInv(g, d, p, Removed(h', p))
    requires forall q: uint8 :: q != p ==> Removed(h', q) == Removed(h, q)
    requires forall key: OrderKey :: if key.p == p then BookOk(d, h', key) else SameNotes(h, h', key)
    ensures Inv(g, w', h')
  {
    hide ChainInv, BookOk, SameNotes, Money, Held;
    MoneyAfterPut(w, h, w', h', p, d);
    forall q: uint8 ensures ChainInv(g, At(w', q), q, Removed(h', q)) {
      assert ChainInv(g, At(w, q), q, Removed(h, q));
    }
    forall key: OrderKey ensures BookOk(At(w', key.p), h', key) {
      assert BookOk(At(w, key.p), h, key);
      if key.p != p {
        assert SameNotes(h, h', key);
        SameNotesKeepBook(At(w, key.p), At(w', key.p), h, h', key);
      }
    }
  }

  /** A transaction on one identifier: everything else is as before, here and on
      the other chains. */
  lemma EntryPutKeepsInv(g: Guard, w: World, h: History, w': World, h': History, d: Chain, key: OrderKey)
    requires Inv(g, w, h) && w'.chains == w.chains[key.p := d]
    requires w'.balance - h'.stuck - Held(d) == w.balance - h.stuck - Held(At(w, key.p))
    requires ChainInv(g, d, key.p, Removed(h, key.p)) && h'.removed == h.removed
    requires forall other: OrderKey :: other != key ==> SameNotes(h, h', other)
    requires forall id: Hash :: id != key.txId ==>
               && MakerOf(d.makerTxs, id) == MakerOf(At(w, key.p).makerTxs, id)
               && TakerOf(d.takerTxs, id) == TakerOf(At(w, key.p).takerTxs, id)
    requires BookOk(d, h', key)
    ensures Inv(g, w', h')
  {
    hide ChainInv, BookOk, SameNotes, Money, Held, MakerOf, TakerOf;
    forall other: OrderKey ensures if other.p == key.p then BookOk(d, h', other) else SameNotes(h, h', other) {
      if other != key && other.p == key.p {
        assert BookOk(At(w, other.p), h, other);
        assert other.txId != key.txId && SameNotes(h, h', other);
        SameNotesKeepBook(At(w, key.p), d, h, h', other);
      }
    }
    assert forall q: uint8 :: Removed(h', q) == Removed(h, q);
    PutKeepsInv(g, w, h, w', h', key.p, d);
  }

  /** No chain's record of started orders differs. */
  ghost predicate SameOpen(w: World, w': World) {
    forall p: uint8 :: At(w, p).makerTxs == At(w', p).makerTxs
  }

  /** A transaction that leaves orders, rewards and the balance alone. */
  lemma QuietPutKeepsInv(g: Guard, w: World, h: History, h': History, p: uint8, d: Chain)
    requires Inv(g, w, h) && ChainInv(g, d, p, Removed(h', p))
    requires d.makerTxs == At(w, p).makerTxs && d.takerTxs == At(w, p).takerTxs
    requires d.totalReward == At(w, p).totalReward
    requires h' == h.(removed := h'.removed)
    requires forall q: uint8 :: q != p ==> Removed(h', q) == Removed(h, q)
    ensures Inv(g, Put(w, p, d), h') && SameOpen(w, Put(w, p, d))
  {
    hide ChainInv, BookOk, Money;
    forall key: OrderKey ensures if key.p == p then BookOk(d, h', key) else SameNotes(h, h', key) {
      assert BookOk(At(w, key.p), h, key);
      if key.p == p {
        SameNotesKeepBook(At(w, p), d, h, h', key);
      }
    }
    hide Inv, SameNotes;
    PutKeepsInv(g, w, h, Put(w, p, d), h', p, d);
  }

  // ---------- The entry points ----------

  lemma ChainRegisterKeepsInv(g: Guard, w: World, h: History, p: uint8, maxValue: uint256, count: uint8,
                              list: seq<Address>, router: string)
    requires Inv(g, w, h) && DoChainRegister(w, p, maxValue, count, list, router).Some?
    ensures var w' := DoChainRegister(w, p, maxValue, count, list, router).value; Inv(g, w', h) && SameOpen(w, w')
  {
    var c := At(w, p);
    assert ChainInv(g, c, p, Removed(h, p));
    assert NoMoney(c) && Removed(h, p) == [];
    RegisterKeepsInv(g, c, p, maxValue, count, list, router);
    var c1 := FreshChain(c, p, maxValue, count, router);
    assert Narrow(c1);
    hide Own;
    RegisterAllFrame(c1, p, list);
    hide ChainInv, Inv, RegisterAll, SameOpen;
    QuietPutKeepsInv(g, w, h, h, p, RegisterAll(c1, p, list).value);
  }

  lemma AddAnchorsKeepsInv(g: Guard, w: World, h: History, p: uint8, list: seq<Address>)
    requires Inv(g, w, h) && DoAddAnchors(w, p, list).Some?
    ensures var w' := DoAddAnchors(w, p, list).value; Inv(g, w', h) && SameOpen(w, w')
  {
    var c := At(w, p);
    assert ChainInv(g, c, p, Removed(h, p));
    AddKeepsInv(g, c, p, list, Removed(h, p));
    AddAllFrame(c, p, list);
    hide ChainInv, Inv, AddAll, SameOpen;
    QuietPutKeepsInv(g, w, h, h, p, AddAll(c, p, list).value);
  }

  lemma RemoveAnchorsKeepsInv(g: Guard, w: World, h: History, tx: Tx)
    requires Inv(g, w, h) && tx.call.RemoveAnchors? && DoRemoveAnchors(g, w, tx.call.p, tx.call.list).Some?
    ensures var w' := DoRemoveAnchors(g, w, tx.call.p, tx.call.list).value;
            Inv(g, w', Note(w, h, tx)) && SameOpen(w, w')
  {
    var p, list := tx.call.p, tx.call.list;
    var c := At(w, p);
    assert ChainInv(g, c, p, Removed(h, p));
    RemoveKeepsInv(g, c, p, list, Removed(h, p));
    hide ChainInv, Inv, RemoveAll, SameOpen;
    QuietPutKeepsInv(g, w, h, Note(w, h, tx), p, RemoveAll(g, c, p, list).value);
  }

  /** Calls that write at most availability and settings of a chain. */
  lemma SettingsKeepInv(g: Guard, w: World, h: History, p: uint8, d: Chain)
    requires Inv(g, w, h)
    requires SamePlaces(At(w, p).anchors, d.anchors) && SamePlaces(At(w, p).delAnchors, d.delAnchors)
    requires d.makerTxs == At(w, p).makerTxs && d.takerTxs == At(w, p).takerTxs
    requires d.totalReward == At(w, p).totalReward
    requires d.purpose == At(w, p).purpose && d.anchorAddress == At(w, p).anchorAddress
    requires d.purpose == 0 ==> d.signConfirmCount == At(w, p).signConfirmCount
    requires d.delsAddress == At(w, p).delsAddress && d.delId == At(w, p).delId
    ensures Inv(g, Put(w, p, d), h) && SameOpen(w, Put(w, p, d))
  {
    var c := At(w, p);
    assert ChainInv(g, c, p, Removed(h, p));
    PlacesKeepInv(g, c, d, p, Removed(h, p));
    hide Inv, SameOpen;
    QuietPutKeepsInv(g, w, h, h, p, d);
  }

  lemma TakingsExtend(t: TakerInfo, s: seq<TakerInfo>, next: TakerInfo)
    requires TakingsFit(t, s) && (t.value == 0 || t.from != next.from)
    ensures TakingsFit(next, s + [next])
  {
  }

  lemma TakerKeepsInv(g: Guard, k: Crypto, w: World, h: History, tx: Tx)
    requires Inv(g, w, h) && tx.call.Taker?
    ensures var r := DoTaker(k, w, tx.msg, tx.call.order, tx.call.accepts);
            r.Some? ==> Inv(g, r.value, Note(w, h, tx)) && SameOpen(w, r.value)
  {
    var o := tx.call.order;
    if DoTaker(k, w, tx.msg, o, tx.call.accepts).Some? {
      var c, byOwner := At(w, o.origin), tx.msg.sender == o.from;
      assert ChainInv(g, c, o.origin, Removed(h, o.origin)) && BookOk(c, h, OrderKey(o.origin, o.txId));
      hide ChainInv, BookOk;
      CheckKeepsInv(g, k, c, o, byOwner, Removed(h, o.origin));
      hide CheckSignatures, Inv;
      TakenKeepsInv(g, w, h, tx, CheckSignatures(k, c, o, byOwner).0);
    }
  }

  /** The counters that the signature check updates are no part of the invariant. */
  lemma CheckKeepsInv(g: Guard, k: Crypto, c: Chain, o: Order, byOwner: bool, removed: seq<Address>)
    requires ChainInv(g, c, o.origin, removed) && |o.v| == |o.r| == |o.s|
    ensures var d := CheckSignatures(k, c, o, byOwner).0;
            ChainInv(g, d, o.origin, removed) && d == c.(anchors := d.anchors, delAnchors := d.delAnchors)
  {
    var signers := Recovered(k, o);
    if byOwner {
      OwnerTallyCounters(c, o.origin, signers, 0, 0);
    } else {
      TallyCounters(c, o.origin, signers, 0, 0);
    }
    var d := CheckSignatures(k, c, o, byOwner).0;
    hide Tally, OwnerTally;
    SameAnchorsSamePlaces(c.anchors, d.anchors);
    SameAnchorsSamePlaces(c.delAnchors, d.delAnchors);
    hide SameAnchors, SamePlaces;
    PlacesKeepInv(g, c, d, o.origin, removed);
  }

  lemma TakenKeepsInv(g: Guard, w: World, h: History, tx: Tx, d: Chain)
    requires Inv(g, w, h) && tx.call.Taker?
    requires var o := tx.call.order;
             var c := At(w, o.origin);
             && ChainInv(g, d, o.origin, Removed(h, o.origin)) && BookOk(c, h, OrderKey(o.origin, o.txId))
             && d == c.(anchors := d.anchors, delAnchors := d.delAnchors)
             && (TakerOf(c.takerTxs, o.txId).value == 0 || TakerOf(c.takerTxs, o.txId).from != o.from)
    ensures var o := tx.call.order;
            var w' := Send(Put(w, o.origin, d.(takerTxs := d.takerTxs[o.txId := TakerInfo(o.value, o.from)])),
                           o.from, tx.msg.value);
            Inv(g, w', Note(w, h, tx)) && SameOpen(w, w')
  {
    hide Inv, ApproversFit, TakingsFit, NoMoney, Narrow, Ring, Apart, Entries, Own, TableState;
    var o, h' := tx.call.order, Note(w, h, tx);
    var c, key := At(w, o.origin), OrderKey(o.origin, o.txId);
    var d' := d.(takerTxs := d.takerTxs[o.txId := TakerInfo(o.value, o.from)]);
    TakingsExtend(TakerOf(c.takerTxs, o.txId), Takings(h, key), TakerInfo(o.value, o.from));
    RecordKeepsChainInv(g, d, d', o.origin, Removed(h, o.origin));
    NotesElsewhere(w, h, tx, key);
    assert BookOk(d', h', key);
    hide BookOk, ChainInv, SameNotes;
    EntryPutKeepsInv(g, w, h, Send(Put(w, o.origin, d'), o.from, tx.msg.value), h', d', key);
  }

  lemma RecordKeepsChainInv(g: Guard, c: Chain, d: Chain, p: uint8, removed: seq<Address>)
    requires ChainInv(g, c, p, removed) && d == c.(takerTxs := d.takerTxs)
    ensures ChainInv(g, d, p, removed)
  {
    SamePlacesReflexive(c.anchors);
    SamePlacesReflexive(c.delAnchors);
    PlacesKeepInv(g, c, d, p, removed);
  }

  lemma AccumulateRewardsKeepsInv(g: Guard, w: World, h: History, p: uint8, anchor: Address, amount: uint256, accepts: bool)
    requires Inv(g, w, h) && DoAccumulateRewards(w, p, anchor, amount, accepts).Some?
    ensures var w' := DoAccumulateRewards(w, p, anchor, amount, accepts).value; Inv(g, w', h) && SameOpen(w, w')
  {
    hide ChainInv, BookOk, Money, SamePlaces;
    var c := At(w, p);
    var d := c.(totalReward := c.totalReward - amount);
    assert ChainInv(g, c, p, Removed(h, p));
    forall key: OrderKey ensures if key.p == p then BookOk(d, h, key) else SameNotes(h, h, key) {
      assert BookOk(At(w, key.p), h, key);
      if key.p == p { SameNotesKeepBook(c, d, h, h, key); }
    }
    hide Inv, SameNotes;
    RewardKeepsChainInv(g, c, p, Removed(h, p), amount);
    assert Held(d) == Held(c) - amount;
    hide Held;
    PutKeepsInv(g, w, h, DoAccumulateRewards(w, p, anchor, amount, accepts).value, h, p, d);
  }

  lemma RewardKeepsChainInv(g: Guard, c: Chain, p: uint8, removed: seq<Address>, amount: uint256)
    requires ChainInv(g, c, p, removed) && amount <= c.totalReward
    ensures ChainInv(g, c.(totalReward := c.totalReward - amount), p, removed)
  {
    var d := c.(totalReward := c.totalReward - amount);
    SamePlacesReflexive(c.anchors);
    SamePlacesReflexive(c.delAnchors);
    PlacesKeepInv(g, c, d, p, removed);
  }

  /** Rewriting one order, the reward pot and the counters of one chain. */
  lemma OrderChangeKeepsChainInv(g: Guard, c: Chain, d: Chain, p: uint8, removed: seq<Address>)
    requires ChainInv(g, c, p, removed) && c.purpose > 0
    requires SamePlaces(c.anchors, d.anchors)
    requires d == c.(anchors := d.anchors, makerTxs := d.makerTxs, totalReward := d.totalReward)
    ensures ChainInv(g, d, p, removed)
  {
    assert SamePlaces(c.delAnchors, d.delAnchors);
    PlacesKeepInv(g, c, d, p, removed);
  }

  lemma HeldAfterOrderChange(c: Chain, d: Chain, txId: Hash, m: MakerInfo)
    requires d.makerTxs == c.makerTxs[txId := m]
    ensures Held(d) - d.totalReward == Held(c) - c.totalReward - MakerOf(c.makerTxs, txId).value + m.value
  {
    TotalUpdate(c.makerTxs, OrderValue, txId, m);
  }

  lemma SamePlacesReflexive(m: map<Address, Anchor>)
    ensures SamePlaces(m, m)
  {
  }

  /** A transaction on an order is noted under that order alone. */
  lemma NotesElsewhere(w: World, h: History, tx: Tx, key: OrderKey)
    requires match tx.call
             case MakerStart(p, txId, _, _) => key == OrderKey(p, txId)
             case MakerFinish(rtx, _) => key == OrderKey(rtx.origin, rtx.txId)
             case Taker(o, _) => key == OrderKey(o.origin, o.txId)
             case _ => false
    ensures forall other: OrderKey :: other != key ==> SameNotes(h, Note(w, h, tx), other)
    ensures Note(w, h, tx).removed == h.removed
  {
  }

  /** A restarted order keeps the approvers left under its identifier. */
  lemma MakerStartKeepsInv(g: Guard, w: World, h: History, tx: Tx)
    requires Inv(g, w, h) && tx.call.MakerStart?
    requires DoMakerStart(w, tx.msg, tx.call.p, tx.call.txId, tx.call.from, tx.call.to).Some?
    ensures Inv(g, DoMakerStart(w, tx.msg, tx.call.p, tx.call.txId, tx.call.from, tx.call.to).value, Note(w, h, tx))
  {
    hide ChainInv, ApproversFit, TakingsFit, Money, Held, SamePlaces;
    var p, txId := tx.call.p, tx.call.txId;
    var c, w', h' := At(w, p), DoMakerStart(w, tx.msg, p, txId, tx.call.from, tx.call.to).value, Note(w, h, tx);
    var d, key := At(w', p), OrderKey(p, txId);
    assert BookOk(c, h, key) && ChainInv(g, c, p, Removed(h, p));
    assert BookOk(d, h', key);
    hide Inv, BookOk;
    assert SamePlaces(c.anchors, d.anchors) by { SamePlacesReflexive(c.anchors); }
    OrderChangeKeepsChainInv(g, c, d, p, Removed(h, p));
    HeldAfterOrderChange(c, d, txId, MakerOf(d.makerTxs, txId));
    NotesElsewhere(w, h, tx, key);
    EntryPutKeepsInv(g, w, h, w', h', d, key);
  }

  lemma ApproversExtend(signatures: set<Address>, ap: seq<Approval>, a: Approval)
    requires ApproversFit(signatures, ap) && a.available && a.caller !in signatures
    ensures ApproversFit(signatures + {a.caller}, ap + [a])
  {
    var ap' := ap + [a];
    assert ap'[|ap|] == a;
    forall x | x in signatures + {a.caller} ensures exists i :: 0 <= i < |ap'| && ap'[i].caller == x {
      if x in signatures {
        var i :| 0 <= i < |ap| && ap[i].caller == x;
        assert ap'[i].caller == x;
      }
    }
  }

  /** What the observer writes down for a permitted approval. */
  lemma NotedApproval(w: World, h: History, tx: Tx)
    requires tx.call.MakerFinish? && MayApprove(w, tx.msg, tx.call.rtx)
    ensures var rtx := tx.call.rtx;
            var key, h' := OrderKey(rtx.origin, rtx.txId), Note(w, h, tx);
            var c := At(w, rtx.origin);
            && Approvals(h', key) == Approvals(h, key)
                 + [Approval(tx.msg.sender, rtx.txHash, rtx.from, rtx.to, rtx.taker, true)]
            && Payouts(h', key) == Payouts(h, key)
                 + (if PaysOut(w, tx.msg, rtx)
                    then [Payout(MakerOf(c.makerTxs, rtx.txId).value, rtx.taker, c.signConfirmCount)] else [])
            && h'.started == h.started && h'.takings == h.takings
  {
  }

  lemma ApprovalKeepsBook(w: World, h: History, tx: Tx, d: Chain)
    requires tx.call.MakerFinish? && MayApprove(w, tx.msg, tx.call.rtx)
    requires var rtx := tx.call.rtx;
             var c := At(w, rtx.origin);
             && BookOk(c, h, OrderKey(rtx.origin, rtx.txId)) && d.takerTxs == c.takerTxs
             && MakerOf(d.makerTxs, rtx.txId).signatures == MakerOf(c.makerTxs, rtx.txId).signatures + {tx.msg.sender}
    ensures BookOk(d, Note(w, h, tx), OrderKey(tx.call.rtx.origin, tx.call.rtx.txId))
  {
    hide ApproversFit, TakingsFit;
    var rtx := tx.call.rtx;
    NotedApproval(w, h, tx);
    ApproversExtend(MakerOf(At(w, rtx.origin).makerTxs, rtx.txId).signatures, Approvals(h, OrderKey(rtx.origin, rtx.txId)),
                    Approval(tx.msg.sender, rtx.txHash, rtx.from, rtx.to, rtx.taker, true));
  }

  lemma MakerFinishKeepsInv(g: Guard, w: World, h: History, tx: Tx)
    requires Inv(g, w, h) && tx.call.MakerFinish? && DoMakerFinish(w, tx.msg, tx.call.rtx, tx.call.accepts).Some?
    ensures Inv(g, DoMakerFinish(w, tx.msg, tx.call.rtx, tx.call.accepts).value, Note(w, h, tx))
  {
    hide ChainInv, BookOk, Money, Held, SamePlaces;
    var rtx := tx.call.rtx;
    var p, txId := rtx.origin, rtx.txId;
    var c, w', h' := At(w, p), DoMakerFinish(w, tx.msg, rtx, tx.call.accepts).value, Note(w, h, tx);
    var d, key := At(w', p), OrderKey(p, txId);
    assert BookOk(c, h, key) && ChainInv(g, c, p, Removed(h, p));
    hide Inv;
    ApprovalKeepsBook(w, h, tx, d);
    FinishCountKeepsPlaces(c.anchors, tx.msg.sender);
    OrderChangeKeepsChainInv(g, c, d, p, Removed(h, p));
    HeldAfterOrderChange(c, d, txId, MakerOf(d.makerTxs, txId));
    NotesElsewhere(w, h, tx, key);
    FinishFrame(w, h, tx);
    EntryPutKeepsInv(g, w, h, w', h', d, key);
  }

  lemma FinishCountKeepsPlaces(m: map<Address, Anchor>, a: Address)
    ensures SamePlaces(m, m[a := AnchorOf(m, a).(finishCount := (AnchorOf(m, a).finishCount + 1) % U256)])
  {
  }

  /** What a successful makerFinish writes, and where the money goes. */
  lemma FinishFrame(w: World, h: History, tx: Tx)
    requires tx.call.MakerFinish? && DoMakerFinish(w, tx.msg, tx.call.rtx, tx.call.accepts).Some?
    ensures var rtx := tx.call.rtx;
            var w' := DoMakerFinish(w, tx.msg, rtx, tx.call.accepts).value;
            var prev, next := MakerOf(At(w, rtx.origin).makerTxs, rtx.txId), MakerOf(At(w', rtx.origin).makerTxs, rtx.txId);
            && w'.chains == w.chains[rtx.origin := At(w', rtx.origin)]
            && w'.balance == w.balance + tx.msg.value - (prev.value - next.value)
            && Note(w, h, tx).stuck == h.stuck + tx.msg.value
  {
  }

  /** Every transaction keeps the invariant; all but two leave the orders alone. */
  lemma StepKeepsInv(g: Guard, k: Crypto, w: World, h: History, tx: Tx)
    requires Inv(g, w, h)
    ensures var (w', h') := Step(g, k, w, h, tx);
            Inv(g, w', h') && (tx.call.MakerStart? || tx.call.MakerFinish? || SameOpen(w, w'))
  {
    hide Inv, RemoveAll, AddAll, RegisterAll, DoTaker;
    if Execute(g, k, w, tx.msg, tx.call).Some? {
      match tx.call
      case SetReward(p, amount) => SettingsKeepInv(g, w, h, p, At(w, p).(reward := amount));
      case AccumulateRewards(p, anchor, amount, accepts) => AccumulateRewardsKeepsInv(g, w, h, p, anchor, amount, accepts);
      case ChainRegister(p, maxValue, count, list, router) => ChainRegisterKeepsInv(g, w, h, p, maxValue, count, list, router);
      case AddAnchors(p, list) => AddAnchorsKeepsInv(g, w, h, p, list);
      case RemoveAnchors(p, list) => RemoveAnchorsKeepsInv(g, w, h, tx);
      case UpdateRouter(p, router) => SettingsKeepInv(g, w, h, p, At(w, p).(router := router));
      case SetAnchorStatus(p, anchor, status) => SettingsKeepInv(g, w, h, p, SetStatus(At(w, p), anchor, status));
      case SetSignConfirmCount(p, count) => SettingsKeepInv(g, w, h, p, At(w, p).(signConfirmCount := count));
      case SetMaxValue(p, maxValue) => SettingsKeepInv(g, w, h, p, At(w, p).(maxValue := maxValue));
      case MakerStart(_, _, _, _) => MakerStartKeepsInv(g, w, h, tx);
      case MakerFinish(_, _) => MakerFinishKeepsInv(g, w, h, tx);
      case Taker(_, _) => TakerKeepsInv(g, k, w, h, tx);
    }
  }

  /** Every run from the deployment keeps the invariant. */
  lemma {:induction false} RunKeepsInv(g: Guard, k: Crypto, owner: Address, txs: seq<Tx>)
    ensures Inv(g, After(g, k, owner, txs).0, After(g, k, owner, txs).1)
  {
    hide Inv, Step;
    if txs == [] {
      DeploymentInv(g, owner);
    } else {
      RunKeepsInv(g, k, owner, txs[..|txs| - 1]);
      var (w, h) := After(g, k, owner, txs[..|txs| - 1]);
      StepKeepsInv(g, k, w, h, txs[|txs| - 1]);
    }
  }

  // ---------- Orders with identifiers of their own ----------

  lemma MakerStartKeepsOrders(w: World, h: History, tx: Tx)
    requires OrdersInv(w, h) && Fresh(h, tx) && tx.call.MakerStart?
    requires DoMakerStart(w, tx.msg, tx.call.p, tx.call.txId, tx.call.from, tx.call.to).Some?
    ensures OrdersInv(DoMakerStart(w, tx.msg, tx.call.p, tx.call.txId, tx.call.from, tx.call.to).value, Note(w, h, tx))
  {
    var p, txId := tx.call.p, tx.call.txId;
    var w', h' := DoMakerStart(w, tx.msg, p, txId, tx.call.from, tx.call.to).value, Note(w, h, tx);
    var key := OrderKey(p, txId);
    assert OrderOk(MakerOf(At(w, p).makerTxs, txId), h, key);
    assert OrderOk(MakerOf(At(w', p).makerTxs, txId), h', key);
    hide OrderOk;
    NotesElsewhere(w, h, tx, key);
    hide SameNotes;
    OrdersElsewhere(w, h, w', h', key);
  }

  /** Orders that a transaction does not concern stay in step with their notes. */
  lemma OrdersElsewhere(w: World, h: History, w': World, h': History, key: OrderKey)
    requires OrdersInv(w, h)
    requires forall other: OrderKey :: other != key ==>
               && SameNotes(h, h', other)
               && MakerOf(At(w', other.p).makerTxs, other.txId) == MakerOf(At(w, other.p).makerTxs, other.txId)
    requires OrderOk(MakerOf(At(w', key.p).makerTxs, key.txId), h', key)
    ensures OrdersInv(w', h')
  {
    hide OrderOk, SameOrderNotes, MakerOf, At;
    forall other: OrderKey | other != key ensures OrderOk(MakerOf(At(w', other.p).makerTxs, other.txId), h', other) {
      assert OrderOk(MakerOf(At(w, other.p).makerTxs, other.txId), h, other);
      SameNotesKeepOrder(MakerOf(At(w, other.p).makerTxs, other.txId), h, h', other);
    }
  }

  lemma LastOfExtended(o: Opening, s: seq<Approval>, a: Approval)
    ensures LastHash(s + [a]) == a.hash && LastTo(o, s + [a]) == a.to
  {
  }

  lemma HashesExtend(s: seq<Approval>, a: Approval)
    requires HashesSettle(s) && (LastHash(s) == 0 || LastHash(s) == a.hash)
    ensures HashesSettle(s + [a])
  {
  }

  lemma PartiesExtend(o: Opening, s: seq<Approval>, a: Approval)
    requires Parties(o, s) && a.from == o.from
    requires LastTo(o, s) == "" || a.to == LastTo(o, s) || a.to == o.from
    ensures Parties(o, s + [a])
  {
    var t := s + [a];
    forall i | 0 <= i < |t|
      ensures t[i].from == o.from && (LastTo(o, t[..i]) == "" || t[i].to == LastTo(o, t[..i]) || t[i].to == o.from)
    {
      if i < |s| { assert t[..i] == s[..i]; } else { assert t[..i] == s; }
    }
  }

  /** One more approval of an open order, with or without payout. */
  lemma ApprovalFits(m: MakerInfo, o: Opening, ap: seq<Approval>, a: Approval, needed: uint8)
    requires OrderFits(m, o, ap, []) && m.value > 0 && a.from == m.from
    requires m.to == "" || m.to == a.to || m.from == a.to
    requires m.takerHash == 0 || m.takerHash == a.hash
    ensures var m' := m.(signatures := m.signatures + {a.caller}, signatureCount := m.signatureCount + 1,
                         to := a.to, takerHash := a.hash);
            if m'.signatureCount >= needed then OrderFits(Deleted(m'), o, ap + [a], [Payout(m.value, a.taker, needed)])
            else OrderFits(m', o, ap + [a], [])
  {
    hide Parties, HashesSettle, LastHash, LastTo;
    PartiesExtend(o, ap, a);
    HashesExtend(ap, a);
    LastOfExtended(o, ap, a);
  }

  lemma ApprovalKeepsOrder(w: World, h: History, tx: Tx)
    requires tx.call.MakerFinish? && MayApprove(w, tx.msg, tx.call.rtx)
    requires var rtx := tx.call.rtx;
             OrderOk(MakerOf(At(w, rtx.origin).makerTxs, rtx.txId), h, OrderKey(rtx.origin, rtx.txId))
    ensures var rtx := tx.call.rtx;
            var m := Approved(MakerOf(At(w, rtx.origin).makerTxs, rtx.txId), tx.msg.sender, rtx);
            OrderOk(if PaysOut(w, tx.msg, rtx) then Deleted(m) else m, Note(w, h, tx), OrderKey(rtx.origin, rtx.txId))
  {
    hide Parties, HashesSettle;
    var rtx := tx.call.rtx;
    var key := OrderKey(rtx.origin, rtx.txId);
    var c := At(w, rtx.origin);
    var m := MakerOf(c.makerTxs, rtx.txId);
    assert key in h.started && Payouts(h, key) == [] && m.signatureCount <= 254;
    hide OrderFits;
    var a := Approval(tx.msg.sender, rtx.txHash, rtx.from, rtx.to, rtx.taker, true);
    NotedApproval(w, h, tx);
    ApprovalFits(m, h.started[key], Approvals(h, key), a, c.signConfirmCount);
    hide Deleted;
  }

  lemma MakerFinishKeepsOrders(w: World, h: History, tx: Tx)
    requires OrdersInv(w, h) && tx.call.MakerFinish? && DoMakerFinish(w, tx.msg, tx.call.rtx, tx.call.accepts).Some?
    ensures OrdersInv(DoMakerFinish(w, tx.msg, tx.call.rtx, tx.call.accepts).value, Note(w, h, tx))
  {
    hide OrderOk;
    var rtx := tx.call.rtx;
    var w', h' := DoMakerFinish(w, tx.msg, rtx, tx.call.accepts).value, Note(w, h, tx);
    var key := OrderKey(rtx.origin, rtx.txId);
    assert OrderOk(MakerOf(At(w, key.p).makerTxs, key.txId), h, key);
    ApprovalKeepsOrder(w, h, tx);
    NotesElsewhere(w, h, tx, key);
    hide SameNotes, OrdersInv;
    OrdersElsewhere(w, h, w', h', key);
  }

  lemma SameOpenKeepsOrders(w: World, h: History, w': World, tx: Tx)
    requires OrdersInv(w, h) && SameOpen(w, w') && !tx.call.MakerStart? && !tx.call.MakerFinish?
    ensures OrdersInv(w', Note(w, h, tx)) && OrdersInv(w', h)
  {
    var h' := Note(w, h, tx);
    hide At, Note;
    forall key: OrderKey
      ensures OrderOk(MakerOf(At(w', key.p).makerTxs, key.txId), h', key)
      ensures OrderOk(MakerOf(At(w', key.p).makerTxs, key.txId), h, key)
    {
      assert OrderOk(MakerOf(At(w, key.p).makerTxs, key.txId), h, key);
      assert At(w, key.p).makerTxs == At(w', key.p).makerTxs;
      OtherNotes(w, h, tx, key);
      hide OrderOk, SameOrderNotes;
      SameNotesKeepOrder(MakerOf(At(w, key.p).makerTxs, key.txId), h, h', key);
    }
  }

  lemma OtherNotes(w: World, h: History, tx: Tx, key: OrderKey)
    requires !tx.call.MakerStart? && !tx.call.MakerFinish?
    ensures SameOrderNotes(h, Note(w, h, tx), key)
  {
  }

  /** Every transaction of a run with new identifiers keeps the orders in step
      with what was started, approved and paid. */
  lemma StepKeepsOrders(g: Guard, k: Crypto, w: World, h: History, tx: Tx)
    requires Inv(g, w, h) && OrdersInv(w, h) && Fresh(h, tx)
    ensures OrdersInv(Step(g, k, w, h, tx).0, Step(g, k, w, h, tx).1)
  {
    StepKeepsInv(g, k, w, h, tx);
    hide Inv, OrdersInv, SameOpen, DoMakerStart, DoMakerFinish, Note;
    if Execute(g, k, w, tx.msg, tx.call).Some? {
      match tx.call
      case MakerStart(_, _, _, _) => MakerStartKeepsOrders(w, h, tx);
      case MakerFinish(_, _) => MakerFinishKeepsOrders(w, h, tx);
      case _ => SameOpenKeepsOrders(w, h, Step(g, k, w, h, tx).0, tx);
    }
  }

  lemma {:induction false} RunKeepsOrders(g: Guard, k: Crypto, owner: Address, txs: seq<Tx>)
    requires FreshRun(g, k, owner, txs)
    ensures OrdersInv(After(g, k, owner, txs).0, After(g, k, owner, txs).1)
  {
    hide OrdersInv, Step, Fresh;
    if txs == [] {
      DeploymentInv(g, owner);
    } else {
      RunKeepsOrders(g, k, owner, txs[..|txs| - 1]);
      RunKeepsInv(g, k, owner, txs[..|txs| - 1]);
      var (w, h) := After(g, k, owner, txs[..|txs| - 1]);
      hide Inv;
      StepKeepsOrders(g, k, w, h, txs[|txs| - 1]);
    }
  }
}
