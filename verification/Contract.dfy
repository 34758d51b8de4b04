/** The entry points of the cross-chain contract as functions on its storage and
    balance (contract/crossdemo/crossdemo.sol). None means the call reverts. */
module Contract {
  import opened Options
  import opened Words
  import opened CrossStruct
  import opened AnchorTable
  import opened SignatureCount
  import opened OrderEncoding

  /** Money the contract has sent. */
  datatype Transfer = Transfer(to: Address, amount: nat)

  datatype World = World(owner: Address, chains: map<uint8, Chain>, balance: nat, sent: seq<Transfer>)

  datatype Recept = Recept(txId: Hash, txHash: Hash, from: string, to: string, taker: Address, origin: uint8)

  datatype Message = Message(sender: Address, value: uint256)

  /** `accepts` says whether the recipient takes the transfer; a transfer that is
      refused reverts the call. txId stands for the hash of sender, nonce and
      chain identifier. */
  datatype Call =
    | SetReward(p: uint8, amount: uint256)
    | AccumulateRewards(p: uint8, anchor: Address, amount: uint256, accepts: bool)
    | ChainRegister(p: uint8, maxValue: uint256, count: uint8, list: seq<Address>, router: string)
    | AddAnchors(p: uint8, list: seq<Address>)
    | RemoveAnchors(p: uint8, list: seq<Address>)
    | UpdateRouter(p: uint8, router: string)
    | SetAnchorStatus(p: uint8, anchor: Address, status: bool)
    | SetSignConfirmCount(p: uint8, count: uint8)
    | SetMaxValue(p: uint8, maxValue: uint256)
    | MakerStart(p: uint8, txId: Hash, from: string, to: string)
    | MakerFinish(rtx: Recept, accepts: bool)
    | Taker(order: Order, accepts: bool)

  function At(w: World, p: uint8): Chain {
    ChainOf(w.chains, p)
  }

  function Put(w: World, p: uint8, c: Chain): World {
    w.(chains := w.chains[p := c])
  }

  function Send(w: World, to: Address, amount: nat): World {
    w.(sent := w.sent + [Transfer(to, amount)])
  }

  function Empty(owner: Address): World {
    World(owner, map[], 0, [])
  }

  // ---------- Administration ----------

  function DoSetReward(w: World, p: uint8, amount: uint256): Option<World> {
    Some(Put(w, p, At(w, p).(reward := amount)))
  }

  function DoAccumulateRewards(w: World, p: uint8, anchor: Address, amount: uint256, accepts: bool): Option<World> {
    var c := At(w, p);
    if amount > c.totalReward || AnchorOf(c.anchors, anchor).purpose != p || !accepts || amount > w.balance then None
    else Some(Send(Put(w, p, c.(totalReward := c.totalReward - amount)).(balance := w.balance - amount), anchor, amount))
  }

  /** The struct assignment of chainRegister: mappings keep their entries. */
  function FreshChain(c: Chain, p: uint8, maxValue: uint256, count: uint8, router: string): Chain {
    Chain(p, count, maxValue, [], c.anchors, c.makerTxs, c.takerTxs, c.delAnchors, [], 0, 0, 0, router)
  }

  function DoChainRegister(w: World, p: uint8, maxValue: uint256, count: uint8, list: seq<Address>,
                           router: string): Option<World> {
    if At(w, p).purpose != 0 || |list| > 64 then None
    else match RegisterAll(FreshChain(At(w, p), p, maxValue, count, router), p, list)
      case None => None
      case Some(c) => Some(Put(w, p, c))
  }

  function DoAddAnchors(w: World, p: uint8, list: seq<Address>): Option<World> {
    var c := At(w, p);
    if c.purpose != p || !(0 < |list| < 64) || |c.anchorAddress| + |list| > 64 then None
    else match AddAll(c, p, list)
      case None => None
      case Some(d) => Some(Put(w, p, d))
  }

  /** The unchecked subtraction of the required count wraps around. */
  predicate LeavesEnough(c: Chain, n: nat) {
    (|c.anchorAddress| - c.signConfirmCount) % U256 >= n
  }

  function DoRemoveAnchors(g: Guard, w: World, p: uint8, list: seq<Address>): Option<World> {
    var c := At(w, p);
    if c.purpose == 0 || list == [] || !LeavesEnough(c, |list|) then None
    else match RemoveAll(g, c, p, list)
      case None => None
      case Some(d) => Some(Put(w, p, d))
  }

  function DoUpdateRouter(w: World, p: uint8, router: string): Option<World> {
    if At(w, p).purpose == 0 || At(w, p).router == router then None
    else Some(Put(w, p, At(w, p).(router := router)))
  }

  function DoSetAnchorStatus(w: World, p: uint8, anchor: Address, status: bool): Option<World> {
    var c := At(w, p);
    if !status && CountAvailable(c, c.anchorAddress) % U8 <= c.signConfirmCount then None
    else Some(Put(w, p, SetStatus(c, anchor, status)))
  }

  function DoSetSignConfirmCount(w: World, p: uint8, count: uint8): Option<World> {
    var c := At(w, p);
    if c.purpose == 0 || count == 0 || count > |c.anchorAddress| then None
    else Some(Put(w, p, c.(signConfirmCount := count)))
  }

  function DoSetMaxValue(w: World, p: uint8, maxValue: uint256): Option<World> {
    var c := At(w, p);
    if c.purpose == 0 || maxValue == 0 || maxValue <= c.reward then None
    else Some(Put(w, p, c.(maxValue := maxValue)))
  }

  // ---------- Orders ----------

  /** A new order keeps the signature entries an earlier order left under its id. */
  function DoMakerStart(w: World, msg: Message, p: uint8, txId: Hash, from: string, to: string): Option<World> {
    var c := At(w, p);
    var prev := MakerOf(c.makerTxs, txId);
    if msg.value >= c.maxValue || c.purpose == 0 || prev.value != 0 || c.reward > msg.value
       || c.totalReward + c.reward >= U256 then None
    else
      Some(Put(w, p, c.(makerTxs := c.makerTxs[txId := MakerInfo(msg.value - c.reward, 0, prev.signatures, from, to, 0)],
                        totalReward := c.totalReward + c.reward)).(balance := w.balance + msg.value))
  }

  /** The requirements of makerFinish. */
  predicate MayApprove(w: World, msg: Message, rtx: Recept) {
    var c := At(w, rtx.origin);
    var anchor := AnchorOf(c.anchors, msg.sender);
    var m := MakerOf(c.makerTxs, rtx.txId);
    && c.purpose > 0 && anchor.purpose == rtx.origin && anchor.status
    && msg.sender !in m.signatures && m.value > 0
    && m.from == rtx.from && (m.to == "" || m.to == rtx.to || m.from == rtx.to)
    && (m.takerHash == 0 || m.takerHash == rtx.txHash)
  }

  /** The order after one more approval. */
  function Approved(m: MakerInfo, sender: Address, rtx: Recept): MakerInfo {
    m.(signatures := m.signatures + {sender}, signatureCount := (m.signatureCount + 1) % U8,
       to := rtx.to, takerHash := rtx.txHash)
  }

  /** delete on an order: nested mapping entries stay. */
  function Deleted(m: MakerInfo): MakerInfo {
    NO_MAKER.(signatures := m.signatures)
  }

  predicate PaysOut(w: World, msg: Message, rtx: Recept) {
    var c := At(w, rtx.origin);
    Approved(MakerOf(c.makerTxs, rtx.txId), msg.sender, rtx).signatureCount >= c.signConfirmCount
  }

  function DoMakerFinish(w: World, msg: Message, rtx: Recept, accepts: bool): Option<World> {
    var c := At(w, rtx.origin);
    var prev := MakerOf(c.makerTxs, rtx.txId);
    var m := Approved(prev, msg.sender, rtx);
    var anchor := AnchorOf(c.anchors, msg.sender);
    var anchors := c.anchors[msg.sender := anchor.(finishCount := (anchor.finishCount + 1) % U256)];
    var funds := w.balance + msg.value;
    if !MayApprove(w, msg, rtx) then None
    else if !PaysOut(w, msg, rtx) then
      Some(Put(w, rtx.origin, c.(makerTxs := c.makerTxs[rtx.txId := m], anchors := anchors)).(balance := funds))
    else if !accepts || m.value > funds then None
    else
      Some(Send(Put(w, rtx.origin, c.(makerTxs := c.makerTxs[rtx.txId := Deleted(m)], anchors := anchors))
                  .(balance := funds - m.value), rtx.taker, m.value))
  }

  /** The signature check of taker, with the counters it updates. */
  function CheckSignatures(k: Crypto, c: Chain, order: Order, byOwner: bool): (Chain, uint8)
    requires |order.v| == |order.r| == |order.s|
  {
    var signers := Recovered(k, order);
    if byOwner then
      var (d, mask, delMask) := OwnerTally(c, order.origin, signers, 0, 0);
      (d, OwnerCountOf(mask, delMask))
    else
      var (d, mask) := Tally(c, order.origin, signers, 0);
      (d, CountOf(mask))
  }

  /** The attached value is passed on to the owner of the order. */
  function DoTaker(k: Crypto, w: World, msg: Message, o: Order, accepts: bool): Option<World> {
    if |o.v| != |o.r| || |o.v| != |o.s| then None
    else
      var c := At(w, o.origin);
      var seen := TakerOf(c.takerTxs, o.txId);
      var byOwner := msg.sender == o.from;
      var (d, count) := CheckSignatures(k, c, o, byOwner);
      if !(o.to == 0 || o.to == msg.sender || byOwner) || !(seen.value == 0 || seen.from != o.from)
         || (!byOwner && msg.value < o.charge) || count < c.signConfirmCount || !accepts then None
      else Some(Send(Put(w, o.origin, d.(takerTxs := d.takerTxs[o.txId := TakerInfo(o.value, o.from)])), o.from, msg.value))
  }

  // ---------- One transaction ----------

  predicate IsPayable(call: Call) {
    call.MakerStart? || call.MakerFinish? || call.Taker?
  }

  function Execute(g: Guard, k: Crypto, w: World, msg: Message, call: Call): Option<World> {
    if !IsPayable(call) && (msg.value > 0 || msg.sender != w.owner) then None
    else match call
      case SetReward(p, amount) => DoSetReward(w, p, amount)
      case AccumulateRewards(p, anchor, amount, accepts) => DoAccumulateRewards(w, p, anchor, amount, accepts)
      case ChainRegister(p, maxValue, count, list, router) => DoChainRegister(w, p, maxValue, count, list, router)
      case AddAnchors(p, list) => DoAddAnchors(w, p, list)
      case RemoveAnchors(p, list) => DoRemoveAnchors(g, w, p, list)
      case UpdateRouter(p, router) => DoUpdateRouter(w, p, router)
      case SetAnchorStatus(p, anchor, status) => DoSetAnchorStatus(w, p, anchor, status)
      case SetSignConfirmCount(p, count) => DoSetSignConfirmCount(w, p, count)
      case SetMaxValue(p, maxValue) => DoSetMaxValue(w, p, maxValue)
      case MakerStart(p, txId, from, to) => DoMakerStart(w, msg, p, txId, from, to)
      case MakerFinish(rtx, accepts) => DoMakerFinish(w, msg, rtx, accepts)
      case Taker(order, accepts) => DoTaker(k, w, msg, order, accepts)
  }

  /** The world after a transaction: a reverted one leaves no trace. */
  function Settled(w: World, r: Option<World>): World {
    if r.Some? then r.value else w
  }
}
