/** Runs of the cross-chain contract that show where its promises end: each
    belongs to an exact condition proved beside it or in ContractTheorems. */
module ContractScenarios {
  import opened Options
  import opened Words
  import opened CrossStruct
  import opened AnchorTable
  import opened SignatureCount
  import opened OrderEncoding
  import opened Contract
  import opened ChainInvariant
  import opened ContractRuns
  import opened ContractTheorems
  import opened Transactions

  const OWNER: Address := 1

  lemma Extend(g: Guard, k: Crypto, txs: seq<Tx>, tx: Tx)
    ensures After(g, k, OWNER, txs + [tx]) == Step(g, k, After(g, k, OWNER, txs).0, After(g, k, OWNER, txs).1, tx)
    ensures FreshRun(g, k, OWNER, txs + [tx]) <==>
            FreshRun(g, k, OWNER, txs) && Fresh(After(g, k, OWNER, txs).1, tx)
  {
    assert (txs + [tx])[..|txs + [tx]| - 1] == txs;
    hide Step, Fresh;
  }

  // ---------- A chain with two anchors ----------

  function Register(p: uint8): Tx {
    Tx(Message(OWNER, 0), ChainRegister(p, 100, 2, [10, 11], ""))
  }

  function TwoAnchors(p: uint8): Chain {
    NO_CHAIN.(purpose := p, signConfirmCount := 2, maxValue := 100, anchorAddress := [10, 11],
              anchors := map[10 := Anchor(p, 0, true, 0, 0), 11 := Anchor(p, 1, true, 0, 0)])
  }

  lemma Registers(g: Guard, k: Crypto, p: uint8)
    ensures After(g, k, OWNER, [Register(p)]) == (Put(Empty(OWNER), p, TwoAnchors(p)), NO_HISTORY)
    ensures FreshRun(g, k, OWNER, [Register(p)])
  {
    assert [] + [Register(p)] == [Register(p)];
    Extend(g, k, [], Register(p));
    RegistersTwo(p);
    hide RegisterAll, TwoAnchors, FreshChain;
  }

  lemma RegistersTwo(p: uint8)
    ensures RegisterAll(FreshChain(NO_CHAIN, p, 100, 2, ""), p, [10, 11]) == Some(TwoAnchors(p))
  {
    var c := FreshChain(NO_CHAIN, p, 100, 2, "");
    var c1 := Enlist(c, p, 10);
    assert RegisterAll(c, p, [10, 11]) == RegisterAll(c1, p, [11]);
    assert RegisterAll(c1, p, [11]) == RegisterAll(Enlist(c1, p, 11), p, []);
    assert Enlist(c1, p, 11) == TwoAnchors(p);
  }

  // ---------- Two approvals ----------

  const KEY := OrderKey(1, 9)

  function Start(from: string, to: string): Tx {
    Tx(Message(5, 50), MakerStart(KEY.p, KEY.txId, from, to))
  }

  function Finish(anchor: Address, hash: Hash, from: string, to: string): Tx {
    Tx(Message(anchor, 0), MakerFinish(Recept(KEY.txId, hash, from, to, 20, KEY.p), true))
  }

  function TwoApprovals(from: string, to: string, hash0: Hash, to0: string, hash1: Hash, to1: string): seq<Tx> {
    [Register(1), Start(from, to), Finish(10, hash0, from, to0), Finish(11, hash1, from, to1)]
  }

  function Book(m: MakerInfo, finished: seq<Address>): Chain {
    TwoAnchors(1).(makerTxs := map[KEY.txId := m],
                   anchors := map[10 := Anchor(1, 0, true, 0, if 10 in finished then 1 else 0),
                                  11 := Anchor(1, 1, true, 0, if 11 in finished then 1 else 0)])
  }

  /** Two approvals that pass the checks one after the other pay the order out. */
  lemma TwoApprovalsPay(g: Guard, k: Crypto, from: string, to: string, hash0: Hash, to0: string, hash1: Hash, to1: string)
    requires to == "" || to0 == to || to0 == from
    requires to0 == "" || to1 == to0 || to1 == from
    requires hash0 == 0 || hash0 == hash1
    ensures var txs := TwoApprovals(from, to, hash0, to0, hash1, to1);
            var h := After(g, k, OWNER, txs).1;
            && FreshRun(g, k, OWNER, txs)
            && KEY in h.started && h.started[KEY] == Opening(50, from, to, 0, 100)
            && Approvals(h, KEY) == [Approval(10, hash0, from, to0, 20, true), Approval(11, hash1, from, to1, 20, true)]
            && Payouts(h, KEY) == [Payout(50, 20, 2)]
  {
    var txs1, txs2 := [Register(1)], [Register(1), Start(from, to)];
    var txs3 := [Register(1), Start(from, to), Finish(10, hash0, from, to0)];
    var txs4 := TwoApprovals(from, to, hash0, to0, hash1, to1);
    Registers(g, k, 1);
    assert txs1 + [Start(from, to)] == txs2 && txs2 + [Finish(10, hash0, from, to0)] == txs3
        && txs3 + [Finish(11, hash1, from, to1)] == txs4;
    Extend(g, k, txs1, Start(from, to));
    Extend(g, k, txs2, Finish(10, hash0, from, to0));
    Extend(g, k, txs3, Finish(11, hash1, from, to1));
    hide After, FreshRun;
    Started(g, k, from, to);
    FirstApproval(g, k, from, to, hash0, to0);
    SecondApproval(g, k, from, to, hash0, to0, hash1, to1);
    hide Step, Register, Start, Finish;
  }

  function OpenWorld(m: MakerInfo, finished: seq<Address>): World {
    World(OWNER, map[1 := Book(m, finished)], 50, [])
  }

  function OpenNotes(from: string, to: string, approvals: seq<Approval>): History {
    NO_HISTORY.(started := map[KEY := Opening(50, from, to, 0, 100)],
                approvals := if approvals == [] then map[] else map[KEY := approvals])
  }

  lemma Started(g: Guard, k: Crypto, from: string, to: string)
    ensures Step(g, k, Put(Empty(OWNER), 1, TwoAnchors(1)), NO_HISTORY, Start(from, to))
         == (OpenWorld(MakerInfo(50, 0, {}, from, to, 0), []), OpenNotes(from, to, []))
  {
    var w := Put(Empty(OWNER), 1, TwoAnchors(1));
    var w' := DoMakerStart(w, Message(5, 50), 1, 9, from, to).value;
    assert At(w', 1) == Book(MakerInfo(50, 0, {}, from, to, 0), []);
    assert w'.chains == map[1 := Book(MakerInfo(50, 0, {}, from, to, 0), [])];
  }

  lemma FirstApproval(g: Guard, k: Crypto, from: string, to: string, hash: Hash, to0: string)
    requires to == "" || to0 == to || to0 == from
    ensures Step(g, k, OpenWorld(MakerInfo(50, 0, {}, from, to, 0), []), OpenNotes(from, to, []), Finish(10, hash, from, to0))
         == (OpenWorld(MakerInfo(50, 1, {10}, from, to0, hash), [10]),
             OpenNotes(from, to, [Approval(10, hash, from, to0, 20, true)]))
  {
    FirstApprovalWorld(from, to, hash, to0);
    FirstApprovalNotes(from, to, hash, to0);
    hide OpenWorld, OpenNotes, DoMakerFinish, Note;
  }

  lemma FirstApprovalWorld(from: string, to: string, hash: Hash, to0: string)
    requires to == "" || to0 == to || to0 == from
    ensures var tx := Finish(10, hash, from, to0);
            DoMakerFinish(OpenWorld(MakerInfo(50, 0, {}, from, to, 0), []), tx.msg, tx.call.rtx, true) ==
            Some(OpenWorld(MakerInfo(50, 1, {10}, from, to0, hash), [10]))
  {
    var w := OpenWorld(MakerInfo(50, 0, {}, from, to, 0), []);
    var tx := Finish(10, hash, from, to0);
    assert MayApprove(w, tx.msg, tx.call.rtx) && !PaysOut(w, tx.msg, tx.call.rtx);
    hide MayApprove, PaysOut;
    var w' := DoMakerFinish(w, tx.msg, tx.call.rtx, true).value;
    var m := MakerInfo(50, 1, {10}, from, to0, hash);
    assert {} + {10 as Address} == {10};
    assert At(w', 1).anchors == Book(m, [10]).anchors && At(w', 1).makerTxs == map[KEY.txId := m];
    assert w'.chains == map[1 := Book(m, [10])];
  }

  lemma FirstApprovalNotes(from: string, to: string, hash: Hash, to0: string)
    requires to == "" || to0 == to || to0 == from
    ensures Note(OpenWorld(MakerInfo(50, 0, {}, from, to, 0), []), OpenNotes(from, to, []), Finish(10, hash, from, to0))
         == OpenNotes(from, to, [Approval(10, hash, from, to0, 20, true)])
  {
    var w, h, tx := OpenWorld(MakerInfo(50, 0, {}, from, to, 0), []), OpenNotes(from, to, []), Finish(10, hash, from, to0);
    var a := Approval(10, hash, from, to0, 20, true);
    assert !PaysOut(w, tx.msg, tx.call.rtx) && IsAvailable(At(w, 1), 1, 10);
    hide PaysOut, IsAvailable;
    assert Approvals(h, KEY) == [] && [] + [a] == [a];
    assert Note(w, h, tx).approvals == map[KEY := [a]];
  }

  lemma SecondApproval(g: Guard, k: Crypto, from: string, to: string, hash0: Hash, to0: string, hash1: Hash, to1: string)
    requires to0 == "" || to1 == to0 || to1 == from
    requires hash0 == 0 || hash0 == hash1
    ensures var first := [Approval(10, hash0, from, to0, 20, true)];
            var h := OpenNotes(from, to, first);
            var h' := Step(g, k, OpenWorld(MakerInfo(50, 1, {10}, from, to0, hash0), [10]), h, Finish(11, hash1, from, to1)).1;
            && h'.started == h.started
            && Approvals(h', KEY) == first + [Approval(11, hash1, from, to1, 20, true)]
            && Payouts(h', KEY) == [Payout(50, 20, 2)]
  {
    var w := OpenWorld(MakerInfo(50, 1, {10}, from, to0, hash0), [10]);
    var tx := Finish(11, hash1, from, to1);
    var h := OpenNotes(from, to, [Approval(10, hash0, from, to0, 20, true)]);
    assert MayApprove(w, tx.msg, tx.call.rtx) && PaysOut(w, tx.msg, tx.call.rtx);
    assert DoMakerFinish(w, tx.msg, tx.call.rtx, true).Some?;
    NotedApproval(w, h, tx);
  }

  /** The last two approvals of an order that is paid out may name different taker
      hashes: first the zero hash, then any other. */
  lemma ApprovalsMayDiffer(g: Guard, k: Crypto, hash: Hash)
    requires hash != 0
    ensures var txs := TwoApprovals("a", "b", 0, "b", hash, "b");
            var h := After(g, k, OWNER, txs).1;
            && FreshRun(g, k, OWNER, txs) && |Payouts(h, KEY)| == 1
            && |Approvals(h, KEY)| == 2 && Approvals(h, KEY)[0].hash == 0 && Approvals(h, KEY)[1].hash == hash
  {
    hide After, FreshRun;
    TwoApprovalsPay(g, k, "a", "b", 0, "b", hash, "b");
  }

  /** In this run every approval of an order started with these texts names that
      receiver or the maker as receiver. */
  predicate KeepsReceiver(g: Guard, k: Crypto, owner: Address, txs: seq<Tx>, key: OrderKey, from: string, to: string) {
    var h := After(g, k, owner, txs).1;
    key in h.started && h.started[key].from == from && h.started[key].to == to ==>
      forall i :: 0 <= i < |Approvals(h, key)| ==> Approvals(h, key)[i].to == to || Approvals(h, key)[i].to == from
  }

  /** Runs keep the receiver a maker names exactly when the maker's own text and
      the receiver's are both nonempty. An empty maker text lets an approval blank
      the receiver and the next one name anybody. */
  lemma ReceiverIsKeptIff(g: Guard, k: Crypto, from: string, to: string)
    ensures (forall owner: Address, txs: seq<Tx>, key: OrderKey ::
               FreshRun(g, k, owner, txs) ==> KeepsReceiver(g, k, owner, txs, key, from, to)) <==>
            from != "" && to != ""
  {
    if from != "" && to != "" {
      forall owner: Address, txs: seq<Tx>, key: OrderKey | FreshRun(g, k, owner, txs)
        ensures KeepsReceiver(g, k, owner, txs, key, from, to)
      {
        hide FreshRun, After;
        ReceiversKept(g, k, owner, txs, key, from, to);
      }
    } else {
      var other := from + to + "x";
      assert |other| == |from| + |to| + 1;
      var txs := TwoApprovals(from, to, 0, "", 0, other);
      hide After, FreshRun;
      TwoApprovalsPay(g, k, from, to, 0, "", 0, other);
      assert Approvals(After(g, k, OWNER, txs).1, KEY)[1].to == other;
      assert !KeepsReceiver(g, k, OWNER, txs, KEY, from, to);
    }
  }

  lemma ReceiversKept(g: Guard, k: Crypto, owner: Address, txs: seq<Tx>, key: OrderKey, from: string, to: string)
    requires from != "" && to != "" && FreshRun(g, k, owner, txs)
    ensures KeepsReceiver(g, k, owner, txs, key, from, to)
  {
    hide After, FreshRun;
    var h := After(g, k, owner, txs).1;
    if key in h.started && h.started[key].from == from && h.started[key].to == to {
      forall i | 0 <= i < |Approvals(h, key)|
        ensures Approvals(h, key)[i].to == to || Approvals(h, key)[i].to == from
      {
        ApprovalsNameTheParties(g, k, owner, txs, key, i);
      }
    }
  }

  // ---------- Chain zero ----------

  /** On a chain registered with number zero any one signature satisfies a required
      count of two: its signer counts as current and as remembered, whoever it is,
      though no anchor has signed. */
  lemma AnySignatureCountsTwice(g: Guard, k: Crypto, msg: Message, o: Order)
    requires o.origin == 0 && msg.sender == o.from && |o.v| == |o.r| == |o.s| == 1
    ensures var w := After(g, k, OWNER, [Register(0)]).0;
            && At(w, 0).signConfirmCount == 2 && At(w, 0).anchorAddress == [10, 11]
            && DoTaker(k, w, msg, o, true).Some?
            && Vouchers(At(w, 0), Recovered(k, o)) == {}
  {
    Registers(g, k, 0);
    hide After;
    var x := Recovered(k, o)[0];
    assert Recovered(k, o) == [x];
    hide Recovered, OwnerTally, OwnerCountOf, TwoAnchors;
    CountedTwice(x);
  }

  lemma CountedTwice(x: Address)
    ensures var c := TwoAnchors(0);
            var (_, mask, delMask) := OwnerTally(c, 0, [x], 0, 0);
            && OwnerCountOf(mask, delMask) == 2 && Vouchers(c, [x]) == {}
            && c.signConfirmCount == 2 && c.anchorAddress == [10, 11] && c.takerTxs == map[]
  {
    hide OwnerTally, OwnerCountOf, TwoAnchors, Narrow;
    NobodyIsWritten(x);
    UnwrittenCountsTwice(TwoAnchors(0), x);
  }

  lemma UnwrittenCountsTwice(c: Chain, x: Address)
    requires Narrow(c) && AnchorOf(c.anchors, x).purpose == 0 && AnchorOf(c.delAnchors, x).purpose == 0
    ensures var (_, mask, delMask) := OwnerTally(c, 0, [x], 0, 0);
            OwnerCountOf(mask, delMask) == 2 && Vouchers(c, [x]) == {}
  {
    hide OwnerTally, OwnerCountOf, Positions, AnchorOf, Narrow;
    assert Vouchers(c, [x]) == {};
    assert Current(c, 0, [x]) == {x} && Remembered(c, 0, [x]) == {x};
    hide Current, Remembered, Vouchers;
    OwnerCountIsSound(c, 0, [x]);
    OnePosition(c.anchors, x, {});
    OnePosition(c.delAnchors, x, {});
  }

  lemma NobodyIsWritten(x: Address)
    ensures var c := TwoAnchors(0);
            && Narrow(c) && AnchorOf(c.anchors, x).purpose == 0 && AnchorOf(c.delAnchors, x).purpose == 0
            && c.signConfirmCount == 2 && c.anchorAddress == [10, 11] && c.takerTxs == map[]
  {
  }

  // ---------- Orders taken again ----------

  function Take(from: Address): Tx {
    Tx(Message(7, 0), Taker(Order(0, 0, 0, 3, 0, from, 0, 1, 0, [], [], [], []), true))
  }

  /** An order with a value is taken a second time once its identifier was taken
      for another maker. */
  lemma TakenTwice(g: Guard, k: Crypto)
    ensures var h := After(g, k, OWNER, [Take(5), Take(6), Take(5)]).1;
            Takings(h, OrderKey(1, 0)) == [TakerInfo(3, 5), TakerInfo(3, 6), TakerInfo(3, 5)]
  {
    var w0 := Empty(OWNER);
    assert At(w0, 1) == NO_CHAIN && Takings(NO_HISTORY, OrderKey(1, 0)) == [];
    hide After, Step, Take, At, Empty, Takings;
    AfterThree(g, k, Take(5), Take(6), Take(5));
    UnsignedTake(g, k, w0, NO_HISTORY, 5);
    var (w1, h1) := Step(g, k, w0, NO_HISTORY, Take(5));
    UnsignedTake(g, k, w1, h1, 6);
    var (w2, h2) := Step(g, k, w1, h1, Take(6));
    UnsignedTake(g, k, w2, h2, 5);
  }

  lemma AfterThree(g: Guard, k: Crypto, a: Tx, b: Tx, c: Tx)
    ensures var (w1, h1) := Step(g, k, Empty(OWNER), NO_HISTORY, a);
            var (w2, h2) := Step(g, k, w1, h1, b);
            After(g, k, OWNER, [a, b, c]) == Step(g, k, w2, h2, c)
  {
    hide Step, Fresh;
    assert [] + [a] == [a] && [a] + [b] == [a, b] && [a, b] + [c] == [a, b, c];
    Extend(g, k, [], a);
    Extend(g, k, [a], b);
    Extend(g, k, [a, b], c);
  }

  lemma UnsignedTake(g: Guard, k: Crypto, w: World, h: History, from: Address)
    requires At(w, 1) == NO_CHAIN.(takerTxs := At(w, 1).takerTxs) && from != 7
    requires TakerOf(At(w, 1).takerTxs, 0).value == 0 || TakerOf(At(w, 1).takerTxs, 0).from != from
    ensures var (w', h') := Step(g, k, w, h, Take(from));
            && At(w', 1) == NO_CHAIN.(takerTxs := At(w', 1).takerTxs)
            && TakerOf(At(w', 1).takerTxs, 0) == TakerInfo(3, from)
            && Takings(h', OrderKey(1, 0)) == Takings(h, OrderKey(1, 0)) + [TakerInfo(3, from)]
  {
    var c := At(w, 1);
    var o := Take(from).call.order;
    NothingToCheck(k, c, o);
    hide CheckSignatures, At;
    assert DoTaker(k, w, Message(7, 0), o, true) == Some(Send(Put(w, 1, c.(takerTxs := c.takerTxs[0 := TakerInfo(3, from)])), from, 0));
    hide DoTaker;
    PutAt(w, 1, c.(takerTxs := c.takerTxs[0 := TakerInfo(3, from)]));
  }

  lemma PutAt(w: World, p: uint8, c: Chain)
    ensures At(Put(w, p, c), p) == c
  {
  }

  lemma NothingToCheck(k: Crypto, c: Chain, o: Order)
    requires Narrow(c) && o.v == [] && o.r == [] && o.s == []
    ensures CheckSignatures(k, c, o, false) == (c, 0)
  {
    assert Recovered(k, o) == [];
    assert Tally(c, o.origin, [], 0) == (c, 0);
    hide Recovered, CountOf, Tally;
    CountIsSound(c, o.origin, []);
    AvailableUnfold(c, o.origin, []);
  }

  // ---------- Sixty-three signers ----------

  function Committee(n: nat): (list: seq<Address>)
    requires n <= 64
    ensures |list| == n && forall i :: 0 <= i < n ==> list[i] == i + 10
  {
    seq(n, i requires 0 <= i < n => i + 10)
  }

  function RegisterCommittee(n: nat): Tx
    requires n <= 64
  {
    Tx(Message(OWNER, 0), ChainRegister(1, 100, 1, Committee(n), ""))
  }

  /** A recovery in which r names the signer. */
  function NamedByR(): Crypto {
    Crypto((h: Hash, v: uint8, r: Hash, s: Hash) => r % U160, (b: seq<uint8>) => 0, 1)
  }

  function CommitteeSignatures(n: nat): (sigs: seq<Signature>)
    requires n <= 64
    ensures |sigs| == n && forall i :: 0 <= i < n ==> sigs[i] == Signature(i + 10, 0, 0)
  {
    seq(n, i requires 0 <= i < n => Signature(i + 10, 0, 0))
  }

  lemma {:induction false} RegisterDistinct(c: Chain, p: uint8, list: seq<Address>)
    requires p > 0 && forall i :: 0 <= i < |list| ==> !IsListed(c, list[i])
    requires forall i, j :: 0 <= i < j < |list| ==> list[i] != list[j]
    ensures RegisterAll(c, p, list).Some?
    ensures var d := RegisterAll(c, p, list).value;
            && (forall a: Address :: a in list ==> IsAvailable(d, p, a))
            && (forall a: Address :: a !in list ==> AnchorOf(d.anchors, a) == AnchorOf(c.anchors, a))
            && d == c.(anchors := d.anchors, anchorAddress := d.anchorAddress)
    decreases |list|
  {
    if list != [] {
      var c1 := Enlist(c, p, list[0]);
      assert forall a: Address :: a in list <==> a == list[0] || a in list[1..];
      RegisterDistinct(c1, p, list[1..]);
    }
  }

  ghost function Members(list: seq<Address>): set<Address> {
    set a | a in list
  }

  lemma {:induction false} DistinctSize(list: seq<Address>)
    requires forall i, j :: 0 <= i < j < |list| ==> list[i] != list[j]
    ensures |Members(list)| == |list|
    decreases |list|
  {
    if list == [] {
      assert Members(list) == {};
    } else {
      DistinctSize(list[1..]);
      assert list[0] !in Members(list[1..]);
      assert Members(list) == {list[0]} + Members(list[1..]);
    }
  }

  lemma CommitteeRegisters(g: Guard, k: Crypto, n: nat)
    requires n <= 64
    ensures var c := At(After(g, k, OWNER, [RegisterCommittee(n)]).0, 1);
            && Table(c, 1) && c.signConfirmCount == 1 && c.takerTxs == map[]
            && Available(c, 1, Committee(n)) == Members(Committee(n))
  {
    assert [] + [RegisterCommittee(n)] == [RegisterCommittee(n)];
    Extend(g, k, [], RegisterCommittee(n));
    hide RegisterAll, Table, Committee, Available, Members;
    CommitteeChain(n);
  }

  lemma CommitteeChain(n: nat)
    requires n <= 64
    ensures var r := RegisterAll(FreshChain(NO_CHAIN, 1, 100, 1, ""), 1, Committee(n));
            && r.Some? && Table(r.value, 1) && r.value.signConfirmCount == 1 && r.value.takerTxs == map[]
            && Available(r.value, 1, Committee(n)) == Members(Committee(n))
  {
    var c := FreshChain(NO_CHAIN, 1, 100, 1, "");
    assert Table(c, 1);
    RegisterDistinct(c, 1, Committee(n));
    hide Table;
    RegisterAllKeepsTable(c, 1, Committee(n));
    hide RegisterAll, Committee, IsAvailable;
  }

  lemma CommitteeSigns(hex: string -> Address, tx: CrossTransaction, n: nat)
    requires n <= 64
    ensures forall i :: 0 <= i < n ==> Signs(NamedByR(), hex, tx, CommitteeSignatures(n)[i], Committee(n)[i])
    ensures NamedByR().chainId > 0
  {
  }

  /** With one signature required, an order that everybody in a list of different
      available anchors has signed is taken exactly when their number is no
      multiple of 63. */
  lemma AllSignedIsTakenIff(g: Guard, k: Crypto, txs: seq<Tx>, msg: Message, tx: CrossTransaction,
                            hex: string -> Address, sigs: seq<Signature>, signers: seq<Address>)
    requires k.chainId > 0 && tx.origin == 1 && 0 <= tx.value < U256 && 0 <= tx.charge < U256
    requires |sigs| == |signers| && forall i :: 0 <= i < |sigs| ==> Signs(k, hex, tx, sigs[i], signers[i])
    requires msg.sender != hex(tx.from) && hex(tx.to) == 0 && msg.value >= tx.charge
    requires var c := At(After(g, k, OWNER, txs).0, 1);
             && Table(c, 1) && c.signConfirmCount == 1 && c.takerTxs == map[]
             && |Available(c, 1, signers)| == |signers|
    ensures DoTaker(k, After(g, k, OWNER, txs).0, msg, SignedOrder(k, hex, tx, sigs), true).Some? <==> |signers| % 63 != 0
  {
    hide After, Table, DoTaker, SignedOrder, Signs, Available, Positions, At;
    PositionsAreAnchors(g, k, OWNER, txs, 1, signers);
    HubOrderIsTakenIff(g, k, OWNER, txs, msg, tx, hex, sigs, signers);
  }

  /** An order that all n anchors of a chain have signed on the hub, one signature
      being required, is refused exactly when n is 0 or 63. */
  lemma FullCommitteeIsTakenIff(g: Guard, msg: Message, tx: CrossTransaction, hex: string -> Address, n: nat)
    requires n <= 64 && tx.origin == 1 && 0 <= tx.value < U256 && 0 <= tx.charge < U256
    requires msg.sender != hex(tx.from) && hex(tx.to) == 0 && msg.value >= tx.charge
    ensures var w := After(g, NamedByR(), OWNER, [RegisterCommittee(n)]).0;
            && |Available(At(w, 1), 1, Committee(n))| == n
            && (DoTaker(NamedByR(), w, msg, SignedOrder(NamedByR(), hex, tx, CommitteeSignatures(n)), true).Some?
                <==> n != 0 && n != 63)
  {
    hide After, Table, DoTaker, SignedOrder, NamedByR, Committee, CommitteeSignatures, Available, Signs, RegisterCommittee, At;
    CommitteeSigns(hex, tx, n);
    CommitteeRegisters(g, NamedByR(), n);
    DistinctSize(Committee(n));
    AllSignedIsTakenIff(g, NamedByR(), [RegisterCommittee(n)], msg, tx, hex, CommitteeSignatures(n), Committee(n));
  }
}
