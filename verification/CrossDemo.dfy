/** The contract as an object whose entry points update its storage in place
    (contract/crossdemo/crossdemo.sol). Every method is proved against the
    function of the same name; ok is false when the call reverts. */
module CrossDemo {
  import opened Words
  import opened CrossStruct
  import opened Bits
  import opened AnchorTable
  import opened SignatureCount
  import opened OrderEncoding
  import opened Contract

  class CrossDemoContract {
    var owner: Address
    var crossChains: map<uint8, Chain>
    var balance: nat
    var sent: seq<Transfer>
    const crypto: Crypto

    ghost function View(): World
      reads this
    {
      World(owner, crossChains, balance, sent)
    }

    constructor (sender: Address, crypto: Crypto)
      ensures View() == Empty(sender) && this.crypto == crypto
    {
      owner := sender;
      crossChains := map[];
      balance := 0;
      sent := [];
      this.crypto := crypto;
    }

    // ---------- Administration ----------

    method SetReward(msg: Message, p: uint8, amount: uint256) returns (ok: bool)
      modifies this
      ensures ok == Execute(AsWritten, crypto, old(View()), msg, Call.SetReward(p, amount)).Some?
      ensures View() == Settled(old(View()), Execute(AsWritten, crypto, old(View()), msg, Call.SetReward(p, amount)))
    {
      if msg.value > 0 || msg.sender != owner { return false; }
      crossChains := crossChains[p := ChainOf(crossChains, p).(reward := amount)];
      return true;
    }

    method SetMaxValue(msg: Message, p: uint8, maxValue: uint256) returns (ok: bool)
      modifies this
      ensures ok == Execute(AsWritten, crypto, old(View()), msg, Call.SetMaxValue(p, maxValue)).Some?
      ensures View() == Settled(old(View()),
                              Execute(AsWritten, crypto, old(View()), msg, Call.SetMaxValue(p, maxValue)))
    {
      if msg.value > 0 || msg.sender != owner { return false; }
      var c := ChainOf(crossChains, p);
      if c.purpose == 0 || maxValue == 0 || !(maxValue > c.reward) { return false; }
      crossChains := crossChains[p := c.(maxValue := maxValue)];
      return true;
    }

    method UpdateRouter(msg: Message, p: uint8, router: string) returns (ok: bool)
      modifies this
      ensures ok == Execute(AsWritten, crypto, old(View()), msg, Call.UpdateRouter(p, router)).Some?
      ensures View() == Settled(old(View()), Execute(AsWritten, crypto, old(View()), msg, Call.UpdateRouter(p, router)))
    {
      if msg.value > 0 || msg.sender != owner { return false; }
      var c := ChainOf(crossChains, p);
      if c.purpose == 0 || c.router == router { return false; }
      crossChains := crossChains[p := c.(router := router)];
      return true;
    }

    method AccumulateRewards(msg: Message, p: uint8, anchor: Address, amount: uint256, accepts: bool) returns (ok: bool)
      modifies this
      ensures ok ==
              Execute(AsWritten, crypto, old(View()), msg, Call.AccumulateRewards(p, anchor, amount, accepts)).Some?
      ensures View() == Settled(old(View()),
                              Execute(AsWritten, crypto, old(View()), msg, Call.AccumulateRewards(p, anchor, amount, accepts)))
    {
      if msg.value > 0 || msg.sender != owner { return false; }
      var c := ChainOf(crossChains, p);
      if amount > c.totalReward { return false; }
      if AnchorOf(c.anchors, anchor).purpose != p { return false; }
      if !accepts || amount > balance { return false; }
      crossChains := crossChains[p := c.(totalReward := c.totalReward - amount)];
      balance := balance - amount;
      sent := sent + [Transfer(anchor, amount)];
      return true;
    }

    method ChainRegister(msg: Message, p: uint8, maxValue: uint256, count: uint8, list: seq<Address>, router: string)
      returns (ok: bool)
      modifies this
      ensures ok ==
              Execute(AsWritten, crypto, old(View()), msg, Call.ChainRegister(p, maxValue, count, list, router)).Some?
      ensures View() == Settled(old(View()),
                              Execute(AsWritten, crypto, old(View()), msg, Call.ChainRegister(p, maxValue, count, list, router)))
    {
      if msg.value > 0 || msg.sender != owner { return false; }
      if ChainOf(crossChains, p).purpose != 0 || |list| > 64 { return false; }
      var c := FreshChain(ChainOf(crossChains, p), p, maxValue, count, router);
      var registered, d := RegisterLoop(c, p, list);
      if !registered { return false; }
      hide RegisterAll;
      crossChains := crossChains[p := d];
      return true;
    }

    /** The loop of chainRegister, on the chain its caller is writing. */
    method RegisterLoop(c0: Chain, p: uint8, list: seq<Address>) returns (ok: bool, c: Chain)
      requires c0.anchorAddress == [] && |list| <= 64
      ensures ok == RegisterAll(c0, p, list).Some?
      ensures ok ==> c == RegisterAll(c0, p, list).value
    {
      c := c0;
      var i := 0;
      while i < |list|
        invariant 0 <= i <= |list| && |c.anchorAddress| == i
        invariant RegisterAll(c0, p, list) == RegisterAll(c, p, list[i..])
      {
        assert list[i..][0] == list[i] && list[i..][1..] == list[i + 1..];
        if AnchorOf(c.anchors, list[i]).purpose > 0 { return false, c; }
        c := c.(anchorAddress := c.anchorAddress + [list[i]],
                anchors := c.anchors[list[i] := Anchor(p, i, true, 0, 0)]);
        i := i + 1;
      }
      return true, c;
    }

    method AddAnchors(msg: Message, p: uint8, list: seq<Address>) returns (ok: bool)
      modifies this
      ensures ok == Execute(AsWritten, crypto, old(View()), msg, Call.AddAnchors(p, list)).Some?
      ensures View() == Settled(old(View()), Execute(AsWritten, crypto, old(View()), msg, Call.AddAnchors(p, list)))
    {
      if msg.value > 0 || msg.sender != owner { return false; }
      var c := ChainOf(crossChains, p);
      if c.purpose != p { return false; }
      if !(|list| > 0 && |list| < 64) { return false; }
      if |c.anchorAddress| + |list| > 64 { return false; }
      var added, d := AddLoop(c, p, list);
      if !added { return false; }
      hide AddAll;
      crossChains := crossChains[p := d];
      return true;
    }

    /** The loop of addAnchors, on the chain its caller is rewriting. */
    method AddLoop(c0: Chain, p: uint8, list: seq<Address>) returns (ok: bool, c: Chain)
      requires |c0.anchorAddress| + |list| <= 64
      ensures ok == AddAll(c0, p, list).Some?
      ensures ok ==> c == AddAll(c0, p, list).value
    {
      c := c0;
      var i := 0;
      while i < |list|
        invariant 0 <= i <= |list| && |c.anchorAddress| + (|list| - i) <= 64
        invariant AddAll(c0, p, list) == AddAll(c, p, list[i..])
      {
        assert list[i..][0] == list[i] && list[i..][1..] == list[i + 1..];
        if AnchorOf(c.anchors, list[i]).purpose > 0 { return false, c; }
        if AnchorOf(c.delAnchors, list[i]).purpose > 0 { return false, c; }
        c := c.(anchors := c.anchors[list[i] := Anchor(p, |c.anchorAddress|, true, 0, 0)],
                anchorAddress := c.anchorAddress + [list[i]]);
        i := i + 1;
      }
      return true, c;
    }

    /** The guard is the one the source has: it rejects registered anchors. */
    method RemoveAnchors(msg: Message, p: uint8, list: seq<Address>) returns (ok: bool)
      modifies this
      ensures ok == Execute(AsWritten, crypto, old(View()), msg, Call.RemoveAnchors(p, list)).Some?
      ensures View() == Settled(old(View()), Execute(AsWritten, crypto, old(View()), msg, Call.RemoveAnchors(p, list)))
    {
      if msg.value > 0 || msg.sender != owner { return false; }
      var c := ChainOf(crossChains, p);
      if c.purpose == 0 || |list| == 0 { return false; }
      if !LeavesEnough(c, |list|) { return false; }
      hide RemoveAll, LeavesEnough;
      var removed, d := RemoveLoop(c, p, list);
      if !removed { return false; }
      crossChains := crossChains[p := d];
      return true;
    }

    /** The loop of removeAnchors, on the chain its caller is rewriting. */
    method RemoveLoop(c0: Chain, p: uint8, list: seq<Address>) returns (ok: bool, c: Chain)
      ensures ok == RemoveAll(AsWritten, c0, p, list).Some?
      ensures ok ==> c == RemoveAll(AsWritten, c0, p, list).value
    {
      hide Moved, DeleteAnchor;
      c := c0;
      var i := 0;
      while i < |list|
        invariant 0 <= i <= |list|
        invariant RemoveAll(AsWritten, c0, p, list) == RemoveAll(AsWritten, c, p, list[i..])
      {
        assert list[i..][0] == list[i] && list[i..][1..] == list[i + 1..];
        if AnchorOf(c.anchors, list[i]).purpose > 0 { return false, c; }
        if |c.anchorAddress| == 0 { return false, c; }
        c := MoveLast(c, list[i]);
        var deleted, d := DeleteOne(c, p, list[i]);
        if !deleted { return false, c; }
        c := d;
        i := i + 1;
      }
      return true, c;
    }

    /** Lines 137-141 and 144: the last anchor takes the place of the one removed. */
    method MoveLast(c0: Chain, a: Address) returns (c: Chain)
      requires |c0.anchorAddress| > 0
      ensures c == Moved(c0, a)
    {
      c := c0;
      var index := AnchorOf(c.anchors, a).position;
      var n := |c.anchorAddress|;
      if index < n - 1 {
        c := c.(anchorAddress := c.anchorAddress[index := c.anchorAddress[n - 1]]);
        var moved := c.anchorAddress[index];
        c := c.(anchors := c.anchors[moved := AnchorOf(c.anchors, moved).(position := index)]);
      }
      c := c.(anchorAddress := c.anchorAddress[..n - 1]);
    }

    /** deleteAnchor, on the chain its caller is rewriting. */
    method DeleteOne(c0: Chain, p: uint8, del: Address) returns (ok: bool, c: Chain)
      ensures ok == DeleteAnchor(c0, p, del).Some?
      ensures ok ==> c == DeleteAnchor(c0, p, del).value
    {
      c := c0.(anchors := c0.anchors - {del});
      if AnchorOf(c.delAnchors, del).purpose > 0 { return false, c; }
      if |c.delsAddress| < 64 {
        c := c.(delAnchors := c.delAnchors[del := Anchor(p, |c.delsAddress|, false, 0, 0)]);
        c := c.(delsAddress := c.delsAddress + [del]);
      } else {
        if c.delId >= |c.delsAddress| { return false, c; }
        c := c.(delAnchors := c.delAnchors - {c.delsAddress[c.delId]});
        c := c.(delsAddress := c.delsAddress[c.delId := del]);
        c := c.(delAnchors := c.delAnchors[del := Anchor(p, c.delId, false, 0, 0)]);
        c := c.(delId := (c.delId + 1) % U8);
        if c.delId == 64 {
          c := c.(delId := 0);
        }
      }
      return true, c;
    }

    method SetAnchorStatus(msg: Message, p: uint8, anchor: Address, status: bool) returns (ok: bool)
      modifies this
      ensures ok == Execute(AsWritten, crypto, old(View()), msg, Call.SetAnchorStatus(p, anchor, status)).Some?
      ensures View() == Settled(old(View()),
                              Execute(AsWritten, crypto, old(View()), msg, Call.SetAnchorStatus(p, anchor, status)))
    {
      if msg.value > 0 || msg.sender != owner { return false; }
      var c := ChainOf(crossChains, p);
      if !status {
        var j := AvailableCount(c);
        if j <= c.signConfirmCount { return false; }
      }
      crossChains := crossChains[p := c.(anchors := c.anchors[anchor := AnchorOf(c.anchors, anchor).(status := status)])];
      return true;
    }

    /** The 8-bit count of available anchors that setAnchorStatus makes. */
    method AvailableCount(c: Chain) returns (j: uint8)
      ensures j == CountAvailable(c, c.anchorAddress) % U8
    {
      j := 0;
      ghost var counted := 0;
      var i := 0;
      while i < |c.anchorAddress|
        invariant 0 <= i <= |c.anchorAddress|
        invariant j == counted % U8
        invariant CountAvailable(c, c.anchorAddress) == counted + CountAvailable(c, c.anchorAddress[i..])
      {
        assert c.anchorAddress[i..][1..] == c.anchorAddress[i + 1..];
        if AnchorOf(c.anchors, c.anchorAddress[i]).status {
          j, counted := (j + 1) % U8, counted + 1;
        }
        i := i + 1;
      }
    }

    method SetSignConfirmCount(msg: Message, p: uint8, count: uint8) returns (ok: bool)
      modifies this
      ensures ok == Execute(AsWritten, crypto, old(View()), msg, Call.SetSignConfirmCount(p, count)).Some?
      ensures View() == Settled(old(View()),
                              Execute(AsWritten, crypto, old(View()), msg, Call.SetSignConfirmCount(p, count)))
    {
      if msg.value > 0 || msg.sender != owner { return false; }
      var c := ChainOf(crossChains, p);
      if c.purpose == 0 || count == 0 || count > |c.anchorAddress| { return false; }
      crossChains := crossChains[p := c.(signConfirmCount := count)];
      return true;
    }

    // ---------- Orders ----------

    method MakerStart(msg: Message, p: uint8, txId: Hash, from: string, to: string) returns (ok: bool)
      modifies this
      ensures ok == DoMakerStart(old(View()), msg, p, txId, from, to).Some?
      ensures View() == Settled(old(View()), DoMakerStart(old(View()), msg, p, txId, from, to))
    {
      var c := ChainOf(crossChains, p);
      if !(msg.value < c.maxValue) || !(c.purpose > 0) { return false; }
      var m := MakerOf(c.makerTxs, txId);
      if m.value != 0 || !(c.reward <= msg.value) { return false; }
      c := c.(makerTxs := c.makerTxs[txId := MakerInfo(msg.value - c.reward, 0, m.signatures, from, to, 0)]);
      var sum: uint256 := (c.totalReward + c.reward) % U256;
      if !(sum >= c.totalReward && sum >= c.reward) { return false; }
      c := c.(totalReward := sum);
      balance := balance + msg.value;
      crossChains := crossChains[p := c];
      return true;
    }

    method MakerFinish(msg: Message, rtx: Recept, accepts: bool) returns (ok: bool)
      modifies this
      ensures ok == DoMakerFinish(old(View()), msg, rtx, accepts).Some?
      ensures View() == Settled(old(View()), DoMakerFinish(old(View()), msg, rtx, accepts))
    {
      var c := ChainOf(crossChains, rtx.origin);
      var anchor := AnchorOf(c.anchors, msg.sender);
      var m := MakerOf(c.makerTxs, rtx.txId);
      if c.purpose == 0 || anchor.purpose != rtx.origin || !anchor.status { return false; }
      if msg.sender in m.signatures || m.value == 0 || m.from != rtx.from { return false; }
      if m.to != "" && m.to != rtx.to && m.from != rtx.to { return false; }
      if m.takerHash != 0 && m.takerHash != rtx.txHash { return false; }
      m := m.(signatures := m.signatures + {msg.sender});
      m := m.(signatureCount := (m.signatureCount + 1) % U8);
      m := m.(to := rtx.to);
      m := m.(takerHash := rtx.txHash);
      c := c.(anchors := c.anchors[msg.sender := anchor.(finishCount := (anchor.finishCount + 1) % U256)]);
      var funds := balance + msg.value;
      if m.signatureCount >= c.signConfirmCount {
        if !accepts || m.value > funds { return false; }
        funds := funds - m.value;
        sent := sent + [Transfer(rtx.taker, m.value)];
        m := MakerInfo(0, 0, m.signatures, "", "", 0);
      }
      balance := funds;
      crossChains := crossChains[rtx.origin := c.(makerTxs := c.makerTxs[rtx.txId := m])];
      return true;
    }

    /** The loop of verifySignAndCount, on the chain its caller is rewriting. */
    method VerifySignAndCount(c0: Chain, p: uint8, h: Hash, v: seq<uint256>, r: seq<Hash>, s: seq<Hash>,
                  ghost o: Order)
      returns (c: Chain, count: uint8)
      requires |v| == |r| == |s|
      requires o.v == v && o.r == r && o.s == s && crypto.keccak(Packed(o)) == h
      ensures var (d, mask) := Tally(c0, p, Recovered(crypto, o), 0); (c, count) == (d, CountOf(mask))
    {
      c := c0;
      var ret: uint64 := 0;
      var base: uint64 := 1;
      ghost var signers := Recovered(crypto, o);
      var i := 0;
      while i < |v|
        invariant 0 <= i <= |v|
        invariant Tally(c0, p, signers, 0) == Tally(c, p, signers[i..], ret)
      {
        var vi := (v[i] - (crypto.chainId * 2) % U256) % U256;
        vi := (vi - 8) % U256;
        var temp := crypto.ecrecover(h, vi % U8, r[i], s[i]);
        assert ContractRecovery(crypto.chainId, v[i]) == vi % U8;
        assert signers[i] == temp;
        assert signers[i..][0] == temp && signers[i..][1..] == signers[i + 1..];
        var anchor := AnchorOf(c.anchors, temp);
        if anchor.purpose == p && anchor.status {
          c := c.(anchors := c.anchors[temp := anchor.(signCount := (anchor.signCount + 1) % U256)]);
          ret := Or(ret, Shl64(base, anchor.position)) % U64;
        }
        i := i + 1;
      }
      count := BitCount(ret) % U8;
    }

    /** The loop of verifyOwnerSignAndCount. */
    method VerifyOwnerSignAndCount(c0: Chain, p: uint8, h: Hash, v: seq<uint256>, r: seq<Hash>, s: seq<Hash>,
                  ghost o: Order)
      returns (c: Chain, count: uint8)
      requires |v| == |r| == |s|
      requires o.v == v && o.r == r && o.s == s && crypto.keccak(Packed(o)) == h
      ensures var (d, mask, delMask) := OwnerTally(c0, p, Recovered(crypto, o), 0, 0);
              (c, count) == (d, OwnerCountOf(mask, delMask))
    {
      hide Or, Shl64, BitCount;
      c := c0;
      var ret: uint64, delRet: uint64 := 0, 0;
      var base: uint64, delBase: uint64 := 1, 1;
      ghost var signers := Recovered(crypto, o);
      var i := 0;
      while i < |v|
        invariant 0 <= i <= |v|
        invariant OwnerTally(c0, p, signers, 0, 0) == OwnerTally(c, p, signers[i..], ret, delRet)
      {
        var vi := (v[i] - (crypto.chainId * 2) % U256) % U256;
        vi := (vi - 8) % U256;
        var temp := crypto.ecrecover(h, vi % U8, r[i], s[i]);
        assert ContractRecovery(crypto.chainId, v[i]) == vi % U8;
        assert signers[i] == temp;
        assert signers[i..][0] == temp && signers[i..][1..] == signers[i + 1..];
        ghost var turn := OwnerTurn(c, p, temp, ret, delRet);
        var anchor := AnchorOf(c.anchors, temp);
        if anchor.purpose == p {
          c := c.(anchors := c.anchors[temp := anchor.(signCount := (anchor.signCount + 1) % U256)]);
          ret := Or(ret, Shl64(base, anchor.position)) % U64;
        }
        var del := AnchorOf(c.delAnchors, temp);
        if del.purpose == p {
          c := c.(delAnchors := c.delAnchors[temp := del.(signCount := (del.signCount + 1) % U256)]);
          delRet := Or(delRet, Shl64(delBase, del.position)) % U64;
        }
        assert turn == (c, ret, delRet);
        i := i + 1;
      }
      count := Add64(BitCount(ret), BitCount(delRet)) % U8;
    }

    method Taker(msg: Message, o: Order, accepts: bool) returns (ok: bool)
      modifies this
      ensures ok == DoTaker(crypto, old(View()), msg, o, accepts).Some?
      ensures View() == Settled(old(View()), DoTaker(crypto, old(View()), msg, o, accepts))
    {
      hide Tally, OwnerTally, CountOf, OwnerCountOf, Packed, Recovered;
      if |o.v| != |o.r| || |o.v| != |o.s| { return false; }
      var c := ChainOf(crossChains, o.origin);
      if !(o.to == 0 || o.to == msg.sender || o.from == msg.sender) { return false; }
      var seen := TakerOf(c.takerTxs, o.txId);
      if !(seen.value == 0 || seen.from != o.from) { return false; }
      var needed, count := c.signConfirmCount, 0;
      var h := crypto.keccak(Packed(o));
      if msg.sender == o.from {
        c, count := VerifyOwnerSignAndCount(c, o.origin, h, o.v, o.r, o.s, o);
      } else {
        if msg.value < o.charge { return false; }
        c, count := VerifySignAndCount(c, o.origin, h, o.v, o.r, o.s, o);
      }
      assert (c, count) == CheckSignatures(crypto, At(old(View()), o.origin), o, msg.sender == o.from);
      if count < needed { return false; }
      // the attached value is received and passed on to the owner of the order
      if !accepts { return false; }
      c := c.(takerTxs := c.takerTxs[o.txId := TakerInfo(o.value, o.from)]);
      crossChains := crossChains[o.origin := c];
      sent := sent + [Transfer(o.from, msg.value)];
      return true;
    }
  }
}
