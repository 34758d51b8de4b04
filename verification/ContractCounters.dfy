/** The counters of the anchors, from which their work is paid, over whole runs. */
module ContractCounters {
  import opened Words
  import opened CrossStruct
  import opened AnchorTable
  import opened SignatureCount
  import opened OrderEncoding
  import opened Contract
  import opened ContractRuns

  // ---------- What should be counted ----------

  /** How often an address signed an order. */
  function SignaturesBy(k: Crypto, o: Order, a: Address): nat {
    if |o.v| == |o.r| == |o.s| then Occurrences(Recovered(k, o), a) else 0
  }

  /** Work of an anchor: its signatures on orders taken since it was listed, its
      approvals since then, and its signatures since it was removed. */
  datatype Work = Work(signs: nat, finishes: nat, removedSigns: nat)

  /** What one successful transaction adds to the work of an anchor of chain p. */
  function WorkAfter(k: Crypto, w: World, tx: Tx, p: uint8, a: Address, work: Work): Work {
    match tx.call
    case ChainRegister(q, _, _, list, _) => if q == p && a in list then work.(signs := 0, finishes := 0) else work
    case AddAnchors(q, list) => if q == p && a in list then work.(signs := 0, finishes := 0) else work
    case RemoveAnchors(q, list) => if q == p && a in list then work.(removedSigns := 0) else work
    case MakerFinish(rtx, _) =>
      if rtx.origin == p && tx.msg.sender == a then work.(finishes := work.finishes + 1) else work
    case Taker(o, _) =>
      var c, n := At(w, p), SignaturesBy(k, o, a);
      if o.origin != p then work
      else if tx.msg.sender != o.from then
        work.(signs := work.signs + if IsAvailable(c, p, a) then n else 0)
      else
        work.(signs := work.signs + (if IsCurrent(c, p, a) then n else 0),
              removedSigns := work.removedSigns + if IsRemembered(c, p, a) then n else 0)
    case _ => work
  }

  function WorkOf(g: Guard, k: Crypto, owner: Address, txs: seq<Tx>, p: uint8, a: Address): Work {
    if txs == [] then Work(0, 0, 0)
    else
      var w := After(g, k, owner, txs[..|txs| - 1]).0;
      var tx := txs[|txs| - 1];
      var work := WorkOf(g, k, owner, txs[..|txs| - 1], p, a);
      if Execute(g, k, w, tx.msg, tx.call).Some? then WorkAfter(k, w, tx, p, a, work) else work
  }

  // ---------- What is counted ----------

  /** The stored counters of a registered or remembered anchor, in 256 bits. */
  predicate CountersFit(c: Chain, a: Address, work: Work) {
    && (IsListed(c, a) ==>
          && AnchorOf(c.anchors, a).signCount == work.signs % U256
          && AnchorOf(c.anchors, a).finishCount == work.finishes % U256)
    && (IsRetired(c, a) ==> AnchorOf(c.delAnchors, a).signCount == work.removedSigns % U256)
  }

  /** Newly listed anchors are available and start from zero; the others keep theirs. */
  lemma {:induction false} AddedAnchors(c: Chain, p: uint8, list: seq<Address>, a: Address)
    requires AddAll(c, p, list).Some?
    ensures var d := AddAll(c, p, list).value;
            && d == c.(anchors := d.anchors, anchorAddress := d.anchorAddress)
            && (if a in list then AnchorOf(d.anchors, a) == Anchor(p, AnchorOf(d.anchors, a).position, true, 0, 0)
                else AnchorOf(d.anchors, a) == AnchorOf(c.anchors, a))
    decreases |list|
  {
    if list != [] {
      var c1 := Enlist(c, p, list[0]);
      AddedAnchors(c1, p, list[1..], a);
      assert a in list <==> a == list[0] || a in list[1..];
    }
  }

  lemma {:induction false} RegisteredAnchors(c: Chain, p: uint8, list: seq<Address>, a: Address)
    requires RegisterAll(c, p, list).Some?
    ensures var d := RegisterAll(c, p, list).value;
            && d == c.(anchors := d.anchors, anchorAddress := d.anchorAddress)
            && (if a in list then AnchorOf(d.anchors, a) == Anchor(p, AnchorOf(d.anchors, a).position, true, 0, 0)
                else AnchorOf(d.anchors, a) == AnchorOf(c.anchors, a))
    decreases |list|
  {
    if list != [] {
      var c1 := Enlist(c, p, list[0]);
      RegisteredAnchors(c1, p, list[1..], a);
      assert a in list <==> a == list[0] || a in list[1..];
    }
  }

  /** After a removal those still registered were so before and differ at most in
      their position; those just removed start from zero and are switched off. */
  lemma {:induction false} RemovedAnchors(g: Guard, c: Chain, p: uint8, list: seq<Address>, a: Address)
    requires RemoveAll(g, c, p, list).Some?
    ensures var d := RemoveAll(g, c, p, list).value;
            && (IsListed(d, a) ==> a !in list && AnchorOf(d.anchors, a).(position := 0) == AnchorOf(c.anchors, a).(position := 0))
            && (IsRetired(d, a) ==>
                  AnchorOf(d.delAnchors, a) ==
                    if a in list then Anchor(p, AnchorOf(d.delAnchors, a).position, false, 0, 0) else AnchorOf(c.delAnchors, a))
    decreases |list|
  {
    if list != [] {
      var c1 := RemoveBody(c, p, list[0]).value;
      RemovedAnchor(c, p, list[0], a);
      hide RemoveBody;
      RemovedAnchors(g, c1, p, list[1..], a);
      assert a in list <==> a == list[0] || a in list[1..];
    }
  }

  lemma RemovedAnchor(c: Chain, p: uint8, del: Address, a: Address)
    requires RemoveBody(c, p, del).Some?
    ensures var d := RemoveBody(c, p, del).value;
            && (if a == del then !IsListed(d, a)
                else AnchorOf(d.anchors, a).(position := 0) == AnchorOf(c.anchors, a).(position := 0))
            && (IsRetired(d, a) ==>
                  AnchorOf(d.delAnchors, a) ==
                    if a == del then Anchor(p, AnchorOf(d.delAnchors, a).position, false, 0, 0) else AnchorOf(c.delAnchors, a))
  {
  }

  /** A taking adds to the counter of each anchor the number of its signatures, if it
      qualifies, and changes nothing else about it. */
  lemma TakingCountsSignatures(k: Crypto, w: World, msg: Message, o: Order, accepts: bool, a: Address)
    ensures var r := DoTaker(k, w, msg, o, accepts);
            r.Some? ==>
              var c, d, p, n := At(w, o.origin), At(r.value, o.origin), o.origin, SignaturesBy(k, o, a);
              var x, y := AnchorOf(c.anchors, a), AnchorOf(c.delAnchors, a);
              var byOwner := msg.sender == o.from;
              && AnchorOf(d.anchors, a) == x.(signCount :=
                   Plus(x.signCount, if (if byOwner then IsCurrent(c, p, a) else IsAvailable(c, p, a)) then n else 0))
              && AnchorOf(d.delAnchors, a) == y.(signCount :=
                   Plus(y.signCount, if byOwner && IsRemembered(c, p, a) then n else 0))
  {
    if DoTaker(k, w, msg, o, accepts).Some? {
      if msg.sender == o.from {
        CheckCountsByOwner(k, At(w, o.origin), o, a);
      } else {
        CheckCounts(k, At(w, o.origin), o, a);
      }
      hide CheckSignatures, SignaturesBy, AnchorOf, IsCurrent, IsAvailable, IsRemembered, Plus;
    }
  }

  lemma CheckCountsByOwner(k: Crypto, c: Chain, o: Order, a: Address)
    requires |o.v| == |o.r| == |o.s|
    ensures var d, p, n := CheckSignatures(k, c, o, true).0, o.origin, SignaturesBy(k, o, a);
            var x, y := AnchorOf(c.anchors, a), AnchorOf(c.delAnchors, a);
            && AnchorOf(d.anchors, a) == x.(signCount := Plus(x.signCount, if IsCurrent(c, p, a) then n else 0))
            && AnchorOf(d.delAnchors, a) == y.(signCount := Plus(y.signCount, if IsRemembered(c, p, a) then n else 0))
  {
    var signers := Recovered(k, o);
    hide OwnerTally, Recovered, Occurrences, Plus, AnchorOf, IsCurrent, IsRemembered, SameAnchors;
    OwnerTallyCounts(c, o.origin, signers, 0, 0, a);
    OwnerTallyCounters(c, o.origin, signers, 0, 0);
    var d := CheckSignatures(k, c, o, true).0;
    SameButSigns(c.anchors, d.anchors, a);
    SameButSigns(c.delAnchors, d.delAnchors, a);
  }

  lemma CheckCounts(k: Crypto, c: Chain, o: Order, a: Address)
    requires |o.v| == |o.r| == |o.s|
    ensures var d, n := CheckSignatures(k, c, o, false).0, SignaturesBy(k, o, a);
            var x, y := AnchorOf(c.anchors, a), AnchorOf(c.delAnchors, a);
            && AnchorOf(d.anchors, a) == x.(signCount := Plus(x.signCount, if IsAvailable(c, o.origin, a) then n else 0))
            && AnchorOf(d.delAnchors, a) == y == y.(signCount := Plus(y.signCount, 0))
  {
    var signers := Recovered(k, o);
    PlusPlus(AnchorOf(c.delAnchors, a).signCount, 0, 0);
    hide Tally, Recovered, Occurrences, AnchorOf, IsAvailable, SameAnchors;
    TallyCounters(c, o.origin, signers, 0, a);
    var d := CheckSignatures(k, c, o, false).0;
    SameButSigns(c.anchors, d.anchors, a);
  }

  lemma SameButSigns(m: map<Address, Anchor>, m': map<Address, Anchor>, a: Address)
    requires SameAnchors(m, m')
    ensures AnchorOf(m', a) == AnchorOf(m, a).(signCount := AnchorOf(m', a).signCount)
  {
    assert AnchorOf(m, a).(signCount := 0) == AnchorOf(m', a).(signCount := 0);
  }

  lemma StepKeepsCounters(g: Guard, k: Crypto, w: World, tx: Tx, p: uint8, a: Address, work: Work)
    requires p > 0 && CountersFit(At(w, p), a, work)
    ensures var r := Execute(g, k, w, tx.msg, tx.call);
            r.Some? ==> CountersFit(At(r.value, p), a, WorkAfter(k, w, tx, p, a, work))
  {
    hide LeavesEnough, CountAvailable, SignaturesBy, CheckSignatures, MayApprove, PaysOut, RegisterAll, AddAll, RemoveAll;
    if IsPayable(tx.call) {
      PublicCallKeepsCounters(g, k, w, tx, p, a, work);
    } else if Execute(g, k, w, tx.msg, tx.call).Some? {
      hide DoMakerStart, DoMakerFinish, DoTaker;
      match tx.call
      case ChainRegister(q, maxValue, count, list, router) =>
        RegisteredAnchors(FreshChain(At(w, q), q, maxValue, count, router), q, list, a);
      case AddAnchors(q, list) =>
        AddedAnchors(At(w, q), q, list, a);
      case RemoveAnchors(q, list) =>
        if q == p { RemoveCountersFit(g, At(w, q), q, list, a, work); }
      case _ =>
    }
  }

  lemma PublicCallKeepsCounters(g: Guard, k: Crypto, w: World, tx: Tx, p: uint8, a: Address, work: Work)
    requires p > 0 && IsPayable(tx.call) && CountersFit(At(w, p), a, work)
    ensures var r := Execute(g, k, w, tx.msg, tx.call);
            r.Some? ==> CountersFit(At(r.value, p), a, WorkAfter(k, w, tx, p, a, work))
  {
    hide SignaturesBy, DoMakerFinish, DoTaker;
    match tx.call
    case MakerStart(_, _, _, _) =>
    case MakerFinish(rtx, accepts) =>
      hide CountersFit;
      FinishCountersFit(w, tx, p, a, work);
    case Taker(o, accepts) =>
      hide CountersFit;
      TakeCountersFit(k, w, tx, p, a, work);
  }

  lemma FinishCountersFit(w: World, tx: Tx, p: uint8, a: Address, work: Work)
    requires tx.call.MakerFinish? && CountersFit(At(w, p), a, work)
    ensures var rtx := tx.call.rtx;
            var r := DoMakerFinish(w, tx.msg, rtx, tx.call.accepts);
            r.Some? ==>
              CountersFit(At(r.value, p), a,
                          if rtx.origin == p && tx.msg.sender == a then work.(finishes := work.finishes + 1) else work)
  {
    hide MayApprove, PaysOut;
    assert (work.finishes % U256 + 1) % U256 == (work.finishes + 1) % U256;
  }

  lemma TakeCountersFit(k: Crypto, w: World, tx: Tx, p: uint8, a: Address, work: Work)
    requires p > 0 && tx.call.Taker? && CountersFit(At(w, p), a, work)
    ensures var o := tx.call.order;
            var r := DoTaker(k, w, tx.msg, o, tx.call.accepts);
            r.Some? ==> CountersFit(At(r.value, p), a, WorkAfter(k, w, tx, p, a, work))
  {
    var o := tx.call.order;
    var r := DoTaker(k, w, tx.msg, o, tx.call.accepts);
    TakingCountsSignatures(k, w, tx.msg, o, tx.call.accepts, a);
    OtherChainNotTaken(k, w, tx.msg, o, tx.call.accepts, p);
    WorkOfTaking(k, w, tx, p, a, work);
    hide DoTaker, Plus, SignaturesBy, AnchorOf, IsCurrent, IsAvailable, IsRemembered, CountersFit, At, WorkAfter;
    if r.Some? && o.origin == p {
      var c, n, byOwner := At(w, p), SignaturesBy(k, o, a), tx.msg.sender == o.from;
      FitAfter(c, At(r.value, p), a, work,
               if (if byOwner then IsCurrent(c, p, a) else IsAvailable(c, p, a)) then n else 0,
               if byOwner && IsRemembered(c, p, a) then n else 0);
    }
  }

  lemma WorkOfTaking(k: Crypto, w: World, tx: Tx, p: uint8, a: Address, work: Work)
    requires tx.call.Taker?
    ensures var o, c := tx.call.order, At(w, p);
            var n, byOwner := SignaturesBy(k, o, a), tx.msg.sender == o.from;
            WorkAfter(k, w, tx, p, a, work) ==
              if o.origin != p then work
              else work.(signs := work.signs + if (if byOwner then IsCurrent(c, p, a) else IsAvailable(c, p, a)) then n else 0,
                         removedSigns := work.removedSigns + if byOwner && IsRemembered(c, p, a) then n else 0)
  {
    hide SignaturesBy;
  }

  lemma FitAfter(c: Chain, d: Chain, a: Address, work: Work, m: nat, n: nat)
    requires CountersFit(c, a, work)
    requires var x, y := AnchorOf(c.anchors, a), AnchorOf(c.delAnchors, a);
             && AnchorOf(d.anchors, a) == x.(signCount := Plus(x.signCount, m))
             && AnchorOf(d.delAnchors, a) == y.(signCount := Plus(y.signCount, n))
    ensures CountersFit(d, a, work.(signs := work.signs + m, removedSigns := work.removedSigns + n))
  {
    PlusFits(work.signs, m);
    PlusFits(work.removedSigns, n);
    hide Plus, AnchorOf;
  }

  lemma PlusFits(work: nat, n: nat)
    ensures Plus(work % U256, n) == (work + n) % U256
    ensures Plus(work % U256, 0) == work % U256
  {
  }

  lemma OtherChainNotTaken(k: Crypto, w: World, msg: Message, o: Order, accepts: bool, p: uint8)
    ensures var r := DoTaker(k, w, msg, o, accepts); r.Some? && o.origin != p ==> At(r.value, p) == At(w, p)
  {
    hide CheckSignatures;
  }

  lemma RemoveCountersFit(g: Guard, c: Chain, p: uint8, list: seq<Address>, a: Address, work: Work)
    requires RemoveAll(g, c, p, list).Some? && CountersFit(c, a, work)
    ensures CountersFit(RemoveAll(g, c, p, list).value, a, if a in list then work.(removedSigns := 0) else work)
  {
    RemovedAnchors(g, c, p, list, a);
    var d := RemoveAll(g, c, p, list).value;
    hide RemoveAll;
    if IsListed(d, a) {
      var x, y := AnchorOf(c.anchors, a), AnchorOf(d.anchors, a);
      assert x.(position := 0).purpose == y.(position := 0).purpose && x.(position := 0).signCount == y.(position := 0).signCount
          && x.(position := 0).finishCount == y.(position := 0).finishCount;
    }
  }

  /** Over any run, modulo 2^256: the counters of a registered anchor are the numbers
      of its signatures on orders taken, and of its approvals, since it was listed;
      the counter of a remembered one is the number of its signatures on orders that
      their makers took since it was removed. */
  lemma {:induction false} CountersOverRuns(g: Guard, k: Crypto, owner: Address, txs: seq<Tx>, p: uint8, a: Address)
    requires p > 0
    ensures CountersFit(At(After(g, k, owner, txs).0, p), a, WorkOf(g, k, owner, txs, p, a))
  {
    hide CountersFit, WorkAfter, Execute, Note;
    if txs == [] {
      NothingCounted(owner, p, a);
    } else {
      CountersOverRuns(g, k, owner, txs[..|txs| - 1], p, a);
      var (w, h) := After(g, k, owner, txs[..|txs| - 1]);
      StepKeepsCounters(g, k, w, txs[|txs| - 1], p, a, WorkOf(g, k, owner, txs[..|txs| - 1], p, a));
    }
  }

  lemma NothingCounted(owner: Address, p: uint8, a: Address)
    ensures CountersFit(At(Empty(owner), p), a, Work(0, 0, 0))
  {
  }
}
