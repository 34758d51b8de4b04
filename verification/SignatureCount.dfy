/** Counting signatures with bit masks (contract/crossdemo/crossdemo.sol, lines
    291-325): the loops over the recovered signers, and what they count. */
module SignatureCount {
  import opened Words
  import opened CrossStruct
  import opened Bits
  import opened AnchorTable

  /** Whose signature verifySignAndCount counts. */
  predicate IsAvailable(c: Chain, p: uint8, a: Address) {
    AnchorOf(c.anchors, a).purpose == p && AnchorOf(c.anchors, a).status
  }

  /** Whose signature verifyOwnerSignAndCount counts in its first and second mask. */
  predicate IsCurrent(c: Chain, p: uint8, a: Address) {
    AnchorOf(c.anchors, a).purpose == p
  }

  predicate IsRemembered(c: Chain, p: uint8, a: Address) {
    AnchorOf(c.delAnchors, a).purpose == p
  }

  function Signed(x: Anchor): Anchor {
    x.(signCount := (x.signCount + 1) % U256)
  }

  function NoteSign(c: Chain, a: Address): Chain {
    c.(anchors := c.anchors[a := Signed(AnchorOf(c.anchors, a))])
  }

  function NoteDelSign(c: Chain, a: Address): Chain {
    c.(delAnchors := c.delAnchors[a := Signed(AnchorOf(c.delAnchors, a))])
  }

  /** The loop of verifySignAndCount over the recovered signers. */
  function Tally(c: Chain, p: uint8, signers: seq<Address>, ret: uint64): (Chain, uint64)
    decreases |signers|
  {
    if signers == [] then (c, ret)
    else if IsAvailable(c, p, signers[0]) then
      Tally(NoteSign(c, signers[0]), p, signers[1..],
            OrBit(ret, AnchorOf(c.anchors, signers[0]).position))
    else Tally(c, p, signers[1..], ret)
  }

  /** ret | (1 << position), in a 64-bit word. */
  function OrBit(ret: uint64, position: uint8): uint64 {
    Or(ret, Shl64(1, position)) % U64
  }

  function CountOf(mask: uint64): uint8 {
    BitCount(mask) % U8
  }

  /** The turn of the loop of verifyOwnerSignAndCount for one signer. */
  function OwnerTurn(c: Chain, p: uint8, a: Address, ret: uint64, delRet: uint64): (Chain, uint64, uint64) {
    var (c1, ret1) := if IsCurrent(c, p, a) then (NoteSign(c, a), OrBit(ret, AnchorOf(c.anchors, a).position))
                      else (c, ret);
    if IsRemembered(c1, p, a) then (NoteDelSign(c1, a), ret1, OrBit(delRet, AnchorOf(c1.delAnchors, a).position))
    else (c1, ret1, delRet)
  }

  function OwnerTally(c: Chain, p: uint8, signers: seq<Address>, ret: uint64, delRet: uint64): (Chain, uint64, uint64)
    decreases |signers|
  {
    if signers == [] then (c, ret, delRet)
    else
      var (c1, ret1, delRet1) := OwnerTurn(c, p, signers[0], ret, delRet);
      OwnerTally(c1, p, signers[1..], ret1, delRet1)
  }

  function OwnerCountOf(mask: uint64, delMask: uint64): uint8 {
    Add64(BitCount(mask), BitCount(delMask)) % U8
  }

  // ---------- What is counted ----------

  /** A mask that stands for a set of bit positions. */
  ghost predicate Stands(mask: uint64, positions: set<nat>) {
    && Popcount(mask) == |positions|
    && forall q: nat :: Bit(mask, q) <==> q in positions
  }

  lemma StandsForNothing()
    ensures Stands(0, {})
  {
    forall q: nat ensures !Bit(0, q) { ZeroHasNoBits(q); }
  }

  lemma OrBitAdds(mask: uint64, positions: set<nat>, p: uint8)
    requires Stands(mask, positions) && p < 64
    ensures Stands(OrBit(mask, p), positions + {p})
  {
    hide Or, Shl64, Popcount, Bit;
    SetBit(mask, p);
    assert Bit(mask, p) ==> positions + {p} == positions;
  }

  /** Bit positions of a set of addresses. */
  ghost function Positions(m: map<Address, Anchor>, s: set<Address>): set<nat> {
    set a | a in s :: AnchorOf(m, a).position
  }

  ghost function Available(c: Chain, p: uint8, signers: seq<Address>): set<Address> {
    set a | a in signers && IsAvailable(c, p, a)
  }

  ghost function Current(c: Chain, p: uint8, signers: seq<Address>): set<Address> {
    set a | a in signers && IsCurrent(c, p, a)
  }

  ghost function Remembered(c: Chain, p: uint8, signers: seq<Address>): set<Address> {
    set a | a in signers && IsRemembered(c, p, a)
  }

  /** Two anchor maps that differ at most in the signature counters. */
  ghost predicate SameAnchors(m: map<Address, Anchor>, m': map<Address, Anchor>) {
    forall a :: AnchorOf(m, a).(signCount := 0) == AnchorOf(m', a).(signCount := 0)
  }

  /** The mask gains exactly the positions of the available signers. */
  lemma {:induction false} TallyMask(c: Chain, p: uint8, signers: seq<Address>, ret: uint64, positions: set<nat>)
    requires Narrow(c) && Stands(ret, positions)
    ensures Stands(Tally(c, p, signers, ret).1, positions + Positions(c.anchors, Available(c, p, signers)))
    decreases |signers|
  {
    hide Stands, Tally, Available, Positions, OrBit, NoteSign;
    TallyUnfold(c, p, signers, ret);
    AvailableUnfold(c, p, signers);
    if signers == [] {
      assert positions + Positions(c.anchors, {}) == positions by { NoPositions(c.anchors); }
    } else {
      var a, rest := signers[0], signers[1..];
      if IsAvailable(c, p, a) {
        var c1, pos := NoteSign(c, a), AnchorOf(c.anchors, a).position;
        NoteSignSame(c, p, a, rest);
        OrBitAdds(ret, positions, pos);
        TallyMask(c1, p, rest, OrBit(ret, pos), positions + {pos});
        PositionsOfUnion(c.anchors, a, Available(c, p, rest));
        assert positions + {pos} + Positions(c.anchors, Available(c, p, rest))
            == positions + ({pos} + Positions(c.anchors, Available(c, p, rest)));
      } else {
        assert {} + Available(c, p, rest) == Available(c, p, rest);
        TallyMask(c, p, rest, ret, positions);
      }
    }
  }

  lemma AvailableUnfold(c: Chain, p: uint8, signers: seq<Address>)
    ensures signers == [] ==> Available(c, p, signers) == {}
    ensures signers != [] ==>
      Available(c, p, signers) ==
        (if IsAvailable(c, p, signers[0]) then {signers[0]} else {}) + Available(c, p, signers[1..])
  {
    if signers != [] {
      assert forall b :: b in signers <==> b == signers[0] || b in signers[1..];
    }
  }

  lemma NoPositions(m: map<Address, Anchor>)
    ensures Positions(m, {}) == {}
  {
  }

  /** Counting a signature changes neither who is available nor a position. */
  lemma NoteSignSame(c: Chain, p: uint8, a: Address, signers: seq<Address>)
    ensures SameAnchors(c.anchors, NoteSign(c, a).anchors)
    ensures Narrow(c) ==> Narrow(NoteSign(c, a))
    ensures Available(NoteSign(c, a), p, signers) == Available(c, p, signers)
    ensures Positions(NoteSign(c, a).anchors, Available(c, p, signers)) == Positions(c.anchors, Available(c, p, signers))
  {
    SameAvailable(c, NoteSign(c, a), p, signers);
    SamePositions(c.anchors, NoteSign(c, a).anchors, Available(c, p, signers));
  }

  lemma TallyUnfold(c: Chain, p: uint8, signers: seq<Address>, ret: uint64)
    ensures signers == [] ==> Tally(c, p, signers, ret) == (c, ret)
    ensures signers != [] ==>
      Tally(c, p, signers, ret) ==
        if IsAvailable(c, p, signers[0]) then
          Tally(NoteSign(c, signers[0]), p, signers[1..], OrBit(ret, AnchorOf(c.anchors, signers[0]).position))
        else Tally(c, p, signers[1..], ret)
  {
  }

  lemma SamePositions(m: map<Address, Anchor>, m': map<Address, Anchor>, s: set<Address>)
    requires SameAnchors(m, m')
    ensures Positions(m, s) == Positions(m', s)
  {
    assert forall a :: AnchorOf(m, a).(signCount := 0).position == AnchorOf(m', a).(signCount := 0).position;
  }

  lemma SameAvailable(c: Chain, c': Chain, p: uint8, signers: seq<Address>)
    requires SameAnchors(c.anchors, c'.anchors)
    ensures Available(c, p, signers) == Available(c', p, signers)
    ensures Current(c, p, signers) == Current(c', p, signers)
  {
    forall a
      ensures IsAvailable(c, p, a) <==> IsAvailable(c', p, a)
      ensures IsCurrent(c, p, a) <==> IsCurrent(c', p, a)
    {
      assert AnchorOf(c.anchors, a).(signCount := 0) == AnchorOf(c'.anchors, a).(signCount := 0);
    }
  }

  lemma PositionsOfUnion(m: map<Address, Anchor>, a: Address, s: set<Address>)
    ensures Positions(m, {a} + s) == {AnchorOf(m, a).position as nat} + Positions(m, s)
  {
  }

  /** An image is no larger than the set, and as large when positions differ. */
  lemma {:induction false} PositionsSize(m: map<Address, Anchor>, s: set<Address>)
    ensures |Positions(m, s)| <= |s|
    ensures (forall a, b | a in s && b in s && a != b :: AnchorOf(m, a).position != AnchorOf(m, b).position)
            ==> |Positions(m, s)| == |s|
  {
    if s == {} {
      assert Positions(m, s) == {};
    } else {
      var a :| a in s;
      var rest := s - {a};
      PositionsSize(m, rest);
      assert s == {a} + rest;
      PositionsOfUnion(m, a, rest);
    }
  }

  /** In a valid table registered anchors have different positions. */
  lemma SlotsGiveDistinctPositions(m: map<Address, Anchor>, list: seq<Address>, p: uint8, s: set<Address>)
    requires p > 0 && Slots(m, list, p)
    requires forall a :: a in s ==> AnchorOf(m, a).purpose > 0
    ensures |Positions(m, s)| == |s| <= |list|
  {
    forall a, b | a in s && b in s && a != b
      ensures AnchorOf(m, a).position != AnchorOf(m, b).position
    {
      assert a in list && b in list;
      assert list[m[a].position] == a && list[m[b].position] == b by {
        var i :| 0 <= i < |list| && list[i] == a;
        var j :| 0 <= j < |list| && list[j] == b;
      }
    }
    PositionsSize(m, s);
    PositionsBelow(m, s, |list|);
  }

  lemma PositionsBelow(m: map<Address, Anchor>, s: set<Address>, n: nat)
    requires forall a :: a in s ==> AnchorOf(m, a).position < n
    ensures |Positions(m, s)| <= n
  {
    BoundedSize(Positions(m, s), n);
  }

  lemma {:induction false} BoundedSize(s: set<nat>, n: nat)
    requires forall q :: q in s ==> q < n
    ensures |s| <= n
  {
    if n == 0 {
      assert s == {};
    } else {
      BoundedSize(s - {n - 1}, n - 1);
      assert s - {n - 1} + {n - 1} == s || s - {n - 1} == s;
    }
  }

  // ---------- verifySignAndCount ----------

  /** In every chain whose positions fit in the word, registered or not, the
      count never exceeds the number of distinct available signers: it is their
      number of distinct bit positions modulo 63. */
  lemma CountIsSound(c: Chain, p: uint8, signers: seq<Address>)
    requires Narrow(c)
    ensures CountOf(Tally(c, p, signers, 0).1) <= |Available(c, p, signers)|
    ensures CountOf(Tally(c, p, signers, 0).1) == |Positions(c.anchors, Available(c, p, signers))| % 63
  {
    hide Stands, Tally, Available, Positions, Narrow, CountOf, BitCount;
    var mask := Tally(c, p, signers, 0).1;
    StandsForNothing();
    TallyMask(c, p, signers, 0, {});
    assert {} + Positions(c.anchors, Available(c, p, signers)) == Positions(c.anchors, Available(c, p, signers));
    CountOfStanding(mask, Positions(c.anchors, Available(c, p, signers)));
    PositionsSize(c.anchors, Available(c, p, signers));
  }

  lemma CountOfStanding(mask: uint64, positions: set<nat>)
    requires Stands(mask, positions)
    ensures CountOf(mask) == BitCount(mask) == |positions| % 63
  {
    hide BitCount, Popcount;
    BitCountIsPopcountModulo63(mask);
  }

  /** From a valid table the count is the number of distinct available signers,
      repetitions in the list notwithstanding, exactly when these are fewer than 63. */
  lemma CountIsExactIff(c: Chain, p: uint8, signers: seq<Address>)
    requires p > 0 && Table(c, p) && Narrow(c)
    ensures CountOf(Tally(c, p, signers, 0).1) == |Available(c, p, signers)| <==> |Available(c, p, signers)| < 63
    ensures |c.anchorAddress| <= 62 ==> |Available(c, p, signers)| <= 62
  {
    hide Tally, Slots, Narrow;
    CountIsSound(c, p, signers);
    SlotsGiveDistinctPositions(c.anchors, c.anchorAddress, p, Available(c, p, signers));
  }

  // ---------- verifyOwnerSignAndCount ----------

  lemma {:induction false} OwnerTallyMasks(c: Chain, p: uint8, signers: seq<Address>, ret: uint64, delRet: uint64,
                                           positions: set<nat>, delPositions: set<nat>)
    requires Narrow(c) && Stands(ret, positions) && Stands(delRet, delPositions)
    ensures var (_, mask, delMask) := OwnerTally(c, p, signers, ret, delRet);
            && Stands(mask, positions + Positions(c.anchors, Current(c, p, signers)))
            && Stands(delMask, delPositions + Positions(c.delAnchors, Remembered(c, p, signers)))
    decreases |signers|
  {
    hide Stands, OwnerTally, OwnerTurn, Current, Remembered, Positions;
    OwnerTallyUnfold(c, p, signers, ret, delRet);
    CurrentUnfold(c, p, signers);
    NoPositions(c.anchors);
    NoPositions(c.delAnchors);
    if signers == [] {
      assert positions + {} == positions && delPositions + {} == delPositions;
    } else {
      var a, rest := signers[0], signers[1..];
      var (c1, ret1, delRet1) := OwnerTurn(c, p, a, ret, delRet);
      var cur, del := if IsCurrent(c, p, a) then {a} else {}, if IsRemembered(c, p, a) then {a} else {};
      OwnerTurnAdds(c, p, a, ret, delRet, positions, delPositions);
      OwnerTurnSame(c, p, a, ret, delRet, rest);
      OwnerTallyMasks(c1, p, rest, ret1, delRet1,
                      positions + Positions(c.anchors, cur), delPositions + Positions(c.delAnchors, del));
      PositionsUnion(c.anchors, cur, Current(c, p, rest));
      PositionsUnion(c.delAnchors, del, Remembered(c, p, rest));
      UnionAssoc(positions, Positions(c.anchors, cur), Positions(c.anchors, Current(c, p, rest)));
      UnionAssoc(delPositions, Positions(c.delAnchors, del), Positions(c.delAnchors, Remembered(c, p, rest)));
    }
  }

  lemma UnionAssoc(x: set<nat>, y: set<nat>, z: set<nat>)
    ensures x + y + z == x + (y + z)
  {
  }

  lemma PositionsUnion(m: map<Address, Anchor>, s: set<Address>, t: set<Address>)
    ensures Positions(m, s + t) == Positions(m, s) + Positions(m, t)
  {
  }

  lemma OwnerTallyUnfold(c: Chain, p: uint8, signers: seq<Address>, ret: uint64, delRet: uint64)
    ensures signers == [] ==> OwnerTally(c, p, signers, ret, delRet) == (c, ret, delRet)
    ensures signers != [] ==>
      var (c1, ret1, delRet1) := OwnerTurn(c, p, signers[0], ret, delRet);
      OwnerTally(c, p, signers, ret, delRet) == OwnerTally(c1, p, signers[1..], ret1, delRet1)
  {
  }

  lemma CurrentUnfold(c: Chain, p: uint8, signers: seq<Address>)
    ensures signers == [] ==> Current(c, p, signers) == {} && Remembered(c, p, signers) == {}
    ensures signers != [] ==>
      && Current(c, p, signers) ==
           (if IsCurrent(c, p, signers[0]) then {signers[0]} else {}) + Current(c, p, signers[1..])
      && Remembered(c, p, signers) ==
           (if IsRemembered(c, p, signers[0]) then {signers[0]} else {}) + Remembered(c, p, signers[1..])
  {
    if signers != [] {
      assert forall b :: b in signers <==> b == signers[0] || b in signers[1..];
    }
  }

  lemma OwnerTurnAdds(c: Chain, p: uint8, a: Address, ret: uint64, delRet: uint64,
                      positions: set<nat>, delPositions: set<nat>)
    requires Narrow(c) && Stands(ret, positions) && Stands(delRet, delPositions)
    ensures var (_, ret1, delRet1) := OwnerTurn(c, p, a, ret, delRet);
            && Stands(ret1, positions + Positions(c.anchors, if IsCurrent(c, p, a) then {a} else {}))
            && Stands(delRet1, delPositions + Positions(c.delAnchors, if IsRemembered(c, p, a) then {a} else {}))
  {
    hide Stands, OrBit, Positions;
    var pos, delPos := AnchorOf(c.anchors, a).position, AnchorOf(c.delAnchors, a).position;
    OrBitAdds(ret, positions, pos);
    OrBitAdds(delRet, delPositions, delPos);
    OnePosition(c.anchors, a, positions);
    OnePosition(c.delAnchors, a, delPositions);
  }

  lemma OnePosition(m: map<Address, Anchor>, a: Address, positions: set<nat>)
    ensures Positions(m, {a}) == {AnchorOf(m, a).position as nat}
    ensures positions + Positions(m, {}) == positions
  {
  }

  lemma OwnerTurnSame(c: Chain, p: uint8, a: Address, ret: uint64, delRet: uint64, signers: seq<Address>)
    requires Narrow(c)
    ensures var c1 := OwnerTurn(c, p, a, ret, delRet).0;
            && Narrow(c1)
            && Current(c1, p, signers) == Current(c, p, signers)
            && Remembered(c1, p, signers) == Remembered(c, p, signers)
            && Positions(c1.anchors, Current(c, p, signers)) == Positions(c.anchors, Current(c, p, signers))
            && Positions(c1.delAnchors, Remembered(c, p, signers)) == Positions(c.delAnchors, Remembered(c, p, signers))
  {
    hide OrBit, Current, Remembered, Positions;
    var c1 := OwnerTurn(c, p, a, ret, delRet).0;
    assert SameAnchors(c.anchors, c1.anchors) && SameAnchors(c.delAnchors, c1.delAnchors);
    SameAvailable(c, c1, p, signers);
    SameRemembered(c, c1, p, signers);
    SamePositions(c.anchors, c1.anchors, Current(c, p, signers));
    SamePositions(c.delAnchors, c1.delAnchors, Remembered(c, p, signers));
  }

  lemma SameRemembered(c: Chain, c': Chain, p: uint8, signers: seq<Address>)
    requires SameAnchors(c.delAnchors, c'.delAnchors)
    ensures Remembered(c, p, signers) == Remembered(c', p, signers)
  {
    forall a ensures IsRemembered(c, p, a) <==> IsRemembered(c', p, a) {
      assert AnchorOf(c.delAnchors, a).(signCount := 0) == AnchorOf(c'.delAnchors, a).(signCount := 0);
    }
  }

  /** The owner's count is the sum of both mask counts and never exceeds the
      number of current plus remembered signers. */
  lemma OwnerCountIsSound(c: Chain, p: uint8, signers: seq<Address>)
    requires Narrow(c)
    ensures var (_, mask, delMask) := OwnerTally(c, p, signers, 0, 0);
            var current, remembered := Current(c, p, signers), Remembered(c, p, signers);
            && OwnerCountOf(mask, delMask)
                 == |Positions(c.anchors, current)| % 63 + |Positions(c.delAnchors, remembered)| % 63
            && OwnerCountOf(mask, delMask) <= |current| + |remembered|
  {
    hide Stands, OwnerTally, Current, Remembered, Positions, BitCount;
    var (_, mask, delMask) := OwnerTally(c, p, signers, 0, 0);
    StandsForNothing();
    OwnerTallyMasks(c, p, signers, 0, 0, {}, {});
    var s, t := Positions(c.anchors, Current(c, p, signers)), Positions(c.delAnchors, Remembered(c, p, signers));
    assert {} + s == s && {} + t == t;
    hide Narrow, AnchorOf, Popcount;
    CountOfStanding(mask, s);
    CountOfStanding(delMask, t);
    PositionsSize(c.anchors, Current(c, p, signers));
    PositionsSize(c.delAnchors, Remembered(c, p, signers));
    SumOfCounts(mask, delMask);
    hide OwnerCountOf;
  }

  lemma SumOfCounts(mask: uint64, delMask: uint64)
    ensures BitCount(mask) < 63 && BitCount(delMask) < 63 ==> OwnerCountOf(mask, delMask) == BitCount(mask) + BitCount(delMask)
  {
    hide BitCount;
  }

  /** From a valid table and ring the owner's count is the number of distinct
      signers that are current or remembered anchors, nobody twice, exactly when
      each kind has fewer than 63. */
  lemma OwnerCountIsExactIff(c: Chain, p: uint8, signers: seq<Address>)
    requires p > 0 && Table(c, p) && Slots(c.delAnchors, c.delsAddress, p) && Apart(c) && Narrow(c)
    ensures var (_, mask, delMask) := OwnerTally(c, p, signers, 0, 0);
            var current, remembered := Current(c, p, signers), Remembered(c, p, signers);
            && |current + remembered| == |current| + |remembered|
            && (OwnerCountOf(mask, delMask) == |current + remembered| <==> |current| < 63 && |remembered| < 63)
  {
    hide OwnerTally, OwnerCountOf, Slots, Narrow, Current, Remembered, Positions, AnchorOf, Apart;
    var current, remembered := Current(c, p, signers), Remembered(c, p, signers);
    CurrentApartFromRemembered(c, p, signers);
    SlotsGiveDistinctPositions(c.anchors, c.anchorAddress, p, current);
    SlotsGiveDistinctPositions(c.delAnchors, c.delsAddress, p, remembered);
    OwnerCountIsSound(c, p, signers);
    SumExactIff(|current|, |remembered|);
  }

  lemma SumExactIff(m: nat, n: nat)
    ensures m % 63 + n % 63 == m + n <==> m < 63 && n < 63
  {
  }

  lemma CurrentApartFromRemembered(c: Chain, p: uint8, signers: seq<Address>)
    requires p > 0 && Apart(c)
    ensures var current, remembered := Current(c, p, signers), Remembered(c, p, signers);
            |current + remembered| == |current| + |remembered|
    ensures forall a :: a in Current(c, p, signers) ==> AnchorOf(c.anchors, a).purpose > 0
    ensures forall a :: a in Remembered(c, p, signers) ==> AnchorOf(c.delAnchors, a).purpose > 0
  {
    var current, remembered := Current(c, p, signers), Remembered(c, p, signers);
    assert current * remembered == {} by {
      forall a | a in current ensures a !in remembered {
        assert a in c.anchors && IsListed(c, a);
      }
    }
  }

  // ---------- Counters ----------

  function Occurrences(signers: seq<Address>, a: Address): nat {
    if signers == [] then 0 else (if signers[0] == a then 1 else 0) + Occurrences(signers[1..], a)
  }

  /** verifySignAndCount adds to an available anchor's counter once per
      signature, repetitions included, and changes nothing else. */
  lemma {:induction false} TallyCounters(c: Chain, p: uint8, signers: seq<Address>, ret: uint64, a: Address)
    ensures var d := Tally(c, p, signers, ret).0;
            && SameAnchors(c.anchors, d.anchors)
            && d == c.(anchors := d.anchors)
            && AnchorOf(d.anchors, a).signCount ==
                 (AnchorOf(c.anchors, a).signCount + (if IsAvailable(c, p, a) then Occurrences(signers, a) else 0)) % U256
    decreases |signers|
  {
    if signers != [] {
      TallyUnfold(c, p, signers, ret);
      if IsAvailable(c, p, signers[0]) {
        var c1 := NoteSign(c, signers[0]);
        var ret1 := OrBit(ret, AnchorOf(c.anchors, signers[0]).position);
        NoteSignCounter(c, p, signers[0], a);
        hide OrBit, NoteSign, SameAnchors, IsAvailable, Tally;
        TallyCounters(c1, p, signers[1..], ret1, a);
        SameTransitive(c.anchors, c1.anchors, Tally(c1, p, signers[1..], ret1).0.anchors);
      } else {
        hide OrBit, SameAnchors, Tally;
        TallyCounters(c, p, signers[1..], ret, a);
      }
    }
  }

  lemma NoteSignCounter(c: Chain, p: uint8, s: Address, a: Address)
    ensures var d := NoteSign(c, s);
            && SameAnchors(c.anchors, d.anchors) && d == c.(anchors := d.anchors)
            && (IsAvailable(d, p, a) <==> IsAvailable(c, p, a))
            && AnchorOf(d.anchors, a).signCount ==
                 if a == s then (AnchorOf(c.anchors, a).signCount + 1) % U256 else AnchorOf(c.anchors, a).signCount
  {
  }

  lemma SameTransitive(m: map<Address, Anchor>, m1: map<Address, Anchor>, m2: map<Address, Anchor>)
    requires SameAnchors(m, m1) && SameAnchors(m1, m2)
    ensures SameAnchors(m, m2)
  {
    forall a ensures AnchorOf(m, a).(signCount := 0) == AnchorOf(m2, a).(signCount := 0) {
      assert AnchorOf(m, a).(signCount := 0) == AnchorOf(m1, a).(signCount := 0);
    }
  }

  /** The owner's count changes only the counters, in both tables. */
  lemma {:induction false} OwnerTallyCounters(c: Chain, p: uint8, signers: seq<Address>, ret: uint64, delRet: uint64)
    ensures var d := OwnerTally(c, p, signers, ret, delRet).0;
            && SameAnchors(c.anchors, d.anchors) && SameAnchors(c.delAnchors, d.delAnchors)
            && d == c.(anchors := d.anchors, delAnchors := d.delAnchors)
    decreases |signers|
  {
    if signers != [] {
      var (c1, ret1, delRet1) := OwnerTurn(c, p, signers[0], ret, delRet);
      OwnerTurnCounters(c, p, signers[0], ret, delRet);
      hide OwnerTurn, SameAnchors;
      OwnerTallyCounters(c1, p, signers[1..], ret1, delRet1);
      var d := OwnerTally(c1, p, signers[1..], ret1, delRet1).0;
      SameTransitive(c.anchors, c1.anchors, d.anchors);
      SameTransitive(c.delAnchors, c1.delAnchors, d.delAnchors);
    }
  }

  lemma OwnerTurnCounters(c: Chain, p: uint8, a: Address, ret: uint64, delRet: uint64)
    ensures var d := OwnerTurn(c, p, a, ret, delRet).0;
            && SameAnchors(c.anchors, d.anchors) && SameAnchors(c.delAnchors, d.delAnchors)
            && d == c.(anchors := d.anchors, delAnchors := d.delAnchors)
  {
    NoteSignCounter(c, p, a, a);
    NoteDelSignCounter(c, a);
    NoteDelSignCounter(NoteSign(c, a), a);
    hide OrBit, SameAnchors;
    SameReflexive(c.anchors);
    SameReflexive(c.delAnchors);
  }

  /** A counter in 256 bits. */
  function Plus(x: uint256, n: nat): uint256 {
    (x + n) % U256
  }

  lemma PlusPlus(x: uint256, m: nat, n: nat)
    ensures Plus(Plus(x, m), n) == Plus(x, m + n)
    ensures Plus(x, 0) == x
  {
  }

  /** The owner's verification adds to a counter once per signature of a current
      anchor, and to the counter of a remembered one likewise. */
  lemma {:induction false} OwnerTallyCounts(c: Chain, p: uint8, signers: seq<Address>, ret: uint64, delRet: uint64, a: Address)
    ensures var d := OwnerTally(c, p, signers, ret, delRet).0;
            var n := Occurrences(signers, a);
            && AnchorOf(d.anchors, a).signCount == Plus(AnchorOf(c.anchors, a).signCount, if IsCurrent(c, p, a) then n else 0)
            && AnchorOf(d.delAnchors, a).signCount ==
                 Plus(AnchorOf(c.delAnchors, a).signCount, if IsRemembered(c, p, a) then n else 0)
    decreases |signers|
  {
    hide OwnerTally, OwnerTurn, IsCurrent, IsRemembered, AnchorOf, Plus;
    OwnerTallyUnfold(c, p, signers, ret, delRet);
    var x, y := AnchorOf(c.anchors, a).signCount, AnchorOf(c.delAnchors, a).signCount;
    if signers == [] {
      PlusPlus(x, 0, 0);
      PlusPlus(y, 0, 0);
    } else {
      var (c1, ret1, delRet1) := OwnerTurn(c, p, signers[0], ret, delRet);
      var one, n := if signers[0] == a then 1 else 0, Occurrences(signers[1..], a);
      OwnerTurnCounts(c, p, signers[0], ret, delRet, a);
      OwnerTallyCounts(c1, p, signers[1..], ret1, delRet1, a);
      PlusPlus(x, if IsCurrent(c, p, a) then one else 0, if IsCurrent(c, p, a) then n else 0);
      PlusPlus(y, if IsRemembered(c, p, a) then one else 0, if IsRemembered(c, p, a) then n else 0);
    }
  }

  lemma OwnerTurnCounts(c: Chain, p: uint8, s: Address, ret: uint64, delRet: uint64, a: Address)
    ensures var d := OwnerTurn(c, p, s, ret, delRet).0;
            var one := if s == a then 1 else 0;
            && (IsCurrent(d, p, a) <==> IsCurrent(c, p, a)) && (IsRemembered(d, p, a) <==> IsRemembered(c, p, a))
            && AnchorOf(d.anchors, a).signCount == Plus(AnchorOf(c.anchors, a).signCount, if IsCurrent(c, p, a) then one else 0)
            && AnchorOf(d.delAnchors, a).signCount ==
                 Plus(AnchorOf(c.delAnchors, a).signCount, if IsRemembered(c, p, a) then one else 0)
  {
    hide OrBit;
    var c1 := if IsCurrent(c, p, s) then NoteSign(c, s) else c;
    var d := OwnerTurn(c, p, s, ret, delRet).0;
    assert d == if IsRemembered(c1, p, s) then NoteDelSign(c1, s) else c1;
    assert c1.delAnchors == c.delAnchors && d.anchors == c1.anchors;
    hide OwnerTurn;
  }

  lemma NoteDelSignCounter(c: Chain, a: Address)
    ensures SameAnchors(c.delAnchors, NoteDelSign(c, a).delAnchors)
  {
  }

  lemma SameReflexive(m: map<Address, Anchor>)
    ensures SameAnchors(m, m)
  {
  }
}
