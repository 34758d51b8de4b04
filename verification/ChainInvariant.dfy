/** What every entry point keeps about the storage of one chain. */
module ChainInvariant {
  import opened Words
  import opened CrossStruct
  import opened AnchorTable
  import opened SignatureCount
  import opened Contract

  ghost predicate NoMoney(c: Chain) {
    c.totalReward == 0 && forall id | id in c.makerTxs :: c.makerTxs[id].value == 0
  }

  /** With the guard for registered addresses the table is valid. With the guard
      as written it is valid exactly as long as nothing was removed. */
  ghost predicate TableState(g: Guard, c: Chain, p: uint8, removed: seq<Address>) {
    if g.Registered? || removed == [] then Table(c, p) else exists x :: Orphan(c, x)
  }

  ghost predicate ChainInv(g: Guard, c: Chain, p: uint8, removed: seq<Address>) {
    && (c.purpose == 0 || c.purpose == p)
    && (c.purpose == 0 ==> NoMoney(c))
    && (c.purpose == 0 ==> removed == [] && (p > 0 ==> c.anchorAddress == [] && c.signConfirmCount == 0))
    && Narrow(c)
    && Own(c, p)
    && (p > 0 ==> Ring(c, p, removed) && Apart(c) && Entries(c) && TableState(g, c, p, removed))
  }

  lemma NewChainInv(g: Guard, p: uint8)
    ensures ChainInv(g, NO_CHAIN, p, [])
  {
  }

  // ---------- Additions ----------

  /** Additions touch the list and the anchors only, and keep orphans. */
  lemma {:induction false} AddAllFrame(c: Chain, p: uint8, list: seq<Address>)
    requires Narrow(c) && |c.anchorAddress| + |list| <= 64 && AddAll(c, p, list).Some?
    ensures var d := AddAll(c, p, list).value;
            && d == c.(anchors := d.anchors, anchorAddress := d.anchorAddress) && Narrow(d)
            && (Apart(c) ==> Apart(d))
            && (p > 0 && Entries(c) ==> Entries(d)) && (Own(c, p) ==> Own(d, p))
            && forall x :: Orphan(c, x) ==> Orphan(d, x)
    decreases |list|
  {
    if list != [] {
      EnlistFrame(c, p, list[0]);
      hide Enlist, Entries, Own, Narrow, Apart, Orphan;
      AddAllFrame(Enlist(c, p, list[0]), p, list[1..]);
    }
  }

  lemma EnlistFrame(c: Chain, p: uint8, a: Address)
    requires Narrow(c) && |c.anchorAddress| < 64 && !IsListed(c, a)
    ensures var d := Enlist(c, p, a);
            && d == c.(anchors := d.anchors, anchorAddress := d.anchorAddress) && Narrow(d)
            && |d.anchorAddress| == |c.anchorAddress| + 1
            && (Apart(c) && !IsRetired(c, a) ==> Apart(d))
            && (p > 0 && Entries(c) ==> Entries(d)) && (Own(c, p) ==> Own(d, p))
            && forall x :: Orphan(c, x) ==> Orphan(d, x)
  {
  }

  lemma {:induction false} RegisterAllFrame(c: Chain, p: uint8, list: seq<Address>)
    requires Narrow(c) && |c.anchorAddress| + |list| <= 64 && RegisterAll(c, p, list).Some?
    ensures var d := RegisterAll(c, p, list).value;
            && d == c.(anchors := d.anchors, anchorAddress := d.anchorAddress) && Narrow(d)
            && (Own(c, p) ==> Own(d, p))
    decreases |list|
  {
    if list != [] {
      EnlistFrame(c, p, list[0]);
      hide Enlist, Own, Narrow;
      RegisterAllFrame(Enlist(c, p, list[0]), p, list[1..]);
    }
  }

  lemma AddKeepsInv(g: Guard, c: Chain, p: uint8, list: seq<Address>, removed: seq<Address>)
    requires ChainInv(g, c, p, removed) && |c.anchorAddress| + |list| <= 64
    requires c.purpose == p && AddAll(c, p, list).Some?
    ensures ChainInv(g, AddAll(c, p, list).value, p, removed)
  {
    AddAllFrame(c, p, list);
    if p > 0 && (g.Registered? || removed == []) {
      AddAllKeepsTable(c, p, list);
    }
    hide AddAll, Slots, Narrow, Apart, Entries, Own, Last64, Orphan;
  }

  lemma RegisterKeepsInv(g: Guard, c: Chain, p: uint8, maxValue: uint256, count: uint8, list: seq<Address>, router: string)
    requires ChainInv(g, c, p, []) && c.purpose == 0 && |list| <= 64
    requires RegisterAll(FreshChain(c, p, maxValue, count, router), p, list).Some?
    ensures ChainInv(g, RegisterAll(FreshChain(c, p, maxValue, count, router), p, list).value, p, [])
  {
    var c1 := FreshChain(c, p, maxValue, count, router);
    FreshChainFits(g, c, p, maxValue, count, router);
    RegisterAllFrame(c1, p, list);
    hide Own, Narrow;
    if p > 0 {
      RegisterAllKeepsTable(c1, p, list);
      var d := RegisterAll(c1, p, list).value;
      hide Slots;
      TableEntries(d, p);
      assert forall a :: IsRetired(d, a) <==> IsRetired(c1, a);
      assert Apart(d);
    }
    hide RegisterAll, Slots, Last64, Entries;
  }

  lemma FreshChainFits(g: Guard, c: Chain, p: uint8, maxValue: uint256, count: uint8, router: string)
    requires ChainInv(g, c, p, []) && c.purpose == 0
    ensures var c1 := FreshChain(c, p, maxValue, count, router);
            Narrow(c1) && Own(c1, p) && (p > 0 ==> Table(c1, p) && forall a: Address :: !IsRetired(c1, a))
  {
  }

  // ---------- Removals ----------

  lemma {:induction false} RemoveAllFrame(g: Guard, c: Chain, p: uint8, list: seq<Address>, removed: seq<Address>)
    requires p > 0 && Narrow(c) && Ring(c, p, removed) && RemoveAll(g, c, p, list).Some?
    ensures var d := RemoveAll(g, c, p, list).value;
            && SameOrders(c, d) && Narrow(d) && (Own(c, p) ==> Own(d, p))
    decreases |list|
  {
    if list != [] {
      RemoveBodyFrame(c, p, list[0], removed);
      BodyKeepsRing(c, p, list[0], removed);
      hide Ring, Narrow, Own, RemoveBody;
      RemoveAllFrame(g, RemoveBody(c, p, list[0]).value, p, list[1..], removed + [list[0]]);
    }
  }

  lemma RemoveBodyFrame(c: Chain, p: uint8, a: Address, removed: seq<Address>)
    requires Narrow(c) && Ring(c, p, removed) && RemoveBody(c, p, a).Some?
    ensures SameOrders(c, RemoveBody(c, p, a).value) && Narrow(RemoveBody(c, p, a).value)
    ensures Own(c, p) ==> Own(RemoveBody(c, p, a).value, p)
  {
    RingBounds(c, p, removed);
    hide Ring, Slots, Last64;
    MovedFrame(c, p, a);
    hide Moved, Own;
    DeleteFrame(Moved(c, a), p, a);
  }

  lemma MovedFrame(c: Chain, p: uint8, a: Address)
    requires Narrow(c) && |c.anchorAddress| > 0
    ensures var d := Moved(c, a);
            && Narrow(d) && SameOrders(c, d) && d.delsAddress == c.delsAddress && d.delId == c.delId
            && (Own(c, p) ==> Own(d, p))
  {
  }

  lemma DeleteFrame(c: Chain, p: uint8, a: Address)
    requires Narrow(c) && |c.delsAddress| <= 64 && c.delId < 64 && DeleteAnchor(c, p, a).Some?
    ensures Narrow(DeleteAnchor(c, p, a).value) && SameOrders(c, DeleteAnchor(c, p, a).value)
    ensures Own(c, p) ==> Own(DeleteAnchor(c, p, a).value, p)
  {
  }

  lemma RingBounds(c: Chain, p: uint8, removed: seq<Address>)
    requires Ring(c, p, removed)
    ensures |c.delsAddress| <= 64 && c.delId < 64
  {
  }

  /** Whether the call broke the table or not, it stays as the guard makes it. */
  lemma RemoveKeepsInv(g: Guard, c: Chain, p: uint8, list: seq<Address>, removed: seq<Address>)
    requires ChainInv(g, c, p, removed) && c.purpose > 0 && list != [] && RemoveAll(g, c, p, list).Some?
    ensures ChainInv(g, RemoveAll(g, c, p, list).value, p, removed + list)
    ensures SameOrders(c, RemoveAll(g, c, p, list).value)
  {
    RemoveAllFrame(g, c, p, list, removed);
    RemoveAllKeepsRing(g, c, p, list, removed);
    RemoveAllKeepsApart(g, c, p, list);
    hide Ring, Narrow, Apart, RemoveBody, Slots, Entries, Own;
    if g.Registered? {
      RemoveAllListedKeepsTable(c, p, list);
      TableEntries(RemoveAll(g, c, p, list).value, p);
    } else {
      RemoveAllKeepsEntries(c, p, list);
      if removed == [] {
        AsWrittenOrphans(c, p, list);
      } else {
        var x :| Orphan(c, x);
        OrphanStays(c, p, list, x);
      }
    }
  }

  lemma AsWrittenOrphans(c: Chain, p: uint8, list: seq<Address>)
    requires p > 0 && Table(c, p) && list != [] && RemoveAll(AsWritten, c, p, list).Some?
    ensures exists x :: Orphan(RemoveAll(AsWritten, c, p, list).value, x)
  {
    RemoveUnlistedOrphans(c, p, list[0]);
    var index, n := AnchorOf(c.anchors, list[0]).position, |c.anchorAddress|;
    OrphanStays(RemoveBody(c, p, list[0]).value, p, list[1..],
                c.anchorAddress[if index < n - 1 then index else n - 1]);
  }

  // ---------- Changes that keep purposes and positions ----------

  /** Purposes and positions as before; counters and availability may differ. */
  ghost predicate SamePlaces(m: map<Address, Anchor>, m': map<Address, Anchor>) {
    forall a :: && AnchorOf(m, a).purpose == AnchorOf(m', a).purpose
                && AnchorOf(m, a).position == AnchorOf(m', a).position
  }

  lemma SamePlacesKeepsSlots(m: map<Address, Anchor>, m': map<Address, Anchor>, s: seq<Address>, p: uint8)
    requires SamePlaces(m, m') && Slots(m, s, p)
    ensures Slots(m', s, p)
  {
    forall i | 0 <= i < |s| ensures AnchorOf(m', s[i]).purpose > 0 && m'[s[i]].position == i {
      assert AnchorOf(m, s[i]).purpose == AnchorOf(m', s[i]).purpose;
    }
    forall a | a in m' && AnchorOf(m', a).purpose > 0 ensures a in s && m'[a].purpose == p {
      assert AnchorOf(m, a).purpose == AnchorOf(m', a).purpose;
    }
  }

  lemma SameAnchorsSamePlaces(m: map<Address, Anchor>, m': map<Address, Anchor>)
    requires SameAnchors(m, m')
    ensures SamePlaces(m, m')
  {
    forall a
      ensures AnchorOf(m, a).purpose == AnchorOf(m', a).purpose && AnchorOf(m, a).position == AnchorOf(m', a).position
    {
      assert AnchorOf(m, a).(signCount := 0) == AnchorOf(m', a).(signCount := 0);
    }
  }

  /** A change that keeps lists, ring and places, and money where there was none,
      keeps the invariant. */
  lemma PlacesKeepInv(g: Guard, c: Chain, d: Chain, p: uint8, removed: seq<Address>)
    requires ChainInv(g, c, p, removed)
    requires SamePlaces(c.anchors, d.anchors) && SamePlaces(c.delAnchors, d.delAnchors)
    requires c.anchorAddress == d.anchorAddress && c.delsAddress == d.delsAddress && c.delId == d.delId
    requires c.purpose == d.purpose
    requires c.purpose == 0 ==> NoMoney(d) && c.signConfirmCount == d.signConfirmCount
    ensures ChainInv(g, d, p, removed)
  {
    PlacesKeepNarrow(c, d);
    PlacesKeepApart(c, d);
    PlacesKeepEntries(c, d, p);
    hide Narrow, Apart, Entries, Own;
    if p > 0 {
      SamePlacesKeepsSlots(c.delAnchors, d.delAnchors, c.delsAddress, p);
      if g.Registered? || removed == [] {
        SamePlacesKeepsSlots(c.anchors, d.anchors, c.anchorAddress, p);
      } else {
        var x :| Orphan(c, x);
        assert Orphan(d, x);
      }
    }
  }

  lemma PlacesKeepNarrow(c: Chain, d: Chain)
    requires SamePlaces(c.anchors, d.anchors) && SamePlaces(c.delAnchors, d.delAnchors)
    requires c.anchorAddress == d.anchorAddress && Narrow(c)
    ensures Narrow(d)
  {
    forall a | a in d.anchors ensures d.anchors[a].position < 64 {
      assert AnchorOf(c.anchors, a).position == AnchorOf(d.anchors, a).position;
    }
    forall a | a in d.delAnchors ensures d.delAnchors[a].position < 64 {
      assert AnchorOf(c.delAnchors, a).position == AnchorOf(d.delAnchors, a).position;
    }
  }

  lemma PlacesKeepApart(c: Chain, d: Chain)
    requires SamePlaces(c.anchors, d.anchors) && SamePlaces(c.delAnchors, d.delAnchors)
    ensures Apart(c) ==> Apart(d)
  {
    if Apart(c) {
      forall a | a in d.anchors && IsListed(d, a) ensures !IsRetired(d, a) {
        assert AnchorOf(c.anchors, a).purpose == AnchorOf(d.anchors, a).purpose;
        assert AnchorOf(c.delAnchors, a).purpose == AnchorOf(d.delAnchors, a).purpose;
      }
    }
  }

  lemma PlacesKeepEntries(c: Chain, d: Chain, p: uint8)
    requires SamePlaces(c.anchors, d.anchors) && SamePlaces(c.delAnchors, d.delAnchors)
    requires c.anchorAddress == d.anchorAddress
    ensures Entries(c) ==> Entries(d)
    ensures Own(c, p) ==> Own(d, p)
  {
    forall a: Address ensures (IsListed(c, a) <==> IsListed(d, a)) && (IsRetired(c, a) <==> IsRetired(d, a)) {
      assert AnchorOf(c.anchors, a).purpose == AnchorOf(d.anchors, a).purpose;
      assert AnchorOf(c.delAnchors, a).purpose == AnchorOf(d.delAnchors, a).purpose;
    }
    if Own(c, p) {
      forall a | a in d.anchors ensures d.anchors[a].purpose == 0 || d.anchors[a].purpose == p {
        assert AnchorOf(c.anchors, a).purpose == AnchorOf(d.anchors, a).purpose;
      }
      forall a | a in d.delAnchors ensures d.delAnchors[a].purpose == 0 || d.delAnchors[a].purpose == p {
        assert AnchorOf(c.delAnchors, a).purpose == AnchorOf(d.delAnchors, a).purpose;
      }
    }
  }
}
