/** The anchors of one chain: the list with bit positions and the ring of
    removed anchors (contract/crossdemo/crossdemo.sol, lines 68-172). */
module AnchorTable {
  import opened Options
  import opened Words
  import opened CrossStruct

  /** Which addresses the loop of removeAnchors lets through. The source rejects
      the registered ones; the body it guards is written for them. */
  datatype Guard = AsWritten | Registered

  predicate IsListed(c: Chain, a: Address) {
    AnchorOf(c.anchors, a).purpose > 0
  }

  predicate IsRetired(c: Chain, a: Address) {
    AnchorOf(c.delAnchors, a).purpose > 0
  }

  // ---------- Operations ----------

  /** One turn of the loop of addAnchors. */
  function AddOne(c: Chain, p: uint8, a: Address): Option<Chain> {
    if IsListed(c, a) || IsRetired(c, a) then None
    else Some(Enlist(c, p, a))
  }

  function Enlist(c: Chain, p: uint8, a: Address): Chain {
    c.(anchors := c.anchors[a := Anchor(p, |c.anchorAddress| % U8, true, 0, 0)],
       anchorAddress := c.anchorAddress + [a])
  }

  function AddAll(c: Chain, p: uint8, list: seq<Address>): Option<Chain>
    decreases |list|
  {
    if list == [] then Some(c)
    else match AddOne(c, p, list[0])
      case None => None
      case Some(c1) => AddAll(c1, p, list[1..])
  }

  /** The loop of chainRegister: it does not look at the removed anchors. */
  function RegisterAll(c: Chain, p: uint8, list: seq<Address>): Option<Chain>
    decreases |list|
  {
    if list == [] then Some(c)
    else if IsListed(c, list[0]) then None
    else RegisterAll(Enlist(c, p, list[0]), p, list[1..])
  }

  /** deleteAnchor: forget the anchor and remember it in the ring. */
  function DeleteAnchor(c: Chain, p: uint8, del: Address): Option<Chain> {
    var c1 := c.(anchors := c.anchors - {del});
    if IsRetired(c, del) then None
    else if |c.delsAddress| < 64 then
      Some(c1.(delAnchors := c.delAnchors[del := Anchor(p, |c.delsAddress|, false, 0, 0)],
               delsAddress := c.delsAddress + [del]))
    else if c.delId >= |c.delsAddress| then None
    else
      Some(c1.(delAnchors := (c.delAnchors - {c.delsAddress[c.delId]})[del := Anchor(p, c.delId, false, 0, 0)],
               delsAddress := c.delsAddress[c.delId := del],
               delId := if c.delId + 1 == 64 then 0 else (c.delId + 1) % U8))
  }

  /** The last anchor of the list takes the place of the one removed. */
  function Moved(c: Chain, a: Address): Chain
    requires |c.anchorAddress| > 0
  {
    var index := AnchorOf(c.anchors, a).position;
    var n := |c.anchorAddress|;
    if index < n - 1 then
      var last := c.anchorAddress[n - 1];
      c.(anchorAddress := c.anchorAddress[index := last][..n - 1],
         anchors := c.anchors[last := AnchorOf(c.anchors, last).(position := index)])
    else c.(anchorAddress := c.anchorAddress[..n - 1])
  }

  /** The body of the loop of removeAnchors. On an empty list the array access fails. */
  function RemoveBody(c: Chain, p: uint8, a: Address): Option<Chain> {
    if |c.anchorAddress| == 0 then None else DeleteAnchor(Moved(c, a), p, a)
  }

  predicate Passes(g: Guard, c: Chain, a: Address) {
    if g.AsWritten? then !IsListed(c, a) else IsListed(c, a)
  }

  function RemoveOne(g: Guard, c: Chain, p: uint8, a: Address): Option<Chain> {
    if Passes(g, c, a) then RemoveBody(c, p, a) else None
  }

  function RemoveAll(g: Guard, c: Chain, p: uint8, list: seq<Address>): Option<Chain>
    decreases |list|
  {
    if list == [] then Some(c)
    else match RemoveOne(g, c, p, list[0])
      case None => None
      case Some(c1) => RemoveAll(g, c1, p, list[1..])
  }

  function SetStatus(c: Chain, a: Address, status: bool): Chain {
    c.(anchors := c.anchors[a := AnchorOf(c.anchors, a).(status := status)])
  }

  /** How many entries of the list are available. */
  function CountAvailable(c: Chain, list: seq<Address>): nat
    decreases |list|
  {
    if list == [] then 0
    else (if AnchorOf(c.anchors, list[0]).status then 1 else 0) + CountAvailable(c, list[1..])
  }

  // ---------- Invariants ----------

  /** The list has no duplicates, an address is registered exactly when listed,
      and its bit position is its place in the list. */
  ghost predicate Table(c: Chain, p: uint8) {
    |c.anchorAddress| <= 64 && Slots(c.anchors, c.anchorAddress, p)
  }

  /** What is left of the table once it is broken: every entry of the list is
      registered, and none is there twice. */
  ghost predicate Entries(c: Chain) {
    && (forall i, j :: 0 <= i < j < |c.anchorAddress| ==> c.anchorAddress[i] != c.anchorAddress[j])
    && (forall i :: 0 <= i < |c.anchorAddress| ==> IsListed(c, c.anchorAddress[i]))
  }

  /** Anchors carry the number of their chain or zero. */
  ghost predicate Own(c: Chain, p: uint8) {
    && (forall a | a in c.anchors :: c.anchors[a].purpose == 0 || c.anchors[a].purpose == p)
    && (forall a | a in c.delAnchors :: c.delAnchors[a].purpose == 0 || c.delAnchors[a].purpose == p)
  }

  /** The ring remembers the last 64 of the addresses removed so far and
      nothing else. */
  ghost predicate Ring(c: Chain, p: uint8, removed: seq<Address>) {
    Last64(c.delsAddress, c.delId, removed) && Slots(c.delAnchors, c.delsAddress, p)
  }

  /** The j-th removed address is in slot j modulo 64. */
  ghost predicate Last64(slots: seq<Address>, delId: nat, removed: seq<Address>) {
    && |slots| == (if |removed| < 64 then |removed| else 64)
    && delId == (if |removed| < 64 then 0 else |removed| % 64)
    && (forall j :: 0 <= j < |removed| && |removed| - 64 <= j ==> slots[j % 64] == removed[j])
  }

  /** Slots without repetitions; an address is remembered exactly when it has a
      slot, and its bit position is that slot. */
  ghost predicate Slots(m: map<Address, Anchor>, s: seq<Address>, p: uint8) {
    && (forall i, j :: 0 <= i < j < |s| ==> s[i] != s[j])
    && (forall i :: 0 <= i < |s| ==> AnchorOf(m, s[i]).purpose > 0 && m[s[i]].position == i)
    && (forall a | a in m && AnchorOf(m, a).purpose > 0 :: a in s && m[a].purpose == p)
  }

  ghost predicate Apart(c: Chain) {
    forall a | a in c.anchors && IsListed(c, a) :: !IsRetired(c, a)
  }

  /** Bit positions fit in a 64-bit word and the list has room for 64. */
  ghost predicate Narrow(c: Chain) {
    && |c.anchorAddress| <= 64
    && (forall a | a in c.anchors :: c.anchors[a].position < 64)
    && (forall a | a in c.delAnchors :: c.delAnchors[a].position < 64)
  }

  /** All but the anchors, the list and the ring is as before. */
  predicate SameOrders(c: Chain, d: Chain) {
    && c.purpose == d.purpose && c.signConfirmCount == d.signConfirmCount && c.maxValue == d.maxValue
    && c.makerTxs == d.makerTxs && c.takerTxs == d.takerTxs
    && c.reward == d.reward && c.totalReward == d.totalReward && c.router == d.router
  }

  // ---------- Adding ----------

  lemma PushKeepsSlots(m: map<Address, Anchor>, s: seq<Address>, p: uint8, a: Address, status: bool)
    requires p > 0 && Slots(m, s, p) && a !in s && |s| < 64
    ensures Slots(m[a := Anchor(p, |s|, status, 0, 0)], s + [a], p)
  {
    var t := s + [a];
    assert t[|s|] == a && t[..|s|] == s;
  }

  lemma EnlistKeepsTable(c: Chain, p: uint8, a: Address)
    requires p > 0 && Table(c, p) && |c.anchorAddress| < 64 && !IsListed(c, a)
    ensures Table(Enlist(c, p, a), p)
  {
    SlotsMembers(c.anchors, c.anchorAddress, p, a);
    hide Slots;
    PushKeepsSlots(c.anchors, c.anchorAddress, p, a, true);
  }

  lemma EnlistKeepsApart(c: Chain, p: uint8, a: Address)
    requires Apart(c) && !IsRetired(c, a)
    ensures Apart(Enlist(c, p, a))
  {
  }

  lemma EnlistKeepsEntries(c: Chain, p: uint8, a: Address)
    requires p > 0 && Entries(c) && !IsListed(c, a)
    ensures Entries(Enlist(c, p, a))
  {
  }

  lemma TableEntries(c: Chain, p: uint8)
    requires Table(c, p)
    ensures Entries(c)
  {
  }

  /** A successful addition of a list keeps the table and the separation from
      the ring, and appends exactly the given addresses. */
  lemma {:induction false} AddAllKeepsTable(c: Chain, p: uint8, list: seq<Address>)
    requires p > 0 && Table(c, p) && Apart(c) && |c.anchorAddress| + |list| <= 64
    requires AddAll(c, p, list).Some?
    ensures var d := AddAll(c, p, list).value;
            Table(d, p) && Apart(d) && d.anchorAddress == c.anchorAddress + list
    decreases |list|
  {
    if list == [] {
      assert c.anchorAddress + list == c.anchorAddress;
    } else {
      EnlistKeepsTable(c, p, list[0]);
      EnlistKeepsApart(c, p, list[0]);
      AppendFirst(c.anchorAddress, list);
      hide Slots, Apart;
      AddAllKeepsTable(Enlist(c, p, list[0]), p, list[1..]);
    }
  }

  lemma AppendFirst(a: seq<Address>, list: seq<Address>)
    requires list != []
    ensures a + [list[0]] + list[1..] == a + list
  {
  }

  /** The additions fail exactly when an address is repeated, already listed or
      still remembered as removed. */
  lemma {:induction false} AddAllFailsIff(c: Chain, p: uint8, list: seq<Address>)
    requires p > 0
    ensures AddAll(c, p, list).Some? <==>
            (forall i :: 0 <= i < |list| ==> !IsListed(c, list[i]) && !IsRetired(c, list[i])) &&
            (forall i, j :: 0 <= i < j < |list| ==> list[i] != list[j])
    decreases |list|
  {
    if list != [] && AddOne(c, p, list[0]).Some? {
      var c1 := Enlist(c, p, list[0]);
      AddAllFailsIff(c1, p, list[1..]);
      forall i | 1 <= i < |list|
        ensures !IsListed(c1, list[1..][i - 1]) <==> !IsListed(c, list[i]) && list[i] != list[0]
        ensures IsRetired(c1, list[1..][i - 1]) <==> IsRetired(c, list[i])
      {}
      if AddAll(c, p, list).Some? {
        forall i, j | 0 <= i < j < |list| ensures list[i] != list[j] {
          assert !IsListed(c1, list[1..][j - 1]);
          if i > 0 { assert list[1..][i - 1] != list[1..][j - 1]; }
        }
        forall i | 0 <= i < |list| ensures !IsListed(c, list[i]) && !IsRetired(c, list[i]) {
          if i > 0 { assert !IsListed(c1, list[1..][i - 1]); }
        }
      }
    }
  }

  lemma {:induction false} RegisterAllKeepsTable(c: Chain, p: uint8, list: seq<Address>)
    requires p > 0 && Table(c, p) && |c.anchorAddress| + |list| <= 64
    requires RegisterAll(c, p, list).Some?
    ensures var d := RegisterAll(c, p, list).value;
            Table(d, p) && d.anchorAddress == c.anchorAddress + list
    decreases |list|
  {
    if list == [] {
      assert c.anchorAddress + list == c.anchorAddress;
    } else {
      EnlistKeepsTable(c, p, list[0]);
      AppendFirst(c.anchorAddress, list);
      hide Slots;
      RegisterAllKeepsTable(Enlist(c, p, list[0]), p, list[1..]);
    }
  }

  // ---------- Removing ----------

  /** Remembering a removed address keeps the ring: once 64 are remembered the
      oldest gives its slot to the new one. */
  lemma DeleteKeepsRing(c: Chain, p: uint8, del: Address, removed: seq<Address>)
    requires p > 0 && Ring(c, p, removed) && DeleteAnchor(c, p, del).Some?
    ensures Ring(DeleteAnchor(c, p, del).value, p, removed + [del])
  {
    DeleteKeepsSlots(c, p, del);
    hide Slots;
    if |removed| < 64 {
      PushKeepsLast64(c.delsAddress, removed, del);
    } else {
      ReplaceKeepsLast64(c.delsAddress, c.delId, removed, del);
    }
  }

  lemma PushKeepsLast64(slots: seq<Address>, removed: seq<Address>, del: Address)
    requires Last64(slots, 0, removed) && |removed| < 64
    ensures Last64(slots + [del], 0, removed + [del])
  {
  }

  lemma ReplaceKeepsLast64(slots: seq<Address>, delId: nat, removed: seq<Address>, del: Address)
    requires Last64(slots, delId, removed) && |removed| >= 64
    ensures Last64(slots[delId := del], if delId + 1 == 64 then 0 else delId + 1, removed + [del])
  {
    var n := |removed|;
    forall j | 0 <= j < n + 1 && n + 1 - 64 <= j
      ensures slots[delId := del][j % 64] == (removed + [del])[j]
    {
      if j < n {
        assert j % 64 != n % 64;
        assert slots[j % 64] == removed[j];
      }
    }
  }

  lemma DeleteKeepsSlots(c: Chain, p: uint8, del: Address)
    requires p > 0 && Slots(c.delAnchors, c.delsAddress, p) && DeleteAnchor(c, p, del).Some?
    requires |c.delsAddress| <= 64
    ensures var d := DeleteAnchor(c, p, del).value; Slots(d.delAnchors, d.delsAddress, p)
  {
    assert del !in c.delsAddress;
    if |c.delsAddress| < 64 {
      PushKeepsSlots(c.delAnchors, c.delsAddress, p, del, false);
    } else {
      ReplaceKeepsSlots(c.delAnchors, c.delsAddress, p, del, c.delId);
    }
  }

  lemma ReplaceKeepsSlots(m: map<Address, Anchor>, s: seq<Address>, p: uint8, del: Address, k: nat)
    requires p > 0 && Slots(m, s, p) && del !in s && k < |s| <= 64
    ensures Slots((m - {s[k]})[del := Anchor(p, k, false, 0, 0)], s[k := del], p)
  {
    var m1, t := (m - {s[k]})[del := Anchor(p, k, false, 0, 0)], s[k := del];
    forall a | a in m1 && AnchorOf(m1, a).purpose > 0 ensures a in t && m1[a].purpose == p {
      if a == del {
        assert t[k] == del;
      } else {
        var i :| 0 <= i < |s| && s[i] == a;
        assert t[i] == a;
      }
    }
  }

  /** A slot of a full ring is overwritten only by the removal that is 64 later:
      the address forgotten is the one removed 64 removals ago. */
  lemma DeleteForgetsOldest(c: Chain, p: uint8, del: Address, removed: seq<Address>)
    requires p > 0 && Ring(c, p, removed) && DeleteAnchor(c, p, del).Some?
    ensures forall a :: IsRetired(DeleteAnchor(c, p, del).value, a) <==>
              a == del || (IsRetired(c, a) && !(|removed| >= 64 && a == removed[|removed| - 64]))
  {
    if |removed| >= 64 {
      assert (|removed| - 64) % 64 == |removed| % 64;
      assert c.delsAddress[c.delId] == removed[|removed| - 64];
    }
  }

  /** The addresses the ring remembers are exactly the last 64 removed. */
  lemma RingIsLast64(c: Chain, p: uint8, removed: seq<Address>, a: Address)
    requires Ring(c, p, removed)
    ensures IsRetired(c, a) <==> a in removed[if |removed| < 64 then 0 else |removed| - 64..]
  {
    SlotsMembers(c.delAnchors, c.delsAddress, p, a);
    hide Slots, Last64;
    var s, from := c.delsAddress, if |removed| < 64 then 0 else |removed| - 64;
    if a in s {
      var i :| 0 <= i < |s| && s[i] == a;
      var j := SlotHolds(s, c.delId, removed, i);
      assert removed[from..][j - from] == a;
    }
    if a in removed[from..] {
      var j :| 0 <= j < |removed[from..]| && removed[from..][j] == a;
      RemovedHasSlot(s, c.delId, removed, from + j);
    }
  }

  /** Every slot holds one of the last 64 removed addresses ... */
  lemma SlotHolds(slots: seq<Address>, delId: nat, removed: seq<Address>, i: nat) returns (j: nat)
    requires Last64(slots, delId, removed) && i < |slots|
    ensures |removed| - 64 <= j < |removed| && removed[j] == slots[i]
  {
    var from := if |removed| < 64 then 0 else |removed| - 64;
    j := if |removed| < 64 then i else from + (i - from) % 64;
    SlotOf(from, i);
  }

  lemma SlotOf(from: nat, i: nat)
    requires i < 64
    ensures (from + (i - from) % 64) % 64 == i
  {
  }

  /** ... and each of them has a slot. */
  lemma RemovedHasSlot(slots: seq<Address>, delId: nat, removed: seq<Address>, j: nat)
    requires Last64(slots, delId, removed) && |removed| - 64 <= j < |removed|
    ensures removed[j] in slots
  {
    assert slots[j % 64] == removed[j];
  }

  lemma SlotsMembers(m: map<Address, Anchor>, s: seq<Address>, p: uint8, a: Address)
    requires Slots(m, s, p)
    ensures AnchorOf(m, a).purpose > 0 <==> a in s
  {
  }

  /** The body of the removal loop is right for exactly the registered
      addresses: from a valid table it reaches a valid table if and only if the
      address was registered. */
  lemma RemoveBodyKeepsTableIff(c: Chain, p: uint8, a: Address)
    requires p > 0 && Table(c, p) && RemoveBody(c, p, a).Some?
    ensures Table(RemoveBody(c, p, a).value, p) <==> IsListed(c, a)
  {
    if IsListed(c, a) {
      RemoveListedKeepsTable(c, p, a);
    } else {
      RemoveUnlistedOrphans(c, p, a);
    }
  }

  /** Removing a registered address takes exactly that address off the list. */
  lemma RemoveListedKeepsTable(c: Chain, p: uint8, a: Address)
    requires p > 0 && Table(c, p) && RemoveBody(c, p, a).Some? && IsListed(c, a)
    ensures var d := RemoveBody(c, p, a).value;
            && Table(d, p)
            && |d.anchorAddress| == |c.anchorAddress| - 1
            && (forall b :: IsListed(d, b) <==> IsListed(c, b) && b != a)
  {
    hide Slots, RemoveBody;
    RemoveBodyOnFields(c, p, a);
    SwapWithLastKeepsSlots(c.anchors, c.anchorAddress, p, c.anchors[a].position);
  }

  /** Both branches of the body swap the last anchor into the freed place. */
  lemma RemoveBodyOnFields(c: Chain, p: uint8, a: Address)
    requires p > 0 && Table(c, p) && RemoveBody(c, p, a).Some? && IsListed(c, a)
    ensures |c.anchorAddress| > 0 && a in c.anchors
    ensures var d := RemoveBody(c, p, a).value;
            var index, last := c.anchors[a].position, c.anchorAddress[|c.anchorAddress| - 1];
            && index < |c.anchorAddress| && c.anchorAddress[index] == a && last in c.anchors
            && d.anchors == c.anchors[last := c.anchors[last].(position := index)] - {a}
            && d.anchorAddress == c.anchorAddress[index := last][..|c.anchorAddress| - 1]
  {
    var index, n := c.anchors[a].position, |c.anchorAddress|;
    assert c.anchorAddress[index] == a;
    if index == n - 1 {
      assert c.anchorAddress[index := a] == c.anchorAddress;
    }
  }

  lemma SwapWithLastKeepsSlots(m: map<Address, Anchor>, s: seq<Address>, p: uint8, k: nat)
    requires p > 0 && Slots(m, s, p) && k < |s| <= 64
    ensures var last := s[|s| - 1];
            Slots(m[last := m[last].(position := k)] - {s[k]}, s[k := last][..|s| - 1], p)
  {
    var n := |s|;
    var last := s[n - 1];
    var m1, t := m[last := m[last].(position := k)] - {s[k]}, s[k := last][..n - 1];
    forall a | a in m1 && AnchorOf(m1, a).purpose > 0 ensures a in t && m1[a].purpose == p {
      assert a in m && AnchorOf(m, a).purpose > 0;
      var i :| 0 <= i < n && s[i] == a;
      if i == n - 1 {
        assert t[k] == a;
      } else {
        assert t[i] == a;
      }
    }
  }

  /** A registered address that the list has lost. */
  predicate Orphan(c: Chain, x: Address) {
    IsListed(c, x) && x !in c.anchorAddress
  }

  /** Removing an unregistered address drops some listed anchor instead, which
      stays registered. */
  lemma RemoveUnlistedOrphans(c: Chain, p: uint8, a: Address)
    requires p > 0 && Table(c, p) && RemoveBody(c, p, a).Some? && !IsListed(c, a)
    ensures var n := |c.anchorAddress|;
            var index := AnchorOf(c.anchors, a).position;
            Orphan(RemoveBody(c, p, a).value, c.anchorAddress[if index < n - 1 then index else n - 1])
  {
  }

  lemma {:induction false} OrphanStays(c: Chain, p: uint8, list: seq<Address>, x: Address)
    requires Orphan(c, x) && RemoveAll(AsWritten, c, p, list).Some?
    ensures Orphan(RemoveAll(AsWritten, c, p, list).value, x)
    decreases |list|
  {
    if list != [] {
      BodyKeepsOrphan(c, p, list[0], x);
      hide RemoveBody, Orphan;
      OrphanStays(RemoveBody(c, p, list[0]).value, p, list[1..], x);
    }
  }

  lemma BodyKeepsOrphan(c: Chain, p: uint8, a: Address, x: Address)
    requires Orphan(c, x) && !IsListed(c, a) && RemoveBody(c, p, a).Some?
    ensures Orphan(RemoveBody(c, p, a).value, x)
  {
    assert forall b :: b in RemoveBody(c, p, a).value.anchorAddress ==> b in c.anchorAddress;
  }

  /** With the guard the source has, a call that removes anything breaks a
      valid table; the guard that accepts registered addresses keeps it. */
  lemma RemoveAllKeepsTableIff(g: Guard, c: Chain, p: uint8, list: seq<Address>)
    requires p > 0 && Table(c, p) && RemoveAll(g, c, p, list).Some?
    ensures Table(RemoveAll(g, c, p, list).value, p) <==> g.Registered? || list == []
  {
    if list != [] {
      if g.AsWritten? {
        RemoveUnlistedOrphans(c, p, list[0]);
        var index, n := AnchorOf(c.anchors, list[0]).position, |c.anchorAddress|;
        OrphanStays(RemoveBody(c, p, list[0]).value, p, list[1..],
                    c.anchorAddress[if index < n - 1 then index else n - 1]);
      } else {
        RemoveAllListedKeepsTable(c, p, list);
      }
    }
  }

  lemma {:induction false} RemoveAllListedKeepsTable(c: Chain, p: uint8, list: seq<Address>)
    requires p > 0 && Table(c, p) && RemoveAll(Registered, c, p, list).Some?
    ensures var d := RemoveAll(Registered, c, p, list).value;
            && Table(d, p)
            && |d.anchorAddress| == |c.anchorAddress| - |list|
            && forall b :: IsListed(d, b) <==> IsListed(c, b) && b !in list
    decreases |list|
  {
    if list != [] {
      RemoveListedKeepsTable(c, p, list[0]);
      var c1 := RemoveBody(c, p, list[0]).value;
      RemoveAllListedKeepsTable(c1, p, list[1..]);
      assert forall b :: b in list <==> b == list[0] || b in list[1..];
    }
  }

  function TwoListed(): Chain {
    NO_CHAIN.(purpose := 1, signConfirmCount := 1, anchorAddress := [10, 11],
              anchors := map[10 := Anchor(1, 0, true, 0, 0), 11 := Anchor(1, 1, true, 0, 0)])
  }

  /** Two anchors, one removal of a stranger: both anchors end on position 0. */
  lemma RemovalCollision()
    ensures var c := TwoListed();
            && Table(c, 1) && RemoveAll(AsWritten, c, 1, [12]).Some?
            && var d := RemoveAll(AsWritten, c, 1, [12]).value;
               && d.anchorAddress == [11] && !Table(d, 1)
               && AnchorOf(d.anchors, 10).position == AnchorOf(d.anchors, 11).position == 0
               && IsListed(d, 10) && IsListed(d, 11)
  {
    StrangerRemoved();
    var c := TwoListed();
    assert RemoveAll(AsWritten, c, 1, [12]) == RemoveAll(AsWritten, RemoveBody(c, 1, 12).value, 1, []);
    var d := RemoveBody(c, 1, 12).value;
    hide RemoveBody, TwoListed;
    assert 10 !in d.anchorAddress;
  }

  lemma StrangerRemoved()
    ensures var c := TwoListed();
            && Table(c, 1) && !IsListed(c, 12) && RemoveBody(c, 1, 12).Some?
            && var d := RemoveBody(c, 1, 12).value;
               && d.anchorAddress == [11]
               && AnchorOf(d.anchors, 10) == Anchor(1, 0, true, 0, 0) && AnchorOf(d.anchors, 11) == Anchor(1, 0, true, 0, 0)
  {
    var c := TwoListed();
    assert Moved(c, 12).anchorAddress == [11];
  }

  /** Either guard: a completed removal appends the addresses to the ring's history. */
  lemma {:induction false} RemoveAllKeepsRing(g: Guard, c: Chain, p: uint8, list: seq<Address>, removed: seq<Address>)
    requires p > 0 && Ring(c, p, removed) && RemoveAll(g, c, p, list).Some?
    ensures Ring(RemoveAll(g, c, p, list).value, p, removed + list)
    decreases |list|
  {
    hide Ring, RemoveBody;
    if list == [] {
      assert removed + list == removed;
    } else {
      BodyKeepsRing(c, p, list[0], removed);
      RemoveAllKeepsRing(g, RemoveBody(c, p, list[0]).value, p, list[1..], removed + [list[0]]);
      assert removed + [list[0]] + list[1..] == removed + list;
    }
  }

  lemma BodyKeepsRing(c: Chain, p: uint8, a: Address, removed: seq<Address>)
    requires p > 0 && Ring(c, p, removed) && RemoveBody(c, p, a).Some?
    ensures Ring(RemoveBody(c, p, a).value, p, removed + [a])
  {
    DeleteKeepsRing(Moved(c, a), p, a, removed);
  }

  /** Current and remembered anchors stay apart, whichever guard is used. */
  lemma {:induction false} RemoveAllKeepsApart(g: Guard, c: Chain, p: uint8, list: seq<Address>)
    requires p > 0 && Apart(c) && RemoveAll(g, c, p, list).Some?
    ensures Apart(RemoveAll(g, c, p, list).value)
    decreases |list|
  {
    if list != [] {
      BodyKeepsApart(c, p, list[0]);
      hide RemoveBody, Apart;
      RemoveAllKeepsApart(g, RemoveBody(c, p, list[0]).value, p, list[1..]);
    }
  }

  lemma BodyKeepsApart(c: Chain, p: uint8, a: Address)
    requires p > 0 && Apart(c) && RemoveBody(c, p, a).Some?
    ensures Apart(RemoveBody(c, p, a).value)
  {
  }

  /** Removing strangers drops entries of the list, but never doubles one or
      leaves an unregistered one. */
  lemma {:induction false} RemoveAllKeepsEntries(c: Chain, p: uint8, list: seq<Address>)
    requires Entries(c) && RemoveAll(AsWritten, c, p, list).Some?
    ensures Entries(RemoveAll(AsWritten, c, p, list).value)
    decreases |list|
  {
    if list != [] {
      BodyKeepsEntries(c, p, list[0]);
      hide RemoveBody, Entries;
      RemoveAllKeepsEntries(RemoveBody(c, p, list[0]).value, p, list[1..]);
    }
  }

  lemma BodyKeepsEntries(c: Chain, p: uint8, a: Address)
    requires Entries(c) && !IsListed(c, a) && RemoveBody(c, p, a).Some?
    ensures Entries(RemoveBody(c, p, a).value)
  {
    MovedKeepsEntries(c, a);
    hide Moved;
    DeleteKeepsEntries(Moved(c, a), p, a);
  }

  lemma MovedKeepsEntries(c: Chain, a: Address)
    requires Entries(c) && !IsListed(c, a) && |c.anchorAddress| > 0
    ensures Entries(Moved(c, a)) && !IsListed(Moved(c, a), a)
  {
    var d, s, n := Moved(c, a), c.anchorAddress, |c.anchorAddress|;
    var index := AnchorOf(c.anchors, a).position;
    assert d.anchorAddress == if index < n - 1 then s[index := s[n - 1]][..n - 1] else s[..n - 1];
    forall x: Address ensures IsListed(d, x) == IsListed(c, x) {}
    hide Moved, IsListed, AnchorOf;
    forall i | 0 <= i < n - 1 ensures d.anchorAddress[i] == s[if i == index then n - 1 else i] {}
  }

  lemma DeleteKeepsEntries(c: Chain, p: uint8, a: Address)
    requires Entries(c) && !IsListed(c, a) && DeleteAnchor(c, p, a).Some?
    ensures Entries(DeleteAnchor(c, p, a).value)
  {
    var d := DeleteAnchor(c, p, a).value;
    assert d.anchorAddress == c.anchorAddress && d.anchors == c.anchors - {a};
    hide DeleteAnchor;
  }
}
