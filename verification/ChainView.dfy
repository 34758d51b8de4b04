/** The block windows scanned for contract events (chainview/chainview.go, GetEvents). */
module ChainView {
  import opened Words

  /** The blocks asked for in one tick, both ends included; empty if from > to. */
  datatype Window = Window(from: uint64, to: uint64)

  /** The last block of the window: all subtractions and additions wrap. */
  function ToBlock(current: uint64, head: uint64): uint64 {
    if current < (head - 99) % U64 then (current + 99) % U64 else (head - 1) % U64
  }

  function Next(current: uint64, head: uint64): uint64 {
    (ToBlock(current, head) + 1) % U64
  }

  /** The windows of successive ticks, one for each head that the node reports. */
  function Windows(current: uint64, heads: seq<uint64>): seq<Window>
    decreases |heads|
  {
    if heads == [] then []
    else [Window(current, ToBlock(current, heads[0]))] + Windows(Next(current, heads[0]), heads[1..])
  }

  function Height(current: uint64, heads: seq<uint64>): uint64
    decreases |heads|
  {
    if heads == [] then current else Height(Next(current, heads[0]), heads[1..])
  }

  /** How many windows contain a block. */
  function Hits(ws: seq<Window>, block: nat): nat {
    if ws == [] then 0 else (if ws[0].from <= block <= ws[0].to then 1 else 0) + Hits(ws[1..], block)
  }

  predicate NonDecreasing(heads: seq<uint64>) {
    forall i, j :: 0 <= i < j < |heads| ==> heads[i] <= heads[j]
  }

  class Viewer {
    var currentHeight: uint64

    constructor (start: uint64)
      ensures currentHeight == start
    {
      currentHeight := start;
    }

    /** One tick: the window that is scanned, and the new height. */
    method GetEvents(head: uint64) returns (w: Window)
      modifies this
      ensures w == Window(old(currentHeight), ToBlock(old(currentHeight), head))
      ensures currentHeight == Next(old(currentHeight), head)
      ensures 99 <= head && old(currentHeight) <= head ==>
                && currentHeight == (if head - old(currentHeight) < 100 then head else old(currentHeight) + 100)
                && w.to == currentHeight - 1
      ensures w.to < w.from + 100
    {
      var toBlock: uint64;
      if currentHeight < (head - 99) % U64 {
        toBlock := (currentHeight + 99) % U64;
      } else {
        toBlock := (head - 1) % U64;
      }
      w := Window(currentHeight, toBlock);
      currentHeight := (toBlock + 1) % U64;
    }
  }

  /** A window that starts at or below the head stays below it exactly when the
      head is at least 99; under that the subtraction has wrapped. */
  lemma WindowBelowHeadIff(current: uint64, head: uint64)
    requires current <= head < U64 - 100
    ensures ToBlock(current, head) <= head - 1 <==> head >= 99
  {
  }

  /** No window has more than 100 blocks, whatever height and head are. */
  lemma {:induction false} WindowsAreShort(start: uint64, heads: seq<uint64>, i: nat)
    requires i < |heads|
    ensures |Windows(start, heads)| == |heads|
    ensures var w := Windows(start, heads)[i]; w.to < w.from + 100
    decreases |heads|
  {
    WindowsLength(start, heads);
    var next := Next(start, heads[0]);
    WindowsLength(next, heads[1..]);
    if i > 0 { WindowsAreShort(next, heads[1..], i - 1); }
  }

  /** A tick goes on by 100 blocks, or to the head if that is nearer, exactly when the
      head is at least 99; a lower head is overrun. */
  lemma TickIsExactIff(current: uint64, head: uint64)
    requires current <= head < U64 - 100
    ensures Next(current, head) == (if head - current < 100 then head else current + 100) <==> head >= 99
  {
  }

  lemma TickAdvances(current: uint64, head: uint64)
    requires 99 <= head
    ensures current <= head ==> current <= Next(current, head) <= head && ToBlock(current, head) == Next(current, head) - 1
    ensures current >= head ==> Next(current, head) == head && ToBlock(current, head) == head - 1
  {
  }

  /** From a height at or below the first head the windows cover each block from
      there to the new height exactly once, and no other block. */
  lemma {:induction false} CoverFrom(current: uint64, heads: seq<uint64>, block: nat)
    requires heads == [] || current <= heads[0]
    requires NonDecreasing(heads) && forall i :: 0 <= i < |heads| ==> heads[i] >= 99
    ensures Hits(Windows(current, heads), block) == if current <= block < Height(current, heads) then 1 else 0
    ensures current <= Height(current, heads)
    ensures heads != [] ==> Height(current, heads) <= heads[|heads| - 1]
    decreases |heads|
  {
    if heads != [] {
      var next, rest := Next(current, heads[0]), heads[1..];
      TickAdvances(current, heads[0]);
      assert forall i :: 0 <= i < |rest| ==> rest[i] == heads[i + 1];
      CoverFrom(next, rest, block);
      var w := Window(current, ToBlock(current, heads[0]));
      assert Windows(current, heads)[1..] == Windows(next, rest) && Windows(current, heads)[0] == w;
    }
  }

  /** Over any ticks with non-decreasing heads of at least 99 every block from the
      start to the height reached is scanned exactly once and every other block
      never. A start beyond the first head falls back to that head. */
  lemma EveryBlockOnce(start: uint64, heads: seq<uint64>, block: nat)
    requires heads != [] && NonDecreasing(heads) && forall i :: 0 <= i < |heads| ==> heads[i] >= 99
    ensures var base := if start <= heads[0] then start else heads[0];
            && Hits(Windows(start, heads), block) == (if base <= block < Height(start, heads) then 1 else 0)
            && Height(start, heads) <= heads[|heads| - 1]
  {
    if start <= heads[0] {
      CoverFrom(start, heads, block);
    } else {
      TickAdvances(start, heads[0]);
      var rest := heads[1..];
      assert forall i :: 0 <= i < |rest| ==> rest[i] == heads[i + 1];
      CoverFrom(heads[0], rest, block);
      assert Windows(start, heads)[1..] == Windows(heads[0], rest);
    }
  }

  /** Each window starts right after the one before. */
  lemma {:induction false} WindowsAreContiguous(start: uint64, heads: seq<uint64>, i: nat)
    requires i + 1 < |heads|
    ensures |Windows(start, heads)| == |heads|
    ensures Windows(start, heads)[i + 1].from == (Windows(start, heads)[i].to + 1) % U64
    decreases |heads|
  {
    WindowsLength(start, heads);
    var next := Next(start, heads[0]);
    WindowsLength(next, heads[1..]);
    if i > 0 {
      WindowsAreContiguous(next, heads[1..], i - 1);
    }
  }

  lemma {:induction false} WindowsLength(start: uint64, heads: seq<uint64>)
    ensures |Windows(start, heads)| == |heads|
    decreases |heads|
  {
    if heads != [] { WindowsLength(Next(start, heads[0]), heads[1..]); }
  }

  /** A head that stays is reached within the gap over 100 ticks, plus one, and
      then kept. */
  lemma {:induction false} HeadIsReached(current: uint64, head: uint64, ticks: nat)
    requires 99 <= head && current <= head
    ensures ticks >= (head - current) / 100 + 1 ==> Height(current, seq(ticks, _ => head)) == head
    decreases ticks
  {
    if ticks > 0 {
      TickAdvances(current, head);
      var next := Next(current, head);
      assert seq<uint64>(ticks, _ => head)[1..] == seq<uint64>(ticks - 1, _ => head);
      HeadIsReached(next, head, ticks - 1);
      if ticks == 1 { assert Height(next, []) == next; }
      if next < head { assert head - next == head - current - 100; }
      if next == head { Stays(head, ticks - 1); }
    }
  }

  lemma {:induction false} Stays(head: uint64, ticks: nat)
    requires 99 <= head
    ensures Height(head, seq(ticks, _ => head)) == head
    decreases ticks
  {
    if ticks > 0 {
      TickAdvances(head, head);
      assert seq<uint64>(ticks, _ => head)[1..] == seq<uint64>(ticks - 1, _ => head);
      Stays(head, ticks - 1);
    }
  }
}
