/** Byte ranges of a block buffer and the offset arithmetic that assigns them
    (client/src/serde.rs, `Position`, `calculate_position(s)`). */
module Positions {

  /** A field's byte range `[offset, offset + length)` in a block buffer. */
  datatype Position = Position(offset: nat, length: nat) {
    function End(): nat {
      offset + length
    }
  }

  function Sum(lengths: seq<nat>): nat
    decreases |lengths|
  {
    if lengths == [] then 0 else lengths[0] + Sum(lengths[1..])
  }

  /** `positions` places fields of the given `lengths` back to back, in order,
      the first starting at `start` and the last ending at `end`. */
  ghost predicate Tiles(positions: seq<Position>, lengths: seq<nat>, start: nat, end: nat)
    decreases |positions|
  {
    if positions == [] then
      lengths == [] && start == end
    else
      && lengths != []
      && positions[0] == Position(start, lengths[0])
      && Tiles(positions[1..], lengths[1..], start + lengths[0], end)
  }

  /** Two tilings that meet at `middle` form one tiling. */
  lemma {:induction false} TilesAppend(p1: seq<Position>, l1: seq<nat>, start: nat, middle: nat,
                                       p2: seq<Position>, l2: seq<nat>, end: nat)
    requires Tiles(p1, l1, start, middle)
    requires Tiles(p2, l2, middle, end)
    ensures Tiles(p1 + p2, l1 + l2, start, end)
    decreases |p1|
  {
    if p1 == [] {
      assert p1 + p2 == p2;
      assert l1 + l2 == l2;
    } else {
      TilesAppend(p1[1..], l1[1..], start + l1[0], middle, p2, l2, end);
      assert (p1 + p2)[1..] == p1[1..] + p2;
      assert (l1 + l2)[1..] == l1[1..] + l2;
    }
  }

  /** What a tiling means position by position: one position per length,
      each at the running sum of the lengths before it, consecutive positions
      touching, all inside `[start, end)`, and `end` the start plus the total. */
  lemma {:induction false} TilesShape(positions: seq<Position>, lengths: seq<nat>, start: nat, end: nat)
    requires Tiles(positions, lengths, start, end)
    ensures |positions| == |lengths|
    ensures end == start + Sum(lengths)
    ensures forall k :: 0 <= k < |positions| ==>
              && positions[k] == Position(start + Sum(lengths[..k]), lengths[k])
              && start <= positions[k].offset
              && positions[k].End() <= end
    ensures forall k :: 0 <= k < |positions| - 1 ==> positions[k].End() == positions[k + 1].offset
    decreases |positions|
  {
    if positions != [] {
      var rest, restLengths := positions[1..], lengths[1..];
      TilesShape(rest, restLengths, start + lengths[0], end);
      forall k | 0 <= k < |positions|
        ensures positions[k] == Position(start + Sum(lengths[..k]), lengths[k])
        ensures positions[k].End() <= end
      {
        if k > 0 {
          assert positions[k] == rest[k - 1];
          assert lengths[..k][1..] == restLengths[..k - 1];
        }
      }
      forall k | 0 <= k < |positions| - 1
        ensures positions[k].End() == positions[k + 1].offset
      {
        if k > 0 {
          assert positions[k] == rest[k - 1] && positions[k + 1] == rest[k];
        }
      }
    }
  }

  /** `calculate_position`: the field at `offset` of `length` bytes, and the
      offset where the next field starts. */
  function CalculatePosition(offset: nat, length: nat): (nat, Position) {
    (offset + length, Position(offset, length))
  }

  /** `calculate_positions`: the fold of `calculate_position` over a list of lengths. */
  function CalculatePositions(offset: nat, lengths: seq<nat>): (r: (nat, seq<Position>))
    ensures |r.1| == |lengths|
    decreases |lengths|
  {
    if lengths == [] then
      (offset, [])
    else
      var (next, position) := CalculatePosition(offset, lengths[0]);
      var (end, rest) := CalculatePositions(next, lengths[1..]);
      (end, [position] + rest)
  }

  /** The positions `calculate_positions` assigns tile `[offset, end)` with the lengths. */
  lemma {:induction false} CalculatePositionsTiles(offset: nat, lengths: seq<nat>)
    ensures Tiles(CalculatePositions(offset, lengths).1, lengths, offset, CalculatePositions(offset, lengths).0)
    decreases |lengths|
  {
    if lengths != [] {
      CalculatePositionsTiles(offset + lengths[0], lengths[1..]);
    }
  }

  /** One position per length, in order, contiguous from `offset`, and the
      returned offset is `offset` plus the sum of the lengths. */
  lemma CalculatePositionsContiguous(offset: nat, lengths: seq<nat>)
    ensures var (end, positions) := CalculatePositions(offset, lengths);
      && |positions| == |lengths|
      && end == offset + Sum(lengths)
      && (forall k :: 0 <= k < |positions| ==> positions[k].length == lengths[k])
      && (|positions| > 0 ==> positions[0].offset == offset)
      && (forall k :: 0 <= k < |positions| - 1 ==> positions[k].End() == positions[k + 1].offset)
  {
    var (end, positions) := CalculatePositions(offset, lengths);
    CalculatePositionsTiles(offset, lengths);
    TilesShape(positions, lengths, offset, end);
    if |positions| > 0 {
      assert lengths[..0] == [];
    }
  }

  /** The last position of a non-empty tiling ends at its end. */
  lemma {:induction false} TilesEnd(positions: seq<Position>, lengths: seq<nat>, start: nat, end: nat)
    requires Tiles(positions, lengths, start, end) && |positions| > 0
    ensures positions[|positions| - 1].End() == end
    decreases |positions|
  {
    if |positions| > 1 {
      TilesEnd(positions[1..], lengths[1..], start + lengths[0], end);
    }
  }

  /** A non-empty tiling of `[0, end)`: it starts at 0, each position has its
      length and stays inside, each ends where the next begins, and the last
      ends at `end`, which is the sum of the lengths. */
  lemma TilesContiguous(positions: seq<Position>, lengths: seq<nat>, end: nat)
    requires Tiles(positions, lengths, 0, end) && |positions| > 0
    ensures |positions| == |lengths|
    ensures positions[0].offset == 0
    ensures positions[|positions| - 1].End() == end
    ensures forall k :: 0 <= k < |positions| ==> positions[k].length == lengths[k] && positions[k].End() <= end
    ensures forall k :: 0 <= k < |positions| - 1 ==> positions[k].End() == positions[k + 1].offset
    ensures end == Sum(lengths)
  {
    TilesShape(positions, lengths, 0, end);
    TilesEnd(positions, lengths, 0, end);
    assert lengths[..0] == [];
  }
}
