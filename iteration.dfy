/** `createIterator` (src/index.ts:23-34): a cursor over the block list
    whose closure counter `i` is the one piece of state the converter
    updates in place. */
module Iteration {
  import opened Wrappers
  import opened Types

  /** `blocks[k] ?? null` and `blocks[k]`: the block at index `k`, or
      nothing past the end of the list. */
  function BlockAt(blocks: seq<Block>, k: nat): (r: Option<Block>)
    ensures r.Some? <==> k < |blocks|
    ensures r.Some? ==> r.value == blocks[k] && r.value in blocks
  {
    if k < |blocks| then Some(blocks[k]) else None
  }

  /** The object `{peek, next}` that shares the counter `i`. The counter is
      never bounded: `next()` past the end still increments it. */
  class BlockIterator {
    const blocks: seq<Block>
    var i: nat

    constructor (blocks: seq<Block>)
      ensures this.blocks == blocks && i == 0
    {
      this.blocks := blocks;
      i := 0;
    }

    /** `peek(offset = 0)`: look ahead without moving. */
    method Peek(offset: nat) returns (b: Option<Block>)
      ensures b == BlockAt(blocks, i + offset)
    {
      if i + offset < |blocks| {
        b := Some(blocks[i + offset]);
      } else {
        b := None;
      }
    }

    /** `next()`: the block under the cursor (`undefined` past the end),
        and the cursor moves on by one in either case. */
    method Next() returns (b: Option<Block>)
      modifies this
      ensures b == BlockAt(blocks, old(i))
      ensures i == old(i) + 1
    {
      if i < |blocks| {
        b := Some(blocks[i]);
      } else {
        b := None;
      }
      i := i + 1;
    }
  }
}
