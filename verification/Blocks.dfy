/** Fixed-size device blocks and the block device they live on (k64_block.c). */
module Blocks {

  type Byte = x: int | 0 <= x < 256

  datatype Option<+T> = None | Some(value: T)

  const BLOCK_SIZE: nat := 4096
  const JOURNAL_BLOCKS: nat := 32

  type Block = b: seq<Byte> | |b| == BLOCK_SIZE witness seq(BLOCK_SIZE, _ => 0)

  function ZeroBlock(): Block { seq(BLOCK_SIZE, _ => 0) }

  /**
   * A block device.  Every request is one atomic step that either happens in full or fails
   * without effect: requests outside the device fail (k64_block.c:119-137), and so does any
   * request the environment picks through `fails`.
   */
  class Device {
    const fails: nat -> bool
    var blocks: seq<Block>
    var requests: nat
    var failures: nat

    constructor (blocks: seq<Block>, fails: nat -> bool)
      ensures this.blocks == blocks && this.fails == fails && requests == 0 && failures == 0
    {
      this.blocks, this.fails, this.requests, this.failures := blocks, fails, 0, 0;
    }

    /** No request fails but those outside the device. */
    ghost predicate Reliable() { forall n :: !fails(n) }

    method Read(b: nat) returns (ok: bool, data: Block)
      modifies this`requests, this`failures
      ensures requests == old(requests) + 1
      ensures ok <==> b < |blocks| && !fails(old(requests))
      ensures ok ==> data == blocks[b]
      ensures failures == old(failures) + if ok then 0 else 1
    {
      ok, data := b < |blocks| && !fails(requests), ZeroBlock();
      if ok {
        data := blocks[b];
      } else {
        failures := failures + 1;
      }
      requests := requests + 1;
    }

    method Write(b: nat, data: Block) returns (ok: bool)
      modifies this
      ensures requests == old(requests) + 1
      ensures ok <==> b < |old(blocks)| && !fails(old(requests))
      ensures ok ==> blocks == old(blocks)[b := data]
      ensures !ok ==> blocks == old(blocks)
      ensures failures == old(failures) + if ok then 0 else 1
    {
      ok := b < |blocks| && !fails(requests);
      if ok {
        blocks := blocks[b := data];
      } else {
        failures := failures + 1;
      }
      requests := requests + 1;
    }
  }
}
