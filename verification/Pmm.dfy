/** The physical frame allocator (k64_pmm.c). */
module Pmm {
  import opened Bitmap

  const MAX_FRAMES: nat := 1024 * 1024

  class FrameAllocator {
    var bits: seq<bool>   // set: the frame is taken or does not exist
    var totalFrames: nat
    var usedFrames: int

    function Limit(): nat
      reads this
    {
      if totalFrames < MAX_FRAMES then totalFrames else MAX_FRAMES
    }

    ghost predicate Valid()
      reads this
    {
      |bits| == MAX_FRAMES
    }

    /** How many frames there are to give out. */
    ghost function FreeFrames(): nat
      requires Valid()
      reads this
    {
      CountClear(bits, 0, Limit())
    }

    /** Clear bits plus used frames: no operation changes it. */
    ghost function Balance(): int
      requires Valid()
      reads this
    {
      CountClear(bits, 0, |bits|) + usedFrames
    }

    constructor (bits: seq<bool>, totalFrames: nat, usedFrames: int)
      requires |bits| == MAX_FRAMES
      ensures Valid() && this.bits == bits && this.totalFrames == totalFrames && this.usedFrames == usedFrames
    {
      this.bits, this.totalFrames, this.usedFrames := bits, totalFrames, usedFrames;
    }

    /** Takes the lowest free frame. */
    method Alloc() returns (ok: bool, frame: nat)
      requires Valid()
      modifies this`bits, this`usedFrames
      ensures Valid() && Balance() == old(Balance())
      ensures ok ==> frame < Limit() && !old(bits)[frame] && bits == old(bits)[frame := true] && usedFrames == old(usedFrames) + 1
      ensures ok ==> forall f :: 0 <= f < frame ==> old(bits)[f]
      ensures !ok ==> bits == old(bits) && usedFrames == old(usedFrames) && forall f :: 0 <= f < Limit() ==> bits[f]
      ensures ok <==> old(FreeFrames()) > 0
      ensures FreeFrames() == old(FreeFrames()) - if ok then 1 else 0
    {
      ok, frame := false, 0;
      while frame < totalFrames && frame < MAX_FRAMES
        invariant frame <= Limit() && bits == old(bits) && usedFrames == old(usedFrames)
        invariant forall f :: 0 <= f < frame ==> bits[f]
      {
        if !bits[frame] {
          CountFlip(bits, frame, 0, |bits|);
          CountFlip(bits, frame, 0, Limit());
          bits := bits[frame := true];
          usedFrames := usedFrames + 1;
          return true, frame;
        }
        frame := frame + 1;
      }
      CountZero(bits, 0, Limit());
    }

    /** The first run of free frames, skipping past the taken frame that breaks a candidate. */
    method FindContiguous(frames: nat) returns (ok: bool, frame: nat)
      requires Valid() && 0 < frames
      ensures ok ==> frame + frames <= Limit() && ClearRun(bits, frame, frames)
      ensures ok ==> forall s :: 0 <= s < frame ==> !ClearRun(bits, s, frames)
      ensures !ok ==> forall s :: 0 <= s && s + frames <= Limit() ==> !ClearRun(bits, s, frames)
    {
      ok, frame := false, 0;
      while frame + frames <= Limit()
        invariant forall s :: 0 <= s < frame ==> !ClearRun(bits, s, frames)
        decreases Limit() - frame
      {
        var j := 0;
        while j < frames && !bits[frame + j]
          invariant j <= frames && forall k :: frame <= k < frame + j ==> !bits[k]
        {
          j := j + 1;
        }
        if j == frames {
          return true, frame;
        }
        // every run that starts at or below the taken frame and reaches it is spoilt
        assert forall s :: frame <= s <= frame + j ==> !ClearRun(bits, s, frames);
        frame := frame + j + 1;
      }
    }

    method AllocContiguous(frames: nat) returns (ok: bool, start: nat)
      requires Valid()
      modifies this`bits, this`usedFrames
      ensures Valid() && Balance() == old(Balance())
      ensures ok ==> 0 < frames <= MAX_FRAMES && start + frames <= Limit() && ClearRun(old(bits), start, frames)
      ensures ok ==> bits == Marked(old(bits), start, frames, true) && usedFrames == old(usedFrames) + frames
      ensures ok ==> forall s :: 0 <= s < start ==> !ClearRun(old(bits), s, frames)
      ensures !ok ==> bits == old(bits) && usedFrames == old(usedFrames)
      ensures !ok && 0 < frames <= MAX_FRAMES ==> forall s :: 0 <= s && s + frames <= Limit() ==> !ClearRun(bits, s, frames)
    {
      start := 0;
      if frames == 0 || frames > MAX_FRAMES {
        return false, 0;
      }
      ok, start := FindContiguous(frames);
      if !ok {
        return;
      }
      ClearRunCounts(bits, 0, start, frames);
      bits := Mark(bits, start, frames);
      usedFrames := usedFrames + frames;
    }

    /** Gives a frame back; a frame that is not taken stays as it is. */
    method Free(frame: nat)
      requires Valid()
      modifies this`bits, this`usedFrames
      ensures Valid() && Balance() == old(Balance())
      ensures bits == if frame < MAX_FRAMES then old(bits)[frame := false] else old(bits)
      ensures usedFrames == old(usedFrames) - if frame < MAX_FRAMES && old(bits)[frame] then 1 else 0
    {
      if frame < MAX_FRAMES && bits[frame] {
        ghost var before := bits;
        bits := bits[frame := false];
        usedFrames := usedFrames - 1;
        CountFlip(bits, frame, 0, |bits|);
        assert bits[frame := true] == before;
      } else if frame < MAX_FRAMES {
        assert bits[frame := false] == bits;
      }
    }

    method FreeContiguous(start: nat, frames: nat)
      requires Valid()
      modifies this`bits, this`usedFrames
      ensures Valid() && Balance() == old(Balance())
      ensures forall f :: 0 <= f < MAX_FRAMES ==> bits[f] == (old(bits)[f] && !(start <= f < start + frames))
    {
      for i := 0 to frames
        invariant Valid() && Balance() == old(Balance())
        invariant forall f :: 0 <= f < MAX_FRAMES ==> bits[f] == (old(bits)[f] && !(start <= f < start + i))
      {
        Free(start + i);
      }
    }

    /** Takes every free frame that overlaps [start, end), in bytes. */
    method Reserve(start: nat, end: nat)
      requires Valid()
      modifies this`bits, this`usedFrames
      ensures Valid() && Balance() == old(Balance())
      ensures forall f :: 0 <= f < MAX_FRAMES ==>
                bits[f] == (old(bits)[f] || (start < end && start < (f + 1) * 4096 && f * 4096 < end))
    {
      if end <= start {
        return;
      }
      var frame, last := start / 4096, (end + 4095) / 4096;
      while frame < last
        invariant start / 4096 <= frame <= last && Valid() && Balance() == old(Balance())
        invariant forall f :: 0 <= f < MAX_FRAMES ==> bits[f] == (old(bits)[f] || start / 4096 <= f < frame)
      {
        if frame < MAX_FRAMES && !bits[frame] {
          CountFlip(bits, frame, 0, |bits|);
          bits := bits[frame := true];
          usedFrames := usedFrames + 1;
        }
        frame := frame + 1;
      }
    }
  }
}
