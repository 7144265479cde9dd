/** The pacing of one half, and the one-slot memory in which asio stores its pending handler. */
module BandwidthThrottles {
  import opened SessionModel

  /**
   * A slot for one handler at a time. The source never sets `in_use_`, so its assertion cannot
   * detect a second handler; `live` says whether one is stored, and callers must know it is not.
   */
  class HandlerMemory {
    var inUse: bool
    ghost var live: bool

    constructor ()
      ensures !inUse && !live
    {
      inUse := false;
      live := false;
    }

    method Allocate()
      requires !inUse && !live
      modifies this
      ensures live && !inUse
    {
      assert !inUse;
      live := true;
    }

    method Deallocate()
      requires live
      modifies this
      ensures !live && !inUse
    {
      inUse := false;
      live := false;
    }
  }

  class BandwidthThrottle {
    const memory: HandlerMemory
    const sliceBytesCount: nat
    const sliceDuration: nat
    var nextSliceStart: int
    var expiry: int

    constructor (bandwidth: nat, samplingFrequency: nat, now: int)
      requires samplingFrequency > 0
      ensures fresh(memory) && !memory.live && !memory.inUse
      ensures sliceBytesCount == SliceBytes(bandwidth, samplingFrequency)
      ensures sliceDuration == SliceDuration(samplingFrequency)
      ensures nextSliceStart == now
    {
      memory := new HandlerMemory();
      sliceBytesCount := SliceBytes(bandwidth, samplingFrequency);
      sliceDuration := SliceDuration(samplingFrequency);
      nextSliceStart := now;
      expiry := now;
    }

    /** Arms the timer for the scheduled start of the next slice, in the past or not. */
    method Delay()
      requires !memory.live && !memory.inUse
      modifies this`expiry, memory
      ensures memory.live && !memory.inUse
      ensures expiry == nextSliceStart
    {
      expiry := nextSliceStart;
      memory.Allocate();
    }

    /**
     * The timer fires, at `now` or later than it should: the next slice starts one duration after
     * the scheduled start of this one, not after `now`.
     */
    method Fire(now: int) returns (slice: nat)
      requires memory.live && expiry <= now
      modifies this`nextSliceStart, memory
      ensures slice == sliceBytesCount
      ensures nextSliceStart == old(nextSliceStart) + sliceDuration
      ensures !memory.live && !memory.inUse
    {
      memory.Deallocate();
      nextSliceStart := nextSliceStart + sliceDuration;
      slice := sliceBytesCount;
    }

    method Reset(now: int)
      modifies this`nextSliceStart
      ensures nextSliceStart == now
    {
      nextSliceStart := now;
    }
  }
}
