/** A session as the object the source has: handlers that update its fields, for TCP and for UDP. */
module Sessions {
  import opened Arithmetic
  import opened Configuration
  import opened Stream
  import opened BandwidthThrottles
  import opened SessionInvariant
  import M = SessionModel

  class Session {
    const config: Config
    const sendThrottle: BandwidthThrottle
    const receiveThrottle: BandwidthThrottle
    const sendMemory: HandlerMemory
    const receiveMemory: HandlerMemory
    const sendBuffer: array<Byte>
    const receiveBuffer: array<Byte>

    var sentBytesCount: nat
    var receivedBytesCount: nat
    var failure: Option<M.Error>
    var isReceiveComplete: bool
    var isSendComplete: bool

    // What each half waits for; asio keeps this in the pending operation.
    var sendOp: M.SendOp
    var receiveOp: M.ReceiveOp

    // The exit flag shared by the whole application, as set by this session.
    var exitRequested: bool

    ghost var clock: int
    ghost var started: bool
    ghost var sendGrants: nat
    ghost var sendStart: int
    ghost var receiveGrants: nat
    ghost var receiveStart: int
    ghost var mismatched: bool
    ghost var signalled: bool
    ghost var shutdowns: nat
    ghost var lateSends: nat
    ghost var finishes: nat
    ghost var closedAfter: nat

    /** The session as a value of the model. */
    ghost function State(): M.Session
      reads this, sendThrottle, receiveThrottle
    {
      M.Session(config, clock, started,
        M.SendHalf(sendOp,
          M.Counter(sentBytesCount, sendGrants, sendStart, sendThrottle.nextSliceStart,
                    sendThrottle.sliceBytesCount, sendThrottle.sliceDuration),
          isSendComplete),
        M.ReceiveHalf(receiveOp,
          M.Counter(receivedBytesCount, receiveGrants, receiveStart, receiveThrottle.nextSliceStart,
                    receiveThrottle.sliceBytesCount, receiveThrottle.sliceDuration),
          isReceiveComplete),
        M.Log(failure, mismatched, signalled, shutdowns, lateSends, finishes, closedAfter))
    }

    ghost function Memories(): set<HandlerMemory> {
      {sendMemory, receiveMemory, sendThrottle.memory, receiveThrottle.memory}
    }

    /** The objects are distinct, and the never-set flag of every slot is indeed unset. */
    ghost predicate Base()
      reads Memories()
    {
      && sendThrottle != receiveThrottle
      && sendMemory != receiveMemory && sendThrottle.memory != receiveThrottle.memory
      && sendMemory != sendThrottle.memory && sendMemory != receiveThrottle.memory
      && receiveMemory != sendThrottle.memory && receiveMemory != receiveThrottle.memory
      && !sendMemory.inUse && !receiveMemory.inUse
      && !sendThrottle.memory.inUse && !receiveThrottle.memory.inUse
      && sendBuffer.Length == BUFFER_SIZE && receiveBuffer.Length == BUFFER_SIZE
      && sendBuffer != receiveBuffer
    }

    /** The slots of the send half hold a handler exactly while its operation is pending. */
    ghost predicate SendLinked()
      reads this, sendMemory, sendThrottle, sendThrottle.memory
    {
      && sendMemory.live == sendOp.SendPending?
      && sendThrottle.memory.live == sendOp.SendThrottled?
      && (sendOp.SendThrottled? ==> sendThrottle.expiry == sendThrottle.nextSliceStart)
      && M.InBuffer(sendOp)
    }

    ghost predicate ReceiveLinked()
      reads this, receiveMemory, receiveThrottle, receiveThrottle.memory
    {
      && receiveMemory.live == (receiveOp.ReceivePending? || receiveOp.EofPending?)
      && receiveThrottle.memory.live == receiveOp.ReceiveThrottled?
      && (receiveOp.ReceiveThrottled? ==> receiveThrottle.expiry == receiveThrottle.nextSliceStart)
    }

    /** While a handler of the half runs, its slots are free again. */
    ghost predicate SendFree()
      reads sendMemory, sendThrottle.memory
    {
      !sendMemory.live && !sendThrottle.memory.live
    }

    ghost predicate ReceiveFree()
      reads receiveMemory, receiveThrottle.memory
    {
      !receiveMemory.live && !receiveThrottle.memory.live
    }

    /** A failure on record has asked the application to exit. */
    ghost predicate ExitAsked()
      reads this`failure, this`exitRequested
    {
      failure.Some? ==> exitRequested
    }

    ghost predicate Valid()
      reads this, sendThrottle, receiveThrottle, Memories()
    {
      Base() && SendLinked() && ReceiveLinked() && ExitAsked()
    }

    ghost predicate Filled()
      reads sendBuffer
    {
      sendBuffer[..] == SendBuffer()
    }

    constructor (c: Config, now: int)
      requires c.frequency > 0
      ensures Valid() && !exitRequested
      ensures config == c && State() == M.Initial(c, now)
      ensures fresh(sendThrottle) && fresh(receiveThrottle) && fresh(Memories())
      ensures fresh(sendBuffer) && fresh(receiveBuffer)
    {
      config := c;
      sendThrottle := new BandwidthThrottle(c.sendBandwidth, c.frequency, now);
      receiveThrottle := new BandwidthThrottle(c.receiveBandwidth, c.frequency, now);
      sendMemory := new HandlerMemory();
      receiveMemory := new HandlerMemory();
      sendBuffer := new Byte[BUFFER_SIZE];
      receiveBuffer := new Byte[BUFFER_SIZE];
      sentBytesCount, receivedBytesCount := 0, 0;
      failure := None;
      isReceiveComplete, isSendComplete := false, false;
      sendOp, receiveOp := M.SendIdle, M.ReceiveIdle;
      exitRequested := false;
      clock, started := now, false;
      sendGrants, sendStart, receiveGrants, receiveStart := 0, now, 0, now;
      mismatched, signalled := false, false;
      shutdowns, lateSends, finishes, closedAfter := 0, 0, 0, 0;
    }

    /** The pattern is written once, before any transfer. */
    method Initialize()
      requires Base()
      modifies sendBuffer
      ensures Filled()
    {
      var i, e := 0, sendBuffer.Length;
      while i != e
        invariant 0 <= i <= e == sendBuffer.Length
        invariant forall k :: 0 <= k < i ==> sendBuffer[k] == Low8(k)
      {
        sendBuffer[i] := Low8(i);
        i := i + 1;
      }
      assert forall k :: 0 <= k < e ==> sendBuffer[..][k] == SendBuffer()[k] by {
        forall k | 0 <= k < e ensures SendBuffer()[k] == Low8(0 + k) {
        }
      }
    }

    // ---------- recording ----------

    /** The whole application is told to stop, and the error replaces any earlier one. */
    method Abort(e: M.Error)
      modifies this`failure, this`exitRequested
      ensures exitRequested
      ensures State() == M.Abort(old(State()), e)
    {
      exitRequested := true;
      failure := Some(e);
    }

    method OnSignal(signal: M.SignalNumber)
      modifies this`failure, this`exitRequested, this`signalled
      ensures exitRequested
      ensures State() == M.OnSignal(old(State()), signal)
    {
      match signal {
        case SigInt => Abort(M.UserInterrupt);
        case SigTerm => Abort(M.ProgramTermination);
        case SigHup => Abort(M.UnknownSignal);
      }
      signalled := true;
    }

    method ShutdownSend()
      modifies this`shutdowns
      ensures State() == M.ShutdownSend(old(State()))
    {
      shutdowns := shutdowns + 1;
    }

    method OnFinish()
      modifies this`finishes, this`closedAfter
      ensures State() == M.OnFinish(old(State()))
    {
      finishes := finishes + 1;
      closedAfter := shutdowns;
    }

    // ---------- receiving ----------

    method OnReceiveComplete()
      modifies this`isReceiveComplete, this`receiveOp, this`finishes, this`closedAfter
      ensures State() == M.OnReceiveComplete(old(State()))
    {
      receiveOp := M.ReceiveFinished;
      isReceiveComplete := true;
      if isSendComplete {
        OnFinish();
      }
    }

    method AsyncReceive(slice: nat)
      requires Base() && ReceiveFree()
      modifies this`receiveOp, receiveThrottle`expiry, receiveThrottle.memory, receiveMemory
      ensures Base() && ReceiveLinked()
      ensures State() == M.AsyncReceive(old(State()), slice)
    {
      if slice == 0 {
        receiveThrottle.Delay();
        receiveOp := M.ReceiveThrottled;
      } else {
        receiveMemory.Allocate();
        receiveOp := M.ReceivePending(slice);
      }
    }

    method FinishReceive()
      requires Base() && ReceiveFree()
      modifies this`isReceiveComplete, this`receiveOp, this`shutdowns, this`finishes, this`closedAfter, receiveMemory
      ensures Base() && ReceiveLinked()
      ensures State() == M.FinishReceive(old(State()))
    {
      if config.protocol.Udp? {
        OnReceiveComplete();
      } else {
        if config.policy.ReceiveComplete? {
          ShutdownSend();
        }
        receiveMemory.Allocate();
        receiveOp := M.EofPending;
      }
    }

    method VerifyByte(offset: nat, expected: Byte)
      requires offset < receiveBuffer.Length
      modifies this`failure, this`exitRequested, this`mismatched
      ensures receiveBuffer[offset] == expected ==>
                failure == old(failure) && exitRequested == old(exitRequested) && mismatched == old(mismatched)
      ensures receiveBuffer[offset] != expected ==> failure == Some(M.DataMismatch) && exitRequested && mismatched
    {
      var actual := receiveBuffer[offset];
      if actual != expected {
        Abort(M.DataMismatch);
        mismatched := true;
      }
    }

    /** One of the first n bytes of the buffer is not the pattern at its stream position. */
    ghost predicate Differs(n: nat)
      requires n <= receiveBuffer.Length
      reads this`receivedBytesCount, receiveBuffer
    {
      exists k :: 0 <= k < n && DiffersAt(k)
    }

    ghost predicate DiffersAt(k: nat)
      requires k < receiveBuffer.Length
      reads this`receivedBytesCount, receiveBuffer
    {
      receiveBuffer[k] != Low8(receivedBytesCount + k)
    }

    /** The expected byte starts at the low byte of the count and wraps; what is checked is the absolute position. */
    method VerifyBytes(n: nat)
      requires n <= receiveBuffer.Length
      modifies this`failure, this`exitRequested, this`mismatched
      ensures if Differs(n) then failure == Some(M.DataMismatch) && exitRequested && mismatched
              else failure == old(failure) && exitRequested == old(exitRequested) && mismatched == old(mismatched)
    {
      var expected: Byte := Low8(receivedBytesCount);
      var i := 0;
      while i != n
        invariant 0 <= i <= n
        invariant expected == Low8(receivedBytesCount + i)
        invariant Differs(i) ==> failure == Some(M.DataMismatch) && exitRequested && mismatched
        invariant !Differs(i) ==>
                    failure == old(failure) && exitRequested == old(exitRequested) && mismatched == old(mismatched)
      {
        VerifyByte(i, expected);
        assert Differs(i + 1) <==> Differs(i) || DiffersAt(i);
        Low8Next(receivedBytesCount + i);
        expected := Low8(expected + 1);
        i := i + 1;
      }
    }

    method VerifyRead(n: nat)
      requires Base() && ExitAsked() && n <= BUFFER_SIZE
      modifies this`failure, this`exitRequested, this`mismatched
      ensures State() == M.VerifyRead(old(State()), receiveBuffer[..], n)
      ensures exitRequested <==> old(exitRequested) || failure.Some?
    {
      ghost var buffer := receiveBuffer[..];
      match config.verify
      case VerifyNone =>
      case VerifyFirst => VerifyByte(0, Low8(receivedBytesCount));
      case VerifyAll =>
        VerifyBytes(n);
        assert forall k :: 0 <= k < n ==> (DiffersAt(k) <==> buffer[k] != Low8(receivedBytesCount + k));
    }

    /** Counts a verified read, then goes on with the slice or ends the half. */
    method CountRead(n: nat)
      requires Base() && ReceiveFree() && receiveOp.ReceivePending?
      modifies this`receivedBytesCount, this`receiveOp, this`isReceiveComplete
      modifies this`shutdowns, this`finishes, this`closedAfter
      modifies receiveThrottle`expiry, receiveThrottle.memory, receiveMemory
      ensures Base() && ReceiveLinked()
      ensures State() == M.AfterRead(old(State()), n)
    {
      receivedBytesCount := receivedBytesCount + n;
      if receivedBytesCount < config.size {
        AsyncReceive(Sub64(receiveOp.slice, n));
      } else {
        FinishReceive();
      }
    }

    method FailRead(e: M.IoError)
      requires Base() && ReceiveFree() && ExitAsked()
      modifies this`failure, this`exitRequested, this`receiveOp
      ensures Base() && ReceiveLinked() && receiveOp == M.ReceiveStopped
      ensures if e == M.OperationAborted then failure == old(failure)
              else failure == Some(if e == M.EndOfFile then M.UnexpectedEof else M.Io(e))
      ensures exitRequested <==> old(exitRequested) || failure.Some?
    {
      if e != M.OperationAborted {
        Abort(if e == M.EndOfFile then M.UnexpectedEof else M.Io(e));
      }
      receiveOp := M.ReceiveStopped;
    }

    /** Completion of a read into the receive buffer, which holds what the kernel wrote. */
    method OnReceive(c: M.Completion)
      requires Valid() && receiveOp.ReceivePending?
      requires c.Transferred? ==> c.count <= Min(receiveOp.slice, BUFFER_SIZE)
      modifies this`failure, this`exitRequested, this`mismatched
      modifies this`receivedBytesCount, this`receiveOp, this`isReceiveComplete
      modifies this`shutdowns, this`finishes, this`closedAfter
      modifies receiveThrottle`expiry, receiveThrottle.memory, receiveMemory
      ensures Valid()
      ensures State() == M.OnReceive(old(State()), c, old(receiveBuffer[..]))
      ensures exitRequested <==> old(exitRequested) || failure.Some?
    {
      receiveMemory.Deallocate();
      match c
      case Failed(e) => FailRead(e);
      case Transferred(n) =>
        VerifyRead(n);
        CountRead(n);
    }

    /** Completion of the one-byte read that should meet the end of the stream. */
    method OnEof(c: M.Completion)
      requires Valid() && receiveOp.EofPending?
      modifies this`failure, this`exitRequested, this`receiveOp, this`isReceiveComplete
      modifies this`shutdowns, this`finishes, this`closedAfter, receiveMemory
      ensures Valid()
      ensures State() == M.OnEof(old(State()), c)
      ensures match c
              case Failed(EndOfFile) => failure == old(failure)
              case Failed(e) => failure == Some(M.Io(e))
              case Transferred(_) => failure == Some(M.UnexpectedData)
      ensures exitRequested <==> old(exitRequested) || failure.Some?
    {
      receiveMemory.Deallocate();
      if config.policy.WaitForPeer? {
        ShutdownSend();
      }
      match c
      case Failed(EndOfFile) => OnReceiveComplete();
      case Failed(e) =>
        Abort(M.Io(e));
        receiveOp := M.EofStopped;
      case Transferred(_) =>
        Abort(M.UnexpectedData);
        receiveOp := M.EofStopped;
    }

    // ---------- sending ----------

    method OnSendComplete()
      modifies this`isSendComplete, this`sendOp, this`finishes, this`closedAfter
      ensures State() == M.OnSendComplete(old(State()))
    {
      sendOp := M.SendFinished;
      isSendComplete := true;
      if isReceiveComplete {
        OnFinish();
      }
    }

    /**
     * `draw` is the datagram size that the generator yields; TCP does not use it. The chunk must lie
     * in the buffer: the source asserts it, and over TCP it always does.
     */
    method AsyncSend(slice: nat, draw: nat)
      requires Base() && SendFree()
      requires slice > 0 ==> M.InBuffer(M.SendRequest(config, sentBytesCount, slice, draw))
      modifies this`sendOp, this`lateSends, sendThrottle`expiry, sendThrottle.memory, sendMemory
      ensures Base() && SendLinked()
      ensures State() == M.AsyncSend(old(State()), slice, draw)
    {
      if slice == 0 {
        sendThrottle.Delay();
        sendOp := M.SendThrottled;
      } else {
        var remaining := Sub64(config.size, sentBytesCount);
        var clamped := Min(slice, remaining);
        var offset := Low8(sentBytesCount);
        var length: nat;
        if config.protocol.Tcp? {
          length := Min(clamped, BUFFER_SIZE - offset);
        } else {
          length := Min(clamped, draw);
          assert length <= BUFFER_SIZE - offset;
        }
        sendMemory.Allocate();
        sendOp := M.SendPending(clamped, offset, length);
        lateSends := if shutdowns > 0 then lateSends + 1 else lateSends;
      }
    }

    method FinishSend()
      requires Base() && SendFree()
      modifies this`isSendComplete, this`sendOp, this`shutdowns, this`finishes, this`closedAfter
      ensures Base() && SendLinked()
      ensures State() == M.FinishSend(old(State()))
    {
      if config.protocol.Tcp? && config.policy.SendComplete? {
        ShutdownSend();
      }
      OnSendComplete();
    }

    method FailSend(e: M.IoError)
      requires Base() && SendFree() && ExitAsked()
      modifies this`failure, this`exitRequested, this`sendOp
      ensures Base() && SendLinked() && sendOp == M.SendStopped
      ensures failure == if e == M.OperationAborted then old(failure) else Some(M.Io(e))
      ensures exitRequested <==> old(exitRequested) || failure.Some?
    {
      if e != M.OperationAborted {
        Abort(M.Io(e));
      }
      sendOp := M.SendStopped;
    }

    /** Counts a send, then goes on with the slice or ends the half. */
    method CountSend(n: nat, draw: nat)
      requires Base() && SendFree() && sendOp.SendPending?
      requires M.InBuffer(M.AfterSend(State(), n, draw).tx.op)
      modifies this`sentBytesCount, this`sendOp, this`isSendComplete, this`lateSends
      modifies this`shutdowns, this`finishes, this`closedAfter
      modifies sendThrottle`expiry, sendThrottle.memory, sendMemory
      ensures Base() && SendLinked()
      ensures State() == M.AfterSend(old(State()), n, draw)
    {
      sentBytesCount := sentBytesCount + n;
      if sentBytesCount < config.size {
        AsyncSend(Sub64(sendOp.slice, n), draw);
      } else {
        FinishSend();
      }
    }

    method OnSend(c: M.Completion, draw: nat)
      requires Valid() && sendOp.SendPending?
      requires M.InBuffer(M.OnSend(State(), c, draw).tx.op)
      modifies this`failure, this`exitRequested
      modifies this`sentBytesCount, this`sendOp, this`isSendComplete, this`lateSends
      modifies this`shutdowns, this`finishes, this`closedAfter
      modifies sendThrottle`expiry, sendThrottle.memory, sendMemory
      ensures Valid()
      ensures State() == M.OnSend(old(State()), c, draw)
      ensures exitRequested <==> old(exitRequested) || failure.Some?
    {
      sendMemory.Deallocate();
      match c
      case Failed(e) => FailSend(e);
      case Transferred(n) => CountSend(n, draw);
    }

    /** The bytes that the kernel copies for a pending send are the pattern at the sent count. */
    method Outgoing(n: nat) returns (chunk: seq<Byte>)
      requires Valid() && Filled() && Inv(State()) && sendOp.SendPending? && n <= sendOp.length
      ensures |chunk| == n && IsStream(chunk, sentBytesCount)
    {
      ChunkIsStream(sentBytesCount, n);
      chunk := sendBuffer[sendOp.offset..sendOp.offset + n];
    }

    // ---------- starting and pacing ----------

    method StartReceiving(now: int)
      requires Base() && ReceiveFree() && SendFree() && ExitAsked()
      modifies this`receiveOp, this`receiveStart, this`isReceiveComplete
      modifies this`shutdowns, this`finishes, this`closedAfter
      modifies receiveThrottle, receiveThrottle.memory, receiveMemory
      ensures Base() && ReceiveLinked() && SendFree() && ExitAsked()
      ensures State() == M.StartReceiving(old(State()), now)
      ensures !config.direction.Tx? ==> receiveThrottle.nextSliceStart == now
    {
      if config.direction.Tx? {
        FinishReceive();
      } else {
        receiveThrottle.Reset(now);
        receiveStart := now;
        AsyncReceive(0);
      }
    }

    method StartSending(now: int, draw: nat)
      requires Base() && SendFree() && ReceiveLinked() && ExitAsked()
      modifies this`sendOp, this`sendStart, this`isSendComplete, this`lateSends
      modifies this`shutdowns, this`finishes, this`closedAfter
      modifies sendThrottle, sendThrottle.memory, sendMemory
      ensures Valid()
      ensures State() == M.StartSending(old(State()), now, draw)
      ensures !config.direction.Rx? ==> sendThrottle.nextSliceStart == now
    {
      if config.direction.Rx? {
        FinishSend();
      } else {
        sendThrottle.Reset(now);
        sendStart := now;
        AsyncSend(0, draw);
      }
    }

    method StartTransfer(now: int, later: int, draw: nat)
      requires Valid() && sendOp.SendIdle? && receiveOp.ReceiveIdle?
      modifies this`started, this`clock, this`sendOp, this`sendStart, this`isSendComplete, this`lateSends
      modifies this`receiveOp, this`receiveStart, this`isReceiveComplete
      modifies this`shutdowns, this`finishes, this`closedAfter
      modifies sendThrottle, receiveThrottle
      modifies sendMemory, receiveMemory, sendThrottle.memory, receiveThrottle.memory
      ensures Valid()
      ensures State() == M.StartTransfer(old(State()), now, later, draw)
      ensures !config.direction.Tx? ==> receiveThrottle.nextSliceStart == now
      ensures !config.direction.Rx? ==> sendThrottle.nextSliceStart == later
    {
      started, clock := true, later;
      ghost var s0 := State();
      StartReceiving(now);
      ghost var s1 := State();
      assert s1 == M.StartReceiving(s0, now);
      StartSending(later, draw);
      assert State() == M.StartSending(s1, later, draw);
    }

    method OnSendSlice(now: int, draw: nat)
      requires Valid() && sendOp.SendThrottled? && sendThrottle.nextSliceStart <= now
      requires M.InBuffer(M.OnSendSlice(State(), draw).tx.op)
      modifies this`sendOp, this`lateSends, this`sendGrants, sendThrottle, sendThrottle.memory, sendMemory
      ensures Valid()
      ensures State() == M.OnSendSlice(old(State()), draw)
    {
      var slice := sendThrottle.Fire(now);
      sendGrants := sendGrants + 1;
      AsyncSend(slice, draw);
    }

    method OnReceiveSlice(now: int)
      requires Valid() && receiveOp.ReceiveThrottled? && receiveThrottle.nextSliceStart <= now
      modifies this`receiveOp, this`receiveGrants, receiveThrottle, receiveThrottle.memory, receiveMemory
      ensures Valid()
      ensures State() == M.OnReceiveSlice(old(State()))
    {
      var slice := receiveThrottle.Fire(now);
      receiveGrants := receiveGrants + 1;
      AsyncReceive(slice);
    }

    /** The handlers that transfer data. */
    method HandleTransfer(now: int, e: M.Event)
      requires Valid() && M.Enabled(State(), now, e)
      requires e.SendDone? || e.ReceiveDone? || e.EofDone?
      requires e.ReceiveDone? ==> e.buffer == receiveBuffer[..]
      requires M.InBuffer(M.Step(State(), now, e).tx.op)
      modifies this, sendThrottle, receiveThrottle, Memories()
      ensures Valid()
      ensures State() == M.Step(old(State()), now, e)
      ensures exitRequested <==> old(exitRequested) || failure.Some?
    {
      clock := now;
      match e
      case SendDone(c, draw) => OnSend(c, draw);
      case ReceiveDone(c, buffer) => OnReceive(c);
      case EofDone(c) => OnEof(c);
    }

    /** The handlers that start the transfer, grant a slice or fail the session. */
    method HandleOther(now: int, e: M.Event)
      requires Valid() && Inv(State()) && M.Enabled(State(), now, e)
      requires !e.SendDone? && !e.ReceiveDone? && !e.EofDone?
      requires M.InBuffer(M.Step(State(), now, e).tx.op)
      modifies this, sendThrottle, receiveThrottle, Memories()
      ensures Valid()
      ensures State() == M.Step(old(State()), now, e)
      ensures exitRequested <==> old(exitRequested) || failure.Some?
    {
      clock := now;
      match e
      case Connected(later, draw) => StartTransfer(now, later, draw);
      case SendSliceStart(draw) => OnSendSlice(now, draw);
      case ReceiveSliceStart => OnReceiveSlice(now);
      case Timeout => Abort(M.TestTimeout);
      case Signal(signal) => OnSignal(signal);
    }

    /**
     * What the io_service does with the session, again and again: any enabled completion runs its
     * handler, which takes exactly the step of the model and leaves the object fit for the next one;
     * so every run of the object is a run of the model. The one demand is the source's own assertion
     * on a send that the handler starts.
     */
    method PollOne(now: int, e: M.Event)
      requires Valid() && Inv(State()) && M.Enabled(State(), now, e)
      requires e.ReceiveDone? ==> e.buffer == receiveBuffer[..]
      requires M.InBuffer(M.Step(State(), now, e).tx.op)
      modifies this, sendThrottle, receiveThrottle, Memories()
      ensures Valid() && Inv(State())
      ensures State() == M.Step(old(State()), now, e)
      ensures exitRequested <==> old(exitRequested) || failure.Some?
    {
      StepKeeps(State(), now, e);
      if e.SendDone? || e.ReceiveDone? || e.EofDone? {
        HandleTransfer(now, e);
      } else {
        HandleOther(now, e);
      }
    }
  }
}
