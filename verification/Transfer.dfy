/** prepare_and_submit_transfer and complete_transfer of main/usb_backend.c: the lengths and copies
    of one transfer between a caller's buffers and the host controller's. */
module Transfer {
  import opened Bytes

  const EIO := 5
  const ENOMEM := 12
  const ENODEV := 19
  const EPIPE := 32
  const ECONNRESET := 104
  const ETIMEDOUT := 116
  const EMSGSIZE := 122
  const SETUP: nat := 8

  datatype UsbStatus = Completed | Failed | TimedOut | Cancelled | Stalled | Overflowed | Skipped | NoDevice

  /** map_transfer_status_to_errno */
  function Errno(status: UsbStatus): (e: int)
    ensures e <= 0 && (e == 0 <==> status.Completed?)
    ensures e in {0, -116, -104, -32, -19, -5}
    ensures (e == -116 <==> status.TimedOut?) && (e == -104 <==> status.Cancelled?)
    ensures (e == -32 <==> status.Stalled?) && (e == -19 <==> status.NoDevice?)
  {
    match status
    case Completed => 0
    case TimedOut => -ETIMEDOUT
    case Cancelled => -ECONNRESET
    case Stalled => -EPIPE
    case NoDevice => -ENODEV
    case _ => -EIO
  }

  /** How much is asked of the hardware: a control transfer has its setup packet in front, an IN
      transfer is rounded up to whole packets. */
  function TransferLength(control: bool, isIn: bool, payload: nat, mps: nat): (n: nat)
    ensures n >= payload && (control ==> n == payload + 8) && (!control && !isIn ==> n == payload)
    ensures !control && isIn ==> n < payload + if mps > 0 then mps else 1
  {
    if control then SETUP + payload
    else if isIn && payload > 0 && mps > 0 && payload % mps != 0 then
      RoundedUp(payload, mps);
      ((payload + mps - 1) / mps) * mps
    else payload
  }

  lemma LongEnough(control: bool, isIn: bool, payload: nat, mps: nat)
    ensures var n := TransferLength(control, isIn, payload, mps); var need := payload + if control then SETUP else 0;
      n >= need && (!isIn ==> n == need)
  {}

  lemma RoundedUp(n: nat, mps: nat)
    requires mps > 0
    ensures var q := (n + mps - 1) / mps; n <= q * mps < n + mps && q * mps >= 0
  {
    var q := (n + mps - 1) / mps;
    assert n + mps - 1 == q * mps + (n + mps - 1) % mps;
  }

  /** An IN transfer asks for the least whole number of packets that holds what was requested. */
  lemma LeastMultiple(payload: nat, mps: nat, q: nat)
    requires mps > 0 && q * mps >= payload
    ensures var n := TransferLength(false, true, payload, mps);
      n % mps == 0 && payload <= n <= q * mps
  {
    var n := TransferLength(false, true, payload, mps);
    if payload % mps != 0 {
      var k := (payload + mps - 1) / mps;
      RoundedUp(payload, mps);
      MultipleOf(k, mps);
      if q < k {
        ScaleBelow(q, k, mps);
      } else {
        Scale(k, q, mps);
      }
    }
  }

  lemma Scale(a: nat, b: nat, m: nat)
    requires a <= b
    ensures a * m <= b * m
  {}

  lemma ScaleBelow(a: nat, b: nat, m: nat)
    requires a < b
    ensures a * m + m <= b * m
  {
    Scale(a + 1, b, m);
    assert (a + 1) * m == a * m + m;
  }

  lemma {:induction false} MultipleOf(k: nat, m: nat)
    requires m > 0
    ensures (k * m) % m == 0
  {
    if k > 0 {
      MultipleOf(k - 1, m);
      assert k * m == (k - 1) * m + m;
      Wrap((k - 1) * m, m);
    }
  }

  lemma Wrap(x: nat, m: nat)
    requires m > 0 && x % m == 0
    ensures (x + m) % m == 0
  {
    var q := x / m;
    assert x == q * m;
    assert x + m == (q + 1) * m + 0;
    Unique(x + m, m, q + 1, 0);
  }

  lemma Unique(x: nat, m: nat, q: nat, r: nat)
    requires m > 0 && r < m && x == q * m + r
    ensures x % m == r
  {
    var q', r' := x / m, x % m;
    assert x == q' * m + r';
    if q < q' { ScaleBelow(q, q', m); }
    if q' < q { ScaleBelow(q', q, m); }
  }

  /** usb_transfer_t */
  class UsbTransfer {
    const address: Byte      // bEndpointAddress
    const buffer: array<Byte>
    const numBytes: nat
    var actual: nat
    var status: UsbStatus

    constructor (address: Byte, size: nat)
      ensures this.address == address && buffer.Length == size && numBytes == size && fresh(buffer)
    {
      this.address := address;
      buffer := new Byte[size];
      numBytes := size;
      actual, status := 0, Failed;
    }

    /** The hardware runs the transfer: it writes to the buffer, never counts more bytes than it
        was given, and ends in some status. */
    method Run()
      requires buffer.Length == numBytes
      modifies this, buffer
      ensures actual <= numBytes
    {
      var n: nat :| n <= numBytes;
      var s: UsbStatus :| true;
      var i := 0;
      while i < buffer.Length
        modifies buffer
      {
        var b: Byte :| true;
        buffer[i] := b;
        i := i + 1;
      }
      actual, status := n, s;
    }
  }

  /** What the device table says about the transfer's device. */
  datatype Lookup = Missing | Found(mps: nat, claimed: bool)

  datatype Submitted = Accepted | InvalidState | OtherError

  /** What a submission that the library refuses is answered with. */
  function Refusal(submit: Submitted): (e: int)
    ensures -EMSGSIZE < e <= 0 && (e == 0 <==> submit.Accepted?)
  {
    match submit case Accepted => 0 case InvalidState => -ENODEV case OtherError => -EIO
  }

  /** The part of a pipe slot that describes one transfer. */
  class Pipe {
    const endpointAddr: Byte
    const setup: seq<Byte>
    const outData: array?<Byte>
    const outLen: nat
    const inData: array?<Byte>
    const inCapacity: nat
    var inLen: nat          // the caller's *in_len
    var isControl: bool
    var isIn: bool
    var payloadLen: nat
    var completed: bool
    var xfer: UsbTransfer?

    /** What a caller must have given: buffers as long as it says they are. */
    predicate Filled() {
      && |setup| == SETUP
      && (outData != null ==> outLen <= outData.Length)
      && (inData != null ==> inCapacity <= inData.Length)
    }

    constructor (endpointAddr: Byte, setup: seq<Byte>, outData: array?<Byte>, outLen: nat,
                 inData: array?<Byte>, inCapacity: nat)
      ensures this.endpointAddr == endpointAddr && this.setup == setup
      ensures this.outData == outData && this.outLen == outLen
      ensures this.inData == inData && this.inCapacity == inCapacity && inLen == 0 && xfer == null
    {
      this.endpointAddr, this.setup := endpointAddr, setup;
      this.outData, this.outLen := outData, outLen;
      this.inData, this.inCapacity := inData, inCapacity;
      inLen, isControl, isIn, payloadLen, completed, xfer := 0, false, false, 0, false, null;
    }

    function Control(): bool { endpointAddr == 0 }

    function In(): bool
      requires |setup| == SETUP
    {
      if Control() then setup[0] >= 0x80 else endpointAddr >= 0x80
    }

    function Payload(): nat
      requires |setup| == SETUP
    {
      if In() then inCapacity else outLen
    }

    /** Where the data starts in the transfer's buffer. */
    function DataAt(): nat { if Control() then SETUP else 0 }

    /** The fields that prepare_and_submit_transfer works out, and the transfer it made. */
    ghost predicate Prepared()
      reads this
    {
      && Filled() && isControl == Control() && isIn == In() && payloadLen == Payload()
      && xfer != null && xfer.buffer.Length == xfer.numBytes >= DataAt() + payloadLen
      && xfer.buffer != inData && xfer.buffer != outData
    }

    method LengthFor(dev: Lookup) returns (xferLen: nat)
      ensures dev.Found? ==> xferLen == TransferLength(isControl, isIn, payloadLen, dev.mps)
    {
      xferLen := if isControl then SETUP + payloadLen else payloadLen;
      if !isControl && isIn && payloadLen > 0 && dev.Found? {
        if dev.mps > 0 && xferLen % dev.mps != 0 {
          RoundedUp(xferLen, dev.mps);
          xferLen := ((xferLen + dev.mps - 1) / dev.mps) * dev.mps;
        }
      }
    }

    /** The setup packet and the OUT data, copied into a transfer's buffer. */
    method CopyOut(buffer: array<Byte>)
      requires Filled() && isControl == Control() && isIn == In() && buffer != outData
      requires buffer.Length >= DataAt() + Payload()
      requires !In() ==> buffer.Length == DataAt() + outLen
      modifies buffer
      ensures Control() ==> buffer[..SETUP] == setup
      ensures !In() && outData != null ==> buffer[DataAt()..] == outData[..outLen]
    {
      if isControl {
        forall k | 0 <= k < SETUP { buffer[k] := setup[k]; }
        if !isIn && outLen > 0 && outData != null {
          forall k | 0 <= k < outLen { buffer[SETUP + k] := outData[k]; }
        }
      } else if !isIn && outLen > 0 && outData != null {
        forall k | 0 <= k < outLen { buffer[k] := outData[k]; }
      }
    }

    /** prepare_and_submit_transfer: 0 when a transfer is in flight, or what was wrong. */
    method Prepare(dev: Lookup, maxTransfer: nat, memory: bool, submit: Submitted) returns (status: int)
      requires Filled()
      modifies this
      ensures inLen == 0 && -EMSGSIZE <= status <= 0
      ensures dev.Found? && !Control() && !dev.claimed ==> status == -EIO
      ensures status == 0 <==>
        dev.Found? && (Control() || dev.claimed) && Payload() <= maxTransfer && memory && submit.Accepted?
      ensures status == -EMSGSIZE <==> dev.Found? && (Control() || dev.claimed) && Payload() > maxTransfer
      ensures dev.Missing? ==> status == -ENODEV
      ensures dev.Found? && (Control() || dev.claimed) && Payload() <= maxTransfer ==>
        status == if !memory then -ENOMEM else Refusal(submit)
      ensures status == 0 ==> Prepared() && fresh(xfer) && fresh(xfer.buffer) && !completed
      ensures status == 0 ==> xfer.address == endpointAddr
      ensures status == 0 ==> xfer.numBytes == TransferLength(Control(), In(), Payload(), dev.mps)
      ensures status == 0 && Control() ==> xfer.buffer[..SETUP] == setup
      ensures status == 0 && !In() && outData != null ==>
                xfer.buffer[DataAt()..] == outData[..outLen]
      ensures status != 0 ==> xfer == old(xfer)
    {
      hide TransferLength;
      LongEnough(Control(), In(), Payload(), if dev.Found? then dev.mps else 0);
      inLen := 0;
      isControl := endpointAddr == 0;
      isIn := if isControl then setup[0] >= 0x80 else endpointAddr >= 0x80;
      if dev.Found? && !isControl && !dev.claimed { return -EIO; }
      payloadLen := if isIn then inCapacity else outLen;
      var xferLen := LengthFor(dev);
      if dev.Missing? { return -ENODEV; }
      if payloadLen > maxTransfer { return -EMSGSIZE; }
      if !memory { return -ENOMEM; }
      var t := new UsbTransfer(endpointAddr, xferLen);
      CopyOut(t.buffer);
      if submit != Accepted { return Refusal(submit); }
      xfer := t;
      completed := false;
      return 0;
    }

    /** How many bytes of data came in. */
    function Received(actual: nat): (n: nat)
      requires |setup| == SETUP
      ensures n <= actual && (Control() ==> n == 0 || n + 8 == actual) && (Control() && actual > 8 ==> n > 0)
      ensures !Control() ==> n <= Payload() && (n == actual || n == Payload())
    {
      if Control() then if actual > SETUP then actual - SETUP else 0
      else if actual > Payload() then Payload() else actual
    }

    /** How many of them the caller gets. */
    function Copied(actual: nat): (n: nat)
      requires |setup| == SETUP
      ensures n <= inCapacity && n <= Received(actual) && (n == inCapacity || n == Received(actual))
    {
      if Received(actual) > inCapacity then inCapacity else Received(actual)
    }

    /** complete_transfer: the copy stays within both buffers and within what was asked for. */
    method Complete() returns (status: int)
      requires Prepared() && xfer.actual <= xfer.numBytes
      modifies this`inLen, this`xfer, if inData == null then {} else {inData}
      ensures xfer == null
      ensures status == if completed then Errno(old(xfer.status)) else -ETIMEDOUT
      ensures var copies := status == 0 && In() && inData != null && inCapacity > 0;
        && inLen == (if copies then Copied(old(xfer.actual)) else 0)
        && (!copies && inData != null ==> inData[..] == old(if inData == null then [] else inData[..]))
        && (copies ==> inData[..] == old(xfer.buffer[DataAt()..])[..inLen] + old(inData[..])[inLen..])
    {
      var t := xfer;
      if completed {
        status := Errno(t.status);
      } else {
        status := -ETIMEDOUT;
      }
      if status == 0 && isIn && inData != null && inCapacity > 0 {
        var bytes: nat;
        if isControl {
          bytes := if t.actual > SETUP then t.actual - SETUP else 0;
        } else {
          bytes := t.actual;
          if bytes > payloadLen { bytes := payloadLen; }
        }
        var copyLen: nat := if bytes > inCapacity then inCapacity else bytes;
        var src: nat := if isControl then SETUP else 0;
        forall k | 0 <= k < copyLen { inData[k] := t.buffer[src + k]; }
        inLen := copyLen;
      } else {
        inLen := 0;
      }
      xfer := null;
    }
  }
}
