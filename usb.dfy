/** The USB layer the flasher talks to, reduced to what it observes: a device
    that answers the i-th control transfer with the i-th of a fixed list of
    replies and keeps a log of every request issued, and a clock that records
    the pauses asked of it. gousb's context, device opening and configuration
    are not part of this model. */
module Usb {
  import opened Base

  /** A transport failure reported by the USB layer. */
  datatype UsbError = UsbError(code: int)

  /** One control transfer: `Control(rType, request, val, idx, data)`. */
  datatype Request = Request(requestType: int, request: int, value: int, index: int, data: seq<byte>)

  /** What the device answers to one transfer: the byte count `Control`
      returns, the bytes an IN transfer delivers, and the error, if any. */
  datatype Reply = Reply(count: int, received: seq<byte>, err: Option<UsbError>)

  /** Once its replies are used up the device behaves as gone. */
  const NoDevice: Reply := Reply(0, [], Some(UsbError(-4)))

  /** The answer to transfer number i (counting from 0) of a device that
      answers with `replies`. */
  function ReplyAt(replies: seq<Reply>, i: nat): Reply
  {
    if i < |replies| then replies[i] else NoDevice
  }

  /** The buffer `buf` after a transfer: an IN transfer (direction bit 0x80 of
      the request type) has the received bytes written over its front; an OUT
      transfer leaves it alone. */
  function BufferAfter(requestType: int, buf: seq<byte>, received: seq<byte>): (r: seq<byte>)
    ensures |r| == |buf|
  {
    if requestType < 0x80 then buf
    else if |received| >= |buf| then received[..|buf|]
    else received + buf[|received|..]
  }

  /** The buffer keeps its length; an OUT transfer leaves it as it was, an IN
      transfer holds the received bytes where they arrived and the old bytes
      after them. */
  lemma {:induction false} BufferAfterEffect(requestType: int, buf: seq<byte>, received: seq<byte>)
    ensures requestType < 0x80 ==> BufferAfter(requestType, buf, received) == buf
    ensures requestType >= 0x80 ==> forall i :: 0 <= i < |buf| ==>
      BufferAfter(requestType, buf, received)[i] == (if i < |received| then received[i] else buf[i])
  {
  }

  class Device {
    /** The answers the device gives, in order. */
    const replies: seq<Reply>
    /** Every request issued so far, in order; the next one is answered
        with `ReplyAt(replies, |issued|)`. */
    var issued: seq<Request>

    constructor (replies: seq<Reply>)
      ensures this.replies == replies && issued == []
    {
      this.replies := replies;
      issued := [];
    }

    /** gousb's `Device.Control`: returns the byte count and the error of the
        reply to this transfer, and the buffer as the transfer leaves it. */
    method Control(requestType: int, request: int, value: int, index: int, buf: seq<byte>)
      returns (count: int, err: Option<UsbError>, bufAfter: seq<byte>)
      modifies this
      ensures issued == old(issued) + [Request(requestType, request, value, index, buf)]
      ensures count == ReplyAt(replies, |old(issued)|).count && err == ReplyAt(replies, |old(issued)|).err
      ensures bufAfter == BufferAfter(requestType, buf, ReplyAt(replies, |old(issued)|).received)
    {
      var reply := ReplyAt(replies, |issued|);
      issued := issued + [Request(requestType, request, value, index, buf)];
      count, err := reply.count, reply.err;
      bufAfter := BufferAfter(requestType, buf, reply.received);
    }
  }

  /** `time.Sleep`: the durations asked for, in milliseconds. */
  class Clock {
    var slept: seq<int>

    constructor ()
      ensures slept == []
    {
      slept := [];
    }

    method Sleep(ms: int)
      modifies this
      ensures slept == old(slept) + [ms]
    {
      slept := slept + [ms];
    }
  }
}
