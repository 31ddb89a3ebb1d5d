/** The DfuSe requests the flasher sends and the status poller
    (modules/dfu/flasher.go:13-23, 93-161). Requests follow section 6 of the USB
    Device Firmware Upgrade 1.1 specification (DFU_DNLOAD = 1,
    DFU_GETSTATUS = 3, DFU_CLRSTATUS = 4) and the STM32 DfuSe command set of ST
    application note AN3156 (0x21 set address, 0x41 erase). */
module Protocol {
  import opened Base
  import opened Usb

  /** bmRequestType of class requests to the interface, host to device and back. */
  const RequestOut: int := 33
  const RequestIn: int := 161

  const DfuDnload: int := 1
  const DfuGetStatus: int := 3
  const DfuClrStatus: int := 4

  /** The `command` argument of `dfuCommand`. */
  const SetAddress: int := 0
  const EraseAddress: int := 1
  const EraseFlash: int := 2

  const StatusLength: nat := 6

  /** The fields of `FlashState` that a DFU_GETSTATUS reply sets. */
  datatype Snapshot = Snapshot(bStatus: seq<byte>, bwPollTimeout: int, bState: seq<byte>, iString: seq<byte>)

  /** The fields of `FlashState` that only the session sets. */
  datatype Progress = Progress(step: int, total: int, sent: int, complete: bool, error: Option<string>)

  /** The session's progress record; the status poller writes its status
      fields through a `*FlashState`, the session its progress fields. */
  class FlashState {
    var step: int
    var total: int
    var sent: int
    var bStatus: seq<byte>
    var bwPollTimeout: int
    var bState: seq<byte>
    var iString: seq<byte>
    var complete: bool
    var error: Option<string>

    /** `FlashState{}`: Go's zero values. */
    constructor ()
      ensures Status() == Snapshot([], 0, [], [])
      ensures ProgressOf() == Progress(0, 0, 0, false, None)
    {
      step, total, sent := 0, 0, 0;
      bStatus, bwPollTimeout, bState, iString := [], 0, [], [];
      complete, error := false, None;
    }

    function Status(): Snapshot
      reads this
    {
      Snapshot(bStatus, bwPollTimeout, bState, iString)
    }

    function ProgressOf(): Progress
      reads this
    {
      Progress(step, total, sent, complete, error)
    }
  }

  // ---------------------------------------------------------------------------
  // Request payloads.

  /** The low 32 bits of an `int`, the only bits of `addr` that `dfuCommand`
      puts on the wire. */
  function Word(addr: int): int
  {
    addr % 0x1_0000_0000
  }

  /** The four address bytes `dfuCommand` sends: `byte(addr & 0xff)`,
      `byte((addr >> 8) & 0xff)`, `byte((addr >> 16) & 0xff)`,
      `byte((addr >> 24) & 0xff)`. Go's `>>` on a signed integer is an
      arithmetic shift, which is Dafny's (flooring) division by a power of two,
      and `& 0xff` is then the remainder modulo 256. */
  function AddressBytes(addr: int): (b: seq<byte>)
    ensures |b| == 4
  {
    [ByteOf(addr % 0x100), ByteOf((addr / 0x100) % 0x100),
     ByteOf((addr / 0x1_0000) % 0x100), ByteOf((addr / 0x100_0000) % 0x100)]
  }

  /** The number four bytes stand for, lowest byte first. */
  function LittleEndian32(b: seq<byte>): int
    requires |b| == 4
  {
    b[0] as int + 0x100 * b[1] as int + 0x1_0000 * b[2] as int + 0x100_0000 * b[3] as int
  }

  /** The low 32 bits of x, as four base-256 digits. */
  lemma {:induction false} Digits(x: int)
    ensures Word(x) ==
      x % 0x100 + 0x100 * ((x / 0x100) % 0x100) + 0x1_0000 * ((x / 0x1_0000) % 0x100) +
      0x100_0000 * ((x / 0x100_0000) % 0x100)
  {
    var q1, q2, q3 := x / 0x100, x / 0x1_0000, x / 0x100_0000;
    assert q2 == q1 / 0x100;
    assert q3 == q2 / 0x100;
    assert x == 0x100_0000 * q3 + 0x1_0000 * (q2 % 0x100) + 0x100 * (q1 % 0x100) + x % 0x100;
  }

  /** The four address bytes are `addr` little-endian: they decode back to the
      low 32 bits of `addr`. */
  lemma {:induction false} AddressBytesDecode(addr: int)
    ensures LittleEndian32(AddressBytes(addr)) == Word(addr)
  {
    Digits(addr);
  }

  /** The buffer `dfuCommand` sends for `command`; any other command sends none. */
  function CommandPayload(addr: int, command: int): (buf: seq<byte>)
  {
    if command == SetAddress then [0x21] + AddressBytes(addr)
    else if command == EraseAddress then [0x41] + AddressBytes(addr)
    else if command == EraseFlash then [0x41]
    else []
  }

  /** Set-address and erase-address are five bytes, 0x21 or 0x41 then the
      low 32 bits of the address little-endian; a full erase is the single byte
      0x41; any other command sends no data. */
  lemma {:induction false} CommandPayloadLayout(addr: int, command: int)
    ensures command == SetAddress ==>
      |CommandPayload(addr, command)| == 5 && CommandPayload(addr, command)[0] == 0x21 &&
      LittleEndian32(CommandPayload(addr, command)[1..]) == Word(addr)
    ensures command == EraseAddress ==>
      |CommandPayload(addr, command)| == 5 && CommandPayload(addr, command)[0] == 0x41 &&
      LittleEndian32(CommandPayload(addr, command)[1..]) == Word(addr)
    ensures command == EraseFlash ==> CommandPayload(addr, command) == [0x41]
    ensures command !in {SetAddress, EraseAddress, EraseFlash} ==> CommandPayload(addr, command) == []
  {
    AddressBytesDecode(addr);
    assert ([0x21] + AddressBytes(addr))[1..] == AddressBytes(addr);
    assert ([0x41] + AddressBytes(addr))[1..] == AddressBytes(addr);
  }

  // ---------------------------------------------------------------------------
  // DFU_GETSTATUS replies.

  /** The six zero bytes `dfuGetStatus` hands to the transfer. */
  const EmptyStatus: seq<byte> := [0, 0, 0, 0, 0, 0]

  const StatusRequest: Request := Request(RequestIn, DfuGetStatus, 0, 0, EmptyStatus)

  /** `int((0xff & buf[3] << 16) | (0xff & buf[2]) | 0xff&buf[1])`: every operand
      is a `byte`, so the shift by 16 leaves 0. */
  function PollTimeout(buf: seq<byte>): int
    requires |buf| == StatusLength
  {
    (ShiftLeft(0xff & buf[3], 16) | (0xff & buf[2]) | (0xff & buf[1])) as int
  }

  /** The poll timeout is buf[1] | buf[2]: at most 0xff, and no smaller than
      either byte. */
  lemma {:induction false} PollTimeoutValue(buf: seq<byte>)
    requires |buf| == StatusLength
    ensures PollTimeout(buf) == (buf[1] | buf[2]) as int
    ensures buf[1] as int <= PollTimeout(buf) <= 0xff && buf[2] as int <= PollTimeout(buf)
  {
  }

  /** The effect of one `dfuGetStatus` on the status fields, given the reply. */
  function ApplyStatus(s: Snapshot, r: Reply): Snapshot
  {
    if r.err.Some? then s
    else if r.count == StatusLength then
      var buf := BufferAfter(RequestIn, EmptyStatus, r.received);
      Snapshot(RuneString(buf[0]), PollTimeout(buf), RuneString(buf[4]), RuneString(buf[5]))
    else s
  }

  /** A reply changes nothing on an error or a short read; a full six-byte
      reply sets the status, state and string index from bytes 0, 4 and 5 and
      the poll timeout from bytes 1 and 2, which keeps it within a byte. */
  lemma {:induction false} ApplyStatusEffect(s: Snapshot, r: Reply)
    ensures r.err.Some? || r.count != StatusLength ==> ApplyStatus(s, r) == s
    ensures r.err.None? && r.count == StatusLength && |r.received| >= StatusLength ==>
      ApplyStatus(s, r).bwPollTimeout == (r.received[1] | r.received[2]) as int &&
      ApplyStatus(s, r).bStatus == RuneString(r.received[0]) &&
      ApplyStatus(s, r).bState == RuneString(r.received[4]) &&
      ApplyStatus(s, r).iString == RuneString(r.received[5])
    ensures 0 <= s.bwPollTimeout <= 0xff ==> 0 <= ApplyStatus(s, r).bwPollTimeout <= 0xff
  {
    if r.err.None? && r.count == StatusLength {
      var buf := BufferAfter(RequestIn, EmptyStatus, r.received);
      PollTimeoutValue(buf);
      if |r.received| >= StatusLength {
        assert buf == r.received[..StatusLength];
      }
    }
  }

  /** The status after the n replies from number `from` on, the last one
      applied last. */
  function Polled(s: Snapshot, replies: seq<Reply>, from: nat, n: nat): Snapshot
  {
    if n == 0 then s else ApplyStatus(Polled(s, replies, from, n - 1), ReplyAt(replies, from + n - 1))
  }

  /** However many replies arrive, the poll timeout stays within a byte. */
  lemma {:induction false} PolledBounded(s: Snapshot, replies: seq<Reply>, from: nat, n: nat)
    requires 0 <= s.bwPollTimeout <= 0xff
    ensures 0 <= Polled(s, replies, from, n).bwPollTimeout <= 0xff
    decreases n
  {
    if n > 0 {
      PolledBounded(s, replies, from, n - 1);
      ApplyStatusEffect(Polled(s, replies, from, n - 1), ReplyAt(replies, from + n - 1));
    }
  }

  /** The pause after each of n polls: the poll timeout as that poll left it. */
  function PollSleeps(s: Snapshot, replies: seq<Reply>, from: nat, n: nat): (ms: seq<int>)
    ensures |ms| == n
  {
    if n == 0 then [] else PollSleeps(s, replies, from, n - 1) + [Polled(s, replies, from, n).bwPollTimeout]
  }

  // ---------------------------------------------------------------------------
  // The requests.

  /** dfuGetStatus: one DFU_GETSTATUS; the status fields change only when all
      six bytes arrived, and the transfer's error is returned. */
  method GetStatus(dev: Device, st: FlashState) returns (err: Option<UsbError>)
    modifies dev, st
    ensures dev.issued == old(dev.issued) + [StatusRequest]
    ensures st.Status() == ApplyStatus(old(st.Status()), ReplyAt(dev.replies, |old(dev.issued)|))
    ensures st.ProgressOf() == old(st.ProgressOf())
    ensures err == ReplyAt(dev.replies, |old(dev.issued)|).err
  {
    var buf := EmptyStatus;
    var stat, e, filled := dev.Control(RequestIn, DfuGetStatus, 0, 0, buf);
    err := e;
    if e.Some? {
      return;
    }
    if stat == StatusLength {
      st.bStatus := RuneString(filled[0]);
      st.bwPollTimeout := PollTimeout(filled);
      st.bState := RuneString(filled[4]);
      st.iString := RuneString(filled[5]);
    }
  }

  const PollAttempts: nat := 3

  const PollRequests: seq<Request> := [StatusRequest, StatusRequest, StatusRequest]

  /** One round of dfuPollTimeout's loop, round i of the polls that began
      at request number `from` with the pauses `slept0` before them: a
      DFU_GETSTATUS, then a pause of the poll timeout it left. */
  method PollOnce(dev: Device, st: FlashState, clock: Clock, ghost status0: Snapshot, ghost slept0: seq<int>,
                  ghost from: nat, ghost i: nat)
    returns (err: Option<UsbError>)
    requires |dev.issued| == from + i && st.Status() == Polled(status0, dev.replies, from, i)
    requires clock.slept == slept0 + PollSleeps(status0, dev.replies, from, i)
    modifies dev, st, clock
    ensures dev.issued == old(dev.issued) + [StatusRequest]
    ensures st.Status() == Polled(status0, dev.replies, from, i + 1)
    ensures clock.slept == slept0 + PollSleeps(status0, dev.replies, from, i + 1)
    ensures st.ProgressOf() == old(st.ProgressOf())
    ensures err == ReplyAt(dev.replies, from + i).err
  {
    err := GetStatus(dev, st);
    clock.Sleep(st.bwPollTimeout);
  }

  /** dfuPollTimeout: exactly three DFU_GETSTATUS requests, each followed by a
      pause of the poll timeout it left; only the last one's error comes back. */
  method PollTimeoutStatus(dev: Device, st: FlashState, clock: Clock) returns (err: Option<UsbError>)
    modifies dev, st, clock
    ensures dev.issued == old(dev.issued) + PollRequests
    ensures st.Status() == Polled(old(st.Status()), dev.replies, |old(dev.issued)|, PollAttempts)
    ensures clock.slept == old(clock.slept) + PollSleeps(old(st.Status()), dev.replies, |old(dev.issued)|, PollAttempts)
    ensures st.ProgressOf() == old(st.ProgressOf())
    ensures err == ReplyAt(dev.replies, |old(dev.issued)| + PollAttempts - 1).err
  {
    ghost var replies, issued0, slept0 := dev.replies, dev.issued, clock.slept;
    ghost var from, status0, progress0 := |dev.issued|, st.Status(), st.ProgressOf();
    err := None;
    var i := 0;
    while i < PollAttempts
      invariant 0 <= i <= PollAttempts
      invariant dev.issued == issued0 + PollRequests[..i]
      invariant st.Status() == Polled(status0, replies, from, i)
      invariant clock.slept == slept0 + PollSleeps(status0, replies, from, i)
      invariant st.ProgressOf() == progress0
      invariant i > 0 ==> err == ReplyAt(replies, from + i - 1).err
    {
      err := PollOnce(dev, st, clock, status0, slept0, from, i);
      assert PollRequests[..i + 1] == PollRequests[..i] + [StatusRequest];
      i := i + 1;
    }
  }

  /** DFU_CLRSTATUS, with no data. */
  const ClearStatusRequest: Request := Request(RequestOut, DfuClrStatus, 2, 0, [])

  /** dfuClearStatus: one DFU_CLRSTATUS; its error is returned. */
  method ClearStatus(dev: Device) returns (err: Option<UsbError>)
    modifies dev
    ensures dev.issued == old(dev.issued) + [ClearStatusRequest]
    ensures err == ReplyAt(dev.replies, |old(dev.issued)|).err
  {
    var _, e, _ := dev.Control(RequestOut, DfuClrStatus, 2, 0, []);
    err := e;
  }

  /** The requests of one `dfuCommand`: the DfuSe command, then a status poll. */
  function CommandRequests(addr: int, command: int): seq<Request>
  {
    [Request(RequestOut, DfuDnload, 0, 0, CommandPayload(addr, command))] + PollRequests
  }

  /** dfuCommand: the DfuSe command as a DFU_DNLOAD, then a status poll. The
      error of the command transfer is overwritten: only the poll's last error
      is returned. */
  method Command(dev: Device, addr: int, command: int, st: FlashState, clock: Clock) returns (err: Option<UsbError>)
    modifies dev, st, clock
    ensures dev.issued == old(dev.issued) + CommandRequests(addr, command)
    ensures st.Status() == Polled(old(st.Status()), dev.replies, |old(dev.issued)| + 1, PollAttempts)
    ensures clock.slept == old(clock.slept) + PollSleeps(old(st.Status()), dev.replies, |old(dev.issued)| + 1, PollAttempts)
    ensures st.ProgressOf() == old(st.ProgressOf())
    ensures err == ReplyAt(dev.replies, |old(dev.issued)| + PollAttempts).err
  {
    var buf := CommandPayload(addr, command);
    var _, _, _ := dev.Control(RequestOut, DfuDnload, 0, 0, buf);
    err := PollTimeoutStatus(dev, st, clock);
  }

  /** The requests of `dfuReboot`: a status poll, a DFU_DNLOAD with no data
      (the leave request), and one more DFU_GETSTATUS. */
  const RebootRequests: seq<Request> :=
    PollRequests + [Request(RequestOut, DfuDnload, 2, 0, [])] + [StatusRequest]

  const RebootPause: int := 1000

  /** dfuReboot: the errors of the poll and of the leave request are
      overwritten; only the final DFU_GETSTATUS's error is returned. */
  method Reboot(dev: Device, st: FlashState, clock: Clock) returns (err: Option<UsbError>)
    modifies dev, st, clock
    ensures dev.issued == old(dev.issued) + RebootRequests
    ensures st.Status() == ApplyStatus(Polled(old(st.Status()), dev.replies, |old(dev.issued)|, PollAttempts),
                                       ReplyAt(dev.replies, |old(dev.issued)| + PollAttempts + 1))
    ensures clock.slept == old(clock.slept) +
      PollSleeps(old(st.Status()), dev.replies, |old(dev.issued)|, PollAttempts) + [RebootPause]
    ensures st.ProgressOf() == old(st.ProgressOf())
    ensures err == ReplyAt(dev.replies, |old(dev.issued)| + PollAttempts + 1).err
  {
    err := PollTimeoutStatus(dev, st, clock);
    ghost var polled := st.Status();
    var _, e, _ := dev.Control(RequestOut, DfuDnload, 2, 0, []);
    err := e;
    clock.Sleep(RebootPause);
    assert st.Status() == polled;
    err := GetStatus(dev, st);
  }
}
