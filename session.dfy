/** A flashing session, `execFlash`, and the `DfuFlash` front end
    (modules/dfu/flasher.go:187-282, 343-358). Every `log.Fatalf` ends the
    process, so a session either returns after a complete run or stops at the
    first check that fails; what it has sent by then is a prefix of the
    requests of a complete run. The file system is a map from path to
    contents, the device a scripted `Usb.Device`. */
module Session {
  import opened Base
  import opened Usb
  import opened Protocol
  import opened Plan
  import opened Suffix
  import opened Scan

  /** The `log.Fatalf` calls of `execFlash`, in the order they can happen. */
  datatype Stage =
    | FirmwareUnreadable
    | SuffixInvalid(err: SuffixError)
    | UnexpectedFileType
    | NotInDfuMode
    | ClearStatusFailed
    | EraseFailed
    | EraseAddressFailed
    | SetAddressFailed
    | WriteFailed
    | RebootFailed

  /** How a call of `execFlash` ends: it returns its state, the process exits
      through `log.Fatalf`, or the slice of a short file panics. */
  datatype Exit = Returned | Fatal(stage: Stage) | Panicked

  // ---------------------------------------------------------------------------
  // Before the device is touched.

  /** The checks `execFlash` makes on the file and the device before it opens
      the device: the firmware to flash, or how the call ends. */
  datatype Gate = Proceed(firmware: seq<byte>) | Halt(exit: Exit)

  function Preflight(fs: map<string, seq<byte>>, path: string, found: FoundDevice): (g: Gate)
    // only a readable, suffix-less file of 16 bytes or more, for a device in
    // DFU mode, is flashed, and then the whole file is the firmware
    ensures g.Proceed? <==>
      path in fs && |fs[path]| >= SuffixLength && !HasDfuSignature(fs[path]) && found.isDfu
    ensures g.Proceed? ==> g.firmware == fs[path]
    ensures path !in fs ==> g == Halt(Fatal(FirmwareUnreadable))
    ensures path in fs && |fs[path]| < SuffixLength ==> g == Halt(Panicked)
    // a file that carries a DFU suffix is refused whatever the suffix says
    ensures path in fs && |fs[path]| >= SuffixLength && HasDfuSignature(fs[path]) ==>
      var file := fs[path];
      var vid, pid := file[|file| - 12] as int, file[|file| - 14] as int;
      if vid == SuffixVendorId && pid == SuffixProductId then g == Halt(Fatal(UnexpectedFileType))
      else g == Halt(Fatal(SuffixInvalid(IdMismatch(SuffixVendorId, SuffixProductId, vid, pid))))
    ensures path in fs && |fs[path]| >= SuffixLength && !HasDfuSignature(fs[path]) && !found.isDfu ==>
      g == Halt(Fatal(NotInDfuMode))
  {
    if path !in fs then Halt(Fatal(FirmwareUnreadable))
    else
      match ExtractSuffix(fs[path])
      case SliceOutOfRange => Halt(Panicked)
      case Extracted(hasSuffix, data, err) =>
        if err.Some? then Halt(Fatal(SuffixInvalid(err.value)))
        else if hasSuffix then Halt(Fatal(UnexpectedFileType))
        else if !found.isDfu then Halt(Fatal(NotInDfuMode))
        else Proceed(data)
  }

  // ---------------------------------------------------------------------------
  // How the replies decide a session.

  /** The answer to request number i is an error. */
  predicate FailsAt(replies: seq<Reply>, i: nat)
  {
    ReplyAt(replies, i).err.Some?
  }

  /** The check that fails in the page whose first request is number `at`:
      each DfuSe command reports the error of its last status poll (its
      fourth request), the block write its own. */
  function PageFailure(replies: seq<Reply>, at: nat): Option<Stage>
  {
    if FailsAt(replies, at + 3) then Some(EraseAddressFailed)
    else if FailsAt(replies, at + 7) then Some(SetAddressFailed)
    else if FailsAt(replies, at + 8) then Some(WriteFailed)
    else None
  }

  /** The requests that page issues before its check fails, or all nine. */
  function PageUsed(replies: seq<Reply>, at: nat): nat
  {
    if FailsAt(replies, at + 3) then 4 else if FailsAt(replies, at + 7) then 8 else PageLength
  }

  /** The end of the block loop, or the check that stopped it, the number of
      requests it issued, and what it added to the sent count. */
  datatype Pages = Pages(failure: Option<Stage>, used: nat, sent: int)

  /** Pages k .. pages-1 of the block loop, page k starting at request
      number `at`. */
  function PagesRun(replies: seq<Reply>, pages: nat, k: nat, at: nat): Pages
    requires k <= pages
    decreases pages - k
  {
    if k == pages then Pages(None, 0, 0)
    else
      match PageFailure(replies, at)
      case Some(stage) => Pages(Some(stage), PageUsed(replies, at), 0)
      case None =>
        var rest := PagesRun(replies, pages, k + 1, at + PageLength);
        Pages(rest.failure, PageLength + rest.used, ReplyAt(replies, at + 8).count + rest.sent)
  }

  /** The end of a session and the number of requests it issued. */
  datatype Run = Run(exit: Exit, used: nat)

  /** A session on `firmware` with a freshly opened device that answers with
      `replies`: clear the status, erase the flash, the block loop, then the
      reboot. */
  function SessionRun(firmware: seq<byte>, replies: seq<Reply>): Run
  {
    if FailsAt(replies, 0) then Run(Fatal(ClearStatusFailed), 1)
    else if FailsAt(replies, HeadLength - 1) then Run(Fatal(EraseFailed), HeadLength)
    else
      var p := PagesRun(replies, NumBlocks(|firmware|), 0, HeadLength);
      if p.failure.Some? then Run(Fatal(p.failure.value), HeadLength + p.used)
      else
        var rebooted := HeadLength + p.used + RebootLength;
        Run(if FailsAt(replies, rebooted - 1) then Fatal(RebootFailed) else Returned, rebooted)
  }

  /** The checks of page k, counted from the start of the session. */
  predicate PageChecksPass(replies: seq<Reply>, k: nat)
  {
    var start := HeadLength + PageLength * k;
    !FailsAt(replies, start + 3) && !FailsAt(replies, start + 7) && !FailsAt(replies, start + 8)
  }

  /** Every reply whose error `execFlash` reads is a success: the clear, the
      last poll of the full erase, the last polls of each page's two commands
      and its block write, and the final DFU_GETSTATUS of the reboot. */
  predicate ChecksPass(firmware: seq<byte>, replies: seq<Reply>)
  {
    var pages := NumBlocks(|firmware|);
    !FailsAt(replies, 0) && !FailsAt(replies, HeadLength - 1) &&
    (forall k :: 0 <= k < pages ==> PageChecksPass(replies, k)) &&
    !FailsAt(replies, HeadLength + PageLength * pages + RebootLength - 1)
  }

  /** The block loop from page k issues at most the requests of the pages
      left, all of them when no page fails, and stops only at a page check. */
  lemma {:induction false} PagesRunBounds(replies: seq<Reply>, pages: nat, k: nat, at: nat)
    requires k <= pages
    ensures var r := PagesRun(replies, pages, k, at);
      r.used <= PageLength * (pages - k) &&
      (r.failure.None? ==> r.used == PageLength * (pages - k)) &&
      (r.failure.Some? ==> r.failure.value in {EraseAddressFailed, SetAddressFailed, WriteFailed})
    decreases pages - k
  {
    if k < pages && PageFailure(replies, at).None? {
      PagesRunBounds(replies, pages, k + 1, at + PageLength);
    }
  }

  /** A session issues a prefix of the requests of a complete run: all of them
      exactly when it returns or fails only at the reboot. */
  lemma {:induction false} SessionRunBounds(firmware: seq<byte>, replies: seq<Reply>)
    ensures var r := SessionRun(firmware, replies);
      r.used <= |SessionRequests(firmware)| &&
      (r.used == |SessionRequests(firmware)| <==> r.exit == Returned || r.exit == Fatal(RebootFailed)) &&
      (r.exit.Fatal? ==>
         r.exit.stage in {ClearStatusFailed, EraseFailed, EraseAddressFailed, SetAddressFailed, WriteFailed, RebootFailed}) &&
      !r.exit.Panicked?
  {
    SessionLength(firmware);
    PagesRunBounds(replies, NumBlocks(|firmware|), 0, HeadLength);
  }

  /** From page k on, no page fails exactly when the checks of pages
      k .. pages-1 pass. */
  lemma {:induction false} PagesPassIff(replies: seq<Reply>, pages: nat, k: nat, at: nat)
    requires k <= pages && at == HeadLength + PageLength * k
    ensures PagesRun(replies, pages, k, at).failure.None? <==>
      forall j :: k <= j < pages ==> PageChecksPass(replies, j)
    decreases pages - k
  {
    if k < pages {
      assert PageChecksPass(replies, k) <==> PageFailure(replies, at).None?;
      assert at + PageLength == HeadLength + PageLength * (k + 1);
      PagesPassIff(replies, pages, k + 1, at + PageLength);
    }
  }

  /** A block loop that runs to the end from page k adds the byte counts the
      device reported for the writes of pages k .. pages-1; the loop started
      at request number `from`. */
  lemma {:induction false} PagesSent(firmware: seq<byte>, replies: seq<Reply>, k: nat, from: nat, at: nat)
    requires k <= NumBlocks(|firmware|) && at == from + PageLength * k
    requires PagesRun(replies, NumBlocks(|firmware|), k, at).failure.None?
    ensures
      SentCount(BlocksUpTo(firmware, NumBlocks(|firmware|)), replies, from) ==
        SentCount(BlocksUpTo(firmware, k), replies, from) + PagesRun(replies, NumBlocks(|firmware|), k, at).sent
    decreases NumBlocks(|firmware|) - k
  {
    if k < NumBlocks(|firmware|) {
      assert PageFailure(replies, at).None?;
      assert at + PageLength == from + PageLength * (k + 1);
      PagesSent(firmware, replies, k + 1, from, at + PageLength);
      BlocksSentStep(firmware, k, replies, from, at);
    }
  }

  /** A session returns exactly when every reply it checks is a success. */
  lemma {:induction false} SessionReturnsIff(firmware: seq<byte>, replies: seq<Reply>)
    ensures SessionRun(firmware, replies).exit == Returned <==> ChecksPass(firmware, replies)
  {
    var pages := NumBlocks(|firmware|);
    PagesPassIff(replies, pages, 0, HeadLength);
    PagesRunBounds(replies, pages, 0, HeadLength);
  }

  // ---------------------------------------------------------------------------
  // What a call of `execFlash` does, as a function of its inputs.

  /** How `execFlash` ends when the device it opens answers with `replies`. */
  function Outcome(fs: map<string, seq<byte>>, path: string, found: FoundDevice, replies: seq<Reply>): Exit
  {
    match Preflight(fs, path, found)
    case Halt(exit) => exit
    case Proceed(firmware) => SessionRun(firmware, replies).exit
  }

  /** The requests `execFlash` issues: none when it stops before opening the
      device, otherwise the first requests of a complete run. */
  function Trace(fs: map<string, seq<byte>>, path: string, found: FoundDevice, replies: seq<Reply>): seq<Request>
  {
    match Preflight(fs, path, found)
    case Halt(_) => []
    case Proceed(firmware) =>
      SessionRunBounds(firmware, replies);
      SessionRequests(firmware)[..SessionRun(firmware, replies).used]
  }

  // ---------------------------------------------------------------------------
  // The block loop, one page at a time.

  /** The two DfuSe commands at the head of page k: erase the page at
      `addr`, then set the write address to it; each reports the error of
      its last status poll, and the first failure ends the page. */
  method PreparePage(dev: Device, st: FlashState, clock: Clock, addr: int, ghost firmware: seq<byte>, ghost k: nat)
    returns (failure: Option<Stage>)
    requires k < NumBlocks(|firmware|) && addr == StartAddress + PageOf(k)
    modifies dev, st, clock
    ensures failure ==
      if FailsAt(dev.replies, |old(dev.issued)| + 3) then Some(EraseAddressFailed)
      else if FailsAt(dev.replies, |old(dev.issued)| + 7) then Some(SetAddressFailed)
      else None
    ensures dev.issued ==
      old(dev.issued) + BlockRequests(firmware, k)[..if failure == Some(EraseAddressFailed) then 4 else 8]
    ensures st.ProgressOf() == old(st.ProgressOf())
  {
    ghost var before := dev.issued;
    ghost var erase, setAddress := CommandRequests(addr, EraseAddress), CommandRequests(addr, SetAddress);
    PageCommands(firmware, k, addr);
    var err := Command(dev, addr, EraseAddress, st, clock);
    if err.Some? {
      failure := Some(EraseAddressFailed);
      return;
    }
    err := Command(dev, addr, SetAddress, st, clock);
    AppendAssoc(before, erase, setAddress);
    failure := if err.Some? then Some(SetAddressFailed) else None;
  }

  /** One turn of the block loop: erase page k, set the address to it, and
      write its chunk; `sent` grows by the count of the write. */
  method WritePage(dev: Device, st: FlashState, clock: Clock, firmware: seq<byte>, ghost k: nat, page: int)
    returns (failure: Option<Stage>)
    requires k < NumBlocks(|firmware|) && page == PageOf(k)
    modifies dev, st, clock
    ensures failure == PageFailure(dev.replies, |old(dev.issued)|)
    ensures dev.issued == old(dev.issued) + BlockRequests(firmware, k)[..PageUsed(dev.replies, |old(dev.issued)|)]
    ensures st.sent == old(st.sent) +
      if failure.None? then ReplyAt(dev.replies, |old(dev.issued)| + 8).count else 0
    ensures st.ProgressOf() == old(st.ProgressOf()).(sent := st.sent)
  {
    ghost var reqs := BlockRequests(firmware, k);
    var addr := StartAddress + page;
    var chunkSize := BlockSize;
    if page + chunkSize > |firmware| {
      chunkSize := |firmware| - page;
    }
    failure := PreparePage(dev, st, clock, addr, firmware, k);
    if failure.Some? {
      return;
    }
    ChunkAt(firmware, k, chunkSize);
    var buf := firmware[page .. page + chunkSize];
    var bytes, e, _ := dev.Control(RequestOut, DfuDnload, 2, 0, buf);
    PageWrite(firmware, k);
    AppendAssoc(old(dev.issued), reqs[..8], [Request(RequestOut, DfuDnload, 2, 0, buf)]);
    if e.Some? {
      failure := Some(WriteFailed);
      return;
    }
    st.sent := st.sent + bytes;
  }

  /** The result of the whole block loop, started at request number `from`,
      told from page k on, which starts at request number `at`: the requests
      before it and the bytes `sent` counted so far, then `PagesRun` from
      there. */
  function Resumed(replies: seq<Reply>, pages: nat, k: nat, from: nat, at: nat, sent: int): Pages
    requires k <= pages && from <= at
  {
    var rest := PagesRun(replies, pages, k, at);
    Pages(rest.failure, at - from + rest.used, sent + rest.sent)
  }

  /** The end of the block loop started with `issued0` issued and `sent0`
      counted: its failure, the requests issued and the count, as `PagesRun`
      gives them. */
  predicate LoopEnd(firmware: seq<byte>, replies: seq<Reply>, issued0: seq<Request>, sent0: int,
                    failure: Option<Stage>, issued: seq<Request>, sent: int)
  {
    var r := PagesRun(replies, NumBlocks(|firmware|), 0, |issued0|);
    failure == r.failure &&
    r.used <= |BlocksUpTo(firmware, NumBlocks(|firmware|))| &&
    issued == issued0 + BlocksUpTo(firmware, NumBlocks(|firmware|))[..r.used] &&
    sent == sent0 + r.sent
  }

  /** The state of the block loop before page k: the first 9k requests of
      the whole loop, those of pages 0 .. k-1, issued after `issued0`, and
      the result of the whole loop still to come as `Resumed` tells it. */
  predicate LoopAt(firmware: seq<byte>, replies: seq<Reply>, issued0: seq<Request>, sent0: int,
                   k: nat, issued: seq<Request>, sent: int)
  {
    var blocks := BlocksUpTo(firmware, NumBlocks(|firmware|));
    k <= NumBlocks(|firmware|) &&
    |issued| == |issued0| + PageLength * k &&
    |issued| <= |issued0| + |blocks| &&
    issued == issued0 + blocks[..|issued| - |issued0|] &&
    PagesRun(replies, NumBlocks(|firmware|), 0, |issued0|) ==
      Resumed(replies, NumBlocks(|firmware|), k, |issued0|, |issued|, sent - sent0)
  }

  /** The loop before page 0. */
  lemma {:induction false} LoopStarts(firmware: seq<byte>, replies: seq<Reply>, issued0: seq<Request>, sent0: int)
    ensures LoopAt(firmware, replies, issued0, sent0, 0, issued0, sent0)
  {
    var blocks := BlocksUpTo(firmware, NumBlocks(|firmware|));
    assert issued0 + blocks[..0] == issued0;
  }

  /** Past a page that passes, the loop's result reads the same from the
      next page, with that page's requests and write count moved into the
      part already done. */
  lemma {:induction false} ResumedStep(replies: seq<Reply>, pages: nat, k: nat, from: nat, at: nat, sent: int)
    requires k < pages && from <= at && PageFailure(replies, at).None?
    ensures Resumed(replies, pages, k, from, at, sent) ==
      Resumed(replies, pages, k + 1, from, at + PageLength, sent + ReplyAt(replies, at + 8).count)
  {
  }

  /** The first u requests of page k extend the loop's first 9k requests to
      its first 9k + u. */
  lemma {:induction false} PageIssued(firmware: seq<byte>, k: nat, issued0: seq<Request>, u: nat)
    requires k < NumBlocks(|firmware|) && u <= PageLength
    ensures PageLength * k + u <= |BlocksUpTo(firmware, NumBlocks(|firmware|))|
    ensures issued0 + BlocksUpTo(firmware, NumBlocks(|firmware|))[..PageLength * k] + BlockRequests(firmware, k)[..u] ==
      issued0 + BlocksUpTo(firmware, NumBlocks(|firmware|))[..PageLength * k + u]
  {
    var done, page := BlocksUpTo(firmware, k), BlockRequests(firmware, k);
    BlocksTake(firmware, k, 0);
    assert done + page[..0] == done;
    BlocksTake(firmware, k, u);
    AppendAssoc(issued0, done, page[..u]);
  }

  /** A page that passes all its checks adds its whole block of requests and
      the byte count of its write, and the loop resumes at the next page. */
  lemma {:induction false} PagePassed(firmware: seq<byte>, replies: seq<Reply>, k: nat, issued0: seq<Request>,
                                      sent0: int, before: seq<Request>, sent: int, after: seq<Request>, sentAfter: int)
    requires k < NumBlocks(|firmware|) && LoopAt(firmware, replies, issued0, sent0, k, before, sent)
    requires PageFailure(replies, |before|).None?
    requires after == before + BlockRequests(firmware, k)[..PageUsed(replies, |before|)]
    requires sentAfter == sent + ReplyAt(replies, |before| + 8).count
    ensures LoopAt(firmware, replies, issued0, sent0, k + 1, after, sentAfter)
  {
    var blocks, m := BlocksUpTo(firmware, NumBlocks(|firmware|)), |before| - |issued0|;
    assert PageUsed(replies, |before|) == PageLength;
    assert m == PageLength * k && before == issued0 + blocks[..m];
    PageIssued(firmware, k, issued0, PageLength);
    assert after == issued0 + blocks[..m + PageLength];
    ResumedStep(replies, NumBlocks(|firmware|), k, |issued0|, |before|, sent - sent0);
    assert |after| == |issued0| + PageLength * (k + 1);
    assert sentAfter - sent0 == sent - sent0 + ReplyAt(replies, |before| + 8).count;
  }

  /** The loop's result when page k fails: that failure, the requests up to
      it, and the count of the pages before. */
  lemma {:induction false} StoppedRun(replies: seq<Reply>, pages: nat, k: nat, from: nat, at: nat, sent: int)
    requires k < pages && from <= at && PageFailure(replies, at).Some?
    requires PagesRun(replies, pages, 0, from) == Resumed(replies, pages, k, from, at, sent)
    ensures PagesRun(replies, pages, 0, from) ==
      Pages(PageFailure(replies, at), at - from + PageUsed(replies, at), sent)
  {
  }

  /** A page that fails a check ends the loop part-way through its block. */
  lemma {:induction false} PageStopped(firmware: seq<byte>, replies: seq<Reply>, k: nat, issued0: seq<Request>,
                                       sent0: int, before: seq<Request>, sent: int, after: seq<Request>)
    requires k < NumBlocks(|firmware|) && LoopAt(firmware, replies, issued0, sent0, k, before, sent)
    requires PageFailure(replies, |before|).Some?
    requires after == before + BlockRequests(firmware, k)[..PageUsed(replies, |before|)]
    ensures LoopEnd(firmware, replies, issued0, sent0, PageFailure(replies, |before|), after, sent)
  {
    var blocks, u, m := BlocksUpTo(firmware, NumBlocks(|firmware|)), PageUsed(replies, |before|), |before| - |issued0|;
    StoppedRun(replies, NumBlocks(|firmware|), k, |issued0|, |before|, sent - sent0);
    assert m == PageLength * k && before == issued0 + blocks[..m];
    PageIssued(firmware, k, issued0, u);
    assert after == issued0 + blocks[..m + u];
  }

  /** A block loop whose page offset has reached the end of the firmware has
      passed every page, and ends there. */
  lemma {:induction false} PagesEnded(firmware: seq<byte>, replies: seq<Reply>, issued0: seq<Request>, sent0: int,
                                      k: nat, issued: seq<Request>, sent: int)
    requires LoopAt(firmware, replies, issued0, sent0, k, issued, sent) && PageOf(k) >= |firmware|
    ensures LoopEnd(firmware, replies, issued0, sent0, None, issued, sent)
  {
    PageInRange(|firmware|, k);
    var blocks := BlocksUpTo(firmware, NumBlocks(|firmware|));
    assert blocks[..|blocks|] == blocks;
  }

  /** One turn of the block loop, seen from the start of the loop: after k
      complete pages, page k either completes, and the loop resumes at page
      k + 1, or fails, and the loop ends. */
  method PageTurn(dev: Device, st: FlashState, clock: Clock, firmware: seq<byte>, page: int,
                  ghost k: nat, ghost issued0: seq<Request>, ghost sent0: int)
    returns (failure: Option<Stage>)
    requires page == PageOf(k) && page < |firmware|
    requires LoopAt(firmware, dev.replies, issued0, sent0, k, dev.issued, st.sent)
    modifies dev, st, clock
    ensures failure == PageFailure(dev.replies, |old(dev.issued)|)
    ensures failure.Some? ==> LoopEnd(firmware, dev.replies, issued0, sent0, failure, dev.issued, st.sent)
    ensures failure.None? ==> LoopAt(firmware, dev.replies, issued0, sent0, k + 1, dev.issued, st.sent)
    ensures st.ProgressOf() == old(st.ProgressOf()).(sent := st.sent)
  {
    ghost var replies, before, sent := dev.replies, dev.issued, st.sent;
    PageInRange(|firmware|, k);
    failure := WritePage(dev, st, clock, firmware, k, page);
    if failure.Some? {
      PageStopped(firmware, replies, k, issued0, sent0, before, sent, dev.issued);
    } else {
      PagePassed(firmware, replies, k, issued0, sent0, before, sent, dev.issued, st.sent);
    }
  }

  /** The block loop of `execFlash`: erase, address and write each page of
      the firmware in turn, up to the first check that fails. */
  method WritePages(dev: Device, st: FlashState, clock: Clock, firmware: seq<byte>)
    returns (failure: Option<Stage>)
    modifies dev, st, clock
    ensures LoopEnd(firmware, dev.replies, old(dev.issued), old(st.sent), failure, dev.issued, st.sent)
    ensures st.ProgressOf() == old(st.ProgressOf()).(sent := st.sent)
  {
    ghost var replies, issued0, sent0 := dev.replies, dev.issued, st.sent;
    var fileSize := |firmware|;
    var page := 0;
    ghost var k: nat := 0;
    LoopStarts(firmware, replies, issued0, sent0);
    failure := None;
    while page < fileSize
      invariant page == PageOf(k)
      invariant LoopAt(firmware, replies, issued0, sent0, k, dev.issued, st.sent)
      invariant st.ProgressOf() == old(st.ProgressOf()).(sent := st.sent)
      invariant failure == None
    {
      failure := PageTurn(dev, st, clock, firmware, page, k, issued0, sent0);
      if failure.Some? {
        return;
      }
      page := page + BlockSize;
      k := k + 1;
    }
    PagesEnded(firmware, replies, issued0, sent0, k, dev.issued, st.sent);
  }

  // ---------------------------------------------------------------------------
  // The session.

  /** The start of the session in `execFlash`: clear the device's status,
      move to step 1 and erase the whole flash. */
  method Prepare(dev: Device, st: FlashState, clock: Clock) returns (failure: Option<Stage>)
    modifies dev, st, clock
    ensures failure ==
      if FailsAt(dev.replies, |old(dev.issued)|) then Some(ClearStatusFailed)
      else if FailsAt(dev.replies, |old(dev.issued)| + HeadLength - 1) then Some(EraseFailed)
      else None
    ensures dev.issued ==
      old(dev.issued) + SessionHead[..if FailsAt(dev.replies, |old(dev.issued)|) then 1 else HeadLength]
    ensures st.ProgressOf() ==
      if FailsAt(dev.replies, |old(dev.issued)|) then old(st.ProgressOf()) else old(st.ProgressOf()).(step := 1)
  {
    var err := ClearStatus(dev);
    if err.Some? {
      assert SessionHead[..1] == [ClearStatusRequest];
      return Some(ClearStatusFailed);
    }
    st.step := 1;
    err := Command(dev, 0, EraseFlash, st, clock);
    assert SessionHead[..HeadLength] == SessionHead;
    if err.Some? {
      return Some(EraseFailed);
    }
    return None;
  }

  /** The end of the session in `execFlash`: reboot the device into its
      firmware, then mark the flash complete at step 2. */
  method Conclude(dev: Device, st: FlashState, clock: Clock) returns (failure: Option<Stage>)
    modifies dev, st, clock
    ensures failure ==
      if FailsAt(dev.replies, |old(dev.issued)| + RebootLength - 1) then Some(RebootFailed) else None
    ensures dev.issued == old(dev.issued) + RebootRequests
    ensures st.ProgressOf() ==
      if failure.Some? then old(st.ProgressOf()) else old(st.ProgressOf()).(step := 2, complete := true)
  {
    var err := Reboot(dev, st, clock);
    if err.Some? {
      return Some(RebootFailed);
    }
    st.step := 2;
    st.complete := true;
    return None;
  }

  /** Once the head of a session has passed its checks, the session ends
      where the block loop stops, or else at the reboot. */
  lemma {:induction false} SessionRunAfterHead(firmware: seq<byte>, replies: seq<Reply>)
    requires !FailsAt(replies, 0) && !FailsAt(replies, HeadLength - 1)
    ensures
      var p := PagesRun(replies, NumBlocks(|firmware|), 0, HeadLength);
      (p.failure.Some? ==> SessionRun(firmware, replies) == Run(Fatal(p.failure.value), HeadLength + p.used)) &&
      (p.failure.None? ==>
         HeadLength + p.used + RebootLength == |SessionRequests(firmware)| &&
         SessionRun(firmware, replies) ==
           Run(if FailsAt(replies, HeadLength + p.used + RebootLength - 1) then Fatal(RebootFailed) else Returned,
               |SessionRequests(firmware)|))
  {
    SessionLength(firmware);
    PagesRunBounds(replies, NumBlocks(|firmware|), 0, HeadLength);
  }

  /** A block loop that stops at a failed check, after a head that passed,
      ends the session there. */
  lemma {:induction false} LoopFailed(firmware: seq<byte>, replies: seq<Reply>, sent0: int,
                                      failure: Option<Stage>, issued: seq<Request>, sent: int)
    requires !FailsAt(replies, 0) && !FailsAt(replies, HeadLength - 1)
    requires LoopEnd(firmware, replies, SessionHead, sent0, failure, issued, sent)
    requires failure.Some?
    ensures var r := SessionRun(firmware, replies);
      Fatal(failure.value) == r.exit &&
      r.used <= |SessionRequests(firmware)| &&
      issued == SessionRequests(firmware)[..r.used]
  {
    var p := PagesRun(replies, NumBlocks(|firmware|), 0, HeadLength);
    SessionRunAfterHead(firmware, replies);
    SessionRunBounds(firmware, replies);
    SessionTake(firmware, p.used);
  }

  /** A block loop that passes every page, started after the head of the
      session, has issued the head and every block. */
  lemma {:induction false} LoopCompleted(firmware: seq<byte>, replies: seq<Reply>, sent0: int,
                                         issued: seq<Request>, sent: int)
    requires LoopEnd(firmware, replies, SessionHead, sent0, None, issued, sent)
    ensures issued == SessionHead + BlocksUpTo(firmware, NumBlocks(|firmware|))
    ensures |issued| + RebootLength == |SessionRequests(firmware)|
    ensures sent == sent0 + PagesRun(replies, NumBlocks(|firmware|), 0, HeadLength).sent
  {
    var blocks := BlocksUpTo(firmware, NumBlocks(|firmware|));
    SessionLength(firmware);
    PagesRunBounds(replies, NumBlocks(|firmware|), 0, HeadLength);
    assert blocks[..|blocks|] == blocks;
  }

  /** A block loop that passes every page, after a head that passed, leaves
      only the reboot: the session then issues all its requests and has
      counted the byte counts of all its block writes. */
  lemma {:induction false} LoopPassed(firmware: seq<byte>, replies: seq<Reply>, sent0: int,
                                      issued: seq<Request>, sent: int)
    requires !FailsAt(replies, 0) && !FailsAt(replies, HeadLength - 1)
    requires LoopEnd(firmware, replies, SessionHead, sent0, None, issued, sent)
    ensures
      var requests := SessionRequests(firmware);
      issued + RebootRequests == requests[..|requests|] &&
      SessionRun(firmware, replies) ==
        Run(if FailsAt(replies, |issued| + RebootLength - 1) then Fatal(RebootFailed) else Returned, |requests|) &&
      sent == sent0 + SentCount(requests, replies, 0)
  {
    var requests := SessionRequests(firmware);
    LoopCompleted(firmware, replies, sent0, issued, sent);
    SessionRunAfterHead(firmware, replies);
    assert requests[..|requests|] == requests;
    PagesSent(firmware, replies, 0, HeadLength, HeadLength);
    SessionSent(firmware, replies);
  }

  /** The block loop and the reboot of `execFlash`, once the head of the
      session has passed its checks. */
  method Transfer(dev: Device, st: FlashState, clock: Clock, firmware: seq<byte>) returns (exit: Exit)
    requires !FailsAt(dev.replies, 0) && !FailsAt(dev.replies, HeadLength - 1)
    requires dev.issued == SessionHead
    modifies dev, st, clock
    ensures var r := SessionRun(firmware, dev.replies);
      exit == r.exit &&
      r.used <= |SessionRequests(firmware)| &&
      dev.issued == SessionRequests(firmware)[..r.used]
    ensures st.total == old(st.total) && st.error == old(st.error)
    ensures exit == Returned ==>
      st.step == 2 && st.complete &&
      st.sent == old(st.sent) + SentCount(SessionRequests(firmware), dev.replies, 0)
  {
    var failure := WritePages(dev, st, clock, firmware);
    if failure.Some? {
      LoopFailed(firmware, dev.replies, old(st.sent), failure, dev.issued, st.sent);
      return Fatal(failure.value);
    }
    LoopPassed(firmware, dev.replies, old(st.sent), dev.issued, st.sent);
    failure := Conclude(dev, st, clock);
    if failure.Some? {
      return Fatal(RebootFailed);
    }
    return Returned;
  }

  /** Everything `execFlash` does with the device it has just opened: the
      requests it issues and how it ends are those of `SessionRun`, and a
      session that returns has counted what the device acknowledged for each
      block write. */
  method RunSession(dev: Device, st: FlashState, clock: Clock, firmware: seq<byte>) returns (exit: Exit)
    requires dev.issued == []
    modifies dev, st, clock
    ensures var r := SessionRun(firmware, dev.replies);
      exit == r.exit &&
      r.used <= |SessionRequests(firmware)| &&
      dev.issued == SessionRequests(firmware)[..r.used]
    ensures st.total == old(st.total) && st.error == old(st.error)
    ensures exit == Returned ==>
      st.step == 2 && st.complete &&
      st.sent == old(st.sent) + SentCount(SessionRequests(firmware), dev.replies, 0)
  {
    ghost var requests := SessionRequests(firmware);
    SessionLength(firmware);
    SessionRunBounds(firmware, dev.replies);
    var failure := Prepare(dev, st, clock);
    if failure.Some? {
      ghost var used := if FailsAt(dev.replies, 0) then 1 else HeadLength;
      assert requests[..used] == requests[..HeadLength][..used];
      return Fatal(failure.value);
    }
    exit := Transfer(dev, st, clock, firmware);
  }

  /** execFlash: read the file, check it and the device, open the device,
      which will answer with `replies`, and run the session; any failure
      ends the process. `log` is what the device received. */
  method ExecFlash(fs: map<string, seq<byte>>, path: string, found: FoundDevice, replies: seq<Reply>, clock: Clock)
    returns (exit: Exit, st: FlashState, log: seq<Request>)
    modifies clock
    ensures fresh(st)
    ensures exit == Outcome(fs, path, found, replies)
    ensures log == Trace(fs, path, found, replies)
    ensures st.error == None
    // a session that returns has issued every request of a complete run and
    // counted the bytes the device acknowledged for each block
    ensures exit == Returned ==>
      Preflight(fs, path, found).Proceed? &&
      var firmware := Preflight(fs, path, found).firmware;
      st.step == 2 && st.complete && st.total == |firmware| &&
      st.sent == SentCount(SessionRequests(firmware), replies, 0)
  {
    st := new FlashState();
    log := [];
    if path !in fs {
      exit := Fatal(FirmwareUnreadable);
      return;
    }
    var fileData := fs[path];
    var extraction := ExtractSuffix(fileData);
    if extraction.SliceOutOfRange? {
      exit := Panicked;
      return;
    }
    if extraction.err.Some? {
      exit := Fatal(SuffixInvalid(extraction.err.value));
      return;
    }
    if extraction.hasSuffix {
      exit := Fatal(UnexpectedFileType);
      return;
    }
    if !found.isDfu {
      exit := Fatal(NotInDfuMode);
      return;
    }
    var firmware := extraction.data;
    assert Preflight(fs, path, found) == Proceed(firmware);
    var dev := new Device(replies);
    st.total := |firmware|;
    exit := RunSession(dev, st, clock, firmware);
    log := dev.issued;
  }

  /** `DfuFlash`: the path of the firmware to flash. */
  class DfuFlash {
    var firmware: string

    /** NewDfuFlash. */
    constructor (firmwarePath: string)
      ensures firmware == firmwarePath
    {
      firmware := firmwarePath;
    }

    /** Flash: run `execFlash` on this firmware; it hands back the path and
        the state's error, which no step of `execFlash` sets. */
    method Flash(found: FoundDevice, fs: map<string, seq<byte>>, replies: seq<Reply>, clock: Clock)
      returns (exit: Exit, path: string, err: Option<string>, log: seq<Request>)
      modifies clock
      ensures path == firmware && err == None
      ensures exit == Outcome(fs, firmware, found, replies)
      ensures log == Trace(fs, firmware, found, replies)
    {
      var state;
      exit, state, log := ExecFlash(fs, firmware, found, replies, clock);
      path := firmware;
      err := state.error;
    }
  }
}
