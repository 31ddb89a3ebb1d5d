/** The request sequence of a flash session (modules/dfu/flasher.go:230-281).
    Because a status poll always makes its three attempts and `dfuCommand`
    ignores its command's error, the requests a session issues depend on the
    payload alone; a failure can only cut the sequence short. */
module Plan {
  import opened Base
  import opened Usb
  import opened Protocol

  /** `planckBlockSize`; the arithmetic below spells it out as 2048. */
  const BlockSize: nat := 2048
  const StartAddress: int := 0x0800_0000

  /** ceil(n / 2048): the number of pages the block loop visits. */
  function NumBlocks(n: nat): nat
  {
    (n + 2047) / 2048
  }

  /** Offset of page k. */
  function PageOf(k: nat): nat
  {
    k * 2048
  }

  /** `chunckSize`: 2048, or what is left after `page`. */
  function ChunkEnd(n: nat, page: nat): nat
    requires page < n
  {
    if page + 2048 > n then n else page + 2048
  }

  lemma {:induction false} PageBounds(n: nat, k: nat)
    requires k < NumBlocks(n)
    ensures PageOf(k) < n
    ensures k + 1 < NumBlocks(n) ==> PageOf(k) + BlockSize < n
    ensures k + 1 == NumBlocks(n) ==> n <= PageOf(k) + BlockSize
  {
  }

  /** A DFU_DNLOAD with value 2 and data: a block of firmware. */
  predicate IsBlockWrite(r: Request)
  {
    r.requestType == RequestOut && r.request == DfuDnload && r.value == 2 && |r.data| > 0
  }

  /** `firmwareData[page : page+chunckSize]` for page k. */
  function Chunk(payload: seq<byte>, k: nat): (c: seq<byte>)
    requires k < NumBlocks(|payload|)
    ensures 0 < |c| <= BlockSize
  {
    PageBounds(|payload|, k);
    payload[PageOf(k) .. ChunkEnd(|payload|, PageOf(k))]
  }

  /** The loop's `chunckSize` for page k slices out exactly `Chunk`. */
  lemma {:induction false} ChunkAt(payload: seq<byte>, k: nat, size: int)
    requires k < NumBlocks(|payload|)
    requires size == if PageOf(k) + BlockSize > |payload| then |payload| - PageOf(k) else BlockSize
    ensures 0 <= PageOf(k) <= PageOf(k) + size <= |payload|
    ensures payload[PageOf(k) .. PageOf(k) + size] == Chunk(payload, k)
  {
    PageBounds(|payload|, k);
  }

  /** The flash address of page k, one block past the one before, as the loop
      advances `page` by one block per turn. The recursion keeps the solver
      from unfolding `0x08000000 + 2048k` into the byte arithmetic of
      `AddressBytes` in every proof about `BlocksUpTo`; with the closed form,
      `BlocksUpToPrefix` and `Session.WritePage` run past the solver's
      resource limit.
      `PageAddressValue` gives the closed form. */
  function PageAddress(k: nat): int
  {
    if k == 0 then StartAddress else PageAddress(k - 1) + 2048
  }

  lemma {:induction false} PageAddressValue(k: nat)
    ensures PageAddress(k) == StartAddress + PageOf(k)
  {
    if k > 0 {
      PageAddressValue(k - 1);
    }
  }

  /** Page k: erase it, set the address, write its chunk. */
  function BlockRequests(payload: seq<byte>, k: nat): (reqs: seq<Request>)
    requires k < NumBlocks(|payload|)
    ensures |reqs| == PageLength
  {
    var addr := PageAddress(k);
    CommandRequests(addr, EraseAddress) + CommandRequests(addr, SetAddress) +
    [Request(RequestOut, DfuDnload, 2, 0, Chunk(payload, k))]
  }

  /** The requests of the first k pages. */
  function BlocksUpTo(payload: seq<byte>, k: nat): (reqs: seq<Request>)
    requires k <= NumBlocks(|payload|)
    ensures |reqs| == PageLength * k
  {
    if k == 0 then [] else BlocksUpTo(payload, k - 1) + BlockRequests(payload, k - 1)
  }

  /** Clear the status, then erase the whole flash. */
  const SessionHead: seq<Request> := [ClearStatusRequest] + CommandRequests(0, EraseFlash)

  /** Every request of a session that runs to completion. */
  function SessionRequests(payload: seq<byte>): seq<Request>
  {
    SessionHead + BlocksUpTo(payload, NumBlocks(|payload|)) + RebootRequests
  }

  // ---------------------------------------------------------------------------
  // What reaches the flash.

  /** The data of the block writes among `reqs`, in order. */
  function Chunks(reqs: seq<Request>): seq<seq<byte>>
  {
    if |reqs| == 0 then []
    else Chunks(reqs[..|reqs| - 1]) + (if IsBlockWrite(reqs[|reqs| - 1]) then [reqs[|reqs| - 1].data] else [])
  }

  function Flatten(chunks: seq<seq<byte>>): seq<byte>
  {
    if |chunks| == 0 then [] else Flatten(chunks[..|chunks| - 1]) + chunks[|chunks| - 1]
  }

  /** The byte counts the device reported for the block writes among
      `reqs`, summed, when `reqs` are answered from reply number `from` on. */
  function SentCount(reqs: seq<Request>, replies: seq<Reply>, from: nat): int
  {
    if |reqs| == 0 then 0
    else SentCount(reqs[..|reqs| - 1], replies, from) +
         (if IsBlockWrite(reqs[|reqs| - 1]) then ReplyAt(replies, from + |reqs| - 1).count else 0)
  }

  /** Every block write among `reqs` was answered with its full length. */
  predicate WritesComplete(reqs: seq<Request>, replies: seq<Reply>, from: nat)
  {
    forall i :: 0 <= i < |reqs| && IsBlockWrite(reqs[i]) ==> ReplyAt(replies, from + i).count == |reqs[i].data|
  }

  lemma {:induction false} ChunksAppend(a: seq<Request>, b: seq<Request>)
    ensures Chunks(a + b) == Chunks(a) + Chunks(b)
    decreases |b|
  {
    if b != [] {
      assert (a + b)[..|a + b| - 1] == a + b[..|b| - 1];
      ChunksAppend(a, b[..|b| - 1]);
    } else {
      assert a + b == a;
    }
  }

  /** Requests that write exactly one chunk add that chunk. */
  lemma {:induction false} ChunksExtend(a: seq<Request>, b: seq<Request>, chunk: seq<byte>)
    requires Chunks(b) == [chunk]
    ensures Chunks(a + b) == Chunks(a) + [chunk]
  {
    ChunksAppend(a, b);
  }

  lemma {:induction false} FlattenAppend(a: seq<seq<byte>>, b: seq<seq<byte>>)
    ensures Flatten(a + b) == Flatten(a) + Flatten(b)
    decreases |b|
  {
    if b != [] {
      assert (a + b)[..|a + b| - 1] == a + b[..|b| - 1];
      FlattenAppend(a, b[..|b| - 1]);
    } else {
      assert a + b == a;
    }
  }

  lemma {:induction false} SentCountAppend(a: seq<Request>, b: seq<Request>, replies: seq<Reply>, from: nat)
    ensures SentCount(a + b, replies, from) == SentCount(a, replies, from) + SentCount(b, replies, from + |a|)
    decreases |b|
  {
    if b != [] {
      assert (a + b)[..|a + b| - 1] == a + b[..|b| - 1];
      SentCountAppend(a, b[..|b| - 1], replies, from);
    } else {
      assert a + b == a;
    }
  }

  /** A run of requests without block writes adds no bytes, whatever the replies. */
  lemma {:induction false} SentCountNoWrites(reqs: seq<Request>, replies: seq<Reply>, from: nat)
    requires forall i :: 0 <= i < |reqs| ==> !IsBlockWrite(reqs[i])
    ensures SentCount(reqs, replies, from) == 0 && Chunks(reqs) == []
    decreases |reqs|
  {
    if reqs != [] {
      SentCountNoWrites(reqs[..|reqs| - 1], replies, from);
    }
  }

  /** When every write is acknowledged in full, the bytes counted are the
      bytes written. */
  lemma {:induction false} SentCountComplete(reqs: seq<Request>, replies: seq<Reply>, from: nat)
    requires WritesComplete(reqs, replies, from)
    ensures SentCount(reqs, replies, from) == |Flatten(Chunks(reqs))|
    decreases |reqs|
  {
    if reqs != [] {
      var n := |reqs| - 1;
      SentCountComplete(reqs[..n], replies, from);
      var last := if IsBlockWrite(reqs[n]) then [reqs[n].data] else [];
      assert Chunks(reqs) == Chunks(reqs[..n]) + last;
      FlattenAppend(Chunks(reqs[..n]), last);
      if last != [] {
        assert Flatten(last) == Flatten([]) + last[0];
      }
    }
  }

  // ---------------------------------------------------------------------------
  // Chunk coverage.

  lemma {:induction false} ChunksSingle(r: Request)
    ensures Chunks([r]) == if IsBlockWrite(r) then [r.data] else []
  {
    assert [r][..0] == [];
  }

  /** A command and its status poll write no firmware. */
  lemma {:induction false} CommandChunks(addr: int, command: int)
    ensures Chunks(CommandRequests(addr, command)) == []
  {
    var cmd := Request(RequestOut, DfuDnload, 0, 0, CommandPayload(addr, command));
    ChunksSingle(cmd);
    ChunksSingle(StatusRequest);
    ChunksAppend([cmd], [StatusRequest]);
    ChunksAppend([cmd] + [StatusRequest], [StatusRequest]);
    ChunksAppend([cmd] + [StatusRequest] + [StatusRequest], [StatusRequest]);
    assert CommandRequests(addr, command) == [cmd] + [StatusRequest] + [StatusRequest] + [StatusRequest];
  }

  /** Page k contributes exactly its own chunk. */
  lemma {:induction false} BlockChunks(payload: seq<byte>, k: nat)
    requires k < NumBlocks(|payload|)
    ensures Chunks(BlockRequests(payload, k)) == [Chunk(payload, k)]
  {
    var addr := PageAddress(k);
    var erase, setAddr := CommandRequests(addr, EraseAddress), CommandRequests(addr, SetAddress);
    var w := Request(RequestOut, DfuDnload, 2, 0, Chunk(payload, k));
    CommandChunks(addr, EraseAddress);
    CommandChunks(addr, SetAddress);
    ChunksSingle(w);
    ChunksAppend(erase, setAddr);
    ChunksAppend(erase + setAddr, [w]);
  }

  /** One more page adds one more chunk. */
  lemma {:induction false} BlocksUpToStep(payload: seq<byte>, k: nat)
    requires 0 < k <= NumBlocks(|payload|)
    ensures Chunks(BlocksUpTo(payload, k)) == Chunks(BlocksUpTo(payload, k - 1)) + [Chunk(payload, k - 1)]
  {
    BlockChunks(payload, k - 1);
    ChunksExtend(BlocksUpTo(payload, k - 1), BlockRequests(payload, k - 1), Chunk(payload, k - 1));
  }

  /** How far into the payload the first k pages reach. */
  function Covered(n: nat, k: nat): nat
  {
    if PageOf(k) < n then PageOf(k) else n
  }

  lemma {:induction false} CoveredStep(n: nat, k: nat)
    requires 0 < k <= NumBlocks(n)
    ensures Covered(n, k - 1) == PageOf(k - 1) < n
    ensures Covered(n, k) == ChunkEnd(n, PageOf(k - 1))
  {
  }

  /** Chunks 0 .. k-1 of the payload, in order. */
  function ChunksUpTo(payload: seq<byte>, k: nat): (cs: seq<seq<byte>>)
    requires k <= NumBlocks(|payload|)
    ensures |cs| == k
  {
    if k == 0 then [] else ChunksUpTo(payload, k - 1) + [Chunk(payload, k - 1)]
  }

  /** The first k pages write chunks 0 .. k-1. */
  lemma {:induction false} BlocksUpToWrites(payload: seq<byte>, k: nat)
    requires k <= NumBlocks(|payload|)
    ensures Chunks(BlocksUpTo(payload, k)) == ChunksUpTo(payload, k)
    decreases k
  {
    if k > 0 {
      BlocksUpToWrites(payload, k - 1);
      BlocksUpToStep(payload, k);
    }
  }

  lemma {:induction false} ChunksUpToIndex(payload: seq<byte>, k: nat)
    requires k <= NumBlocks(|payload|)
    ensures forall i :: 0 <= i < k ==> ChunksUpTo(payload, k)[i] == Chunk(payload, i)
  {
    if k > 0 {
      ChunksUpToIndex(payload, k - 1);
    }
  }

  lemma {:induction false} PrefixExtend(s: seq<byte>, i: nat, j: nat)
    requires i <= j <= |s|
    ensures s[..j] == s[..i] + s[i..j]
  {
  }

  /** Chunks 0 .. k-1 together are the first Covered(n, k) bytes of the payload. */
  lemma {:induction false} ChunksUpToCover(payload: seq<byte>, k: nat)
    requires k <= NumBlocks(|payload|)
    ensures Flatten(ChunksUpTo(payload, k)) == payload[..Covered(|payload|, k)]
    decreases k
  {
    if k > 0 {
      var c := Chunk(payload, k - 1);
      ChunksUpToCover(payload, k - 1);
      FlattenAppend(ChunksUpTo(payload, k - 1), [c]);
      assert Flatten([c]) == Flatten([]) + c;
      CoveredStep(|payload|, k);
      PrefixExtend(payload, Covered(|payload|, k - 1), Covered(|payload|, k));
    }
  }

  /** The three status polls write no firmware. */
  lemma {:induction false} PollChunks()
    ensures Chunks(PollRequests) == []
  {
    ChunksSingle(StatusRequest);
    ChunksAppend([StatusRequest], [StatusRequest]);
    ChunksAppend([StatusRequest] + [StatusRequest], [StatusRequest]);
    assert PollRequests == [StatusRequest] + [StatusRequest] + [StatusRequest];
  }

  /** Clearing the status and erasing the flash write no firmware. */
  lemma {:induction false} HeadChunks()
    ensures Chunks(SessionHead) == []
  {
    ChunksSingle(ClearStatusRequest);
    CommandChunks(0, EraseFlash);
    ChunksAppend([ClearStatusRequest], CommandRequests(0, EraseFlash));
  }

  /** The reboot's leave request carries no data, so it writes no firmware. */
  lemma {:induction false} RebootChunks()
    ensures Chunks(RebootRequests) == []
  {
    var leave := Request(RequestOut, DfuDnload, 2, 0, []);
    PollChunks();
    ChunksSingle(StatusRequest);
    ChunksSingle(leave);
    ChunksAppend(PollRequests, [leave]);
    ChunksAppend(PollRequests + [leave], [StatusRequest]);
  }

  /** Only the block loop writes firmware. */
  lemma {:induction false} SessionChunksAreBlocks(payload: seq<byte>)
    ensures Chunks(SessionRequests(payload)) == Chunks(BlocksUpTo(payload, NumBlocks(|payload|)))
  {
    var blocks := BlocksUpTo(payload, NumBlocks(|payload|));
    HeadChunks();
    RebootChunks();
    ChunksAppend(SessionHead, blocks);
    ChunksAppend(SessionHead + blocks, RebootRequests);
  }

  /** The pages reach the end of the payload. */
  lemma {:induction false} CoveredAll(n: nat)
    ensures Covered(n, NumBlocks(n)) == n
  {
  }

  /** The block loop covers the payload exactly once: one chunk per page,
      ceil(n / 2048) of them, chunk k being bytes [2048k, min(2048(k+1), n)),
      all of 2048 bytes but the last, and together the whole payload in order. */
  lemma {:induction false} SessionChunks(payload: seq<byte>)
    ensures |Chunks(SessionRequests(payload))| == NumBlocks(|payload|)
    ensures forall k :: 0 <= k < NumBlocks(|payload|) ==>
      Chunks(SessionRequests(payload))[k] == payload[PageOf(k) .. ChunkEnd(|payload|, PageOf(k))]
    ensures forall k :: 0 <= k < NumBlocks(|payload|) - 1 ==>
      |Chunks(SessionRequests(payload))[k]| == BlockSize
    ensures Flatten(Chunks(SessionRequests(payload))) == payload
  {
    var n := |payload|;
    SessionChunksAreBlocks(payload);
    BlocksUpToWrites(payload, NumBlocks(n));
    ChunksUpToIndex(payload, NumBlocks(n));
    ChunksUpToCover(payload, NumBlocks(n));
    CoveredAll(n);
    var cs := Chunks(SessionRequests(payload));
    forall k | 0 <= k < NumBlocks(n)
      ensures cs[k] == payload[PageOf(k) .. ChunkEnd(n, PageOf(k))]
      ensures k < NumBlocks(n) - 1 ==> |cs[k]| == BlockSize
    {
      PageBounds(n, k);
    }
  }

  // ---------------------------------------------------------------------------
  // The shape of the trace.

  const HeadLength: nat := 5
  const PageLength: nat := 9
  const RebootLength: nat := 5

  /** The block loop runs while `page < fileSize`, which is while k < ceil(n / 2048). */
  lemma {:induction false} PageInRange(n: nat, k: nat)
    requires k <= NumBlocks(n)
    ensures PageOf(k) < n <==> k < NumBlocks(n)
  {
  }

  /** Page k erases at, then sets, the address 0x08000000 + 2048k, and writes its chunk. */
  lemma {:induction false} BlockRequestsShape(payload: seq<byte>, k: nat)
    requires k < NumBlocks(|payload|)
    ensures |BlockRequests(payload, k)| == PageLength
    ensures var addr := StartAddress + PageOf(k);
      BlockRequests(payload, k) ==
        CommandRequests(addr, EraseAddress) + CommandRequests(addr, SetAddress) +
        [Request(RequestOut, DfuDnload, 2, 0, Chunk(payload, k))]
  {
    PageAddressValue(k);
  }

  /** Where the checks of page k's two commands fall among its requests:
      after the erase command (four requests) and after the set-address
      command (eight). */
  lemma {:induction false} PageCommands(payload: seq<byte>, k: nat, addr: int)
    requires k < NumBlocks(|payload|) && addr == StartAddress + PageOf(k)
    ensures var reqs := BlockRequests(payload, k);
      reqs[..4] == CommandRequests(addr, EraseAddress) &&
      reqs[..8] == CommandRequests(addr, EraseAddress) + CommandRequests(addr, SetAddress)
  {
    var erase, address := CommandRequests(addr, EraseAddress), CommandRequests(addr, SetAddress);
    BlockRequestsShape(payload, k);
    assert |erase| == 4 && |address| == 4;
  }

  /** The ninth and last request of page k writes its chunk. */
  lemma {:induction false} PageWrite(payload: seq<byte>, k: nat)
    requires k < NumBlocks(|payload|)
    ensures var reqs := BlockRequests(payload, k);
      reqs[..PageLength] == reqs[..8] + [Request(RequestOut, DfuDnload, 2, 0, Chunk(payload, k))]
  {
    BlockRequestsShape(payload, k);
  }

  lemma {:induction false} AppendAssoc<T>(a: seq<T>, b: seq<T>, c: seq<T>)
    ensures a + b + c == a + (b + c)
  {
  }

  lemma {:induction false} TakeConcat<T>(a: seq<T>, b: seq<T>, m: nat)
    requires m <= |b|
    ensures (a + b)[..|a| + m] == a + b[..m]
  {
  }

  lemma {:induction false} TakeLeft<T>(a: seq<T>, b: seq<T>, m: nat)
    requires m <= |a|
    ensures (a + b)[..m] == a[..m]
  {
  }

  lemma {:induction false} TakeWithin<T>(s: seq<T>, a: seq<T>, b: seq<T>, m: nat)
    requires |a + b| <= |s| && s[..|a + b|] == a + b && m <= |b|
    ensures s[..|a| + m] == a + b[..m]
  {
    assert s[..|a| + m] == s[..|a + b|][..|a| + m];
  }

  /** A prefix of `b` is a prefix of `b + c`. */
  lemma {:induction false} PrefixOfAppend<T>(a: seq<T>, b: seq<T>, c: seq<T>)
    requires |a| <= |b| && b[..|a|] == a
    ensures |a| <= |b + c| && (b + c)[..|a|] == a
  {
    TakeLeft(b, c, |a|);
  }

  /** The first k pages begin the requests of the first j pages. */
  lemma {:induction false} BlocksUpToPrefix(payload: seq<byte>, k: nat, j: nat)
    requires k <= j <= NumBlocks(|payload|)
    ensures |BlocksUpTo(payload, k)| <= |BlocksUpTo(payload, j)|
    ensures BlocksUpTo(payload, j)[..|BlocksUpTo(payload, k)|] == BlocksUpTo(payload, k)
    decreases j - k
  {
    if k == j {
      var blocks := BlocksUpTo(payload, j);
      assert blocks[..|blocks|] == blocks;
    } else {
      BlocksUpToPrefix(payload, k, j - 1);
      PrefixOfAppend(BlocksUpTo(payload, k), BlocksUpTo(payload, j - 1), BlockRequests(payload, j - 1));
    }
  }

  /** A session's requests: the head, nine per page, five for the reboot. */
  lemma {:induction false} SessionLength(payload: seq<byte>)
    ensures |SessionRequests(payload)| == HeadLength + PageLength * NumBlocks(|payload|) + RebootLength
    ensures SessionRequests(payload)[..1] == [ClearStatusRequest]
    ensures SessionRequests(payload)[..HeadLength] == SessionHead
  {
    var blocks := BlocksUpTo(payload, NumBlocks(|payload|));
    TakeLeft(SessionHead + blocks, RebootRequests, HeadLength);
    TakeLeft(SessionHead, blocks, HeadLength);
    TakeLeft(SessionHead + blocks, RebootRequests, 1);
    TakeLeft(SessionHead, blocks, 1);
  }

  /** The first 9k + u block requests: k whole pages and u requests of page k. */
  lemma {:induction false} BlocksTake(payload: seq<byte>, k: nat, u: nat)
    requires k < NumBlocks(|payload|) && u <= PageLength
    ensures PageLength * k + u <= |BlocksUpTo(payload, NumBlocks(|payload|))|
    ensures BlocksUpTo(payload, NumBlocks(|payload|))[..PageLength * k + u] ==
      BlocksUpTo(payload, k) + BlockRequests(payload, k)[..u]
  {
    BlocksUpToPrefix(payload, k + 1, NumBlocks(|payload|));
    BlockRequestsShape(payload, k);
    TakeWithin(BlocksUpTo(payload, NumBlocks(|payload|)), BlocksUpTo(payload, k), BlockRequests(payload, k), u);
  }

  /** Cutting a session inside the block loop keeps the whole head. */
  lemma {:induction false} SessionTake(payload: seq<byte>, m: nat)
    requires m <= |BlocksUpTo(payload, NumBlocks(|payload|))|
    ensures SessionRequests(payload)[..HeadLength + m] ==
      SessionHead + BlocksUpTo(payload, NumBlocks(|payload|))[..m]
  {
    var blocks := BlocksUpTo(payload, NumBlocks(|payload|));
    TakeLeft(SessionHead + blocks, RebootRequests, HeadLength + m);
    TakeConcat(SessionHead, blocks, m);
  }

  /** A session cut short u requests into page k has issued the head, the
      first k pages and the first u requests of page k. */
  lemma {:induction false} SessionPrefix(payload: seq<byte>, k: nat, u: nat)
    requires k < NumBlocks(|payload|) && u <= PageLength
    ensures HeadLength + PageLength * k + u <= |SessionRequests(payload)|
    ensures SessionRequests(payload)[..HeadLength + PageLength * k + u] ==
      SessionHead + BlocksUpTo(payload, k) + BlockRequests(payload, k)[..u]
  {
    SessionLength(payload);
    BlocksTake(payload, k, u);
    SessionTake(payload, PageLength * k + u);
  }

  // ---------------------------------------------------------------------------
  // The byte count of a session.

  /** The head of a session writes no firmware, whatever the replies. */
  lemma {:induction false} HeadSent(replies: seq<Reply>, from: nat)
    ensures SentCount(SessionHead, replies, from) == 0
  {
    SentCountNoWrites(SessionHead, replies, from);
  }

  /** Neither does the reboot. */
  lemma {:induction false} RebootSent(replies: seq<Reply>, from: nat)
    ensures SentCount(RebootRequests, replies, from) == 0
  {
    SentCountNoWrites(RebootRequests, replies, from);
  }

  /** Of a page's nine requests only the last, the block write, counts. */
  lemma {:induction false} BlockSent(payload: seq<byte>, k: nat, replies: seq<Reply>, from: nat)
    requires k < NumBlocks(|payload|)
    ensures SentCount(BlockRequests(payload, k), replies, from) == ReplyAt(replies, from + 8).count
  {
    var reqs := BlockRequests(payload, k);
    BlockRequestsShape(payload, k);
    assert IsBlockWrite(reqs[8]);
    SentCountNoWrites(reqs[..8], replies, from);
  }

  /** Page k adds the count of the reply to its block write, the ninth reply
      from where the page began. */
  lemma {:induction false} BlocksSentStep(payload: seq<byte>, k: nat, replies: seq<Reply>, from: nat, at: nat)
    requires k < NumBlocks(|payload|) && at == from + PageLength * k
    ensures SentCount(BlocksUpTo(payload, k + 1), replies, from) ==
      SentCount(BlocksUpTo(payload, k), replies, from) + ReplyAt(replies, at + 8).count
  {
    SentCountAppend(BlocksUpTo(payload, k), BlockRequests(payload, k), replies, from);
    BlockSent(payload, k, replies, at);
  }

  /** Requests that write nothing on either side of `mid` leave the count of
      `mid` alone. */
  lemma {:induction false} SentCountBetween(head: seq<Request>, mid: seq<Request>, tail: seq<Request>, replies: seq<Reply>)
    requires SentCount(head, replies, 0) == 0 && SentCount(tail, replies, |head| + |mid|) == 0
    ensures SentCount(head + mid + tail, replies, 0) == SentCount(mid, replies, |head|)
  {
    SentCountAppend(head, mid, replies, 0);
    SentCountAppend(head + mid, tail, replies, 0);
  }

  /** The count of a whole session is the count of its block loop, which
      starts five replies in. */
  lemma {:induction false} SessionSent(payload: seq<byte>, replies: seq<Reply>)
    ensures SentCount(SessionRequests(payload), replies, 0) ==
      SentCount(BlocksUpTo(payload, NumBlocks(|payload|)), replies, HeadLength)
  {
    var blocks := BlocksUpTo(payload, NumBlocks(|payload|));
    HeadSent(replies, 0);
    RebootSent(replies, |SessionHead| + |blocks|);
    SentCountBetween(SessionHead, blocks, RebootRequests, replies);
  }

  /** When the device acknowledges every block write in full, the count of a
      session is the size of the firmware. */
  lemma {:induction false} CompleteSessionSendsPayload(payload: seq<byte>, replies: seq<Reply>)
    requires WritesComplete(SessionRequests(payload), replies, 0)
    ensures SentCount(SessionRequests(payload), replies, 0) == |payload|
  {
    SentCountComplete(SessionRequests(payload), replies, 0);
    SessionChunks(payload);
  }

}
