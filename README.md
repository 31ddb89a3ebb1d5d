# regolith DFU flasher, modelled in Dafny

regolith watches a directory for new keyboard firmware and flashes it over
USB. This project models its flashing engine (`modules/dfu/flasher.go`) and
the watcher's firmware-file filter (`modules/firmware/watcher.go`):

- **Catalog** (`catalog.dfy`): the `SupportedVendors` table and the two
  first-match lookups over it, `isSupported` and `getMetdata`.
- **Scan** (`scan.dfy`): `ScanDevices`. It builds one `FoundDevice` per
  supported attached device and classifies the device as in DFU mode when
  the entry found is the one named "dfu".
- **Suffix** (`suffix.dfy`): `extractSuffix`, the check of the 16-byte DFU
  file suffix of Appendix B of the USB Device Firmware Upgrade 1.1
  specification. Go's `byte` arithmetic is kept as written: `b << 8` is 0
  on a byte, so only the low byte of each id survives.
- **Usb** (`usb.dfy`): the device as the flasher sees it. The i-th control
  transfer is answered with the i-th of a list of replies, and every
  request issued is logged. A clock records the pauses asked of it.
- **Protocol** (`protocol.dfy`): the `FlashState` record and the requests
  `dfuCommand`, `dfuGetStatus`, `dfuPollTimeout`, `dfuClearStatus` and
  `dfuReboot`. It covers the DfuSe payloads (0x21 set address, 0x41
  erase) and the status poller with its three attempts.
- **Plan** (`plan.dfy`): the request sequence of a complete flash session.
  Each page of 2048 bytes at 0x08000000 + offset gets an erase, a set
  address and a block write. The module proves the chunks cover the
  firmware exactly once, in order.
- **Session** (`session.dfy`): `execFlash` as an imperative session over
  the device, proved against the functions `SessionRun`, `Outcome` and
  `Trace`, plus the `DfuFlash` front end. Every `log.Fatalf` is an exit of
  the process (`Fatal(stage)`); the slice of a too-short file is `Panicked`.
- **Watcher** (`watcher.dfy`): Go's `path.Ext`, `isFirmwareFile`, and the
  create/modify test that decides which file-system notifications are
  forwarded.

## Model

| member | source | states |
|---|---|---|
| Base.ByteOf | modules/dfu/flasher.go:98-101 | Go's `byte(n)` of a value in 0..255 is that value |
| Base.ShiftLeft | modules/dfu/flasher.go:172-173 | a shift of a `byte` by 8 or more positions is 0; a shift by 0 leaves it |
| Base.RuneStringShape | modules/dfu/flasher.go:168 | `string(b)` is one byte, b itself, exactly when b < 0x80, and otherwise two bytes that are both 0x80 or more |
| Base.RuneStringInjective | modules/dfu/flasher.go:168 | different bytes give different `string(b)` |
| Catalog.FindDevice | modules/dfu/flasher.go:287-291 | the inner loop stops at the first device whose product id matches; nothing is found only when none matches |
| Catalog.FindEntry | modules/dfu/flasher.go:285-293 | the position the nested loops stop at is a match of both vendor and product id |
| Catalog.FindEntryIsFirstMatch | modules/dfu/flasher.go:284-295 | the lookup finds nothing exactly when no entry matches, and otherwise the first match in vendor-major table order |
| Catalog.AnyDeviceIffFound | modules/dfu/flasher.go:300-304 | the inner loop of `isSupported` returns true exactly when that of `getMetdata` finds a device |
| Catalog.AnyVendorIffFound | modules/dfu/flasher.go:297-308 | the loops of `isSupported` return true exactly when those of `getMetdata` find an entry, on any table |
| Catalog.SupportedIffMetadata | modules/dfu/flasher.go:284-308 | `isSupported(d)` holds iff `getMetdata(d)` returns an entry, and that entry is the first in table order matching both ids |
| Catalog.DfuEntryIsUnique | modules/dfu/flasher.go:36-74 | only 0x0483:0xdf11 resolves to the entry named "dfu"; the halfkay and zsa boards never do |
| Scan.OpenDevices | modules/dfu/flasher.go:326 | the devices opened are exactly the attached ones that `isSupported` accepts, never more of them |
| Scan.OpenDevicesSingle | modules/dfu/flasher.go:326 | one attached device is opened exactly when `isSupported` accepts it |
| Scan.OpenDevicesAppend | modules/dfu/flasher.go:326 | enumeration keeps order and opens each accepted device once: the devices opened from two stretches of attached devices are those of the first stretch, then those of the second |
| Scan.ScanDevices | modules/dfu/flasher.go:321-341 | one `FoundDevice` per supported device, in enumeration order, each carrying the entry `getMetdata` finds; it is DFU iff the entry is named "dfu", iff the device is 0x0483:0xdf11 |
| Suffix.SuffixVid | modules/dfu/flasher.go:172 | the vendor id computed from the suffix is byte 4 alone |
| Suffix.SuffixPid | modules/dfu/flasher.go:173 | the product id computed from the suffix is byte 2 alone |
| Suffix.SignatureIsDfuIff | modules/dfu/flasher.go:168-171 | the three rune strings spell "DFU" iff the bytes are exactly 'D', 'F', 'U' |
| Suffix.ExtractSuffix | modules/dfu/flasher.go:163-185 | panics iff the file is shorter than 16 bytes; the signature decides `hasSuffix`; without it the whole file comes back with no error; a signature with ids other than 0x83:0x11 returns the whole file and the mismatch error; a matching one returns the file minus its 16-byte suffix |
| Usb.BufferAfter | modules/dfu/flasher.go:136-137 | a transfer leaves the buffer's length unchanged |
| Usb.BufferAfterEffect | modules/dfu/flasher.go:136-137 | an OUT transfer leaves the buffer alone; an IN transfer writes the received bytes over its front |
| Usb.Device.Control | modules/dfu/flasher.go:264 | a transfer appends its request to the log and returns the count and error of the reply for its position |
| Usb.Clock.Sleep | modules/dfu/flasher.go:130 | a pause is recorded after the earlier ones |
| Protocol.FlashState.constructor | modules/dfu/flasher.go:188 | `FlashState{}` has Go's zero values in every field |
| Protocol.AddressBytes | modules/dfu/flasher.go:98-101 | the address is sent as four bytes |
| Protocol.AddressBytesDecode | modules/dfu/flasher.go:98-101 | the four address bytes, read little-endian, give back the low 32 bits of the address |
| Protocol.CommandPayloadLayout | modules/dfu/flasher.go:94-114 | set address is 0x21 then the address, erase address 0x41 then the address, full erase the single byte 0x41, and any other command sends no data |
| Protocol.PollTimeoutValue | modules/dfu/flasher.go:143 | `bwPollTimeout` is the bitwise OR of `buf[1]` and `buf[2]`, because the shift by 16 on a byte is 0; it stays within a byte |
| Protocol.ApplyStatusEffect | modules/dfu/flasher.go:137-146 | an error or a short read leaves the status fields alone; a full six-byte reply sets bStatus, bState and iString from bytes 0, 4 and 5 and the timeout from bytes 1 and 2 |
| Protocol.PolledBounded | modules/dfu/flasher.go:127-133 | however many replies arrive, the poll timeout stays within 0..255 |
| Protocol.PollSleeps | modules/dfu/flasher.go:128-131 | one pause per poll |
| Protocol.GetStatus | modules/dfu/flasher.go:135-148 | one DFU_GETSTATUS; the status changes as `ApplyStatus` says, the progress fields do not, and the transfer's error is returned |
| Protocol.PollOnce | modules/dfu/flasher.go:129-130 | one round of the poll loop: a DFU_GETSTATUS, then a pause of the timeout it left |
| Protocol.PollTimeoutStatus | modules/dfu/flasher.go:127-133 | exactly three DFU_GETSTATUS requests, each followed by a pause of the timeout it left; only the third error is returned |
| Protocol.ClearStatus | modules/dfu/flasher.go:150-153 | one DFU_CLRSTATUS with value 2 and no data; its error is returned |
| Protocol.Command | modules/dfu/flasher.go:93-125 | the command as a DFU_DNLOAD, then a status poll; the command's own error is discarded and the poll's last error returned |
| Protocol.Reboot | modules/dfu/flasher.go:155-161 | a poll, the leave request, a one-second pause and a final DFU_GETSTATUS, whose error alone is returned |
| Plan.PageBounds | modules/dfu/flasher.go:246-252 | page k of ceil(n/2048) starts inside the firmware; all but the last page are full |
| Plan.Chunk | modules/dfu/flasher.go:263 | every chunk holds between 1 and 2048 bytes |
| Plan.ChunkAt | modules/dfu/flasher.go:248-263 | the loop's `chunckSize` slices out exactly chunk k, within the firmware |
| Plan.PageAddressValue | modules/dfu/flasher.go:247 | page k is flashed at 0x08000000 + 2048k |
| Plan.BlockRequests | modules/dfu/flasher.go:254-264 | a page issues nine requests |
| Plan.BlocksUpTo | modules/dfu/flasher.go:246-271 | k pages issue 9k requests |
| Plan.SentCountNoWrites | modules/dfu/flasher.go:270 | requests without block writes add nothing to `sent` and write no firmware |
| Plan.SentCountComplete | modules/dfu/flasher.go:264-270 | when every block write is acknowledged in full, `sent` grows by the bytes written |
| Plan.BlocksUpToWrites | modules/dfu/flasher.go:246-271 | the first k pages write chunks 0 .. k-1, in order |
| Plan.ChunksUpToCover | modules/dfu/flasher.go:246-263 | chunks 0 .. k-1 together are the firmware's first min(2048k, n) bytes |
| Plan.SessionChunksAreBlocks | modules/dfu/flasher.go:233-277 | only the block loop writes firmware: not the clear, the erase or the reboot |
| Plan.SessionChunks | modules/dfu/flasher.go:246-271 | a session writes ceil(n/2048) chunks, chunk k being bytes [2048k, min(2048(k+1), n)), all full but the last, and together the whole firmware in order |
| Plan.PageInRange | modules/dfu/flasher.go:246 | `page < fileSize` holds exactly while fewer than ceil(n/2048) pages are done |
| Plan.BlockRequestsShape | modules/dfu/flasher.go:247-264 | page k erases at, then sets, the address 0x08000000 + 2048k, and writes its chunk with DFU_DNLOAD value 2 |
| Plan.PageCommands | modules/dfu/flasher.go:254-260 | the erase's check falls after a page's 4th request, the set address's after its 8th |
| Plan.PageWrite | modules/dfu/flasher.go:263-264 | a page's 9th request is the block write |
| Plan.SessionLength | modules/dfu/flasher.go:233-277 | a complete session issues 5 + 9 * pages + 5 requests and starts with the clear and the full erase |
| Plan.SessionPrefix | modules/dfu/flasher.go:233-271 | a session cut short u requests into page k has issued the head, pages 0 .. k-1 and u requests of page k |
| Plan.BlockSent | modules/dfu/flasher.go:264-270 | of a page's nine requests only the block write adds to `sent` |
| Plan.BlocksSentStep | modules/dfu/flasher.go:264-270 | page k adds the count of the reply to its block write |
| Plan.SessionSent | modules/dfu/flasher.go:230-281 | what a whole session counts is what its block loop counts |
| Plan.CompleteSessionSendsPayload | modules/dfu/flasher.go:230-281 | when every block write is acknowledged in full, `sent` ends equal to the firmware's size |
| Session.Preflight | modules/dfu/flasher.go:187-212 | only a readable file of 16 bytes or more, without a DFU signature, for a device in DFU mode is flashed, and then the whole file; a missing file, a short file, a suffixed file and a non-DFU device each end the call with their own exit |
| Session.PagesRunBounds | modules/dfu/flasher.go:246-271 | the block loop issues at most the requests of the pages left, all of them when no page fails, and stops only at a page's own check |
| Session.SessionRunBounds | modules/dfu/flasher.go:230-281 | a session issues a prefix of a complete run's requests, all of them iff it returns or fails at the reboot; it never panics |
| Session.PagesPassIff | modules/dfu/flasher.go:246-271 | no page fails iff the erase, set-address and write checks of every page pass |
| Session.PagesSent | modules/dfu/flasher.go:246-271 | a block loop that runs to its end adds the counts the device reported for every block write |
| Session.SessionReturnsIff | modules/dfu/flasher.go:230-281 | a session returns iff every reply it checks is a success |
| Session.PreparePage | modules/dfu/flasher.go:254-261 | erase then set the address of page k; the first failed check ends the page after 4 or 8 of its requests |
| Session.WritePage | modules/dfu/flasher.go:247-270 | one turn of the block loop: the page's requests up to its first failed check, and `sent` grows by the write's count when all pass |
| Session.PagePassed | modules/dfu/flasher.go:246-271 | a page that passes keeps the loop invariant for the next page |
| Session.PageStopped | modules/dfu/flasher.go:246-271 | a page that fails ends the loop with the requests and count `PagesRun` gives |
| Session.PageTurn | modules/dfu/flasher.go:246-271 | one turn keeps the loop invariant or ends the loop as `PagesRun` says |
| Session.WritePages | modules/dfu/flasher.go:246-271 | the block loop issues the requests `PagesRun` gives, ends at the failure it gives, and adds the count it gives to `sent` |
| Session.Prepare | modules/dfu/flasher.go:233-244 | clear the status, move to step 1, erase the whole flash; each check that fails ends the session |
| Session.Conclude | modules/dfu/flasher.go:273-281 | reboot, then step 2 and complete, unless the reboot's check fails |
| Session.SessionRunAfterHead | modules/dfu/flasher.go:246-281 | after a head that passed, the session ends where the block loop stops, or else at the reboot |
| Session.LoopFailed | modules/dfu/flasher.go:246-271 | a block loop that stops at a check ends the session there, with a prefix of the requests issued |
| Session.LoopCompleted | modules/dfu/flasher.go:246-271 | a block loop that passes every page has issued the head and every page |
| Session.LoopPassed | modules/dfu/flasher.go:246-281 | after a loop that passed, only the reboot is left, and `sent` is the count of the whole session |
| Session.Transfer | modules/dfu/flasher.go:246-281 | the block loop and the reboot issue a prefix of the session's requests and end as `SessionRun` says; a return leaves step 2, complete, and the session's count in `sent` |
| Session.RunSession | modules/dfu/flasher.go:230-281 | with the device just opened, the requests issued and the end are those of `SessionRun`; a return leaves step 2, complete, and the count of every block write in `sent` |
| Session.ExecFlash | modules/dfu/flasher.go:187-282 | `execFlash` ends as `Outcome` says and sends the requests `Trace` gives; a return means the whole firmware went out, with step 2, complete, total = firmware size and sent = the acknowledged counts |
| Session.DfuFlash.constructor | modules/dfu/flasher.go:355-360 | `NewDfuFlash` keeps the firmware path |
| Session.DfuFlash.Flash | modules/dfu/flasher.go:347-353 | `Flash` runs `execFlash` on its path, returns the path, and never returns an error |
| Watcher.ExtShape | modules/firmware/watcher.go:21 | a non-empty `path.Ext(p)` is a dot, then neither dots nor slashes, and it ends p |
| Watcher.ExtEmpty | modules/firmware/watcher.go:21 | `path.Ext(p)` is empty iff every dot in p has a slash after it |
| Watcher.ExtOfSuffix | modules/firmware/watcher.go:21 | a path ending in an extension has that extension, whatever comes before |
| Watcher.FirmwareFileIff | modules/firmware/watcher.go:20-23 | `isFirmwareFile(p)` iff p ends in ".hex" or ".bin" |
| Watcher.FirmwareFileExamples | modules/firmware/watcher.go:20-23 | "fw.BIN", "fw.Hex", "fw.hex.tmp", "firmware" and "out.bin/readme" are rejected; "build/fw.hex" and "fw.tmp.bin" are accepted |
| Watcher.ForwardIff | modules/firmware/watcher.go:29-34 | a notification is forwarded iff it is a create or a modify of a name ending in ".hex" or ".bin", under the same name |
| Watcher.ForwardedAppend | modules/firmware/watcher.go:27-39 | forwarding works one notification at a time: consecutive stretches of notifications forward their events one after the other |
| Watcher.ForwardedNames | modules/firmware/watcher.go:27-39 | at most one event per notification, and a name is forwarded iff some relevant notification carries it |

## Left out

- The gousb context is not modelled: device opening, `SetAutoDetach`,
  `ControlTimeout`, `Config(1)` and the `log.Fatalf` on a failed `Config`,
  and closing the devices. The opened device is a `Usb.Device` that answers
  from a list of replies.
- `ioutil.ReadFile` is a lookup in a map from path to contents; a missing
  path stands for every read error.
- `time.Sleep` only records the requested duration; no time passes.
- The texts of the `log.Fatalf` messages and of the suffix error are not
  modelled; each fatal path is a distinct `Stage`.
- Go's 64-bit `int` is unbounded here. Addresses and byte counts of real
  firmware stay far below 2^63.
- The fsnotify watcher is not modelled: its construction, `Watch`, `Close`,
  the goroutine and its channels, and the error forwarding. Forwarding is
  stated over a sequence of notifications. How fsnotify maps kernel masks to
  `IsCreate`/`IsModify` is not part of this model; a notification carries
  the kinds of change it reports.
- `cmd/regolith.go` (command line, setup prompt, signal handling) is not
  part of this model, and neither is `util.ExpandPath`.
- The unused ergodox constants are not modelled.
- Session.ExecFlash: the final status fields (`bStatus`, `bwPollTimeout`,
  `bState`, `iString`) and the recorded pauses (`Clock.slept`) are not
  stated. `Protocol`'s `GetStatus`, `PollTimeoutStatus`, `Command` and
  `Reboot` state them per call.
- Session.PreparePage: the status fields and the pauses are not stated, as
  for `ExecFlash`.
- Session.WritePage: the status fields and the pauses are not stated.
- Session.PageTurn: the status fields and the pauses are not stated.
- Session.WritePages: the status fields and the pauses are not stated.
- Session.Prepare: the status fields and the pauses are not stated.
- Session.Conclude: the status fields and the pauses are not stated.
- Session.ExecFlash: on an exit other than a return, the state's progress
  fields are not stated. `log.Fatalf` ends the process, so nobody sees them.
- Session.Transfer, Session.RunSession: `step` and `sent` are stated only
  for a session that returns, for the same reason.

Where the code and the behaviour described for the system disagree, the
model follows the code:

- A file shorter than 16 bytes makes `extractSuffix` panic on the slice. It
  is not treated as a file without a suffix.
- The suffix's vendor and product ids are single bytes (offsets 4 and 2).
  The high byte is lost to the `byte` shift.
- `bwPollTimeout` is `buf[1] | buf[2]`; `buf[3]` is lost to the `byte`
  shift.
- Each poll sleeps for the `bwPollTimeout` that its own DFU_GETSTATUS has
  just left in the state (modules/dfu/flasher.go:129-130), not for the one
  read by the poll before it, so the first poll's pause is not fixed at 0
  (`Protocol.PollOnce`).
- `dfuCommand` discards the error of its command transfer. `dfuPollTimeout`
  always makes three attempts and returns only the last error. `dfuReboot`
  returns only its final DFU_GETSTATUS's error.
- Each failed check ends the process through `log.Fatalf` with its own
  stage. There is no single block-write error carrying the offset.
- A device not in DFU mode ends the process; it is not reported per device.
- `FlashState.Error` is never set, so `Flash` never returns an error.
- A file with a valid DFU suffix is refused (`UnexpectedFileType`), so a
  suffixed image is never flashed.
