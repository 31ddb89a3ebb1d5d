/** The DFU file suffix check of `extractSuffix` (modules/dfu/flasher.go:163-185).
    The suffix is the 16-byte trailer of Appendix B of the USB Device Firmware
    Upgrade 1.1 specification; its signature "UFD" sits at trailer offsets 8-10
    and is read back to front. The identifiers are combined with Go `byte`
    arithmetic, in which `b << 8` is 0, so only the low byte of each survives. */
module Suffix {
  import opened Base

  const SuffixLength: nat := 16
  const SuffixVendorId: int := 0x83
  const SuffixProductId: int := 0x11

  /** The bytes of the string "DFU". */
  const DfuTag: seq<byte> := [0x44, 0x46, 0x55]

  /** The error `extractSuffix` builds when the suffix names another device;
      it carries the expected and the observed ids (its text is not modelled). */
  datatype SuffixError = IdMismatch(expectedVid: int, expectedPid: int, vid: int, pid: int)

  /** What `extractSuffix` does: panic on the slice, or return its three results. */
  datatype Extraction =
    | SliceOutOfRange
    | Extracted(hasSuffix: bool, data: seq<byte>, err: Option<SuffixError>)

  /** `string(suffix[10]) + string(suffix[9]) + string(suffix[8])`. */
  function Signature(suffix: seq<byte>): seq<byte>
    requires |suffix| == SuffixLength
  {
    RuneString(suffix[10]) + RuneString(suffix[9]) + RuneString(suffix[8])
  }

  /** `int((suffix[5] << 8) + suffix[4])`: the shift and the sum are on bytes. */
  function SuffixVid(suffix: seq<byte>): (vid: int)
    requires |suffix| == SuffixLength
    ensures vid == suffix[4] as int
  {
    (ShiftLeft(suffix[5], 8) + suffix[4]) as int
  }

  /** `int((suffix[3] << 8) + suffix[2])`. */
  function SuffixPid(suffix: seq<byte>): (pid: int)
    requires |suffix| == SuffixLength
    ensures pid == suffix[2] as int
  {
    (ShiftLeft(suffix[3], 8) + suffix[2]) as int
  }

  /** The three rune strings spell "DFU" exactly when the bytes are 'D', 'F'
      and 'U': a byte from 0x80 on becomes two bytes and makes the text longer. */
  lemma {:induction false} SignatureIsDfuIff(a: byte, b: byte, c: byte)
    ensures RuneString(a) + RuneString(b) + RuneString(c) == DfuTag
      <==> a == 0x44 && b == 0x46 && c == 0x55
  {
    var s := RuneString(a) + RuneString(b) + RuneString(c);
    RuneStringShape(a);
    RuneStringShape(b);
    RuneStringShape(c);
    if s == DfuTag {
      assert |RuneString(a)| == 1 && |RuneString(b)| == 1 && |RuneString(c)| == 1;
      assert s[0] == a && s[1] == b && s[2] == c;
    }
  }

  /** The trailer's signature bytes, in file coordinates. */
  predicate HasDfuSignature(file: seq<byte>)
    requires |file| >= SuffixLength
  {
    file[|file| - 6] == 0x44 && file[|file| - 7] == 0x46 && file[|file| - 8] == 0x55
  }

  function ExtractSuffix(file: seq<byte>): (r: Extraction)
    // the slice `fileData[fileSize-16 : fileSize]` panics on a shorter file
    ensures r.SliceOutOfRange? <==> |file| < SuffixLength
    ensures r.Extracted? ==> (r.hasSuffix <==> HasDfuSignature(file))
    // the data is always a prefix of the file
    ensures r.Extracted? ==> r.data <= file
    // without the signature the whole file comes back, with no error
    ensures r.Extracted? && !r.hasSuffix ==> r.data == file && r.err == None
    // a signature naming any device but 0x83:0x11 (low bytes at offsets 4 and 2)
    ensures r.Extracted? && r.hasSuffix &&
            (file[|file| - 12] as int != SuffixVendorId || file[|file| - 14] as int != SuffixProductId) ==>
              r.data == file &&
              r.err == Some(IdMismatch(SuffixVendorId, SuffixProductId,
                                       file[|file| - 12] as int, file[|file| - 14] as int))
    // a matching suffix is cut off, leaving a proper prefix
    ensures r.Extracted? && r.hasSuffix &&
            file[|file| - 12] as int == SuffixVendorId && file[|file| - 14] as int == SuffixProductId ==>
              r.data == file[..|file| - SuffixLength] && r.err == None
  {
    var fileSize := |file|;
    if fileSize < SuffixLength then SliceOutOfRange
    else
      var suffix := file[fileSize - SuffixLength .. fileSize];
      assert suffix[10] == file[fileSize - 6] && suffix[9] == file[fileSize - 7] && suffix[8] == file[fileSize - 8];
      assert suffix[4] == file[fileSize - 12] && suffix[2] == file[fileSize - 14];
      SignatureIsDfuIff(suffix[10], suffix[9], suffix[8]);
      if Signature(suffix) == DfuTag then
        var vid := SuffixVid(suffix);
        var pid := SuffixPid(suffix);
        if vid != SuffixVendorId || pid != SuffixProductId then
          Extracted(true, file, Some(IdMismatch(SuffixVendorId, SuffixProductId, vid, pid)))
        else
          Extracted(true, file[0 .. fileSize - SuffixLength], None)
      else
        Extracted(false, file, None)
  }
}
