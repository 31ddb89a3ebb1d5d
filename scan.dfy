/** Device enumeration: `ScanDevices` (modules/dfu/flasher.go:310-341). The
    descriptors of the attached devices are an input; the enumeration error
    that gousb's `OpenDevices` may return is discarded by the source and does
    not appear here either. */
module Scan {
  import opened Base
  import opened Catalog

  datatype FoundDevice = FoundDevice(isDfu: bool, metadata: DeviceMetadata, desc: DeviceDesc)

  /** gousb's `OpenDevices(isSupported)`: the attached devices the predicate
      accepts, in enumeration order. */
  function OpenDevices(attached: seq<DeviceDesc>): (devs: seq<DeviceDesc>)
    ensures |devs| <= |attached|
    ensures forall d :: d in devs <==> d in attached && IsSupported(d)
  {
    if attached == [] then []
    else if IsSupported(attached[0]) then [attached[0]] + OpenDevices(attached[1..])
    else OpenDevices(attached[1..])
  }

  /** A single device is kept exactly when it is supported. */
  lemma {:induction false} OpenDevicesSingle(d: DeviceDesc)
    ensures OpenDevices([d]) == if IsSupported(d) then [d] else []
  {
    assert [d][1..] == [];
  }

  /** Enumeration keeps order and keeps one entry per accepted descriptor: the
      devices opened from `a + b` are those opened from `a`, then those opened
      from `b`. */
  lemma {:induction false} OpenDevicesAppend(a: seq<DeviceDesc>, b: seq<DeviceDesc>)
    ensures OpenDevices(a + b) == OpenDevices(a) + OpenDevices(b)
    decreases |a|
  {
    if |a| == 0 {
      assert a + b == b;
    } else {
      assert (a + b)[0] == a[0] && (a + b)[1..] == a[1..] + b;
      OpenDevicesAppend(a[1..], b);
    }
  }

  /** One `FoundDevice` per supported device, in enumeration order, carrying
      the catalog entry `getMetdata` finds for it; it is a DFU device exactly
      when that entry is the one named "dfu", which is only 0x0483:0xdf11. */
  method ScanDevices(attached: seq<DeviceDesc>) returns (devices: seq<FoundDevice>)
    ensures |devices| == |OpenDevices(attached)|
    ensures forall i :: 0 <= i < |devices| ==>
      devices[i].desc == OpenDevices(attached)[i] &&
      GetMetadata(devices[i].desc) == Some(devices[i].metadata) &&
      devices[i].isDfu == (devices[i].metadata.name == DfuName)
    ensures forall i :: 0 <= i < |devices| ==>
      (devices[i].isDfu <==> devices[i].desc == DeviceDesc(0x0483, 0xdf11))
  {
    var devs := OpenDevices(attached);
    devices := [];
    for i := 0 to |devs|
      invariant |devices| == i
      invariant forall j :: 0 <= j < i ==>
        devices[j].desc == devs[j] &&
        GetMetadata(devices[j].desc) == Some(devices[j].metadata) &&
        devices[j].isDfu == (devices[j].metadata.name == DfuName)
      invariant forall j :: 0 <= j < i ==>
        (devices[j].isDfu <==> devices[j].desc == DeviceDesc(0x0483, 0xdf11))
    {
      assert devs[i] in devs;
      SupportedIffMetadata(devs[i]);
      DfuEntryIsUnique(devs[i]);
      var metadata := GetMetadata(devs[i]).value;
      devices := devices + [FoundDevice(metadata.name == DfuName, metadata, devs[i])];
    }
  }
}
