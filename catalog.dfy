/** The fixed table of supported USB vendors and products, and the two
    first-match lookups over it (modules/dfu/flasher.go:25-74, 284-308). */
module Catalog {
  import opened Base

  /** gousb's `ID`: a 16-bit USB vendor or product identifier. */
  type Id = x: int | 0 <= x < 0x1_0000

  /** Go's conversion `gousb.ID(n)` of an `int` to `uint16` keeps the low 16 bits. */
  function ToId(n: int): Id { n % 0x1_0000 }

  datatype DeviceMetadata = DeviceMetadata(name: string, productId: int)

  datatype VendorMetadata = VendorMetadata(name: string, id: int, devices: seq<DeviceMetadata>)

  /** The identifying part of gousb's `DeviceDesc`. */
  datatype DeviceDesc = DeviceDesc(vendor: Id, product: Id)

  /** The name of the generic DFU bootloader entry; matching it is what makes a
      device count as being in bootloader mode. */
  const DfuName: string := "dfu"

  const SupportedVendors: seq<VendorMetadata> := [
    VendorMetadata("zsa", 0x3297, [
      DeviceMetadata("plank", 0x6060),
      DeviceMetadata("ergodox", 0x1307),
      DeviceMetadata("moonlander", 0x1969)
    ]),
    VendorMetadata("halfkay", 0x16C0, [
      DeviceMetadata("halfkay", 0x0478)
    ]),
    VendorMetadata(DfuName, 0x0483, [
      DeviceMetadata(DfuName, 0xdf11)
    ])
  ]

  /** Entry `dI` of vendor `vI` is the descriptor's device: both its vendor
      `Id` and its `ProductId` are the descriptor's. */
  predicate MatchAt(vendors: seq<VendorMetadata>, desc: DeviceDesc, vI: int, dI: int)
  {
    0 <= vI < |vendors| && 0 <= dI < |vendors[vI].devices| &&
    desc.vendor == ToId(vendors[vI].id) &&
    desc.product == ToId(vendors[vI].devices[dI].productId)
  }

  /** (vI, dI) comes no later than (vJ, dJ) in the order of the nested loops. */
  predicate NotAfter(vI: int, dI: int, vJ: int, dJ: int)
  {
    vI < vJ || (vI == vJ && dI <= dJ)
  }

  // ---------------------------------------------------------------------------
  // isSupported: nested loops that return true at the first match.

  function AnyDevice(devices: seq<DeviceMetadata>, desc: DeviceDesc): bool
  {
    if devices == [] then false
    else if desc.product == ToId(devices[0].productId) then true
    else AnyDevice(devices[1..], desc)
  }

  function AnyVendor(vendors: seq<VendorMetadata>, desc: DeviceDesc): bool
  {
    if vendors == [] then false
    else if desc.vendor == ToId(vendors[0].id) && AnyDevice(vendors[0].devices, desc) then true
    else AnyVendor(vendors[1..], desc)
  }

  function IsSupported(desc: DeviceDesc): bool
  {
    AnyVendor(SupportedVendors, desc)
  }

  // ---------------------------------------------------------------------------
  // getMetdata: the same loops, stopping at the entry found.

  /** Index of the first device of one vendor whose product id matches. */
  function FindDevice(devices: seq<DeviceMetadata>, desc: DeviceDesc): (r: Option<nat>)
    ensures r.Some? ==> r.value < |devices| && desc.product == ToId(devices[r.value].productId)
    ensures r.Some? ==> forall j :: 0 <= j < r.value ==> desc.product != ToId(devices[j].productId)
    ensures r.None? ==> forall j :: 0 <= j < |devices| ==> desc.product != ToId(devices[j].productId)
  {
    if devices == [] then None
    else if desc.product == ToId(devices[0].productId) then Some(0)
    else match FindDevice(devices[1..], desc)
      case None => None
      case Some(i) => Some(i + 1)
  }

  /** The position (vendor index, device index) at which the nested loops stop. */
  function FindEntry(vendors: seq<VendorMetadata>, desc: DeviceDesc): (r: Option<(nat, nat)>)
    ensures r.Some? ==> MatchAt(vendors, desc, r.value.0, r.value.1)
  {
    if vendors == [] then None
    else
      var here := if desc.vendor == ToId(vendors[0].id) then FindDevice(vendors[0].devices, desc) else None;
      if here.Some? then Some((0, here.value))
      else match FindEntry(vendors[1..], desc)
        case None => None
        case Some(p) => Some((p.0 + 1, p.1))
  }

  function GetMetadata(desc: DeviceDesc): Option<DeviceMetadata>
  {
    match FindEntry(SupportedVendors, desc)
    case None => None
    case Some(p) => Some(SupportedVendors[p.0].devices[p.1])
  }

  // ---------------------------------------------------------------------------
  // Properties.

  /** The lookup stops at a match, and at the first one in vendor-major order;
      it finds nothing exactly when no entry matches. */
  lemma {:induction false} FindEntryIsFirstMatch(vendors: seq<VendorMetadata>, desc: DeviceDesc)
    ensures FindEntry(vendors, desc).None? <==> forall vI, dI :: !MatchAt(vendors, desc, vI, dI)
    ensures FindEntry(vendors, desc).Some? ==>
      var p := FindEntry(vendors, desc).value;
      MatchAt(vendors, desc, p.0, p.1) &&
      forall vJ, dJ :: MatchAt(vendors, desc, vJ, dJ) ==> NotAfter(p.0, p.1, vJ, dJ)
    decreases |vendors|
  {
    if vendors != [] {
      FindEntryIsFirstMatch(vendors[1..], desc);
      if desc.vendor == ToId(vendors[0].id) {
        var here := FindDevice(vendors[0].devices, desc);
        assert here.None? ==> forall dI :: !MatchAt(vendors, desc, 0, dI);
      }
      forall vI, dI | MatchAt(vendors[1..], desc, vI, dI)
        ensures MatchAt(vendors, desc, vI + 1, dI)
      {
      }
      forall vI, dI | MatchAt(vendors, desc, vI, dI) && vI > 0
        ensures MatchAt(vendors[1..], desc, vI - 1, dI)
      {
      }
    }
  }

  /** The `isSupported` loops and the `getMetdata` loops agree on every list. */
  lemma {:induction false} AnyVendorIffFound(vendors: seq<VendorMetadata>, desc: DeviceDesc)
    ensures AnyVendor(vendors, desc) <==> FindEntry(vendors, desc).Some?
    decreases |vendors|
  {
    if vendors != [] {
      AnyDeviceIffFound(vendors[0].devices, desc);
      AnyVendorIffFound(vendors[1..], desc);
    }
  }

  lemma {:induction false} AnyDeviceIffFound(devices: seq<DeviceMetadata>, desc: DeviceDesc)
    ensures AnyDevice(devices, desc) <==> FindDevice(devices, desc).Some?
    decreases |devices|
  {
    if devices != [] {
      AnyDeviceIffFound(devices[1..], desc);
    }
  }

  /** `isSupported(d)` holds exactly when `getMetdata(d)` returns an entry, and
      that entry is the first one in table order whose vendor id and product id
      are both the descriptor's. */
  lemma {:induction false} SupportedIffMetadata(desc: DeviceDesc)
    ensures IsSupported(desc) <==> GetMetadata(desc).Some?
    ensures GetMetadata(desc).Some? ==>
      exists vI, dI :: MatchAt(SupportedVendors, desc, vI, dI) &&
        GetMetadata(desc).value == SupportedVendors[vI].devices[dI] &&
        forall vJ, dJ :: MatchAt(SupportedVendors, desc, vJ, dJ) ==> NotAfter(vI, dI, vJ, dJ)
  {
    AnyVendorIffFound(SupportedVendors, desc);
    FindEntryIsFirstMatch(SupportedVendors, desc);
    if GetMetadata(desc).Some? {
      var p := FindEntry(SupportedVendors, desc).value;
      assert MatchAt(SupportedVendors, desc, p.0, p.1);
    }
  }

  /** Only 0x0483:0xdf11 resolves to the entry named "dfu"; the halfkay and zsa
      boards never do. */
  lemma {:induction false} DfuEntryIsUnique(desc: DeviceDesc)
    ensures (GetMetadata(desc).Some? && GetMetadata(desc).value.name == DfuName)
      <==> desc == DeviceDesc(0x0483, 0xdf11)
  {
    FindEntryIsFirstMatch(SupportedVendors, desc);
    if GetMetadata(desc).Some? {
      var p := FindEntry(SupportedVendors, desc).value;
      assert MatchAt(SupportedVendors, desc, p.0, p.1);
      assert p.0 < 3;
      if p.0 == 0 {
        assert SupportedVendors[0].devices[p.1].name != DfuName;
      } else if p.0 == 1 {
        assert SupportedVendors[1].devices[p.1].name != DfuName;
      }
    } else {
      assert !MatchAt(SupportedVendors, desc, 2, 0);
    }
  }
}
