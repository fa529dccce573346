/** PlatformBootDescriptionLib for Rockchip: the Boot Manager asks for a
    description of each boot option, and for the device the firmware itself
    was loaded from, this library answers with the default description
    followed by " [Fw]". Everything it learns from UEFI Boot Services
    (the device path of a handle, the NonDiscoverableDevice behind it), from
    the Rockchip ATAGs and from PCDs arrives as an input. */
module BootDescription {
  import opened SafeString
  import MemoryAllocation
  import opened UefiTypes

  datatype Option<T> = None | Some(value: T)

  // Device path node types and subtypes (section 10.3 of the UEFI Specification 2.10).
  const HardwareDevicePath: UInt8 := 0x01
  const HwVendorDp: UInt8 := 0x04
  const HwControllerDp: UInt8 := 0x05
  const MsgSdDp: UInt8 := 0x1A
  const MsgEmmcDp: UInt8 := 0x1D
  const EndDevicePathType: UInt8 := 0x7F
  const EndEntireDevicePathSubtype: UInt8 := 0xFF

  /** EmmcPartitionUserData: the eMMC user-data area is partition number 0. */
  const EmmcPartitionUserData: UInt32 := 0

  // ACPI resource descriptor tags (section 6.4.3.5.1 of the ACPI Specification 6.5).
  const AcpiAddressSpaceDescriptor: UInt8 := 0x8A
  const AcpiAddressSpaceTypeMem: UInt8 := 0x00

  /** One device path node: its Type, its SubType, and the ControllerNumber
      field that the source reads when it takes the node for a
      CONTROLLER_DEVICE_PATH. */
  datatype Node = Node(nodeType: UInt8, subType: UInt8, controllerNumber: UInt32)

  /** EFI_ACPI_ADDRESS_SPACE_DESCRIPTOR, the fields the library reads. */
  datatype AddressSpaceDescriptor = AddressSpaceDescriptor(desc: UInt8, resType: UInt8, addrRangeMin: UInt64)

  /** NON_DISCOVERABLE_DEVICE: only Resources[0] is read. */
  datatype NonDiscoverableDevice = NonDiscoverableDevice(firstResource: AddressSpaceDescriptor)

  /** RKATAG_BOOTDEV_TYPE: the three members the library names, and every other
      member (NAND, SPI flash, USB, ...) under its raw number. */
  datatype RkAtagBootDevType =
    | RkAtagBootDevTypeUnknown
    | RkAtagBootDevTypeEmmc
    | RkAtagBootDevTypeSd0
    | RkAtagBootDevTypeOther(raw: UInt32)

  /** RKATAG_BOOTDEV: the boot device that the earlier boot stage reports. */
  datatype RkAtagBootDev = RkAtagBootDev(devType: RkAtagBootDevType)

  /** PcdDwcSdhciBaseAddress (the eMMC controller) and PcdRkSdmmcBaseAddress
      (the SD card controller). */
  datatype Pcds = Pcds(dwcSdhciBaseAddress: UInt32, rkSdmmcBaseAddress: UInt32)

  /** mBootDescFirmwareSuffix, terminator included. */
  const FirmwareSuffix: seq<char> := " [Fw]" + [Nul]

  // ---------------------------------------------------------------------
  // Device paths

  predicate IsEndNode(n: Node) {
    n.nodeType == EndDevicePathType && n.subType == EndEntireDevicePathSubtype
  }

  /** A device path: its nodes, the last and only the last one ending the path. */
  predicate WellFormedPath(path: seq<Node>) {
    && |path| > 0
    && IsEndNode(path[|path| - 1])
    && forall i | 0 <= i < |path| - 1 :: !IsEndNode(path[i])
  }

  /** NextDevicePathNode, taken from any node that does not end the path,
      stays inside the path. */
  lemma NextNodeInPath(path: seq<Node>, k: nat)
    requires WellFormedPath(path) && k < |path| && !IsEndNode(path[k])
    ensures k + 1 < |path|
  {
  }

  predicate IsHardwareVendorNode(n: Node) {
    n.nodeType == HardwareDevicePath && n.subType == HwVendorDp
  }

  /** GetNonDiscoverableDevice: the NonDiscoverableDevice protocol found for
      the path (`located`, the outcome of LocateDevicePath and HandleProtocol)
      is returned only for a path that starts with a hardware vendor node. */
  function GetNonDiscoverableDevice(path: seq<Node>, located: Option<NonDiscoverableDevice>)
    : (r: Option<NonDiscoverableDevice>)
    requires WellFormedPath(path)
    ensures r.Some? <==> IsHardwareVendorNode(path[0]) && located.Some?
    ensures r.Some? ==> r == located
  {
    if !IsHardwareVendorNode(path[0]) then None else located
  }

  // ---------------------------------------------------------------------
  // Which controller the firmware was loaded from

  predicate IsMemoryDescriptor(d: AddressSpaceDescriptor) {
    d.desc == AcpiAddressSpaceDescriptor && d.resType == AcpiAddressSpaceTypeMem
  }

  /** The base address of the controller of a boot device type, for the two
      types the library recognises. */
  function BootControllerBase(bootType: RkAtagBootDevType, pcds: Pcds): Option<UInt32> {
    match bootType
    case RkAtagBootDevTypeEmmc => Some(pcds.dwcSdhciBaseAddress)
    case RkAtagBootDevTypeSd0 => Some(pcds.rkSdmmcBaseAddress)
    case _ => None
  }

  /** CheckIsBootDevice: the device's first resource is a memory range that
      starts at the base of the controller the firmware was loaded from. */
  function CheckIsBootDevice(device: NonDiscoverableDevice, bootType: RkAtagBootDevType, pcds: Pcds): (b: bool)
    ensures b <==> IsMemoryDescriptor(device.firstResource)
                   && BootControllerBase(bootType, pcds) == Some(device.firstResource.addrRangeMin)
    ensures b ==> bootType == RkAtagBootDevTypeEmmc || bootType == RkAtagBootDevTypeSd0
  {
    var descriptor := device.firstResource;
    if descriptor.desc != AcpiAddressSpaceDescriptor || descriptor.resType != AcpiAddressSpaceTypeMem then
      false
    else if bootType == RkAtagBootDevTypeEmmc then
      descriptor.addrRangeMin == pcds.dwcSdhciBaseAddress
    else if bootType == RkAtagBootDevTypeSd0 then
      descriptor.addrRangeMin == pcds.rkSdmmcBaseAddress
    else
      false
  }

  /** The shape of a firmware boot path after its vendor node: an SD node, or
      an eMMC node not followed by a controller node for a partition other
      than user data. Only SubTypes are compared. */
  predicate IsFirmwareBootPath(path: seq<Node>)
    requires WellFormedPath(path) && IsHardwareVendorNode(path[0])
  {
    || path[1].subType == MsgSdDp
    || (&& path[1].subType == MsgEmmcDp
        && !(path[2].subType == HwControllerDp && path[2].controllerNumber != EmmcPartitionUserData))
  }

  /** The node after the vendor node is judged by its SubType alone: giving it
      any other Type changes nothing. */
  lemma SecondNodeTypeIsIgnored(path: seq<Node>, nodeType: UInt8)
    requires WellFormedPath(path) && IsHardwareVendorNode(path[0])
    requires WellFormedPath(path[1 := path[1].(nodeType := nodeType)])
    ensures IsFirmwareBootPath(path) <==> IsFirmwareBootPath(path[1 := path[1].(nodeType := nodeType)])
  {
  }

  /** All that decides whether a handle gets the firmware suffix. */
  predicate IsFirmwareBootDevice(path: seq<Node>, located: Option<NonDiscoverableDevice>,
                                 bootType: RkAtagBootDevType, pcds: Pcds)
    requires WellFormedPath(path)
  {
    && IsHardwareVendorNode(path[0])
    && located.Some?
    && CheckIsBootDevice(located.value, bootType, pcds)
    && IsFirmwareBootPath(path)
  }

  /** The checks are made in order, and the first that fails decides: without
      the device, or when it is not the boot controller, the path is not looked
      at; for any other boot type the answer is no whatever the path. */
  lemma FirstFailingCheckDecides(path: seq<Node>, located: Option<NonDiscoverableDevice>,
                                 bootType: RkAtagBootDevType, pcds: Pcds)
    requires WellFormedPath(path)
    ensures GetNonDiscoverableDevice(path, located).None? ==> !IsFirmwareBootDevice(path, located, bootType, pcds)
    ensures located.Some? && !CheckIsBootDevice(located.value, bootType, pcds)
            ==> !IsFirmwareBootDevice(path, located, bootType, pcds)
    ensures bootType != RkAtagBootDevTypeEmmc && bootType != RkAtagBootDevTypeSd0
            ==> !IsFirmwareBootDevice(path, located, bootType, pcds)
  {
  }

  // ---------------------------------------------------------------------
  // The description buffer

  /** DescSize: the default text, the suffix text and one terminator, in
      bytes. The buffer holds the concatenated text and one terminator, and
      nothing more. */
  function DescSize(defaultDescription: seq<char>): (n: nat)
    requires Terminated(defaultDescription)
    ensures n == (|FirmwareDescription(defaultDescription)| + 1) * CharSize
  {
    StrSize(defaultDescription) - CharSize + StrSize(FirmwareSuffix) - CharSize + CharSize
  }

  lemma FirmwareSuffixText()
    ensures Terminated(FirmwareSuffix) && Str(FirmwareSuffix) == " [Fw]"
    ensures StrSize(FirmwareSuffix) == 12
  {
  }

  /** The default description extended with the firmware suffix. */
  function FirmwareDescription(defaultDescription: seq<char>): seq<char>
    requires Terminated(defaultDescription)
  {
    Str(defaultDescription) + " [Fw]"
  }

  /** AllocateCopyPool (DescSize, DefaultDescription) copies DescSize bytes
      out of a string that occupies StrSize (DefaultDescription) bytes: for
      every description it reads the size of " [Fw]" (ten bytes) past the
      terminator. With the string alone as `buffer`, the requirement
      `allocationSize / CharSize <= |buffer|` of MemoryAllocation.AllocateCopyPool
      fails for every description. */
  lemma AllocateCopyPoolReadsPastDefaultDescription(defaultDescription: seq<char>)
    requires Terminated(defaultDescription)
    requires |defaultDescription| == StrLen(defaultDescription) + 1
    ensures DescSize(defaultDescription) / CharSize == |defaultDescription| + 5
    ensures !(DescSize(defaultDescription) / CharSize <= |defaultDescription|)
  {
  }

  /** The description buffer built as the source builds it: AllocateCopyPool
      copies DescSize bytes from `memory`, which is the default description
      followed by whatever memory lies past its terminator, and StrCatS then
      writes the suffix from that terminator on. Whatever the bytes past the
      terminator are, the result is the buffer the corrected allocation gives. */
  method DescriptionBufferAsWritten(memory: seq<char>, poolAvailable: bool) returns (desc: array?<char>)
    requires Terminated(memory)
    requires DescSize(memory) / CharSize <= |memory|
    ensures desc != null <==> poolAvailable
    ensures desc != null ==> fresh(desc) && desc.Length * CharSize == DescSize(memory)
    ensures desc != null ==> desc[..] == FirmwareDescription(memory) + [Nul]
  {
    FirmwareSuffixText();
    desc := MemoryAllocation.AllocateCopyPool(DescSize(memory), memory, poolAvailable);
    if desc == null {
      return null;
    }
    ghost var text := Str(memory);
    ghost var trailing := memory[|text| + 1..|text| + 6];
    StrHasNoNul(memory);
    assert desc[..] == text + [Nul] + trailing;
    StrOfText(text, trailing);
    var status := StrCatS(desc, DescSize(memory) / CharSize, FirmwareSuffix);
    assert status == ReturnSuccess;
    assert desc[..] == text + " [Fw]" + [Nul];
  }

  /** The library's only state, and the handler it registers. */
  class PlatformBootDescriptionLib {
    /** mBootDeviceType */
    var bootDeviceType: RkAtagBootDevType

    /** PlatformBootDescriptionLibConstructor: records the boot device type
        reported by the ATAGs (`bootDev`, the result of RkAtagsGetBootDev),
        Unknown when there is none. */
    constructor (bootDev: Option<RkAtagBootDev>)
      ensures bootDev.None? ==> bootDeviceType == RkAtagBootDevTypeUnknown
      ensures bootDev.Some? ==> bootDeviceType == bootDev.value.devType
    {
      bootDeviceType := if bootDev.Some? then bootDev.value.devType else RkAtagBootDevTypeUnknown;
    }

    /** PlatformBootDescriptionHandler: NULL unless the handle is the firmware
        boot device and the pool has room; otherwise a new buffer of exactly
        DescSize bytes holding the default description followed by " [Fw]".
        `path` is the handle's device path, `located` the NonDiscoverableDevice
        found for it, `poolAvailable` whether the allocation succeeds. */
    method PlatformBootDescriptionHandler(path: seq<Node>, located: Option<NonDiscoverableDevice>, pcds: Pcds,
                                          defaultDescription: seq<char>, poolAvailable: bool)
      returns (desc: array?<char>)
      requires WellFormedPath(path) && Terminated(defaultDescription)
      ensures desc != null <==> IsFirmwareBootDevice(path, located, bootDeviceType, pcds) && poolAvailable
      ensures desc != null ==> fresh(desc) && desc.Length * CharSize == DescSize(defaultDescription)
      ensures desc != null ==> desc[..] == FirmwareDescription(defaultDescription) + [Nul]
    {
      var device := GetNonDiscoverableDevice(path, located);
      if device.None? {
        return null;
      }
      if !CheckIsBootDevice(device.value, bootDeviceType, pcds) {
        return null;
      }

      NextNodeInPath(path, 0);
      var node := 1;
      if path[node].subType == MsgEmmcDp {
        NextNodeInPath(path, node);
        node := node + 1;
        if path[node].subType == HwControllerDp {
          if path[node].controllerNumber != EmmcPartitionUserData {
            // Only the user-data partition is taken to hold the firmware.
            return null;
          }
        }
      } else if path[node].subType == MsgSdDp {
      } else {
        return null;
      }

      var descSize := DescSize(defaultDescription);
      FirmwareSuffixText();
      desc := MemoryAllocation.AllocateStringPool(descSize, defaultDescription, poolAvailable);
      if desc == null {
        return null;
      }

      ghost var text := Str(defaultDescription);
      ghost var zeroed := desc[..];
      assert zeroed == text + [Nul] + MemoryAllocation.Nuls(5);
      StrHasNoNul(defaultDescription);
      StrOfText(text, MemoryAllocation.Nuls(5));
      var status := StrCatS(desc, descSize / CharSize, FirmwareSuffix);
      assert status == ReturnSuccess;
      assert desc[..] == text + " [Fw]" + [Nul] + zeroed[|text| + 6..];
    }
  }
}
