# Rockchip RK35xx reset and boot-description libraries, modelled in Dafny

This project models two small UEFI libraries of the RK3588/RK356x firmware.

**ResetSystemLib** (`reset_system.dfy`, module `ResetSystemLib`) turns a reset request into hardware actions:
- a warm reset writes `0xFDB9` to the CRU global soft-reset register;
- a cold reset does the same as a warm reset;
- a shutdown issues a PSCI `SYSTEM_OFF` secure monitor call;
- a platform-specific reset writes `0xEF08A53C` to a second register and then does the warm reset;
- any other type does nothing.

The hardware is a class, `Platform`, whose `log` records every MMIO write and SMC in order. The `#ifdef RK356X` choice is the `variant` it is built with. `ResetTrace(variant, type)` is the table of what each request issues. Every method is proved to append exactly its row of that table. Lemmas state the table's properties: cold equals warm, shutdown is one SMC, the platform-specific writes come in a fixed order, unknown types issue nothing, and the variant changes addresses only.

**PlatformBootDescriptionLib** (`boot_description.dfy`, module `BootDescription`) decides whether a Boot Manager option is the device the firmware was loaded from. For that device it returns the default description followed by `" [Fw]"`; for every other device it returns NULL.
- The device path is a sequence of nodes ending in an End node.
- The NonDiscoverableDevice found for the path, the ATAG boot device, the PCD base addresses and the pool's ability to allocate are inputs.
- The library global `mBootDeviceType` is a field of the class `PlatformBootDescriptionLib`. Its constructor sets that field.
- The handler is a method that walks the path node by node, allocates the description buffer and appends the suffix in place with `StrCatS`.

The handler is proved to return a buffer exactly when the device passes every check and the pool has room. That buffer holds exactly the default text, `" [Fw]"` and one terminator.

The edk2 library routines that the handler's buffer handling depends on are modelled after their edk2 behaviour:
- `safe_string.dfy` (module `SafeString`): `StrnLenS`, `StrLen`, `StrSize` and `StrCatS` over NUL-terminated CHAR16 buffers;
- `memory_allocation.dfy` (module `MemoryAllocation`): `AllocateCopyPool`, and the allocation the handler should make.

BaseLib and MemoryAllocationLib are not part of this model's source.

Constants come from the standards the code follows:
- `EFI_RESET_TYPE` values: section 8.5.1 of the UEFI Specification 2.10.
- Device path types and subtypes: section 10.3 of the UEFI Specification 2.10.
- `ARM_SMC_ID_PSCI_SYSTEM_OFF` = `0x84000008`: Arm DEN0022.
- ACPI address space descriptor tags: ACPI Specification 6.5.

The proofs rely on these facts about the numbers, and on no other property of their values:
- the four `EFI_RESET_TYPE` values are pairwise distinct;
- `MSG_SD_DP` (`0x1A`) differs from `MSG_EMMC_DP` (`0x1D`);
- the End node's SubType (`0xFF`) differs from the eMMC SubType (`0x1D`);
- the vendor node's Type (`0x01`) differs from the End Type (`0x7F`).

The UEFI integer types (`UINT8`, `UINT32`, `UINT64`, `UINTN`) are ranges of integers, declared once in `uefi_types.dfy` (module `UefiTypes`).

## Model

| member | source | states |
|---|---|---|
| `ResetSystemLib.Platform.MmioWrite32` | edk2-platforms/Platform/Radxa/ROCK5B/Library/ResetSystemLib/ResetSystemLib.c:36-38 | appends exactly one MMIO write of the given value to the given address, and nothing else |
| `ResetSystemLib.Platform.ArmCallSmc` | edk2-platforms/Platform/Radxa/ROCK5B/Library/ResetSystemLib/ResetSystemLib.c:80-81 | appends exactly one SMC whose first argument register holds the given value, and nothing else |
| `ResetSystemLib.Platform.ResetWarm` | edk2-platforms/Platform/Radxa/ROCK5B/Library/ResetSystemLib/ResetSystemLib.c:30-40 | appends exactly one MMIO write of `0xFDB9` to CRU_GLB_SRST_FST: `0xFD7C0C08`, or `0xFDD200D4` on RK356x |
| `ResetSystemLib.Platform.ResetCold` | edk2-platforms/Platform/Radxa/ROCK5B/Library/ResetSystemLib/ResetSystemLib.c:50-63 | appends exactly what ResetWarm appends (the disabled SYSTEM_RESET call is not issued) |
| `ResetSystemLib.Platform.ResetShutdown` | edk2-platforms/Platform/Radxa/ROCK5B/Library/ResetSystemLib/ResetSystemLib.c:71-82 | appends exactly one SMC whose first argument is PSCI SYSTEM_OFF |
| `ResetSystemLib.Platform.ResetPlatformSpecific` | edk2-platforms/Platform/Radxa/ROCK5B/Library/ResetSystemLib/ResetSystemLib.c:95-109 | appends the write of `0xEF08A53C` to the platform reset register, then the warm-reset write; the data size and data play no part |
| `ResetSystemLib.Platform.ResetSystem` | edk2-platforms/Platform/Radxa/ROCK5B/Library/ResetSystemLib/ResetSystemLib.c:123-152 | appends the row of ResetTrace for the variant and the type; the status, the data size and the data play no part |
| `ResetSystemLib.Platform.ResetSystemTwice` | edk2-platforms/Platform/Radxa/ROCK5B/Library/ResetSystemLib/ResetSystemLib.c:123-152 | two requests of one type, with any statuses and data, append the same actions twice: no state is kept between calls |
| `ResetSystemLib.ColdResetIsWarmReset` | edk2-platforms/Platform/Radxa/ROCK5B/Library/ResetSystemLib/ResetSystemLib.c:56-62 | the cold-reset trace equals the warm-reset trace, a single write of `0xFDB9` and no SMC |
| `ResetSystemLib.ShutdownIsOnlySystemOff` | edk2-platforms/Platform/Radxa/ROCK5B/Library/ResetSystemLib/ResetSystemLib.c:77-81 | shutdown is one SYSTEM_OFF SMC and no MMIO write |
| `ResetSystemLib.PlatformSpecificOrder` | edk2-platforms/Platform/Radxa/ROCK5B/Library/ResetSystemLib/ResetSystemLib.c:102-108 | the platform-specific reset is two writes: the platform register first, the warm-reset register second |
| `ResetSystemLib.OnlyRecognisedTypesAct` | edk2-platforms/Platform/Radxa/ROCK5B/Library/ResetSystemLib/ResetSystemLib.c:132-151 | a request issues nothing if and only if its type is none of Cold, Warm, Shutdown, PlatformSpecific |
| `ResetSystemLib.SmcOnlyOnShutdown` | edk2-platforms/Platform/Radxa/ROCK5B/Library/ResetSystemLib/ResetSystemLib.c:132-151 | an SMC is issued if and only if the type is Shutdown, and its argument is always SYSTEM_OFF |
| `ResetSystemLib.OnlyKnownActions` | edk2-platforms/Platform/Radxa/ROCK5B/Library/ResetSystemLib/ResetSystemLib.c:123-152 | every action issued is the warm-reset write, the platform-reset write or the SYSTEM_OFF call |
| `ResetSystemLib.VariantChangesOnlyAddresses` | edk2-platforms/Platform/Radxa/ROCK5B/Library/ResetSystemLib/ResetSystemLib.c:35-106 | for every type, the two variants issue the same number of actions, in the same order, with the same values and SMC argument; only register addresses differ |
| `BootDescription.GetNonDiscoverableDevice` | edk2-rockchip/Silicon/Rockchip/Library/PlatformBootDescriptionLib/PlatformBootDescriptionLib.c:28-57 | yields a device if and only if the first node is a hardware vendor node and the protocol lookup found one, and then it is that device |
| `BootDescription.CheckIsBootDevice` | edk2-rockchip/Silicon/Rockchip/Library/PlatformBootDescriptionLib/PlatformBootDescriptionLib.c:61-81 | true if and only if Resources[0] is a memory address-space descriptor starting at the base of the boot controller: the SDHCI base for eMMC, the SDMMC base for SD0; false for every other boot type |
| `BootDescription.NextNodeInPath` | edk2-rockchip/Silicon/Rockchip/Library/PlatformBootDescriptionLib/PlatformBootDescriptionLib.c:107-110 | stepping to the next node from any node that does not end the path stays inside the path, so the handler's two steps never run off its end |
| `BootDescription.SecondNodeTypeIsIgnored` | edk2-rockchip/Silicon/Rockchip/Library/PlatformBootDescriptionLib/PlatformBootDescriptionLib.c:109-127 | the node after the vendor node is judged by SubType only: changing its Type never changes the decision |
| `BootDescription.FirstFailingCheckDecides` | edk2-rockchip/Silicon/Rockchip/Library/PlatformBootDescriptionLib/PlatformBootDescriptionLib.c:98-105 | no device, or a device that is not the boot controller, or a boot type other than eMMC and SD0, means NULL whatever the rest of the path |
| `BootDescription.FirmwareSuffixText` | edk2-rockchip/Silicon/Rockchip/Library/PlatformBootDescriptionLib/PlatformBootDescriptionLib.c:24 | the suffix buffer reads as the text `" [Fw]"` and occupies 12 bytes |
| `BootDescription.DescSize` | edk2-rockchip/Silicon/Rockchip/Library/PlatformBootDescriptionLib/PlatformBootDescriptionLib.c:129-131 | DescSize is exactly the bytes of the default text followed by `" [Fw]"`, plus one terminator |
| `BootDescription.AllocateCopyPoolReadsPastDefaultDescription` | edk2-rockchip/Silicon/Rockchip/Library/PlatformBootDescriptionLib/PlatformBootDescriptionLib.c:133 | the copy of DescSize bytes from the default description reads five CHAR16 (ten bytes) past the end of that string, for every string |
| `BootDescription.DescriptionBufferAsWritten` | edk2-rockchip/Silicon/Rockchip/Library/PlatformBootDescriptionLib/PlatformBootDescriptionLib.c:129-138 | the buffer built as written (AllocateCopyPool of DescSize bytes from memory that continues past the default description, then StrCatS) is, whatever that memory holds, a new DescSize-byte buffer with the default text, `" [Fw]"` and one terminator; NULL exactly when the pool is exhausted |
| `BootDescription.PlatformBootDescriptionLib.constructor` | edk2-rockchip/Silicon/Rockchip/Library/PlatformBootDescriptionLib/PlatformBootDescriptionLib.c:152-153 | the boot device type is Unknown when the ATAGs report no boot device, and the reported type otherwise |
| `BootDescription.PlatformBootDescriptionLib.PlatformBootDescriptionHandler` | edk2-rockchip/Silicon/Rockchip/Library/PlatformBootDescriptionLib/PlatformBootDescriptionLib.c:86-141 | returns a buffer if and only if the path starts with a vendor node, the device is found and is the boot controller, the next node is SD, or eMMC not followed by a controller node of a partition other than user data, and the allocation succeeds; the buffer is new, DescSize bytes long, and holds the default text, `" [Fw]"` and one terminator |
| `MemoryAllocation.AllocateCopyPool` | edk2-rockchip/Silicon/Rockchip/Library/PlatformBootDescriptionLib/PlatformBootDescriptionLib.c:133 | the call as written: a new buffer holding the first AllocationSize bytes of the source, which must lie inside the source; NULL when the pool is exhausted |
| `MemoryAllocation.AllocateStringPool` | edk2-rockchip/Silicon/Rockchip/Library/PlatformBootDescriptionLib/PlatformBootDescriptionLib.c:133 | the allocation as intended: a new buffer of AllocationSize bytes holding the string, its terminator and zeros, reading nothing past the terminator; NULL when the pool is exhausted |
| `SafeString.StrCatS` | edk2-rockchip/Silicon/Rockchip/Library/PlatformBootDescriptionLib/PlatformBootDescriptionLib.c:138 | returns the status edk2's checks give; on success the buffer is the destination text, then the source text, then a NUL, the rest untouched; on failure it is unchanged |
| `SafeString.StrCatSucceedsIffFits` | edk2-rockchip/Silicon/Rockchip/Library/PlatformBootDescriptionLib/PlatformBootDescriptionLib.c:138 | StrCatS succeeds if and only if both texts and one terminator fit in DestMax characters: it refuses rather than truncates |
| `SafeString.AppendedIsConcatenation` | edk2-rockchip/Silicon/Rockchip/Library/PlatformBootDescriptionLib/PlatformBootDescriptionLib.c:138 | after a successful StrCatS the buffer keeps its size and its string is the destination text followed by the source text |
| `SafeString.StrnLen` | edk2-rockchip/Silicon/Rockchip/Library/PlatformBootDescriptionLib/PlatformBootDescriptionLib.c:138 | the count is at most the bound, no NUL comes before it, and a count below the bound sits on a NUL |
| `SafeString.StrLen` | edk2-rockchip/Silicon/Rockchip/Library/PlatformBootDescriptionLib/PlatformBootDescriptionLib.c:129-130 | the count is the position of the first NUL: a NUL sits there and none before it |
| `SafeString.StrSize` | edk2-rockchip/Silicon/Rockchip/Library/PlatformBootDescriptionLib/PlatformBootDescriptionLib.c:129-130 | the size is a whole number of CHAR16, and the characters it covers are exactly the text and its terminator |
| `SafeString.StrOfText` | edk2-rockchip/Silicon/Rockchip/Library/PlatformBootDescriptionLib/PlatformBootDescriptionLib.c:129-130 | a NUL-free text followed by a NUL has that text as its string and occupies its length plus one CHAR16, whatever follows |

## Left out

- What the hardware does with the MMIO writes and the SMC is not modelled, and neither is "never returns on success". Each action is only recorded in the log, so every method returns.
- The PSCI `SYSTEM_RESET` call in ResetCold is commented out in the source, so the model has no such path.
- ArmCallSmc reads only Arg0 here. The other argument registers are left uninitialised in the source and are not modelled, and neither are the values the SMC returns.
- ResetData is a byte sequence. NULL is not told apart from an empty buffer, because no path reads the data.
- Boot Services calls are replaced by inputs:
  - `DevicePathFromHandle` gives the path.
  - `LocateDevicePath` with `HandleProtocol` give `located`. Which handle LocateDevicePath picks by path prefix is not modelled.
  - `RkAtagsGetBootDev` gives the constructor's argument.
- `EfiBootManagerRegisterBootDescriptionHandler` is a foreign call. The registration and the status the constructor passes back are not modelled.
- `PcdGet32` values are the `Pcds` parameter.
- The device path's byte layout and node lengths are not modelled. A path is a sequence of (Type, SubType, ControllerNumber) nodes whose last node, and only that one, is the End-of-entire-path node. ControllerNumber stands for the bytes at that offset of any node.
- Of a NonDiscoverableDevice's resource list only Resources[0] is modelled, since nothing else is read.
- The numbers of the `RKATAG_BOOTDEV_TYPE` members are in a header that is not part of this model. The model names Unknown, eMMC and SD0 and keeps every other member under its raw number. `RkAtagBootDevTypeOther(raw)` is meant only for codes other than those of the three named members; the model does not exclude a named member's code there, and such a value is judged as neither eMMC nor SD0.
- CHAR16 is `char`. UTF-16 encoding is not modelled.
- UINTN overflow in the DescSize sum is not modelled: sizes are unbounded naturals.
- SafeString.StrCatS: the RSIZE_MAX bound (PcdMaximumUnicodeStringLength), the NULL-pointer checks and the overlap check (RETURN_ACCESS_DENIED) are not modelled. For a DestMax above RSIZE_MAX the model succeeds where edk2 returns RETURN_INVALID_PARAMETER. `StrnLenS (Source, CopyLen) < CopyLen` is written as `StrLen (Source) < CopyLen`, which is the same for a terminated source.
- BootDescription.PlatformBootDescriptionLib.PlatformBootDescriptionHandler: allocates with the corrected AllocateStringPool (see Findings), not the as-written AllocateCopyPool. The buffer it returns is the one the as-written allocation yields, as DescriptionBufferAsWritten proves for any memory past the default description.
- The order of the handler's checks is visible only as "the first failing check decides". NULL is the only way it reports failure.

## Findings

| source | as written | input that shows it | evidently intended | confidence | as-written member | corrected member |
|---|---|---|---|---|---|---|
| edk2-rockchip/Silicon/Rockchip/Library/PlatformBootDescriptionLib/PlatformBootDescriptionLib.c:133 | `AllocateCopyPool (DescSize, DefaultDescription)` copies DescSize bytes out of the default description, which occupies only StrSize (DefaultDescription) bytes | DefaultDescription `L"UEFI Shell"` occupies 22 bytes; DescSize is 32, so the copy reads 10 bytes past the terminator | copy only the StrSize bytes of the default description into the DescSize-byte buffer; StrCatS then writes the suffix from the terminator onward | medium; not executed | `BootDescription.AllocateCopyPoolReadsPastDefaultDescription` | `MemoryAllocation.AllocateStringPool` |
