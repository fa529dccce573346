/** ResetSystemLib for the RK35xx boards: each reset request becomes a fixed
    sequence of hardware actions. The hardware is not modelled; a Platform
    records, in order, every 32-bit MMIO write and every SMC it is asked for. */
module ResetSystemLib {
  import opened UefiTypes

  /** EFI_RESET_TYPE, numbered as in section 8.5.1 of the UEFI Specification 2.10. */
  type EfiResetType = UInt32
  const EfiResetCold: EfiResetType := 0
  const EfiResetWarm: EfiResetType := 1
  const EfiResetShutdown: EfiResetType := 2
  const EfiResetPlatformSpecific: EfiResetType := 3

  /** EFI_STATUS: accepted by ResetSystem and never inspected. */
  type EfiStatus = UIntN

  /** PSCI 0.2 SYSTEM_OFF function identifier (Arm DEN0022). */
  const ArmSmcIdPsciSystemOff: UIntN := 0x8400_0008

  /** Value written to CRU_GLB_SRST_FST to start the first global software reset. */
  const GlobalSoftResetValue: UInt32 := 0xFDB9
  /** Value written to the platform-specific reset register. */
  const PlatformResetValue: UInt32 := 0xEF08A53C

  /** The build-time choice made by `#ifdef RK356X`. */
  datatype Variant = Rk3588 | Rk356x

  /** Address of CRU_GLB_SRST_FST. */
  function WarmResetRegister(v: Variant): UIntN {
    match v
    case Rk3588 => 0xFD7C0C08
    case Rk356x => 0xFDD200D4
  }

  /** Address of the register that ResetPlatformSpecific writes first. */
  function PlatformResetRegister(v: Variant): UIntN {
    match v
    case Rk3588 => 0xFD588080
    case Rk356x => 0xFDC20200
  }

  /** One externally visible action: `MmioWrite32 (addr, val)` or `ArmCallSmc` with `Arg0 == arg0`. */
  datatype Effect = Mmio(addr: UIntN, val: UInt32) | Smc(arg0: UIntN)

  predicate IsRecognised(t: EfiResetType) {
    t == EfiResetCold || t == EfiResetWarm || t == EfiResetShutdown || t == EfiResetPlatformSpecific
  }

  /** The warm reset: one write of the global soft-reset value to CRU_GLB_SRST_FST. */
  function WarmResetTrace(v: Variant): seq<Effect> {
    [Mmio(WarmResetRegister(v), GlobalSoftResetValue)]
  }

  /** The actions each reset type stands for, as a table: the reference the
      methods of Platform are proved against. */
  function ResetTrace(v: Variant, t: EfiResetType): seq<Effect> {
    if t == EfiResetCold || t == EfiResetWarm then WarmResetTrace(v)
    else if t == EfiResetShutdown then [Smc(ArmSmcIdPsciSystemOff)]
    else if t == EfiResetPlatformSpecific then [Mmio(PlatformResetRegister(v), PlatformResetValue)] + WarmResetTrace(v)
    else []
  }

  /** The recorded hardware of one board variant. */
  class Platform {
    const variant: Variant
    /** Every action issued so far, oldest first. */
    var log: seq<Effect>

    constructor (v: Variant)
      ensures variant == v && log == []
    {
      variant := v;
      log := [];
    }

    /** MmioWrite32: a 32-bit write to a memory-mapped register. */
    method MmioWrite32(address: UIntN, value: UInt32)
      modifies this
      ensures log == old(log) + [Mmio(address, value)]
    {
      log := log + [Mmio(address, value)];
    }

    /** ArmCallSmc with the given first argument register; the others are unused here. */
    method ArmCallSmc(arg0: UIntN)
      modifies this
      ensures log == old(log) + [Smc(arg0)]
    {
      log := log + [Smc(arg0)];
    }

    method ResetWarm()
      modifies this
      ensures log == old(log) + WarmResetTrace(variant)
    {
      match variant {
        case Rk356x => MmioWrite32(0xFDD200D4, 0xFDB9);
        case Rk3588 => MmioWrite32(0xFD7C0C08, 0xFDB9);
      }
    }

    /** Delegates to ResetWarm; the PSCI SYSTEM_RESET call is disabled in the source. */
    method ResetCold()
      modifies this
      ensures log == old(log) + WarmResetTrace(variant)
    {
      ResetWarm();
    }

    method ResetShutdown()
      modifies this
      ensures log == old(log) + [Smc(ArmSmcIdPsciSystemOff)]
    {
      var arg0 := ArmSmcIdPsciSystemOff;
      ArmCallSmc(arg0);
    }

    /** Writes the platform reset register, then falls back to the warm reset;
        the reset data is accepted and never read. */
    method ResetPlatformSpecific(dataSize: UIntN, resetData: seq<bv8>)
      modifies this
      ensures log == old(log) + [Mmio(PlatformResetRegister(variant), PlatformResetValue)] + WarmResetTrace(variant)
    {
      match variant {
        case Rk356x => MmioWrite32(0xFDC20200, 0xEF08A53C);
        case Rk3588 => MmioWrite32(0xFD588080, 0xEF08A53C);
      }
      // The hard reset does not work on this SoC: fall back to the warm reset.
      ResetWarm();
    }

    /** The dispatch: what is appended depends on the variant and the type
        only, never on the status, the data size or the data. */
    method ResetSystem(resetType: EfiResetType, resetStatus: EfiStatus, dataSize: UIntN, resetData: seq<bv8>)
      modifies this
      ensures log == old(log) + ResetTrace(variant, resetType)
    {
      if resetType == EfiResetWarm {
        ResetWarm();
      } else if resetType == EfiResetCold {
        ResetCold();
      } else if resetType == EfiResetShutdown {
        ResetShutdown();
        return;
      } else if resetType == EfiResetPlatformSpecific {
        ResetPlatformSpecific(dataSize, resetData);
        return;
      } else {
        return;
      }
    }

    /** Two requests of the same type, with any statuses and data, append the
        same actions twice: the library keeps no state between calls. */
    method ResetSystemTwice(resetType: EfiResetType,
                            status1: EfiStatus, size1: UIntN, data1: seq<bv8>,
                            status2: EfiStatus, size2: UIntN, data2: seq<bv8>)
      modifies this
      ensures log == old(log) + ResetTrace(variant, resetType) + ResetTrace(variant, resetType)
    {
      ResetSystem(resetType, status1, size1, data1);
      ResetSystem(resetType, status2, size2, data2);
    }
  }

  // ---------------------------------------------------------------------
  // Properties of the table

  /** A cold reset is the warm reset: the same single MMIO write and no SMC. */
  lemma ColdResetIsWarmReset(v: Variant)
    ensures ResetTrace(v, EfiResetCold) == ResetTrace(v, EfiResetWarm)
    ensures ResetTrace(v, EfiResetCold) == [Mmio(WarmResetRegister(v), 0xFDB9)]
  {
  }

  /** Shutdown is exactly one SYSTEM_OFF call and no register write. */
  lemma ShutdownIsOnlySystemOff(v: Variant)
    ensures ResetTrace(v, EfiResetShutdown) == [Smc(ArmSmcIdPsciSystemOff)]
    ensures forall e | e in ResetTrace(v, EfiResetShutdown) :: !e.Mmio?
  {
  }

  /** The platform-specific reset is two writes, the platform register first. */
  lemma PlatformSpecificOrder(v: Variant)
    ensures |ResetTrace(v, EfiResetPlatformSpecific)| == 2
    ensures ResetTrace(v, EfiResetPlatformSpecific)[0] == Mmio(PlatformResetRegister(v), 0xEF08A53C)
    ensures ResetTrace(v, EfiResetPlatformSpecific)[1] == Mmio(WarmResetRegister(v), 0xFDB9)
  {
  }

  /** Something is issued exactly for the four recognised types. */
  lemma OnlyRecognisedTypesAct(v: Variant, t: EfiResetType)
    ensures ResetTrace(v, t) == [] <==> !IsRecognised(t)
  {
  }

  /** An SMC is issued exactly for Shutdown, and it is always SYSTEM_OFF. */
  lemma SmcOnlyOnShutdown(v: Variant, t: EfiResetType)
    ensures (exists e :: e in ResetTrace(v, t) && e.Smc?) <==> t == EfiResetShutdown
    ensures forall e | e in ResetTrace(v, t) && e.Smc? :: e.arg0 == ArmSmcIdPsciSystemOff
  {
    if t == EfiResetShutdown {
      assert ResetTrace(v, t)[0].Smc?;
    }
  }

  /** Every action is one of the three the library knows. */
  lemma OnlyKnownActions(v: Variant, t: EfiResetType)
    ensures forall e | e in ResetTrace(v, t) ::
      e == Mmio(WarmResetRegister(v), GlobalSoftResetValue) ||
      e == Mmio(PlatformResetRegister(v), PlatformResetValue) ||
      e == Smc(ArmSmcIdPsciSystemOff)
  {
  }

  /** Two actions that differ at most in the register address. */
  predicate SameExceptAddress(a: Effect, b: Effect) {
    (a.Mmio? && b.Mmio? && a.val == b.val) || (a.Smc? && a == b)
  }

  /** Building for the other SoC changes the addresses only: the same number
      of actions, in the same order, with the same values and SMC argument. */
  lemma VariantChangesOnlyAddresses(t: EfiResetType)
    ensures |ResetTrace(Rk3588, t)| == |ResetTrace(Rk356x, t)|
    ensures forall i | 0 <= i < |ResetTrace(Rk3588, t)| ::
      SameExceptAddress(ResetTrace(Rk3588, t)[i], ResetTrace(Rk356x, t)[i])
  {
  }
}
