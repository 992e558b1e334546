/**
 Which counter a WRMSR event bumps, which counter a report line reads and which name it prints:
 three separate switches over the MSR index (debug/kvmwrmsr/msr.h), and the report lines of
 show_wrmsr (debug/kvmwrmsr/kvmwrmsr.c).
 */
module MsrClass {
  import opened Sums

  type u32 = x: int | 0 <= x < 0x1_0000_0000

  const MSR_IA32_APICBASE: u32 := 0x1b
  const MSR_IA32_TSC_ADJUST: u32 := 0x3b
  const MSR_IA32_TSCDEADLINE: u32 := 0x6e0
  const MSR_IA32_MISC_ENABLE: u32 := 0x1a0
  const MSR_IA32_MCG_STATUS: u32 := 0x17a
  const MSR_IA32_MCG_CTL: u32 := 0x17b
  const MSR_IA32_MCG_EXT_CTL: u32 := 0x4d0
  const MSR_IA32_SMBASE: u32 := 0x9e
  const MSR_PLATFORM_INFO: u32 := 0xce
  const MSR_MISC_FEATURES_ENABLES: u32 := 0x140
  const MSR_KVM_WALL_CLOCK: u32 := 0x11
  const MSR_KVM_WALL_CLOCK_NEW: u32 := 0x4b564d00
  const MSR_KVM_SYSTEM_TIME: u32 := 0x12
  const MSR_KVM_SYSTEM_TIME_NEW: u32 := 0x4b564d01
  const MSR_CORE_PERF_FIXED_CTR0: u32 := 0x309
  const MSR_CORE_PERF_FIXED_CTR1: u32 := 0x30a
  const MSR_CORE_PERF_FIXED_CTR2: u32 := 0x30b
  const MSR_CORE_PERF_FIXED_CTR_CTRL: u32 := 0x38d
  const MSR_CORE_PERF_GLOBAL_STATUS: u32 := 0x38e
  const MSR_CORE_PERF_GLOBAL_CTRL: u32 := 0x38f
  const MSR_CORE_PERF_GLOBAL_OVF_CTRL: u32 := 0x390

  // Offsets of the local APIC registers; as MSRs they sit at APIC_BASE_MSR + (offset >> 4).
  const APIC_BASE_MSR: u32 := 0x800
  const APIC_TASKPRI: u32 := 0x80
  const APIC_EOI: u32 := 0xB0
  const APIC_LDR: u32 := 0xD0
  const APIC_DFR: u32 := 0xE0
  const APIC_SPIV: u32 := 0xF0
  const APIC_ICR: u32 := 0x300
  const APIC_ICR2: u32 := 0x310
  const APIC_LVTT: u32 := 0x320
  const APIC_SELF_IPI: u32 := 0x3F0
  const APIC_LVT0: u32 := 0x350
  const APIC_LVTTHMR: u32 := 0x330
  const APIC_LVTPC: u32 := 0x340
  const APIC_LVT1: u32 := 0x360
  const APIC_LVTERR: u32 := 0x370

  /** The 31 counters, in the order of the report lines. */
  datatype Class =
    | ApicBase | TscAdjust | TscDeadline | MiscEnable | McgStatus
    | McgCtl | McgExtCtl | Smbase | PlatformInfo | MiscFeaturesEnables
    | WallClock | SystemTime | FixedCtr0 | FixedCtr1 | FixedCtr2
    | FixedCtrCtrl | GlobalStatus | GlobalCtrl | GlobalOvfCtrl | Others
    | LapicTpr | LapicEoi | LapicLdr | LapicDfr | LapicSpiv
    | LapicIcr | LapicIcr2 | LapicLvt | LapicLvtt | LapicSelfIpi
    | LapicOthers

  const CLASSES: nat := 31

  predicate IsApic(msr: u32) {
    APIC_BASE_MSR <= msr <= APIC_BASE_MSR + 0x3ff
  }

  /** The register offset an x2APIC MSR stands for. */
  function ApicReg(msr: u32): u32
    requires IsApic(msr)
  {
    (msr - APIC_BASE_MSR) * 16
  }

  /** The counter record_wrmsr bumps. */
  function RecordClass(msr: u32): Class {
    if msr == MSR_IA32_APICBASE then ApicBase
    else if msr == MSR_IA32_TSC_ADJUST then TscAdjust
    else if msr == MSR_IA32_TSCDEADLINE then TscDeadline
    else if msr == MSR_IA32_MISC_ENABLE then MiscEnable
    else if msr == MSR_IA32_MCG_STATUS then McgStatus
    else if msr == MSR_IA32_MCG_CTL then McgCtl
    else if msr == MSR_IA32_MCG_EXT_CTL then McgExtCtl
    else if msr == MSR_IA32_SMBASE then Smbase
    else if msr == MSR_PLATFORM_INFO then PlatformInfo
    else if msr == MSR_MISC_FEATURES_ENABLES then MiscFeaturesEnables
    else if msr == MSR_KVM_WALL_CLOCK_NEW || msr == MSR_KVM_WALL_CLOCK then WallClock
    else if msr == MSR_KVM_SYSTEM_TIME_NEW || msr == MSR_KVM_SYSTEM_TIME then SystemTime
    else if IsApic(msr) then RecordClassApic(ApicReg(msr))
    else if msr == MSR_CORE_PERF_FIXED_CTR0 then FixedCtr0
    else if msr == MSR_CORE_PERF_FIXED_CTR1 then FixedCtr1
    else if msr == MSR_CORE_PERF_FIXED_CTR2 then FixedCtr2
    else if msr == MSR_CORE_PERF_FIXED_CTR_CTRL then FixedCtrCtrl
    else if msr == MSR_CORE_PERF_GLOBAL_STATUS then GlobalStatus
    else if msr == MSR_CORE_PERF_GLOBAL_CTRL then GlobalCtrl
    else if msr == MSR_CORE_PERF_GLOBAL_OVF_CTRL then GlobalOvfCtrl
    else Others
  }

  function RecordClassApic(reg: u32): Class {
    if reg == APIC_TASKPRI then LapicTpr
    else if reg == APIC_EOI then LapicEoi
    else if reg == APIC_LDR then LapicLdr
    else if reg == APIC_DFR then LapicDfr
    else if reg == APIC_SPIV then LapicSpiv
    else if reg == APIC_ICR then LapicIcr
    else if reg == APIC_ICR2 then LapicIcr2
    else if reg == APIC_LVT0 || reg == APIC_LVTTHMR || reg == APIC_LVTPC || reg == APIC_LVT1
            || reg == APIC_LVTERR then LapicLvt
    else if reg == APIC_LVTT then LapicLvtt
    else if reg == APIC_SELF_IPI then LapicSelfIpi
    else LapicOthers
  }

  /** The counter report_wrmsr returns: MSR_MISC_FEATURES_ENABLES reads the misc_enable counter. */
  function ReportClass(msr: u32): Class {
    if msr == MSR_IA32_APICBASE then ApicBase
    else if msr == MSR_IA32_TSC_ADJUST then TscAdjust
    else if msr == MSR_IA32_TSCDEADLINE then TscDeadline
    else if msr == MSR_IA32_MISC_ENABLE then MiscEnable
    else if msr == MSR_IA32_MCG_STATUS then McgStatus
    else if msr == MSR_IA32_MCG_CTL then McgCtl
    else if msr == MSR_IA32_MCG_EXT_CTL then McgExtCtl
    else if msr == MSR_IA32_SMBASE then Smbase
    else if msr == MSR_PLATFORM_INFO then PlatformInfo
    else if msr == MSR_MISC_FEATURES_ENABLES then MiscEnable
    else if msr == MSR_KVM_WALL_CLOCK_NEW || msr == MSR_KVM_WALL_CLOCK then WallClock
    else if msr == MSR_KVM_SYSTEM_TIME_NEW || msr == MSR_KVM_SYSTEM_TIME then SystemTime
    else if IsApic(msr) then ReportClassApic(ApicReg(msr))
    else if msr == MSR_CORE_PERF_FIXED_CTR0 then FixedCtr0
    else if msr == MSR_CORE_PERF_FIXED_CTR1 then FixedCtr1
    else if msr == MSR_CORE_PERF_FIXED_CTR2 then FixedCtr2
    else if msr == MSR_CORE_PERF_FIXED_CTR_CTRL then FixedCtrCtrl
    else if msr == MSR_CORE_PERF_GLOBAL_STATUS then GlobalStatus
    else if msr == MSR_CORE_PERF_GLOBAL_CTRL then GlobalCtrl
    else if msr == MSR_CORE_PERF_GLOBAL_OVF_CTRL then GlobalOvfCtrl
    else Others
  }

  function ReportClassApic(reg: u32): Class {
    if reg == APIC_TASKPRI then LapicTpr
    else if reg == APIC_EOI then LapicEoi
    else if reg == APIC_LDR then LapicLdr
    else if reg == APIC_DFR then LapicDfr
    else if reg == APIC_SPIV then LapicSpiv
    else if reg == APIC_ICR then LapicIcr
    else if reg == APIC_ICR2 then LapicIcr2
    else if reg == APIC_LVT0 || reg == APIC_LVTTHMR || reg == APIC_LVTPC || reg == APIC_LVT1
            || reg == APIC_LVTERR then LapicLvt
    else if reg == APIC_LVTT then LapicLvtt
    else if reg == APIC_SELF_IPI then LapicSelfIpi
    else LapicOthers
  }

  /** The name msr2str prints. */
  function Msr2Str(msr: u32): string {
    if msr == MSR_IA32_APICBASE then "MSR_IA32_APICBASE"
    else if msr == MSR_IA32_TSC_ADJUST then "MSR_IA32_TSC_ADJUST"
    else if msr == MSR_IA32_TSCDEADLINE then "MSR_IA32_TSCDEADLINE"
    else if msr == MSR_IA32_MISC_ENABLE then "MSR_IA32_MISC_ENABLE"
    else if msr == MSR_IA32_MCG_STATUS then "MSR_IA32_MCG_STATUS"
    else if msr == MSR_IA32_MCG_CTL then "MSR_IA32_MCG_CTL"
    else if msr == MSR_IA32_MCG_EXT_CTL then "MSR_IA32_MCG_EXT_CTL"
    else if msr == MSR_IA32_SMBASE then "MSR_IA32_SMBASE"
    else if msr == MSR_PLATFORM_INFO then "MSR_PLATFORM_INFO"
    else if msr == MSR_MISC_FEATURES_ENABLES then "MSR_MISC_FEATURES_ENABLES"
    else if msr == MSR_KVM_WALL_CLOCK_NEW || msr == MSR_KVM_WALL_CLOCK then "MSR_KVM_WALL_CLOCK"
    else if msr == MSR_KVM_SYSTEM_TIME_NEW || msr == MSR_KVM_SYSTEM_TIME then "MSR_KVM_SYSTEM_TIME"
    else if IsApic(msr) then Msr2StrApic(ApicReg(msr))
    else if msr == MSR_CORE_PERF_FIXED_CTR0 then "MSR_CORE_PERF_FIXED_CTR0"
    else if msr == MSR_CORE_PERF_FIXED_CTR1 then "MSR_CORE_PERF_FIXED_CTR1"
    else if msr == MSR_CORE_PERF_FIXED_CTR2 then "MSR_CORE_PERF_FIXED_CTR2"
    else if msr == MSR_CORE_PERF_FIXED_CTR_CTRL then "MSR_CORE_PERF_FIXED_CTR_CTRL"
    else if msr == MSR_CORE_PERF_GLOBAL_STATUS then "MSR_CORE_PERF_GLOBAL_STATUS"
    else if msr == MSR_CORE_PERF_GLOBAL_CTRL then "MSR_CORE_PERF_GLOBAL_CTRL"
    else if msr == MSR_CORE_PERF_GLOBAL_OVF_CTRL then "MSR_CORE_PERF_GLOBAL_OVF_CTRL"
    else "MSR_OTHERS"
  }

  function Msr2StrApic(reg: u32): string {
    if reg == APIC_TASKPRI then "APIC_TASKPRI"
    else if reg == APIC_EOI then "APIC_EOI"
    else if reg == APIC_LDR then "APIC_LDR"
    else if reg == APIC_DFR then "APIC_DFR"
    else if reg == APIC_SPIV then "APIC_SPIV"
    else if reg == APIC_ICR then "APIC_ICR"
    else if reg == APIC_ICR2 then "APIC_ICR2"
    else if reg == APIC_LVT0 || reg == APIC_LVTTHMR || reg == APIC_LVTPC || reg == APIC_LVT1
            || reg == APIC_LVTERR then "APIC_LVT0"
    else if reg == APIC_LVTT then "APIC_LVTT"
    else if reg == APIC_SELF_IPI then "APIC_SELF_IPI"
    else "APIC_OTHERS"
  }

  /** The MSR index of each report line, in order; 0 stands for the "others" line. */
  function Shown(k: nat): u32
    requires k < CLASSES
  {
    if k == 0 then MSR_IA32_APICBASE
    else if k == 1 then MSR_IA32_TSC_ADJUST
    else if k == 2 then MSR_IA32_TSCDEADLINE
    else if k == 3 then MSR_IA32_MISC_ENABLE
    else if k == 4 then MSR_IA32_MCG_STATUS
    else if k == 5 then MSR_IA32_MCG_CTL
    else if k == 6 then MSR_IA32_MCG_EXT_CTL
    else if k == 7 then MSR_IA32_SMBASE
    else if k == 8 then MSR_PLATFORM_INFO
    else if k == 9 then MSR_MISC_FEATURES_ENABLES
    else if k == 10 then MSR_KVM_WALL_CLOCK
    else if k == 11 then MSR_KVM_SYSTEM_TIME
    else if k == 12 then MSR_CORE_PERF_FIXED_CTR0
    else if k == 13 then MSR_CORE_PERF_FIXED_CTR1
    else if k == 14 then MSR_CORE_PERF_FIXED_CTR2
    else if k == 15 then MSR_CORE_PERF_FIXED_CTR_CTRL
    else if k == 16 then MSR_CORE_PERF_GLOBAL_STATUS
    else if k == 17 then MSR_CORE_PERF_GLOBAL_CTRL
    else if k == 18 then MSR_CORE_PERF_GLOBAL_OVF_CTRL
    else if k == 19 then 0
    else if k == 20 then APIC_BASE_MSR + APIC_TASKPRI / 16
    else if k == 21 then APIC_BASE_MSR + APIC_EOI / 16
    else if k == 22 then APIC_BASE_MSR + APIC_LDR / 16
    else if k == 23 then APIC_BASE_MSR + APIC_DFR / 16
    else if k == 24 then APIC_BASE_MSR + APIC_SPIV / 16
    else if k == 25 then APIC_BASE_MSR + APIC_ICR / 16
    else if k == 26 then APIC_BASE_MSR + APIC_ICR2 / 16
    else if k == 27 then APIC_BASE_MSR + APIC_LVT0 / 16
    else if k == 28 then APIC_BASE_MSR + APIC_LVTT / 16
    else if k == 29 then APIC_BASE_MSR + APIC_SELF_IPI / 16
    else APIC_BASE_MSR
  }

  function Ordinal(c: Class): (k: nat)
    ensures k < CLASSES
  {
    match c
    case ApicBase => 0
    case TscAdjust => 1
    case TscDeadline => 2
    case MiscEnable => 3
    case McgStatus => 4
    case McgCtl => 5
    case McgExtCtl => 6
    case Smbase => 7
    case PlatformInfo => 8
    case MiscFeaturesEnables => 9
    case WallClock => 10
    case SystemTime => 11
    case FixedCtr0 => 12
    case FixedCtr1 => 13
    case FixedCtr2 => 14
    case FixedCtrCtrl => 15
    case GlobalStatus => 16
    case GlobalCtrl => 17
    case GlobalOvfCtrl => 18
    case Others => 19
    case LapicTpr => 20
    case LapicEoi => 21
    case LapicLdr => 22
    case LapicDfr => 23
    case LapicSpiv => 24
    case LapicIcr => 25
    case LapicIcr2 => 26
    case LapicLvt => 27
    case LapicLvtt => 28
    case LapicSelfIpi => 29
    case LapicOthers => 30
  }

  function NameOf(c: Class): string {
    match c
    case ApicBase => "MSR_IA32_APICBASE"
    case TscAdjust => "MSR_IA32_TSC_ADJUST"
    case TscDeadline => "MSR_IA32_TSCDEADLINE"
    case MiscEnable => "MSR_IA32_MISC_ENABLE"
    case McgStatus => "MSR_IA32_MCG_STATUS"
    case McgCtl => "MSR_IA32_MCG_CTL"
    case McgExtCtl => "MSR_IA32_MCG_EXT_CTL"
    case Smbase => "MSR_IA32_SMBASE"
    case PlatformInfo => "MSR_PLATFORM_INFO"
    case MiscFeaturesEnables => "MSR_MISC_FEATURES_ENABLES"
    case WallClock => "MSR_KVM_WALL_CLOCK"
    case SystemTime => "MSR_KVM_SYSTEM_TIME"
    case FixedCtr0 => "MSR_CORE_PERF_FIXED_CTR0"
    case FixedCtr1 => "MSR_CORE_PERF_FIXED_CTR1"
    case FixedCtr2 => "MSR_CORE_PERF_FIXED_CTR2"
    case FixedCtrCtrl => "MSR_CORE_PERF_FIXED_CTR_CTRL"
    case GlobalStatus => "MSR_CORE_PERF_GLOBAL_STATUS"
    case GlobalCtrl => "MSR_CORE_PERF_GLOBAL_CTRL"
    case GlobalOvfCtrl => "MSR_CORE_PERF_GLOBAL_OVF_CTRL"
    case Others => "MSR_OTHERS"
    case LapicTpr => "APIC_TASKPRI"
    case LapicEoi => "APIC_EOI"
    case LapicLdr => "APIC_LDR"
    case LapicDfr => "APIC_DFR"
    case LapicSpiv => "APIC_SPIV"
    case LapicIcr => "APIC_ICR"
    case LapicIcr2 => "APIC_ICR2"
    case LapicLvt => "APIC_LVT0"
    case LapicLvtt => "APIC_LVTT"
    case LapicSelfIpi => "APIC_SELF_IPI"
    case LapicOthers => "APIC_OTHERS"
  }

  /** The class told from a name's length and last two characters. */
  function ClassOf(len: nat, c1: char, c2: char): Class {
    if len == 8 then (
      if c1 == 'O' && c2 == 'I' then LapicEoi
      else if c1 == 'D' && c2 == 'R' then LapicLdr
      else if c1 == 'F' && c2 == 'R' then LapicDfr
      else LapicIcr)
    else if len == 9 then (
      if c1 == 'I' && c2 == 'V' then LapicSpiv
      else if c1 == 'R' && c2 == '2' then LapicIcr2
      else if c1 == 'T' && c2 == '0' then LapicLvt
      else LapicLvtt)
    else if len == 10 then Others
    else if len == 11 then LapicOthers
    else if len == 12 then LapicTpr
    else if len == 13 then LapicSelfIpi
    else if len == 15 then Smbase
    else if len == 16 then McgCtl
    else if len == 17 then (if c1 == 'S' && c2 == 'E' then ApicBase else PlatformInfo)
    else if len == 18 then WallClock
    else if len == 19 then (
      if c1 == 'S' && c2 == 'T' then TscAdjust
      else if c1 == 'U' && c2 == 'S' then McgStatus
      else SystemTime)
    else if len == 20 then (
      if c1 == 'N' && c2 == 'E' then TscDeadline
      else if c1 == 'L' && c2 == 'E' then MiscEnable
      else McgExtCtl)
    else if len == 24 then (
      if c1 == 'R' && c2 == '0' then FixedCtr0
      else if c1 == 'R' && c2 == '1' then FixedCtr1
      else FixedCtr2)
    else if len == 25 then (if c1 == 'E' && c2 == 'S' then MiscFeaturesEnables else GlobalCtrl)
    else if len == 27 then GlobalStatus
    else if len == 28 then FixedCtrCtrl
    else GlobalOvfCtrl
  }

  lemma NameTellsFirst(c: Class)
    requires Ordinal(c) < 12
    ensures var s := NameOf(c); 2 <= |s| && ClassOf(|s|, s[|s| - 2], s[|s| - 1]) == c
  {
    match c
    case ApicBase => assert |NameOf(ApicBase)| == 17;
    case TscAdjust => assert |NameOf(TscAdjust)| == 19;
    case TscDeadline => assert |NameOf(TscDeadline)| == 20;
    case MiscEnable => assert |NameOf(MiscEnable)| == 20;
    case McgStatus => assert |NameOf(McgStatus)| == 19;
    case McgCtl => assert |NameOf(McgCtl)| == 16;
    case McgExtCtl => assert |NameOf(McgExtCtl)| == 20;
    case Smbase => assert |NameOf(Smbase)| == 15;
    case PlatformInfo => assert |NameOf(PlatformInfo)| == 17;
    case MiscFeaturesEnables => assert |NameOf(MiscFeaturesEnables)| == 25;
    case WallClock => assert |NameOf(WallClock)| == 18;
    case SystemTime => assert |NameOf(SystemTime)| == 19;
    case _ => assert false;
  }

  lemma NameTellsMiddle(c: Class)
    requires 12 <= Ordinal(c) < 20
    ensures var s := NameOf(c); 2 <= |s| && ClassOf(|s|, s[|s| - 2], s[|s| - 1]) == c
  {
    match c
    case FixedCtr0 => assert |NameOf(FixedCtr0)| == 24;
    case FixedCtr1 => assert |NameOf(FixedCtr1)| == 24;
    case FixedCtr2 => assert |NameOf(FixedCtr2)| == 24;
    case FixedCtrCtrl => assert |NameOf(FixedCtrCtrl)| == 28;
    case GlobalStatus => assert |NameOf(GlobalStatus)| == 27;
    case GlobalCtrl => assert |NameOf(GlobalCtrl)| == 25;
    case GlobalOvfCtrl => assert |NameOf(GlobalOvfCtrl)| == 29;
    case Others => assert |NameOf(Others)| == 10;
    case _ => assert false;
  }

  lemma NameTellsLapic(c: Class)
    requires 20 <= Ordinal(c)
    ensures var s := NameOf(c); 2 <= |s| && ClassOf(|s|, s[|s| - 2], s[|s| - 1]) == c
  {
    match c
    case LapicTpr => assert |NameOf(LapicTpr)| == 12;
    case LapicEoi => assert |NameOf(LapicEoi)| == 8;
    case LapicLdr => assert |NameOf(LapicLdr)| == 8;
    case LapicDfr => assert |NameOf(LapicDfr)| == 8;
    case LapicSpiv => assert |NameOf(LapicSpiv)| == 9;
    case LapicIcr => assert |NameOf(LapicIcr)| == 8;
    case LapicIcr2 => assert |NameOf(LapicIcr2)| == 9;
    case LapicLvt => assert |NameOf(LapicLvt)| == 9;
    case LapicLvtt => assert |NameOf(LapicLvtt)| == 9;
    case LapicSelfIpi => assert |NameOf(LapicSelfIpi)| == 13;
    case LapicOthers => assert |NameOf(LapicOthers)| == 11;
    case _ => assert false;
  }

  /** The printed name gives the class away. */
  lemma NameTells(c: Class)
    ensures var s := NameOf(c); 2 <= |s| && ClassOf(|s|, s[|s| - 2], s[|s| - 1]) == c
  {
    if Ordinal(c) < 12 {
      NameTellsFirst(c);
    } else if Ordinal(c) < 20 {
      NameTellsMiddle(c);
    } else {
      NameTellsLapic(c);
    }
  }

  lemma ApicNameIsOfClass(reg: u32)
    ensures Msr2StrApic(reg) == NameOf(RecordClassApic(reg))
  {
  }

  lemma NameIsOfClass(msr: u32)
    ensures Msr2Str(msr) == NameOf(RecordClass(msr))
  {
    if IsApic(msr) {
      ApicNameIsOfClass(ApicReg(msr));
    }
  }

  /** The MSRs outside the local APIC with a counter of their own, in numbers. */
  lemma MsrNumbers()
    ensures RecordClass(0x11) == RecordClass(0x4b564d00) == WallClock
    ensures RecordClass(0x12) == RecordClass(0x4b564d01) == SystemTime
    ensures RecordClass(0x1b) == ApicBase && RecordClass(0x3b) == TscAdjust && RecordClass(0x6e0) == TscDeadline
    ensures RecordClass(0x9e) == Smbase && RecordClass(0xce) == PlatformInfo
    ensures RecordClass(0x140) == MiscFeaturesEnables && RecordClass(0x1a0) == MiscEnable
    ensures RecordClass(0x17a) == McgStatus && RecordClass(0x17b) == McgCtl && RecordClass(0x4d0) == McgExtCtl
  {
  }

  lemma PerfNumbers()
    ensures RecordClass(0x309) == FixedCtr0 && RecordClass(0x30a) == FixedCtr1 && RecordClass(0x30b) == FixedCtr2
    ensures RecordClass(0x38d) == FixedCtrCtrl && RecordClass(0x38e) == GlobalStatus
    ensures RecordClass(0x38f) == GlobalCtrl && RecordClass(0x390) == GlobalOvfCtrl
  {
  }

  /** The x2APIC MSRs with a counter of their own, or with the other LVT entries. */
  lemma ApicNumbers(m: u32)
    requires 0x800 <= m <= 0xbff
    ensures RecordClass(m)
         == if m == 0x808 then LapicTpr else if m == 0x80b then LapicEoi else if m == 0x80d then LapicLdr
            else if m == 0x80e then LapicDfr else if m == 0x80f then LapicSpiv else if m == 0x830 then LapicIcr
            else if m == 0x831 then LapicIcr2 else if m == 0x832 then LapicLvtt
            else if 0x833 <= m <= 0x837 then LapicLvt else if m == 0x83f then LapicSelfIpi else LapicOthers
  {
  }

  /** All the numbers above. */
  predicate Numbered(m: u32) {
    || m in {0x11, 0x4b564d00, 0x12, 0x4b564d01, 0x1b, 0x3b, 0x6e0, 0x9e, 0xce, 0x140, 0x1a0, 0x17a, 0x17b, 0x4d0}
    || m in {0x309, 0x30a, 0x30b, 0x38d, 0x38e, 0x38f, 0x390}
    || m in {0x808, 0x80b, 0x80d, 0x80e, 0x80f, 0x83f}
    || 0x830 <= m <= 0x837
  }

  /** Any other MSR is a local APIC register, from 0x800 to 0xbff, or goes into the table. */
  lemma UnnumberedClass(m: u32)
    ensures RecordClass(m) == LapicOthers <==> 0x800 <= m <= 0xbff && !Numbered(m)
    ensures RecordClass(m) == Others <==> !(0x800 <= m <= 0xbff) && !Numbered(m)
  {
  }

  /** Two MSRs print the same name exactly if their events bump the same counter. */
  lemma OnePartition(a: u32, b: u32)
    ensures Msr2Str(a) == Msr2Str(b) <==> RecordClass(a) == RecordClass(b)
  {
    NameIsOfClass(a);
    NameIsOfClass(b);
    NameTells(RecordClass(a));
    NameTells(RecordClass(b));
  }

  /** A report line reads the counter that the MSR's own events bump, except for one MSR. */
  lemma ReportReadsOwnCounter(msr: u32)
    ensures ReportClass(msr) == RecordClass(msr) <==> msr != MSR_MISC_FEATURES_ENABLES
    ensures ReportClass(MSR_MISC_FEATURES_ENABLES) == MiscEnable
  {
  }

  /** MSR -> register offset -> MSR and back, on the whole x2APIC range. */
  lemma ApicRoundTrip(msr: u32, reg: u32)
    ensures IsApic(msr) ==> ApicReg(msr) / 16 + APIC_BASE_MSR == msr
    ensures reg % 16 == 0 && reg <= 0x3ff0 ==>
              IsApic(APIC_BASE_MSR + reg / 16) && ApicReg(APIC_BASE_MSR + reg / 16) == reg
  {
  }

  lemma OrdinalInjective(c: Class, d: Class)
    requires Ordinal(c) == Ordinal(d)
    ensures c == d
  {
  }

  lemma ClassOfShown(k: nat)
    requires k < CLASSES
    ensures Ordinal(RecordClass(Shown(k))) == k
  {
    if k < 10 {
    } else if k < 20 {
    } else {
      assert IsApic(Shown(k));
    }
  }

  /** The report lines hit every counter class exactly once: Shown and Ordinal are inverse to each other. */
  lemma ShownOnce(c: Class, k: nat)
    requires k < CLASSES
    ensures RecordClass(Shown(Ordinal(c))) == c
    ensures Ordinal(RecordClass(Shown(k))) == k
  {
    ClassOfShown(k);
    ClassOfShown(Ordinal(c));
    OrdinalInjective(RecordClass(Shown(Ordinal(c))), c);
  }

  /** The counts that show_wrmsr prints in its 31 class lines. */
  function Lines(counters: seq<nat>): (lines: seq<nat>)
    requires |counters| == CLASSES
    ensures |lines| == CLASSES
  {
    seq(CLASSES, k requires 0 <= k < CLASSES => counters[Ordinal(ReportClass(Shown(k)))])
  }

  /** Each line is its own counter, but the misc_features_enables line repeats the misc_enable one. */
  lemma LinesAre(counters: seq<nat>)
    requires |counters| == CLASSES
    ensures Lines(counters) == counters[Ordinal(MiscFeaturesEnables) := counters[Ordinal(MiscEnable)]]
  {
    forall k | 0 <= k < CLASSES
      ensures Lines(counters)[k] == counters[Ordinal(MiscFeaturesEnables) := counters[Ordinal(MiscEnable)]][k]
    {
      ShownOnce(MiscEnable, k);
      ReportReadsOwnCounter(Shown(k));
      assert k != Ordinal(MiscFeaturesEnables) ==> Shown(k) != MSR_MISC_FEATURES_ENABLES;
    }
  }

  /** So the lines add up to the counters' total exactly if those two counters are equal. */
  lemma LinesSum(counters: seq<nat>)
    requires |counters| == CLASSES
    ensures Sum(Lines(counters), Identity()) + counters[Ordinal(MiscFeaturesEnables)]
         == Sum(counters, Identity()) + counters[Ordinal(MiscEnable)]
    ensures Sum(Lines(counters), Identity()) == Sum(counters, Identity())
       <==> counters[Ordinal(MiscFeaturesEnables)] == counters[Ordinal(MiscEnable)]
  {
    LinesAre(counters);
    SumUpdate(counters, Ordinal(MiscFeaturesEnables), counters[Ordinal(MiscEnable)], Identity());
  }
}
