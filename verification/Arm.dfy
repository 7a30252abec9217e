/** The ARM CPU identifier and the quirk-fixing pass (src/impl_arm_linux_or_android.c), and the
    MIDR_EL1 layout of src/impl_aarch64_freebsd_or_openbsd.c.
  */
module Arm {
  import opened Bits
  import opened Numerals
  import opened StringView

  /** The identification fields as the 32 bits of their C ints. */
  datatype Identity = Identity(implementer: bv32, variant: bv32, part: bv32, revision: bv32)

  function GetArmCpuId(id: Identity): bv32 {
    (ExtractBitRange(id.implementer, 7, 0) << 24) | (ExtractBitRange(id.variant, 3, 0) << 20) |
    (ExtractBitRange(id.part, 11, 0) << 4) | (ExtractBitRange(id.revision, 3, 0) << 0)
  }

  /** The register is 64 bits wide; the extraction takes its low half. */
  function DecodeMidr(midr: bv64): Identity {
    var low := LowHalf(midr);
    Identity(ExtractBitRange(low, 31, 24), ExtractBitRange(low, 23, 20),
             ExtractBitRange(low, 15, 4), ExtractBitRange(low, 3, 0))
  }

  /** Decoding an identifier gives the fields back, reduced to 8, 4, 12 and 4 bits. */
  lemma DecodeOfEncode(id: Identity)
    ensures DecodeMidr(GetArmCpuId(id) as bv64) ==
            Identity(id.implementer & 0xFF, id.variant & 0xF, id.part & 0xFFF, id.revision & 0xF)
  {
  }

  /** Encoding a decoded register only clears the architecture field, bits 19 to 16. */
  lemma EncodeOfDecode(midr: bv64)
    ensures GetArmCpuId(DecodeMidr(midr)) == LowHalf(midr) & 0xFFF0_FFFF
  {
  }

  // ----- Quirks

  /** The features the quirk pass reads or writes. */
  datatype Features = Features(vfp: bool, vfpv3: bool, vfpv4: bool, neon: bool, idiva: bool, idivt: bool)

  datatype Description = Description(id: Identity, architecture: int, features: Features)

  datatype ProcCpuInfoData = ProcCpuInfoData(processorReportsArmv6: bool, hardwareReportsGoldfish: bool)

  class ArmInfo {
    const id: Identity
    var architecture: int
    var vfp: bool
    var vfpv3: bool
    var vfpv4: bool
    var neon: bool
    var idiva: bool
    var idivt: bool

    constructor (d: Description)
      ensures State() == d
    {
      id, architecture := d.id, d.architecture;
      vfp, vfpv3, vfpv4 := d.features.vfp, d.features.vfpv3, d.features.vfpv4;
      neon, idiva, idivt := d.features.neon, d.features.idiva, d.features.idivt;
    }

    function State(): Description
      reads this
    {
      Description(id, architecture, Features(vfp, vfpv3, vfpv4, neon, idiva, idivt))
    }

    method FixErrors(proc: ProcCpuInfoData)
      modifies this
      ensures State() == Fixed(old(State()), proc)
    {
      Correct(proc);
      Propagate();
    }

    method Correct(proc: ProcCpuInfoData)
      modifies this
      ensures State() == Corrected(old(State()), proc)
    {
      hide GetArmCpuId;
      if proc.processorReportsArmv6 && architecture >= 7 {
        architecture := 6;
      }
      var cpuId := GetArmCpuId(id);
      if cpuId == 0x4100_C080 {
        if architecture >= 7 && proc.hardwareReportsGoldfish {
          idiva := true;
        }
      } else if cpuId == 0x5110_04D0 {
        neon := false;
      }
      if id.implementer == 0x51 && architecture == 7 && (id.part == 0x4d || id.part == 0x6f) {
        idiva := true;
        idivt := true;
      }
    }

    method Propagate()
      modifies this
      ensures State() == Propagated(old(State()))
    {
      if vfpv4 {
        vfpv3 := true;
      }
      if neon {
        vfpv3 := true;
      }
      if vfpv3 {
        vfp := true;
      }
    }
  }

  predicate MisreportsNeon(d: Description) {
    GetArmCpuId(d.id) == 0x5110_04D0
  }

  predicate EmulatorForgetsIdiva(d: Description, proc: ProcCpuInfoData) {
    GetArmCpuId(d.id) == 0x4100_C080 && d.architecture >= 7 && proc.hardwareReportsGoldfish
  }

  predicate KraitForgetsIdiv(d: Description) {
    d.id.implementer == 0x51 && d.architecture == 7 && (d.id.part == 0x4d || d.id.part == 0x6f)
  }

  /** The architecture and the directly reported features with the known kernel bugs undone. */
  function Corrected(d: Description, proc: ProcCpuInfoData): Description {
    var d := d.(architecture := if proc.processorReportsArmv6 && d.architecture >= 7 then 6 else d.architecture);
    var f := d.features;
    d.(features := f.(neon := f.neon && !MisreportsNeon(d),
                      idiva := f.idiva || EmulatorForgetsIdiva(d, proc) || KraitForgetsIdiv(d),
                      idivt := f.idivt || KraitForgetsIdiv(d)))
  }

  function Propagated(d: Description): Description {
    var f := d.features;
    var vfpv3 := f.vfpv3 || f.vfpv4 || f.neon;
    d.(features := f.(vfpv3 := vfpv3, vfp := f.vfp || vfpv3))
  }

  function Fixed(d: Description, proc: ProcCpuInfoData): Description {
    Propagated(Corrected(d, proc))
  }

  /** vfpv4 implies vfpv3, neon implies vfpv3, vfpv3 implies vfp. */
  predicate Closed(f: Features) {
    (f.vfpv4 ==> f.vfpv3) && (f.neon ==> f.vfpv3) && (f.vfpv3 ==> f.vfp)
  }

  predicate Included(f: Features, g: Features) {
    && (f.vfp ==> g.vfp) && (f.vfpv3 ==> g.vfpv3) && (f.vfpv4 ==> g.vfpv4)
    && (f.neon ==> g.neon) && (f.idiva ==> g.idiva) && (f.idivt ==> g.idivt)
  }

  /** The pass ends in the least closed feature set over the corrected one. */
  lemma FixedIsLeastClosed(d: Description, proc: ProcCpuInfoData)
    ensures Closed(Fixed(d, proc).features)
    ensures Included(Corrected(d, proc).features, Fixed(d, proc).features)
    ensures forall g :: Closed(g) && Included(Corrected(d, proc).features, g) ==> Included(Fixed(d, proc).features, g)
  {
  }

  /** Running the pass again changes nothing. */
  lemma FixedIsIdempotent(d: Description, proc: ProcCpuInfoData)
    ensures Fixed(Fixed(d, proc), proc) == Fixed(d, proc)
  {
  }

  /** Only neon can be lost, and only on the part that misreports it; the identity is kept. */
  lemma FixedLosesOnlyNeon(d: Description, proc: ProcCpuInfoData)
    ensures Fixed(d, proc).id == d.id && Fixed(d, proc).architecture <= d.architecture
    ensures Included(d.features.(neon := d.features.neon && !MisreportsNeon(d)), Fixed(d, proc).features)
  {
  }

  /** The whole answer of the pass, field by field. */
  lemma FixedIs(d: Description, proc: ProcCpuInfoData)
    ensures var f, g, cpuId := d.features, Fixed(d, proc).features, GetArmCpuId(d.id);
            var a := if proc.processorReportsArmv6 && d.architecture >= 7 then 6 else d.architecture;
            var krait := d.id.implementer == 0x51 && a == 7 && (d.id.part == 0x4d || d.id.part == 0x6f);
            var neon := f.neon && cpuId != 0x5110_04D0;
            && Fixed(d, proc).id == d.id && Fixed(d, proc).architecture == a
            && (g.idivt <==> f.idivt || krait)
            && (g.idiva <==> f.idiva || krait || (cpuId == 0x4100_C080 && a >= 7 && proc.hardwareReportsGoldfish))
            && (g.neon <==> neon) && (g.vfpv4 <==> f.vfpv4)
            && (g.vfpv3 <==> f.vfpv3 || f.vfpv4 || neon) && (g.vfp <==> f.vfp || f.vfpv3 || f.vfpv4 || neon)
  {
  }

  /** Where the fields are in an identifier. */
  lemma CpuIdIs(id: Identity)
    requires id.implementer < 0x100 && id.variant < 0x10 && id.part < 0x1000 && id.revision < 0x10
    ensures GetArmCpuId(id) ==
            id.implementer * 0x0100_0000 + id.variant * 0x0010_0000 + id.part * 0x10 + id.revision
  {
  }

  /** The identifier of a Nexus 4, whose kernel forgets both division features. */
  lemma Nexus4(d: Description, proc: ProcCpuInfoData)
    requires d.id == Identity(0x51, 0, 0x6f, 2) && d.architecture == 7 && !proc.processorReportsArmv6
    ensures GetArmCpuId(d.id) == 0x5100_06F2
    ensures Fixed(d, proc).features.idiva && Fixed(d, proc).features.idivt
  {
  }

  // ----- "CPU architecture" values

  lemma DigitCharacters(c: char)
    ensures IsDigit(c) <==> c in "0123456789"
  {
  }

  predicate IsDigit(c: char) {
    '0' <= c <= '9'
  }

  function LeadingDigits(text: string): (n: nat)
    ensures n <= |text| && forall k :: 0 <= k < n ==> IsDigit(text[k])
    ensures n < |text| ==> !IsDigit(text[n])
  {
    if text != "" && IsDigit(text[0]) then 1 + LeadingDigits(text[1..]) else 0
  }

  method IndexOfNonDigit(text: string) returns (index: nat)
    ensures index == LeadingDigits(text)
  {
    index := 0;
    var rest := text;
    while |rest| != 0 && IsDigit(rest[0])
      invariant index + LeadingDigits(rest) == LeadingDigits(text)
    {
      rest := PopFront(rest, 1);
      index := index + 1;
    }
  }

  method ParseArchitecture(value: string) returns (r: int, overflow: bool)
    ensures r == ParseNumber(KeepFront(value, LeadingDigits(value)))
    ensures r >= 0 ==> (overflow <==> r > INT_MAX)
  {
    var index := IndexOfNonDigit(value);
    r, overflow := ParsePositiveNumber(KeepFront(value, index));
  }

  /** A number that letters may follow, such as 6TEJ, reads as the number. */
  lemma ArchitectureRoundTrip(n: nat, suffix: string)
    requires suffix == "" || !IsDigit(suffix[0])
    ensures var value := Decimal(n) + suffix; ParseNumber(KeepFront(value, LeadingDigits(value))) == n
  {
    var digits, value := Decimal(n), Decimal(n) + suffix;
    assert forall k :: 0 <= k < |digits| ==> HexValue(digits[k]) < 10 && IsDigit(value[k]);
    assert suffix != "" ==> value[|digits|] == suffix[0];
    assert value[..|digits|] == digits;
    DecimalRoundTrip(n);
  }
}
