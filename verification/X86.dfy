/** Vendor identification and cache information from CPUID (src/impl_x86__base_implementation.inl).
    The CPUID instruction and the table of leaf-2 descriptors are parameters.
  */
module X86 {
  import opened Bits

  datatype Leaf = Leaf(eax: bv32, ebx: bv32, ecx: bv32, edx: bv32)

  type CpuId = (bv32, nat) -> Leaf

  function SafeCpuIdEx(cpuid: CpuId, max: bv32, leafId: bv32, ecx: nat): Leaf {
    if leafId <= max then cpuid(leafId, ecx) else Leaf(0, 0, 0, 0)
  }

  // ----- Registers as bytes, least significant first

  function Bytes(x: bv32): seq<bv8> {
    [(x & 0xFF) as bv8, ((x >> 8) & 0xFF) as bv8, ((x >> 16) & 0xFF) as bv8, (x >> 24) as bv8]
  }

  function Word(b: seq<bv8>): bv32
    requires |b| == 4
  {
    (b[0] as bv32) | (b[1] as bv32 << 8) | (b[2] as bv32 << 16) | (b[3] as bv32 << 24)
  }

  lemma WordOfBytes(x: bv32)
    ensures Word(Bytes(x)) == x
  {
  }

  lemma BytesOfWord(b: seq<bv8>)
    requires |b| == 4
    ensures Bytes(Word(b)) == b
  {
  }

  /** The register of four bytes, the first the least significant. */
  lemma WordIs(b: seq<bv8>)
    requires |b| == 4
    ensures Word(b) == b[0] as bv32 + b[1] as bv32 * 0x100 + b[2] as bv32 * 0x1_0000 + b[3] as bv32 * 0x100_0000
  {
  }

  // ----- Vendor

  /** The stored vendor string: 12 characters and a terminator. */
  function VendorString(leaf: Leaf): seq<bv8> {
    Bytes(leaf.ebx) + Bytes(leaf.edx) + Bytes(leaf.ecx) + [0]
  }

  method StoreWord(x: bv32, dst: array<bv8>, at: nat)
    requires at + 4 <= dst.Length
    modifies dst
    ensures dst[..] == old(dst[..])[..at] + Bytes(x) + old(dst[..])[at + 4..]
  {
    dst[at], dst[at + 1] := Bytes(x)[0], Bytes(x)[1];
    dst[at + 2], dst[at + 3] := Bytes(x)[2], Bytes(x)[3];
  }

  method SetVendor(leaf: Leaf, vendor: array<bv8>)
    requires vendor.Length == 13
    modifies vendor
    ensures vendor[..] == VendorString(leaf)
  {
    hide Bytes;
    BytesLength(leaf.ebx);
    BytesLength(leaf.edx);
    BytesLength(leaf.ecx);
    StoreWord(leaf.ebx, vendor, 0);
    assert vendor[..4] == Bytes(leaf.ebx);
    StoreWord(leaf.edx, vendor, 4);
    assert vendor[..8] == Bytes(leaf.ebx) + Bytes(leaf.edx);
    StoreWord(leaf.ecx, vendor, 8);
    assert vendor[..12] == Bytes(leaf.ebx) + Bytes(leaf.edx) + Bytes(leaf.ecx);
    vendor[12] := 0;
  }

  lemma BytesLength(x: bv32)
    ensures |Bytes(x)| == 4
  {
  }

  /** Compares the registers with the name's words. */
  predicate IsVendor(leaf: Leaf, name: seq<bv8>)
    requires |name| >= 12
  {
    leaf.ebx == Word(name[0..4]) && leaf.ecx == Word(name[8..12]) && leaf.edx == Word(name[4..8])
  }

  /** Compares the stored string with the name, terminator included. */
  method IsVendorByX86Info(vendor: array<bv8>, name: seq<bv8>) returns (r: bool)
    requires vendor.Length == 13 && |name| == 13
    ensures r == (vendor[..] == name)
  {
    for i := 0 to 13
      invariant vendor[..i] == name[..i]
    {
      if vendor[i] != name[i] {
        return false;
      }
    }
    assert vendor[..13] == vendor[..] && name[..13] == name;
    return true;
  }

  lemma Slices(a: seq<bv8>, b: seq<bv8>, c: seq<bv8>)
    requires |a| == 4 && |b| == 4 && |c| == 4
    ensures var s := a + b + c + [0];
            |s| == 13 && s[0..4] == a && s[4..8] == b && s[8..12] == c && s[12] == 0
  {
  }

  lemma Assembled(name: seq<bv8>)
    requires |name| == 13 && name[12] == 0
    ensures name[0..4] + name[4..8] + name[8..12] + [0] == name
  {
  }

  lemma SameWord(x: bv32, b: seq<bv8>)
    requires |b| == 4
    ensures |Bytes(x)| == 4 && (x == Word(b) <==> Bytes(x) == b)
  {
    hide Bytes, Word;
    WordOfBytes(x);
    BytesOfWord(b);
    BytesLength(x);
  }

  /** The two vendor tests agree on every leaf and every terminated 12-byte name. */
  lemma VendorTestsAgree(leaf: Leaf, name: seq<bv8>)
    requires |name| == 13 && name[12] == 0
    ensures IsVendor(leaf, name) <==> VendorString(leaf) == name
  {
    hide Bytes, Word;
    SameWord(leaf.ebx, name[0..4]);
    SameWord(leaf.edx, name[4..8]);
    SameWord(leaf.ecx, name[8..12]);
    Assembled(name);
    Slices(Bytes(leaf.ebx), Bytes(leaf.edx), Bytes(leaf.ecx));
  }
}
