/** Cache descriptions from CPUID: leaf-2 descriptors, deterministic parameters and the legacy AMD
    leaves (src/impl_x86__base_implementation.inl).
  */
module X86Cache {
  import opened Bits
  import opened X86

  const MAX_LEVELS := 16

  datatype CacheType = Null | Data | Instruction | Unified | Tlb | DTlb | STlb | Prefetch

  datatype CacheLevelInfo = CacheLevelInfo(
    level: int, cacheType: CacheType, cacheSize: int, ways: int, lineSize: int, tlbEntries: int, partitioning: int)

  const EMPTY_LEVEL := CacheLevelInfo(0, Null, 0, 0, 0, 0, 0)

  predicate IsInt32(v: int) {
    -0x8000_0000 <= v < 0x8000_0000
  }

  predicate FitsInt32(info: CacheLevelInfo) {
    IsInt32(info.level) && IsInt32(info.cacheSize) && IsInt32(info.ways) && IsInt32(info.lineSize) &&
    IsInt32(info.tlbEntries) && IsInt32(info.partitioning)
  }

  /** The table of leaf-2 descriptors, total and otherwise unconstrained. */
  type DescriptorTable = bv8 -> CacheLevelInfo

  class CacheInfo {
    const levels: array<CacheLevelInfo>
    var size: nat

    ghost predicate Valid()
      reads this
    {
      levels.Length == MAX_LEVELS && size <= MAX_LEVELS
    }

    constructor ()
      ensures Valid() && fresh(levels) && size == 0
    {
      levels := new CacheLevelInfo[MAX_LEVELS](_ => EMPTY_LEVEL);
      size := 0;
    }

    /** What is reported: the levels in use. */
    function Reported(): seq<CacheLevelInfo>
      requires Valid()
      reads this, levels
    {
      levels[..size]
    }

    method CopyFrom(other: CacheInfo)
      requires Valid() && other.Valid() && other != this && other.levels != levels
      modifies this, levels
      ensures Valid() && Reported() == other.Reported()
    {
      forall k | 0 <= k < MAX_LEVELS {
        levels[k] := other.levels[k];
      }
      size := other.size;
    }

    method Add(info: CacheLevelInfo)
      requires Valid() && size < MAX_LEVELS
      modifies this, levels
      ensures Valid() && Reported() == old(Reported()) + [info]
    {
      levels[size] := info;
      size := size + 1;
    }
  }

  // ----- Leaf 2

  function NonZero(bytes: seq<bv8>): (r: seq<bv8>)
    ensures |r| <= |bytes|
  {
    if bytes == [] then []
    else (if bytes[0] == 0 then [] else [bytes[0]]) + NonZero(bytes[1..])
  }

  /** A register counts only if its top bit is clear. */
  function ValidBytes(reg: bv32): (r: seq<bv8>)
    ensures |r| <= 4
  {
    if IsBitSet(reg, 31) then [] else Bytes(reg)
  }

  function ValidTail(reg: bv32): (r: seq<bv8>)
    ensures |r| <= 3
  {
    if IsBitSet(reg, 31) then [] else Bytes(reg)[1..]
  }

  /** The descriptors of a leaf 2: the non-zero bytes of the valid registers, in order, without the
      least significant byte of eax. */
  function Descriptors(leaf: Leaf): (r: seq<bv8>)
    ensures |r| <= 15
  {
    NonZero(ValidTail(leaf.eax) + ValidBytes(leaf.ebx) + ValidBytes(leaf.ecx) + ValidBytes(leaf.edx))
  }

  function Map(table: DescriptorTable, descriptors: seq<bv8>): (r: seq<CacheLevelInfo>)
    ensures |r| == |descriptors|
    ensures forall k :: 0 <= k < |r| ==> r[k] == table(descriptors[k])
  {
    seq(|descriptors|, k requires 0 <= k < |descriptors| => table(descriptors[k]))
  }

  lemma {:induction false} NonZeroOfSum(a: seq<bv8>, b: seq<bv8>)
    ensures NonZero(a + b) == NonZero(a) + NonZero(b)
  {
    if a == [] {
      assert a + b == b;
    } else {
      assert (a + b)[1..] == a[1..] + b;
      NonZeroOfSum(a[1..], b);
    }
  }

  function Cleared(reg: bv32): bv32 {
    if IsBitSet(reg, 31) then 0 else reg
  }

  /** Zeroing a register is as good as dropping its bytes. */
  lemma ClearedBytes(reg: bv32)
    ensures NonZero(Bytes(Cleared(reg))) == NonZero(ValidBytes(reg))
  {
    if IsBitSet(reg, 31) {
      var z := Bytes(0);
      assert z == [0, 0, 0, 0] && z[1..] == [0, 0, 0] && z[1..][1..] == [0, 0] && z[1..][1..][1..] == [0];
    }
  }

  lemma ClearedAl(eax: bv32)
    ensures NonZero(Bytes(Cleared(eax & 0xFFFF_FF00))) ==
            NonZero(ValidTail(eax))
  {
    ClearedBytes(eax & 0xFFFF_FF00);
    SameTop(eax);
    if !IsBitSet(eax, 31) {
      assert Bytes(eax & 0xFFFF_FF00) == [0] + Bytes(eax)[1..];
    }
  }

  lemma SameTop(eax: bv32)
    ensures IsBitSet(eax & 0xFFFF_FF00, 31) == IsBitSet(eax, 31)
    ensures Bytes(eax & 0xFFFF_FF00) == [0] + Bytes(eax)[1..]
  {
  }

  method ParseLeaf2(leaf2: Leaf, table: DescriptorTable, info: CacheInfo)
    requires info.Valid() && info.size + |Descriptors(leaf2)| <= MAX_LEVELS
    modifies info, info.levels
    ensures info.Valid() && info.Reported() == old(info.Reported()) + Map(table, Descriptors(leaf2))
  {
    hide Bytes, Cleared, NonZero, Map, Descriptors;
    var a, b, c, d := Cleared(leaf2.eax & 0xFFFF_FF00), Cleared(leaf2.ebx), Cleared(leaf2.ecx), Cleared(leaf2.edx);
    var data := Bytes(a) + Bytes(b) + Bytes(c) + Bytes(d);
    DataDescriptors(leaf2);
    assert data[0..] == data;
    for i := 0 to |data|
      invariant info.Valid() && info.size + |NonZero(data[i..])| <= MAX_LEVELS
      invariant info.Reported() + Map(table, NonZero(data[i..])) == old(info.Reported()) + Map(table, Descriptors(leaf2))
    {
      NextDescriptor(data, i, table);
      if data[i] != 0 {
        info.Add(table(data[i]));
      }
    }
  }

  lemma NextDescriptor(data: seq<bv8>, i: nat, table: DescriptorTable)
    requires i < |data|
    ensures data[i] == 0 ==> NonZero(data[i..]) == NonZero(data[i + 1..])
    ensures data[i] != 0 ==>
              && |NonZero(data[i..])| == 1 + |NonZero(data[i + 1..])|
              && Map(table, NonZero(data[i..])) == [table(data[i])] + Map(table, NonZero(data[i + 1..]))
  {
  }

  lemma DataDescriptors(leaf: Leaf)
    ensures NonZero(Bytes(Cleared(leaf.eax & 0xFFFF_FF00)) + Bytes(Cleared(leaf.ebx)) + Bytes(Cleared(leaf.ecx)) +
                    Bytes(Cleared(leaf.edx))) == Descriptors(leaf)
  {
    var a, b, c, d := Bytes(Cleared(leaf.eax & 0xFFFF_FF00)), Bytes(Cleared(leaf.ebx)),
                      Bytes(Cleared(leaf.ecx)), Bytes(Cleared(leaf.edx));
    hide *;
    var a', b', c', d' := ValidTail(leaf.eax), ValidBytes(leaf.ebx), ValidBytes(leaf.ecx), ValidBytes(leaf.edx);
    ClearedAl(leaf.eax);
    ClearedBytes(leaf.ebx);
    ClearedBytes(leaf.ecx);
    ClearedBytes(leaf.edx);
    NonZeroOfFour(a, b, c, d);
    NonZeroOfFour(a', b', c', d');
    DescriptorsAre(leaf);
  }

  lemma DescriptorsAre(leaf: Leaf)
    ensures Descriptors(leaf) ==
            NonZero(ValidTail(leaf.eax) + ValidBytes(leaf.ebx) + ValidBytes(leaf.ecx) + ValidBytes(leaf.edx))
  {
  }

  lemma NonZeroOfFour(a: seq<bv8>, b: seq<bv8>, c: seq<bv8>, d: seq<bv8>)
    ensures NonZero(a + b + c + d) == NonZero(a) + NonZero(b) + NonZero(c) + NonZero(d)
  {
    NonZeroOfSum(a + b + c, d);
    NonZeroOfSum(a + b, c);
    NonZeroOfSum(a, b);
  }

  lemma ValidRegister(reg: bv32)
    ensures IsBitSet(reg, 31) <==> reg >= 0x8000_0000
  {
  }

  /** Zero is no descriptor, anything else is one; with NonZeroOfSum this fixes NonZero. */
  lemma NonZeroOfOne(b: bv8)
    ensures NonZero([b]) == if b == 0 then [] else [b]
  {
    assert [b][1..] == [];
  }

  /** The descriptors are in the three high bytes of eax and in the bytes of ebx, ecx and edx, from
      low to high, leaving out registers of 2^31 or more. */
  lemma DescriptorsOf(al: bv8, a: seq<bv8>, b: seq<bv8>, c: seq<bv8>, d: seq<bv8>)
    requires |a| == 3 && |b| == 4 && |c| == 4 && |d| == 4
    ensures Descriptors(Leaf(Word([al] + a), Word(b), Word(c), Word(d))) ==
            NonZero((if Word([al] + a) < 0x8000_0000 then a else []) + (if Word(b) < 0x8000_0000 then b else []) +
                    (if Word(c) < 0x8000_0000 then c else []) + (if Word(d) < 0x8000_0000 then d else []))
  {
    hide Word, Bytes, NonZero, IsBitSet;
    ValidRegister(Word([al] + a));
    ValidRegister(Word(b));
    ValidRegister(Word(c));
    ValidRegister(Word(d));
    BytesOfWord([al] + a);
    BytesOfWord(b);
    BytesOfWord(c);
    BytesOfWord(d);
    assert ([al] + a)[1..] == a;
  }

  // ----- Deterministic cache parameters

  function CacheTypeOf(leaf: Leaf): CacheType {
    var field := ExtractBitRange(leaf.eax, 4, 0);
    if field == 1 then Data else if field == 2 then Instruction else if field == 3 then Unified else Null
  }

  /** Types 1 to 3 are caches; 0 and 4 to 31 end the list. */
  lemma CacheTypeIs(leaf: Leaf)
    ensures CacheTypeOf(leaf) == Null <==> leaf.eax & 0x1F == 0 || leaf.eax & 0x1F > 3
    ensures CacheTypeOf(leaf) == Data <==> leaf.eax & 0x1F == 1
    ensures CacheTypeOf(leaf) == Instruction <==> leaf.eax & 0x1F == 2
    ensures CacheTypeOf(leaf) == Unified <==> leaf.eax & 0x1F == 3
  {
  }

  /** Two's-complement wrap-around of an int. */
  function Wrap32(x: int): (r: int)
    ensures -0x8000_0000 <= r < 0x8000_0000
    ensures -0x8000_0000 <= x < 0x8000_0000 ==> r == x
    ensures (x - r) % 0x1_0000_0000 == 0
  {
    (x + 0x8000_0000) % 0x1_0000_0000 - 0x8000_0000
  }

  function LineSize(leaf: Leaf): nat {
    ExtractBitRange(leaf.ebx, 11, 0) as nat + 1
  }

  function Partitions(leaf: Leaf): nat {
    ExtractBitRange(leaf.ebx, 21, 12) as nat + 1
  }

  function Ways(leaf: Leaf): nat {
    ExtractBitRange(leaf.ebx, 31, 22) as nat + 1
  }

  function Sets(leaf: Leaf): nat {
    leaf.ecx as nat + 1
  }

  function Level(leaf: Leaf): CacheLevelInfo {
    var ways, partitioning, lineSize, entries := Ways(leaf), Partitions(leaf), LineSize(leaf), Wrap32(Sets(leaf));
    CacheLevelInfo(ExtractBitRange(leaf.eax, 7, 5) as int, CacheTypeOf(leaf),
                   Wrap32(Wrap32(Wrap32(ways * partitioning) * lineSize) * entries),
                   ways, lineSize, entries, partitioning)
  }

  /** The reported size is the product of the four parameters exactly when that product fits. */
  lemma SizeIsProductIff(leaf: Leaf)
    ensures var product := Ways(leaf) * Partitions(leaf) * LineSize(leaf) * Sets(leaf);
            Level(leaf).cacheSize == product <==> product < 0x8000_0000
  {
    var w, p, l, s := Ways(leaf), Partitions(leaf), LineSize(leaf), Sets(leaf);
    Grows(w, p);
    Grows(w * p, l);
    Grows(w * p * l, s);
  }

  /** A larger size is reported modulo 2^32. */
  lemma SizeWraps(leaf: Leaf)
    ensures var product := Ways(leaf) * Partitions(leaf) * LineSize(leaf) * Sets(leaf);
            (product - Level(leaf).cacheSize) % 0x1_0000_0000 == 0
  {
    hide Wrap32, Ways, Partitions, LineSize, Sets, CacheTypeOf, ExtractBitRange;
    ProductWraps(Ways(leaf), Partitions(leaf), LineSize(leaf), Sets(leaf));
  }

  lemma ProductWraps(w: nat, p: nat, l: nat, s: nat)
    ensures (w * p * l * s - Wrap32(Wrap32(Wrap32(w * p) * l) * Wrap32(s))) % 0x1_0000_0000 == 0
  {
    hide Wrap32;
    WrapFactor(w * p, Wrap32(w * p), l, l);
    WrapFactor(w * p * l, Wrap32(Wrap32(w * p) * l), s, Wrap32(s));
  }

  lemma WrapFactor(x: int, x': int, y: int, y': int)
    requires (x - x') % 0x1_0000_0000 == 0 && (y - y') % 0x1_0000_0000 == 0
    ensures (x * y - Wrap32(x' * y')) % 0x1_0000_0000 == 0
  {
    hide Wrap32;
    Congruent(x, x', y, y');
    Transitive(x * y, x' * y', Wrap32(x' * y'));
  }

  lemma Congruent(x: int, x': int, y: int, y': int)
    requires (x - x') % 0x1_0000_0000 == 0 && (y - y') % 0x1_0000_0000 == 0
    ensures (x * y - x' * y') % 0x1_0000_0000 == 0
  {
    var m := 0x1_0000_0000;
    var a, b := (x - x') / m, (y - y') / m;
    calc {
      x * y - x' * y';
      (x - x') * y + x' * (y - y');
      m * a * y + x' * (m * b);
      m * (a * y + x' * b);
    }
    Multiple(a * y + x' * b);
  }

  lemma Multiple(k: int)
    ensures (0x1_0000_0000 * k) % 0x1_0000_0000 == 0
  {
  }

  lemma Transitive(x: int, y: int, z: int)
    requires (x - y) % 0x1_0000_0000 == 0 && (y - z) % 0x1_0000_0000 == 0
    ensures (x - z) % 0x1_0000_0000 == 0
  {
  }

  lemma Grows(x: nat, y: nat)
    requires x >= 1 && y >= 1
    ensures x * y >= x && x * y >= y
  {
  }

  /** Decoding a subleaf gives back the fields its registers were made of; all but type and level are
      sizes less one. The high bits of eax and all of edx hold other information. */
  lemma LeafRoundTrip(kind: bv32, level: bv32, line: bv32, partitions: bv32, ways: bv32, sets: bv32,
                      other: bv32, edx: bv32)
    requires 1 <= kind <= 3 && level < 8 && line < 4096 && partitions < 1024 && ways < 1024
    ensures var leaf := Leaf(kind | (level << 5) | (other << 8), line | (partitions << 12) | (ways << 22), sets, edx);
            var decoded := Level(leaf);
            && decoded.cacheType == (if kind == 1 then Data else if kind == 2 then Instruction else Unified)
            && decoded.level == level as int && decoded.lineSize == line as int + 1
            && decoded.partitioning == partitions as int + 1 && decoded.ways == ways as int + 1
            && decoded.tlbEntries == Wrap32(sets as int + 1)
  {
  }

  predicate IsCache(cpuid: CpuId, max: bv32, leafId: bv32, k: nat) {
    CacheTypeOf(SafeCpuIdEx(cpuid, max, leafId, k)) != Null
  }

  /** A leaf above the maximum describes nothing; otherwise the five type bits decide. */
  lemma IsCacheIff(cpuid: CpuId, max: bv32, leafId: bv32, k: nat)
    ensures IsCache(cpuid, max, leafId, k) <==> leafId <= max && 1 <= cpuid(leafId, k).eax & 0x1F <= 3
  {
    hide CacheTypeOf;
    CacheTypeIs(SafeCpuIdEx(cpuid, max, leafId, k));
  }

  /** How many subleaves from i on describe a cache, up to the first that does not. */
  function ValidPrefix(cpuid: CpuId, max: bv32, leafId: bv32, i: nat): nat
    requires i <= MAX_LEVELS
    decreases MAX_LEVELS - i
  {
    if i == MAX_LEVELS || !IsCache(cpuid, max, leafId, i) then 0 else 1 + ValidPrefix(cpuid, max, leafId, i + 1)
  }

  lemma {:induction false} PrefixFrom(cpuid: CpuId, max: bv32, leafId: bv32, i: nat, n: nat)
    requires i <= n <= MAX_LEVELS && forall k: nat :: i <= k < n ==> IsCache(cpuid, max, leafId, k)
    requires n < MAX_LEVELS ==> !IsCache(cpuid, max, leafId, n)
    ensures ValidPrefix(cpuid, max, leafId, i) == n - i
    decreases n - i
  {
    hide IsCache;
    if i < n {
      PrefixFrom(cpuid, max, leafId, i + 1, n);
    }
  }

  /** What is reported for a leaf within the maximum: the levels of all subleaves of type 1 to 3
      before the first of another type, at most 16. */
  lemma MaximalPrefix(cpuid: CpuId, max: bv32, leafId: bv32, n: nat)
    requires leafId <= max && n <= 16
    requires forall k: nat :: k < n ==> 1 <= cpuid(leafId, k).eax & 0x1F <= 3
    requires n < 16 ==> !(1 <= cpuid(leafId, n).eax & 0x1F <= 3)
    ensures |Deterministic(cpuid, max, leafId)| == n
    ensures forall k: nat :: k < n ==> Deterministic(cpuid, max, leafId)[k] == Level(cpuid(leafId, k))
  {
    hide IsCache, Level, ValidPrefix;
    forall k: nat
      ensures IsCache(cpuid, max, leafId, k) <==> 1 <= cpuid(leafId, k).eax & 0x1F <= 3
    {
      IsCacheIff(cpuid, max, leafId, k);
    }
    PrefixFrom(cpuid, max, leafId, 0, n);
  }

  lemma NothingAboveMaximum(cpuid: CpuId, max: bv32, leafId: bv32)
    requires leafId > max
    ensures Deterministic(cpuid, max, leafId) == []
  {
    hide IsCache;
    IsCacheIff(cpuid, max, leafId, 0);
  }

  function LevelAt(cpuid: CpuId, max: bv32, leafId: bv32, k: nat): CacheLevelInfo {
    Level(SafeCpuIdEx(cpuid, max, leafId, k))
  }

  function LevelsUpTo(cpuid: CpuId, max: bv32, leafId: bv32, n: nat): (r: seq<CacheLevelInfo>)
    ensures |r| == n && forall k :: 0 <= k < n ==> r[k] == LevelAt(cpuid, max, leafId, k)
  {
    seq(n, k requires 0 <= k => LevelAt(cpuid, max, leafId, k))
  }

  lemma OneMoreLevel(cpuid: CpuId, max: bv32, leafId: bv32, n: nat)
    ensures LevelsUpTo(cpuid, max, leafId, n) + [LevelAt(cpuid, max, leafId, n)] ==
            LevelsUpTo(cpuid, max, leafId, n + 1)
  {
    hide LevelAt;
  }

  function Deterministic(cpuid: CpuId, max: bv32, leafId: bv32): seq<CacheLevelInfo> {
    LevelsUpTo(cpuid, max, leafId, ValidPrefix(cpuid, max, leafId, 0))
  }

  method ReadDeterministic(cpuid: CpuId, max: bv32, leafId: bv32) returns (info: CacheInfo)
    ensures fresh(info) && fresh(info.levels) && info.Valid()
    ensures info.Reported() == Deterministic(cpuid, max, leafId)
  {
    hide IsCache, LevelAt, LevelsUpTo, Deterministic;
    info := new CacheInfo();
    var index := 0;
    while info.size < MAX_LEVELS
      invariant info.Valid() && fresh(info) && fresh(info.levels) && index == info.size
      invariant info.Reported() == LevelsUpTo(cpuid, max, leafId, index)
      invariant forall k: nat :: k < index ==> IsCache(cpuid, max, leafId, k)
      decreases MAX_LEVELS - index
    {
      var found, level := ReadSubleaf(cpuid, max, leafId, index);
      if !found {
        break;
      }
      OneMoreLevel(cpuid, max, leafId, index);
      info.Add(level);
      index := index + 1;
    }
    EndsAt(cpuid, max, leafId, index);
  }

  lemma EndsAt(cpuid: CpuId, max: bv32, leafId: bv32, n: nat)
    requires n <= MAX_LEVELS && forall k: nat :: k < n ==> IsCache(cpuid, max, leafId, k)
    requires n < MAX_LEVELS ==> !IsCache(cpuid, max, leafId, n)
    ensures Deterministic(cpuid, max, leafId) == LevelsUpTo(cpuid, max, leafId, n)
  {
    hide IsCache, LevelsUpTo;
    PrefixFrom(cpuid, max, leafId, 0, n);
  }

  method ReadSubleaf(cpuid: CpuId, max: bv32, leafId: bv32, index: nat) returns (found: bool, level: CacheLevelInfo)
    ensures found == IsCache(cpuid, max, leafId, index)
    ensures found ==> level == LevelAt(cpuid, max, leafId, index)
  {
    hide Level, CacheTypeOf, SafeCpuIdEx;
    var leaf := SafeCpuIdEx(cpuid, max, leafId, index);
    found := CacheTypeOf(leaf) != Null;
    level := if found then Level(leaf) else EMPTY_LEVEL;
  }

  /** The deterministic levels replace what was known only when there are any. */
  method ParseCacheInfo(cpuid: CpuId, max: bv32, leafId: bv32, oldInfo: CacheInfo)
    requires oldInfo.Valid()
    modifies oldInfo, oldInfo.levels
    ensures oldInfo.Valid()
    ensures oldInfo.Reported() == if Deterministic(cpuid, max, leafId) == [] then old(oldInfo.Reported())
                                  else Deterministic(cpuid, max, leafId)
  {
    var info := ReadDeterministic(cpuid, max, leafId);
    if info.size > 0 {
      oldInfo.CopyFrom(info);
    }
  }

  // ----- Legacy AMD

  datatype LegacyCache = LegacyCache(level: int, cacheType: CacheType, id: bv32)

  function LegacyCaches(cpuid: CpuId, maxExt: bv32): (r: seq<LegacyCache>)
    ensures |r| == 4
  {
    var leaf1, leaf2 := SafeCpuIdEx(cpuid, maxExt, 0x8000_0005, 0), SafeCpuIdEx(cpuid, maxExt, 0x8000_0006, 0);
    [LegacyCache(1, Data, leaf1.ecx), LegacyCache(1, Instruction, leaf1.edx),
     LegacyCache(2, Unified, leaf2.ecx), LegacyCache(3, Unified, leaf2.edx)]
  }

  /** What the four-bit associativity field of the L2 and L3 caches stands for. */
  function Associativity(field: bv32): int {
    match field
    case 0 => 0
    case 1 => 1
    case 2 => 2
    case 4 => 4
    case 6 => 8
    case 8 => 16
    case 10 => 32
    case 11 => 48
    case 12 => 64
    case 13 => 96
    case 14 => 128
    case 15 => 255
    case _ => -1
  }

  function PowerOfTwo(n: nat): nat {
    if n == 0 then 1 else 2 * PowerOfTwo(n - 1)
  }

  /** Even fields up to 14 are powers of two, 11 and 13 lie half way between their neighbours, 0 and 1
      stand for themselves, 15 for full associativity, and the rest is reserved. */
  lemma AssociativityIs(field: bv32, n: nat)
    requires n < 16 && field == n as bv32
    ensures n % 2 == 0 && n > 0 ==> Associativity(field) == PowerOfTwo(n / 2)
    ensures n == 11 || n == 13 ==> 2 * Associativity(field) == PowerOfTwo((n - 1) / 2) + PowerOfTwo((n + 1) / 2)
    ensures n < 2 ==> Associativity(field) == n
    ensures n in {3, 5, 7, 9} ==> Associativity(field) == -1
    ensures n == 15 ==> Associativity(field) == 255
  {
    Powers();
  }

  lemma Powers()
    ensures PowerOfTwo(1) == 2 && PowerOfTwo(2) == 4 && PowerOfTwo(3) == 8 && PowerOfTwo(4) == 16
    ensures PowerOfTwo(5) == 32 && PowerOfTwo(6) == 64 && PowerOfTwo(7) == 128
  {
  }

  function LegacyWays(level: int, id: bv32): int {
    if level == 1 then ExtractBitRange(id, 23, 16) as int else Associativity(ExtractBitRange(id, 15, 12))
  }

  /** In KiB. */
  function LegacySize(level: int, id: bv32): nat {
    match level
    case 1 => ExtractBitRange(id, 31, 24) as nat
    case 2 => ExtractBitRange(id, 31, 16) as nat
    case 3 => ExtractBitRange(id, 31, 18) as nat * 512
    case _ => 0
  }

  function LegacyLevel(c: LegacyCache): CacheLevelInfo {
    CacheLevelInfo(c.level, c.cacheType, Wrap32(LegacySize(c.level, c.id) * 1024), LegacyWays(c.level, c.id),
                   ExtractBitRange(c.id, 7, 0) as int, -1, -1)
  }

  predicate Absent(c: LegacyCache) {
    LegacySize(c.level, c.id) == 0
  }

  /** Which bits of its register being clear make a cache absent. */
  lemma AbsentIff(c: LegacyCache)
    ensures c.level == 1 ==> (Absent(c) <==> c.id < 0x0100_0000)
    ensures c.level == 2 ==> (Absent(c) <==> c.id < 0x0001_0000)
    ensures c.level == 3 ==> (Absent(c) <==> c.id < 0x0004_0000)
  {
    hide ExtractBitRange;
    TopBits(c.id);
    ZeroField(ExtractBitRange(c.id, 31, 24));
    ZeroField(ExtractBitRange(c.id, 31, 16));
    ZeroField(ExtractBitRange(c.id, 31, 18));
  }

  lemma TopBits(id: bv32)
    ensures ExtractBitRange(id, 31, 24) == 0 <==> id < 0x0100_0000
    ensures ExtractBitRange(id, 31, 16) == 0 <==> id < 0x0001_0000
    ensures ExtractBitRange(id, 31, 18) == 0 <==> id < 0x0004_0000
  {
  }

  lemma ZeroField(x: bv32)
    ensures x as nat == 0 <==> x == 0
  {
  }

  /** The caches up to the first whose size is zero. */
  function LegacyPrefix(caches: seq<LegacyCache>): (r: seq<CacheLevelInfo>)
    ensures |r| <= |caches|
    ensures forall k :: 0 <= k < |r| ==> r[k] == LegacyLevel(caches[k]) && !Absent(caches[k])
    ensures |r| < |caches| ==> Absent(caches[|r|])
  {
    hide Absent, LegacyLevel;
    if caches == [] || Absent(caches[0]) then []
    else [LegacyLevel(caches[0])] + LegacyPrefix(caches[1..])
  }

  /** The reported legacy size is the field's exactly when it fits; an L3 of 2 GiB or more wraps. */
  lemma LegacySizeIff(c: LegacyCache)
    ensures LegacyLevel(c).cacheSize == LegacySize(c.level, c.id) * 1024 <==> LegacySize(c.level, c.id) < 0x20_0000
  {
  }

  lemma Regroup(a: seq<CacheLevelInfo>, b: CacheLevelInfo, c: seq<CacheLevelInfo>)
    ensures a + ([b] + c) == a + [b] + c
  {
  }

  lemma LegacyStep(caches: seq<LegacyCache>)
    ensures LegacyPrefix(caches) ==
            if caches == [] || Absent(caches[0]) then []
            else [LegacyLevel(caches[0])] + LegacyPrefix(caches[1..])
  {
  }

  /** The fields of an L1 cache decode to what they were made of. */
  lemma LegacyL1RoundTrip(kind: CacheType, size: bv32, ways: bv32, other: bv32, line: bv32)
    requires size < 0x100 && ways < 0x100 && other < 0x100 && line < 0x100
    ensures var id := (size << 24) | (ways << 16) | (other << 8) | line;
            LegacyLevel(LegacyCache(1, kind, id)) ==
            CacheLevelInfo(1, kind, size as int * 1024, ways as int, line as int, -1, -1)
  {
    hide ExtractBitRange;
    LegacyL1(size, ways, other, line);
    SmallField(size);
  }

  /** So do the fields of an L2 and an L3 cache; the L3 size counts units of 512 KiB and wraps from
      2 GiB on. */
  lemma LegacyRoundTrip(size: bv32, ways: bv32, other: bv32, line: bv32)
    requires ways < 16 && other < 16 && line < 0x100
    ensures size < 0x1_0000 ==> var id := (size << 16) | (ways << 12) | (other << 8) | line;
              LegacyLevel(LegacyCache(2, Unified, id)) ==
              CacheLevelInfo(2, Unified, size as int * 1024, Associativity(ways), line as int, -1, -1)
    ensures size < 0x4000 ==> var id := (size << 18) | (ways << 12) | (other << 8) | line;
              LegacyLevel(LegacyCache(3, Unified, id)) ==
              CacheLevelInfo(3, Unified, Wrap32(size as int * 512 * 1024), Associativity(ways), line as int, -1, -1)
  {
    hide ExtractBitRange, Associativity, Wrap32;
    LegacyL2(size, ways, other, line);
    LegacyL3(size, ways, other, line);
    Unwrapped(size);
  }

  lemma Unwrapped(size: bv32)
    ensures size < 0x1_0000 ==> Wrap32(size as int * 1024) == size as int * 1024
  {
  }

  lemma LegacyL1(size: bv32, ways: bv32, other: bv32, line: bv32)
    requires size < 0x100 && ways < 0x100 && other < 0x100 && line < 0x100
    ensures var id := (size << 24) | (ways << 16) | (other << 8) | line;
            && ExtractBitRange(id, 31, 24) == size && ExtractBitRange(id, 23, 16) == ways
            && ExtractBitRange(id, 7, 0) == line
  {
    hide ExtractBitRange;
    L1Size(size, ways, other, line);
    L1Ways(size, ways, other, line);
    L1Line(size, ways, other, line);
  }

  lemma L1Size(size: bv32, ways: bv32, other: bv32, line: bv32)
    requires size < 0x100 && ways < 0x100 && other < 0x100 && line < 0x100
    ensures ExtractBitRange((size << 24) | (ways << 16) | (other << 8) | line, 31, 24) == size
  {
  }

  lemma L1Ways(size: bv32, ways: bv32, other: bv32, line: bv32)
    requires size < 0x100 && ways < 0x100 && other < 0x100 && line < 0x100
    ensures ExtractBitRange((size << 24) | (ways << 16) | (other << 8) | line, 23, 16) == ways
  {
  }

  lemma L1Line(size: bv32, ways: bv32, other: bv32, line: bv32)
    requires size < 0x100 && ways < 0x100 && other < 0x100 && line < 0x100
    ensures ExtractBitRange((size << 24) | (ways << 16) | (other << 8) | line, 7, 0) == line
  {
  }

  lemma LegacyL2(size: bv32, ways: bv32, other: bv32, line: bv32)
    requires ways < 16 && other < 16 && line < 0x100
    ensures var id := (size << 16) | (ways << 12) | (other << 8) | line;
            && (size < 0x1_0000 ==> ExtractBitRange(id, 31, 16) == size && ExtractBitRange(id, 15, 12) == ways)
            && ExtractBitRange(id, 7, 0) == line
  {
  }

  lemma LegacyL3(size: bv32, ways: bv32, other: bv32, line: bv32)
    requires ways < 16 && other < 16 && line < 0x100
    ensures var id := (size << 18) | (ways << 12) | (other << 8) | line;
            && (size < 0x4000 ==> ExtractBitRange(id, 31, 18) == size && ExtractBitRange(id, 15, 12) == ways)
            && ExtractBitRange(id, 7, 0) == line
  {
  }

  method ParseCacheInfoLegacyAmd(cpuid: CpuId, maxExt: bv32, info: CacheInfo)
    requires info.Valid() && info.size == 0
    modifies info, info.levels
    ensures info.Valid() && info.Reported() == LegacyPrefix(LegacyCaches(cpuid, maxExt))
  {
    hide LegacySize, LegacyLevel, LegacyCaches, LegacyPrefix;
    var caches := LegacyCaches(cpuid, maxExt);
    assert caches[0..] == caches;
    LegacyStep([]);
    for i := 0 to |caches|
      invariant info.Valid() && info.size == i
      invariant info.Reported() + LegacyPrefix(caches[i..]) == LegacyPrefix(caches)
    {
      ghost var before, rest := info.Reported(), caches[i..];
      LegacyStep(rest);
      assert rest[0] == caches[i] && rest[1..] == caches[i + 1..];
      if LegacySize(caches[i].level, caches[i].id) == 0 {
        return;
      }
      info.Add(LegacyLevel(caches[i]));
      Regroup(before, LegacyLevel(caches[i]), LegacyPrefix(caches[i + 1..]));
    }
  }

  // ----- The whole query

  /** A vendor name as the registers hold it, with a terminator. */
  function Ascii(s: string): (r: seq<bv8>)
    ensures |r| == |s| + 1
  {
    seq(|s| + 1, k requires 0 <= k <= |s| => if k < |s| then Byte(s[k]) else 0)
  }

  function Byte(c: char): bv8 {
    if c < 128 as char then c as bv8 else 0
  }

  predicate UsesIntelLeaves(leaf0: Leaf) {
    IsVendor(leaf0, Ascii("GenuineIntel")) || IsVendor(leaf0, Ascii("CentaurHauls")) ||
    IsVendor(leaf0, Ascii("  Shanghai  "))
  }

  predicate UsesAmdLeaves(leaf0: Leaf) {
    IsVendor(leaf0, Ascii("AuthenticAMD")) || IsVendor(leaf0, Ascii("HygonGenuine"))
  }

  lemma ByteIs(c: char, b: bv8)
    requires b < 128 && c == b as char
    ensures Byte(c) == b
  {
  }

  lemma AsciiIs(name: string, b: seq<bv8>)
    requires |name| == |b| && forall k :: 0 <= k < |b| ==> (var x: bv8 := b[k]; x < 128 && name[k] == x as char)
    ensures Ascii(name) == b + [0]
  {
    hide Byte;
    forall k | 0 <= k < |b|
      ensures Byte(name[k]) == b[k]
    {
      ByteIs(name[k], b[k]);
    }
  }

  lemma VendorWords(leaf: Leaf, a: seq<bv8>, b: seq<bv8>, c: seq<bv8>)
    requires |a| == 4 && |b| == 4 && |c| == 4
    ensures IsVendor(leaf, a + b + c + [0]) <==> leaf.ebx == Word(a) && leaf.edx == Word(b) && leaf.ecx == Word(c)
  {
    hide Word;
    Slices(a, b, c);
  }

  lemma GenuineIntelIs(leaf: Leaf)
    ensures IsVendor(leaf, Ascii("GenuineIntel")) <==>
            leaf.ebx == 0x756E_6547 && leaf.edx == 0x4965_6E69 && leaf.ecx == 0x6C65_746E
  {
    hide IsVendor, Ascii;
    var a: seq<bv8>, b: seq<bv8> := [0x47, 0x65, 0x6E, 0x75], [0x69, 0x6E, 0x65, 0x49];
    var c: seq<bv8> := [0x6E, 0x74, 0x65, 0x6C];
    AsciiIs("GenuineIntel", a + b + c);
    VendorWords(leaf, a, b, c);
  }

  lemma CentaurHaulsIs(leaf: Leaf)
    ensures IsVendor(leaf, Ascii("CentaurHauls")) <==>
            leaf.ebx == 0x746E_6543 && leaf.edx == 0x4872_7561 && leaf.ecx == 0x736C_7561
  {
    hide IsVendor, Ascii;
    var a: seq<bv8>, b: seq<bv8> := [0x43, 0x65, 0x6E, 0x74], [0x61, 0x75, 0x72, 0x48];
    var c: seq<bv8> := [0x61, 0x75, 0x6C, 0x73];
    AsciiIs("CentaurHauls", a + b + c);
    VendorWords(leaf, a, b, c);
  }

  lemma ShanghaiIs(leaf: Leaf)
    ensures IsVendor(leaf, Ascii("  Shanghai  ")) <==>
            leaf.ebx == 0x6853_2020 && leaf.edx == 0x6867_6E61 && leaf.ecx == 0x2020_6961
  {
    hide IsVendor, Ascii;
    var a: seq<bv8>, b: seq<bv8> := [0x20, 0x20, 0x53, 0x68], [0x61, 0x6E, 0x67, 0x68];
    var c: seq<bv8> := [0x61, 0x69, 0x20, 0x20];
    AsciiIs("  Shanghai  ", a + b + c);
    VendorWords(leaf, a, b, c);
  }

  lemma AuthenticAmdIs(leaf: Leaf)
    ensures IsVendor(leaf, Ascii("AuthenticAMD")) <==>
            leaf.ebx == 0x6874_7541 && leaf.edx == 0x6974_6E65 && leaf.ecx == 0x444D_4163
  {
    hide IsVendor, Ascii;
    var a: seq<bv8>, b: seq<bv8> := [0x41, 0x75, 0x74, 0x68], [0x65, 0x6E, 0x74, 0x69];
    var c: seq<bv8> := [0x63, 0x41, 0x4D, 0x44];
    AsciiIs("AuthenticAMD", a + b + c);
    VendorWords(leaf, a, b, c);
  }

  lemma HygonGenuineIs(leaf: Leaf)
    ensures IsVendor(leaf, Ascii("HygonGenuine")) <==>
            leaf.ebx == 0x6F67_7948 && leaf.edx == 0x6E65_476E && leaf.ecx == 0x656E_6975
  {
    hide IsVendor, Ascii;
    var a: seq<bv8>, b: seq<bv8> := [0x48, 0x79, 0x67, 0x6F], [0x6E, 0x47, 0x65, 0x6E];
    var c: seq<bv8> := [0x75, 0x69, 0x6E, 0x65];
    AsciiIs("HygonGenuine", a + b + c);
    VendorWords(leaf, a, b, c);
  }

  /** The vendors whose leaves 2 and 4 are read: GenuineIntel, CentaurHauls and Shanghai. */
  lemma IntelVendors(leaf: Leaf)
    ensures UsesIntelLeaves(leaf) <==>
            (leaf.ebx, leaf.edx, leaf.ecx) in [
              (0x756E_6547, 0x4965_6E69, 0x6C65_746E), (0x746E_6543, 0x4872_7561, 0x736C_7561),
              (0x6853_2020, 0x6867_6E61, 0x2020_6961)]
  {
    hide IsVendor, Ascii;
    GenuineIntelIs(leaf);
    CentaurHaulsIs(leaf);
    ShanghaiIs(leaf);
  }

  /** The vendors whose extended leaves are read: AuthenticAMD and HygonGenuine. */
  lemma AmdVendors(leaf: Leaf)
    ensures UsesAmdLeaves(leaf) <==>
            (leaf.ebx, leaf.edx, leaf.ecx) in [
              (0x6874_7541, 0x6974_6E65, 0x444D_4163), (0x6F67_7948, 0x6E65_476E, 0x656E_6975)]
  {
    hide IsVendor, Ascii;
    AuthenticAmdIs(leaf);
    HygonGenuineIs(leaf);
  }

  /** What is reported for a CPUID function. */
  function CacheLevels(cpuid: CpuId, table: DescriptorTable): seq<CacheLevelInfo> {
    var leaf0 := cpuid(0, 0);
    var max, maxExt := leaf0.eax, cpuid(0x8000_0000, 0).eax;
    if UsesIntelLeaves(leaf0) then
      var fromLeaf4 := Deterministic(cpuid, max, 4);
      if fromLeaf4 != [] then fromLeaf4
      else Map(table, Descriptors(SafeCpuIdEx(cpuid, max, 2, 0)))
    else if UsesAmdLeaves(leaf0) then
      if IsBitSet(SafeCpuIdEx(cpuid, maxExt, 0x8000_0001, 0).ecx, 22) then Deterministic(cpuid, maxExt, 0x8000_001D)
      else LegacyPrefix(LegacyCaches(cpuid, maxExt))
    else []
  }

  method GetX86CacheInfo(cpuid: CpuId, table: DescriptorTable) returns (info: CacheInfo)
    ensures fresh(info) && info.Valid() && info.Reported() == CacheLevels(cpuid, table)
    ensures |CacheLevels(cpuid, table)| <= 16
  {
    hide UsesIntelLeaves, UsesAmdLeaves, Deterministic, LegacyPrefix, LegacyCaches, Descriptors, Map;
    hide SafeCpuIdEx, IsBitSet;
    info := new CacheInfo();
    var leaf0 := cpuid(0, 0);
    var max, maxExt := leaf0.eax, cpuid(0x8000_0000, 0).eax;
    var leaf2, leafExt := SafeCpuIdEx(cpuid, max, 2, 0), SafeCpuIdEx(cpuid, maxExt, 0x8000_0001, 0);
    if UsesIntelLeaves(leaf0) {
      ParseLeaf2(leaf2, table, info);
      ParseCacheInfo(cpuid, max, 4, info);
    } else if UsesAmdLeaves(leaf0) {
      if IsBitSet(leafExt.ecx, 22) {
        ParseCacheInfo(cpuid, maxExt, 0x8000_001D, info);
      } else {
        ParseCacheInfoLegacyAmd(cpuid, maxExt, info);
      }
    }
  }

  /** For the first group of vendors: the caches that leaf 4 describes, whatever leaf 2 says. */
  lemma IntelCaches(cpuid: CpuId, table: DescriptorTable, n: nat)
    requires UsesIntelLeaves(cpuid(0, 0)) && cpuid(0, 0).eax >= 4 && 1 <= n <= 16
    requires forall k: nat :: k < n ==> 1 <= cpuid(4, k).eax & 0x1F <= 3
    requires n < 16 ==> !(1 <= cpuid(4, n).eax & 0x1F <= 3)
    ensures |CacheLevels(cpuid, table)| == n
    ensures forall k: nat :: k < n ==> CacheLevels(cpuid, table)[k] == Level(cpuid(4, k))
  {
    hide UsesIntelLeaves, Deterministic, Level;
    MaximalPrefix(cpuid, cpuid(0, 0).eax, 4, n);
  }

  /** Without caches in leaf 4, or without leaf 4, the table says what the descriptors of leaf 2 mean. */
  lemma IntelDescriptors(cpuid: CpuId, table: DescriptorTable)
    requires UsesIntelLeaves(cpuid(0, 0)) && cpuid(0, 0).eax >= 2
    requires cpuid(0, 0).eax < 4 || !(1 <= cpuid(4, 0).eax & 0x1F <= 3)
    ensures CacheLevels(cpuid, table) == Map(table, Descriptors(cpuid(2, 0)))
  {
    hide UsesIntelLeaves, Deterministic, Descriptors, Map;
    if cpuid(0, 0).eax < 4 {
      NothingAboveMaximum(cpuid, cpuid(0, 0).eax, 4);
    } else {
      MaximalPrefix(cpuid, cpuid(0, 0).eax, 4, 0);
    }
  }

  /** For the second group with topology extensions, bit 22 of ecx of 0x8000_0001: the caches that
      leaf 0x8000_001D describes. */
  lemma AmdCaches(cpuid: CpuId, table: DescriptorTable, n: nat)
    requires !UsesIntelLeaves(cpuid(0, 0)) && UsesAmdLeaves(cpuid(0, 0)) && n <= 16
    requires cpuid(0x8000_0000, 0).eax >= 0x8000_001D && cpuid(0x8000_0001, 0).ecx & 0x0040_0000 != 0
    requires forall k: nat :: k < n ==> 1 <= cpuid(0x8000_001D, k).eax & 0x1F <= 3
    requires n < 16 ==> !(1 <= cpuid(0x8000_001D, n).eax & 0x1F <= 3)
    ensures |CacheLevels(cpuid, table)| == n
    ensures forall k: nat :: k < n ==> CacheLevels(cpuid, table)[k] == Level(cpuid(0x8000_001D, k))
  {
    hide UsesIntelLeaves, UsesAmdLeaves, Deterministic, Level, IsBitSet;
    Topology(cpuid(0x8000_0001, 0).ecx);
    MaximalPrefix(cpuid, cpuid(0x8000_0000, 0).eax, 0x8000_001D, n);
  }

  /** Without them: L1 data and instruction, L2 and L3 from leaves 0x8000_0005 and 0x8000_0006. */
  lemma AmdLegacyCaches(cpuid: CpuId, table: DescriptorTable)
    requires !UsesIntelLeaves(cpuid(0, 0)) && UsesAmdLeaves(cpuid(0, 0))
    requires cpuid(0x8000_0000, 0).eax >= 0x8000_0006 && cpuid(0x8000_0001, 0).ecx & 0x0040_0000 == 0
    ensures CacheLevels(cpuid, table) ==
            LegacyPrefix([LegacyCache(1, Data, cpuid(0x8000_0005, 0).ecx),
                          LegacyCache(1, Instruction, cpuid(0x8000_0005, 0).edx),
                          LegacyCache(2, Unified, cpuid(0x8000_0006, 0).ecx),
                          LegacyCache(3, Unified, cpuid(0x8000_0006, 0).edx)])
  {
    hide UsesIntelLeaves, UsesAmdLeaves, Deterministic, LegacyPrefix, IsBitSet;
    Topology(cpuid(0x8000_0001, 0).ecx);
  }

  lemma Topology(ecx: bv32)
    ensures IsBitSet(ecx, 22) <==> ecx & 0x0040_0000 != 0
  {
  }

  /** No other vendor has caches reported. */
  lemma OtherVendors(cpuid: CpuId, table: DescriptorTable)
    requires !UsesIntelLeaves(cpuid(0, 0)) && !UsesAmdLeaves(cpuid(0, 0))
    ensures CacheLevels(cpuid, table) == []
  {
  }

  // ----- Ranges

  ghost predicate TableFits(table: DescriptorTable) {
    forall b: bv8 :: FitsInt32(table(b))
  }

  lemma SmallField(x: bv32)
    requires x < 0x1000
    ensures x as int < 0x1000
  {
  }

  lemma FieldBounds(reg: bv32)
    ensures ExtractBitRange(reg, 7, 5) < 0x1000 && ExtractBitRange(reg, 11, 0) < 0x1000
    ensures ExtractBitRange(reg, 21, 12) < 0x1000 && ExtractBitRange(reg, 31, 22) < 0x1000
    ensures ExtractBitRange(reg, 23, 16) < 0x1000 && ExtractBitRange(reg, 7, 0) < 0x1000
  {
  }

  lemma LevelFits(leaf: Leaf)
    ensures FitsInt32(Level(leaf))
  {
  }

  lemma LegacyLevelFits(c: LegacyCache)
    requires IsInt32(c.level)
    ensures FitsInt32(LegacyLevel(c))
  {
    FieldBounds(c.id);
    hide ExtractBitRange;
    SmallField(ExtractBitRange(c.id, 23, 16));
    SmallField(ExtractBitRange(c.id, 7, 0));
  }

  predicate AllFit(levels: seq<CacheLevelInfo>) {
    forall k :: 0 <= k < |levels| ==> FitsInt32(levels[k])
  }

  lemma DeterministicFits(cpuid: CpuId, max: bv32, leafId: bv32)
    ensures AllFit(Deterministic(cpuid, max, leafId))
  {
    hide Level, FitsInt32;
    forall leaf
      ensures FitsInt32(Level(leaf))
    {
      LevelFits(leaf);
    }
  }

  lemma MapFits(table: DescriptorTable, descriptors: seq<bv8>)
    requires TableFits(table)
    ensures AllFit(Map(table, descriptors))
  {
    forall k | 0 <= k < |descriptors|
      ensures FitsInt32(Map(table, descriptors)[k])
    {
      var descriptor: bv8 := descriptors[k];
      assert FitsInt32(table(descriptor));
    }
  }

  lemma LegacyFits(cpuid: CpuId, maxExt: bv32)
    ensures AllFit(LegacyPrefix(LegacyCaches(cpuid, maxExt)))
  {
    hide LegacyLevel, FitsInt32, LegacySize, SafeCpuIdEx;
    var caches := LegacyCaches(cpuid, maxExt);
    forall k | 0 <= k < |LegacyPrefix(caches)|
      ensures FitsInt32(LegacyPrefix(caches)[k])
    {
      assert 1 <= caches[k].level <= 3;
      LegacyLevelFits(caches[k]);
    }
  }

  /** Every number reported is a C int. */
  lemma CacheLevelsFit(cpuid: CpuId, table: DescriptorTable)
    requires TableFits(table)
    ensures AllFit(CacheLevels(cpuid, table))
  {
    hide FitsInt32, UsesIntelLeaves, UsesAmdLeaves, Descriptors, SafeCpuIdEx, IsBitSet, Deterministic, LegacyPrefix;
    var leaf0 := cpuid(0, 0);
    var max, maxExt := leaf0.eax, cpuid(0x8000_0000, 0).eax;
    DeterministicFits(cpuid, max, 4);
    DeterministicFits(cpuid, maxExt, 0x8000_001D);
    LegacyFits(cpuid, maxExt);
    MapFits(table, Descriptors(SafeCpuIdEx(cpuid, max, 2, 0)));
  }
}
