/** The cache section of the dump: AddCacheInfo of src/utils/list_cpu_features.c builds an array of
    maps with the constructors, one map a level.
  */
module CacheDump {
  import opened Json
  import opened TreeDumper
  import opened TreeMemory
  import C = X86Cache

  function TypeName(t: C.CacheType): string {
    match t
    case Null => "null"
    case Data => "data"
    case Instruction => "instruction"
    case Unified => "unified"
    case Tlb => "tlb"
    case DTlb => "dtlb"
    case STlb => "stlb"
    case Prefetch => "prefetch"
  }

  /** The fields of a level in the order they are added. */
  function Fields(info: C.CacheLevelInfo): (r: seq<(string, Tree)>)
    ensures |r| == 7
  {
    [("level", Int(info.level)), ("cache_type", Str(TypeName(info.cacheType))), ("cache_size", Int(info.cacheSize)),
     ("ways", Int(info.ways)), ("line_size", Int(info.lineSize)), ("tlb_entries", Int(info.tlbEntries)),
     ("partitioning", Int(info.partitioning))]
  }

  function ChainOf(fields: seq<(string, Tree)>): Chain {
    if fields == [] then End else Link(fields[0].0, fields[0].1, ChainOf(fields[1..]))
  }

  function LevelTree(info: C.CacheLevelInfo): Tree {
    Map(ChainOf(Fields(info)))
  }

  function Elements(levels: seq<C.CacheLevelInfo>): (r: seq<(string, Tree)>)
    ensures |r| == |levels|
    ensures forall k :: 0 <= k < |r| ==> r[k] == ("", LevelTree(levels[k]))
  {
    seq(|levels|, k requires 0 <= k < |levels| => ("", LevelTree(levels[k])))
  }

  function LevelsTree(levels: seq<C.CacheLevelInfo>): Tree {
    Arr(ChainOf(Elements(levels)))
  }

  lemma {:induction false} ChainOfSnoc(fields: seq<(string, Tree)>, field: (string, Tree))
    ensures ChainOf(fields + [field]) == Snoc(ChainOf(fields), field.0, field.1)
  {
    if fields == [] {
      assert [field][1..] == [];
    } else {
      assert (fields + [field])[1..] == fields[1..] + [field];
      ChainOfSnoc(fields[1..], field);
    }
  }

  function Keys(c: Chain): seq<string> {
    if c.End? then [] else [c.key] + Keys(c.next)
  }

  /** The value of the first entry with this key. */
  function Entry(c: Chain, key: string): Tree
    requires key in Keys(c)
  {
    if c.key == key then c.value else Entry(c.next, key)
  }

  lemma {:induction false} KeysOf(fields: seq<(string, Tree)>)
    ensures |Keys(ChainOf(fields))| == |fields|
    ensures forall k :: 0 <= k < |fields| ==> Keys(ChainOf(fields))[k] == fields[k].0
  {
    if fields != [] {
      KeysOf(fields[1..]);
    }
  }

  lemma {:induction false} EntryOf(fields: seq<(string, Tree)>, k: nat)
    requires k < |fields| && forall j :: 0 <= j < k ==> fields[j].0 != fields[k].0
    ensures fields[k].0 in Keys(ChainOf(fields)) && Entry(ChainOf(fields), fields[k].0) == fields[k].1
  {
    if k > 0 {
      EntryOf(fields[1..], k - 1);
    }
  }

  /** What a reader of the document finds in the map of a level, and in which order. */
  lemma LevelEntries(info: C.CacheLevelInfo)
    ensures var c := LevelTree(info).entries;
            && Keys(c) == ["level", "cache_type", "cache_size", "ways", "line_size", "tlb_entries", "partitioning"]
            && Entry(c, "level") == Int(info.level) && Entry(c, "cache_size") == Int(info.cacheSize)
            && Entry(c, "ways") == Int(info.ways) && Entry(c, "line_size") == Int(info.lineSize)
            && Entry(c, "tlb_entries") == Int(info.tlbEntries) && Entry(c, "partitioning") == Int(info.partitioning)
            && Entry(c, "cache_type") == Str(match info.cacheType
                                             case Null => "null" case Data => "data"
                                             case Instruction => "instruction" case Unified => "unified"
                                             case Tlb => "tlb" case DTlb => "dtlb"
                                             case STlb => "stlb" case Prefetch => "prefetch")
  {
    hide ChainOf, Keys, Entry;
    var f := Fields(info);
    KeysOf(f);
    EntryOf(f, 0);
    EntryOf(f, 1);
    EntryOf(f, 2);
    EntryOf(f, 3);
    EntryOf(f, 4);
    EntryOf(f, 5);
    EntryOf(f, 6);
  }

  /** A tree below the mark survives what happens at or behind it. */
  lemma KeptTree(m: Memory, m': Memory, a: nat, t: Tree, mark: nat)
    requires Represents(m, a, t) && KeptBelow(m, m', mark)
    requires forall x :: x in Footprint(m, a, t) ==> x < mark
    ensures Represents(m', a, t) && Footprint(m', a, t) == Footprint(m, a, t)
  {
    FootprintAllocated(m, a, t);
    Frame(m, m', a, t);
  }

  lemma {:induction false} LastInChain(m: Memory, prev: nat, e: nat, isMap: bool, c: Chain)
    requires Chained(m, prev, e, isMap, c)
    ensures LastOf(m, prev, e, c) == prev || LastOf(m, prev, e, c) in ChainFootprint(m, e, c)
    decreases c
  {
    if c.Link? {
      LastInChain(m, e, m[e].node.next, isMap, c.next);
    }
  }

  lemma LastInFootprint(m: Memory, a: nat, isMap: bool, c: Chain)
    requires Represents(m, a, Container(isMap, c))
    ensures LastOf(m, a, Head(m, a), c) in Footprint(m, a, Container(isMap, c))
  {
    LastInChain(m, a, Head(m, a), isMap, c);
  }

  /** Appends a value that was built after everything in the container. */
  method AddNewer(d: Dumper, a: nat, key: string, value: nat, ghost isMap: bool, ghost c: Chain, ghost t: Tree,
                  ghost mark: nat, ghost newer: nat) returns (ok: bool)
    requires d.Valid() && d.Holds(a, Container(isMap, c), mark) && d.Holds(value, t, newer)
    requires forall x :: x in Footprint(d.memory, a, Container(isMap, c)) ==> x < newer
    requires mark <= newer <= d.ptr && (!isMap ==> key == "")
    modifies d`ptr, d`size, d`memory
    ensures d.Valid() && old(d.ptr) <= d.ptr && KeptBelow(old(d.memory), d.memory, mark)
    ensures d.Spent(old(d.size), ok, d.NodeCost())
    ensures ok ==> d.Holds(a, Container(isMap, Snoc(c, key, t)), mark)
  {
    hide Represents, Footprint, LastOf, Laid, Linked, KeptBelow;
    ghost var m, x := d.memory, d.ptr;
    LastInFootprint(m, a, isMap, c);
    FootprintAllocated(m, value, t);
    AllBelow(m, d.nodeSize, d.base, x);
    IsContainer(m, a, isMap, c);
    LinkedKeepsBelow(m, LastOf(m, a, Head(m, a), c), x, Node(LinkKind(isMap), 0, Literal(key), value, 0), mark);
    if d.memory[a].node.kind == MapNode {
      ok := d.AddMapEntry(a, key, value, c, t);
    } else {
      ok := d.AddArrayElement(a, value, c, t);
    }
  }

  lemma LinkedKeepsBelow(m: Memory, last: nat, x: nat, entry: Node, mark: nat)
    requires mark <= x
    ensures KeptBelow(m, m, mark)
    ensures IsNode(m, last) && mark <= last ==> KeptBelow(m, Linked(m, last, x, entry), mark)
  {
  }

  lemma IsContainer(m: Memory, a: nat, isMap: bool, c: Chain)
    requires Represents(m, a, Container(isMap, c))
    ensures IsNode(m, a) && (m[a].node.kind == MapNode <==> isMap)
  {
  }

  method AddIntField(d: Dumper, map_: nat, key: string, v: int, ghost fields: seq<(string, Tree)>, ghost mark: nat)
    returns (ok: bool)
    requires d.Valid() && C.IsInt32(v) && d.Holds(map_, Map(ChainOf(fields)), mark) && mark <= d.ptr
    modifies d`ptr, d`size, d`memory
    ensures d.Valid() && old(d.ptr) <= d.ptr && KeptBelow(old(d.memory), d.memory, mark)
    ensures d.Spent(old(d.size), ok, 2 * d.NodeCost())
    ensures ok ==> d.Holds(map_, Map(ChainOf(fields + [(key, Int(v))])), mark)
  {
    hide Represents, Footprint;
    ghost var m, newer := d.memory, d.ptr;
    AllBelow(m, d.nodeSize, d.base, newer);
    FootprintAllocated(m, map_, Map(ChainOf(fields)));
    var value;
    ok, value := d.CreateInt(v);
    if ok {
      KeptTree(m, d.memory, map_, Map(ChainOf(fields)), newer);
      ChainOfSnoc(fields, (key, Int(v)));
      ok := AddNewer(d, map_, key, value, true, ChainOf(fields), Int(v), mark, newer);
    }
  }

  method AddNameField(d: Dumper, map_: nat, key: string, name: string, ghost fields: seq<(string, Tree)>, ghost mark: nat)
    returns (ok: bool)
    requires d.Valid() && d.Holds(map_, Map(ChainOf(fields)), mark) && mark <= d.ptr
    modifies d`ptr, d`size, d`memory
    ensures d.Valid() && old(d.ptr) <= d.ptr && KeptBelow(old(d.memory), d.memory, mark)
    ensures d.Spent(old(d.size), ok, 2 * d.NodeCost())
    ensures ok ==> d.Holds(map_, Map(ChainOf(fields + [(key, Str(name))])), mark)
  {
    hide Represents, Footprint;
    ghost var m, newer := d.memory, d.ptr;
    AllBelow(m, d.nodeSize, d.base, newer);
    FootprintAllocated(m, map_, Map(ChainOf(fields)));
    var value;
    ok, value := d.CreateConstantString(Literal(name), name);
    if ok {
      KeptTree(m, d.memory, map_, Map(ChainOf(fields)), newer);
      ChainOfSnoc(fields, (key, Str(name)));
      ok := AddNewer(d, map_, key, value, true, ChainOf(fields), Str(name), mark, newer);
    }
  }

  method AddLevel(d: Dumper, info: C.CacheLevelInfo) returns (ok: bool, map_: nat)
    requires d.Valid() && C.FitsInt32(info)
    modifies d`ptr, d`size, d`memory
    ensures d.Valid() && old(d.ptr) <= d.ptr && KeptBelow(old(d.memory), d.memory, old(d.ptr))
    ensures d.Spent(old(d.size), ok, 15 * d.NodeCost())
    ensures ok ==> d.Holds(map_, LevelTree(info), old(d.ptr))
  {
    hide Represents, Footprint, Laid;
    ghost var mark := d.ptr;
    ok, map_ := d.CreateMap();
    NoFields(info);
    if ok {
      ok := AddSize(d, map_, info, mark);
    }
    if ok {
      ok := AddGeometry(d, map_, info, mark);
    }
  }

  method AddSize(d: Dumper, map_: nat, info: C.CacheLevelInfo, ghost mark: nat) returns (ok: bool)
    requires d.Valid() && C.FitsInt32(info) && d.Holds(map_, Map(ChainOf(Fields(info)[..0])), mark) && mark <= d.ptr
    modifies d`ptr, d`size, d`memory
    ensures d.Valid() && old(d.ptr) <= d.ptr && KeptBelow(old(d.memory), d.memory, mark)
    ensures d.Spent(old(d.size), ok, 6 * d.NodeCost())
    ensures ok ==> d.Holds(map_, Map(ChainOf(Fields(info)[..3])), mark)
  {
    ghost var f := Fields(info);
    hide Represents, Footprint, ChainOf, Fields, TypeName, Laid, Dumper.Valid, Dumper.Holds;
    Prefixes(info);
    ok := AddIntField(d, map_, "level", info.level, f[..0], mark);
    if ok { ok := AddNameField(d, map_, "cache_type", TypeName(info.cacheType), f[..1], mark); }
    if ok { ok := AddIntField(d, map_, "cache_size", info.cacheSize, f[..2], mark); }
  }

  method AddGeometry(d: Dumper, map_: nat, info: C.CacheLevelInfo, ghost mark: nat) returns (ok: bool)
    requires d.Valid() && C.FitsInt32(info) && d.Holds(map_, Map(ChainOf(Fields(info)[..3])), mark) && mark <= d.ptr
    modifies d`ptr, d`size, d`memory
    ensures d.Valid() && old(d.ptr) <= d.ptr && KeptBelow(old(d.memory), d.memory, mark)
    ensures d.Spent(old(d.size), ok, 8 * d.NodeCost())
    ensures ok ==> d.Holds(map_, LevelTree(info), mark)
  {
    ghost var f := Fields(info);
    hide Represents, Footprint, ChainOf, Fields, TypeName, Laid, Dumper.Valid, Dumper.Holds;
    Prefixes(info);
    ok := AddIntField(d, map_, "ways", info.ways, f[..3], mark);
    if ok { ok := AddIntField(d, map_, "line_size", info.lineSize, f[..4], mark); }
    if ok { ok := AddIntField(d, map_, "tlb_entries", info.tlbEntries, f[..5], mark); }
    if ok { ok := AddIntField(d, map_, "partitioning", info.partitioning, f[..6], mark); }
  }

  lemma Prefixes(info: C.CacheLevelInfo)
    ensures var f := Fields(info);
            && f[..0] == [] && f[..7] == f
            && f[..1] == f[..0] + [("level", Int(info.level))]
            && f[..2] == f[..1] + [("cache_type", Str(TypeName(info.cacheType)))]
            && f[..3] == f[..2] + [("cache_size", Int(info.cacheSize))]
            && f[..4] == f[..3] + [("ways", Int(info.ways))]
            && f[..5] == f[..4] + [("line_size", Int(info.lineSize))]
            && f[..6] == f[..5] + [("tlb_entries", Int(info.tlbEntries))]
            && f == f[..6] + [("partitioning", Int(info.partitioning))]
  {
  }

  lemma NoFields(info: C.CacheLevelInfo)
    ensures ChainOf(Fields(info)[..0]) == End
  {
  }

  /** Adds the array of all levels, in order, as the last entry of the root. */
  method AddCacheInfo(d: Dumper, root: nat, levels: seq<C.CacheLevelInfo>, ghost c: Chain, ghost mark: nat)
    returns (ok: bool)
    requires d.Valid() && d.Holds(root, Map(c), mark) && mark <= d.ptr
    requires C.AllFit(levels)
    modifies d`ptr, d`size, d`memory
    ensures d.Valid() && old(d.ptr) <= d.ptr && KeptBelow(old(d.memory), d.memory, mark)
    ensures d.Spent(old(d.size), ok, LevelsCost(|levels|, d.NodeCost()) + d.NodeCost())
    ensures ok ==> d.Holds(root, Map(Snoc(c, "cache_info", LevelsTree(levels))), mark)
  {
    hide Represents, Footprint;
    ghost var m, newer := d.memory, d.ptr;
    AllBelow(m, d.nodeSize, d.base, newer);
    FootprintAllocated(m, root, Map(c));
    var array_;
    ok, array_ := CreateLevels(d, levels);
    if ok {
      KeptTree(m, d.memory, root, Map(c), newer);
      ok := AddNewer(d, root, "cache_info", array_, true, c, LevelsTree(levels), mark, newer);
    }
  }

  /** An array of n levels takes one node, and sixteen a level. */
  function LevelsCost(n: nat, node: nat): nat {
    if n == 0 then node else LevelsCost(n - 1, node) + 16 * node
  }

  lemma {:induction false} CostGrows(i: nat, n: nat, node: nat)
    requires i <= n
    ensures LevelsCost(i, node) <= LevelsCost(n, node)
  {
    if i < n {
      CostGrows(i, n - 1, node);
    }
  }

  lemma {:induction false} CostIs(n: nat)
    ensures LevelsCost(n, 32) == 32 + 512 * n
  {
    if n > 0 {
      CostIs(n - 1);
    }
  }

  method CreateLevels(d: Dumper, levels: seq<C.CacheLevelInfo>) returns (ok: bool, array_: nat)
    requires d.Valid() && C.AllFit(levels)
    modifies d`ptr, d`size, d`memory
    ensures d.Valid() && old(d.ptr) <= d.ptr && KeptBelow(old(d.memory), d.memory, old(d.ptr))
    ensures d.Spent(old(d.size), ok, LevelsCost(|levels|, d.NodeCost()))
    ensures ok ==> d.Holds(array_, LevelsTree(levels), old(d.ptr))
  {
    ghost var mark := d.ptr;
    ok, array_ := d.CreateArray();
    CostGrows(0, |levels|, d.NodeCost());
    if !ok {
      return;
    }
    assert Elements(levels[..0]) == [];
    for i := 0 to |levels|
      invariant d.Valid() && mark <= d.ptr && KeptBelow(old(d.memory), d.memory, mark)
      invariant d.Holds(array_, LevelsTree(levels[..i]), mark)
      invariant LevelsCost(i, d.NodeCost()) <= old(d.size) && d.size == old(d.size) - LevelsCost(i, d.NodeCost())
    {
      CostGrows(i + 1, |levels|, d.NodeCost());
      ok := AddElement(d, array_, levels, i, mark);
      if !ok {
        return;
      }
    }
    assert levels[..|levels|] == levels;
  }

  method AddElement(d: Dumper, array_: nat, levels: seq<C.CacheLevelInfo>, i: nat, ghost mark: nat) returns (ok: bool)
    requires d.Valid() && mark <= d.ptr && i < |levels| && C.FitsInt32(levels[i])
    requires d.Holds(array_, LevelsTree(levels[..i]), mark)
    modifies d`ptr, d`size, d`memory
    ensures d.Valid() && old(d.ptr) <= d.ptr && KeptBelow(old(d.memory), d.memory, mark)
    ensures d.Spent(old(d.size), ok, 16 * d.NodeCost())
    ensures ok ==> d.Holds(array_, LevelsTree(levels[..i + 1]), mark)
  {
    hide Represents, Footprint;
    ghost var m, newer, c := d.memory, d.ptr, ChainOf(Elements(levels[..i]));
    AllBelow(m, d.nodeSize, d.base, newer);
    FootprintAllocated(m, array_, Arr(c));
    var map_;
    ok, map_ := AddLevel(d, levels[i]);
    if ok {
      KeptTree(m, d.memory, array_, Arr(c), newer);
      ChainOfSnoc(Elements(levels[..i]), ("", LevelTree(levels[i])));
      assert Elements(levels[..i + 1]) == Elements(levels[..i]) + [("", LevelTree(levels[i]))];
      ok := AddNewer(d, array_, "", map_, false, c, LevelTree(levels[i]), mark, newer);
    }
  }

  predicate CleanField(isMap: bool, field: (string, Tree)) {
    (if isMap then PlainKey(field.0) else field.0 == "") && Clean(field.1)
  }

  lemma {:induction false} CleanFields(isMap: bool, fields: seq<(string, Tree)>)
    ensures CleanChain(isMap, ChainOf(fields)) <==> forall k :: 0 <= k < |fields| ==> CleanField(isMap, fields[k])
  {
    if fields != [] {
      hide PlainKey, Clean;
      CleanFields(isMap, fields[1..]);
      assert fields == [fields[0]] + fields[1..];
      assert CleanChain(isMap, ChainOf(fields)) <==>
             CleanField(isMap, fields[0]) && CleanChain(isMap, ChainOf(fields[1..]));
    }
  }

  lemma LevelKeys()
    ensures PlainKey("level") && PlainKey("cache_type") && PlainKey("cache_size") && PlainKey("ways")
    ensures PlainKey("line_size") && PlainKey("tlb_entries") && PlainKey("partitioning")
  {
  }

  lemma CleanName(t: C.CacheType)
    ensures Clean(Str(TypeName(t)))
  {
  }

  lemma CleanLevel(info: C.CacheLevelInfo)
    ensures Clean(LevelTree(info))
  {
    LevelKeys();
    CleanName(info.cacheType);
    CleanFields(true, Fields(info));
    hide PlainKey, TypeName, NoControls;
  }

  lemma CleanLevels(levels: seq<C.CacheLevelInfo>)
    ensures PlainKey("cache_info") && Clean(LevelsTree(levels))
  {
    hide Fields, TypeName;
    forall k | 0 <= k < |levels|
      ensures Clean(LevelTree(levels[k]))
    {
      CleanLevel(levels[k]);
    }
    CleanFields(false, Elements(levels));
  }

  lemma NodeCostIs(d: Dumper)
    ensures d.nodeSize == 32 ==> d.NodeCost() == 32
  {
  }
}
