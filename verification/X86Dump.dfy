/** The whole x86 dump of src/utils/list_cpu_features.c: CreateTree builds the root map in the
    64 KiB buffer, and the printed text is read back. Brand, numbers, microarchitecture name and
    feature flags are parameters; the cache levels come from CPUID.
  */
module X86Dump {
  import opened CacheDump
  import opened Json
  import opened TreeDumper
  import opened TreeMemory
  import C = X86Cache
  import X86

  /** What the root map shows of an X86Info: flag i has the i-th name. */
  datatype Summary = Summary(
    brand: string, family: int, model: int, stepping: int, uarch: string, names: seq<string>, flags: seq<bool>)
  {
    /** The brand string has 49 bytes, its terminator included, and there are 74 flags. */
    predicate Usual() {
      |brand| <= 48 && |uarch| <= 48 && |names| <= 74
    }

    predicate Valid() {
      C.IsInt32(family) && C.IsInt32(model) && C.IsInt32(stepping) && |names| == |flags|
    }
  }

  // ----- Flags

  /** The names of the flags that are set, in the order of the flags. */
  function Names(names: seq<string>, flags: seq<bool>): (r: seq<string>)
    requires |names| == |flags|
    ensures |r| <= |names|
  {
    if names == [] then []
    else
      var n := |names| - 1;
      Names(names[..n], flags[..n]) + if flags[n] then [names[n]] else []
  }

  lemma {:induction false} NamesAre(names: seq<string>, flags: seq<bool>)
    requires |names| == |flags|
    ensures forall s :: s in Names(names, flags) <==> exists i :: 0 <= i < |names| && flags[i] && names[i] == s
  {
    if names != [] {
      var n := |names| - 1;
      NamesAre(names[..n], flags[..n]);
      assert names == names[..n] + [names[n]];
    }
  }

  /** The order of strcmp. */
  predicate Le(a: string, b: string) {
    a == "" || (b != "" && (a[0] < b[0] || (a[0] == b[0] && Le(a[1..], b[1..]))))
  }

  /** A text that the other starts with comes first; otherwise the first difference decides. */
  lemma {:induction false} LeIff(a: string, b: string)
    ensures Le(a, b) <==>
            a <= b || exists k :: 0 <= k < |a| && k < |b| && a[..k] == b[..k] && a[k] < b[k]
  {
    if a != "" && b != "" && a[0] == b[0] {
      LeIff(a[1..], b[1..]);
      SameFirst(a, b);
    } else if a != "" && b != "" {
      forall k | 0 <= k < |a| && k < |b| && a[..k] == b[..k]
        ensures k == 0
      {
        FirstAgrees(a, b, k);
      }
      assert a[..0] == b[..0];
    }
  }

  lemma FirstAgrees(a: string, b: string, k: nat)
    requires k < |a| && k < |b| && a[..k] == b[..k]
    ensures k == 0 || a[0] == b[0]
  {
    assert k > 0 ==> a[..k][0] == a[0] && b[..k][0] == b[0];
  }

  lemma SameFirst(a: string, b: string)
    requires a != "" && b != "" && a[0] == b[0]
    ensures a <= b <==> a[1..] <= b[1..]
    ensures (exists k :: 0 <= k < |a| && k < |b| && a[..k] == b[..k] && a[k] < b[k]) <==>
            exists k :: 0 <= k < |a[1..]| && k < |b[1..]| && a[1..][..k] == b[1..][..k] && a[1..][k] < b[1..][k]
  {
    var c, d := a[1..], b[1..];
    assert a == [a[0]] + c && b == [b[0]] + d;
    forall k | 0 <= k < |a| && k < |b| && a[..k] == b[..k] && a[k] < b[k]
      ensures k > 0 && c[..k - 1] == d[..k - 1] && c[k - 1] < d[k - 1]
    {
      assert a[..k][1..] == c[..k - 1] && b[..k][1..] == d[..k - 1];
    }
    forall k | 0 <= k < |c| && k < |d| && c[..k] == d[..k] && c[k] < d[k]
      ensures a[..k + 1] == b[..k + 1] && a[k + 1] < b[k + 1]
    {
      assert a[..k + 1] == [a[0]] + c[..k] && b[..k + 1] == [b[0]] + d[..k];
    }
  }

  lemma {:induction false} LeTotal(a: string, b: string)
    ensures Le(a, b) || Le(b, a)
  {
    if a != "" && b != "" {
      LeTotal(a[1..], b[1..]);
    }
  }

  lemma {:induction false} LeTransitive(a: string, b: string, c: string)
    requires Le(a, b) && Le(b, c)
    ensures Le(a, c)
  {
    if a != "" && a[0] == b[0] && b[0] == c[0] {
      LeTransitive(a[1..], b[1..], c[1..]);
    }
  }

  function Insert(x: string, s: seq<string>): (r: seq<string>)
    ensures |r| == |s| + 1
  {
    if s == [] || Le(x, s[0]) then [x] + s else [s[0]] + Insert(x, s[1..])
  }

  /** What qsort leaves: for strings the order decides the result. */
  function Sorted(s: seq<string>): (r: seq<string>)
    ensures |r| == |s|
  {
    if s == [] then [] else Insert(s[0], Sorted(s[1..]))
  }

  predicate Ordered(s: seq<string>) {
    forall i, j :: 0 <= i < j < |s| ==> Le(s[i], s[j])
  }

  lemma {:induction false} InsertAdds(x: string, s: seq<string>)
    ensures multiset(Insert(x, s)) == multiset(s) + multiset{x}
  {
    if s != [] {
      assert s == [s[0]] + s[1..];
      InsertAdds(x, s[1..]);
    }
  }

  lemma {:induction false} InsertKeeps(x: string, s: seq<string>)
    requires Ordered(s)
    ensures Ordered(Insert(x, s)) && (forall t :: t in Insert(x, s) <==> t == x || t in s)
  {
    if s != [] {
      assert s == [s[0]] + s[1..];
      if Le(x, s[0]) {
        forall j | 0 < j < |s|
          ensures Le(x, s[j])
        {
          LeTransitive(x, s[0], s[j]);
        }
      } else {
        LeTotal(x, s[0]);
        InsertKeeps(x, s[1..]);
        LeastFirst(s[0], Insert(x, s[1..]));
      }
    }
  }

  lemma LeastFirst(y: string, r: seq<string>)
    requires Ordered(r) && forall t :: t in r ==> Le(y, t)
    ensures Ordered([y] + r)
  {
    hide Le;
    assert forall j :: 0 <= j < |r| ==> r[j] in r;
  }

  /** The sorted names are the names, each as often as before, in the order of strcmp. */
  lemma {:induction false} SortedIsOrdered(s: seq<string>)
    ensures Ordered(Sorted(s)) && multiset(Sorted(s)) == multiset(s)
  {
    if s != [] {
      SortedIsOrdered(s[1..]);
      InsertKeeps(s[0], Sorted(s[1..]));
      InsertAdds(s[0], Sorted(s[1..]));
      assert s == [s[0]] + s[1..];
    }
  }

  function FlagElements(names: seq<string>): (r: seq<(string, Tree)>)
    ensures |r| == |names|
    ensures forall k :: 0 <= k < |r| ==> r[k] == ("", Str(names[k]))
  {
    seq(|names|, k requires 0 <= k < |names| => ("", Str(names[k])))
  }

  function FlagsTree(names: seq<string>): Tree {
    Arr(ChainOf(FlagElements(names)))
  }

  /** An array of n names takes one node, and two a name. */
  function FlagsCost(n: nat, node: nat): nat {
    if n == 0 then node else FlagsCost(n - 1, node) + 2 * node
  }

  lemma {:induction false} FlagsCostGrows(i: nat, n: nat, node: nat)
    requires i <= n
    ensures FlagsCost(i, node) <= FlagsCost(n, node)
  {
    if i < n {
      FlagsCostGrows(i, n - 1, node);
    }
  }

  lemma {:induction false} FlagsCostIs(n: nat)
    ensures FlagsCost(n, 32) == 32 + 64 * n
  {
    if n > 0 {
      FlagsCostIs(n - 1);
    }
  }

  method CreateFlags(d: Dumper, names: seq<string>) returns (ok: bool, array_: nat)
    requires d.Valid()
    modifies d`ptr, d`size, d`memory
    ensures d.Valid() && old(d.ptr) <= d.ptr && KeptBelow(old(d.memory), d.memory, old(d.ptr))
    ensures d.Spent(old(d.size), ok, FlagsCost(|names|, d.NodeCost()))
    ensures ok ==> d.Holds(array_, FlagsTree(names), old(d.ptr))
  {
    ghost var mark := d.ptr;
    ok, array_ := d.CreateArray();
    FlagsCostGrows(0, |names|, d.NodeCost());
    if !ok {
      return;
    }
    assert FlagElements(names[..0]) == [];
    for i := 0 to |names|
      invariant d.Valid() && mark <= d.ptr && KeptBelow(old(d.memory), d.memory, mark)
      invariant d.Holds(array_, FlagsTree(names[..i]), mark)
      invariant FlagsCost(i, d.NodeCost()) <= old(d.size) && d.size == old(d.size) - FlagsCost(i, d.NodeCost())
    {
      FlagsCostGrows(i + 1, |names|, d.NodeCost());
      ok := AddFlag(d, array_, names, i, mark);
      if !ok {
        return;
      }
    }
    assert names[..|names|] == names;
  }

  method AddFlag(d: Dumper, array_: nat, names: seq<string>, i: nat, ghost mark: nat) returns (ok: bool)
    requires d.Valid() && mark <= d.ptr && i < |names|
    requires d.Holds(array_, FlagsTree(names[..i]), mark)
    modifies d`ptr, d`size, d`memory
    ensures d.Valid() && old(d.ptr) <= d.ptr && KeptBelow(old(d.memory), d.memory, mark)
    ensures d.Spent(old(d.size), ok, 2 * d.NodeCost())
    ensures ok ==> d.Holds(array_, FlagsTree(names[..i + 1]), mark)
  {
    hide Represents, Footprint;
    ghost var m, newer, c := d.memory, d.ptr, ChainOf(FlagElements(names[..i]));
    AllBelow(m, d.nodeSize, d.base, newer);
    FootprintAllocated(m, array_, Arr(c));
    var flag;
    ok, flag := d.CreateConstantString(Literal(names[i]), names[i]);
    if ok {
      KeptTree(m, d.memory, array_, Arr(c), newer);
      ChainOfSnoc(FlagElements(names[..i]), ("", Str(names[i])));
      assert FlagElements(names[..i + 1]) == FlagElements(names[..i]) + [("", Str(names[i]))];
      ok := AddNewer(d, array_, "", flag, false, c, Str(names[i]), mark, newer);
    }
  }

  /** Adds the sorted names of the flags that are set as the last entry of the root. */
  method AddFlags(d: Dumper, root: nat, names: seq<string>, flags: seq<bool>, ghost fields: seq<(string, Tree)>,
                  ghost mark: nat) returns (ok: bool)
    requires d.Valid() && d.Holds(root, Map(ChainOf(fields)), mark) && mark <= d.ptr && |names| == |flags|
    modifies d`ptr, d`size, d`memory
    ensures d.Valid() && old(d.ptr) <= d.ptr && KeptBelow(old(d.memory), d.memory, mark)
    ensures d.Spent(old(d.size), ok, FlagsCost(|Names(names, flags)|, d.NodeCost()) + d.NodeCost())
    ensures ok ==> d.Holds(root, Map(ChainOf(fields + [("flags", FlagsTree(Sorted(Names(names, flags))))])), mark)
  {
    hide Represents, Footprint, Laid, Sorted, FlagsTree;
    var ptrs := SetNames(names, flags);
    ghost var m, newer, c := d.memory, d.ptr, ChainOf(fields);
    AllBelow(m, d.nodeSize, d.base, newer);
    FootprintAllocated(m, root, Map(c));
    var array_;
    ok, array_ := CreateFlags(d, Sorted(ptrs));
    if ok {
      KeptTree(m, d.memory, root, Map(c), newer);
      ChainOfSnoc(fields, ("flags", FlagsTree(Sorted(ptrs))));
      ok := AddNewer(d, root, "flags", array_, true, c, FlagsTree(Sorted(ptrs)), mark, newer);
    }
  }

  method SetNames(names: seq<string>, flags: seq<bool>) returns (ptrs: seq<string>)
    requires |names| == |flags|
    ensures ptrs == Names(names, flags)
  {
    ptrs := [];
    for i := 0 to |names|
      invariant ptrs == Names(names[..i], flags[..i])
    {
      OneMoreName(names, flags, i);
      if flags[i] {
        ptrs := ptrs + [names[i]];
      }
    }
    assert names[..|names|] == names && flags[..|flags|] == flags;
  }

  lemma OneMoreName(names: seq<string>, flags: seq<bool>, i: nat)
    requires |names| == |flags| && i < |names|
    ensures Names(names[..i + 1], flags[..i + 1]) == Names(names[..i], flags[..i]) + if flags[i] then [names[i]] else []
  {
    assert names[..i + 1][..i] == names[..i] && flags[..i + 1][..i] == flags[..i];
  }

  // ----- The tree

  function Shown(info: Summary): seq<string>
    requires info.Valid()
  {
    Sorted(Names(info.names, info.flags))
  }

  /** The entries of the root map in the order they are added. */
  function RootFields(info: Summary, levels: seq<C.CacheLevelInfo>): (r: seq<(string, Tree)>)
    requires info.Valid()
    ensures |r| == 8
  {
    [("arch", Str("x86")), ("brand", Str(info.brand)), ("family", Int(info.family)), ("model", Int(info.model)),
     ("stepping", Int(info.stepping)), ("uarch", Str(info.uarch)), ("flags", FlagsTree(Shown(info))),
     ("cache_info", LevelsTree(levels))]
  }

  function RootTree(info: Summary, levels: seq<C.CacheLevelInfo>): Tree
    requires info.Valid()
  {
    Map(ChainOf(RootFields(info, levels)))
  }

  /** A stored string takes its text, its terminator and a node, and an entry one more node. */
  function StringCost(s: string, node: nat): nat {
    RoundUp(|s| + 1) + 2 * node
  }

  function HeadCost(info: Summary, node: nat): nat {
    StringCost("x86", node) + StringCost(info.brand, node) + 2 * node
  }

  function TailCost(info: Summary, node: nat): nat {
    2 * node + 2 * node + StringCost(info.uarch, node)
  }

  function SectionsCost(info: Summary, levels: nat, node: nat): nat
    requires info.Valid()
  {
    (FlagsCost(|Names(info.names, info.flags)|, node) + node) + (LevelsCost(levels, node) + node)
  }

  function TreeCost(info: Summary, levels: nat, node: nat): nat
    requires info.Valid()
  {
    node + HeadCost(info, node) + TailCost(info, node) + SectionsCost(info, levels, node)
  }

  method AddString(d: Dumper, map_: nat, key: string, s: string, ghost fields: seq<(string, Tree)>, ghost mark: nat)
    returns (ok: bool)
    requires d.Valid() && d.Holds(map_, Map(ChainOf(fields)), mark) && mark <= d.ptr
    modifies d`ptr, d`size, d`memory
    ensures d.Valid() && old(d.ptr) <= d.ptr && KeptBelow(old(d.memory), d.memory, mark)
    ensures d.Spent(old(d.size), ok, StringCost(s, d.NodeCost()))
    ensures ok ==> d.Holds(map_, Map(ChainOf(fields + [(key, Str(s))])), mark)
  {
    hide Represents, Footprint;
    ghost var m, newer := d.memory, d.ptr;
    AllBelow(m, d.nodeSize, d.base, newer);
    FootprintAllocated(m, map_, Map(ChainOf(fields)));
    var value;
    ok, value := d.CreatePrintfString(s);
    if ok {
      KeptTree(m, d.memory, map_, Map(ChainOf(fields)), newer);
      ChainOfSnoc(fields, (key, Str(s)));
      ok := AddNewer(d, map_, key, value, true, ChainOf(fields), Str(s), mark, newer);
    }
  }

  method CreateTree(d: Dumper, info: Summary, levels: seq<C.CacheLevelInfo>) returns (ok: bool, root: nat)
    requires d.Valid() && info.Valid() && C.AllFit(levels)
    modifies d`ptr, d`size, d`memory
    ensures d.Valid() && old(d.ptr) <= d.ptr
    ensures d.Spent(old(d.size), ok, TreeCost(info, |levels|, d.NodeCost()))
    ensures ok ==> d.Holds(root, RootTree(info, levels), old(d.ptr))
  {
    ghost var mark := d.ptr;
    NoEntries(info, levels);
    hide Represents, Footprint, ChainOf, RootFields, Shown, Laid, Dumper.Valid, Dumper.Holds, HeadCost, TailCost;
    hide SectionsCost;
    ok, root := d.CreateMap();
    if ok { ok := AddHead(d, root, info, levels, mark); }
    if ok { ok := AddTail(d, root, info, levels, mark); }
    if ok { ok := AddSections(d, root, info, levels, mark); }
  }

  lemma NoEntries(info: Summary, levels: seq<C.CacheLevelInfo>)
    requires info.Valid()
    ensures Map(ChainOf(RootFields(info, levels)[..0])) == Map(End)
  {
  }

  method AddSections(d: Dumper, root: nat, info: Summary, levels: seq<C.CacheLevelInfo>, ghost mark: nat)
    returns (ok: bool)
    requires d.Valid() && info.Valid() && C.AllFit(levels) && mark <= d.ptr
    requires d.Holds(root, Map(ChainOf(RootFields(info, levels)[..6])), mark)
    modifies d`ptr, d`size, d`memory
    ensures d.Valid() && old(d.ptr) <= d.ptr && KeptBelow(old(d.memory), d.memory, mark)
    ensures d.Spent(old(d.size), ok, SectionsCost(info, |levels|, d.NodeCost()))
    ensures ok ==> d.Holds(root, RootTree(info, levels), mark)
  {
    ghost var f := RootFields(info, levels);
    RootPrefixes(info, levels);
    hide Represents, Footprint, ChainOf, RootFields, Shown, Laid, Dumper.Valid, Dumper.Holds, LevelsTree, FlagsTree;
    hide LevelsCost, FlagsCost, Names;
    ok := AddFlags(d, root, info.names, info.flags, f[..6], mark);
    if ok {
      ChainOfSnoc(f[..7], ("cache_info", LevelsTree(levels)));
      ok := AddCacheInfo(d, root, levels, ChainOf(f[..7]), mark);
    }
  }

  method AddHead(d: Dumper, root: nat, info: Summary, levels: seq<C.CacheLevelInfo>, ghost mark: nat)
    returns (ok: bool)
    requires d.Valid() && info.Valid() && mark <= d.ptr
    requires d.Holds(root, Map(ChainOf(RootFields(info, levels)[..0])), mark)
    modifies d`ptr, d`size, d`memory
    ensures d.Valid() && old(d.ptr) <= d.ptr && KeptBelow(old(d.memory), d.memory, mark)
    ensures d.Spent(old(d.size), ok, HeadCost(info, d.NodeCost()))
    ensures ok ==> d.Holds(root, Map(ChainOf(RootFields(info, levels)[..3])), mark)
  {
    ghost var f := RootFields(info, levels);
    RootPrefixes(info, levels);
    hide Represents, Footprint, ChainOf, RootFields, Shown, Laid, Dumper.Valid, Dumper.Holds, StringCost;
    ok := AddString(d, root, "arch", "x86", f[..0], mark);
    if ok { ok := AddString(d, root, "brand", info.brand, f[..1], mark); }
    if ok { ok := AddIntField(d, root, "family", info.family, f[..2], mark); }
  }

  method AddTail(d: Dumper, root: nat, info: Summary, levels: seq<C.CacheLevelInfo>, ghost mark: nat)
    returns (ok: bool)
    requires d.Valid() && info.Valid() && mark <= d.ptr
    requires d.Holds(root, Map(ChainOf(RootFields(info, levels)[..3])), mark)
    modifies d`ptr, d`size, d`memory
    ensures d.Valid() && old(d.ptr) <= d.ptr && KeptBelow(old(d.memory), d.memory, mark)
    ensures d.Spent(old(d.size), ok, TailCost(info, d.NodeCost()))
    ensures ok ==> d.Holds(root, Map(ChainOf(RootFields(info, levels)[..6])), mark)
  {
    ghost var f := RootFields(info, levels);
    RootPrefixes(info, levels);
    hide Represents, Footprint, ChainOf, RootFields, Shown, Laid, Dumper.Valid, Dumper.Holds, StringCost;
    ok := AddIntField(d, root, "model", info.model, f[..3], mark);
    if ok { ok := AddIntField(d, root, "stepping", info.stepping, f[..4], mark); }
    if ok { ok := AddString(d, root, "uarch", info.uarch, f[..5], mark); }
  }

  lemma RootPrefixes(info: Summary, levels: seq<C.CacheLevelInfo>)
    requires info.Valid()
    ensures var f := RootFields(info, levels);
            && f[..0] == [] && ChainOf(f[..0]) == End
            && f[..1] == f[..0] + [("arch", Str("x86"))]
            && f[..2] == f[..1] + [("brand", Str(info.brand))]
            && f[..3] == f[..2] + [("family", Int(info.family))]
            && f[..4] == f[..3] + [("model", Int(info.model))]
            && f[..5] == f[..4] + [("stepping", Int(info.stepping))]
            && f[..6] == f[..5] + [("uarch", Str(info.uarch))]
            && f[..7] == f[..6] + [("flags", FlagsTree(Sorted(Names(info.names, info.flags))))]
            && f == f[..7] + [("cache_info", LevelsTree(levels))]
  {
  }

  /** What a reader of the document finds in it, and in which order. */
  lemma RootEntries(info: Summary, levels: seq<C.CacheLevelInfo>)
    requires info.Valid()
    ensures var c := RootTree(info, levels).entries;
            && Keys(c) == ["arch", "brand", "family", "model", "stepping", "uarch", "flags", "cache_info"]
            && Entry(c, "arch") == Str("x86") && Entry(c, "brand") == Str(info.brand)
            && Entry(c, "family") == Int(info.family) && Entry(c, "model") == Int(info.model)
            && Entry(c, "stepping") == Int(info.stepping) && Entry(c, "uarch") == Str(info.uarch)
            && Entry(c, "flags") == FlagsTree(Shown(info)) && Entry(c, "cache_info") == LevelsTree(levels)
  {
    hide FlagsTree, Shown, LevelsTree, ChainOf, Keys, Entry;
    var f := RootFields(info, levels);
    KeysOf(f);
    EntryOf(f, 0);
    EntryOf(f, 1);
    EntryOf(f, 2);
    EntryOf(f, 3);
    EntryOf(f, 4);
    EntryOf(f, 5);
    EntryOf(f, 6);
    EntryOf(f, 7);
  }

  // ----- The dump

  /** Neither the strings nor the flags shown hold a control character. */
  predicate Printable(info: Summary)
    requires info.Valid()
  {
    && NoControls(info.brand) && NoControls(info.uarch)
    && forall i :: 0 <= i < |info.names| && info.flags[i] ==> NoControls(info.names[i])
  }

  lemma {:induction false} CleanElements(names: seq<string>)
    ensures CleanChain(false, ChainOf(FlagElements(names))) <==> forall s :: s in names ==> NoControls(s)
  {
    if names != [] {
      CleanElements(names[1..]);
      assert FlagElements(names)[1..] == FlagElements(names[1..]);
      assert names == [names[0]] + names[1..];
    }
  }

  lemma CleanFlags(info: Summary)
    requires info.Valid()
    ensures Clean(FlagsTree(Shown(info))) <==>
            forall i :: 0 <= i < |info.names| && info.flags[i] ==> NoControls(info.names[i])
  {
    hide NoControls, Sorted, Ordered, Names;
    var shown := Names(info.names, info.flags);
    CleanElements(Sorted(shown));
    NamesAre(info.names, info.flags);
    SortedIsOrdered(shown);
    assert forall s :: s in Sorted(shown) <==> s in multiset(Sorted(shown));
    assert forall s :: s in shown <==> s in multiset(shown);
    assert Clean(FlagsTree(Shown(info))) <==> CleanChain(false, ChainOf(FlagElements(Sorted(shown))));
    assert forall i :: 0 <= i < |info.names| && info.flags[i] ==> info.names[i] in shown;
  }

  lemma RootKeys()
    ensures PlainKey("arch") && PlainKey("brand") && PlainKey("family") && PlainKey("model")
    ensures PlainKey("stepping") && PlainKey("uarch") && PlainKey("flags")
  {
  }

  lemma CleanRoot(info: Summary, levels: seq<C.CacheLevelInfo>)
    requires info.Valid()
    ensures Clean(RootTree(info, levels)) <==> Printable(info)
  {
    var f := RootFields(info, levels);
    CleanFlags(info);
    CleanLevels(levels);
    RootKeys();
    assert NoControls("x86");
    assert Clean(RootTree(info, levels)) <==> CleanChain(true, ChainOf(f));
    CleanFields(true, f);
    hide FlagsTree, LevelsTree, Shown, PlainKey, NoControls, ChainOf;
    assert forall k :: 0 <= k < 8 && k != 1 && k != 5 && k != 6 ==> CleanField(true, f[k]);
    assert CleanField(true, f[1]) <==> NoControls(info.brand);
    assert CleanField(true, f[5]) <==> NoControls(info.uarch);
    assert CleanField(true, f[6]) <==> Clean(FlagsTree(Shown(info)));
  }

  /** Room for all strings an X86Info can hold, 74 flags and 16 levels. */
  lemma Fits64KiB(info: Summary, levels: nat)
    requires info.Valid() && info.Usual() && levels <= 16
    ensures TreeCost(info, levels, 32) <= 64 * 1024 - 8
  {
    var n := |Names(info.names, info.flags)|;
    FlagsCostIs(n);
    CostIs(levels);
    hide FlagsCost, LevelsCost, RoundUp;
  }

  method DumpTree(d: Dumper, info: Summary, levels: seq<C.CacheLevelInfo>) returns (ok: bool)
    requires d.Valid() && d.out == "" && info.Valid() && C.AllFit(levels)
    modifies d
    ensures ok <==> TreeCost(info, |levels|, d.NodeCost()) <= old(d.size)
    ensures ok ==> (ReadText(d.out) == Good(RootTree(info, levels), "") <==> Printable(info))
  {
    hide Represents, Footprint, Laid, ReadText, TreeCost, RootTree, Printable;
    var root;
    ok, root := CreateTree(d, info, levels);
    if ok {
      CleanRoot(info, levels);
      DumpIff(d, root, RootTree(info, levels));
    }
  }

  /** From an X86Info and CPUID to JSON. The buffer suffices exactly if it has room for the tree, as
      64 KiB always has with nodes of 32 bytes; and the printed text reads back as the tree exactly
      if the strings shown hold no control character. */
  method DumpX86(d: Dumper, info: Summary, cpuid: X86.CpuId, table: C.DescriptorTable) returns (ok: bool)
    requires d.Valid() && d.out == "" && info.Valid() && C.TableFits(table)
    modifies d
    ensures ok <==> TreeCost(info, |C.CacheLevels(cpuid, table)|, d.NodeCost()) <= old(d.size)
    ensures d.nodeSize == 32 && old(d.size) > 64 * 1024 - 8 && info.Usual() ==> ok
    ensures ok ==> (ReadText(d.out) == Good(RootTree(info, C.CacheLevels(cpuid, table)), "") <==> Printable(info))
  {
    hide *;
    NodeCostIs(d);
    C.CacheLevelsFit(cpuid, table);
    var cacheInfo := C.GetX86CacheInfo(cpuid, table);
    if info.Usual() {
      Fits64KiB(info, |C.CacheLevels(cpuid, table)|);
    }
    ok := DumpTree(d, info, cacheInfo.Reported());
  }

  method DumpIff(d: Dumper, root: nat, ghost t: Tree)
    requires Represents(d.memory, root, t) && d.out == ""
    modifies d`out
    ensures ReadText(d.out) == Good(t, "") <==> Clean(t)
  {
    hide Represents, Print, ReadText, Clean;
    d.PrintJson(root, t);
    PrintReadsBackIffClean(t);
    assert "" + Print(t) == Print(t);
  }
}
