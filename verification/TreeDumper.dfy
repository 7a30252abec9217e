/** The tree dumper of src/utils/list_cpu_features.c: a bump allocator, constructors that link nodes
    in place, and the JSON printer.
  */
module TreeDumper {
  import opened Json
  import opened TreeMemory

  /** What the C library calls exit the program on; callers only go on when ok. */
  class Dumper {
    const base: nat
    const end: nat
    const nodeSize: nat
    var ptr: nat
    var size: nat
    var memory: Memory
    var out: string

    ghost predicate Valid()
      reads this
    {
      && 0 < base <= ptr && ptr + size == end && ptr % ALIGN == 0 && nodeSize > 0
      && Laid(memory, nodeSize, base, ptr)
    }

    constructor (base: nat, capacity: nat, nodeSize: nat)
      requires base > 0 && nodeSize > 0
      ensures ptr == base == this.base && size == capacity && end == base + capacity
      ensures memory == map[] && out == "" && this.nodeSize == nodeSize
    {
      this.base, this.end, this.nodeSize := base, base + capacity, nodeSize;
      ptr, size, memory, out := base, capacity, map[], "";
    }

    /** Gives up at most the bytes before the next boundary; fails exactly if there are too few. */
    method Align() returns (ok: bool)
      requires 0 < base == ptr && ptr + size == end && nodeSize > 0 && memory == map[]
      modifies `ptr, `size
      ensures ok <==> RoundUp(base) <= end
      ensures ok ==> Valid() && ptr == RoundUp(base)
    {
      while size != 0 && ptr % ALIGN != 0
        invariant base <= ptr <= RoundUp(base) && ptr + size == end
      {
        size := size - 1;
        ptr := ptr + 1;
      }
      ok := ptr % ALIGN == 0;
    }

    /** Hands out the next aligned block if the rest of the buffer holds it. */
    method Bump(n: nat) returns (ok: bool, at: nat)
      requires Valid()
      modifies `ptr, `size
      ensures Valid() && at == old(ptr)
      ensures ok <==> RoundUp(n) <= old(size)
      ensures ptr == if ok then old(ptr) + RoundUp(n) else old(ptr)
      ensures size == if ok then old(size) - RoundUp(n) else old(size)
    {
      at := ptr;
      var rounded := (n + ALIGN - 1) / ALIGN * ALIGN;
      ok := size >= rounded;
      if ok {
        size := size - rounded;
        ptr := ptr + rounded;
      }
    }

    /** A request succeeds exactly if the free bytes suffice, and then takes its bytes off them. */
    ghost predicate Spent(before: nat, ok: bool, cost: nat)
      reads this
    {
      (ok <==> cost <= before) && (ok ==> size == before - cost)
    }

    /** The bytes of a node, rounded up. */
    function NodeCost(): nat {
      RoundUp(nodeSize)
    }

    /** A new block behind all others; everything else stays as it is. */
    method Place(block: Block) returns (ok: bool, at: nat)
      requires Valid()
      modifies `ptr, `size, `memory
      ensures Valid() && at == old(ptr) && at !in old(memory) && old(ptr) <= ptr
      ensures memory == if ok then old(memory)[at := block] else old(memory)
      ensures Spent(old(size), ok, RoundUp(Extent(block, nodeSize)))
    {
      LaidOneMore(memory, nodeSize, base, ptr, block);
      ok, at := Bump(Extent(block, nodeSize));
      if ok {
        memory := memory[at := block];
      }
    }

    /** Assigns to the fields of a node. */
    method Store(at: nat, node: Node)
      requires Valid() && IsNode(memory, at)
      modifies `memory
      ensures Valid() && memory == old(memory)[at := NodeBlock(node)]
    {
      LaidAfterStore(memory, nodeSize, base, ptr, at, node);
      memory := memory[at := NodeBlock(node)];
    }

    method CreateNode(kind: NodeType) returns (ok: bool, at: nat)
      requires Valid()
      modifies `ptr, `size, `memory
      ensures Valid() && at == old(ptr) && at !in old(memory) && old(ptr) <= ptr
      ensures memory == if ok then old(memory)[at := NodeBlock(Node(kind, 0, Literal(""), 0, 0))] else old(memory)
      ensures Spent(old(size), ok, NodeCost())
    {
      ok, at := Place(NodeBlock(Node(kind, 0, Literal(""), 0, 0)));
    }

    /** The tree at a is complete and lies at or behind the mark. */
    ghost predicate Holds(a: nat, t: Tree, mark: nat)
      reads this
    {
      Represents(memory, a, t) && forall x :: x in Footprint(memory, a, t) ==> mark <= x
    }

    method CreateInt(value: int) returns (ok: bool, at: nat)
      requires Valid() && -0x8000_0000 <= value < 0x8000_0000
      modifies `ptr, `size, `memory
      ensures Valid() && old(ptr) <= ptr && KeptBelow(old(memory), memory, old(ptr))
      ensures Spent(old(size), ok, NodeCost())
      ensures ok ==> Holds(at, Int(value), old(ptr))
    {
      ok, at := CreateNode(IntNode);
      if ok {
        Store(at, memory[at].node.(integer := ToUnsigned(value)));
      }
    }

    method CreateConstantString(value: Text, ghost s: string) returns (ok: bool, at: nat)
      requires Valid() && HasText(memory, value, s)
      modifies `ptr, `size, `memory
      ensures Valid() && old(ptr) <= ptr && KeptBelow(old(memory), memory, old(ptr))
      ensures Spent(old(size), ok, NodeCost())
      ensures ok ==> Represents(memory, at, Str(s)) && Footprint(memory, at, Str(s)) == {old(ptr)} + TextFootprint(value)
    {
      hide Laid;
      ok, at := CreateNode(StringNode);
      if ok {
        Store(at, memory[at].node.(text := value));
      }
    }

    method CreateMap() returns (ok: bool, at: nat)
      requires Valid()
      modifies `ptr, `size, `memory
      ensures Valid() && old(ptr) <= ptr && KeptBelow(old(memory), memory, old(ptr))
      ensures Spent(old(size), ok, NodeCost())
      ensures ok ==> Holds(at, Map(End), old(ptr))
    {
      ok, at := CreateNode(MapNode);
    }

    method CreateArray() returns (ok: bool, at: nat)
      requires Valid()
      modifies `ptr, `size, `memory
      ensures Valid() && old(ptr) <= ptr && KeptBelow(old(memory), memory, old(ptr))
      ensures Spent(old(size), ok, NodeCost())
      ensures ok ==> Holds(at, Arr(End), old(ptr))
    {
      ok, at := CreateNode(ArrayNode);
    }

    /** Formats into the free space and then reserves what was written with its terminator. */
    method CreatePrintfString(written: string) returns (ok: bool, at: nat)
      requires Valid()
      modifies `ptr, `size, `memory
      ensures Valid() && old(ptr) <= ptr && KeptBelow(old(memory), memory, old(ptr))
      ensures Spent(old(size), ok, RoundUp(|written| + 1) + NodeCost())
      ensures ok ==> Holds(at, Str(written), old(ptr))
    {
      at := 0;
      ok := |written| < size;
      if ok {
        var text;
        ok, text := Place(TextBlock(written));
        if ok {
          ok, at := CreateConstantString(Stored(text), written);
        }
      }
    }

    /** Walks to the end of the chain. */
    method FindLast(a: nat, isMap: bool, ghost c: Chain) returns (last: nat)
      requires Represents(memory, a, Container(isMap, c))
      ensures last == LastOf(memory, a, Head(memory, a), c)
      ensures IsNode(memory, last)
    {
      last := a;
      ghost var rest := c;
      while memory[last].node.next != 0
        invariant IsNode(memory, last) && Chained(memory, last, memory[last].node.next, isMap, rest)
        invariant LastOf(memory, last, memory[last].node.next, rest) == LastOf(memory, a, Head(memory, a), c)
        decreases rest
      {
        last := memory[last].node.next;
        rest := rest.next;
      }
    }

    /** Appends exactly one entry to this map or array. The memory afterwards is stated in full: one
        new block and one changed next field. */
    method Append(a: nat, isMap: bool, key: string, value: nat, ghost c: Chain, ghost t: Tree) returns (ok: bool)
      requires Valid() && Represents(memory, a, Container(isMap, c))
      requires !isMap ==> key == ""
      modifies `ptr, `size, `memory
      ensures Valid() && old(ptr) <= ptr && IsNode(old(memory), LastOf(old(memory), a, Head(old(memory), a), c))
      ensures memory == if ok then Linked(old(memory), LastOf(old(memory), a, Head(old(memory), a), c), old(ptr),
                                          Node(LinkKind(isMap), 0, Literal(key), value, 0))
                        else old(memory)
      ensures Spent(old(size), ok, NodeCost())
      ensures ok && Apart(old(memory), a, c, value, t) ==>
                && Represents(memory, a, Container(isMap, Snoc(c, key, t)))
                && Footprint(memory, a, Container(isMap, Snoc(c, key, t))) ==
                   old(Footprint(memory, a, Container(isMap, c))) + {old(ptr)} + old(Footprint(memory, value, t))
    {
      hide Represents, Footprint;
      var last := FindLast(a, isMap, c);
      AllBelow(memory, nodeSize, base, ptr);
      ghost var m := memory;
      var entry := Node(LinkKind(isMap), 0, Literal(key), value, 0);
      var x;
      ok, x := Place(NodeBlock(entry));
      LastIsNode(m, a, isMap, c);
      if ok {
        if Apart(m, a, c, value, t) {
          AppendToContainer(m, a, isMap, c, x, entry, key, t);
        }
        Store(last, memory[last].node.(next := x));
        SameLinks(m, last, x, entry);
      }
    }

    method AddMapEntry(a: nat, key: string, value: nat, ghost c: Chain, ghost t: Tree) returns (ok: bool)
      requires Valid() && Represents(memory, a, Map(c))
      modifies `ptr, `size, `memory
      ensures Valid() && old(ptr) <= ptr && IsNode(old(memory), LastOf(old(memory), a, Head(old(memory), a), c))
      ensures memory == if ok then Linked(old(memory), LastOf(old(memory), a, Head(old(memory), a), c), old(ptr),
                                          Node(MapEntry, 0, Literal(key), value, 0))
                        else old(memory)
      ensures Spent(old(size), ok, NodeCost())
      ensures ok && Apart(old(memory), a, c, value, t) ==>
                && Represents(memory, a, Map(Snoc(c, key, t)))
                && Footprint(memory, a, Map(Snoc(c, key, t))) ==
                   old(Footprint(memory, a, Map(c))) + {old(ptr)} + old(Footprint(memory, value, t))
    {
      hide Represents, Footprint;
      ok := Append(a, true, key, value, c, t);
    }

    method AddArrayElement(a: nat, value: nat, ghost c: Chain, ghost t: Tree) returns (ok: bool)
      requires Valid() && Represents(memory, a, Arr(c))
      modifies `ptr, `size, `memory
      ensures Valid() && old(ptr) <= ptr && IsNode(old(memory), LastOf(old(memory), a, Head(old(memory), a), c))
      ensures memory == if ok then Linked(old(memory), LastOf(old(memory), a, Head(old(memory), a), c), old(ptr),
                                          Node(ArrayElement, 0, Literal(""), value, 0))
                        else old(memory)
      ensures Spent(old(size), ok, NodeCost())
      ensures ok && Apart(old(memory), a, c, value, t) ==>
                && Represents(memory, a, Arr(Snoc(c, "", t)))
                && Footprint(memory, a, Arr(Snoc(c, "", t))) ==
                   old(Footprint(memory, a, Arr(c))) + {old(ptr)} + old(Footprint(memory, value, t))
    {
      hide Represents, Footprint;
      ok := Append(a, false, "", value, c, t);
    }

    // ----- Printing

    method PutChar(c: char)
      modifies `out
      ensures out == old(out) + [c]
    {
      out := out + [c];
    }

    method Printf(s: string)
      modifies `out
      ensures out == old(out) + s
    {
      out := out + s;
    }

    method PrintJsonString(s: string)
      modifies `out
      ensures out == old(out) + ['"'] + Escape(s) + ['"']
    {
      PutChar('"');
      ghost var start := out;
      for i := 0 to |s|
        invariant out + Escape(s[i..]) == start + Escape(s)
      {
        ghost var before := out;
        if NeedsEscape(s[i]) {
          PutChar('\\');
        }
        PutChar(s[i]);
        assert s[i..][1..] == s[i + 1..];
        EscapeStep(before, s[i..]);
      }
      PutChar('"');
    }

    /** The string a pointer leads to. */
    function TextAt(r: Text): string
      requires r.Stored? ==> r.at in memory && memory[r.at].TextBlock?
      reads this
    {
      if r.Literal? then r.text else memory[r.at].text
    }

    method PrintJson(a: nat, ghost t: Tree)
      requires Represents(memory, a, t)
      modifies `out
      ensures out == old(out) + Print(t)
      decreases t
    {
      hide Footprint, ChainFootprint, Escape, PrintChain, Signed;
      var node := memory[a].node;
      match node.kind
      case IntNode =>
        Printf(Signed(ToSigned(node.integer)));
      case StringNode =>
        PrintJsonString(TextAt(node.text));
      case ArrayNode =>
        PutChar('[');
        if node.next != 0 {
          PrintEntries(node.next, a, false, t.items);
        } else {
          EmptyChain(false);
        }
        PutChar(']');
      case MapNode =>
        PutChar('{');
        if node.next != 0 {
          PrintEntries(node.next, a, true, t.entries);
        } else {
          EmptyChain(true);
        }
        PutChar('}');
      case _ =>
        assert false;
    }

    /** The same walk on the entry nodes. */
    method PrintEntries(e: nat, ghost prev: nat, ghost isMap: bool, ghost c: Chain)
      requires e != 0 && Chained(memory, prev, e, isMap, c)
      modifies `out
      ensures out == old(out) + PrintChain(isMap, c)
      decreases c
    {
      hide Print, Footprint;
      var node := memory[e].node;
      ghost var start := out;
      if node.kind == MapEntry {
        Printf(['"'] + TextAt(node.text) + ['"', ':']);
      }
      assert out == start + KeyText(isMap, c.key) by {
        assert start + "" == start;
      }
      PrintJson(node.value, c.value);
      if node.next != 0 {
        PutChar(',');
        PrintEntries(node.next, e, isMap, c.next);
        EntryText(start, KeyText(isMap, c.key), Print(c.value), PrintChain(isMap, c.next));
      } else {
        EntryEnd(start, KeyText(isMap, c.key), Print(c.value));
      }
    }
  }

  lemma EntryText(out: string, key: string, value: string, next: string)
    ensures out + key + value + [','] + next == out + (key + value + ([','] + next))
  {
  }

  lemma EmptyChain(isMap: bool)
    ensures PrintChain(isMap, End) == ""
  {
  }

  lemma EntryEnd(out: string, key: string, value: string)
    ensures out + key + value == out + (key + value + "")
  {
  }

  lemma EscapeStep(out: string, s: string)
    requires s != ""
    ensures out + Escape(s) == out + (if NeedsEscape(s[0]) then ['\\', s[0]] else [s[0]]) + Escape(s[1..])
  {
  }

  lemma AllBelow(m: Memory, nodeSize: nat, base: nat, ptr: nat)
    requires Laid(m, nodeSize, base, ptr) && nodeSize > 0
    ensures forall a :: a in m ==> a < ptr
  {
  }

  /** The two stores commute. */
  lemma SameLinks(m: Memory, last: nat, x: nat, entry: Node)
    requires IsNode(m, last) && x !in m
    ensures var m' := m[x := NodeBlock(entry)];
            m'[last := NodeBlock(m'[last].node.(next := x))] == Linked(m, last, x, entry)
  {
  }

  /** Nothing below the mark has changed. */
  predicate KeptBelow(m: Memory, m': Memory, mark: nat) {
    forall x :: x in m && x < mark ==> x in m' && m'[x] == m[x]
  }
}
