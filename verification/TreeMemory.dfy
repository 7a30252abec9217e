/** The memory of the tree dumper of src/utils/list_cpu_features.c: nodes linked into chains in
    place, and what it means that they hold a tree. Memory maps the address of each allocated block
    to its content; address 0 is the null pointer.
  */
module TreeMemory {
  import opened Json

  datatype NodeType = Invalid | IntNode | MapNode | MapEntry | ArrayNode | ArrayElement | StringNode

  /** A string pointer: to constant text, or to text stored in the buffer. */
  datatype Text = Literal(text: string) | Stored(at: nat)

  datatype Node = Node(kind: NodeType, integer: nat, text: Text, value: nat, next: nat)

  datatype Block = NodeBlock(node: Node) | TextBlock(text: string)

  type Memory = map<nat, Block>

  const ALIGN := 8

  function RoundUp(n: nat): (r: nat)
    ensures n <= r < n + 8 && r % 8 == 0
  {
    (n + ALIGN - 1) / ALIGN * ALIGN
  }

  // ----- Layout

  /** The bytes a block occupies; a text is stored with its terminator. */
  function Extent(block: Block, nodeSize: nat): nat {
    if block.NodeBlock? then nodeSize else |block.text| + 1
  }

  /** Blocks are aligned, inside [base, ptr) and pairwise disjoint. */
  predicate Laid(m: Memory, nodeSize: nat, base: nat, ptr: nat) {
    && (forall a :: a in m ==> base <= a && a % ALIGN == 0 && a + Extent(m[a], nodeSize) <= ptr)
    && (forall a, b :: a in m && b in m && a < b ==> a + Extent(m[a], nodeSize) <= b)
  }

  lemma LaidOneMore(m: Memory, nodeSize: nat, base: nat, ptr: nat, block: Block)
    requires Laid(m, nodeSize, base, ptr) && base <= ptr && ptr % ALIGN == 0 && nodeSize > 0
    ensures ptr !in m && Laid(m[ptr := block], nodeSize, base, ptr + RoundUp(Extent(block, nodeSize)))
  {
  }

  lemma LaidAfterStore(m: Memory, nodeSize: nat, base: nat, ptr: nat, a: nat, node: Node)
    requires Laid(m, nodeSize, base, ptr) && IsNode(m, a)
    ensures Laid(m[a := NodeBlock(node)], nodeSize, base, ptr)
  {
  }

  // ----- Trees in memory

  predicate HasText(m: Memory, r: Text, s: string) {
    match r
    case Literal(text) => text == s
    case Stored(at) => at in m && m[at] == TextBlock(s)
  }

  /** The C int behind the unsigned field. */
  function ToSigned(u: nat): int {
    if u < 0x8000_0000 then u else u - 0x1_0000_0000
  }

  function ToUnsigned(v: int): (u: nat)
    ensures u < 0x1_0000_0000 && (v - u) % 0x1_0000_0000 == 0
    ensures -0x8000_0000 <= v < 0x8000_0000 ==> ToSigned(u) == v
  {
    v % 0x1_0000_0000
  }

  predicate IsNode(m: Memory, a: nat) {
    a in m && m[a].NodeBlock?
  }

  function LinkKind(isMap: bool): NodeType {
    if isMap then MapEntry else ArrayElement
  }

  /** The node at a holds the tree: chains run to ascending addresses, and a value was complete
      before it was put in its entry. */
  predicate Represents(m: Memory, a: nat, t: Tree)
    decreases t
  {
    IsNode(m, a) &&
    var n := m[a].node;
    match t
    case Int(v) => n.kind == IntNode && ToSigned(n.integer) == v
    case Str(s) => n.kind == StringNode && HasText(m, n.text, s)
    case Arr(items) => n.kind == ArrayNode && Chained(m, a, n.next, false, items)
    case Map(entries) => n.kind == MapNode && Chained(m, a, n.next, true, entries)
  }

  predicate Chained(m: Memory, prev: nat, e: nat, isMap: bool, c: Chain)
    decreases c
  {
    match c
    case End => e == 0
    case Link(key, value, next) =>
      && prev < e && IsNode(m, e)
      && var n := m[e].node;
      && n.kind == LinkKind(isMap)
      && (if isMap then HasText(m, n.text, key) else n.text == Literal("") && key == "")
      && Represents(m, n.value, value)
      && (forall x :: x in Footprint(m, n.value, value) ==> x < e)
      && Chained(m, e, n.next, isMap, next)
  }

  /** The blocks a tree occupies. */
  function Footprint(m: Memory, a: nat, t: Tree): set<nat>
    decreases t
  {
    if !IsNode(m, a) then {}
    else match t
      case Int(v) => {a}
      case Str(s) => {a} + TextFootprint(m[a].node.text)
      case Arr(items) => {a} + ChainFootprint(m, m[a].node.next, items)
      case Map(entries) => {a} + ChainFootprint(m, m[a].node.next, entries)
  }

  function TextFootprint(r: Text): set<nat> {
    if r.Stored? then {r.at} else {}
  }

  function ChainFootprint(m: Memory, e: nat, c: Chain): set<nat>
    decreases c
  {
    if c.End? || !IsNode(m, e) then {}
    else {e} + TextFootprint(m[e].node.text) + Footprint(m, m[e].node.value, c.value) +
         ChainFootprint(m, m[e].node.next, c.next)
  }

  /** m' still holds the blocks xs of m. */
  predicate Agree(m: Memory, m': Memory, xs: set<nat>) {
    forall x :: x in xs && x in m ==> x in m' && m'[x] == m[x]
  }

  /** A tree depends on its own blocks only. */
  lemma {:induction false} Frame(m: Memory, m': Memory, a: nat, t: Tree)
    requires Represents(m, a, t) && Agree(m, m', Footprint(m, a, t))
    ensures Represents(m', a, t) && Footprint(m', a, t) == Footprint(m, a, t)
    decreases t
  {
    assert a in Footprint(m, a, t);
    if t.Arr? {
      FrameChain(m, m', a, m[a].node.next, false, t.items);
    } else if t.Map? {
      FrameChain(m, m', a, m[a].node.next, true, t.entries);
    }
  }

  lemma {:induction false} FrameChain(m: Memory, m': Memory, prev: nat, e: nat, isMap: bool, c: Chain)
    requires Chained(m, prev, e, isMap, c) && Agree(m, m', ChainFootprint(m, e, c))
    ensures Chained(m', prev, e, isMap, c) && ChainFootprint(m', e, c) == ChainFootprint(m, e, c)
    decreases c
  {
    if c.Link? {
      assert e in ChainFootprint(m, e, c);
      Frame(m, m', m[e].node.value, c.value);
      FrameChain(m, m', e, m[e].node.next, isMap, c.next);
    }
  }

  lemma {:induction false} FootprintAllocated(m: Memory, a: nat, t: Tree)
    requires Represents(m, a, t)
    ensures Footprint(m, a, t) <= m.Keys && a in Footprint(m, a, t)
    decreases t
  {
    if t.Arr? {
      ChainAllocated(m, a, m[a].node.next, false, t.items);
    } else if t.Map? {
      ChainAllocated(m, a, m[a].node.next, true, t.entries);
    }
  }

  lemma {:induction false} ChainAllocated(m: Memory, prev: nat, e: nat, isMap: bool, c: Chain)
    requires Chained(m, prev, e, isMap, c)
    ensures ChainFootprint(m, e, c) <= m.Keys
    decreases c
  {
    if c.Link? {
      FootprintAllocated(m, m[e].node.value, c.value);
      ChainAllocated(m, e, m[e].node.next, isMap, c.next);
    }
  }

  // ----- Appending to a chain

  function Snoc(c: Chain, key: string, value: Tree): Chain {
    match c
    case End => Link(key, value, End)
    case Link(k, v, next) => Link(k, v, Snoc(next, key, value))
  }

  /** The last node of a chain whose head (or previous entry) is prev. */
  function LastOf(m: Memory, prev: nat, e: nat, c: Chain): nat
    decreases c
  {
    if c.End? || !IsNode(m, e) then prev else LastOf(m, e, m[e].node.next, c.next)
  }

  lemma {:induction false} LastIsEnd(m: Memory, prev: nat, e: nat, isMap: bool, c: Chain)
    requires Chained(m, prev, e, isMap, c) && IsNode(m, prev) && m[prev].node.next == e
    ensures var last := LastOf(m, prev, e, c);
            IsNode(m, last) && prev <= last && m[last].node.next == 0 && (c.Link? ==> prev < last)
    decreases c
  {
    if c.Link? {
      LastIsEnd(m, e, m[e].node.next, isMap, c.next);
    }
  }

  /** Memory after linking a new block at x behind the node at last. */
  function Linked(m: Memory, last: nat, x: nat, entry: Node): Memory
    requires IsNode(m, last)
  {
    m[last := NodeBlock(m[last].node.(next := x))][x := NodeBlock(entry)]
  }

  /** No tree that does not hold the last node of the chain, and no text, is affected. */
  lemma OthersUnaffected(m: Memory, last: nat, x: nat, entry: Node, a: nat, t: Tree)
    requires IsNode(m, last) && x !in m && Represents(m, a, t) && last !in Footprint(m, a, t)
    ensures Represents(Linked(m, last, x, entry), a, t)
    ensures Footprint(Linked(m, last, x, entry), a, t) == Footprint(m, a, t)
  {
    FootprintAllocated(m, a, t);
    Frame(m, Linked(m, last, x, entry), a, t);
  }

  /** Linking at the last node appends one entry to this chain. */
  lemma {:induction false} LinkAppends(m: Memory, prev: nat, e: nat, isMap: bool, c: Chain, x: nat, entry: Node,
                                       key: string, value: Tree)
    requires Chained(m, prev, e, isMap, c) && IsNode(m, prev) && m[prev].node.next == e
    requires x > 0 && forall a :: a in m ==> a < x
    requires entry.kind == LinkKind(isMap) && entry.next == 0
    requires if isMap then HasText(m, entry.text, key) else entry.text == Literal("") && key == ""
    requires Represents(m, entry.value, value)
    requires LastOf(m, prev, e, c) !in Footprint(m, entry.value, value)
    requires IsNode(m, LastOf(m, prev, e, c))
    ensures var m' := Linked(m, LastOf(m, prev, e, c), x, entry);
            && Chained(m', prev, m'[prev].node.next, isMap, Snoc(c, key, value))
            && ChainFootprint(m', m'[prev].node.next, Snoc(c, key, value)) ==
               ChainFootprint(m, e, c) + {x} + TextFootprint(entry.text) + Footprint(m, entry.value, value)
    decreases c
  {
    if c.End? {
      LinkFirst(m, prev, isMap, x, entry, key, value);
    } else {
      LastIsEnd(m, e, m[e].node.next, isMap, c.next);
      LinkAppends(m, e, m[e].node.next, isMap, c.next, x, entry, key, value);
      PrependLink(m, LastOf(m, e, m[e].node.next, c.next), prev, e, isMap, c, x, entry, Snoc(c.next, key, value));
    }
  }

  lemma LinkFirst(m: Memory, prev: nat, isMap: bool, x: nat, entry: Node, key: string, value: Tree)
    requires IsNode(m, prev) && x > 0 && forall a :: a in m ==> a < x
    requires entry.kind == LinkKind(isMap) && entry.next == 0
    requires if isMap then HasText(m, entry.text, key) else entry.text == Literal("") && key == ""
    requires Represents(m, entry.value, value) && prev !in Footprint(m, entry.value, value)
    ensures var m' := Linked(m, prev, x, entry);
            && Chained(m', prev, x, isMap, Link(key, value, End))
            && ChainFootprint(m', x, Link(key, value, End)) ==
               {x} + TextFootprint(entry.text) + Footprint(m, entry.value, value)
  {
    OthersUnaffected(m, prev, x, entry, entry.value, value);
    FootprintAllocated(m, entry.value, value);
  }

  /** An earlier link is kept in front of the longer rest. */
  lemma PrependLink(m: Memory, last: nat, prev: nat, e: nat, isMap: bool, c: Chain, x: nat, entry: Node, rest: Chain)
    requires IsNode(m, last) && x !in m && c.Link? && Chained(m, prev, e, isMap, c)
    requires IsNode(m, prev) && m[prev].node.next == e && prev < e <= last
    requires var m' := Linked(m, last, x, entry); Chained(m', e, m'[e].node.next, isMap, rest)
    ensures var m' := Linked(m, last, x, entry);
            && m'[prev].node.next == e && Chained(m', prev, e, isMap, Link(c.key, c.value, rest))
            && ChainFootprint(m', e, Link(c.key, c.value, rest)) ==
               {e} + TextFootprint(m[e].node.text) + Footprint(m, m[e].node.value, c.value) +
               ChainFootprint(m', m'[e].node.next, rest)
  {
    hide Represents, Footprint, Linked, HasText;
    OthersUnaffected(m, last, x, entry, m[e].node.value, c.value);
    OnlyNext(m, last, x, entry, e);
    OnlyNext(m, last, x, entry, prev);
    TextsKept(m, last, x, entry, m[e].node.text, c.key);
  }

  /** Linking changes no field of a node but the last one's next. */
  lemma OnlyNext(m: Memory, last: nat, x: nat, entry: Node, e: nat)
    requires IsNode(m, last) && x !in m && IsNode(m, e)
    ensures var m' := Linked(m, last, x, entry);
            IsNode(m', e) && m'[e].node == if e == last then m[e].node.(next := x) else m[e].node
  {
  }

  lemma TextsKept(m: Memory, last: nat, x: nat, entry: Node, r: Text, s: string)
    requires IsNode(m, last) && x !in m
    ensures HasText(m, r, s) ==> HasText(Linked(m, last, x, entry), r, s)
  {
  }

  /** The first entry of a map or array, whichever it is. */
  function Head(m: Memory, a: nat): nat
    requires IsNode(m, a)
  {
    m[a].node.next
  }

  function Container(isMap: bool, c: Chain): Tree {
    if isMap then Map(c) else Arr(c)
  }

  /** The value is a complete tree that does not hold the last node of the container. */
  predicate Apart(m: Memory, a: nat, c: Chain, value: nat, t: Tree) {
    IsNode(m, a) && Represents(m, value, t) && LastOf(m, a, Head(m, a), c) !in Footprint(m, value, t)
  }

  lemma LastIsNode(m: Memory, a: nat, isMap: bool, c: Chain)
    requires Represents(m, a, Container(isMap, c))
    ensures IsNode(m, LastOf(m, a, Head(m, a), c))
  {
    LastIsEnd(m, a, Head(m, a), isMap, c);
  }

  lemma AppendToContainer(m: Memory, a: nat, isMap: bool, c: Chain, x: nat, entry: Node, key: string, value: Tree)
    requires Represents(m, a, Container(isMap, c))
    requires x > 0 && forall b :: b in m ==> b < x
    requires entry.kind == LinkKind(isMap) && entry.next == 0
    requires if isMap then HasText(m, entry.text, key) else entry.text == Literal("") && key == ""
    requires Apart(m, a, c, entry.value, value)
    ensures IsNode(m, LastOf(m, a, Head(m, a), c))
    ensures var m' := Linked(m, LastOf(m, a, Head(m, a), c), x, entry);
            && Represents(m', a, Container(isMap, Snoc(c, key, value)))
            && Footprint(m', a, Container(isMap, Snoc(c, key, value))) ==
               Footprint(m, a, Container(isMap, c)) + {x} + TextFootprint(entry.text) +
               Footprint(m, entry.value, value)
  {
    hide Represents, Footprint, Chained, ChainFootprint, Linked;
    ContainerIs(m, a, isMap, c);
    LastIsEnd(m, a, Head(m, a), isMap, c);
    var last := LastOf(m, a, Head(m, a), c);
    OnlyNext(m, last, x, entry, a);
    LinkAppends(m, a, Head(m, a), isMap, c, x, entry, key, value);
    ContainerIs(Linked(m, last, x, entry), a, isMap, Snoc(c, key, value));
  }

  /** A container is a head node of its kind and a chain. */
  lemma ContainerIs(m: Memory, a: nat, isMap: bool, c: Chain)
    ensures Represents(m, a, Container(isMap, c)) <==>
            IsNode(m, a) && m[a].node.kind == (if isMap then MapNode else ArrayNode) &&
            Chained(m, a, Head(m, a), isMap, c)
    ensures IsNode(m, a) ==> Footprint(m, a, Container(isMap, c)) == {a} + ChainFootprint(m, Head(m, a), c)
  {
  }
}
