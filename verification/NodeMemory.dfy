/**
 The byte memory the free lists live in. A node is two pointers of eight bytes in the first sixteen
 bytes of its block, so writing a node overwrites whatever else those bytes belonged to.
 */
module NodeMemory {
  import opened Dyadic
  import opened FreeLists

  const WORD: nat := 8
  const NODE_SIZE: nat := 16

  /** One byte: byte `i` of a stored pointer, or a byte a client wrote. */
  datatype Cell = PointerByte(word: int, i: int) | ClientByte(value: int)

  type Memory = map<int, Cell>

  /** Byte `x` is one of the eight bytes of a pointer at `a`. */
  predicate InWord(a: int, x: int)
  {
    a <= x < a + WORD
  }

  function StoreWord(mem: Memory, a: int, w: int): Memory
  {
    mem + (map x | a <= x < a + WORD && InWord(a, x) :: PointerByte(w, x - a))
  }

  function LoadWord(mem: Memory, a: int): int
  {
    if a in mem && mem[a].PointerByte? then mem[a].word else 0
  }

  /** The eight bytes at `a` are the bytes of one pointer. */
  ghost predicate HasWord(mem: Memory, a: int)
  {
    forall x :: InWord(a, x) ==> x in mem && mem[x] == PointerByte(LoadWord(mem, a), x - a)
  }

  ghost predicate HasNode(mem: Memory, a: int)
  {
    HasWord(mem, a) && HasWord(mem, a + WORD)
  }

  ghost function LoadNode(mem: Memory, a: int): FreeNode
  {
    FreeNode(LoadWord(mem, a), LoadWord(mem, a + WORD))
  }

  /** Byte `x` is one of the bytes of a node at `a`. */
  predicate InNode(a: int, x: int)
  {
    a <= x < a + NODE_SIZE
  }

  /** Two nodes share no byte. */
  predicate Far(a: int, b: int)
  {
    a + NODE_SIZE <= b || b + NODE_SIZE <= a
  }

  predicate SameByte(mem: Memory, mem': Memory, x: int)
  {
    (x in mem <==> x in mem') && (x in mem ==> mem'[x] == mem[x])
  }

  lemma WordStored(mem: Memory, a: int, w: int)
    ensures HasWord(StoreWord(mem, a, w), a) && LoadWord(StoreWord(mem, a, w), a) == w
    ensures forall x :: !InWord(a, x) ==> SameByte(mem, StoreWord(mem, a, w), x)
  {
    assert InWord(a, a);
  }

  lemma WordKept(mem: Memory, mem': Memory, a: int)
    requires forall x :: InWord(a, x) ==> SameByte(mem, mem', x)
    ensures HasWord(mem, a) <==> HasWord(mem', a)
    ensures LoadWord(mem, a) == LoadWord(mem', a)
  {
    assert InWord(a, a);
    if HasWord(mem, a) {
      forall x | InWord(a, x) ensures x in mem' && mem'[x] == PointerByte(LoadWord(mem, a), x - a) {
      }
    }
    if HasWord(mem', a) {
      forall x | InWord(a, x) ensures x in mem && mem[x] == PointerByte(LoadWord(mem, a), x - a) {
      }
    }
  }

  /** A node is kept by whatever leaves its sixteen bytes alone. */
  lemma NodeKept(mem: Memory, mem': Memory, a: int)
    requires forall x :: InNode(a, x) ==> SameByte(mem, mem', x)
    ensures HasNode(mem, a) <==> HasNode(mem', a)
    ensures LoadNode(mem, a) == LoadNode(mem', a)
  {
    assert forall x :: InWord(a, x) ==> InNode(a, x);
    assert forall x :: InWord(a + WORD, x) ==> InNode(a, x);
    WordKept(mem, mem', a);
    WordKept(mem, mem', a + WORD);
  }

  function SetNext(mem: Memory, a: int, next: int): Memory
  {
    StoreWord(mem, a, next)
  }

  function SetPrev(mem: Memory, a: int, prev: int): Memory
  {
    StoreWord(mem, a + WORD, prev)
  }

  lemma NextSet(mem: Memory, a: int, next: int)
    ensures forall x :: !InNode(a, x) ==> SameByte(mem, SetNext(mem, a, next), x)
    ensures HasWord(mem, a + WORD) ==> HasNode(SetNext(mem, a, next), a)
    ensures LoadNode(SetNext(mem, a, next), a) == FreeNode(next, LoadWord(mem, a + WORD))
  {
    WordStored(mem, a, next);
    WordKept(mem, SetNext(mem, a, next), a + WORD);
  }

  lemma PrevSet(mem: Memory, a: int, prev: int)
    ensures forall x :: !InNode(a, x) ==> SameByte(mem, SetPrev(mem, a, prev), x)
    ensures HasWord(mem, a) ==> HasNode(SetPrev(mem, a, prev), a)
    ensures LoadNode(SetPrev(mem, a, prev), a) == FreeNode(LoadWord(mem, a), prev)
  {
    WordStored(mem, a + WORD, prev);
    WordKept(mem, SetPrev(mem, a, prev), a);
  }

  function StoreNode(mem: Memory, a: int, next: int, prev: int): Memory
  {
    SetPrev(SetNext(mem, a, next), a, prev)
  }

  lemma NodeStored(mem: Memory, a: int, next: int, prev: int)
    ensures HasNode(StoreNode(mem, a, next, prev), a) && LoadNode(StoreNode(mem, a, next, prev), a) == FreeNode(next, prev)
    ensures forall x :: !InNode(a, x) ==> SameByte(mem, StoreNode(mem, a, next, prev), x)
  {
    WordStored(mem, a, next);
    PrevSet(SetNext(mem, a, next), a, prev);
    NextSet(mem, a, next);
  }

  // ---- lists laid out in memory ----

  /** No two nodes on the lists share a byte. */
  ghost predicate Spaced(lists: seq<seq<int>>)
  {
    forall a, b :: Listed(lists, a) && Listed(lists, b) && a != b ==> Far(a, b)
  }

  /** A node at `n` shares no byte with a node on the lists. */
  ghost predicate Roomy(lists: seq<seq<int>>, n: int)
  {
    forall a :: Listed(lists, a) ==> Far(a, n)
  }

  ghost function Addresses(lists: seq<seq<int>>): set<int>
  {
    set k, i | 0 <= k < |lists| && 0 <= i < |lists[k]| :: lists[k][i]
  }

  lemma ListedIsAddress(lists: seq<seq<int>>, a: int)
    ensures a in Addresses(lists) <==> Listed(lists, a)
  {
    if Listed(lists, a) {
      var k :| 0 <= k < |lists| && a in lists[k];
      var i :| 0 <= i < |lists[k]| && lists[k][i] == a;
    }
  }

  /** The nodes on the lists, as memory holds them. */
  ghost function NodesOf(mem: Memory, lists: seq<seq<int>>): Nodes
  {
    map a | a in Addresses(lists) :: LoadNode(mem, a)
  }

  /** What memory holding lists amounts to: nodes apart, nodes whole, nodes linked. */
  datatype Demand = NodesApart | NodesWhole | NodesLinked

  ghost predicate Meets(mem: Memory, heads: seq<int>, lists: seq<seq<int>>, d: Demand)
  {
    match d
    case NodesApart => Spaced(lists)
    case NodesWhole => forall a :: Listed(lists, a) ==> HasNode(mem, a)
    case NodesLinked => AllLinked(NodesOf(mem, lists), heads, lists)
  }

  /** Memory holds the lists, every node whole and apart from the others. */
  ghost predicate Laid(mem: Memory, heads: seq<int>, lists: seq<seq<int>>)
  {
    |heads| == |lists| == MAX_ORDER + 1 && forall d: Demand :: Meets(mem, heads, lists, d)
  }

  lemma LaidParts(mem: Memory, heads: seq<int>, lists: seq<seq<int>>)
    requires Laid(mem, heads, lists)
    ensures Spaced(lists) && AllDistinct(lists) && AllLinked(NodesOf(mem, lists), heads, lists)
    ensures forall a :: Listed(lists, a) ==> HasNode(mem, a)
  {
    assert Meets(mem, heads, lists, NodesApart) && Meets(mem, heads, lists, NodesWhole) && Meets(mem, heads, lists, NodesLinked);
  }

  /** `mem` shows the given nodes at the addresses on the lists. */
  ghost predicate Shows(mem: Memory, nodes: Nodes, lists: seq<seq<int>>)
  {
    forall a :: Listed(lists, a) ==> HasNode(mem, a) && a in nodes && LoadNode(mem, a) == nodes[a]
  }

  lemma ShowsOwn(mem: Memory, heads: seq<int>, lists: seq<seq<int>>)
    requires Laid(mem, heads, lists)
    ensures Spaced(lists) && AllLinked(NodesOf(mem, lists), heads, lists) && Shows(mem, NodesOf(mem, lists), lists)
  {
    LaidParts(mem, heads, lists);
    forall a | Listed(lists, a) ensures a in NodesOf(mem, lists) { ListedIsAddress(lists, a); }
  }

  /** Showing linked nodes lays the lists out. */
  lemma LaidOut(mem: Memory, nodes: Nodes, heads: seq<int>, lists: seq<seq<int>>)
    requires Spaced(lists) && Shows(mem, nodes, lists) && AllLinked(nodes, heads, lists)
    ensures Laid(mem, heads, lists)
  {
    forall a | Listed(lists, a) ensures a in NodesOf(mem, lists) && NodesOf(mem, lists)[a] == nodes[a] {
      ListedIsAddress(lists, a);
    }
    SameListed(nodes, NodesOf(mem, lists), heads, lists);
    forall d: Demand ensures Meets(mem, heads, lists, d) {
      match d
      case NodesApart =>
      case NodesWhole =>
      case NodesLinked =>
    }
  }

  /** One byte of memory as the list operations see it. */
  ghost predicate InListed(lists: seq<seq<int>>, x: int)
  {
    exists a :: Listed(lists, a) && InNode(a, x)
  }

  /** Memory is unchanged except in the node at `node` and in nodes on the given lists. */
  ghost predicate OnlyNodes(lists: seq<seq<int>>, node: int, mem: Memory, mem': Memory)
  {
    forall x :: !InNode(node, x) && !InListed(lists, x) ==> SameByte(mem, mem', x)
  }

  /** Bytes outside every listed node do not matter to the lists. */
  lemma LaidKept(mem: Memory, mem': Memory, heads: seq<int>, lists: seq<seq<int>>)
    requires Laid(mem, heads, lists) && forall x :: InListed(lists, x) ==> SameByte(mem, mem', x)
    ensures Laid(mem', heads, lists)
  {
    LaidParts(mem, heads, lists);
    forall a | Listed(lists, a) ensures HasNode(mem', a) && LoadNode(mem', a) == LoadNode(mem, a) {
      assert forall x :: InNode(a, x) ==> InListed(lists, x);
      NodeKept(mem, mem', a);
    }
    ShowsOwn(mem, heads, lists);
    LaidOut(mem', NodesOf(mem, lists), heads, lists);
  }

  /** Writing one listed node changes that node alone. */
  lemma OneNode(mem: Memory, mem': Memory, nodes: Nodes, lists: seq<seq<int>>, n: int)
    requires Shows(mem, nodes, lists) && (Roomy(lists, n) || (Spaced(lists) && Listed(lists, n)))
    requires forall x :: !InNode(n, x) ==> SameByte(mem, mem', x)
    requires HasNode(mem', n)
    ensures Shows(mem', nodes[n := LoadNode(mem', n)], lists)
  {
    forall a | Listed(lists, a) && a != n ensures HasNode(mem', a) && LoadNode(mem', a) == nodes[a] {
      assert Far(a, n);
      NodeKept(mem, mem', a);
    }
  }

  // ---- the list operations on bytes ----

  /** Memory after linking `node` in front of the list at `head`. */
  function PushBytes(mem: Memory, head: int, node: int): Memory
  {
    var m := StoreNode(mem, node, head, 0);
    if head != 0 then SetPrev(m, head, node) else m
  }

  /** Memory after popping the head of a list. */
  function PopBytes(mem: Memory, head: int): Memory
  {
    var next := LoadWord(mem, head);
    if next != 0 then SetPrev(mem, next, 0) else mem
  }

  /** Memory after joining the neighbours of a node, either of which may be null. */
  function JoinBytes(mem: Memory, prev: int, next: int): Memory
  {
    var m := if prev != 0 then SetNext(mem, prev, next) else mem;
    if next != 0 then SetPrev(m, next, prev) else m
  }

  /** Memory after unlinking `node`. */
  function UnlinkBytes(mem: Memory, node: int): Memory
  {
    StoreNode(JoinBytes(mem, LoadWord(mem, node + WORD), LoadWord(mem, node)), node, 0, 0)
  }

  lemma SpacedAfterPush(lists: seq<seq<int>>, order: nat, node: int)
    requires order < |lists| && Spaced(lists) && Roomy(lists, node)
    ensures Spaced(lists[order := [node] + lists[order]])
  {
    ListedAfterPush(lists, order, node);
    var lists' := lists[order := [node] + lists[order]];
    forall a, b | Listed(lists', a) && Listed(lists', b) && a != b ensures Far(a, b) {
      assert a != node ==> Listed(lists, a);
      assert b != node ==> Listed(lists, b);
    }
  }

  /** Only bytes of listed nodes differ. */
  ghost predicate WithinNodes(lists: seq<seq<int>>, mem: Memory, mem': Memory)
  {
    forall x :: !InListed(lists, x) ==> SameByte(mem, mem', x)
  }

  lemma WithinListed(lists: seq<seq<int>>, n: int, mem: Memory, mem': Memory)
    requires Listed(lists, n) && forall x :: !InNode(n, x) ==> SameByte(mem, mem', x)
    ensures WithinNodes(lists, mem, mem')
  {
    assert forall x :: InNode(n, x) ==> InListed(lists, x);
  }

  lemma WithinTrans(lists: seq<seq<int>>, a: Memory, b: Memory, c: Memory)
    requires WithinNodes(lists, a, b) && WithinNodes(lists, b, c)
    ensures WithinNodes(lists, a, c)
  {
    forall x | !InListed(lists, x) ensures SameByte(a, c, x) {
      assert SameByte(a, b, x) && SameByte(b, c, x);
    }
  }

  lemma WritePrev(mem: Memory, nodes: Nodes, lists: seq<seq<int>>, n: int, prev: int)
    requires Spaced(lists) && Shows(mem, nodes, lists) && Listed(lists, n)
    ensures Shows(SetPrev(mem, n, prev), nodes[n := FreeNode(nodes[n].next, prev)], lists)
    ensures WithinNodes(lists, mem, SetPrev(mem, n, prev))
  {
    PrevSet(mem, n, prev);
    OneNode(mem, SetPrev(mem, n, prev), nodes, lists, n);
    WithinListed(lists, n, mem, SetPrev(mem, n, prev));
  }

  lemma WriteNext(mem: Memory, nodes: Nodes, lists: seq<seq<int>>, n: int, next: int)
    requires Spaced(lists) && Shows(mem, nodes, lists) && Listed(lists, n)
    ensures Shows(SetNext(mem, n, next), nodes[n := FreeNode(next, nodes[n].prev)], lists)
    ensures WithinNodes(lists, mem, SetNext(mem, n, next))
  {
    NextSet(mem, n, next);
    OneNode(mem, SetNext(mem, n, next), nodes, lists, n);
    WithinListed(lists, n, mem, SetNext(mem, n, next));
  }

  /** A fresh node joins what is shown. */
  lemma WriteFresh(mem: Memory, nodes: Nodes, lists: seq<seq<int>>, order: nat, node: int, head: int)
    requires Shows(mem, nodes, lists) && order < |lists| && Roomy(lists, node)
    ensures Shows(StoreNode(mem, node, head, 0), nodes[node := FreeNode(head, 0)], lists[order := [node] + lists[order]])
    ensures WithinNodes(lists[order := [node] + lists[order]], mem, StoreNode(mem, node, head, 0))
  {
    var lists' := lists[order := [node] + lists[order]];
    ListedAfterPush(lists, order, node);
    NodeStored(mem, node, head, 0);
    OneNode(mem, StoreNode(mem, node, head, 0), nodes, lists, node);
    WithinListed(lists', node, mem, StoreNode(mem, node, head, 0));
  }

  lemma PushWithin(lists: seq<seq<int>>, order: nat, node: int, mem: Memory, mem': Memory)
    requires order < |lists| && WithinNodes(lists[order := [node] + lists[order]], mem, mem')
    ensures OnlyNodes(lists, node, mem, mem')
  {
    ListedAfterPush(lists, order, node);
  }

  lemma PushLaid(mem: Memory, heads: seq<int>, lists: seq<seq<int>>, order: nat, node: int)
    requires Laid(mem, heads, lists) && order <= MAX_ORDER && node != 0 && Roomy(lists, node)
    ensures Laid(PushBytes(mem, heads[order], node), heads[order := node], lists[order := [node] + lists[order]])
    ensures OnlyNodes(lists, node, mem, PushBytes(mem, heads[order], node))
  {
    var nodes, head, lists' := NodesOf(mem, lists), heads[order], lists[order := [node] + lists[order]];
    ShowsOwn(mem, heads, lists);
    assert !Listed(lists, node);
    PushAll(nodes, heads, lists, order, node);
    SpacedAfterPush(lists, order, node);
    PushShown(mem, nodes, heads, lists, order, node);
    PushWithin(lists, order, node, mem, PushBytes(mem, head, node));
    LaidOut(PushBytes(mem, head, node), Pushed(nodes, head, node), heads[order := node], lists');
  }

  lemma PushShown(mem: Memory, nodes: Nodes, heads: seq<int>, lists: seq<seq<int>>, order: nat, node: int)
    requires Shows(mem, nodes, lists) && AllLinked(nodes, heads, lists) && order <= MAX_ORDER && Roomy(lists, node)
    requires Spaced(lists[order := [node] + lists[order]])
    ensures Shows(PushBytes(mem, heads[order], node), Pushed(nodes, heads[order], node), lists[order := [node] + lists[order]])
    ensures WithinNodes(lists[order := [node] + lists[order]], mem, PushBytes(mem, heads[order], node))
  {
    var head, lists' := heads[order], lists[order := [node] + lists[order]];
    WriteFresh(mem, nodes, lists, order, node, head);
    if head != 0 {
      assert lists'[order][1] == head && Listed(lists', head);
      assert Listed(lists, head);
      var m := StoreNode(mem, node, head, 0);
      WritePrev(m, nodes[node := FreeNode(head, 0)], lists', head, node);
      WithinTrans(lists', mem, m, SetPrev(m, head, node));
    }
  }

  /** A list without one of its nodes is still laid out apart, and what is shown of it is still shown. */
  lemma FewerShown(mem: Memory, nodes: Nodes, lists: seq<seq<int>>, lists': seq<seq<int>>)
    requires Spaced(lists) && Shows(mem, nodes, lists) && forall a :: Listed(lists', a) ==> Listed(lists, a)
    ensures Spaced(lists') && Shows(mem, nodes, lists')
  {
  }

  lemma PopLaid(mem: Memory, heads: seq<int>, lists: seq<seq<int>>, order: nat)
    requires Laid(mem, heads, lists) && order <= MAX_ORDER && lists[order] != []
    ensures heads[order] == lists[order][0] && LoadWord(mem, heads[order]) == At(lists[order], 1)
    ensures Laid(PopBytes(mem, heads[order]), heads[order := LoadWord(mem, heads[order])], lists[order := lists[order][1..]])
    ensures WithinNodes(lists, mem, PopBytes(mem, heads[order]))
    ensures Blocks(lists[order := lists[order][1..]]) == Blocks(lists) - {Block(heads[order], order)}
  {
    ShowsOwn(mem, heads, lists);
    PopBlocks(lists, order);
    PopLaidBy(mem, NodesOf(mem, lists), heads, lists, order);
  }

  lemma PopBlocks(lists: seq<seq<int>>, order: nat)
    requires order < |lists| && lists[order] != [] && AllDistinct(lists)
    ensures Blocks(lists[order := lists[order][1..]]) == Blocks(lists) - {Block(lists[order][0], order)}
  {
    UnlinkBlocks(lists, order, 0);
    assert lists[order][..0] + lists[order][1..] == lists[order][1..];
  }

  lemma PopLaidBy(mem: Memory, nodes: Nodes, heads: seq<int>, lists: seq<seq<int>>, order: nat)
    requires Spaced(lists) && Shows(mem, nodes, lists) && AllLinked(nodes, heads, lists) && order <= MAX_ORDER && lists[order] != []
    ensures heads[order] == lists[order][0] && LoadWord(mem, heads[order]) == At(lists[order], 1)
    ensures Laid(PopBytes(mem, heads[order]), heads[order := LoadWord(mem, heads[order])], lists[order := lists[order][1..]])
    ensures WithinNodes(lists, mem, PopBytes(mem, heads[order]))
  {
    var head, l := heads[order], lists[order];
    PopShown(mem, nodes, heads, lists, order);
    PopAll(nodes, heads, lists, order);
    TailListed(lists, order);
    FewerShown(PopBytes(mem, head), Popped(nodes, head), lists, lists[order := l[1..]]);
    LaidOut(PopBytes(mem, head), Popped(nodes, head), heads[order := LoadWord(mem, head)], lists[order := l[1..]]);
  }

  lemma TailListed(lists: seq<seq<int>>, order: nat)
    requires order < |lists| && lists[order] != []
    ensures forall a :: Listed(lists[order := lists[order][1..]], a) ==> Listed(lists, a)
  {
    var lists' := lists[order := lists[order][1..]];
    forall a | Listed(lists', a) ensures Listed(lists, a) {
      var k :| 0 <= k < |lists'| && a in lists'[k];
      assert a in lists[k];
    }
  }

  lemma PopShown(mem: Memory, nodes: Nodes, heads: seq<int>, lists: seq<seq<int>>, order: nat)
    requires Spaced(lists) && Shows(mem, nodes, lists) && AllLinked(nodes, heads, lists) && order <= MAX_ORDER && lists[order] != []
    ensures heads[order] in nodes && LoadWord(mem, heads[order]) == nodes[heads[order]].next == At(lists[order], 1)
    ensures Shows(PopBytes(mem, heads[order]), Popped(nodes, heads[order]), lists)
    ensures WithinNodes(lists, mem, PopBytes(mem, heads[order]))
  {
    var l := lists[order];
    var head, next := l[0], At(l, 1);
    assert Linked(nodes, heads[order], l) && NodeAt(nodes, l, 0);
    assert Listed(lists, head);
    assert LoadNode(mem, head) == nodes[head];
    if next != 0 {
      assert next in l && Listed(lists, next);
      WritePrev(mem, nodes, lists, next, 0);
    }
  }

  lemma UnlinkLaid(mem: Memory, heads: seq<int>, lists: seq<seq<int>>, order: nat, i: nat)
    requires Laid(mem, heads, lists) && order <= MAX_ORDER && i < |lists[order]|
    ensures var l := lists[order];
            && LoadNode(mem, l[i]) == FreeNode(At(l, i + 1), At(l, i - 1))
            && Laid(UnlinkBytes(mem, l[i]), heads[order := if i == 0 then At(l, 1) else heads[order]], lists[order := l[..i] + l[i + 1..]])
            && WithinNodes(lists, mem, UnlinkBytes(mem, l[i]))
            && Blocks(lists[order := l[..i] + l[i + 1..]]) == Blocks(lists) - {Block(l[i], order)}
  {
    ShowsOwn(mem, heads, lists);
    UnlinkBlocks(lists, order, i);
    UnlinkLaidBy(mem, NodesOf(mem, lists), heads, lists, order, i);
  }

  lemma UnlinkLaidBy(mem: Memory, nodes: Nodes, heads: seq<int>, lists: seq<seq<int>>, order: nat, i: nat)
    requires Spaced(lists) && Shows(mem, nodes, lists) && AllLinked(nodes, heads, lists) && order <= MAX_ORDER && i < |lists[order]|
    ensures var l := lists[order];
            && LoadNode(mem, l[i]) == FreeNode(At(l, i + 1), At(l, i - 1))
            && Laid(UnlinkBytes(mem, l[i]), heads[order := if i == 0 then At(l, 1) else heads[order]], lists[order := l[..i] + l[i + 1..]])
            && WithinNodes(lists, mem, UnlinkBytes(mem, l[i]))
  {
    var l := lists[order];
    var node, lists' := l[i], lists[order := l[..i] + l[i + 1..]];
    UnlinkAll(nodes, heads, lists, order, i);
    ListedAfterUnlink(lists, order, i);
    UnlinkShown(mem, nodes, heads, lists, order, i);
    FewerShown(UnlinkBytes(mem, node), Unlinked(nodes, node), lists, lists');
    LaidOut(UnlinkBytes(mem, node), Unlinked(nodes, node), heads[order := if i == 0 then At(l, 1) else heads[order]], lists');
  }

  /** Clearing a listed node. */
  lemma WriteNulls(mem: Memory, nodes: Nodes, lists: seq<seq<int>>, n: int)
    requires Spaced(lists) && Shows(mem, nodes, lists) && Listed(lists, n)
    ensures Shows(StoreNode(mem, n, 0, 0), nodes[n := FreeNode(0, 0)], lists)
    ensures WithinNodes(lists, mem, StoreNode(mem, n, 0, 0))
  {
    NodeStored(mem, n, 0, 0);
    OneNode(mem, StoreNode(mem, n, 0, 0), nodes, lists, n);
    WithinListed(lists, n, mem, StoreNode(mem, n, 0, 0));
  }

  function Joined(nodes: Nodes, prev: int, next: int): Nodes
  {
    var n := if prev != 0 && prev in nodes then nodes[prev := FreeNode(next, nodes[prev].prev)] else nodes;
    if next != 0 && next in n then n[next := FreeNode(n[next].next, prev)] else n
  }

  lemma WriteJoin(mem: Memory, nodes: Nodes, lists: seq<seq<int>>, prev: int, next: int)
    requires Spaced(lists) && Shows(mem, nodes, lists) && (prev != 0 ==> Listed(lists, prev)) && (next != 0 ==> Listed(lists, next))
    ensures Shows(JoinBytes(mem, prev, next), Joined(nodes, prev, next), lists)
    ensures WithinNodes(lists, mem, JoinBytes(mem, prev, next))
  {
    var m := if prev != 0 then SetNext(mem, prev, next) else mem;
    var n := if prev != 0 then nodes[prev := FreeNode(next, nodes[prev].prev)] else nodes;
    if prev != 0 {
      WriteNext(mem, nodes, lists, prev, next);
    }
    if next != 0 {
      WritePrev(m, n, lists, next, prev);
      WithinTrans(lists, mem, m, SetPrev(m, next, prev));
    }
  }

  lemma NodeOnList(nodes: Nodes, heads: seq<int>, lists: seq<seq<int>>, order: nat, i: nat)
    requires AllLinked(nodes, heads, lists) && order <= MAX_ORDER && i < |lists[order]|
    ensures var l := lists[order];
            && Listed(lists, l[i]) && l[i] in nodes && nodes[l[i]] == FreeNode(At(l, i + 1), At(l, i - 1))
            && (At(l, i - 1) != 0 ==> Listed(lists, At(l, i - 1)))
            && (At(l, i + 1) != 0 ==> Listed(lists, At(l, i + 1)))
  {
    var l := lists[order];
    assert Linked(nodes, heads[order], l) && NodeAt(nodes, l, i);
    assert At(l, i - 1) != 0 ==> At(l, i - 1) in l;
    assert At(l, i + 1) != 0 ==> At(l, i + 1) in l;
  }

  lemma UnlinkShown(mem: Memory, nodes: Nodes, heads: seq<int>, lists: seq<seq<int>>, order: nat, i: nat)
    requires Spaced(lists) && Shows(mem, nodes, lists) && AllLinked(nodes, heads, lists) && order <= MAX_ORDER && i < |lists[order]|
    ensures lists[order][i] in nodes && Shows(UnlinkBytes(mem, lists[order][i]), Unlinked(nodes, lists[order][i]), lists)
    ensures LoadNode(mem, lists[order][i]) == FreeNode(At(lists[order], i + 1), At(lists[order], i - 1))
    ensures WithinNodes(lists, mem, UnlinkBytes(mem, lists[order][i]))
  {
    NodeOnList(nodes, heads, lists, order, i);
    UnlinkNode(mem, nodes, lists, lists[order][i]);
  }

  lemma UnlinkNode(mem: Memory, nodes: Nodes, lists: seq<seq<int>>, node: int)
    requires Spaced(lists) && Shows(mem, nodes, lists) && Listed(lists, node)
    requires nodes[node].prev != 0 ==> Listed(lists, nodes[node].prev)
    requires nodes[node].next != 0 ==> Listed(lists, nodes[node].next)
    ensures Shows(UnlinkBytes(mem, node), Unlinked(nodes, node), lists)
    ensures LoadNode(mem, node) == nodes[node]
    ensures WithinNodes(lists, mem, UnlinkBytes(mem, node))
  {
    var prev, next := nodes[node].prev, nodes[node].next;
    assert LoadNode(mem, node) == nodes[node];
    WriteJoin(mem, nodes, lists, prev, next);
    WriteNulls(JoinBytes(mem, prev, next), Joined(nodes, prev, next), lists, node);
    WithinTrans(lists, mem, JoinBytes(mem, prev, next), UnlinkBytes(mem, node));
  }

  // ---- reading the lists ----

  /** The node at position `i` of a list holds its neighbours. */
  lemma NodeRead(mem: Memory, heads: seq<int>, lists: seq<seq<int>>, order: nat, i: nat)
    requires Laid(mem, heads, lists) && order <= MAX_ORDER && i < |lists[order]|
    ensures LoadNode(mem, lists[order][i]) == FreeNode(At(lists[order], i + 1), At(lists[order], i - 1))
  {
    ShowsOwn(mem, heads, lists);
    NodeOnList(NodesOf(mem, lists), heads, lists, order, i);
  }

  /** The head is the first node, null exactly for an empty list. */
  lemma HeadIsNull(mem: Memory, heads: seq<int>, lists: seq<seq<int>>, order: nat)
    requires Laid(mem, heads, lists) && order <= MAX_ORDER
    ensures heads[order] == At(lists[order], 0) && (heads[order] == 0 <==> lists[order] == []) && 0 !in lists[order]
  {
    LaidParts(mem, heads, lists);
    assert Linked(NodesOf(mem, lists), heads[order], lists[order]);
  }

  /** Only the first node has no predecessor. */
  lemma PrevIsNull(mem: Memory, heads: seq<int>, lists: seq<seq<int>>, order: nat, i: nat)
    requires Laid(mem, heads, lists) && order <= MAX_ORDER && i < |lists[order]|
    ensures At(lists[order], i - 1) == 0 <==> i == 0
  {
    LaidParts(mem, heads, lists);
    assert Linked(NodesOf(mem, lists), heads[order], lists[order]);
  }

  /** An unlinked node has its bytes to itself. */
  lemma UnlinkedRoomy(mem: Memory, heads: seq<int>, lists: seq<seq<int>>, order: nat, i: nat)
    requires Laid(mem, heads, lists) && order <= MAX_ORDER && i < |lists[order]|
    ensures var l := lists[order];
            && Listed(lists, l[i]) && Roomy(lists[order := l[..i] + l[i + 1..]], l[i])
            && forall a :: Listed(lists[order := l[..i] + l[i + 1..]], a) ==> Listed(lists, a)
  {
    LaidParts(mem, heads, lists);
    SpacedRoomy(lists, order, i);
  }

  lemma SpacedRoomy(lists: seq<seq<int>>, order: nat, i: nat)
    requires order < |lists| && i < |lists[order]| && Spaced(lists) && AllDistinct(lists)
    ensures var l := lists[order];
            && Listed(lists, l[i]) && Roomy(lists[order := l[..i] + l[i + 1..]], l[i])
            && forall a :: Listed(lists[order := l[..i] + l[i + 1..]], a) ==> Listed(lists, a)
  {
    ListedAfterUnlink(lists, order, i);
    assert Listed(lists, lists[order][i]);
  }

  lemma RoomyBytes(lists: seq<seq<int>>, n: int)
    requires Roomy(lists, n)
    ensures forall x :: InListed(lists, x) ==> !InNode(n, x)
  {
  }
}
