/**
 Intrusive doubly linked free lists: what it means for the node memory to hold given
 lists of addresses, and how pushing and unlinking one node changes them.
 */
module FreeLists {
  import opened Dyadic

  /** The two pointers kept in the first 16 bytes of a free block; 0 is the null pointer. */
  datatype FreeNode = FreeNode(next: int, prev: int)

  /** Nodes by address; `NodeMemory` lays them out in bytes. */
  type Nodes = map<int, FreeNode>

  ghost function At(l: seq<int>, i: int): int
  {
    if 0 <= i < |l| then l[i] else 0
  }

  /** Memory holds `l` as a doubly linked list starting at `head`. */
  ghost predicate Linked(mem: Nodes, head: int, l: seq<int>)
  {
    && head == At(l, 0)
    && (forall i :: 0 <= i < |l| ==> l[i] != 0 && l[i] in mem)
    && (forall i :: 0 <= i < |l| ==> NodeAt(mem, l, i))
  }

  /** The node at position `i` holds its neighbours. */
  ghost predicate NodeAt(mem: Nodes, l: seq<int>, i: int)
  {
    0 <= i < |l| && l[i] in mem && mem[l[i]] == FreeNode(At(l, i + 1), At(l, i - 1))
  }

  /** No address occurs twice, in one list or in two. */
  ghost predicate AllDistinct(lists: seq<seq<int>>)
  {
    forall k, k', i, i' ::
      0 <= k < |lists| && 0 <= k' < |lists| && 0 <= i < |lists[k]| && 0 <= i' < |lists[k']| && lists[k][i] == lists[k'][i']
      ==> k == k' && i == i'
  }

  ghost predicate AllLinked(mem: Nodes, heads: seq<int>, lists: seq<seq<int>>)
  {
    && |heads| == |lists| == MAX_ORDER + 1
    && AllDistinct(lists)
    && (forall k :: 0 <= k < |lists| ==> Linked(mem, heads[k], lists[k]))
  }

  ghost predicate Listed(lists: seq<seq<int>>, a: int)
  {
    exists k :: 0 <= k < |lists| && a in lists[k]
  }

  lemma ListedAfterPush(lists: seq<seq<int>>, order: nat, node: int)
    requires order < |lists|
    ensures forall a :: Listed(lists[order := [node] + lists[order]], a) <==> a == node || Listed(lists, a)
  {
    var lists' := lists[order := [node] + lists[order]];
    forall a ensures Listed(lists', a) <==> a == node || Listed(lists, a) {
      assert forall k :: 0 <= k < |lists| ==> (a in lists'[k] <==> a in lists[k] || (k == order && a == node));
      assert node in lists'[order];
    }
  }

  lemma ListedAfterUnlink(lists: seq<seq<int>>, order: nat, i: nat)
    requires order < |lists| && i < |lists[order]| && AllDistinct(lists)
    ensures forall a :: Listed(lists[order := lists[order][..i] + lists[order][i + 1..]], a) <==> a != lists[order][i] && Listed(lists, a)
  {
    var l := lists[order];
    var lists' := lists[order := l[..i] + l[i + 1..]];
    assert l == l[..i] + [l[i]] + l[i + 1..];
    forall a ensures Listed(lists', a) <==> a != l[i] && Listed(lists, a) {
      assert forall k :: 0 <= k < |lists| ==> (a in lists'[k] <==> a in lists[k] && a != l[i]);
    }
  }

  /** The blocks on the lists: list `k` holds the blocks of order `k`. */
  ghost function Blocks(lists: seq<seq<int>>): set<Block>
  {
    set k, i | 0 <= k < |lists| && 0 <= i < |lists[k]| :: Block(lists[k][i], k)
  }

  lemma BlocksHas(lists: seq<seq<int>>, b: Block)
    ensures b in Blocks(lists) <==> b.order < |lists| && b.addr in lists[b.order]
  {
    if b.order < |lists| && b.addr in lists[b.order] {
      var i :| 0 <= i < |lists[b.order]| && lists[b.order][i] == b.addr;
    }
  }

  /** Memory after linking `node` in front of the list at `head`. */
  function Pushed(mem: Nodes, head: int, node: int): Nodes
  {
    var m := mem[node := FreeNode(head, 0)];
    if head != 0 && head in m then m[head := FreeNode(m[head].next, node)] else m
  }

  /** Memory after unlinking `node`. */
  function Unlinked(mem: Nodes, node: int): Nodes
    requires node in mem
  {
    var prev, next := mem[node].prev, mem[node].next;
    var m := if prev != 0 && prev in mem then mem[prev := FreeNode(next, mem[prev].prev)] else mem;
    var m' := if next != 0 && next in m then m[next := FreeNode(m[next].next, prev)] else m;
    m'[node := FreeNode(0, 0)]
  }

  lemma LinkedKept(mem: Nodes, mem': Nodes, head: int, l: seq<int>)
    requires Linked(mem, head, l) && forall i :: 0 <= i < |l| ==> l[i] in mem' && mem'[l[i]] == mem[l[i]]
    ensures Linked(mem', head, l)
  {
    forall i | 0 <= i < |l| ensures NodeAt(mem', l, i) {
      assert NodeAt(mem, l, i);
    }
  }

  lemma PushLinked(mem: Nodes, head: int, l: seq<int>, node: int)
    requires Linked(mem, head, l) && node != 0 && node !in l
    requires forall i, j :: 0 <= i < j < |l| ==> l[i] != l[j]
    ensures Linked(Pushed(mem, head, node), node, [node] + l)
  {
    var m, l' := Pushed(mem, head, node), [node] + l;
    forall i | 0 <= i < |l'| ensures NodeAt(m, l', i) {
      if i > 0 {
        assert NodeAt(mem, l, i - 1);
        assert l'[i] == l[i - 1];
        assert i > 1 ==> l[i - 1] != l[0];
      }
    }
  }

  /** In a list without repetition or null an address is at one position only. */
  lemma SameAt(l: seq<int>, o: nat, k: int)
    requires o < |l| && l[o] != 0 && forall i, j :: 0 <= i < j < |l| ==> l[i] != l[j]
    ensures l[o] == At(l, k) <==> o == k
  {
  }

  /** What unlinking position `i` leaves in the node at another position `o` of the same list. */
  lemma UnlinkedEntry(mem: Nodes, head: int, l: seq<int>, i: nat, o: nat)
    requires Linked(mem, head, l) && i < |l| && o < |l| && o != i
    requires forall i, j :: 0 <= i < j < |l| ==> l[i] != l[j]
    ensures l[o] in Unlinked(mem, l[i])
    ensures Unlinked(mem, l[i])[l[o]] ==
            FreeNode(if o == i - 1 then At(l, i + 1) else At(l, o + 1), if o == i + 1 then At(l, i - 1) else At(l, o - 1))
  {
    assert NodeAt(mem, l, i) && NodeAt(mem, l, o);
    SameAt(l, o, i - 1);
    SameAt(l, o, i + 1);
  }

  /** The list without position `i`: what is at `j`, and around it. */
  lemma OmitAt(l: seq<int>, i: nat, j: nat)
    requires i < |l| && j < |l| - 1
    ensures var l', o := l[..i] + l[i + 1..], if j < i then j else j + 1;
            && l'[j] == l[o]
            && At(l', j + 1) == (if o == i - 1 then At(l, i + 1) else At(l, o + 1))
            && At(l', j - 1) == (if o == i + 1 then At(l, i - 1) else At(l, o - 1))
  {
  }

  lemma UnlinkedAt(mem: Nodes, head: int, l: seq<int>, i: nat, j: nat)
    requires Linked(mem, head, l) && i < |l| && j < |l| - 1
    requires forall i, j :: 0 <= i < j < |l| ==> l[i] != l[j]
    ensures var m, l' := Unlinked(mem, l[i]), l[..i] + l[i + 1..];
            NodeAt(m, l', j)
  {
    var o := if j < i then j else j + 1;
    UnlinkedEntry(mem, head, l, i, o);
    OmitAt(l, i, j);
    assert NodeAt(mem, l, o);
  }

  lemma UnlinkLinked(mem: Nodes, head: int, l: seq<int>, i: nat)
    requires Linked(mem, head, l) && i < |l|
    requires forall i, j :: 0 <= i < j < |l| ==> l[i] != l[j]
    ensures Linked(Unlinked(mem, l[i]), if i == 0 then At(l, 1) else head, l[..i] + l[i + 1..])
  {
    var m, l' := Unlinked(mem, l[i]), l[..i] + l[i + 1..];
    forall j | 0 <= j < |l'| ensures NodeAt(m, l', j) {
      UnlinkedAt(mem, head, l, i, j);
    }
  }

  lemma PushAll(mem: Nodes, heads: seq<int>, lists: seq<seq<int>>, order: nat, node: int)
    requires AllLinked(mem, heads, lists) && order <= MAX_ORDER
    requires node != 0 && !Listed(lists, node)
    ensures AllLinked(Pushed(mem, heads[order], node), heads[order := node], lists[order := [node] + lists[order]])
  {
    var m := Pushed(mem, heads[order], node);
    var l := lists[order];
    PushLinked(mem, heads[order], l, node);
    forall k | 0 <= k < |lists| && k != order ensures Linked(m, heads[k], lists[k]) {
      forall i | 0 <= i < |lists[k]| ensures lists[k][i] != node && lists[k][i] != heads[order] {
        assert lists[k][i] in lists[k];
      }
      LinkedKept(mem, m, heads[k], lists[k]);
    }
    var lists' := lists[order := [node] + l];
    forall k, k', i, i' | 0 <= k < |lists'| && 0 <= k' < |lists'| && 0 <= i < |lists'[k]| && 0 <= i' < |lists'[k']|
      && lists'[k][i] == lists'[k'][i'] ensures k == k' && i == i'
    {
      ShiftedBack(lists, order, node, k, i);
      ShiftedBack(lists, order, node, k', i');
    }
  }

  lemma ShiftedBack(lists: seq<seq<int>>, order: nat, node: int, k: nat, i: nat)
    requires order < |lists| && k < |lists| && !Listed(lists, node)
    requires i < |lists[order := [node] + lists[order]][k]|
    ensures var x := lists[order := [node] + lists[order]][k][i];
            if k == order && i == 0 then x == node
            else x != node && x == lists[k][if k == order then i - 1 else i]
  {
    if !(k == order && i == 0) {
      var o := if k == order then i - 1 else i;
      assert lists[k][o] in lists[k];
    }
  }

  lemma UnlinkDistinct(lists: seq<seq<int>>, order: nat, i: nat)
    requires AllDistinct(lists) && order < |lists| && i < |lists[order]|
    ensures AllDistinct(lists[order := lists[order][..i] + lists[order][i + 1..]])
  {
    var lists' := lists[order := lists[order][..i] + lists[order][i + 1..]];
    forall k, k', j, j' | 0 <= k < |lists'| && 0 <= k' < |lists'| && 0 <= j < |lists'[k]| && 0 <= j' < |lists'[k']|
      && lists'[k][j] == lists'[k'][j'] ensures k == k' && j == j'
    {
      var o := if k == order && j >= i then j + 1 else j;
      var o' := if k' == order && j' >= i then j' + 1 else j';
      assert lists'[k][j] == lists[k][o] && lists'[k'][j'] == lists[k'][o'];
    }
  }

  lemma UnlinkedElsewhere(mem: Nodes, node: int, a: int)
    requires node in mem && a != node && a != mem[node].prev && a != mem[node].next
    ensures a in mem ==> a in Unlinked(mem, node) && Unlinked(mem, node)[a] == mem[a]
  {
  }

  lemma UnlinkOthers(mem: Nodes, head: int, l: seq<int>, i: nat, head': int, l': seq<int>)
    requires Linked(mem, head, l) && i < |l| && Linked(mem, head', l')
    requires forall j, j' :: 0 <= j < |l| && 0 <= j' < |l'| ==> l[j] != l'[j']
    ensures Linked(Unlinked(mem, l[i]), head', l')
  {
    forall j | 0 <= j < |l'| ensures l'[j] in Unlinked(mem, l[i]) && Unlinked(mem, l[i])[l'[j]] == mem[l'[j]] {
      assert NodeAt(mem, l, i);
      UnlinkedElsewhere(mem, l[i], l'[j]);
    }
    LinkedKept(mem, Unlinked(mem, l[i]), head', l');
  }

  lemma UnlinkAll(mem: Nodes, heads: seq<int>, lists: seq<seq<int>>, order: nat, i: nat)
    requires AllLinked(mem, heads, lists) && order <= MAX_ORDER && i < |lists[order]|
    ensures var l := lists[order];
            AllLinked(Unlinked(mem, l[i]), heads[order := if i == 0 then At(l, 1) else heads[order]], lists[order := l[..i] + l[i + 1..]])
  {
    UnlinkDistinct(lists, order, i);
    UnlinkLinked(mem, heads[order], lists[order], i);
    forall k | 0 <= k < |lists| && k != order ensures Linked(Unlinked(mem, lists[order][i]), heads[k], lists[k]) {
      UnlinkOthers(mem, heads[order], lists[order], i, heads[k], lists[k]);
    }
  }

  /** Memory after popping the head of a list: the popped node itself keeps its stale pointers. */
  function Popped(mem: Nodes, head: int): Nodes
    requires head in mem
  {
    var next := mem[head].next;
    if next != 0 && next in mem then mem[next := FreeNode(mem[next].next, 0)] else mem
  }

  lemma SameListed(mem: Nodes, mem': Nodes, heads: seq<int>, lists: seq<seq<int>>)
    requires AllLinked(mem, heads, lists)
    requires forall a :: Listed(lists, a) && a in mem ==> a in mem' && mem'[a] == mem[a]
    ensures AllLinked(mem', heads, lists)
  {
    forall k | 0 <= k < |lists| ensures Linked(mem', heads[k], lists[k]) {
      forall i | 0 <= i < |lists[k]| ensures lists[k][i] in mem' && mem'[lists[k][i]] == mem[lists[k][i]] {
        assert Listed(lists, lists[k][i]);
      }
      LinkedKept(mem, mem', heads[k], lists[k]);
    }
  }

  lemma HeadGone(lists: seq<seq<int>>, order: nat, k: nat, a: int)
    requires AllDistinct(lists) && order < |lists| && lists[order] != [] && k < |lists|
    requires a in lists[order := lists[order][1..]][k]
    ensures a != lists[order][0]
  {
    var l' := lists[order := lists[order][1..]][k];
    var i :| 0 <= i < |l'| && l'[i] == a;
    assert a == lists[k][if k == order then i + 1 else i];
  }

  /** Unlinking the head and popping it differ only in the head node. */
  lemma PopIsUnlink(mem: Nodes, head: int, l: seq<int>)
    requires Linked(mem, head, l) && l != []
    requires forall i, j :: 0 <= i < j < |l| ==> l[i] != l[j]
    ensures forall a :: a != head ==> (a in Popped(mem, head) <==> a in Unlinked(mem, head))
                                      && (a in Popped(mem, head) ==> Popped(mem, head)[a] == Unlinked(mem, head)[a])
  {
    assert NodeAt(mem, l, 0);
  }

  lemma PopAll(mem: Nodes, heads: seq<int>, lists: seq<seq<int>>, order: nat)
    requires AllLinked(mem, heads, lists) && order <= MAX_ORDER && lists[order] != []
    ensures heads[order] in mem
    ensures AllLinked(Popped(mem, heads[order]), heads[order := mem[heads[order]].next], lists[order := lists[order][1..]])
  {
    var l := lists[order];
    var lists' := lists[order := l[1..]];
    assert Linked(mem, heads[order], l) && NodeAt(mem, l, 0);
    assert heads[order] == l[0] && mem[l[0]].next == At(l, 1);
    UnlinkHead(mem, heads, lists, order);
    PopAgrees(mem, heads, lists, order);
    SameListed(Unlinked(mem, l[0]), Popped(mem, l[0]), heads[order := At(l, 1)], lists');
  }

  lemma UnlinkHead(mem: Nodes, heads: seq<int>, lists: seq<seq<int>>, order: nat)
    requires AllLinked(mem, heads, lists) && order <= MAX_ORDER && lists[order] != []
    ensures lists[order][0] in mem
    ensures AllLinked(Unlinked(mem, lists[order][0]), heads[order := At(lists[order], 1)], lists[order := lists[order][1..]])
  {
    UnlinkAll(mem, heads, lists, order, 0);
    assert lists[order][..0] + lists[order][1..] == lists[order][1..];
  }

  /** Popping and unlinking the head leave the same in the nodes still listed. */
  lemma PopAgrees(mem: Nodes, heads: seq<int>, lists: seq<seq<int>>, order: nat)
    requires AllLinked(mem, heads, lists) && order <= MAX_ORDER && lists[order] != []
    ensures var head := lists[order][0];
            head in mem && forall a :: Listed(lists[order := lists[order][1..]], a) && a in Unlinked(mem, head) ==>
                                         a in Popped(mem, head) && Popped(mem, head)[a] == Unlinked(mem, head)[a]
  {
    var l, lists' := lists[order], lists[order := lists[order][1..]];
    assert Linked(mem, heads[order], l);
    PopIsUnlink(mem, l[0], l);
    forall a | Listed(lists', a) ensures a != l[0] {
      var k :| 0 <= k < |lists'| && a in lists'[k];
      HeadGone(lists, order, k, a);
    }
  }

  lemma PushBlocks(lists: seq<seq<int>>, order: nat, node: int)
    requires order < |lists|
    ensures Blocks(lists[order := [node] + lists[order]]) == Blocks(lists) + {Block(node, order)}
  {
    var lists' := lists[order := [node] + lists[order]];
    forall b ensures b in Blocks(lists') <==> b in Blocks(lists) + {Block(node, order)} {
      BlocksHas(lists, b);
      BlocksHas(lists', b);
    }
  }

  lemma UnlinkBlocks(lists: seq<seq<int>>, order: nat, i: nat)
    requires order < |lists| && i < |lists[order]| && AllDistinct(lists)
    ensures var l := lists[order];
            Blocks(lists[order := l[..i] + l[i + 1..]]) == Blocks(lists) - {Block(l[i], order)}
  {
    var l := lists[order];
    var lists' := lists[order := l[..i] + l[i + 1..]];
    forall b ensures b in Blocks(lists') <==> b in Blocks(lists) - {Block(l[i], order)} {
      BlocksHas(lists, b);
      BlocksHas(lists', b);
      assert l == l[..i] + [l[i]] + l[i + 1..];
    }
  }
}
