/**
 The hash lists of list.h on the heap: one forward pointer, and a pprev that designates the slot pointing
 at the node, be it the head's `first` or another node's `next`. LIST_POISON1 in `next` is modelled as null.
 */
module HashLists {
  import opened Sequences

  datatype Slot = NoSlot | Poison | FirstOf(head: HlistHead) | NextOf(node: HlistNode)

  class HlistNode {
    var next: HlistNode?
    var pprev: Slot

    /** INIT_HLIST_NODE */
    constructor ()
      ensures next == null && pprev == NoSlot
    {
      next, pprev := null, NoSlot;
    }
  }

  class HlistHead {
    var first: HlistNode?

    constructor ()
      ensures Hung(this, [])
    {
      first := null;
    }
  }

  ghost function NodeAt(s: seq<HlistNode>, i: nat): HlistNode? {
    if i < |s| then s[i] else null
  }

  /** The slot that points at s[i]. */
  ghost function SlotOf(h: HlistHead, s: seq<HlistNode>, i: nat): Slot
    requires i <= |s|
  {
    if i == 0 then FirstOf(h) else NextOf(s[i - 1])
  }

  ghost predicate Tied(h: HlistHead, s: seq<HlistNode>, i: nat)
    requires i < |s|
    reads s[i]
  {
    s[i].next == NodeAt(s, i + 1) && s[i].pprev == SlotOf(h, s, i)
  }

  ghost predicate Hung(h: HlistHead, s: seq<HlistNode>)
    reads h, s
  {
    h.first == NodeAt(s, 0) && Distinct(s) && forall i | 0 <= i < |s| :: Tied(h, s, i)
  }

  /** A table of hash lists: each head holds its sequence of nodes, and no node is on two lists. */
  ghost predicate Table(hs: seq<HlistHead>, ls: seq<seq<HlistNode>>)
    reads hs, Nodes(ls)
  {
    && |hs| == |ls|
    && Distinct(hs)
    && (forall k | 0 <= k < |hs| :: Hung(hs[k], ls[k]))
    && (forall j, k | 0 <= j < k < |ls| :: Disjoint(ls[j], ls[k]))
  }

  twostate predicate SameNode(n: HlistNode)
    reads n
  {
    n.next == old(n.next) && n.pprev == old(n.pprev)
  }

  twostate predicate OthersSame(hs: seq<HlistHead>, ls: seq<seq<HlistNode>>, ks: set<nat>)
    requires |hs| == |ls|
    reads hs, Nodes(ls)
  {
    forall j | 0 <= j < |ls| && j !in ks ::
      hs[j].first == old(hs[j].first) && forall i | 0 <= i < |ls[j]| :: SameNode(ls[j][i])
  }

  /** If only the lists in ks changed, and they are well formed and apart again, so is the table. */
  twostate lemma Rehung(tab: (seq<HlistHead>, seq<seq<HlistNode>>), new ks: set<nat>, new ls': seq<seq<HlistNode>>)
    requires |tab.0| == |tab.1| == |ls'|
    requires old(Table(tab.0, tab.1))
    requires OthersSame(tab.0, tab.1, ks)
    requires forall j | 0 <= j < |ls'| && j !in ks :: ls'[j] == tab.1[j]
    requires forall j | 0 <= j < |ls'| && j in ks :: Hung(tab.0[j], ls'[j])
    requires forall j, k | 0 <= j < k < |ls'| :: Disjoint(ls'[j], ls'[k])
    ensures Table(tab.0, ls')
  {
    var (hs, ls) := tab;
    forall j | 0 <= j < |hs|
      ensures Hung(hs[j], ls'[j])
    {
      if j !in ks {
        assert old(Hung(hs[j], ls[j]));
        forall i | 0 <= i < |ls[j]|
          ensures Tied(hs[j], ls[j], i)
        {
          assert SameNode(ls[j][i]);
          assert old(Tied(hs[j], ls[j], i));
        }
      }
    }
  }

  /** *slot = n */
  method Store(slot: Slot, n: HlistNode?)
    requires slot.FirstOf? || slot.NextOf?
    modifies if slot.FirstOf? then {slot.head} else {}, if slot.NextOf? then {slot.node} else {}
    ensures slot.FirstOf? ==> slot.head.first == n
    ensures slot.NextOf? ==> slot.node.next == n && slot.node.pprev == old(slot.node.pprev)
  {
    match slot
    case FirstOf(h) => h.first := n;
    case NextOf(m) => m.next := n;
  }

  // ---------------------------------------------------------------- insertion

  method HlistAddHead(n: HlistNode, h: HlistHead, ghost hs: seq<HlistHead>, ghost ls: seq<seq<HlistNode>>, ghost k: nat)
    requires Table(hs, ls) && k < |hs| && hs[k] == h && Outside(n, ls)
    modifies n, h, h.first
    ensures Table(hs, ls[k := InsertAt(ls[k], 0, n)])
  {
    ghost var s, s' := ls[k], InsertAt(ls[k], 0, n);
    if s != [] {
      OnlyOn(ls, k, s[0]);
    }
    assert Hung(h, s) && forall i | 0 <= i < |s| :: Tied(h, s, i);
    var first := h.first;
    n.next := first;
    if first != null {
      first.pprev := NextOf(n);
    }
    h.first := n;
    n.pprev := FirstOf(h);
    forall i | 0 <= i < |s'|
      ensures Tied(h, s', i)
    {
      if i > 0 {
        assert old(Tied(h, s, i - 1));
      }
    }
    Rehung((hs, ls), {k}, ls[k := s']);
  }

  /** The head, or the node, that owns the slot pointing at position i. */
  ghost function OwnerHead(h: HlistHead, i: nat): set<HlistHead> {
    if i == 0 then {h} else {}
  }

  ghost function OwnerNode(s: seq<HlistNode>, i: nat): set<HlistNode>
    requires i <= |s|
  {
    if i > 0 then {s[i - 1]} else {}
  }

  /** hlist_add_before, seen on its own list. */
  method AddBeforeHere(n: HlistNode, next: HlistNode, ghost h: HlistHead, ghost s: seq<HlistNode>, ghost i: nat)
    requires Hung(h, s) && i < |s| && s[i] == next && n !in s
    modifies n, next, OwnerHead(h, i), OwnerNode(s, i)
    ensures Hung(h, InsertAt(s, i, n))
  {
    ghost var s' := InsertAt(s, i, n);
    assert Tied(h, s, i) && forall j | 0 <= j < |s| :: Tied(h, s, j);
    n.pprev := next.pprev;
    n.next := next;
    next.pprev := NextOf(n);
    Store(n.pprev, n);
    forall j | 0 <= j < |s'|
      ensures Tied(h, s', j)
    {
      if j < i {
        assert old(Tied(h, s, j));
      } else if j > i {
        assert old(Tied(h, s, j - 1));
      }
    }
  }

  method HlistAddBefore(n: HlistNode, next: HlistNode, ghost hs: seq<HlistHead>, ghost ls: seq<seq<HlistNode>>,
                        ghost k: nat, ghost i: nat)
    requires Table(hs, ls) && k < |hs| && i < |ls[k]| && ls[k][i] == next && Outside(n, ls)
    modifies n, hs, Nodes(ls)
    ensures Table(hs, ls[k := InsertAt(ls[k], i, n)])
  {
    OnlyOn(ls, k, next);
    if i > 0 {
      OnlyOn(ls, k, ls[k][i - 1]);
    }
    AddBeforeHere(n, next, hs[k], ls[k], i);
    Rehung((hs, ls), {k}, ls[k := InsertAt(ls[k], i, n)]);
  }

  /** hlist_add_behind, seen on its own list. */
  method AddBehindHere(n: HlistNode, prev: HlistNode, ghost h: HlistHead, ghost s: seq<HlistNode>, ghost i: nat)
    requires Hung(h, s) && i < |s| && s[i] == prev && n !in s
    modifies n, prev, prev.next
    ensures Hung(h, InsertAt(s, i + 1, n))
  {
    ghost var s' := InsertAt(s, i + 1, n);
    assert Distinct(s') && NodeAt(s', 0) == NodeAt(s, 0);
    assert Tied(h, s, i) && forall j | 0 <= j < |s| :: Tied(h, s, j);
    n.next := prev.next;
    prev.next := n;
    n.pprev := NextOf(prev);
    if n.next != null {
      n.next.pprev := NextOf(n);
    }
    forall j | 0 <= j < |s'|
      ensures Tied(h, s', j)
    {
      if j <= i {
        assert old(Tied(h, s, j));
      } else if j > i + 1 {
        assert old(Tied(h, s, j - 1));
      }
    }
  }

  method HlistAddBehind(n: HlistNode, prev: HlistNode, ghost hs: seq<HlistHead>, ghost ls: seq<seq<HlistNode>>,
                        ghost k: nat, ghost i: nat)
    requires Table(hs, ls) && k < |hs| && i < |ls[k]| && ls[k][i] == prev && Outside(n, ls)
    modifies n, prev, prev.next
    ensures Table(hs, ls[k := InsertAt(ls[k], i + 1, n)])
  {
    OnlyOn(ls, k, prev);
    if i + 1 < |ls[k]| {
      OnlyOn(ls, k, ls[k][i + 1]);
    }
    assert Tied(hs[k], ls[k], i);
    AddBehindHere(n, prev, hs[k], ls[k], i);
    Rehung((hs, ls), {k}, ls[k := InsertAt(ls[k], i + 1, n)]);
  }

  // ---------------------------------------------------------------- deletion

  /** __hlist_del, seen on its own list. */
  method UnhangHere(n: HlistNode, ghost h: HlistHead, ghost s: seq<HlistNode>, ghost i: nat)
    requires Hung(h, s) && i < |s| && s[i] == n
    modifies OwnerHead(h, i), OwnerNode(s, i), n.next
    ensures Hung(h, RemoveAt(s, i))
  {
    ghost var s' := RemoveAt(s, i);
    assert Tied(h, s, i) && forall j | 0 <= j < |s| :: Tied(h, s, j);
    var next := n.next;
    var pprev := n.pprev;
    Store(pprev, next);
    if next != null {
      next.pprev := pprev;
    }
    forall j | 0 <= j < |s'|
      ensures Tied(h, s', j)
    {
      assert old(Tied(h, s, if j < i then j else j + 1));
    }
  }

  method Unhang(n: HlistNode, ghost hs: seq<HlistHead>, ghost ls: seq<seq<HlistNode>>, ghost k: nat, ghost i: nat)
    requires Table(hs, ls) && k < |hs| && i < |ls[k]| && ls[k][i] == n
    modifies hs, Nodes(ls) - {n}
    ensures Table(hs, ls[k := RemoveAt(ls[k], i)])
    ensures Outside(n, ls[k := RemoveAt(ls[k], i)])
  {
    OnlyOn(ls, k, n);
    if i > 0 {
      OnlyOn(ls, k, ls[k][i - 1]);
    }
    if i + 1 < |ls[k]| {
      OnlyOn(ls, k, ls[k][i + 1]);
    }
    assert Tied(hs[k], ls[k], i);
    UnhangHere(n, hs[k], ls[k], i);
    Rehung((hs, ls), {k}, ls[k := RemoveAt(ls[k], i)]);
  }

  /** Writing to a node that is on no list disturbs none. */
  method Scribble(n: HlistNode, pprev: Slot, ghost hs: seq<HlistHead>, ghost ls: seq<seq<HlistNode>>)
    requires Table(hs, ls) && Outside(n, ls)
    modifies n
    ensures Table(hs, ls) && n.next == null && n.pprev == pprev
  {
    n.next := null;
    n.pprev := pprev;
    Rehung((hs, ls), {}, ls);
  }

  method HlistDel(n: HlistNode, ghost hs: seq<HlistHead>, ghost ls: seq<seq<HlistNode>>, ghost k: nat, ghost i: nat)
    requires Table(hs, ls) && k < |hs| && i < |ls[k]| && ls[k][i] == n
    modifies hs, Nodes(ls)
    ensures Table(hs, ls[k := RemoveAt(ls[k], i)])
    ensures n.next == null && n.pprev == Poison
  {
    Unhang(n, hs, ls, k, i);
    Scribble(n, Poison, hs, ls[k := RemoveAt(ls[k], i)]);
  }

  /** hlist_del_init does nothing to an unhashed node. */
  method HlistDelInit(n: HlistNode, ghost hs: seq<HlistHead>, ghost ls: seq<seq<HlistNode>>, ghost k: nat, ghost i: nat)
    requires Table(hs, ls)
    requires n.pprev != NoSlot ==> k < |hs| && i < |ls[k]| && ls[k][i] == n
    modifies hs, Nodes(ls)
    ensures old(n.pprev) == NoSlot ==> Table(hs, ls) && n.next == old(n.next)
    ensures old(n.pprev) != NoSlot ==> Table(hs, ls[k := RemoveAt(ls[k], i)]) && n.next == null
    ensures n.pprev == NoSlot
  {
    if n.pprev != NoSlot {
      Unhang(n, hs, ls, k, i);
      Scribble(n, NoSlot, hs, ls[k := RemoveAt(ls[k], i)]);
    }
  }

  // ---------------------------------------------------------------- moving a whole list

  lemma MovedDisjoint(ls: seq<seq<HlistNode>>, j: nat, k: nat)
    requires j < |ls| && k < |ls| && j != k && forall a, b | 0 <= a < b < |ls| :: Disjoint(ls[a], ls[b])
    ensures var ls' := ls[k := ls[j]][j := []]; forall a, b | 0 <= a < b < |ls| :: Disjoint(ls'[a], ls'[b])
  {
    var ls' := ls[k := ls[j]][j := []];
    forall a, b | 0 <= a < b < |ls|
      ensures Disjoint(ls'[a], ls'[b])
    {
      assert Disjoint(ls[a], ls[b]);
      assert if a < j then Disjoint(ls[a], ls[j]) else a > j ==> Disjoint(ls[j], ls[a]);
      assert if b < j then Disjoint(ls[b], ls[j]) else b > j ==> Disjoint(ls[j], ls[b]);
    }
  }

  method HlistMoveList(from: HlistHead, to: HlistHead, ghost hs: seq<HlistHead>, ghost ls: seq<seq<HlistNode>>,
                       ghost j: nat, ghost k: nat)
    requires Table(hs, ls) && j < |hs| && k < |hs| && j != k && hs[j] == from && hs[k] == to
    modifies from, to, from.first
    ensures Table(hs, ls[k := ls[j]][j := []])
  {
    ghost var s := ls[j];
    ghost var ls' := ls[k := s][j := []];
    if s != [] {
      OnlyOn(ls, j, s[0]);
    }
    assert Hung(from, s) && forall i | 0 <= i < |s| :: Tied(from, s, i);
    to.first := from.first;
    if to.first != null {
      to.first.pprev := FirstOf(to);
    }
    from.first := null;
    forall i | 0 <= i < |s|
      ensures Tied(to, s, i)
    {
      assert old(Tied(from, s, i));
    }
    MovedDisjoint(ls, j, k);
    Rehung((hs, ls), {j, k}, ls');
  }

  /** The slot a node's pprev designates is the one and only slot of the table that holds the node. */
  lemma PprevIsTheSlot(hs: seq<HlistHead>, ls: seq<seq<HlistNode>>, k: nat, i: nat)
    requires Table(hs, ls) && k < |hs| && i < |ls[k]|
    ensures ls[k][i].pprev == SlotOf(hs[k], ls[k], i)
    ensures forall j | 0 <= j < |hs| :: hs[j].first == ls[k][i] <==> ls[k][i].pprev == FirstOf(hs[j])
    ensures forall j, m | 0 <= j < |hs| && 0 <= m < |ls[j]| ::
              ls[j][m].next == ls[k][i] <==> ls[k][i].pprev == NextOf(ls[j][m])
  {
    var n := ls[k][i];
    OnlyOn(ls, k, n);
    assert Hung(hs[k], ls[k]) && Tied(hs[k], ls[k], i);
    forall j | 0 <= j < |hs|
      ensures hs[j].first == n <==> n.pprev == FirstOf(hs[j])
    {
      assert Hung(hs[j], ls[j]);
    }
    forall j, m | 0 <= j < |hs| && 0 <= m < |ls[j]|
      ensures ls[j][m].next == n <==> n.pprev == NextOf(ls[j][m])
    {
      assert Hung(hs[j], ls[j]) && Tied(hs[j], ls[j], m);
      if j != k {
        OnlyOn(ls, j, ls[j][m]);
      }
    }
  }
}
