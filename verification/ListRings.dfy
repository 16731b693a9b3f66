/**
 The circular doubly linked lists of list.h on the heap. A ring is the sequence of its nodes from the
 list head on; a family is all the rings in sight, pairwise disjoint. Each operation is shown to
 take a family to a family in which exactly the rings it names have changed, and how.

 LIST_POISON1 and LIST_POISON2 are modelled as null: like them it is the address of no node.
 */
module ListRings {
  import opened Sequences

  class ListHead {
    var next: ListHead?
    var prev: ListHead?

    /** LIST_HEAD */
    constructor ()
      ensures Ring([this])
    {
      next, prev := this, this;
    }
  }

  /** The nodes after and before r[i], going round. */
  ghost function After(r: seq<ListHead>, i: nat): ListHead
    requires i < |r|
  {
    if i + 1 < |r| then r[i + 1] else r[0]
  }

  ghost function Before(r: seq<ListHead>, i: nat): ListHead
    requires i < |r|
  {
    if i > 0 then r[i - 1] else r[|r| - 1]
  }

  ghost predicate Linked(r: seq<ListHead>, i: nat)
    requires i < |r|
    reads r[i]
  {
    r[i].next == After(r, i) && r[i].prev == Before(r, i)
  }

  ghost predicate AllLinked(r: seq<ListHead>)
    reads r
  {
    forall i | 0 <= i < |r| :: Linked(r, i)
  }

  ghost predicate Ring(r: seq<ListHead>)
    reads r
  {
    r != [] && Distinct(r) && AllLinked(r)
  }

  /** An entry [] stands for a head whose entries were spliced away and that was not reinitialised. */
  ghost predicate Family(rs: seq<seq<ListHead>>)
    reads Nodes(rs)
  {
    && (forall k | 0 <= k < |rs| :: rs[k] == [] || Ring(rs[k]))
    && (forall j, k | 0 <= j < k < |rs| :: Disjoint(rs[j], rs[k]))
  }

  twostate predicate Same(x: ListHead)
    reads x
  {
    x.next == old(x.next) && x.prev == old(x.prev)
  }

  /** No node of a ring outside ks has changed. */
  twostate predicate OthersSame(rs: seq<seq<ListHead>>, ks: set<nat>)
    reads Nodes(rs)
  {
    forall j, i | 0 <= j < |rs| && j !in ks && 0 <= i < |rs[j]| :: Same(rs[j][i])
  }

  ghost predicate OthersDisjoint(rs: seq<seq<ListHead>>, ks: set<nat>, r: seq<ListHead>) {
    forall j | 0 <= j < |rs| && j !in ks :: Disjoint(rs[j], r)
  }

  /**
   If only the rings in ks and nodes outside the family changed, what those rings have become joins the
   rest. (A parameter marked `new` is one that need not have existed in the old state.)
   */
  twostate lemma Rewired(rs: seq<seq<ListHead>>, new ks: set<nat>, new rs': seq<seq<ListHead>>)
    requires |rs'| == |rs|
    requires old(Family(rs))
    requires OthersSame(rs, ks)
    requires forall j | 0 <= j < |rs| && j !in ks :: rs'[j] == rs[j]
    requires forall j | 0 <= j < |rs| && j in ks :: rs'[j] == [] || Ring(rs'[j])
    requires forall j, k | 0 <= j < k < |rs| :: Disjoint(rs'[j], rs'[k])
    ensures Family(rs')
  {
    forall j | 0 <= j < |rs'|
      ensures rs'[j] == [] || Ring(rs'[j])
    {
      if j !in ks && rs[j] != [] {
        assert old(Ring(rs[j]));
        forall i | 0 <= i < |rs[j]|
          ensures Linked(rs[j], i)
        {
          assert Same(rs[j][i]);
          assert old(Linked(rs[j], i));
        }
      }
    }
  }

  /** The case of one ring. */
  twostate lemma OneRing(rs: seq<seq<ListHead>>, new k: nat, new r: seq<ListHead>)
    requires k < |rs|
    requires old(Family(rs))
    requires r == [] || Ring(r)
    requires OthersSame(rs, {k})
    requires OthersDisjoint(rs, {k}, r)
    ensures Family(rs[k := r])
  {
    Rewired(rs, {k}, rs[k := r]);
  }

  lemma AddRing(rs: seq<seq<ListHead>>, r: seq<ListHead>)
    requires Family(rs) && Ring(r) && OthersDisjoint(rs, {}, r)
    ensures Family(rs + [r])
  {
  }

  // ---------------------------------------------------------------- insertion

  method InsertBetween(node: ListHead, prev: ListHead, next: ListHead,
                       ghost rs: seq<seq<ListHead>>, ghost k: nat, ghost i: nat)
    requires Family(rs) && k < |rs| && i < |rs[k]| && rs[k][i] == prev && After(rs[k], i) == next
    requires Outside(node, rs)
    modifies node, prev, next
    ensures Family(rs[k := InsertAt(rs[k], i + 1, node)])
  {
    ghost var r, r' := rs[k], InsertAt(rs[k], i + 1, node);
    OnlyOn(rs, k, prev);
    OnlyOn(rs, k, next);
    assert forall j | 0 <= j < |r| :: Linked(r, j);
    next.prev := node;
    node.next := next;
    node.prev := prev;
    prev.next := node;
    forall j | 0 <= j < |r'|
      ensures Linked(r', j)
    {
      if j <= i {
        assert old(Linked(r, j));
      } else if j > i + 1 {
        assert old(Linked(r, j - 1));
      }
    }
    OneRing(rs, k, r');
  }

  /** list_add: node goes right after head, wherever head is on its ring. */
  method ListAdd(node: ListHead, head: ListHead, ghost rs: seq<seq<ListHead>>, ghost k: nat, ghost i: nat)
    requires Family(rs) && k < |rs| && i < |rs[k]| && rs[k][i] == head && Outside(node, rs)
    modifies node, head, head.next
    ensures Family(rs[k := InsertAt(rs[k], i + 1, node)])
  {
    assert Linked(rs[k], i);
    InsertBetween(node, head, head.next, rs, k, i);
  }

  /** list_add_tail: right before head; before the sentinel means last. */
  method ListAddTail(node: ListHead, head: ListHead, ghost rs: seq<seq<ListHead>>, ghost k: nat, ghost i: nat)
    requires Family(rs) && k < |rs| && i < |rs[k]| && rs[k][i] == head && Outside(node, rs)
    modifies node, head, head.prev
    ensures Family(rs[k := InsertAt(rs[k], if i == 0 then |rs[k]| else i, node)])
  {
    assert Linked(rs[k], i);
    ghost var before := if i == 0 then |rs[k]| - 1 else i - 1;
    assert rs[k][before] == head.prev && After(rs[k], before) == head;
    InsertBetween(node, head.prev, head, rs, k, before);
  }

  // ---------------------------------------------------------------- deletion

  /** __list_del: the neighbours of the i-th node are joined. A node alone on its ring is left as it is. */
  method Unlink(prev: ListHead, next: ListHead, ghost rs: seq<seq<ListHead>>, ghost k: nat, ghost i: nat)
    requires Family(rs) && k < |rs| && i < |rs[k]| && prev == Before(rs[k], i) && next == After(rs[k], i)
    modifies prev, next
    ensures Family(rs[k := RemoveAt(rs[k], i)])
    ensures Outside(rs[k][i], rs[k := RemoveAt(rs[k], i)])
  {
    ghost var r, r' := rs[k], RemoveAt(rs[k], i);
    OnlyOn(rs, k, prev);
    OnlyOn(rs, k, next);
    OnlyOn(rs, k, r[i]);
    assert forall j | 0 <= j < |r| :: Linked(r, j);
    next.prev := prev;
    prev.next := next;
    if r' != [] {
      forall j | 0 <= j < |r'|
        ensures Linked(r', j)
      {
        assert old(Linked(r, if j < i then j else j + 1));
      }
    }
    OneRing(rs, k, r');
  }

  method ListDel(entry: ListHead, ghost rs: seq<seq<ListHead>>, ghost k: nat, ghost i: nat)
    requires Family(rs) && k < |rs| && i < |rs[k]| && rs[k][i] == entry
    modifies entry, entry.prev, entry.next
    ensures Family(rs[k := RemoveAt(rs[k], i)])
    ensures entry.next == null && entry.prev == null
    ensures Outside(entry, rs[k := RemoveAt(rs[k], i)])
  {
    assert Linked(rs[k], i);
    Unlink(entry.prev, entry.next, rs, k, i);
    label unlinked:
    entry.next := null;
    entry.prev := null;
    Rewired@unlinked(rs[k := RemoveAt(rs[k], i)], {}, rs[k := RemoveAt(rs[k], i)]);
  }

  /** INIT_LIST_HEAD on a node that is on no ring: it becomes a ring by itself. */
  method InitListHead(list: ListHead, ghost rs: seq<seq<ListHead>>)
    requires Family(rs) && Outside(list, rs)
    modifies list
    ensures Family(rs + [[list]])
  {
    list.next := list;
    list.prev := list;
    Rewired(rs, {}, rs);
    AddRing(rs, [list]);
  }

  method ListDelInit(entry: ListHead, ghost rs: seq<seq<ListHead>>, ghost k: nat, ghost i: nat)
    requires Family(rs) && k < |rs| && i < |rs[k]| && rs[k][i] == entry
    modifies entry, entry.prev, entry.next
    ensures Family(rs[k := RemoveAt(rs[k], i)] + [[entry]])
  {
    assert Linked(rs[k], i);
    Unlink(entry.prev, entry.next, rs, k, i);
    InitListHead(entry, rs[k := RemoveAt(rs[k], i)]);
  }

  method ListReplace(old_: ListHead, node: ListHead, ghost rs: seq<seq<ListHead>>, ghost k: nat, ghost i: nat)
    requires Family(rs) && k < |rs| && i < |rs[k]| && rs[k][i] == old_ && Outside(node, rs)
    modifies node, old_.next, old_.prev
    ensures Family(rs[k := rs[k][i := node]])
    ensures Outside(old_, rs[k := rs[k][i := node]])
  {
    ghost var r, r' := rs[k], rs[k][i := node];
    OnlyOn(rs, k, old_);
    OnlyOn(rs, k, After(r, i));
    OnlyOn(rs, k, Before(r, i));
    assert forall j | 0 <= j < |r| :: Linked(r, j);
    assert Linked(r, i);
    node.next := old_.next;
    node.next.prev := node;
    node.prev := old_.prev;
    node.prev.next := node;
    forall j | 0 <= j < |r'|
      ensures Linked(r', j)
    {
      assert old(Linked(r, j));
    }
    OneRing(rs, k, r');
  }

  method ListReplaceInit(old_: ListHead, node: ListHead, ghost rs: seq<seq<ListHead>>, ghost k: nat, ghost i: nat)
    requires Family(rs) && k < |rs| && i < |rs[k]| && rs[k][i] == old_ && Outside(node, rs)
    modifies node, old_, old_.next, old_.prev
    ensures Family(rs[k := rs[k][i := node]] + [[old_]])
  {
    ListReplace(old_, node, rs, k, i);
    InitListHead(old_, rs[k := rs[k][i := node]]);
  }

  // ---------------------------------------------------------------- moves

  /** The index of rs[k][m] once rs[j][i], another node, has been taken away. */
  ghost function Shifted(j: nat, i: nat, k: nat, m: nat): nat
    requires j != k || i != m
  {
    if j == k && i < m then m - 1 else m
  }

  method ListMove(list: ListHead, head: ListHead, ghost rs: seq<seq<ListHead>>,
                  ghost j: nat, ghost i: nat, ghost k: nat, ghost m: nat)
    requires Family(rs) && j < |rs| && i < |rs[j]| && rs[j][i] == list
    requires k < |rs| && m < |rs[k]| && rs[k][m] == head && list != head
    modifies Nodes(rs)
    ensures var rs1 := rs[j := RemoveAt(rs[j], i)];
      Family(rs1[k := InsertAt(rs1[k], Shifted(j, i, k, m) + 1, list)])
  {
    assert Linked(rs[j], i);
    Unlink(list.prev, list.next, rs, j, i);
    ghost var rs1 := rs[j := RemoveAt(rs[j], i)];
    assert Linked(rs1[k], Shifted(j, i, k, m));
    ListAdd(list, head, rs1, k, Shifted(j, i, k, m));
  }

  method ListMoveTail(list: ListHead, head: ListHead, ghost rs: seq<seq<ListHead>>,
                      ghost j: nat, ghost i: nat, ghost k: nat, ghost m: nat)
    requires Family(rs) && j < |rs| && i < |rs[j]| && rs[j][i] == list
    requires k < |rs| && m < |rs[k]| && rs[k][m] == head && list != head
    modifies Nodes(rs)
    ensures var rs1 := rs[j := RemoveAt(rs[j], i)];
      var m1 := Shifted(j, i, k, m);
      Family(rs1[k := InsertAt(rs1[k], if m1 == 0 then |rs1[k]| else m1, list)])
  {
    assert Linked(rs[j], i);
    Unlink(list.prev, list.next, rs, j, i);
    ghost var rs1 := rs[j := RemoveAt(rs[j], i)];
    assert Linked(rs1[k], Shifted(j, i, k, m));
    ListAddTail(list, head, rs1, k, Shifted(j, i, k, m));
  }

  // ---------------------------------------------------------------- what a head says about its ring

  predicate ListEmpty(head: ListHead)
    reads head
  {
    head.next == head
  }

  predicate ListIsSingular(head: ListHead)
    reads head
  {
    !ListEmpty(head) && head.next == head.prev
  }

  predicate ListIsLast(list: ListHead, head: ListHead)
    reads list
  {
    list.next == head
  }

  lemma HeadFacts(r: seq<ListHead>, i: nat)
    requires Ring(r) && i < |r|
    ensures ListEmpty(r[0]) <==> |r| == 1
    ensures ListIsSingular(r[0]) <==> |r| == 2
    ensures ListIsLast(r[i], r[0]) <==> i == |r| - 1
  {
    assert Linked(r, 0) && Linked(r, i);
  }

  lemma {:induction false} RingPrefix(a: seq<ListHead>, b: seq<ListHead>, n: nat)
    requires Ring(a) && Ring(b) && a[0] == b[0] && n <= |a| && n <= |b|
    ensures a[..n] == b[..n]
  {
    if n <= 1 {
    } else {
      RingPrefix(a, b, n - 1);
      assert a[n - 2] == a[..n - 1][n - 2] == b[..n - 1][n - 2] == b[n - 2];
      assert Linked(a, n - 2) && Linked(b, n - 2);
    }
  }

  /** The heap determines the ring: two rings with the same head are the same. */
  lemma RingUnique(a: seq<ListHead>, b: seq<ListHead>)
    requires Ring(a) && Ring(b) && a[0] == b[0]
    ensures a == b
  {
    var n := if |a| <= |b| then |a| else |b|;
    RingPrefix(a, b, n);
    assert a[n - 1] == a[..n][n - 1] == b[..n][n - 1] == b[n - 1];
    assert Linked(a, n - 1) && Linked(b, n - 1);
  }

  // ---------------------------------------------------------------- rotation

  ghost function Rotate<T>(es: seq<T>): seq<T> {
    if es == [] then [] else es[1..] + [es[0]]
  }

  ghost function RotateTimes<T>(es: seq<T>, n: nat): seq<T> {
    if n == 0 then es else Rotate(RotateTimes(es, n - 1))
  }

  lemma {:induction false} RotateSplits<T>(es: seq<T>, n: nat)
    requires n <= |es|
    ensures RotateTimes(es, n) == es[n..] + es[..n]
  {
    if n == 0 {
    } else {
      RotateSplits(es, n - 1);
      var s := es[n - 1..] + es[..n - 1];
      assert s[0] == es[n - 1] && s[1..] == es[n..] + es[..n - 1];
      assert es[..n] == es[..n - 1] + [es[n - 1]];
    }
  }

  /** As many rotations as there are entries change nothing. */
  lemma FullRotation<T>(es: seq<T>)
    ensures RotateTimes(es, |es|) == es
  {
    RotateSplits(es, |es|);
  }

  method ListRotateLeft(head: ListHead, ghost rs: seq<seq<ListHead>>, ghost k: nat)
    requires Family(rs) && k < |rs| && rs[k] != [] && rs[k][0] == head
    modifies Nodes(rs)
    ensures Family(rs[k := [head] + Rotate(rs[k][1..])])
  {
    HeadFacts(rs[k], 0);
    assert Linked(rs[k], 0);
    ghost var r := rs[k];
    if head.next != head {
      var first := head.next;
      ListMoveTail(first, head, rs, k, 1, k, 0);
      assert InsertAt(RemoveAt(r, 1), |r| - 1, first) == [head] + Rotate(r[1..]);
      assert rs[k := RemoveAt(r, 1)][k := [head] + Rotate(r[1..])] == rs[k := [head] + Rotate(r[1..])];
    } else {
      assert [head] + Rotate(r[1..]) == r;
      assert rs[k := r] == rs;
    }
  }

  lemma {:induction false} RotateKeeps<T>(es: seq<T>, n: nat)
    ensures |RotateTimes(es, n)| == |es| && forall x | x in RotateTimes(es, n) :: x in es
  {
    if n == 0 {
    } else {
      RotateKeeps(es, n - 1);
    }
  }

  /** The family after n rotations of ring k. */
  ghost function Rotated(rs: seq<seq<ListHead>>, k: nat, n: nat): (rs': seq<seq<ListHead>>)
    requires k < |rs| && rs[k] != []
    ensures |rs'| == |rs| && rs'[k] != [] && rs'[k][0] == rs[k][0]
  {
    rs[k := [rs[k][0]] + RotateTimes(rs[k][1..], n)]
  }

  lemma RotatedNodes(rs: seq<seq<ListHead>>, k: nat, n: nat)
    requires k < |rs| && rs[k] != []
    ensures Nodes(Rotated(rs, k, n)) <= Nodes(rs)
  {
    RotateKeeps(rs[k][1..], n);
    var rs' := Rotated(rs, k, n);
    forall j, x | 0 <= j < |rs'| && x in rs'[j]
      ensures x in Nodes(rs)
    {
      assert x in rs[j];
    }
  }

  lemma RotatedOnce(rs: seq<seq<ListHead>>, k: nat, n: nat)
    requires k < |rs| && rs[k] != []
    ensures var now := Rotated(rs, k, n);
      now[k := [now[k][0]] + Rotate(now[k][1..])] == Rotated(rs, k, n + 1)
  {
    assert Rotated(rs, k, n)[k][1..] == RotateTimes(rs[k][1..], n);
  }

  lemma RotatedRound(rs: seq<seq<ListHead>>, k: nat)
    requires k < |rs| && rs[k] != []
    ensures Rotated(rs, k, 0) == Rotated(rs, k, |rs[k]| - 1) == rs
  {
    FullRotation(rs[k][1..]);
    assert [rs[k][0]] + rs[k][1..] == rs[k];
  }

  /** n calls of list_rotate_left. */
  method RotateLeftTimes(head: ListHead, n: nat, ghost rs: seq<seq<ListHead>>, ghost k: nat)
    requires Family(rs) && k < |rs| && rs[k] != [] && rs[k][0] == head
    modifies Nodes(rs)
    ensures Family(Rotated(rs, k, n))
    ensures n == |rs[k]| - 1 ==> Family(rs)
  {
    RotatedRound(rs, k);
    for i := 0 to n
      invariant Family(Rotated(rs, k, i))
    {
      RotatedNodes(rs, k, i);
      RotatedOnce(rs, k, i);
      ListRotateLeft(head, Rotated(rs, k, i), k);
    }
  }

  // ---------------------------------------------------------------- cutting

  /** The family after ring k has been cut behind position c, the front going to the head of ring l. */
  ghost function Cut(rs: seq<seq<ListHead>>, l: nat, k: nat, c: nat): (rs': seq<seq<ListHead>>)
    requires l < |rs| && k < |rs| && l != k && rs[l] != [] && 0 < c < |rs[k]|
    ensures |rs'| == |rs|
  {
    rs[l := [rs[l][0]] + rs[k][1..c + 1]][k := [rs[k][0]] + rs[k][c + 1..]]
  }

  /** Entry by entry: up to position c, and so up to entry, the ring has moved to list; the rest has stayed. */
  lemma CutMembers(rs: seq<seq<ListHead>>, l: nat, k: nat, c: nat)
    requires l < |rs| && k < |rs| && l != k && rs[l] != [] && 0 < c < |rs[k]|
    ensures var rs' := Cut(rs, l, k, c);
      && |rs'[l]| == c + 1 && rs'[l][0] == rs[l][0]
      && (forall j | 1 <= j <= c :: rs'[l][j] == rs[k][j])
      && |rs'[k]| == |rs[k]| - c && rs'[k][0] == rs[k][0]
      && (forall j | 1 <= j < |rs[k]| - c :: rs'[k][j] == rs[k][c + j])
      && (forall j | 0 <= j < |rs| && j != l && j != k :: rs'[j] == rs[j])
  {
  }

  lemma CutDisjoint(rs: seq<seq<ListHead>>, l: nat, k: nat, c: nat)
    requires l < |rs| && k < |rs| && l != k && rs[l] != [] && 0 < c < |rs[k]|
    requires Distinct(rs[k]) && forall i, j | 0 <= i < j < |rs| :: Disjoint(rs[i], rs[j])
    ensures forall i, j | 0 <= i < j < |rs| :: Disjoint(Cut(rs, l, k, c)[i], Cut(rs, l, k, c)[j])
    ensures Distinct(Cut(rs, l, k, c)[l]) && Distinct(Cut(rs, l, k, c)[k])
  {
    var rs' := Cut(rs, l, k, c);
    assert forall x | x in rs'[l] :: x == rs[l][0] || x in rs[k];
    assert forall x | x in rs'[k] :: x in rs[k];
    assert rs[l][0] in rs[l];
    assert Disjoint(rs'[l], rs'[k]);
    forall i, j | 0 <= i < j < |rs|
      ensures Disjoint(rs'[i], rs'[j])
    {
      assert Disjoint(rs[i], rs[j]);
      assert i < l ==> Disjoint(rs[i], rs[l]);
      assert i < k ==> Disjoint(rs[i], rs[k]);
      assert j < l ==> Disjoint(rs[j], rs[l]);
      assert j < k ==> Disjoint(rs[j], rs[k]);
      assert l < i ==> Disjoint(rs[l], rs[i]);
      assert k < i ==> Disjoint(rs[k], rs[i]);
      assert l < j ==> Disjoint(rs[l], rs[j]);
      assert k < j ==> Disjoint(rs[k], rs[j]);
    }
  }

  /** What stands at and around position j of the two pieces. */
  lemma CutFrontAt(list: ListHead, r: seq<ListHead>, c: nat, j: nat)
    requires 0 < c < |r| && j <= c
    ensures var f := [list] + r[1..c + 1];
      && |f| == c + 1
      && f[j] == (if j == 0 then list else r[j])
      && After(f, j) == (if j == c then list else r[j + 1])
      && Before(f, j) == (if j == 0 then r[c] else if j == 1 then list else r[j - 1])
  {
  }

  lemma CutBackAt(r: seq<ListHead>, c: nat, j: nat)
    requires 0 < c < |r| && j < |r| - c
    ensures var b := [r[0]] + r[c + 1..];
      && |b| == |r| - c
      && b[j] == (if j == 0 then r[0] else r[c + j])
      && After(b, j) == After(r, c + j)
      && Before(b, j) == (if j == 0 then (if c == |r| - 1 then r[0] else r[|r| - 1])
                          else if j == 1 then r[0] else r[c + j - 1])
  {
  }

  /** __list_cut_position, seen on the ring it cuts: the entries up to and including r[c] go to list. */
  method CutHere(list: ListHead, head: ListHead, entry: ListHead, ghost r: seq<ListHead>, ghost c: nat)
    requires Ring(r) && 0 < c < |r| && r[0] == head && r[c] == entry && list !in r
    modifies list, head, head.next, entry, entry.next
    ensures AllLinked([list] + r[1..c + 1])
    ensures AllLinked([head] + r[c + 1..])
  {
    ghost var front, back := [list] + r[1..c + 1], [head] + r[c + 1..];
    assert Linked(r, 0) && Linked(r, c) && forall j | 0 <= j < |r| :: Linked(r, j);
    var newFirst := entry.next;
    list.next := head.next;
    list.next.prev := list;
    list.prev := entry;
    entry.next := list;
    head.next := newFirst;
    newFirst.prev := head;
    forall j | 0 <= j <= c
      ensures Linked(front, j)
    {
      CutFrontAt(list, r, c, j);
      assert old(Linked(r, j));
    }
    forall j | 0 <= j < |r| - c
      ensures Linked(back, j)
    {
      CutBackAt(r, c, j);
      assert old(Linked(r, if j == 0 then 0 else c + j));
    }
  }

  method CutAfter(list: ListHead, head: ListHead, entry: ListHead, ghost rs: seq<seq<ListHead>>,
                  ghost l: nat, ghost k: nat, ghost c: nat)
    requires Family(rs) && l < |rs| && k < |rs| && l != k
    requires rs[l] != [] && rs[l][0] == list
    requires 0 < c < |rs[k]| && rs[k][0] == head && rs[k][c] == entry
    modifies Nodes(rs)
    ensures Family(Cut(rs, l, k, c))
  {
    ghost var r := rs[k];
    OnlyOn(rs, l, list);
    OnlyOn(rs, k, head);
    OnlyOn(rs, k, entry);
    OnlyOn(rs, k, r[1]);
    OnlyOn(rs, k, After(r, c));
    CutDisjoint(rs, l, k, c);
    assert Linked(r, 0) && Linked(r, c) && list !in r;
    CutHere(list, head, entry, r, c);
    Rewired(rs, {l, k}, Cut(rs, l, k, c));
  }

  /**
   list_cut_position. c is the position of entry when it is on the ring. An empty head leaves everything
   as it was, list included; so does an entry that is not on a ring of one entry.
   */
  method ListCutPosition(list: ListHead, head: ListHead, entry: ListHead, ghost rs: seq<seq<ListHead>>,
                         ghost l: nat, ghost k: nat, ghost c: nat)
    requires Family(rs) && l < |rs| && k < |rs| && l != k
    requires rs[l] != [] && rs[l][0] == list && rs[k] != [] && rs[k][0] == head
    requires entry in rs[k] ==> c < |rs[k]| && rs[k][c] == entry
    requires |rs[k]| > 2 ==> entry in rs[k]
    modifies Nodes(rs)
    ensures Family(if |rs[k]| == 1 || entry !in rs[k] then rs
                   else if c == 0 then rs[l := [list]]
                   else Cut(rs, l, k, c))
  {
    ghost var r := rs[k];
    HeadFacts(r, 0);
    assert Linked(r, 0);
    if ListEmpty(head) {
      return;
    }
    if ListIsSingular(head) && head.next != entry && head != entry {
      assert r == [head, r[1]];
      return;
    }
    if entry == head {
      OnlyOn(rs, l, list);
      list.next := list;
      list.prev := list;
      OneRing(rs, l, [list]);
    } else {
      CutAfter(list, head, entry, rs, l, k, c);
    }
  }

  // ---------------------------------------------------------------- splicing

  /** The family after the entries of ring l were put behind position i of ring k. */
  ghost function Spliced(rs: seq<seq<ListHead>>, l: nat, k: nat, i: nat): (rs': seq<seq<ListHead>>)
    requires l < |rs| && k < |rs| && l != k && rs[l] != [] && i < |rs[k]|
    ensures |rs'| == |rs|
  {
    rs[l := []][k := rs[k][..i + 1] + rs[l][1..] + rs[k][i + 1..]]
  }

  /** Entry by entry: the entries of ring l stand, in order, between positions i and i + 1 of ring k. */
  lemma SplicedMembers(rs: seq<seq<ListHead>>, l: nat, k: nat, i: nat)
    requires l < |rs| && k < |rs| && l != k && rs[l] != [] && i < |rs[k]|
    ensures var rs', m := Spliced(rs, l, k, i), |rs[l]| - 1;
      && rs'[l] == [] && |rs'[k]| == |rs[k]| + m
      && (forall j | 0 <= j <= i :: rs'[k][j] == rs[k][j])
      && (forall j | 1 <= j <= m :: rs'[k][i + j] == rs[l][j])
      && (forall j | i < j < |rs[k]| :: rs'[k][m + j] == rs[k][j])
      && (forall j | 0 <= j < |rs| && j != l && j != k :: rs'[j] == rs[j])
  {
  }

  lemma SpliceDistinct(r: seq<ListHead>, e: seq<ListHead>, i: nat)
    requires Distinct(r) && Distinct(e) && e != [] && i < |r| && (Disjoint(r, e) || Disjoint(e, r))
    ensures Distinct(r[..i + 1] + e[1..] + r[i + 1..])
  {
    var r', m := r[..i + 1] + e[1..] + r[i + 1..], |e| - 1;
    forall a, b | 0 <= a < b < |r'|
      ensures r'[a] != r'[b]
    {
      assert i < a <= i + m ==> r'[a] == e[a - i] && r'[a] in e;
      assert i < b <= i + m ==> r'[b] == e[b - i] && r'[b] in e;
      assert a <= i ==> r'[a] == r[a];
      assert b <= i ==> r'[b] == r[b];
      assert a > i + m ==> r'[a] == r[a - m];
      assert b > i + m ==> r'[b] == r[b - m];
    }
  }

  /** What stands at and around position j of a spliced ring. */
  lemma SplicedAt(r: seq<ListHead>, e: seq<ListHead>, i: nat, j: nat)
    requires |e| > 1 && i < |r| && j < |r| + |e| - 1
    ensures var r', m := r[..i + 1] + e[1..] + r[i + 1..], |e| - 1;
      && |r'| == |r| + m
      && r'[j] == (if j <= i then r[j] else if j <= i + m then e[j - i] else r[j - m])
      && After(r', j) == (if j < i then After(r, j) else if j == i then e[1] else if j < i + m then e[j - i + 1]
                          else if j == i + m then After(r, i) else After(r, j - m))
      && Before(r', j) == (if j == 0 then (if i == |r| - 1 then e[m] else r[|r| - 1])
                           else if j <= i then r[j - 1] else if j == i + 1 then r[i]
                           else if j <= i + m then e[j - i - 1]
                           else if j == i + m + 1 then e[m] else r[j - m - 1])
  {
  }

  lemma SplicedDisjoint(rs: seq<seq<ListHead>>, l: nat, k: nat, i: nat)
    requires l < |rs| && k < |rs| && l != k && rs[l] != [] && i < |rs[k]|
    requires Distinct(rs[k]) && Distinct(rs[l]) && forall a, b | 0 <= a < b < |rs| :: Disjoint(rs[a], rs[b])
    ensures forall a, b | 0 <= a < b < |rs| :: Disjoint(Spliced(rs, l, k, i)[a], Spliced(rs, l, k, i)[b])
    ensures Distinct(Spliced(rs, l, k, i)[k])
    ensures rs[l][0] !in Spliced(rs, l, k, i)[k]
  {
    var rs' := Spliced(rs, l, k, i);
    assert if l < k then Disjoint(rs[l], rs[k]) else Disjoint(rs[k], rs[l]);
    SpliceDistinct(rs[k], rs[l], i);
    assert forall x | x in rs'[k] :: x in rs[l] || x in rs[k];
    forall a, b | 0 <= a < b < |rs|
      ensures Disjoint(rs'[a], rs'[b])
    {
      assert Disjoint(rs[a], rs[b]);
      assert a < l ==> Disjoint(rs[a], rs[l]);
      assert b < l ==> Disjoint(rs[b], rs[l]);
      assert l < a ==> Disjoint(rs[l], rs[a]);
      assert l < b ==> Disjoint(rs[l], rs[b]);
    }
  }

  /** The four assignments of a splice, and nothing else, have happened to rings l and k. */
  twostate predicate SpliceStores(rs: seq<seq<ListHead>>, l: nat, k: nat, i: nat)
    requires l < |rs| && k < |rs| && |rs[l]| > 1 && i < |rs[k]|
    reads Nodes(rs)
  {
    var e, r := rs[l], rs[k];
    var m := |e| - 1;
    && e[1].prev == r[i] && r[i].next == e[1]
    && e[m].next == After(r, i) && After(r, i).prev == e[m]
    && (forall j | 0 <= j < |r| && j != i :: r[j].next == old(r[j].next))
    && (forall j | 0 <= j < |r| && r[j] != After(r, i) :: r[j].prev == old(r[j].prev))
    && (forall j | 1 <= j < m :: e[j].next == old(e[j].next))
    && (forall j | 1 < j <= m :: e[j].prev == old(e[j].prev))
  }

  twostate lemma SplicedLinks(rs: seq<seq<ListHead>>, new l: nat, new k: nat, new i: nat)
    requires old(Family(rs)) && l < |rs| && k < |rs| && l != k && |rs[l]| > 1 && i < |rs[k]|
    requires SpliceStores(rs, l, k, i)
    ensures AllLinked(Spliced(rs, l, k, i)[k])
  {
    var e, r, r' := rs[l], rs[k], Spliced(rs, l, k, i)[k];
    var m := |e| - 1;
    assert old(AllLinked(e)) && old(AllLinked(r));
    forall j | 0 <= j < |r'|
      ensures Linked(r', j)
    {
      SplicedAt(r, e, i, j);
      if j <= i {
        assert old(Linked(r, j));
      } else if j <= i + m {
        assert old(Linked(e, j - i));
      } else {
        assert old(Linked(r, j - m));
      }
    }
  }

  /** __list_splice of a list that has entries. */
  method SpliceBetween(list: ListHead, prev: ListHead, next: ListHead, ghost rs: seq<seq<ListHead>>,
                       ghost l: nat, ghost k: nat, ghost i: nat)
    requires Family(rs) && l < |rs| && k < |rs| && l != k
    requires |rs[l]| > 1 && rs[l][0] == list
    requires i < |rs[k]| && rs[k][i] == prev && After(rs[k], i) == next
    modifies Nodes(rs) - {list}
    ensures Family(Spliced(rs, l, k, i))
  {
    ghost var e, r := rs[l], rs[k];
    OnlyOn(rs, l, e[1]);
    OnlyOn(rs, l, e[|e| - 1]);
    OnlyOn(rs, l, list);
    OnlyOn(rs, k, prev);
    OnlyOn(rs, k, next);
    SplicedDisjoint(rs, l, k, i);
    assert Linked(e, 0);
    var first := list.next;
    var last := list.prev;
    first.prev := prev;
    prev.next := first;
    last.next := next;
    next.prev := last;
    SplicedLinks(rs, l, k, i);
    Rewired(rs, {l, k}, Spliced(rs, l, k, i));
  }

  method ListSplice(list: ListHead, head: ListHead, ghost rs: seq<seq<ListHead>>,
                    ghost l: nat, ghost k: nat, ghost i: nat)
    requires Family(rs) && l < |rs| && k < |rs| && l != k
    requires rs[l] != [] && rs[l][0] == list && i < |rs[k]| && rs[k][i] == head
    modifies Nodes(rs) - {list}
    ensures Family(if |rs[l]| == 1 then rs else Spliced(rs, l, k, i))
  {
    HeadFacts(rs[l], 0);
    if !ListEmpty(list) {
      assert Linked(rs[k], i);
      SpliceBetween(list, head, head.next, rs, l, k, i);
    }
  }

  method ListSpliceTail(list: ListHead, head: ListHead, ghost rs: seq<seq<ListHead>>, ghost l: nat, ghost k: nat)
    requires Family(rs) && l < |rs| && k < |rs| && l != k
    requires rs[l] != [] && rs[l][0] == list && rs[k] != [] && rs[k][0] == head
    modifies Nodes(rs) - {list}
    ensures Family(if |rs[l]| == 1 then rs else Spliced(rs, l, k, |rs[k]| - 1))
  {
    HeadFacts(rs[l], 0);
    if !ListEmpty(list) {
      assert Linked(rs[k], 0);
      SpliceBetween(list, head.prev, head, rs, l, k, |rs[k]| - 1);
    }
  }

  /** INIT_LIST_HEAD on the head of a list whose entries were spliced away. */
  method Reinitialise(list: ListHead, ghost rs: seq<seq<ListHead>>, ghost l: nat)
    requires Family(rs) && l < |rs| && rs[l] == [] && Outside(list, rs)
    modifies list
    ensures Family(rs[l := [list]])
  {
    list.next := list;
    list.prev := list;
    OneRing(rs, l, [list]);
  }

  method ListSpliceInit(list: ListHead, head: ListHead, ghost rs: seq<seq<ListHead>>,
                        ghost l: nat, ghost k: nat, ghost i: nat)
    requires Family(rs) && l < |rs| && k < |rs| && l != k
    requires rs[l] != [] && rs[l][0] == list && i < |rs[k]| && rs[k][i] == head
    modifies Nodes(rs)
    ensures Family(if |rs[l]| == 1 then rs else Spliced(rs, l, k, i)[l := [list]])
  {
    HeadFacts(rs[l], 0);
    if !ListEmpty(list) {
      assert Linked(rs[k], i);
      OnlyOn(rs, l, list);
      SplicedDisjoint(rs, l, k, i);
      SpliceBetween(list, head, head.next, rs, l, k, i);
      Reinitialise(list, Spliced(rs, l, k, i), l);
    }
  }

  method ListSpliceTailInit(list: ListHead, head: ListHead, ghost rs: seq<seq<ListHead>>, ghost l: nat, ghost k: nat)
    requires Family(rs) && l < |rs| && k < |rs| && l != k
    requires rs[l] != [] && rs[l][0] == list && rs[k] != [] && rs[k][0] == head
    modifies Nodes(rs)
    ensures Family(if |rs[l]| == 1 then rs else Spliced(rs, l, k, |rs[k]| - 1)[l := [list]])
  {
    HeadFacts(rs[l], 0);
    if !ListEmpty(list) {
      assert Linked(rs[k], 0);
      OnlyOn(rs, l, list);
      SplicedDisjoint(rs, l, k, |rs[k]| - 1);
      SpliceBetween(list, head.prev, head, rs, l, k, |rs[k]| - 1);
      Reinitialise(list, Spliced(rs, l, k, |rs[k]| - 1), l);
    }
  }

  /** Cutting a list at any of its entries and splicing the piece back restores its order. */
  lemma SpliceUndoesCut(rs: seq<seq<ListHead>>, l: nat, k: nat, c: nat)
    requires l < |rs| && k < |rs| && l != k && rs[l] != [] && 0 < c < |rs[k]|
    ensures Spliced(Cut(rs, l, k, c), l, k, 0) == rs[l := []]
  {
    var rs' := Cut(rs, l, k, c);
    assert rs'[k][..1] + rs'[l][1..] + rs'[k][1..] == rs[k];
  }

  lemma CutNodes(rs: seq<seq<ListHead>>, l: nat, k: nat, c: nat)
    requires l < |rs| && k < |rs| && l != k && rs[l] != [] && 0 < c < |rs[k]|
    ensures Nodes(Cut(rs, l, k, c)) <= Nodes(rs)
  {
    var rs' := Cut(rs, l, k, c);
    forall j, x | 0 <= j < |rs'| && x in rs'[j]
      ensures x in Nodes(rs)
    {
      assert x in rs[j] || x in rs[k];
    }
  }

  method CutThenSplice(list: ListHead, head: ListHead, entry: ListHead, ghost rs: seq<seq<ListHead>>,
                       ghost l: nat, ghost k: nat, ghost c: nat)
    requires Family(rs) && l < |rs| && k < |rs| && l != k
    requires rs[l] != [] && rs[l][0] == list && 0 < c < |rs[k]| && rs[k][0] == head && rs[k][c] == entry
    modifies Nodes(rs)
    ensures Family(rs[l := []])
  {
    ListCutPosition(list, head, entry, rs, l, k, c);
    ghost var cut := Cut(rs, l, k, c);
    assert Nodes(cut) <= Nodes(rs) by { CutNodes(rs, l, k, c); }
    ListSplice(list, head, cut, l, k, 0);
    SpliceUndoesCut(rs, l, k, c);
  }

  // ---------------------------------------------------------------- ranges

  ghost function RemoveRange<T>(r: seq<T>, i: nat, j: nat): (r': seq<T>)
    requires i <= j < |r|
    ensures |r'| == |r| - (j + 1 - i)
    ensures forall m | 0 <= m < |r'| :: r'[m] == r[if m < i then m else m + (j + 1 - i)]
  {
    r[..i] + r[j + 1..]
  }

  method ListDelRange(begin: ListHead, end: ListHead, ghost rs: seq<seq<ListHead>>,
                      ghost k: nat, ghost i: nat, ghost j: nat)
    requires Family(rs) && k < |rs| && 0 < i <= j < |rs[k]| && rs[k][i] == begin && rs[k][j] == end
    modifies Nodes(rs)
    ensures Family(rs[k := RemoveRange(rs[k], i, j)])
  {
    ghost var r, r' := rs[k], RemoveRange(rs[k], i, j);
    OnlyOn(rs, k, Before(r, i));
    OnlyOn(rs, k, After(r, j));
    assert Linked(r, i) && Linked(r, j) && forall m | 0 <= m < |r| :: Linked(r, m);
    begin.prev.next := end.next;
    end.next.prev := begin.prev;
    forall m | 0 <= m < |r'|
      ensures Linked(r', m)
    {
      var was := if m < i then m else m + (j + 1 - i);
      assert r'[m] == r[was] && old(Linked(r, was));
    }
    assert Distinct(r');
    assert OthersDisjoint(rs, {k}, r') by {
      assert forall x | x in r' :: x in r;
    }
    OneRing(rs, k, r');
  }

  // ---------------------------------------------------------------- iteration that survives deletion

  function Keep<T(==)>(es: seq<T>, doomed: set<T>): (r: seq<T>)
    ensures forall x | x in r :: x in es && x !in doomed
    ensures forall x | x in es && x !in doomed :: x in r
  {
    if es == [] then []
    else Keep(es[..|es| - 1], doomed) + if es[|es| - 1] in doomed then [] else [es[|es| - 1]]
  }

  lemma KeepOneMore<T>(es: seq<T>, x: T, doomed: set<T>)
    ensures Keep(es + [x], doomed) == Keep(es, doomed) + if x in doomed then [] else [x]
  {
    assert (es + [x])[..|es|] == es;
  }

  lemma {:induction false} KeepPrefix<T>(es: seq<T>, n: nat, doomed: set<T>)
    requires n <= |es|
    ensures |Keep(es[..n], doomed)| <= |Keep(es, doomed)|
    ensures Keep(es, doomed)[..|Keep(es[..n], doomed)|] == Keep(es[..n], doomed)
  {
    if n == |es| {
      assert es[..n] == es;
    } else {
      var front := es[..|es| - 1];
      KeepPrefix(front, n, doomed);
      assert front[..n] == es[..n];
    }
  }

  lemma PrefixEnd<T>(r: seq<T>, kept: seq<T>, x: T)
    requires |kept| + 1 <= |r| && r[..|kept| + 1] == kept + [x]
    ensures r[|kept|] == x
  {
    assert r[|kept|] == r[..|kept| + 1][|kept|];
  }

  /** Each entry that stays stands behind exactly the earlier ones that stay: nothing is reordered or repeated. */
  lemma KeepsOrder<T>(es: seq<T>, i: nat, doomed: set<T>)
    requires i < |es| && es[i] !in doomed
    ensures var p := |Keep(es[..i], doomed)|; p < |Keep(es, doomed)| && Keep(es, doomed)[p] == es[i]
    ensures |Keep(es[..i + 1], doomed)| == |Keep(es[..i], doomed)| + 1
  {
    var kept := Keep(es[..i], doomed);
    assert es[..i + 1] == es[..i] + [es[i]];
    KeepOneMore(es[..i], es[i], doomed);
    assert Keep(es[..i + 1], doomed) == kept + [es[i]];
    KeepPrefix(es, i + 1, doomed);
    PrefixEnd(Keep(es, doomed), kept, es[i]);
  }

  ghost function Around(head: ListHead, kept: seq<ListHead>, rest: seq<ListHead>): seq<ListHead> {
    [head] + kept + rest
  }

  /** Stepping past the first node of rest, with it deleted or kept. */
  lemma AroundStep(head: ListHead, kept: seq<ListHead>, rest: seq<ListHead>)
    requires rest != []
    ensures RemoveAt(Around(head, kept, rest), 1 + |kept|) == Around(head, kept, rest[1..])
    ensures Around(head, kept + [rest[0]], rest[1..]) == Around(head, kept, rest)
    ensures Around(head, kept, rest)[1 + |kept|] == rest[0]
  {
  }

  /** A loop body that deletes the node it is at if it is doomed. */
  method Visit(pos: ListHead, doomed: set<ListHead>, ghost rs: seq<seq<ListHead>>, ghost k: nat,
               ghost head: ListHead, ghost visited: seq<ListHead>, ghost rest: seq<ListHead>)
    requires k < |rs| && rest != [] && rest[0] == pos
    requires Family(rs[k := Around(head, Keep(visited, doomed), rest)])
    modifies Nodes(rs[k := Around(head, Keep(visited, doomed), rest)])
    ensures Family(rs[k := Around(head, Keep(visited + [pos], doomed), rest[1..])])
  {
    ghost var kept := Keep(visited, doomed);
    ghost var r, p := Around(head, kept, rest), 1 + |kept|;
    KeepOneMore(visited, pos, doomed);
    assert rs[k := r][k] == r;
    AroundStep(head, kept, rest);
    if pos in doomed {
      assert rs[k := r][k := RemoveAt(r, p)] == rs[k := RemoveAt(r, p)];
      assert Keep(visited + [pos], doomed) == kept;
      assert Linked(r, p);
      ListDel(pos, rs[k := r], k, p);
    }
  }

  lemma OneOnward<T>(a: seq<T>, b: seq<T>)
    requires b != []
    ensures a + b == a + [b[0]] + b[1..]
  {
  }

  /** Of the ring some visited nodes have gone, and no new node has come into sight. */
  lemma StillInSight(rs: seq<seq<ListHead>>, k: nat, visited: seq<ListHead>, rest: seq<ListHead>, doomed: set<ListHead>)
    requires k < |rs| && rs[k] != [] && visited + rest == rs[k][1..]
    ensures Nodes(rs[k := Around(rs[k][0], Keep(visited, doomed), rest)]) <= Nodes(rs)
  {
    var r := Around(rs[k][0], Keep(visited, doomed), rest);
    forall x | x in r
      ensures x in rs[k]
    {
      assert x == rs[k][0] || x in visited + rest;
    }
    var rs' := rs[k := r];
    forall j, x | 0 <= j < |rs'| && x in rs'[j]
      ensures x in Nodes(rs)
    {
      assert x in rs[j];
    }
  }

  /** pos and the node behind it, in front of what is still to be visited. */
  ghost predicate Cursor(head: ListHead, rest: seq<ListHead>, pos: ListHead?, n: ListHead?) {
    && pos == (if rest == [] then head else rest[0])
    && (rest != [] ==> n == if |rest| == 1 then head else rest[1])
  }

  lemma CursorNext(rs: seq<seq<ListHead>>, k: nat, head: ListHead, kept: seq<ListHead>, rest: seq<ListHead>,
                   pos: ListHead?)
    requires k < |rs| && Family(rs[k := Around(head, kept, rest)]) && pos == (if rest == [] then head else rest[0])
    ensures pos != null && pos.next != null && Cursor(head, rest, pos, pos.next)
  {
    var r := Around(head, kept, rest);
    assert rs[k := r][k] == r;
    assert Linked(r, if rest == [] then 0 else 1 + |kept|);
  }

  /**
   list_for_each_entry_safe with a body that deletes the current node when it is doomed: every original
   node is visited exactly once, in order, and those that stay keep their order. When all are doomed
   this is the teardown of a module's list.
   */
  method ForEachSafe(head: ListHead, doomed: set<ListHead>, ghost rs: seq<seq<ListHead>>, ghost k: nat)
    returns (ghost visited: seq<ListHead>)
    requires Family(rs) && k < |rs| && rs[k] != [] && rs[k][0] == head
    modifies Nodes(rs)
    ensures visited == rs[k][1..]
    ensures Family(rs[k := [head] + Keep(rs[k][1..], doomed)])
  {
    visited := [];
    ghost var rest := rs[k][1..];
    assert Around(head, Keep(visited, doomed), rest) == rs[k] && rs[k := rs[k]] == rs;
    assert Linked(rs[k], 0) && head !in rest;
    var pos := head.next;
    CursorNext(rs, k, head, Keep(visited, doomed), rest, pos);
    var n := pos.next;
    while pos != head
      invariant visited + rest == rs[k][1..] && head !in rest
      invariant Family(rs[k := Around(head, Keep(visited, doomed), rest)])
      invariant Cursor(head, rest, pos, n)
      decreases |rest|
    {
      StillInSight(rs, k, visited, rest, doomed);
      Visit(pos, doomed, rs, k, head, visited, rest);
      OneOnward(visited, rest);
      visited, rest := visited + [rest[0]], rest[1..];
      CursorNext(rs, k, head, Keep(visited, doomed), rest, n);
      pos := n;
      n := n.next;
    }
    assert rest == [] && visited == rs[k][1..];
    assert Around(head, Keep(visited, doomed), rest) == [head] + Keep(visited, doomed);
  }

  lemma {:induction false} KeepNone<T>(es: seq<T>, doomed: set<T>)
    requires forall x | x in es :: x in doomed
    ensures Keep(es, doomed) == []
  {
    if es == [] {
    } else {
      KeepNone(es[..|es| - 1], doomed);
    }
  }

  /** With every entry doomed the ring is left empty. */
  method Teardown(head: ListHead, entries: set<ListHead>, ghost rs: seq<seq<ListHead>>, ghost k: nat)
    requires Family(rs) && k < |rs| && rs[k] != [] && rs[k][0] == head && forall x | x in rs[k][1..] :: x in entries
    modifies Nodes(rs)
    ensures Family(rs[k := [head]]) && ListEmpty(head)
  {
    ghost var visited := ForEachSafe(head, entries, rs, k);
    KeepNone(rs[k][1..], entries);
    assert [head] + Keep(rs[k][1..], entries) == [head];
    assert rs[k := [head]][k] == [head];
    HeadFacts([head], 0);
  }

  /** The same loop that stops at the first match, as deregistration does: it removes that node alone. */
  method DeleteFirst(head: ListHead, matching: set<ListHead>, ghost rs: seq<seq<ListHead>>, ghost k: nat)
    returns (found: bool, ghost i: nat)
    requires Family(rs) && k < |rs| && rs[k] != [] && rs[k][0] == head
    modifies Nodes(rs)
    ensures 0 < i <= |rs[k]| && (forall j | 0 < j < i :: rs[k][j] !in matching)
    ensures found <==> i < |rs[k]|
    ensures found ==> rs[k][i] in matching
    ensures Family(if found then rs[k := RemoveAt(rs[k], i)] else rs)
  {
    ghost var r := rs[k];
    assert Linked(r, 0);
    var pos := head.next;
    i := 1;
    assert 1 < |r| ==> Linked(r, 1);
    var n := pos.next;
    while pos != head
      invariant 0 < i <= |r| && (forall j | 0 < j < i :: r[j] !in matching)
      invariant Family(rs)
      invariant pos == if i == |r| then head else r[i]
      invariant i < |r| ==> n == After(r, i)
      decreases |r| - i
    {
      if pos in matching {
        assert Linked(r, i);
        ListDel(pos, rs, k, i);
        return true, i;
      }
      pos := n;
      i := i + 1;
      assert Linked(r, if pos == head then 0 else i);
      n := n.next;
    }
    found := false;
  }
}
