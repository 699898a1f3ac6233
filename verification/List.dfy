// The intrusive doubly linked list.
module List {
  import opened Records
  import opened Sealing
  import opened Shapes

  datatype ListHook = ListHook(next: Node?, prev: Node?)
  type ListSnapshot = map<Node, ListHook>

  /** m has the list hooks of the nodes in S. */
  ghost predicate IsListSnap(S: set<Node>, m: ListSnapshot)
    reads S`next, S`prev
  {
    m.Keys == S && forall n {:trigger m[n]} | n in S :: m[n] == ListHook(n.next, n.prev)
  }

  lemma {:induction false} ListSnapExists(S: set<Node>)
    ensures exists m: ListSnapshot :: IsListSnap(S, m)
  {
    if S == {} {
      var m: ListSnapshot := map[];
      assert IsListSnap(S, m);
    } else {
      var n :| n in S;
      ListSnapExists(S - {n});
      var m: ListSnapshot :| IsListSnap(S - {n}, m);
      assert IsListSnap(S, m[n := ListHook(n.next, n.prev)]);
    }
  }

  ghost function ListSnap(S: set<Node>): (m: ListSnapshot)
    reads S`next, S`prev
    ensures m.Keys == S && forall n {:trigger m[n]} | n in S :: m[n] == ListHook(n.next, n.prev)
  {
    ListSnapExists(S);
    var m: ListSnapshot :| IsListSnap(S, m);
    m
  }

  ghost function FirstOr(s: seq<Node>, d: Node?): Node? {
    if s == [] then d else s[0]
  }

  ghost function LastOr(s: seq<Node>, d: Node?): Node? {
    if s == [] then d else s[|s| - 1]
  }

  /** In m the nodes of s are linked in this order, with b before the first and a after the last. */
  ghost predicate Chain(m: ListSnapshot, s: seq<Node>, b: Node?, a: Node?) {
    s != [] ==> s[0] in m && m[s[0]] == ListHook(FirstOr(s[1..], a), b) && Chain(m, s[1..], s[0], a)
  }

  ghost predicate Unique(s: seq<Node>) {
    s != [] ==> s[0] !in s[1..] && Unique(s[1..])
  }

  lemma {:induction false} ChainConcat(m: ListSnapshot, x: seq<Node>, y: seq<Node>, b: Node?, a: Node?)
    ensures Chain(m, x + y, b, a) <==> Chain(m, x, b, FirstOr(y, a)) && Chain(m, y, LastOr(x, b), a)
  {
    if x == [] {
      assert x + y == y;
    } else {
      assert (x + y)[1..] == x[1..] + y;
      ChainConcat(m, x[1..], y, x[0], a);
    }
  }

  lemma {:induction false} ChainKept(m: ListSnapshot, m': ListSnapshot, s: seq<Node>, b: Node?, a: Node?)
    requires Chain(m, s, b, a) && forall n | n in s :: n in m ==> n in m' && m'[n] == m[n]
    ensures Chain(m', s, b, a)
  {
    if s != [] { ChainKept(m, m', s[1..], s[0], a); }
  }

  /** Only the first node's prev has changed. */
  lemma ChainHeadMoved(m: ListSnapshot, m': ListSnapshot, s: seq<Node>, b: Node?, a: Node?, b': Node?)
    requires Chain(m, s, b, a) && Unique(s)
    requires s != [] ==> s[0] in m' && m'[s[0]] == m[s[0]].(prev := b')
    requires forall n | n in s && n != s[0] :: n in m ==> n in m' && m'[n] == m[n]
    ensures Chain(m', s, b', a)
  {
    if s != [] { ChainKept(m, m', s[1..], s[0], a); }
  }

  /** Only the last node's next has changed. */
  lemma {:induction false} ChainTailMoved(m: ListSnapshot, m': ListSnapshot, s: seq<Node>, b: Node?, a: Node?, a': Node?)
    requires Chain(m, s, b, a) && Unique(s)
    requires s != [] ==> var z := s[|s| - 1]; z in m ==> z in m' && m'[z] == m[z].(next := a')
    requires forall n | n in s && n != LastOr(s, null) :: n in m ==> n in m' && m'[n] == m[n]
    ensures Chain(m', s, b, a')
  {
    if |s| > 1 {
      assert s[1..][|s| - 2] == s[|s| - 1];
      ChainTailMoved(m, m', s[1..], s[0], a, a');
    }
  }

  lemma {:induction false} UniqueConcat(x: seq<Node>, n: Node, y: seq<Node>)
    requires Unique(x + [n] + y)
    ensures Unique(x) && Unique(y) && Unique(x + y) && n !in x && n !in y && forall k | k in x :: k !in y
  {
    var s := x + [n] + y;
    if x == [] {
      assert s[1..] == y && x + y == y;
    } else {
      assert s[1..] == x[1..] + [n] + y && (x + y)[1..] == x[1..] + y;
      UniqueConcat(x[1..], n, y);
      assert n in s[1..] && forall k | k in y :: k in s[1..];
      assert forall k | k in x[1..] :: k in s[1..];
    }
  }

  lemma {:induction false} UniqueAppend(s: seq<Node>, n: Node)
    requires Unique(s) && n !in s
    ensures Unique(s + [n])
  {
    if s != [] {
      assert (s + [n])[1..] == s[1..] + [n];
      UniqueAppend(s[1..], n);
    }
  }

  /** The whole list: exactly the nodes of s, null at both ends. */
  ghost predicate Whole(m: ListSnapshot, s: seq<Node>, head: Node?, tail: Node?) {
    forall k: nat :: Unsealed(k) ==>
      && Chain(m, s, null, null) && Unique(s) && head == FirstOr(s, null) && tail == LastOr(s, null)
      && (forall n | n in m :: n in s) && (forall n | n in s :: n in m)
  }

  lemma WholeHas(m: ListSnapshot, s: seq<Node>, head: Node?, tail: Node?)
    requires Whole(m, s, head, tail)
    ensures Unique(s) && head == FirstOr(s, null) && tail == LastOr(s, null) && forall n :: n in m <==> n in s
  {
    assert Unsealed(0);
  }

  lemma LastIn(s: seq<Node>)
    ensures LastOr(s, null) != null ==> LastOr(s, null) in s
    ensures FirstOr(s, null) != null ==> FirstOr(s, null) in s
  {}

  lemma Appended(m: ListSnapshot, m': ListSnapshot, s: seq<Node>, n: Node, head: Node?, tail: Node?)
    requires Whole(m, s, head, tail) && n !in m && m'.Keys == m.Keys + {n} && m'[n] == ListHook(null, tail)
    requires tail != null ==> tail in m && m'[tail] == m[tail].(next := n)
    requires forall k | k in m && k != tail :: m'[k] == m[k]
    ensures Whole(m', s + [n], if head == null then n else head, n)
  {
    assert Unsealed(0);
    LastIn(s);
    ChainTailMoved(m, m', s, null, null, n);
    assert Chain(m', [n], LastOr(s, null), null);
    ChainConcat(m', s, [n], null, null);
    UniqueAppend(s, n);
    assert forall k | k in s :: k in s + [n];
  }

  lemma Removed(m: ListSnapshot, m': ListSnapshot, x: seq<Node>, n: Node, y: seq<Node>, head: Node?, tail: Node?)
    requires Whole(m, x + [n] + y, head, tail) && m'.Keys == m.Keys - {n}
    requires var b, a := LastOr(x, null), FirstOr(y, null);
      && (b != null ==> b in m && b in m' && m'[b] == m[b].(next := a))
      && (a != null ==> a in m && a in m' && m'[a] == m[a].(prev := b))
      && (forall k | k in m' && k != b && k != a :: m'[k] == m[k])
    ensures Whole(m', x + y, if x == [] then FirstOr(y, null) else head, if y == [] then LastOr(x, null) else tail)
  {
    assert Unsealed(0);
    UniqueConcat(x, n, y);
    LastIn(x);
    LastIn(y);
    RemovedChains(m, m', x, n, y);
    ChainConcat(m', x, y, null, null);
    assert forall k | k in m' :: k in x + y;
  }

  lemma RemovedChains(m: ListSnapshot, m': ListSnapshot, x: seq<Node>, n: Node, y: seq<Node>)
    requires Chain(m, x + [n] + y, null, null) && Unique(x + [n] + y) && m'.Keys == m.Keys - {n}
    requires var b, a := LastOr(x, null), FirstOr(y, null);
      && (b != null ==> b in m && b in m' && m'[b] == m[b].(next := a))
      && (a != null ==> a in m && a in m' && m'[a] == m[a].(prev := b))
      && (forall k | k in m' && k != b && k != a :: m'[k] == m[k])
    ensures Chain(m', x, null, FirstOr(y, null)) && Chain(m', y, LastOr(x, null), null)
  {
    UniqueConcat(x, n, y);
    LastIn(x);
    LastIn(y);
    ChainConcat(m, x + [n], y, null, null);
    ChainConcat(m, x, [n], null, FirstOr(y, null));
    ChainTailMoved(m, m', x, null, n, FirstOr(y, null));
    ChainHeadMoved(m, m', y, n, null, LastOr(x, null));
  }

  /** m after the neighbours of n have been made to pass it by. */
  ghost function Past(m: ListSnapshot, n: Node): (m': ListSnapshot)
    requires n in m && (m[n].prev != null ==> m[n].prev in m) && (m[n].next != null ==> m[n].next in m)
    ensures m'.Keys == m.Keys
  {
    var b, a := m[n].prev, m[n].next;
    var m1 := if b == null then m else m[b := m[b].(next := a)];
    if a == null then m1 else m1[a := m1[a].(prev := b)]
  }

  /** What Del needs to know about the node's neighbours, and what it leaves. */
  lemma PastRemoved(m: ListSnapshot, s: seq<Node>, n: Node, head: Node?, tail: Node?)
    requires Whole(m, s, head, tail) && n in m
    ensures var b, a := m[n].prev, m[n].next; b != n && a != n && (b != null ==> b in m && b != a) && (a != null ==> a in m)
    ensures var b, a := m[n].prev, m[n].next;
      Whole(Past(m, n) - {n}, Without(s, n), if b == null then a else head, if a == null then b else tail)
  {
    WholeHas(m, s, head, tail);
    var x, y := Around(s, n);
    Surroundings(m, x, n, y, head, tail);
    WithoutMiddle(x, n, y);
    LastIn(x);
    LastIn(y);
    PassedBy(m, n);
    Removed(m, Past(m, n) - {n}, x, n, y, head, tail);
  }

  lemma PassedBy(m: ListSnapshot, n: Node)
    requires n in m
    requires var b, a := m[n].prev, m[n].next; b != n && a != n && (b != null ==> b in m && b != a) && (a != null ==> a in m)
    ensures var b, a, m' := m[n].prev, m[n].next, Past(m, n) - {n};
      && m'.Keys == m.Keys - {n}
      && (b != null ==> b in m' && m'[b] == m[b].(next := a)) && (a != null ==> a in m' && m'[a] == m[a].(prev := b))
      && (forall k | k in m' && k != b && k != a :: m'[k] == m[k])
  {}

  lemma ListSnapIs(S: set<Node>, m: ListSnapshot)
    requires IsListSnap(S, m)
    ensures ListSnap(S) == m
  {}

  lemma ListSnapMinus(S: set<Node>, n: Node)
    ensures ListSnap(S - {n}) == ListSnap(S) - {n}
  {
    ListSnapIs(S - {n}, ListSnap(S) - {n});
  }

  class HevList {
    var head: Node?
    var tail: Node?
    ghost var items: seq<Node>  // the nodes from head to tail
    ghost var Repr: set<Node>   // the same nodes, as a set

    ghost predicate Valid()
      reads this, Repr`next, Repr`prev
    {
      Whole(ListSnap(Repr), items, head, tail)
    }

    constructor ()
      ensures Valid() && items == [] && Repr == {}
    {
      head, tail, items, Repr := null, null, [], {};
    }

    method AddTail(new_: Node)
      requires Valid() && new_ !in Repr
      modifies this, new_`next, new_`prev, Repr`next
      ensures Valid() && items == old(items) + [new_] && Repr == old(Repr) + {new_}
    {
      ghost var m, h, t := ListSnap(Repr), head, tail;
      WholeHas(m, items, head, tail);
      LastIn(items);
      new_.prev := tail;
      new_.next := null;
      if tail != null {
        tail.next := new_;
      } else {
        head := new_;
      }
      tail := new_;
      Repr := Repr + {new_};
      Appended(m, ListSnap(Repr), items, new_, h, t);
      items := items + [new_];
    }

    method Del(node: Node)
      requires Valid() && node in Repr
      modifies this, Repr`next, Repr`prev
      ensures Valid() && items == Without(old(items), node) && Repr == old(Repr) - {node}
    {
      Neighbours(node);
      ghost var left, m' := Without(items, node), Past(ListSnap(Repr), node) - {node};
      UnlinkAll(node, Repr);
      ListSnapMinus(Repr, node);
      assert Whole(m', left, head, tail);
      Repr, items := Repr - {node}, left;
      assert ListSnap(Repr) == m';
    }

    lemma Neighbours(node: Node)
      requires Valid() && node in Repr
      ensures node.prev != node && node.next != node && (node.prev != null ==> node.prev in Repr && node.prev != node.next)
      ensures node.next != null ==> node.next in Repr
      ensures Whole(Past(ListSnap(Repr), node) - {node}, Without(items, node),
                    if node.prev == null then node.next else head, if node.next == null then node.prev else tail)
    {
      PastRemoved(ListSnap(Repr), items, node, head, tail);
    }

    method UnlinkAll(node: Node, ghost S: set<Node>)
      requires node in S && (node.prev != null ==> node.prev in S) && (node.next != null ==> node.next in S)
      requires node.prev != node && node.next != node && (node.prev != null ==> node.prev != node.next)
      modifies this`head, this`tail, S`next, S`prev
      ensures ListSnap(S) == Past(old(ListSnap(S)), node)
      ensures head == (if old(node.prev) == null then old(node.next) else old(head))
      ensures tail == (if old(node.next) == null then old(node.prev) else old(tail))
    {
      ghost var m := ListSnap(S);
      Unlink(node);
      ListSnapIs(S, Past(m, node));
    }

    /** The stores of Del: node's neighbours, or the ends of the list, now pass it by. */
    method Unlink(node: Node)
      requires node.prev != node && node.next != node && (node.prev != null ==> node.prev != node.next)
      modifies this`head, this`tail
      modifies (if node.prev == null then {} else {node.prev})`next, (if node.next == null then {} else {node.next})`prev
      ensures var b, a := node.prev, node.next;
        && (b != null ==> b.next == a && head == old(head)) && (b == null ==> head == a)
        && (a != null ==> a.prev == b && tail == old(tail)) && (a == null ==> tail == b)
    {
      if node.prev != null {
        node.prev.next := node.next;
      } else {
        head := node.next;
      }
      if node.next != null {
        node.next.prev := node.prev;
      } else {
        tail := node.prev;
      }
    }
  }

  lemma Around(s: seq<Node>, n: Node) returns (x: seq<Node>, y: seq<Node>)
    requires n in s
    ensures s == x + [n] + y
  {
    var k :| 0 <= k < |s| && s[k] == n;
    x, y := s[..k], s[k + 1..];
  }

  /** The hook of a node in the middle, and who its neighbours are. */
  lemma Surroundings(m: ListSnapshot, x: seq<Node>, n: Node, y: seq<Node>, head: Node?, tail: Node?)
    requires Whole(m, x + [n] + y, head, tail)
    ensures n in m && m[n] == ListHook(FirstOr(y, null), LastOr(x, null)) && n !in x
    ensures var b, a := LastOr(x, null), FirstOr(y, null);
      (b != null ==> b in m && b != n && b != a) && (a != null ==> a in m && a != n)
  {
    assert Unsealed(0);
    UniqueConcat(x, n, y);
    LastIn(x);
    LastIn(y);
    ChainConcat(m, x + [n], y, null, null);
    ChainConcat(m, x, [n], null, FirstOr(y, null));
    assert forall k | k in x :: k in x + [n] + y;
    assert forall k | k in y :: k in x + [n] + y;
  }
}
