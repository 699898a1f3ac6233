// The two orders that callers keep their trees in, and what a descent in such a tree knows.
module SearchOrder {
  import opened Records
  import opened Shapes
  import opened Links

  // ----- comparing byte strings -----

  /** memcmp on strings of equal length, strcmp on strings without NUL: the sign decides. */
  ghost function Compare(a: seq<int>, b: seq<int>): int {
    if a == [] then (if b == [] then 0 else -1)
    else if b == [] then 1
    else if a[0] != b[0] then (if a[0] < b[0] then -1 else 1)
    else Compare(a[1..], b[1..])
  }

  lemma {:induction false} CompareEqual(a: seq<int>, b: seq<int>)
    ensures Compare(a, b) == 0 <==> a == b
  {
    if a != [] && b != [] && a[0] == b[0] {
      CompareEqual(a[1..], b[1..]);
      assert a == [a[0]] + a[1..] && b == [b[0]] + b[1..];
    }
  }

  lemma {:induction false} CompareFlip(a: seq<int>, b: seq<int>)
    ensures Compare(a, b) == -Compare(b, a)
  {
    if a != [] && b != [] && a[0] == b[0] {
      CompareFlip(a[1..], b[1..]);
    }
  }

  lemma {:induction false} CompareTransitive(a: seq<int>, b: seq<int>, c: seq<int>)
    requires Compare(a, b) > 0 && Compare(b, c) > 0
    ensures Compare(a, c) > 0
  {
    if b != [] && c != [] && a[0] == b[0] == c[0] {
      CompareTransitive(a[1..], b[1..], c[1..]);
    }
  }

  // ----- the orders -----

  datatype Order = ByLength | ByBytes

  /** Under ByLength shorter names come first; names of one length compare bytewise. */
  ghost function Key(o: Order, name: seq<byte>): seq<int> {
    if o == ByLength then [|name|] + name else name
  }

  ghost function Cmp(o: Order, a: seq<byte>, b: seq<byte>): int {
    Compare(Key(o, a), Key(o, b))
  }

  lemma KeyInjective(o: Order, a: seq<byte>, b: seq<byte>)
    ensures Key(o, a) == Key(o, b) <==> a == b
  {
    if o == ByLength && Key(o, a) == Key(o, b) {
      assert a == Key(o, a)[1..] && b == Key(o, b)[1..];
    }
  }

  lemma CmpEqual(o: Order, a: seq<byte>, b: seq<byte>)
    ensures Cmp(o, a, b) == 0 <==> a == b
  {
    KeyInjective(o, a, b);
    CompareEqual(Key(o, a), Key(o, b));
  }

  // ----- ordered sequences -----

  /** The sequence is strictly descending: a descent goes left from a node smaller than the name sought. */
  ghost predicate Descending(o: Order, s: seq<Node>) {
    forall i, j | 0 <= i < j < |s| :: Cmp(o, s[i].name, s[j].name) > 0
  }

  ghost predicate AllAbove(o: Order, s: seq<Node>, name: seq<byte>) {
    forall i | 0 <= i < |s| :: Cmp(o, s[i].name, name) > 0
  }

  ghost predicate AllBelow(o: Order, s: seq<Node>, name: seq<byte>) {
    forall i | 0 <= i < |s| :: Cmp(o, s[i].name, name) < 0
  }

  lemma SplitAbove(o: Order, x: seq<Node>, n: Node, y: seq<Node>)
    requires Descending(o, x + [n] + y)
    ensures AllAbove(o, x, n.name)
  {
    var s := x + [n] + y;
    forall i | 0 <= i < |x| ensures Cmp(o, x[i].name, n.name) > 0 {
      assert s[i] == x[i] && s[|x|] == n;
    }
  }

  lemma SplitBelow(o: Order, x: seq<Node>, n: Node, y: seq<Node>)
    requires Descending(o, x + [n] + y)
    ensures AllBelow(o, y, n.name)
  {
    var s := x + [n] + y;
    forall i | 0 <= i < |y| ensures Cmp(o, y[i].name, n.name) < 0 {
      assert s[|x|] == n && s[|x| + 1 + i] == y[i];
      CompareFlip(Key(o, n.name), Key(o, y[i].name));
    }
  }

  lemma SplitJoined(o: Order, x: seq<Node>, n: Node, y: seq<Node>)
    requires Descending(o, x + [n] + y)
    ensures Descending(o, x + y)
  {
    var s, z := x + [n] + y, x + y;
    forall i, j | 0 <= i < j < |z| ensures Cmp(o, z[i].name, z[j].name) > 0 {
      var i', j' := if i < |x| then i else i + 1, if j < |x| then j else j + 1;
      assert z[i] == s[i'] && z[j] == s[j'];
    }
  }

  lemma JoinDescending(o: Order, x: seq<Node>, n: Node, y: seq<Node>)
    requires Descending(o, x + y) && AllAbove(o, x, n.name) && AllBelow(o, y, n.name)
    ensures Descending(o, x + [n] + y)
  {
    var s, z := x + [n] + y, x + y;
    forall i, j | 0 <= i < j < |s| ensures Cmp(o, s[i].name, s[j].name) > 0 {
      if i == |x| {
        assert s[j] == y[j - |x| - 1];
        CompareFlip(Key(o, n.name), Key(o, s[j].name));
      } else if j == |x| {
        assert s[i] == x[i];
      } else {
        assert s[i] == z[if i < |x| then i else i - 1];
        assert s[j] == z[if j < |x| then j else j - 1];
      }
    }
  }

  lemma AboveTransitive(o: Order, s: seq<Node>, a: seq<byte>, b: seq<byte>)
    requires AllAbove(o, s, a) && Cmp(o, a, b) > 0
    ensures AllAbove(o, s, b)
  {
    forall i | 0 <= i < |s| ensures Cmp(o, s[i].name, b) > 0 {
      CompareTransitive(Key(o, s[i].name), Key(o, a), Key(o, b));
    }
  }

  lemma BelowTransitive(o: Order, s: seq<Node>, a: seq<byte>, b: seq<byte>)
    requires AllBelow(o, s, a) && Cmp(o, a, b) < 0
    ensures AllBelow(o, s, b)
  {
    forall i | 0 <= i < |s| ensures Cmp(o, s[i].name, b) < 0 {
      CompareFlip(Key(o, s[i].name), Key(o, a));
      CompareFlip(Key(o, a), Key(o, b));
      CompareTransitive(Key(o, b), Key(o, a), Key(o, s[i].name));
      CompareFlip(Key(o, s[i].name), Key(o, b));
    }
  }

  // ----- descending the tree -----

  /** A descent for name has reached t at the hole of p: everything it has passed on the left is
      above the name, everything on the right below. */
  ghost predicate Reached(o: Order, whole: Tree, name: seq<byte>, p: Path, t: Tree) {
    && Plug(p, t) == whole && Descending(o, Contents(p, t))
    && AllAbove(o, Before(p), name) && AllBelow(o, After(p), name)
  }

  lemma Start(o: Order, whole: Tree, name: seq<byte>)
    requires Descending(o, Inorder(whole))
    ensures Reached(o, whole, name, Top, whole)
  {
    assert Contents(Top, whole) == Inorder(whole);
  }

  lemma GoLeft(o: Order, whole: Tree, name: seq<byte>, p: Path, t: Tree)
    requires Reached(o, whole, name, p, t) && t.Fork? && Cmp(o, t.node.name, name) < 0
    ensures Reached(o, whole, name, LeftOf(t.node, t.color, t.right, p), t.left)
  {
    var n, l, r := t.node, t.left, t.right;
    ContentsUp(LeftOf(n, t.color, r, p), l);
    Middle(p, t);
    SplitBelow(o, Before(p) + Inorder(l), n, Inorder(r) + After(p));
    BelowPart(o, Inorder(r), After(p), n.name);
    BelowTransitive(o, Inorder(r), n.name, name);
    BelowJoin(o, n, Inorder(r), After(p), name);
  }

  lemma GoRight(o: Order, whole: Tree, name: seq<byte>, p: Path, t: Tree)
    requires Reached(o, whole, name, p, t) && t.Fork? && Cmp(o, t.node.name, name) > 0
    ensures Reached(o, whole, name, RightOf(t.left, t.node, t.color, p), t.right)
  {
    var n, l, r := t.node, t.left, t.right;
    ContentsUp(RightOf(l, n, t.color, p), r);
    Middle(p, t);
    SplitAbove(o, Before(p) + Inorder(l), n, Inorder(r) + After(p));
    AbovePart(o, Before(p), Inorder(l), n.name);
    AboveTransitive(o, Inorder(l), n.name, name);
    AboveJoin(o, Before(p), Inorder(l), n, name);
  }

  lemma Middle(p: Path, t: Tree)
    requires t.Fork?
    ensures Contents(p, t) == (Before(p) + Inorder(t.left)) + [t.node] + (Inorder(t.right) + After(p))
  {
    Regroup(Before(p), Inorder(t.left), [t.node], Inorder(t.right), After(p));
    Assoc(Before(p) + Inorder(t.left) + [t.node], Inorder(t.right), After(p));
  }

  lemma BelowPart(o: Order, x: seq<Node>, y: seq<Node>, name: seq<byte>)
    requires AllBelow(o, x + y, name)
    ensures AllBelow(o, x, name)
  {
    assert forall i | 0 <= i < |x| :: x[i] == (x + y)[i];
  }

  lemma BelowJoin(o: Order, n: Node, x: seq<Node>, y: seq<Node>, name: seq<byte>)
    requires Cmp(o, n.name, name) < 0 && AllBelow(o, x, name) && AllBelow(o, y, name)
    ensures AllBelow(o, [n] + x + y, name)
  {}

  lemma AbovePart(o: Order, x: seq<Node>, y: seq<Node>, name: seq<byte>)
    requires AllAbove(o, x + y, name)
    ensures AllAbove(o, y, name)
  {
    assert forall i | 0 <= i < |y| :: y[i] == (x + y)[|x| + i];
  }

  lemma AboveJoin(o: Order, x: seq<Node>, y: seq<Node>, n: Node, name: seq<byte>)
    requires AllAbove(o, x, name) && AllAbove(o, y, name) && Cmp(o, n.name, name) > 0
    ensures AllAbove(o, x + y + [n], name)
  {}

  // ----- the finite map that an ordered sequence stands for -----

  ghost function Table(s: seq<Node>): map<seq<byte>, Node> {
    if s == [] then map[] else Table(s[1..])[s[0].name := s[0]]
  }

  ghost predicate NamesDistinct(s: seq<Node>) {
    forall i, j | 0 <= i < j < |s| :: s[i].name != s[j].name
  }

  lemma DescendingDistinct(o: Order, s: seq<Node>)
    requires Descending(o, s)
    ensures NamesDistinct(s)
  {
    forall i, j | 0 <= i < j < |s| ensures s[i].name != s[j].name {
      CmpEqual(o, s[i].name, s[j].name);
    }
  }

  /** Table(s) maps exactly the names of the nodes of s, each to its node. */
  lemma {:induction false} TableLookup(s: seq<Node>, name: seq<byte>)
    requires NamesDistinct(s)
    ensures name in Table(s) ==> Table(s)[name] in s && Table(s)[name].name == name
    ensures forall i | 0 <= i < |s| :: s[i].name == name ==> name in Table(s) && Table(s)[name] == s[i]
  {
    if s != [] {
      assert forall i | 0 <= i < |s[1..]| :: s[1..][i] == s[i + 1];
      TableLookup(s[1..], name);
      assert forall i | 1 <= i < |s| :: s[i] == s[1..][i - 1];
    }
  }

  lemma {:induction false} TableInsert(x: seq<Node>, n: Node, y: seq<Node>)
    requires NamesDistinct(x + [n] + y)
    ensures Table(x + [n] + y) == Table(x + y)[n.name := n]
  {
    var s, z := x + [n] + y, x + y;
    if x == [] {
      assert s[1..] == y && z == y;
    } else {
      assert s[1..] == x[1..] + [n] + y && z[1..] == x[1..] + y;
      assert forall i | 0 <= i < |s[1..]| :: s[1..][i] == s[i + 1];
      TableInsert(x[1..], n, y);
      assert s[0] == x[0] && s[|x|] == n;
    }
  }

  lemma FoundName(o: Order, p: Path, t: Tree, name: seq<byte>)
    requires Descending(o, Contents(p, t)) && t.Fork? && t.node.name == name
    ensures name in Table(Contents(p, t)) && Table(Contents(p, t))[name] == t.node
    ensures t.node in Nodes(Plug(p, t))
  {
    var s := Contents(p, t);
    DescendingDistinct(o, s);
    TableLookup(s, name);
    Middle(p, t);
    assert s[|Before(p)| + |Inorder(t.left)|] == t.node;
    PlugNodes(p, t);
  }

  lemma NotThere(o: Order, x: seq<Node>, y: seq<Node>, name: seq<byte>)
    requires AllAbove(o, x, name) && AllBelow(o, y, name) && Descending(o, x + y)
    ensures name !in Table(x + y)
  {
    var s := x + y;
    DescendingDistinct(o, s);
    TableLookup(s, name);
    if name in Table(s) {
      var i :| 0 <= i < |s| && s[i] == Table(s)[name];
      CmpEqual(o, s[i].name, name);
    }
  }

  /** Taking the node at a place out of the sequence takes its name out of the map. */
  lemma TableErase(o: Order, p: Path, t: Tree)
    requires Descending(o, Contents(p, t)) && t.Fork? && Apart(p, t)
    ensures Table(Without(Contents(p, t), t.node)) == Table(Contents(p, t)) - {t.node.name}
    ensures Descending(o, Without(Contents(p, t), t.node))
  {
    var n := t.node;
    Middle(p, t);
    if n in Before(p) { InBefore(p, n); }
    InInorder(t.left, n);
    EraseMiddle(o, Before(p) + Inorder(t.left), n, Inorder(t.right) + After(p));
  }

  lemma EraseMiddle(o: Order, x: seq<Node>, n: Node, y: seq<Node>)
    requires Descending(o, x + [n] + y) && n !in x
    ensures Table(Without(x + [n] + y, n)) == Table(x + [n] + y) - {n.name}
    ensures Descending(o, Without(x + [n] + y, n))
  {
    WithoutMiddle(x, n, y);
    SplitJoined(o, x, n, y);
    MiddleNotThere(o, x, n, y);
    DescendingDistinct(o, x + [n] + y);
    TableInsert(x, n, y);
    AddThenRemove(Table(x + y), n.name, n);
  }

  lemma MiddleNotThere(o: Order, x: seq<Node>, n: Node, y: seq<Node>)
    requires Descending(o, x + [n] + y)
    ensures n.name !in Table(x + y)
  {
    SplitAbove(o, x, n, y);
    SplitBelow(o, x, n, y);
    SplitJoined(o, x, n, y);
    NotThere(o, x, y, n.name);
  }

  lemma AddThenRemove(m: map<seq<byte>, Node>, name: seq<byte>, n: Node)
    requires name !in m
    ensures m[name := n] - {name} == m
  {}

  /** A node whose name is not in the map is not in the tree. */
  lemma Absent(s: seq<Node>, t: Tree, n: Node)
    requires s == Inorder(t) && NamesDistinct(s) && n.name !in Table(s)
    ensures n !in Nodes(t)
  {
    InInorder(t, n);
    TableLookup(s, n.name);
  }

  // ----- descending the linked tree -----

  ghost predicate Descent(o: Order, m: Snapshot, root: Node?, whole: Tree, name: seq<byte>, p: Path, t: Tree) {
    Reached(o, whole, name, p, t) && Zip(m, root, p, t)
  }

  lemma DescentStarts(o: Order, m: Snapshot, root: Node?, whole: Tree, name: seq<byte>)
    requires Zip(m, root, Top, whole) && Descending(o, Inorder(whole))
    ensures Descent(o, m, root, whole, name, Top, whole)
  {
    Start(o, whole, name);
  }

  /** At a node, comparing its name says where to go on, or that the name is found. */
  lemma DescentStep(o: Order, m: Snapshot, root: Node?, whole: Tree, name: seq<byte>, p: Path, t: Tree)
    requires Descent(o, m, root, whole, name, p, t) && t.Fork?
    ensures t.node in m && m[t.node] == Hook(Root(t.left), Root(t.right), Above(p, null), t.color)
    ensures Cmp(o, t.node.name, name) < 0 ==> Descent(o, m, root, whole, name, LeftOf(t.node, t.color, t.right, p), t.left)
    ensures Cmp(o, t.node.name, name) > 0 ==> Descent(o, m, root, whole, name, RightOf(t.left, t.node, t.color, p), t.right)
    ensures t.node.name == name ==>
      name in Table(Inorder(whole)) && Table(Inorder(whole))[name] == t.node && t.node in Nodes(whole)
  {
    Below(m, root, p, t);
    if Cmp(o, t.node.name, name) < 0 {
      GoLeft(o, whole, name, p, t);
    } else if Cmp(o, t.node.name, name) > 0 {
      GoRight(o, whole, name, p, t);
    }
    if t.node.name == name {
      FoundName(o, p, t, name);
      PlugInorder(p, t);
    }
  }

  /** A descent that ends at a leaf has shown that the name is not there. */
  lemma DescentEnds(o: Order, whole: Tree, name: seq<byte>, p: Path)
    requires Reached(o, whole, name, p, Leaf)
    ensures name !in Table(Inorder(whole)) && Inorder(whole) == Before(p) + After(p) && Descending(o, Inorder(whole))
  {
    LeafHole(whole, p);
    NotThere(o, Before(p), After(p), name);
  }

  lemma LeafHole(whole: Tree, p: Path)
    requires Plug(p, Leaf) == whole
    ensures Inorder(whole) == Contents(p, Leaf) == Before(p) + After(p)
  {
    PlugInorder(p, Leaf);
    assert Before(p) + [] == Before(p);
  }

  /** Where a descent for its name ends, a new node keeps the order and joins the map. */
  lemma DescentInserts(o: Order, whole: Tree, p: Path, n: Node)
    requires Reached(o, whole, n.name, p, Leaf)
    ensures n !in Nodes(whole) && n.name !in Table(Inorder(whole))
    ensures Descending(o, Before(p) + [n] + After(p))
    ensures Table(Before(p) + [n] + After(p)) == Table(Inorder(whole))[n.name := n]
  {
    DescentEnds(o, whole, n.name, p);
    JoinedTable(o, Before(p), n, After(p));
    DescendingDistinct(o, Inorder(whole));
    Absent(Inorder(whole), whole, n);
  }

  lemma JoinedTable(o: Order, x: seq<Node>, n: Node, y: seq<Node>)
    requires Descending(o, x + y) && AllAbove(o, x, n.name) && AllBelow(o, y, n.name)
    ensures Descending(o, x + [n] + y) && Table(x + [n] + y) == Table(x + y)[n.name := n]
  {
    JoinDescending(o, x, n, y);
    DescendingDistinct(o, x + [n] + y);
    TableInsert(x, n, y);
  }

  /** Erasing any node of an ordered tree keeps the order and removes just its name from the map. */
  lemma EraseKeepsOrder(o: Order, whole: Tree, n: Node)
    requires n in Nodes(whole) && Distinct(whole) && Descending(o, Inorder(whole))
    ensures Descending(o, Without(Inorder(whole), n))
    ensures Table(Without(Inorder(whole), n)) == Table(Inorder(whole)) - {n.name}
  {
    var p, t := Locate(whole, n);
    PlugDistinct(p, t);
    PlugInorder(p, t);
    TableErase(o, p, t);
  }

  lemma EmptySequence(t: Tree)
    requires FirstOf(Inorder(t)) == null
    ensures t == Leaf && Table(Inorder(t)) == map[]
  {}
}
