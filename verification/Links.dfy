// Snapshots of the tree hooks of a set of nodes, and what it means for them to be linked as a
// given tree or path says. Every step of the in-place algorithms is argued on snapshots.
module Links {
  import opened Records
  import opened Shapes
  import opened Sealing

  datatype Hook = Hook(left: Node?, right: Node?, parent: Node?, color: Color)
  type Snapshot = map<Node, Hook>

  /** m has the tree hooks of the nodes in S. */
  ghost predicate IsSnap(S: set<Node>, m: Snapshot)
    reads S`left, S`right, S`parent, S`color
  {
    m.Keys == S && forall n {:trigger m[n]} | n in S :: m[n] == Hook(n.left, n.right, n.parent, n.color)
  }

  lemma {:induction false} SnapExists(S: set<Node>)
    ensures exists m: Snapshot :: IsSnap(S, m)
  {
    if S == {} {
      var m: Snapshot := map[];
      assert IsSnap(S, m);
    } else {
      var n :| n in S;
      SnapExists(S - {n});
      var m: Snapshot :| IsSnap(S - {n}, m);
      assert IsSnap(S, m[n := Hook(n.left, n.right, n.parent, n.color)]);
    }
  }

  ghost function Snap(S: set<Node>): (m: Snapshot)
    reads S`left, S`right, S`parent, S`color
    ensures m.Keys == S && forall n {:trigger m[n]} | n in S :: m[n] == Hook(n.left, n.right, n.parent, n.color)
  {
    SnapExists(S);
    var m: Snapshot :| IsSnap(S, m);
    m
  }

  lemma SnapIs(S: set<Node>, m: Snapshot)
    requires IsSnap(S, m)
    ensures Snap(S) == m
  {}

  lemma SnapMinus(S: set<Node>, n: Node)
    ensures Snap(S - {n}) == Snap(S) - {n}
  {
    SnapIs(S - {n}, Snap(S) - {n});
  }

  /** In m, the nodes of t are linked as t says, under `up`. */
  ghost predicate Rep(m: Snapshot, t: Tree, up: Node?) {
    match t
    case Leaf => true
    case Fork(l, n, c, r) =>
      n in m && m[n] == Hook(Root(l), Root(r), up, c) && Rep(m, l, n) && Rep(m, r, n)
  }

  /** In m, the nodes of p are linked as p says: `hole` is what the lowest one points to,
      `top` the highest one (or the hole itself), and `up` is above the highest one. */
  ghost predicate Seg(m: Snapshot, p: Path, hole: Node?, top: Node?, up: Node?)
    decreases p
  {
    match p
    case Top => top == hole
    case LeftOf(n, c, r, q) =>
      n in m && m[n] == Hook(hole, Root(r), Above(q, up), c) && Rep(m, r, n) && Seg(m, q, n, top, up)
    case RightOf(l, n, c, q) =>
      n in m && m[n] == Hook(Root(l), hole, Above(q, up), c) && Rep(m, l, n) && Seg(m, q, n, top, up)
  }

  ghost predicate Kept(m: Snapshot, m': Snapshot, S: set<Node>) {
    forall n | n in S :: n in m && n in m' ==> m'[n] == m[n]
  }

  lemma {:induction false} RepKept(m: Snapshot, m': Snapshot, t: Tree, up: Node?)
    requires Rep(m, t, up) && m.Keys == m'.Keys && Kept(m, m', Nodes(t))
    ensures Rep(m', t, up)
  {
    match t
    case Leaf =>
    case Fork(l, n, _, r) => RepKept(m, m', l, n); RepKept(m, m', r, n);
  }

  /** Only the parent and the colour of the root of t have changed. */
  lemma RepMoved(m: Snapshot, m': Snapshot, t: Tree, up: Node?, c: Color, up': Node?)
    requires Rep(m, t, up) && Distinct(t) && m.Keys == m'.Keys
    requires t.Fork? ==>
      t.node in m && m'[t.node] == m[t.node].(parent := up', color := c) && Kept(m, m', Nodes(t) - {t.node})
    ensures Rep(m', Colored(t, c), up')
  {
    match t
    case Leaf =>
    case Fork(l, n, _, r) => RepKept(m, m', l, n); RepKept(m, m', r, n);
  }

  lemma {:induction false} SegKept(m: Snapshot, m': Snapshot, p: Path, hole: Node?, top: Node?, up: Node?)
    requires Seg(m, p, hole, top, up) && m.Keys == m'.Keys && Kept(m, m', PathNodes(p))
    ensures Seg(m', p, hole, top, up)
    decreases p
  {
    match p
    case Top =>
    case LeftOf(n, _, r, q) => RepKept(m, m', r, n); SegKept(m, m', q, n, top, up);
    case RightOf(l, n, _, q) => RepKept(m, m', l, n); SegKept(m, m', q, n, top, up);
  }

  /** parent->left = new or parent->right = new, whichever pointed to old. */
  ghost function ChildChanged(m: Snapshot, parent: Node?, old_: Node?, new_: Node?): Snapshot
    requires parent != null ==> parent in m
  {
    if parent == null then m
    else if m[parent].left == old_ then m[parent := m[parent].(left := new_)]
    else m[parent := m[parent].(right := new_)]
  }

  /** Changing the child of the node just above the hole puts something else in the hole. */
  lemma SegMoved(m: Snapshot, m': Snapshot, p: Path, old_: Node, new_: Node?, top: Node?)
    requires Seg(m, p, old_, top, null) && PathDistinct(p) && old_ !in PathNodes(p) && m.Keys == m'.Keys
    requires var a := Above(p, null);
      a != null ==> m'[a] == ChildChanged(m, a, old_, new_)[a] && Kept(m, m', PathNodes(p) - {a})
    ensures Seg(m', p, new_, if p.Top? then new_ else top, null)
  {
    match p
    case Top =>
    case LeftOf(n, _, r, q) => RepKept(m, m', r, n); SegKept(m, m', q, n, top, null);
    case RightOf(l, n, _, q) =>
      assert Root(l) != old_;
      RepKept(m, m', l, n); SegKept(m, m', q, n, top, null);
  }

  /** The whole linked tree, seen from the hole of p with t in it. */
  ghost predicate Zip(m: Snapshot, root: Node?, p: Path, t: Tree) {
    && PathNodes(p) + Nodes(t) == m.Keys && Apart(p, t)
    && Seg(m, p, Root(t), root, null) && Rep(m, t, Above(p, null))
  }

  // ----- rotations -----

  /** Nothing outside W is written. */
  ghost predicate Wrote(m: Snapshot, m': Snapshot, W: set<Node>) {
    m.Keys == m'.Keys && forall n | n in m :: n !in W ==> m'[n] == m[n]
  }

  lemma RepApart(m: Snapshot, m': Snapshot, t: Tree, up: Node?, W: set<Node>)
    requires Rep(m, t, up) && Wrote(m, m', W) && Nodes(t) !! W
    ensures Rep(m', t, up)
  {
    RepKept(m, m', t, up);
  }

  ghost function Only(n: Node?): set<Node> {
    if n == null then {} else {n}
  }

  /** A rotation writes only x, y, the root of the subtree b that changes sides, and the node above. */
  ghost function Written(p: Path, x: Node, y: Node, b: Tree): set<Node> {
    {x, y} + Only(Root(b)) + Only(Above(p, null))
  }

  lemma WrittenApart(p: Path, a: Tree, x: Node, b: Tree, y: Node, d: Tree)
    requires Pieces(p, a, x, b, y, d)
    ensures Nodes(a) !! Written(p, x, y, b) && Nodes(d) !! Written(p, x, y, b)
    ensures Nodes(b) * Written(p, x, y, b) == Only(Root(b))
    ensures PathNodes(p) * Written(p, x, y, b) == Only(Above(p, null))
  {
    AboveInPath(p);
    RootInNodes(b);
  }

  ghost predicate RotationReady(m: Snapshot, root: Node?, p: Path, a: Tree, x: Node, b: Tree, y: Node, d: Tree, top: Node) {
    && Pieces(p, a, x, b, y, d) && m.Keys == PathNodes(p) + (Nodes(a) + {x} + Nodes(b) + {y} + Nodes(d))
    && Seg(m, p, top, root, null)
  }

  /** The pieces of a rotation keep their links; b and the hole of p get new ones. */
  lemma PiecesMoved(m: Snapshot, m': Snapshot, root: Node?, p: Path, a: Tree, x: Node, b: Tree, y: Node, d: Tree,
                    old_: Node, new_: Node, ua: Node?, ub: Node?, ud: Node?, ub': Node, cb: Color)
    requires RotationReady(m, root, p, a, x, b, y, d, old_) && old_ in {x, y}
    requires Rep(m, a, ua) && Rep(m, b, ub) && Rep(m, d, ud)
    requires Wrote(m, m', Written(p, x, y, b))
    requires b.Fork? ==> m'[b.node] == m[b.node].(parent := ub', color := cb)
    requires var q := Above(p, null); q != null ==> m'[q] == ChildChanged(m, q, old_, new_)[q]
    ensures Rep(m', a, ua) && Rep(m', d, ud) && Rep(m', Colored(b, cb), ub')
    ensures Seg(m', p, new_, if p.Top? then new_ else root, null)
  {
    WrittenApart(p, a, x, b, y, d);
    RepApart(m, m', a, ua, Written(p, x, y, b));
    RepApart(m, m', d, ud, Written(p, x, y, b));
    RepMoved(m, m', b, ub, cb, ub');
    SegMoved(m, m', p, old_, new_, root);
  }

  /** The stores of a right rotation at y: x goes up, its right subtree b changes sides. */
  ghost predicate RightStored(m: Snapshot, m': Snapshot, root: Node?, root': Node?, p: Path, x: Node, y: Node, b: Tree,
                              cy: Color, cb: Color)
  {
    && x in m && y in m && Wrote(m, m', Written(p, x, y, b))
    && m'[y] == m[y].(left := Root(b), parent := x, color := cy)
    && m'[x] == m[x].(right := y, parent := m[y].parent, color := m[y].color)
    && (b.Fork? ==> b.node in m && m'[b.node] == m[b.node].(parent := y, color := cb))
    && (var q := Above(p, null); q != null ==> q in m && m'[q] == ChildChanged(m, q, y, x)[q])
    && root' == if p.Top? then x else root
  }

  ghost predicate LeftStored(m: Snapshot, m': Snapshot, root: Node?, root': Node?, p: Path, x: Node, y: Node, b: Tree,
                             cx: Color, cb: Color)
  {
    && x in m && y in m && Wrote(m, m', Written(p, x, y, b))
    && m'[x] == m[x].(right := Root(b), parent := y, color := cx)
    && m'[y] == m[y].(left := x, parent := m[x].parent, color := m[x].color)
    && (b.Fork? ==> b.node in m && m'[b.node] == m[b.node].(parent := x, color := cb))
    && (var q := Above(p, null); q != null ==> q in m && m'[q] == ChildChanged(m, q, x, y)[q])
    && root' == if p.Top? then y else root
  }

  /** Where a right rotation at y may start. What y's left and x's right, parent and colour are
      does not matter. */
  ghost predicate RightReady(m: Snapshot, root: Node?, p: Path, a: Tree, x: Node, b: Tree, y: Node, d: Tree, ub: Node?,
                             c: Color) {
    && RotationReady(m, root, p, a, x, b, y, d, y)
    && Rep(m, a, x) && Rep(m, b, ub) && Rep(m, d, y)
    && m[x].left == Root(a) && m[y].right == Root(d) && m[y].parent == Above(p, null) && m[y].color == c
  }

  ghost predicate LeftReady(m: Snapshot, root: Node?, p: Path, a: Tree, x: Node, b: Tree, y: Node, d: Tree, ub: Node?,
                            c: Color) {
    && RotationReady(m, root, p, a, x, b, y, d, x)
    && Rep(m, a, x) && Rep(m, b, ub) && Rep(m, d, y)
    && m[x].left == Root(a) && m[y].right == Root(d) && m[x].parent == Above(p, null) && m[x].color == c
  }

  lemma RightRotated(m: Snapshot, m': Snapshot, root: Node?, root': Node?, p: Path, a: Tree, x: Node, b: Tree, y: Node, d: Tree,
                     ub: Node?, c: Color, cy: Color, cb: Color)
    requires RightReady(m, root, p, a, x, b, y, d, ub, c) && RightStored(m, m', root, root', p, x, y, b, cy, cb)
    ensures Zip(m', root', p, Fork(a, x, c, Fork(Colored(b, cb), y, cy, d)))
  {
    PiecesMoved(m, m', root, p, a, x, b, y, d, y, x, x, ub, y, y, cb);
    ColoredSame(b, cb);
    LeftPieces(p, a, x, Colored(b, cb), y, d, c, cy);
    assert Rep(m', Fork(Colored(b, cb), y, cy, d), x);
  }

  lemma LeftRotated(m: Snapshot, m': Snapshot, root: Node?, root': Node?, p: Path, a: Tree, x: Node, b: Tree, y: Node, d: Tree,
                    ub: Node?, c: Color, cx: Color, cb: Color)
    requires LeftReady(m, root, p, a, x, b, y, d, ub, c) && LeftStored(m, m', root, root', p, x, y, b, cx, cb)
    ensures Zip(m', root', p, Fork(Fork(a, x, cx, Colored(b, cb)), y, c, d))
  {
    PiecesMoved(m, m', root, p, a, x, b, y, d, x, y, x, ub, y, x, cb);
    ColoredSame(b, cb);
    RightPieces(p, a, x, Colored(b, cb), y, d, cx, c);
    assert Rep(m', Fork(a, x, cx, Colored(b, cb)), y);
  }

  lemma ZipUp(m: Snapshot, root: Node?, p: Path, t: Tree)
    requires !p.Top?
    ensures Zip(m, root, p, t) <==> Zip(m, root, p.up, PlugOne(p, t))
  {
    ApartUp(p, t);
  }

  lemma {:induction false} ZipToTop(m: Snapshot, root: Node?, p: Path, t: Tree)
    ensures Zip(m, root, p, t) <==> Zip(m, root, Top, Plug(p, t))
    decreases p
  {
    if !p.Top? {
      ZipUp(m, root, p, t);
      ZipToTop(m, root, p.up, PlugOne(p, t));
    }
  }

  // ----- colour flips -----

  /** Only the colours of n and of its children l and r are written. */
  ghost predicate Painted(m: Snapshot, m': Snapshot, l: Tree, n: Node, r: Tree, c: Color, cl: Color, cr: Color) {
    && n in m && Wrote(m, m', {n} + Only(Root(l)) + Only(Root(r)))
    && m'[n] == m[n].(color := c)
    && (l.Fork? ==> l.node in m && m'[l.node] == m[l.node].(color := cl))
    && (r.Fork? ==> r.node in m && m'[r.node] == m[r.node].(color := cr))
  }

  lemma Repainted(m: Snapshot, m': Snapshot, root: Node?, p: Path, l: Tree, n: Node, c: Color, r: Tree,
                  c': Color, cl: Color, cr: Color)
    requires Zip(m, root, p, Fork(l, n, c, r)) && Painted(m, m', l, n, r, c', cl, cr)
    ensures Zip(m', root, p, Fork(Colored(l, cl), n, c', Colored(r, cr)))
  {
    var t := Fork(l, n, c, r);
    ForkDistinct(l, n, c, r);
    DisjointUnion(Nodes(l), n, Nodes(r), PathNodes(p));
    PaintedContents(p, l, n, c, r, c', cl, cr);
    RootInNodes(l);
    RootInNodes(r);
    SegKept(m, m', p, n, root, null);
    RepMoved(m, m', l, n, cl, n);
    RepMoved(m, m', r, n, cr, n);
  }

  // ----- case 2 of insertion: node and parent change places below the grandparent -----

  /** parent takes node's inner child `tmp` (the root of b) and goes below node. The grandparent
      still points to parent. */
  ghost predicate InnerStored(m: Snapshot, m': Snapshot, parent: Node, node: Node, b: Tree, left: bool) {
    && parent in m && node in m && Wrote(m, m', {parent, node} + Only(Root(b)))
    && (if left
        then m'[parent] == m[parent].(right := Root(b), parent := node, color := Red) && m'[node] == m[node].(left := parent)
        else m'[parent] == m[parent].(left := Root(b), parent := node, color := Red) && m'[node] == m[node].(right := parent))
    && (b.Fork? ==> b.node in m && m'[b.node] == m[b.node].(parent := parent, color := Black))
  }

  lemma PathRep(m: Snapshot, root: Node?, p: Path, hole: Node?)
    requires !p.Top? && Seg(m, p, hole, root, null)
    ensures Rep(m, Beside(p), p.node) && Seg(m, p.up, p.node, root, null)
    ensures p.node in m && m[p.node] == (if p.LeftOf? then Hook(hole, Root(p.right), Above(p.up, null), p.color)
                                         else Hook(Root(p.left), hole, Above(p.up, null), p.color))
  {}

  lemma OuterLeftReady(m: Snapshot, root: Node?, p: Path, t: Tree)
    requires Zip(m, root, p, t) && p.LeftOf? && p.up.LeftOf?
    ensures RightReady(m, root, p.up.up, t, p.node, Beside(p), p.up.node, Beside(p.up), p.node, p.up.color)
  {
    ZipUp(m, root, p, t);
    ZipUp(m, root, p.up, PlugOne(p, t));
    PathRep(m, root, p, Root(t));
    PathRep(m, root, p.up, p.node);
    RightPieces(p.up.up, t, p.node, Beside(p), p.up.node, Beside(p.up), p.color, p.up.color);
  }

  lemma OuterRightReady(m: Snapshot, root: Node?, p: Path, t: Tree)
    requires Zip(m, root, p, t) && p.RightOf? && p.up.RightOf?
    ensures LeftReady(m, root, p.up.up, Beside(p.up), p.up.node, Beside(p), p.node, t, p.node, p.up.color)
  {
    ZipUp(m, root, p, t);
    ZipUp(m, root, p.up, PlugOne(p, t));
    PathRep(m, root, p, Root(t));
    PathRep(m, root, p.up, p.node);
    LeftPieces(p.up.up, Beside(p.up), p.up.node, Beside(p), p.node, t, p.up.color, p.color);
  }

  lemma InnerLeftReady(m: Snapshot, m': Snapshot, root: Node?, p: Path, t: Tree)
    requires Zip(m, root, p, t) && p.RightOf? && p.up.LeftOf? && t.Fork?
    requires InnerStored(m, m', p.node, t.node, t.left, true)
    ensures RightReady(m', root, p.up.up, Fork(p.left, p.node, Red, Colored(t.left, Black)), t.node, t.right,
                       p.up.node, p.up.right, t.node, p.up.color)
  {
    var x, n := p.node, t.node;
    var W := {x, n} + Only(Root(t.left));
    InnerLeftPieces(p, t);
    RootInNodes(t.left);
    PathRep(m, root, p, n);
    RepApart(m, m', p.left, x, W);
    RepApart(m, m', t.right, n, W);
    RepMoved(m, m', t.left, n, Black, x);
    assert Kept(m, m', PathNodes(p.up));
    SegKept(m, m', p.up, x, root, null);
    PathRep(m', root, p.up, x);
  }

  lemma InnerRightReady(m: Snapshot, m': Snapshot, root: Node?, p: Path, t: Tree)
    requires Zip(m, root, p, t) && p.LeftOf? && p.up.RightOf? && t.Fork?
    requires InnerStored(m, m', p.node, t.node, t.right, false)
    ensures LeftReady(m', root, p.up.up, p.up.left, p.up.node, t.left, t.node,
                      Fork(Colored(t.right, Black), p.node, Red, p.right), t.node, p.up.color)
  {
    var x, n := p.node, t.node;
    var W := {x, n} + Only(Root(t.right));
    InnerRightPieces(p, t);
    RootInNodes(t.right);
    PathRep(m, root, p, n);
    RepApart(m, m', p.right, x, W);
    RepApart(m, m', t.left, n, W);
    RepMoved(m, m', t.right, n, Black, x);
    assert Kept(m, m', PathNodes(p.up));
    SegKept(m, m', p.up, x, root, null);
    PathRep(m', root, p.up, x);
  }

  lemma FlipReady(m: Snapshot, root: Node?, p: Path, l: Tree, n: Node, c: Color, r: Tree)
    requires Zip(m, root, p, Fork(l, n, c, r)) && l.Fork? && r.Fork?
    ensures n in m && l.node in m && r.node in m && m[l.node].parent == n && m[r.node].parent == n
    ensures l.node != n && r.node != n && l.node != r.node
  {
    RootInNodes(l);
    RootInNodes(r);
    assert Rep(m, l, n) && Rep(m, r, n);
  }

  /** A red node t.node below a red parent: what the hooks above it say. */
  lemma RedParent(m: Snapshot, root: Node?, p: Path, t: Tree, h: nat)
    requires Zip(m, root, p, t) && PathSound(p, h) && !p.Top? && p.color == Red && t.Fork?
    ensures !p.up.Top? && p.up.color == Black && p.node in m && m[p.node].parent == p.up.node && p.up.node in m
    ensures p.up.LeftOf? ==> m[p.up.node].right == Root(p.up.right) && m[p.up.node].right != p.node
    ensures p.up.RightOf? ==> m[p.up.node].left == Root(p.up.left) && m[p.up.node].right == p.node
    ensures var u := Beside(p.up); Root(u) != null ==> Root(u) in m && m[Root(u)].color == u.color
  {
    PathRep(m, root, p, t.node);
    PathRep(m, root, p.up, p.node);
    RootInNodes(Beside(p.up));
  }

  lemma AboveHook(m: Snapshot, root: Node?, p: Path, t: Tree)
    requires Zip(m, root, p, t) && t.Fork?
    ensures t.node in m && m[t.node].parent == Above(p, null)
    ensures !p.Top? ==> p.node in m && m[p.node].color == p.color
  {}

  // ----- taking a node out -----

  lemma {:induction false} RepWithout(m: Snapshot, n: Node, t: Tree, up: Node?)
    requires Rep(m, t, up) && n !in Nodes(t)
    ensures Rep(m - {n}, t, up)
  {
    if t.Fork? {
      RepWithout(m, n, t.left, t.node);
      RepWithout(m, n, t.right, t.node);
    }
  }

  lemma {:induction false} SegWithout(m: Snapshot, n: Node, p: Path, hole: Node?, top: Node?, up: Node?)
    requires Seg(m, p, hole, top, up) && n !in PathNodes(p)
    ensures Seg(m - {n}, p, hole, top, up)
    decreases p
  {
    if !p.Top? {
      RepWithout(m, n, Beside(p), p.node);
      SegWithout(m, n, p.up, p.node, top, up);
    }
  }

  /** A node with at most one child makes way for that child, which takes its colour. */
  ghost predicate SpliceStored(m: Snapshot, m': Snapshot, root: Node?, root': Node?, p: Path, n: Node, c: Color, child: Tree) {
    && Wrote(m, m', Only(Root(child)) + Only(Above(p, null)))
    && (child.Fork? ==> child.node in m && m'[child.node] == m[child.node].(parent := Above(p, null), color := c))
    && (var q := Above(p, null); q != null ==> q in m && m'[q] == ChildChanged(m, q, n, Root(child))[q])
    && root' == if p.Top? then Root(child) else root
  }

  lemma Spliced(m: Snapshot, m': Snapshot, root: Node?, root': Node?, p: Path, t: Tree, child: Tree)
    requires Zip(m, root, p, t) && t.Fork? && ((t.left.Leaf? && child == t.right) || (t.right.Leaf? && child == t.left))
    requires SpliceStored(m - {t.node}, m', root, root', p, t.node, t.color, child)
    ensures Zip(m', root', p, Colored(child, t.color))
  {
    var n, m0 := t.node, m - {t.node};
    AboveInPath(p);
    RootInNodes(child);
    ColoredSame(child, t.color);
    RepWithout(m, n, child, n);
    SegWithout(m, n, p, n, root, null);
    RepMoved(m0, m', child, n, t.color, Above(p, null));
    SegMoved(m0, m', p, n, Root(child), root);
  }

  /** The node at which a path ends at its top, or the hole if the path is empty. */
  ghost function TopEnd(p: Path, hole: Node?): Node? {
    if p.Top? then hole else TopEnd(p.up, p.node)
  }

  lemma {:induction false} SegGraft(m: Snapshot, a: Path, b: Path, hole: Node?, top: Node?, up: Node?)
    ensures Seg(m, Graft(a, b), hole, top, up) <==>
      Seg(m, a, hole, TopEnd(a, hole), Above(b, up)) && Seg(m, b, TopEnd(a, hole), top, up)
    decreases a
  {
    if !a.Top? {
      SegGraft(m, a.up, b, a.node, top, up);
    }
  }

  lemma {:induction false} TopEndInPath(p: Path, hole: Node?)
    ensures !p.Top? ==> TopEnd(p, hole) != null && TopEnd(p, hole) in PathNodes(p)
    ensures p.Top? || p.up.Top? || (TopEnd(p, hole) == TopEnd(p.up, p.node) && TopEnd(p, hole) in PathNodes(p.up))
  {
    if !p.Top? { TopEndInPath(p.up, p.node); }
  }

  /** A path of left steps gets something else in its hole and another node above its top end. */
  lemma {:induction false} SpineMoved(m: Snapshot, m': Snapshot, sp: Path, hole: Node?, hole': Node?, up: Node?, up': Node?)
    requires Seg(m, sp, hole, TopEnd(sp, hole), up) && Lefts(sp) && PathDistinct(sp) && m.Keys == m'.Keys
    requires forall n | n in PathNodes(sp) :: n in m ==> m'[n] == m[n].(
        left := if n == Above(sp, null) then hole' else m[n].left,
        parent := if n == TopEnd(sp, hole) then up' else m[n].parent)
    ensures Seg(m', sp, hole', TopEnd(sp, hole'), up')
    decreases sp
  {
    if !sp.Top? {
      var n := sp.node;
      TopEndInPath(sp, hole);
      TopEndInPath(sp, hole');
      TopEndInPath(sp.up, n);
      assert Kept(m, m', Nodes(sp.right));
      RepKept(m, m', sp.right, n);
      SpineMoved(m, m', sp.up, n, n, up, up');
    }
  }

  ghost function SuccessorWritten(p: Path, l: Tree, sp: Path, s: Node, d: Tree): set<Node> {
    {s} + Only(Root(l)) + Only(Root(d)) + Only(Above(p, null)) +
      (Only(Above(sp, null)) + if sp.Top? then {} else Only(TopEnd(sp, s)))
  }

  /** The successor s takes the place, the children and the colour of node; its own right subtree d
      goes where s was. */
  ghost predicate SuccessorStored(m: Snapshot, m': Snapshot, root: Node?, root': Node?, p: Path, l: Tree, node: Node, c: Color,
                                  sp: Path, s: Node, d: Tree)
  {
    && Wrote(m, m', SuccessorWritten(p, l, sp, s, d))
    && s in m && m'[s] == Hook(Root(l), if sp.Top? then Root(d) else TopEnd(sp, s), Above(p, null), c)
    && (l.Fork? ==> l.node in m && m'[l.node] == m[l.node].(parent := s))
    && (d.Fork? ==> d.node in m && m'[d.node] == m[d.node].(parent := Above(sp, s), color := Black))
    && (!sp.Top? ==> var e, f := sp.node, TopEnd(sp, s);
        && f != null && e in m && f in m
        && m'[e] == m[e].(left := Root(d), parent := if e == f then s else m[e].parent)
        && (f != e ==> m'[f] == m[f].(parent := s)))
    && (var q := Above(p, null); q != null ==> q in m && m'[q] == ChildChanged(m, q, node, s)[q])
    && root' == if p.Top? then s else root
  }

  lemma SuccessorWrittenApart(p: Path, l: Tree, node: Node, sp: Path, s: Node, d: Tree)
    requires SuccessorPieces(p, l, node, sp, s, d)
    ensures var W := SuccessorWritten(p, l, sp, s, d);
      && Nodes(l) * W == Only(Root(l)) && Nodes(d) * W == Only(Root(d)) && PathNodes(p) * W == Only(Above(p, null))
      && PathNodes(sp) * W == Only(Above(sp, null)) + (if sp.Top? then {} else Only(TopEnd(sp, s)))
  {
    AboveInPath(p);
    AboveInPath(sp);
    RootInNodes(l);
    RootInNodes(d);
    TopEndInPath(sp, s);
    FourMeet(Nodes(l), Nodes(d), PathNodes(p), PathNodes(sp), Only(Root(l)), Only(Root(d)), Only(Above(p, null)),
             Only(Above(sp, null)) + (if sp.Top? then {} else Only(TopEnd(sp, s))), s);
  }

  /** Of what is written in four disjoint sets and in s, each set meets its own part. */
  lemma FourMeet(A: set<Node>, B: set<Node>, C: set<Node>, D: set<Node>,
                 a: set<Node>, b: set<Node>, c: set<Node>, d: set<Node>, s: Node)
    requires a <= A && b <= B && c <= C && d <= D && s !in A && s !in B && s !in C && s !in D
    requires A !! B && A !! C && A !! D && B !! C && B !! D && C !! D
    ensures var W := {s} + a + b + c + d; A * W == a && B * W == b && C * W == c && D * W == d
  {
    Meets(A, a, {s} + b + c + d);
    Meets(B, b, {s} + a + c + d);
    Meets(C, c, {s} + a + b + d);
    Meets(D, d, {s} + a + b + c);
    var W := {s} + a + b + c + d;
    assert W == a + ({s} + b + c + d);
    assert W == b + ({s} + a + c + d);
    assert W == c + ({s} + a + b + d);
    assert W == d + ({s} + a + b + c);
  }

  lemma Meets(A: set<Node>, own: set<Node>, others: set<Node>)
    requires own <= A && A !! others
    ensures A * (own + others) == own
  {}

  lemma SuccessorPut(m: Snapshot, m': Snapshot, root: Node?, root': Node?, p: Path, l: Tree, node: Node, c: Color,
                     sp: Path, s: Node, d: Tree)
    requires SuccessorPieces(p, l, node, sp, s, d) && Lefts(sp)
    requires Rep(m, l, node) && Rep(m, d, s) && Seg(m, sp, s, TopEnd(sp, s), node) && Seg(m, p, node, root, null)
    requires SuccessorStored(m, m', root, root', p, l, node, c, sp, s, d)
    ensures Rep(m', l, s) && Rep(m', Colored(d, Black), Above(sp, s))
    ensures Seg(m', sp, Root(d), if sp.Top? then Root(d) else TopEnd(sp, s), s) && Seg(m', p, s, root', null)
  {
    SuccessorWrittenApart(p, l, node, sp, s, d);
    assert Colored(l, Tint(l)) == l;
    RepMoved(m, m', l, node, Tint(l), s);
    RepMoved(m, m', d, s, Black, Above(sp, s));
    SegMoved(m, m', p, node, s, root);
    SpinePut(m, m', SuccessorWritten(p, l, sp, s, d), node, sp, s, d);
  }

  /** The part of it that is the way from node's right child down to the successor. */
  lemma SpinePut(m: Snapshot, m': Snapshot, W: set<Node>, node: Node, sp: Path, s: Node, d: Tree)
    requires PathDistinct(sp) && Lefts(sp) && Seg(m, sp, s, TopEnd(sp, s), node) && Wrote(m, m', W)
    requires PathNodes(sp) * W == Only(Above(sp, null)) + (if sp.Top? then {} else Only(TopEnd(sp, s)))
    requires !sp.Top? ==> var e, f := sp.node, TopEnd(sp, s);
        && f != null && e in m && f in m
        && m'[e] == m[e].(left := Root(d), parent := if e == f then s else m[e].parent)
        && (f != e ==> m'[f] == m[f].(parent := s))
    ensures Seg(m', sp, Root(d), if sp.Top? then Root(d) else TopEnd(sp, s), s)
  {
    if !sp.Top? {
      TopEndInPath(sp, s);
      forall n | n in PathNodes(sp) && n in m
        ensures m'[n] == m[n].(left := if n == sp.node then Root(d) else m[n].left,
                               parent := if n == TopEnd(sp, s) then s else m[n].parent)
      {
        if n in W {
          assert n in PathNodes(sp) * W;
        }
      }
      SpineMoved(m, m', sp, s, Root(d), node, s);
      TopEndSame(sp, s, Root(d));
    }
  }

  lemma TopEndSame(sp: Path, a: Node?, b: Node?)
    requires !sp.Top?
    ensures TopEnd(sp, a) == TopEnd(sp, b)
  {}

  lemma SuccessorSplit(m: Snapshot, root: Node?, p: Path, l: Tree, node: Node, c: Color, sp: Path, s: Node, sc: Color, d: Tree)
    requires Zip(m, root, Graft(sp, RightOf(l, node, c, p)), Fork(Leaf, s, sc, d))
    ensures SuccessorPieces(p, l, node, sp, s, d)
    ensures m.Keys == PathNodes(p) + Nodes(l) + {node} + PathNodes(sp) + {s} + Nodes(d)
    ensures Rep(m, l, node) && Rep(m, d, s) && Seg(m, sp, s, TopEnd(sp, s), node) && Seg(m, p, node, root, null)
    ensures node in m && m[node] == Hook(Root(l), TopEnd(sp, s), Above(p, null), c)
    ensures s in m && m[s] == Hook(null, Root(d), Above(sp, node), sc)
  {
    var q := RightOf(l, node, c, p);
    SuccessorApart(p, l, node, c, sp, s, sc, d);
    SegGraft(m, sp, q, s, root, null);
    AboveGraft(sp, q);
  }

  lemma AboveGraft(a: Path, b: Path)
    ensures Above(Graft(a, b), null) == Above(a, Above(b, null))
  {}

  lemma SuccessorJoin(m: Snapshot, root: Node?, p: Path, l: Tree, c: Color, sp: Path, s: Node, d: Tree, node: Node)
    requires SuccessorPieces(p, l, node, sp, s, d) && m.Keys == PathNodes(p) + Nodes(l) + PathNodes(sp) + {s} + Nodes(d)
    requires Rep(m, l, s) && Rep(m, Colored(d, Black), Above(sp, s)) && Seg(m, p, s, root, null)
    requires var top := if sp.Top? then Root(d) else TopEnd(sp, s);
      Seg(m, sp, Root(d), top, s) && s in m && m[s] == Hook(Root(l), top, Above(p, null), c)
    ensures Zip(m, root, Graft(sp, RightOf(l, s, c, p)), Colored(d, Black))
  {
    var q' := RightOf(l, s, c, p);
    SuccessorMoved(p, l, node, c, sp, s, d, Black);
    if !sp.Top? { TopEndSame(sp, s, Root(d)); }
    SegGraft(m, sp, q', Root(d), root, null);
    AboveGraft(sp, q');
  }

  /** The parts that the successor's move takes apart do not depend on node's own hook. */
  lemma SuccessorWithout(m: Snapshot, root: Node?, p: Path, l: Tree, node: Node, sp: Path, s: Node, d: Tree)
    requires SuccessorPieces(p, l, node, sp, s, d)
    requires Rep(m, l, node) && Rep(m, d, s) && Seg(m, sp, s, TopEnd(sp, s), node) && Seg(m, p, node, root, null)
    ensures var w := m - {node};
      Rep(w, l, node) && Rep(w, d, s) && Seg(w, sp, s, TopEnd(sp, s), node) && Seg(w, p, node, root, null)
  {
    RepWithout(m, node, l, node);
    RepWithout(m, node, d, s);
    SegWithout(m, node, sp, s, TopEnd(sp, s), node);
    SegWithout(m, node, p, node, root, null);
  }

  /** Cases 2 and 3 of erasing: the whole tree once the successor stands where node stood. */
  lemma SuccessorReplaces(m: Snapshot, m': Snapshot, root: Node?, root': Node?, p: Path, l: Tree, node: Node, c: Color,
                          sp: Path, s: Node, sc: Color, d: Tree)
    requires Zip(m, root, Graft(sp, RightOf(l, node, c, p)), Fork(Leaf, s, sc, d)) && Lefts(sp)
    requires SuccessorStored(m - {node}, m', root, root', p, l, node, c, sp, s, d)
    ensures Zip(m', root', Graft(sp, RightOf(l, s, c, p)), Colored(d, Black))
  {
    SuccessorSplit(m, root, p, l, node, c, sp, s, sc, d);
    SuccessorWithout(m, root, p, l, node, sp, s, d);
    SuccessorPut(m - {node}, m', root, root', p, l, node, c, sp, s, d);
    SuccessorKeys(m, m', p, l, node, c, sp, s, d);
    SuccessorJoin(m', root', p, l, c, sp, s, d, node);
  }

  lemma SuccessorKeys(m: Snapshot, m': Snapshot, p: Path, l: Tree, node: Node, c: Color, sp: Path, s: Node, d: Tree)
    requires SuccessorPieces(p, l, node, sp, s, d)
    requires m.Keys == PathNodes(p) + Nodes(l) + {node} + PathNodes(sp) + {s} + Nodes(d)
    requires m'.Keys == (m - {node}).Keys
    ensures m'.Keys == PathNodes(p) + Nodes(l) + PathNodes(sp) + {s} + Nodes(d)
  {}

  // ----- erasing: rotations around the sibling -----

  lemma SiblingLeftReady(m: Snapshot, root: Node?, p: Path, t: Tree)
    requires Zip(m, root, p, t) && p.LeftOf? && p.right.Fork?
    ensures LeftReady(m, root, p.up, t, p.node, p.right.left, p.right.node, p.right.right, p.right.node, p.color)
  {
    var s := p.right;
    ApartUp(p, t);
    PathRep(m, root, p, Root(t));
    LeftPieces(p.up, t, p.node, s.left, s.node, s.right, p.color, s.color);
  }

  lemma SiblingRightReady(m: Snapshot, root: Node?, p: Path, t: Tree)
    requires Zip(m, root, p, t) && p.RightOf? && p.left.Fork?
    ensures RightReady(m, root, p.up, p.left.left, p.left.node, p.left.right, p.node, t, p.left.node, p.color)
  {
    var s := p.left;
    ApartUp(p, t);
    PathRep(m, root, p, Root(t));
    RightPieces(p.up, s.left, s.node, s.right, p.node, t, s.color, p.color);
  }

  /** The sibling's outer child has only become black. */
  lemma SiblingLeftPainted(m: Snapshot, m': Snapshot, root: Node?, p: Path, a: Tree, x: Node, b: Tree, y: Node, d: Tree,
                           ub: Node?, c: Color)
    requires LeftReady(m, root, p, a, x, b, y, d, ub, c) && d.Fork?
    requires Wrote(m, m', {d.node}) && m'[d.node] == m[d.node].(color := Black)
    ensures LeftReady(m', root, p, a, x, b, y, Colored(d, Black), ub, c)
  {
    RootInNodes(d);
    ColoredSame(d, Black);
    RepApart(m, m', a, x, {d.node});
    RepApart(m, m', b, ub, {d.node});
    RepMoved(m, m', d, y, Black, y);
    SegKept(m, m', p, x, root, null);
  }

  lemma SiblingRightPainted(m: Snapshot, m': Snapshot, root: Node?, p: Path, a: Tree, x: Node, b: Tree, y: Node, d: Tree,
                            ub: Node?, c: Color)
    requires RightReady(m, root, p, a, x, b, y, d, ub, c) && a.Fork?
    requires Wrote(m, m', {a.node}) && m'[a.node] == m[a.node].(color := Black)
    ensures RightReady(m', root, p, Colored(a, Black), x, b, y, d, ub, c)
  {
    RootInNodes(a);
    ColoredSame(a, Black);
    RepApart(m, m', d, y, {a.node});
    RepApart(m, m', b, ub, {a.node});
    RepMoved(m, m', a, x, Black, x);
    SegKept(m, m', p, y, root, null);
  }

  /** Case 3: the inner nephew n goes up over the sibling s, which is black below it; n's inner
      child b changes sides. n's own parent and colour are not yet right. */
  ghost predicate CousinStored(m: Snapshot, m': Snapshot, parent: Node, s: Node, n: Node, b: Tree, left: bool) {
    && parent in m && s in m && n in m && Wrote(m, m', CousinWritten(parent, s, n, b))
    && m'[parent] == (if left then m[parent].(right := n) else m[parent].(left := n))
    && m'[s] == (if left then m[s].(left := Root(b), parent := n, color := Black)
                 else m[s].(right := Root(b), parent := n, color := Black))
    && m'[n] == (if left then m[n].(right := s) else m[n].(left := s))
    && (b.Fork? ==> b.node in m && m'[b.node] == m[b.node].(parent := s, color := Black))
  }

  ghost function CousinWritten(parent: Node, s: Node, n: Node, b: Tree): set<Node> {
    {parent, s, n} + Only(Root(b))
  }

  /** Across the parent, {x, y} and b are the sibling, its inner child and that one's inner child. */
  lemma CousinApart(p: Path, t: Tree, a: Tree, x: Node, b: Tree, y: Node, d: Tree)
    requires !p.Top? && Pieces(Across(p, t), a, x, b, y, d)
    ensures var W := CousinWritten(p.node, x, y, b);
      Nodes(t) !! W && Nodes(a) !! W && Nodes(d) !! W && PathNodes(p.up) !! W
  {
    RootInNodes(b);
    var A := PathNodes(Across(p, t));
    assert A == {p.node} + Nodes(t) + PathNodes(p.up);
    assert p.node !in Nodes(t) && p.node !in PathNodes(p.up);
    assert p.node !in Nodes(a) && p.node !in Nodes(d);
    SetApart(Nodes(t), p.node, x, y, b);
    SetApart(Nodes(a), p.node, x, y, b);
    SetApart(Nodes(d), p.node, x, y, b);
    SetApart(PathNodes(p.up), p.node, x, y, b);
  }

  lemma SetApart(A: set<Node>, n: Node, x: Node, y: Node, b: Tree)
    requires n !in A && x !in A && y !in A && Root(b) !in A
    ensures A !! CousinWritten(n, x, y, b)
  {}

  lemma CousinKept(m: Snapshot, m': Snapshot, root: Node?, p: Path, t: Tree, a: Tree, x: Node, b: Tree, y: Node,
                   d: Tree, ub: Node, ub': Node)
    requires !p.Top? && Pieces(Across(p, t), a, x, b, y, d) && Wrote(m, m', CousinWritten(p.node, x, y, b))
    requires Rep(m, t, p.node) && Rep(m, a, x) && Rep(m, d, y) && Rep(m, b, ub) && Seg(m, p.up, p.node, root, null)
    requires b.Fork? ==> b.node in m && m'[b.node] == m[b.node].(parent := ub', color := Black)
    ensures Rep(m', t, p.node) && Rep(m', a, x) && Rep(m', d, y) && Rep(m', Colored(b, Black), ub')
    ensures Seg(m', p.up, p.node, root, null)
  {
    var W := CousinWritten(p.node, x, y, b);
    CousinApart(p, t, a, x, b, y, d);
    RootInNodes(b);
    RepApart(m, m', t, p.node, W);
    RepApart(m, m', a, x, W);
    RepApart(m, m', d, y, W);
    SegApart(m, m', p.up, p.node, root, W);
    assert Kept(m, m', Nodes(b) - Only(Root(b)));
    RepMoved(m, m', b, ub, Black, ub');
  }

  /** The links around the sibling and its inner child before the stores. */
  lemma CousinLeftLinks(m: Snapshot, root: Node?, p: Path, t: Tree)
    requires Zip(m, root, p, t) && p.LeftOf? && p.right.Fork? && p.right.left.Fork?
    ensures var s := p.right; var n := s.left;
      && p.node in m && s.node in m && n.node in m
      && Rep(m, t, p.node) && Rep(m, n.left, n.node) && Rep(m, n.right, n.node) && Rep(m, s.right, s.node)
      && Seg(m, p.up, p.node, root, null) && m[p.node] == Hook(Root(t), s.node, Above(p.up, null), p.color)
      && m[n.node].left == Root(n.left) && m[s.node].right == Root(s.right)
  {
    PathRep(m, root, p, Root(t));
    assert Rep(m, p.right.left, p.right.node);
  }

  lemma CousinLeftReady(m: Snapshot, m': Snapshot, root: Node?, p: Path, t: Tree)
    requires Zip(m, root, p, t) && p.LeftOf? && p.right.Fork? && p.right.left.Fork?
    requires CousinStored(m, m', p.node, p.right.node, p.right.left.node, p.right.left.right, true)
    ensures var s := p.right; var n := s.left;
      LeftReady(m', root, p.up, t, p.node, n.left, n.node, Fork(Colored(n.right, Black), s.node, Black, s.right), n.node, p.color)
  {
    var s := p.right;
    var n := s.left;
    CousinLeftPieces(p, t);
    CousinLeftLinks(m, root, p, t);
    assert CousinWritten(p.node, s.node, n.node, n.right) == CousinWritten(p.node, n.node, s.node, n.right);
    CousinKept(m, m', root, p, t, n.left, n.node, n.right, s.node, s.right, n.node, s.node);
  }

  lemma CousinRightReady(m: Snapshot, m': Snapshot, root: Node?, p: Path, t: Tree)
    requires Zip(m, root, p, t) && p.RightOf? && p.left.Fork? && p.left.right.Fork?
    requires CousinStored(m, m', p.node, p.left.node, p.left.right.node, p.left.right.left, false)
    ensures var s := p.left; var n := s.right;
      RightReady(m', root, p.up, Fork(s.left, s.node, Black, Colored(n.left, Black)), n.node, n.right, p.node, t, n.node, p.color)
  {
    var s := p.left;
    var n := s.right;
    CousinRightPieces(p, t);
    PathRep(m, root, p, Root(t));
    assert Rep(m, n, s.node);
    CousinKept(m, m', root, p, t, s.left, s.node, n.left, n.node, n.right, n.node, s.node);
  }

  lemma SegApart(m: Snapshot, m': Snapshot, p: Path, hole: Node?, root: Node?, W: set<Node>)
    requires Seg(m, p, hole, root, null) && Wrote(m, m', W) && PathNodes(p) !! W
    ensures Seg(m', p, hole, root, null)
  {
    SegKept(m, m', p, hole, root, null);
  }

  lemma EraseFlipReady(m: Snapshot, root: Node?, p: Path, t: Tree)
    requires Zip(m, root, p, t) && !p.Top? && Beside(p).Fork?
    ensures var s := Beside(p).node;
      p.node in m && s in m && s != p.node && m[s].parent == p.node
      && (t.Fork? ==> t.node in m && m[t.node].color == t.color && t.node !in {s, p.node})
    ensures Colored(t, Tint(t)) == t
  {
    PathRep(m, root, p, Root(t));
    RootInNodes(t);
    RootInNodes(Beside(p));
  }

  /** The flip on snapshots: what it needs to know, and what it leaves. */
  lemma EraseFlipDone(m: Snapshot, m': Snapshot, root: Node?, p: Path, t: Tree)
    requires Zip(m, root, p, t) && !p.Top? && Beside(p).Fork?
    requires if p.LeftOf? then Painted(m, m', t, p.node, p.right, Black, Tint(t), Red)
      else Painted(m, m', p.left, p.node, t, Black, Red, Tint(t))
    ensures Zip(m', root, p.up, EraseFlipped(p, t))
  {
    ZipUp(m, root, p, t);
    EraseFlipReady(m, root, p, t);
    if p.LeftOf? {
      Repainted(m, m', root, p.up, t, p.node, p.color, p.right, Black, Tint(t), Red);
    } else {
      Repainted(m, m', root, p.up, p.left, p.node, p.color, t, Black, Red, Tint(t));
    }
  }

  /** What a node's hook says of its children. */
  lemma ChildHooks(m: Snapshot, t: Tree, up: Node?)
    requires Rep(m, t, up) && t.Fork?
    ensures t.node in m && m[t.node] == Hook(Root(t.left), Root(t.right), up, t.color)
    ensures t.left.Fork? ==> t.left.node in m && m[t.left.node] == Hook(Root(t.left.left), Root(t.left.right), t.node, t.left.color)
    ensures t.right.Fork? ==> t.right.node in m && m[t.right.node] == Hook(Root(t.right.left), Root(t.right.right), t.node, t.right.color)
  {
    assert Rep(m, t.left, t.node) && Rep(m, t.right, t.node);
  }

  /** Parent, sibling, inner nephew n and its inner child b are different nodes. */
  lemma CousinScalars(m: Snapshot, root: Node?, p: Path, t: Tree, n: Tree, b: Tree)
    requires Zip(m, root, p, t) && !p.Top? && Beside(p).Fork? && n.Fork?
    requires (p.LeftOf? && n == Beside(p).left && b == n.right) || (p.RightOf? && n == Beside(p).right && b == n.left)
    ensures var s := Beside(p).node;
      && p.node != s && p.node != n.node && s != n.node && Root(b) !in {p.node, s, n.node}
      && {p.node, s, n.node} + Only(Root(b)) <= m.Keys
  {
    RootInNodes(Beside(p));
    RootInNodes(n);
    RootInNodes(b);
    assert Nodes(b) <= Nodes(n) <= Nodes(Beside(p)) <= m.Keys;
    assert Distinct(Beside(p)) && Distinct(n);
  }

  /** What the hooks around the hole say of the sibling and its children. */
  lemma SiblingHooks(m: Snapshot, root: Node?, p: Path, t: Tree)
    requires Zip(m, root, p, t) && !p.Top? && Beside(p).Fork?
    ensures var s := Beside(p);
      && p.node in m && m[p.node].color == p.color && m[p.node].parent == Above(p.up, null)
      && s.node in m && m[s.node].left == Root(s.left) && m[s.node].right == Root(s.right) && m[s.node].color == s.color
      && (p.LeftOf? ==> m[p.node].right == s.node) && (p.RightOf? ==> m[p.node].left == s.node)
      && (s.left.Fork? ==> s.left.node in m && m[s.left.node].color == s.left.color)
      && (s.right.Fork? ==> s.right.node in m && m[s.right.node].color == s.right.color)
  {
    PathRep(m, root, p, Root(t));
    ChildHooks(m, Beside(p), p.node);
  }

  /** Comparing with the right child tells on which side the short subtree is. */
  lemma SideTold(m: Snapshot, root: Node?, p: Path, t: Tree, h: nat)
    requires Zip(m, root, p, t) && Short(p, t, h) && !p.Top?
    ensures p.node in m && (p.LeftOf? <==> m[p.node].right != Root(t))
    ensures if p.LeftOf? then m[p.node].right == Root(p.right) else m[p.node].left == Root(p.left)
  {
    SiblingSound(p, t, h);
    PathRep(m, root, p, Root(t));
    RootInNodes(t);
    RootInNodes(Beside(p));
  }

  lemma SingleScalars(m: Snapshot, root: Node?, p: Path, t: Tree, child: Tree)
    requires Zip(m, root, p, t) && t.Fork? && child in {t.left, t.right}
    ensures t.node in m && Above(p, null) != t.node && Root(child) != t.node
    ensures Only(Root(child)) + Only(Above(p, null)) <= m.Keys
    ensures child.Fork? ==> child.node != Above(p, null)
  {
    AboveInPath(p);
    RootInNodes(child);
    ForkDistinct(t.left, t.node, t.color, t.right);
  }

  // ----- going down -----

  lemma DownLeft(m: Snapshot, root: Node?, p: Path, t: Tree, h: nat)
    requires Zip(m, root, p, t) && Fits(p, t, h) && t.Fork?
    ensures var q := LeftOf(t.node, t.color, t.right, p);
      Zip(m, root, q, t.left) && Contents(q, t.left) == Contents(p, t) && (t.color == Black ==> h > 0)
      && Fits(q, t.left, if t.color == Red then h else h - 1)
    ensures t.node in m && m[t.node] == Hook(Root(t.left), Root(t.right), Above(p, null), t.color)
    ensures t.left.Fork? ==> t.left.node in m && m[t.left.node] == Hook(Root(t.left.left), Root(t.left.right), t.node, t.left.color)
  {
    var q := LeftOf(t.node, t.color, t.right, p);
    ZipUp(m, root, q, t.left);
    ContentsUp(q, t.left);
    ChildHooks(m, t, Above(p, null));
  }

  lemma DownRight(m: Snapshot, root: Node?, p: Path, t: Tree, h: nat)
    requires Zip(m, root, p, t) && Fits(p, t, h) && t.Fork?
    ensures var q := RightOf(t.left, t.node, t.color, p);
      Zip(m, root, q, t.right) && Contents(q, t.right) == Contents(p, t) && (t.color == Black ==> h > 0)
      && Fits(q, t.right, if t.color == Red then h else h - 1)
    ensures t.node in m && m[t.node] == Hook(Root(t.left), Root(t.right), Above(p, null), t.color)
    ensures t.right.Fork? ==> t.right.node in m && m[t.right.node] == Hook(Root(t.right.left), Root(t.right.right), t.node, t.right.color)
  {
    var q := RightOf(t.left, t.node, t.color, p);
    ZipUp(m, root, q, t.right);
    ContentsUp(q, t.right);
    ChildHooks(m, t, Above(p, null));
  }

  /** The nodes that putting the successor in node's place writes are different from each other,
      except that the spine may be a single node. */
  ghost predicate SuccessorScalars(m: Snapshot, p: Path, l: Tree, node: Node, sp: Path, s: Node, d: Tree) {
    var a, b, u, e, f := Root(l), Root(d), Above(p, null), Above(sp, null), TopEnd(sp, s);
    && node in m && s in m && node != s && node !in {a, b, u, e, f} && s !in {a, b, u, e}
    && (a != null ==> a in m && a !in {b, u, e, f})
    && (b != null ==> b in m && b !in {u, e, f})
    && (u != null ==> u in m && u !in {e, f})
    && (e != null ==> e in m && e in PathNodes(sp))
    && (sp.Top? ==> e == null && f == s)
    && (!sp.Top? ==> e != null && f != null && f in m && f != s && f in PathNodes(sp))
  }

  lemma SuccessorScalarsHold(m: Snapshot, p: Path, l: Tree, node: Node, sp: Path, s: Node, d: Tree)
    requires SuccessorPieces(p, l, node, sp, s, d)
    requires m.Keys == PathNodes(p) + Nodes(l) + {node} + PathNodes(sp) + {s} + Nodes(d)
    ensures SuccessorScalars(m, p, l, node, sp, s, d)
  {
    AboveInPath(p);
    AboveInPath(sp);
    TopEndInPath(sp, s);
    RootInNodes(l);
    RootInNodes(d);
  }

  /** Case 3 only: the successor s leaves its place e; f, the right child of the erased node, goes
      below it. */
  ghost function Unhooked(m: Snapshot, e: Node, s: Node, f: Node): Snapshot
    requires e in m && s in m && f in m && s !in {e, f}
  {
    var m1 := m[e := m[e].(left := m[s].right)];
    m1[s := m1[s].(right := f)][f := m1[f].(parent := s)]
  }

  /** The successor s takes the left subtree, the place and the colour of node; b, its own old right
      subtree, goes below `below`. */
  ghost predicate Placed(m: Snapshot, m': Snapshot, root: Node?, root': Node?, node: Node, c: Color, below: Node, s: Node,
                         a: Node, b: Node?, up: Node?) {
    && s in m && a in m && Wrote(m, m', {s, a} + Only(b) + Only(up))
    && m'[s] == m[s].(left := a, parent := up, color := c) && m'[a] == m[a].(parent := s)
    && (b != null ==> b in m && m'[b] == m[b].(parent := below, color := Black))
    && (up != null ==> up in m && m'[up] == ChildChanged(m, up, node, s)[up])
    && root' == if up == null then s else root
  }

  lemma UnhookedPlaced(m: Snapshot, m': Snapshot, root: Node?, root': Node?, p: Path, l: Tree, node: Node, c: Color,
                       sp: Path, s: Node, d: Tree)
    requires SuccessorScalars(m, p, l, node, sp, s, d) && l.Fork? && !sp.Top? && m[s].left == null
    requires m[s].right == Root(d)
    requires Placed(Unhooked(m, sp.node, s, TopEnd(sp, s)) - {node}, m', root, root', node, c, sp.node, s, l.node, Root(d), Above(p, null))
    ensures SuccessorStored(m - {node}, m', root, root', p, l, node, c, sp, s, d)
  {
    UnhookedWrote(m, m', root, root', p, l, node, c, sp, s, d);
  }

  lemma UnhookedWrote(m: Snapshot, m': Snapshot, root: Node?, root': Node?, p: Path, l: Tree, node: Node, c: Color,
                      sp: Path, s: Node, d: Tree)
    requires SuccessorScalars(m, p, l, node, sp, s, d) && l.Fork? && !sp.Top?
    requires Placed(Unhooked(m, sp.node, s, TopEnd(sp, s)) - {node}, m', root, root', node, c, sp.node, s, l.node, Root(d), Above(p, null))
    ensures Wrote(m - {node}, m', SuccessorWritten(p, l, sp, s, d))
  {}

  /** On the way down from base, by left links, to st. */
  ghost predicate Downward(m: Snapshot, root: Node?, sp: Path, base: Path, st: Tree, k: nat, whole: seq<Node>) {
    forall n: nat :: Unsealed(n) ==>
      var q := Graft(sp, base); Zip(m, root, q, st) && Fits(q, st, k) && Contents(q, st) == whole && Lefts(sp)
  }

  lemma StepsRight(m: Snapshot, root: Node?, p: Path, t: Tree, h: nat)
    requires Zip(m, root, p, t) && Fits(p, t, h) && t.Fork? && t.right.Fork?
    ensures t.node in m && m[t.node].right == t.right.node && t.right.node in m && m[t.right.node].left == Root(t.right.left)
    ensures t.color == Black ==> h > 0
    ensures Downward(m, root, Top, RightOf(t.left, t.node, t.color, p), t.right, if t.color == Red then h else h - 1, Contents(p, t))
  {
    DownRight(m, root, p, t, h);
  }

  lemma FurtherDown(m: Snapshot, root: Node?, sp: Path, base: Path, st: Tree, k: nat, whole: seq<Node>)
    requires Downward(m, root, sp, base, st, k, whole) && st.Fork? && st.node in m && m[st.node].left != null
    ensures st.left.Fork? && st.left.node == m[st.node].left && st.left.node in m
    ensures st.color == Black ==> k > 0
    ensures Downward(m, root, LeftOf(st.node, st.color, st.right, sp), base, st.left, if st.color == Red then k else k - 1, whole)
  {
    assert Unsealed(0);
    DownLeft(m, root, Graft(sp, base), st, k);
  }

  lemma NoFurther(m: Snapshot, root: Node?, sp: Path, base: Path, st: Tree, k: nat, whole: seq<Node>)
    requires Downward(m, root, sp, base, st, k, whole) && st.Fork? && st.node in m && m[st.node].left == null
    ensures st.left == Leaf && Lefts(sp)
    ensures var q := Graft(sp, base); Zip(m, root, q, st) && Fits(q, st, k) && Contents(q, st) == whole
  {
    assert Unsealed(0);
  }

  /** A new red leaf n in the hole of p. */
  lemma Linked(m: Snapshot, m': Snapshot, root: Node?, root': Node?, p: Path, n: Node)
    requires Zip(m, root, p, Leaf) && n !in m && m'.Keys == m.Keys + {n} && root' == if p.Top? then n else root
    requires m'[n] == Hook(null, null, Above(p, null), Red)
    requires forall k | k in m :: k != Above(p, null) ==> m'[k] == m[k]
    requires var a := Above(p, null);
      a != null ==> a in m && m'[a] == if p.LeftOf? then m[a].(left := n) else m[a].(right := n)
    ensures Zip(m', root', p, Fork(Leaf, n, Red, Leaf))
  {
    var m1 := m' - {n};
    if !p.Top? {
      AboveInPath(p);
      RepKept(m, m1, Beside(p), p.node);
      SegKept(m, m1, p.up, p.node, root, null);
    }
    SegWith(m1, m', p, n, root');
  }

  lemma {:induction false} RepWith(m: Snapshot, m': Snapshot, t: Tree, up: Node?)
    requires Rep(m, t, up) && forall k | k in m :: k in m' && m'[k] == m[k]
    ensures Rep(m', t, up)
  {
    if t.Fork? { RepWith(m, m', t.left, t.node); RepWith(m, m', t.right, t.node); }
  }

  lemma {:induction false} SegWith(m: Snapshot, m': Snapshot, p: Path, hole: Node?, top: Node?)
    requires Seg(m, p, hole, top, null) && forall k | k in m :: k in m' && m'[k] == m[k]
    ensures Seg(m', p, hole, top, null)
    decreases p
  {
    if !p.Top? { RepWith(m, m', Beside(p), p.node); SegWith(m, m', p.up, p.node, top); }
  }

  // ----- replacing -----

  /** n has taken over the hook of v, and what pointed to v points to n. */
  ghost predicate ReplaceStored(m: Snapshot, m': Snapshot, root: Node?, root': Node?, p: Path, l: Tree, v: Node, c: Color,
                                r: Tree, n: Node)
  {
    && Wrote(m, m', {n} + Only(Root(l)) + Only(Root(r)) + Only(Above(p, null)))
    && n in m && m'[n] == Hook(Root(l), Root(r), Above(p, null), c)
    && (l.Fork? ==> l.node in m && m'[l.node] == m[l.node].(parent := n))
    && (r.Fork? ==> r.node in m && m'[r.node] == m[r.node].(parent := n))
    && (var a := Above(p, null); a != null ==> a in m && m'[a] == ChildChanged(m, a, v, n)[a])
    && root' == if p.Top? then n else root
  }

  lemma ReplacedParts(m: Snapshot, m': Snapshot, root: Node?, root': Node?, p: Path, l: Tree, v: Node, c: Color, r: Tree, n: Node)
    requires Rep(m, l, v) && Rep(m, r, v) && Seg(m, p, v, root, null) && Apart(p, Fork(l, v, c, r))
    requires n !in PathNodes(p) && n !in Nodes(l) && n !in Nodes(r)
    requires ReplaceStored(m, m', root, root', p, l, v, c, r, n)
    ensures Rep(m', l, n) && Rep(m', r, n) && Seg(m', p, n, root', null)
  {
    ForkDistinct(l, v, c, r);
    DisjointUnion(Nodes(l), v, Nodes(r), PathNodes(p));
    RootInNodes(l);
    RootInNodes(r);
    AboveInPath(p);
    ColoredSame(l, Tint(l));
    ColoredSame(r, Tint(r));
    assert Colored(l, Tint(l)) == l && Colored(r, Tint(r)) == r;
    RepMoved(m, m', l, v, Tint(l), n);
    RepMoved(m, m', r, v, Tint(r), n);
    SegMoved(m, m', p, v, n, root);
  }

  /** What replacing needs to know about the node's neighbours. */
  lemma ReplaceReady(m: Snapshot, root: Node?, p: Path, t: Tree)
    requires Zip(m, root, p, t) && t.Fork?
    ensures t.node in m && m[t.node] == Hook(Root(t.left), Root(t.right), Above(p, null), t.color)
    ensures var a, b, c := Only(Root(t.left)), Only(Root(t.right)), Only(Above(p, null));
      a + b + c <= m.Keys && t.node !in a + b + c && a !! b && c !! a + b
  {
    ForkDistinct(t.left, t.node, t.color, t.right);
    RootInNodes(t.left);
    RootInNodes(t.right);
    AboveInPath(p);
  }

  /** A node takes the place of another. */
  lemma Replaced(m: Snapshot, m': Snapshot, root: Node?, root': Node?, p: Path, l: Tree, v: Node, c: Color, r: Tree, n: Node)
    requires Zip(m - {n}, root, p, Fork(l, v, c, r)) && ReplaceStored(m, m', root, root', p, l, v, c, r, n)
    ensures Zip(m' - {v}, root', p, Fork(l, n, c, r))
  {
    ReplacedApart(p, l, v, c, r, n);
    ReplacedKeys(m, m', p, l, v, c, r, n);
    RepWith(m - {n}, m, l, v);
    RepWith(m - {n}, m, r, v);
    SegWith(m - {n}, m, p, v, root);
    ReplacedParts(m, m', root, root', p, l, v, c, r, n);
    RepWithout(m', v, l, n);
    RepWithout(m', v, r, n);
    SegWithout(m', v, p, n, root', null);
  }

  lemma ReplacedKeys(m: Snapshot, m': Snapshot, p: Path, l: Tree, v: Node, c: Color, r: Tree, n: Node)
    requires PathNodes(p) + Nodes(Fork(l, v, c, r)) == (m - {n}).Keys && m.Keys == m'.Keys && n in m && n != v
    requires v !in PathNodes(p) && v !in Nodes(l) && v !in Nodes(r)
    ensures PathNodes(p) + Nodes(Fork(l, n, c, r)) == (m' - {v}).Keys
  {
    assert m.Keys == PathNodes(p) + (Nodes(l) + {v} + Nodes(r)) + {n};
    assert (m' - {v}).Keys == m.Keys - {v};
    assert m.Keys - {v} == PathNodes(p) + (Nodes(l) + {n} + Nodes(r));
  }

  lemma ReplacedApart(p: Path, l: Tree, v: Node, c: Color, r: Tree, n: Node)
    requires Apart(p, Fork(l, v, c, r)) && n !in PathNodes(p) && n !in Nodes(Fork(l, v, c, r))
    ensures n != v && Apart(p, Fork(l, n, c, r)) && v !in PathNodes(p) && v !in Nodes(l) && v !in Nodes(r)
  {
    ForkDistinct(l, v, c, r);
  }

  // ----- walking -----

  /** One step up: comparing with a child of the parent tells the side of the hole. */
  lemma ClimbUp(m: Snapshot, root: Node?, p: Path, t: Tree)
    requires Zip(m, root, p, t) && t.Fork?
    ensures p.Top? ==> After(p) == [] && Before(p) == []
    ensures !p.Top? ==>
      && Zip(m, root, p.up, PlugOne(p, t)) && p.node in m && m[p.node].parent == Above(p.up, null)
      && (p.LeftOf? <==> m[p.node].left == t.node) && (p.RightOf? <==> m[p.node].right == t.node)
    ensures p.LeftOf? ==> FirstOf(After(p)) == p.node && Before(p) == Before(p.up)
    ensures p.RightOf? ==> LastOf(Before(p)) == p.node && After(p) == After(p.up)
  {
    if !p.Top? {
      ZipUp(m, root, p, t);
      PathRep(m, root, p, t.node);
      SidesDiffer(p, t);
    }
  }

  /** The two ways down from t. */
  lemma Below(m: Snapshot, root: Node?, p: Path, t: Tree)
    requires Zip(m, root, p, t) && t.Fork?
    ensures t.node in m && m[t.node] == Hook(Root(t.left), Root(t.right), Above(p, null), t.color)
    ensures Zip(m, root, LeftOf(t.node, t.color, t.right, p), t.left)
    ensures Zip(m, root, RightOf(t.left, t.node, t.color, p), t.right)
  {
    ZipUp(m, root, LeftOf(t.node, t.color, t.right, p), t.left);
    ZipUp(m, root, RightOf(t.left, t.node, t.color, p), t.right);
  }
}
