// Trees and paths as values: what the linked structure looks like at one moment.
module Shapes {
  import opened Records

  datatype Tree = Leaf | Fork(left: Tree, node: Node, color: Color, right: Tree)

  /** The way from a hole up to the root: each step says on which side of `node` the hole is
      and what hangs on the other side. */
  datatype Path =
    | Top
    | LeftOf(node: Node, color: Color, right: Tree, up: Path)
    | RightOf(left: Tree, node: Node, color: Color, up: Path)

  ghost function Plug(p: Path, t: Tree): Tree
    decreases p
  {
    match p
    case Top => t
    case LeftOf(n, c, r, up) => Plug(up, Fork(t, n, c, r))
    case RightOf(l, n, c, up) => Plug(up, Fork(l, n, c, t))
  }

  ghost function Root(t: Tree): Node? {
    match t case Leaf => null case Fork(_, n, _, _) => n
  }

  /** The node just above the hole, or `up` at the top. */
  ghost function Above(p: Path, up: Node?): Node? {
    match p case Top => up case LeftOf(n, _, _, _) => n case RightOf(_, n, _, _) => n
  }

  // ----- contents -----

  ghost function Nodes(t: Tree): set<Node> {
    match t case Leaf => {} case Fork(l, n, _, r) => Nodes(l) + {n} + Nodes(r)
  }

  ghost function PathNodes(p: Path): set<Node> {
    match p
    case Top => {}
    case LeftOf(n, _, r, up) => {n} + Nodes(r) + PathNodes(up)
    case RightOf(l, n, _, up) => {n} + Nodes(l) + PathNodes(up)
  }

  ghost predicate Distinct(t: Tree) {
    match t
    case Leaf => true
    case Fork(l, n, _, r) =>
      Distinct(l) && Distinct(r) && n !in Nodes(l) && n !in Nodes(r) && Nodes(l) !! Nodes(r)
  }

  ghost predicate PathDistinct(p: Path) {
    match p
    case Top => true
    case LeftOf(n, _, r, up) =>
      Distinct(r) && PathDistinct(up) && n !in Nodes(r) && n !in PathNodes(up) && Nodes(r) !! PathNodes(up)
    case RightOf(l, n, _, up) =>
      Distinct(l) && PathDistinct(up) && n !in Nodes(l) && n !in PathNodes(up) && Nodes(l) !! PathNodes(up)
  }

  ghost predicate Apart(p: Path, t: Tree) {
    PathDistinct(p) && Distinct(t) && Nodes(t) !! PathNodes(p)
  }

  ghost function Inorder(t: Tree): seq<Node> {
    match t case Leaf => [] case Fork(l, n, _, r) => Inorder(l) + [n] + Inorder(r)
  }

  ghost function Before(p: Path): seq<Node> {
    match p
    case Top => []
    case LeftOf(_, _, _, up) => Before(up)
    case RightOf(l, n, _, up) => Before(up) + Inorder(l) + [n]
  }

  ghost function After(p: Path): seq<Node> {
    match p
    case Top => []
    case LeftOf(n, _, r, up) => [n] + Inorder(r) + After(up)
    case RightOf(_, _, _, up) => After(up)
  }

  // ----- the red-black laws -----

  ghost predicate IsRed(t: Tree) {
    t.Fork? && t.color == Red
  }

  /** No red node has a red child and every way down from the top of t meets exactly h black nodes. */
  ghost predicate Sound(t: Tree, h: nat) {
    match t
    case Leaf => h == 0
    case Fork(l, _, Red, r) => Sound(l, h) && Sound(r, h) && !IsRed(l) && !IsRed(r)
    case Fork(l, _, Black, r) => h > 0 && Sound(l, h - 1) && Sound(r, h - 1)
  }

  ghost predicate RedBlack(t: Tree) {
    !IsRed(t) && exists h: nat :: Sound(t, h)
  }

  ghost predicate BlackAbove(p: Path) {
    !p.Top? && p.color == Black
  }

  /** Filling the hole of p with a tree of black height h gives a red-black tree, except
      perhaps for the colour of the node that fills the hole. */
  ghost predicate PathSound(p: Path, h: nat) {
    match p
    case Top => true
    case LeftOf(_, Red, r, up) => Sound(r, h) && !IsRed(r) && BlackAbove(up) && PathSound(up, h)
    case LeftOf(_, Black, r, up) => Sound(r, h) && PathSound(up, h + 1)
    case RightOf(l, _, Red, up) => Sound(l, h) && !IsRed(l) && BlackAbove(up) && PathSound(up, h)
    case RightOf(l, _, Black, up) => Sound(l, h) && PathSound(up, h + 1)
  }

  ghost predicate Fits(p: Path, t: Tree, h: nat) {
    PathSound(p, h) && Sound(t, h) && (IsRed(t) ==> BlackAbove(p))
  }

  // ----- plugging -----

  lemma {:induction false} PlugInorder(p: Path, t: Tree)
    ensures Inorder(Plug(p, t)) == Contents(p, t)
    decreases p
  {
    if !p.Top? {
      ContentsUp(p, t);
      PlugInorder(p.up, PlugOne(p, t));
    }
  }

  lemma {:induction false} PlugNodes(p: Path, t: Tree)
    ensures Nodes(Plug(p, t)) == PathNodes(p) + Nodes(t)
    decreases p
  {
    match p
    case Top =>
    case LeftOf(n, c, r, up) => PlugNodes(up, Fork(t, n, c, r));
    case RightOf(l, n, c, up) => PlugNodes(up, Fork(l, n, c, t));
  }

  lemma {:induction false} PlugDistinct(p: Path, t: Tree)
    ensures Distinct(Plug(p, t)) <==> Apart(p, t)
    decreases p
  {
    match p
    case Top =>
    case LeftOf(n, c, r, up) => PlugDistinct(up, Fork(t, n, c, r));
    case RightOf(l, n, c, up) => PlugDistinct(up, Fork(l, n, c, t));
  }

  /** A hole filled within the laws gives a red-black tree. */
  lemma {:induction false} PlugSound(p: Path, t: Tree, h: nat)
    requires Fits(p, t, h)
    ensures RedBlack(Plug(p, t))
    decreases p
  {
    match p
    case Top => assert Sound(t, h);
    case LeftOf(n, c, r, up) => PlugSound(up, Fork(t, n, c, r), if c == Red then h else h + 1);
    case RightOf(l, n, c, up) => PlugSound(up, Fork(l, n, c, t), if c == Red then h else h + 1);
  }

  /** Conversely, any place of a red-black tree can be looked at as a path and a subtree that fits. */
  lemma {:induction false} UnplugSound(p: Path, t: Tree) returns (h: nat)
    requires RedBlack(Plug(p, t))
    ensures Fits(p, t, h)
    decreases p
  {
    match p
    case Top => h :| Sound(t, h);
    case LeftOf(n, c, r, up) =>
      var k := UnplugSound(up, Fork(t, n, c, r));
      h := if c == Red then k else k - 1;
    case RightOf(l, n, c, up) =>
      var k := UnplugSound(up, Fork(l, n, c, t));
      h := if c == Red then k else k - 1;
  }

  // ----- what the laws say, path by path -----

  /** The numbers of black nodes met on the ways from the top of t down to a leaf. */
  ghost function BlackCounts(t: Tree): set<nat> {
    match t
    case Leaf => {0}
    case Fork(l, _, c, r) => set k | k in BlackCounts(l) + BlackCounts(r) :: k + if c == Black then 1 else 0
  }

  ghost predicate NoRedRed(t: Tree) {
    t.Fork? ==>
      && NoRedRed(t.left) && NoRedRed(t.right)
      && (t.color == Red ==> !IsRed(t.left) && !IsRed(t.right))
  }

  lemma {:induction false} SoundIsEqualBlackCounts(t: Tree, h: nat)
    ensures Sound(t, h) <==> NoRedRed(t) && BlackCounts(t) == {h}
  {
    match t
    case Leaf => OnlyElement({0}, h);
    case Fork(l, _, c, r) =>
      var d := if c == Black then 1 else 0;
      CountsOfFork(t, h, d);
      if h >= d {
        SoundIsEqualBlackCounts(l, h - d);
        SoundIsEqualBlackCounts(r, h - d);
      }
  }

  lemma OnlyElement(s: set<nat>, k: nat)
    requires s != {}
    ensures s == {k} <==> forall x :: x in s ==> x == k
  {
    if forall x :: x in s ==> x == k {
      var y :| y in s;
    }
  }

  lemma CountsOfFork(t: Tree, h: nat, d: nat)
    requires t.Fork? && d == if t.color == Black then 1 else 0
    ensures BlackCounts(t) == {h} <==> h >= d && BlackCounts(t.left) == {h - d} && BlackCounts(t.right) == {h - d}
  {
    var l, r := BlackCounts(t.left), BlackCounts(t.right);
    BlackCountsNonempty(t.left);
    BlackCountsNonempty(t.right);
    ShiftedSet(l + r, BlackCounts(t), d, h);
    if h >= d {
      OnlyElement(l, h - d);
      OnlyElement(r, h - d);
    }
  }

  lemma ShiftedSet(s: set<nat>, s': set<nat>, d: nat, h: nat)
    requires s != {} && s' == set k | k in s :: k + d
    ensures s' == {h} <==> h >= d && forall k :: k in s ==> k == h - d
  {
    assert forall k :: k in s ==> k + d in s';
    var k :| k in s;
    assert k + d in s';
    OnlyElement(s', h);
  }

  lemma {:induction false} BlackCountsNonempty(t: Tree)
    ensures BlackCounts(t) != {}
  {
    match t
    case Leaf =>
    case Fork(l, _, c, r) =>
      BlackCountsNonempty(l);
      var k :| k in BlackCounts(l);
      assert (if c == Black then k + 1 else k) in BlackCounts(t);
  }

  ghost function Height(t: Tree): nat {
    match t case Leaf => 0 case Fork(l, _, _, r) => 1 + if Height(l) > Height(r) then Height(l) else Height(r)
  }

  ghost function Pow2(n: nat): nat {
    if n == 0 then 1 else 2 * Pow2(n - 1)
  }

  /** Why the laws matter: a red-black tree of n nodes is at most 2 log2(n + 1) high, so no
      descent in it takes more steps than that. */
  lemma HeightIsLogarithmic(t: Tree)
    requires RedBlack(t)
    ensures Pow2((Height(t) + 1) / 2) <= |Inorder(t)| + 1
  {
    var h: nat :| Sound(t, h);
    BlackHeightBounds(t, h);
    Pow2Monotone((Height(t) + 1) / 2, h);
  }

  lemma {:induction false} BlackHeightBounds(t: Tree, h: nat)
    requires Sound(t, h)
    ensures Height(t) <= 2 * h + if IsRed(t) then 1 else 0
    ensures Pow2(h) <= |Inorder(t)| + 1
  {
    match t
    case Leaf =>
    case Fork(l, _, c, r) =>
      var k := if c == Red then h else h - 1;
      BlackHeightBounds(l, k);
      BlackHeightBounds(r, k);
      assert |Inorder(t)| == |Inorder(l)| + 1 + |Inorder(r)|;
  }

  lemma {:induction false} Pow2Monotone(a: nat, b: nat)
    requires a <= b
    ensures Pow2(a) <= Pow2(b)
    decreases b
  {
    if a < b { Pow2Monotone(a, b - 1); }
  }

  // ----- what recolouring and rotating leave alone -----

  ghost function Colored(t: Tree, c: Color): Tree {
    if t.Fork? then t.(color := c) else t
  }

  lemma ColoredSame(t: Tree, c: Color)
    ensures Nodes(Colored(t, c)) == Nodes(t) && Inorder(Colored(t, c)) == Inorder(t)
    ensures Distinct(Colored(t, c)) == Distinct(t)
  {}

  /** The pieces of a rotation below p share no node. */
  ghost predicate Pieces(p: Path, a: Tree, x: Node, b: Tree, y: Node, d: Tree) {
    && PathDistinct(p) && Distinct(a) && Distinct(b) && Distinct(d)
    && x != y && x !in PathNodes(p) && y !in PathNodes(p)
    && x !in Nodes(a) && x !in Nodes(b) && x !in Nodes(d)
    && y !in Nodes(a) && y !in Nodes(b) && y !in Nodes(d)
    && Nodes(a) !! Nodes(b) && Nodes(a) !! Nodes(d) && Nodes(b) !! Nodes(d)
    && Nodes(a) !! PathNodes(p) && Nodes(b) !! PathNodes(p) && Nodes(d) !! PathNodes(p)
  }

  lemma ForkDistinct(l: Tree, n: Node, c: Color, r: Tree)
    ensures Nodes(Fork(l, n, c, r)) == Nodes(l) + {n} + Nodes(r)
    ensures Distinct(Fork(l, n, c, r)) <==>
      Distinct(l) && Distinct(r) && n !in Nodes(l) && n !in Nodes(r) && Nodes(l) !! Nodes(r)
  {}

  lemma DisjointUnion(s: set<Node>, n: Node, s': set<Node>, t: set<Node>)
    ensures (s + {n} + s') !! t <==> s !! t && n !in t && s' !! t
  {}

  lemma RightPieces(p: Path, a: Tree, x: Node, b: Tree, y: Node, d: Tree, c1: Color, c2: Color)
    ensures Apart(p, Fork(Fork(a, x, c1, b), y, c2, d)) <==> Pieces(p, a, x, b, y, d)
    ensures Nodes(Fork(Fork(a, x, c1, b), y, c2, d)) == Nodes(a) + {x} + Nodes(b) + {y} + Nodes(d)
  {
    var ab := Fork(a, x, c1, b);
    ForkDistinct(a, x, c1, b);
    ForkDistinct(ab, y, c2, d);
    DisjointUnion(Nodes(a), x, Nodes(b), Nodes(d));
    DisjointUnion(Nodes(a), x, Nodes(b), PathNodes(p));
    DisjointUnion(Nodes(ab), y, Nodes(d), PathNodes(p));
  }

  lemma LeftPieces(p: Path, a: Tree, x: Node, b: Tree, y: Node, d: Tree, c1: Color, c2: Color)
    ensures Apart(p, Fork(a, x, c1, Fork(b, y, c2, d))) <==> Pieces(p, a, x, b, y, d)
    ensures Nodes(Fork(a, x, c1, Fork(b, y, c2, d))) == Nodes(a) + {x} + Nodes(b) + {y} + Nodes(d)
  {
    var bd := Fork(b, y, c2, d);
    ForkDistinct(b, y, c2, d);
    ForkDistinct(a, x, c1, bd);
    DisjointUnion(Nodes(b), y, Nodes(d), Nodes(a));
    DisjointUnion(Nodes(b), y, Nodes(d), PathNodes(p));
    DisjointUnion(Nodes(a), x, Nodes(bd), PathNodes(p));
  }

  lemma RotationInorder(a: Tree, x: Node, b: Tree, y: Node, d: Tree, c1: Color, c2: Color, c3: Color, c4: Color)
    ensures Inorder(Fork(Fork(a, x, c1, b), y, c2, d)) == Inorder(Fork(a, x, c3, Fork(b, y, c4, d)))
  {
    var ab, bd := Fork(a, x, c1, b), Fork(b, y, c4, d);
    assert Inorder(ab) == Inorder(a) + [x] + Inorder(b);
    assert Inorder(bd) == Inorder(b) + [y] + Inorder(d);
    assert (Inorder(a) + [x] + Inorder(b)) + [y] + Inorder(d) == Inorder(a) + [x] + (Inorder(b) + [y] + Inorder(d));
  }

  lemma RootInNodes(t: Tree)
    ensures Root(t) != null ==> Root(t) in Nodes(t)
  {}

  lemma AboveInPath(p: Path)
    ensures Above(p, null) != null ==> Above(p, null) in PathNodes(p)
  {}

  // ----- moving the point of view up one level -----

  ghost function PlugOne(p: Path, t: Tree): Tree
    requires !p.Top?
  {
    match p
    case LeftOf(n, c, r, _) => Fork(t, n, c, r)
    case RightOf(l, n, c, _) => Fork(l, n, c, t)
  }

  /** What hangs beside the hole. */
  ghost function Beside(p: Path): Tree
    requires !p.Top?
  {
    if p.LeftOf? then p.right else p.left
  }

  ghost function Contents(p: Path, t: Tree): seq<Node> {
    Before(p) + Inorder(t) + After(p)
  }

  lemma ApartUp(p: Path, t: Tree)
    requires !p.Top?
    ensures Apart(p, t) <==> Apart(p.up, PlugOne(p, t))
    ensures PathNodes(p) + Nodes(t) == PathNodes(p.up) + Nodes(PlugOne(p, t))
  {
    ForkDistinct(if p.LeftOf? then t else p.left, p.node, p.color, if p.LeftOf? then p.right else t);
    DisjointUnion(Nodes(t), p.node, Nodes(Beside(p)), PathNodes(p.up));
  }

  lemma ContentsUp(p: Path, t: Tree)
    requires !p.Top?
    ensures Contents(p, t) == Contents(p.up, PlugOne(p, t))
  {
    match p
    case LeftOf(n, c, r, up) => Regroup(Before(up), Inorder(t), [n], Inorder(r), After(up));
    case RightOf(l, n, c, up) => Regroup(Before(up), Inorder(l), [n], Inorder(t), After(up));
  }

  lemma Regroup(a: seq<Node>, b: seq<Node>, c: seq<Node>, d: seq<Node>, e: seq<Node>)
    ensures a + (b + c + d) + e == a + b + (c + d + e)
    ensures a + (b + c + d) + e == (a + b + c) + d + e
  {}

  ghost function Tint(t: Tree): Color {
    if t.Fork? then t.color else Black
  }

  lemma PaintedContents(p: Path, l: Tree, n: Node, c: Color, r: Tree, c': Color, cl: Color, cr: Color)
    ensures Contents(p, Fork(Colored(l, cl), n, c', Colored(r, cr))) == Contents(p, Fork(l, n, c, r))
    ensures Apart(p, Fork(Colored(l, cl), n, c', Colored(r, cr))) == Apart(p, Fork(l, n, c, r))
    ensures Nodes(Fork(Colored(l, cl), n, c', Colored(r, cr))) == Nodes(Fork(l, n, c, r))
  {
    ColoredSame(l, cl);
    ColoredSame(r, cr);
    ForkDistinct(l, n, c, r);
    ForkDistinct(Colored(l, cl), n, c', Colored(r, cr));
  }

  // ----- insertion -----

  /** Case 1 of insertion: parent and uncle go black, the grandparent red. */
  ghost function Flipped(p: Path, t: Tree): Tree
    requires !p.Top? && !p.up.Top?
  {
    var pt, uncle := Colored(PlugOne(p, t), Black), Colored(Beside(p.up), Black);
    if p.up.LeftOf? then Fork(pt, p.up.node, Red, uncle) else Fork(uncle, p.up.node, Red, pt)
  }

  lemma FlippedSound(p: Path, t: Tree, h: nat)
    requires !p.Top? && p.color == Red && PathSound(p, h) && Sound(t, h)
    requires IsRed(Beside(p.up))
    ensures !p.up.Top? && p.up.color == Black
    ensures Sound(Flipped(p, t), h + 1) && PathSound(p.up.up, h + 1)
    ensures Contents(p.up.up, Flipped(p, t)) == Contents(p, t)
  {
    assert Sound(Colored(PlugOne(p, t), Black), h + 1);
    ContentsUp(p, t);
    ContentsUp(p.up, PlugOne(p, t));
    ColoredSame(PlugOne(p, t), Black);
    ColoredSame(Beside(p.up), Black);
  }

  /** Cases 2 and 3 of insertion: the middle one of node, parent and grandparent goes up, black,
      with the other two red below it. */
  ghost function Rotated(p: Path, t: Tree): Tree
    requires !p.Top? && !p.up.Top? && t.Fork?
  {
    var u, s, g := Beside(p.up), Beside(p), p.up.node;
    if p.up.LeftOf? then
      if p.LeftOf? then Fork(t, p.node, Black, Fork(Colored(s, Black), g, Red, u))
      else Fork(Fork(s, p.node, Red, Colored(t.left, Black)), t.node, Black, Fork(Colored(t.right, Black), g, Red, u))
    else
      if p.RightOf? then Fork(Fork(u, g, Red, Colored(s, Black)), p.node, Black, t)
      else Fork(Fork(u, g, Red, Colored(t.left, Black)), t.node, Black, Fork(Colored(t.right, Black), p.node, Red, s))
  }

  lemma RotatedSound(p: Path, t: Tree, h: nat)
    requires !p.Top? && p.color == Red && PathSound(p, h) && Sound(t, h) && IsRed(t)
    requires !IsRed(Beside(p.up))
    ensures !p.up.Top? && Sound(Rotated(p, t), h + 1) && PathSound(p.up.up, h + 1)
  {
    assert Colored(t.left, Black) == t.left && Colored(t.right, Black) == t.right && Colored(Beside(p), Black) == Beside(p);
    assert Sound(t.left, h) && Sound(t.right, h);
  }

  lemma ColoredFork(l: Tree, n: Node, r: Tree, c: Color)
    ensures forall k :: Inorder(Fork(Colored(l, c), n, k, r)) == Inorder(Fork(l, n, k, r))
    ensures forall k :: Inorder(Fork(l, n, k, Colored(r, c))) == Inorder(Fork(l, n, k, r))
  {
    ColoredSame(l, c);
    ColoredSame(r, c);
  }

  lemma RotatedContents(p: Path, t: Tree)
    requires !p.Top? && !p.up.Top? && t.Fork?
    ensures Contents(p.up.up, Rotated(p, t)) == Contents(p, t)
  {
    ContentsUp(p, t);
    ContentsUp(p.up, PlugOne(p, t));
    var u, s, g := Beside(p.up), Beside(p), p.up.node;
    var l, r := t.left, t.right;
    if p.up.LeftOf? {
      ColoredFork(s, g, u, Black);
      ColoredFork(r, g, u, Black);
      ColoredFork(s, p.node, l, Black);
      if p.LeftOf? {
        RotationInorder(t, p.node, s, g, u, p.color, p.up.color, Black, Red);
      } else {
        RotationInorder(s, p.node, l, t.node, r, Red, Black, p.color, t.color);
        RotationInorder(Fork(s, p.node, Red, l), t.node, r, g, u, Black, Black, Black, Red);
      }
    } else {
      ColoredFork(u, g, s, Black);
      ColoredFork(u, g, l, Black);
      ColoredFork(r, p.node, s, Black);
      if p.RightOf? {
        RotationInorder(u, g, s, p.node, t, Red, Black, p.up.color, p.color);
      } else {
        RotationInorder(l, t.node, r, p.node, s, t.color, p.color, Black, Red);
        RotationInorder(u, g, l, t.node, Fork(r, p.node, Red, s), Red, Black, Black, Black);
      }
    }
  }

  lemma InnerLeftPieces(p: Path, t: Tree)
    requires Apart(p, t) && p.RightOf? && p.up.LeftOf? && t.Fork?
    ensures Pieces(p.up, p.left, p.node, t.left, t.node, t.right)
    ensures Pieces(p.up.up, Fork(p.left, p.node, Red, Colored(t.left, Black)), t.node, t.right, p.up.node, p.up.right)
    ensures PathNodes(p) + Nodes(t) == PathNodes(p.up.up) +
      (Nodes(Fork(p.left, p.node, Red, Colored(t.left, Black))) + {t.node} + Nodes(t.right) + {p.up.node} + Nodes(p.up.right))
  {
    var l, q := Colored(t.left, Black), p.up;
    var a := Fork(p.left, p.node, Red, l);
    ColoredSame(t.left, Black);
    ApartUp(p, t);
    LeftPieces(q, p.left, p.node, t.left, t.node, t.right, p.color, t.color);
    RightPieces(q, p.left, p.node, l, t.node, t.right, Red, Red);
    ApartUp(q, Fork(a, t.node, Red, t.right));
    RightPieces(q.up, a, t.node, t.right, q.node, q.right, Red, q.color);
  }

  lemma InnerRightPieces(p: Path, t: Tree)
    requires Apart(p, t) && p.LeftOf? && p.up.RightOf? && t.Fork?
    ensures Pieces(p.up, t.left, t.node, t.right, p.node, p.right)
    ensures Pieces(p.up.up, p.up.left, p.up.node, t.left, t.node, Fork(Colored(t.right, Black), p.node, Red, p.right))
    ensures PathNodes(p) + Nodes(t) == PathNodes(p.up.up) +
      (Nodes(p.up.left) + {p.up.node} + Nodes(t.left) + {t.node} + Nodes(Fork(Colored(t.right, Black), p.node, Red, p.right)))
  {
    var r, q := Colored(t.right, Black), p.up;
    var d := Fork(r, p.node, Red, p.right);
    ColoredSame(t.right, Black);
    ApartUp(p, t);
    RightPieces(q, t.left, t.node, t.right, p.node, p.right, t.color, p.color);
    LeftPieces(q, t.left, t.node, r, p.node, p.right, Red, Red);
    ApartUp(q, Fork(t.left, t.node, Red, d));
    LeftPieces(q.up, q.left, q.node, t.left, t.node, d, q.color, Red);
  }

  /** The two children of a node differ, so comparing with one of them tells the side of the hole. */
  lemma SidesDiffer(p: Path, t: Tree)
    requires Apart(p, t) && !p.Top? && t.Fork?
    ensures p.LeftOf? ==> Root(p.right) != t.node
    ensures p.RightOf? ==> Root(p.left) != t.node
  {
    RootInNodes(Beside(p));
  }

  // ----- erasing: taking a node out -----

  /** t fills the hole of p one black node short. */
  ghost predicate Short(p: Path, t: Tree, h: nat) {
    PathSound(p, h + 1) && Sound(t, h) && !IsRed(t)
  }

  /** What follows when a node with at most one child makes way for that child: it fits, or a leaf
      is left that is one black node short. */
  ghost predicate TakenOut(p: Path, c: Color, child: Tree) {
    if child.Leaf? && c == Black then Short(p, Leaf, 0) else exists h: nat :: Fits(p, Colored(child, Black), h)
  }

  lemma OneChild(p: Path, t: Tree, h: nat, child: Tree)
    requires Fits(p, t, h) && t.Fork? && ((t.left.Leaf? && child == t.right) || (t.right.Leaf? && child == t.left))
    ensures TakenOut(p, t.color, child)
    ensures child.Fork? ==> t.color == Black && child.color == Red
  {
    assert Sound(t.left, if t.color == Red then h else h - 1) && Sound(t.right, if t.color == Red then h else h - 1);
    if child.Fork? {
      assert Sound(child, 0);
      assert Fits(p, Colored(child, Black), 1);
    } else {
      assert t.color == Red ==> Fits(p, Colored(child, Black), 0);
    }
  }

  /** Path a with its top end put into the hole of b. */
  ghost function Graft(a: Path, b: Path): Path {
    match a
    case Top => b
    case LeftOf(n, c, r, up) => LeftOf(n, c, r, Graft(up, b))
    case RightOf(l, n, c, up) => RightOf(l, n, c, Graft(up, b))
  }

  /** The path goes left all the way. */
  ghost predicate Lefts(p: Path) {
    p.Top? || (p.LeftOf? && Lefts(p.up))
  }

  lemma {:induction false} GraftNodes(a: Path, b: Path)
    ensures PathNodes(Graft(a, b)) == PathNodes(a) + PathNodes(b)
    ensures PathDistinct(Graft(a, b)) <==> PathDistinct(a) && PathDistinct(b) && PathNodes(a) !! PathNodes(b)
  {
    if !a.Top? { GraftNodes(a.up, b); }
  }

  lemma {:induction false} GraftOrder(a: Path, b: Path)
    requires Lefts(a)
    ensures Before(Graft(a, b)) == Before(b) && After(Graft(a, b)) == After(a) + After(b)
  {
    if !a.Top? { GraftOrder(a.up, b); }
  }

  /** The laws do not depend on which node stands where. */
  lemma {:induction false} GraftSound(a: Path, l: Tree, n: Node, n': Node, c: Color, p: Path, h: nat)
    requires PathSound(Graft(a, RightOf(l, n, c, p)), h)
    ensures PathSound(Graft(a, RightOf(l, n', c, p)), h)
    ensures BlackAbove(Graft(a, RightOf(l, n, c, p))) == BlackAbove(Graft(a, RightOf(l, n', c, p)))
  {
    if !a.Top? {
      GraftSound(a.up, l, n, n', c, p, if a.color == Red then h else h + 1);
    }
  }

  ghost function Without(s: seq<Node>, n: Node): seq<Node> {
    if s == [] then [] else if s[0] == n then s[1..] else [s[0]] + Without(s[1..], n)
  }

  lemma {:induction false} WithoutMiddle(x: seq<Node>, n: Node, y: seq<Node>)
    requires n !in x
    ensures Without(x + [n] + y, n) == x + y
  {
    var s := x + [n] + y;
    if x == [] {
      assert s[1..] == y;
    } else {
      assert s[1..] == x[1..] + [n] + y;
      WithoutMiddle(x[1..], n, y);
      assert [x[0]] + (x[1..] + y) == x + y;
    }
  }

  /** node stands at the hole of p with left subtree l; s, its successor, is reached through node's
      right subtree by the left steps sp and has only a right subtree d. All these share no node. */
  ghost predicate SuccessorPieces(p: Path, l: Tree, node: Node, sp: Path, s: Node, d: Tree) {
    && PathDistinct(p) && Distinct(l) && PathDistinct(sp) && Distinct(d) && node != s
    && node !in PathNodes(p) && node !in Nodes(l) && node !in PathNodes(sp) && node !in Nodes(d)
    && s !in PathNodes(p) && s !in Nodes(l) && s !in PathNodes(sp) && s !in Nodes(d)
    && PathNodes(p) !! Nodes(l) && PathNodes(p) !! PathNodes(sp) && PathNodes(p) !! Nodes(d)
    && Nodes(l) !! PathNodes(sp) && Nodes(l) !! Nodes(d) && PathNodes(sp) !! Nodes(d)
  }

  lemma SuccessorApart(p: Path, l: Tree, node: Node, c: Color, sp: Path, s: Node, sc: Color, d: Tree)
    requires Apart(Graft(sp, RightOf(l, node, c, p)), Fork(Leaf, s, sc, d))
    ensures SuccessorPieces(p, l, node, sp, s, d)
    ensures PathNodes(Graft(sp, RightOf(l, node, c, p))) + Nodes(Fork(Leaf, s, sc, d)) ==
      PathNodes(p) + Nodes(l) + {node} + PathNodes(sp) + {s} + Nodes(d)
  {
    GraftNodes(sp, RightOf(l, node, c, p));
    ForkDistinct(Leaf, s, sc, d);
  }

  lemma SuccessorMoved(p: Path, l: Tree, node: Node, c: Color, sp: Path, s: Node, d: Tree, cd: Color)
    requires SuccessorPieces(p, l, node, sp, s, d)
    ensures Apart(Graft(sp, RightOf(l, s, c, p)), Colored(d, cd))
    ensures PathNodes(Graft(sp, RightOf(l, s, c, p))) + Nodes(Colored(d, cd)) ==
      PathNodes(p) + Nodes(l) + PathNodes(sp) + {s} + Nodes(d)
  {
    GraftNodes(sp, RightOf(l, s, c, p));
    ColoredSame(d, cd);
  }

  /** Erasing node by putting its successor in its place removes just node from the sequence. */
  lemma {:induction false} SuccessorContents(p: Path, l: Tree, node: Node, c: Color, sp: Path, s: Node, sc: Color, d: Tree,
                                             cd: Color)
    requires SuccessorPieces(p, l, node, sp, s, d) && Lefts(sp)
    ensures Contents(Graft(sp, RightOf(l, s, c, p)), Colored(d, cd))
         == Without(Contents(Graft(sp, RightOf(l, node, c, p)), Fork(Leaf, s, sc, d)), node)
  {
    var q, q' := RightOf(l, node, c, p), RightOf(l, s, c, p);
    GraftOrder(sp, q);
    GraftOrder(sp, q');
    ColoredSame(d, cd);
    if node in Before(p) { InBefore(p, node); }
    InInorder(l, node);
    var x, y := Before(p) + Inorder(l), After(sp) + After(p);
    assert Before(q) == x + [node] && Before(q') == x + [s] && After(q) == After(p) == After(q');
    assert Inorder(Fork(Leaf, s, sc, d)) == [s] + Inorder(d);
    MoveOver(x, node, s, Inorder(d), y);
  }

  lemma MoveOver(x: seq<Node>, node: Node, s: Node, d: seq<Node>, y: seq<Node>)
    requires node !in x
    ensures (x + [s]) + d + y == Without((x + [node]) + ([s] + d) + y, node)
  {
    WithoutMiddle(x, node, [s] + d + y);
    assert (x + [node]) + ([s] + d) + y == x + [node] + ([s] + d + y);
    assert (x + [s]) + d + y == x + ([s] + d + y);
  }

  lemma {:induction false} InInorder(t: Tree, n: Node)
    ensures n in Inorder(t) <==> n in Nodes(t)
  {
    if t.Fork? { InInorder(t.left, n); InInorder(t.right, n); }
  }

  lemma {:induction false} InBefore(p: Path, n: Node)
    requires n in Before(p)
    ensures n in PathNodes(p)
  {
    match p
    case Top =>
    case LeftOf(_, _, _, up) => InBefore(up, n);
    case RightOf(l, k, _, up) =>
      InInorder(l, n);
      if n in Before(up) { InBefore(up, n); }
  }

  lemma ChildContents(p: Path, t: Tree, child: Tree, c: Color)
    requires Apart(p, t) && t.Fork? && ((t.left.Leaf? && child == t.right) || (t.right.Leaf? && child == t.left))
    ensures Contents(p, Colored(child, c)) == Without(Contents(p, t), t.node)
  {
    ColoredSame(child, c);
    if t.node in Before(p) { InBefore(p, t.node); }
    InInorder(t.left, t.node);
    TakeMiddle(Before(p), Inorder(t.left), t.node, Inorder(t.right), After(p));
  }

  lemma TakeMiddle(a: seq<Node>, b: seq<Node>, n: Node, d: seq<Node>, e: seq<Node>)
    requires n !in a && n !in b
    ensures Without(a + (b + [n] + d) + e, n) == (a + b) + (d + e)
    ensures b == [] ==> (a + b) + (d + e) == a + d + e
    ensures d == [] ==> (a + b) + (d + e) == a + b + e
  {
    Assoc(a, b + [n], d);
    Assoc(a, b, [n]);
    Assoc(a + b + [n], d, e);
    WithoutMiddle(a + b, n, d + e);
    Assoc(a, d, e);
    assert b == [] ==> a + b == a;
    assert d == [] ==> d + e == e;
  }

  lemma Assoc(a: seq<Node>, b: seq<Node>, c: seq<Node>)
    ensures (a + b) + c == a + (b + c)
  {}

  // ----- erasing: making good a missing black node -----

  /** Case 1: the red sibling goes up, and the hole gets a black sibling below a red parent. */
  ghost function Turned(p: Path): Path
    requires !p.Top? && Beside(p).Fork?
  {
    var s := Beside(p);
    if p.LeftOf? then LeftOf(p.node, Red, Colored(s.left, Black), LeftOf(s.node, p.color, s.right, p.up))
    else RightOf(Colored(s.right, Black), p.node, Red, RightOf(s.left, s.node, p.color, p.up))
  }

  lemma SiblingSound(p: Path, t: Tree, h: nat)
    requires Short(p, t, h) && !p.Top?
    ensures Beside(p).Fork? && Sound(Beside(p), h + 1)
    ensures p.color == Red ==> !IsRed(Beside(p))
    ensures IsRed(Beside(p)) ==>
      && p.color == Black && Beside(p).left.Fork? && Beside(p).right.Fork?
      && Sound(Beside(p).left, h + 1) && Sound(Beside(p).right, h + 1)
  {
    if IsRed(Beside(p)) {
      assert Sound(Beside(p).left, h + 1) && Sound(Beside(p).right, h + 1);
    }
  }

  lemma TurnedShort(p: Path, t: Tree, h: nat)
    requires Short(p, t, h) && !p.Top? && IsRed(Beside(p))
    ensures Short(Turned(p), t, h) && !Turned(p).Top? && Turned(p).color == Red && !IsRed(Beside(Turned(p)))
  {
    SiblingSound(p, t, h);
    var s := Beside(p);
    assert Colored(s.left, Black) == s.left && Colored(s.right, Black) == s.right;
  }

  lemma TurnedContents(p: Path, t: Tree)
    requires !p.Top? && Beside(p).Fork?
    ensures Contents(Turned(p), t) == Contents(p, t)
  {
    var s, q, x := Beside(p), Turned(p), p.node;
    ContentsUp(p, t);
    ContentsUp(q, t);
    ContentsUp(q.up, PlugOne(q, t));
    if p.LeftOf? {
      ColoredFork(t, x, s.left, Black);
      RotationInorder(t, x, s.left, s.node, s.right, Red, p.color, p.color, s.color);
      assert Inorder(Fork(t, x, Red, Colored(s.left, Black))) == Inorder(Fork(t, x, Red, s.left));
    } else {
      ColoredFork(s.right, x, t, Black);
      RotationInorder(s.left, s.node, s.right, x, t, s.color, p.color, p.color, Red);
      assert Inorder(Fork(Colored(s.right, Black), x, Red, t)) == Inorder(Fork(s.right, x, Red, t));
    }
  }

  /** Case 2: the black sibling, with no red child, goes red. */
  ghost function EraseFlipped(p: Path, t: Tree): Tree
    requires !p.Top?
  {
    if p.LeftOf? then Fork(t, p.node, Black, Colored(p.right, Red)) else Fork(Colored(p.left, Red), p.node, Black, t)
  }

  lemma EraseFlippedSound(p: Path, t: Tree, h: nat)
    requires Short(p, t, h) && !p.Top? && !IsRed(Beside(p)) && !IsRed(Beside(p).left) && !IsRed(Beside(p).right)
    ensures if p.color == Red then Fits(p.up, EraseFlipped(p, t), h + 1) else Short(p.up, EraseFlipped(p, t), h + 1)
    ensures Contents(p.up, EraseFlipped(p, t)) == Contents(p, t)
  {
    SiblingSound(p, t, h);
    assert Sound(Colored(Beside(p), Red), h);
    ContentsUp(p, t);
    ColoredSame(Beside(p), Red);
  }

  /** Cases 3 and 4: a red child of the black sibling pays for the missing black node. */
  ghost function EraseRotated(p: Path, t: Tree): Tree
    requires !p.Top? && Beside(p).Fork?
    requires if p.LeftOf? then IsRed(p.right.right) || IsRed(p.right.left) else IsRed(p.left.left) || IsRed(p.left.right)
  {
    var s, x, c := Beside(p), p.node, p.color;
    if p.LeftOf? then
      if IsRed(s.right) then Fork(Fork(t, x, Black, s.left), s.node, c, Colored(s.right, Black))
      else Fork(Fork(t, x, Black, s.left.left), s.left.node, c, Fork(Colored(s.left.right, Black), s.node, Black, s.right))
    else
      if IsRed(s.left) then Fork(Colored(s.left, Black), s.node, c, Fork(s.right, x, Black, t))
      else Fork(Fork(s.left, s.node, Black, Colored(s.right.left, Black)), s.right.node, c, Fork(s.right.right, x, Black, t))
  }

  lemma EraseRotatedSound(p: Path, t: Tree, h: nat) returns (k: nat)
    requires Short(p, t, h) && !p.Top? && !IsRed(Beside(p)) && Beside(p).Fork?
    requires IsRed(Beside(p).left) || IsRed(Beside(p).right)
    ensures Fits(p.up, EraseRotated(p, t), k)
  {
    SiblingSound(p, t, h);
    var s := Beside(p);
    k := if p.color == Red then h + 1 else h + 2;
    assert Sound(s.left, h) && Sound(s.right, h);
    if IsRed(if p.LeftOf? then s.right else s.left) {
      assert Sound(Colored(if p.LeftOf? then s.right else s.left, Black), h + 1);
    } else {
      var n := if p.LeftOf? then s.left else s.right;
      assert Sound(n.left, h) && Sound(n.right, h) && Colored(n.left, Black) == n.left && Colored(n.right, Black) == n.right;
    }
  }

  lemma EraseRotatedContents(p: Path, t: Tree)
    requires !p.Top? && Beside(p).Fork? && (IsRed(Beside(p).left) || IsRed(Beside(p).right))
    ensures Contents(p.up, EraseRotated(p, t)) == Contents(p, t)
  {
    var s, x := Beside(p), p.node;
    ContentsUp(p, t);
    if p.LeftOf? {
      if IsRed(s.right) {
        ColoredSame(s.right, Black);
        RotationInorder(t, x, s.left, s.node, s.right, Black, p.color, p.color, s.color);
      } else {
        var n := s.left;
        ColoredFork(n.right, s.node, s.right, Black);
        RotationInorder(n.left, n.node, n.right, s.node, s.right, n.color, s.color, Black, Black);
        RotationInorder(t, x, n.left, n.node, Fork(n.right, s.node, Black, s.right), Black, p.color, p.color, Black);
      }
    } else {
      if IsRed(s.left) {
        ColoredSame(s.left, Black);
        RotationInorder(s.left, s.node, s.right, x, t, s.color, p.color, p.color, Black);
      } else {
        var n := s.right;
        ColoredFork(s.left, s.node, n.left, Black);
        RotationInorder(s.left, s.node, n.left, n.node, n.right, Black, Black, s.color, n.color);
        RotationInorder(Fork(s.left, s.node, Black, n.left), n.node, n.right, x, t, Black, p.color, p.color, Black);
      }
    }
  }

  /** Looking at the sibling instead: its path has t on the other side. */
  ghost function Across(p: Path, t: Tree): Path
    requires !p.Top?
  {
    if p.LeftOf? then RightOf(t, p.node, p.color, p.up) else LeftOf(p.node, p.color, t, p.up)
  }

  lemma AcrossApart(p: Path, t: Tree)
    requires !p.Top?
    ensures Apart(p, t) <==> Apart(Across(p, t), Beside(p))
  {
    ApartUp(p, t);
    ApartUp(Across(p, t), Beside(p));
  }

  lemma CousinLeftPieces(p: Path, t: Tree)
    requires Apart(p, t) && p.LeftOf? && p.right.Fork? && p.right.left.Fork?
    ensures var s := p.right; var n := s.left; var d := Fork(Colored(n.right, Black), s.node, Black, s.right);
      && Pieces(Across(p, t), n.left, n.node, n.right, s.node, s.right)
      && Pieces(p.up, t, p.node, n.left, n.node, d)
      && PathNodes(p) + Nodes(t) == PathNodes(p.up) + (Nodes(t) + {p.node} + Nodes(n.left) + {n.node} + Nodes(d))
  {
    var s, q := p.right, Across(p, t);
    var n := s.left;
    var b := Colored(n.right, Black);
    var d := Fork(b, s.node, Black, s.right);
    AcrossApart(p, t);
    ColoredSame(n.right, Black);
    RightPieces(q, n.left, n.node, n.right, s.node, s.right, n.color, s.color);
    LeftPieces(q, n.left, n.node, b, s.node, s.right, Black, Black);
    ApartUp(q, Fork(n.left, n.node, Black, d));
    LeftPieces(p.up, t, p.node, n.left, n.node, d, p.color, Black);
    ApartUp(p, t);
  }

  lemma CousinRightPieces(p: Path, t: Tree)
    requires Apart(p, t) && p.RightOf? && p.left.Fork? && p.left.right.Fork?
    ensures var s := p.left; var n := s.right; var a := Fork(s.left, s.node, Black, Colored(n.left, Black));
      && Pieces(Across(p, t), s.left, s.node, n.left, n.node, n.right)
      && Pieces(p.up, a, n.node, n.right, p.node, t)
      && PathNodes(p) + Nodes(t) == PathNodes(p.up) + (Nodes(a) + {n.node} + Nodes(n.right) + {p.node} + Nodes(t))
  {
    var s, q := p.left, Across(p, t);
    var n := s.right;
    var b := Colored(n.left, Black);
    var a := Fork(s.left, s.node, Black, b);
    AcrossApart(p, t);
    ColoredSame(n.left, Black);
    LeftPieces(q, s.left, s.node, n.left, n.node, n.right, s.color, n.color);
    RightPieces(q, s.left, s.node, b, n.node, n.right, Black, Black);
    ApartUp(q, Fork(a, n.node, Black, n.right));
    RightPieces(p.up, a, n.node, n.right, p.node, t, Black, p.color);
    ApartUp(p, t);
  }

  lemma EraseRotatedFits(p: Path, t: Tree, h: nat) returns (k: nat)
    requires Short(p, t, h) && !p.Top? && !IsRed(Beside(p)) && Beside(p).Fork?
    requires IsRed(Beside(p).left) || IsRed(Beside(p).right)
    ensures Fits(p.up, EraseRotated(p, t), k) && Contents(p.up, EraseRotated(p, t)) == Contents(p, t)
  {
    k := EraseRotatedSound(p, t, h);
    EraseRotatedContents(p, t);
  }

  ghost predicate RedNephew(p: Path)
    requires !p.Top? && Beside(p).Fork?
  {
    IsRed(Beside(p).left) || IsRed(Beside(p).right)
  }

  /** What becomes of a black sibling's parent. */
  ghost function EraseMended(p: Path, t: Tree): Tree
    requires !p.Top? && Beside(p).Fork?
  {
    if RedNephew(p) then EraseRotated(p, t) else EraseFlipped(p, t)
  }

  lemma EraseMendedFits(p: Path, t: Tree, h: nat) returns (k: nat)
    requires Short(p, t, h) && !p.Top? && !IsRed(Beside(p)) && Beside(p).Fork?
    ensures Contents(p.up, EraseMended(p, t)) == Contents(p, t)
    ensures if p.color == Red || RedNephew(p) then Fits(p.up, EraseMended(p, t), k)
      else Short(p.up, EraseMended(p, t), k) && EraseMended(p, t).Fork? && EraseMended(p, t).node == p.node
  {
    if RedNephew(p) {
      k := EraseRotatedFits(p, t, h);
    } else {
      k := h + 1;
      EraseFlippedSound(p, t, h);
    }
  }

  /** Whether the place the successor left fits, or is one black node short. */
  lemma SuccessorFits(p: Path, l: Tree, node: Node, c: Color, sp: Path, s: Node, sc: Color, d: Tree, k: nat)
      returns (h: nat)
    requires Fits(Graft(sp, RightOf(l, node, c, p)), Fork(Leaf, s, sc, d), k)
    ensures var q := Graft(sp, RightOf(l, s, c, p));
      && q.node == (if sp.Top? then s else sp.node) && !q.Top?
      && if d.Leaf? && sc == Black then Short(q, Leaf, 0) else Fits(q, Colored(d, Black), h)
  {
    var q := Graft(sp, RightOf(l, node, c, p));
    OneChild(q, Fork(Leaf, s, sc, d), k, d);
    if d.Leaf? && sc == Black {
      h := 0;
      GraftSound(sp, l, node, s, c, p, 1);
    } else {
      h :| Fits(q, Colored(d, Black), h);
      GraftSound(sp, l, node, s, c, p, h);
    }
  }

  // ----- finding a node and its neighbours -----

  lemma Locate(whole: Tree, n: Node) returns (p: Path, t: Tree)
    requires n in Nodes(whole)
    ensures Plug(p, t) == whole && t.Fork? && t.node == n
  {
    p, t := LocateBelow(Top, whole, n);
  }

  lemma {:induction false} LocateBelow(q: Path, s: Tree, n: Node) returns (p: Path, t: Tree)
    requires n in Nodes(s)
    ensures Plug(p, t) == Plug(q, s) && t.Fork? && t.node == n
    decreases s
  {
    if s.node == n {
      p, t := q, s;
    } else if n in Nodes(s.left) {
      p, t := LocateBelow(LeftOf(s.node, s.color, s.right, q), s.left, n);
    } else {
      p, t := LocateBelow(RightOf(s.left, s.node, s.color, q), s.right, n);
    }
  }

  /** The node that comes after n in s, if any. */
  ghost function Following(s: seq<Node>, n: Node): Node? {
    if s == [] then null
    else if s[0] == n then if |s| > 1 then s[1] else null
    else Following(s[1..], n)
  }

  /** The node that comes before n in s, if any. */
  ghost function Preceding(s: seq<Node>, n: Node): Node? {
    if |s| < 2 then null
    else if s[1] == n then s[0]
    else Preceding(s[1..], n)
  }

  lemma {:induction false} FollowingMiddle(x: seq<Node>, n: Node, y: seq<Node>)
    requires n !in x
    ensures Following(x + [n] + y, n) == if y == [] then null else y[0]
  {
    var s := x + [n] + y;
    if x != [] {
      assert s[1..] == x[1..] + [n] + y;
      FollowingMiddle(x[1..], n, y);
    }
  }

  lemma {:induction false} PrecedingMiddle(x: seq<Node>, n: Node, y: seq<Node>)
    requires n !in x && n !in y
    ensures Preceding(x + [n] + y, n) == if x == [] then null else x[|x| - 1]
  {
    var s := x + [n] + y;
    if |x| > 1 {
      assert s[1..] == x[1..] + [n] + y;
      PrecedingMiddle(x[1..], n, y);
    } else if x == [] {
      PrecedingNone(s, n);
    }
  }

  lemma {:induction false} PrecedingNone(s: seq<Node>, n: Node)
    requires n !in s[if s == [] then 0 else 1..]
    ensures Preceding(s, n) == null
  {
    if |s| >= 2 { PrecedingNone(s[1..], n); }
  }

  ghost function FirstOf(s: seq<Node>): Node? {
    if s == [] then null else s[0]
  }

  ghost function LastOf(s: seq<Node>): Node? {
    if s == [] then null else s[|s| - 1]
  }

  /** Where a node stands tells its neighbours: in its subtree if it has one on that side, else on the path. */
  lemma Neighbours(p: Path, t: Tree)
    requires t.Fork? && Apart(p, t)
    ensures var s := Contents(p, t);
      && Following(s, t.node) == (if t.right.Fork? then FirstOf(Inorder(t.right)) else FirstOf(After(p)))
      && Preceding(s, t.node) == (if t.left.Fork? then LastOf(Inorder(t.left)) else LastOf(Before(p)))
  {
    var n := t.node;
    if n in Before(p) { InBefore(p, n); }
    if n in After(p) { InAfter(p, n); }
    InInorder(t.left, n);
    InInorder(t.right, n);
    var x, y := Before(p) + Inorder(t.left), Inorder(t.right) + After(p);
    Regroup(Before(p), Inorder(t.left), [n], Inorder(t.right), After(p));
    Assoc(x + [n], Inorder(t.right), After(p));
    assert Contents(p, t) == x + [n] + y;
    FollowingMiddle(x, n, y);
    PrecedingMiddle(x, n, y);
  }

  lemma {:induction false} InAfter(p: Path, n: Node)
    requires n in After(p)
    ensures n in PathNodes(p)
  {
    match p
    case Top =>
    case RightOf(_, _, _, up) => InAfter(up, n);
    case LeftOf(k, _, r, up) =>
      InInorder(r, n);
      if n in After(up) { InAfter(up, n); }
  }

  lemma FirstBelow(t: Tree)
    requires t.Fork?
    ensures FirstOf(Inorder(t)) == if t.left.Fork? then FirstOf(Inorder(t.left)) else t.node
  {
    if t.left.Fork? { assert |Inorder(t.left)| > 0; }
  }

  // ----- replacing -----

  /** The colours do not depend on which node it is. */
  lemma ReplacedFits(p: Path, t: Tree, h: nat, n: Node)
    requires Fits(p, t, h) && t.Fork?
    ensures Fits(p, Fork(t.left, n, t.color, t.right), h)
  {}

  lemma ReplacedContents(p: Path, t: Tree, n: Node) returns (x: seq<Node>, y: seq<Node>)
    requires t.Fork?
    ensures Contents(p, t) == x + [t.node] + y && Contents(p, Fork(t.left, n, t.color, t.right)) == x + [n] + y
  {
    x, y := Before(p) + Inorder(t.left), Inorder(t.right) + After(p);
  }
}
