// The intrusive red-black tree: linked nodes, rebalanced in place.
module RBTree {
  import opened Records
  import opened Shapes
  import opened Links

  class HevRBTree {
    var root: Node?
    ghost var shape: Tree      // what the nodes below root look like, between calls
    ghost var Repr: set<Node>  // the nodes of the tree

    ghost predicate Valid()
      reads this, Repr`left, Repr`right, Repr`parent, Repr`color
    {
      Repr == Nodes(shape) && Zip(Snap(Repr), root, Top, shape) && RedBlack(shape)
    }

    constructor ()
      ensures Valid() && Sequence() == [] && Repr == {}
    {
      root, shape, Repr := null, Leaf, {};
      new;
      assert Sound(Leaf, 0);
    }

    /** The nodes of the tree in search order. */
    ghost function Sequence(): seq<Node>
      reads this`shape
    {
      Inorder(shape)
    }

    method ChangeChild(old_: Node, new_: Node?, parent: Node?)
      modifies (if parent == null then {this} else {})`root, Only(parent)`left, Only(parent)`right
      ensures parent == null ==> root == new_
      ensures parent != null && old(parent.left) == old_ ==> parent.left == new_ && parent.right == old(parent.right)
      ensures parent != null && old(parent.left) != old_ ==> parent.right == new_ && parent.left == old(parent.left)
    {
      if parent != null {
        if parent.left == old_ {
          parent.left := new_;
        } else {
          parent.right := new_;
        }
      } else {
        root := new_;
      }
    }

    /** Helper for rotations: new_ takes old_'s parent and colour, old_ goes below new_ with `color`. */
    method RotateSetParents(old_: Node, new_: Node, color: Color)
      requires old_ != new_ && old_.parent != old_ && old_.parent != new_
      modifies (if old_.parent == null then {this} else {})`root, Only(old_.parent)`left, Only(old_.parent)`right
      modifies old_`parent, old_`color, new_`parent, new_`color
      ensures new_.parent == old(old_.parent) && new_.color == old(old_.color)
      ensures old_.parent == new_ && old_.color == color
      ensures var q := old(old_.parent);
        && (q == null ==> root == new_)
        && (q != null && old(q.left) == old_ ==> q.left == new_ && q.right == old(q.right))
        && (q != null && old(q.left) != old_ ==> q.right == new_ && q.left == old(q.left))
    {
      var parent := old_.parent;
      new_.parent, new_.color := old_.parent, old_.color;
      old_.parent, old_.color := new_, color;
      ChangeChild(old_, new_, parent);
    }

    /** A right rotation at y, which goes below x with colour cy; tmp was x's right child. */
    method StoreRight(y: Node, x: Node, tmp: Node?, cy: Color, cb: Color, ghost p: Path, ghost b: Tree, ghost S: set<Node>)
      requires x != y && tmp !in {x, y} && y.parent !in {x, y} && (tmp != null ==> y.parent != tmp)
      requires {x, y} + Only(tmp) + Only(y.parent) <= S && tmp == Root(b) && y.parent == Above(p, null)
      modifies this`root, S`left, S`right, S`parent, S`color
      ensures RightStored(old(Snap(S)), Snap(S), old(root), root, p, x, y, b, cy, cb)
    {
      y.left := tmp;
      x.right := y;
      if tmp != null {
        tmp.parent, tmp.color := y, cb;
      }
      RotateSetParents(y, x, cy);
    }

    /** A left rotation at x, which goes below y with colour cx; tmp was y's left child. */
    method StoreLeft(x: Node, y: Node, tmp: Node?, cx: Color, cb: Color, ghost p: Path, ghost b: Tree, ghost S: set<Node>)
      requires x != y && tmp !in {x, y} && x.parent !in {x, y} && (tmp != null ==> x.parent != tmp)
      requires {x, y} + Only(tmp) + Only(x.parent) <= S && tmp == Root(b) && x.parent == Above(p, null)
      modifies this`root, S`left, S`right, S`parent, S`color
      ensures LeftStored(old(Snap(S)), Snap(S), old(root), root, p, x, y, b, cx, cb)
    {
      x.right := tmp;
      y.left := x;
      if tmp != null {
        tmp.parent, tmp.color := x, cb;
      }
      RotateSetParents(x, y, cx);
    }

    method RotateRight(y: Node, x: Node, tmp: Node?, cy: Color, cb: Color, ghost c: Color,
                       ghost a: Tree, ghost b: Tree, ghost d: Tree, ghost ub: Node?, ghost p: Path, ghost S: set<Node>)
      requires RightReady(Snap(S), root, p, a, x, b, y, d, ub, c) && tmp == Root(b)
      modifies this`root, S`left, S`right, S`parent, S`color
      ensures Zip(Snap(S), root, p, Fork(a, x, c, Fork(Colored(b, cb), y, cy, d)))
    {
      ghost var m, r := Snap(S), root;
      AboveInPath(p);
      RootInNodes(b);
      StoreRight(y, x, tmp, cy, cb, p, b, S);
      RightRotated(m, Snap(S), r, root, p, a, x, b, y, d, ub, c, cy, cb);
    }

    method RotateLeft(x: Node, y: Node, tmp: Node?, cx: Color, cb: Color, ghost c: Color,
                      ghost a: Tree, ghost b: Tree, ghost d: Tree, ghost ub: Node?, ghost p: Path, ghost S: set<Node>)
      requires LeftReady(Snap(S), root, p, a, x, b, y, d, ub, c) && tmp == Root(b)
      modifies this`root, S`left, S`right, S`parent, S`color
      ensures Zip(Snap(S), root, p, Fork(Fork(a, x, cx, Colored(b, cb)), y, c, d))
    {
      ghost var m, r := Snap(S), root;
      AboveInPath(p);
      RootInNodes(b);
      StoreLeft(x, y, tmp, cx, cb, p, b, S);
      LeftRotated(m, Snap(S), r, root, p, a, x, b, y, d, ub, c, cx, cb);
    }

    // ----- insertion -----

    /** Case 1: colour flips. */
    method InsertFlip(parent: Node, gparent: Node, tmp: Node, ghost p: Path, ghost t: Tree, ghost S: set<Node>)
      requires Zip(Snap(S), root, p, t) && !p.Top? && !p.up.Top?
      requires parent == p.node && gparent == p.up.node && tmp == Root(Beside(p.up))
      modifies S`parent, S`color
      ensures Zip(Snap(S), root, p.up.up, Flipped(p, t))
    {
      ghost var m := Snap(S);
      ghost var pt := PlugOne(p, t);
      ZipUp(m, root, p, t);
      ZipUp(m, root, p.up, pt);
      ghost var lt, rt := if p.up.LeftOf? then pt else p.up.left, if p.up.LeftOf? then p.up.right else pt;
      FlipReady(m, root, p.up.up, lt, gparent, p.up.color, rt);
      StoreFlip(parent, gparent, tmp, lt, rt, S);
      Repainted(m, Snap(S), root, p.up.up, lt, gparent, p.up.color, rt, Red, Black, Black);
    }

    method StoreFlip(parent: Node, gparent: Node, tmp: Node, ghost lt: Tree, ghost rt: Tree, ghost S: set<Node>)
      requires parent.parent == gparent && tmp.parent == gparent && parent != gparent && tmp != gparent && parent != tmp
      requires parent in S && gparent in S && tmp in S
      requires (Root(lt) == parent && Root(rt) == tmp) || (Root(lt) == tmp && Root(rt) == parent)
      modifies S`parent, S`color
      ensures Painted(old(Snap(S)), Snap(S), lt, gparent, rt, Red, Black, Black)
    {
      tmp.parent, tmp.color := gparent, Black;
      parent.parent, parent.color := gparent, Black;
      var up := gparent.parent;
      gparent.parent, gparent.color := up, Red;
    }

    /** Case 2 when parent is a left child: left rotation at parent, finished by case 3. */
    method StoreInnerLeft(parent: Node, node: Node, ghost b: Tree, ghost S: set<Node>)
      requires parent != node && {parent, node} + Only(Root(b)) <= S && Root(b) !in {parent, node}
      requires node.left == Root(b)
      modifies S`left, S`right, S`parent, S`color
      ensures InnerStored(old(Snap(S)), Snap(S), parent, node, b, true)
    {
      var tmp := node.left;
      parent.right := tmp;
      node.left := parent;
      if tmp != null {
        tmp.parent, tmp.color := parent, Black;
      }
      parent.parent, parent.color := node, Red;
    }

    method StoreInnerRight(parent: Node, node: Node, ghost b: Tree, ghost S: set<Node>)
      requires parent != node && {parent, node} + Only(Root(b)) <= S && Root(b) !in {parent, node}
      requires node.right == Root(b)
      modifies S`left, S`right, S`parent, S`color
      ensures InnerStored(old(Snap(S)), Snap(S), parent, node, b, false)
    {
      var tmp := node.right;
      parent.left := tmp;
      node.right := parent;
      if tmp != null {
        tmp.parent, tmp.color := parent, Black;
      }
      parent.parent, parent.color := node, Red;
    }

    /** Case 2 when parent is a left child: node is turned above parent, then above gparent. */
    method InsertInnerLeft(node: Node, parent: Node, gparent: Node, ghost p: Path, ghost t: Tree, ghost S: set<Node>)
      requires Zip(Snap(S), root, p, t) && p.RightOf? && p.up.LeftOf? && t.Fork?
      requires node == t.node && parent == p.node && gparent == p.up.node && p.up.color == Black
      modifies this`root, S`left, S`right, S`parent, S`color
      ensures Zip(Snap(S), root, p.up.up, Rotated(p, t))
    {
      ghost var m := Snap(S);
      PathRep(m, root, p, node);
      InnerLeftPieces(p, t);
      RootInNodes(t.left);
      StoreInnerLeft(parent, node, t.left, S);
      InnerLeftReady(m, Snap(S), root, p, t);
      var tmp := node.right;
      RotateRight(gparent, node, tmp, Red, Black, Black, Fork(p.left, parent, Red, Colored(t.left, Black)),
                  t.right, p.up.right, node, p.up.up, S);
    }

    /** Cases 2 and 3 when parent is a left child. */
    method InsertRotateLeftSide(node: Node, parent: Node, gparent: Node, ghost p: Path, ghost t: Tree, ghost S: set<Node>)
      requires Zip(Snap(S), root, p, t) && !p.Top? && p.up.LeftOf? && t.Fork?
      requires node == t.node && parent == p.node && gparent == p.up.node && p.up.color == Black
      modifies this`root, S`left, S`right, S`parent, S`color
      ensures Zip(Snap(S), root, p.up.up, Rotated(p, t))
    {
      ghost var m := Snap(S);
      PathRep(m, root, p, node);
      PathRep(m, root, p.up, parent);
      SidesDiffer(p, t);
      var tmp := parent.right;
      if node == tmp {
        InsertInnerLeft(node, parent, gparent, p, t, S);
      } else {
        OuterLeftReady(m, root, p, t);
        RotateRight(gparent, parent, tmp, Red, Black, Black, t, p.right, p.up.right, parent, p.up.up, S);
      }
    }

    /** Case 2 when parent is a right child: node is turned above parent, then above gparent. */
    method InsertInnerRight(node: Node, parent: Node, gparent: Node, ghost p: Path, ghost t: Tree, ghost S: set<Node>)
      requires Zip(Snap(S), root, p, t) && p.LeftOf? && p.up.RightOf? && t.Fork?
      requires node == t.node && parent == p.node && gparent == p.up.node && p.up.color == Black
      modifies this`root, S`left, S`right, S`parent, S`color
      ensures Zip(Snap(S), root, p.up.up, Rotated(p, t))
    {
      ghost var m := Snap(S);
      PathRep(m, root, p, node);
      InnerRightPieces(p, t);
      RootInNodes(t.right);
      StoreInnerRight(parent, node, t.right, S);
      InnerRightReady(m, Snap(S), root, p, t);
      var tmp := node.left;
      RotateLeft(gparent, node, tmp, Red, Black, Black, p.up.left,
                 t.left, Fork(Colored(t.right, Black), parent, Red, p.right), node, p.up.up, S);
    }

    /** Cases 2 and 3 when parent is a right child. */
    method InsertRotateRightSide(node: Node, parent: Node, gparent: Node, ghost p: Path, ghost t: Tree, ghost S: set<Node>)
      requires Zip(Snap(S), root, p, t) && !p.Top? && p.up.RightOf? && t.Fork?
      requires node == t.node && parent == p.node && gparent == p.up.node && p.up.color == Black
      modifies this`root, S`left, S`right, S`parent, S`color
      ensures Zip(Snap(S), root, p.up.up, Rotated(p, t))
    {
      ghost var m := Snap(S);
      PathRep(m, root, p, node);
      PathRep(m, root, p.up, parent);
      SidesDiffer(p, t);
      var tmp := parent.left;
      if node == tmp {
        InsertInnerRight(node, parent, gparent, p, t, S);
      } else {
        OuterRightReady(m, root, p, t);
        RotateLeft(gparent, parent, tmp, Red, Black, Black, p.up.left, p.left, t, parent, p.up.up, S);
      }
    }

    ghost method Settle(p: Path, t: Tree, h: nat, S: set<Node>)
      requires Zip(Snap(S), root, p, t) && Fits(p, t, h)
      modifies this`shape, this`Repr
      ensures Valid() && Repr == S && Sequence() == Contents(p, t)
    {
      ZipToTop(Snap(S), root, p, t);
      PlugSound(p, t, h);
      PlugInorder(p, t);
      shape, Repr := Plug(p, t), S;
      assert Nodes(shape) == S;
    }

    /** node and its parent are red. Either only the colours of this corner change and the grandparent
        is the next node to look at (continue), or rotations put everything right (done). */
    method InsertCase(node: Node, parent: Node, ghost p: Path, ghost t: Tree, ghost h: nat, ghost S: set<Node>)
      returns (done: bool, node': Node, parent': Node?, ghost t': Tree)
      requires Zip(Snap(S), root, p, t) && PathSound(p, h) && Sound(t, h) && IsRed(t) && t.node == node
      requires !p.Top? && p.color == Red && p.node == parent
      modifies this`root, S`left, S`right, S`parent, S`color
      ensures !p.up.Top? && Zip(Snap(S), root, p.up.up, t') && PathSound(p.up.up, h + 1) && Sound(t', h + 1)
      ensures Contents(p.up.up, t') == Contents(p, t)
      ensures if done then !IsRed(t') else IsRed(t') && t'.node == node' && parent' == Above(p.up.up, null)
    {
      RedParent(Snap(S), root, p, t, h);
      var gparent := parent.parent;
      var tmp := gparent.right;
      if parent != tmp {
        if tmp != null && tmp.color == Red {
          FlippedSound(p, t, h);
          InsertFlip(parent, gparent, tmp, p, t, S);
          AboveHook(Snap(S), root, p.up.up, Flipped(p, t));
          return false, gparent, gparent.parent, Flipped(p, t);
        }
        InsertRotateLeftSide(node, parent, gparent, p, t, S);
      } else {
        tmp := gparent.left;
        if tmp != null && tmp.color == Red {
          FlippedSound(p, t, h);
          InsertFlip(parent, gparent, tmp, p, t, S);
          AboveHook(Snap(S), root, p.up.up, Flipped(p, t));
          return false, gparent, gparent.parent, Flipped(p, t);
        }
        InsertRotateRightSide(node, parent, gparent, p, t, S);
      }
      RotatedSound(p, t, h);
      RotatedContents(p, t);
      return true, node, parent, Rotated(p, t);
    }

    /** linked has just been linked, red, at the hole of at; repairs the colours from there up. */
    method InsertColor(linked: Node, ghost at: Path, ghost S: set<Node>)
      requires Zip(Snap(S), root, at, Fork(Leaf, linked, Red, Leaf)) && PathSound(at, 0)
      modifies this, S`left, S`right, S`parent, S`color
      ensures Valid() && Repr == S
      ensures Sequence() == Contents(at, Fork(Leaf, linked, Red, Leaf))
    {
      AboveHook(Snap(S), root, at, Fork(Leaf, linked, Red, Leaf));
      var node, parent := linked, linked.parent;
      ghost var p, t, h := at, Fork(Leaf, linked, Red, Leaf), 0;
      while true
        invariant Zip(Snap(S), root, p, t) && PathSound(p, h) && Sound(t, h)
        invariant IsRed(t) && t.node == node && parent == Above(p, null)
        invariant Contents(p, t) == Contents(at, Fork(Leaf, linked, Red, Leaf))
        decreases p
      {
        if parent == null {
          t, h := BlackenRoot(node, p, t, h, S);
          break;
        }
        AboveHook(Snap(S), root, p, t);
        if parent.color == Black {
          break;
        }
        var done: bool;
        done, node, parent, t := InsertCase(node, parent, p, t, h, S);
        p, h := p.up.up, h + 1;
        if done {
          break;
        }
      }
      Settle(p, t, h, S);
    }

    /** The node is the root: it becomes black. */
    method BlackenRoot(node: Node, ghost p: Path, ghost t: Tree, ghost h: nat, ghost S: set<Node>)
        returns (ghost t': Tree, ghost h': nat)
      requires Zip(Snap(S), root, p, t) && IsRed(t) && Sound(t, h) && t.node == node && p.Top?
      modifies S`parent, S`color
      ensures Zip(Snap(S), root, p, t') && Fits(p, t', h') && Contents(p, t') == Contents(p, t)
    {
      ghost var m := Snap(S);
      node.parent, node.color := null, Black;
      assert Kept(m, Snap(S), Nodes(t) - {node});
      RepMoved(m, Snap(S), t, null, Black, null);
      ColoredSame(t, Black);
      t', h' := t.(color := Black), h + 1;
    }

    // ----- erasing -----

    /** Cases 2 of repairing: the sibling goes red, the parent black. */
    method StoreEraseFlip(parent: Node, sibling: Node, ghost lt: Tree, ghost rt: Tree, ghost cl: Color, ghost cr: Color,
                          ghost S: set<Node>)
      requires sibling != parent && sibling in S && parent in S && sibling.parent == parent
      requires Only(Root(lt)) + Only(Root(rt)) <= S
      requires (Root(lt) == sibling && cl == Red && (rt.Fork? ==> rt.node.color == cr && rt.node !in {sibling, parent}))
            || (Root(rt) == sibling && cr == Red && (lt.Fork? ==> lt.node.color == cl && lt.node !in {sibling, parent}))
      modifies S`parent, S`color
      ensures Painted(old(Snap(S)), Snap(S), lt, parent, rt, Black, cl, cr)
    {
      sibling.parent, sibling.color := parent, Red;
      if parent.color == Red {
        parent.color := Black;
      }
    }

    method EraseFlip(parent: Node, sibling: Node, ghost p: Path, ghost t: Tree, ghost S: set<Node>)
      requires Zip(Snap(S), root, p, t) && !p.Top? && p.node == parent && Beside(p).Fork? && Beside(p).node == sibling
      modifies S`parent, S`color
      ensures Zip(Snap(S), root, p.up, EraseFlipped(p, t))
    {
      ghost var m := Snap(S);
      EraseFlipReady(m, root, p, t);
      ghost var lt, rt := if p.LeftOf? then t else p.left, if p.LeftOf? then p.right else t;
      StoreEraseFlip(parent, sibling, lt, rt, if p.LeftOf? then Tint(t) else Red, if p.LeftOf? then Red else Tint(t), S);
      EraseFlipDone(m, Snap(S), root, p, t);
    }

    /** Case 1: left rotation at parent; returns the new sibling. */
    method EraseTurnLeft(parent: Node, sibling: Node, ghost p: Path, ghost t: Tree, ghost S: set<Node>)
        returns (tmp1: Node)
      requires Zip(Snap(S), root, p, t) && p.LeftOf? && p.node == parent && p.right.Fork? && p.right.node == sibling
      requires p.right.left.Fork?
      modifies this`root, S`left, S`right, S`parent, S`color
      ensures Zip(Snap(S), root, Turned(p), t) && tmp1 == Beside(Turned(p)).node
    {
      SiblingLeftReady(Snap(S), root, p, t);
      tmp1 := sibling.left;
      RotateLeft(parent, sibling, tmp1, Red, Black, p.color, t, p.right.left, p.right.right, sibling, p.up, S);
      ZipUp(Snap(S), root, Turned(p), t);
      ZipUp(Snap(S), root, Turned(p).up, PlugOne(Turned(p), t));
    }

    method EraseTurnRight(parent: Node, sibling: Node, ghost p: Path, ghost t: Tree, ghost S: set<Node>)
        returns (tmp1: Node)
      requires Zip(Snap(S), root, p, t) && p.RightOf? && p.node == parent && p.left.Fork? && p.left.node == sibling
      requires p.left.right.Fork?
      modifies this`root, S`left, S`right, S`parent, S`color
      ensures Zip(Snap(S), root, Turned(p), t) && tmp1 == Beside(Turned(p)).node
    {
      SiblingRightReady(Snap(S), root, p, t);
      tmp1 := sibling.right;
      RotateRight(parent, sibling, tmp1, Red, Black, p.color, p.left.left, p.left.right, t, sibling, p.up, S);
      ZipUp(Snap(S), root, Turned(p), t);
      ZipUp(Snap(S), root, Turned(p).up, PlugOne(Turned(p), t));
    }

    /** Case 3, up to the point where case 4 takes over. */
    method StoreCousinLeft(parent: Node, sibling: Node, tmp2: Node, ghost b: Tree, ghost S: set<Node>)
      requires parent != sibling && parent != tmp2 && sibling != tmp2 && Root(b) !in {parent, sibling, tmp2}
      requires {parent, sibling, tmp2} + Only(Root(b)) <= S && tmp2.right == Root(b)
      modifies S`left, S`right, S`parent, S`color
      ensures CousinStored(old(Snap(S)), Snap(S), parent, sibling, tmp2, b, true)
    {
      var tmp1 := tmp2.right;
      sibling.left := tmp1;
      tmp2.right := sibling;
      parent.right := tmp2;
      if tmp1 != null {
        tmp1.parent, tmp1.color := sibling, Black;
      }
      sibling.parent, sibling.color := tmp2, Black;
    }

    method StoreCousinRight(parent: Node, sibling: Node, tmp2: Node, ghost b: Tree, ghost S: set<Node>)
      requires parent != sibling && parent != tmp2 && sibling != tmp2 && Root(b) !in {parent, sibling, tmp2}
      requires {parent, sibling, tmp2} + Only(Root(b)) <= S && tmp2.left == Root(b)
      modifies S`left, S`right, S`parent, S`color
      ensures CousinStored(old(Snap(S)), Snap(S), parent, sibling, tmp2, b, false)
    {
      var tmp1 := tmp2.left;
      sibling.right := tmp1;
      tmp2.left := sibling;
      parent.left := tmp2;
      if tmp1 != null {
        tmp1.parent, tmp1.color := sibling, Black;
      }
      sibling.parent, sibling.color := tmp2, Black;
    }

    /** Cases 3 and 4 when the hole is on the left and only the inner nephew is red. */
    method EraseLiftInnerLeft(parent: Node, sibling: Node, tmp2: Node, ghost p: Path, ghost t: Tree, ghost n: Tree,
                              ghost S: set<Node>)
      requires Zip(Snap(S), root, p, t) && p.LeftOf? && p.node == parent && p.right.Fork? && p.right.node == sibling
      requires n == p.right.left && n.Fork? && n.node == tmp2 && !IsRed(p.right.right) && IsRed(n)
      modifies this`root, S`left, S`right, S`parent, S`color
      ensures Zip(Snap(S), root, p.up, EraseRotated(p, t))
    {
      ghost var m := Snap(S);
      PathRep(m, root, p, Root(t));
      ChildHooks(m, p.right, parent);
      CousinScalars(m, root, p, t, n, n.right);
      StoreCousinLeft(parent, sibling, tmp2, n.right, S);
      CousinLeftReady(m, Snap(S), root, p, t);
      LiftLeft(parent, tmp2, p.color, t, n.left, Fork(Colored(n.right, Black), sibling, Black, p.right.right), tmp2, p.up, S);
    }

    /** Case 4 when the hole is on the left: the outer nephew tmp1 is red. */
    method EraseLiftOuterLeft(parent: Node, sibling: Node, tmp1: Node, ghost p: Path, ghost t: Tree, ghost S: set<Node>)
      requires Zip(Snap(S), root, p, t) && p.LeftOf? && p.node == parent && p.right.Fork? && p.right.node == sibling
      requires IsRed(p.right.right) && tmp1 == p.right.right.node
      modifies this`root, S`left, S`right, S`parent, S`color
      ensures Zip(Snap(S), root, p.up, EraseRotated(p, t))
    {
      ghost var m := Snap(S);
      SiblingLeftReady(m, root, p, t);
      PathRep(m, root, p, Root(t));
      ChildHooks(m, p.right, parent);
      PaintBlack(tmp1, sibling, S);
      SiblingLeftPainted(m, Snap(S), root, p.up, t, parent, p.right.left, sibling, p.right.right, sibling, p.color);
      LiftLeft(parent, sibling, p.color, t, p.right.left, Colored(p.right.right, Black), sibling, p.up, S);
    }

    /** Case 4: left rotation at x; its new right child keeps its colour. */
    method LiftLeft(x: Node, y: Node, ghost c: Color, ghost a: Tree, ghost b: Tree, ghost d: Tree, ghost ub: Node?,
                    ghost p: Path, ghost S: set<Node>)
      requires LeftReady(Snap(S), root, p, a, x, b, y, d, ub, c) && y.left == Root(b)
      modifies this`root, S`left, S`right, S`parent, S`color
      ensures Zip(Snap(S), root, p, Fork(Fork(a, x, Black, b), y, c, d))
    {
      var tmp2 := y.left;
      var keep := if tmp2 == null then Black else tmp2.color;
      assert Colored(b, keep) == b;
      RotateLeft(x, y, tmp2, Black, keep, c, a, b, d, ub, p, S);
    }

    method LiftRight(y: Node, x: Node, ghost c: Color, ghost a: Tree, ghost b: Tree, ghost d: Tree, ghost ub: Node?,
                     ghost p: Path, ghost S: set<Node>)
      requires RightReady(Snap(S), root, p, a, x, b, y, d, ub, c) && x.right == Root(b)
      modifies this`root, S`left, S`right, S`parent, S`color
      ensures Zip(Snap(S), root, p, Fork(a, x, c, Fork(b, y, Black, d)))
    {
      var tmp2 := x.right;
      var keep := if tmp2 == null then Black else tmp2.color;
      assert Colored(b, keep) == b;
      RotateRight(y, x, tmp2, Black, keep, c, a, b, d, ub, p, S);
    }

    /** Cases 3 and 4 when the hole is on the right and only the inner nephew is red. */
    method EraseLiftInnerRight(parent: Node, sibling: Node, tmp2: Node, ghost p: Path, ghost t: Tree, ghost n: Tree,
                               ghost S: set<Node>)
      requires Zip(Snap(S), root, p, t) && p.RightOf? && p.node == parent && p.left.Fork? && p.left.node == sibling
      requires n == p.left.right && n.Fork? && n.node == tmp2 && !IsRed(p.left.left) && IsRed(n)
      modifies this`root, S`left, S`right, S`parent, S`color
      ensures Zip(Snap(S), root, p.up, EraseRotated(p, t))
    {
      ghost var m := Snap(S);
      PathRep(m, root, p, Root(t));
      ChildHooks(m, p.left, parent);
      CousinScalars(m, root, p, t, n, n.left);
      StoreCousinRight(parent, sibling, tmp2, n.left, S);
      CousinRightReady(m, Snap(S), root, p, t);
      LiftRight(parent, tmp2, p.color, Fork(p.left.left, sibling, Black, Colored(n.left, Black)), n.right, t, tmp2, p.up, S);
    }

    /** Case 4 when the hole is on the right: the outer nephew tmp1 is red. */
    method EraseLiftOuterRight(parent: Node, sibling: Node, tmp1: Node, ghost p: Path, ghost t: Tree, ghost S: set<Node>)
      requires Zip(Snap(S), root, p, t) && p.RightOf? && p.node == parent && p.left.Fork? && p.left.node == sibling
      requires IsRed(p.left.left) && tmp1 == p.left.left.node
      modifies this`root, S`left, S`right, S`parent, S`color
      ensures Zip(Snap(S), root, p.up, EraseRotated(p, t))
    {
      ghost var m := Snap(S);
      SiblingRightReady(m, root, p, t);
      PathRep(m, root, p, Root(t));
      ChildHooks(m, p.left, parent);
      PaintBlack(tmp1, sibling, S);
      SiblingRightPainted(m, Snap(S), root, p.up, p.left.left, sibling, p.left.right, parent, t, sibling, p.color);
      LiftRight(parent, sibling, p.color, Colored(p.left.left, Black), p.left.right, t, sibling, p.up, S);
    }

    method PaintBlack(child: Node, parent: Node, ghost S: set<Node>)
      requires child in S && child.parent == parent
      modifies S`parent, S`color
      ensures Wrote(old(Snap(S)), Snap(S), {child}) && Snap(S)[child] == old(Snap(S))[child].(color := Black)
    {
      child.parent, child.color := parent, Black;
    }

    /** One round of repairing with the hole on the left: either done, or the parent's whole subtree is
        one black node short. */
    method EraseCaseLeft(parent: Node, ghost p: Path, ghost t: Tree, ghost h: nat, ghost S: set<Node>)
      returns (done: bool, ghost p': Path, ghost t': Tree, ghost h': nat)
      requires Zip(Snap(S), root, p, t) && Short(p, t, h) && p.LeftOf? && p.node == parent
      requires parent.right == Root(p.right)
      modifies this`root, S`left, S`right, S`parent, S`color
      ensures Zip(Snap(S), root, p', t') && Contents(p', t') == Contents(p, t)
      ensures if done then Fits(p', t', h') else Short(p', t', h') && p' == p.up && t'.Fork? && t'.node == parent
    {
      SiblingSound(p, t, h);
      SiblingHooks(Snap(S), root, p, t);
      var sibling := parent.right;
      ghost var q := p;
      if sibling.color == Red {
        TurnedShort(p, t, h);
        TurnedContents(p, t);
        sibling := EraseTurnLeft(parent, sibling, p, t, S);
        q := Turned(p);
      }
      h' := EraseMendedFits(q, t, h);
      done := EraseBlackLeft(parent, sibling, q, t, S);
      p', t' := q.up, EraseMended(q, t);
    }

    /** Cases 2 to 4: the sibling is black. */
    method EraseBlackLeft(parent: Node, sibling: Node, ghost p: Path, ghost t: Tree, ghost S: set<Node>)
        returns (done: bool)
      requires Zip(Snap(S), root, p, t) && p.LeftOf? && p.node == parent
      requires p.right.Fork? && p.right.node == sibling && !IsRed(p.right)
      modifies this`root, S`left, S`right, S`parent, S`color
      ensures Zip(Snap(S), root, p.up, EraseMended(p, t)) && (done <==> p.color == Red || RedNephew(p))
    {
      SiblingHooks(Snap(S), root, p, t);
      var tmp1 := sibling.right;
      if tmp1 == null || tmp1.color == Black {
        var tmp2 := sibling.left;
        if tmp2 == null || tmp2.color == Black {
          done := parent.color == Red;
          EraseFlip(parent, sibling, p, t, S);
          return;
        }
        EraseLiftInnerLeft(parent, sibling, tmp2, p, t, p.right.left, S);
      } else {
        EraseLiftOuterLeft(parent, sibling, tmp1, p, t, S);
      }
      done := true;
    }

    /** One round of repairing with the hole on the right: either done, or the parent's whole subtree is
        one black node short. */
    method EraseCaseRight(parent: Node, ghost p: Path, ghost t: Tree, ghost h: nat, ghost S: set<Node>)
      returns (done: bool, ghost p': Path, ghost t': Tree, ghost h': nat)
      requires Zip(Snap(S), root, p, t) && Short(p, t, h) && p.RightOf? && p.node == parent
      requires parent.left == Root(p.left)
      modifies this`root, S`left, S`right, S`parent, S`color
      ensures Zip(Snap(S), root, p', t') && Contents(p', t') == Contents(p, t)
      ensures if done then Fits(p', t', h') else Short(p', t', h') && p' == p.up && t'.Fork? && t'.node == parent
    {
      SiblingSound(p, t, h);
      SiblingHooks(Snap(S), root, p, t);
      var sibling := parent.left;
      ghost var q := p;
      if sibling.color == Red {
        TurnedShort(p, t, h);
        TurnedContents(p, t);
        sibling := EraseTurnRight(parent, sibling, p, t, S);
        q := Turned(p);
      }
      h' := EraseMendedFits(q, t, h);
      done := EraseBlackRight(parent, sibling, q, t, S);
      p', t' := q.up, EraseMended(q, t);
    }

    /** Cases 2 to 4: the sibling is black. */
    method EraseBlackRight(parent: Node, sibling: Node, ghost p: Path, ghost t: Tree, ghost S: set<Node>)
        returns (done: bool)
      requires Zip(Snap(S), root, p, t) && p.RightOf? && p.node == parent
      requires p.left.Fork? && p.left.node == sibling && !IsRed(p.left)
      modifies this`root, S`left, S`right, S`parent, S`color
      ensures Zip(Snap(S), root, p.up, EraseMended(p, t)) && (done <==> p.color == Red || RedNephew(p))
    {
      SiblingHooks(Snap(S), root, p, t);
      var tmp1 := sibling.left;
      if tmp1 == null || tmp1.color == Black {
        var tmp2 := sibling.right;
        if tmp2 == null || tmp2.color == Black {
          done := parent.color == Red;
          EraseFlip(parent, sibling, p, t, S);
          return;
        }
        EraseLiftInnerRight(parent, sibling, tmp2, p, t, p.left.right, S);
      } else {
        EraseLiftOuterRight(parent, sibling, tmp1, p, t, S);
      }
      done := true;
    }

    /** A leaf at the hole of at is one black node short; repairs that from there up. */
    method EraseColor(rebalance: Node, ghost at: Path, ghost S: set<Node>)
      requires Zip(Snap(S), root, at, Leaf) && Short(at, Leaf, 0) && !at.Top? && at.node == rebalance
      modifies this, S`left, S`right, S`parent, S`color
      ensures Valid() && Repr == S && Sequence() == Contents(at, Leaf)
    {
      var node: Node?, parent := null, rebalance;
      ghost var p, t, h := at, Leaf, 0;
      while true
        invariant Zip(Snap(S), root, p, t) && Short(p, t, h) && !p.Top?
        invariant parent == p.node && node == Root(t) && Contents(p, t) == Contents(at, Leaf)
        decreases p
      {
        SideTold(Snap(S), root, p, t, h);
        var sibling, done := parent.right, false;
        ghost var p';
        if node != sibling {
          done, p', t, h := EraseCaseLeft(parent, p, t, h, S);
        } else {
          done, p', t, h := EraseCaseRight(parent, p, t, h, S);
        }
        if done {
          p := p';
          break;
        }
        AboveHook(Snap(S), root, p', t);
        node := parent;
        var up := node.parent;
        p := p';
        if up == null {
          break;
        }
        parent := up;
      }
      Settle(p, t, h, S);
    }

    /** Case 1: node makes way for its only child, or for nothing. */
    method StoreSplice(node: Node, child: Node?, ghost p: Path, ghost ct: Tree, ghost S: set<Node>)
      requires node in S && child == Root(ct) && node.parent == Above(p, null) && node.parent != node && child != node
      requires child != null ==> child != node.parent
      requires Only(child) + Only(node.parent) <= S
      modifies this`root, S`left, S`right, S`parent, S`color
      ensures SpliceStored(old(Snap(S)) - {node}, Snap(S - {node}), old(root), root, p, node, old(node.color), ct)
    {
      var parent := node.parent;
      ChangeChild(node, child, parent);
      if child != null {
        child.parent, child.color := parent, node.color;
      }
    }

    /** node has at most one child: tmp or child or none. */
    method EraseSingle(node: Node, child: Node?, ghost p: Path, ghost t: Tree, ghost h: nat, ghost ct: Tree, ghost S: set<Node>)
      returns (rebalance: Node?, ghost t': Tree, ghost h': nat)
      requires Zip(Snap(S), root, p, t) && Fits(p, t, h) && t.Fork? && t.node == node && child == Root(ct)
      requires (t.left.Leaf? && ct == t.right) || (t.right.Leaf? && ct == t.left)
      modifies this`root, S`left, S`right, S`parent, S`color
      ensures Zip(Snap(S - {node}), root, p, t') && Contents(p, t') == Without(Contents(p, t), node)
      ensures if rebalance == null then Fits(p, t', h') else t'.Leaf? && Short(p, Leaf, 0) && !p.Top? && rebalance == p.node
    {
      ghost var m, r := Snap(S), root;
      ChildHooks(m, t, Above(p, null));
      SingleScalars(m, root, p, t, ct);
      OneChild(p, t, h, ct);
      ChildContents(p, t, ct, t.color);
      var parent, color := node.parent, node.color;
      StoreSplice(node, child, p, ct, S);
      Spliced(m, Snap(S - {node}), r, root, p, t, ct);
      t' := Colored(ct, t.color);
      if child != null {
        rebalance := null;
        h' :| Fits(p, t', h');
      } else {
        rebalance := if color == Black then parent else null;
        h' := 0;
      }
    }

    /** node's successor: its right child, or the leftmost node below that. */
    method FindSuccessor(node: Node, ghost p: Path, ghost t: Tree, ghost h: nat, ghost S: set<Node>)
      returns (parent: Node, successor: Node, ghost sp: Path, ghost sc: Color, ghost d: Tree, ghost k: nat)
      requires Zip(Snap(S), root, p, t) && Fits(p, t, h) && t.Fork? && t.node == node && t.right.Fork?
      ensures var q := Graft(sp, RightOf(t.left, node, t.color, p)); var st := Fork(Leaf, successor, sc, d);
        Zip(Snap(S), root, q, st) && Fits(q, st, k) && Contents(q, st) == Contents(p, t) && Lefts(sp)
      ensures sp.Top? <==> old(t.right.node.left) == null
      ensures if sp.Top? then parent == successor == t.right.node else parent == sp.node
    {
      ghost var base := RightOf(t.left, node, t.color, p);
      ghost var m := Snap(S);
      StepsRight(m, root, p, t, h);
      successor := node.right;
      parent := successor;
      sp, k := Top, if t.color == Red then h else h - 1;
      ghost var st := t.right;
      var tmp := successor.left;
      while tmp != null
        invariant Downward(m, root, sp, base, st, k, Contents(p, t))
        invariant st.Fork? && st.node == successor && successor in S && tmp == successor.left
        invariant if sp.Top? then parent == successor == t.right.node else parent == sp.node && t.right.node.left != null
        decreases st
      {
        FurtherDown(m, root, sp, base, st, k, Contents(p, t));
        parent := successor;
        successor := tmp;
        tmp := tmp.left;
        sp, k := LeftOf(st.node, st.color, st.right, sp), if st.color == Red then k else k - 1;
        st := st.left;
      }
      NoFurther(m, root, sp, base, st, k, Contents(p, t));
      sc, d := st.color, st.right;
    }

    /** Case 3 only: the successor leaves its place. */
    method StoreUnhook(parent: Node, successor: Node, child: Node)
      requires parent != successor && child != successor
      modifies parent`left, successor`right, child`parent
      ensures parent.left == old(successor.right) && successor.right == child && child.parent == successor
    {
      parent.left := successor.right;
      successor.right := child;
      child.parent := successor;
    }

    /** The successor takes node's left subtree, its place below node's parent and its colour; its own
        old right child child2 goes, black, below parent. */
    method StorePlace(node: Node, parent: Node, successor: Node, left: Node, child2: Node?)
      requires node != successor && node != left && left != successor && node.left == left
      requires node.parent !in {node, successor, left} && child2 !in {node, successor, left}
      requires child2 != null ==> child2 != node.parent
      modifies (if node.parent == null then {this} else {})`root, Only(node.parent)`left, Only(node.parent)`right
      modifies successor`left, successor`parent, successor`color, left`parent, Only(child2)`parent, Only(child2)`color
      ensures successor.left == left && successor.parent == node.parent && successor.color == node.color
      ensures left.parent == successor
      ensures child2 != null ==> child2.parent == parent && child2.color == Black
      ensures var q := old(node.parent);
        && (q == null ==> root == successor)
        && (q != null && old(q.left) == node ==> q.left == successor && q.right == old(q.right))
        && (q != null && old(q.left) != node ==> q.right == successor && q.left == old(q.left))
    {
      successor.left := left;
      left.parent := successor;
      var up := node.parent;
      ChangeChild(node, successor, up);
      if child2 != null {
        child2.parent, child2.color := parent, Black;
      }
      successor.parent, successor.color := up, node.color;
    }

    method StoreSuccessor(node: Node, parent: Node, successor: Node, child: Node,
                          ghost p: Path, ghost l: Tree, ghost sp: Path, ghost d: Tree, ghost S: set<Node>)
      requires SuccessorScalars(Snap(S), p, l, node, sp, successor, d) && node.parent == Above(p, null)
      requires node.left == Root(l) && l.Fork? && successor.right == Root(d) && successor.left == null
      requires if sp.Top? then parent == successor == child else parent == sp.node && child == TopEnd(sp, successor)
      modifies this`root, S`left, S`right, S`parent, S`color
      ensures SuccessorStored(old(Snap(S)) - {node}, Snap(S - {node}), old(root), root, p, l, node, old(node.color), sp, successor, d)
    {
      var child2 := successor.right;
      if parent != successor {
        StoreFar(node, parent, successor, child, child2, p, l, sp, d, S);
      } else {
        StorePlace(node, parent, successor, node.left, child2);
      }
    }

    method StoreFar(node: Node, parent: Node, successor: Node, child: Node, child2: Node?,
                    ghost p: Path, ghost l: Tree, ghost sp: Path, ghost d: Tree, ghost S: set<Node>)
      requires SuccessorScalars(Snap(S), p, l, node, sp, successor, d) && node.parent == Above(p, null)
      requires node.left == Root(l) && l.Fork? && successor.right == child2 == Root(d) && successor.left == null
      requires !sp.Top? && parent == sp.node && child == TopEnd(sp, successor) && parent != successor
      modifies this`root, S`left, S`right, S`parent, S`color
      ensures SuccessorStored(old(Snap(S)) - {node}, Snap(S - {node}), old(root), root, p, l, node, old(node.color), sp, successor, d)
    {
      ghost var m, r, c := Snap(S), root, node.color;
      StoreUnhook(parent, successor, child);
      assert Snap(S) == Unhooked(m, parent, successor, child);
      PlaceSuccessor(node, parent, successor, node.left, child2, S);
      UnhookedPlaced(m, Snap(S - {node}), r, root, p, l, node, c, sp, successor, d);
    }

    method PlaceSuccessor(node: Node, parent: Node, successor: Node, left: Node, child2: Node?, ghost S: set<Node>)
      requires node != successor && node != left && left != successor && node.left == left
      requires node.parent !in {node, successor, left} && child2 !in {node, successor, left}
      requires child2 != null ==> child2 != node.parent
      requires {node, successor, left} + Only(child2) + Only(node.parent) <= S
      modifies this`root, S`left, S`right, S`parent, S`color
      ensures Placed(old(Snap(S)) - {node}, Snap(S - {node}), old(root), root, node, old(node.color), parent, successor, left, child2,
                     old(node.parent))
    {
      StorePlace(node, parent, successor, left, child2);
    }

    /** node has two children. */
    method EraseDouble(node: Node, ghost p: Path, ghost t: Tree, ghost h: nat, ghost S: set<Node>)
      returns (rebalance: Node?, ghost p': Path, ghost t': Tree, ghost h': nat)
      requires Zip(Snap(S), root, p, t) && Fits(p, t, h) && t.Fork? && t.node == node && t.left.Fork? && t.right.Fork?
      modifies this`root, S`left, S`right, S`parent, S`color
      ensures Zip(Snap(S - {node}), root, p', t') && Contents(p', t') == Without(Contents(p, t), node)
      ensures if rebalance == null then Fits(p', t', h') else t'.Leaf? && Short(p', Leaf, 0) && !p'.Top? && rebalance == p'.node
    {
      var parent, successor;
      ghost var sp, sc, d, k;
      ghost var m, r, l, c := Snap(S), root, t.left, t.color;
      DownRight(m, root, p, t, h);
      var child := node.right;
      parent, successor, sp, sc, d, k := FindSuccessor(node, p, t, h, S);
      SuccessorSplit(m, root, p, l, node, c, sp, successor, sc, d);
      SuccessorScalarsHold(m, p, l, node, sp, successor, d);
      var child2, black := successor.right, successor.color == Black;
      StoreSuccessor(node, parent, successor, child, p, l, sp, d, S);
      SuccessorReplaces(m, Snap(S - {node}), r, root, p, l, node, c, sp, successor, sc, d);
      SuccessorContents(p, l, node, c, sp, successor, sc, d, Black);
      p', t' := Graft(sp, RightOf(l, successor, c, p)), Colored(d, Black);
      h' := SuccessorFits(p, l, node, c, sp, successor, sc, d, k);
      rebalance := if child2 == null && black then parent else null;
    }

    /** Takes node out of the tree. */
    method Erase(node: Node)
      requires Valid() && node in Repr
      modifies this, Repr`left, Repr`right, Repr`parent, Repr`color
      ensures Valid() && Repr == old(Repr) - {node}
      ensures Sequence() == Without(old(Sequence()), node)
    {
      ghost var S := Repr;
      ghost var p, t := Locate(shape, node);
      ghost var h := UnplugSound(p, t);
      ZipToTop(Snap(S), root, p, t);
      PlugInorder(p, t);
      ChildHooks(Snap(S), t, Above(p, null));
      var rebalance: Node?;
      ghost var p', t', h' := p, t, h;
      if node.left == null {
        rebalance, t', h' := EraseSingle(node, node.right, p, t, h, t.right, S);
      } else if node.right == null {
        rebalance, t', h' := EraseSingle(node, node.left, p, t, h, t.left, S);
      } else {
        rebalance, p', t', h' := EraseDouble(node, p, t, h, S);
      }
      if rebalance != null {
        EraseColor(rebalance, p', S - {node});
      } else {
        Settle(p', t', h', S - {node});
      }
    }

    // ----- linking -----

    /** Puts node, red and without children, where the descent ended: below parent on the given side,
        or at the root. */
    method LinkNode(node: Node, parent: Node?, left: bool, ghost p: Path, ghost S: set<Node>)
      requires Zip(Snap(S), root, p, Leaf) && node !in S && parent == Above(p, null) && (p.Top? || left == p.LeftOf?)
      modifies this`root, node`left, node`right, node`parent, node`color, S`left, S`right
      ensures Zip(Snap(S + {node}), root, p, Fork(Leaf, node, Red, Leaf))
    {
      ghost var m, r := Snap(S), root;
      AboveInPath(p);
      node.parent, node.color := parent, Red;
      node.left, node.right := null, null;
      if parent == null {
        root := node;
      } else if left {
        parent.left := node;
      } else {
        parent.right := node;
      }
      Linked(m, Snap(S + {node}), r, root, p, node);
    }

    /** Links node at the hole of p and repairs the colours. */
    method Insert(node: Node, parent: Node?, left: bool, ghost p: Path)
      requires Valid() && node !in Repr && Plug(p, Leaf) == shape
      requires parent == Above(p, null) && (p.Top? || left == p.LeftOf?)
      modifies this, node`left, node`right, node`parent, node`color
      modifies Repr`left, Repr`right, Repr`parent, Repr`color
      ensures Valid() && Repr == old(Repr) + {node}
      ensures Sequence() == Before(p) + [node] + After(p)
    {
      ghost var S := Repr;
      ghost var h := UnplugSound(p, Leaf);
      ZipToTop(Snap(S), root, p, Leaf);
      LinkNode(node, parent, left, p, S);
      assert Inorder(Fork(Leaf, node, Red, Leaf)) == [node];
      InsertColor(node, p, S + {node});
    }

    // ----- replacing -----

    method StoreReplace(victim: Node, new_: Node, ghost p: Path, ghost l: Tree, ghost r: Tree, ghost S: set<Node>)
      requires victim in S && new_ in S && new_ != victim && Only(Root(l)) + Only(Root(r)) + Only(victim.parent) <= S
      requires victim.left == Root(l) && victim.right == Root(r) && victim.parent == Above(p, null)
      requires {victim, new_} !! Only(Root(l)) + Only(Root(r)) + Only(victim.parent)
      requires Only(Root(l)) !! Only(Root(r)) && Only(victim.parent) !! Only(Root(l)) + Only(Root(r))
      modifies this`root, S`left, S`right, S`parent, S`color
      ensures ReplaceStored(old(Snap(S)), Snap(S), old(root), root, p, l, victim, old(victim.color), r, new_)
    {
      var parent := victim.parent;
      CopyHook(victim, new_);
      ChangeChild(victim, new_, parent);
    }

    /** "*new = *victim", and victim's children go below new_. */
    method CopyHook(victim: Node, new_: Node)
      requires new_ != victim && {victim, new_} !! Only(victim.left) + Only(victim.right)
      requires Only(victim.left) !! Only(victim.right)
      modifies new_`left, new_`right, new_`parent, new_`color, Only(victim.left)`parent, Only(victim.right)`parent
      ensures new_.left == victim.left && new_.right == victim.right && new_.parent == victim.parent && new_.color == victim.color
      ensures victim.left != null ==> victim.left.parent == new_
      ensures victim.right != null ==> victim.right.parent == new_
    {
      new_.left, new_.right := victim.left, victim.right;
      new_.parent, new_.color := victim.parent, victim.color;
      if victim.left != null { victim.left.parent := new_; }
      if victim.right != null { victim.right.parent := new_; }
    }

    /** hev_rbtree_replace: new_ takes the place of victim. */
    method Replace(victim: Node, new_: Node) returns (ghost x: seq<Node>, ghost y: seq<Node>)
      requires Valid() && victim in Repr && new_ !in Repr
      modifies this, Repr`left, Repr`right, Repr`parent, Repr`color, new_`left, new_`right, new_`parent, new_`color
      ensures Valid() && Repr == old(Repr) - {victim} + {new_}
      ensures old(Sequence()) == x + [victim] + y && Sequence() == x + [new_] + y
    {
      ghost var S, T := Repr, Repr + {new_};
      ghost var p, t := Locate(shape, victim);
      ghost var h := UnplugSound(p, t);
      ghost var m, r := Snap(T), root;
      ZipToTop(Snap(S), root, p, t);
      PlugInorder(p, t);
      ReplaceReady(Snap(S), root, p, t);
      SnapMinus(T, new_);
      assert T - {new_} == S && T - {victim} == S - {victim} + {new_};
      StoreReplace(victim, new_, p, t.left, t.right, T);
      Replaced(m, Snap(T), r, root, p, t.left, victim, t.color, t.right, new_);
      SnapMinus(T, victim);
      ghost var t' := Fork(t.left, new_, t.color, t.right);
      ReplacedFits(p, t, h, new_);
      x, y := ReplacedContents(p, t, new_);
      Settle(p, t', h, T - {victim});
    }

    // ----- walking -----

    method First() returns (n: Node?)
      requires Valid()
      ensures n == FirstOf(Sequence())
    {
      n := root;
      if n == null {
        return null;
      }
      n := Leftmost(n, shape, null, Repr);
    }

    method Last() returns (n: Node?)
      requires Valid()
      ensures n == LastOf(Sequence())
    {
      n := root;
      if n == null {
        return null;
      }
      n := Rightmost(n, shape, null, Repr);
    }

    method Leftmost(top: Node, ghost whole: Tree, ghost up: Node?, ghost S: set<Node>) returns (n: Node)
      requires whole.Fork? && whole.node == top && Rep(Snap(S), whole, up)
      ensures n == FirstOf(Inorder(whole))
    {
      n := top;
      ghost var t, u := whole, up;
      while n.left != null
        invariant t.Fork? && t.node == n && Rep(Snap(S), t, u)
        invariant FirstOf(Inorder(t)) == FirstOf(Inorder(whole))
        decreases t
      {
        ChildHooks(Snap(S), t, u);
        FirstBelow(t);
        n, u, t := n.left, n, t.left;
      }
      ChildHooks(Snap(S), t, u);
      FirstBelow(t);
    }

    method Rightmost(top: Node, ghost whole: Tree, ghost up: Node?, ghost S: set<Node>) returns (n: Node)
      requires whole.Fork? && whole.node == top && Rep(Snap(S), whole, up)
      ensures n == LastOf(Inorder(whole))
    {
      n := top;
      ghost var t, u := whole, up;
      while n.right != null
        invariant t.Fork? && t.node == n && Rep(Snap(S), t, u)
        invariant LastOf(Inorder(t)) == LastOf(Inorder(whole))
        decreases t
      {
        ChildHooks(Snap(S), t, u);
        n, u, t := n.right, n, t.right;
      }
      ChildHooks(Snap(S), t, u);
    }

    /** The node after `start` in search order. */
    method Next(start: Node) returns (n: Node?)
      requires Valid() && start in Repr
      ensures n == Following(Sequence(), start)
    {
      ghost var S := Repr;
      ghost var p, t := Locate(shape, start);
      ZipToTop(Snap(S), root, p, t);
      PlugInorder(p, t);
      Neighbours(p, t);
      ChildHooks(Snap(S), t, Above(p, null));
      if start.parent == start {
        AboveInPath(p);
        return null;
      }
      if start.right != null {
        n := Leftmost(start.right, t.right, start, S);
        return;
      }
      var node, parent := start, start.parent;
      while parent != null && node == parent.right
        invariant Zip(Snap(S), root, p, t) && t.Fork? && t.node == node && parent == Above(p, null)
        invariant FirstOf(After(p)) == Following(Sequence(), start)
        decreases p
      {
        ClimbUp(Snap(S), root, p, t);
        t, p := PlugOne(p, t), p.up;
        node := parent;
        parent := node.parent;
      }
      ClimbUp(Snap(S), root, p, t);
      return parent;
    }

    /** The node before `start` in search order. */
    method Prev(start: Node) returns (n: Node?)
      requires Valid() && start in Repr
      ensures n == Preceding(Sequence(), start)
    {
      ghost var S := Repr;
      ghost var p, t := Locate(shape, start);
      ZipToTop(Snap(S), root, p, t);
      PlugInorder(p, t);
      Neighbours(p, t);
      ChildHooks(Snap(S), t, Above(p, null));
      if start.parent == start {
        AboveInPath(p);
        return null;
      }
      if start.left != null {
        n := Rightmost(start.left, t.left, start, S);
        return;
      }
      var node, parent := start, start.parent;
      while parent != null && node == parent.left
        invariant Zip(Snap(S), root, p, t) && t.Fork? && t.node == node && parent == Above(p, null)
        invariant LastOf(Before(p)) == Preceding(Sequence(), start)
        decreases p
      {
        ClimbUp(Snap(S), root, p, t);
        t, p := PlugOne(p, t), p.up;
        node := parent;
        parent := node.parent;
      }
      ClimbUp(Snap(S), root, p, t);
      return parent;
    }
  }
}
