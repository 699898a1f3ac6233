// The user authenticator: a finite map from user name to user, kept in the tree.
module Authenticator {
  import opened Records
  import opened Shapes
  import opened Links
  import opened SearchOrder
  import opened RBTree

  /** memcmp on two strings of equal length. */
  ghost function Memcmp(a: seq<byte>, b: seq<byte>): int
    requires |a| == |b|
  {
    Compare(a, b)
  }

  /** How the authenticator compares a stored name with the name sought: lengths first. */
  method CompareNames(this_: seq<byte>, name: seq<byte>) returns (res: int)
    ensures (res < 0 <==> Cmp(ByLength, this_, name) < 0) && (res > 0 <==> Cmp(ByLength, this_, name) > 0)
    ensures res == 0 <==> this_ == name
  {
    KeyInjective(ByLength, this_, name);
    CompareEqual(Key(ByLength, this_), Key(ByLength, name));
    if |this_| < |name| {
      res := -1;
    } else if |this_| > |name| {
      res := 1;
    } else {
      assert Key(ByLength, this_)[1..] == this_ && Key(ByLength, name)[1..] == name;
      res := CompareBytes(this_, name);
    }
  }

  method CompareBytes(a: seq<byte>, b: seq<byte>) returns (res: int)
    requires |a| == |b|
    ensures res == Memcmp(a, b)
  {
    var i := 0;
    while i < |a| && a[i] == b[i]
      invariant 0 <= i <= |a|
      invariant Compare(a, b) == Compare(a[i..], b[i..])
    {
      i := i + 1;
    }
    res := if i == |a| then 0 else if a[i] < b[i] then -1 else 1;
  }

  class HevSocks5Authenticator {
    const tree: HevRBTree

    ghost predicate Valid()
      reads tree, tree.Repr`left, tree.Repr`right, tree.Repr`parent, tree.Repr`color
    {
      tree.Valid() && Descending(ByLength, tree.Sequence())
    }

    /** The users that are known, by name. */
    ghost function Users(): map<seq<byte>, Node>
      reads tree`shape
    {
      Table(tree.Sequence())
    }

    /** The users that are known have these passwords. */
    ghost predicate Holds(passwords: map<seq<byte>, seq<byte>>)
      reads tree`shape
    {
      && passwords.Keys == Users().Keys
      && forall name | name in passwords :: passwords[name] == Users()[name].pass
    }

    /** What the server asks of it: do name and password belong to a user? */
    method Check(name: seq<byte>, pass: seq<byte>, ghost passwords: map<seq<byte>, seq<byte>>) returns (res: int)
      requires Valid() && Holds(passwords)
      ensures res == if name in passwords && passwords[name] == pass then 0 else -1
    {
      var user := Get(name);
      if user == null {
        return -1;
      }
      res := CheckUser(user, pass);
    }

    constructor ()
      ensures Valid() && Users() == map[] && fresh(tree)
    {
      var t := new HevRBTree();
      tree := t;
    }

    /** Adds a user unless the name is taken. */
    method Add(user: Node) returns (res: int)
      requires Valid()
      modifies tree, user`left, user`right, user`parent, user`color
      modifies tree.Repr`left, tree.Repr`right, tree.Repr`parent, tree.Repr`color
      ensures Valid()
      ensures res == if user.name in old(Users()) then -1 else 0
      ensures Users() == if res == 0 then old(Users())[user.name := user] else old(Users())
    {
      ghost var whole := tree.shape;
      ghost var m := Snap(tree.Repr);
      var new_, parent: Node?, left := tree.root, null, false;
      ghost var p, t := Top, whole;
      DescentStarts(ByLength, m, tree.root, whole, user.name);
      while new_ != null
        invariant tree.shape == whole && Snap(tree.Repr) == m && Valid() && Users() == old(Users())
        invariant Descent(ByLength, m, tree.root, whole, user.name, p, t) && new_ == Root(t)
        invariant parent == Above(p, null) && (p.Top? || left == p.LeftOf?)
        decreases t
      {
        DescentStep(ByLength, m, tree.root, whole, user.name, p, t);
        var res_ := CompareNames(new_.name, user.name);
        parent := new_;
        if res_ < 0 {
          p, t := LeftOf(t.node, t.color, t.right, p), t.left;
          new_, left := new_.left, true;
        } else if res_ > 0 {
          p, t := RightOf(t.left, t.node, t.color, p), t.right;
          new_, left := new_.right, false;
        } else {
          return -1;
        }
      }
      DescentInserts(ByLength, whole, p, user);
      tree.Insert(user, parent, left, p);
      res := 0;
    }

    /** Looks a name up. */
    method Get(name: seq<byte>) returns (user: Node?)
      requires Valid()
      ensures user == if name in Users() then Users()[name] else null
      ensures user != null ==> user in tree.Repr
    {
      ghost var whole := tree.shape;
      ghost var m := Snap(tree.Repr);
      var node := tree.root;
      ghost var p, t := Top, whole;
      DescentStarts(ByLength, m, tree.root, whole, name);
      while node != null
        invariant Descent(ByLength, m, tree.root, whole, name, p, t) && node == Root(t)
        decreases t
      {
        DescentStep(ByLength, m, tree.root, whole, name, p, t);
        var res := CompareNames(node.name, name);
        if res < 0 {
          p, t := LeftOf(t.node, t.color, t.right, p), t.left;
          node := node.left;
        } else if res > 0 {
          p, t := RightOf(t.left, t.node, t.color, p), t.right;
          node := node.right;
        } else {
          return node;
        }
      }
      DescentEnds(ByLength, whole, name, p);
      return null;
    }

    /** Removes a user. */
    method Del(name: seq<byte>) returns (res: int)
      requires Valid()
      modifies tree, tree.Repr`left, tree.Repr`right, tree.Repr`parent, tree.Repr`color
      ensures Valid() && Users() == old(Users()) - {name}
      ensures res == if name in old(Users()) then 0 else -1
    {
      var node := Get(name);
      if node != null {
        EraseKeepsOrder(ByLength, tree.shape, node);
        DescendingDistinct(ByLength, tree.Sequence());
        TableLookup(tree.Sequence(), name);
        tree.Erase(node);
        return 0;
      }
      return -1;
    }

    /** Removes every user, smallest place in the tree first. */
    method Clear()
      requires Valid()
      modifies tree, tree.Repr`left, tree.Repr`right, tree.Repr`parent, tree.Repr`color
      ensures Valid() && Users() == map[] && tree.root == null
    {
      ghost var S := tree.Repr;
      var n := tree.First();
      while n != null
        invariant Valid() && tree.Repr <= S && n == FirstOf(tree.Sequence())
        decreases tree.Repr
      {
        InInorder(tree.shape, n);
        EraseKeepsOrder(ByLength, tree.shape, n);
        tree.Erase(n);
        n := tree.First();
      }
      EmptySequence(tree.shape);
    }
  }

  /** hev_socks5_user_check: the password check of a user. */
  method CheckUser(user: Node, pass: seq<byte>) returns (res: int)
    ensures res == if user.pass == pass then 0 else -1
  {
    if |user.pass| != |pass| {
      return -1;
    }
    CompareEqual(user.pass, pass);
    var c := CompareBytes(user.pass, pass);
    return if c != 0 then -1 else 0;
  }
}
