// The DNS mapper's name cache: tree, list and index array over the same records.
module MappedDns {
  import opened Records
  import opened NetworkOrder
  import opened Shapes
  import opened Links
  import opened SearchOrder
  import opened RBTree
  import opened List
  import opened Lru
  import opened DnsMessage
  import opened Options
  import opened Sealing

  type Indices = map<Node, int>

  /** strcmp: stored names are C strings, that is, they contain no NUL. */
  function Strcmp(a: Name, b: Name): (res: int)
    ensures res == Cmp(ByBytes, a, b)
  {
    if a == [] then (if b == [] then 0 else -1)
    else if b == [] then 1
    else if a[0] != b[0] then (if a[0] < b[0] then -1 else 1)
    else Strcmp(a[1..], b[1..])
  }

  function StrcmpSign(a: Name, b: Name): (res: int)
    ensures res == Cmp(ByBytes, a, b) && (res == 0 <==> a == b)
  {
    CmpEqual(ByBytes, a, b);
    Strcmp(a, b)
  }

  /** m has the indices of the nodes in S. */
  ghost predicate IsIdxSnap(S: set<Node>, m: Indices)
    reads S`idx
  {
    m.Keys == S && forall n {:trigger m[n]} | n in S :: m[n] == n.idx
  }

  lemma {:induction false} IdxSnapExists(S: set<Node>)
    ensures exists m: Indices :: IsIdxSnap(S, m)
  {
    if S == {} {
      var m: Indices := map[];
      assert IsIdxSnap(S, m);
    } else {
      var n :| n in S;
      IdxSnapExists(S - {n});
      var m: Indices :| IsIdxSnap(S - {n}, m);
      assert IsIdxSnap(S, m[n := n.idx]);
    }
  }

  ghost function IdxSnap(S: set<Node>): (m: Indices)
    reads S`idx
    ensures m.Keys == S && forall n {:trigger m[n]} | n in S :: m[n] == n.idx
  {
    IdxSnapExists(S);
    var m: Indices :| IsIdxSnap(S, m);
    m
  }

  lemma IdxSnapIs(S: set<Node>, m: Indices)
    requires IsIdxSnap(S, m)
    ensures IdxSnap(S) == m
  {}

  /** records holds exactly the cached nodes, each in the slot that its idx says, in the first `use` slots. */
  ghost predicate Slotted(rs: seq<Node?>, ix: Indices, use: nat) {
    && use <= |rs|
    && (forall n | n in ix :: 0 <= ix[n] < use && rs[ix[n]] == n)
    && (forall i | 0 <= i < use :: rs[i] != null && rs[i] in ix && ix[rs[i]] == i)
    && (forall i | use <= i < |rs| :: rs[i] == null)
  }

  ghost function EntriesOf(s: seq<Node>, ix: Indices): (es: seq<Entry>)
    ensures |es| == |s|
  {
    if s == [] then [] else [Entry(s[0].name, if s[0] in ix then ix[s[0]] else 0)] + EntriesOf(s[1..], ix)
  }

  lemma {:induction false} EntriesConcat(x: seq<Node>, y: seq<Node>, ix: Indices)
    ensures EntriesOf(x + y, ix) == EntriesOf(x, ix) + EntriesOf(y, ix)
  {
    if x == [] {
      assert x + y == y;
    } else {
      assert (x + y)[1..] == x[1..] + y;
      EntriesConcat(x[1..], y, ix);
    }
  }

  lemma {:induction false} EntriesKept(s: seq<Node>, ix: Indices, ix': Indices)
    requires forall n | n in s :: n in ix && n in ix' && ix'[n] == ix[n]
    ensures EntriesOf(s, ix) == EntriesOf(s, ix')
  {
    if s != [] { EntriesKept(s[1..], ix, ix'); }
  }

  lemma {:induction false} EntryAt(s: seq<Node>, ix: Indices, i: nat)
    requires i < |s| && s[i] in ix
    ensures EntriesOf(s, ix)[i] == Entry(s[i].name, ix[s[i]])
  {
    if i > 0 { EntryAt(s[1..], ix, i - 1); }
  }

  /** The nodes of the tree sequence ts and of the list items s are the same. */
  ghost predicate SameNodes(ts: seq<Node>, s: seq<Node>, ix: Indices) {
    (forall n | n in ix :: n in ts && n in s) && (forall n | n in ts :: n in ix) && (forall n | n in s :: n in ix)
  }

  /** A name that is not in the tree is not among the entries. */
  lemma NotAmong(ts: seq<Node>, s: seq<Node>, ix: Indices, name: Name)
    requires SameNodes(ts, s, ix) && NamesDistinct(ts) && name !in Table(ts)
    ensures Lru.Find(EntriesOf(s, ix), name) == |s|
  {
    var es := EntriesOf(s, ix);
    var k := Lru.Find(es, name);
    if k < |s| {
      assert s[k] in s;
      EntryAt(s, ix, k);
      TableLookup(ts, name);
    }
  }

  /** A name that is in the tree has its entry where its node is in the list. */
  lemma Among(ts: seq<Node>, x: seq<Node>, n: Node, y: seq<Node>, ix: Indices)
    requires SameNodes(ts, x + [n] + y, ix) && NamesDistinct(ts) && Unique(x + [n] + y)
    ensures Lru.Find(EntriesOf(x + [n] + y, ix), n.name) == |x|
  {
    var s := x + [n] + y;
    var es := EntriesOf(s, ix);
    var k := Lru.Find(es, n.name);
    assert s[|x|] == n && n in s;
    EntryAt(s, ix, |x|);
    UniqueConcat(x, n, y);
    if k < |x| {
      assert s[k] == x[k] && s[k] in s;
      EntryAt(s, ix, k);
      SameNode(ts, s[k], n);
    }
  }

  lemma SameNode(ts: seq<Node>, a: Node, b: Node)
    requires NamesDistinct(ts) && a in ts && b in ts && a.name == b.name
    ensures a == b
  {}

  lemma MovedEntries(x: seq<Node>, n: Node, y: seq<Node>, ix: Indices)
    ensures EntriesOf(x + y + [n], ix) == ToEnd(EntriesOf(x + [n] + y, ix), |x|)
  {
    EntriesConcat(x + y, [n], ix);
    EntriesConcat(x, y, ix);
    EntriesConcat(x + [n], y, ix);
    EntriesConcat(x, [n], ix);
    var a, b, c := EntriesOf(x, ix), EntriesOf([n], ix), EntriesOf(y, ix);
    assert (a + b + c)[..|x|] == a && (a + b + c)[|x| + 1..] == c && [(a + b + c)[|x|]] == b;
  }

  lemma WithoutIn(s: seq<Node>, n: Node) returns (x: seq<Node>, y: seq<Node>)
    requires n in s && Unique(s)
    ensures s == x + [n] + y && Without(s, n) == x + y && n !in x && n !in y
  {
    x, y := Around(s, n);
    UniqueConcat(x, n, y);
    WithoutMiddle(x, n, y);
  }

  class HevMappedDNS {
    const tree: HevRBTree
    const list: HevList
    const records: array<Node?>
    const max: nat
    const net: nat    // network address; no bit of it is below the netmask, so "net | idx" is a sum
    const hosts: nat  // number of addresses below the contiguous netmask: ~mask + 1
    var use: nat

    /** Tree and list hold the same nodes, the tree by descending name. */
    ghost predicate Linked()
      reads tree, list, tree.Repr`left, tree.Repr`right, tree.Repr`parent, tree.Repr`color, list.Repr`next, list.Repr`prev
    {
      tree.Valid() && Descending(ByBytes, tree.Sequence()) && list.Valid() && tree.Repr == list.Repr
    }

    ghost predicate Valid()
      reads this, tree, list, records
      reads tree.Repr`left, tree.Repr`right, tree.Repr`parent, tree.Repr`color, list.Repr`next, list.Repr`prev, list.Repr`idx
    {
      && Linked() && records.Length == max && 0 < max < hosts && |list.items| == use
      && Slotted(records[..], IdxSnap(list.Repr), use)
    }

    /** The cached names with their indices, least recently touched first. */
    ghost function Entries(): seq<Entry>
      reads list, list.Repr`idx
    {
      EntriesOf(list.items, IdxSnap(list.Repr))
    }

    constructor (net: nat, hosts: nat, max: nat)
      requires 0 < max < hosts && net % hosts == 0
      ensures Valid() && Entries() == [] && fresh(tree) && fresh(list) && fresh(records)
      ensures this.net == net && this.hosts == hosts && this.max == max
    {
      var t := new HevRBTree();
      var l := new HevList();
      tree, list := t, l;
      records := new Node?[max](_ => null);
      this.net, this.hosts, this.max, use := net, hosts, max, 0;
    }

    /** "hev_list_del; hev_list_add_tail": the node becomes the most recent. */
    method MoveToTail(node: Node)
      requires list.Valid() && node in list.Repr
      modifies list, list.Repr`next, list.Repr`prev
      ensures list.Valid() && list.Repr == old(list.Repr) && list.items == Without(old(list.items), node) + [node]
    {
      list.Del(node);
      list.AddTail(node);
    }

    method MoveKeepsTree(node: Node)
      requires Linked() && node in list.Repr
      modifies list, list.Repr`next, list.Repr`prev
      ensures Linked() && list.Repr == old(list.Repr) && list.items == Without(old(list.items), node) + [node]
    {
      MoveToTail(node);
    }

    method MoveKeepsIdx(node: Node)
      requires Linked() && node in list.Repr
      modifies list, list.Repr`next, list.Repr`prev
      ensures Linked() && list.Repr == old(list.Repr) && list.items == Without(old(list.items), node) + [node]
      ensures IdxSnap(list.Repr) == old(IdxSnap(list.Repr))
    {
      ghost var ix := IdxSnap(list.Repr);
      MoveKeepsTree(node);
      IdxSnapIs(list.Repr, ix);
    }

    method Recent(node: Node)
      requires Valid() && node in tree.Repr
      modifies list, list.Repr`next, list.Repr`prev
      ensures Valid() && list.Repr == old(list.Repr)
      ensures var es := old(Entries()); var k := Lru.Find(es, node.name);
        k < |es| && es[k] == Entry(node.name, node.idx) && Entries() == ToEnd(es, k)
    {
      RecentEntries(tree, list, IdxSnap(list.Repr), node);
      MoveKeepsIdx(node);
    }

    // ----- a name that is not known -----

    method LinkInTree(node: Node, parent: Node?, left: bool, ghost p: Path)
      requires Linked() && Reached(ByBytes, tree.shape, node.name, p, Leaf)
      requires parent == Above(p, null) && (p.Top? || left == p.LeftOf?)
      modifies tree, tree.Repr`left, tree.Repr`right, tree.Repr`parent, tree.Repr`color
      modifies node`left, node`right, node`parent, node`color
      ensures tree.Valid() && Descending(ByBytes, tree.Sequence()) && tree.Repr == old(tree.Repr) + {node}
      ensures node !in old(tree.Repr) && list.Valid()
    {
      DescentInserts(ByBytes, tree.shape, p, node);
      tree.Insert(node, parent, left, p);
    }

    method LinkInList(node: Node)
      requires tree.Valid() && list.Valid() && node !in list.Repr
      modifies list, list.Repr`next, node`next, node`prev
      ensures tree.Valid() && list.Valid() && list.items == old(list.items) + [node]
      ensures list.Repr == old(list.Repr) + {node}
    {
      list.AddTail(node);
    }

    /** A new node goes into the tree and to the end of the list; no index changes. */
    method Append(node: Node, parent: Node?, left: bool, ghost p: Path)
      requires Linked() && Reached(ByBytes, tree.shape, node.name, p, Leaf)
      requires parent == Above(p, null) && (p.Top? || left == p.LeftOf?)
      modifies tree, tree.Repr`left, tree.Repr`right, tree.Repr`parent, tree.Repr`color, list, list.Repr`next
      modifies node`left, node`right, node`parent, node`color, node`next, node`prev
      ensures Linked() && list.items == old(list.items) + [node] && list.Repr == old(list.Repr) + {node}
      ensures node !in old(list.Repr)
    {
      LinkInTree(node, parent, left, p);
      LinkInList(node);
    }

    method UnlinkFromTree(nf: Node)
      requires Linked() && nf in tree.Repr
      modifies tree, tree.Repr`left, tree.Repr`right, tree.Repr`parent, tree.Repr`color
      ensures tree.Valid() && Descending(ByBytes, tree.Sequence()) && tree.Repr == old(tree.Repr) - {nf} && list.Valid()
    {
      EraseKeepsOrder(ByBytes, tree.shape, nf);
      tree.Erase(nf);
    }

    method UnlinkFromList(nf: Node)
      requires tree.Valid() && list.Valid() && nf in list.Repr
      modifies list, list.Repr`next, list.Repr`prev
      ensures tree.Valid() && list.Valid() && list.items == Without(old(list.items), nf)
      ensures list.Repr == old(list.Repr) - {nf}
    {
      list.Del(nf);
    }

    method Drop(nf: Node)
      requires Linked() && nf in tree.Repr
      modifies tree, list, list.Repr`left, list.Repr`right, list.Repr`parent, list.Repr`color, list.Repr`next, list.Repr`prev
      ensures Linked() && list.items == Without(old(list.items), nf) && list.Repr == old(list.Repr) - {nf}
    {
      UnlinkFromTree(nf);
      UnlinkFromList(nf);
    }

    method AppendKeepsIdx(node: Node, parent: Node?, left: bool, ghost p: Path)
      requires Linked() && Reached(ByBytes, tree.shape, node.name, p, Leaf)
      requires parent == Above(p, null) && (p.Top? || left == p.LeftOf?)
      modifies tree, tree.Repr`left, tree.Repr`right, tree.Repr`parent, tree.Repr`color, list, list.Repr`next
      modifies node`left, node`right, node`parent, node`color, node`next, node`prev
      ensures Linked() && list.items == old(list.items) + [node] && list.Repr == old(list.Repr) + {node}
      ensures node !in old(list.Repr) && IdxSnap(list.Repr) == old(IdxSnap(list.Repr))[node := node.idx]
    {
      ghost var ix := IdxSnap(list.Repr);
      Append(node, parent, left, p);
      IdxSnapIs(list.Repr, ix[node := node.idx]);
    }

    method DropKeepsIdx(nf: Node)
      requires Linked() && nf in tree.Repr
      modifies tree, list, list.Repr`left, list.Repr`right, list.Repr`parent, list.Repr`color, list.Repr`next, list.Repr`prev
      ensures Linked() && list.items == Without(old(list.items), nf) && list.Repr == old(list.Repr) - {nf}
      ensures IdxSnap(list.Repr) == old(IdxSnap(list.Repr)) - {nf}
    {
      ghost var ix := IdxSnap(list.Repr);
      Drop(nf);
      IdxSnapIs(list.Repr, ix - {nf});
    }

    /** "records[idx] = node; node->idx = idx" */
    method StoreSlot(node: Node, idx: nat)
      requires node in list.Repr && idx < records.Length
      modifies records, node`idx
      ensures records[..] == old(records[..])[idx := node]
      ensures IdxSnap(list.Repr) == old(IdxSnap(list.Repr))[node := idx]
    {
      records[idx] := node;
      node.idx := idx;
    }

    method SetSlot(node: Node, idx: nat)
      requires Linked() && node in list.Repr && idx < records.Length
      modifies records, node`idx
      ensures Linked() && records[..] == old(records[..])[idx := node]
      ensures IdxSnap(list.Repr) == old(IdxSnap(list.Repr))[node := idx]
    {
      StoreSlot(node, idx);
    }

    /** The node was just appended to s and has no slot yet; ix is the rest's indices. */
    ghost predicate Appended(s: seq<Node>, ix: Indices, node: Node)
      reads this, tree, list, records
      reads tree.Repr`left, tree.Repr`right, tree.Repr`parent, tree.Repr`color, list.Repr`next, list.Repr`prev, list.Repr`idx
    {
      && Linked() && list.items == s + [node] && node in list.Repr && |s| == use && records.Length == max && 0 < max < hosts
      && Slotted(records[..], ix, use) && IdxSnap(list.Repr) == ix[node := node.idx] && node !in ix
      && (forall k | k in s :: k in ix) && Unique(s)
    }

    method CountUse()
      requires Linked()
      modifies this`use
      ensures Linked() && use == old(use) + 1 && records[..] == old(records[..])
      ensures list.Repr == old(list.Repr) && list.items == old(list.items)
      ensures IdxSnap(list.Repr) == old(IdxSnap(list.Repr))
    {
      use := use + 1;
    }

    /** There is room: the node gets the next slot. */
    method TakeNextSlot(node: Node, ghost s: seq<Node>, ghost ix: Indices) returns (idx: int)
      requires Appended(s, ix, node) && use < max
      modifies this`use, records, node`idx
      ensures Valid() && idx == old(use) && list.Repr == old(list.Repr)
      ensures Entries() == EntriesOf(s, ix) + [Entry(node.name, idx)]
    {
      NextSlot(records[..], s, ix, use, node, node.idx);
      idx := use;
      CountUse();
      SetSlot(node, idx);
    }

    /** The least recent node leaves, and the new one gets its slot. */
    method ReplaceFirst(node: Node, nf: Node, idx: nat)
      requires Linked() && node in list.Repr && nf in list.Repr && nf != node && idx < records.Length
      modifies records, tree, tree.Repr`left, tree.Repr`right, tree.Repr`parent, tree.Repr`color
      modifies list, list.Repr`next, list.Repr`prev, node`idx
      ensures Linked() && records[..] == old(records[..])[idx := node]
      ensures list.items == Without(old(list.items), nf) && list.Repr == old(list.Repr) - {nf}
      ensures IdxSnap(list.Repr) == (old(IdxSnap(list.Repr)) - {nf})[node := idx]
    {
      DropKeepsIdx(nf);
      SetSlot(node, idx);
    }

    /** The cache is full: the node gets the slot of the least recent one, which goes. */
    method TakeFirstSlot(node: Node, ghost s: seq<Node>, ghost ix: Indices) returns (idx: int)
      requires Appended(s, ix, node) && use == max
      modifies records, tree, tree.Repr`left, tree.Repr`right, tree.Repr`parent, tree.Repr`color
      modifies list, list.Repr`next, list.Repr`prev, node`idx
      ensures Valid() && list.Repr <= old(list.Repr)
      ensures var es := EntriesOf(s, ix); |es| > 0 && idx == es[0].idx && Entries() == es[1..] + [Entry(node.name, idx)]
    {
      FullHead(list, s, records[..], ix, use, node);
      var nf := list.head;
      idx := nf.idx;
      FirstSlot(records[..], s, ix, use, nf, node, node.idx);
      ReplaceFirst(node, nf, idx);
    }

    /** The rest of find for a name that is not known: link the new node and give it a slot. */
    method Admit(node: Node, parent: Node?, left: bool, ghost p: Path) returns (idx: int)
      requires Valid() && Reached(ByBytes, tree.shape, node.name, p, Leaf)
      requires parent == Above(p, null) && (p.Top? || left == p.LeftOf?)
      modifies this`use, records, tree, tree.Repr`left, tree.Repr`right, tree.Repr`parent, tree.Repr`color
      modifies list, list.Repr`next, list.Repr`prev, node
      ensures Valid() && list.Repr <= old(list.Repr) + {node}
      ensures var es := old(Entries());
        && Lru.Find(es, node.name) == |es|
        && Entries() == Touch(es, max, node.name) && idx == Entries()[|Entries()| - 1].idx
    {
      ghost var s, ix := list.items, IdxSnap(list.Repr);
      NotKnown(tree, list, ix, node.name, p);
      TouchNew(EntriesOf(s, ix), max, node.name);
      AppendNew(node, parent, left, p);
      idx := TakeSlot(node, s, ix);
    }

    method AppendNew(node: Node, parent: Node?, left: bool, ghost p: Path)
      requires Valid() && Reached(ByBytes, tree.shape, node.name, p, Leaf)
      requires parent == Above(p, null) && (p.Top? || left == p.LeftOf?)
      requires Unique(list.items) && forall k | k in list.items :: k in IdxSnap(list.Repr)
      modifies tree, tree.Repr`left, tree.Repr`right, tree.Repr`parent, tree.Repr`color, list, list.Repr`next
      modifies node`left, node`right, node`parent, node`color, node`next, node`prev
      ensures Appended(old(list.items), old(IdxSnap(list.Repr)), node) && list.Repr == old(list.Repr) + {node}
    {
      AppendKeepsIdx(node, parent, left, p);
    }

    method TakeSlot(node: Node, ghost s: seq<Node>, ghost ix: Indices) returns (idx: int)
      requires Appended(s, ix, node)
      modifies this`use, records, tree, tree.Repr`left, tree.Repr`right, tree.Repr`parent, tree.Repr`color
      modifies list, list.Repr`next, list.Repr`prev, node`idx
      ensures Valid() && list.Repr <= old(list.Repr)
      ensures var es := EntriesOf(s, ix);
        if |s| < max then idx == |s| && Entries() == es + [Entry(node.name, idx)]
        else |s| == max && |es| > 0 && idx == es[0].idx && Entries() == es[1..] + [Entry(node.name, idx)]
    {
      if use < max {
        idx := TakeNextSlot(node, s, ix);
      } else {
        idx := TakeFirstSlot(node, s, ix);
      }
    }

    // ----- the operations -----

    /** The search of find: the node of the name, or where a new node belongs. */
    method Descend(name: Name) returns (found: Node?, parent: Node?, left: bool, ghost p: Path)
      requires Linked()
      ensures found != null ==> found in tree.Repr && found.name == name
      ensures found == null ==>
        && Reached(ByBytes, tree.shape, name, p, Leaf)
        && parent == Above(p, null) && (p.Top? || left == p.LeftOf?)
    {
      ghost var whole := tree.shape;
      ghost var m := Snap(tree.Repr);
      var new_ := tree.root;
      parent, left := null, false;
      ghost var t := whole;
      p := Top;
      DescentStarts(ByBytes, m, tree.root, whole, name);
      while new_ != null
        invariant Descent(ByBytes, m, tree.root, whole, name, p, t) && new_ == Root(t)
        invariant parent == Above(p, null) && (p.Top? || left == p.LeftOf?)
        decreases t
      {
        DescentStep(ByBytes, m, tree.root, whole, name, p, t);
        var res := StrcmpSign(new_.name, name);
        parent := new_;
        if res < 0 {
          p, t := LeftOf(t.node, t.color, t.right, p), t.left;
          new_, left := new_.left, true;
        } else if res > 0 {
          p, t := RightOf(t.left, t.node, t.color, p), t.right;
          new_, left := new_.right, false;
        } else {
          return new_, parent, left, p;
        }
      }
      found := null;
    }

    method Search(name: Name) returns (found: Node?, parent: Node?, left: bool, ghost p: Path)
      requires Valid()
      ensures Valid() && Entries() == old(Entries()) && list.Repr == old(list.Repr)
      ensures found != null ==> found in tree.Repr && found.name == name
      ensures found == null ==>
        && Reached(ByBytes, tree.shape, name, p, Leaf)
        && parent == Above(p, null) && (p.Top? || left == p.LeftOf?)
    {
      found, parent, left, p := Descend(name);
    }

    /** The index of a name; memory says whether a node could be allocated if one was needed. */
    method Find(name: Name, memory: bool) returns (idx: int)
      requires Valid()
      modifies this`use, records, tree, tree.Repr`left, tree.Repr`right, tree.Repr`parent, tree.Repr`color
      modifies list, list.Repr`next, list.Repr`prev
      ensures Valid() && fresh(list.Repr - old(list.Repr))
      ensures var es := old(Entries());
        if Lru.Find(es, name) == |es| && !memory then idx == -1 && Entries() == es
        else Entries() == Touch(es, max, name) && Entries()[|Entries()| - 1] == Entry(name, idx)
    {
      ghost var es := Entries();
      var found, parent, left;
      ghost var p;
      found, parent, left, p := Search(name);
      if found != null {
        Recent(found);
        ToEndLast(es, Lru.Find(es, name));
        return found.idx;
      }
      NotKnown(tree, list, IdxSnap(list.Repr), name, p);
      if !memory {
        return -1;
      }
      idx := AdmitNew(name, parent, left, p);
      TouchNew(es, max, name);
    }

    method AdmitNew(name: Name, parent: Node?, left: bool, ghost p: Path) returns (idx: int)
      requires Valid() && Reached(ByBytes, tree.shape, name, p, Leaf)
      requires parent == Above(p, null) && (p.Top? || left == p.LeftOf?)
      modifies this`use, records, tree, tree.Repr`left, tree.Repr`right, tree.Repr`parent, tree.Repr`color
      modifies list, list.Repr`next, list.Repr`prev
      ensures Valid() && fresh(list.Repr - old(list.Repr))
      ensures var es := old(Entries());
        && Lru.Find(es, name) == |es|
        && Entries() == Touch(es, max, name) && idx == Entries()[|Entries()| - 1].idx
    {
      ghost var es := Entries();
      var node := NewNode(name);
      idx := Admit(node, parent, left, p);
    }

    method NewNode(name: Name) returns (node: Node)
      requires Valid()
      ensures Valid() && Entries() == old(Entries()) && fresh(node) && node.name == name && list.Repr == old(list.Repr)
    {
      node := new Node(name, []);
    }

    /** The name that an address stands for; using it makes it recent. Only the host part counts. */
    method Lookup(ip: nat) returns (name: Option<Name>)
      requires Valid()
      modifies list, list.Repr`next, list.Repr`prev
      ensures Valid()
      ensures var es := old(Entries()); var k := FindIdx(es, ip % hosts);
        && name == (if k < |es| then Some(es[k].name) else None)
        && Entries() == Step(es, max, Use(ip % hosts))
    {
      var idx := ip % hosts;
      SlotKnown(idx);
      if idx >= max {
        return None;
      }
      var node := records[idx];
      if node == null {
        return None;
      }
      Recent(node);
      return Some(node.name);
    }

    /** A slot is filled exactly if its index is among the entries, and then with that entry's node. */
    lemma SlotKnown(idx: nat)
      requires Valid()
      ensures var es := Entries(); var k := FindIdx(es, idx);
        if idx >= max || records[idx] == null then k == |es|
        else records[idx] in tree.Repr && k < |es| && es[k].name == records[idx].name && Lru.Find(es, records[idx].name) == k
    {
      SlotEntry(tree, list, records[..], IdxSnap(list.Repr), use, idx);
      if idx < use { SameEntry(Entries(), records[idx].name, idx); }
    }

    // ----- answering a message -----

    /** The mapper is valid and its entries are es. */
    ghost predicate Holds(es: seq<Entry>)
      reads this, tree, list, records
      reads tree.Repr`left, tree.Repr`right, tree.Repr`parent, tree.Repr`color, list.Repr`next, list.Repr`prev, list.Repr`idx
    {
      forall k: nat :: Unsealed(k) ==> Valid() && Entries() == es
    }

    method FindHolds(name: Name, memory: bool, ghost es: seq<Entry>) returns (idx: int)
      requires Holds(es) && max > 0
      modifies this`use, records, tree, list.Repr`left, list.Repr`right, list.Repr`parent, list.Repr`color
      modifies list, list.Repr`next, list.Repr`prev
      ensures var r := Ask1(es, max, name, memory); idx == r.1 && Holds(r.0)
      ensures fresh(list.Repr - old(list.Repr))
    {
      assert Unsealed(0);
      idx := Find(name, memory);
    }

    /** One round of the question loop: next is behind the question, or -1 if it is malformed;
        idx is the index for its name, or -1 if there is nothing to answer. */
    method Question1(rb: array<byte>, at: nat, memory: bool, ghost es: seq<Entry>) returns (next: int, idx: int)
      requires Holds(es) && max > 0
      modifies rb, this`use, records, tree, list.Repr`left, list.Repr`right, list.Repr`parent, list.Repr`color
      modifies list, list.Repr`next, list.Repr`prev
      ensures fresh(list.Repr - old(list.Repr))
      ensures match QuestionAt(old(rb[..]), at)
        case Broken => next == -1 && Holds(es)
        case Good(question, end) =>
          var r := Round(es, max, question, memory);
          next == end && rb[next..] == old(rb[..])[next..] && idx == r.1 && Holds(r.0)
    {
      ghost var q := rb[..];
      var off := ReadName(rb, at);
      if off == -1 || off + 3 >= rb.Length {
        return -1, -1;
      }
      NameWritten(q, rb[..], at);
      next, idx := off + 4, -1;
      if U16(rb[..], off) == 1 && U16(rb[..], off + 2) == 1 {
        var name := CStringAt(rb, at + 1);
        ghost var b := rb[..];
        idx := FindHolds(name, memory, es);
        assert rb[..] == b;
      }
    }

    /** One round with its entries in the two tables. */
    method Question2(rb: array<byte>, at: nat, memory: bool, ipo: array<int>, ips: array<int>, ipn: nat,
                     ghost es: seq<Entry>, ghost answers: seq<Answer>)
      returns (next: int, ipn': nat)
      requires Holds(es) && max > 0
      requires ipn == |answers| < ipo.Length && ipn < ips.Length && ipo != ips && Tabled(answers, net, ipo, ips)
      modifies rb, ipo, ips, this`use, records, tree, list.Repr`left, list.Repr`right, list.Repr`parent, list.Repr`color
      modifies list, list.Repr`next, list.Repr`prev
      ensures fresh(list.Repr - old(list.Repr))
      ensures match QuestionAt(old(rb[..]), at)
        case Broken => next == -1 && Holds(es)
        case Good(question, end) =>
          var r := Round(es, max, question, memory);
          && next == end && rb[next..] == old(rb[..])[next..] && Holds(r.0)
          && ipn' == |answers + One(question, r.1)| && Tabled(answers + One(question, r.1), net, ipo, ips)
    {
      ipo[ipn] := at;
      var idx;
      next, idx := Question1(rb, at, memory, es);
      ipn' := Enter(ipo, ips, ipn, idx, answers);
    }

    /** The address for idx goes into its table, if there is one. */
    method Enter(ipo: array<int>, ips: array<int>, ipn: nat, idx: int, ghost answers: seq<Answer>) returns (ipn': nat)
      requires ipn == |answers| < ipo.Length && ipn < ips.Length && ipo != ips && Tabled(answers, net, ipo, ips)
      modifies ips
      ensures ipn' == if idx >= 0 then ipn + 1 else ipn
      ensures forall question: Question {:trigger One(question, idx)} | question.at == ipo[ipn] ::
        Tabled(answers + One(question, idx), net, ipo, ips)
    {
      ipn' := ipn;
      if idx >= 0 {
        ips[ipn] := net + idx;
        ipn' := ipn + 1;
      }
    }

    /** The question loop: the index for every wanted question goes into the two tables. */
    method Questions(rb: array<byte>, n: nat, memory: seq<bool>, ipo: array<int>, ips: array<int>, ghost q: seq<byte>,
                     ghost es: seq<Entry>)
      returns (off: int, ipn: nat, ghost now: seq<Entry>, ghost answers: seq<Answer>)
      requires Holds(es) && max > 0 && HEADER <= |q| == rb.Length && rb[HEADER..] == q[HEADER..]
      requires n <= |memory| && n <= ipo.Length && n <= ips.Length && ipo != ips
      modifies rb, ipo, ips, this`use, records, tree, list.Repr`left, list.Repr`right, list.Repr`parent, list.Repr`color
      modifies list, list.Repr`next, list.Repr`prev
      ensures fresh(list.Repr - old(list.Repr))
      ensures Outcome(es, max, q, n, memory, now, answers, off) && Holds(now)
      ensures off != -1 ==> ipn == |answers| && Tabled(answers, net, ipo, ips)
    {
      now, answers := es, [];
      off, ipn := HEADER, 0;
      QuestionsBegin(rb, n, memory, ipo, ips, q, es);
      var i := 0;
      while i < n
        invariant 0 <= i <= n && off != -1 && fresh(list.Repr - old(list.Repr))
        invariant Asking(rb, off, memory, i, ipo, ips, ipn, q, n, es, now, answers)
      {
        assert i < |memory|;
        off, ipn, now, answers := Question4(rb, off, memory, i, ipo, ips, ipn, q, n, es, now, answers);
        if off == -1 {
          return;
        }
        i := i + 1;
      }
      QuestionsEnd(rb, off, memory, n, ipo, ips, ipn, q, es, now, answers);
    }

    /** The state of the question loop after i rounds. */
    ghost predicate Asking(rb: array<byte>, off: int, memory: seq<bool>, i: nat, ipo: array<int>, ips: array<int>, ipn: nat,
                           q: seq<byte>, n: nat, es: seq<Entry>, now: seq<Entry>, answers: seq<Answer>)
      reads this, tree, list, records, rb, ipo, ips
      reads tree.Repr`left, tree.Repr`right, tree.Repr`parent, tree.Repr`color, list.Repr`next, list.Repr`prev, list.Repr`idx
    {
      forall k: nat :: Unsealed(k) ==>
        max > 0 && ipn == |answers| <= i <= n <= |memory| && n <= ipo.Length && n <= ips.Length && ipo != ips
        && Holds(now) && Rounds(es, max, q, rb[..], n, memory, now, answers, off, i) && Tabled(answers, net, ipo, ips)
    }

    lemma QuestionsBegin(rb: array<byte>, n: nat, memory: seq<bool>, ipo: array<int>, ips: array<int>, q: seq<byte>,
                         es: seq<Entry>)
      requires Holds(es) && max > 0 && HEADER <= |q| == rb.Length && rb[HEADER..] == q[HEADER..]
      requires n <= |memory| && n <= ipo.Length && n <= ips.Length && ipo != ips
      ensures Asking(rb, HEADER, memory, 0, ipo, ips, 0, q, n, es, es, [])
    {
      RoundsBegin(es, max, q, rb[..], n, memory);
    }

    lemma QuestionsEnd(rb: array<byte>, off: int, memory: seq<bool>, n: nat, ipo: array<int>, ips: array<int>, ipn: nat,
                       q: seq<byte>, es: seq<Entry>, now: seq<Entry>, answers: seq<Answer>)
      requires Asking(rb, off, memory, n, ipo, ips, ipn, q, n, es, now, answers)
      ensures max > 0 && Outcome(es, max, q, n, memory, now, answers, off) && Holds(now) && ipn == |answers|
      ensures Tabled(answers, net, ipo, ips)
    {
      assert Unsealed(0);
      RoundsEnd(es, max, q, rb[..], n, memory, now, answers, off);
    }

    method Question4(rb: array<byte>, at: int, memory: seq<bool>, i: nat, ipo: array<int>, ips: array<int>, ipn: nat,
                     ghost q: seq<byte>, ghost n: nat, ghost es: seq<Entry>, ghost now: seq<Entry>,
                     ghost answers: seq<Answer>)
      returns (next: int, ipn': nat, ghost now': seq<Entry>, ghost answers': seq<Answer>)
      requires at != -1 && max > 0 && i < n <= |memory|
      requires Asking(rb, at, memory, i, ipo, ips, ipn, q, n, es, now, answers)
      modifies rb, ipo, ips, this`use, records, tree, list.Repr`left, list.Repr`right, list.Repr`parent, list.Repr`color
      modifies list, list.Repr`next, list.Repr`prev
      ensures fresh(list.Repr - old(list.Repr))
      ensures next == -1 ==> Outcome(es, max, q, n, memory, now', answers', -1) && Holds(now')
      ensures next != -1 ==> Asking(rb, next, memory, i + 1, ipo, ips, ipn', q, n, es, now', answers')
    {
      assert Unsealed(0);
      next, ipn', now', answers' := Question3(rb, at, memory, i, ipo, ips, ipn, q, n, es, now, answers);
    }

    /** One round, seen from the start of the loop. */
    method Question3(rb: array<byte>, at: int, memory: seq<bool>, i: nat, ipo: array<int>, ips: array<int>, ipn: nat,
                     ghost q: seq<byte>, ghost n: nat, ghost es: seq<Entry>, ghost now: seq<Entry>,
                     ghost answers: seq<Answer>)
      returns (next: int, ipn': nat, ghost now': seq<Entry>, ghost answers': seq<Answer>)
      requires Holds(now) && max > 0 && i < n <= |memory| && at != -1
      requires Rounds(es, max, q, rb[..], n, memory, now, answers, at, i)
      requires ipn == |answers| < ipo.Length && ipn < ips.Length && ipo != ips && Tabled(answers, net, ipo, ips)
      modifies rb, ipo, ips, this`use, records, tree, list.Repr`left, list.Repr`right, list.Repr`parent, list.Repr`color
      modifies list, list.Repr`next, list.Repr`prev
      ensures fresh(list.Repr - old(list.Repr)) && Holds(now')
      ensures next == -1 ==> Outcome(es, max, q, n, memory, now', answers', -1)
      ensures next != -1 ==>
        && Rounds(es, max, q, rb[..], n, memory, now', answers', next, i + 1)
        && ipn' == |answers'| <= ipn + 1 && Tabled(answers', net, ipo, ips)
    {
      ghost var was := rb[..];
      RoundStarts(es, max, q, was, n, memory, now, answers, at, i);
      next, ipn' := Question2(rb, at, memory[i], ipo, ips, ipn, now, answers);
      now', answers' := now, answers;
      if next != -1 {
        ghost var question := QuestionAt(was, at).question;
        ghost var r := Round(now, max, question, memory[i]);
        now', answers' := r.0, answers + One(question, r.1);
        RoundGoesOn(es, max, q, was, rb[..], n, memory, now, answers, at, i);
      }
    }

    /** The question loop with its two local tables. */
    method Tables(rb: array<byte>, qd: nat, memory: seq<bool>, ghost q: seq<byte>, ghost es: seq<Entry>)
      returns (off: int, ipn: nat, ipo: array<int>, ips: array<int>, ghost now: seq<Entry>, ghost answers: seq<Answer>)
      requires Holds(es) && max > 0 && HEADER <= |q| == rb.Length && rb[HEADER..] == q[HEADER..]
      requires qd <= MAX_QUESTIONS <= |memory|
      modifies rb, this`use, records, tree, list.Repr`left, list.Repr`right, list.Repr`parent, list.Repr`color
      modifies list, list.Repr`next, list.Repr`prev
      ensures Holds(now) && Outcome(es, max, q, qd, memory, now, answers, off)
      ensures off != -1 ==> ipn == |answers| && Tabled(answers, net, ipo, ips)
    {
      ipo, ips := new int[MAX_QUESTIONS], new int[MAX_QUESTIONS];
      off, ipn, now, answers := Questions(rb, qd, memory, ipo, ips, q, es);
    }

    /** The work on an accepted header. */
    method Answers(rb: array<byte>, sb: array<byte>, qd: nat, memory: seq<bool>, ghost q: seq<byte>, ghost es: seq<Entry>)
      returns (r: int, ghost end: int, ghost now: seq<Entry>, ghost answers: seq<Answer>)
      requires Holds(es) && max > 0 && HEADER <= |q| == rb.Length <= sb.Length && rb[HEADER..] == q[HEADER..]
      requires rb != sb
      requires sb[..HEADER] == Unfinished(q) && sb[HEADER..|q|] == q[HEADER..]
      requires qd == U16(q, 4) <= MAX_QUESTIONS <= |memory|
      modifies rb, sb, this`use, records, tree, list.Repr`left, list.Repr`right, list.Repr`parent, list.Repr`color
      modifies list, list.Repr`next, list.Repr`prev
      ensures Holds(now) && Outcome(es, max, q, qd, memory, now, answers, end)
      ensures end == -1 ==> r == -1
      ensures end != -1 ==>
        && HEADER <= end <= |q| && (forall i | 0 <= i < |answers| :: answers[i].idx >= 0)
        && if end + 16 * |answers| <= sb.Length then r == end + 16 * |answers| && sb[..r] == Reply(q, end, answers, net) else r == -1
    {
      var off, ipn, ipo, ips;
      off, ipn, ipo, ips, now, answers := Tables(rb, qd, memory, q, es);
      end := off;
      OutcomeEnd(es, max, q, qd, memory, now, answers, end);
      if off == -1 {
        return -1, end, now, answers;
      }
      r := Complete(sb, off, ipo, ips, ipn, answers, net, q);
    }

    /** Answers a message: the wanted questions get addresses from the cache, and the reply carries
        the questions as they came. memory says for each question whether a node could be allocated. */
    method Handle(req: array<byte>, res: array<byte>, memory: seq<bool>) returns (r: int)
      requires Valid() && req != res && |memory| >= MAX_QUESTIONS
      modifies req, res, this`use, records, tree, list.Repr`left, list.Repr`right, list.Repr`parent, list.Repr`color
      modifies list, list.Repr`next, list.Repr`prev
      ensures Valid()
      ensures var a := Respond(old(req[..]), res.Length, old(Entries()), max, net, memory);
        && Entries() == a.0
        && match a.1 case Rejected => r == -1 case Sent(bytes) => r == |bytes| <= res.Length && res[..r] == bytes
    {
      ghost var es := Entries();
      r := HandleHolds(req, res, memory, es);
      assert Unsealed(0);
    }

    method HandleHolds(req: array<byte>, res: array<byte>, memory: seq<bool>, ghost es: seq<Entry>) returns (r: int)
      requires Holds(es) && max > 0 && req != res && |memory| >= MAX_QUESTIONS
      modifies req, res, this`use, records, tree, list.Repr`left, list.Repr`right, list.Repr`parent, list.Repr`color
      modifies list, list.Repr`next, list.Repr`prev
      ensures var a := Respond(old(req[..]), res.Length, es, max, net, memory);
        Holds(a.0) && match a.1 case Rejected => r == -1 case Sent(bytes) => r == |bytes| <= res.Length && res[..r] == bytes
    {
      ghost var q := req[..];
      if res.Length < req.Length || req.Length < HEADER {
        return -1;
      }
      var qd := CopyRequest(req, res);
      if qd > MAX_QUESTIONS {
        return -1;
      }
      ghost var end, now, answers;
      r, end, now, answers := Answers(req, res, qd, memory, q, es);
      Responded(q, res.Length, es, max, net, memory, now, answers, end);
    }
  }

  /** After the walk the two fields behind the name are intact and the name can be read. */
  lemma {:induction false} NameWritten(q: seq<byte>, rb: seq<byte>, at: nat)
    requires NameEnd(q, at) != -1 && NameEnd(q, at) + 3 < |q|
    requires rb == q[..at] + Dotted(q, at) + q[NameEnd(q, at) - 1..]
    ensures var e := NameEnd(q, at);
      && at + 1 < |rb| == |q| && rb[e + 4..] == q[e + 4..] && U16(rb, e) == U16(q, e) && U16(rb, e + 2) == U16(q, e + 2)
      && (U16(q, e) == 1 ==> CString(rb[at + 1..]) == NameAt(q, at))
  {
    DottedLength(q, at);
    if U16(q, NameEnd(q, at)) == 1 { NameSeen(q, rb, at); }
  }

  lemma RecentEntries(tree: HevRBTree, list: HevList, ix: Indices, node: Node)
    requires tree.Valid() && Descending(ByBytes, tree.Sequence()) && list.Valid() && tree.Repr == list.Repr == ix.Keys
    requires node in ix
    ensures var es := EntriesOf(list.items, ix); var k := Lru.Find(es, node.name);
      k < |es| && es[k] == Entry(node.name, ix[node]) && EntriesOf(Without(list.items, node) + [node], ix) == ToEnd(es, k)
    ensures |Without(list.items, node) + [node]| == |list.items|
  {
    WholeHas(ListSnap(list.Repr), list.items, list.head, list.tail);
    var s := list.items;
    Same(tree, list, ix);
    var x, y := WithoutIn(s, node);
    DescendingDistinct(ByBytes, tree.Sequence());
    Among(tree.Sequence(), x, node, y, ix);
    MovedEntries(x, node, y, ix);
    assert s[|x|] == node;
    EntryAt(s, ix, |x|);
  }

  /** A tree and a list over the same set of nodes. */
  lemma Same(tree: HevRBTree, list: HevList, ix: Indices)
    requires tree.Valid() && list.Valid() && tree.Repr == list.Repr == ix.Keys
    ensures SameNodes(tree.Sequence(), list.items, ix)
  {
    WholeHas(ListSnap(list.Repr), list.items, list.head, list.tail);
    forall n | n in ix ensures n in tree.Sequence() {
      InInorder(tree.shape, n);
    }
    forall n | n in tree.Sequence() ensures n in ix {
      InInorder(tree.shape, n);
    }
  }

  lemma NotKnown(tree: HevRBTree, list: HevList, ix: Indices, name: Name, p: Path)
    requires tree.Valid() && Descending(ByBytes, tree.Sequence()) && list.Valid() && tree.Repr == list.Repr == ix.Keys
    requires Reached(ByBytes, tree.shape, name, p, Leaf)
    ensures Lru.Find(EntriesOf(list.items, ix), name) == |list.items|
    ensures forall n | n in list.items :: n in ix
    ensures Unique(list.items)
  {
    WholeHas(ListSnap(list.Repr), list.items, list.head, list.tail);
    Same(tree, list, ix);
    DescentEnds(ByBytes, tree.shape, name, p);
    DescendingDistinct(ByBytes, tree.Sequence());
    NotAmong(tree.Sequence(), list.items, ix, name);
  }

  lemma SlotAdded(rs: seq<Node?>, ix: Indices, use: nat, n: Node)
    requires Slotted(rs, ix, use) && use < |rs| && n !in ix
    ensures Slotted(rs[use := n], ix[n := use], use + 1)
  {}

  lemma SlotTaken(rs: seq<Node?>, ix: Indices, use: nat, nf: Node, n: Node)
    requires Slotted(rs, ix, use) && nf in ix && n !in ix
    ensures 0 <= ix[nf] < use && Slotted(rs[ix[nf] := n], (ix - {nf})[n := ix[nf]], use)
  {}

  lemma FreshEntries(s: seq<Node>, ix: Indices, n: Node, idx: int)
    requires n !in ix && forall k | k in s :: k in ix
    ensures EntriesOf(s + [n], ix[n := idx]) == EntriesOf(s, ix) + [Entry(n.name, idx)]
  {
    EntriesConcat(s, [n], ix[n := idx]);
    EntriesKept(s, ix, ix[n := idx]);
  }

  /** When the cache is full the least recent node gives its index to the new one. */
  lemma EvictedEntries(s: seq<Node>, ix: Indices, nf: Node, n: Node)
    requires s != [] && s[0] == nf && n !in ix && Unique(s) && forall k | k in s :: k in ix
    ensures nf !in s[1..] && Without(s + [n], nf) == s[1..] + [n]
    ensures EntriesOf(s[1..] + [n], (ix - {nf})[n := ix[nf]]) == EntriesOf(s, ix)[1..] + [Entry(n.name, ix[nf])]
    ensures EntriesOf(s, ix)[0].idx == ix[nf]
  {
    var ix' := (ix - {nf})[n := ix[nf]];
    assert s + [n] == [nf] + (s[1..] + [n]);
    EntriesConcat(s[1..], [n], ix');
    EntriesKept(s[1..], ix, ix');
  }

  /** A full cache has a least recent node, and it stays at the head when a new one is appended. */
  lemma FullHead(list: HevList, s: seq<Node>, rs: seq<Node?>, ix: Indices, use: nat, n: Node)
    requires list.Valid() && list.items == s + [n] && |s| == use && use > 0 && (forall k | k in s :: k in ix)
    requires list.Repr == ix.Keys + {n} && Slotted(rs, ix, use)
    ensures s[0] in s && list.head == s[0] && s[0] in ix && 0 <= ix[s[0]] < use
  {
    WholeHas(ListSnap(list.Repr), list.items, list.head, list.tail);
  }

  lemma NextSlot(rs: seq<Node?>, s: seq<Node>, ix: Indices, use: nat, n: Node, i0: int)
    requires Slotted(rs, ix, use) && use < |rs| && n !in ix && forall k | k in s :: k in ix
    ensures var ix' := ix[n := i0][n := use];
      Slotted(rs[use := n], ix', use + 1) && EntriesOf(s + [n], ix') == EntriesOf(s, ix) + [Entry(n.name, use)]
  {
    assert ix[n := i0][n := use] == ix[n := use];
    SlotAdded(rs, ix, use, n);
    FreshEntries(s, ix, n, use);
  }

  lemma FirstSlot(rs: seq<Node?>, s: seq<Node>, ix: Indices, use: nat, nf: Node, n: Node, i0: int)
    requires Slotted(rs, ix, use) && n !in ix && s != [] && s[0] == nf && Unique(s) && forall k | k in s :: k in ix
    ensures n != nf && 0 <= ix[nf] < use && EntriesOf(s, ix)[0].idx == ix[nf]
    ensures var ix', s' := (ix[n := i0] - {nf})[n := ix[nf]], Without(s + [n], nf);
      && Slotted(rs[ix[nf] := n], ix', use) && |s'| == |s|
      && EntriesOf(s', ix') == EntriesOf(s, ix)[1..] + [Entry(n.name, ix[nf])]
  {
    assert (ix[n := i0] - {nf})[n := ix[nf]] == (ix - {nf})[n := ix[nf]];
    SlotTaken(rs, ix, use, nf, n);
    EvictedEntries(s, ix, nf, n);
  }

  /** Every entry is its node's, and no two agree in name or index. */
  lemma EntriesDistinct(tree: HevRBTree, list: HevList, rs: seq<Node?>, ix: Indices, use: nat)
    requires tree.Valid() && Descending(ByBytes, tree.Sequence()) && list.Valid() && tree.Repr == list.Repr == ix.Keys
    requires Slotted(rs, ix, use)
    ensures var s, es := list.items, EntriesOf(list.items, ix);
      && (forall i | 0 <= i < |es| :: s[i] in ix && es[i] == Entry(s[i].name, ix[s[i]]))
      && (forall i, j | 0 <= i < j < |es| :: es[i].idx != es[j].idx && es[i].name != es[j].name)
  {
    WholeHas(ListSnap(list.Repr), list.items, list.head, list.tail);
    var s, es := list.items, EntriesOf(list.items, ix);
    Same(tree, list, ix);
    DescendingDistinct(ByBytes, tree.Sequence());
    forall i | 0 <= i < |es| ensures s[i] in ix && es[i] == Entry(s[i].name, ix[s[i]]) {
      assert s[i] in s;
      EntryAt(s, ix, i);
    }
    forall i, j | 0 <= i < j < |es| ensures es[i].idx != es[j].idx && es[i].name != es[j].name {
      UniqueAt(s, i, j);
      if es[i].name == es[j].name { SameNode(tree.Sequence(), s[i], s[j]); }
    }
  }

  /** A used slot has its entry, and only the used slots have one. */
  lemma SlotEntry(tree: HevRBTree, list: HevList, rs: seq<Node?>, ix: Indices, use: nat, idx: nat)
    requires tree.Valid() && Descending(ByBytes, tree.Sequence()) && list.Valid() && tree.Repr == list.Repr == ix.Keys
    requires Slotted(rs, ix, use)
    ensures var es := EntriesOf(list.items, ix); var k := FindIdx(es, idx);
      && (idx < use ==> k < |es| && rs[idx] != null && rs[idx] in ix && es[k].name == rs[idx].name)
      && (idx >= use ==> k == |es|)
      && (forall i, j | 0 <= i < j < |es| :: es[i].idx != es[j].idx && es[i].name != es[j].name)
  {
    WholeHas(ListSnap(list.Repr), list.items, list.head, list.tail);
    EntriesDistinct(tree, list, rs, ix, use);
    SlotFound(list.items, rs, ix, use, idx);
  }

  lemma SlotFound(s: seq<Node>, rs: seq<Node?>, ix: Indices, use: nat, idx: nat)
    requires Slotted(rs, ix, use) && (forall n | n in ix :: n in s) && forall i | 0 <= i < |s| :: s[i] in ix
    requires forall i | 0 <= i < |s| :: EntriesOf(s, ix)[i] == Entry(s[i].name, ix[s[i]])
    ensures var es := EntriesOf(s, ix); var k := FindIdx(es, idx);
      && (idx < use ==> k < |es| && rs[idx] != null && rs[idx] in ix && es[k].name == rs[idx].name)
      && (idx >= use ==> k == |es|)
  {
    var es := EntriesOf(s, ix);
    if idx < use {
      assert rs[idx] in s;
      var j :| 0 <= j < |s| && s[j] == rs[idx];
      assert es[j].idx == idx;
    }
    var k := FindIdx(es, idx);
    assert k < |es| ==> ix[s[k]] == idx;
  }

  lemma {:induction false} UniqueAt(s: seq<Node>, i: nat, j: nat)
    requires Unique(s) && i < j < |s|
    ensures s[i] != s[j]
  {
    if i > 0 { UniqueAt(s[1..], i - 1, j - 1); } else { assert s[j] == s[1..][j - 1]; }
  }

  lemma SameEntry(es: seq<Entry>, name: Name, idx: int)
    requires forall i, j | 0 <= i < j < |es| :: es[i].idx != es[j].idx && es[i].name != es[j].name
    requires var k := FindIdx(es, idx); k < |es| && es[k].name == name
    ensures Lru.Find(es, name) == FindIdx(es, idx)
  {}

  lemma ToEndLast(es: seq<Entry>, k: nat)
    requires k < |es|
    ensures var z := ToEnd(es, k); z != [] && z[|z| - 1] == es[k]
  {}

  /** The cache of a mapper meets what the run lemmas of Lru ask for. */
  lemma EntriesFine(d: HevMappedDNS)
    requires d.Valid()
    ensures Fine(d.Entries(), d.max)
  {
    EntriesDistinct(d.tree, d.list, d.records[..], IdxSnap(d.list.Repr), d.use);
  }
}
