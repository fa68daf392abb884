/** NGINX's cache zone, as far as invalidating one of its nodes goes. */
module CacheZone {
  import opened Types
  import opened NodeKey

  /** One node as a value. */
  datatype CacheEntry = CacheEntry(key: CacheKey, present: bool, fsSize: nat)

  class CacheNode {
    const word: nat
    const rest: Bytes
    ghost const key: CacheKey
    var left: CacheNode?
    var right: CacheNode?
    var present: bool
    var fsSize: nat

    constructor (arch: Arch, key: CacheKey, left: CacheNode?, right: CacheNode?, present: bool, fsSize: nat)
      requires arch.Valid()
      ensures Encodes(arch) && this.key == key
      ensures this.left == left && this.right == right && this.present == present && this.fsSize == fsSize
    {
      word, rest, this.key := WordOf(arch, key), RestOf(arch, key), key;
      this.left, this.right, this.present, this.fsSize := left, right, present, fsSize;
    }

    method Clear()
      modifies `present, `fsSize
      ensures !present && fsSize == 0
    {
      fsSize := 0;
      present := false;
    }

    ghost predicate Encodes(arch: Arch)
      requires arch.Valid()
    {
      word == WordOf(arch, key) && rest == RestOf(arch, key)
    }
  }

  /** The shape of a tree of nodes. */
  datatype Tree = Leaf | Branch(left: Tree, node: CacheNode, right: Tree)

  ghost function Nodes(t: Tree): set<CacheNode> {
    match t
    case Leaf => {}
    case Branch(l, n, r) => Nodes(l) + {n} + Nodes(r)
  }

  /** The links at and below `at` have the shape `t`, empty subtrees being the sentinel. */
  ghost predicate Stands(t: Tree, at: CacheNode?, sentinel: CacheNode)
    reads Nodes(t)`left, Nodes(t)`right
  {
    match t
    case Leaf => at == sentinel
    case Branch(l, n, r) => at == n && n != sentinel && Stands(l, n.left, sentinel) && Stands(r, n.right, sentinel)
  }

  /** Every node is coded for the host and stands between its subtrees. */
  ghost predicate Ordered(t: Tree, arch: Arch)
    requires arch.Valid()
  {
    match t
    case Leaf => true
    case Branch(l, n, r) =>
      && n.Encodes(arch)
      && (forall m :: m in Nodes(l) ==> NodeLess(arch, m.key, n.key))
      && (forall m :: m in Nodes(r) ==> NodeLess(arch, n.key, m.key))
      && Ordered(l, arch)
      && Ordered(r, arch)
  }

  /** The nodes of a tree in order. */
  ghost function Entries(t: Tree): seq<CacheEntry>
    reads Nodes(t)`present, Nodes(t)`fsSize
  {
    match t
    case Leaf => []
    case Branch(l, n, r) => Entries(l) + [CacheEntry(n.key, n.present, n.fsSize)] + Entries(r)
  }

  // ----- invalidation on values -----

  function LiveSize(es: seq<CacheEntry>): nat {
    if es == [] then 0 else (if es[0].present then es[0].fsSize else 0) + LiveSize(es[1..])
  }

  predicate IsLive(es: seq<CacheEntry>, key: CacheKey) {
    exists i :: 0 <= i < |es| && es[i].key == key && es[i].present
  }

  function ClearedEntry(e: CacheEntry, key: CacheKey): CacheEntry {
    if e.key == key && e.present then CacheEntry(key, false, 0) else e
  }

  /** The same nodes with any live one for `key` no longer present. */
  function Cleared(es: seq<CacheEntry>, key: CacheKey): (r: seq<CacheEntry>)
    ensures |r| == |es|
    ensures forall i :: 0 <= i < |es| ==> r[i] == ClearedEntry(es[i], key)
  {
    if es == [] then [] else [ClearedEntry(es[0], key)] + Cleared(es[1..], key)
  }

  function ClearedAll(es: seq<CacheEntry>, keys: seq<CacheKey>): seq<CacheEntry>
    decreases keys
  {
    if keys == [] then es else ClearedAll(Cleared(es, keys[0]), keys[1..])
  }

  lemma {:induction false} LiveSizeConcat(a: seq<CacheEntry>, b: seq<CacheEntry>)
    ensures LiveSize(a + b) == LiveSize(a) + LiveSize(b)
  {
    if a == [] {
      assert a + b == b;
    } else {
      assert (a + b)[1..] == a[1..] + b;
      LiveSizeConcat(a[1..], b);
    }
  }

  lemma ClearedConcat(a: seq<CacheEntry>, b: seq<CacheEntry>, key: CacheKey)
    ensures Cleared(a + b, key) == Cleared(a, key) + Cleared(b, key)
  {
  }

  /** Clearing is idempotent and leaves the key dead and every other key as live as it was. */
  lemma ClearedTwice(es: seq<CacheEntry>, key: CacheKey, other: CacheKey)
    ensures Cleared(Cleared(es, key), key) == Cleared(es, key)
    ensures !IsLive(Cleared(es, key), key)
    ensures !IsLive(es, key) ==> Cleared(es, key) == es
    ensures other != key ==> IsLive(Cleared(es, key), other) == IsLive(es, other)
  {
    var c := Cleared(es, key);
    if other != key && IsLive(es, other) {
      var i :| 0 <= i < |es| && es[i].key == other && es[i].present;
      assert c[i] == es[i];
    }
    if other != key && IsLive(c, other) {
      var i :| 0 <= i < |c| && c[i].key == other && c[i].present;
      assert c[i] == es[i];
    }
  }

  /** After clearing several keys each of them is dead, all others are as before, and keys and order stay. */
  lemma {:induction false} ClearedAllLives(es: seq<CacheEntry>, keys: seq<CacheKey>, key: CacheKey)
    ensures IsLive(ClearedAll(es, keys), key) <==> IsLive(es, key) && key !in keys
    ensures |ClearedAll(es, keys)| == |es|
    ensures forall i :: 0 <= i < |es| ==>
              ClearedAll(es, keys)[i] == if es[i].key in keys then ClearedEntry(es[i], es[i].key) else es[i]
    decreases keys
  {
    if keys != [] {
      var c := Cleared(es, keys[0]);
      ClearedAllLives(c, keys[1..], key);
      ClearedTwice(es, keys[0], key);
      assert keys == [keys[0]] + keys[1..];
    }
  }

  lemma {:induction false} ClearedAllSnoc(es: seq<CacheEntry>, keys: seq<CacheKey>, key: CacheKey)
    ensures ClearedAll(es, keys + [key]) == Cleared(ClearedAll(es, keys), key)
    decreases keys
  {
    if keys == [] {
      assert [key][1..] == [];
    } else {
      assert (keys + [key])[1..] == keys[1..] + [key];
      ClearedAllSnoc(Cleared(es, keys[0]), keys[1..], key);
    }
  }

  // ----- the tree and its entries -----

  lemma {:induction false} LiveNode(t: Tree, key: CacheKey)
    ensures IsLive(Entries(t), key) <==> exists m :: m in Nodes(t) && m.key == key && m.present
  {
    match t
    case Leaf =>
    case Branch(l, n, r) =>
      LiveNode(l, key);
      LiveNode(r, key);
      IsLiveConcat(Entries(l) + [CacheEntry(n.key, n.present, n.fsSize)], Entries(r), key);
      IsLiveConcat(Entries(l), [CacheEntry(n.key, n.present, n.fsSize)], key);
      assert [CacheEntry(n.key, n.present, n.fsSize)][0].key == n.key;
  }

  lemma IsLiveConcat(a: seq<CacheEntry>, b: seq<CacheEntry>, key: CacheKey)
    ensures IsLive(a + b, key) <==> IsLive(a, key) || IsLive(b, key)
  {
    if IsLive(a, key) {
      var i :| 0 <= i < |a| && a[i].key == key && a[i].present;
      assert (a + b)[i] == a[i];
    }
    if IsLive(b, key) {
      var i :| 0 <= i < |b| && b[i].key == key && b[i].present;
      assert (a + b)[|a| + i] == b[i];
    }
  }

  /** A key's node lies on the side of the root its order says, and nowhere else. */
  lemma Descend(t: Tree, arch: Arch, key: CacheKey)
    requires arch.Valid() && t.Branch? && Ordered(t, arch)
    ensures NodeLess(arch, key, t.node.key) ==> forall m :: m in Nodes(t) && m.key == key ==> m in Nodes(t.left)
    ensures NodeLess(arch, t.node.key, key) ==> forall m :: m in Nodes(t) && m.key == key ==> m in Nodes(t.right)
    ensures t.node.key == key ==> forall m :: m in Nodes(t) && m.key == key ==> m == t.node
    ensures t.node !in Nodes(t.left) && t.node !in Nodes(t.right)
  {
    NodeOrderTotal(arch, key, t.node.key);
    NodeOrderTotal(arch, t.node.key, t.node.key);
  }

  /** Clearing the one live node of a key takes exactly its size off the total. */
  lemma {:induction false} ClearingSubtracts(t: Tree, arch: Arch, n: CacheNode)
    requires arch.Valid() && Ordered(t, arch) && n in Nodes(t) && n.present
    requires forall m :: m in Nodes(t) && m.key == n.key ==> m == n
    ensures LiveSize(Cleared(Entries(t), n.key)) + n.fsSize == LiveSize(Entries(t))
  {
    var l, at, r := t.left, t.node, t.right;
    var here := [CacheEntry(at.key, at.present, at.fsSize)];
    ClearedConcat(Entries(l) + here, Entries(r), n.key);
    ClearedConcat(Entries(l), here, n.key);
    LiveSizeConcat(Entries(l) + here, Entries(r));
    LiveSizeConcat(Entries(l), here);
    LiveSizeConcat(Cleared(Entries(l), n.key) + Cleared(here, n.key), Cleared(Entries(r), n.key));
    LiveSizeConcat(Cleared(Entries(l), n.key), Cleared(here, n.key));
    Descend(t, arch, n.key);
    NodeOrderTotal(arch, n.key, at.key);
    Untouched(l, n);
    Untouched(r, n);
    if n in Nodes(l) { ClearingSubtracts(l, arch, n); }
    if n in Nodes(r) { ClearingSubtracts(r, arch, n); }
  }

  lemma Untouched(t: Tree, n: CacheNode)
    requires forall m :: m in Nodes(t) && m.key == n.key ==> m == n
    ensures n !in Nodes(t) ==> Cleared(Entries(t), n.key) == Entries(t)
  {
    LiveNode(t, n.key);
    ClearedTwice(Entries(t), n.key, n.key);
  }

  /** The mutable part of each node, at some moment. */
  datatype Mark = Mark(present: bool, fsSize: nat)

  ghost function Marked(t: Tree, marks: map<CacheNode, Mark>): seq<CacheEntry>
    requires Nodes(t) <= marks.Keys
  {
    match t
    case Leaf => []
    case Branch(l, n, r) => Marked(l, marks) + [CacheEntry(n.key, marks[n].present, marks[n].fsSize)] + Marked(r, marks)
  }

  lemma {:induction false} EntriesAreMarked(t: Tree, marks: map<CacheNode, Mark>)
    requires forall n :: n in Nodes(t) ==> n in marks && marks[n] == Mark(n.present, n.fsSize)
    ensures Entries(t) == Marked(t, marks)
  {
    if t.Branch? {
      EntriesAreMarked(t.left, marks);
      EntriesAreMarked(t.right, marks);
    }
  }

  /** If each node changed as clearing says, so did the entries. */
  lemma {:induction false} MarkedCleared(t: Tree, before: map<CacheNode, Mark>, after: map<CacheNode, Mark>,
                                         key: CacheKey)
    requires Nodes(t) <= before.Keys && Nodes(t) <= after.Keys
    requires forall n :: n in Nodes(t) ==>
               after[n] == if n.key == key && before[n].present then Mark(false, 0) else before[n]
    ensures Marked(t, after) == Cleared(Marked(t, before), key)
  {
    if t.Branch? {
      var n := t.node;
      MarkedCleared(t.left, before, after, key);
      MarkedCleared(t.right, before, after, key);
      ClearedBranch(Marked(t.left, before), CacheEntry(n.key, before[n].present, before[n].fsSize), Marked(t.right, before), key);
    }
  }

  /** What the nodes must become for the one live node of a key to be retired. */
  lemma PlanRetiring(t: Tree, arch: Arch, node: CacheNode) returns (after: map<CacheNode, Mark>)
    requires arch.Valid() && Ordered(t, arch) && node in Nodes(t) && node.present
    requires forall m :: m in Nodes(t) && m.key == node.key ==> m == node
    ensures forall n :: n in Nodes(t) ==>
              n in after && after[n] == if n == node then Mark(false, 0) else Mark(n.present, n.fsSize)
    ensures Marked(t, after) == Cleared(Entries(t), node.key)
    ensures LiveSize(Marked(t, after)) + node.fsSize == LiveSize(Entries(t))
  {
    var before := map n | n in Nodes(t) :: Mark(n.present, n.fsSize);
    after := before[node := Mark(false, 0)];
    EntriesAreMarked(t, before);
    MarkedCleared(t, before, after, node.key);
    ClearingSubtracts(t, arch, node);
  }

  lemma ClearedBranch(l: seq<CacheEntry>, e: CacheEntry, r: seq<CacheEntry>, key: CacheKey)
    ensures Cleared(l + [e] + r, key) == Cleared(l, key) + [ClearedEntry(e, key)] + Cleared(r, key)
  {
    ClearedConcat(l + [e], r, key);
    ClearedConcat(l, [e], key);
  }

  // ----- the zone -----

  class Cache {
    const arch: Arch
    const sentinel: CacheNode
    var root: CacheNode
    var size: nat
    ghost var tree: Tree
    ghost var nodes: set<CacheNode>
    ghost var content: seq<CacheEntry>  // the nodes in order, as values

    /** The zone's size is the sum of the sizes of its live nodes. */
    ghost predicate Valid()
      reads this, nodes
    {
      && arch.Valid()
      && Nodes(tree) == nodes
      && Stands(tree, root, sentinel)
      && Ordered(tree, arch)
      && content == Entries(tree)
      && size == LiveSize(content)
    }

    constructor (arch: Arch, root: CacheNode, sentinel: CacheNode, size: nat, ghost tree: Tree)
      requires arch.Valid() && Stands(tree, root, sentinel) && Ordered(tree, arch) && size == LiveSize(Entries(tree))
      ensures Valid() && content == Entries(tree) && nodes == Nodes(tree)
    {
      this.arch, this.root, this.sentinel, this.size := arch, root, sentinel, size;
      this.tree, nodes, content := tree, Nodes(tree), Entries(tree);
    }

    /** The one node for `key`, or the sentinel when the tree has none: live or not. */
    method Search(key: CacheKey) returns (node: CacheNode)
      requires Valid()
      ensures node == sentinel ==> forall m :: m in nodes ==> m.key != key
      ensures node != sentinel ==> node in nodes && node.key == key
      ensures node != sentinel ==> forall m :: m in nodes && m.key == key ==> m == node
    {
      var word, rest := WordOf(arch, key), RestOf(arch, key);
      node := root;
      ghost var sub := tree;
      while node != sentinel
        invariant Stands(sub, node, sentinel) && Ordered(sub, arch)
        invariant forall m :: m in Nodes(sub) ==> m in nodes
        invariant forall m :: m in nodes && m.key == key ==> m in Nodes(sub)
        decreases sub
      {
        Descend(sub, arch, key);
        if word < node.word {
          node, sub := node.left, sub.left;
        } else if word > node.word {
          node, sub := node.right, sub.right;
        } else if Less(rest, node.rest) {
          node, sub := node.left, sub.left;
        } else if Less(node.rest, rest) {
          node, sub := node.right, sub.right;
        } else {
          LessTotal(rest, node.rest);
          NodeKeyDetermines(arch, key, node.key);
          return;
        }
      }
    }

    /** Clears the live node for `key`, if there is one, and returns its size to the zone. */
    method Invalidate(key: CacheKey) returns (found: bool)
      requires Valid()
      modifies `size, `content, nodes`present, nodes`fsSize
      ensures Valid()
      ensures found <==> IsLive(old(content), key)
      ensures content == Cleared(old(content), key)
    {
      LiveNode(tree, key);
      var node := Search(key);
      found := node != sentinel && node.present;
      if found {
        Retire(node);
      } else {
        ClearedTwice(content, key, key);
      }
    }

    /** Takes a live node's size off the zone and marks it gone. */
    method Retire(node: CacheNode)
      requires Valid() && node in nodes && node.present
      requires forall m :: m in nodes && m.key == node.key ==> m == node
      modifies `size, `content, node`present, node`fsSize
      ensures Valid()
      ensures content == Cleared(old(content), node.key)
    {
      ghost var after := PlanRetiring(tree, arch, node);
      size, content := size - node.fsSize, Cleared(content, node.key);
      node.Clear();
      EntriesAreMarked(tree, after);
    }
  }

  /** Clearing a key marks its live node gone and of no size, and leaves every other node alone. */
  lemma ClearedAt(es: seq<CacheEntry>, key: CacheKey, i: nat)
    requires i < |es|
    ensures Cleared(es, key)[i] == if es[i].key == key && es[i].present then CacheEntry(key, false, 0) else es[i]
  {
  }
}
