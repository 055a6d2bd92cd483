/** The treap as the node keeps it: linked objects that rotate, merge and drop
    children in place and cache the Merkle hash of every subtree. */
module TreapNodes {
  import opened Treap

  /** The hash functions the tree is built with: key order and priorities, the
      hash of the empty tree, and the hash of a node from its three parts. */
  datatype Algebra<!K, !H> = Algebra(scheme: Scheme<K>, emptyRoot: H, hashNode: (H, H, H) -> H)

  function RootHash<K, H>(a: Algebra<K, H>, t: Tree<K, H>): H {
    if t.Empty? then a.emptyRoot
    else a.hashNode(RootHash(a, t.left), t.leaf, RootHash(a, t.right))
  }

  class TreapNode<!K(==), !H> {
    const key: K
    const priority: int
    var leafHash: H
    var left: TreapNode?<K, H>
    var right: TreapNode?<K, H>
    var rootHash: H

    ghost var tree: Tree<K, H>
    ghost var repr: set<object>

    /** Both children are sound, separate from each other and from this node. */
    ghost predicate Linked(a: Algebra<K, H>)
      reads this, left, right, Footprint(left), Footprint(right)
    {
      && priority == a.scheme.priority(key)
      && (left != null ==> this !in left.repr && left.Valid(a))
      && (right != null ==> this !in right.repr && right.Valid(a))
      && Footprint(left) !! Footprint(right)
    }

    ghost predicate Valid(a: Algebra<K, H>)
      reads this, repr
      ensures Valid(a) ==> this in repr
      decreases repr
    {
      && this in repr
      && priority == a.scheme.priority(key)
      && (left != null ==> left in repr && left.repr <= repr && this !in left.repr && left.Valid(a))
      && (right != null ==> right in repr && right.repr <= repr && this !in right.repr && right.Valid(a))
      && (left != null && right != null ==> left.repr !! right.repr)
      && tree == Node(TreeOf(left), key, leafHash, TreeOf(right))
      && rootHash == RootHash(a, tree)
    }

    constructor (a: Algebra<K, H>, key: K, leafHash: H)
      ensures Valid(a) && fresh(repr)
      ensures tree == Node(Empty, key, leafHash, Empty)
    {
      this.key, this.priority, this.leafHash := key, a.scheme.priority(key), leafHash;
      left, right := null, null;
      rootHash := a.hashNode(a.emptyRoot, leafHash, a.emptyRoot);
      tree, repr := Node(Empty, key, leafHash, Empty), {this};
    }

    method Refresh(a: Algebra<K, H>)
      requires Linked(a)
      modifies this
      ensures Valid(a)
      ensures repr == {this} + Footprint(left) + Footprint(right)
      ensures tree == Node(TreeOf(left), key, leafHash, TreeOf(right))
      ensures left == old(left) && right == old(right) && leafHash == old(leafHash)
    {
      rootHash := a.hashNode(SubtreeHash(a, left), leafHash, SubtreeHash(a, right));
      tree := Node(TreeOf(left), key, leafHash, TreeOf(right));
      repr := {this} + Footprint(left) + Footprint(right);
    }
  }

  ghost function TreeOf<K, H>(n: TreapNode?<K, H>): Tree<K, H>
    reads n
  {
    if n == null then Empty else n.tree
  }

  ghost function Footprint<K, H>(n: TreapNode?<K, H>): set<object>
    reads n
  {
    if n == null then {} else n.repr
  }

  ghost predicate ValidOrNull<K, H>(a: Algebra<K, H>, n: TreapNode?<K, H>)
    reads n, Footprint(n)
  {
    n != null ==> n.Valid(a)
  }

  function SubtreeHash<K, H>(a: Algebra<K, H>, n: TreapNode?<K, H>): (h: H)
    requires ValidOrNull(a, n)
    reads n, Footprint(n)
    ensures h == RootHash(a, TreeOf(n))
  {
    if n == null then a.emptyRoot else n.rootHash
  }

  method TurnRight<K, H>(a: Algebra<K, H>, node: TreapNode<K, H>) returns (top: TreapNode<K, H>)
    requires node.Linked(a) && node.left != null
    modifies node, node.left
    ensures top.Valid(a) && top.repr <= {node} + old(Footprint(node.left)) + old(Footprint(node.right))
    ensures top.tree == RotateRight(Node(old(TreeOf(node.left)), node.key, old(node.leafHash), old(TreeOf(node.right))))
  {
    var left := node.left;
    node.left := left.right;
    node.Refresh(a);
    assert left !in node.repr && node.repr !! Footprint(left.left) && ValidOrNull(a, left.left);
    left.right := node;
    left.Refresh(a);
    top := left;
  }

  method TurnLeft<K, H>(a: Algebra<K, H>, node: TreapNode<K, H>) returns (top: TreapNode<K, H>)
    requires node.Linked(a) && node.right != null
    modifies node, node.right
    ensures top.Valid(a) && top.repr <= {node} + old(Footprint(node.left)) + old(Footprint(node.right))
    ensures top.tree == RotateLeft(Node(old(TreeOf(node.left)), node.key, old(node.leafHash), old(TreeOf(node.right))))
  {
    var right := node.right;
    node.right := right.left;
    node.Refresh(a);
    assert right !in node.repr && node.repr !! Footprint(right.right) && ValidOrNull(a, right.right);
    right.left := node;
    right.Refresh(a);
    top := right;
  }

  /** After a left insertion: rotate a lighter child up, otherwise only refresh. */
  method SettleLeft<K, H>(a: Algebra<K, H>, node: TreapNode<K, H>) returns (top: TreapNode<K, H>)
    requires node.Linked(a) && node.left != null
    modifies node, node.left
    ensures top.Valid(a) && top.repr <= {node} + old(Footprint(node.left)) + old(Footprint(node.right))
    ensures
      var grown := Node(old(TreeOf(node.left)), node.key, old(node.leafHash), old(TreeOf(node.right)));
      top.tree == if a.scheme.priority(grown.left.key) < a.scheme.priority(node.key) then RotateRight(grown) else grown
  {
    if node.left.priority < node.priority {
      top := TurnRight(a, node);
    } else {
      node.Refresh(a);
      top := node;
    }
  }

  method SettleRight<K, H>(a: Algebra<K, H>, node: TreapNode<K, H>) returns (top: TreapNode<K, H>)
    requires node.Linked(a) && node.right != null
    modifies node, node.right
    ensures top.Valid(a) && top.repr <= {node} + old(Footprint(node.left)) + old(Footprint(node.right))
    ensures
      var grown := Node(old(TreeOf(node.left)), node.key, old(node.leafHash), old(TreeOf(node.right)));
      top.tree == if a.scheme.priority(grown.right.key) < a.scheme.priority(node.key) then RotateLeft(grown) else grown
  {
    if node.right.priority < node.priority {
      top := TurnLeft(a, node);
    } else {
      node.Refresh(a);
      top := node;
    }
  }

  /** In-place insertion does to the stored tree what `Treap.Insert` does to the value. */
  method InsertOrUpdate<K, H>(a: Algebra<K, H>, node: TreapNode?<K, H>, key: K, leaf: H) returns (top: TreapNode<K, H>)
    requires ValidOrNull(a, node)
    modifies Footprint(node)
    ensures top.Valid(a) && fresh(top.repr - old(Footprint(node)))
    ensures top.tree == Insert(a.scheme, old(TreeOf(node)), key, leaf)
    decreases TreeOf(node), 1
  {
    if node == null {
      top := new TreapNode(a, key, leaf);
    } else if key == node.key {
      node.leafHash := leaf;
      node.Refresh(a);
      top := node;
    } else if a.scheme.less(key, node.key) {
      top := InsertLeft(a, node, key, leaf);
    } else {
      top := InsertRight(a, node, key, leaf);
    }
  }

  method InsertLeft<K, H>(a: Algebra<K, H>, node: TreapNode<K, H>, key: K, leaf: H) returns (top: TreapNode<K, H>)
    requires node.Valid(a) && key != node.key && a.scheme.less(key, node.key)
    modifies node.repr
    ensures top.Valid(a) && fresh(top.repr - old(node.repr))
    ensures top.tree == Insert(a.scheme, old(node.tree), key, leaf)
    decreases node.tree, 0
  {
    var child := InsertOrUpdate(a, node.left, key, leaf);
    node.left := child;
    top := SettleLeft(a, node);
  }

  method InsertRight<K, H>(a: Algebra<K, H>, node: TreapNode<K, H>, key: K, leaf: H) returns (top: TreapNode<K, H>)
    requires node.Valid(a) && key != node.key && !a.scheme.less(key, node.key)
    modifies node.repr
    ensures top.Valid(a) && fresh(top.repr - old(node.repr))
    ensures top.tree == Insert(a.scheme, old(node.tree), key, leaf)
    decreases node.tree, 0
  {
    var child := InsertOrUpdate(a, node.right, key, leaf);
    node.right := child;
    top := SettleRight(a, node);
  }

  method MergeNodes<K, H>(
      a: Algebra<K, H>, left: TreapNode?<K, H>, right: TreapNode?<K, H>) returns (top: TreapNode?<K, H>)
    requires ValidOrNull(a, left) && ValidOrNull(a, right) && Footprint(left) !! Footprint(right)
    modifies Footprint(left), Footprint(right)
    ensures ValidOrNull(a, top) && Footprint(top) <= old(Footprint(left)) + old(Footprint(right))
    ensures TreeOf(top) == Merge(a.scheme, old(TreeOf(left)), old(TreeOf(right)))
    decreases TreeOf(left), TreeOf(right)
  {
    if left == null {
      top := right;
    } else if right == null {
      top := left;
    } else if left.priority < right.priority {
      var child := MergeNodes(a, left.right, right);
      left.right := child;
      left.Refresh(a);
      top := left;
    } else {
      var child := MergeNodes(a, left, right.left);
      right.left := child;
      right.Refresh(a);
      top := right;
    }
  }

  method DeleteNode<K, H>(a: Algebra<K, H>, node: TreapNode?<K, H>, key: K) returns (top: TreapNode?<K, H>)
    requires ValidOrNull(a, node)
    modifies Footprint(node)
    ensures ValidOrNull(a, top) && Footprint(top) <= old(Footprint(node))
    ensures TreeOf(top) == Delete(a.scheme, old(TreeOf(node)), key)
    decreases TreeOf(node)
  {
    if node == null {
      top := null;
    } else if key == node.key {
      top := MergeNodes(a, node.left, node.right);
    } else if a.scheme.less(key, node.key) {
      var child := DeleteNode(a, node.left, key);
      node.left := child;
      node.Refresh(a);
      top := node;
    } else {
      var child := DeleteNode(a, node.right, key);
      node.right := child;
      node.Refresh(a);
      top := node;
    }
  }
}
