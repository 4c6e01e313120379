/** The tree of BinaryTree.js: its Node objects and the fixed tree that createTree builds.

    A JavaScript `Node` object is a record whose `left` and `right` fields hold another node
    or `null`. Nothing changes a node once createTree has returned, so a node is modelled
    as an immutable datatype value, with `Option` standing for the nullable child fields. */
module BinaryTree {

  datatype Option<T> = None | Some(value: T)

  /** One node object: `value` is its label, `nodeType` is "node" for an internal node and
      "null" for a sentinel leaf, `id` tells apart the nodes of one type. */
  datatype Node = Node(value: string, nodeType: string, id: string, left: Option<Node>, right: Option<Node>)

  /** The `Node` constructor (BinaryTree.js:2-8): it copies its three arguments and leaves
      both children null. */
  function NewNode(value: string, nodeType: string, id: string): (n: Node)
    ensures n.value == value && n.nodeType == nodeType && n.id == id
    ensures n.left == None && n.right == None
  {
    Node(value, nodeType, id, None, None)
  }

  /** A sentinel stands for an absent child; the traversal visits it once and stops there. */
  predicate IsSentinel(n: Node)
  {
    n.nodeType == "null"
  }

  /** The string that identifies a node in the replay: its type followed by its id. */
  function Key(n: Node): string
  {
    n.nodeType + n.id
  }

  /** Every node the traversal reaches that is not a sentinel has both children
      (the traversal reads `node.left` and `node.right` of each such node). */
  predicate WellFormed(t: Node)
    decreases t
  {
    IsSentinel(t) ||
    (t.left.Some? && t.right.Some? && WellFormed(t.left.value) && WellFormed(t.right.value))
  }

  /** The nodes of the tree the traversal reaches. */
  function Members(t: Node): set<Node>
    requires WellFormed(t)
    decreases t
  {
    if IsSentinel(t) then {t}
    else {t} + Members(t.left.value) + Members(t.right.value)
  }

  /** The keys of the nodes the traversal reaches. */
  function TreeKeys(t: Node): set<string>
    requires WellFormed(t)
    decreases t
  {
    if IsSentinel(t) then {Key(t)}
    else {Key(t)} + TreeKeys(t.left.value) + TreeKeys(t.right.value)
  }

  /** No two positions of the tree share a key. */
  predicate DistinctKeys(t: Node)
    requires WellFormed(t)
    decreases t
  {
    IsSentinel(t) ||
    (var l, r := t.left.value, t.right.value;
     Key(t) !in TreeKeys(l) && Key(t) !in TreeKeys(r) && TreeKeys(l) !! TreeKeys(r) &&
     DistinctKeys(l) && DistinctKeys(r))
  }

  /** What the replay needs of the tree it walks. */
  predicate Traversable(t: Node)
  {
    WellFormed(t) && DistinctKeys(t)
  }

  function InternalCount(t: Node): nat
    requires WellFormed(t)
    decreases t
  {
    if IsSentinel(t) then 0 else 1 + InternalCount(t.left.value) + InternalCount(t.right.value)
  }

  function SentinelCount(t: Node): nat
    requires WellFormed(t)
    decreases t
  {
    if IsSentinel(t) then 1 else SentinelCount(t.left.value) + SentinelCount(t.right.value)
  }

  /** The number of nodes on the longest root-to-leaf path. */
  function Height(t: Node): nat
    requires WellFormed(t)
    decreases t
  {
    if IsSentinel(t) then 1
    else
      var hl, hr := Height(t.left.value), Height(t.right.value);
      1 + if hl < hr then hr else hl
  }

  /** `keys` are the keys of a path that starts at `t` and goes down one child at a time. */
  ghost predicate IsPathFrom(t: Node, keys: seq<string>)
    requires WellFormed(t)
    decreases t
  {
    |keys| >= 1 && keys[0] == Key(t) &&
    (|keys| == 1 ||
     (!IsSentinel(t) && (IsPathFrom(t.left.value, keys[1..]) || IsPathFrom(t.right.value, keys[1..]))))
  }

  /** The standard depth-first orders of the values of the internal nodes. */
  function PreOrder(t: Node): seq<string>
    requires WellFormed(t)
    decreases t
  {
    if IsSentinel(t) then []
    else [t.value] + PreOrder(t.left.value) + PreOrder(t.right.value)
  }

  function InOrder(t: Node): seq<string>
    requires WellFormed(t)
    decreases t
  {
    if IsSentinel(t) then []
    else InOrder(t.left.value) + [t.value] + InOrder(t.right.value)
  }

  function PostOrder(t: Node): seq<string>
    requires WellFormed(t)
    decreases t
  {
    if IsSentinel(t) then []
    else PostOrder(t.left.value) + PostOrder(t.right.value) + [t.value]
  }

  /** createTree (BinaryTree.js:11-22). The source allocates the root first and then assigns
      the child fields top-down; with immutable values the same tree is built bottom-up. */
  function CreateTree(): (root: Node)
    ensures WellFormed(root)
  {
    var null1 := NewNode("null", "null", "1");
    var null2 := NewNode("null", "null", "2");
    var null3 := NewNode("null", "null", "3");
    var null4 := NewNode("null", "null", "4");
    var null5 := NewNode("null", "null", "5");
    var node4 := NewNode("4", "node", "4").(left := Some(null3), right := Some(null4));
    var node3 := NewNode("3", "node", "3").(left := Some(node4), right := Some(null5));
    var node2 := NewNode("2", "node", "2").(left := Some(null1), right := Some(null2));
    NewNode("1", "node", "1").(left := Some(node2), right := Some(node3))
  }

  /** createTree allocates four internal nodes and five sentinels (BinaryTree.js:12-20). */
  lemma CreateTreeCounts()
    ensures InternalCount(CreateTree()) == 4 && SentinelCount(CreateTree()) == 5
  {
  }

  /** The nodes of the fixed tree (BinaryTree.js:12-20): the internal nodes carry type "node"
      and a value equal to their id, the sentinels type "null" and value "null"; every
      internal node has both children and no sentinel has any, so the leaves are exactly
      the sentinels. */
  lemma CreateTreeNodes()
    ensures forall n :: n in Members(CreateTree()) ==>
      || (n.nodeType == "node" && n.value == n.id && n.left.Some? && n.right.Some?)
      || (n.nodeType == "null" && n.value == "null" && n.left == None && n.right == None)
  {
    CreateTreeMembers();
  }

  lemma CreateTreeMembers()
    ensures var root := CreateTree();
      var node2, node3 := root.left.value, root.right.value;
      var node4 := node3.left.value;
      Members(root) == {root, node2, node3, node4, node2.left.value, node2.right.value,
                        node4.left.value, node4.right.value, node3.right.value}
  {
  }

  /** The shape of the fixed tree (BinaryTree.js:12-20) and the three orders of its values. */
  lemma CreateTreeShape()
    ensures var root := CreateTree();
      && Key(root) == "node1"
      && Key(root.left.value) == "node2" && Key(root.right.value) == "node3"
      && Key(root.left.value.left.value) == "null1" && Key(root.left.value.right.value) == "null2"
      && Key(root.right.value.left.value) == "node4" && Key(root.right.value.right.value) == "null5"
      && Key(root.right.value.left.value.left.value) == "null3"
      && Key(root.right.value.left.value.right.value) == "null4"
      && Height(root) == 4
      && PreOrder(root) == ["1", "2", "3", "4"]
      && InOrder(root) == ["2", "1", "4", "3"]
      && PostOrder(root) == ["2", "4", "3", "1"]
  {
  }

  /** The keys "node1".."node4" and "null1".."null5" of the fixed tree are pairwise distinct. */
  lemma CreateTreeTraversable()
    ensures Traversable(CreateTree())
    ensures TreeKeys(CreateTree()) == {"node1", "node2", "node3", "node4", "null1", "null2", "null3", "null4", "null5"}
  {
    var root := CreateTree();
    var node2, node3 := root.left.value, root.right.value;
    var node4 := node3.left.value;
    assert Key(node2.left.value) == "null1" && Key(node2.right.value) == "null2";
    assert Key(node4.left.value) == "null3" && Key(node4.right.value) == "null4";
    assert Key(node3.right.value) == "null5";
    assert Key(root) == "node1" && Key(node2) == "node2" && Key(node3) == "node3" && Key(node4) == "node4";
    assert TreeKeys(node2) == {"node2", "null1", "null2"};
    assert TreeKeys(node4) == {"node4", "null3", "null4"};
    assert TreeKeys(node3) == {"node3", "node4", "null3", "null4", "null5"};
  }
}
