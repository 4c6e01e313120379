/** The replay of App.js: the state the component keeps (App.js:17-24), the press of the step
    button that advances it (updateStack, App.js:61-118) and the label shown for a stack
    entry (formatNodeString, App.js:120-127). */
module App {
  import opened BinaryTree
  import opened Traversal
  import opened ReplaySpec

  /** The component's state. One press is one atomic update of these fields, in which the
      last write to each field wins; the tree and its steps are computed once. */
  class Replay {
    const root: Node
    const algorithmSteps: seq<Node>
    var pointer: nat
    var stack: seq<string>
    var nodeCount: map<string, int>
    var preOrderArray: seq<string>
    var inOrderArray: seq<string>
    var postOrderArray: seq<string>
    var currNode: Option<Node>
    var poppedNode: Option<string>

    /** The replayed fields as one value. */
    function State(): Snapshot
      reads this
    {
      Snapshot(pointer, stack, nodeCount, preOrderArray, inOrderArray, postOrderArray, currNode, poppedNode)
    }

    /** The steps are the walk of the tree, the pointer lies in 0..|algorithmSteps| and the
        state is the one that the first `pointer` steps produce. */
    ghost predicate Valid()
      reads this
    {
      && Traversable(root)
      && algorithmSteps == Steps(root)
      && pointer <= |algorithmSteps|
      && State() == Expected(root, pointer)
    }

    /** The component's first render (App.js:16-24, 129): the initial state and the steps of
        the walk of `root`. */
    constructor (root: Node)
      requires Traversable(root)
      ensures Valid() && this.root == root && State() == Initial()
    {
      this.root := root;
      algorithmSteps := RunTraversals(root);
      pointer := 0;
      stack := [];
      nodeCount := map[];
      preOrderArray := [];
      inOrderArray := [];
      postOrderArray := [];
      currNode := None;
      poppedNode := None;
      new;
      ExpectedInitial(root);
    }

    /** updateStack (App.js:61-111). Once every step has been read the press restores the
        initial state; otherwise it reads the next step, pushes its key on a first visit or
        pops down to it on a repeat visit, counts the visit, appends an internal node's value
        to the list its count selects and moves the pointer on. */
    method UpdateStack()
      requires Valid()
      modifies this
      ensures Valid()
      ensures old(pointer) == |algorithmSteps| ==> State() == Initial()
      ensures old(pointer) < |algorithmSteps| ==>
        StepTaken(old(State()), State(), algorithmSteps[old(pointer)])
    {
      if pointer == |algorithmSteps| {
        SetState(Initial());
        ExpectedInitial(root);
        return;
      }
      ghost var before, next := State(), Expected(root, pointer + 1);
      var currentNode := algorithmSteps[pointer];
      ExpectedStep(root, pointer);
      StepDeterministic(before, next, next, currentNode);
      var after := Press(State(), currentNode);
      StepDeterministic(before, next, after, currentNode);
      SetState(after);
    }

    /** The setters of App.js:94-101 and 103-110: every field takes its new value at once. */
    method SetState(s: Snapshot)
      modifies this
      ensures State() == s
    {
      pointer, stack, nodeCount := s.pointer, s.stack, s.nodeCount;
      preOrderArray, inOrderArray, postOrderArray := s.preOrder, s.inOrder, s.postOrder;
      currNode, poppedNode := s.currNode, s.poppedNode;
    }
  }

  /** The computation of a press that reads `currentNode` (App.js:62-91, 103-110): it copies
      the stack and the counts, counts the visit, pushes the key on a first visit or pops
      down to it on a repeat visit, appends an internal node's value to the list its count
      selects, and records the popped key when the stack shrank. */
  method Press(state: Snapshot, currentNode: Node) returns (next: Snapshot)
    requires Ready(state, currentNode)
    ensures StepTaken(state, next, currentNode)
  {
    var stack := state.stack;
    var stackCopy := stack;
    var nodeCountCopy := state.nodeCount;
    var nodeStr := currentNode.nodeType + currentNode.id;

    if nodeStr in nodeCountCopy && nodeCountCopy[nodeStr] != 0 {
      nodeCountCopy := nodeCountCopy[nodeStr := nodeCountCopy[nodeStr] + 1];
      while stackCopy[|stackCopy| - 1] != nodeStr
        invariant |stack| - 1 <= |stackCopy| <= |stack|
        invariant stackCopy == stack[..|stackCopy|]
        decreases |stackCopy|
      {
        stackCopy := stackCopy[..|stackCopy| - 1];
      }
    } else {
      stackCopy := stackCopy + [nodeStr];
      nodeCountCopy := nodeCountCopy[nodeStr := 1];
    }

    var preOrder, inOrder, postOrder := state.preOrder, state.inOrder, state.postOrder;
    if currentNode.nodeType != "null" {
      if nodeCountCopy[nodeStr] == 1 {
        preOrder := preOrder + [currentNode.value];
      }
      if nodeCountCopy[nodeStr] == 2 {
        inOrder := inOrder + [currentNode.value];
      }
      if nodeCountCopy[nodeStr] == 3 {
        postOrder := postOrder + [currentNode.value];
      }
    }

    var poppedNode := if |stack| > |stackCopy| then Some(stack[|stack| - 1]) else None;
    next := Snapshot(state.pointer + 1, stackCopy, nodeCountCopy, preOrder, inOrder, postOrder,
                     Some(currentNode), poppedNode);
  }

  /** formatNodeString (App.js:120-127): the label of a stack entry. `slice` keeps what
      exists of the requested range, so a key shorter than four characters is its own
      prefix and leaves nothing after it. The model counts characters, which matches
      `slice` (counting UTF-16 code units) for ASCII keys such as createTree's. */
  function FormatNodeString(str: string): (shown: string)
    ensures |shown| >= 6 && shown[..5] == "func(" && shown[|shown| - 1] == ')'
    ensures var inner := shown[5..|shown| - 1];
      if |str| >= 4 && str[..4] == "null" then inner == "null"
      else inner == str[Min(4, |str|)..]
  {
    var prefix := str[..Min(4, |str|)];
    var output := if prefix == "null" then prefix else str[Min(4, |str|)..];
    "func(" + output + ")"
  }

  function Min(a: int, b: int): int
  {
    if a < b then a else b
  }

  /** The label of a node's key: "func(null)" for a sentinel, and "func(" + id + ")" for a
      node of type "node", e.g. "node3" is shown as "func(3)". */
  lemma FormatKey(n: Node)
    requires n.nodeType == "node" || n.nodeType == "null"
    ensures IsSentinel(n) ==> FormatNodeString(Key(n)) == "func(null)"
    ensures !IsSentinel(n) ==> FormatNodeString(Key(n)) == "func(" + n.id + ")"
  {
    var k := Key(n);
    assert k[..4] == n.nodeType;
    assert k[4..] == n.id;
  }
}
