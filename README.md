# Binary tree traversal replay

A model of the core of a small React Native app that teaches depth-first traversal. The app
builds one fixed binary tree. It records a recursive walk of that tree as a flat list of
steps. A "step" button then replays the walk one step per press. Each press updates a call
stack of node keys, a per-node visit count, and three lists that collect the node values in
pre-order, in-order and post-order.

The model has four modules:

- `BinaryTree` (`binary_tree.dfy`) models `BinaryTree.js`. It holds the `Node` record and
  the fixed tree that `createTree` builds. An absent child is `None`. A sentinel is a node of
  type `"null"`, which stands for an empty subtree. A node's key is its type followed by its
  id, for example `"node3"` or `"null5"`.
- `Traversal` (`traversal.dfy`) models `traverseTree` and `runTraversals`. `Steps` is the
  reference definition of the walk. The lemmas say how many steps there are and where each
  node is visited.
- `ReplaySpec` (`replay_spec.dfy`) defines `Expected(t, k)`, the replay state after `k`
  presses, as a pure function of the tree and `k`:
  - the stack is the path from the root to the node the last step visited;
  - the counts are the number of occurrences of each key among the steps read so far;
  - each list holds what those steps emitted.

  `StepTaken` is the transition of one press. The lemmas prove three things about it:
  - each press takes `Expected(t, k)` to `Expected(t, k + 1)`;
  - the press is deterministic;
  - the press that reads the last step leaves the three depth-first orders, the root alone
    on the stack, and every node counted as often as the walk visits it.
- `App` (`replay.dfy`) models the component's state as the class `Replay`. `UpdateStack` is
  the press handler and `FormatNodeString` is the stack label. `Replay.Valid()` says the
  fields equal `Expected(root, pointer)`. `UpdateStack` keeps that invariant. Its loop-based
  core, the method `Press`, is proved to perform `StepTaken`.

Two facts about the sizes involved:
- `createTree` (`BinaryTree.js:12-20`) builds four internal nodes (`1`..`4`) and five
  sentinels, so its walk has 3 * 4 + 5 = 17 steps (`CreateTreeCycle`).
- A tree of one internal node over two sentinels has a walk of 3 + 2 = 5 steps
  (`SingleNodeCycle`).

## Model

| member | source | states |
|---|---|---|
| BinaryTree.NewNode | BinaryTree.js:1-9 | the new node has the given value, type and id, and both children are absent; partner: CreateTreeNodes, which states the fields of every node of the tree built from it |
| BinaryTree.CreateTree | BinaryTree.js:11-22 | builds the fixed tree of four internal nodes and five sentinels; the result is well formed (its shape, counts and keys are stated by the five lemmas below); partner: CreateTreeShape and CreateTreeTraversable, against the reference definitions PreOrder, InOrder, PostOrder, Height and TreeKeys |
| BinaryTree.CreateTreeCounts | BinaryTree.js:11-22 | the fixed tree has 4 internal nodes and 5 sentinels; partner lemma of CreateTree, against InternalCount and SentinelCount |
| BinaryTree.CreateTreeNodes | BinaryTree.js:12-20 | every node of the fixed tree is either an internal node whose value equals its id and which has both children, or a sentinel valued "null" with no children; partner lemma of CreateTree and NewNode, over Members |
| BinaryTree.CreateTreeMembers | BinaryTree.js:12-20 | the fixed tree consists of exactly the nine nodes that createTree allocates; partner lemma of CreateTree, over Members |
| BinaryTree.CreateTreeShape | BinaryTree.js:12-20 | the key at each position of the fixed tree is the one createTree assigns there; the height is 4; pre-, in- and post-order are 1 2 3 4, 2 1 4 3 and 2 4 3 1; partner lemma of CreateTree, against the reference orders PreOrder, InOrder and PostOrder |
| BinaryTree.CreateTreeTraversable | BinaryTree.js:12-20 | the fixed tree is well formed, its nine keys are pairwise distinct, and its key set is node1..node4 plus null1..null5; partner lemma of CreateTree: the invariant Traversable that every replay lemma needs |
| Traversal.TraverseTree | App.js:42-53 | the walk appends exactly the steps of `Steps(node)` to the given array; partner: the reference definition Steps; the ensures is the connection |
| Traversal.RunTraversals | App.js:55-59 | runTraversals returns the walk of the whole tree; partner: the reference definition Steps; the ensures is the connection |
| Traversal.StepsSize | App.js:42-53 | the walk has `Size(t)` steps: one for a sentinel, and three more than both subtrees' walks for an internal node; partner lemma of TraverseTree: ties Steps to the independent count Size |
| Traversal.StepsLength | App.js:42-53 | the walk has 3 steps per internal node and 1 per sentinel; partner lemma of TraverseTree: ties Steps to InternalCount and SentinelCount |
| Traversal.StepsInTree | App.js:42-53 | every step visits a node of the tree, whose key is one of the tree's keys; partner lemma of TraverseTree: ties Steps to Members and TreeKeys |
| Traversal.StepsVisits | App.js:42-53 | when keys are distinct, each sentinel's key occurs once in the walk and each internal node's key three times; partner lemma of TraverseTree: ties Steps to Visits |
| Traversal.StepsAt | App.js:48-52 | step i of an internal node's walk is the node itself at positions 0, a+1 and a+b+2, and otherwise the corresponding step of the left or right subtree's walk; partner lemma of TraverseTree, about Steps |
| Traversal.StepsKeyPositions | App.js:48-52 | an internal node's key occurs in its walk only at its three own visits; partner lemma of TraverseTree, about Steps |
| Traversal.StepsBetweenVisits | App.js:48-52 | between the first and second visits lies exactly the left subtree's walk, and between the second and third exactly the right subtree's; partner lemma of TraverseTree, about Steps |
| Traversal.KeysOutside | App.js:42-53 | no key outside the tree occurs in its walk; partner lemma of TraverseTree: ties Steps to TreeKeys |
| ReplaySpec.ExpectedInitial | App.js:17-24 | before the first press the state is the initial one: pointer 0, empty stack, counts and lists, no current or popped node; partner lemma of App.Replay.constructor and of the reset press: ties Initial to the reference state Expected |
| ReplaySpec.ExpectedStep | App.js:61-111 | press k+1 of a cycle takes the state after k presses to the state after k+1 presses by exactly the update of updateStack; partner lemma of App.Press and App.Replay.UpdateStack: ties StepTaken to the reference state Expected |
| ReplaySpec.ExpectedMove | App.js:67-73 | press k+1 pushes an unseen key, or pops back to a seen one; it advances the pointer, sets the current node, and records the popped key exactly when the stack shrank; part of ExpectedStep, about Expected |
| ReplaySpec.ExpectedCounts | App.js:64-73 | press k+1 sets a new key's count to 1 or adds one to a seen key's count; a key has a count exactly when it has been visited, and that count is its number of visits so far; part of ExpectedStep: ties the counts to the multiset of visited keys |
| ReplaySpec.ExpectedLists | App.js:75-91 | press k+1 appends an internal node's value to the list its new count selects; part of ExpectedStep: ties the lists to Emitted |
| ReplaySpec.StepDeterministic | App.js:61-111 | a press is determined by the state and the step it reads; it can only be taken from a state whose counted key has a positive count and sits just below the top of the stack; partner lemma of App.Press: with ExpectedStep it makes the press's result equal Expected(t, k + 1) |
| ReplaySpec.StackStep | App.js:67-73 | within a cycle each press moves the stack by one edge: it pushes a key visited for the first time; on a repeat visit it pops the old top (the child just finished) back to the re-visited key, and that old top is the popped node; partner lemma of App.Press, about StackAt and PoppedAt |
| ReplaySpec.StepShape | App.js:67-73 | after the first step, the next step's node is either unseen and a child of the current node, or seen and the current node's parent; partner lemma of App.Press: ties the walk Steps to the path OpenPath |
| ReplaySpec.StackIsPath | App.js:67-73 | after every press of a cycle, the stack is a root-first downward path that ends at the node just visited and is no longer than the tree's height; invariant of App.Replay.UpdateStack, against the reference path predicate IsPathFrom and Height |
| ReplaySpec.CountsBounded | App.js:67-73 | within a cycle every count is between 1 and 3, only the tree's keys are counted, and a sentinel's count is 1; invariant of App.Replay.UpdateStack, about Expected |
| ReplaySpec.StepsKeyBound | App.js:67-73 | no key occurs more than three times in the walk of a tree with distinct keys; helper of CountsBounded, about Steps |
| ReplaySpec.CountsAppend | App.js:67-73 | counting a key that has not been counted gives it 1, and a counted key gets one more; every count is positive; partner lemma of the counting in App.Press, about Counts |
| ReplaySpec.OneListGrows | App.js:75-91 | a press extends each list, appending to at most one of them: the one selected by a count of 1, 2 or 3 for an internal node; partner lemma of App.Press, about StepTaken |
| ReplaySpec.ListsGrow | App.js:75-91 | within a cycle the lists after j presses are prefixes of those after any later press; invariant of App.Replay.UpdateStack within a cycle, about Expected |
| ReplaySpec.EmittedSteps | App.js:75-91 | replaying a subtree's walk after steps that visited none of its nodes emits its values in pre-order, in-order and post-order; ties Emitted to the reference orders PreOrder, InOrder and PostOrder |
| ReplaySpec.CycleOrders | App.js:75-91 | after the press that reads the last step the three lists are the tree's pre-order, in-order and post-order; partner lemma of App.Replay.UpdateStack: Expected at the end of the walk against the reference orders |
| ReplaySpec.CycleStack | App.js:67-73 | after the press that reads the last step the stack holds the root alone, the last step read the root, and the last press popped the root's right child; partner lemma of App.Replay.UpdateStack, about StackAt and PoppedAt |
| ReplaySpec.CycleCounts | App.js:64-73 | after the press that reads the last step the counted keys are exactly the tree's keys, with count 1 per sentinel and 3 per internal node; partner lemma of App.Replay.UpdateStack: counts against Visits and TreeKeys |
| ReplaySpec.FullCycle | App.js:61-111 | the press that reads the last step leaves the three orders, the root alone on the stack as the current node, the right child popped, and every node counted once per visit; partner lemma of App.Replay.UpdateStack, combining CycleOrders, CycleStack and CycleCounts |
| ReplaySpec.CreateTreeCycle | App.js:61-111 | for createTree's tree the walk has 17 steps, the stack never holds more than 4 keys, and the 17th press leaves lists 1 2 3 4, 2 1 4 3, 2 4 3 1 and stack ["node1"]; partner lemma of CreateTree and App.Replay.UpdateStack on the fixed tree |
| ReplaySpec.SingleNodeCycle | App.js:42-53 | a tree of one internal node over two distinct sentinels is traversable, has a 5-step walk, and each list ends holding the node's value alone; partner lemma of TraverseTree and App.Replay.UpdateStack on a one-node tree |
| App.Replay.constructor | App.js:16-24 | the first render starts from the initial state, with the walk of the tree as its steps; partner: the invariant Valid (State() == Expected(root, pointer)) via ExpectedInitial |
| App.Replay.UpdateStack | App.js:61-111 | a press after the last step restores the initial state; any other press performs StepTaken on the next step; both keep the state equal to the expected state of its pointer; partner: the invariant Valid via ExpectedStep, StepDeterministic and ExpectedInitial |
| App.Replay.SetState | App.js:94-110 | the setters replace every replayed field at once; partner: the snapshot function State |
| App.Press | App.js:62-110 | the copy-count-push-or-pop-emit computation of one press performs exactly StepTaken; partner: the specification StepTaken, tied to Expected by ExpectedStep and StepDeterministic |
| App.FormatNodeString | App.js:120-127 | the label is "func(" + inner + ")"; inner is "null" for a key starting with "null" and otherwise the key after its first four characters; partner: FormatKey, which applies it to the keys of nodes |
| App.FormatKey | App.js:120-127 | a sentinel's key is shown as "func(null)" and an internal node's key as "func(" + id + ")"; partner lemma of FormatNodeString, over Key |

Two definitions have no row of their own, because they carry no contract. `BinaryTree.Key`
is the `${type}${id}` key of App.js:65; the rows for `ExpectedCounts`, `StackStep`,
`App.Press` and `App.FormatKey` state what is proved about it. `ReplaySpec.Initial` is the
state of App.js:17-24 that the reset press of App.js:94-101 restores; the rows for
`ExpectedInitial`, `App.Replay.constructor` and `App.Replay.UpdateStack` state it.

## Left out

- Rendering, styles, SVG drawing and the animations (`play`, `Animated`, App.js:26-40 and the
  `play(...)` calls) are presentation only and change no replayed state.
- React's state hooks are modelled as fields of a class. One press is one atomic update in
  which the last setter of each field wins. The app recomputes the tree and its steps on
  every render (App.js:16, 129); the result never changes, so the model computes them once.
- The press after the last step (App.js:93-101) is modelled as restoring the initial state
  directly. Before the reset, the source also computes on the missing step: an
  "undefinedundefined" key and an `undefined` pre-order entry, both overwritten by the reset
  setters, and a `play(preAnim)` call, which still starts the pre-order animation. That
  animation is presentation and is left out with the others.
- `Press` models the pop loop (App.js:69) only for the single pop that every reachable state
  needs: it requires `Ready`, which `Replay.Valid()` guarantees on every press. The source
  pops any number of entries down to the counted key, none if the key is on top, and loops
  forever only when the key is absent from the stack; states that need zero or several pops
  are not reachable and are not modelled.
- The nodes form an object graph that is never changed after `createTree`. They are modelled
  as immutable values, and `createTree` builds the same tree bottom-up instead of assigning
  child fields top-down.
- JavaScript's truthiness test `nodeCountCopy[nodeStr]` is modelled as "the key is present
  with a non-zero count". That is the only case the replay of createTree's tree can produce.
  A key naming an inherited Object property (such as "toString") would read as present
  before its first visit; the general lemmas do not model that.
- FormatNodeString counts characters (Unicode scalar values), whereas JavaScript's `slice`
  counts UTF-16 code units; the two agree for keys without characters outside the Basic
  Multilingual Plane, such as createTree's ASCII keys.
- The `console.log` lines (App.js:113-117) are commented out in the source.
