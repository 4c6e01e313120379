/** Step generation (App.js:42-59): the recursive depth-first walk that records every visit
    of a node, sentinels included, in one flat sequence of steps. */
module Traversal {
  import opened BinaryTree

  /** The visits of the walk of `t`: a sentinel once; any other node before its left
      subtree, between its subtrees and after its right subtree. */
  function Steps(t: Node): seq<Node>
    requires WellFormed(t)
    decreases t
  {
    if IsSentinel(t) then [t]
    else [t] + Steps(t.left.value) + [t] + Steps(t.right.value) + [t]
  }

  /** The number of steps of the walk of `t`, counted without building it. It equals
      `|Steps(t)|` (StepsSize); stating the replay's path in terms of it keeps the proofs
      about that path from unfolding the walk. */
  function Size(t: Node): nat
    requires WellFormed(t)
    decreases t
  {
    if IsSentinel(t) then 1 else Size(t.left.value) + Size(t.right.value) + 3
  }

  lemma {:induction false} StepsSize(t: Node)
    requires WellFormed(t)
    ensures |Steps(t)| == Size(t)
    decreases t
  {
    if !IsSentinel(t) {
      StepsSize(t.left.value);
      StepsSize(t.right.value);
    }
  }

  /** traverseTree (App.js:42-53): appends the visits of `node` to the caller's array
      `steps`, passed along and returned since values are immutable. */
  function TraverseTree(node: Node, steps: seq<Node>): (r: seq<Node>)
    requires WellFormed(node)
    ensures r == steps + Steps(node)
    decreases node
  {
    if IsSentinel(node) then steps + [node]
    else
      var afterLeft := TraverseTree(node.left.value, steps + [node]);
      var afterRight := TraverseTree(node.right.value, afterLeft + [node]);
      afterRight + [node]
  }

  /** runTraversals (App.js:55-59): the walk of the whole tree into an empty array. */
  function RunTraversals(root: Node): (steps: seq<Node>)
    requires WellFormed(root)
    ensures steps == Steps(root)
  {
    TraverseTree(root, [])
  }

  /** How many times the walk visits a node. */
  function Visits(n: Node): nat
  {
    if IsSentinel(n) then 1 else 3
  }

  /** The keys of a sequence of steps, one per step. */
  function KeySeq(s: seq<Node>): (ks: seq<string>)
    ensures |ks| == |s| && forall i :: 0 <= i < |s| ==> ks[i] == Key(s[i])
  {
    seq(|s|, i requires 0 <= i < |s| => Key(s[i]))
  }

  lemma KeySeqAppend(a: seq<Node>, b: seq<Node>)
    ensures KeySeq(a + b) == KeySeq(a) + KeySeq(b)
  {
    assert forall i :: 0 <= i < |a + b| ==> KeySeq(a + b)[i] == (KeySeq(a) + KeySeq(b))[i];
  }

  /** The walk has 3 steps per internal node and 1 per sentinel: 3·4 + 5 = 17 for the fixed tree. */
  lemma {:induction false} StepsLength(t: Node)
    requires WellFormed(t)
    ensures |Steps(t)| == 3 * InternalCount(t) + SentinelCount(t)
    decreases t
  {
    if !IsSentinel(t) {
      StepsLength(t.left.value);
      StepsLength(t.right.value);
    }
  }

  /** Each node of the tree has its key among the tree's keys. */
  lemma {:induction false} MembersKeys(t: Node)
    requires WellFormed(t)
    ensures forall n :: n in Members(t) ==> Key(n) in TreeKeys(t)
    decreases t
  {
    if !IsSentinel(t) {
      MembersKeys(t.left.value);
      MembersKeys(t.right.value);
    }
  }

  /** Every step visits a node of the tree. */
  lemma {:induction false} StepsInTree(t: Node)
    requires WellFormed(t)
    ensures forall i :: 0 <= i < |Steps(t)| ==> Steps(t)[i] in Members(t) && Key(Steps(t)[i]) in TreeKeys(t)
    decreases t
  {
    if !IsSentinel(t) {
      var l, r := t.left.value, t.right.value;
      StepsInTree(l);
      StepsInTree(r);
      var a := |Steps(l)|;
      forall i | 0 <= i < |Steps(t)|
        ensures Steps(t)[i] in Members(t) && Key(Steps(t)[i]) in TreeKeys(t)
      {
        if i == 0 || i == a + 1 || i == |Steps(t)| - 1 {
        } else if i <= a {
          assert Steps(t)[i] == Steps(l)[i - 1];
        } else {
          assert Steps(t)[i] == Steps(r)[i - a - 2];
        }
      }
    }
  }

  /** The keys of the walk of an internal node, split at its three visits. */
  lemma StepsKeysSplit(t: Node)
    requires WellFormed(t) && !IsSentinel(t)
    ensures KeySeq(Steps(t)) ==
      [Key(t)] + KeySeq(Steps(t.left.value)) + [Key(t)] + KeySeq(Steps(t.right.value)) + [Key(t)]
  {
    var sl, sr := Steps(t.left.value), Steps(t.right.value);
    KeySeqAppend([t], sl);
    KeySeqAppend([t] + sl, [t]);
    KeySeqAppend([t] + sl + [t], sr);
    KeySeqAppend([t] + sl + [t] + sr, [t]);
  }

  lemma StepsKeysMultiset(t: Node)
    requires WellFormed(t) && !IsSentinel(t)
    ensures multiset(KeySeq(Steps(t))) ==
      multiset{Key(t), Key(t), Key(t)} + multiset(KeySeq(Steps(t.left.value))) + multiset(KeySeq(Steps(t.right.value)))
  {
    StepsKeysSplit(t);
    VisitsMultiset(Key(t), KeySeq(Steps(t.left.value)), KeySeq(Steps(t.right.value)));
  }

  lemma VisitsMultiset(k: string, kl: seq<string>, kr: seq<string>)
    ensures multiset([k] + kl + [k] + kr + [k]) == multiset{k, k, k} + multiset(kl) + multiset(kr)
  {
    calc {
      multiset([k] + kl + [k] + kr + [k]);
      multiset([k] + kl + [k] + kr) + multiset([k]);
      multiset([k] + kl + [k]) + multiset(kr) + multiset([k]);
      multiset([k] + kl) + multiset([k]) + multiset(kr) + multiset([k]);
      multiset([k]) + multiset(kl) + multiset([k]) + multiset(kr) + multiset([k]);
    }
  }

  /** Only the keys of the tree occur in its walk. */
  lemma KeysOutside(t: Node)
    requires WellFormed(t)
    ensures forall x :: x !in TreeKeys(t) ==> multiset(KeySeq(Steps(t)))[x] == 0
  {
    StepsInTree(t);
    var ks := KeySeq(Steps(t));
    forall x | x !in TreeKeys(t) ensures multiset(ks)[x] == 0 {
      assert x !in ks;
    }
  }

  /** In the walk of a tree with distinct keys, each node's key occurs once for a sentinel
      and three times for any other node. */
  lemma {:induction false} StepsVisits(t: Node)
    requires Traversable(t)
    ensures forall n :: n in Members(t) ==> multiset(KeySeq(Steps(t)))[Key(n)] == Visits(n)
    decreases t
  {
    if !IsSentinel(t) {
      var l, r := t.left.value, t.right.value;
      StepsVisits(l);
      StepsVisits(r);
      MembersKeys(l);
      MembersKeys(r);
      KeysOutside(l);
      KeysOutside(r);
      StepsKeysMultiset(t);
      var kt, ml, mr := Key(t), multiset(KeySeq(Steps(l))), multiset(KeySeq(Steps(r)));
      var m := multiset(KeySeq(Steps(t)));
      forall n | n in Members(t) ensures m[Key(n)] == Visits(n) {
        if n == t {
          assert ml[kt] == 0 && mr[kt] == 0;
        } else if n in Members(l) {
          assert mr[Key(n)] == 0;
        } else {
          assert ml[Key(n)] == 0;
        }
      }
    }
  }

  /** Where each step of the walk of an internal node comes from. */
  lemma StepsAt(t: Node, i: int)
    requires WellFormed(t) && !IsSentinel(t) && 0 <= i < |Steps(t)|
    ensures var sl, sr := Steps(t.left.value), Steps(t.right.value);
      var a, b := |sl|, |sr|;
      && |Steps(t)| == a + b + 3
      && (i == 0 || i == a + 1 || i == a + b + 2 ==> Steps(t)[i] == t)
      && (0 < i <= a ==> Steps(t)[i] == sl[i - 1])
      && (a + 1 < i < a + b + 2 ==> Steps(t)[i] == sr[i - a - 2])
  {
  }

  /** The key of an internal node occurs in its walk only at its own three visits. */
  lemma StepsKeyPositions(t: Node)
    requires Traversable(t) && !IsSentinel(t)
    ensures var s, a, b := Steps(t), |Steps(t.left.value)|, |Steps(t.right.value)|;
      forall i :: 0 <= i < |s| && Key(s[i]) == Key(t) ==> i == 0 || i == a + 1 || i == a + b + 2
  {
    var l, r := t.left.value, t.right.value;
    StepsInTree(l);
    StepsInTree(r);
    var s, a, b := Steps(t), |Steps(l)|, |Steps(r)|;
    assert Key(t) !in TreeKeys(l) && Key(t) !in TreeKeys(r);
    forall i | 0 <= i < |s|
      ensures Key(s[i]) == Key(t) ==> i == 0 || i == a + 1 || i == a + b + 2
    {
      StepsAt(t, i);
    }
  }

  /** Between the visits of an internal node lie exactly the walks of its subtrees. */
  lemma StepsBetweenVisits(t: Node)
    requires WellFormed(t) && !IsSentinel(t)
    ensures var s, sl, sr := Steps(t), Steps(t.left.value), Steps(t.right.value);
      var a, b := |sl|, |sr|;
      s[1..a + 1] == sl && s[a + 2..a + b + 2] == sr
  {
    var sl, sr := Steps(t.left.value), Steps(t.right.value);
    assert Steps(t) == [t] + sl + ([t] + sr + [t]);
    Middle([t], sl, [t] + sr + [t]);
    Middle([t] + sl + [t], sr, [t]);
  }

  /** Regrouping only: the middle part of a three-part concatenation. */
  lemma Middle<T>(p: seq<T>, m: seq<T>, q: seq<T>)
    ensures (p + m + q)[|p|..|p| + |m|] == m
  {
  }

}
