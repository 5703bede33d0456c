/**
 * flattenTreeLabels: the labels of a forest of {label, children} nodes in
 * pre-order. The JavaScript pushes onto one accumulator array from a
 * recursive `traverse`; the model threads that accumulator through a
 * recursive method and proves it equal to the pre-order functions below.
 */
module Flatten {
  import opened MatTree

  /** The labels of t in pre-order: the node itself, then each child's subtree in order. */
  function PreOrder(t: Tree): seq<string>
    decreases t, 1
  {
    [t.name] + PreOrderForest(t.children)
  }

  /** The labels of a forest in pre-order: each tree in turn. */
  function PreOrderForest(f: seq<Tree>): seq<string>
    decreases f, 0
  {
    if f == [] then [] else PreOrder(f[0]) + PreOrderForest(f[1..])
  }

  /** The number of nodes of a tree. */
  function Size(t: Tree): nat
    decreases t, 1
  {
    1 + ForestSize(t.children)
  }

  /** The number of nodes of a forest, summed from the last tree backwards. */
  function ForestSize(f: seq<Tree>): nat
    decreases f, 0
  {
    if f == [] then 0 else ForestSize(f[..|f| - 1]) + Size(f[|f| - 1])
  }

  /** Siblings keep their order: flattening distributes over concatenation. */
  lemma {:induction false} PreOrderForestAppend(f: seq<Tree>, g: seq<Tree>)
    ensures PreOrderForest(f + g) == PreOrderForest(f) + PreOrderForest(g)
    decreases |f|
  {
    if f == [] {
      assert f + g == g;
    } else {
      assert (f + g)[1..] == f[1..] + g;
      PreOrderForestAppend(f[1..], g);
    }
  }

  /** Each node's label appears once: the flattening is as long as the forest has nodes. */
  lemma {:induction false} PreOrderLength(t: Tree)
    ensures |PreOrder(t)| == Size(t)
    decreases t, 1
  {
    PreOrderForestLength(t.children);
  }

  lemma {:induction false} PreOrderForestLength(f: seq<Tree>)
    ensures |PreOrderForest(f)| == ForestSize(f)
    decreases f, 0
  {
    if f != [] {
      var init := f[..|f| - 1];
      var last := f[|f| - 1];
      assert f == init + [last];
      PreOrderForestAppend(init, [last]);
      assert [last][1..] == [];
      PreOrderForestLength(init);
      PreOrderLength(last);
    }
  }

  /** In a flattened forest, the trees before j come first, then tree j, then the ones after it. */
  lemma PreOrderForestSplit(f: seq<Tree>, j: nat)
    requires j < |f|
    ensures PreOrderForest(f) == PreOrderForest(f[..j]) + PreOrder(f[j]) + PreOrderForest(f[j + 1..])
  {
    var tail := f[j..];
    assert f == f[..j] + tail;
    PreOrderForestAppend(f[..j], tail);
    assert tail[0] == f[j] && tail[1..] == f[j + 1..];
  }

  /**
   * traverse(node): push node.label, then traverse each child in order. The
   * accumulator `labels` is the array the closure pushes onto.
   */
  method Traverse(node: Tree, labels: seq<string>) returns (labels': seq<string>)
    ensures labels' == labels + PreOrder(node)
    decreases node
  {
    labels' := labels + [node.name];
    var children := node.children;
    for j := 0 to |children|
      invariant labels' == labels + [node.name] + PreOrderForest(children[..j])
    {
      labels' := Traverse(children[j], labels');
      assert children[..j + 1] == children[..j] + [children[j]];
      PreOrderForestAppend(children[..j], [children[j]]);
      assert [children[j]][1..] == [];
    }
    assert children[..|children|] == children;
  }

  /** flattenTreeLabels(tree): traverse each root in order into one array. */
  method FlattenTreeLabels(tree: seq<Tree>) returns (labels: seq<string>)
    ensures labels == PreOrderForest(tree)
    ensures |labels| == ForestSize(tree)
  {
    labels := [];
    for i := 0 to |tree|
      invariant labels == PreOrderForest(tree[..i])
    {
      labels := Traverse(tree[i], labels);
      assert tree[..i + 1] == tree[..i] + [tree[i]];
      PreOrderForestAppend(tree[..i], [tree[i]]);
      assert [tree[i]][1..] == [];
    }
    assert tree[..|tree|] == tree;
    PreOrderForestLength(tree);
  }
}
