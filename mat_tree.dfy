/**
 * buildMatTree: turns the page's mat-tree-node elements, read in document
 * (pre-)order as (label, aria-level) pairs, into a forest of {label, children}
 * nodes, then drops the operational root categories.
 *
 * The JavaScript keeps node objects that are shared between `tree`, `stack`
 * and the parents' `children` arrays and mutated through any of them. The
 * model gives every created node an index into an arena `cells` (creation
 * order); a reference is an index, `stack` holds optional indices, and
 * `parentNode.children.push(newNode)` appends an index to the parent's cell.
 *
 * The method is proved against a declarative description of the same
 * arena: what each stack slot holds (SlotSpec), which node is each node's
 * parent (ParentAt), and the children of each node in input order
 * (ChildrenUpTo).
 */
module MatTree {
  import opened Wrappers
  import opened JsRuntime

  /** A parsed aria-level; the model takes levels of at least 1. */
  type Level = n: int | n >= 1 witness 1

  /**
   * One mat-tree-node: the innerText of its checkbox label (None when the node
   * has no label span) and its aria-level (None when the attribute is absent
   * or empty, which the source reads as '1').
   */
  datatype Entry = Entry(labelText: Option<string>, ariaLevel: Option<Level>)

  /** A node {label, children} of the built tree (`label` is a keyword in Dafny, hence `name`). */
  datatype Tree = Node(name: string, children: seq<Tree>)

  /** A node as the loop creates it: the trimmed label and the level. */
  datatype Kept = Kept(name: string, level: Level)

  /** The arena slot of one created node: its label and its children's indices. */
  datatype Cell = Cell(name: string, children: seq<nat>)

  /** Root categories that are not part of the taxonomy proper. */
  const Denylist: seq<string> := ["InnoTech", "KriMiSi", "Auftragstags"]

  /** The trimmed label, or "" when there is no label span (both are skipped). */
  function LabelOf(e: Entry): (r: string)
    ensures IsTrimmed(r)
    ensures r == "" <==> e.labelText.None? || AllWhitespace(e.labelText.value)
  {
    match e.labelText
    case None => ""
    case Some(t) => TrimEmptyIff(t); Trim(t)
  }

  /** An absent or empty aria-level reads as 1; otherwise the parsed level. */
  function LevelOf(e: Entry): (r: Level)
    ensures e.ariaLevel.None? ==> r == 1
    ensures e.ariaLevel.Some? ==> r == e.ariaLevel.value
  {
    match e.ariaLevel
    case None => 1
    case Some(l) => l
  }

  /** The entries the loop does not skip, as the nodes they create. */
  function KeptEntries(es: seq<Entry>): (k: seq<Kept>)
    ensures |k| <= |es|
    ensures forall i :: 0 <= i < |k| ==> k[i].name != "" && IsTrimmed(k[i].name)
  {
    if es == [] then []
    else
      var e := es[|es| - 1];
      KeptEntries(es[..|es| - 1]) + (if LabelOf(e) == "" then [] else [Kept(LabelOf(e), LevelOf(e))])
  }

  // ---------------------------------------------------------------------
  // Declarative description of the stack and of the arena
  // ---------------------------------------------------------------------

  /**
   * stack[j] after the nodes K were created: slot j is written only by a
   * level-j node and cut off by any node of a smaller level, so it holds the
   * latest node of level at most j, if that node's level is exactly j.
   */
  function SlotSpec(K: seq<Kept>, j: int): (r: Option<nat>)
    ensures r.Some? ==> r.value < |K| && K[r.value].level == j
  {
    if K == [] then None
    else if K[|K| - 1].level == j then Some(|K| - 1)
    else if K[|K| - 1].level < j then None
    else SlotSpec(K[..|K| - 1], j)
  }

  /**
   * The node that K[p] is pushed onto: none for a root, otherwise what
   * stack[level - 1] held just before K[p] was created.
   */
  function ParentAt(K: seq<Kept>, p: nat): (r: Option<nat>)
    requires p < |K|
    ensures r.Some? ==> r.value < p && K[r.value].level == K[p].level - 1
    ensures K[p].level == 1 ==> r.None?
  {
    if K[p].level == 1 then None else SlotSpec(K[..p], K[p].level - 1)
  }

  /** The indices below n whose parent is q, in creation order. */
  function ChildrenUpTo(K: seq<Kept>, q: nat, n: nat): (r: seq<nat>)
    requires n <= |K|
    ensures forall c :: c in r ==> q < c < n
    ensures forall a, b :: 0 <= a < b < |r| ==> r[a] < r[b]
  {
    if n == 0 then []
    else
      var r := ChildrenUpTo(K, q, n - 1);
      assert forall a :: 0 <= a < |r| ==> r[a] in r;
      r + (if ParentAt(K, n - 1) == Some(q) then [n - 1] else [])
  }

  /** The indices below n of the level-1 nodes, in creation order. */
  function RootsUpTo(K: seq<Kept>, n: nat): (r: seq<nat>)
    requires n <= |K|
    ensures forall c :: c in r ==> c < n
    ensures forall a, b :: 0 <= a < b < |r| ==> r[a] < r[b]
  {
    if n == 0 then []
    else
      var r := RootsUpTo(K, n - 1);
      assert forall a :: 0 <= a < |r| ==> r[a] in r;
      r + (if K[n - 1].level == 1 then [n - 1] else [])
  }

  /** Every child index points past its parent and into the arena. */
  predicate WellFormed(cells: seq<Cell>) {
    forall q, c :: 0 <= q < |cells| && c in cells[q].children ==> q < c < |cells|
  }

  /** The arena after the nodes K were created, node by node. */
  function CellsOf(K: seq<Kept>): (cells: seq<Cell>)
    ensures |cells| == |K|
  {
    seq(|K|, q requires 0 <= q < |K| => Cell(K[q].name, ChildrenUpTo(K, q, |K|)))
  }

  /** A child is always created after its parent. */
  lemma CellsWellFormed(K: seq<Kept>)
    ensures WellFormed(CellsOf(K))
  {
    var cells := CellsOf(K);
    forall q, c | 0 <= q < |cells| && c in cells[q].children
      ensures q < c < |cells|
    {
      assert cells[q].children == ChildrenUpTo(K, q, |K|);
    }
  }

  // ---------------------------------------------------------------------
  // From the arena to the nested value
  // ---------------------------------------------------------------------

  /** The node object at index q, with everything reachable through its children. */
  function MaterializeNode(cells: seq<Cell>, q: nat): (t: Tree)
    requires WellFormed(cells) && q < |cells|
    ensures t.name == cells[q].name && |t.children| == |cells[q].children|
    decreases |cells| - q, 1, 0
  {
    Node(cells[q].name, MaterializeList(cells, cells[q].children, q))
  }

  /** The node objects at the indices ids, all above lo. */
  function MaterializeList(cells: seq<Cell>, ids: seq<nat>, lo: int): (ts: seq<Tree>)
    requires WellFormed(cells)
    requires forall c :: c in ids ==> lo < c < |cells|
    ensures |ts| == |ids|
    decreases |cells| - lo, 0, |ids|
  {
    if ids == [] then []
    else
      assert ids[0] in ids;
      assert forall c :: c in ids[1..] ==> c in ids;
      [MaterializeNode(cells, ids[0])] + MaterializeList(cells, ids[1..], lo)
  }

  /** tree.filter(node => !Denylist.includes(node.label)) */
  function DropDenylisted(f: seq<Tree>): (r: seq<Tree>)
    ensures |r| <= |f|
  {
    if f == [] then []
    else (if f[0].name in Denylist then [] else [f[0]]) + DropDenylisted(f[1..])
  }

  /** The forest that buildMatTree returns for the entries es. */
  function MatTreeOf(es: seq<Entry>): seq<Tree> {
    var K := KeptEntries(es);
    CellsWellFormed(K);
    DropDenylisted(MaterializeList(CellsOf(K), RootsUpTo(K, |K|), -1))
  }

  // ---------------------------------------------------------------------
  // One loop iteration, stated on the declarative description
  // ---------------------------------------------------------------------

  /** The stack as the loop leaves it: length level + 1, each slot as SlotSpec says. */
  predicate StackHolds(stack: seq<Option<nat>>, K: seq<Kept>) {
    && |stack| == (if K == [] then 0 else K[|K| - 1].level + 1)
    && forall j :: 0 <= j < |stack| ==> stack[j] == SlotSpec(K, j)
  }

  /** No slot at or beyond the stack's length holds a node. */
  lemma SlotBeyondStack(stack: seq<Option<nat>>, K: seq<Kept>, j: int)
    requires StackHolds(stack, K) && j >= |stack|
    ensures SlotSpec(K, j) == None
  {
  }

  /** Creating a node changes no slot below its level. */
  lemma SlotBelowNewNode(K: seq<Kept>, k: Kept, j: int)
    requires j < k.level
    ensures SlotSpec(K + [k], j) == SlotSpec(K, j)
  {
    assert (K + [k])[..|K|] == K;
  }

  /** Creating a node leaves the earlier nodes' parents as they were. */
  lemma ParentStable(K: seq<Kept>, k: Kept, p: nat)
    requires p < |K|
    ensures ParentAt(K + [k], p) == ParentAt(K, p)
  {
    assert (K + [k])[..p] == K[..p];
  }

  lemma {:induction false} ChildrenStable(K: seq<Kept>, k: Kept, q: nat, n: nat)
    requires n <= |K|
    ensures ChildrenUpTo(K + [k], q, n) == ChildrenUpTo(K, q, n)
    decreases n
  {
    if n > 0 {
      ChildrenStable(K, k, q, n - 1);
      ParentStable(K, k, n - 1);
      ChildrenStep(K + [k], q, n);
      ChildrenStep(K, q, n);
    }
  }

  /** One more index: it joins q's children exactly when its parent is q. */
  lemma ChildrenStep(K: seq<Kept>, q: nat, n: nat)
    requires 0 < n <= |K|
    ensures ChildrenUpTo(K, q, n)
              == ChildrenUpTo(K, q, n - 1) + (if ParentAt(K, n - 1) == Some(q) then [n - 1] else [])
  {
  }

  lemma {:induction false} RootsStable(K: seq<Kept>, k: Kept, n: nat)
    requires n <= |K|
    ensures RootsUpTo(K + [k], n) == RootsUpTo(K, n)
    decreases n
  {
    if n > 0 {
      RootsStable(K, k, n - 1);
    }
  }

  /**
   * A new node is appended as the last child of its parent and as a new
   * childless cell; every other node keeps its children.
   */
  lemma NewNodeIsLastChild(K: seq<Kept>, k: Kept, q: nat)
    requires q < |K|
    ensures ChildrenUpTo(K + [k], q, |K| + 1)
         == ChildrenUpTo(K, q, |K|) + (if ParentAt(K + [k], |K|) == Some(q) then [|K|] else [])
  {
    ChildrenStable(K, k, q, |K|);
  }

  /** A level-1 node is appended to the roots; other nodes leave them alone. */
  lemma NewRootIsLast(K: seq<Kept>, k: Kept)
    ensures RootsUpTo(K + [k], |K| + 1) == RootsUpTo(K, |K|) + (if k.level == 1 then [|K|] else [])
  {
    RootsStable(K, k, |K|);
  }

  /**
   * buildMatTree. The loop mirrors the source: skip unlabelled nodes; create
   * the node; a level-1 node becomes a new root and stack[1]; any other node is
   * pushed onto stack[level - 1] when that slot is set and is stored at
   * stack[level] either way; then `stack.length = level + 1`. Afterwards the
   * denylisted roots are dropped.
   */
  method BuildMatTree(entries: seq<Entry>) returns (tree: seq<Tree>)
    ensures tree == MatTreeOf(entries)
  {
    var cells: seq<Cell> := [];
    var roots: seq<nat> := [];
    var stack: seq<Option<nat>> := [];
    ghost var kept: seq<Kept> := [];
    for i := 0 to |entries|
      invariant kept == KeptEntries(entries[..i])
      invariant cells == CellsOf(kept)
      invariant roots == RootsUpTo(kept, |kept|)
      invariant StackHolds(stack, kept)
    {
      KeptStep(entries, i);
      var name := LabelOf(entries[i]);
      if name == "" {
        continue;
      }
      var level := LevelOf(entries[i]);
      cells, roots, stack := PlaceNode(cells, roots, stack, name, level, kept);
      kept := kept + [Kept(name, level)];
    }
    assert entries[..|entries|] == entries;
    CellsWellFormed(kept);
    tree := DropDenylisted(MaterializeList(cells, roots, -1));
  }

  /**
   * The body of buildMatTree's loop for one labelled list item: create the
   * node; a level-1 node becomes a new root and stack[1]; any other node is
   * pushed onto the children of stack[level - 1] when that slot is set, and
   * is stored at stack[level] either way; then `stack.length = level + 1`.
   */
  method PlaceNode(cells: seq<Cell>, roots: seq<nat>, stack: seq<Option<nat>>,
                   name: string, level: Level, ghost kept: seq<Kept>)
    returns (cells': seq<Cell>, roots': seq<nat>, stack': seq<Option<nat>>)
    requires cells == CellsOf(kept)
    requires roots == RootsUpTo(kept, |kept|)
    requires StackHolds(stack, kept)
    ensures cells' == CellsOf(kept + [Kept(name, level)])
    ensures roots' == RootsUpTo(kept + [Kept(name, level)], |kept| + 1)
    ensures StackHolds(stack', kept + [Kept(name, level)])
  {
    ghost var k := Kept(name, level);
    var node := |cells|;
    cells' := cells + [Cell(name, [])];
    roots' := roots;
    CellsStep(kept, k);
    NewRootIsLast(kept, k);
    StackStep(stack, kept, k);
    if level == 1 {
      roots' := roots + [node];
      stack' := AssignAt(stack, 1, node);
    } else {
      var parent := if level - 1 < |stack| then stack[level - 1] else None;
      if level - 1 >= |stack| {
        SlotBeyondStack(stack, kept, level - 1);
      }
      assert parent == ParentAt(kept + [k], node) by {
        assert (kept + [k])[..node] == kept;
      }
      if parent.Some? {
        var p := parent.value;
        cells' := cells'[p := cells'[p].(children := cells'[p].children + [node])];
      }
      stack' := AssignAt(stack, level, node);
    }
    stack' := WithLength(stack', level + 1);
  }

  lemma KeptStep(es: seq<Entry>, i: nat)
    requires i < |es|
    ensures KeptEntries(es[..i + 1]) == KeptEntries(es[..i])
      + (if LabelOf(es[i]) == "" then [] else [Kept(LabelOf(es[i]), LevelOf(es[i]))])
  {
    assert es[..i + 1][..i] == es[..i];
  }

  /** A node has no children among the nodes created up to and including itself. */
  lemma {:induction false} NoChildrenYet(K: seq<Kept>, q: nat, n: nat)
    requires n <= |K| && n <= q + 1
    ensures ChildrenUpTo(K, q, n) == []
    decreases n
  {
    if n > 0 {
      NoChildrenYet(K, q, n - 1);
    }
  }

  /** The arena after one more node, as the loop body updates it. */
  lemma CellsStep(K: seq<Kept>, k: Kept)
    ensures CellsOf(K + [k]) ==
      var grown := CellsOf(K) + [Cell(k.name, [])];
      match ParentAt(K + [k], |K|)
      case None => grown
      case Some(q) => grown[q := grown[q].(children := grown[q].children + [|K|])]
  {
    var K' := K + [k];
    var grown := CellsOf(K) + [Cell(k.name, [])];
    var expected :=
      match ParentAt(K', |K|)
      case None => grown
      case Some(q) => grown[q := grown[q].(children := grown[q].children + [|K|])];
    assert |CellsOf(K')| == |expected|;
    forall q | 0 <= q < |K'|
      ensures CellsOf(K')[q] == expected[q]
    {
      if q < |K| {
        NewNodeIsLastChild(K, k, q);
        assert K'[q] == K[q];
        assert grown[q] == CellsOf(K)[q];
      } else {
        NoChildrenYet(K', q, |K'|);
      }
    }
  }

  /** The stack after one more node, as the loop body updates it. */
  lemma StackStep(stack: seq<Option<nat>>, K: seq<Kept>, k: Kept)
    requires StackHolds(stack, K)
    ensures StackHolds(WithLength(AssignAt(stack, k.level, |K|), k.level + 1), K + [k])
  {
    var a := AssignAt(stack, k.level, |K|);
    var s' := WithLength(a, k.level + 1);
    forall j | 0 <= j < |s'|
      ensures s'[j] == SlotSpec(K + [k], j)
    {
      assert s'[j] == a[j];
      if j == k.level {
        assert (K + [k])[|K|] == k;
      } else {
        SlotBelowNewNode(K, k, j);
        if j >= |stack| {
          SlotBeyondStack(stack, K, j);
        }
      }
    }
  }

  // ---------------------------------------------------------------------
  // Properties of the built forest
  // ---------------------------------------------------------------------

  lemma {:induction false} KeptAppend(xs: seq<Entry>, ys: seq<Entry>)
    ensures KeptEntries(xs + ys) == KeptEntries(xs) + KeptEntries(ys)
    decreases |ys|
  {
    if ys == [] {
      assert xs + ys == xs;
    } else {
      var ys' := ys[..|ys| - 1];
      assert (xs + ys)[..|xs + ys| - 1] == xs + ys';
      KeptAppend(xs, ys');
    }
  }

  /**
   * An item without a label, or whose label trims to "", is skipped: it
   * neither creates a node nor touches the stack, so the forest is the same
   * as if it were not there.
   */
  lemma SkippedEntryIsInvisible(xs: seq<Entry>, e: Entry, ys: seq<Entry>)
    requires LabelOf(e) == ""
    ensures KeptEntries(xs + [e] + ys) == KeptEntries(xs + ys)
    ensures MatTreeOf(xs + [e] + ys) == MatTreeOf(xs + ys)
  {
    SkippedEntryKeepsNothing(xs, e, ys);
    SameNodesSameTree(xs + [e] + ys, xs + ys);
  }

  lemma SkippedEntryKeepsNothing(xs: seq<Entry>, e: Entry, ys: seq<Entry>)
    requires LabelOf(e) == ""
    ensures KeptEntries(xs + [e] + ys) == KeptEntries(xs + ys)
  {
    KeptAppend(xs + [e], ys);
    KeptAppend(xs, ys);
    assert KeptEntries(xs + [e]) == KeptEntries(xs) by {
      assert (xs + [e])[..|xs|] == xs;
    }
  }

  /** The forest depends on the entries only through the nodes they create. */
  lemma SameNodesSameTree(es: seq<Entry>, es': seq<Entry>)
    requires KeptEntries(es) == KeptEntries(es')
    ensures MatTreeOf(es) == MatTreeOf(es')
  {
  }

  /** The roots are exactly the level-1 nodes. */
  lemma {:induction false} RootsAreLevelOne(K: seq<Kept>, n: nat, c: nat)
    requires n <= |K|
    ensures c in RootsUpTo(K, n) <==> c < n && K[c].level == 1
    decreases n
  {
    if n > 0 {
      RootsAreLevelOne(K, n - 1, c);
    }
  }

  /** The children of q are exactly the nodes whose parent is q. */
  lemma {:induction false} ChildrenAreParented(K: seq<Kept>, q: nat, n: nat, c: nat)
    requires n <= |K|
    ensures c in ChildrenUpTo(K, q, n) <==> c < n && ParentAt(K, c) == Some(q)
    decreases n
  {
    if n > 0 {
      ChildrenAreParented(K, q, n - 1, c);
    }
  }

  /**
   * A node of level > 1 is placed in exactly one children list, that of its
   * parent, whose level is one less; a node whose parent slot was empty is
   * neither a root nor anybody's child.
   */
  lemma PlacedOnce(K: seq<Kept>, c: nat)
    requires c < |K|
    ensures c in RootsUpTo(K, |K|) <==> K[c].level == 1
    ensures forall q :: 0 <= q < |K| ==> (c in CellsOf(K)[q].children <==> ParentAt(K, c) == Some(q))
  {
    RootsAreLevelOne(K, |K|, c);
    forall q | 0 <= q < |K|
      ensures c in CellsOf(K)[q].children <==> ParentAt(K, c) == Some(q)
    {
      ChildrenAreParented(K, q, |K|, c);
    }
  }

  /**
   * After an item of level l is placed, the stack has length l + 1, holds
   * the new node at index l, and every slot below l holds the latest node of
   * that level still open.
   */
  lemma StackTop(stack: seq<Option<nat>>, K: seq<Kept>, k: Kept)
    requires StackHolds(stack, K + [k])
    ensures |stack| == k.level + 1
    ensures stack[k.level] == Some(|K|)
    ensures forall j :: 0 <= j < k.level ==> stack[j] == SlotSpec(K, j)
  {
    forall j | 0 <= j < k.level
      ensures stack[j] == SlotSpec(K, j)
    {
      SlotBelowNewNode(K, k, j);
    }
  }

  /** The denylist filter keeps the others in their order: it distributes over concatenation. */
  lemma {:induction false} DropDenylistedAppend(f: seq<Tree>, g: seq<Tree>)
    ensures DropDenylisted(f + g) == DropDenylisted(f) + DropDenylisted(g)
    decreases |f|
  {
    if f == [] {
      assert f + g == g;
    } else {
      assert (f + g)[1..] == f[1..] + g;
      DropDenylistedAppend(f[1..], g);
    }
  }

  /** The filter drops a single root exactly when its label is denylisted. */
  lemma DropDenylistedSingle(t: Tree)
    ensures DropDenylisted([t]) == if t.name in Denylist then [] else [t]
  {
    assert [t][1..] == [];
  }

  /** No root of the result is denylisted, and every other root survives, whole. */
  lemma {:induction false} DropDenylistedContents(f: seq<Tree>, t: Tree)
    ensures t in DropDenylisted(f) <==> t in f && t.name !in Denylist
    decreases |f|
  {
    if f != [] {
      DropDenylistedContents(f[1..], t);
      assert f == [f[0]] + f[1..];
    }
  }

  lemma {:induction false} DropDenylistedIdempotent(f: seq<Tree>)
    ensures DropDenylisted(DropDenylisted(f)) == DropDenylisted(f)
    decreases |f|
  {
    if f != [] {
      DropDenylistedIdempotent(f[1..]);
      var head := if f[0].name in Denylist then [] else [f[0]];
      DropDenylistedAppend(head, DropDenylisted(f[1..]));
      if head != [] {
        DropDenylistedSingle(f[0]);
      }
    }
  }
}
