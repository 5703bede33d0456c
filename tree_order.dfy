/**
 * How the forest buildMatTree builds reads in pre-order. Every item that gets
 * a node is either placed (its chain of parents ends at a level-1 node) or
 * detached (somewhere up the chain the parent slot was empty, so the node
 * and everything hung below it are reachable from no root). The theorem:
 * flattening the built forest lists exactly the labels of the placed items,
 * each once, in the order of the items on the page.
 */
module TreeOrder {
  import opened Wrappers
  import opened MatTree
  import opened Flatten

  /**
   * The node a node hangs from: its parent's index, -1 for a level-1 node
   * (the forest's roots hang from an imagined node above them), or -2 when
   * its parent slot was empty and it hangs from nothing.
   */
  function Up(K: seq<Kept>, p: nat): (r: int)
    requires p < |K|
    ensures -2 <= r < p
    ensures r == -1 <==> K[p].level == 1
  {
    if K[p].level == 1 then -1
    else match ParentAt(K, p)
         case Some(q) => q
         case None => -2
  }

  /** The level of a node; 0 for the imagined node above the roots. */
  function Depth(K: seq<Kept>, q: int): int
    requires -1 <= q < |K|
  {
    if q == -1 then 0 else K[q].level
  }

  /** p hangs, directly or further down, from q. */
  predicate Below(K: seq<Kept>, q: int, p: nat)
    requires p < |K|
    decreases p
  {
    var u := Up(K, p);
    u == q || (u >= 0 && Below(K, q, u))
  }

  /** The children of q in the built forest: the roots for -1. */
  function ChildList(K: seq<Kept>, q: int): (ids: seq<nat>)
    requires -1 <= q < |K|
    ensures forall j :: 0 <= j < |ids| ==> q < ids[j] < |K|
    ensures forall a, b :: 0 <= a < b < |ids| ==> ids[a] < ids[b]
  {
    var ids := if q == -1 then RootsUpTo(K, |K|) else ChildrenUpTo(K, q, |K|);
    // RootsUpTo and ChildrenUpTo bound their members; this lifts that to indices.
    assert forall j :: 0 <= j < |ids| ==> ids[j] in ids;
    ids
  }

  /** The labels of the nodes in [lo, hi) that hang below q, in input order. */
  function DescNames(K: seq<Kept>, q: int, lo: nat, hi: nat): seq<string>
    requires lo <= hi <= |K|
    decreases hi - lo
  {
    if lo == hi then []
    else (if Below(K, q, lo) then [K[lo].name] else []) + DescNames(K, q, lo + 1, hi)
  }

  // ---------------------------------------------------------------------
  // The stack discipline, in terms of levels
  // ---------------------------------------------------------------------

  /** The node in a stack slot is the last one at that level: every later node is deeper. */
  lemma {:induction false} SlotIsLast(K: seq<Kept>, j: int, r: nat)
    requires SlotSpec(K, j) == Some(r)
    ensures forall x :: r < x < |K| ==> K[x].level > j
    decreases |K|
  {
    var n := |K|;
    if K[n - 1].level != j {
      var K' := K[..n - 1];
      SlotIsLast(K', j, r);
      forall x | r < x < n
        ensures K[x].level > j
      {
        if x < n - 1 {
          assert K[x] == K'[x];
        }
      }
    }
  }

  /** A node's parent is one level up, and everything between them is deeper than the parent. */
  lemma UpLevels(K: seq<Kept>, p: nat)
    requires p < |K| && Up(K, p) >= -1
    ensures Depth(K, Up(K, p)) == K[p].level - 1
    ensures forall x :: Up(K, p) < x < p ==> K[x].level > Depth(K, Up(K, p))
  {
    var q := Up(K, p);
    if q >= 0 {
      var K' := K[..p];
      assert SlotSpec(K', K[p].level - 1) == Some(q);
      SlotIsLast(K', K[p].level - 1, q);
      forall x | q < x < p
        ensures K[x].level > Depth(K, q)
      {
        assert K[x] == K'[x];
      }
    }
  }

  lemma {:induction false} BelowIsAfter(K: seq<Kept>, q: int, p: nat)
    requires p < |K| && Below(K, q, p)
    ensures q < p
    decreases p
  {
    var u := Up(K, p);
    if u != q {
      BelowIsAfter(K, q, u);
    }
  }

  /** Everything from a node down to any node below it is deeper than the node. */
  lemma {:induction false} BelowIsDeeper(K: seq<Kept>, q: int, p: nat)
    requires -1 <= q && p < |K| && Below(K, q, p)
    ensures q < p
    ensures forall x :: q < x <= p ==> K[x].level > Depth(K, q)
    decreases p
  {
    var u := Up(K, p);
    UpLevels(K, p);
    if u != q {
      BelowIsDeeper(K, q, u);
      BelowIsAfter(K, q, u);
    }
  }

  /** Below is transitive through a child. */
  lemma {:induction false} BelowThroughChild(K: seq<Kept>, q: int, c: nat, p: nat)
    requires c < |K| && p < |K| && Up(K, c) == q && Below(K, c, p)
    ensures Below(K, q, p)
    decreases p
  {
    var u := Up(K, p);
    if u != c {
      BelowThroughChild(K, q, c, u);
    }
  }

  /** A node below q that is not q's child lies below one of q's children. */
  lemma {:induction false} BelowSomeChild(K: seq<Kept>, q: int, p: nat)
    requires p < |K| && Below(K, q, p) && Up(K, p) != q
    ensures exists c :: 0 <= c < |K| && Up(K, c) == q && Below(K, c, p)
    decreases p
  {
    var u := Up(K, p);
    if Up(K, u) != q {
      BelowSomeChild(K, q, u);
      var c :| 0 <= c < |K| && Up(K, c) == q && Below(K, c, u);
      assert Below(K, c, p);
    }
  }

  lemma ChildListMembers(K: seq<Kept>, q: int, c: nat)
    requires -1 <= q < |K| && c < |K|
    ensures c in ChildList(K, q) <==> Up(K, c) == q
  {
    if q == -1 {
      RootsAreLevelOne(K, |K|, c);
    } else {
      ChildrenAreParented(K, q, |K|, c);
    }
  }

  // ---------------------------------------------------------------------
  // Slicing the list of names
  // ---------------------------------------------------------------------

  lemma {:induction false} DescNamesSplit(K: seq<Kept>, q: int, lo: nat, mid: nat, hi: nat)
    requires lo <= mid <= hi <= |K|
    ensures DescNames(K, q, lo, hi) == DescNames(K, q, lo, mid) + DescNames(K, q, mid, hi)
    decreases mid - lo
  {
    if lo < mid {
      DescNamesSplit(K, q, lo + 1, mid, hi);
    }
  }

  lemma {:induction false} DescNamesEmpty(K: seq<Kept>, q: int, lo: nat, hi: nat)
    requires lo <= hi <= |K|
    requires forall x :: lo <= x < hi ==> !Below(K, q, x)
    ensures DescNames(K, q, lo, hi) == []
    decreases hi - lo
  {
    if lo < hi {
      DescNamesEmpty(K, q, lo + 1, hi);
    }
  }

  lemma {:induction false} DescNamesSame(K: seq<Kept>, q: int, q': int, lo: nat, hi: nat)
    requires lo <= hi <= |K|
    requires forall x :: lo <= x < hi ==> (Below(K, q, x) <==> Below(K, q', x))
    ensures DescNames(K, q, lo, hi) == DescNames(K, q', lo, hi)
    decreases hi - lo
  {
    if lo < hi {
      DescNamesSame(K, q, q', lo + 1, hi);
    }
  }

  // ---------------------------------------------------------------------
  // Where each child's subtree lies
  // ---------------------------------------------------------------------

  /** Where the i-th child of q starts; the end of the input past the last child. */
  function Start(K: seq<Kept>, q: int, i: nat): (n: nat)
    requires -1 <= q < |K| && i <= |ChildList(K, q)|
    ensures n <= |K|
  {
    var ids := ChildList(K, q);
    if i < |ids| then
      assert ids[i] in ids;
      ids[i]
    else |K|
  }

  /** Every node below q is a child of q or lies after one. */
  lemma BelowReachesChild(K: seq<Kept>, q: int, x: nat)
    requires -1 <= q < |K| && x < |K|
    ensures Below(K, q, x) ==>
              exists j :: 0 <= j < |ChildList(K, q)| && ChildList(K, q)[j] <= x
  {
    var ids := ChildList(K, q);
    if Below(K, q, x) {
      if Up(K, x) == q {
        ChildListMembers(K, q, x);
        var j :| 0 <= j < |ids| && ids[j] == x;
      } else {
        BelowSomeChild(K, q, x);
        var c :| 0 <= c < |K| && Up(K, c) == q && Below(K, c, x);
        ChildListMembers(K, q, c);
        BelowIsAfter(K, c, x);
        var j :| 0 <= j < |ids| && ids[j] == c;
      }
    }
  }

  /** Nothing between q and its first child hangs below q. */
  lemma NoneBeforeFirstChild(K: seq<Kept>, q: int)
    requires -1 <= q < |K|
    ensures q + 1 <= Start(K, q, 0)
    ensures forall x :: q < x < Start(K, q, 0) ==> !Below(K, q, x)
  {
    var ids := ChildList(K, q);
    forall x | q < x < Start(K, q, 0)
      ensures !Below(K, q, x)
    {
      BelowReachesChild(K, q, x);
    }
  }

  /** The subtree of a child ends before its next sibling. */
  lemma SubtreeBeforeSibling(K: seq<Kept>, q: int, c: nat, c': nat, p: nat)
    requires -1 <= q && c < |K| && c' < |K| && p < |K|
    requires Up(K, c) == q && Up(K, c') == q
    ensures Below(K, c, p) && c < c' ==> p < c'
  {
    if Below(K, c, p) {
      UpLevels(K, c);
      UpLevels(K, c');
      BelowIsDeeper(K, c, p);
    }
  }

  /** Between a child c and the next child, the nodes below q are exactly those below c. */
  lemma BetweenSiblings(K: seq<Kept>, q: int, i: nat)
    requires -1 <= q < |K| && i < |ChildList(K, q)|
    ensures forall x :: ChildList(K, q)[i] < x < Start(K, q, i + 1) ==>
              (Below(K, q, x) <==> Below(K, ChildList(K, q)[i], x))
  {
    forall x | ChildList(K, q)[i] < x < Start(K, q, i + 1)
      ensures Below(K, q, x) <==> Below(K, ChildList(K, q)[i], x)
    {
      BetweenSiblingsAt(K, q, i, x);
    }
  }

  lemma BetweenSiblingsAt(K: seq<Kept>, q: int, i: nat, x: nat)
    requires -1 <= q < |K| && i < |ChildList(K, q)|
    requires ChildList(K, q)[i] < x < Start(K, q, i + 1)
    ensures Below(K, q, x) <==> Below(K, ChildList(K, q)[i], x)
  {
    var c := ChildList(K, q)[i];
    ChildListMembers(K, q, c);
    if Below(K, c, x) {
      BelowThroughChild(K, q, c, x);
    }
    BelowParentInSpan(K, q, i, x);
  }

  /** Between the i-th child and the next, what hangs below q hangs below the i-th child. */
  lemma BelowParentInSpan(K: seq<Kept>, q: int, i: nat, x: nat)
    requires -1 <= q < |K| && i < |ChildList(K, q)|
    requires ChildList(K, q)[i] < x < Start(K, q, i + 1)
    ensures Below(K, q, x) ==> Below(K, ChildList(K, q)[i], x)
  {
    var ids := ChildList(K, q);
    var c := ids[i];
    if Below(K, q, x) {
      NotAChild(K, q, i, x);
      BelowSomeChild(K, q, x);
      var c' :| 0 <= c' < |K| && Up(K, c') == q && Below(K, c', x);
      ChildListMembers(K, q, c');
      ChildListMembers(K, q, c);
      var j :| 0 <= j < |ids| && ids[j] == c';
      BelowIsAfter(K, c', x);
      SubtreeBeforeSibling(K, q, c', c, x);
      assert c <= c';
      assert j <= i;
    }
  }

  /** No child of q lies strictly between two consecutive children. */
  lemma NotAChild(K: seq<Kept>, q: int, i: nat, x: nat)
    requires -1 <= q < |K| && i < |ChildList(K, q)|
    requires ChildList(K, q)[i] < x < Start(K, q, i + 1)
    ensures Up(K, x) != q
  {
    var ids := ChildList(K, q);
    ChildListMembers(K, q, x);
    forall j | 0 <= j < |ids|
      ensures ids[j] != x
    {
      if j < i {
        assert ids[j] < ids[i];
      } else if j > i + 1 {
        assert ids[i + 1] < ids[j];
      }
    }
  }

  /** Nothing from the next sibling on hangs below a child. */
  lemma SubtreeEnds(K: seq<Kept>, q: int, i: nat)
    requires -1 <= q < |K| && i < |ChildList(K, q)|
    ensures forall x :: Start(K, q, i + 1) <= x < |K| ==> !Below(K, ChildList(K, q)[i], x)
  {
    var ids := ChildList(K, q);
    if i + 1 < |ids| {
      ChildListMembers(K, q, ids[i]);
      ChildListMembers(K, q, ids[i + 1]);
      forall x | ids[i + 1] <= x < |K|
        ensures !Below(K, ids[i], x)
      {
        SubtreeBeforeSibling(K, q, ids[i], ids[i + 1], x);
      }
    }
  }

  // ---------------------------------------------------------------------
  // The pre-order of the built forest
  // ---------------------------------------------------------------------

  /** A node's subtree lists the node, then everything below it, in input order. */
  lemma {:induction false} SubtreeOrder(K: seq<Kept>, q: nat)
    requires q < |K| && WellFormed(CellsOf(K))
    ensures PreOrder(MaterializeNode(CellsOf(K), q)) == [K[q].name] + DescNames(K, q, q + 1, |K|)
    decreases |K| - q, 1
  {
    var ids := ChildList(K, q);
    assert CellsOf(K)[q].children == ids;
    NoneBeforeFirstChild(K, q);
    ChildrenOrder(K, q, 0, q + 1);
    assert ids[0..] == ids;
  }

  /**
   * The subtrees of q's children from the i-th on list, in input order,
   * everything below q from lo on (nothing below q lies in [lo, Start)).
   */
  lemma {:induction false} ChildrenOrder(K: seq<Kept>, q: int, i: nat, lo: nat)
    requires -1 <= q < |K| && WellFormed(CellsOf(K))
    requires i <= |ChildList(K, q)| && lo <= Start(K, q, i)
    requires forall x :: lo <= x < Start(K, q, i) ==> !Below(K, q, x)
    ensures PreOrderForest(MaterializeList(CellsOf(K), ChildList(K, q)[i..], q)) == DescNames(K, q, lo, |K|)
    decreases |K| - q, 0, |ChildList(K, q)| - i
  {
    var ids := ChildList(K, q);
    var cells := CellsOf(K);
    if i == |ids| {
      assert ids[i..] == [];
      DescNamesEmpty(K, q, lo, |K|);
    } else {
      SubtreeOrder(K, ids[i]);
      ChildrenOrder(K, q, i + 1, Start(K, q, i + 1));
      ChildrenOrderStep(K, q, i, lo);
    }
  }

  /** One step of ChildrenOrder: the i-th child's subtree, then the later children's. */
  lemma ChildrenOrderStep(K: seq<Kept>, q: int, i: nat, lo: nat)
    requires -1 <= q < |K| && WellFormed(CellsOf(K))
    requires i < |ChildList(K, q)| && lo <= Start(K, q, i)
    requires forall x :: lo <= x < Start(K, q, i) ==> !Below(K, q, x)
    requires var c := ChildList(K, q)[i];
      PreOrder(MaterializeNode(CellsOf(K), c)) == [K[c].name] + DescNames(K, c, c + 1, |K|)
    requires PreOrderForest(MaterializeList(CellsOf(K), ChildList(K, q)[i + 1..], q))
      == DescNames(K, q, Start(K, q, i + 1), |K|)
    ensures PreOrderForest(MaterializeList(CellsOf(K), ChildList(K, q)[i..], q)) == DescNames(K, q, lo, |K|)
  {
    ForestStep(K, q, i);
    ChildNames(K, q, i, lo);
  }

  /** The subtrees of q's children from the i-th on: the i-th child's, then the rest. */
  lemma ForestStep(K: seq<Kept>, q: int, i: nat)
    requires -1 <= q < |K| && WellFormed(CellsOf(K)) && i < |ChildList(K, q)|
    ensures var cells := CellsOf(K);
      var ids := ChildList(K, q);
      PreOrderForest(MaterializeList(cells, ids[i..], q))
        == PreOrder(MaterializeNode(cells, ids[i])) + PreOrderForest(MaterializeList(cells, ids[i + 1..], q))
  {
    var ids := ChildList(K, q);
    assert ids[i..][0] == ids[i] && ids[i..][1..] == ids[i + 1..];
  }

  /** Below q from lo: nothing up to the i-th child c, then c and its subtree up to the next child, then the rest. */
  lemma ChildNames(K: seq<Kept>, q: int, i: nat, lo: nat)
    requires -1 <= q < |K| && i < |ChildList(K, q)| && lo <= Start(K, q, i)
    requires forall x :: lo <= x < Start(K, q, i) ==> !Below(K, q, x)
    ensures var c := ChildList(K, q)[i];
      DescNames(K, q, lo, |K|)
        == [K[c].name] + DescNames(K, c, c + 1, |K|) + DescNames(K, q, Start(K, q, i + 1), |K|)
  {
    var c := ChildList(K, q)[i];
    var next := Start(K, q, i + 1);
    DescNamesSplit(K, q, lo, c, |K|);
    DescNamesEmpty(K, q, lo, c);
    DescNamesSplit(K, q, c, next, |K|);
    ChildSpan(K, q, i);
  }

  /** From the i-th child c up to the next child, the nodes below q are c and its subtree. */
  lemma ChildSpan(K: seq<Kept>, q: int, i: nat)
    requires -1 <= q < |K| && i < |ChildList(K, q)|
    ensures var c := ChildList(K, q)[i];
      DescNames(K, q, c, Start(K, q, i + 1)) == [K[c].name] + DescNames(K, c, c + 1, |K|)
  {
    var c := ChildList(K, q)[i];
    var next := Start(K, q, i + 1);
    ChildListMembers(K, q, c);
    BetweenSiblings(K, q, i);
    DescNamesSame(K, q, c, c + 1, next);
    SubtreeEnds(K, q, i);
    DescNamesSplit(K, c, c + 1, next, |K|);
    DescNamesEmpty(K, c, next, |K|);
  }

  /**
   * The forest buildMatTree has built before it filters the roots lists, in
   * pre-order, the labels of the placed items (those whose chain of parents
   * reaches a level-1 item), each once, in input order.
   */
  lemma ForestOrder(K: seq<Kept>)
    ensures WellFormed(CellsOf(K))
    ensures PreOrderForest(MaterializeList(CellsOf(K), RootsUpTo(K, |K|), -1)) == DescNames(K, -1, 0, |K|)
  {
    CellsWellFormed(K);
    NoneBeforeFirstChild(K, -1);
    ChildrenOrder(K, -1, 0, 0);
    assert ChildList(K, -1)[0..] == RootsUpTo(K, |K|);
  }

  // ---------------------------------------------------------------------
  // The returned forest: the denylist filter on the roots
  // ---------------------------------------------------------------------

  /** The level-1 item a placed item hangs below (or is). */
  function RootOf(K: seq<Kept>, x: nat): (r: nat)
    requires x < |K| && Below(K, -1, x)
    ensures r <= x && K[r].level == 1 && (r == x || Below(K, r, x))
    decreases x
  {
    if Up(K, x) == -1 then x else RootOf(K, Up(K, x))
  }

  /** An item whose node is in the returned forest: placed, under a root whose label is not denylisted. */
  predicate Shown(K: seq<Kept>, x: nat)
    requires x < |K|
  {
    Below(K, -1, x) && K[RootOf(K, x)].name !in Denylist
  }

  /** The labels of the shown items in [lo, hi), in input order. */
  function ShownNames(K: seq<Kept>, lo: nat, hi: nat): seq<string>
    requires lo <= hi <= |K|
    decreases hi - lo
  {
    if lo == hi then []
    else (if Shown(K, lo) then [K[lo].name] else []) + ShownNames(K, lo + 1, hi)
  }

  lemma {:induction false} ShownNamesSplit(K: seq<Kept>, lo: nat, mid: nat, hi: nat)
    requires lo <= mid <= hi <= |K|
    ensures ShownNames(K, lo, hi) == ShownNames(K, lo, mid) + ShownNames(K, mid, hi)
    decreases mid - lo
  {
    if lo < mid {
      ShownNamesSplit(K, lo + 1, mid, hi);
    }
  }

  lemma {:induction false} ShownNamesEmpty(K: seq<Kept>, lo: nat, hi: nat)
    requires lo <= hi <= |K|
    requires forall x :: lo <= x < hi ==> !Shown(K, x)
    ensures ShownNames(K, lo, hi) == []
    decreases hi - lo
  {
    if lo < hi {
      ShownNamesEmpty(K, lo + 1, hi);
    }
  }

  lemma {:induction false} ShownNamesArePlaced(K: seq<Kept>, lo: nat, hi: nat)
    requires lo <= hi <= |K|
    requires forall x :: lo <= x < hi ==> (Shown(K, x) <==> Below(K, -1, x))
    ensures ShownNames(K, lo, hi) == DescNames(K, -1, lo, hi)
    decreases hi - lo
  {
    if lo < hi {
      ShownNamesArePlaced(K, lo + 1, hi);
    }
  }

  /** A placed item between the i-th root and the next one belongs to the i-th root. */
  lemma RootOfInSpan(K: seq<Kept>, i: nat, x: nat)
    requires i < |ChildList(K, -1)|
    requires ChildList(K, -1)[i] <= x < Start(K, -1, i + 1) && Below(K, -1, x)
    ensures RootOf(K, x) == ChildList(K, -1)[i]
  {
    var roots := ChildList(K, -1);
    var c := roots[i];
    var r := RootOf(K, x);
    ChildListMembers(K, -1, r);
    ChildListMembers(K, -1, c);
    var j :| 0 <= j < |roots| && roots[j] == r;
    SubtreeBeforeSibling(K, -1, r, c, x);
  }

  /** The shown labels from the i-th root up to the next: its subtree, unless its label is denylisted. */
  lemma RootSpan(K: seq<Kept>, i: nat)
    requires i < |ChildList(K, -1)|
    ensures var c := ChildList(K, -1)[i];
      ShownNames(K, c, Start(K, -1, i + 1))
        == if K[c].name in Denylist then [] else [K[c].name] + DescNames(K, c, c + 1, |K|)
  {
    var c := ChildList(K, -1)[i];
    var next := Start(K, -1, i + 1);
    if K[c].name in Denylist {
      forall x | c <= x < next
        ensures !Shown(K, x)
      {
        if Below(K, -1, x) {
          RootOfInSpan(K, i, x);
        }
      }
      ShownNamesEmpty(K, c, next);
    } else {
      forall x | c <= x < next
        ensures Shown(K, x) <==> Below(K, -1, x)
      {
        if Below(K, -1, x) {
          RootOfInSpan(K, i, x);
        }
      }
      ShownNamesArePlaced(K, c, next);
      ChildSpan(K, -1, i);
    }
  }

  /** The filtered forest of the roots from the i-th on lists the shown items from lo on. */
  lemma {:induction false} ShownOrder(K: seq<Kept>, i: nat, lo: nat)
    requires WellFormed(CellsOf(K))
    requires i <= |ChildList(K, -1)| && lo <= Start(K, -1, i)
    requires forall x :: lo <= x < Start(K, -1, i) ==> !Below(K, -1, x)
    ensures PreOrderForest(DropDenylisted(MaterializeList(CellsOf(K), ChildList(K, -1)[i..], -1)))
              == ShownNames(K, lo, |K|)
    decreases |ChildList(K, -1)| - i
  {
    var roots := ChildList(K, -1);
    if i == |roots| {
      assert roots[i..] == [];
      ShownNamesEmpty(K, lo, |K|);
    } else {
      ShownOrder(K, i + 1, Start(K, -1, i + 1));
      ShownOrderStep(K, i, lo);
    }
  }

  /** One step of ShownOrder: the i-th root's span, then the later roots'. */
  lemma ShownOrderStep(K: seq<Kept>, i: nat, lo: nat)
    requires WellFormed(CellsOf(K))
    requires i < |ChildList(K, -1)| && lo <= Start(K, -1, i)
    requires forall x :: lo <= x < Start(K, -1, i) ==> !Below(K, -1, x)
    requires PreOrderForest(DropDenylisted(MaterializeList(CellsOf(K), ChildList(K, -1)[i + 1..], -1)))
      == ShownNames(K, Start(K, -1, i + 1), |K|)
    ensures PreOrderForest(DropDenylisted(MaterializeList(CellsOf(K), ChildList(K, -1)[i..], -1)))
      == ShownNames(K, lo, |K|)
  {
    var c := ChildList(K, -1)[i];
    var next := Start(K, -1, i + 1);
    FilteredStep(K, i);
    SubtreeOrder(K, c);
    ShownNamesSplit(K, lo, c, |K|);
    ShownNamesEmpty(K, lo, c);
    ShownNamesSplit(K, c, next, |K|);
    RootSpan(K, i);
  }

  /** The filtered forest of the roots from the i-th on: the i-th root's tree unless denylisted, then the rest. */
  lemma FilteredStep(K: seq<Kept>, i: nat)
    requires WellFormed(CellsOf(K)) && i < |ChildList(K, -1)|
    ensures var cells := CellsOf(K);
      var roots := ChildList(K, -1);
      var t := MaterializeNode(cells, roots[i]);
      PreOrderForest(DropDenylisted(MaterializeList(cells, roots[i..], -1)))
        == (if K[roots[i]].name in Denylist then [] else PreOrder(t))
           + PreOrderForest(DropDenylisted(MaterializeList(cells, roots[i + 1..], -1)))
  {
    var cells := CellsOf(K);
    var roots := ChildList(K, -1);
    var t := MaterializeNode(cells, roots[i]);
    var rest := MaterializeList(cells, roots[i + 1..], -1);
    assert roots[i..][0] == roots[i] && roots[i..][1..] == roots[i + 1..];
    assert MaterializeList(cells, roots[i..], -1) == [t] + rest;
    DropDenylistedAppend([t], rest);
    DropDenylistedSingle(t);
    PreOrderForestAppend(DropDenylisted([t]), DropDenylisted(rest));
    assert PreOrderForest([t]) == PreOrder(t);
  }

  /**
   * flattenTreeLabels(buildMatTree(items)): the labels of the shown items,
   * each once, in the order of the items on the page.
   */
  lemma FlattenedMatTree(es: seq<Entry>)
    ensures var K := KeptEntries(es);
      PreOrderForest(MatTreeOf(es)) == ShownNames(K, 0, |K|)
  {
    var K := KeptEntries(es);
    CellsWellFormed(K);
    NoneBeforeFirstChild(K, -1);
    ShownOrder(K, 0, 0);
    assert ChildList(K, -1)[0..] == RootsUpTo(K, |K|);
  }

  /**
   * An item whose parent slot is empty is never shown, and neither is
   * anything that later hangs below it.
   */
  lemma {:induction false} DetachedSubtreeVanishes(K: seq<Kept>, p: nat, x: nat)
    requires p < |K| && x < |K|
    requires K[p].level > 1 && ParentAt(K, p).None?
    requires x == p || Below(K, p, x)
    ensures !Below(K, -1, x) && !Shown(K, x)
    decreases x
  {
    if x != p {
      DetachedSubtreeVanishes(K, p, Up(K, x));
    }
  }

  /**
   * A level-3 item X right after a level-1 item A finds slot 2 empty: X, and
   * Y hung below it, are built but reachable from no root; the later B at
   * level 2 becomes A's only child.
   */
  lemma DetachedExample()
    ensures var K := [Kept("A", 1), Kept("X", 3), Kept("Y", 4), Kept("B", 2)];
      && ParentAt(K, 1).None? && ParentAt(K, 2) == Some(1) && ParentAt(K, 3) == Some(0)
      && ShownNames(K, 0, |K|) == ["A", "B"]
  {
    var K := [Kept("A", 1), Kept("X", 3), Kept("Y", 4), Kept("B", 2)];
    assert K[..1] == [Kept("A", 1)];
    assert K[..2] == [Kept("A", 1), Kept("X", 3)];
    assert K[..3] == [Kept("A", 1), Kept("X", 3), Kept("Y", 4)];
    DetachedSubtreeVanishes(K, 1, 1);
    DetachedSubtreeVanishes(K, 1, 2);
    assert K[..3][..2] == K[..2] && K[..2][..1] == K[..1];
    assert SlotSpec(K[..1], 1) == Some(0);
    assert ParentAt(K, 3) == Some(0);
    assert Up(K, 3) == 0 && Up(K, 0) == -1;
    assert Below(K, -1, 3) && RootOf(K, 3) == 0;
  }
}
