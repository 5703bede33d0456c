/**
 * The category grouping at the start of getRelevantLabelsFromGPT: every root
 * of the forest is flattened (children only) and, by its label, stored into
 * four category lists through a `switch` whose cases have no `break`.
 *
 * A root therefore enters the switch at its own case and falls through every
 * case below it: "Struktur" assigns all four lists, "Cyber" the last three,
 * "Allgemeine Tags" the last two and "Newsinfo" only the news list. A later
 * root overwrites what an earlier one assigned; a list no root reaches stays
 * `undefined` (None).
 */
module Categories {
  import opened Wrappers
  import opened MatTree
  import opened Flatten

  /** The four `let` variables; None is `undefined`. */
  datatype Groups = Groups(
    struktur: Option<seq<string>>,
    cyber: Option<seq<string>>,
    allgemein: Option<seq<string>>,
    newsInfo: Option<seq<string>>)

  /** The case labels in the order they are written: switch position 0 to 3. */
  const CaseLabels: seq<string> := ["Struktur", "Cyber", "Allgemeine Tags", "Newsinfo"]

  /** The case at which a label enters the switch, if any. */
  function CaseOf(name: string): (r: Option<nat>)
    ensures r.Some? <==> name in CaseLabels
    ensures r.Some? ==> r.value < |CaseLabels| && CaseLabels[r.value] == name
  {
    if name == "Struktur" then Some(0)
    else if name == "Cyber" then Some(1)
    else if name == "Allgemeine Tags" then Some(2)
    else if name == "Newsinfo" then Some(3)
    else None
  }

  /** Without `break`, the statement of case `slot` runs for every root entering at or above it. */
  predicate Reaches(name: string, slot: nat) {
    CaseOf(name).Some? && CaseOf(name).value <= slot
  }

  /** The value of the list at switch position `slot` after the roots `tree`: the last root reaching it wins. */
  function Assigned(tree: seq<Tree>, slot: nat): (r: Option<seq<string>>)
  {
    if tree == [] then None
    else
      var t := tree[|tree| - 1];
      if Reaches(t.name, slot) then Some(PreOrderForest(t.children))
      else Assigned(tree[..|tree| - 1], slot)
  }

  /** The four lists after the whole `forEach`. */
  function Grouped(tree: seq<Tree>): Groups {
    Groups(Assigned(tree, 0), Assigned(tree, 1), Assigned(tree, 2), Assigned(tree, 3))
  }

  /** The `tree.forEach` with the fall-through `switch`, as written. */
  method GroupCategories(tree: seq<Tree>) returns (g: Groups)
    ensures g == Grouped(tree)
  {
    var strukturLables: Option<seq<string>> := None;
    var cyberLables: Option<seq<string>> := None;
    var allgemeinLables: Option<seq<string>> := None;
    var newsInfoLables: Option<seq<string>> := None;
    for i := 0 to |tree|
      invariant strukturLables == Assigned(tree[..i], 0)
      invariant cyberLables == Assigned(tree[..i], 1)
      invariant allgemeinLables == Assigned(tree[..i], 2)
      invariant newsInfoLables == Assigned(tree[..i], 3)
    {
      var node := tree[i];
      var elements := FlattenTreeLabels(node.children);
      // switch (node.label) without `break`: once a case label matches,
      // its statement and every statement after it run.
      var matched := node.name == "Struktur";
      if matched {
        strukturLables := Some(elements);
      }
      matched := matched || node.name == "Cyber";
      if matched {
        cyberLables := Some(elements);
      }
      matched := matched || node.name == "Allgemeine Tags";
      if matched {
        allgemeinLables := Some(elements);
      }
      matched := matched || node.name == "Newsinfo";
      if matched {
        newsInfoLables := Some(elements);
      }
      assert tree[..i + 1][..i] == tree[..i];
    }
    assert tree[..|tree|] == tree;
    return Groups(strukturLables, cyberLables, allgemeinLables, newsInfoLables);
  }

  // ---------------------------------------------------------------------
  // Properties of the grouping
  // ---------------------------------------------------------------------

  /** A list stays undefined exactly when no root reaches its case. */
  lemma {:induction false} UnassignedIff(tree: seq<Tree>, slot: nat)
    ensures Assigned(tree, slot).None? <==> forall t :: t in tree ==> !Reaches(t.name, slot)
    decreases |tree|
  {
    if tree != [] {
      var init := tree[..|tree| - 1];
      UnassignedIff(init, slot);
      assert tree == init + [tree[|tree| - 1]];
    }
  }

  /**
   * When a list is assigned, its value is the flattened children of a root
   * that reaches its case, and no later root reaches it.
   */
  lemma {:induction false} AssignedByLastReaching(tree: seq<Tree>, slot: nat)
    requires Assigned(tree, slot).Some?
    ensures exists i ::
              && 0 <= i < |tree| && Reaches(tree[i].name, slot)
              && Assigned(tree, slot) == Some(PreOrderForest(tree[i].children))
              && forall j :: i < j < |tree| ==> !Reaches(tree[j].name, slot)
    decreases |tree|
  {
    var n := |tree| - 1;
    if Reaches(tree[n].name, slot) {
      assert Assigned(tree, slot) == Some(PreOrderForest(tree[n].children));
    } else {
      var init := tree[..n];
      assert Assigned(tree, slot) == Assigned(init, slot);
      AssignedByLastReaching(init, slot);
      var i :| 0 <= i < |init| && Reaches(init[i].name, slot)
        && Assigned(init, slot) == Some(PreOrderForest(init[i].children))
        && forall j :: i < j < |init| ==> !Reaches(init[j].name, slot);
      NoLaterReach(tree, init, i, slot);
    }
  }

  /** If no root after i reaches the slot before the last, and the last does not either, none after i does. */
  lemma NoLaterReach(tree: seq<Tree>, init: seq<Tree>, i: nat, slot: nat)
    requires |tree| > 0 && init == tree[..|tree| - 1] && i < |init|
    requires forall j :: i < j < |init| ==> !Reaches(init[j].name, slot)
    requires !Reaches(tree[|tree| - 1].name, slot)
    ensures forall j :: i < j < |tree| ==> !Reaches(tree[j].name, slot)
  {
    forall j | i < j < |init|
      ensures !Reaches(tree[j].name, slot)
    {
      assert init[j] == tree[j];
    }
  }

  /**
   * Fall-through makes the lists nested: whatever reaches an earlier case
   * reaches every later one, so a list that stays undefined leaves every
   * list before it in the switch undefined too.
   */
  lemma {:induction false} UnassignedPropagates(tree: seq<Tree>, slot: nat, earlier: nat)
    requires earlier <= slot
    requires Assigned(tree, slot).None?
    ensures Assigned(tree, earlier).None?
    decreases |tree|
  {
    if tree != [] {
      UnassignedPropagates(tree[..|tree| - 1], slot, earlier);
    }
  }

  /** Appending one more root: the lists its case reaches take its children, the others stay. */
  lemma AppendRoot(tree: seq<Tree>, t: Tree, slot: nat)
    ensures Assigned(tree + [t], slot) ==
      if Reaches(t.name, slot) then Some(PreOrderForest(t.children)) else Assigned(tree, slot)
  {
    assert (tree + [t])[..|tree|] == tree;
  }

  /** A trailing "Struktur" root overwrites all four lists with its own children. */
  lemma StrukturAssignsAll(tree: seq<Tree>, t: Tree)
    requires t.name == "Struktur"
    ensures var g := Grouped(tree + [t]);
      var e := Some(PreOrderForest(t.children));
      g.struktur == e && g.cyber == e && g.allgemein == e && g.newsInfo == e
  {
    AppendRoot(tree, t, 0);
    AppendRoot(tree, t, 1);
    AppendRoot(tree, t, 2);
    AppendRoot(tree, t, 3);
  }

  /** A trailing "Newsinfo" root sets the news list only. */
  lemma NewsinfoAssignsOnlyNews(tree: seq<Tree>, t: Tree)
    requires t.name == "Newsinfo"
    ensures var g := Grouped(tree + [t]); var g0 := Grouped(tree);
      g.newsInfo == Some(PreOrderForest(t.children))
      && g.struktur == g0.struktur && g.cyber == g0.cyber && g.allgemein == g0.allgemein
  {
    AppendRoot(tree, t, 0);
    AppendRoot(tree, t, 1);
    AppendRoot(tree, t, 2);
    AppendRoot(tree, t, 3);
  }

  /**
   * All four lists are defined exactly when some root is labelled "Struktur":
   * that is the only case whose statement sets strukturLables.
   */
  lemma AllAssignedIffStruktur(tree: seq<Tree>)
    ensures (Grouped(tree).struktur.Some? && Grouped(tree).cyber.Some?
             && Grouped(tree).allgemein.Some? && Grouped(tree).newsInfo.Some?)
        <==> exists t :: t in tree && t.name == "Struktur"
  {
    UnassignedIff(tree, 0);
    if Grouped(tree).struktur.Some? {
      UnassignedIff(tree, 1);
      UnassignedIff(tree, 2);
      UnassignedIff(tree, 3);
      var t :| t in tree && Reaches(t.name, 0);
      assert Reaches(t.name, 1) && Reaches(t.name, 2) && Reaches(t.name, 3);
    }
  }
}
