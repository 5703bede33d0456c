/**
 * runExtensionLogic: the result object the content script sends back to the
 * popup. The DOM reads become inputs: the article text and title from the
 * editor fields, and the mat-tree as its items (None when the page has no
 * <mat-tree>). Marking the chosen labels in the page is outside the model.
 */
module Run {
  import opened Wrappers
  import opened MatTree
  import opened Prompt
  import opened Answer
  import opened RelevantLabels
  import opened Categories

  /** result.matTreeStructure: null, the built forest, or a message. */
  datatype TreeField = NoTree | Forest(trees: seq<Tree>) | TreeMessage(text: string)

  /** result.labelsLinear: null, the labels, or a message. */
  datatype LabelsField = NoLabels | LabelList(labels: seq<Option<string>>) | LabelsMessage(text: string)

  datatype RunResult = RunResult(
    status: string,
    fetchedContent: Option<string>,
    matTreeStructure: TreeField,
    labelsLinear: LabelsField,
    message: string)

  const MissingContent: string := "Missing Content"
  const MissingTitle: string := "Missing Title"
  const NoMatTree: string := "No <mat-tree> found."
  const NotRelevant: string := "Article not relevant for Cyberdefense! (Response was empty)"
  const LabelsFailed: string := "Failed to extract labels: "
  const RunFinished: string := "Run finished"

  /** The result object runExtensionLogic starts from. */
  const Initial: RunResult := RunResult("success", None, NoTree, NoLabels, RunFinished)

  /** The result of one run, decided from its inputs. */
  function Outcome(relevantText: string, title: string, matTree: Option<seq<Entry>>,
                   gateway: string -> JsData, parse: string -> Parsed): RunResult
  {
    if relevantText == "" then
      Initial.(fetchedContent := Some(MissingContent), status := "error", message := MissingContent)
    else if title == "" then
      Initial.(fetchedContent := Some(MissingTitle), status := "error", message := MissingTitle)
    else if matTree.None? then
      Initial.(status := "error", matTreeStructure := TreeMessage(NoMatTree), message := NoMatTree)
    else
      var tree := MatTreeOf(matTree.value);
      var built := Initial.(matTreeStructure := Forest(tree));
      match LabelsFor(tree, relevantText, title, gateway, parse)
      case Err(e) =>
        built.(status := "error", labelsLinear := LabelsMessage(LabelsFailed + e), message := LabelsFailed + e)
      case Ok(labels) =>
        if |labels| == 0 then
          built.(labelsLinear := LabelList(labels), status := "error", message := NotRelevant)
        else
          built.(labelsLinear := LabelList(labels))
  }

  /**
   * The steps of runExtensionLogic in order, updating `result` field by field
   * and returning early as the source does.
   */
  method RunExtensionLogic(relevantText: string, title: string, matTree: Option<seq<Entry>>,
                           gateway: string -> JsData, parse: string -> Parsed)
    returns (result: RunResult)
    ensures result == Outcome(relevantText, title, matTree, gateway, parse)
  {
    result := Initial;
    if relevantText == "" {
      result := result.(fetchedContent := Some(MissingContent));
      result := result.(status := "error");
      result := result.(message := result.fetchedContent.value);
      return;
    }
    if title == "" {
      result := result.(fetchedContent := Some(MissingTitle));
      result := result.(status := "error");
      result := result.(message := result.fetchedContent.value);
      return;
    }
    var treeStructure: Option<seq<Tree>> := None;
    if matTree.Some? {
      var tree := BuildMatTree(matTree.value);
      treeStructure := Some(tree);
      result := result.(matTreeStructure := Forest(tree));
    } else {
      result := result.(status := "error");
      result := result.(matTreeStructure := TreeMessage(NoMatTree));
      result := result.(message := NoMatTree);
    }
    // An array, even an empty one, is truthy.
    if treeStructure.Some? {
      var linearLabels := GetRelevantLabelsFromGPT(treeStructure.value, relevantText, title, gateway, parse);
      match linearLabels
      case Err(e) =>
        result := result.(status := "error");
        result := result.(labelsLinear := LabelsMessage(LabelsFailed + e));
        result := result.(message := LabelsFailed + e);
        return;
      case Ok(labels) =>
        result := result.(labelsLinear := LabelList(labels));
        if |labels| == 0 {
          result := result.(status := "error");
          result := result.(message := NotRelevant);
          return;
        }
    }
  }

  // ---------------------------------------------------------------------
  // Properties of the outcome
  // ---------------------------------------------------------------------

  /**
   * A run succeeds exactly when the text and the title are present, the page
   * has a mat-tree, and the reply yields at least one label; its message is
   * then "Run finished", and every failed run carries another message.
   */
  lemma SuccessIff(relevantText: string, title: string, matTree: Option<seq<Entry>>,
                   gateway: string -> JsData, parse: string -> Parsed)
    ensures var r := Outcome(relevantText, title, matTree, gateway, parse);
      && (r.status == "success" <==>
            && relevantText != "" && title != "" && matTree.Some?
            && var l := LabelsFor(MatTreeOf(matTree.value), relevantText, title, gateway, parse);
               l.Ok? && |l.value| > 0)
      && (r.status == "success" <==> r.message == RunFinished)
      && (r.status == "success" || r.status == "error")
  {
    var r := Outcome(relevantText, title, matTree, gateway, parse);
    if relevantText != "" && title != "" && matTree.Some? {
      var l := LabelsFor(MatTreeOf(matTree.value), relevantText, title, gateway, parse);
      if l.Err? {
        assert r.message == LabelsFailed + l.error;
        assert r.message[..|LabelsFailed|] == LabelsFailed;
      }
    }
  }

  /**
   * A run that reaches the language model reports "Article not relevant for
   * Cyberdefense! (Response was empty)" exactly when the reply yields an empty
   * list of labels; the run then fails, keeping the empty list and the built tree.
   */
  lemma NotRelevantIff(relevantText: string, title: string, entries: seq<Entry>,
                       gateway: string -> JsData, parse: string -> Parsed)
    requires relevantText != "" && title != ""
    ensures var r := Outcome(relevantText, title, Some(entries), gateway, parse);
      && (r.message == NotRelevant <==>
            LabelsFor(MatTreeOf(entries), relevantText, title, gateway, parse) == Ok([]))
      && (r.message == NotRelevant ==>
            && r.status == "error"
            && r.labelsLinear == LabelList([])
            && r.matTreeStructure == Forest(MatTreeOf(entries)))
  {
    var r := Outcome(relevantText, title, Some(entries), gateway, parse);
    var l := LabelsFor(MatTreeOf(entries), relevantText, title, gateway, parse);
    if l.Err? {
      FailureIsNotNotRelevant(l.error);
    }
  }

  /**
   * A label-extraction failure never reads as the "not relevant" message:
   * the failure prefix ends in a space where the other has a letter.
   */
  lemma FailureIsNotNotRelevant(e: string)
    ensures LabelsFailed + e != NotRelevant
  {
    var k := |LabelsFailed| - 1;
    assert (LabelsFailed + e)[k] == ' ';
    assert NotRelevant[k] == 'C';
  }

  /**
   * A tree without a "Struktur" root makes the run fail at the prompt: the
   * `.join` TypeError is caught and reported as a label-extraction failure.
   */
  lemma NoStrukturRunFails(relevantText: string, title: string, entries: seq<Entry>,
                           gateway: string -> JsData, parse: string -> Parsed)
    requires relevantText != "" && title != ""
    requires forall t :: t in MatTreeOf(entries) ==> t.name != "Struktur"
    ensures var r := Outcome(relevantText, title, Some(entries), gateway, parse);
      && r.status == "error"
      && r.message == LabelsFailed + JoinOnUndefined
      && r.labelsLinear == LabelsMessage(r.message)
      && r.matTreeStructure == Forest(MatTreeOf(entries))
  {
    NoStrukturNoLabels(MatTreeOf(entries), relevantText, title, gateway, parse);
  }

  /**
   * When the reply to the prompt actually sent is text whose cleaned form
   * yields no labels (a syntax error, a JSON value that is not an array, or
   * an array with a null or undefined element), the fallback throws: the run
   * reports "Failed to extract labels: text is not defined" and keeps the
   * built tree.
   */
  lemma ParseFailureRunFails(relevantText: string, title: string, entries: seq<Entry>,
                             gateway: string -> JsData, parse: string -> Parsed)
    requires relevantText != "" && title != ""
    requires var g := Grouped(MatTreeOf(entries));
      && g.cyber.Some? && g.allgemein.Some? && g.newsInfo.Some? && g.struktur.Some?
      && var reply := gateway(PromptText(g.cyber.value, g.allgemein.value, g.newsInfo.value,
                                         g.struktur.value, title, relevantText));
         reply.Text? && ProjectLabels(parse(Clean(reply.s))).Err?
    ensures var r := Outcome(relevantText, title, Some(entries), gateway, parse);
      && r.status == "error"
      && r.message == LabelsFailed + TextNotDefined
      && r.matTreeStructure == Forest(MatTreeOf(entries))
  {
    var tree := MatTreeOf(entries);
    AllAssignedIffStruktur(tree);
    PromptIsSent(tree, relevantText, title, gateway, parse);
  }

  /** The early exits come first: a missing text wins over a missing title, which wins over everything after. */
  lemma EarlyExits(relevantText: string, title: string, matTree: Option<seq<Entry>>,
                   gateway: string -> JsData, parse: string -> Parsed)
    ensures relevantText == "" ==>
      Outcome(relevantText, title, matTree, gateway, parse)
        == RunResult("error", Some(MissingContent), NoTree, NoLabels, MissingContent)
    ensures relevantText != "" && title == "" ==>
      Outcome(relevantText, title, matTree, gateway, parse)
        == RunResult("error", Some(MissingTitle), NoTree, NoLabels, MissingTitle)
    ensures relevantText != "" && title != "" && matTree.None? ==>
      Outcome(relevantText, title, matTree, gateway, parse)
        == RunResult("error", None, TreeMessage(NoMatTree), NoLabels, NoMatTree)
  {
  }
}
