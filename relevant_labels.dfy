/**
 * getRelevantLabelsFromGPT(tree, htmlContent, title): group the roots into
 * the four category lists, build the prompt, send it, clean the reply and
 * project its labels. The round trip through the extension's background
 * page and the language model is a parameter `gateway` from the prompt to
 * `response.data`; JSON.parse is a parameter `parse` from the cleaned text to
 * its outcome. An exception is an Err carrying its message.
 */
module RelevantLabels {
  import opened Wrappers
  import opened MatTree
  import opened Flatten
  import opened Categories
  import opened Prompt
  import opened Answer

  /** The value (or the thrown message) of getRelevantLabelsFromGPT. */
  function LabelsFor(tree: seq<Tree>, article: string, title: string,
                     gateway: string -> JsData, parse: string -> Parsed): Result<seq<Option<string>>, string>
  {
    match BuildPrompt(Grouped(tree), title, article)
    case Err(e) => Err(e)
    case Ok(prompt) =>
      match CleanResponse(gateway(prompt))
      case Err(e) => Err(e)
      case Ok(cleaned) => ProjectLabels(parse(cleaned))
  }

  method GetRelevantLabelsFromGPT(tree: seq<Tree>, htmlContent: string, title: string,
                                  gateway: string -> JsData, parse: string -> Parsed)
    returns (r: Result<seq<Option<string>>, string>)
    ensures r == LabelsFor(tree, htmlContent, title, gateway, parse)
  {
    // Computed and never used, as in the source.
    var flattenedLabels := FlattenTreeLabels(tree);
    var groups := GroupCategories(tree);
    var prompt := BuildPrompt(groups, title, htmlContent);
    if prompt.Err? {
      return Err(prompt.error);
    }
    var data := gateway(prompt.value);
    var cleaned := CleanResponse(data);
    if cleaned.Err? {
      return Err(cleaned.error);
    }
    r := ProjectLabels(parse(cleaned.value));
  }

  // ---------------------------------------------------------------------
  // Properties
  // ---------------------------------------------------------------------

  /**
   * Without a root labelled "Struktur" the call always throws the `.join`
   * TypeError, whatever the article, the title or the model's reply.
   */
  lemma NoStrukturNoLabels(tree: seq<Tree>, article: string, title: string,
                           gateway: string -> JsData, parse: string -> Parsed)
    requires forall t :: t in tree ==> t.name != "Struktur"
    ensures LabelsFor(tree, article, title, gateway, parse) == Err(JoinOnUndefined)
  {
    PromptFailsIffNoStruktur(tree, title, article);
  }

  /**
   * With a "Struktur" root, the model is asked with the prompt built from the
   * four lists, and only the cleaned reply is parsed.
   */
  lemma PromptIsSent(tree: seq<Tree>, article: string, title: string,
                     gateway: string -> JsData, parse: string -> Parsed)
    requires exists t :: t in tree && t.name == "Struktur"
    ensures var g := Grouped(tree);
      && g.cyber.Some? && g.allgemein.Some? && g.newsInfo.Some? && g.struktur.Some?
      && var prompt := PromptText(g.cyber.value, g.allgemein.value, g.newsInfo.value, g.struktur.value, title, article);
         LabelsFor(tree, article, title, gateway, parse) ==
           match gateway(prompt)
           case Text(s) => ProjectLabels(parse(Clean(s)))
           case Undefined => Err(ReplaceOnUndefined)
           case Null => Err(ReplaceOnNull)
  {
    PromptFailsIffNoStruktur(tree, title, article);
    AllAssignedIffStruktur(tree);
  }

  /**
   * The call throws one of four errors only: the `.join` on an undefined
   * category list, `.replace` on an undefined or null reply, or the
   * ReferenceError of the parse fallback.
   */
  lemma ThrownErrors(tree: seq<Tree>, article: string, title: string,
                     gateway: string -> JsData, parse: string -> Parsed)
    ensures LabelsFor(tree, article, title, gateway, parse).Err? ==>
      LabelsFor(tree, article, title, gateway, parse).error
        in {JoinOnUndefined, ReplaceOnUndefined, ReplaceOnNull, TextNotDefined}
  {
  }
}
