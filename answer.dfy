/**
 * What getRelevantLabelsFromGPT does with the model's reply: strip the code
 * fences and surrounding white space from `response.data`, parse it as JSON
 * and project the `label` of every element. Parsing itself is outside the
 * model: it is given as its outcome.
 */
module Answer {
  import opened Wrappers
  import opened JsRuntime

  /** `response.data`: absent, null, or a string. */
  datatype JsData = Undefined | Null | Text(s: string)

  /** One element of the parsed array: null/undefined, or an object whose `label` field (a keyword in Dafny, hence labelField) is a string or not (None). */
  datatype Element = Nullish | Record(labelField: Option<string>)

  /** The outcome of JSON.parse(cleaned): a SyntaxError, a value that is not an array, or an array. */
  datatype Parsed = SyntaxError | NotArray | Array(elements: seq<Element>)

  const JsonFence: string := "```json"

  /** The fallback branch reads the undeclared `text`; V8's message for the ReferenceError. */
  const TextNotDefined: string := "text is not defined"

  /** What V8 reports for `data.replace(...)` when data is undefined or null. */
  const ReplaceOnUndefined: string := "Cannot read properties of undefined (reading 'replace')"
  const ReplaceOnNull: string := "Cannot read properties of null (reading 'replace')"

  /**
   * data.replace(/```json/g, '').replace(/```/g, '').trim(): no fence is left
   * and no white space at either end.
   */
  function Clean(data: string): (r: string)
    ensures !Contains(r, Fence)
    ensures IsTrimmed(r)
  {
    var unfenced := RemoveAll(RemoveAll(data, JsonFence), Fence);
    NoFenceAfterRemoval(RemoveAll(data, JsonFence));
    TrimKeepsAbsence(unfenced, Fence);
    Trim(unfenced)
  }

  /** Trimming cannot create an occurrence: the trimmed text is a piece of the original. */
  lemma TrimKeepsAbsence(s: string, p: string)
    requires !Contains(s, p)
    ensures !Contains(Trim(s), p)
  {
    var k := LeadingWhitespace(s);
    InfixKeepsAbsence(s, k, k + |Trim(s)|, p);
  }

  lemma InfixKeepsAbsence(s: string, i: nat, j: nat, p: string)
    requires i <= j <= |s| && !Contains(s, p)
    ensures !Contains(s[i..j], p)
  {
    if Contains(s[i..j], p) {
      ContainsInInfix(s, i, j, p);
    }
  }

  /** A text without "```" contains no "```json" either. */
  lemma NoJsonFenceWithoutFence(s: string)
    requires !Contains(s, Fence)
    ensures !Contains(s, JsonFence)
  {
    if Contains(s, JsonFence) {
      assert JsonFence == Fence + "json";
      ContainsLonger(s, Fence, "json");
    }
  }

  /** Cleaning leaves a text alone exactly when it has no fence and no surrounding white space. */
  lemma CleanFixpoint(s: string)
    ensures Clean(s) == s <==> !Contains(s, Fence) && IsTrimmed(s)
  {
    if !Contains(s, Fence) && IsTrimmed(s) {
      NoJsonFenceWithoutFence(s);
      RemoveAllAbsent(s, JsonFence);
      RemoveAllAbsent(s, Fence);
      TrimFixpoint(s);
    }
  }

  /** Cleaning twice is cleaning once. */
  lemma CleanIdempotent(data: string)
    ensures Clean(Clean(data)) == Clean(data)
  {
    CleanFixpoint(Clean(data));
  }

  /** A reply that has no back-tick is only trimmed. */
  lemma CleanWithoutFences(data: string)
    requires !Contains(data, Fence)
    ensures Clean(data) == Trim(data)
  {
    NoJsonFenceWithoutFence(data);
    RemoveAllAbsent(data, JsonFence);
    RemoveAllAbsent(data, Fence);
  }

  /** The cleaning chain on `response.data`: calling `.replace` on undefined or null throws. */
  function CleanResponse(data: JsData): (r: Result<string, string>)
    ensures r.Ok? <==> data.Text?
    ensures r.Ok? ==> r.value == Clean(data.s)
  {
    match data
    case Undefined => Err(ReplaceOnUndefined)
    case Null => Err(ReplaceOnNull)
    case Text(s) => Ok(Clean(s))
  }

  /** elements.map(e => e.label): the first nullish element throws. */
  function MapLabels(elements: seq<Element>): (r: Option<seq<Option<string>>>)
    ensures r.Some? <==> forall i :: 0 <= i < |elements| ==> elements[i].Record?
    ensures r.Some? ==> |r.value| == |elements|
    ensures r.Some? ==> forall i :: 0 <= i < |elements| ==> r.value[i] == elements[i].labelField
  {
    if elements == [] then Some([])
    else if elements[0].Nullish? then None
    else
      match MapLabels(elements[1..])
      case None => None
      case Some(rest) => Some([elements[0].labelField] + rest)
  }

  /**
   * JSON.parse(cleaned).map(e => e.label), inside its try: any failure (a
   * SyntaxError, `.map` on a non-array, a nullish element) lands in the catch,
   * whose fallback reads the undeclared `text` and throws a ReferenceError.
   */
  function ProjectLabels(parsed: Parsed): (r: Result<seq<Option<string>>, string>)
    ensures r.Err? ==> r.error == TextNotDefined
  {
    match parsed
    case Array(elements) =>
      (match MapLabels(elements)
       case Some(labels) => Ok(labels)
       case None => Err(TextNotDefined))
    case _ => Err(TextNotDefined)
  }

  /** The labels are produced exactly when the reply parses to an array of objects, and they are their `label`s in order. */
  lemma ProjectLabelsOk(parsed: Parsed)
    ensures ProjectLabels(parsed).Ok? <==> parsed.Array? && forall e :: e in parsed.elements ==> e.Record?
    ensures ProjectLabels(parsed).Ok? ==> |ProjectLabels(parsed).value| == |parsed.elements|
    ensures ProjectLabels(parsed).Ok? ==>
              forall i :: 0 <= i < |parsed.elements| ==> ProjectLabels(parsed).value[i] == parsed.elements[i].labelField
  {
    if parsed.Array? {
      var els := parsed.elements;
      if forall i :: 0 <= i < |els| ==> els[i].Record? {
        assert forall e :: e in els ==> e.Record?;
      } else {
        var i :| 0 <= i < |els| && !els[i].Record?;
        assert els[i] in els;
      }
    }
  }
}
