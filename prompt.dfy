/**
 * The prompt that getRelevantLabelsFromGPT sends: the rule prose, then the
 * label list in the fixed order Cyber, Allgemeine Tags, NewsInfo, Struktur
 * (each list joined with "\n"), then the title and article between BEGIN and
 * END. The template literal evaluates its substitutions left to right, so a
 * category list that is still `undefined` makes `.join` throw a TypeError
 * before the prompt exists.
 */
module Prompt {
  import opened Wrappers
  import opened JsRuntime
  import opened MatTree
  import opened Categories

  /**
   * The rule prose the template literal opens with. The model keeps its
   * first line only: the prose is constant and nothing depends on it.
   */
  const Preamble: string := "\nYou are a deterministic label classification engine."

  /** What V8 reports for `undefined.join(...)`. */
  const JoinOnUndefined: string := "Cannot read properties of undefined (reading 'join')"

  // The fixed lines of the template.
  const LabelListHeader: string := "Label-List:"
  const CyberHeader: string := "Cyber-Lables:"
  const AllgemeinHeader: string := "Allgemeine Tags-Lables:"
  const NewsInfoHeader: string := "NewsInfo-Lables:"
  const StrukturHeader: string := "Struktur-Lables:"
  const ArticleHeader: string := "Article:"
  const BeginMarker: string := "BEGIN"
  const TitlePrefix: string := "Title: "
  const EndMarker: string := "END"

  /** One category of the label list: its header, its labels joined with "\n", a blank line. */
  function CategoryBlock(header: string, labels: seq<string>): seq<string> {
    [header, JoinLines(labels), ""]
  }

  /** The closing part of the template: the title and the article between BEGIN and END. */
  function ArticleBlock(title: string, article: string): seq<string> {
    [ArticleHeader, BeginMarker, TitlePrefix + title, article, EndMarker, ""]
  }

  /**
   * The template literal as the list of its lines: the text is these lines
   * joined with "\n" (the literal ends with a line break, hence the last "").
   */
  function PromptLines(cyber: seq<string>, allgemein: seq<string>, newsInfo: seq<string>,
                       struktur: seq<string>, title: string, article: string): seq<string>
  {
    [Preamble, "", LabelListHeader]
    + CategoryBlock(CyberHeader, cyber)
    + CategoryBlock(AllgemeinHeader, allgemein)
    + CategoryBlock(NewsInfoHeader, newsInfo)
    + CategoryBlock(StrukturHeader, struktur)
    + ArticleBlock(title, article)
  }

  function PromptText(cyber: seq<string>, allgemein: seq<string>, newsInfo: seq<string>,
                      struktur: seq<string>, title: string, article: string): string
  {
    JoinLines(PromptLines(cyber, allgemein, newsInfo, struktur, title, article))
  }

  /**
   * Building the prompt from the four category variables: the first list
   * that is still undefined (in the order the substitutions are evaluated)
   * throws.
   */
  function BuildPrompt(g: Groups, title: string, article: string): (r: Result<string, string>)
    ensures r.Err? ==> r.error == JoinOnUndefined
  {
    if g.cyber.None? || g.allgemein.None? || g.newsInfo.None? || g.struktur.None? then
      Err(JoinOnUndefined)
    else
      Ok(PromptText(g.cyber.value, g.allgemein.value, g.newsInfo.value, g.struktur.value, title, article))
  }

  /**
   * Because of the fall-through, building the prompt for the roots of a forest
   * fails exactly when no root is labelled "Struktur".
   */
  lemma PromptFailsIffNoStruktur(tree: seq<Tree>, title: string, article: string)
    ensures BuildPrompt(Grouped(tree), title, article).Err?
        <==> forall t :: t in tree ==> t.name != "Struktur"
  {
    AllAssignedIffStruktur(tree);
  }

  // ---------------------------------------------------------------------
  // Reading the prompt back line by line
  // ---------------------------------------------------------------------

  /** The lines of each text in turn. */
  function AllLines(xs: seq<string>): seq<string> {
    if xs == [] then [] else Lines(xs[0]) + AllLines(xs[1..])
  }

  /** Splitting a joined list yields the lines of each piece in turn. */
  lemma {:induction false} LinesOfJoinLines(xs: seq<string>)
    requires xs != []
    ensures Lines(JoinLines(xs)) == AllLines(xs)
    decreases |xs|
  {
    if |xs| == 1 {
      assert xs[1..] == [];
    } else {
      LinesOfConcat(xs[0], JoinLines(xs[1..]));
      LinesOfJoinLines(xs[1..]);
    }
  }

  /** How a joined category list reads back: its labels, or one empty line for no labels. */
  function ListLines(xs: seq<string>): seq<string> {
    if xs == [] then [""] else xs
  }

  /** A category as it reads back: its header, its labels one per line, a blank line. */
  function CategoryLines(header: string, labels: seq<string>): seq<string> {
    [header] + ListLines(labels) + [""]
  }

  /** The article part as it reads back: the title on its own line, the article's lines between BEGIN and END. */
  function ArticleLines(title: string, article: string): seq<string> {
    [ArticleHeader, BeginMarker, TitlePrefix + title] + Lines(article) + [EndMarker, ""]
  }

  predicate SingleLine(s: string) {
    '\n' !in s
  }

  predicate AllSingleLine(xs: seq<string>) {
    forall x :: x in xs ==> SingleLine(x)
  }

  lemma {:induction false} AllLinesAppend(xs: seq<string>, ys: seq<string>)
    ensures AllLines(xs + ys) == AllLines(xs) + AllLines(ys)
    decreases |xs|
  {
    if xs == [] {
      assert xs + ys == ys;
    } else {
      assert (xs + ys)[1..] == xs[1..] + ys;
      AllLinesAppend(xs[1..], ys);
    }
  }

  lemma AllLinesOfThree(x: string, y: string, z: string)
    ensures AllLines([x, y, z]) == Lines(x) + Lines(y) + Lines(z)
  {
    assert [z][1..] == [];
    assert AllLines([z]) == Lines(z);
    assert [y, z][1..] == [z];
    assert AllLines([y, z]) == Lines(y) + Lines(z);
    assert [x, y, z][1..] == [y, z];
  }

  /** A category reads back as its header, its labels one per line, and a blank line. */
  lemma CategoryBlockLines(header: string, labels: seq<string>)
    requires SingleLine(header) && AllSingleLine(labels)
    ensures AllLines(CategoryBlock(header, labels)) == CategoryLines(header, labels)
  {
    AllLinesOfThree(header, JoinLines(labels), "");
    LinesOfLine(header);
    LinesOfJoin(labels);
  }

  /** None of the template's fixed lines contains a line break. */
  lemma FixedLinesAreSingle()
    ensures SingleLine(LabelListHeader) && SingleLine(CyberHeader) && SingleLine(AllgemeinHeader)
    ensures SingleLine(NewsInfoHeader) && SingleLine(StrukturHeader) && SingleLine(ArticleHeader)
    ensures SingleLine(BeginMarker) && SingleLine(TitlePrefix) && SingleLine(EndMarker)
  {
  }

  lemma IntroLines()
    ensures AllLines([Preamble, "", LabelListHeader]) == Lines(Preamble) + ["", LabelListHeader]
  {
    AllLinesOfThree(Preamble, "", LabelListHeader);
    FixedLinesAreSingle();
    LinesOfLine(LabelListHeader);
  }

  lemma ArticleHeadLines(title: string)
    requires SingleLine(title)
    ensures AllLines([ArticleHeader, BeginMarker, TitlePrefix + title]) == [ArticleHeader, BeginMarker, TitlePrefix + title]
  {
    AllLinesOfThree(ArticleHeader, BeginMarker, TitlePrefix + title);
    FixedLinesAreSingle();
    LinesOfLine(ArticleHeader);
    LinesOfLine(BeginMarker);
    assert SingleLine(TitlePrefix + title);
    LinesOfLine(TitlePrefix + title);
  }

  lemma ArticleTailLines(article: string)
    ensures AllLines([article, EndMarker, ""]) == Lines(article) + [EndMarker, ""]
  {
    AllLinesOfThree(article, EndMarker, "");
    FixedLinesAreSingle();
    LinesOfLine(EndMarker);
  }

  lemma ArticleBlockLines(title: string, article: string)
    requires SingleLine(title)
    ensures AllLines(ArticleBlock(title, article)) == ArticleLines(title, article)
  {
    var head := [ArticleHeader, BeginMarker, TitlePrefix + title];
    var tail := [article, EndMarker, ""];
    assert ArticleBlock(title, article) == head + tail;
    AllLinesAppend(head, tail);
    ArticleHeadLines(title);
    ArticleTailLines(article);
  }

  /**
   * The prompt, read line by line: the preamble, a blank line, the header
   * "Label-List:", then each category header followed by that category's
   * labels one per line and a blank line, in the order Cyber, Allgemeine
   * Tags, NewsInfo, Struktur; then "Article:", "BEGIN", the title line, the
   * article's own lines and "END".
   */
  lemma PromptLayout(cyber: seq<string>, allgemein: seq<string>, newsInfo: seq<string>,
                     struktur: seq<string>, title: string, article: string)
    requires AllSingleLine(cyber) && AllSingleLine(allgemein)
    requires AllSingleLine(newsInfo) && AllSingleLine(struktur)
    requires SingleLine(title)
    ensures Lines(PromptText(cyber, allgemein, newsInfo, struktur, title, article))
         == Lines(Preamble) + ["", LabelListHeader]
          + CategoryLines(CyberHeader, cyber)
          + CategoryLines(AllgemeinHeader, allgemein)
          + CategoryLines(NewsInfoHeader, newsInfo)
          + CategoryLines(StrukturHeader, struktur)
          + ArticleLines(title, article)
  {
    var intro := [Preamble, "", LabelListHeader];
    var c := CategoryBlock(CyberHeader, cyber);
    var a := CategoryBlock(AllgemeinHeader, allgemein);
    var n := CategoryBlock(NewsInfoHeader, newsInfo);
    var st := CategoryBlock(StrukturHeader, struktur);
    var art := ArticleBlock(title, article);
    LinesOfJoinLines(intro + c + a + n + st + art);
    AllLinesAppend(intro + c + a + n + st, art);
    AllLinesAppend(intro + c + a + n, st);
    AllLinesAppend(intro + c + a, n);
    AllLinesAppend(intro + c, a);
    AllLinesAppend(intro, c);
    IntroLines();
    FixedLinesAreSingle();
    CategoryBlockLines(CyberHeader, cyber);
    CategoryBlockLines(AllgemeinHeader, allgemein);
    CategoryBlockLines(NewsInfoHeader, newsInfo);
    CategoryBlockLines(StrukturHeader, struktur);
    ArticleBlockLines(title, article);
  }
}
