# osdp-fix label pipeline, modelled in Dafny

osdp-fix is a browser extension for a news-editing page. The page shows a taxonomy as an Angular `<mat-tree>`, and the extension picks labels from it for an article with the help of a language model. This project models the deterministic core of its content script (`src/contentScript.js`) and proves properties of it.

- **buildMatTree** (`mat_tree.dfy`, module `MatTree`). It takes the tree items in document order, each with a label and an `aria-level`, and builds a forest of `{label, children}` nodes. The builder keeps a stack indexed by level, assigns past its end, and truncates it with `stack.length = level + 1`. Afterwards it drops the roots "InnoTech", "KriMiSi" and "Auftragstags".
  - The JavaScript shares node objects between `tree`, `stack` and the parents' `children` arrays. The model gives every created node an index in an arena of cells, so a reference is an index.
  - The imperative method is proved equal to a declarative description: what each stack slot holds, which node is each node's parent, and the children of each node in input order.
- **flattenTreeLabels** (`flatten.dfy`, module `Flatten`). A recursive `traverse` pushes every label into one array. It is proved equal to a pre-order function, and its length is proved equal to the node count.
- **The flattened forest** (`tree_order.dfy`, module `TreeOrder`). It proves what `flattenTreeLabels` lists for the forest `buildMatTree` returns. The result is the labels of the items whose chain of parents reaches a level-1 item under a root that is not denylisted. Each such label appears once, in page order.
- **Category grouping** (`categories.dfy`, module `Categories`). Each root's children are flattened into four lists by a `switch` without `break`. The model runs the switch as written, falling through the cases below the matching one.
- **The prompt** (`prompt.dfy`, module `Prompt`). The label lists come in the order Cyber, Allgemeine Tags, NewsInfo, Struktur, followed by the title and the article between BEGIN and END. A list that is still `undefined` makes `.join` throw.
- **The reply** (`answer.dfy`, module `Answer`). The reply is cleaned: every "```json" is removed, then every "```", then the text is trimmed. It is parsed, and the `label` of every element is projected. If parsing fails, the fallback reads the undeclared `text` and throws.
- **getRelevantLabelsFromGPT** (`relevant_labels.dfy`) and **runExtensionLogic** (`run.dfy`). These compose the steps above and decide the status and message of a run.
- `js_runtime.dfy` holds the JavaScript built-ins the core relies on:
  - `String.prototype.trim` with the ECMAScript white-space set;
  - global `replace` of a literal pattern;
  - `join("\n")` and `split("\n")`;
  - array assignment past the end, and assignment to `length`.

## Behaviour as written

In these places the code behaves in ways a reader might not expect, and the model follows the code:

- **Orphaned items.** An item whose parent slot `stack[level - 1]` is empty is not dropped. It is still stored at `stack[level]`, so its own sub-items attach to it and vanish with it (`MatTree.PlacedOnce`, `MatTree.StackTop`, `TreeOrder.DetachedSubtreeVanishes`, `TreeOrder.DetachedExample`).
- **Empty forest.** An empty forest raises no error: an empty array is truthy, and the run goes on to the prompt.
- **Unassigned categories.** A category list that no root reaches is not treated as empty. It stays `undefined`, and `.join` throws.
  - Because the `switch` falls through, every list is assigned exactly when some root is labelled "Struktur" (`Categories.AllAssignedIffStruktur`).
  - Without such a root the run always ends with "Failed to extract labels: Cannot read properties of undefined (reading 'join')" (`Run.NoStrukturRunFails`).
- **Unparsable replies.** The line-splitting fallback for a reply that does not parse (line 481, `text.split('\n')`) never splits anything: it reads the undeclared variable `text` and throws a ReferenceError first. Such a run ends with "Failed to extract labels: text is not defined" (`Run.ParseFailureRunFails`).
- **String arrays.** A reply that parses to an array of strings still ends in a successful run: `.map(e => e.label)` yields `undefined` for each string, so the run reports status "success" with "Run finished", `labelsLinear` holds one `undefined` per string, and no label in the tree matches them for marking. In the model such an element is `Record(None)`.

## Model

| member | source | states |
|---|---|---|
| `JsRuntime.Trim` | osdp-fix/src/contentScript.js:239 | `trim()` yields the infix of the input that starts where the leading white space ends and is followed only by white space, and it has no white space at either end |
| `JsRuntime.TrimEmptyIff` | osdp-fix/src/contentScript.js:239-240 | trimming yields the empty string exactly when the input is all white space |
| `JsRuntime.JoinLines` | osdp-fix/src/contentScript.js:440-449 | `join("\n")` starts with the first string, and its length is the sum of the strings' lengths plus one separator per pair of neighbours; an empty list joins to "" |
| `JsRuntime.TrimFixpoint` | osdp-fix/src/contentScript.js:471 | trimming leaves a string unchanged exactly when neither end is white space |
| `JsRuntime.TrimIdempotent` | osdp-fix/src/contentScript.js:471 | trimming twice is trimming once |
| `JsRuntime.RemoveAll` | osdp-fix/src/contentScript.js:469-470 | the global replace by '' never lengthens the text, and shortens it when an occurrence starts it |
| `JsRuntime.RemoveAllAbsent` | osdp-fix/src/contentScript.js:469-470 | a text without the pattern is left unchanged |
| `JsRuntime.NoFenceAfterRemoval` | osdp-fix/src/contentScript.js:470 | after every "```" has been deleted none is left: deletion never glues back-ticks into a new fence |
| `JsRuntime.LinesOfJoin` | osdp-fix/src/contentScript.js:440 | `join("\n")` of single-line strings splits back into the same list; an empty list splits back into one empty line |
| `JsRuntime.AssignAt` | osdp-fix/src/contentScript.js:247-251 | `stack[i] = x` sets slot i, pads with holes when i is past the end, and leaves every other slot alone |
| `JsRuntime.WithLength` | osdp-fix/src/contentScript.js:254 | `stack.length = n` gives length n, and each slot keeps its value or becomes a hole |
| `MatTree.LabelOf` | osdp-fix/src/contentScript.js:238-240 | the label is trimmed, and is empty (so the item is skipped) exactly when there is no label span or its text is all white space |
| `MatTree.LevelOf` | osdp-fix/src/contentScript.js:242 | an absent or empty `aria-level` reads as 1, otherwise the given level |
| `MatTree.KeptEntries` | osdp-fix/src/contentScript.js:238-240 | every node that gets created has a non-empty, trimmed label; items without a label span or with an all-white-space label create none |
| `MatTree.SlotSpec` | osdp-fix/src/contentScript.js:247-254 | a stack slot only ever holds a node of exactly that slot's level |
| `MatTree.ParentAt` | osdp-fix/src/contentScript.js:249-250 | a node's parent is an earlier node one level up; a level-1 node has none |
| `MatTree.ChildrenUpTo` | osdp-fix/src/contentScript.js:250 | a node's children come after it and are in creation order |
| `MatTree.RootsUpTo` | osdp-fix/src/contentScript.js:246 | the roots are in creation order |
| `MatTree.CellsWellFormed` | osdp-fix/src/contentScript.js:243-251 | every child reference points at a node created after its parent, so the shared node graph is acyclic |
| `MatTree.MaterializeList` | osdp-fix/src/contentScript.js:243-250 | resolving a list of node references yields one node per reference |
| `MatTree.DropDenylisted` | osdp-fix/src/contentScript.js:259-261 | the denylist filter never adds roots |
| `MatTree.BuildMatTree` | osdp-fix/src/contentScript.js:229-265 | the loop over the items, followed by the filter, returns exactly the forest of the declarative description (`MatTreeOf`) |
| `MatTree.PlaceNode` | osdp-fix/src/contentScript.js:243-254 | one labelled item extends the node arena, the roots and the stack exactly as the declarative description does for one more node |
| `MatTree.KeptStep` | osdp-fix/src/contentScript.js:238-242 | each item creates one node with its trimmed label and level (1 when aria-level is absent), or none when it has no label |
| `MatTree.CellsStep` | osdp-fix/src/contentScript.js:243-250 | one more node adds a childless cell and is appended to its parent's children only |
| `MatTree.StackStep` | osdp-fix/src/contentScript.js:245-254 | storing the node at its level and truncating to level + 1 keeps every slot as the declarative description says |
| `MatTree.NewNodeIsLastChild` | osdp-fix/src/contentScript.js:250 | a new node becomes the last child of its parent, and every other node keeps its children |
| `MatTree.NewRootIsLast` | osdp-fix/src/contentScript.js:246 | a level-1 node is appended to the roots; any other node leaves them alone |
| `MatTree.NoChildrenYet` | osdp-fix/src/contentScript.js:243 | a node is created with no children |
| `MatTree.SlotBeyondStack` | osdp-fix/src/contentScript.js:249 | reading past the stack's end yields no parent |
| `MatTree.SlotBelowNewNode` | osdp-fix/src/contentScript.js:247-251 | storing a node at its level changes no slot below that level |
| `MatTree.ParentStable` | osdp-fix/src/contentScript.js:249-250 | later items never change an earlier node's parent |
| `MatTree.ChildrenStable` | osdp-fix/src/contentScript.js:250 | later items never change an earlier prefix of a node's children |
| `MatTree.RootsStable` | osdp-fix/src/contentScript.js:246 | later items never change an earlier prefix of the roots |
| `MatTree.KeptAppend` | osdp-fix/src/contentScript.js:237-240 | the items are handled one at a time, so the nodes for two stretches of items are the nodes of each in turn |
| `MatTree.SkippedEntryIsInvisible` | osdp-fix/src/contentScript.js:238-240 | an item without a usable label changes nothing: the forest is the same as without it |
| `MatTree.SkippedEntryKeepsNothing` | osdp-fix/src/contentScript.js:240 | an item without a usable label creates no node and so leaves the stack as it was |
| `MatTree.SameNodesSameTree` | osdp-fix/src/contentScript.js:237-264 | the forest depends on the items only through the nodes they create |
| `MatTree.RootsAreLevelOne` | osdp-fix/src/contentScript.js:245-246 | a node is a root exactly when its level is 1 |
| `MatTree.ChildrenAreParented` | osdp-fix/src/contentScript.js:249-250 | a node is among q's children exactly when its parent slot held q |
| `MatTree.PlacedOnce` | osdp-fix/src/contentScript.js:245-251 | each node is placed in at most one place: the roots if it has level 1, else its parent's children; a node whose parent slot was empty is placed nowhere |
| `MatTree.StackTop` | osdp-fix/src/contentScript.js:247-254 | after an item of level l, the stack has length l + 1 and holds the new node at l, even when the node was not placed |
| `MatTree.DropDenylistedAppend` | osdp-fix/src/contentScript.js:259-261 | the filter keeps the surviving roots in their relative order |
| `MatTree.DropDenylistedSingle` | osdp-fix/src/contentScript.js:260 | a root is dropped exactly when its own label is one of the three |
| `MatTree.DropDenylistedContents` | osdp-fix/src/contentScript.js:259-261 | the result has no denylisted root, and every other root survives whole, its children (denylisted labels included) untouched |
| `MatTree.DropDenylistedIdempotent` | osdp-fix/src/contentScript.js:259-261 | filtering twice is filtering once |
| `Flatten.PreOrderForestAppend` | osdp-fix/src/contentScript.js:276 | flattening a forest lists each tree's labels in turn: siblings keep their order |
| `Flatten.PreOrderForestSplit` | osdp-fix/src/contentScript.js:274 | a subtree's labels sit between those of its earlier and its later siblings |
| `Flatten.PreOrderLength` | osdp-fix/src/contentScript.js:272-275 | a tree flattens to one label per node |
| `Flatten.PreOrderForestLength` | osdp-fix/src/contentScript.js:270-278 | a forest flattens to one label per node |
| `Flatten.Traverse` | osdp-fix/src/contentScript.js:272-275 | `traverse` appends the node's label and then its children's subtrees in pre-order to the accumulator |
| `Flatten.FlattenTreeLabels` | osdp-fix/src/contentScript.js:270-278 | the result is the pre-order of the forest, with one label per node |
| `TreeOrder.Up` | osdp-fix/src/contentScript.js:245-251 | a node hangs from an earlier node, from the top level exactly when its level is 1, or from nothing |
| `TreeOrder.ChildList` | osdp-fix/src/contentScript.js:246-250 | a node's children, or the roots, are later nodes listed in creation order |
| `TreeOrder.ChildListMembers` | osdp-fix/src/contentScript.js:245-250 | a node is in q's list of children exactly when it hangs from q |
| `TreeOrder.SlotIsLast` | osdp-fix/src/contentScript.js:247-254 | the node a stack slot holds is followed only by deeper nodes |
| `TreeOrder.UpLevels` | osdp-fix/src/contentScript.js:249-254 | a node's parent is one level up, and every node between them is deeper than the parent |
| `TreeOrder.BelowIsDeeper` | osdp-fix/src/contentScript.js:245-254 | everything from a node down to any node hanging below it is deeper than that node |
| `TreeOrder.BelowThroughChild` | osdp-fix/src/contentScript.js:250 | what hangs below a child hangs below its parent |
| `TreeOrder.BelowSomeChild` | osdp-fix/src/contentScript.js:250 | what hangs below q without being its child hangs below one of q's children |
| `TreeOrder.SubtreeBeforeSibling` | osdp-fix/src/contentScript.js:245-254 | a child's subtree ends before the child's next sibling |
| `TreeOrder.NoneBeforeFirstChild` | osdp-fix/src/contentScript.js:245-254 | nothing between a node and its first child hangs below the node |
| `TreeOrder.BetweenSiblings` | osdp-fix/src/contentScript.js:245-254 | between two consecutive children, what hangs below the parent is exactly what hangs below the first of them |
| `TreeOrder.SubtreeEnds` | osdp-fix/src/contentScript.js:245-254 | nothing from a child's next sibling on hangs below the child |
| `TreeOrder.ChildSpan` | osdp-fix/src/contentScript.js:245-254 | from a child to its next sibling, the nodes below the parent are the child and its subtree |
| `TreeOrder.SubtreeOrder` | osdp-fix/src/contentScript.js:243-275 | a node's subtree flattens to its label followed by the labels of all nodes hanging below it, in creation order |
| `TreeOrder.ChildrenOrder` | osdp-fix/src/contentScript.js:243-276 | a node's children's subtrees flatten to the labels of all nodes hanging below it, in creation order |
| `TreeOrder.ForestOrder` | osdp-fix/src/contentScript.js:229-278 | before the denylist filter, the forest flattens to the labels of the placed items, each once, in page order |
| `TreeOrder.RootOf` | osdp-fix/src/contentScript.js:245-250 | a placed item hangs below a level-1 item at or before it, or is one |
| `TreeOrder.RootSpan` | osdp-fix/src/contentScript.js:259-261 | the items from a root to the next are shown exactly when the root's label is not denylisted |
| `TreeOrder.ShownOrder` | osdp-fix/src/contentScript.js:259-278 | the filtered roots flatten to the labels of the shown items in page order |
| `TreeOrder.FlattenedMatTree` | osdp-fix/src/contentScript.js:229-278 | `flattenTreeLabels(buildMatTree(items))` is the labels of the items placed under a root whose label is not denylisted, each once, in page order |
| `TreeOrder.DetachedSubtreeVanishes` | osdp-fix/src/contentScript.js:249-251 | an item whose parent slot was empty is never shown, and neither is anything later hung below it |
| `TreeOrder.DetachedExample` | osdp-fix/src/contentScript.js:245-254 | for A (level 1), X (3), Y (4), B (2), X finds no parent, Y hangs from X, B from A, and only A and B are shown |
| `Categories.CaseOf` | osdp-fix/src/contentScript.js:294-306 | a label enters the switch exactly when it is one of the four case labels, at that label's position |
| `Categories.GroupCategories` | osdp-fix/src/contentScript.js:291-309 | each list ends up as the flattened children of the last root whose case is at or above that list's case, or undefined |
| `Categories.UnassignedIff` | osdp-fix/src/contentScript.js:291-309 | a list stays undefined exactly when no root's case reaches it |
| `Categories.AssignedByLastReaching` | osdp-fix/src/contentScript.js:293-306 | an assigned list holds the flattened children, not the label, of a root that reaches it, and no later root reaches it |
| `Categories.UnassignedPropagates` | osdp-fix/src/contentScript.js:294-306 | because of the fall-through, an undefined list leaves every earlier case's list undefined too |
| `Categories.AppendRoot` | osdp-fix/src/contentScript.js:291-306 | a later root overwrites exactly the lists its case falls through to |
| `Categories.StrukturAssignsAll` | osdp-fix/src/contentScript.js:295-306 | a "Struktur" root sets all four lists |
| `Categories.NewsinfoAssignsOnlyNews` | osdp-fix/src/contentScript.js:304-306 | a "Newsinfo" root sets only the news list |
| `Categories.AllAssignedIffStruktur` | osdp-fix/src/contentScript.js:291-309 | all four lists are defined exactly when some root is labelled "Struktur" |
| `Prompt.BuildPrompt` | osdp-fix/src/contentScript.js:438-456 | the prompt fails only with the TypeError of `.join` on undefined |
| `Prompt.PromptFailsIffNoStruktur` | osdp-fix/src/contentScript.js:440-449 | building the prompt throws exactly when no root is labelled "Struktur" |
| `Prompt.LinesOfJoinLines` | osdp-fix/src/contentScript.js:438-455 | the template's lines read back as the lines of each piece in turn |
| `Prompt.CategoryBlockLines` | osdp-fix/src/contentScript.js:439-441 | a category reads back as its header, its labels one per line (or a single empty line when it has none), and a blank line |
| `Prompt.ArticleBlockLines` | osdp-fix/src/contentScript.js:451-455 | the article part reads back as "Article:", "BEGIN", the title line, the article's own lines, and "END" |
| `Prompt.PromptLayout` | osdp-fix/src/contentScript.js:438-455 | the whole prompt reads back as the rule prose, "Label-List:", then the categories in the order Cyber, Allgemeine Tags, NewsInfo, Struktur, then the article block |
| `Answer.Clean` | osdp-fix/src/contentScript.js:468-471 | the cleaned reply contains no "```" and has no white space at either end |
| `Answer.TrimKeepsAbsence` | osdp-fix/src/contentScript.js:471 | trimming cannot create a fence |
| `Answer.NoJsonFenceWithoutFence` | osdp-fix/src/contentScript.js:469-470 | once no "```" is left, no "```json" is left either |
| `Answer.CleanFixpoint` | osdp-fix/src/contentScript.js:468-471 | cleaning leaves a reply unchanged exactly when it has no fence and no surrounding white space |
| `Answer.CleanIdempotent` | osdp-fix/src/contentScript.js:468-471 | cleaning twice is cleaning once |
| `Answer.CleanWithoutFences` | osdp-fix/src/contentScript.js:468-471 | a reply without back-tick fences is only trimmed |
| `Answer.CleanResponse` | osdp-fix/src/contentScript.js:467-471 | the chain succeeds exactly when `response.data` is a string, and yields its cleaned form |
| `Answer.MapLabels` | osdp-fix/src/contentScript.js:478 | `.map(e => e.label)` succeeds exactly when no element is null or undefined, and yields each element's label in order |
| `Answer.ProjectLabels` | osdp-fix/src/contentScript.js:477-482 | every failure of parsing or projecting ends in the fallback's ReferenceError "text is not defined" |
| `Answer.ProjectLabelsOk` | osdp-fix/src/contentScript.js:477-482 | labels are produced exactly when the reply parses to an array with no nullish element, and they are the elements' labels in order |
| `RelevantLabels.GetRelevantLabelsFromGPT` | osdp-fix/src/contentScript.js:283-483 | grouping, prompt, reply cleaning and projection in sequence give exactly `LabelsFor` |
| `RelevantLabels.NoStrukturNoLabels` | osdp-fix/src/contentScript.js:438-449 | without a "Struktur" root the call throws the `.join` TypeError, whatever the model replies |
| `RelevantLabels.PromptIsSent` | osdp-fix/src/contentScript.js:438-478 | with a "Struktur" root the model receives the prompt built from the four lists, and only its cleaned reply is parsed |
| `RelevantLabels.ThrownErrors` | osdp-fix/src/contentScript.js:438-482 | the only errors are the `.join` TypeError, the `.replace` TypeErrors on undefined or null, and the fallback's ReferenceError |
| `Run.RunExtensionLogic` | osdp-fix/src/contentScript.js:120-224 | the result object, built step by step with the source's early returns, is exactly `Outcome` |
| `Run.SuccessIff` | osdp-fix/src/contentScript.js:147-224 | a run succeeds exactly when text, title and mat-tree are present and the reply yields at least one label; the message is "Run finished" exactly then |
| `Run.NotRelevantIff` | osdp-fix/src/contentScript.js:200-206 | once text and title are present and the page has a mat-tree, the run reports "Article not relevant for Cyberdefense! (Response was empty)" exactly when the reply yields an empty label list; the run is then an error that keeps the empty list and the built forest |
| `Run.NoStrukturRunFails` | osdp-fix/src/contentScript.js:214-218 | without a "Struktur" root the run fails with "Failed to extract labels: " and the `.join` TypeError's message, keeping the built forest |
| `Run.ParseFailureRunFails` | osdp-fix/src/contentScript.js:214-218 | when the reply to the prompt actually sent is text whose cleaned form yields no labels (a syntax error, a non-array, or an array with a null or undefined element), the run fails with "Failed to extract labels: text is not defined", keeping the built forest |
| `Run.EarlyExits` | osdp-fix/src/contentScript.js:147-158 | a missing text wins over a missing title, which wins over a missing mat-tree; each sets its own message |

## Left out

- The DOM is left out. This covers reading the items from `mat-tree-node` elements (lines 230-242), `openTags`, `expandAllMatTreeNodes`, `markRelevantLabelsInMatTree`, `getArticleContentFromTextField`, `getArticleTitleFromTextField` and `extractRelevantText`. The items, the text and the title are inputs, and whether the page has a `<mat-tree>` is an `Option`.
  - Exceptions these functions may raise are not modelled. An example is `getElementById` returning null.
  - Marking the chosen labels (line 212) is not modelled, so a run whose labels are marked is reported as the source reports it when marking does not throw.
- A `.mat-checkbox-label`'s `innerText` is taken as given. What the browser renders is outside the model.
- Levels are integers of at least 1, as a mat-tree's `aria-level` always is. Other levels are not modelled. Level 0 does not throw: the node is stored in `stack[0]` under no parent, and `stack.length = 1` empties `stack[1]`, so deeper items that follow find no parent. Level -1 does not throw either. A non-numeric level (NaN), a level of -2 or less, and a level of 2^32 - 1 or more make `stack.length = level + 1` throw a RangeError, because an ECMAScript array length must be an integer in [0, 2^32 - 1] (line 254).
- Chrome messaging and storage, and `background.js`, are not part of this model. The round trip to the language model is the parameter `gateway`, from the prompt to `response.data`.
  - A missing `response` object is not modelled; it would throw when reading `.data`.
  - The API key lookup is not modelled.
- `JSON.parse` is the parameter `parse`, from the cleaned text to its outcome.
  - An element whose `label` is not a string is `Record(None)`: the label's actual value is not modelled.
- The rule prose of the prompt (lines 313-436) is not reproduced: `Prompt.Preamble` keeps its first line. Nothing in the model depends on the prose.
- The commented-out fetch step (lines 162-174) cannot throw and is not modelled. Neither are `console.log` calls.
- `replace` with a global regular expression is modelled only for the two literal patterns the source uses.
- `popup.js` and `webpack.config.js` are not part of this model: one is UI wiring, the other build configuration.
