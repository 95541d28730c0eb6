# Solidity audit commands and PlantUML writer, in Dafny

This project models the text-producing core of a VS Code extension for
auditing Solidity code:

- **Top-level contracts** (`_findTopLevelContracts`, `findTopLevelContracts`).
  The command collects every non-interface contract's dependency list. Two
  paths exist: the source units found by a glob search of the workspace, or
  the contracts already loaded (which also leaves out libraries). A contract
  is top-level when no collected list names it. On the scan path each
  top-level name maps to the file that declared it.
- **The audit report**. Three fragments are spliced into the call graph: the
  function-signature table, the inheritance graph's body, and a table read
  back from the "Contracts Description" part of the markdown report.
- **The function-signature listings**: the graph table, the plain listing
  for one document, and the workspace listing that merges every file's
  signatures. Each listing comes with its collision warning.
- **The dependencies listing** and the **argument normalisation of a
  function trace**.
- **`PlantumlWriter.export`**:
  - the lookup tables, including the function-name mapping;
  - one class block per contract;
  - the inheritance and using-for relations;
  - the optional actors section.

**JavaScript semantics.** These are modelled explicitly:

- `indexOf` and `lastIndexOf` give -1 when nothing is found.
- `substring` clamps its bounds and swaps them.
- `split`, `join` and ECMAScript `trim` work as in JavaScript.
- An out-of-range array element renders as `undefined`.
- Reading `lines[++i]` past the end makes `undefined.split` throw.
- Objects are insertion-ordered lists of key/value pairs, updated by `Put`.
- `[...new Set(xs)]` is `Dedup`.

**State.**

- Methods model the loops that update local objects, with their invariants.
- Each method is proved equal to a specification function, and lemmas prove
  the promised properties of those functions.
- The analyser's outputs (inheritance graph, markdown report, call graph,
  dependency list), the signature extractor's result and the editor settings
  are all parameters.

**Actor filter.** The filter is modelled as written: `actors.indexOf(x)` is
used as a truth value. So a name `_x` is dropped unless `x` is the very
first actor, including when `x` is absent altogether. Three lemmas show
this behaviour: `Plantuml.LoneUnderscoreDropped`,
`Plantuml.UnderscoreOfFirstKept` and `Plantuml.UnderscoreOfLaterDropped`.

**Interfaces in the dependency graph.** The code never collects an
interface's list (`src/features/commands.js:668-676`), so a name listed only
by an interface can be top-level. The model does the same.

Files:

- `wrappers.dfy`: Option and Result.
- `js_text.dfy`: the string built-ins.
- `js_object.dfy`: ordered objects.
- `contract_model.dfy`: the contract descriptors.
- `top_level.dfy`, `signatures.dfy`, `audit_report.dfy`, `command_text.dfy`
  and `plantuml.dfy`: the commands and the writer.

## Model

| member | source | states |
|---|---|---|
| JsText.IndexOf | src/features/commands.js:473 | `indexOf` is -1 exactly when the pattern does not occur; otherwise the pattern occurs there and nowhere earlier |
| JsText.LastIndexOf | src/features/commands.js:474 | `lastIndexOf` is -1 exactly when the pattern does not occur; otherwise the pattern occurs there and nowhere later |
| JsText.Substring | src/features/commands.js:475 | `substring` takes the slice between its bounds, swapping reversed bounds and clamping a negative bound to 0 |
| JsText.Split | src/features/commands.js:500 | `split` gives at least one piece, and no piece holds the separator |
| JsText.Trim | src/features/commands.js:503 | the trimmed text is empty exactly when the line is all whitespace, and otherwise neither starts nor ends with whitespace |
| JsText.TrimSlice | src/features/commands.js:503 | the trimmed text is the slice `s[p..q]` of the line, with only whitespace before `p` and after `q` |
| JsText.TrimIsSlice | src/features/commands.js:503 | for every line there are `p <= q` such that the trimmed text is `s[p..q]` and only whitespace lies before `p` and after `q` |
| JsText.RemoveChar | src/features/commands.js:531-533 | `replaceAll(c, "")` removes every `c` and keeps every other character as often as it occurred |
| JsText.RemoveCharAppend | src/features/commands.js:531-533 | removal works piece by piece, so the kept characters stay in their order |
| JsObject.Put | src/features/commands.js:674-676 | assigning `obj[k] = v` appends a new key or keeps the key's place; afterwards `k` reads `v` and every other key reads as before |
| JsObject.Dedup | src/features/writer/plantuml.js:115 | `[...new Set(xs)]` holds the same elements as `xs`, each once |
| JsObject.DedupOrder | src/features/writer/plantuml.js:115 | `[...new Set(xs)]` lists its elements in the order of their first occurrence in `xs` |
| JsObject.LastWrite | src/features/commands.js:674-676 | a key has a stored value exactly when it was written, and the value is the one of a write to the key that no later write to it follows |
| TopLevel.SearchFileStringAlternatives | src/features/commands.js:644-656 | the search pattern is a brace alternation with one `**/*.sol` glob per base directory, in order; `undefined` stands for the whole workspace, and a single value counts as a one-element list |
| TopLevel.LastEntry | src/features/commands.js:674-676 | a name has a last collection step exactly when it was collected; that step assigns the name and no later step does |
| TopLevel.NotDependedOn | src/features/commands.js:692-696 | the filter keeps exactly the names that occur in no dependency list, and keeps distinct names distinct |
| TopLevel.Resolve | src/features/commands.js:692-702 | the result's keys are the collected names that no collected list names, in collection order; each maps to its file, or to `undefined` when none was recorded |
| TopLevel.CollectUnit | src/features/commands.js:667-677 | the loop over one source unit's contracts leaves both objects as if every non-interface contract's list and file had been written in order |
| TopLevel.CollectScanned | src/features/commands.js:657-680 | the scan of the found files gives the objects that the ordered writes of every analysable file's non-interface contracts produce |
| TopLevel.CollectLoaded | src/features/commands.js:684-689 | the loaded-contracts path writes only dependency lists, and only for contracts that are neither interfaces nor libraries |
| TopLevel.FindTopLevelContracts | src/features/commands.js:639-703 | the returned object is the top-level resolution of the entries that the chosen path collects |
| TopLevel.LastWriteOfDeps | src/features/commands.js:674-675 | the collected dependency list of a name is the list of its last collection step |
| TopLevel.TopLevelMembership | src/features/commands.js:692-702 | a name is returned exactly when it was collected and no name's last collected list contains it |
| TopLevel.SelfDependentIsNotTopLevel | src/features/commands.js:692-696 | a contract whose own list names itself is never top-level |
| TopLevel.NotDependedOnOrder | src/features/commands.js:694-696 | filtering keeps the order of the collected names |
| TopLevel.TopLevelOrder | src/features/commands.js:692-702 | the returned names are distinct and come in the order in which they were first collected |
| TopLevel.UnitNames | src/features/commands.js:667-677 | a source unit contributes exactly its non-interface contracts, each with that unit's file |
| TopLevel.ScanNames | src/features/commands.js:657-680 | a name is collected by the scan exactly when some found file declares it as a non-interface contract; every entry has a file |
| TopLevel.LoadedNames | src/features/commands.js:684-689 | a name is collected from the loaded contracts exactly when one of them, neither interface nor library, has that name |
| TopLevel.LoadedNoFiles | src/features/commands.js:684-689 | the loaded-contracts path records no file for any contract |
| TopLevel.LoadedMapsToUndefined | src/features/commands.js:698-702 | on the loaded-contracts path every top-level name maps to `undefined` |
| TopLevel.LastFileWrite | src/features/commands.js:676 | the recorded file of a name is the file of its last collection step |
| TopLevel.ScanMapsToLastFile | src/features/commands.js:698-702 | on the scan path every top-level name maps to the file that declared it last |
| TopLevel.TopLevelIsDeclared | src/features/commands.js:639-703 | every returned name is declared by a found file, or by a loaded contract that is neither interface nor library |
| TopLevel.BaseDerivedExample | src/features/commands.js:684-702 | with a contract `Derived` inheriting from `Base`, only `Derived` is top-level |
| TopLevel.TopLevelTextLines | src/features/commands.js:705-719 | the listing is a blank line, the title, its underline and a blank line, then one line per top-level name (an empty line when there are none) |
| Signatures.CollisionWarning | src/features/commands.js:916-920 | a warning is shown exactly when there are collisions, and it starts with the fixed prefix |
| Signatures.CollisionWarningLists | src/features/commands.js:916-920 | the warning's text after the prefix splits at commas back into the collisions |
| Signatures.GraphRows | src/features/commands.js:164-172 | one table row per signature, in the object's order |
| Signatures.ListFunctionSignaturesAsGraph | src/features/commands.js:140-193 | the loop that appends rows gives the table text: head, rows, collisions cell when there are collisions, tail |
| Signatures.GraphTableRow | src/features/commands.js:164-172 | every signature's row occurs in the table after the head and the rows before it, and later rows start after it |
| Signatures.RenderListing | src/features/commands.js:926-935 | the loop that appends `hash  =>  signature` lines gives the listing text |
| Signatures.ListFunctionSignatures | src/features/commands.js:910-942 | the plain listing is the title, underline, one line per signature and the collisions block, with the collision warning beside it |
| Signatures.ListingLines | src/features/commands.js:926-935 | split at newlines, the listing reads as title, underline, one line per signature, then either an empty line or two blank lines, the collisions title, its underline and one line per collision |
| Signatures.CollisionsBlockLines | src/features/commands.js:930-935 | the collisions block adds nothing when there are no collisions, and otherwise the fixed lines followed by one line per collision |
| Signatures.CopySighashes | src/features/commands.js:959-961 | copying one file's signatures in order writes each pair into the merged object |
| Signatures.MergeWorkspace | src/features/commands.js:945-964 | the merged object is every analysable file's signatures written in discovery order, and the collisions are all files' collisions concatenated |
| Signatures.ListFunctionSignaturesForWorkspace | src/features/commands.js:944-993 | the workspace listing is the merged signatures with two trailing spaces per line, and the warning lists every collision |
| Signatures.LastWriteAppend | src/features/commands.js:959-961 | a later file's write of a selector wins over an earlier one |
| Signatures.AllWritesDefines | src/features/commands.js:948-964 | a selector is merged exactly when some analysable file defines it |
| Signatures.AllWritesLast | src/features/commands.js:948-964 | a merged selector carries the signature of the last file that defines it |
| Signatures.MergedSelector | src/features/commands.js:945-964 | the merged object holds a selector exactly when some file defines it, with the last defining file's signature |
| Signatures.MergedOrder | src/features/commands.js:945-964 | the merged selectors are distinct and come in the order of their first definition |
| AuditReport.BodyBetweenBraces | src/features/commands.js:473-475 | when the first `{` comes before the last `}`, the inheritance body is exactly the text between them |
| AuditReport.BodyWithoutBraces | src/features/commands.js:473-475 | a graph without braces has an empty body |
| AuditReport.Seg | src/features/commands.js:508-514 | an existing piece renders as itself, and a missing piece renders as `undefined` |
| AuditReport.FunctionRowOf | src/features/commands.js:525-538 | a function line gives a function row whose marker is the `└` piece and whose name holds no angle bracket |
| AuditReport.RenderRows | src/features/commands.js:502-540 | the loop over the report's lines gives the text of the rows collected from the first line on, or the error thrown |
| AuditReport.DescriptionRows | src/features/commands.js:496-540 | the rows are read from the report's first marker on |
| AuditReport.RowsFromFailure | src/features/commands.js:506-508 | reading the lines fails only with the `undefined.split` error, and only when the last line is a marker |
| AuditReport.RowsFromFunctionNames | src/features/commands.js:525-538 | no function row's name holds an angle bracket |
| AuditReport.FunctionLineRow | src/features/commands.js:525-538 | a function line built from pieces gives back the `└` marker, the name without angle brackets, and the visibility, mutability and modifiers pieces |
| AuditReport.HeadingRow | src/features/commands.js:507-524 | a heading line gives back its first three pieces |
| AuditReport.HeadingAndFunction | src/features/commands.js:502-540 | a marker, a heading, a function line and a blank line give exactly one contract row and one function row |
| AuditReport.SectionRows | src/features/commands.js:502-540 | the loop stops at the first blank line, after a marker section's rows |
| AuditReport.SpliceWellFormed | src/features/commands.js:581-590 | with a first `{` before a last `}`, the fragments go right after the opening brace, the description right before a closing brace, and what follows the last `}` is dropped |
| AuditReport.SpliceWithoutClosingBrace | src/features/commands.js:581-590 | a graph with no closing brace gets its text up to the opening brace twice |
| AuditReport.AuditReportCommand | src/features/commands.js:465-590 | the command's outcome is the spliced graph built from the signature table, the inheritance fragment and the description node, nothing when the report is empty, or the error thrown |
| AuditReport.AuditOutcomeCases | src/features/commands.js:487-540 | nothing is shown exactly when the report is empty or `undefined`; the command throws only when the report's last line is a marker |
| CommandText.ReduceIsJoin | src/features/commands.js:390-392 | the reducer puts the arrow separator between consecutive names and nowhere else |
| CommandText.DependencyListing | src/features/commands.js:378-403 | nothing is shown exactly when the analyser returns `undefined`; fewer than two names show "No Dependencies Found" |
| CommandText.DependencyListingLines | src/features/commands.js:381-397 | with two or more names, the listing has one line per name: the contract as it is, then each dependency behind an arrow |
| CommandText.TraceFunctionName | src/features/commands.js:407-411 | `null` becomes `<Constructor>`, the empty name `<Fallback>`, and any other name is kept unchanged |
| CommandText.TraceFunctionNameInjective | src/features/commands.js:407-411 | the constructor, the fallback function and functions whose names hold no `<` get distinct function parts |
| CommandText.TraceMode | src/features/commands.js:415 | the mode is the given mode, or `all` when it is `undefined` or empty |
| CommandText.TraceQuerySplits | src/features/commands.js:414 | the query splits at its first `::` into the contract name and the function part |
| Plantuml.MutabilityIcon | src/features/writer/plantuml.js:12-17 | the search icon exactly for view, pure and constant; the money icon exactly for payable; nothing otherwise |
| Plantuml.FunctionVisibility | src/features/writer/plantuml.js:19-25 | `+` exactly for public, external and default; `#` for internal; `-` for private; nothing otherwise |
| Plantuml.VariableVisibility | src/features/writer/plantuml.js:26-32 | `+` exactly for public and external; `#` for internal and default; `-` for private; nothing otherwise |
| Plantuml.VisibilityTablesAgree | src/features/writer/plantuml.js:19-32 | the two visibility tables differ only on `default`, which is public for functions and internal for variables |
| Plantuml.ContractKeyword | src/features/writer/plantuml.js:33-37 | interfaces are drawn as `interface`, libraries as `abstract`, every other kind as `class` |
| Plantuml.MapAstFunctionName | src/features/writer/plantuml.js:39-48 | `null` becomes the constructor label, the empty name the fallback label, and any other name is kept |
| Plantuml.MapAstFunctionNameInjective | src/features/writer/plantuml.js:39-48 | names without `*` are told apart from the constructor, the fallback function and one another |
| Plantuml.StripParens | src/features/writer/plantuml.js:80 | the variable's type text loses every parenthesis and keeps every other character as often as it occurred |
| Plantuml.StripParensAppend | src/features/writer/plantuml.js:80 | parentheses are stripped piece by piece, so the other characters keep their order |
| Plantuml.StaticIffConstant | src/features/writer/plantuml.js:80 | a state variable's line carries `{static}` right after its visibility exactly when the variable is constant |
| Plantuml.DependencyLines | src/features/writer/plantuml.js:69-71 | one `{abstract}` line per inherited name, in order |
| Plantuml.UsingForLines | src/features/writer/plantuml.js:74-76 | one line per using-for declaration, in order |
| Plantuml.StateVarLines | src/features/writer/plantuml.js:79-81 | one line per state variable, in order |
| Plantuml.FunctionLines | src/features/writer/plantuml.js:84-86 | one line per function, in order |
| Plantuml.ClassBlockLines | src/features/writer/plantuml.js:64-89 | a contract's block is a newline-terminated sequence of lines |
| Plantuml.ClassesAsLines | src/features/writer/plantuml.js:64-90 | the class section is the concatenation of every contract's block lines, in order |
| Plantuml.InheritanceRelations | src/features/writer/plantuml.js:94-96 | one `--[#DarkGoldenRod]\|>` arrow per inherited name, in order |
| Plantuml.UsingForRelations | src/features/writer/plantuml.js:97-99 | one `..[#DarkOliveGreen]\|>` arrow per using-for declaration, labelled with its type |
| Plantuml.RelationsAsLines | src/features/writer/plantuml.js:92-100 | the relations section is every contract's arrows, one line each, in order |
| Plantuml.CollectAddresses | src/features/writer/plantuml.js:106-113 | the nested loop collects the candidate names in contract order: each contract's state variables, then its functions' arguments |
| Plantuml.StateAddressesMember | src/features/writer/plantuml.js:109 | a state variable contributes its name exactly when it is a non-constant `address` |
| Plantuml.ArgumentAddressesMember | src/features/writer/plantuml.js:111 | an argument contributes its name exactly when its type is `address` |
| Plantuml.FunctionAddressesMember | src/features/writer/plantuml.js:110-112 | the functions contribute exactly the names of their `address` arguments |
| Plantuml.AddressesMember | src/features/writer/plantuml.js:106-113 | a name is a candidate exactly when some contract contributes it |
| Plantuml.FilterActorsMember | src/features/writer/plantuml.js:116-124 | the filter keeps exactly the non-null candidates that pass its test |
| Plantuml.ActorsMember | src/features/writer/plantuml.js:115-124 | an actor is a candidate that is not an `_x` whose `x` sits anywhere but first; the actors are distinct |
| Plantuml.ActorsOrder | src/features/writer/plantuml.js:106-124 | the actors come in the order in which their names were first collected |
| Plantuml.LoneUnderscoreDropped | src/features/writer/plantuml.js:120 | `_x` without `x` is dropped |
| Plantuml.UnderscoreOfFirstKept | src/features/writer/plantuml.js:120 | `_x` is kept when `x` is the first candidate |
| Plantuml.UnderscoreOfLaterDropped | src/features/writer/plantuml.js:120 | `_x` is dropped when `x` is a later candidate |
| Plantuml.ActorLines | src/features/writer/plantuml.js:129 | one `actor` line per actor, in order |
| Plantuml.ActorsBlockLines | src/features/writer/plantuml.js:126-131 | the actors section is the label, `together {`, the actor lines and the closing brace, one per line |
| Plantuml.HeaderAsLines | src/features/writer/plantuml.js:54-62 | the preamble is eight newline-terminated lines, with the options and the mixing switch in the fifth and sixth |
| Plantuml.Export | src/features/writer/plantuml.js:52-136 | appending the parts gives the document: preamble, class blocks, relations, actors when enabled, and `@enduml` |
| Plantuml.DocumentAsLines | src/features/writer/plantuml.js:52-136 | the document is its preamble, class, relation and actor lines, then `@enduml` on a line of its own |
| Plantuml.HeaderLinesOneLine | src/features/writer/plantuml.js:54-62 | with single-line options, the preamble has eight lines, the first `@startuml` and the sixth `allowmixing` exactly when actors are enabled |
| Plantuml.DocumentLinesSplit | src/features/writer/plantuml.js:52-136 | split at newlines, the document begins with the preamble's eight lines and ends with `@enduml` |
| Plantuml.DocumentFrame | src/features/writer/plantuml.js:52-136 | the document has at least nine lines; the first is `@startuml`, the sixth is `allowmixing` exactly when actors are enabled, and the last is `@enduml` |

## Left out

- Editor I/O is left out: opening and showing documents, `showErrorMessage`, and the `asJson` branches' `JSON.stringify`. The model computes the text that would be shown, and the warning as a value.
- The external analyser's results are inputs: the inheritance graph, the markdown report, the call graph, the dependency list and the `ftrace` output. `surya.ftrace`'s call, its `try`/`catch` and `console.error` are left out.
- `vscode.workspace.findFiles` is an input list. Its exclude pattern and its 500-file cap are not modelled, and neither are reading files and the extractor's own parsing.
- `g_workspace.add` and `getAllContracts` become given descriptors. A failed analysis is a `None` that contributes nothing, as the empty `catch` does.
- The async `forEach` callbacks are modelled as running to completion in discovery order. Interleaving and writes that land after `_findTopLevelContracts` returns are not modelled.
- The `files` argument of `_findTopLevelContracts` is not modelled. The code never reads it.
- JavaScript objects here keep pure insertion order. The engine's rule that integer-like keys come first is not modelled, and neither are `__proto__` or inherited keys in the lookup tables.
- Strings are sequences of code points, not UTF-16 code units. Indices around astral characters such as the emoji differ from JavaScript's.
- `getVariableDeclarationType` is the parameter `declType`, applied to a node's type. Its own rendering is not modelled.
- The extension settings are the `UmlConfig` value. The `negModifiers` option is only passed to the analyser and is not modelled.
- In the `auditreport` case the `graphSimple` branch cannot be taken, because the command is `auditreport`. Colour schemes are a concern of the analyser.
- The `TypeError` is modelled by a fixed message string, not by the engine's exact wording.
- CommandText.TraceFunctionName: an `undefined` function argument is not modelled. The code passes it on unchanged, so the query reads `C::undefined`, but the model's names are only `null` (`None`) or a string.
- `listFunctionSignatureForAstItem`, the other `surya` cases and src/features/templates.js are outside the modelled core.
