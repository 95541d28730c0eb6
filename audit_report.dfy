/** The `auditreport` case of `surya` in src/features/commands.js: the call
    graph of the analysed files with three fragments spliced in, namely the
    function signature table, the inheritance graph and a table built from
    the "Contracts Description" part of the markdown report. */
module AuditReport {
  import opened Wrappers
  import opened JsText
  import opened JsObject
  import opened Signatures

  // ----------------------------------------------------------- inheritance

  const INHERITANCE_HEAD: string :=
    "\n"
    + "            subgraph cluster_inheritance {" + "\n"
    + "                node [style=filled];" + "\n"
    + "                " + "\n"
    + "                \"3. Inheritance                            \" [shape=box, color = \"red\", style=\"bold\"];" + "\n"
    + "                " + "\n"
    + "                "
  const INHERITANCE_TAIL: string := "\n                // \t\tcolor=blue\n            } "

  /** The text between the first "{" and the last "}" of a graph, with
      `substring`'s clamping and swapping when either brace is missing. */
  function Body(graph: string): string {
    Substring(graph, IndexOf(graph, "{") + 1, LastIndexOf(graph, "}"))
  }

  /** Lines 473-484: the inheritance graph's body as a cluster subgraph. */
  function InheritanceFragment(inheritance: string): string {
    INHERITANCE_HEAD + Body(inheritance) + INHERITANCE_TAIL
  }

  /** For a graph whose first "{" comes before its last "}", the body is
      exactly the text strictly between them. */
  lemma BodyBetweenBraces(graph: string, st: int, en: int)
    requires 0 <= st < en < |graph|
    requires graph[st] == '{' && '{' !in graph[..st]
    requires graph[en] == '}' && '}' !in graph[en + 1..]
    ensures Body(graph) == graph[st + 1..en]
  {
    IndexOfChar(graph, '{');
    LastIndexOfChar(graph, '}');
    assert IndexOf(graph, "{") == st;
    assert LastIndexOf(graph, "}") == en;
  }

  /** A graph without braces has an empty body. */
  lemma BodyWithoutBraces(graph: string)
    requires '{' !in graph && '}' !in graph
    ensures Body(graph) == ""
  {
    IndexOfChar(graph, '{');
    LastIndexOfChar(graph, '}');
  }

  // ----------------------------------------------------------- the description table

  const MARKER: string := "||||||"
  const FUNCTION_PREFIX: string := "| \U{2514} |"

  /** `segs[k]` in a template: the piece, or "undefined" past the end. */
  function Seg(segs: seq<string>, k: nat): (r: string)
    ensures k < |segs| ==> r == segs[k]
    ensures k >= |segs| ==> r == "undefined"
  {
    if k < |segs| then segs[k] else "undefined"
  }

  /** A row of the description table: a contract heading (name, kind, bases)
      or a function (marker, name, visibility, mutability, modifiers). */
  datatype Row =
    | ContractRow(name: string, kind: string, bases: string)
    | FunctionRow(marker: string, name: string, visibility: string, mutability: string, modifiers: string)

  /** The row a contract heading line gives: its pieces between "|". */
  function ContractRowOf(line: string): Row {
    var segs := Split(line, '|');
    ContractRow(Seg(segs, 1), Seg(segs, 2), Seg(segs, 3))
  }

  /** A trimmed function line always has the marker piece and a name piece. */
  lemma FunctionLinePieces(tr: string)
    requires StartsWith(tr, FUNCTION_PREFIX)
    ensures |Split(tr, '|')| >= 3 && Split(tr, '|')[1] == " \U{2514} "
  {
    var rest := tr[|FUNCTION_PREFIX|..];
    assert tr == [] + ['|'] + (" \U{2514} " + ['|'] + rest);
    SplitPiece([], '|', " \U{2514} " + ['|'] + rest);
    SplitPiece(" \U{2514} ", '|', rest);
  }

  /** The row a function line gives, with "<" and ">" removed from its name. */
  function FunctionRowOf(tr: string): (r: Row)
    requires StartsWith(tr, FUNCTION_PREFIX)
    ensures r.FunctionRow? && '<' !in r.name && '>' !in r.name
    ensures r.marker == " \U{2514} "
  {
    var segs := Split(tr, '|');
    FunctionLinePieces(tr);
    FunctionRow(segs[1], RemoveChar(RemoveChar(segs[2], '<'), '>'), Seg(segs, 3), Seg(segs, 4), Seg(segs, 5))
  }

  const TYPE_ERROR: string := "TypeError: Cannot read properties of undefined (reading 'split')"

  /** The rows the loop of lines 503-540 collects from line `i` on: it stops
      at the first blank line, a marker line takes the next (untrimmed) line as
      a contract heading, and a marker on the last line makes `undefined.split`
      throw. */
  function RowsFrom(lines: seq<string>, i: nat): (r: Result<seq<Row>>)
    decreases |lines| - i
  {
    if i >= |lines| then Success([])
    else
      var tr := Trim(lines[i]);
      if tr == "" then Success([])
      else if tr == MARKER then
        if i + 1 >= |lines| then Failure(TYPE_ERROR)
        else Prepend(ContractRowOf(lines[i + 1]), RowsFrom(lines, i + 2))
      else if StartsWith(tr, FUNCTION_PREFIX) then Prepend(FunctionRowOf(tr), RowsFrom(lines, i + 1))
      else RowsFrom(lines, i + 1)
  }

  function Prepend(row: Row, r: Result<seq<Row>>): Result<seq<Row>> {
    match r
    case Success(rows) => Success([row] + rows)
    case Failure(e) => Failure(e)
  }

  /** The lines of the report from its first marker on (the whole report when
      it has none). */
  function ReportLines(report: string): seq<string> {
    Split(Substring(report, IndexOf(report, MARKER), |report|), '\n')
  }

  function Rows(report: string): Result<seq<Row>> {
    RowsFrom(ReportLines(report), 0)
  }

  function ContractRowText(row: Row): string
    requires row.ContractRow?
  {
    "\n                            <TR>\n                            <TD border=\"1\">" + row.name
    + "</TD>\n                            <TD border=\"1\">" + row.kind
    + "</TD>\n                            <TD border=\"1\" >" + row.bases
    + "</TD>\n                            <TD border=\"1\"> </TD>\n                            <TD border=\"1\"> </TD>\n                        </TR>\n                        <TR>\n                                <TD border=\"1\">L</TD>\n                                <TD border=\"1\">Function Name</TD>\n                                <TD border=\"1\" >Visibility</TD>\n                                <TD border=\"1\">Mutability</TD>\n                                <TD border=\"1\">Modifiers</TD>\n                        </TR>"
  }

  function FunctionRowText(row: Row): string
    requires row.FunctionRow?
  {
    "\n                            <TR>\n                                <TD border=\"1\">" + row.marker
    + "</TD>\n                                <TD align=\"left\" border=\"1\">" + row.name
    + "</TD>\n                                <TD align=\"left\" border=\"1\" >" + row.visibility
    + "</TD>\n                                <TD border=\"1\">" + row.mutability
    + "</TD>\n                                <TD border=\"1\">" + row.modifiers
    + "</TD>\n                        </TR>\n                            "
  }

  function RowText(row: Row): string {
    match row
    case ContractRow(_, _, _) => ContractRowText(row)
    case FunctionRow(_, _, _, _, _) => FunctionRowText(row)
  }

  /** The rows' HTML, one after another. */
  function RowsText(rows: seq<Row>): string {
    ConcatMap(rows, RowText)
  }

  function RowsData(r: Result<seq<Row>>): Result<string> {
    match r
    case Success(rows) => Success(RowsText(rows))
    case Failure(e) => Failure(e)
  }

  /** The rows `rows` followed by those of `rest`, or the failure of `rest`. */
  function Then(rows: seq<Row>, rest: Result<seq<Row>>): Result<seq<Row>> {
    match rest
    case Success(more) => Success(rows + more)
    case Failure(e) => Failure(e)
  }

  lemma ThenPrepend(rows: seq<Row>, row: Row, rest: Result<seq<Row>>)
    ensures Then(rows + [row], rest) == Then(rows, Prepend(row, rest))
  {
    if rest.Success? {
      assert rows + [row] + rest.value == rows + ([row] + rest.value);
    }
  }

  lemma RowsTextSnoc(rows: seq<Row>, row: Row)
    ensures RowsText(rows + [row]) == RowsText(rows) + RowText(row)
  {
    ConcatMapSnoc(rows, row, RowText);
  }

  lemma MarkerStep(lines: seq<string>, i: nat, rows: seq<Row>)
    requires i + 1 < |lines| && Trim(lines[i]) == MARKER
    ensures Then(rows, RowsFrom(lines, i)) == Then(rows + [ContractRowOf(lines[i + 1])], RowsFrom(lines, i + 2))
  {
    ThenPrepend(rows, ContractRowOf(lines[i + 1]), RowsFrom(lines, i + 2));
  }

  lemma FunctionStep(lines: seq<string>, i: nat, rows: seq<Row>)
    requires i < |lines|
    requires var tr := Trim(lines[i]); tr != "" && tr != MARKER && StartsWith(tr, FUNCTION_PREFIX)
    ensures Then(rows, RowsFrom(lines, i)) == Then(rows + [FunctionRowOf(Trim(lines[i]))], RowsFrom(lines, i + 1))
  {
    ThenPrepend(rows, FunctionRowOf(Trim(lines[i])), RowsFrom(lines, i + 1));
  }

  lemma SkipStep(lines: seq<string>, i: nat, rows: seq<Row>)
    requires i < |lines|
    requires var tr := Trim(lines[i]); tr != "" && tr != MARKER && !StartsWith(tr, FUNCTION_PREFIX)
    ensures Then(rows, RowsFrom(lines, i)) == Then(rows, RowsFrom(lines, i + 1))
  {}

  /** Lines 502-540: the loop over the report's lines. */
  method RenderRows(lines: seq<string>) returns (reportData: Result<string>)
    ensures reportData == RowsData(RowsFrom(lines, 0))
  {
    var data := "";
    ghost var rows: seq<Row> := [];
    assert Then([], RowsFrom(lines, 0)) == RowsFrom(lines, 0) by {
      if RowsFrom(lines, 0).Success? {
        assert [] + RowsFrom(lines, 0).value == RowsFrom(lines, 0).value;
      }
    }
    var i := 0;
    while i < |lines|
      invariant 0 <= i <= |lines|
      invariant data == RowsText(rows)
      invariant RowsFrom(lines, 0) == Then(rows, RowsFrom(lines, i))
      decreases |lines| - i
    {
      var tr := Trim(lines[i]);
      if tr == "" {
        break;
      }
      if tr == MARKER {
        if i + 1 >= |lines| {
          return Failure(TYPE_ERROR);
        }
        var row := ContractRowOf(lines[i + 1]);
        MarkerStep(lines, i, rows);
        RowsTextSnoc(rows, row);
        data := data + RowText(row);
        rows := rows + [row];
        i := i + 2;
      } else if StartsWith(tr, FUNCTION_PREFIX) {
        var row := FunctionRowOf(tr);
        FunctionStep(lines, i, rows);
        RowsTextSnoc(rows, row);
        data := data + RowText(row);
        rows := rows + [row];
        i := i + 1;
      } else {
        SkipStep(lines, i, rows);
        i := i + 1;
      }
    }
    assert rows + [] == rows;
    reportData := Success(data);
  }

  /** Lines 496-540: the rows of the "Contracts Description" table, as HTML. */
  method DescriptionRows(report: string) returns (reportData: Result<string>)
    ensures reportData == RowsData(Rows(report))
  {
    var st := IndexOf(report, MARKER);
    var ret := Substring(report, st, |report|);
    var lines := Split(ret, '\n');
    reportData := RenderRows(lines);
  }

  /** The loop throws only on a marker that is the last line it reaches. */
  lemma {:induction false} RowsFromFailure(lines: seq<string>, i: nat)
    requires RowsFrom(lines, i).Failure?
    ensures |lines| >= 1 && Trim(lines[|lines| - 1]) == MARKER
    ensures RowsFrom(lines, i).error == TYPE_ERROR
    decreases |lines| - i
  {
    var tr := Trim(lines[i]);
    if tr == MARKER && i + 1 < |lines| {
      RowsFromFailure(lines, i + 2);
    } else if tr != MARKER && StartsWith(tr, FUNCTION_PREFIX) {
      RowsFromFailure(lines, i + 1);
    } else if tr != MARKER && tr != "" {
      RowsFromFailure(lines, i + 1);
    }
  }

  /** Every function row of the table has a name without angle brackets and
      the "└" marker. */
  lemma {:induction false} RowsFromFunctionNames(lines: seq<string>, i: nat)
    requires RowsFrom(lines, i).Success?
    ensures forall row :: row in RowsFrom(lines, i).value && row.FunctionRow? ==>
      '<' !in row.name && '>' !in row.name && row.marker == " \U{2514} "
    decreases |lines| - i
  {
    if i < |lines| {
      var tr := Trim(lines[i]);
      if tr == MARKER && i + 1 < |lines| {
        RowsFromFunctionNames(lines, i + 2);
      } else if tr != "" && tr != MARKER {
        RowsFromFunctionNames(lines, i + 1);
      }
    }
  }

  /** A function line built from separator-free pieces, starting with an
      empty piece and the marker and ending with an empty piece, is already
      trimmed and is recognised as a function line. */
  lemma FunctionLineShape(fn: seq<string>)
    requires |fn| >= 3
    requires fn[0] == "" && fn[1] == " \U{2514} " && fn[|fn| - 1] == ""
    ensures var f := Join(fn, "|");
      && Trim(f) == f
      && StartsWith(f, FUNCTION_PREFIX)
      && f != "" && f != MARKER
  {
    var f := Join(fn, "|");
    assert f == "" + "|" + (" \U{2514} " + "|" + Join(fn[2..], "|")) by {
      assert fn[1..][1..] == fn[2..];
    }
    assert f[..|FUNCTION_PREFIX|] == FUNCTION_PREFIX;
    assert f[|f| - 1] == '|' by {
      JoinLast(fn, "|");
    }
    assert f[2] == '\U{2514}';
  }

  lemma FunctionLineRow(fn: seq<string>)
    requires |fn| >= 7
    requires forall k :: 0 <= k < |fn| ==> '|' !in fn[k]
    requires fn[0] == "" && fn[1] == " \U{2514} " && fn[|fn| - 1] == ""
    ensures StartsWith(Join(fn, "|"), FUNCTION_PREFIX)
    ensures FunctionRowOf(Join(fn, "|")) == FunctionRow(fn[1], RemoveChar(RemoveChar(fn[2], '<'), '>'), fn[3], fn[4], fn[5])
  {
    FunctionLineShape(fn);
    SplitJoin(fn, '|');
  }

  lemma HeadingRow(heading: seq<string>)
    requires |heading| >= 4
    requires forall k :: 0 <= k < |heading| ==> '|' !in heading[k]
    ensures ContractRowOf(Join(heading, "|")) == ContractRow(heading[1], heading[2], heading[3])
  {
    SplitJoin(heading, '|');
  }

  /** A report section of a marker, a contract heading line, one function
      line and a blank line gives exactly the heading's row and the function's
      row, the function's name without angle brackets. */
  lemma HeadingAndFunction(heading: seq<string>, fn: seq<string>)
    requires |heading| >= 4 && |fn| >= 7
    requires forall k :: 0 <= k < |heading| ==> '|' !in heading[k]
    requires forall k :: 0 <= k < |fn| ==> '|' !in fn[k]
    requires fn[0] == "" && fn[1] == " \U{2514} " && fn[|fn| - 1] == ""
    ensures RowsFrom([MARKER, Join(heading, "|"), Join(fn, "|"), ""], 0)
      == Success([ContractRow(heading[1], heading[2], heading[3]),
                  FunctionRow(fn[1], RemoveChar(RemoveChar(fn[2], '<'), '>'), fn[3], fn[4], fn[5])])
  {
    FunctionLineShape(fn);
    FunctionLineRow(fn);
    HeadingRow(heading);
    MarkerTrimmed();
    SectionRows(MARKER, Join(heading, "|"), Join(fn, "|"), "");
  }

  lemma MarkerTrimmed()
    ensures Trim(MARKER) == MARKER
  {
    assert MARKER[0] == '|' && MARKER[|MARKER| - 1] == '|';
  }

  /** The rows of a marker line, a heading line, a function line and a blank line. */
  lemma SectionRows(m: string, h: string, f: string, b: string)
    requires Trim(m) == MARKER && Trim(b) == ""
    requires Trim(f) == f && f != "" && f != MARKER && StartsWith(f, FUNCTION_PREFIX)
    ensures RowsFrom([m, h, f, b], 0) == Success([ContractRowOf(h), FunctionRowOf(f)])
  {
    var lines := [m, h, f, b];
    assert lines[3] == b && lines[2] == f && lines[0] == m && lines[1] == h;
    FunctionThenBlank(lines);
    assert RowsFrom(lines, 0) == Prepend(ContractRowOf(h), RowsFrom(lines, 2));
    assert [ContractRowOf(h)] + [FunctionRowOf(f)] == [ContractRowOf(h), FunctionRowOf(f)];
  }

  /** A function line followed by a blank line gives one function row. */
  lemma FunctionThenBlank(lines: seq<string>)
    requires |lines| == 4 && Trim(lines[3]) == ""
    requires Trim(lines[2]) == lines[2] && lines[2] != "" && lines[2] != MARKER && StartsWith(lines[2], FUNCTION_PREFIX)
    ensures RowsFrom(lines, 2) == Success([FunctionRowOf(lines[2])])
  {
    assert RowsFrom(lines, 3) == Success([]);
    assert RowsFrom(lines, 2) == Prepend(FunctionRowOf(lines[2]), RowsFrom(lines, 3));
    assert [FunctionRowOf(lines[2])] + [] == [FunctionRowOf(lines[2])];
  }

  /** A join whose last piece is empty ends with the separator. */
  lemma {:induction false} JoinLast(parts: seq<string>, sep: string)
    requires |parts| >= 2 && parts[|parts| - 1] == "" && |sep| == 1
    ensures var j := Join(parts, sep); |j| >= 1 && j[|j| - 1] == sep[0]
    decreases |parts|
  {
    if |parts| > 2 {
      JoinLast(parts[1..], sep);
    }
  }

  // ----------------------------------------------------------- wrappers

  const TABLE_HEAD: string :=
    "\n"
    + "                        <TABLE border=\"0\" cellspacing=\"0\" cellpadding=\"3\">" + "\n"
    + "                            "
  const TABLE_TAIL: string :=
    "\n"
    + "                            <TR>" + "\n"
    + "                                <TD colspan=\"5\"></TD>" + "\n"
    + "                            </TR>" + "\n"
    + "                            <TR>" + "\n"
    + "                                <TD colspan=\"5\" border=\"1\">Legend</TD>" + "\n"
    + "                            </TR>" + "\n"
    + "                                <TR><TD border=\"1\">Symbol</TD>" + "\n"
    + "                                <TD align=\"left\"  border=\"1\"  colspan=\"4\">Meaning</TD>" + "\n"
    + "                            </TR>" + "\n"
    + "                            <TR><TD border=\"1\">\U{1F6D1}</TD>" + "\n"
    + "                                <TD align=\"left\"  border=\"1\"  colspan=\"4\">Function can modify state</TD>" + "\n"
    + "                            </TR>" + "\n"
    + "                            <TR><TD border=\"1\">\U{1F4B5}</TD>" + "\n"
    + "                                <TD align=\"left\"  border=\"1\"  colspan=\"4\">Function is payable</TD>" + "\n"
    + "                            </TR>" + "\n"
    + "                        </TABLE>" + "\n"
    + "                        "
  const NODE_HEAD: string :=
    "\n"
    + "                    \"2. Graph                                     \" [shape=box, color = \"red\", style=\"bold\"];" + "\n"
    + "\n"
    + "                    node [shape=plaintext, style = \"filled\", fillcolor = \"#ffffff\", color = \"#edad56\" ]" + "\n"
    + "                    subgraph  {" + "\n"
    + "                        a0 [label=<" + "\n"
    + "                            "
  const NODE_TAIL: string :=
    ">];" + "\n"
    + "                    }" + "\n"
    + "                    \"1. Contracts Description          \"  [shape=box, color = \"red\", style=\"bold\"];" + "\n"
    + "                    "

  /** Lines 542-572: the rows inside the table with its legend, inside a graph node. */
  function DescriptionNode(reportData: string): string {
    NODE_HEAD + (TABLE_HEAD + reportData + TABLE_TAIL) + NODE_TAIL
  }

  // ----------------------------------------------------------- the splice

  const SPLICE_GAP: string := "\n            "
  const SPLICE_AFTER_INHERITANCE: string := " \n            "

  /** Lines 581-590: the graph up to and including its first "{", the
      signature table, the inheritance fragment, the graph's body, the
      description node and a closing brace. */
  function Splice(graph: string, funcSig: string, inheritance: string, reportData: string): string {
    var st := IndexOf(graph, "{");
    Substring(graph, 0, st + 1) + SPLICE_GAP + funcSig + SPLICE_GAP + inheritance + SPLICE_AFTER_INHERITANCE
      + Substring(graph, st + 1, LastIndexOf(graph, "}")) + reportData + "}"
  }

  /** For a graph whose first "{" comes before its last "}", the fragments go
      right after the opening brace and the description right before a closing
      brace; what follows the last "}" is dropped. */
  lemma SpliceWellFormed(graph: string, st: int, en: int, funcSig: string, inheritance: string, reportData: string)
    requires 0 <= st < en < |graph|
    requires graph[st] == '{' && '{' !in graph[..st]
    requires graph[en] == '}' && '}' !in graph[en + 1..]
    ensures Splice(graph, funcSig, inheritance, reportData)
      == graph[..st + 1] + SPLICE_GAP + funcSig + SPLICE_GAP + inheritance + SPLICE_AFTER_INHERITANCE
         + graph[st + 1..en] + reportData + "}"
  {
    BodyBetweenBraces(graph, st, en);
    IndexOfChar(graph, '{');
    assert IndexOf(graph, "{") == st;
    assert Substring(graph, 0, st + 1) == graph[..st + 1];
    assert Substring(graph, st + 1, LastIndexOf(graph, "}")) == Body(graph);
  }

  /** A graph with an opening but no closing brace gets its text up to the
      opening brace twice: `lastIndexOf` gives -1 and `substring` swaps. */
  lemma SpliceWithoutClosingBrace(graph: string, st: int, funcSig: string, inheritance: string, reportData: string)
    requires 0 <= st < |graph| && graph[st] == '{' && '{' !in graph[..st]
    requires '}' !in graph
    ensures Splice(graph, funcSig, inheritance, reportData)
      == graph[..st + 1] + SPLICE_GAP + funcSig + SPLICE_GAP + inheritance + SPLICE_AFTER_INHERITANCE
         + graph[..st + 1] + reportData + "}"
  {
    IndexOfChar(graph, '{');
    LastIndexOfChar(graph, '}');
    assert IndexOf(graph, "{") == st;
  }

  // ----------------------------------------------------------- the command

  /** What the command ends with: the assembled graph opened as a document,
      nothing when the markdown report is empty, or the exception thrown. */
  datatype Outcome = Shown(content: string) | NotShown | Thrown(error: string)

  /** The outcome of the `auditreport` case for the signature table
      `funcSig`, the inheritance fragment, the markdown report (`None` for
      `undefined`) and the call graph. */
  function AuditOutcome(funcSig: string, inheritanceData: string, mdreport: Option<string>, graph: string): Outcome {
    if mdreport.None? || mdreport.value == "" then NotShown
    else
      match RowsData(Rows(mdreport.value))
      case Failure(e) => Thrown(e)
      case Success(data) => Shown(Splice(graph, funcSig, inheritanceData, DescriptionNode(data)))
  }

  /** Lines 465-590: the table is built from the extractor's result `sig`
      and the fragment from the inheritance graph. */
  method AuditReportCommand(sig: SigResult, inheritance: string, mdreport: Option<string>, graph: string)
    returns (outcome: Outcome)
    ensures outcome == AuditOutcome(GraphTable(sig), InheritanceFragment(inheritance), mdreport, graph)
  {
    var funcSig := ListFunctionSignaturesAsGraph(sig);
    var inheritanceData := InheritanceFragment(inheritance);
    if mdreport.None? || mdreport.value == "" {
      return NotShown;
    }
    var reportData := DescriptionRows(mdreport.value);
    if reportData.Failure? {
      return Thrown(reportData.error);
    }
    var node := DescriptionNode(reportData.value);
    outcome := Shown(Splice(graph, funcSig, inheritanceData, node));
  }

  /** The command shows nothing exactly when the markdown report is empty or
      `undefined`; it throws only the `undefined.split` error, and only when
      the report's last line is a marker. */
  lemma AuditOutcomeCases(funcSig: string, inheritanceData: string, mdreport: Option<string>, graph: string)
    ensures var o := AuditOutcome(funcSig, inheritanceData, mdreport, graph);
      && (o.NotShown? <==> mdreport.None? || mdreport.value == "")
      && (o.Thrown? ==>
            && o.error == TYPE_ERROR && mdreport.Some?
            && var ls := ReportLines(mdreport.value); Trim(ls[|ls| - 1]) == MARKER)
  {
    if mdreport.Some? && mdreport.value != "" {
      var r := Rows(mdreport.value);
      if r.Failure? {
        RowsFromFailure(ReportLines(mdreport.value), 0);
      }
    }
  }
}
