/** The function-signature views of src/features/commands.js: the graph table
    (`listFunctionSignaturesAsGraph`), the plain listing of one file
    (`listFunctionSignatures`) and of the whole workspace
    (`listFunctionSignaturesForWorkspace`), with the merge of the per-file results. */
module Signatures {
  import opened Wrappers
  import opened JsText
  import opened JsObject

  /** What the signature extractor returns for one source text: the `sighashes`
      object (selector to signature) and the list of collision descriptions. */
  datatype SigResult = SigResult(sighashes: Object<string, string>, collisions: seq<string>)

  const COLLISIONS_TITLE: string := "collisions \U{1F525}\U{1F525}\U{1F525}                 "
  const UNDERLINE: string := "========================"
  const LISTING_TITLE: string := "Sighash   |   Function Signature"
  const WARNING_PREFIX: string := "\U{1F525} FuncSig collisions detected! "

  /** The error message shown when there are collisions, if any. */
  function CollisionWarning(collisions: seq<string>): (r: Option<string>)
    ensures r.None? <==> collisions == []
    ensures r.Some? ==> StartsWith(r.value, WARNING_PREFIX)
  {
    if collisions == [] then None else Some(WARNING_PREFIX + Join(collisions, ","))
  }

  /** The message lists the collisions, separated by commas. */
  lemma CollisionWarningLists(collisions: seq<string>)
    requires collisions != []
    requires forall k :: 0 <= k < |collisions| ==> ',' !in collisions[k]
    ensures Split(CollisionWarning(collisions).value[|WARNING_PREFIX|..], ',') == collisions
  {
    var m := CollisionWarning(collisions).value;
    assert m[|WARNING_PREFIX|..] == Join(collisions, ",");
    SplitJoin(collisions, ',');
  }

  // ----------------------------------------------------------- the graph table

  const GRAPH_HEAD: string :=
    "\n"
    + "      subgraph funcSig {" + "\n"
    + "        node [shape=plaintext]" + "\n"
    + "        funcSig0 [label=<" + "\n"
    + "      <TABLE border=\"0\" cellspacing=\"0\" cellpadding=\"3\">" + "\n"
    + "        <TR>" + "\n"
    + "            <TD border=\"1\">Sighash</TD>" + "\n"
    + "            <TD border=\"1\">Function Signature</TD>" + "\n"
    + "        </TR>" + "\n"
    + "      "
  const GRAPH_TAIL: string :=
    "\n"
    + "      </TABLE>" + "\n"
    + "       >];" + "\n"
    + "        }" + "\n"
    + "        " + "\n"
    + "        \"4. SigHash | Function Signature\"  [shape=box, color = \"red\", style=\"bold\"];" + "\n"
    + "      "

  const ROW_OPEN: string := "\n" + "        <TR>" + "\n" + "            <TD border=\"1\">"
  const ROW_MIDDLE: string := "</TD>" + "\n" + "            <TD align=\"left\" border=\"1\">"
  const ROW_CLOSE: string := "</TD>" + "\n" + "        </TR>" + "\n" + "        "

  /** The table row of one selector. */
  function GraphRow(hash: string, sig: string): string {
    ROW_OPEN + hash + ROW_MIDDLE + sig + ROW_CLOSE
  }

  /** The row of each selector, in the order of the `sighashes` object. */
  function GraphRows(sighashes: Object<string, string>): (rows: seq<string>)
    ensures |rows| == |sighashes|
    ensures forall i :: 0 <= i < |rows| ==> rows[i] == GraphRow(sighashes[i].0, sighashes[i].1)
  {
    seq(|sighashes|, i requires 0 <= i < |sighashes| => GraphRow(sighashes[i].0, sighashes[i].1))
  }

  const COLLISIONS_OPEN: string :=
    "\n" + "        <TR>" + "\n" + "            <TD colspan=\"2\" border=\"1\">" + "\n"
    + "            " + "\n" + "\n" + "\n" + "            "
  const COLLISIONS_CLOSE: string := "\n" + "            </TD>" + "\n" + "        </TR>" + "\n" + "        "

  /** The row listing the collisions, present only when there are some. */
  function GraphCollisions(collisions: seq<string>): string {
    if collisions == [] then ""
    else
      COLLISIONS_OPEN + COLLISIONS_TITLE + "\n" + UNDERLINE + "\n" + "\n" + "            "
      + Join(collisions, "\n") + COLLISIONS_CLOSE
  }

  function GraphTable(sr: SigResult): string {
    GRAPH_HEAD + Concat(GraphRows(sr.sighashes)) + GraphCollisions(sr.collisions) + GRAPH_TAIL
  }

  /** `listFunctionSignaturesAsGraph`, given the extractor's result. */
  method ListFunctionSignaturesAsGraph(sr: SigResult) returns (content: string)
    ensures content == GraphTable(sr)
  {
    var sighashes := sr.sighashes;
    content := GRAPH_HEAD;
    var i := 0;
    while i < |sighashes|
      invariant 0 <= i <= |sighashes|
      invariant content == GRAPH_HEAD + Concat(GraphRows(sighashes[..i]))
    {
      var row := GraphRow(sighashes[i].0, sighashes[i].1);
      assert GraphRows(sighashes[..i + 1]) == GraphRows(sighashes[..i]) + [row];
      assert Concat(GraphRows(sighashes[..i + 1])) == Concat(GraphRows(sighashes[..i])) + row;
      Assoc(GRAPH_HEAD, Concat(GraphRows(sighashes[..i])), row);
      content := content + GraphRow(sighashes[i].0, sighashes[i].1);
      i := i + 1;
    }
    assert sighashes[..i] == sighashes;
    if |sr.collisions| > 0 {
      content := content + GraphCollisions(sr.collisions);
    } else {
      assert content + GraphCollisions(sr.collisions) == content;
    }
    content := content + GRAPH_TAIL;
  }

  /** Every selector has its row in the table, after the head and the rows of
      the selectors before it, so that the rows come whole and in the object's order. */
  lemma GraphTableRow(sr: SigResult, i: int)
    requires 0 <= i < |sr.sighashes|
    ensures var rows := GraphRows(sr.sighashes);
      && OccursAt(GraphTable(sr), rows[i], |GRAPH_HEAD| + |Concat(rows[..i])|)
      && forall j :: i < j < |rows| ==> |Concat(rows[..j])| >= |Concat(rows[..i])| + |rows[i]|
  {
    var rows := GraphRows(sr.sighashes);
    ConcatPart(rows, i);
    RowInTable(sr, rows, i);
  }

  lemma RowInTable(sr: SigResult, rows: seq<string>, i: int)
    requires rows == GraphRows(sr.sighashes) && 0 <= i < |rows|
    ensures OccursAt(GraphTable(sr), rows[i], |GRAPH_HEAD| + |Concat(rows[..i])|)
  {
    RowInText(GRAPH_HEAD, rows, GraphCollisions(sr.collisions), GRAPH_TAIL, i);
  }

  lemma RowInText(head: string, rows: seq<string>, middle: string, tail: string, i: int)
    requires 0 <= i < |rows|
    ensures OccursAt(head + Concat(rows) + middle + tail, rows[i], |head| + |Concat(rows[..i])|)
  {
    ConcatPart(rows, i);
    OccursAtShift(Concat(rows), rows[i], |Concat(rows[..i])|, head, middle + tail);
    Assoc(head + Concat(rows), middle, tail);
  }

  // ----------------------------------------------------------- the plain listings

  /** The listing line of one selector; `pad` is what precedes the line end. */
  function ListingRow(hash: string, sig: string, pad: string): string {
    hash + "  =>  " + sig + pad
  }

  function RowLines(sighashes: Object<string, string>, pad: string): (ls: seq<string>)
    ensures |ls| == |sighashes|
    ensures forall i :: 0 <= i < |ls| ==> ls[i] == ListingRow(sighashes[i].0, sighashes[i].1, pad)
  {
    seq(|sighashes|, i requires 0 <= i < |sighashes| => ListingRow(sighashes[i].0, sighashes[i].1, pad))
  }

  const COLLISIONS_HEAD: string := "" + "\n" + "" + "\n" + COLLISIONS_TITLE + "\n" + UNDERLINE + "\n"

  function CollisionsBlock(collisions: seq<string>): string {
    if collisions == [] then "" else COLLISIONS_HEAD + Join(collisions, "\n")
  }

  /** The title and the underline, the latter followed by `pad`. */
  function ListingHead(pad: string): string {
    LISTING_TITLE + "\n" + (UNDERLINE + pad) + "\n"
  }

  /** The markdown listing; `pad` is "" for one file and two spaces for the
      workspace, where every line but the first ends in them. */
  function ListingText(sighashes: Object<string, string>, collisions: seq<string>, pad: string): string {
    ListingHead(pad) + Terminated(RowLines(sighashes, pad)) + CollisionsBlock(collisions)
  }

  lemma ListingStep(head: string, sighashes: Object<string, string>, pad: string, i: int)
    requires 0 <= i < |sighashes|
    ensures head + Terminated(RowLines(sighashes[..i + 1], pad))
      == head + Terminated(RowLines(sighashes[..i], pad)) + ListingRow(sighashes[i].0, sighashes[i].1, pad) + "\n"
  {
    var line := ListingRow(sighashes[i].0, sighashes[i].1, pad);
    assert RowLines(sighashes[..i + 1], pad) == RowLines(sighashes[..i], pad) + [line];
    TerminatedAppend(RowLines(sighashes[..i], pad), [line]);
    assert [line][1..] == [];
  }

  lemma CollisionsStep(text: string, collisions: seq<string>)
    requires collisions != []
    ensures text + "\n\n" + COLLISIONS_TITLE + "\n" + UNDERLINE + "\n" + Join(collisions, "\n")
      == text + CollisionsBlock(collisions)
  {
    assert "" + "\n" + "" + "\n" == "\n\n";
  }

  /** The loop that the two plain listings share. */
  method RenderListing(sighashes: Object<string, string>, collisions: seq<string>, pad: string)
    returns (content: string)
    ensures content == ListingText(sighashes, collisions, pad)
  {
    content := ListingHead(pad);
    var i := 0;
    while i < |sighashes|
      invariant 0 <= i <= |sighashes|
      invariant content == ListingHead(pad) + Terminated(RowLines(sighashes[..i], pad))
    {
      ListingStep(ListingHead(pad), sighashes, pad, i);
      content := content + ListingRow(sighashes[i].0, sighashes[i].1, pad) + "\n";
      i := i + 1;
    }
    assert sighashes[..i] == sighashes;
    if |collisions| > 0 {
      CollisionsStep(content, collisions);
      content := content + "\n\n";
      content := content + COLLISIONS_TITLE + "\n" + UNDERLINE + "\n";
      content := content + Join(collisions, "\n");
    } else {
      assert content + CollisionsBlock(collisions) == content;
    }
  }

  /** `listFunctionSignatures` without `asJson`: the listing with "\n" line
      ends, and the error message when there are collisions. */
  method ListFunctionSignatures(sr: SigResult) returns (content: string, warning: Option<string>)
    ensures content == ListingText(sr.sighashes, sr.collisions, "")
    ensures warning == CollisionWarning(sr.collisions)
  {
    warning := CollisionWarning(sr.collisions);
    content := RenderListing(sr.sighashes, sr.collisions, "");
  }

  predicate NoNewline(s: string) {
    '\n' !in s
  }

  /** Read line by line, the listing is the title, the underline, one line per
      selector in the object's order, and, when there are collisions, two blank
      lines, the collisions title, its underline and one line per collision. */
  lemma ListingLines(sighashes: Object<string, string>, collisions: seq<string>, pad: string)
    requires NoNewline(pad)
    requires forall i :: 0 <= i < |sighashes| ==> NoNewline(sighashes[i].0) && NoNewline(sighashes[i].1)
    requires forall i :: 0 <= i < |collisions| ==> NoNewline(collisions[i])
    ensures Split(ListingText(sighashes, collisions, pad), '\n')
      == [LISTING_TITLE, UNDERLINE + pad] + RowLines(sighashes, pad)
         + (if collisions == [] then [""] else ["", "", COLLISIONS_TITLE, UNDERLINE] + collisions)
  {
    var rows := RowLines(sighashes, pad);
    var lines := [LISTING_TITLE, UNDERLINE + pad] + rows;
    ListingHeadLines(pad, rows);
    ListingLinesOneLine(sighashes, pad);
    SplitTerminated(lines, CollisionsBlock(collisions));
    CollisionsBlockLines(collisions);
  }

  lemma ListingLinesOneLine(sighashes: Object<string, string>, pad: string)
    requires NoNewline(pad)
    requires forall i :: 0 <= i < |sighashes| ==> NoNewline(sighashes[i].0) && NoNewline(sighashes[i].1)
    ensures var lines := [LISTING_TITLE, UNDERLINE + pad] + RowLines(sighashes, pad);
      forall k :: 0 <= k < |lines| ==> '\n' !in lines[k]
  {
    var lines := [LISTING_TITLE, UNDERLINE + pad] + RowLines(sighashes, pad);
    forall k | 0 <= k < |lines| ensures '\n' !in lines[k] {
      if k >= 2 {
        assert lines[k] == ListingRow(sighashes[k - 2].0, sighashes[k - 2].1, pad);
      }
    }
  }

  lemma ListingHeadLines(pad: string, rows: seq<string>)
    ensures ListingHead(pad) + Terminated(rows) == Terminated([LISTING_TITLE, UNDERLINE + pad] + rows)
  {
    TerminatedTwo(LISTING_TITLE, UNDERLINE + pad);
    TerminatedAppend([LISTING_TITLE, UNDERLINE + pad], rows);
  }

  lemma CollisionsBlockLines(collisions: seq<string>)
    requires forall i :: 0 <= i < |collisions| ==> NoNewline(collisions[i])
    ensures Split(CollisionsBlock(collisions), '\n')
      == if collisions == [] then [""] else ["", "", COLLISIONS_TITLE, UNDERLINE] + collisions
  {
    if collisions != [] {
      var block := ["", "", COLLISIONS_TITLE, UNDERLINE];
      TerminatedFour("", "", COLLISIONS_TITLE, UNDERLINE);
      SplitTerminated(block, Join(collisions, "\n"));
      SplitJoin(collisions, '\n');
    } else {
      SplitTerminated([], "");
    }
  }

  // ----------------------------------------------------------- the workspace

  /** The signature pairs of all files whose extraction succeeded (`None`
      stands for a file whose reading or extraction threw), in file order. */
  function AllWrites(files: seq<Option<SigResult>>): seq<(string, string)>
    decreases |files|
  {
    if files == [] then []
    else
      var last := files[|files| - 1];
      AllWrites(files[..|files| - 1]) + (if last.Some? then last.value.sighashes else [])
  }

  /** The collisions of all files whose extraction succeeded, concatenated in file order. */
  function AllCollisions(files: seq<Option<SigResult>>): seq<string>
    decreases |files|
  {
    if files == [] then []
    else
      var last := files[|files| - 1];
      AllCollisions(files[..|files| - 1]) + (if last.Some? then last.value.collisions else [])
  }

  lemma AllWritesStep(files: seq<Option<SigResult>>, f: int)
    requires 0 <= f < |files|
    ensures AllWrites(files[..f + 1])
      == AllWrites(files[..f]) + (if files[f].Some? then files[f].value.sighashes else [])
    ensures AllCollisions(files[..f + 1])
      == AllCollisions(files[..f]) + (if files[f].Some? then files[f].value.collisions else [])
  {
    assert files[..f + 1][..f] == files[..f];
  }

  /** One pass of the copy loop of lines 958-960. */
  lemma CopyStep(before: seq<(string, string)>, currSigs: Object<string, string>, j: int)
    requires 0 <= j < |currSigs|
    ensures PutAll([], before + currSigs[..j + 1]) == Put(PutAll([], before + currSigs[..j]), currSigs[j].0, currSigs[j].1)
  {
    assert before + currSigs[..j + 1] == (before + currSigs[..j]) + [currSigs[j]];
    PutAllSnoc([], before + currSigs[..j], currSigs[j]);
  }

  /** The copy loop of lines 958-960: the selectors of one file assigned in order. */
  method CopySighashes(sighashes0: Object<string, string>, currSigs: Object<string, string>,
                       ghost before: seq<(string, string)>)
    returns (sighashes: Object<string, string>)
    requires sighashes0 == PutAll([], before)
    ensures sighashes == PutAll([], before + currSigs)
  {
    sighashes := sighashes0;
    assert before + currSigs[..0] == before;
    var j := 0;
    while j < |currSigs|
      invariant 0 <= j <= |currSigs|
      invariant sighashes == PutAll([], before + currSigs[..j])
    {
      CopyStep(before, currSigs, j);
      sighashes := Put(sighashes, currSigs[j].0, currSigs[j].1);
      j := j + 1;
    }
    assert currSigs[..j] == currSigs;
  }

  /** Lines 947-964: every file's collisions are appended and every file's
      selectors copied into one object. */
  method MergeWorkspace(files: seq<Option<SigResult>>)
    returns (sighashes: Object<string, string>, collisions: seq<string>)
    ensures sighashes == PutAll([], AllWrites(files))
    ensures collisions == AllCollisions(files)
  {
    sighashes, collisions := [], [];
    var f := 0;
    while f < |files|
      invariant 0 <= f <= |files|
      invariant sighashes == PutAll([], AllWrites(files[..f]))
      invariant collisions == AllCollisions(files[..f])
    {
      AllWritesStep(files, f);
      match files[f] {
        case None =>
          assert AllWrites(files[..f + 1]) == AllWrites(files[..f]) + [] == AllWrites(files[..f]);
          assert AllCollisions(files[..f + 1]) == AllCollisions(files[..f]) + [] == AllCollisions(files[..f]);
        case Some(sig) =>
          collisions := collisions + sig.collisions;
          sighashes := CopySighashes(sighashes, sig.sighashes, AllWrites(files[..f]));
      }
      f := f + 1;
    }
    assert files[..f] == files;
  }

  /** `listFunctionSignaturesForWorkspace` without `asJson`: the merged listing
      with two spaces before each line end, and the error message. */
  method ListFunctionSignaturesForWorkspace(files: seq<Option<SigResult>>)
    returns (content: string, warning: Option<string>)
    ensures content == ListingText(PutAll([], AllWrites(files)), AllCollisions(files), "  ")
    ensures warning == CollisionWarning(AllCollisions(files))
  {
    var sighashes, collisions := MergeWorkspace(files);
    warning := CollisionWarning(collisions);
    content := RenderListing(sighashes, collisions, "  ");
  }

  lemma {:induction false} LastWriteAppend(a: seq<(string, string)>, b: seq<(string, string)>, k: string)
    ensures LastWrite(a + b, k) == if k in Keys(b) then LastWrite(b, k) else LastWrite(a, k)
    decreases |b|
  {
    if b == [] {
      assert a + b == a;
    } else {
      var init := b[..|b| - 1];
      assert (a + b)[..|a + b| - 1] == a + init;
      assert Keys(b) == Keys(init) + [b[|b| - 1].0];
      LastWriteAppend(a, init, k);
    }
  }

  /** File `f` is the last file whose extraction succeeded and that defines `k`. */
  predicate LastDefining(files: seq<Option<SigResult>>, k: string, f: int) {
    && 0 <= f < |files| && files[f].Some? && k in Keys(files[f].value.sighashes)
    && forall g :: f < g < |files| && files[g].Some? ==> k !in Keys(files[g].value.sighashes)
  }

  predicate Defines(files: seq<Option<SigResult>>, k: string) {
    exists f :: 0 <= f < |files| && files[f].Some? && k in Keys(files[f].value.sighashes)
  }

  lemma {:induction false} AllWritesDefines(files: seq<Option<SigResult>>, k: string)
    ensures LastWrite(AllWrites(files), k).Some? <==> Defines(files, k)
    decreases |files|
  {
    if files != [] {
      var n := |files| - 1;
      var init := files[..n];
      var extra := if files[n].Some? then files[n].value.sighashes else [];
      assert AllWrites(files) == AllWrites(init) + extra;
      AllWritesDefines(init, k);
      LastWriteAppend(AllWrites(init), extra, k);
      if k !in Keys(extra) {
        if Defines(files, k) {
          var f :| 0 <= f < |files| && files[f].Some? && k in Keys(files[f].value.sighashes);
          assert f < n && init[f] == files[f];
        }
        if Defines(init, k) {
          var f :| 0 <= f < |init| && init[f].Some? && k in Keys(init[f].value.sighashes);
          assert files[f] == init[f];
        }
      }
    }
  }

  lemma {:induction false} AllWritesLast(files: seq<Option<SigResult>>, k: string, f: int)
    requires LastDefining(files, k, f)
    ensures LastWrite(AllWrites(files), k) == LastWrite(files[f].value.sighashes, k)
    decreases |files|
  {
    var n := |files| - 1;
    var init := files[..n];
    var extra := if files[n].Some? then files[n].value.sighashes else [];
    assert AllWrites(files) == AllWrites(init) + extra;
    LastWriteAppend(AllWrites(init), extra, k);
    if f < n {
      assert k !in Keys(extra);
      assert init[f] == files[f];
      assert forall g :: f < g < |init| ==> init[g] == files[g];
      assert LastDefining(init, k, f);
      AllWritesLast(init, k, f);
      assert LastWrite(AllWrites(files), k) == LastWrite(AllWrites(init), k);
    } else {
      assert extra == files[f].value.sighashes;
      assert LastWrite(AllWrites(files), k) == LastWrite(extra, k);
    }
  }

  /** A selector is in the merged object iff some file whose extraction
      succeeded defines it, and then it holds what the last such file gave it:
      a later file overrides an earlier one. */
  lemma MergedSelector(files: seq<Option<SigResult>>, k: string)
    ensures Get(PutAll([], AllWrites(files)), k).Some? <==> Defines(files, k)
    ensures forall f :: LastDefining(files, k, f) ==>
      Get(PutAll([], AllWrites(files)), k) == LastWrite(files[f].value.sighashes, k)
  {
    PutAllGet(AllWrites(files), k);
    AllWritesDefines(files, k);
    forall f | LastDefining(files, k, f)
      ensures Get(PutAll([], AllWrites(files)), k) == LastWrite(files[f].value.sighashes, k)
    {
      AllWritesLast(files, k, f);
    }
  }

  /** The merged object enumerates each selector once, in the order of its
      first definition across the files. */
  lemma MergedOrder(files: seq<Option<SigResult>>)
    ensures Keys(PutAll([], AllWrites(files))) == Dedup(Keys(AllWrites(files)))
    ensures Distinct(Keys(PutAll([], AllWrites(files))))
  {
    PutAllKeys(AllWrites(files));
  }
}
