/** The `dependencies` and `ftrace` cases of `surya` in src/features/commands.js:
    how the dependency listing is laid out, and how the arguments of a
    function trace are normalised before they are handed to the analyser. */
module CommandText {
  import opened Wrappers
  import opened JsText

  // ----------------------------------------------------------- dependencies

  const ARROW: string := "  \U{2196} "
  const NO_DEPENDENCIES: string := "No Dependencies Found"
  const ARROW_SEP: string := "\n" + ARROW

  /** `xs.reduce((acc, x) => acc + "\n  ↖ " + x)` without an initial value. */
  function Reduce(xs: seq<string>): string
    requires |xs| >= 1
    decreases |xs|
  {
    if |xs| == 1 then xs[0] else Reduce(xs[..|xs| - 1]) + ARROW_SEP + xs[|xs| - 1]
  }

  lemma {:induction false} JoinSnoc(xs: seq<string>, x: string, sep: string)
    requires |xs| >= 1
    ensures Join(xs + [x], sep) == Join(xs, sep) + sep + x
    decreases |xs|
  {
    if |xs| == 1 {
      assert (xs + [x])[1..] == [x];
    } else {
      assert (xs + [x])[1..] == xs[1..] + [x];
      JoinSnoc(xs[1..], x, sep);
    }
  }

  /** The reducer puts the separator between consecutive entries, nowhere else. */
  lemma {:induction false} ReduceIsJoin(xs: seq<string>)
    requires |xs| >= 1
    ensures Reduce(xs) == Join(xs, ARROW_SEP)
    decreases |xs|
  {
    if |xs| > 1 {
      var init := xs[..|xs| - 1];
      ReduceIsJoin(init);
      JoinSnoc(init, xs[|xs| - 1], ARROW_SEP);
      assert init + [xs[|xs| - 1]] == xs;
    }
  }

  /** Lines 378-403: the text shown for the analyser's result `ret` (`None`
      when it is `undefined`), or `None` when nothing is shown. */
  function DependencyListing(ret: Option<seq<string>>): (r: Option<string>)
    ensures r.None? <==> ret.None?
    ensures ret.Some? && |ret.value| < 2 ==> r == Some(NO_DEPENDENCIES)
  {
    match ret
    case None => None
    case Some(names) =>
      if |names| < 2 then Some(NO_DEPENDENCIES)
      else Some(Join([names[0], ARROW + Reduce(names[1..])], "\n"))
  }

  /** The entries each with the arrow in front, as the listing's lines show them. */
  function Arrowed(xs: seq<string>): (r: seq<string>)
    ensures |r| == |xs|
    ensures forall i :: 0 <= i < |xs| ==> r[i] == ARROW + xs[i]
  {
    seq(|xs|, i requires 0 <= i < |xs| => ARROW + xs[i])
  }

  lemma {:induction false} JoinArrowed(xs: seq<string>)
    requires |xs| >= 1
    ensures ARROW + Join(xs, ARROW_SEP) == Join(Arrowed(xs), "\n")
    decreases |xs|
  {
    if |xs| > 1 {
      JoinArrowed(xs[1..]);
      assert Arrowed(xs)[1..] == Arrowed(xs[1..]);
      Assoc(ARROW + xs[0], "\n", ARROW + Join(xs[1..], ARROW_SEP));
      Assoc(ARROW + xs[0] + "\n", ARROW, Join(xs[1..], ARROW_SEP));
    }
  }

  /** With at least two entries and no newline inside any of them, the listing
      has one line per entry: the first as it is, every later one behind an
      arrow. */
  lemma DependencyListingLines(names: seq<string>)
    requires |names| >= 2
    requires forall k :: 0 <= k < |names| ==> '\n' !in names[k]
    ensures var r := DependencyListing(Some(names));
      r.Some? && Split(r.value, '\n') == [names[0]] + Arrowed(names[1..])
  {
    var rest := names[1..];
    ReduceIsJoin(rest);
    JoinArrowed(rest);
    var text := Join([names[0], ARROW + Reduce(rest)], "\n");
    assert [names[0], ARROW + Reduce(rest)][1..] == [ARROW + Reduce(rest)];
    assert Join([ARROW + Reduce(rest)], "\n") == ARROW + Reduce(rest);
    assert text == names[0] + "\n" + (ARROW + Reduce(rest));
    assert ARROW + Reduce(rest) == Join(Arrowed(rest), "\n");
    var lines := [names[0]] + Arrowed(rest);
    assert lines[1..] == Arrowed(rest);
    assert text == Join(lines, "\n");
    forall k | 0 <= k < |lines|
      ensures '\n' !in lines[k]
    {
      if k > 0 {
        assert lines[k] == ARROW + rest[k - 1];
        assert '\n' !in ARROW;
      }
    }
    SplitJoin(lines, '\n');
  }

  // ----------------------------------------------------------- ftrace

  const CONSTRUCTOR: string := "<Constructor>"
  const FALLBACK: string := "<Fallback>"
  const ALL: string := "all"

  /** Lines 407-411: the function part of the trace query; the constructor has
      a `null` name (`None`) and the fallback function an empty one. An
      `undefined` argument, which the code passes on unchanged as the text
      "undefined", is not a value of this type. */
  function TraceFunctionName(name: Option<string>): (r: string)
    ensures r != ""
    ensures name.None? ==> r == CONSTRUCTOR
    ensures name == Some("") ==> r == FALLBACK
    ensures name.Some? && name.value != "" ==> r == name.value
  {
    match name
    case None => CONSTRUCTOR
    case Some(n) => if n == "" then FALLBACK else n
  }

  /** Names that cannot hold "<" (as no identifier can) are told apart from
      the constructor, from the fallback function and from one another. */
  lemma TraceFunctionNameInjective(a: Option<string>, b: Option<string>)
    requires a.Some? ==> '<' !in a.value
    requires b.Some? ==> '<' !in b.value
    requires TraceFunctionName(a) == TraceFunctionName(b)
    ensures a == b
  {
    assert CONSTRUCTOR[0] == '<' && FALLBACK[0] == '<';
    assert CONSTRUCTOR != FALLBACK by {
      assert |CONSTRUCTOR| != |FALLBACK|;
    }
  }

  /** Line 414: the query `contract::function`. */
  function TraceQuery(contractName: string, name: Option<string>): string {
    contractName + "::" + TraceFunctionName(name)
  }

  /** Line 415: the trace mode, `all` when none is given (`undefined` or ""). */
  function TraceMode(mode: Option<string>): (r: string)
    ensures r != ""
    ensures mode.Some? && mode.value != "" ==> r == mode.value
    ensures mode.None? || mode.value == "" ==> r == ALL
  {
    if mode.None? || mode.value == "" then ALL else mode.value
  }

  /** A contract name without ":" is recovered from the query by splitting it
      at its first "::", and so is the function part. */
  lemma TraceQuerySplits(contractName: string, name: Option<string>)
    requires ':' !in contractName
    ensures var q := TraceQuery(contractName, name);
      var i := IndexOf(q, "::");
      && i == |contractName|
      && Substring(q, 0, i) == contractName
      && q[i + 2..] == TraceFunctionName(name)
  {
    var q := TraceQuery(contractName, name);
    var n := |contractName|;
    assert q[n..n + 2] == "::";
    assert OccursAt(q, "::", n);
    forall j | 0 <= j < n
      ensures !OccursAt(q, "::", j)
    {
      assert q[j] == contractName[j] != ':';
      assert q[j..j + 2][0] == q[j];
    }
    var i := IndexOf(q, "::");
    assert q[n + 2..] == TraceFunctionName(name);
  }
}
