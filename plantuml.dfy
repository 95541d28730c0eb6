/** The PlantUML class-diagram writer of src/features/writer/plantuml.js:
    one class block per contract, the inheritance and using-for relations,
    and optionally the "actors" (the address-typed names the contracts use).
    The writer's settings and the external `getVariableDeclarationType` are
    parameters: `UmlConfig` and `declType`, which the model applies to a
    node's type subtree. */
module Plantuml {
  import opened Wrappers
  import opened JsText
  import opened JsObject
  import opened ContractModel

  /** `settings.extensionConfig().uml`: the options text and whether actors are drawn. */
  datatype UmlConfig = UmlConfig(options: string, actorsEnabled: bool)

  // ----------------------------------------------------------- lookup tables

  const SEARCH_ICON: string := "\U{1F50D}"
  const MONEY_ICON: string := "\U{1F4B0}"

  /** Lines 12-17 and 85: `stateMutabilityToIcon[m] || ""`; a non-payable
      function has a `null` mutability (`None`). */
  function MutabilityIcon(m: Option<string>): (r: string)
    ensures r == SEARCH_ICON <==> m == Some("view") || m == Some("pure") || m == Some("constant")
    ensures r == MONEY_ICON <==> m == Some("payable")
    ensures r == "" <==> !(m == Some("view") || m == Some("pure") || m == Some("constant") || m == Some("payable"))
  {
    if m == Some("view") || m == Some("pure") || m == Some("constant") then SEARCH_ICON
    else if m == Some("payable") then MONEY_ICON
    else ""
  }

  /** Lines 19-25 and 85: `functionVisibility[v] || ""`. */
  function FunctionVisibility(v: string): (r: string)
    ensures r == "+" <==> v == "public" || v == "external" || v == "default"
    ensures r == "#" <==> v == "internal"
    ensures r == "-" <==> v == "private"
    ensures r == "" <==> v !in {"public", "external", "internal", "private", "default"}
  {
    if v == "public" || v == "external" || v == "default" then "+"
    else if v == "internal" then "#"
    else if v == "private" then "-"
    else ""
  }

  /** Lines 26-32 and 80: `variableVisibility[v] || ""`. */
  function VariableVisibility(v: string): (r: string)
    ensures r == "+" <==> v == "public" || v == "external"
    ensures r == "#" <==> v == "internal" || v == "default"
    ensures r == "-" <==> v == "private"
    ensures r == "" <==> v !in {"public", "external", "internal", "private", "default"}
  {
    if v == "public" || v == "external" then "+"
    else if v == "internal" || v == "default" then "#"
    else if v == "private" then "-"
    else ""
  }

  /** The two visibility tables differ only on "default": a function without
      a visibility is public, a variable without one internal. */
  lemma VisibilityTablesAgree(v: string)
    ensures v != "default" ==> FunctionVisibility(v) == VariableVisibility(v)
    ensures FunctionVisibility("default") == "+" && VariableVisibility("default") == "#"
  {}

  /** Lines 33-37 and 67: `contractNameMapping[kind] || "class"`. */
  function ContractKeyword(kind: string): (r: string)
    ensures r == "interface" <==> kind == "interface"
    ensures r == "abstract" <==> kind == "library"
    ensures r == "class" <==> kind != "interface" && kind != "library"
  {
    if kind == "interface" then "interface"
    else if kind == "library" then "abstract"
    else "class"
  }

  const CONSTRUCTOR_NAME: string := "**__constructor__**"
  const FALLBACK_NAME: string := "**__fallback__**"

  /** Lines 39-48: the constructor (a `null` name) and the fallback function
      (an empty name) get placeholder names; every other name is kept. */
  function MapAstFunctionName(name: Option<string>): (r: string)
    ensures name.None? ==> r == CONSTRUCTOR_NAME
    ensures name == Some("") ==> r == FALLBACK_NAME
    ensures name.Some? && name.value != "" ==> r == name.value
  {
    match name
    case None => CONSTRUCTOR_NAME
    case Some(n) => if n == "" then FALLBACK_NAME else n
  }

  /** Names without "*" (as identifiers are) keep apart from the two
      placeholders and from one another. */
  lemma MapAstFunctionNameInjective(a: Option<string>, b: Option<string>)
    requires a.Some? ==> '*' !in a.value
    requires b.Some? ==> '*' !in b.value
    requires MapAstFunctionName(a) == MapAstFunctionName(b)
    ensures a == b
  {
    assert CONSTRUCTOR_NAME[0] == '*' && FALLBACK_NAME[0] == '*';
    assert CONSTRUCTOR_NAME != FALLBACK_NAME by {
      assert |CONSTRUCTOR_NAME| != |FALLBACK_NAME|;
    }
  }

  // ----------------------------------------------------------- member lines

  const DEPENDENCY_PREFIX: string := "\t{abstract}"
  const USING_FOR_PREFIX: string := "\t{abstract}\U{1F4DA}"
  const STATIC: string := "{static}"

  /** `.replace(/\(/g, "").replace(/\)/g, "")`. */
  function StripParens(s: string): (r: string)
    ensures '(' !in r && ')' !in r
    ensures forall d :: d != '(' && d != ')' ==> (d in r <==> d in s)
    ensures multiset(r) == multiset(s)['(' := 0][')' := 0]
  {
    RemoveChar(RemoveChar(s, '('), ')')
  }

  /** Parentheses are stripped piece by piece, so the other characters keep
      their order. */
  lemma StripParensAppend(a: string, b: string)
    ensures StripParens(a + b) == StripParens(a) + StripParens(b)
  {
    RemoveCharAppend(a, b, '(');
    RemoveCharAppend(RemoveChar(a, '('), RemoveChar(b, '('), ')');
  }

  /** Line 70: one inherited name. */
  function DependencyLine(name: string): string {
    DEPENDENCY_PREFIX + name
  }

  /** Line 75: one using-for declaration. */
  function UsingForLine(u: UsingFor, declType: TypeNode -> string): string {
    USING_FOR_PREFIX + u.libraryName + " for [[" + declType(u.typeName) + "]]"
  }

  function StaticMark(v: StateVar): string {
    if v.isDeclaredConst then STATIC else ""
  }

  /** Line 80: one state variable, its type text without parentheses. */
  function StateVarLine(v: StateVar, declType: TypeNode -> string): string {
    "\t" + VariableVisibility(v.visibility) + StaticMark(v) + TypedName(v, declType)
  }

  function TypedName(v: StateVar, declType: TypeNode -> string): (r: string)
    ensures |r| > 0 && r[0] == '['
  {
    "[[" + StripParens(declType(v.typeName)) + "]] " + v.name
  }

  /** Line 85: one function. */
  function FunctionLine(f: FunctionDef): string {
    "\t" + FunctionVisibility(f.visibility) + MutabilityIcon(f.stateMutability) + MapAstFunctionName(f.name) + "()"
  }

  /** A state variable's line carries the static mark, right after its
      visibility symbol, exactly when the variable is declared constant. */
  lemma StaticIffConstant(v: StateVar, declType: TypeNode -> string)
    ensures var k := 1 + |VariableVisibility(v.visibility)|;
      OccursAt(StateVarLine(v, declType), STATIC, k) <==> v.isDeclaredConst
  {
    MarkAt("\t" + VariableVisibility(v.visibility), StaticMark(v), TypedName(v, declType));
  }

  /** Behind `pre`, the text shows the static mark exactly when `mark` is it,
      as long as what follows the mark starts with "[". */
  lemma MarkAt(pre: string, mark: string, rest: string)
    requires mark == STATIC || mark == ""
    requires |rest| > 0 && rest[0] == '['
    ensures OccursAt(pre + mark + rest, STATIC, |pre|) <==> mark == STATIC
  {
    var line := pre + mark + rest;
    var k := |pre|;
    if mark == STATIC {
      assert line[k..k + |STATIC|] == STATIC;
    } else {
      assert line[k] == rest[0];
      assert STATIC[0] == '{';
    }
  }

  /** The lines of each member list, in the order of the list. */
  function DependencyLines(c: Contract): (r: seq<string>)
    ensures |r| == |c.dependencies|
    ensures forall i :: 0 <= i < |r| ==> r[i] == DependencyLine(c.dependencies[i])
  {
    seq(|c.dependencies|, i requires 0 <= i < |c.dependencies| => DependencyLine(c.dependencies[i]))
  }

  function UsingForLines(c: Contract, declType: TypeNode -> string): (r: seq<string>)
    ensures |r| == |c.usingFor|
    ensures forall i :: 0 <= i < |r| ==> r[i] == UsingForLine(c.usingFor[i], declType)
  {
    seq(|c.usingFor|, i requires 0 <= i < |c.usingFor| => UsingForLine(c.usingFor[i], declType))
  }

  function StateVarLines(c: Contract, declType: TypeNode -> string): (r: seq<string>)
    ensures |r| == |c.stateVars|
    ensures forall i :: 0 <= i < |r| ==> r[i] == StateVarLine(c.stateVars[i], declType)
  {
    seq(|c.stateVars|, i requires 0 <= i < |c.stateVars| => StateVarLine(c.stateVars[i], declType))
  }

  function FunctionLines(c: Contract): (r: seq<string>)
    ensures |r| == |c.functions|
    ensures forall i :: 0 <= i < |r| ==> r[i] == FunctionLine(c.functions[i])
  {
    seq(|c.functions|, i requires 0 <= i < |c.functions| => FunctionLine(c.functions[i]))
  }

  // ----------------------------------------------------------- class blocks

  const INHERITANCE_LABEL: string := "    ' -- inheritance --"
  const USING_FOR_LABEL: string := "    ' -- usingFor --"
  const VARS_LABEL: string := "    ' -- vars --"
  const METHODS_LABEL: string := "    ' -- methods --"

  const USING_FOR_HEAD: string := "\n" + USING_FOR_LABEL + "\n"
  const VARS_HEAD: string := "\n" + VARS_LABEL + "\n"
  const METHODS_HEAD: string := "\n" + METHODS_LABEL + "\n"
  const BLOCK_CLOSE: string := "\n}\n"

  function ClassTitle(c: Contract): string {
    ContractKeyword(c.kind) + " " + c.name + " {"
  }

  function ClassHead(c: Contract): string {
    "\n\n" + ClassTitle(c) + "\n" + INHERITANCE_LABEL + "\n"
  }

  /** Lines 66-89: the block of one contract. Each inner `reduce` appends one
      line and a newline per member. */
  function ClassBlock(c: Contract, declType: TypeNode -> string): string {
    ClassHead(c) + Terminated(DependencyLines(c))
    + USING_FOR_HEAD + Terminated(UsingForLines(c, declType))
    + VARS_HEAD + Terminated(StateVarLines(c, declType))
    + METHODS_HEAD + Terminated(FunctionLines(c))
    + BLOCK_CLOSE
  }

  /** The lines of a class block: two blank lines, the title, then each
      section's label followed by one line per member in order. */
  function BlockLines(c: Contract, declType: TypeNode -> string): seq<string> {
    ["", "", ClassTitle(c), INHERITANCE_LABEL] + DependencyLines(c)
    + ["", USING_FOR_LABEL] + UsingForLines(c, declType)
    + ["", VARS_LABEL] + StateVarLines(c, declType)
    + ["", METHODS_LABEL] + FunctionLines(c)
    + ["", "}"]
  }

  lemma TerminatedNine(p1: seq<string>, p2: seq<string>, p3: seq<string>, p4: seq<string>, p5: seq<string>,
                       p6: seq<string>, p7: seq<string>, p8: seq<string>, p9: seq<string>)
    ensures Terminated(p1 + p2 + p3 + p4 + p5 + p6 + p7 + p8 + p9)
      == Terminated(p1) + Terminated(p2) + Terminated(p3) + Terminated(p4) + Terminated(p5)
         + Terminated(p6) + Terminated(p7) + Terminated(p8) + Terminated(p9)
  {
    TerminatedAppend(p1, p2);
    TerminatedAppend(p1 + p2, p3);
    TerminatedAppend(p1 + p2 + p3, p4);
    TerminatedAppend(p1 + p2 + p3 + p4, p5);
    TerminatedAppend(p1 + p2 + p3 + p4 + p5, p6);
    TerminatedAppend(p1 + p2 + p3 + p4 + p5 + p6, p7);
    TerminatedAppend(p1 + p2 + p3 + p4 + p5 + p6 + p7, p8);
    TerminatedAppend(p1 + p2 + p3 + p4 + p5 + p6 + p7 + p8, p9);
  }

  /** A two-line section head `"\n" + heading + "\n"` is the lines "" and `heading`. */
  lemma SectionHead(heading: string)
    ensures Terminated(["", heading]) == "\n" + heading + "\n"
  {
    TerminatedTwo("", heading);
  }

  lemma ClassHeadLines(c: Contract)
    ensures Terminated(["", "", ClassTitle(c), INHERITANCE_LABEL]) == ClassHead(c)
  {
    TerminatedFour("", "", ClassTitle(c), INHERITANCE_LABEL);
    assert "" + "\n" + "" + "\n" == "\n\n";
  }

  lemma BlockCloseLines()
    ensures Terminated(["", "}"]) == BLOCK_CLOSE
  {
    TerminatedTwo("", "}");
  }

  /** Lines 64-90: a class block is its lines, each followed by a newline. */
  lemma ClassBlockLines(c: Contract, declType: TypeNode -> string)
    ensures ClassBlock(c, declType) == Terminated(BlockLines(c, declType))
  {
    TerminatedNine(["", "", ClassTitle(c), INHERITANCE_LABEL] + DependencyLines(c), ["", USING_FOR_LABEL],
      UsingForLines(c, declType), ["", VARS_LABEL], StateVarLines(c, declType), ["", METHODS_LABEL],
      FunctionLines(c), ["", "}"], []);
    TerminatedAppend(["", "", ClassTitle(c), INHERITANCE_LABEL], DependencyLines(c));
    ClassHeadLines(c);
    SectionHead(USING_FOR_LABEL);
    SectionHead(VARS_LABEL);
    SectionHead(METHODS_LABEL);
    BlockCloseLines();
    assert BlockLines(c, declType) + [] == BlockLines(c, declType);
  }

  /** Lines 64-90: the class blocks of all contracts, in input order. */
  function Classes(cs: seq<Contract>, declType: TypeNode -> string): string
    decreases |cs|
  {
    if cs == [] then "" else Classes(cs[..|cs| - 1], declType) + ClassBlock(cs[|cs| - 1], declType)
  }

  function ClassesLines(cs: seq<Contract>, declType: TypeNode -> string): seq<string>
    decreases |cs|
  {
    if cs == [] then [] else ClassesLines(cs[..|cs| - 1], declType) + BlockLines(cs[|cs| - 1], declType)
  }

  lemma {:induction false} ClassesAsLines(cs: seq<Contract>, declType: TypeNode -> string)
    ensures Classes(cs, declType) == Terminated(ClassesLines(cs, declType))
    decreases |cs|
  {
    if cs != [] {
      var init := cs[..|cs| - 1];
      ClassesAsLines(init, declType);
      ClassBlockLines(cs[|cs| - 1], declType);
      TerminatedAppend(ClassesLines(init, declType), BlockLines(cs[|cs| - 1], declType));
    }
  }

  // ----------------------------------------------------------- relations

  const RELATIONS_LABEL: string := "' -- inheritance / usingFor --"

  /** Line 95: `A --[#DarkGoldenRod]|> B` for each name `B` that `A` inherits from. */
  function InheritanceRelations(c: Contract): (r: seq<string>)
    ensures |r| == |c.dependencies|
    ensures forall i :: 0 <= i < |r| ==> r[i] == c.name + " --[#DarkGoldenRod]|> " + c.dependencies[i]
  {
    seq(|c.dependencies|, i requires 0 <= i < |c.dependencies| => c.name + " --[#DarkGoldenRod]|> " + c.dependencies[i])
  }

  /** Line 98: `A ..[#DarkOliveGreen]|> L : //for T//` for each `using L for T` of `A`. */
  function UsingForRelations(c: Contract, declType: TypeNode -> string): (r: seq<string>)
    ensures |r| == |c.usingFor|
    ensures forall i :: 0 <= i < |r| ==>
      r[i] == c.name + " ..[#DarkOliveGreen]|> " + c.usingFor[i].libraryName + " : //for " + declType(c.usingFor[i].typeName) + "//"
  {
    seq(|c.usingFor|, i requires 0 <= i < |c.usingFor| =>
      c.name + " ..[#DarkOliveGreen]|> " + c.usingFor[i].libraryName + " : //for " + declType(c.usingFor[i].typeName) + "//")
  }

  /** Lines 93-99: one contract's relations, its inheritance lines first. */
  function ContractRelations(c: Contract, declType: TypeNode -> string): string {
    Terminated(InheritanceRelations(c)) + Terminated(UsingForRelations(c, declType))
  }

  /** Lines 92-100: the relations of all contracts, in input order. */
  function Relations(cs: seq<Contract>, declType: TypeNode -> string): string
    decreases |cs|
  {
    if cs == [] then "" else Relations(cs[..|cs| - 1], declType) + ContractRelations(cs[|cs| - 1], declType)
  }

  function RelationLines(cs: seq<Contract>, declType: TypeNode -> string): seq<string>
    decreases |cs|
  {
    if cs == [] then []
    else RelationLines(cs[..|cs| - 1], declType) + InheritanceRelations(cs[|cs| - 1]) + UsingForRelations(cs[|cs| - 1], declType)
  }

  lemma {:induction false} RelationsAsLines(cs: seq<Contract>, declType: TypeNode -> string)
    ensures Relations(cs, declType) == Terminated(RelationLines(cs, declType))
    decreases |cs|
  {
    if cs != [] {
      var init := cs[..|cs| - 1];
      var c := cs[|cs| - 1];
      RelationsAsLines(init, declType);
      TerminatedAppend(RelationLines(init, declType), InheritanceRelations(c));
      TerminatedAppend(RelationLines(init, declType) + InheritanceRelations(c), UsingForRelations(c, declType));
      Assoc(Terminated(RelationLines(init, declType)), Terminated(InheritanceRelations(c)), Terminated(UsingForRelations(c, declType)));
    }
  }

  // ----------------------------------------------------------- actors

  /** Line 109: the names of the non-constant address state variables. */
  function StateAddresses(vs: seq<StateVar>): seq<Option<string>>
    decreases |vs|
  {
    if vs == [] then []
    else
      var v := vs[|vs| - 1];
      StateAddresses(vs[..|vs| - 1]) + (if !v.isDeclaredConst && v.typeName.name == "address" then [Some(v.name)] else [])
  }

  /** Line 111: the names of the address arguments (`None` for an unnamed one). */
  function ArgumentAddresses(ps: seq<Param>): seq<Option<string>>
    decreases |ps|
  {
    if ps == [] then []
    else
      var p := ps[|ps| - 1];
      ArgumentAddresses(ps[..|ps| - 1]) + (if p.typeName.name == "address" then [p.name] else [])
  }

  function FunctionAddresses(fs: seq<FunctionDef>): seq<Option<string>>
    decreases |fs|
  {
    if fs == [] then [] else FunctionAddresses(fs[..|fs| - 1]) + ArgumentAddresses(fs[|fs| - 1].arguments)
  }

  /** Lines 106-113: the candidate names, contract by contract. */
  function Addresses(cs: seq<Contract>): seq<Option<string>>
    decreases |cs|
  {
    if cs == [] then []
    else
      Addresses(cs[..|cs| - 1]) + ContractAddresses(cs[|cs| - 1])
  }

  /** The candidates of one contract: its state variables', then its functions'. */
  function ContractAddresses(c: Contract): seq<Option<string>> {
    StateAddresses(c.stateVars) + FunctionAddresses(c.functions)
  }

  lemma CollectFunctionStep(acc: seq<Option<string>>, fs: seq<FunctionDef>, j: int)
    requires 0 <= j < |fs|
    ensures acc + FunctionAddresses(fs[..j]) + ArgumentAddresses(fs[j].arguments) == acc + FunctionAddresses(fs[..j + 1])
  {
    assert fs[..j + 1][..j] == fs[..j];
  }

  lemma CollectContractStep(cs: seq<Contract>, i: int)
    requires 0 <= i < |cs|
    ensures Addresses(cs[..i]) + StateAddresses(cs[i].stateVars) + FunctionAddresses(cs[i].functions) == Addresses(cs[..i + 1])
  {
    assert cs[..i + 1][..i] == cs[..i];
  }

  /** Lines 106-113: the nested loops that gather the candidate names. */
  method CollectAddresses(cs: seq<Contract>) returns (addresses: seq<Option<string>>)
    ensures addresses == Addresses(cs)
  {
    addresses := [];
    for i := 0 to |cs|
      invariant addresses == Addresses(cs[..i])
    {
      var c := cs[i];
      addresses := addresses + StateAddresses(c.stateVars);
      ghost var before := addresses;
      for j := 0 to |c.functions|
        invariant addresses == before + FunctionAddresses(c.functions[..j])
      {
        CollectFunctionStep(before, c.functions, j);
        addresses := addresses + ArgumentAddresses(c.functions[j].arguments);
      }
      assert c.functions[..|c.functions|] == c.functions;
      CollectContractStep(cs, i);
    }
    assert cs[..|cs|] == cs;
  }

  /** Contract `c` has a non-constant address state variable named `n`. */
  predicate AddressStateVar(c: Contract, n: string) {
    exists v :: v in c.stateVars && !v.isDeclaredConst && v.typeName.name == "address" && v.name == n
  }

  /** A function of contract `c` has an address argument named `x`. */
  predicate AddressArgument(c: Contract, x: Option<string>) {
    exists f, p :: f in c.functions && p in f.arguments && p.typeName.name == "address" && p.name == x
  }

  lemma {:induction false} StateAddressesMember(vs: seq<StateVar>, x: Option<string>)
    ensures x in StateAddresses(vs) <==>
      exists v :: v in vs && !v.isDeclaredConst && v.typeName.name == "address" && x == Some(v.name)
    decreases |vs|
  {
    if vs != [] {
      var init := vs[..|vs| - 1];
      StateAddressesMember(init, x);
      assert vs == init + [vs[|vs| - 1]];
    }
  }

  lemma {:induction false} ArgumentAddressesMember(ps: seq<Param>, x: Option<string>)
    ensures x in ArgumentAddresses(ps) <==> exists p :: p in ps && p.typeName.name == "address" && p.name == x
    decreases |ps|
  {
    if ps != [] {
      var init := ps[..|ps| - 1];
      ArgumentAddressesMember(init, x);
      assert ps == init + [ps[|ps| - 1]];
    }
  }

  lemma {:induction false} FunctionAddressesMember(fs: seq<FunctionDef>, x: Option<string>)
    ensures x in FunctionAddresses(fs) <==>
      exists f, p :: f in fs && p in f.arguments && p.typeName.name == "address" && p.name == x
    decreases |fs|
  {
    if fs != [] {
      var init := fs[..|fs| - 1];
      var last := fs[|fs| - 1];
      FunctionAddressesMember(init, x);
      ArgumentAddressesMember(last.arguments, x);
      assert fs == init + [last];
    }
  }

  /** Contract `c` puts `x` among the candidates. */
  predicate ContributesAddress(c: Contract, x: Option<string>) {
    (x.Some? && AddressStateVar(c, x.value)) || AddressArgument(c, x)
  }

  lemma ContractAddressesMember(c: Contract, x: Option<string>)
    ensures x in ContractAddresses(c) <==> ContributesAddress(c, x)
  {
    StateAddressesMember(c.stateVars, x);
    FunctionAddressesMember(c.functions, x);
    if x in StateAddresses(c.stateVars) {
      var v :| v in c.stateVars && !v.isDeclaredConst && v.typeName.name == "address" && x == Some(v.name);
      assert AddressStateVar(c, x.value);
    }
  }

  /** A name is a candidate exactly when some contract has a non-constant
      address state variable or an address argument of that name. */
  lemma {:induction false} AddressesMember(cs: seq<Contract>, x: Option<string>)
    ensures x in Addresses(cs) <==> exists i :: 0 <= i < |cs| && ContributesAddress(cs[i], x)
    decreases |cs|
  {
    if cs != [] {
      var init := cs[..|cs| - 1];
      var c := cs[|cs| - 1];
      AddressesMember(init, x);
      ContractAddressesMember(c, x);
      if exists i :: 0 <= i < |cs| && ContributesAddress(cs[i], x) {
        var i :| 0 <= i < |cs| && ContributesAddress(cs[i], x);
        if i < |init| {
          assert ContributesAddress(init[i], x);
        }
      }
      if exists i :: 0 <= i < |init| && ContributesAddress(init[i], x) {
        var i :| 0 <= i < |init| && ContributesAddress(init[i], x);
        assert cs[i] == init[i];
      }
    }
  }

  /** Lines 116-124: the filter's test. A `null` is dropped, and so is a
      name `_x` unless `x` is the very first candidate: `indexOf` is falsy
      only at 0, so an `x` that is missing (-1) drops `_x` as well. */
  predicate KeepActor(x: Option<string>, d: seq<Option<string>>) {
    x.Some? && !(StartsWith(x.value, "_") && SeqIndexOf(d, Some(x.value[1..])) != 0)
  }

  function FilterActors(xs: seq<Option<string>>, d: seq<Option<string>>): seq<string>
    decreases |xs|
  {
    if xs == [] then []
    else
      var x := xs[|xs| - 1];
      FilterActors(xs[..|xs| - 1], d) + (if KeepActor(x, d) then [x.value] else [])
  }

  /** Lines 115-124: the candidates without repeats, filtered. */
  function Actors(addresses: seq<Option<string>>): seq<string> {
    var d := Dedup(addresses);
    FilterActors(d, d)
  }

  lemma {:induction false} FilterActorsMember(xs: seq<Option<string>>, d: seq<Option<string>>, a: string)
    ensures a in FilterActors(xs, d) <==> Some(a) in xs && KeepActor(Some(a), d)
    decreases |xs|
  {
    if xs != [] {
      var init := xs[..|xs| - 1];
      FilterActorsMember(init, d, a);
      assert xs == init + [xs[|xs| - 1]];
    }
  }

  lemma {:induction false} FilterActorsDistinct(xs: seq<Option<string>>, d: seq<Option<string>>)
    requires Distinct(xs)
    ensures Distinct(FilterActors(xs, d))
    decreases |xs|
  {
    if xs != [] {
      var init := xs[..|xs| - 1];
      var x := xs[|xs| - 1];
      assert Distinct(init);
      FilterActorsDistinct(init, d);
      if KeepActor(x, d) {
        FilterActorsMember(init, d, x.value);
        assert x !in init;
      }
    }
  }

  /** A name is drawn as an actor exactly when it is a candidate and it is
      not `_x` for an `x` other than the first candidate; no name is drawn twice. */
  lemma ActorsMember(addresses: seq<Option<string>>, a: string)
    ensures a in Actors(addresses) <==>
      && Some(a) in addresses
      && !(StartsWith(a, "_") && SeqIndexOf(Dedup(addresses), Some(a[1..])) != 0)
    ensures Distinct(Actors(addresses))
  {
    var d := Dedup(addresses);
    FilterActorsMember(d, d, a);
    FilterActorsDistinct(d, d);
  }

  /** The actors come in the order of the candidates they were taken from. */
  predicate ActorsInOrder(actors: seq<string>, names: seq<Option<string>>) {
    forall i, j :: 0 <= i < j < |actors| ==> SeqIndexOf(names, Some(actors[i])) < SeqIndexOf(names, Some(actors[j]))
  }

  lemma {:induction false} FilterActorsOrder(xs: seq<Option<string>>, d: seq<Option<string>>, names: seq<Option<string>>)
    requires InFirstOccurrenceOrder(xs, names)
    ensures ActorsInOrder(FilterActors(xs, d), names)
    decreases |xs|
  {
    if xs != [] {
      var init, last := xs[..|xs| - 1], xs[|xs| - 1];
      assert InFirstOccurrenceOrder(init, names) by {
        forall i, j | 0 <= i < j < |init| ensures SeqIndexOf(names, init[i]) < SeqIndexOf(names, init[j]) {
          assert init[i] == xs[i] && init[j] == xs[j];
        }
      }
      FilterActorsOrder(init, d, names);
      var r0 := FilterActors(init, d);
      if KeepActor(last, d) {
        forall y | y in r0 ensures SeqIndexOf(names, Some(y)) < SeqIndexOf(names, last) {
          FilterActorsMember(init, d, y);
          var i :| 0 <= i < |init| && init[i] == Some(y);
          assert xs[i] == Some(y);
        }
        var r := r0 + [last.value];
        forall i, j | 0 <= i < j < |r| ensures SeqIndexOf(names, Some(r[i])) < SeqIndexOf(names, Some(r[j])) {
          assert r[i] == r0[i] && r0[i] in r0;
          if j < |r0| {
            assert r[j] == r0[j];
          }
        }
      } else {
        assert FilterActors(xs, d) == r0;
      }
    }
  }

  /** The actors are drawn in the order in which their names were first
      collected, as `[...new Set(addresses)]` orders them. */
  lemma ActorsOrder(addresses: seq<Option<string>>)
    ensures ActorsInOrder(Actors(addresses), addresses)
  {
    var d := Dedup(addresses);
    DedupOrder(addresses);
    FilterActorsOrder(d, d, addresses);
  }

  /** `_x` is dropped when `x` is no candidate at all, although the source's
      comment only means to drop duplicates. */
  lemma LoneUnderscoreDropped(n: string)
    ensures Actors([Some("_" + n)]) == []
  {
    var x := Some("_" + n);
    assert [x][..0] == [];
    assert Dedup([x]) == [x];
    assert ("_" + n)[1..] == n;
    assert ("_" + n)[..1] == "_";
    assert Some(n) != x by {
      assert |"_" + n| != |n|;
    }
    assert SeqIndexOf([x], Some(n)) == -1;
    assert !KeepActor(x, [x]);
    assert FilterActors([x], [x]) == FilterActors([], [x]);
  }

  /** `_x` is kept next to `x` when `x` is the first candidate. */
  lemma UnderscoreOfFirstKept(n: string)
    requires !StartsWith(n, "_")
    ensures Actors([Some(n), Some("_" + n)]) == [n, "_" + n]
  {
    var x, y := Some(n), Some("_" + n);
    var s := [x, y];
    assert x != y by {
      assert |n| != |"_" + n|;
    }
    assert s[..1] == [x] && [x][..0] == [];
    assert Dedup([x]) == [x];
    assert Dedup(s) == s;
    assert ("_" + n)[1..] == n;
    assert ("_" + n)[..1] == "_";
    assert SeqIndexOf(s, Some(n)) == 0;
    assert KeepActor(x, s) && KeepActor(y, s);
    assert FilterActors(s, s) == FilterActors([x], s) + [y.value];
  }

  /** `_x` is dropped as a duplicate when `x` is a later candidate. */
  lemma UnderscoreOfLaterDropped(m: string, n: string)
    requires !StartsWith(m, "_") && !StartsWith(n, "_") && m != n
    ensures Actors([Some(m), Some(n), Some("_" + n)]) == [m, n]
  {
    var x, y, z := Some(m), Some(n), Some("_" + n);
    var s := [x, y, z];
    assert y != z by {
      assert |n| != |"_" + n|;
    }
    assert x != z by {
      assert ("_" + n)[0] == '_';
    }
    assert s[..2] == [x, y] && [x, y][..1] == [x] && [x][..0] == [];
    assert Dedup([x]) == [x];
    assert Dedup([x, y]) == [x, y];
    assert Dedup(s) == s;
    assert ("_" + n)[1..] == n;
    assert ("_" + n)[..1] == "_";
    assert SeqIndexOf(s, Some(n)) == 1;
    assert KeepActor(x, s) && KeepActor(y, s) && !KeepActor(z, s);
    assert FilterActors(s, s) == FilterActors([x, y], s);
    assert FilterActors([x, y], s) == FilterActors([x], s) + [n];
    assert [x][..0] == [] && FilterActors([x], s) == [] + [m] == [m];
    assert [m] + [n] == [m, n];
  }

  const ACTORS_LABEL: string := "' -- actors --"
  const TOGETHER: string := "together {"

  function ActorLines(actors: seq<string>): (r: seq<string>)
    ensures |r| == |actors|
    ensures forall i :: 0 <= i < |r| ==> r[i] == "\tactor " + actors[i]
  {
    seq(|actors|, i requires 0 <= i < |actors| => "\tactor " + actors[i])
  }

  /** Lines 126-131: the actors, one line each, grouped together. */
  function ActorsBlock(actors: seq<string>): string {
    "\n" + ACTORS_LABEL + "\n" + TOGETHER + "\n" + Terminated(ActorLines(actors)) + BLOCK_CLOSE
  }

  // ----------------------------------------------------------- the document

  /** The address of the PlantUML extension: scheme, host and path. */
  const PLANTUML_EXTENSION_URL: string := "https://" + "marketplace.visualstudio.com" + "/items?itemName=jebbs.plantuml"
  const INSTALL_LINE: string := "' -- for auto-render install: " + PLANTUML_EXTENSION_URL
  const OPTIONS_LABEL: string := "' -- options --"
  const CLASSES_LABEL: string := "' -- classes --"
  const ALLOW_MIXING: string := "allowmixing"
  const END: string := "\n@enduml"

  const HEADER_HEAD: string := "@startuml" + "\n" + "'" + "\n" + INSTALL_LINE + "\n" + OPTIONS_LABEL + "\n"

  function MixingLine(cfg: UmlConfig): string {
    if cfg.actorsEnabled then ALLOW_MIXING else ""
  }

  /** Lines 54-62: the document's preamble. */
  function Header(cfg: UmlConfig): string {
    HEADER_HEAD + cfg.options + "\n" + MixingLine(cfg) + "\n\n" + CLASSES_LABEL + "\n"
  }

  /** Lines 52-136: the whole document. */
  function Document(cs: seq<Contract>, cfg: UmlConfig, declType: TypeNode -> string): string {
    Header(cfg) + Classes(cs, declType) + RELATIONS_LABEL + "\n" + Relations(cs, declType)
    + (if cfg.actorsEnabled then ActorsBlock(Actors(Addresses(cs))) else "")
    + END
  }

  /** Lines 52-136: `PlantumlWriter.export`, which appends each part to `content`. */
  method Export(cs: seq<Contract>, cfg: UmlConfig, declType: TypeNode -> string) returns (content: string)
    ensures content == Document(cs, cfg, declType)
  {
    content := Header(cfg);
    content := content + Classes(cs, declType);
    content := content + RELATIONS_LABEL + "\n" + Relations(cs, declType);
    if cfg.actorsEnabled {
      var addresses := CollectAddresses(cs);
      var actors := Actors(addresses);
      content := content + ActorsBlock(actors);
    } else {
      assert content + "" == content;
    }
    content := content + END;
  }

  function HeaderLines(cfg: UmlConfig): seq<string> {
    ["@startuml", "'", INSTALL_LINE, OPTIONS_LABEL] + [cfg.options, MixingLine(cfg), "", CLASSES_LABEL]
  }

  /** The lines of the actors section, none when actors are not drawn. */
  function ActorSectionLines(cs: seq<Contract>, cfg: UmlConfig): seq<string> {
    if cfg.actorsEnabled then ["", ACTORS_LABEL, TOGETHER] + ActorLines(Actors(Addresses(cs))) + ["", "}"]
    else []
  }

  /** Every line of the document in order: the preamble, the class blocks,
      the relations label and the relations, the actors section when
      enabled, and a blank line before the final `@enduml`. */
  function DocumentLines(cs: seq<Contract>, cfg: UmlConfig, declType: TypeNode -> string): seq<string> {
    HeaderLines(cfg) + ClassesLines(cs, declType) + [RELATIONS_LABEL] + RelationLines(cs, declType)
    + ActorSectionLines(cs, cfg)
  }

  lemma HeaderAsLines(cfg: UmlConfig)
    ensures Header(cfg) == Terminated(HeaderLines(cfg))
  {
    var o, m := cfg.options, MixingLine(cfg);
    TerminatedAppend(["@startuml", "'", INSTALL_LINE, OPTIONS_LABEL], [o, m, "", CLASSES_LABEL]);
    TerminatedFour("@startuml", "'", INSTALL_LINE, OPTIONS_LABEL);
    TerminatedFour(o, m, "", CLASSES_LABEL);
    assert o + "\n" + m + "\n" + "" + "\n" + CLASSES_LABEL + "\n" == o + "\n" + m + "\n\n" + CLASSES_LABEL + "\n";
    Regroup(HEADER_HEAD, o, m, CLASSES_LABEL);
  }

  lemma Regroup(h: string, o: string, m: string, c: string)
    ensures h + (o + "\n" + m + "\n\n" + c + "\n") == h + o + "\n" + m + "\n\n" + c + "\n"
  {}

  lemma ActorsBlockLines(actors: seq<string>)
    ensures ActorsBlock(actors) == Terminated(["", ACTORS_LABEL, TOGETHER] + ActorLines(actors) + ["", "}"])
  {
    var lines := ActorLines(actors);
    TerminatedAppend(["", ACTORS_LABEL, TOGETHER] + lines, ["", "}"]);
    TerminatedAppend(["", ACTORS_LABEL, TOGETHER], lines);
    BlockCloseLines();
    assert ["", ACTORS_LABEL, TOGETHER][1..] == [ACTORS_LABEL, TOGETHER];
    TerminatedTwo(ACTORS_LABEL, TOGETHER);
  }

  lemma TerminatedFive(p1: seq<string>, p2: seq<string>, p3: seq<string>, p4: seq<string>, p5: seq<string>)
    ensures Terminated(p1 + p2 + p3 + p4 + p5)
      == Terminated(p1) + Terminated(p2) + Terminated(p3) + Terminated(p4) + Terminated(p5)
  {
    TerminatedAppend(p1, p2);
    TerminatedAppend(p1 + p2, p3);
    TerminatedAppend(p1 + p2 + p3, p4);
    TerminatedAppend(p1 + p2 + p3 + p4, p5);
  }

  /** Joining the parts of the document where their lines meet. */
  lemma Stitch(h: string, c: string, r: string, rel: string, a: string, e: string,
               hl: seq<string>, cl: seq<string>, rl: seq<string>, al: seq<string>)
    requires h == Terminated(hl) && c == Terminated(cl) && rel == Terminated(rl) && a == Terminated(al)
    ensures h + c + r + "\n" + rel + a + e == Terminated(hl + cl + [r] + rl + al) + e
  {
    TerminatedFive(hl, cl, [r], rl, al);
    assert Terminated([r]) == r + "\n" + Terminated([]);
    assert r + "\n" + "" == r + "\n";
    assert h + c + r + "\n" == h + c + (r + "\n");
  }

  /** The document is its lines, each followed by a newline, and `@enduml`. */
  lemma DocumentAsLines(cs: seq<Contract>, cfg: UmlConfig, declType: TypeNode -> string)
    ensures Document(cs, cfg, declType) == Terminated(DocumentLines(cs, cfg, declType)) + END
  {
    HeaderAsLines(cfg);
    ClassesAsLines(cs, declType);
    RelationsAsLines(cs, declType);
    var a := if cfg.actorsEnabled then ActorsBlock(Actors(Addresses(cs))) else "";
    if cfg.actorsEnabled {
      ActorsBlockLines(Actors(Addresses(cs)));
    }
    assert a == Terminated(ActorSectionLines(cs, cfg));
    Stitch(Header(cfg), Classes(cs, declType), RELATIONS_LABEL, Relations(cs, declType), a, END,
      HeaderLines(cfg), ClassesLines(cs, declType), RelationLines(cs, declType), ActorSectionLines(cs, cfg));
  }

  /** Lines without newlines, then more lines, then a last line `last`:
      splitting at newlines gives back the first lines and ends with `last`. */
  lemma LinesFrame(hl: seq<string>, rest: seq<string>, last: string)
    requires forall k :: 0 <= k < |hl| ==> '\n' !in hl[k]
    requires '\n' !in last
    ensures var p := Split(Terminated(hl + rest) + "\n" + last, '\n');
      |p| >= |hl| + 1 && p[..|hl|] == hl && p[|p| - 1] == last
  {
    var x := Terminated(hl + rest) + "\n" + last;
    TerminatedAppend(hl, rest);
    var tail := Terminated(rest) + "\n" + last;
    assert x == Terminated(hl) + tail;
    SplitTerminated(hl, tail);
    SplitLastPiece(Terminated(hl + rest), last);
    var p := Split(x, '\n');
    assert p == hl + Split(tail, '\n');
    assert p[..|hl|] == hl;
  }

  /** A text of the header's lines, more lines and the end marker splits
      back into the header's lines first and `@enduml` last. */
  lemma SplitDocument(doc: string, hl: seq<string>, rest: seq<string>)
    requires doc == Terminated(hl + rest) + END
    requires forall k :: 0 <= k < |hl| ==> '\n' !in hl[k]
    ensures var lines := Split(doc, '\n');
      |lines| >= |hl| + 1 && lines[..|hl|] == hl && lines[|lines| - 1] == "@enduml"
  {
    assert END == "\n" + "@enduml";
    assert doc == Terminated(hl + rest) + "\n" + "@enduml";
    LinesFrame(hl, rest, "@enduml");
  }

  lemma HeaderLinesOneLine(cfg: UmlConfig)
    requires '\n' !in cfg.options
    ensures var hl := HeaderLines(cfg);
      && |hl| == 8 && hl[0] == "@startuml" && (hl[5] == ALLOW_MIXING <==> cfg.actorsEnabled)
      && forall k :: 0 <= k < |hl| ==> '\n' !in hl[k]
  {
    var fixed := ["@startuml", "'", INSTALL_LINE, OPTIONS_LABEL];
    FixedHeaderOneLine();
    var hl := HeaderLines(cfg);
    assert hl == fixed + [cfg.options, MixingLine(cfg), "", CLASSES_LABEL];
    assert '\n' !in MixingLine(cfg);
    assert ALLOW_MIXING != "";
  }

  lemma FixedHeaderOneLine()
    ensures var fixed := ["@startuml", "'", INSTALL_LINE, OPTIONS_LABEL];
      forall k :: 0 <= k < |fixed| ==> '\n' !in fixed[k]
    ensures '\n' !in CLASSES_LABEL
  {
    InstallLineOneLine();
  }

  lemma InstallLineOneLine()
    ensures '\n' !in INSTALL_LINE
  {
    OneLine("' -- for auto-render install: ");
    OneLine("https://");
    OneLine("marketplace.visualstudio.com");
    OneLine("/items?itemName=jebbs.plantuml");
  }

  lemma OneLine(s: string)
    requires forall k :: 0 <= k < |s| ==> s[k] != '\n'
    ensures '\n' !in s
  {
  }

  lemma LinesAssoc(a: seq<string>, b: seq<string>, c: seq<string>, d: seq<string>, e: seq<string>)
    ensures a + b + c + d + e == a + (b + c + d + e)
  {}

  /** With options on one line, the document's lines joined and split at
      newlines again start with the preamble's eight lines and end with `@enduml`. */
  lemma DocumentLinesSplit(cs: seq<Contract>, cfg: UmlConfig, declType: TypeNode -> string)
    requires '\n' !in cfg.options
    ensures var lines := Split(Terminated(DocumentLines(cs, cfg, declType)) + END, '\n');
      |lines| >= 9 && lines[..8] == HeaderLines(cfg) && lines[|lines| - 1] == "@enduml"
  {
    var hl := HeaderLines(cfg);
    var rest := ClassesLines(cs, declType) + [RELATIONS_LABEL] + RelationLines(cs, declType) + ActorSectionLines(cs, cfg);
    LinesAssoc(hl, ClassesLines(cs, declType), [RELATIONS_LABEL], RelationLines(cs, declType), ActorSectionLines(cs, cfg));
    HeaderLinesOneLine(cfg);
    SplitDocument(Terminated(DocumentLines(cs, cfg, declType)) + END, hl, rest);
  }

  /** With options on one line, the document starts with `@startuml`, its
      sixth line is `allowmixing` exactly when actors are drawn, and it ends
      with `@enduml`. */
  lemma DocumentFrame(cs: seq<Contract>, cfg: UmlConfig, declType: TypeNode -> string)
    requires '\n' !in cfg.options
    ensures var lines := Split(Document(cs, cfg, declType), '\n');
      && |lines| >= 9
      && lines[0] == "@startuml"
      && (lines[5] == ALLOW_MIXING <==> cfg.actorsEnabled)
      && lines[|lines| - 1] == "@enduml"
  {
    DocumentAsLines(cs, cfg, declType);
    DocumentLinesSplit(cs, cfg, declType);
    HeaderLinesOneLine(cfg);
    var lines := Split(Document(cs, cfg, declType), '\n');
    assert lines[0] == lines[..8][0] && lines[5] == lines[..8][5];
  }

  /** The last piece of `x + "\n" + y` is `y`. */
  lemma {:induction false} SplitLastPiece(x: string, y: string)
    requires '\n' !in y
    ensures var p := Split(x + "\n" + y, '\n'); |p| >= 2 && p[|p| - 1] == y
    decreases |x|
  {
    if x == [] {
      assert x + "\n" + y == [] + ['\n'] + y;
      SplitPiece([], '\n', y);
      SplitNoSeparator(y, '\n');
    } else {
      assert (x + "\n" + y)[1..] == x[1..] + "\n" + y;
      SplitLastPiece(x[1..], y);
    }
  }
}
