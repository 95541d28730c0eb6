/** The contract descriptors that the workspace indexer supplies for each
    analysed source unit. Only the attributes the core reads are kept. */
module ContractModel {
  import opened Wrappers
  import opened JsObject

  /** A type subtree of the syntax tree: its `name` attribute (the elementary
      type name, or "" when the node has none, as for a mapping or a
      user-defined type) and the rest of the subtree, which only the external
      `getVariableDeclarationType` inspects. */
  datatype TypeNode = TypeNode(name: string, rest: string)

  /** A state variable declaration. */
  datatype StateVar = StateVar(name: string, visibility: string, isDeclaredConst: bool, typeName: TypeNode)

  /** A function argument; an unnamed argument has a `null` name. */
  datatype Param = Param(name: Option<string>, typeName: TypeNode)

  /** A function. The constructor has a `null` name and the fallback function
      an empty one; `stateMutability` is `null` for a non-payable function. */
  datatype FunctionDef = FunctionDef(
    name: Option<string>,
    visibility: string,
    stateMutability: Option<string>,
    arguments: seq<Param>)

  /** A `using <libraryName> for <type>` declaration. */
  datatype UsingFor = UsingFor(libraryName: string, typeName: TypeNode)

  /** A contract object: its name, the `kind` of its syntax node ("contract",
      "interface", "library", ...), the names it inherits from or uses, its state
      variables, functions and using-for declarations, each list in the order
      `Object.values` enumerates it. */
  datatype Contract = Contract(
    name: string,
    kind: string,
    dependencies: seq<string>,
    stateVars: seq<StateVar>,
    functions: seq<FunctionDef>,
    usingFor: seq<UsingFor>)

  /** An analysed source unit: its `contracts` object, keyed by contract name. */
  datatype SourceUnit = SourceUnit(contracts: Object<string, Contract>)

  const INTERFACE: string := "interface"
  const LIBRARY: string := "library"
}
