/** Top-level contract resolution (`_findTopLevelContracts`) and the listing
    that `findTopLevelContracts` shows, in src/features/commands.js. */
module TopLevel {
  import opened Wrappers
  import opened JsText
  import opened JsObject
  import opened ContractModel

  // ----------------------------------------------------------- the search pattern

  /** `workspaceRelativeBaseDirs`: an array, or a single value that is wrapped. */
  datatype BaseDirs = DirList(dirs: seq<Option<string>>) | SingleDir(dir: Option<string>)

  function DirArray(dirs: BaseDirs): seq<Option<string>> {
    match dirs
    case DirList(ds) => ds
    case SingleDir(d) => [d]
  }

  /** The glob of one base directory; `undefined` stands for the whole workspace. */
  function DirGlob(d: Option<string>, sep: string): string {
    match d
    case None => "**/*.sol"
    case Some(p) => p + sep + "**/*.sol"
  }

  /** The `searchFileString` handed to `findFiles`. */
  function SearchFileString(dirs: BaseDirs, sep: string): string {
    var ds := DirArray(dirs);
    "{" + Join(seq(|ds|, i requires 0 <= i < |ds| => DirGlob(ds[i], sep)), ",") + "}"
  }

  /** The search pattern is a brace alternation whose alternatives are the
      directories' globs, one per directory and in order (when neither the
      directories nor the path separator hold a comma). */
  lemma SearchFileStringAlternatives(dirs: BaseDirs, sep: string)
    requires ',' !in sep
    requires forall d :: d in DirArray(dirs) && d.Some? ==> ',' !in d.value
    ensures var r := SearchFileString(dirs, sep);
      && |r| >= 2 && r[0] == '{' && r[|r| - 1] == '}'
      && var alts := Split(r[1..|r| - 1], ',');
      && (|DirArray(dirs)| == 0 ==> alts == [""])
      && (|DirArray(dirs)| > 0 ==>
            && |alts| == |DirArray(dirs)|
            && forall i :: 0 <= i < |alts| ==> alts[i] == DirGlob(DirArray(dirs)[i], sep))
  {
    var ds := DirArray(dirs);
    var globs := seq(|ds|, i requires 0 <= i < |ds| => DirGlob(ds[i], sep));
    var r := SearchFileString(dirs, sep);
    assert r[1..|r| - 1] == Join(globs, ",");
    if |ds| > 0 {
      forall k | 0 <= k < |globs| ensures ',' !in globs[k] {
        assert ds[k] in ds;
        assert ',' !in "**/*.sol";
      }
      SplitJoin(globs, ',');
    }
  }

  // ----------------------------------------------------------- collection

  /** One file `findFiles` returned, with what `g_workspace.add` made of it:
      `None` when the analysis failed, so that the file contributes nothing. */
  datatype Discovered = Discovered(file: string, unit: Option<SourceUnit>)

  /** One step of the collection loop: `dependencies[name] = deps`, and
      `contractToFile[name] = file` when a file is present. */
  datatype Entry = Entry(name: string, deps: seq<string>, file: Option<string>)

  /** The steps for one source unit: every contract that is not an
      interface, in the order of its `contracts` object. */
  function UnitEntries(file: string, contracts: Object<string, Contract>): seq<Entry>
    decreases |contracts|
  {
    if contracts == [] then []
    else
      var last := contracts[|contracts| - 1];
      UnitEntries(file, contracts[..|contracts| - 1])
        + (if last.1.kind == INTERFACE then [] else [Entry(last.0, last.1.dependencies, Some(file))])
  }

  function DiscoveredEntries(d: Discovered): seq<Entry> {
    match d.unit
    case None => []
    case Some(u) => UnitEntries(d.file, u.contracts)
  }

  /** The steps of the file-scanning branch, file by file in discovery order. */
  function ScanEntries(ds: seq<Discovered>): seq<Entry>
    decreases |ds|
  {
    if ds == [] then [] else ScanEntries(ds[..|ds| - 1]) + DiscoveredEntries(ds[|ds| - 1])
  }

  /** The steps of the loaded-workspace branch: neither interfaces nor
      libraries, and no file. */
  function LoadedEntries(cs: seq<Contract>): seq<Entry>
    decreases |cs|
  {
    if cs == [] then []
    else
      var c := cs[|cs| - 1];
      LoadedEntries(cs[..|cs| - 1])
        + (if c.kind == INTERFACE || c.kind == LIBRARY then [] else [Entry(c.name, c.dependencies, None)])
  }

  function Entries(scanfiles: bool, discovered: seq<Discovered>, loaded: seq<Contract>): seq<Entry> {
    if scanfiles then LoadedEntries(loaded) else ScanEntries(discovered)
  }

  function Names(es: seq<Entry>): (ns: seq<string>)
    ensures |ns| == |es| && forall i :: 0 <= i < |es| ==> ns[i] == es[i].name
  {
    seq(|es|, i requires 0 <= i < |es| => es[i].name)
  }

  /** The assignments to `dependencies`. */
  function DepWrites(es: seq<Entry>): (w: seq<(string, seq<string>)>)
    ensures |w| == |es| && forall i :: 0 <= i < |es| ==> w[i] == (es[i].name, es[i].deps)
  {
    seq(|es|, i requires 0 <= i < |es| => (es[i].name, es[i].deps))
  }

  /** The assignments to `contractToFile`. */
  function FileWrites(es: seq<Entry>): seq<(string, string)>
    decreases |es|
  {
    if es == [] then []
    else
      var e := es[|es| - 1];
      FileWrites(es[..|es| - 1]) + (if e.file.Some? then [(e.name, e.file.value)] else [])
  }

  lemma WritesSnoc(es: seq<Entry>, e: Entry)
    ensures DepWrites(es + [e]) == DepWrites(es) + [(e.name, e.deps)]
    ensures FileWrites(es + [e]) == FileWrites(es) + (if e.file.Some? then [(e.name, e.file.value)] else [])
  {
    assert (es + [e])[..|es|] == es;
  }

  /** One collection step assigns the entry's dependencies, and its file when it has one. */
  lemma CollectStep(es: seq<Entry>, e: Entry)
    ensures PutAll([], DepWrites(es + [e])) == Put(PutAll([], DepWrites(es)), e.name, e.deps)
    ensures PutAll([], FileWrites(es + [e]))
      == if e.file.Some? then Put(PutAll([], FileWrites(es)), e.name, e.file.value) else PutAll([], FileWrites(es))
  {
    WritesSnoc(es, e);
    PutAllSnoc([], DepWrites(es), (e.name, e.deps));
    if e.file.Some? {
      PutAllSnoc([], FileWrites(es), (e.name, e.file.value));
    } else {
      assert FileWrites(es + [e]) == FileWrites(es);
    }
  }

  /** `e` is one of the steps, and no later step assigns `name`. */
  ghost predicate EnteredLast(es: seq<Entry>, name: string, e: Entry) {
    exists i :: 0 <= i < |es| && es[i] == e && forall j :: i < j < |es| ==> es[j].name != name
  }

  /** The last step that assigned `name`, if any. */
  function LastEntry(es: seq<Entry>, name: string): (r: Option<Entry>)
    ensures r.Some? <==> name in Names(es)
    ensures r.Some? ==> r.value in es && r.value.name == name
    ensures r.Some? ==> EnteredLast(es, name, r.value)
    decreases |es|
  {
    if es == [] then None
    else
      var init := es[..|es| - 1];
      assert Names(es) == Names(init) + [es[|es| - 1].name];
      if es[|es| - 1].name == name then Some(es[|es| - 1])
      else
        var r := LastEntry(init, name);
        assert r.Some? ==> EnteredLast(es, name, r.value) by {
          if r.Some? {
            var i :| 0 <= i < |init| && init[i] == r.value && forall j :: i < j < |init| ==> init[j].name != name;
            assert es[i] == init[i];
            assert forall j :: i < j < |es| ==> es[j].name != name by {
              forall j | i < j < |es| ensures es[j].name != name {
                if j < |init| { assert es[j] == init[j]; }
              }
            }
          }
        }
        r
  }

  // ----------------------------------------------------------- resolution

  /** The names of `names` that occur in no dependency list, in order
      (the `filter` with `depnames.indexOf(i) === -1`). */
  function NotDependedOn(names: seq<string>, depnames: seq<string>): (r: seq<string>)
    ensures forall n :: n in r <==> n in names && n !in depnames
    ensures Distinct(names) ==> Distinct(r)
    decreases |names|
  {
    if names == [] then []
    else
      var init, last := names[..|names| - 1], names[|names| - 1];
      assert names == init + [last];
      NotDependedOn(init, depnames) + (if SeqIndexOf(depnames, last) == -1 then [last] else [])
  }

  /** Lines 692-702: the collected names that occur in no collected dependency
      list, in the order of `dependencies`, each mapped to its file, or to
      `undefined` when `contractToFile` has none. */
  function Resolve(dependencies: Object<string, seq<string>>, contractToFile: Object<string, string>)
    : (r: Object<string, Option<string>>)
    requires Distinct(Keys(dependencies))
    ensures Keys(r) == NotDependedOn(Keys(dependencies), Flatten(Values(dependencies)))
    ensures forall n :: n in Keys(r) ==> Get(r, n) == Some(Get(contractToFile, n))
  {
    var top := NotDependedOn(Keys(dependencies), Flatten(Values(dependencies)));
    TopWritesResolve(top, contractToFile);
    PutAll([], TopWrites(top, contractToFile))
  }

  /** Each name of `top` with its file, in order. */
  function TopWrites(top: seq<string>, contractToFile: Object<string, string>): (w: seq<(string, Option<string>)>)
    ensures Keys(w) == top
    ensures forall i :: 0 <= i < |w| ==> w[i] == (top[i], Get(contractToFile, top[i]))
  {
    seq(|top|, i requires 0 <= i < |top| => (top[i], Get(contractToFile, top[i])))
  }

  lemma TopWritesResolve(top: seq<string>, contractToFile: Object<string, string>)
    requires Distinct(top)
    ensures var r := PutAll([], TopWrites(top, contractToFile));
      && Keys(r) == top
      && forall n :: n in top ==> Get(r, n) == Some(Get(contractToFile, n))
  {
    var writes := TopWrites(top, contractToFile);
    PutAllKeys(writes);
    DedupOfDistinct(top);
    forall n | n in top
      ensures Get(PutAll([], writes), n) == Some(Get(contractToFile, n))
    {
      PutAllGet(writes, n);
      var v := LastWrite(writes, n);
      assert (n, v.value) in writes;
    }
  }

  /** The result of `_findTopLevelContracts` after the collection steps `es`. */
  function TopLevelOf(es: seq<Entry>): Object<string, Option<string>> {
    PutAllKeys(DepWrites(es));
    Resolve(PutAll([], DepWrites(es)), PutAll([], FileWrites(es)))
  }

  lemma AppendAssoc<T>(a: seq<T>, b: seq<T>, c: seq<T>)
    ensures a + (b + c) == (a + b) + c
  {}

  lemma UnitEntriesStep(file: string, cs: Object<string, Contract>, j: int)
    requires 0 <= j < |cs|
    ensures UnitEntries(file, cs[..j + 1]) == UnitEntries(file, cs[..j])
      + (if cs[j].1.kind == INTERFACE then [] else [Entry(cs[j].0, cs[j].1.dependencies, Some(file))])
  {
    assert cs[..j + 1][..j] == cs[..j];
  }

  lemma ScanEntriesStep(ds: seq<Discovered>, f: int)
    requires 0 <= f < |ds|
    ensures ScanEntries(ds[..f + 1]) == ScanEntries(ds[..f]) + DiscoveredEntries(ds[f])
  {
    assert ds[..f + 1][..f] == ds[..f];
  }

  lemma LoadedEntriesStep(cs: seq<Contract>, j: int)
    requires 0 <= j < |cs|
    ensures LoadedEntries(cs[..j + 1]) == LoadedEntries(cs[..j])
      + (if cs[j].kind == INTERFACE || cs[j].kind == LIBRARY then [] else [Entry(cs[j].name, cs[j].dependencies, None)])
  {
    assert cs[..j + 1][..j] == cs[..j];
  }

  /** One pass of the inner loop of lines 667-677 over an interface: nothing is collected. */
  lemma CollectUnitSkip(file: string, contracts: Object<string, Contract>, j: int, es0: seq<Entry>)
    requires 0 <= j < |contracts| && contracts[j].1.kind == INTERFACE
    ensures es0 + UnitEntries(file, contracts[..j + 1]) == es0 + UnitEntries(file, contracts[..j])
  {
    UnitEntriesStep(file, contracts, j);
    assert UnitEntries(file, contracts[..j]) + [] == UnitEntries(file, contracts[..j]);
  }

  /** One pass of the inner loop of lines 667-677 over a contract that is not an interface. */
  lemma CollectUnitTake(file: string, contracts: Object<string, Contract>, j: int, es0: seq<Entry>)
    requires 0 <= j < |contracts| && contracts[j].1.kind != INTERFACE
    ensures var es, c := es0 + UnitEntries(file, contracts[..j]), contracts[j];
      var es' := es0 + UnitEntries(file, contracts[..j + 1]);
      && PutAll([], DepWrites(es')) == Put(PutAll([], DepWrites(es)), c.0, c.1.dependencies)
      && PutAll([], FileWrites(es')) == Put(PutAll([], FileWrites(es)), c.0, file)
  {
    var es, c := es0 + UnitEntries(file, contracts[..j]), contracts[j];
    UnitEntriesStep(file, contracts, j);
    var e := Entry(c.0, c.1.dependencies, Some(file));
    AppendAssoc(es0, UnitEntries(file, contracts[..j]), [e]);
    CollectStep(es, e);
  }

  /** The maps hold what the collection steps `es` wrote. */
  ghost predicate Collected(dependencies: Object<string, seq<string>>, contractToFile: Object<string, string>, es: seq<Entry>) {
    dependencies == PutAll([], DepWrites(es)) && contractToFile == PutAll([], FileWrites(es))
  }

  /** The inner loop of lines 667-677: the contracts of one analysed file, in order. */
  method CollectUnit(file: string, contracts: Object<string, Contract>,
                     dependencies0: Object<string, seq<string>>, contractToFile0: Object<string, string>,
                     ghost es0: seq<Entry>)
    returns (dependencies: Object<string, seq<string>>, contractToFile: Object<string, string>)
    requires dependencies0 == PutAll([], DepWrites(es0))
    requires contractToFile0 == PutAll([], FileWrites(es0))
    ensures dependencies == PutAll([], DepWrites(es0 + UnitEntries(file, contracts)))
    ensures contractToFile == PutAll([], FileWrites(es0 + UnitEntries(file, contracts)))
  {
    dependencies, contractToFile := dependencies0, contractToFile0;
    assert es0 + UnitEntries(file, contracts[..0]) == es0;
    for j := 0 to |contracts|
      invariant Collected(dependencies, contractToFile, es0 + UnitEntries(file, contracts[..j]))
    {
      var name, c := contracts[j].0, contracts[j].1;
      if c.kind != INTERFACE {
        CollectUnitTake(file, contracts, j, es0);
        dependencies := Put(dependencies, name, c.dependencies);
        contractToFile := Put(contractToFile, name, file);
      } else {
        CollectUnitSkip(file, contracts, j, es0);
      }
    }
    assert contracts[..|contracts|] == contracts;
  }

  /** Lines 657-680: the collection loop over the discovered files, filling
      `dependencies` and `contractToFile` from every contract that is not an interface. */
  method CollectScanned(discovered: seq<Discovered>)
    returns (dependencies: Object<string, seq<string>>, contractToFile: Object<string, string>)
    ensures dependencies == PutAll([], DepWrites(ScanEntries(discovered)))
    ensures contractToFile == PutAll([], FileWrites(ScanEntries(discovered)))
  {
    dependencies, contractToFile := [], [];
    var f := 0;
    while f < |discovered|
      invariant 0 <= f <= |discovered|
      invariant dependencies == PutAll([], DepWrites(ScanEntries(discovered[..f])))
      invariant contractToFile == PutAll([], FileWrites(ScanEntries(discovered[..f])))
    {
      var d := discovered[f];
      ScanEntriesStep(discovered, f);
      match d.unit {
        case None =>
          assert ScanEntries(discovered[..f + 1]) == ScanEntries(discovered[..f]);
        case Some(unit) =>
          dependencies, contractToFile :=
            CollectUnit(d.file, unit.contracts, dependencies, contractToFile, ScanEntries(discovered[..f]));
      }
      f := f + 1;
    }
    assert discovered[..f] == discovered;
  }

  /** Lines 684-689: the collection loop over the loaded workspace, filling
      only `dependencies`, from every contract that is neither an interface nor a library. */
  method CollectLoaded(loaded: seq<Contract>)
    returns (dependencies: Object<string, seq<string>>, contractToFile: Object<string, string>)
    ensures dependencies == PutAll([], DepWrites(LoadedEntries(loaded)))
    ensures contractToFile == PutAll([], FileWrites(LoadedEntries(loaded)))
  {
    dependencies, contractToFile := [], [];
    ghost var es: seq<Entry> := [];
    var j := 0;
    while j < |loaded|
      invariant 0 <= j <= |loaded|
      invariant es == LoadedEntries(loaded[..j])
      invariant dependencies == PutAll([], DepWrites(es))
      invariant FileWrites(es) == []
    {
      var c := loaded[j];
      LoadedEntriesStep(loaded, j);
      if c.kind != INTERFACE && c.kind != LIBRARY {
        var e := Entry(c.name, c.dependencies, None);
        CollectStep(es, e);
        WritesSnoc(es, e);
        dependencies := Put(dependencies, c.name, c.dependencies);
        es := es + [e];
      }
      j := j + 1;
    }
    assert loaded[..j] == loaded;
  }

  /** `_findTopLevelContracts(files, scanfiles)`. `discovered` is what the
      search for `SearchFileString(...)` found, each file with its analysis;
      `loaded` is `g_workspace.getAllContracts()`. */
  method FindTopLevelContracts(scanfiles: bool, discovered: seq<Discovered>, loaded: seq<Contract>)
    returns (ret: Object<string, Option<string>>)
    ensures ret == TopLevelOf(Entries(scanfiles, discovered, loaded))
  {
    var dependencies, contractToFile;
    if !scanfiles {
      dependencies, contractToFile := CollectScanned(discovered);
    } else {
      dependencies, contractToFile := CollectLoaded(loaded);
    }
    PutAllKeys(DepWrites(Entries(scanfiles, discovered, loaded)));
    ret := Resolve(dependencies, contractToFile);
  }

  // ----------------------------------------------------------- properties

  lemma {:induction false} LastWriteOfDeps(es: seq<Entry>, k: string)
    ensures LastWrite(DepWrites(es), k) == if LastEntry(es, k).Some? then Some(LastEntry(es, k).value.deps) else None
    decreases |es|
  {
    if es != [] {
      assert DepWrites(es)[..|es| - 1] == DepWrites(es[..|es| - 1]);
      LastWriteOfDeps(es[..|es| - 1], k);
    }
  }

  /** The names `_findTopLevelContracts` returns are exactly the collected names
      that occur in no collected dependency list, where a name collected twice
      keeps the list of its last collection. In particular a contract that lists
      itself is never top-level. */
  lemma {:induction false} TopLevelMembership(es: seq<Entry>, n: string)
    ensures n in Keys(TopLevelOf(es)) <==>
      && LastEntry(es, n).Some?
      && forall k :: LastEntry(es, k).Some? ==> n !in LastEntry(es, k).value.deps
  {
    var w := DepWrites(es);
    var deps := PutAll([], w);
    PutAllKeys(w);
    assert Keys(w) == Names(es);
    var flat := Flatten(Values(deps));
    FlattenMember(Values(deps), n);
    assert n in Keys(TopLevelOf(es)) <==> n in Names(es) && n !in flat;
    if n in flat {
      var i :| 0 <= i < |Values(deps)| && n in Values(deps)[i];
      var k := deps[i].0;
      GetAt(deps, i);
      PutAllGet(w, k);
      LastWriteOfDeps(es, k);
      assert LastEntry(es, k).Some? && n in LastEntry(es, k).value.deps;
    } else {
      forall k | LastEntry(es, k).Some? ensures n !in LastEntry(es, k).value.deps {
        assert k in Keys(deps);
        var i :| 0 <= i < |deps| && Keys(deps)[i] == k;
        GetAt(deps, i);
        PutAllGet(w, k);
        LastWriteOfDeps(es, k);
        assert n !in Values(deps)[i];
      }
    }
  }

  /** A contract whose last collected dependency list names itself is not top-level. */
  lemma SelfDependentIsNotTopLevel(es: seq<Entry>, n: string)
    requires LastEntry(es, n).Some? && n in LastEntry(es, n).value.deps
    ensures n !in Keys(TopLevelOf(es))
  {
    TopLevelMembership(es, n);
  }

  /** The filter keeps the order of the names it is given. */
  lemma {:induction false} NotDependedOnOrder(ks: seq<string>, names: seq<string>, depnames: seq<string>)
    requires InFirstOccurrenceOrder(ks, names)
    ensures InFirstOccurrenceOrder(NotDependedOn(ks, depnames), names)
    decreases |ks|
  {
    if ks != [] {
      var init, last := ks[..|ks| - 1], ks[|ks| - 1];
      assert InFirstOccurrenceOrder(init, names) by {
        forall i, j | 0 <= i < j < |init| ensures SeqIndexOf(names, init[i]) < SeqIndexOf(names, init[j]) {
          assert init[i] == ks[i] && init[j] == ks[j];
        }
      }
      NotDependedOnOrder(init, names, depnames);
      var r0 := NotDependedOn(init, depnames);
      if SeqIndexOf(depnames, last) == -1 {
        forall x | x in r0 ensures SeqIndexOf(names, x) < SeqIndexOf(names, last) {
          var i :| 0 <= i < |init| && init[i] == x;
          assert ks[i] == x;
        }
        OrderSnoc(r0, last, names);
      }
    }
  }

  /** The names come out once each, in the order in which they were first collected. */
  lemma TopLevelOrder(es: seq<Entry>)
    ensures Distinct(Keys(TopLevelOf(es)))
    ensures InFirstOccurrenceOrder(Keys(TopLevelOf(es)), Names(es))
  {
    var w := DepWrites(es);
    PutAllKeys(w);
    assert Keys(w) == Names(es);
    DedupOrder(Names(es));
    NotDependedOnOrder(Dedup(Names(es)), Names(es), Flatten(Values(PutAll([], w))));
  }

  // ----------------------------------------------------------- which contracts are collected

  /** The discovered file declares `n` as a contract that is not an interface. */
  predicate DeclaresNonInterface(d: Discovered, n: string) {
    d.unit.Some? &&
    exists j :: 0 <= j < |d.unit.value.contracts| &&
      d.unit.value.contracts[j].0 == n && d.unit.value.contracts[j].1.kind != INTERFACE
  }

  lemma NamesAppend(a: seq<Entry>, b: seq<Entry>)
    ensures Names(a + b) == Names(a) + Names(b)
  {}

  lemma {:induction false} UnitNames(file: string, cs: Object<string, Contract>, n: string)
    ensures n in Names(UnitEntries(file, cs)) <==>
      exists j :: 0 <= j < |cs| && cs[j].0 == n && cs[j].1.kind != INTERFACE
    ensures forall e :: e in UnitEntries(file, cs) ==> e.file == Some(file)
    decreases |cs|
  {
    if cs != [] {
      var init, last := cs[..|cs| - 1], cs[|cs| - 1];
      UnitNames(file, init, n);
      var a := UnitEntries(file, init);
      var b := if last.1.kind == INTERFACE then [] else [Entry(last.0, last.1.dependencies, Some(file))];
      assert UnitEntries(file, cs) == a + b;
      NamesAppend(a, b);
      if exists j :: 0 <= j < |cs| && cs[j].0 == n && cs[j].1.kind != INTERFACE {
        var j :| 0 <= j < |cs| && cs[j].0 == n && cs[j].1.kind != INTERFACE;
        if j < |init| {
          assert init[j] == cs[j];
        } else {
          assert Names(b) == [n];
        }
      }
      if n in Names(a) {
        var j :| 0 <= j < |init| && init[j].0 == n && init[j].1.kind != INTERFACE;
        assert cs[j] == init[j];
      }
    }
  }

  /** In the file-scanning branch a name is collected iff some discovered,
      analysed file declares it as a contract that is not an interface. */
  lemma {:induction false} ScanNames(ds: seq<Discovered>, n: string)
    ensures n in Names(ScanEntries(ds)) <==> exists i :: 0 <= i < |ds| && DeclaresNonInterface(ds[i], n)
    ensures forall e :: e in ScanEntries(ds) ==> e.file.Some?
    decreases |ds|
  {
    if ds != [] {
      var init, last := ds[..|ds| - 1], ds[|ds| - 1];
      ScanNames(init, n);
      var a, b := ScanEntries(init), DiscoveredEntries(last);
      NamesAppend(a, b);
      if last.unit.Some? {
        UnitNames(last.file, last.unit.value.contracts, n);
      }
      assert n in Names(b) <==> DeclaresNonInterface(last, n);
      if exists i :: 0 <= i < |ds| && DeclaresNonInterface(ds[i], n) {
        var i :| 0 <= i < |ds| && DeclaresNonInterface(ds[i], n);
        if i < |init| {
          assert DeclaresNonInterface(init[i], n);
        }
      }
      if exists i :: 0 <= i < |init| && DeclaresNonInterface(init[i], n) {
        var i :| 0 <= i < |init| && DeclaresNonInterface(init[i], n);
        assert ds[i] == init[i];
      }
    }
  }

  /** In the loaded-workspace branch a name is collected iff a loaded contract
      of that name is neither an interface nor a library. */
  lemma {:induction false} LoadedNames(cs: seq<Contract>, n: string)
    ensures n in Names(LoadedEntries(cs)) <==>
      exists c :: c in cs && c.name == n && c.kind != INTERFACE && c.kind != LIBRARY
    decreases |cs|
  {
    if cs != [] {
      var init, c := cs[..|cs| - 1], cs[|cs| - 1];
      assert cs == init + [c];
      LoadedNames(init, n);
      var a := LoadedEntries(init);
      var b := if c.kind == INTERFACE || c.kind == LIBRARY then [] else [Entry(c.name, c.dependencies, None)];
      assert LoadedEntries(cs) == a + b;
      NamesAppend(a, b);
      assert n in Names(b) <==> c.name == n && c.kind != INTERFACE && c.kind != LIBRARY;
      if exists c' :: c' in cs && c'.name == n && c'.kind != INTERFACE && c'.kind != LIBRARY {
        var c' :| c' in cs && c'.name == n && c'.kind != INTERFACE && c'.kind != LIBRARY;
        if c' != c {
          assert c' in init;
        }
      }
      if exists c' :: c' in init && c'.name == n && c'.kind != INTERFACE && c'.kind != LIBRARY {
        var c' :| c' in init && c'.name == n && c'.kind != INTERFACE && c'.kind != LIBRARY;
        assert c' in cs;
      }
    }
  }

  /** The loaded contracts carry no file. */
  lemma {:induction false} LoadedNoFiles(cs: seq<Contract>)
    ensures FileWrites(LoadedEntries(cs)) == []
    decreases |cs|
  {
    if cs != [] {
      var init, c := cs[..|cs| - 1], cs[|cs| - 1];
      LoadedNoFiles(init);
      var a := LoadedEntries(init);
      var b := if c.kind == INTERFACE || c.kind == LIBRARY then [] else [Entry(c.name, c.dependencies, None)];
      assert LoadedEntries(cs) == a + b;
      if b != [] {
        WritesSnoc(a, b[0]);
      } else {
        assert a + b == a;
      }
    }
  }

  /** The loaded-workspace branch never fills `contractToFile`, so every name
      it returns maps to `undefined`. */
  lemma LoadedMapsToUndefined(cs: seq<Contract>, n: string)
    requires n in Keys(TopLevelOf(LoadedEntries(cs)))
    ensures Get(TopLevelOf(LoadedEntries(cs)), n) == Some(None)
  {
    LoadedNoFiles(cs);
  }

  lemma {:induction false} LastFileWrite(es: seq<Entry>, n: string)
    requires forall e :: e in es ==> e.file.Some?
    ensures LastWrite(FileWrites(es), n) == if LastEntry(es, n).Some? then LastEntry(es, n).value.file else None
    decreases |es|
  {
    if es != [] {
      var init := es[..|es| - 1];
      assert forall e :: e in init ==> e in es;
      LastFileWrite(init, n);
      if es[|es| - 1].name != n {
        assert FileWrites(es) == FileWrites(init) + [(es[|es| - 1].name, es[|es| - 1].file.value)];
        assert FileWrites(es)[..|FileWrites(es)| - 1] == FileWrites(init);
      }
    }
  }

  /** In the file-scanning branch every returned name maps to the file of its
      last collection. */
  lemma ScanMapsToLastFile(ds: seq<Discovered>, n: string)
    requires n in Keys(TopLevelOf(ScanEntries(ds)))
    ensures LastEntry(ScanEntries(ds), n).Some?
    ensures Get(TopLevelOf(ScanEntries(ds)), n) == Some(LastEntry(ScanEntries(ds), n).value.file)
    ensures LastEntry(ScanEntries(ds), n).value.file.Some?
  {
    var es := ScanEntries(ds);
    ScanNames(ds, n);
    TopLevelMembership(es, n);
    LastFileWrite(es, n);
    PutAllGet(FileWrites(es), n);
  }

  /** Every returned name is declared by a collected contract: never by an
      interface alone, and in the loaded-workspace branch never by a library alone. */
  lemma TopLevelIsDeclared(scanfiles: bool, ds: seq<Discovered>, cs: seq<Contract>, n: string)
    requires n in Keys(TopLevelOf(Entries(scanfiles, ds, cs)))
    ensures !scanfiles ==> exists i :: 0 <= i < |ds| && DeclaresNonInterface(ds[i], n)
    ensures scanfiles ==> exists c :: c in cs && c.name == n && c.kind != INTERFACE && c.kind != LIBRARY
  {
    TopLevelMembership(Entries(scanfiles, ds, cs), n);
    if scanfiles { LoadedNames(cs, n); } else { ScanNames(ds, n); }
  }

  /** {Base, Derived inheriting Base} has the single top-level contract Derived. */
  lemma BaseDerivedEntries(base: Contract, derived: Contract)
    requires base == Contract("Base", "contract", [], [], [], [])
    requires derived == Contract("Derived", "contract", ["Base"], [], [], [])
    ensures DepWrites(LoadedEntries([base, derived])) == [("Base", []), ("Derived", ["Base"])]
  {
    var cs := [base, derived];
    LoadedEntriesStep(cs, 0);
    LoadedEntriesStep(cs, 1);
    assert cs[..0] == [] && cs[..2] == cs;
  }

  lemma BaseDerivedDependencies(w: seq<(string, seq<string>)>)
    requires w == [("Base", []), ("Derived", ["Base"])]
    ensures PutAll([], w) == w
  {
    var none: seq<string> := [];
    var w1: seq<(string, seq<string>)> := [("Base", none)];
    var empty: Object<string, seq<string>> := [];
    assert w == w1 + [("Derived", ["Base"])];
    PutAllSnoc(empty, w1, ("Derived", ["Base"]));
    assert w1[..0] == [];
    assert PutAll(empty, w1) == [("Base", none)];
  }

  lemma BaseDerivedNotDependedOn(w: seq<(string, seq<string>)>)
    requires w == [("Base", []), ("Derived", ["Base"])]
    ensures NotDependedOn(Keys(w), Flatten(Values(w))) == ["Derived"]
  {
    var vs := Values(w);
    assert vs == [[], ["Base"]];
    var first: seq<seq<string>> := vs[..1];
    assert first[..0] == [];
    assert Flatten(first) == Flatten([]) + vs[0] == [];
    assert Flatten(vs) == Flatten(first) + vs[1];
    var kd := Keys(w);
    assert kd == ["Base", "Derived"];
    assert kd[..1] == ["Base"] && kd[..1][..0] == [];
  }

  lemma BaseDerivedExample()
    ensures var base := Contract("Base", "contract", [], [], [], []);
      var derived := Contract("Derived", "contract", ["Base"], [], [], []);
      Keys(TopLevelOf(LoadedEntries([base, derived]))) == ["Derived"]
  {
    var base := Contract("Base", "contract", [], [], [], []);
    var derived := Contract("Derived", "contract", ["Base"], [], [], []);
    BaseDerivedEntries(base, derived);
    var w := DepWrites(LoadedEntries([base, derived]));
    BaseDerivedDependencies(w);
    BaseDerivedNotDependedOn(w);
  }

  // ----------------------------------------------------------- the listing

  const TOP_LEVEL_TITLE: string := "Top Level Contracts"
  const TOP_LEVEL_UNDERLINE: string := "==================="
  const TOP_LEVEL_HEAD: string := "" + "\n" + TOP_LEVEL_TITLE + "\n" + TOP_LEVEL_UNDERLINE + "\n" + "" + "\n"

  /** The text `findTopLevelContracts` shows. */
  function TopLevelText(topLevelContracts: Object<string, Option<string>>): string {
    TOP_LEVEL_HEAD + Join(Keys(topLevelContracts), "\n")
  }

  /** The listing is a blank line, a title, an underline and a blank line, then
      one line per top-level contract in order (an empty line when there is none). */
  lemma TopLevelTextLines(topLevelContracts: Object<string, Option<string>>)
    requires forall n :: n in Keys(topLevelContracts) ==> '\n' !in n
    ensures var ks := Keys(topLevelContracts);
      Split(TopLevelText(topLevelContracts), '\n')
        == ["", TOP_LEVEL_TITLE, TOP_LEVEL_UNDERLINE, ""] + (if ks == [] then [""] else ks)
  {
    var ks := Keys(topLevelContracts);
    var head := ["", TOP_LEVEL_TITLE, TOP_LEVEL_UNDERLINE, ""];
    TerminatedFour("", TOP_LEVEL_TITLE, TOP_LEVEL_UNDERLINE, "");
    assert forall k :: 0 <= k < |head| ==> '\n' !in head[k];
    SplitTerminated(head, Join(ks, "\n"));
    if ks != [] {
      forall k | 0 <= k < |ks| ensures '\n' !in ks[k] {
        assert ks[k] in ks;
      }
      SplitJoin(ks, '\n');
    }
  }
}
