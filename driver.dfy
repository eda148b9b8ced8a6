/**
 * The command drivers gen/main.go and main/main.go: ParseFiles, which fills a
 * library from parsed files and reports unresolved types; CreateClientForType,
 * which runs the client pass, the operations pass and the writer/reader waves;
 * and EmitFileHeader, which writes a Go file's package clause and imports.
 *
 * The two drivers differ only in main/main.go's table of existing writers and
 * its extra "errors" import for the readers file (`Variant`). File creation and
 * template rendering are not modelled: what a rendered template marks is a
 * parameter, and each output file is represented by its header.
 */
module Driver {
  import opened Wrappers
  import opened Types
  import opened TypeLib
  import Utils
  import Closure
  import Generator

  // ---------------------------------------------------------------------------
  // EmitFileHeader
  // ---------------------------------------------------------------------------

  /** The import line for one extra package, "path" or "alias path", and the path it marks as visited. */
  datatype ExtraEntry = ExtraEntry(line: string, pkg: string)

  function ExtraImport(spec: string): ExtraEntry
  {
    var parts := Split(spec, ' ');
    if |parts| == 1 then ExtraEntry("\t\"" + parts[0] + "\"\n", parts[0])
    else ExtraEntry("\t" + parts[0] + " \"" + parts[1] + "\"\n", parts[1])
  }

  function ExtraLines(extras: seq<string>): string
  {
    if extras == [] then ""
    else ExtraLines(extras[..|extras| - 1]) + ExtraImport(extras[|extras| - 1]).line
  }

  function ExtraVisited(extras: seq<string>): set<string>
  {
    set i | 0 <= i < |extras| :: ExtraImport(extras[i]).pkg
  }

  /** The packages of the leaf types of `types`, in order; LeafType is the parameter `leafPkg` (None for nil). */
  function LeafPackages(types: seq<Type>, leafPkg: Type -> Option<string>): (ps: seq<string>)
    ensures forall p :: p in ps <==> exists i :: 0 <= i < |types| && leafPkg(types[i]) == Some(p)
  {
    if types == [] then []
    else
      var front := LeafPackages(types[..|types| - 1], leafPkg);
      var leaf := leafPkg(types[|types| - 1]);
      assert forall i :: 0 <= i < |types| - 1 ==> types[..|types| - 1][i] == types[i];
      front + (if leaf.Some? then [leaf.value] else [])
  }

  /**
   * The packages the types loop writes, in order: each non-empty package that
   * neither an extra import nor an earlier type has visited, written once.
   */
  function NewPackages(visited: set<string>, ps: seq<string>): (w: seq<string>)
    ensures Distinct(w)
    ensures forall p :: p in w <==> p in ps && p != "" && p !in visited
  {
    if ps == [] then []
    else
      var w := NewPackages(visited, ps[..|ps| - 1]);
      var p := ps[|ps| - 1];
      assert forall q :: q in ps <==> q in ps[..|ps| - 1] || q == p;
      if p != "" && p !in visited && p !in w then w + [p] else w
  }

  function ImportLine(shortName: string -> string, pkg: string): string
  {
    "\t" + shortName(pkg) + " \"" + pkg + "\"\n"
  }

  function ImportLines(shortName: string -> string, pkgs: seq<string>): string
  {
    if pkgs == [] then "" else ImportLines(shortName, pkgs[..|pkgs| - 1]) + ImportLine(shortName, pkgs[|pkgs| - 1])
  }

  function HeaderStart(packageName: string): string
  {
    "package " + packageName + "\n\n" + "import (\n"
  }

  /** The text EmitFileHeader writes. */
  function HeaderText(packageName: string, types: seq<Type>, leafPkg: Type -> Option<string>,
                      shortName: string -> string, extras: seq<string>): string
  {
    HeaderStart(packageName) + ExtraLines(extras)
    + ImportLines(shortName, NewPackages(ExtraVisited(extras), LeafPackages(types, leafPkg)))
    + ")\n"
  }

  /**
   * The header opens with the package clause and "import (", has one line per
   * extra package, then one line per new type package, and closes with ")".
   */
  lemma HeaderShape(packageName: string, types: seq<Type>, leafPkg: Type -> Option<string>,
                    shortName: string -> string, extras: seq<string>)
    ensures var h := HeaderText(packageName, types, leafPkg, shortName, extras);
            var start := "package " + packageName + "\n\nimport (\n";
            && |start| + 2 <= |h|
            && h[..|start|] == start
            && h[|h| - 2..] == ")\n"
  {
    var start := "package " + packageName + "\n\nimport (\n";
    assert HeaderStart(packageName) == start;
    var mid := ExtraLines(extras) + ImportLines(shortName, NewPackages(ExtraVisited(extras), LeafPackages(types, leafPkg)));
    var h := HeaderText(packageName, types, leafPkg, shortName, extras);
    assert h == start + mid + ")\n";
    assert h[..|start|] == start;
  }

  lemma ExtraVisitedStep(extras: seq<string>, i: nat)
    requires i < |extras|
    ensures ExtraVisited(extras[..i + 1]) == ExtraVisited(extras[..i]) + {ExtraImport(extras[i]).pkg}
  {
    var e := extras[..i + 1];
    forall p | p in ExtraVisited(e) ensures p in ExtraVisited(extras[..i]) + {ExtraImport(extras[i]).pkg} {
      var j :| 0 <= j < |e| && p == ExtraImport(e[j]).pkg;
      if j < i { assert e[j] == extras[..i][j]; }
    }
    forall p | p in ExtraVisited(extras[..i]) ensures p in ExtraVisited(e) {
      var j :| 0 <= j < i && p == ExtraImport(extras[..i][j]).pkg;
      assert e[j] == extras[..i][j];
    }
    assert e[i] == extras[i];
  }

  /** The extra packages loop: one line each, and the visited set it leaves. */
  method WriteExtraImports(extras: seq<string>) returns (text: string, pkgVisited: set<string>)
    ensures text == ExtraLines(extras) && pkgVisited == ExtraVisited(extras)
  {
    text, pkgVisited := "", {};
    for i := 0 to |extras|
      invariant text == ExtraLines(extras[..i])
      invariant pkgVisited == ExtraVisited(extras[..i])
    {
      assert extras[..i + 1][..i] == extras[..i];
      ExtraVisitedStep(extras, i);
      var parts := Split(extras[i], ' ');
      if |parts| == 1 {
        pkgVisited := pkgVisited + {parts[0]};
        text := text + "\t\"" + parts[0] + "\"\n";
      } else {
        pkgVisited := pkgVisited + {parts[1]};
        text := text + "\t" + parts[0] + " \"" + parts[1] + "\"\n";
      }
    }
    assert extras[..|extras|] == extras;
  }

  lemma TypeImportStep(visited: set<string>, types: seq<Type>, leafPkg: Type -> Option<string>, i: nat)
    requires i < |types|
    ensures var w := NewPackages(visited, LeafPackages(types[..i], leafPkg));
            var leaf := leafPkg(types[i]);
            NewPackages(visited, LeafPackages(types[..i + 1], leafPkg))
              == if leaf.Some? && leaf.value != "" && leaf.value !in visited && leaf.value !in w then w + [leaf.value] else w
  {
    var ps := LeafPackages(types[..i], leafPkg);
    assert types[..i + 1][..i] == types[..i];
    var leaf := leafPkg(types[i]);
    if leaf.Some? {
      assert LeafPackages(types[..i + 1], leafPkg) == ps + [leaf.value];
      assert (ps + [leaf.value])[..|ps|] == ps;
    } else {
      assert LeafPackages(types[..i + 1], leafPkg) == ps;
    }
  }

  lemma ImportLinesAppend(shortName: string -> string, w: seq<string>, p: string)
    ensures ImportLines(shortName, w + [p]) == ImportLines(shortName, w) + ImportLine(shortName, p)
  {
    assert (w + [p])[..|w|] == w;
  }

  /** The types loop: one line per new package of a leaf type. */
  method WriteTypeImports(types: seq<Type>, leafPkg: Type -> Option<string>, shortName: string -> string,
                          visited0: set<string>)
    returns (text: string)
    ensures text == ImportLines(shortName, NewPackages(visited0, LeafPackages(types, leafPkg)))
  {
    text := "";
    var pkgVisited := visited0;
    ghost var written: seq<string> := [];
    for i := 0 to |types|
      invariant written == NewPackages(visited0, LeafPackages(types[..i], leafPkg))
      invariant forall p :: p in pkgVisited <==> p in visited0 || p in written
      invariant text == ImportLines(shortName, written)
    {
      TypeImportStep(visited0, types, leafPkg, i);
      var leaf := leafPkg(types[i]);
      if leaf.Some? {
        var pkg := leaf.value;
        if pkg != "" && pkg !in pkgVisited {
          pkgVisited := pkgVisited + {pkg};
          ImportLinesAppend(shortName, written, pkg);
          text := text + ImportLine(shortName, pkg);
          written := written + [pkg];
        }
      }
    }
    assert types[..|types|] == types;
  }

  /** EmitFileHeader: writes the header to `out` and reports no error. */
  method EmitFileHeader(packageName: string, types: seq<Type>, leafPkg: Type -> Option<string>,
                        shortName: string -> string, extras: seq<string>)
    returns (out: string, err: Option<string>)
    ensures out == HeaderText(packageName, types, leafPkg, shortName, extras)
    ensures err == None
  {
    out := "package " + packageName + "\n\n";
    out := out + "import (\n";
    var extraText, pkgVisited := WriteExtraImports(extras);
    out := out + extraText;
    var typeText := WriteTypeImports(types, leafPkg, shortName, pkgVisited);
    out := out + typeText;
    out := out + ")\n";
    err := None;
  }

  // ---------------------------------------------------------------------------
  // CreateClientForType
  // ---------------------------------------------------------------------------

  /** Which of the two drivers. */
  datatype Variant = GenMain | MainMain

  /** The signatures with an existing writer: none in gen/main.go, the ExistingWriters keys in main/main.go. */
  function ExistingWriterSignatures(v: Variant): set<string>
  {
    match v
    case GenMain => {}
    case MainMain => {"time.Time", "string", "int", "int64", "bool"}
  }

  /** The extra imports of the readers file. */
  function ReaderExtras(v: Variant): seq<string>
  {
    match v
    case GenMain => ["bufio"]
    case MainMain => ["bufio", "errors"]
  }

  /** The marker's signature: the library's signature over a fixed arena. */
  function SigOf(slots: seq<Nominal>, argText: nat -> string): Type -> string
  {
    t => LibSignature(slots, t, argText)
  }

  /** The service fields that get a call method: those of function type, in order. */
  function Operations(fields: seq<Field>): (ops: seq<(string, FunctionData)>)
    ensures forall n, f :: (n, f) in ops <==> Field(n, Function(f)) in fields
  {
    if fields == [] then []
    else
      var last := fields[|fields| - 1];
      assert forall x :: x in fields <==> x in fields[..|fields| - 1] || x == last;
      Operations(fields[..|fields| - 1]) + (if last.typ.Function? then [(last.name, last.typ.fn)] else [])
  }

  function OperationNames(ops: seq<(string, FunctionData)>): (names: seq<string>)
    ensures |names| == |ops| && forall i :: 0 <= i < |ops| ==> names[i] == ops[i].0
  {
    if ops == [] then [] else OperationNames(ops[..|ops| - 1]) + [ops[|ops| - 1].0]
  }

  /** All types the call-method templates mark, operation by operation. */
  function OperationMarks(ops: seq<(string, FunctionData)>, opMarks: (string, FunctionData) -> seq<Type>): seq<Type>
  {
    if ops == [] then [] else OperationMarks(ops[..|ops| - 1], opMarks) + opMarks(ops[|ops| - 1].0, ops[|ops| - 1].1)
  }

  lemma {:induction false} OperationMarksWithin(ops: seq<(string, FunctionData)>, opMarks: (string, FunctionData) -> seq<Type>,
                                                universe: set<Type>)
    requires forall n, f :: Closure.Elems(opMarks(n, f)) <= universe
    ensures Closure.Elems(OperationMarks(ops, opMarks)) <= universe
  {
    if ops != [] {
      var a := OperationMarks(ops[..|ops| - 1], opMarks);
      var b := opMarks(ops[|ops| - 1].0, ops[|ops| - 1].1);
      OperationMarksWithin(ops[..|ops| - 1], opMarks, universe);
      forall x | x in Closure.Elems(a + b) ensures x in universe {
        var i :| 0 <= i < |a + b| && x == (a + b)[i];
        if i < |a| { assert (a + b)[i] == a[i] && a[i] in Closure.Elems(a); }
        else { assert (a + b)[i] == b[i - |a|] && b[i - |a|] in Closure.Elems(b); }
      }
    }
  }

  /** What CreateClientForType writes, file by file, up to template bodies. */
  datatype ClientOutput = ClientOutput(
    clientHeader: string,
    callMethods: seq<string>,
    opsHeader: string,
    allUniqueTypes: seq<Type>,
    emitted: seq<Type>,
    writersHeader: string,
    readersHeader: string)

  /** After a reset, marking `ts` leaves the marker ready for the wave loop. */
  lemma FreshMarks(ts: seq<Type>, sig: Type -> string)
    ensures var m := Closure.MarkAll(Closure.EmptyMarks(), ts, sig);
            && Closure.MarkInv(m, sig)
            && m.sigVisited == Closure.SigsOf(m.uniqueTypes, sig)
            && m.typeVisited == Closure.Elems(ts)
  {
    var m0: Closure.MarkState<Type> := Closure.EmptyMarks();
    assert Closure.SigImage(m0.typeVisited, sig) == {};
    Closure.MarkAllFacts(m0, ts, sig);
    Closure.FreshPass(ts, sig);
  }

  /** One more field extends the operations, their names and their marks by that field's operation, if any. */
  lemma OperationStep(fields: seq<Field>, i: nat, opMarks: (string, FunctionData) -> seq<Type>)
    requires i < |fields|
    ensures var ops := Operations(fields[..i]);
            var f := fields[i];
            && Operations(fields[..i + 1]) == ops + (if f.typ.Function? then [(f.name, f.typ.fn)] else [])
            && (f.typ.Function? ==>
                  && OperationNames(ops + [(f.name, f.typ.fn)]) == OperationNames(ops) + [f.name]
                  && OperationMarks(ops + [(f.name, f.typ.fn)], opMarks) == OperationMarks(ops, opMarks) + opMarks(f.name, f.typ.fn))
  {
    assert fields[..i + 1][..i] == fields[..i];
    var ops := Operations(fields[..i]);
    var f := fields[i];
    if f.typ.Function? {
      assert (ops + [(f.name, f.typ.fn)])[..|ops|] == ops;
    }
  }

  /**
   * The operations pass: a call method for each function-typed field, and what
   * its template marks.
   */
  method EmitCallMethods(gen: Generator.Generator, marker: Closure.TypeMarker<Type>, fields: seq<Field>,
                         opMarks: (string, FunctionData) -> seq<Type>)
    returns (callMethods: seq<string>)
    requires gen.typeMarker == marker
    modifies gen, marker
    ensures gen.typeMarker == marker && gen.clientPackageName == old(gen.clientPackageName)
    ensures callMethods == OperationNames(Operations(fields))
    ensures marker.State() == Closure.MarkAll(old(marker.State()), OperationMarks(Operations(fields), opMarks), marker.sig)
  {
    callMethods := [];
    ghost var m0 := marker.State();
    ghost var ops: seq<(string, FunctionData)> := [];
    for i := 0 to |fields|
      invariant gen.typeMarker == marker && gen.clientPackageName == old(gen.clientPackageName)
      invariant ops == Operations(fields[..i]) && callMethods == OperationNames(ops)
      invariant marker.State() == Closure.MarkAll(m0, OperationMarks(ops, opMarks), marker.sig)
    {
      OperationStep(fields, i, opMarks);
      var field := fields[i];
      if field.typ.Function? {
        gen.EmitServiceCallMethod(field.name, field.typ.fn);
        ghost var before := OperationMarks(ops, opMarks);
        var _ := gen.MarkType(opMarks(field.name, field.typ.fn));
        Closure.MarkAllAppend(m0, before, opMarks(field.name, field.typ.fn), marker.sig);
        ops := ops + [(field.name, field.typ.fn)];
        callMethods := callMethods + [field.name];
      }
    }
    assert fields[..|fields|] == fields;
  }

  /** The emitted types come from the waves' types, so they lie in a closed universe too. */
  lemma EmittedClosed(all: seq<Type>, emitted: seq<Type>, existing: set<string>, sig: Type -> string,
                      universe: set<Type>, n: nat)
    requires emitted == Closure.Emittable(all, existing, sig)
    requires forall i :: 0 <= i < |all| ==> all[i] in universe
    requires forall t :: t in universe ==> ClosedIn(t, n)
    ensures forall i :: 0 <= i < |emitted| ==> ClosedIn(emitted[i], n)
  {
    Closure.EmittableExactly(all, existing, sig);
    forall i | 0 <= i < |emitted| ensures ClosedIn(emitted[i], n) {
      var k :| 0 <= k < |all| && all[k] == emitted[i];
    }
  }

  /**
   * The wave loop's calls of EmitTypeWriter and EmitTypeReader, up to rendering:
   * the first emitted type whose kind the dispatch does not know panics, and
   * nothing else does.
   */
  method DispatchEmitted(dir: string, slots: seq<Nominal>, emitted: seq<Type>) returns (fatal: Option<string>)
    requires forall i :: 0 <= i < |emitted| ==> ClosedIn(emitted[i], |slots|)
    ensures fatal.None? <==> forall i :: 0 <= i < |emitted| ==> Generator.TemplateFamily(slots, emitted[i]) != Generator.Fatal
    ensures fatal.Some? ==> fatal == Some("Unknown type")
  {
    for i := 0 to |emitted|
      invariant forall k :: 0 <= k < i ==> Generator.TemplateFamily(slots, emitted[k]) != Generator.Fatal
    {
      var writer := Generator.WriterTemplates(dir, slots, emitted[i]);
      var reader := Generator.ReaderTemplates(dir, slots, emitted[i]);
      if writer.Err? || reader.Err? {
        return Some("Unknown type");
      }
    }
    return None;
  }

  /** The client pass: after a reset, the client class and what client.gen marks, and the client file's header. */
  method ClientPass(gen: Generator.Generator, marker: Closure.TypeMarker<Type>, slots: seq<Nominal>, service: Type,
                    clientMarks: seq<Type>, leafPkg: Type -> Option<string>, shortName: string -> string)
    returns (err: Option<string>, header: string)
    requires gen.typeMarker == marker
    modifies gen, marker
    ensures gen.typeMarker == marker && gen.clientPackageName == old(gen.clientPackageName)
    ensures gen.templatesDir == old(gen.templatesDir)
    ensures Generator.RecordOf(slots, service).None? ==> err == Some("Can only classes for record/container types")
    ensures Generator.RecordOf(slots, service).Some? ==>
      && err == None
      && gen.ServiceTypeData(slots) == Generator.RecordOf(slots, service)
      && header == HeaderText(gen.clientPackageName, Closure.MarkAll(Closure.EmptyMarks(), clientMarks, marker.sig).uniqueTypes,
                              leafPkg, shortName, ["net/http"])
  {
    marker.Reset();
    err := gen.EmitClientClass(slots, service);
    if err.Some? {
      return err, "";
    }
    var _ := gen.MarkType(clientMarks);
    var headerErr;
    header, headerErr := EmitFileHeader(gen.clientPackageName, marker.uniqueTypes, leafPkg, shortName, ["net/http"]);
  }

  /**
   * What the wave loop leaves, started from the unique types `first`: `all`
   * extends `first` with distinct signatures; `emitted` is the types of `all`
   * without an existing writer; what an emitted type reaches is in `all`, every
   * type found after `first` was reached from an emitted type, and the emitted
   * types are closed in the library.
   */
  ghost predicate WavesOutcome(variant: Variant, slots: seq<Nominal>, sig: Type -> string, marks: Type -> seq<Type>,
                               first: seq<Type>, all: seq<Type>, emitted: seq<Type>)
  {
    && |first| <= |all| && all[..|first|] == first
    && Closure.DistinctSigs(all, sig)
    && emitted == Closure.Emittable(all, ExistingWriterSignatures(variant), sig)
    && (forall i :: 0 <= i < |emitted| ==> Closure.SigsOf(marks(emitted[i]), sig) <= Closure.SigsOf(all, sig))
    && Closure.ReachedFrom(all, |first|, emitted, marks)
    && (forall i :: 0 <= i < |emitted| ==> ClosedIn(emitted[i], |slots|))
  }

  /** The writer and reader dispatch knows the kind of every emitted type. */
  ghost predicate AllDispatched(slots: seq<Nominal>, emitted: seq<Type>)
  {
    forall i :: 0 <= i < |emitted| ==>
      ClosedIn(emitted[i], |slots|) && Generator.TemplateFamily(slots, emitted[i]) != Generator.Fatal
  }

  /**
   * The wave loop and the two files it fills: the marker holds what the
   * operations pass marked; the result is every unique type and the emitted
   * ones, and then the writers and readers headers, or the panic of an emitted
   * type of an unknown kind.
   */
  method WritersAndReaders(variant: Variant, pkgName: string, dir: string, slots: seq<Nominal>,
                           marker: Closure.TypeMarker<Type>, leafPkg: Type -> Option<string>,
                           shortName: string -> string, marks: Type -> seq<Type>, ghost universe: set<Type>)
    returns (all: seq<Type>, emitted: seq<Type>, res: Result<(string, string), string>)
    requires Closure.MarkInv(marker.State(), marker.sig)
    requires marker.sigVisited == Closure.SigsOf(marker.uniqueTypes, marker.sig)
    requires marker.typeVisited <= universe
    requires forall t :: t in universe ==> Closure.Elems(marks(t)) <= universe && ClosedIn(t, |slots|)
    modifies marker
    ensures WavesOutcome(variant, slots, marker.sig, marks, old(marker.uniqueTypes), all, emitted)
    ensures res.Ok? <==> AllDispatched(slots, emitted)
    ensures res.Err? ==> res == Err("Unknown type")
    ensures res.Ok? ==>
      res.value == (HeaderText(pkgName, all, leafPkg, shortName, ["io"]),
                    HeaderText(pkgName, all, leafPkg, shortName, ReaderExtras(variant)))
  {
    all, emitted := Closure.Waves(marker, marks, ExistingWriterSignatures(variant), universe);
    EmittedClosed(all, emitted, ExistingWriterSignatures(variant), marker.sig, universe, |slots|);
    var fatal := DispatchEmitted(dir, slots, emitted);
    if fatal.Some? {
      return all, emitted, Err(fatal.value);
    }
    var writersHeader, _ := EmitFileHeader(pkgName, all, leafPkg, shortName, ["io"]);
    var readersHeader, _ := EmitFileHeader(pkgName, all, leafPkg, shortName, ReaderExtras(variant));
    res := Ok((writersHeader, readersHeader));
  }

  /** Go's message for the nil pointer dereference of a missing service type. */
  const NilDereference := "invalid memory address or nil pointer dereference"

  /**
   * CreateClientForType. The service type is what GetType returned, None for nil;
   * EmitClientClass reads its TypeData, so a nil service ends the run, and a
   * non-record service type stops it with the error. Otherwise: the client pass
   * marks what client.gen marks (`clientMarks`) after a reset; after another
   * reset each function-typed service field gets a call method whose template
   * marks `opMarks`; the types marked there start the waves, in which each type
   * without an existing writer gets a writer and a reader whose templates mark
   * `marks`. An emitted type of a kind the writer and reader dispatch does not
   * know (Null, Lazy, Tuple, Function) panics there, which ends the run.
   * `universe` holds every type marking can reach.
   */
  method CreateClientForType(variant: Variant, lib: TypeLibrary, service: Option<Type>, argText: nat -> string,
                             shortName: string -> string, leafPkg: Type -> Option<string>,
                             clientMarks: seq<Type>, opMarks: (string, FunctionData) -> seq<Type>,
                             marks: Type -> seq<Type>, ghost universe: set<Type>)
    returns (res: Result<ClientOutput, string>, ghost allOut: seq<Type>, ghost emittedOut: seq<Type>)
    requires forall n, f :: Closure.Elems(opMarks(n, f)) <= universe
    requires forall t :: t in universe ==> Closure.Elems(marks(t)) <= universe && ClosedIn(t, |lib.slots|)
    ensures service.None? ==> res == Err(NilDereference)
    ensures service.Some? && Generator.RecordOf(lib.slots, service.value).None? ==>
      res == Err("Can only classes for record/container types")
    ensures service.Some? && Generator.RecordOf(lib.slots, service.value).Some? ==>
      var sig := SigOf(lib.slots, argText);
      var ops := Operations(Generator.RecordOf(lib.slots, service.value).value.fields);
      var first := Closure.MarkAll(Closure.EmptyMarks(), OperationMarks(ops, opMarks), sig).uniqueTypes;
      && WavesOutcome(variant, lib.slots, sig, marks, first, allOut, emittedOut)
      && (res.Ok? <==> AllDispatched(lib.slots, emittedOut))
      && (res.Err? ==> res == Err("Unknown type"))
    ensures res.Ok? ==>
      var sig := SigOf(lib.slots, argText);
      var ops := Operations(Generator.RecordOf(lib.slots, service.value).value.fields);
      var first := Closure.MarkAll(Closure.EmptyMarks(), OperationMarks(ops, opMarks), sig).uniqueTypes;
      var o := res.value;
      && service.Some? && Generator.RecordOf(lib.slots, service.value).Some?
      && o.clientHeader == HeaderText("restclient", Closure.MarkAll(Closure.EmptyMarks(), clientMarks, sig).uniqueTypes,
                                      leafPkg, shortName, ["net/http"])
      && o.callMethods == OperationNames(ops)
      && o.opsHeader == HeaderText("restclient", first, leafPkg, shortName, ["net/http", "bytes", "bufio"])
      && o.allUniqueTypes == allOut && o.emitted == emittedOut
      && o.writersHeader == HeaderText("restclient", o.allUniqueTypes, leafPkg, shortName, ["io"])
      && o.readersHeader == HeaderText("restclient", o.allUniqueTypes, leafPkg, shortName, ReaderExtras(variant))
  {
    allOut, emittedOut := [], [];
    if service.None? {
      return Err(NilDereference), allOut, emittedOut;
    }
    var slots := lib.slots;
    var sig := SigOf(slots, argText);
    var gen := new Generator.Generator("../rest/templates/");
    var marker := new Closure.TypeMarker<Type>(sig);
    gen.typeMarker := marker;

    var err, clientHeader := ClientPass(gen, marker, slots, service.value, clientMarks, leafPkg, shortName);
    if err.Some? {
      return Err(err.value), allOut, emittedOut;
    }

    // the call methods
    marker.Reset();
    var serviceData := gen.ServiceTypeData(slots);
    var callMethods := EmitCallMethods(gen, marker, serviceData.value.fields, opMarks);
    ghost var ops := Operations(serviceData.value.fields);
    var opsHeader, _ := EmitFileHeader(gen.clientPackageName, marker.uniqueTypes, leafPkg, shortName,
                                       ["net/http", "bytes", "bufio"]);

    // the writers and readers, wave by wave
    FreshMarks(OperationMarks(ops, opMarks), sig);
    OperationMarksWithin(ops, opMarks, universe);
    var all, emitted, headers := WritersAndReaders(variant, gen.clientPackageName, gen.templatesDir, slots, marker,
                                                   leafPkg, shortName, marks, universe);
    allOut, emittedOut := all, emitted;
    if headers.Err? {
      return Err(headers.error), allOut, emittedOut;
    }
    var (writersHeader, readersHeader) := headers.value;
    res := Ok(ClientOutput(clientHeader, callMethods, opsHeader, all, emitted, writersHeader, readersHeader));
  }

  // ---------------------------------------------------------------------------
  // ParseFiles
  // ---------------------------------------------------------------------------

  /** The library after processing each file's declarations, in the given order. */
  function ProcessFiles(r: Registry, files: seq<Utils.ParsedFile>): Registry
  {
    if files == [] then r
    else
      var f := files[|files| - 1];
      Utils.ProcessDecls(ProcessFiles(r, files[..|files| - 1]), f, f.decls)
  }

  /**
   * ParseFiles, from parsed files on: a fresh library, every file processed, and
   * the report of the keys still holding an unresolved placeholder.
   */
  method ParseFiles(files: seq<Utils.ParsedFile>) returns (lib: TypeLibrary, unresolved: set<string>)
    ensures fresh(lib) && lib.Valid()
    ensures lib.State() == ProcessFiles(NewRegistry(), files)
    ensures unresolved == UnresolvedKeys(lib.State())
  {
    lib := new TypeLibrary();
    for i := 0 to |files|
      invariant lib.Valid() && fresh(lib)
      invariant lib.State() == ProcessFiles(NewRegistry(), files[..i])
    {
      assert files[..i + 1][..i] == files[..i];
      Utils.ProcessNode(files[i], lib);
    }
    assert files[..|files|] == files;
    // typeLibrary.ForEach over every entry, keeping the unresolved ones
    var remaining := lib.types.Keys;
    unresolved := {};
    while remaining != {}
      invariant remaining <= lib.types.Keys
      invariant forall k :: k in unresolved <==> k in lib.types && k !in remaining && lib.slots[lib.types[k]].Lazy?
      decreases |remaining|
    {
      var k :| k in remaining;
      if lib.slots[lib.types[k]].Lazy? {
        unresolved := unresolved + {k};
      }
      remaining := remaining - {k};
    }
  }
}
