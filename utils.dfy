/**
 * utils.go: turning parsed Go declarations into registered types.
 *
 * `ConvertExpr`, `DeclareSpec` and `ProcessDecls` say what NodeToType and
 * ProcessNode do to the library's state, as functions on `Registry`; the methods
 * `NodeToType`, `DeclareTypeSpec` and `ProcessNode` do it in place on a
 * `TypeLibrary`, with the source's loops, and are proved to match.
 */
module Utils {
  import opened Wrappers
  import opened Types
  import opened TypeLib

  /** The Go type expressions NodeToType understands. */
  datatype Node =
    | Star(x: Node)                                   // *X
    | FuncType(params: seq<Node>, results: seq<Node>) // the type of each entry of Params.List and Results.List
    | MapNode(key: Node, value: Node)
    | ArrayNode(elt: Node)                            // []T and [N]T alike
    | Ident(name: string)
    | Selector(pkgAlias: string, sel: string)         // pkgAlias.Sel
    | StructNode(fields: seq<FieldNode>)
    | InterfaceNode(methods: seq<FieldNode>)

  /** One entry of a field list: zero or more names sharing one type expression. */
  datatype FieldNode = FieldNode(names: seq<string>, typ: Node)

  datatype Spec = TypeSpec(name: string, body: Node) | OtherSpec

  datatype Decl = GenDecl(specs: seq<Spec>) | OtherDecl

  /** The parts of a ParsedFile the conversion reads. */
  datatype ParsedFile = ParsedFile(packagePath: string, imports: map<string, string>, decls: seq<Decl>)

  /** Imports[alias]: the zero value "" for an alias the file does not import. */
  function ImportPath(file: ParsedFile, alias: string): string
  {
    if alias in file.imports then file.imports[alias] else ""
  }

  // ---------------------------------------------------------------------------
  // The conversion as functions on the library's state
  // ---------------------------------------------------------------------------

  /** An identifier: the registered type, else a new placeholder registered under it. */
  function ResolveName(r: Registry, pkg: string, name: string): (Registry, Type)
  {
    match Lookup(r, pkg, name)
    case Some(h) => (r, Slot(h))
    case None =>
      var (r1, h) := AddTypeTo(r, pkg, name, Lazy(name));
      (r1, Slot(h))
  }

  function ConvertExpr(r: Registry, file: ParsedFile, n: Node): (Registry, Type)
    decreases n
  {
    match n
    case Star(x) =>
      var (r1, t) := ConvertExpr(r, file, x);
      (r1, Reference(t))
    case FuncType(params, results) =>
      var (r1, ins) := ConvertList(r, file, params);
      var (r2, outs) := ConvertList(r1, file, results);
      (r2, Function(FunctionData(ins, if results == [] then NilSlice else SliceOf(outs), NilSlice)))
    case MapNode(k, v) =>
      var (r1, kt) := ConvertExpr(r, file, k);
      var (r2, vt) := ConvertExpr(r1, file, v);
      (r2, Map(kt, vt))
    case ArrayNode(e) =>
      var (r1, et) := ConvertExpr(r, file, e);
      (r1, List(et))
    case Ident(name) => ResolveName(r, file.packagePath, name)
    case Selector(alias, sel) => ResolveName(r, ImportPath(file, alias), sel)
    case StructNode(fs) =>
      var (r1, bases, fields) := ConvertFields(r, file, fs);
      (r1, Record(RecordData("", "", bases, fields)))
    case InterfaceNode(ms) =>
      var (r1, _, fields) := ConvertFields(r, file, ms);
      (r1, Record(RecordData("", "", [], fields)))
  }

  /** Converts the nodes in order, threading the state. */
  function ConvertList(r: Registry, file: ParsedFile, ns: seq<Node>): (Registry, seq<Type>)
    decreases ns
  {
    if ns == [] then (r, [])
    else
      var (r1, t) := ConvertExpr(r, file, ns[0]);
      var (r2, ts) := ConvertList(r1, file, ns[1..]);
      (r2, [t] + ts)
  }

  /** One Field per name, all sharing the type `t`. */
  function NamedFields(names: seq<string>, t: Type): (fs: seq<Field>)
    ensures |fs| == |names|
    ensures forall i :: 0 <= i < |names| ==> fs[i].name == names[i] && fs[i].typ == t
  {
    seq(|names|, i requires 0 <= i < |names| => Field(names[i], t))
  }

  /**
   * A struct's field list: each entry's type is converted once; an entry without
   * names becomes a base, an entry with names one field per name.
   */
  function ConvertFields(r: Registry, file: ParsedFile, fs: seq<FieldNode>): (Registry, seq<Type>, seq<Field>)
    decreases fs
  {
    if fs == [] then (r, [], [])
    else
      var (r1, t) := ConvertExpr(r, file, fs[0].typ);
      var (r2, bases, fields) := ConvertFields(r1, file, fs[1..]);
      if fs[0].names == [] then (r2, [t] + bases, fields)
      else (r2, bases, NamedFields(fs[0].names, t) + fields)
  }

  /** Overwrites the class and data of the registered type `h`. */
  function WriteSlot(r: Registry, h: nat, c: Nominal): Registry
  {
    if h < |r.slots| then r.(slots := r.slots[h := c]) else r
  }

  /** The type a declaration is written into: the registered one, else a new empty one. */
  function FindOrRegister(r: Registry, pkg: string, name: string): (Registry, nat)
  {
    match Lookup(r, pkg, name)
    case Some(h) => (r, h)
    case None => AddTypeTo(r, pkg, name, Null)
  }

  /**
   * NodeToType on a TypeSpec: reuse the type registered under the name (an earlier
   * placeholder, say) or register a new one, make it a record of that name, and for
   * a struct or interface body replace its data by the body's record data.
   */
  function DeclareSpec(r: Registry, file: ParsedFile, name: string, body: Node): (Registry, Type)
  {
    var (r1, h) := FindOrRegister(r, file.packagePath, name);
    (FillDeclared(r1, file, h, name, body), Slot(h))
  }

  /** Writes the declaration into the type `h`. */
  function FillDeclared(r1: Registry, file: ParsedFile, h: nat, name: string, body: Node): Registry
  {
    var r2 := WriteSlot(r1, h, Record(RecordData(name, "", [], [])));
    if body.StructNode? || body.InterfaceNode? then
      var (r3, t2) := ConvertExpr(r2, file, body);
      WriteSlot(r3, h, Record(t2.rec))
    else r2
  }

  /** Whether ProcessNode hands a declaration to NodeToType. */
  predicate DeclaresType(d: Decl)
  {
    d.GenDecl? && |d.specs| > 0 && d.specs[0].TypeSpec?
  }

  function ProcessDecl(r: Registry, file: ParsedFile, d: Decl): Registry
  {
    if DeclaresType(d) then DeclareSpec(r, file, d.specs[0].name, d.specs[0].body).0 else r
  }

  /** ProcessNode's effect: the declarations in order. */
  function ProcessDecls(r: Registry, file: ParsedFile, ds: seq<Decl>): Registry
  {
    if ds == [] then r else ProcessDecl(ProcessDecls(r, file, ds[..|ds| - 1]), file, ds[|ds| - 1])
  }

  // ---------------------------------------------------------------------------
  // What converting a type expression does to the library
  // ---------------------------------------------------------------------------

  /**
   * `r2` is `r` with slots only appended, every key kept with its handle, and each
   * new slot an unresolved placeholder.
   */
  ghost predicate Extends(r: Registry, r2: Registry)
  {
    && |r.slots| <= |r2.slots|
    && r2.slots[..|r.slots|] == r.slots
    && (forall k :: k in r.types ==> k in r2.types && r2.types[k] == r.types[k])
    && (forall i :: |r.slots| <= i < |r2.slots| ==> r2.slots[i].Lazy?)
  }

  lemma ExtendsTrans(r1: Registry, r2: Registry, r3: Registry)
    requires Extends(r1, r2) && Extends(r2, r3)
    ensures Extends(r1, r3)
  {
    assert r3.slots[..|r1.slots|] == r3.slots[..|r2.slots|][..|r1.slots|];
  }

  lemma ResolveNameGrows(r: Registry, pkg: string, name: string)
    requires RegistryValid(r)
    ensures var (r2, t) := ResolveName(r, pkg, name);
            Extends(r, r2) && RegistryValid(r2) && ClosedIn(t, |r2.slots|)
  {
    var h := Lookup(r, pkg, name);
    if h.None? {
      AddTypeKeepsValid(r, pkg, name, Lazy(name));
      assert Key(pkg, name) !in r.types;
      var r2 := AddTypeTo(r, pkg, name, Lazy(name)).0;
      assert r2.slots == r.slots + [Lazy(name)];
      assert r2.slots[..|r.slots|] == r.slots;
    } else {
      assert h.value < |r.slots|;
    }
  }

  /**
   * Converting a type expression only appends placeholders, keeps every
   * registration and keeps the library valid; the result points into the arena.
   */
  lemma {:induction false} ConvertExprGrows(r: Registry, file: ParsedFile, n: Node)
    requires RegistryValid(r)
    ensures var (r2, t) := ConvertExpr(r, file, n);
            Extends(r, r2) && RegistryValid(r2) && ClosedIn(t, |r2.slots|)
    decreases n
  {
    match n
    case Star(x) =>
      ConvertExprGrows(r, file, x);
    case FuncType(ps, rs) =>
      ConvertListGrows(r, file, ps);
      var (r1, ins) := ConvertList(r, file, ps);
      ConvertListGrows(r1, file, rs);
      var r2 := ConvertList(r1, file, rs).0;
      AllClosedInGrows(ins, |r1.slots|, |r2.slots|);
      ExtendsTrans(r, r1, r2);
    case MapNode(k, v) =>
      ConvertExprGrows(r, file, k);
      var (r1, kt) := ConvertExpr(r, file, k);
      ConvertExprGrows(r1, file, v);
      var r2 := ConvertExpr(r1, file, v).0;
      ClosedInGrows(kt, |r1.slots|, |r2.slots|);
      ExtendsTrans(r, r1, r2);
    case ArrayNode(e) =>
      ConvertExprGrows(r, file, e);
    case Ident(name) =>
      ResolveNameGrows(r, file.packagePath, name);
    case Selector(alias, sel) =>
      ResolveNameGrows(r, ImportPath(file, alias), sel);
    case StructNode(fs) =>
      ConvertFieldsGrows(r, file, fs);
    case InterfaceNode(ms) =>
      ConvertFieldsGrows(r, file, ms);
  }

  lemma {:induction false} ConvertListGrows(r: Registry, file: ParsedFile, ns: seq<Node>)
    requires RegistryValid(r)
    ensures var (r2, ts) := ConvertList(r, file, ns);
            Extends(r, r2) && RegistryValid(r2) && AllClosedIn(ts, |r2.slots|) && |ts| == |ns|
    decreases ns
  {
    if ns == [] {
      assert r.slots[..|r.slots|] == r.slots;
    } else {
      ConvertExprGrows(r, file, ns[0]);
      var (r1, t) := ConvertExpr(r, file, ns[0]);
      ConvertListGrows(r1, file, ns[1..]);
      var r2 := ConvertList(r1, file, ns[1..]).0;
      ClosedInGrows(t, |r1.slots|, |r2.slots|);
      ExtendsTrans(r, r1, r2);
    }
  }

  lemma {:induction false} ConvertFieldsGrows(r: Registry, file: ParsedFile, fs: seq<FieldNode>)
    requires RegistryValid(r)
    ensures var (r2, bases, fields) := ConvertFields(r, file, fs);
            Extends(r, r2) && RegistryValid(r2)
            && AllClosedIn(bases, |r2.slots|) && FieldsClosedIn(fields, |r2.slots|)
    decreases fs
  {
    if fs == [] {
      assert r.slots[..|r.slots|] == r.slots;
    } else {
      ConvertExprGrows(r, file, fs[0].typ);
      var (r1, t) := ConvertExpr(r, file, fs[0].typ);
      ConvertFieldsGrows(r1, file, fs[1..]);
      var (r2, bases, fields) := ConvertFields(r1, file, fs[1..]);
      ClosedInGrows(t, |r1.slots|, |r2.slots|);
      ExtendsTrans(r, r1, r2);
      if fs[0].names == [] {
        assert AllClosedIn([t] + bases, |r2.slots|) by {
          forall i | 0 <= i < |[t] + bases| ensures ClosedIn(([t] + bases)[i], |r2.slots|) {
            if i > 0 { assert ([t] + bases)[i] == bases[i - 1]; }
          }
        }
      } else {
        var nf := NamedFields(fs[0].names, t);
        assert FieldsClosedIn(nf + fields, |r2.slots|) by {
          forall i | 0 <= i < |nf + fields| ensures ClosedIn((nf + fields)[i].typ, |r2.slots|) {
            if i >= |nf| { assert (nf + fields)[i] == fields[i - |nf|]; }
          }
        }
      }
    }
  }

  lemma WriteSlotKeepsValid(r: Registry, h: nat, c: Nominal)
    requires RegistryValid(r) && h < |r.slots| && ClosedIn(c, |r.slots|)
    ensures RegistryValid(WriteSlot(r, h, c))
  {
  }

  lemma FindOrRegisterKeepsValid(r: Registry, pkg: string, name: string)
    requires RegistryValid(r)
    ensures RegistryValid(FindOrRegister(r, pkg, name).0)
    ensures FindOrRegister(r, pkg, name).1 < |FindOrRegister(r, pkg, name).0.slots|
  {
    if Lookup(r, pkg, name).None? {
      AddTypeKeepsValid(r, pkg, name, Null);
    }
  }

  // ---------------------------------------------------------------------------
  // The methods, with the source's loops
  // ---------------------------------------------------------------------------

  /** The loop over a node list has converted ns[..i] into `acc`; `s` is the state so far. */
  ghost predicate ListDone(r0: Registry, file: ParsedFile, ns: seq<Node>, i: nat, s: Registry, acc: seq<Type>)
  {
    i <= |ns| &&
    var rest := ConvertList(s, file, ns[i..]);
    ConvertList(r0, file, ns) == (rest.0, acc + rest.1)
  }

  lemma ListDoneNext(r0: Registry, file: ParsedFile, ns: seq<Node>, i: nat, s: Registry, acc: seq<Type>)
    requires ListDone(r0, file, ns, i, s, acc) && i < |ns|
    ensures var (s1, t) := ConvertExpr(s, file, ns[i]);
            ListDone(r0, file, ns, i + 1, s1, acc + [t])
  {
    assert ns[i..][0] == ns[i];
    assert ns[i..][1..] == ns[i + 1..];
    var (s1, t) := ConvertExpr(s, file, ns[i]);
    var rest := ConvertList(s1, file, ns[i + 1..]);
    assert acc + ([t] + rest.1) == acc + [t] + rest.1;
  }

  /** The loop over a field list has consumed fs[..i], collecting `bases` and `fields`. */
  ghost predicate FieldsDone(r0: Registry, file: ParsedFile, fs: seq<FieldNode>, i: nat, s: Registry,
                             bases: seq<Type>, fields: seq<Field>)
  {
    i <= |fs| &&
    var rest := ConvertFields(s, file, fs[i..]);
    ConvertFields(r0, file, fs) == (rest.0, bases + rest.1, fields + rest.2)
  }

  lemma FieldsDoneNext(r0: Registry, file: ParsedFile, fs: seq<FieldNode>, i: nat, s: Registry,
                       bases: seq<Type>, fields: seq<Field>)
    requires FieldsDone(r0, file, fs, i, s, bases, fields) && i < |fs|
    ensures var (s1, t) := ConvertExpr(s, file, fs[i].typ);
            FieldsDone(r0, file, fs, i + 1, s1,
                       bases + (if fs[i].names == [] then [t] else []),
                       fields + NamedFields(fs[i].names, t))
  {
    assert fs[i..][0] == fs[i];
    assert fs[i..][1..] == fs[i + 1..];
    var (s1, t) := ConvertExpr(s, file, fs[i].typ);
    var rest := ConvertFields(s1, file, fs[i + 1..]);
    if fs[i].names == [] {
      assert bases + ([t] + rest.1) == bases + [t] + rest.1;
      assert fields + NamedFields(fs[i].names, t) == fields;
    } else {
      assert bases + [] == bases;
      assert fields + (NamedFields(fs[i].names, t) + rest.2) == fields + NamedFields(fs[i].names, t) + rest.2;
    }
  }

  lemma ListDoneBounds(r0: Registry, file: ParsedFile, ns: seq<Node>, s: Registry, acc: seq<Type>)
    ensures ListDone(r0, file, ns, 0, r0, [])
    ensures ListDone(r0, file, ns, |ns|, s, acc) ==> ConvertList(r0, file, ns) == (s, acc)
  {
    assert ns[0..] == ns;
    assert ns[|ns|..] == [];
    assert acc + [] == acc;
    var all := ConvertList(r0, file, ns);
    assert [] + all.1 == all.1;
    assert all == (all.0, all.1);
  }

  lemma FieldsDoneBounds(r0: Registry, file: ParsedFile, fs: seq<FieldNode>, s: Registry,
                         bases: seq<Type>, fields: seq<Field>)
    ensures FieldsDone(r0, file, fs, 0, r0, [], [])
    ensures FieldsDone(r0, file, fs, |fs|, s, bases, fields) ==> ConvertFields(r0, file, fs) == (s, bases, fields)
  {
    assert fs[0..] == fs;
    assert fs[|fs|..] == [];
    assert bases + [] == bases;
    assert fields + [] == fields;
    var all := ConvertFields(r0, file, fs);
    assert [] + all.1 == all.1 && [] + all.2 == all.2;
    assert all == (all.0, all.1, all.2);
  }

  /** NodeToType's identifier and selector cases. */
  method ResolveIdent(pkg: string, name: string, lib: TypeLibrary) returns (t: Type)
    requires lib.Valid()
    modifies lib
    ensures lib.Valid()
    ensures (lib.State(), t) == ResolveName(old(lib.State()), pkg, name)
  {
    var found := lib.GetType(pkg, name);
    if found.Some? {
      return found.value;
    }
    t := lib.AddType(pkg, name, Lazy(name));
  }

  /** NodeToType on a type expression: placeholders are registered as identifiers are met. */
  method NodeToType(file: ParsedFile, node: Node, lib: TypeLibrary) returns (t: Type)
    requires lib.Valid()
    modifies lib
    ensures lib.Valid()
    ensures (lib.State(), t) == ConvertExpr(old(lib.State()), file, node)
    decreases node
  {
    ghost var r0 := lib.State();
    match node
    case Star(x) =>
      var target := NodeToType(file, x, lib);
      t := Reference(target);
    case FuncType(params, results) =>
      var inputs: seq<Type> := [];
      ListDoneBounds(r0, file, params, r0, []);
      for i := 0 to |params|
        invariant lib.Valid()
        invariant ListDone(r0, file, params, i, lib.State(), inputs)
      {
        ghost var s := lib.State();
        var p := NodeToType(file, params[i], lib);
        ListDoneNext(r0, file, params, i, s, inputs);
        inputs := inputs + [p];
      }
      ListDoneBounds(r0, file, params, lib.State(), inputs);
      ghost var r1 := lib.State();
      var outputs: seq<Type> := [];
      ListDoneBounds(r1, file, results, r1, []);
      for i := 0 to |results|
        invariant lib.Valid()
        invariant ListDone(r1, file, results, i, lib.State(), outputs)
      {
        ghost var s := lib.State();
        var o := NodeToType(file, results[i], lib);
        ListDoneNext(r1, file, results, i, s, outputs);
        outputs := outputs + [o];
      }
      ListDoneBounds(r1, file, results, lib.State(), outputs);
      t := Function(FunctionData(inputs, if results == [] then NilSlice else SliceOf(outputs), NilSlice));
    case MapNode(k, v) =>
      var kt := NodeToType(file, k, lib);
      var vt := NodeToType(file, v, lib);
      t := Map(kt, vt);
    case ArrayNode(e) =>
      var et := NodeToType(file, e, lib);
      t := List(et);
    case Ident(name) =>
      t := ResolveIdent(file.packagePath, name, lib);
    case Selector(alias, sel) =>
      t := ResolveIdent(ImportPath(file, alias), sel, lib);
    case StructNode(fs) =>
      var bases: seq<Type> := [];
      var fields: seq<Field> := [];
      FieldsDoneBounds(r0, file, fs, r0, [], []);
      for i := 0 to |fs|
        invariant lib.Valid()
        invariant FieldsDone(r0, file, fs, i, lib.State(), bases, fields)
      {
        ghost var s := lib.State();
        var ft := NodeToType(file, fs[i].typ, lib);
        FieldsDoneNext(r0, file, fs, i, s, bases, fields);
        if |fs[i].names| == 0 {
          bases := bases + [ft];
        } else {
          fields := AppendNamedFields(fields, fs[i].names, ft);
        }
      }
      FieldsDoneBounds(r0, file, fs, lib.State(), bases, fields);
      t := Record(RecordData("", "", bases, fields));
    case InterfaceNode(ms) =>
      ghost var bases: seq<Type> := [];
      var fields: seq<Field> := [];
      FieldsDoneBounds(r0, file, ms, r0, [], []);
      for i := 0 to |ms|
        invariant lib.Valid()
        invariant FieldsDone(r0, file, ms, i, lib.State(), bases, fields)
      {
        ghost var s := lib.State();
        var ft := NodeToType(file, ms[i].typ, lib);
        FieldsDoneNext(r0, file, ms, i, s, bases, fields);
        // an entry without names (an embedded interface) is converted and dropped
        bases := bases + (if ms[i].names == [] then [ft] else []);
        fields := AppendNamedFields(fields, ms[i].names, ft);
      }
      FieldsDoneBounds(r0, file, ms, lib.State(), bases, fields);
      t := Record(RecordData("", "", [], fields));
  }

  /** The inner loop over an entry's names. */
  method AppendNamedFields(fields: seq<Field>, names: seq<string>, t: Type) returns (out: seq<Field>)
    ensures out == fields + NamedFields(names, t)
  {
    out := fields;
    for j := 0 to |names|
      invariant out == fields + NamedFields(names[..j], t)
    {
      assert names[..j + 1][..j] == names[..j];
      out := out + [Field(names[j], t)];
    }
    assert names[..|names|] == names;
  }

  /** GetType, and AddType of a fresh empty type when nothing is registered. */
  method FindOrAdd(pkg: string, name: string, lib: TypeLibrary) returns (h: nat)
    requires lib.Valid()
    modifies lib
    ensures lib.Valid() && h < |lib.slots|
    ensures (lib.State(), h) == FindOrRegister(old(lib.State()), pkg, name)
  {
    FindOrRegisterKeepsValid(lib.State(), pkg, name);
    var found := lib.GetType(pkg, name);
    if found.None? {
      var alt := lib.AddType(pkg, name, Null);
      found := Some(alt);
    }
    h := found.value.handle;
  }

  /** NodeToType's TypeSpec case: the found or new type is overwritten in place. */
  method DeclareTypeSpec(file: ParsedFile, name: string, body: Node, lib: TypeLibrary) returns (t: Type)
    requires lib.Valid()
    modifies lib
    ensures lib.Valid()
    ensures (lib.State(), t) == DeclareSpec(old(lib.State()), file, name, body)
  {
    var h := FindOrAdd(file.packagePath, name, lib);
    WriteSlotKeepsValid(lib.State(), h, Record(RecordData(name, "", [], [])));
    lib.slots := lib.slots[h := Record(RecordData(name, "", [], []))];
    if body.StructNode? || body.InterfaceNode? {
      ConvertExprGrows(lib.State(), file, body);
      var t2 := NodeToType(file, body, lib);
      WriteSlotKeepsValid(lib.State(), h, Record(t2.rec));
      lib.slots := lib.slots[h := Record(t2.rec)];
    }
    t := Slot(h);
  }

  /** ProcessNode: hands the first spec of each declaration to NodeToType when it is a TypeSpec. */
  method ProcessNode(file: ParsedFile, lib: TypeLibrary)
    requires lib.Valid()
    modifies lib
    ensures lib.Valid()
    ensures lib.State() == ProcessDecls(old(lib.State()), file, file.decls)
  {
    ghost var r0 := lib.State();
    for i := 0 to |file.decls|
      invariant lib.Valid()
      invariant lib.State() == ProcessDecls(r0, file, file.decls[..i])
    {
      assert file.decls[..i + 1][..i] == file.decls[..i];
      var decl := file.decls[i];
      if decl.GenDecl? && |decl.specs| > 0 {
        if decl.specs[0].TypeSpec? {
          var _ := DeclareTypeSpec(file, decl.specs[0].name, decl.specs[0].body, lib);
        }
      }
    }
    assert file.decls[..|file.decls|] == file.decls;
  }

  // ---------------------------------------------------------------------------
  // Properties of the conversion
  // ---------------------------------------------------------------------------

  /**
   * An unknown identifier gets one new placeholder holding its name; converting it
   * again finds that same placeholder and changes nothing.
   */
  lemma IdentResolvesOnce(r: Registry, file: ParsedFile, name: string)
    ensures var (r1, t1) := ConvertExpr(r, file, Ident(name));
            && ConvertExpr(r1, file, Ident(name)) == (r1, t1)
            && (Lookup(r, file.packagePath, name).None? ==>
                  t1 == Slot(|r.slots|) && r1.slots == r.slots + [Lazy(name)]
                  && r1.types == r.types[Key(file.packagePath, name) := |r.slots|])
            && (Lookup(r, file.packagePath, name).Some? ==>
                  r1 == r && t1 == Slot(Lookup(r, file.packagePath, name).value))
  {
  }

  /** A qualified identifier whose alias the file does not import is looked up in package "". */
  lemma UnimportedSelectorIsGlobal(r: Registry, file: ParsedFile, alias: string, sel: string)
    requires alias !in file.imports
    ensures ConvertExpr(r, file, Selector(alias, sel)) == ConvertExpr(r, file.(packagePath := ""), Ident(sel))
  {
  }

  /**
   * A qualified identifier whose alias the file imports is looked up in the
   * imported package: a type found there (directly or through its short alias)
   * is used as it is, and otherwise a Lazy placeholder is registered under the
   * imported path, where lookup then finds it.
   */
  lemma ImportedSelectorResolves(r: Registry, file: ParsedFile, alias: string, sel: string)
    requires alias in file.imports
    ensures var (r2, t) := ConvertExpr(r, file, Selector(alias, sel));
            var path := file.imports[alias];
            && t.Slot? && Lookup(r2, path, sel) == Some(t.handle)
            && (Lookup(r, path, sel).Some? ==> r2 == r && t == Slot(Lookup(r, path, sel).value))
            && (Lookup(r, path, sel).None? ==> r2.slots == r.slots + [Lazy(sel)] && t.handle == |r.slots|)
  {
  }

  function ConvertListLength(r: Registry, file: ParsedFile, ns: seq<Node>): (n: nat)
    ensures n == |ConvertList(r, file, ns).1|
    ensures n == |ns|
    decreases ns
  {
    if ns == [] then 0 else 1 + ConvertListLength(ConvertExpr(r, file, ns[0]).0, file, ns[1..])
  }

  /**
   * A function type has one input per parameter entry and one output per result
   * entry; without result entries the outputs stay nil, and exceptions are always nil.
   */
  lemma ConvertFuncShape(r: Registry, file: ParsedFile, params: seq<Node>, results: seq<Node>)
    ensures var t := ConvertExpr(r, file, FuncType(params, results)).1;
            && t.Function?
            && NumInputs(t.fn) == |params|
            && (t.fn.outputs == NilSlice <==> results == [])
            && NumOutputs(t.fn) == |results|
            && t.fn.exceptions == NilSlice
  {
    var r1 := ConvertList(r, file, params).0;
    var _ := ConvertListLength(r, file, params);
    var _ := ConvertListLength(r1, file, results);
  }

  /** How many entries of a field list have no names. */
  function UnnamedCount(fs: seq<FieldNode>): nat
  {
    if fs == [] then 0 else (if fs[0].names == [] then 1 else 0) + UnnamedCount(fs[1..])
  }

  /** All names of a field list, in declaration order. */
  function AllNames(fs: seq<FieldNode>): seq<string>
  {
    if fs == [] then [] else fs[0].names + AllNames(fs[1..])
  }

  /**
   * A struct has one base per unnamed entry and one field per name, in declaration
   * order.
   */
  lemma {:induction false} ConvertFieldsShape(r: Registry, file: ParsedFile, fs: seq<FieldNode>)
    ensures var (_, bases, fields) := ConvertFields(r, file, fs);
            && |bases| == UnnamedCount(fs)
            && |fields| == |AllNames(fs)|
            && forall j :: 0 <= j < |fields| ==> fields[j].name == AllNames(fs)[j]
    decreases fs
  {
    if fs != [] {
      var (r1, t) := ConvertExpr(r, file, fs[0].typ);
      ConvertFieldsShape(r1, file, fs[1..]);
      var (_, _, rest) := ConvertFields(r1, file, fs[1..]);
      var fields := ConvertFields(r, file, fs).2;
      var names := fs[0].names;
      if names != [] {
        assert fields == NamedFields(names, t) + rest;
        forall j | 0 <= j < |fields| ensures fields[j].name == AllNames(fs)[j] {
          if j < |names| {
            assert fields[j] == NamedFields(names, t)[j];
          } else {
            assert fields[j] == rest[j - |names|];
          }
        }
      }
    }
  }

  /** The fields of one entry share the type converted for that entry. */
  lemma NamedFieldsShareType(r: Registry, file: ParsedFile, entry: FieldNode)
    requires entry.names != []
    ensures var (_, _, fields) := ConvertFields(r, file, [entry]);
            var t := ConvertExpr(r, file, entry.typ).1;
            && |fields| == |entry.names|
            && forall j :: 0 <= j < |fields| ==> fields[j] == Field(entry.names[j], t)
  {
    assert [entry][1..] == [];
  }

  /** The type a declaration writes into is the one found under the name, else a new one. */
  lemma FindOrRegisterEffect(r: Registry, pkg: string, name: string)
    requires RegistryValid(r)
    ensures var (r1, h) := FindOrRegister(r, pkg, name);
            var found := Lookup(r, pkg, name);
            && RegistryValid(r1) && h < |r1.slots|
            && (found.Some? ==> h == found.value && r1.slots == r.slots)
            && (found.None? ==> h == |r.slots| && r1.slots == r.slots + [Null])
            && (found.None? ==> Key(pkg, name) in r1.types && r1.types[Key(pkg, name)] == h)
            && (forall k :: k in r.types ==> k in r1.types && r1.types[k] == r.types[k])
  {
    FindOrRegisterKeepsValid(r, pkg, name);
  }

  /** Converting a struct or interface body leaves every existing slot and key alone. */
  lemma BodyKeepsSlots(r: Registry, file: ParsedFile, body: Node)
    requires RegistryValid(r)
    ensures var (r3, t2) := ConvertExpr(r, file, body);
            && RegistryValid(r3) && |r.slots| <= |r3.slots|
            && (forall i :: 0 <= i < |r.slots| ==> r3.slots[i] == r.slots[i])
            && (forall k :: k in r.types ==> k in r3.types && r3.types[k] == r.types[k])
            && ClosedIn(t2, |r3.slots|)
  {
    ConvertExprGrows(r, file, body);
    var r3 := ConvertExpr(r, file, body).0;
    forall i | 0 <= i < |r.slots| ensures r3.slots[i] == r.slots[i] {
      assert r3.slots[..|r.slots|][i] == r3.slots[i];
    }
  }

  lemma FillDeclaredEffect(r1: Registry, file: ParsedFile, h: nat, name: string, body: Node)
    requires RegistryValid(r1) && h < |r1.slots|
    ensures var r2 := FillDeclared(r1, file, h, name, body);
            && RegistryValid(r2) && |r1.slots| <= |r2.slots|
            && (forall k :: k in r1.types ==> k in r2.types && r2.types[k] == r1.types[k])
            && (forall i :: 0 <= i < |r1.slots| && i != h ==> r2.slots[i] == r1.slots[i])
            && r2.slots[h].Record?
            && (!(body.StructNode? || body.InterfaceNode?) ==> r2.slots[h] == Record(RecordData(name, "", [], [])))
            && (body.StructNode? || body.InterfaceNode? ==> r2.slots[h].rec.name == "")
  {
    var c := Record(RecordData(name, "", [], []));
    WriteSlotKeepsValid(r1, h, c);
    var r2 := WriteSlot(r1, h, c);
    if body.StructNode? || body.InterfaceNode? {
      BodyKeepsSlots(r2, file, body);
      var (r3, t2) := ConvertExpr(r2, file, body);
      WriteSlotKeepsValid(r3, h, Record(t2.rec));
    }
  }

  /**
   * NodeToType on a TypeSpec writes into the type found under the name (or a new
   * one), leaves every other registered type and every registration alone, and
   * leaves a record there: named for a plain body, unnamed for a struct or
   * interface body.
   */
  lemma DeclareSpecEffect(r: Registry, file: ParsedFile, name: string, body: Node)
    requires RegistryValid(r)
    ensures var (r2, t) := DeclareSpec(r, file, name, body);
            var found := Lookup(r, file.packagePath, name);
            && RegistryValid(r2)
            && t.Slot? && t.handle < |r2.slots| && |r.slots| <= |r2.slots|
            && (found.Some? ==> t.handle == found.value)
            && (found.None? ==> t.handle == |r.slots| && Key(file.packagePath, name) in r2.types
                                && r2.types[Key(file.packagePath, name)] == |r.slots|)
            && (forall k :: k in r.types ==> k in r2.types && r2.types[k] == r.types[k])
            && (forall i :: 0 <= i < |r.slots| && i != t.handle ==> r2.slots[i] == r.slots[i])
            && r2.slots[t.handle].Record?
            && (!(body.StructNode? || body.InterfaceNode?) ==> r2.slots[t.handle] == Record(RecordData(name, "", [], [])))
            && (body.StructNode? || body.InterfaceNode? ==> r2.slots[t.handle].rec.name == "")
  {
    FindOrRegisterEffect(r, file.packagePath, name);
    var (r1, h) := FindOrRegister(r, file.packagePath, name);
    FillDeclaredEffect(r1, file, h, name, body);
  }

  /**
   * A placeholder created by an earlier use of a name is the very type a later
   * declaration of that name resolves: its holders now see a record.
   */
  lemma ForwardReferenceResolved(r: Registry, file: ParsedFile, name: string, body: Node)
    requires RegistryValid(r) && Lookup(r, file.packagePath, name) == None
    ensures var (r1, t1) := ConvertExpr(r, file, Ident(name));
            var (r2, t2) := DeclareSpec(r1, file, name, body);
            && t1 == Slot(|r.slots|) && |r.slots| < |r1.slots| && r1.slots[|r.slots|] == Lazy(name)
            && t2 == t1
            && t1.handle < |r2.slots| && r2.slots[t1.handle].Record?
  {
    ResolveNameGrows(r, file.packagePath, name);
    var (r1, t1) := ConvertExpr(r, file, Ident(name));
    DeclareSpecEffect(r1, file, name, body);
  }

  /**
   * Declaring a name twice writes both times into the same type, so the second
   * declaration is what remains; the first is only logged as a redefinition.
   */
  lemma RedeclarationLastWins(r: Registry, file: ParsedFile, name: string, body1: Node, body2: Node)
    requires RegistryValid(r)
    requires Key(file.packagePath, name) in r.types || Lookup(r, file.packagePath, name) == None
    ensures var (r1, t1) := DeclareSpec(r, file, name, body1);
            var (r2, t2) := DeclareSpec(r1, file, name, body2);
            && t2 == t1 && t1.Slot? && t1.handle < |r2.slots|
            && (!(body2.StructNode? || body2.InterfaceNode?) ==> r2.slots[t1.handle] == Record(RecordData(name, "", [], [])))
            && (body2.StructNode? || body2.InterfaceNode? ==> r2.slots[t1.handle].rec.name == "")
  {
    DeclareSpecEffect(r, file, name, body1);
    var (r1, t1) := DeclareSpec(r, file, name, body1);
    assert Lookup(r1, file.packagePath, name) == Some(t1.handle);
    DeclareSpecEffect(r1, file, name, body2);
  }

  /**
   * As written, a declared struct or interface loses its name, so every such
   * declaration signs "" and all of them share one signature.
   */
  lemma DeclaredStructsSignEmpty(r: Registry, file: ParsedFile, name: string, body: Node)
    requires RegistryValid(r) && (body.StructNode? || body.InterfaceNode?)
    ensures var (r2, t) := DeclareSpec(r, file, name, body);
            Signature(r2.slots, t) == ""
  {
    DeclareSpecEffect(r, file, name, body);
  }

  /** The declarations ProcessNode converts. */
  function TypeDecls(ds: seq<Decl>): (ts: seq<Decl>)
    ensures forall i :: 0 <= i < |ts| ==> DeclaresType(ts[i])
  {
    if ds == [] then []
    else TypeDecls(ds[..|ds| - 1]) + (if DeclaresType(ds[|ds| - 1]) then [ds[|ds| - 1]] else [])
  }

  /** Only declarations whose first spec is a TypeSpec change the library. */
  lemma {:induction false} OnlyTypeDeclsMatter(r: Registry, file: ParsedFile, ds: seq<Decl>)
    ensures ProcessDecls(r, file, ds) == ProcessDecls(r, file, TypeDecls(ds))
  {
    if ds != [] {
      var front, last := ds[..|ds| - 1], ds[|ds| - 1];
      OnlyTypeDeclsMatter(r, file, front);
      if DeclaresType(last) {
        var ts := TypeDecls(front) + [last];
        assert ts[..|ts| - 1] == TypeDecls(front);
      } else {
        assert TypeDecls(ds) == TypeDecls(front);
      }
    }
  }

  // ---------------------------------------------------------------------------
  // Searches
  // ---------------------------------------------------------------------------

  /** The declaration FindDecl looks for: a GenDecl whose first spec is a TypeSpec of that name. */
  predicate Declares(d: Decl, declName: string)
  {
    d.GenDecl? && |d.specs| > 0 && d.specs[0].TypeSpec? && d.specs[0].name == declName
  }

  /** A declaration FindDecl steps over. */
  predicate Skipped(d: Decl, declName: string)
  {
    !(d.GenDecl? && |d.specs| > 0) || (d.specs[0].TypeSpec? && d.specs[0].name != declName)
  }

  /**
   * FindDecl: the first GenDecl whose first spec declares `declName`, or nil. Its
   * unchecked type assertion panics on a GenDecl whose first spec is not a TypeSpec
   * (an import or a const block, say), which is an Err here.
   */
  function FindDecl(decls: seq<Decl>, declName: string): Result<Option<Decl>, string>
  {
    if decls == [] then Ok(None)
    else if !(decls[0].GenDecl? && |decls[0].specs| > 0) then FindDecl(decls[1..], declName)
    else if !decls[0].specs[0].TypeSpec? then Err("interface conversion: ast.Spec is not *ast.TypeSpec")
    else if decls[0].specs[0].name == declName then Ok(Some(decls[0]))
    else FindDecl(decls[1..], declName)
  }

  lemma {:induction false} FindDeclSpec(decls: seq<Decl>, declName: string)
    ensures var res := FindDecl(decls, declName);
            && (res == Ok(None) <==> forall i :: 0 <= i < |decls| ==> Skipped(decls[i], declName))
            && (res.Ok? && res.value.Some? ==>
                  exists i :: 0 <= i < |decls| && decls[i] == res.value.value && Declares(decls[i], declName)
                              && forall j :: 0 <= j < i ==> Skipped(decls[j], declName))
            && (res.Err? ==>
                  exists i :: 0 <= i < |decls| && decls[i].GenDecl? && |decls[i].specs| > 0 && !decls[i].specs[0].TypeSpec?
                              && forall j :: 0 <= j < i ==> Skipped(decls[j], declName))
  {
    if decls != [] {
      var d := decls[0];
      var tail := decls[1..];
      FindDeclSpec(tail, declName);
      var res := FindDecl(decls, declName);
      if Skipped(d, declName) && !Declares(d, declName) {
        assert res == FindDecl(tail, declName);
        if res.Ok? && res.value.Some? {
          var i :| 0 <= i < |tail| && tail[i] == res.value.value && Declares(tail[i], declName)
                   && forall j :: 0 <= j < i ==> Skipped(tail[j], declName);
          assert decls[i + 1] == tail[i];
          assert forall j :: 0 <= j < i + 1 ==> Skipped(decls[j], declName) by {
            forall j | 0 <= j < i + 1 ensures Skipped(decls[j], declName) {
              if j > 0 { assert decls[j] == tail[j - 1]; }
            }
          }
        }
        if res.Err? {
          var i :| 0 <= i < |tail| && tail[i].GenDecl? && |tail[i].specs| > 0 && !tail[i].specs[0].TypeSpec?
                   && forall j :: 0 <= j < i ==> Skipped(tail[j], declName);
          assert decls[i + 1] == tail[i];
          assert forall j :: 0 <= j < i + 1 ==> Skipped(decls[j], declName) by {
            forall j | 0 <= j < i + 1 ensures Skipped(decls[j], declName) {
              if j > 0 { assert decls[j] == tail[j - 1]; }
            }
          }
        }
        if res == Ok(None) {
          forall i | 0 <= i < |decls| ensures Skipped(decls[i], declName) {
            if i > 0 { assert decls[i] == tail[i - 1]; }
          }
        }
      } else {
        assert !Skipped(d, declName);
      }
    }
  }

  /** strings.HasPrefix. */
  predicate HasPrefix(s: string, prefix: string)
  {
    |prefix| <= |s| && s[..|prefix|] == prefix
  }

  /**
   * PackagePathForFile, with GOROOT followed by the GOPATH entries as a parameter:
   * the rest of the path after the first folder + "src/" it starts with, else "".
   */
  function PackagePathForFile(fullpath: string, folders: seq<string>): string
  {
    if folders == [] then ""
    else if HasPrefix(fullpath, folders[0] + "src/") then fullpath[|folders[0] + "src/"|..]
    else PackagePathForFile(fullpath, folders[1..])
  }

  /** The folder list: GOROOT, then GOPATH split at ';'. */
  function SearchFolders(goroot: string, gopath: string): (folders: seq<string>)
    ensures |folders| >= 2 && folders[0] == goroot
  {
    [goroot] + Split(gopath, ';')
  }

  lemma {:induction false} PackagePathForFileSpec(fullpath: string, folders: seq<string>)
    ensures var p := PackagePathForFile(fullpath, folders);
            && ((forall i :: 0 <= i < |folders| ==> !HasPrefix(fullpath, folders[i] + "src/")) ==> p == "")
            && ((exists i :: 0 <= i < |folders| && HasPrefix(fullpath, folders[i] + "src/")) ==>
                  exists i :: 0 <= i < |folders| && fullpath == folders[i] + "src/" + p
                              && forall j :: 0 <= j < i ==> !HasPrefix(fullpath, folders[j] + "src/"))
  {
    if folders != [] {
      var tail := folders[1..];
      PackagePathForFileSpec(fullpath, tail);
      var p := PackagePathForFile(fullpath, folders);
      var root := folders[0] + "src/";
      if HasPrefix(fullpath, root) {
        assert fullpath == root + p;
      } else {
        if exists i :: 0 <= i < |folders| && HasPrefix(fullpath, folders[i] + "src/") {
          var k :| 0 <= k < |folders| && HasPrefix(fullpath, folders[k] + "src/");
          assert k > 0 && tail[k - 1] == folders[k];
          var i :| 0 <= i < |tail| && fullpath == tail[i] + "src/" + p
                   && forall j :: 0 <= j < i ==> !HasPrefix(fullpath, tail[j] + "src/");
          assert folders[i + 1] == tail[i];
          forall j | 0 <= j < i + 1 ensures !HasPrefix(fullpath, folders[j] + "src/") {
            if j > 0 { assert folders[j] == tail[j - 1]; }
          }
        }
        forall i | 0 <= i < |tail| ensures tail[i] == folders[i + 1] { }
      }
    }
  }

  /**
   * The example in the comment above PackagePathForFile: GOPATH folders without a
   * trailing slash. As written, folder + "src/" is "/home/user1/asrc/", which the
   * path does not start with, so the answer is "" instead of the package path.
   */
  lemma PackagePathDocExampleFails()
    ensures PackagePathForFile("/home/user1/a/src/github.com/theuser/repo",
                               ["/user/local/go", "/home/user1/a", "/home/user1/b"]) == ""
  {
    var path := "/home/user1/a/src/github.com/theuser/repo";
    var folders := ["/user/local/go", "/home/user1/a", "/home/user1/b"];
    var r0, r1, r2 := folders[0] + "src/", folders[1] + "src/", folders[2] + "src/";
    assert path[1] == 'h' && r0[1] == 'u';
    NotPrefixAt(path, r0, 1);
    assert path[13] == '/' && r1[13] == 's';
    NotPrefixAt(path, r1, 13);
    assert path[12] == 'a' && r2[12] == 'b';
    NotPrefixAt(path, r2, 12);
    assert folders[1..][1..][1..] == [];
    assert PackagePathForFile(path, folders[1..][1..]) == PackagePathForFile(path, folders[1..][1..][1..]);
    assert PackagePathForFile(path, folders[1..]) == PackagePathForFile(path, folders[1..][1..]);
    assert PackagePathForFile(path, folders) == PackagePathForFile(path, folders[1..]);
  }

  /** One differing position rules out a prefix. */
  lemma NotPrefixAt(s: string, prefix: string, i: nat)
    requires i < |s| && i < |prefix| && s[i] != prefix[i]
    ensures !HasPrefix(s, prefix)
  {
    if |prefix| <= |s| {
      assert s[..|prefix|][i] == s[i];
    }
  }

  /**
   * A folder with exactly one separator before "src/": the folder, then "/src/",
   * where a trailing slash of the folder serves as the separator.
   */
  function SrcRoot(folder: string): (root: string)
    ensures |folder| < |root| && root[..|folder|] == folder
    ensures |root| >= 5 && root[|root| - 5..] == "/src/"
    ensures |root| == |folder| + 4 <==> folder != [] && folder[|folder| - 1] == '/'
    ensures |root| == |folder| + 4 || |root| == |folder| + 5
  {
    if folder != [] && folder[|folder| - 1] == '/' then folder + "src/" else folder + "/src/"
  }

  /** PackagePathForFile with the separator the comment's example assumes. */
  function PackagePathForFileJoined(fullpath: string, folders: seq<string>): string
  {
    if folders == [] then ""
    else if HasPrefix(fullpath, SrcRoot(folders[0])) then fullpath[|SrcRoot(folders[0])|..]
    else PackagePathForFileJoined(fullpath, folders[1..])
  }

  /** The corrected search agrees with the source when every folder ends in a slash. */
  lemma {:induction false} PackagePathForFileJoinedAgrees(fullpath: string, folders: seq<string>)
    requires forall j :: 0 <= j < |folders| ==> folders[j] != [] && folders[j][|folders[j]| - 1] == '/'
    ensures PackagePathForFileJoined(fullpath, folders) == PackagePathForFile(fullpath, folders)
  {
    if folders != [] {
      assert SrcRoot(folders[0]) == folders[0] + "src/";
      PackagePathForFileJoinedAgrees(fullpath, folders[1..]);
    }
  }

  /** On the comment's example the corrected search gives the package path. */
  lemma PackagePathDocExampleJoined()
    ensures PackagePathForFileJoined("/home/user1/a/src/github.com/theuser/repo",
                                     ["/user/local/go", "/home/user1/a", "/home/user1/b"]) == "github.com/theuser/repo"
  {
    var folders := ["/user/local/go", "/home/user1/a", "/home/user1/b"];
    var path := "/home/user1/a/src/github.com/theuser/repo";
    GorootSkipped(path);
    GopathEntryMatches(path);
    assert folders[1..] == ["/home/user1/a", "/home/user1/b"];
  }

  lemma GorootSkipped(path: string)
    requires path == "/home/user1/a/src/github.com/theuser/repo"
    ensures !HasPrefix(path, SrcRoot("/user/local/go"))
  {
    var root := SrcRoot("/user/local/go");
    assert root == "/user/local/go/src/";
    assert path[1] == 'h' && root[1] == 'u';
  }

  lemma GopathEntryMatches(path: string)
    requires path == "/home/user1/a/src/github.com/theuser/repo"
    ensures HasPrefix(path, SrcRoot("/home/user1/a"))
    ensures path[|SrcRoot("/home/user1/a")|..] == "github.com/theuser/repo"
  {
    var root := SrcRoot("/home/user1/a");
    assert root == "/home/user1/a" + "/src/";
    assert root == "/home/user1/a/src/";
    assert path == root + "github.com/theuser/repo";
    assert path[..|root|] == root;
    assert path[|root|..] == "github.com/theuser/repo";
  }
}
