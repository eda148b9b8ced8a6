/**
 * rest/generator.go: the naming of generated reader and writer functions, the
 * choice of template family per type kind, and the Generator object's fields
 * that the templates read.
 *
 * ShortNameForPackage is not defined by the library; it is the parameter
 * `shortName`. Template loading and rendering are not modelled: a rendering is
 * represented by the template path it would render.
 */
module Generator {
  import opened Wrappers
  import opened Types
  import Text
  import Closure

  /** A package-qualified name: the bare name in the global package, else alias + "_" + name. */
  function QualifiedName(shortName: string -> string, pkg: string, name: string): string
  {
    if pkg == "" then name else shortName(pkg) + "_" + name
  }

  /** The fallback text for a kind IOMethodForType has no case for (only the null type's class 0 reaches it). */
  function UnknownWriter(typeClass: nat): string
  {
    "UnknownWriter, Type: " + Text.NatToString(typeClass)
  }

  /** IOMethodForType on the contents of a registered type; records do not recurse. */
  function NominalIOMethod(shortName: string -> string, c: Nominal): string
  {
    match c
    case Lazy(n) => n
    case Basic(n, pkg) => QualifiedName(shortName, pkg, n)
    case Record(r) => if r.name == "" then "interface" else QualifiedName(shortName, r.pkg, r.name)
    case _ => UnknownWriter(0)
  }

  function Prefixed(prefix: string, r: Result<string, string>): (p: Result<string, string>)
    ensures p.Ok? <==> r.Ok?
    ensures p.Ok? ==> p.value == prefix + r.value
  {
    match r
    case Ok(s) => Ok(prefix + s)
    case Err(e) => Err(e)
  }

  /**
   * IOMethodForType: the suffix of the Write_/Read_ function for a type. The two
   * panics (function and tuple types) are the Err results.
   */
  function IOMethodForType(slots: seq<Nominal>, shortName: string -> string, t: Type): Result<string, string>
    requires ClosedIn(t, |slots|)
  {
    match t
    case Null => Ok(UnknownWriter(0))
    case Lazy(n) => Ok(n)
    case Basic(n, pkg) => Ok(QualifiedName(shortName, pkg, n))
    case Alias(_, x) => IOMethodForType(slots, shortName, x)
    case Reference(x) => Prefixed("Ref_", IOMethodForType(slots, shortName, x))
    case Function(_) => Err("Function types cannot be serialized")
    case Tuple(_) => Err("Warning: Tuple types not supported in GO")
    case Record(r) => Ok(if r.name == "" then "interface" else QualifiedName(shortName, r.pkg, r.name))
    case Map(k, v) =>
      (match IOMethodForType(slots, shortName, k)
       case Err(e) => Err(e)
       case Ok(a) => Prefixed("Map_" + a + "_", IOMethodForType(slots, shortName, v)))
    case List(e) => Prefixed("List_", IOMethodForType(slots, shortName, e))
    case Slot(h) => Ok(NominalIOMethod(shortName, slots[h]))
  }

  /** The types a reader/writer can be named for: no function or tuple is reached through the type's own structure. */
  predicate Serializable(t: Type)
  {
    match t
    case Function(_) => false
    case Tuple(_) => false
    case Alias(_, x) => Serializable(x)
    case Reference(x) => Serializable(x)
    case List(e) => Serializable(e)
    case Map(k, v) => Serializable(k) && Serializable(v)
    case _ => true
  }

  /** Naming succeeds exactly for the serializable types. */
  lemma {:induction false} IOMethodOkIff(slots: seq<Nominal>, shortName: string -> string, t: Type)
    requires ClosedIn(t, |slots|)
    ensures IOMethodForType(slots, shortName, t).Ok? <==> Serializable(t)
  {
    match t
    case Alias(_, x) => IOMethodOkIff(slots, shortName, x);
    case Reference(x) => IOMethodOkIff(slots, shortName, x);
    case List(e) => IOMethodOkIff(slots, shortName, e);
    case Map(k, v) =>
      IOMethodOkIff(slots, shortName, k);
      IOMethodOkIff(slots, shortName, v);
    case _ =>
  }

  /** The type with every alias in its own structure replaced by its target. */
  function Unaliased(t: Type): (u: Type)
    ensures !u.Alias?
  {
    match t
    case Alias(_, x) => Unaliased(x)
    case Reference(x) => Reference(Unaliased(x))
    case List(e) => List(Unaliased(e))
    case Map(k, v) => Map(Unaliased(k), Unaliased(v))
    case _ => t
  }

  lemma {:induction false} UnaliasedClosed(t: Type, n: nat)
    requires ClosedIn(t, n)
    ensures ClosedIn(Unaliased(t), n)
  {
    match t
    case Alias(_, x) => UnaliasedClosed(x, n);
    case Reference(x) => UnaliasedClosed(x, n);
    case List(e) => UnaliasedClosed(e, n);
    case Map(k, v) => UnaliasedClosed(k, n); UnaliasedClosed(v, n);
    case _ =>
  }

  /** Aliases are transparent to naming: a type and its alias-free form get the same name. */
  lemma {:induction false} AliasesTransparent(slots: seq<Nominal>, shortName: string -> string, t: Type)
    requires ClosedIn(t, |slots|)
    ensures ClosedIn(Unaliased(t), |slots|)
    ensures IOMethodForType(slots, shortName, t) == IOMethodForType(slots, shortName, Unaliased(t))
  {
    UnaliasedClosed(t, |slots|);
    match t
    case Alias(_, x) => AliasesTransparent(slots, shortName, x);
    case Reference(x) => AliasesTransparent(slots, shortName, x);
    case List(e) => AliasesTransparent(slots, shortName, e);
    case Map(k, v) =>
      AliasesTransparent(slots, shortName, k);
      AliasesTransparent(slots, shortName, v);
    case _ =>
  }

  /** Nested collections of global basic types are named from the outside in. */
  lemma NestedCollectionName(slots: seq<Nominal>, shortName: string -> string)
    ensures IOMethodForType(slots, shortName, List(Map(Basic("int", ""), Basic("string", ""))))
      == Ok("List_Map_int_string")
    ensures IOMethodForType(slots, shortName, Reference(Record(RecordData("User", "github.com/x/models", [], []))))
      == Ok("Ref_" + shortName("github.com/x/models") + "_User")
    ensures IOMethodForType(slots, shortName, Record(RecordData("", "", [], []))) == Ok("interface")
  {
    var m := Map(Basic("int", ""), Basic("string", ""));
    assert ClosedIn(Basic("int", ""), |slots|) && ClosedIn(Basic("string", ""), |slots|);
    assert ClosedIn(m, |slots|);
    assert IOMethodForType(slots, shortName, Basic("int", "")) == Ok("int");
    assert IOMethodForType(slots, shortName, m) == Ok("Map_" + "int" + "_" + "string");
    assert "Map_" + "int" + "_" + "string" == "Map_int_string";
    assert IOMethodForType(slots, shortName, List(m)) == Ok("List_" + "Map_int_string");
    assert "List_" + "Map_int_string" == "List_Map_int_string";
    var u := Record(RecordData("User", "github.com/x/models", [], []));
    assert AllClosedIn(u.rec.bases, |slots|) && FieldsClosedIn(u.rec.fields, |slots|);
    assert u.rec.pkg != "" by { assert u.rec.pkg[0] == 'g'; }
    assert u.rec.name != "" by { assert u.rec.name[0] == 'U'; }
    var a := shortName("github.com/x/models");
    assert QualifiedName(shortName, u.rec.pkg, u.rec.name) == a + "_" + "User";
    assert a + "_" + "User" == a + "_User";
    assert IOMethodForType(slots, shortName, u) == Ok(a + "_User");
    assert "Ref_" + (shortName("github.com/x/models") + "_User") == "Ref_" + shortName("github.com/x/models") + "_User";
  }

  /** The template family EmitTypeWriterBody and EmitTypeReader choose, by type class. */
  datatype Dispatch = Family(family: string) | NoEmit | Fatal

  /** The class of a type: a registered type is classed by its slot's contents. */
  function ClassOf(slots: seq<Nominal>, t: Type): (c: Type)
    requires ClosedIn(t, |slots|)
    ensures !c.Slot?
  {
    if t.Slot? then slots[t.handle] else t
  }

  /** The switch on TypeClass: named types emit nothing, the five structured kinds have a family, the rest is fatal. */
  function TemplateFamily(slots: seq<Nominal>, t: Type): Dispatch
    requires ClosedIn(t, |slots|)
  {
    match ClassOf(slots, t)
    case List(_) => Family("list")
    case Map(_, _) => Family("map")
    case Reference(_) => Family("ref")
    case Record(_) => Family("record")
    case Alias(_, _) => Family("alias")
    case Basic(_, _) => NoEmit
    case _ => Fatal
  }

  /** The templates EmitTypeWriter renders, in order; Err is the panic of an unknown kind. */
  function WriterTemplates(dir: string, slots: seq<Nominal>, t: Type): Result<seq<string>, string>
    requires ClosedIn(t, |slots|)
  {
    match TemplateFamily(slots, t)
    case Family(f) => Ok([dir + "/writer_header.gen", dir + "/writer_" + f + ".gen", dir + "/writer_footer.gen"])
    case NoEmit => Ok([dir + "/writer_header.gen", dir + "/writer_footer.gen"])
    case Fatal => Err("Unknown type")
  }

  /** The templates EmitTypeReader renders, in order; a named type renders none. */
  function ReaderTemplates(dir: string, slots: seq<Nominal>, t: Type): Result<seq<string>, string>
    requires ClosedIn(t, |slots|)
  {
    match TemplateFamily(slots, t)
    case Family(f) => Ok([dir + "/reader_header.gen", dir + "/reader_" + f + ".gen", dir + "/reader_footer.gen"])
    case NoEmit => Ok([])
    case Fatal => Err("Unknown type")
  }

  /**
   * A registered type is fatal to the emitter exactly when its slot was never
   * resolved (a Lazy placeholder) or holds the null type; a resolved record gets
   * the record family and a basic type emits nothing.
   */
  lemma RegisteredDispatch(slots: seq<Nominal>, h: nat)
    requires h < |slots|
    ensures TemplateFamily(slots, Slot(h)) == Fatal <==> slots[h].Lazy? || slots[h].Null?
    ensures slots[h].Record? <==> TemplateFamily(slots, Slot(h)) == Family("record")
    ensures slots[h].Basic? <==> TemplateFamily(slots, Slot(h)) == NoEmit
  {
  }

  /**
   * The writer and the reader of a type fail together, and when a family is
   * chosen both render that family's body template, between their own header
   * and footer.
   */
  lemma WriterReaderAgree(dir: string, slots: seq<Nominal>, t: Type)
    requires ClosedIn(t, |slots|)
    ensures WriterTemplates(dir, slots, t).Ok? <==> ReaderTemplates(dir, slots, t).Ok?
    ensures WriterTemplates(dir, slots, t).Ok? <==> TemplateFamily(slots, t) != Fatal
    ensures TemplateFamily(slots, t).Family? ==>
      var f := TemplateFamily(slots, t).family;
      && f in {"list", "map", "ref", "record", "alias"}
      && |WriterTemplates(dir, slots, t).value| == 3 == |ReaderTemplates(dir, slots, t).value|
      && WriterTemplates(dir, slots, t).value[1] == dir + "/writer_" + f + ".gen"
      && ReaderTemplates(dir, slots, t).value[1] == dir + "/reader_" + f + ".gen"
    ensures TemplateFamily(slots, t) == NoEmit ==> ReaderTemplates(dir, slots, t) == Ok([])
  {
  }

  /** The registered or inline record behind a type, if it is one (the `.(*RecordTypeData)` assertion). */
  function RecordOf(slots: seq<Nominal>, t: Type): (r: Option<RecordData>)
    ensures r.Some? ==> t.Record? || (t.Slot? && t.handle < |slots| && slots[t.handle].Record?)
  {
    match t
    case Record(rd) => Some(rd)
    case Slot(h) => if h < |slots| && slots[h].Record? then Some(slots[h].rec) else None
    case _ => None
  }

  /** The Generator object: the fields the templates read and the marker callback. */
  class Generator {
    var templatesDir: string
    var package: string
    var clientPackageName: string
    var serviceName: string
    var clientPrefix: string
    var clientSuffix: string
    var serviceType: Option<Type>
    var transportRequest: string
    var opName: string
    var opType: Option<FunctionData>
    var opMethod: string
    var opEndpoint: string
    var typeMarker: Closure.TypeMarker?<Type>

    /** NewGenerator, without the template loading. */
    constructor (templatesDir: string)
      ensures this.templatesDir == templatesDir
      ensures clientPackageName == "restclient" && clientSuffix == "Client" && transportRequest == "*http.Request"
      ensures package == "" && serviceName == "" && clientPrefix == "" && serviceType == None
      ensures opName == "" && opType == None && opMethod == "" && opEndpoint == ""
      ensures typeMarker == null
    {
      this.templatesDir := templatesDir;
      clientPackageName, clientSuffix, transportRequest := "restclient", "Client", "*http.Request";
      package, serviceName, clientPrefix, serviceType := "", "", "", None;
      opName, opType, opMethod, opEndpoint := "", None, "", "";
      typeMarker := null;
    }

    /** ClientPrefix + ServiceName + ClientSuffix. */
    function ClientName(): (name: string)
      reads this
      ensures |name| == |clientPrefix| + |serviceName| + |clientSuffix|
      ensures name[..|clientPrefix|] == clientPrefix
      ensures name[|clientPrefix|..|clientPrefix| + |serviceName|] == serviceName
      ensures name[|clientPrefix| + |serviceName|..] == clientSuffix
    {
      clientPrefix + serviceName + clientSuffix
    }

    /** The service type's record, if the service type is one. */
    function ServiceTypeData(slots: seq<Nominal>): Option<RecordData>
      reads this
    {
      if serviceType.Some? then RecordOf(slots, serviceType.value) else None
    }

    /** MarkType: hands exactly `types` to the marker when one is set, and yields "". */
    method MarkType(types: seq<Type>) returns (r: string)
      modifies typeMarker
      ensures r == ""
      ensures typeMarker != null ==>
        typeMarker.State() == Closure.MarkAll(old(typeMarker.State()), types, typeMarker.sig)
    {
      if typeMarker != null {
        typeMarker.Mark(types);
      }
      r := "";
    }

    /** MarkTypes: a nil list marks nothing. */
    method MarkTypes(types: Option<seq<Type>>) returns (r: string)
      modifies typeMarker
      ensures r == ""
      ensures types.None? ==> typeMarker == null || typeMarker.State() == old(typeMarker.State())
      ensures types.Some? && typeMarker != null ==>
        typeMarker.State() == Closure.MarkAll(old(typeMarker.State()), types.value, typeMarker.sig)
    {
      r := "";
      if types.Some? {
        r := MarkType(types.value);
      }
    }

    /**
     * EmitClientClass, up to rendering client.gen: a non-record service type is
     * an error and changes nothing; a record becomes the service type and its
     * name the service name.
     */
    method EmitClientClass(slots: seq<Nominal>, service: Type) returns (err: Option<string>)
      modifies this
      ensures RecordOf(slots, service).None? ==>
        err == Some("Can only classes for record/container types")
        && serviceType == old(serviceType) && serviceName == old(serviceName)
      ensures RecordOf(slots, service).Some? ==>
        && err == None
        && serviceType == Some(service)
        && serviceName == RecordOf(slots, service).value.name
        && ServiceTypeData(slots) == RecordOf(slots, service)
        && ClientName() == old(clientPrefix) + RecordOf(slots, service).value.name + old(clientSuffix)
      ensures clientPrefix == old(clientPrefix) && clientSuffix == old(clientSuffix)
      ensures opName == old(opName) && opType == old(opType) && opMethod == old(opMethod) && opEndpoint == old(opEndpoint)
      ensures templatesDir == old(templatesDir) && typeMarker == old(typeMarker)
      ensures clientPackageName == old(clientPackageName)
      ensures package == old(package) && transportRequest == old(transportRequest)
    {
      var rd := RecordOf(slots, service);
      if rd.None? {
        return Some("Can only classes for record/container types");
      }
      serviceType := Some(service);
      serviceName := rd.value.name;
      err := None;
    }

    /** EmitServiceCallMethod, up to rendering callmethod.gen: the operation fields it sets. */
    method EmitServiceCallMethod(name: string, fn: FunctionData)
      modifies this
      ensures opName == name && opType == Some(fn) && opMethod == "GET" && opEndpoint == "http://hello.world/"
      ensures serviceType == old(serviceType) && serviceName == old(serviceName)
      ensures clientPrefix == old(clientPrefix) && clientSuffix == old(clientSuffix)
      ensures templatesDir == old(templatesDir) && typeMarker == old(typeMarker)
      ensures clientPackageName == old(clientPackageName)
      ensures package == old(package) && transportRequest == old(transportRequest)
    {
      opName := name;
      opType := Some(fn);
      opMethod := "GET";
      opEndpoint := "http://hello.world/";
    }
  }
}
