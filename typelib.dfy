/**
 * typelib.go: the type library. It stores registered types under the key
 * pkg + "." + name (first registration wins), keeps a table from package paths
 * to short aliases and back, and computes its own variant of the signature.
 *
 * `Registry` is the library's state as a value and the functions over it are the
 * specification; the class `TypeLibrary` holds the same state in fields and its
 * methods are proved to follow that specification.
 */
module TypeLib {
  import opened Wrappers
  import opened Types
  import opened Text

  /** The names NewTypeLibrary registers as basic types of the global package "". */
  const BasicNames: seq<string> := [
    "error", "string", "float", "float32", "float64", "bool", "byte", "int", "int8",
    "int16", "int32", "int64", "uint", "uint8", "uint16", "uint32", "uint64"]

  function Key(pkg: string, name: string): string { pkg + "." + name }

  datatype Registry = Registry(
    slots: seq<Nominal>,                   // the registered *Type objects
    types: map<string, nat>,               // key -> handle of a slot
    typeCounter: int,
    shortNamesForPkg: map<string, string>, // package path -> alias
    pkgByShortName: map<string, string>,   // alias -> package path
    pkgCounter: nat)

  /**
   * Every slot is registered under exactly one key, the counter counts the
   * registrations, and no slot points outside the arena.
   */
  ghost predicate RegistryValid(r: Registry)
  {
    && r.typeCounter == |r.slots| == |r.types|
    && (forall k :: k in r.types ==> r.types[k] < |r.slots|)
    && (forall k1, k2 :: k1 in r.types && k2 in r.types && k1 != k2 ==> r.types[k1] != r.types[k2])
    && (forall h :: 0 <= h < |r.slots| ==> ClosedIn(r.slots[h], |r.slots|))
  }

  function EmptyRegistry(): Registry
  {
    Registry([], map[], 0, map[], map[], 0)
  }

  /**
   * AddPackage: the alias of a known path is returned unchanged; a new non-empty
   * path gets its last element (the `name :=` inside the loop shadows the outer
   * name, so elements are never concatenated, and the loop always returns in its
   * first round); the empty path gets "pkg" + pkgCounter, which stays 0.
   */
  function AddPackageTo(r: Registry, pkg: string): (res: (Registry, string))
    ensures res.0.slots == r.slots && res.0.types == r.types && res.0.typeCounter == r.typeCounter
    ensures res.0.pkgCounter == r.pkgCounter
    ensures pkg in r.shortNamesForPkg ==> res == (r, r.shortNamesForPkg[pkg])
    ensures pkg !in r.shortNamesForPkg ==> res.0.pkgByShortName == r.pkgByShortName[res.1 := pkg]
    ensures pkg !in r.shortNamesForPkg ==>
      res.1 == (if pkg != "" then Base(pkg) else "pkg" + NatToString(r.pkgCounter))
    ensures res.0.shortNamesForPkg == r.shortNamesForPkg[pkg := res.1]
  {
    if pkg in r.shortNamesForPkg then (r, r.shortNamesForPkg[pkg])
    else
      var alias := if pkg != "" then Base(pkg) else "pkg" + NatToString(r.pkgCounter);
      (r.(shortNamesForPkg := r.shortNamesForPkg[pkg := alias],
          pkgByShortName := r.pkgByShortName[alias := pkg]), alias)
  }

  /** A new path `dir/elem` is aliased by its last element, and the alias leads back to the path. */
  lemma NewPackageAlias(r: Registry, dir: string, elem: string)
    requires elem != "" && NoSlash(elem) && dir + "/" + elem !in r.shortNamesForPkg
    ensures AddPackageTo(r, dir + "/" + elem).1 == elem
    ensures PackageByShortName(AddPackageTo(r, dir + "/" + elem).0, elem) == dir + "/" + elem
  {
    BaseOfPath(dir, elem);
  }

  /** Registering a package a second time changes nothing and returns the same alias. */
  lemma AddPackageIdempotent(r: Registry, pkg: string)
    ensures var (r1, alias) := AddPackageTo(r, pkg);
            AddPackageTo(r1, pkg) == (r1, alias)
  {
  }

  /**
   * AddType: registers the package first, then returns the handle already stored
   * under the key, or stores `t` in a new slot and counts it.
   */
  function AddTypeTo(r: Registry, pkg: string, name: string, t: Nominal): (res: (Registry, nat))
    ensures Lookup(res.0, pkg, name) == Some(res.1)
    ensures res.0.shortNamesForPkg == AddPackageTo(r, pkg).0.shortNamesForPkg
    ensures res.0.pkgByShortName == AddPackageTo(r, pkg).0.pkgByShortName
    ensures Key(pkg, name) in r.types ==>
      res.1 == r.types[Key(pkg, name)] && res.0.slots == r.slots && res.0.types == r.types
      && res.0.typeCounter == r.typeCounter
    ensures Key(pkg, name) !in r.types ==>
      res.1 == |r.slots| && res.0.slots == r.slots + [t]
      && res.0.types == r.types[Key(pkg, name) := res.1] && res.0.typeCounter == r.typeCounter + 1
  {
    var r1 := AddPackageTo(r, pkg).0;
    var key := Key(pkg, name);
    if key in r1.types then (r1, r1.types[key])
    else (r1.(slots := r1.slots + [t], types := r1.types[key := |r1.slots|],
              typeCounter := r1.typeCounter + 1), |r1.slots|)
  }

  /** Registering keeps the library valid, provided the new type points only into the grown arena. */
  lemma AddTypeKeepsValid(r: Registry, pkg: string, name: string, t: Nominal)
    requires RegistryValid(r) && ClosedIn(t, |r.slots| + 1)
    ensures RegistryValid(AddTypeTo(r, pkg, name, t).0)
    ensures AddTypeTo(r, pkg, name, t).1 < |AddTypeTo(r, pkg, name, t).0.slots|
  {
    var key := Key(pkg, name);
    if key !in r.types {
      var r2 := AddTypeTo(r, pkg, name, t).0;
      forall h | 0 <= h < |r2.slots| ensures ClosedIn(r2.slots[h], |r2.slots|) {
        if h < |r.slots| {
          ClosedInGrows(r.slots[h], |r.slots|, |r2.slots|);
        }
      }
    }
  }

  function PackageByShortName(r: Registry, alias: string): string
  {
    if alias in r.pkgByShortName then r.pkgByShortName[alias] else ""
  }

  function GetShortPackageName(r: Registry, pkg: string): (alias: string)
    ensures pkg in r.shortNamesForPkg ==> alias == r.shortNamesForPkg[pkg]
    ensures pkg !in r.shortNamesForPkg ==> alias == ""
  {
    if pkg in r.shortNamesForPkg then r.shortNamesForPkg[pkg] else ""
  }

  /**
   * After AddPackage, GetShortPackageName gives back the alias AddPackage returned,
   * leaves every other path's alias as it was, and a newly added path's alias
   * leads back to it.
   */
  lemma ShortNameAfterAddPackage(r: Registry, pkg: string, other: string)
    ensures var (r1, alias) := AddPackageTo(r, pkg);
            && GetShortPackageName(r1, pkg) == alias
            && (other != pkg ==> GetShortPackageName(r1, other) == GetShortPackageName(r, other))
            && (pkg !in r.shortNamesForPkg ==> PackageByShortName(r1, GetShortPackageName(r1, pkg)) == pkg)
  {
    var (r1, alias) := AddPackageTo(r, pkg);
    assert r1.shortNamesForPkg == r.shortNamesForPkg[pkg := alias];
  }

  /**
   * GetType: the handle stored under pkg + "." + name, else (when `pkg` may be a
   * short alias) the one under PackageByShortName(pkg) + "." + name.
   */
  function Lookup(r: Registry, pkg: string, name: string): (h: Option<nat>)
    ensures Key(pkg, name) in r.types ==> h == Some(r.types[Key(pkg, name)])
    ensures Key(pkg, name) !in r.types && pkg in r.pkgByShortName ==>
      h == (if Key(r.pkgByShortName[pkg], name) in r.types
            then Some(r.types[Key(r.pkgByShortName[pkg], name)]) else None)
    ensures Key(pkg, name) !in r.types && pkg !in r.pkgByShortName ==>
      h == (if Key("", name) in r.types then Some(r.types[Key("", name)]) else None)
    ensures RegistryValid(r) && h.Some? ==> h.value < |r.slots|
  {
    var key := Key(pkg, name);
    if key in r.types then Some(r.types[key])
    else
      var key2 := Key(PackageByShortName(r, pkg), name);
      if key2 in r.types then Some(r.types[key2]) else None
  }

  /**
   * A type registered under the package `dir/elem` is found under the short
   * alias `elem`, unless some package literally named `elem` has a type of the
   * same name (the exact key is tried first).
   */
  lemma AddThenGetByAlias(r: Registry, dir: string, elem: string, name: string, t: Nominal)
    requires elem != "" && NoSlash(elem) && dir + "/" + elem !in r.shortNamesForPkg
    requires Key(elem, name) !in r.types
    ensures var (r2, h) := AddTypeTo(r, dir + "/" + elem, name, t);
            Lookup(r2, elem, name) == Some(h)
  {
    var pkg := dir + "/" + elem;
    NewPackageAlias(r, dir, elem);
    var (r2, h) := AddTypeTo(r, pkg, name, t);
    assert |Key(elem, name)| < |Key(pkg, name)|;
  }

  /** The keys whose slot still holds an unresolved placeholder: the report ParseFiles logs. */
  function UnresolvedKeys(r: Registry): set<string>
    requires RegistryValid(r)
  {
    set k | k in r.types && r.slots[r.types[k]].Lazy?
  }

  /** The state after the constructor's calls to AddBasicType, one per name. */
  function AddBasicsTo(r: Registry, names: seq<string>): Registry
  {
    if names == [] then r
    else
      var last := names[|names| - 1];
      AddTypeTo(AddBasicsTo(r, names[..|names| - 1]), "", last, Basic(last, "")).0
  }

  function NewRegistry(): Registry
  {
    AddBasicsTo(EmptyRegistry(), BasicNames)
  }

  predicate Distinct<T(==)>(s: seq<T>)
  {
    forall i, j :: 0 <= i < j < |s| ==> s[i] != s[j]
  }

  /** `r` holds exactly the basic types `names`, slot i under key "." + names[i], with package "" aliased. */
  ghost predicate FilledWith(r: Registry, names: seq<string>)
  {
    && RegistryValid(r)
    && |r.slots| == |names|
    && (forall i :: 0 <= i < |names| ==> r.slots[i] == Basic(names[i], ""))
    && (forall i :: 0 <= i < |names| ==> Key("", names[i]) in r.types && r.types[Key("", names[i])] == i)
    && (forall k :: k in r.types ==> r.types[k] < |names| && k == Key("", names[r.types[k]]))
    && (names == [] ==> r.shortNamesForPkg == map[] && r.pkgByShortName == map[])
    && (names != [] ==> r.shortNamesForPkg == map["" := "pkg0"] && r.pkgByShortName == map["pkg0" := ""])
    && r.pkgCounter == 0
  }

  /** One more AddBasicType call with a fresh name extends the filling by that name. */
  lemma AddBasicStep(r0: Registry, front: seq<string>, last: string)
    requires FilledWith(r0, front) && forall i :: 0 <= i < |front| ==> front[i] != last
    ensures FilledWith(AddTypeTo(r0, "", last, Basic(last, "")).0, front + [last])
  {
    var key := Key("", last);
    forall k | k in r0.types ensures k != key {
      KeyInjective("", front[r0.types[k]], last);
    }
    AddTypeKeepsValid(r0, "", last, Basic(last, ""));
    var r := AddTypeTo(r0, "", last, Basic(last, "")).0;
    var r1 := AddPackageTo(r0, "").0;
    if front == [] {
      assert NatToString(0) == "0";
      assert "pkg" + NatToString(0) == "pkg0";
    }
    FilledWithExtends(r0, r, front, last);
  }

  lemma FilledWithExtends(r0: Registry, r: Registry, front: seq<string>, last: string)
    requires FilledWith(r0, front) && RegistryValid(r)
    requires r.slots == r0.slots + [Basic(last, "")]
    requires r.types == r0.types[Key("", last) := |front|]
    requires r.shortNamesForPkg == map["" := "pkg0"] && r.pkgByShortName == map["pkg0" := ""]
    requires r.pkgCounter == 0
    ensures FilledWith(r, front + [last])
  {
    assert |r.types| == |r0.types| + 1;
    FilledSlotsExtend(r0, r, front, last);
    FilledKeysExtend(r0, r, front, last);
  }

  lemma FilledSlotsExtend(r0: Registry, r: Registry, front: seq<string>, last: string)
    requires FilledWith(r0, front) && Key("", last) !in r0.types
    requires r.slots == r0.slots + [Basic(last, "")]
    requires r.types == r0.types[Key("", last) := |front|]
    ensures forall i :: 0 <= i < |front + [last]| ==>
      r.slots[i] == Basic((front + [last])[i], "")
      && Key("", (front + [last])[i]) in r.types && r.types[Key("", (front + [last])[i])] == i
  {
    var names := front + [last];
    forall i | 0 <= i < |names|
      ensures r.slots[i] == Basic(names[i], "")
      ensures Key("", names[i]) in r.types && r.types[Key("", names[i])] == i
    {
      if i < |front| {
        assert names[i] == front[i];
        assert r.slots[i] == r0.slots[i];
      }
    }
  }

  lemma FilledKeysExtend(r0: Registry, r: Registry, front: seq<string>, last: string)
    requires FilledWith(r0, front)
    requires r.types == r0.types[Key("", last) := |front|]
    ensures forall k :: k in r.types ==> r.types[k] < |front + [last]| && k == Key("", (front + [last])[r.types[k]])
  {
    var names := front + [last];
    var key := Key("", last);
    forall k | k in r.types ensures r.types[k] < |names| && k == Key("", names[r.types[k]]) {
      if k != key {
        assert k in r0.types && r.types[k] == r0.types[k];
        assert names[r0.types[k]] == front[r0.types[k]];
      }
    }
  }

  lemma KeyInjective(pkg: string, a: string, b: string)
    ensures Key(pkg, a) == Key(pkg, b) ==> a == b
  {
    if Key(pkg, a) == Key(pkg, b) {
      assert a == Key(pkg, a)[|pkg| + 1..];
      assert b == Key(pkg, b)[|pkg| + 1..];
    }
  }

  lemma DistinctFront<T>(s: seq<T>) returns (front: seq<T>, last: T)
    requires Distinct(s) && s != []
    ensures front + [last] == s && Distinct(front)
    ensures forall i :: 0 <= i < |front| ==> front[i] != last
  {
    front, last := s[..|s| - 1], s[|s| - 1];
    assert forall i :: 0 <= i < |front| ==> front[i] == s[i];
  }

  /** Registering distinct names from an empty library fills one slot per name, in order. */
  lemma {:induction false} AddBasicsContents(names: seq<string>)
    requires Distinct(names)
    ensures FilledWith(AddBasicsTo(EmptyRegistry(), names), names)
  {
    if names != [] {
      var front, last := DistinctFront(names);
      assert front == names[..|names| - 1] && last == names[|names| - 1];
      var r0 := AddBasicsTo(EmptyRegistry(), front);
      assert AddBasicsTo(EmptyRegistry(), names) == AddTypeTo(r0, "", last, Basic(last, "")).0;
      AddBasicsContents(front);
      AddBasicStep(r0, front, last);
    }
  }

  /** The 17 built-in names are pairwise different. */
  lemma BasicNamesDistinct()
    ensures Distinct(BasicNames)
  {
  }

  /** In a filled registry each name is found under package "" at its own position. */
  lemma FilledLookup(r: Registry, names: seq<string>)
    requires FilledWith(r, names)
    ensures forall i :: 0 <= i < |names| ==> Lookup(r, "", names[i]) == Some(i)
  {
    forall i | 0 <= i < |names| ensures Lookup(r, "", names[i]) == Some(i) {
      assert Key("", names[i]) in r.types;
    }
  }

  /** After NewTypeLibrary each of the 17 basic names is a basic type of package "". */
  lemma NewRegistryHasBasics()
    ensures var r := NewRegistry();
            && RegistryValid(r) && |r.slots| == |BasicNames| == 17
            && (forall i :: 0 <= i < |BasicNames| ==> r.slots[i] == Basic(BasicNames[i], "") && Lookup(r, "", BasicNames[i]) == Some(i))
            && AddPackageTo(r, "").1 == "pkg0"
  {
    BasicNamesDistinct();
    AddBasicsContents(BasicNames);
    FilledLookup(NewRegistry(), BasicNames);
  }

  /**
   * Two paths that end in the same element get the same alias, and the inverse
   * table keeps only the later path.
   */
  lemma SharedLastElementSharesAlias(r: Registry, dir1: string, dir2: string, elem: string)
    requires elem != "" && NoSlash(elem) && dir1 != dir2
    requires dir1 + "/" + elem !in r.shortNamesForPkg && dir2 + "/" + elem !in r.shortNamesForPkg
    ensures var (r1, a1) := AddPackageTo(r, dir1 + "/" + elem);
            var (r2, a2) := AddPackageTo(r1, dir2 + "/" + elem);
            && a1 == a2 == elem
            && PackageByShortName(r2, elem) == dir2 + "/" + elem
  {
    BaseOfPath(dir1, elem);
    BaseOfPath(dir2, elem);
  }

  /** The library's own signature: as (*Type).Signature except for function types. */
  function LibSignature(arena: seq<Nominal>, t: Type, argText: nat -> string): string
  {
    match t
    case Null => ""
    case Lazy(n) => n
    case Basic(n, _) => n
    case Alias(n, _) => n
    case Reference(x) => "*" + LibSignature(arena, x, argText)
    case Record(r) => r.name
    case Tuple(ts) => "(" + LibJoin(arena, ts, argText)
    case Function(f) =>
      "func (" + LibTypeListSignature(arena, f.inputs, argText) + ")"
      + (if f.outputs.SliceOf? then "(" + LibTypeListSignature(arena, f.outputs.elems, argText) + ")" else "")
      + (if f.exceptions.SliceOf? then " throws (" + LibTypeListSignature(arena, f.exceptions.elems, argText) + ")" else "")
    case List(e) => "[]" + LibSignature(arena, e, argText)
    case Map(k, v) => "map[" + LibSignature(arena, k, argText) + "]" + LibSignature(arena, v, argText)
    case Slot(h) => if h < |arena| then NominalSignature(arena[h]) else ""
  }

  /** The tuple fold of Signature, with `", "` between neighbours. */
  function LibJoin(arena: seq<Nominal>, ts: seq<Type>, argText: nat -> string): string
  {
    if ts == [] then ""
    else if |ts| == 1 then LibSignature(arena, ts[0], argText)
    else LibJoin(arena, ts[..|ts| - 1], argText) + ", " + LibSignature(arena, ts[|ts| - 1], argText)
  }

  /**
   * TypeListSignature(types, argfmt): each element is preceded by the formatted
   * argument text of its index (`argText`, the fmt.Sprintf(argfmt, index) text) and a space.
   */
  function LibTypeListSignature(arena: seq<Nominal>, ts: seq<Type>, argText: nat -> string): string
  {
    if ts == [] then ""
    else
      var i := |ts| - 1;
      (if i > 0 then LibTypeListSignature(arena, ts[..i], argText) + "," else "")
      + argText(i) + " " + LibSignature(arena, ts[i], argText)
  }

  /** Whether Signature reaches a function type (the only kind the two signatures treat differently). */
  predicate SignatureReachesFunction(t: Type)
  {
    match t
    case Function(_) => true
    case Reference(x) => SignatureReachesFunction(x)
    case List(e) => SignatureReachesFunction(e)
    case Map(k, v) => SignatureReachesFunction(k) || SignatureReachesFunction(v)
    case Tuple(ts) => exists i :: 0 <= i < |ts| && SignatureReachesFunction(ts[i])
    case _ => false
  }

  /** The library's signature and the type's own signature agree on every type without a function. */
  lemma {:induction false} LibSignatureAgrees(arena: seq<Nominal>, t: Type, argText: nat -> string)
    requires !SignatureReachesFunction(t)
    ensures LibSignature(arena, t, argText) == Signature(arena, t)
  {
    match t
    case Reference(x) => LibSignatureAgrees(arena, x, argText);
    case List(e) => LibSignatureAgrees(arena, e, argText);
    case Map(k, v) => LibSignatureAgrees(arena, k, argText); LibSignatureAgrees(arena, v, argText);
    case Tuple(ts) => LibJoinAgrees(arena, ts, argText);
    case _ =>
  }

  lemma LibSignatureAgreesWhenFunctionFree(arena: seq<Nominal>, t: Type, argText: nat -> string)
    ensures !SignatureReachesFunction(t) ==> LibSignature(arena, t, argText) == Signature(arena, t)
  {
    if !SignatureReachesFunction(t) {
      LibSignatureAgrees(arena, t, argText);
    }
  }

  lemma {:induction false} LibJoinAgrees(arena: seq<Nominal>, ts: seq<Type>, argText: nat -> string)
    requires forall i :: 0 <= i < |ts| ==> !SignatureReachesFunction(ts[i])
    ensures LibJoin(arena, ts, argText) == JoinSignatures(arena, ts, ", ")
  {
    if |ts| == 1 {
      LibSignatureAgrees(arena, ts[0], argText);
    } else if |ts| > 1 {
      LibJoinAgrees(arena, ts[..|ts| - 1], argText);
      LibSignatureAgrees(arena, ts[|ts| - 1], argText);
    }
  }

  /**
   * The type library as the generator uses it: the fields of TypeLibrary, with
   * the arena of registered types.
   */
  class TypeLibrary {
    var slots: seq<Nominal>
    var types: map<string, nat>
    var typeCounter: int
    var shortNamesForPkg: map<string, string>
    var pkgByShortName: map<string, string>
    var pkgCounter: nat

    function State(): Registry
      reads this
    {
      Registry(slots, types, typeCounter, shortNamesForPkg, pkgByShortName, pkgCounter)
    }

    ghost predicate Valid()
      reads this
    {
      RegistryValid(State())
    }

    /** NewTypeLibrary: an empty library with the basic types registered. */
    constructor ()
      ensures Valid() && State() == NewRegistry()
    {
      slots, types, typeCounter := [], map[], 0;
      shortNamesForPkg, pkgByShortName, pkgCounter := map[], map[], 0;
      new;
      for i := 0 to |BasicNames|
        invariant Valid()
        invariant State() == AddBasicsTo(EmptyRegistry(), BasicNames[..i])
      {
        assert BasicNames[..i + 1][..i] == BasicNames[..i];
        var _ := AddBasicType(BasicNames[i]);
      }
      assert BasicNames[..|BasicNames|] == BasicNames;
    }

    method AddPackage(pkg: string) returns (shortName: string)
      modifies this
      ensures (State(), shortName) == AddPackageTo(old(State()), pkg)
    {
      if pkg in shortNamesForPkg {
        return shortNamesForPkg[pkg];
      }
      if pkg != "" {
        // typelib.go's loop starts at tmppkg == pkg, which the check above found
        // unaliased, so it stores and returns filepath.Base(pkg) in its first round
        shortName := Base(pkg);
      } else {
        shortName := "pkg" + NatToString(pkgCounter);
      }
      shortNamesForPkg := shortNamesForPkg[pkg := shortName];
      pkgByShortName := pkgByShortName[shortName := pkg];
    }

    method AddType(pkg: string, name: string, t: Nominal) returns (alt: Type)
      requires Valid() && ClosedIn(t, |slots| + 1)
      modifies this
      ensures Valid()
      ensures State() == AddTypeTo(old(State()), pkg, name, t).0
      ensures alt == Slot(AddTypeTo(old(State()), pkg, name, t).1)
    {
      AddTypeKeepsValid(State(), pkg, name, t);
      var _ := AddPackage(pkg);
      var key := pkg + "." + name;
      if key in types {
        return Slot(types[key]);
      }
      typeCounter := typeCounter + 1;
      types := types[key := |slots|];
      alt := Slot(|slots|);
      slots := slots + [t];
    }

    method AddBasicType(name: string) returns (alt: Type)
      requires Valid()
      modifies this
      ensures Valid()
      ensures State() == AddTypeTo(old(State()), "", name, Basic(name, "")).0
      ensures alt == Slot(AddTypeTo(old(State()), "", name, Basic(name, "")).1)
    {
      alt := AddType("", name, Basic(name, ""));
    }

    function GetType(pkg: string, name: string): (t: Option<Type>)
      reads this
      ensures t.Some? <==> Lookup(State(), pkg, name).Some?
      ensures t.Some? ==> t.value == Slot(Lookup(State(), pkg, name).value)
    {
      match Lookup(State(), pkg, name)
      case Some(h) => Some(Slot(h))
      case None => None
    }

    function GetBasicType(name: string): (t: Option<Type>)
      reads this
      ensures t == GetType("", name)
    {
      GetType("", name)
    }

    /** Signature: agrees with the type model's signature on types without a function inside. */
    function Signature(t: Type, argText: nat -> string): (s: string)
      reads this
      ensures !SignatureReachesFunction(t) ==> s == Types.Signature(slots, t)
    {
      LibSignatureAgreesWhenFunctionFree(slots, t, argText);
      LibSignature(slots, t, argText)
    }

    /**
     * ForEach: calls `mapFunc` on the entries in map order (`order`, which lists
     * every key once) until a call answers true. `visited` lists the keys it was
     * called on.
     */
    method ForEach(order: seq<string>, mapFunc: (string, Type) -> bool) returns (visited: seq<string>)
      requires Distinct(order) && forall k :: k in types <==> k in order
      ensures |visited| <= |order| && visited == order[..|visited|]
      ensures forall j :: 0 <= j < |visited| - 1 ==> !mapFunc(visited[j], Slot(types[visited[j]]))
      ensures |visited| < |order| ==> |visited| > 0 && mapFunc(visited[|visited| - 1], Slot(types[visited[|visited| - 1]]))
    {
      visited := [];
      var i := 0;
      while i < |order|
        invariant 0 <= i <= |order| && visited == order[..i]
        invariant forall j :: 0 <= j < i ==> !mapFunc(order[j], Slot(types[order[j]]))
      {
        var k := order[i];
        visited := visited + [k];
        assert visited == order[..i + 1];
        if mapFunc(k, Slot(types[k])) {
          return;
        }
        i := i + 1;
      }
    }
  }
}
