/**
 * typesys.go: the simpler type registry. Types are kept by value under the key
 * pkg + "." + name; the first registration under a key wins.
 */
module TypeSys {
  import opened Wrappers
  import opened Types
  import TypeLib

  class TypeSystem {
    var types: map<string, Type>
    var typeCounter: int

    /** The counter counts the registered keys. */
    ghost predicate Valid()
      reads this
    {
      typeCounter == |types|
    }

    /** NewTypeSystem: an empty registry. */
    constructor ()
      ensures Valid() && types == map[] && typeCounter == 0
    {
      types := map[];
      typeCounter := 0;
    }

    /** Returns the type already under the key, else stores `t` there and returns it. */
    method AddType(pkg: string, name: string, t: Type) returns (alt: Type)
      requires Valid()
      modifies this
      ensures Valid()
      ensures TypeLib.Key(pkg, name) in old(types) ==>
        alt == old(types)[TypeLib.Key(pkg, name)] && types == old(types) && typeCounter == old(typeCounter)
      ensures TypeLib.Key(pkg, name) !in old(types) ==>
        alt == t && types == old(types)[TypeLib.Key(pkg, name) := t] && typeCounter == old(typeCounter) + 1
      ensures GetType(pkg, name) == Some(alt)
    {
      var key := pkg + "." + name;
      if key in types {
        return types[key];
      }
      typeCounter := typeCounter + 1;
      types := types[key := t];
      alt := t;
    }

    /** The type under pkg + "." + name; no fallback to package aliases (nil when absent). */
    function GetType(pkg: string, name: string): (t: Option<Type>)
      reads this
      ensures t.Some? <==> TypeLib.Key(pkg, name) in types
      ensures t.Some? ==> t.value == types[TypeLib.Key(pkg, name)]
    {
      var key := pkg + "." + name;
      if key in types then Some(types[key]) else None
    }

    /** FindType: not implemented by the source; it answers "" for every query. */
    function FindType(typeClass: int, typeData: Type): (name: string)
      ensures name == ""
    {
      ""
    }
  }

  /**
   * A fresh registry given `first` and then `second` under the same name keeps
   * `first`: the second call hands back the first type and counts nothing.
   */
  method FirstRegistrationWins(pkg: string, name: string, first: Type, second: Type)
    returns (alt1: Type, alt2: Type, count: int)
    ensures alt1 == first && alt2 == first && count == 1
  {
    var ts := new TypeSystem();
    alt1 := ts.AddType(pkg, name, first);
    alt2 := ts.AddType(pkg, name, second);
    count := ts.typeCounter;
  }
}
