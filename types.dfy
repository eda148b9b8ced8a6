/**
 * The type model of types.go: a type is one of the type classes NullType .. MapType
 * together with that class's payload, and its canonical signature is the key the
 * generator deduplicates types by.
 *
 * A `*Type` that the type library hands out is a slot of the library's arena, and
 * `Slot(h)` points at slot `h`: overwriting a slot is how a forward reference gets
 * resolved for every holder at once. The anonymous pointer, slice, map, function
 * and struct nodes are inline values whose children may be slots.
 */
module Types {
  import opened Wrappers

  datatype Type =
    | Null                                // NullType
    | Lazy(name: string)                  // LazyType, called UnresolvedType elsewhere
    | Basic(name: string, pkg: string)    // BasicType, called NamedType elsewhere
    | Alias(name: string, target: Type)   // AliasType
    | Reference(target: Type)             // ReferenceType
    | Tuple(subTypes: seq<Type>)          // TupleType
    | Record(rec: RecordData)             // RecordType
    | Function(fn: FunctionData)          // FunctionType
    | List(elem: Type)                    // ListType
    | Map(key: Type, value: Type)         // MapType
    | Slot(handle: nat)                   // a registered *Type, by its arena handle

  datatype Field = Field(name: string, typ: Type)

  datatype RecordData = RecordData(name: string, pkg: string, bases: seq<Type>, fields: seq<Field>)

  /** A Go slice of types: nil is told apart from empty, as the function signature does. */
  datatype Slice = NilSlice | SliceOf(elems: seq<Type>)

  datatype FunctionData = FunctionData(inputs: seq<Type>, outputs: Slice, exceptions: Slice)

  /** The kinds of type a library slot ever holds. */
  type Nominal = t: Type | t.Null? || t.Lazy? || t.Basic? || t.Record? witness Null

  function NumFields(r: RecordData): nat { |r.fields| }

  function NumBases(r: RecordData): nat { |r.bases| }

  function NumInputs(f: FunctionData): nat { |f.inputs| }

  function NumOutputs(f: FunctionData): nat { if f.outputs.SliceOf? then |f.outputs.elems| else 0 }

  function NumExceptions(f: FunctionData): nat { if f.exceptions.SliceOf? then |f.exceptions.elems| else 0 }

  /** Every handle inside `t` is below `n`: `t` holds no dangling pointer into an arena of `n` slots. */
  predicate ClosedIn(t: Type, n: nat)
  {
    match t
    case Alias(_, x) => ClosedIn(x, n)
    case Reference(x) => ClosedIn(x, n)
    case Tuple(ts) => AllClosedIn(ts, n)
    case Record(r) => AllClosedIn(r.bases, n) && FieldsClosedIn(r.fields, n)
    case Function(f) =>
      && AllClosedIn(f.inputs, n)
      && (f.outputs.SliceOf? ==> AllClosedIn(f.outputs.elems, n))
      && (f.exceptions.SliceOf? ==> AllClosedIn(f.exceptions.elems, n))
    case List(e) => ClosedIn(e, n)
    case Map(k, v) => ClosedIn(k, n) && ClosedIn(v, n)
    case Slot(h) => h < n
    case _ => true
  }

  predicate AllClosedIn(ts: seq<Type>, n: nat)
  {
    forall i :: 0 <= i < |ts| ==> ClosedIn(ts[i], n)
  }

  predicate FieldsClosedIn(fs: seq<Field>, n: nat)
  {
    forall i :: 0 <= i < |fs| ==> ClosedIn(fs[i].typ, n)
  }

  lemma {:induction false} ClosedInGrows(t: Type, n: nat, m: nat)
    requires ClosedIn(t, n) && n <= m
    ensures ClosedIn(t, m)
  {
    match t
    case Alias(_, x) => ClosedInGrows(x, n, m);
    case Reference(x) => ClosedInGrows(x, n, m);
    case Tuple(ts) => AllClosedInGrows(ts, n, m);
    case Record(r) =>
      AllClosedInGrows(r.bases, n, m);
      forall i | 0 <= i < |r.fields| ensures ClosedIn(r.fields[i].typ, m) {
        ClosedInGrows(r.fields[i].typ, n, m);
      }
    case Function(f) =>
      AllClosedInGrows(f.inputs, n, m);
      if f.outputs.SliceOf? { AllClosedInGrows(f.outputs.elems, n, m); }
      if f.exceptions.SliceOf? { AllClosedInGrows(f.exceptions.elems, n, m); }
    case List(e) => ClosedInGrows(e, n, m);
    case Map(k, v) => ClosedInGrows(k, n, m); ClosedInGrows(v, n, m);
    case _ =>
  }

  lemma {:induction false} AllClosedInGrows(ts: seq<Type>, n: nat, m: nat)
    requires AllClosedIn(ts, n) && n <= m
    ensures AllClosedIn(ts, m)
  {
    forall i | 0 <= i < |ts| ensures ClosedIn(ts[i], m) {
      ClosedInGrows(ts[i], n, m);
    }
  }

  /**
   * The signature of what a slot holds. It never looks through a handle, which is
   * what makes the signature of a self-referential record terminate.
   */
  function NominalSignature(c: Nominal): string
  {
    match c
    case Lazy(n) => n
    case Basic(n, _) => n
    case Record(r) => r.name
    case _ => ""
  }

  /** (*Type).Signature: the canonical text of a type. */
  function Signature(arena: seq<Nominal>, t: Type): string
  {
    match t
    case Null => ""
    case Lazy(n) => n
    case Basic(n, _) => n
    case Alias(n, _) => n
    case Reference(x) => "*" + Signature(arena, x)
    case Record(r) => r.name
    case Tuple(ts) => "(" + JoinSignatures(arena, ts, ", ")
    case Function(f) =>
      "func" + TypeListSignature(arena, f.inputs)
      + (if f.outputs.SliceOf? then TypeListSignature(arena, f.outputs.elems) else "")
      + (if f.exceptions.SliceOf? then " throws" + TypeListSignature(arena, f.exceptions.elems) else "")
    case List(e) => "[]" + Signature(arena, e)
    case Map(k, v) => "map[" + Signature(arena, k) + "]" + Signature(arena, v)
    case Slot(h) => if h < |arena| then NominalSignature(arena[h]) else ""
  }

  /** The signatures of `ts` in order, with `sep` between neighbours. */
  function JoinSignatures(arena: seq<Nominal>, ts: seq<Type>, sep: string): string
  {
    if ts == [] then ""
    else if |ts| == 1 then Signature(arena, ts[0])
    else JoinSignatures(arena, ts[..|ts| - 1], sep) + sep + Signature(arena, ts[|ts| - 1])
  }

  /** TypeListSignature: a parenthesised, comma-separated list; nil and empty both give " ()". */
  function TypeListSignature(arena: seq<Nominal>, ts: seq<Type>): string
  {
    " (" + JoinSignatures(arena, ts, ",") + ")"
  }

  function Signatures(arena: seq<Nominal>, ts: seq<Type>): (sigs: seq<string>)
    ensures |sigs| == |ts|
    ensures forall i :: 0 <= i < |ts| ==> sigs[i] == Signature(arena, ts[i])
  {
    if ts == [] then [] else Signatures(arena, ts[..|ts| - 1]) + [Signature(arena, ts[|ts| - 1])]
  }

  /** The parts joined by `sep` (the text-level view of JoinSignatures). */
  function Join(parts: seq<string>, sep: string): string
  {
    if parts == [] then ""
    else if |parts| == 1 then parts[0]
    else Join(parts[..|parts| - 1], sep) + sep + parts[|parts| - 1]
  }

  /** Splits `s` at every occurrence of the character `c`; the inverse of Join for parts without `c`. */
  function Split(s: string, c: char): (parts: seq<string>)
    ensures |parts| >= 1
  {
    if s == [] then [""]
    else
      var front := Split(s[..|s| - 1], c);
      if s[|s| - 1] == c then front + [""]
      else front[..|front| - 1] + [front[|front| - 1] + [s[|s| - 1]]]
  }

  lemma {:induction false} JoinSignaturesIsJoin(arena: seq<Nominal>, ts: seq<Type>, sep: string)
    ensures JoinSignatures(arena, ts, sep) == Join(Signatures(arena, ts), sep)
  {
    if |ts| > 1 {
      JoinSignaturesIsJoin(arena, ts[..|ts| - 1], sep);
      assert Signatures(arena, ts)[..|ts| - 1] == Signatures(arena, ts[..|ts| - 1]);
    }
  }

  /** Splitting the list text at its commas gives back one piece per non-empty part list. */
  lemma {:induction false} SplitJoin(parts: seq<string>, c: char)
    requires |parts| >= 1
    requires forall i, j :: 0 <= i < |parts| && 0 <= j < |parts[i]| ==> parts[i][j] != c
    ensures Split(Join(parts, [c]), c) == parts
  {
    if |parts| == 1 {
      SplitNoSeparator(parts[0], c);
    } else {
      var front := parts[..|parts| - 1];
      var last := parts[|parts| - 1];
      SplitJoin(front, c);
      SplitAppend(Join(front, [c]), last, c);
    }
  }

  lemma {:induction false} SplitNoSeparator(s: string, c: char)
    requires forall j :: 0 <= j < |s| ==> s[j] != c
    ensures Split(s, c) == [s]
  {
    if s != [] {
      SplitNoSeparator(s[..|s| - 1], c);
      assert s[..|s| - 1] + [s[|s| - 1]] == s;
    }
  }

  /** Appending a separator and a separator-free piece adds exactly that piece. */
  lemma {:induction false} SplitAppend(s: string, piece: string, c: char)
    requires forall j :: 0 <= j < |piece| ==> piece[j] != c
    ensures Split(s + [c] + piece, c) == Split(s, c) + [piece]
  {
    if piece == [] {
      assert s + [c] + piece == s + [c];
      assert (s + [c])[..|s + [c]| - 1] == s;
    } else {
      var p := piece[..|piece| - 1];
      var x := s + [c] + piece;
      SplitAppend(s, p, c);
      assert x[..|x| - 1] == s + [c] + p;
      assert x[|x| - 1] == piece[|piece| - 1];
      assert p + [piece[|piece| - 1]] == piece;
    }
  }

  /** The type list text decodes back into exactly the element signatures, when none has a comma. */
  lemma TypeListSignatureDecodes(arena: seq<Nominal>, ts: seq<Type>)
    requires |ts| >= 1
    requires forall i, j :: 0 <= i < |ts| && 0 <= j < |Signature(arena, ts[i])| ==> Signature(arena, ts[i])[j] != ','
    ensures var text := TypeListSignature(arena, ts);
            && text[..2] == " (" && text[|text| - 1] == ')'
            && Split(text[2..|text| - 1], ',') == Signatures(arena, ts)
  {
    var text := TypeListSignature(arena, ts);
    JoinSignaturesIsJoin(arena, ts, ",");
    assert text[2..|text| - 1] == JoinSignatures(arena, ts, ",");
    var parts := Signatures(arena, ts);
    assert forall i, j :: 0 <= i < |parts| && 0 <= j < |parts[i]| ==> parts[i][j] != ',' by {
      forall i, j | 0 <= i < |parts| && 0 <= j < |parts[i]| ensures parts[i][j] != ',' {
        assert parts[i] == Signature(arena, ts[i]);
      }
    }
    SplitJoin(parts, ',');
  }

  /**
   * Appending slots to the arena changes no signature of a type that only points
   * into the old slots.
   */
  lemma {:induction false} SignatureStable(arena: seq<Nominal>, more: seq<Nominal>, t: Type)
    requires ClosedIn(t, |arena|)
    ensures Signature(arena + more, t) == Signature(arena, t)
  {
    match t
    case Reference(x) => SignatureStable(arena, more, x);
    case Tuple(ts) => JoinSignaturesStable(arena, more, ts, ", ");
    case Function(f) =>
      JoinSignaturesStable(arena, more, f.inputs, ",");
      if f.outputs.SliceOf? { JoinSignaturesStable(arena, more, f.outputs.elems, ","); }
      if f.exceptions.SliceOf? { JoinSignaturesStable(arena, more, f.exceptions.elems, ","); }
    case List(e) => SignatureStable(arena, more, e);
    case Map(k, v) => SignatureStable(arena, more, k); SignatureStable(arena, more, v);
    case Slot(h) => assert (arena + more)[h] == arena[h];
    case _ =>
  }

  lemma {:induction false} JoinSignaturesStable(arena: seq<Nominal>, more: seq<Nominal>, ts: seq<Type>, sep: string)
    requires AllClosedIn(ts, |arena|)
    ensures JoinSignatures(arena + more, ts, sep) == JoinSignatures(arena, ts, sep)
  {
    if |ts| == 1 {
      SignatureStable(arena, more, ts[0]);
    } else if |ts| > 1 {
      JoinSignaturesStable(arena, more, ts[..|ts| - 1], sep);
      SignatureStable(arena, more, ts[|ts| - 1]);
    }
  }

  /** The worked example of a nested collection signature. */
  lemma NestedCollectionSignature(arena: seq<Nominal>)
    ensures Signature(arena, List(Map(Basic("int", ""), Basic("string", "")))) == "[]map[int]string"
  {
    var m := Map(Basic("int", ""), Basic("string", ""));
    assert Signature(arena, m) == "map[" + "int" + "]" + "string" == "map[int]string";
    assert "[]" + "map[int]string" == "[]map[int]string";
  }

  /** A record signs as its name alone: two records with one name and different fields collide. */
  lemma RecordSignatureIsName(arena: seq<Nominal>, r1: RecordData, r2: RecordData)
    requires r1.name == r2.name
    ensures Signature(arena, Record(r1)) == Signature(arena, Record(r2)) == r1.name
  {
  }

  /**
   * A tuple signature opens a parenthesis it never closes, so two differently nested
   * tuples share a signature and would be deduplicated into one.
   */
  lemma TupleSignatureCollision(arena: seq<Nominal>)
    ensures var a, b := Basic("a", ""), Basic("b", "");
            && Tuple([Tuple([a]), b]) != Tuple([Tuple([a, b])])
            && Signature(arena, Tuple([Tuple([a]), b])) == Signature(arena, Tuple([Tuple([a, b])])) == "((a, b"
  {
    var a, b := Basic("a", ""), Basic("b", "");
    assert [Tuple([a]), b][..1] == [Tuple([a])];
    assert [a, b][..1] == [a];
    assert JoinSignatures(arena, [a], ", ") == "a";
    assert Signature(arena, Tuple([a])) == "(" + "a" == "(a";
    assert JoinSignatures(arena, [Tuple([a])], ", ") == "(a";
    assert JoinSignatures(arena, [Tuple([a]), b], ", ") == "(a" + ", " + "b";
    assert JoinSignatures(arena, [a, b], ", ") == JoinSignatures(arena, [a], ", ") + ", " + "b" == "a" + ", " + "b";
    assert Signature(arena, Tuple([Tuple([a]), b])) == "(" + ("(a" + ", " + "b") == "((a, b";
    assert JoinSignatures(arena, [Tuple([a, b])], ", ") == Signature(arena, Tuple([a, b])) == "(" + ("a" + ", " + "b");
    assert Signature(arena, Tuple([Tuple([a, b])])) == "(" + ("(" + ("a" + ", " + "b")) == "((a, b";
  }

  /** A nil output list adds nothing; an empty non-nil one adds " ()". */
  lemma FunctionOutputsNilVersusEmpty(arena: seq<Nominal>, ins: seq<Type>)
    ensures Signature(arena, Function(FunctionData(ins, NilSlice, NilSlice))) == "func" + TypeListSignature(arena, ins)
    ensures Signature(arena, Function(FunctionData(ins, SliceOf([]), NilSlice))) == "func" + TypeListSignature(arena, ins) + " ()"
    ensures Signature(arena, Function(FunctionData([], NilSlice, SliceOf([])))) == "func () throws ()"
  {
    assert TypeListSignature(arena, []) == " ()";
  }
}
