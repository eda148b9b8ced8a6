/**
 * The type collector of gen/main.go and main/main.go: the TypeMarker closure with
 * its two visited sets and its list of unique types, and the wave loop that emits
 * a writer and a reader for each unique type until a wave discovers nothing new.
 *
 * Marked things are values of `T` compared by `==` (the source compares *Type
 * pointers) and deduplicated by `sig` (the library's signature).
 */
module Closure {

  /** The three structures resetTypes empties. */
  datatype MarkState<T> = MarkState(typeVisited: set<T>, sigVisited: set<string>, uniqueTypes: seq<T>)

  function EmptyMarks<T>(): MarkState<T>
  {
    MarkState({}, {}, [])
  }

  function Elems<T>(ts: seq<T>): set<T>
  {
    set i | 0 <= i < |ts| :: ts[i]
  }

  function SigsOf<T>(ts: seq<T>, sig: T -> string): set<string>
  {
    set i | 0 <= i < |ts| :: sig(ts[i])
  }

  function SigImage<T>(s: set<T>, sig: T -> string): set<string>
  {
    set t | t in s :: sig(t)
  }

  predicate DistinctSigs<T>(ts: seq<T>, sig: T -> string)
  {
    forall i, j :: 0 <= i < j < |ts| ==> sig(ts[i]) != sig(ts[j])
  }

  /**
   * What the marker keeps true: a signature is visited exactly when some visited
   * type has it, the unique types have pairwise distinct signatures, and each of
   * them is visited.
   */
  ghost predicate MarkInv<T>(m: MarkState<T>, sig: T -> string)
  {
    && m.sigVisited == SigImage(m.typeVisited, sig)
    && DistinctSigs(m.uniqueTypes, sig)
    && (forall i :: 0 <= i < |m.uniqueTypes| ==> m.uniqueTypes[i] in m.typeVisited)
  }

  /** One iteration of the marker's loop. */
  function MarkOne<T>(m: MarkState<T>, t: T, sig: T -> string): MarkState<T>
  {
    if t in m.typeVisited then m
    else if sig(t) in m.sigVisited then m.(typeVisited := m.typeVisited + {t})
    else MarkState(m.typeVisited + {t}, m.sigVisited + {sig(t)}, m.uniqueTypes + [t])
  }

  /** TypeMarker(types...): the types in order. */
  function MarkAll<T>(m: MarkState<T>, ts: seq<T>, sig: T -> string): MarkState<T>
  {
    if ts == [] then m else MarkOne(MarkAll(m, ts[..|ts| - 1], sig), ts[|ts| - 1], sig)
  }

  /**
   * Marking `t` appends it exactly when neither it nor its signature was seen; it
   * is recorded as seen either way, and the invariant is kept.
   */
  lemma MarkOneFacts<T>(m: MarkState<T>, t: T, sig: T -> string)
    requires MarkInv(m, sig)
    ensures var m2 := MarkOne(m, t, sig);
            && MarkInv(m2, sig)
            && m2.typeVisited == m.typeVisited + {t}
            && m2.sigVisited == m.sigVisited + {sig(t)}
            && (t !in m.typeVisited && sig(t) !in m.sigVisited ==> m2.uniqueTypes == m.uniqueTypes + [t])
            && (t in m.typeVisited || sig(t) in m.sigVisited ==> m2.uniqueTypes == m.uniqueTypes)
  {
    var m2 := MarkOne(m, t, sig);
    if t !in m.typeVisited && sig(t) !in m.sigVisited {
      forall i | 0 <= i < |m.uniqueTypes| ensures sig(m.uniqueTypes[i]) != sig(t) {
        assert sig(m.uniqueTypes[i]) in SigImage(m.typeVisited, sig);
      }
    }
    if t in m.typeVisited {
      assert sig(t) in SigImage(m.typeVisited, sig);
    }
    assert m2.sigVisited == SigImage(m2.typeVisited, sig) by {
      forall s | s in SigImage(m2.typeVisited, sig) ensures s in m2.sigVisited {
        var u :| u in m2.typeVisited && s == sig(u);
        if u != t { assert s in SigImage(m.typeVisited, sig); }
      }
      forall s | s in m2.sigVisited ensures s in SigImage(m2.typeVisited, sig) {
        if s != sig(t) {
          assert s in SigImage(m.typeVisited, sig);
          var u :| u in m.typeVisited && s == sig(u);
          assert u in m2.typeVisited;
        } else {
          assert t in m2.typeVisited;
        }
      }
    }
  }

  lemma SigsOfAppend<T>(a: seq<T>, b: seq<T>, sig: T -> string)
    ensures SigsOf(a + b, sig) == SigsOf(a, sig) + SigsOf(b, sig)
  {
    forall s | s in SigsOf(a + b, sig) ensures s in SigsOf(a, sig) + SigsOf(b, sig) {
      var i :| 0 <= i < |a + b| && s == sig((a + b)[i]);
      if i < |a| { assert (a + b)[i] == a[i]; } else { assert (a + b)[i] == b[i - |a|]; }
    }
    forall s | s in SigsOf(a, sig) + SigsOf(b, sig) ensures s in SigsOf(a + b, sig) {
      if s in SigsOf(a, sig) {
        var i :| 0 <= i < |a| && s == sig(a[i]);
        assert (a + b)[i] == a[i];
      } else {
        var i :| 0 <= i < |b| && s == sig(b[i]);
        assert (a + b)[|a| + i] == b[i];
      }
    }
  }

  /**
   * Marking a list keeps the invariant, records every type of it and every
   * signature of it, and only appends to the unique types; what it appends has
   * signatures that were not yet visited.
   */
  lemma {:induction false} MarkAllFacts<T>(m: MarkState<T>, ts: seq<T>, sig: T -> string)
    requires MarkInv(m, sig)
    ensures var m2 := MarkAll(m, ts, sig);
            && MarkInv(m2, sig)
            && m2.typeVisited == m.typeVisited + Elems(ts)
            && m2.sigVisited == m.sigVisited + SigsOf(ts, sig)
            && |m.uniqueTypes| <= |m2.uniqueTypes| && m2.uniqueTypes[..|m.uniqueTypes|] == m.uniqueTypes
            && m2.sigVisited == m.sigVisited + SigsOf(m2.uniqueTypes[|m.uniqueTypes|..], sig)
            && (forall k :: |m.uniqueTypes| <= k < |m2.uniqueTypes| ==> sig(m2.uniqueTypes[k]) !in m.sigVisited)
  {
    if ts == [] {
      assert m.uniqueTypes[..|m.uniqueTypes|] == m.uniqueTypes;
      assert Elems(ts) == {} && SigsOf(ts, sig) == {};
      assert SigsOf(m.uniqueTypes[|m.uniqueTypes|..], sig) == {};
    } else {
      var front, t := ts[..|ts| - 1], ts[|ts| - 1];
      MarkAllFacts(m, front, sig);
      var m1 := MarkAll(m, front, sig);
      MarkOneFacts(m1, t, sig);
      var m2 := MarkOne(m1, t, sig);
      assert front + [t] == ts;
      SigsOfAppend(front, [t], sig);
      assert SigsOf([t], sig) == {sig(t)};
      assert Elems(ts) == Elems(front) + {t} by {
        forall u | u in Elems(ts) ensures u in Elems(front) + {t} {
          var i :| 0 <= i < |ts| && u == ts[i];
          if i < |front| { assert ts[i] == front[i]; }
        }
        forall u | u in Elems(front) ensures u in Elems(ts) {
          var i :| 0 <= i < |front| && u == front[i];
          assert ts[i] == front[i];
        }
        assert ts[|ts| - 1] == t;
      }
      var n := |m.uniqueTypes|;
      var added1 := m1.uniqueTypes[n..];
      var added := m2.uniqueTypes[n..];
      assert m2.uniqueTypes[..n] == m1.uniqueTypes[..n];
      if m2.uniqueTypes == m1.uniqueTypes + [t] {
        assert added == added1 + [t];
        SigsOfAppend(added1, [t], sig);
        assert sig(t) !in m1.sigVisited;
      } else {
        assert added == added1;
      }
    }
  }

  /** Marking types already seen changes nothing. */
  lemma {:induction false} MarkAllSeen<T>(m: MarkState<T>, ts: seq<T>, sig: T -> string)
    requires Elems(ts) <= m.typeVisited
    ensures MarkAll(m, ts, sig) == m
  {
    if ts != [] {
      var front := ts[..|ts| - 1];
      assert Elems(front) <= Elems(ts) by {
        forall u | u in Elems(front) ensures u in Elems(ts) {
          var i :| 0 <= i < |front| && u == front[i];
          assert ts[i] == front[i];
        }
      }
      MarkAllSeen(m, front, sig);
      assert ts[|ts| - 1] in Elems(ts);
    }
  }

  /** Marking the same types again changes nothing. */
  lemma MarkAllIdempotent<T>(m: MarkState<T>, ts: seq<T>, sig: T -> string)
    requires MarkInv(m, sig)
    ensures MarkAll(MarkAll(m, ts, sig), ts, sig) == MarkAll(m, ts, sig)
  {
    MarkAllFacts(m, ts, sig);
    MarkAllSeen(MarkAll(m, ts, sig), ts, sig);
  }

  /** Marking two lists in a row is marking their concatenation. */
  lemma {:induction false} MarkAllAppend<T>(m: MarkState<T>, a: seq<T>, b: seq<T>, sig: T -> string)
    ensures MarkAll(m, a + b, sig) == MarkAll(MarkAll(m, a, sig), b, sig)
  {
    if b == [] {
      assert a + b == a;
    } else {
      MarkAllAppend(m, a, b[..|b| - 1], sig);
      assert (a + b)[..|a + b| - 1] == a + b[..|b| - 1];
      assert (a + b)[|a + b| - 1] == b[|b| - 1];
    }
  }

  /** After a reset, the unique types are the marked types in first-discovery order with distinct signatures. */
  lemma FreshPass<T>(ts: seq<T>, sig: T -> string)
    ensures var m := MarkAll(EmptyMarks(), ts, sig);
            && DistinctSigs(m.uniqueTypes, sig)
            && SigsOf(m.uniqueTypes, sig) == SigsOf(ts, sig)
            && Elems(m.uniqueTypes) <= Elems(ts)
  {
    var m0: MarkState<T> := EmptyMarks();
    assert SigImage(m0.typeVisited, sig) == {};
    MarkAllFacts(m0, ts, sig);
    var m := MarkAll(m0, ts, sig);
    assert m.uniqueTypes[0..] == m.uniqueTypes;
    forall u | u in Elems(m.uniqueTypes) ensures u in Elems(ts) {
      var i :| 0 <= i < |m.uniqueTypes| && u == m.uniqueTypes[i];
      assert u in m.typeVisited;
    }
  }

  /** The marker object: the closure's captured variables and the signature it uses. */
  class TypeMarker<T(==)> {
    var typeVisited: set<T>
    var sigVisited: set<string>
    var uniqueTypes: seq<T>
    const sig: T -> string

    function State(): MarkState<T>
      reads this
    {
      MarkState(typeVisited, sigVisited, uniqueTypes)
    }

    constructor (sig: T -> string)
      ensures State() == EmptyMarks() && this.sig == sig
    {
      typeVisited, sigVisited, uniqueTypes := {}, {}, [];
      this.sig := sig;
    }

    /** resetTypes. */
    method Reset()
      modifies this
      ensures State() == EmptyMarks()
    {
      typeVisited, sigVisited, uniqueTypes := {}, {}, [];
    }

    /** The TypeMarker closure. */
    method Mark(types: seq<T>)
      modifies this
      ensures State() == MarkAll(old(State()), types, sig)
    {
      for i := 0 to |types|
        invariant State() == MarkAll(old(State()), types[..i], sig)
      {
        assert types[..i + 1][..i] == types[..i];
        var t := types[i];
        if t !in typeVisited {
          typeVisited := typeVisited + {t};
          var s := sig(t);
          if s !in sigVisited {
            sigVisited := sigVisited + {s};
            uniqueTypes := uniqueTypes + [t];
          }
        }
      }
      assert types[..|types|] == types;
    }
  }

  /** The types of `all` for which a writer and a reader are emitted: those without an existing writer. */
  function Emittable<T>(all: seq<T>, existing: set<string>, sig: T -> string): (es: seq<T>)
    ensures forall i :: 0 <= i < |es| ==> sig(es[i]) !in existing
  {
    if all == [] then []
    else Emittable(all[..|all| - 1], existing, sig) + (if sig(all[|all| - 1]) in existing then [] else [all[|all| - 1]])
  }

  /**
   * The emitted types are exactly the types of `all` without an existing writer:
   * each of them comes from `all`, and each type of `all` whose signature has no
   * writer is among them.
   */
  lemma {:induction false} EmittableExactly<T>(all: seq<T>, existing: set<string>, sig: T -> string)
    ensures var es := Emittable(all, existing, sig);
            && |es| <= |all|
            && (forall i :: 0 <= i < |es| ==> es[i] in all && sig(es[i]) !in existing)
            && (forall i :: 0 <= i < |all| && sig(all[i]) !in existing ==> all[i] in es)
  {
    if all != [] {
      var front, t := all[..|all| - 1], all[|all| - 1];
      EmittableExactly(front, existing, sig);
      var es := Emittable(all, existing, sig);
      var ef := Emittable(front, existing, sig);
      forall i | 0 <= i < |es| ensures es[i] in all {
        if i < |ef| {
          var k :| 0 <= k < |front| && front[k] == ef[i];
          assert all[k] == front[k];
        }
      }
      forall i | 0 <= i < |all| && sig(all[i]) !in existing ensures all[i] in es {
        if i < |front| {
          assert all[i] == front[i];
        }
      }
    }
  }

  lemma DiffShrinks(u: set<string>, a: set<string>, b: set<string>, s: string)
    requires a <= b <= u && s in b && s !in a
    ensures |u - b| < |u - a|
  {
    var d := (u - a) - (u - b);
    assert s in d;
    assert u - a == (u - b) + d;
    assert (u - b) * d == {};
  }

  lemma SigImageGrows<T>(a: set<T>, b: set<T>, sig: T -> string)
    requires a <= b
    ensures SigImage(a, sig) <= SigImage(b, sig)
  {
  }

  lemma {:induction false} EmittableAppend<T>(a: seq<T>, b: seq<T>, existing: set<string>, sig: T -> string)
    ensures Emittable(a + b, existing, sig) == Emittable(a, existing, sig) + Emittable(b, existing, sig)
  {
    if b == [] {
      assert a + b == a;
    } else {
      var front := b[..|b| - 1];
      EmittableAppend(a, front, existing, sig);
      assert (a + b)[..|a + b| - 1] == a + front;
      assert (a + b)[|a + b| - 1] == b[|b| - 1];
    }
  }

  /** Everything that emitting the types of `from` marks. */
  ghost function Reach<T>(from: seq<T>, marks: T -> seq<T>): set<T>
  {
    if from == [] then {} else Reach(from[..|from| - 1], marks) + Elems(marks(from[|from| - 1]))
  }

  /** Every type of `ts` from index `lo` on is marked by emitting some type of `from`. */
  ghost predicate ReachedFrom<T>(ts: seq<T>, lo: nat, from: seq<T>, marks: T -> seq<T>)
  {
    forall i :: lo <= i < |ts| ==> ts[i] in Reach(from, marks)
  }

  /** A type is reached from `from` exactly when emitting one of those types marks it. */
  lemma {:induction false} ReachMeans<T>(from: seq<T>, marks: T -> seq<T>, u: T)
    ensures u in Reach(from, marks) <==> exists j :: 0 <= j < |from| && u in marks(from[j])
  {
    if from != [] {
      var front, t := from[..|from| - 1], from[|from| - 1];
      ReachMeans(front, marks, u);
      if u in Reach(from, marks) {
        if u in Reach(front, marks) {
          var j :| 0 <= j < |front| && u in marks(front[j]);
          assert from[j] == front[j];
        } else {
          assert u in Elems(marks(t));
          assert u in marks(from[|from| - 1]);
        }
      }
      if exists j :: 0 <= j < |from| && u in marks(from[j]) {
        var j :| 0 <= j < |from| && u in marks(from[j]);
        if j < |front| {
          assert from[j] == front[j];
        } else {
          var k :| 0 <= k < |marks(t)| && marks(t)[k] == u;
          assert u in Elems(marks(t));
        }
      }
    }
  }

  lemma {:induction false} ReachAppend<T>(a: seq<T>, b: seq<T>, marks: T -> seq<T>)
    ensures Reach(a + b, marks) == Reach(a, marks) + Reach(b, marks)
  {
    if b == [] {
      assert a + b == a;
    } else {
      ReachAppend(a, b[..|b| - 1], marks);
      assert (a + b)[..|a + b| - 1] == a + b[..|b| - 1];
      assert (a + b)[|a + b| - 1] == b[|b| - 1];
    }
  }

  /** The wave loop's state between waves. */
  ghost predicate WaveInv<T>(m: MarkState<T>, sig: T -> string, first: seq<T>, all: seq<T>, emitted: seq<T>,
                             marks: T -> seq<T>, existing: set<string>, universe: set<T>)
  {
    && MarkInv(m, sig)
    && m.sigVisited == SigsOf(all + m.uniqueTypes, sig)
    && DistinctSigs(all + m.uniqueTypes, sig)
    && |first| <= |all + m.uniqueTypes| && (all + m.uniqueTypes)[..|first|] == first
    && emitted == Emittable(all, existing, sig)
    && (forall i :: 0 <= i < |emitted| ==> SigsOf(marks(emitted[i]), sig) <= m.sigVisited)
    && m.typeVisited <= universe
    && (forall i :: 0 <= i < |all| ==> all[i] in m.typeVisited)
    && ReachedFrom(all + m.uniqueTypes, |first|, emitted, marks)
  }

  /**
   * One wave: each type of `saved` without an existing writer is emitted, which
   * marks what its templates mark. What the wave discovers has new signatures.
   */
  method EmitWave<T(==)>(marker: TypeMarker<T>, saved: seq<T>, marks: T -> seq<T>, existing: set<string>,
                         ghost universe: set<T>)
    returns (wave: seq<T>)
    requires MarkInv(marker.State(), marker.sig) && marker.uniqueTypes == []
    requires marker.typeVisited <= universe && Elems(saved) <= marker.typeVisited
    requires forall t :: t in universe ==> Elems(marks(t)) <= universe
    modifies marker
    ensures MarkInv(marker.State(), marker.sig)
    ensures old(marker.typeVisited) <= marker.typeVisited <= universe
    ensures marker.sigVisited == old(marker.sigVisited) + SigsOf(marker.uniqueTypes, marker.sig)
    ensures forall k :: 0 <= k < |marker.uniqueTypes| ==> marker.sig(marker.uniqueTypes[k]) !in old(marker.sigVisited)
    ensures wave == Emittable(saved, existing, marker.sig)
    ensures forall k :: 0 <= k < |wave| ==> SigsOf(marks(wave[k]), marker.sig) <= marker.sigVisited
    ensures ReachedFrom(marker.uniqueTypes, 0, wave, marks)
  {
    var sig := marker.sig;
    ghost var start := marker.sigVisited;
    wave := [];
    assert SigsOf(marker.uniqueTypes, sig) == {};
    for i := 0 to |saved|
      invariant MarkInv(marker.State(), sig)
      invariant old(marker.typeVisited) <= marker.typeVisited <= universe
      invariant marker.sigVisited == start + SigsOf(marker.uniqueTypes, sig)
      invariant forall k :: 0 <= k < |marker.uniqueTypes| ==> sig(marker.uniqueTypes[k]) !in start
      invariant wave == Emittable(saved[..i], existing, sig)
      invariant forall k :: 0 <= k < |wave| ==> SigsOf(marks(wave[k]), sig) <= marker.sigVisited
      invariant ReachedFrom(marker.uniqueTypes, 0, wave, marks)
    {
      var t := saved[i];
      assert saved[..i + 1][..i] == saved[..i];
      assert t in Elems(saved);
      if sig(t) !in existing {
        ghost var m := marker.State();
        MarkAllFacts(m, marks(t), sig);
        marker.Mark(marks(t));
        wave := wave + [t];
        SigsOfAppend(m.uniqueTypes, marker.uniqueTypes[|m.uniqueTypes|..], sig);
        assert m.uniqueTypes + marker.uniqueTypes[|m.uniqueTypes|..] == marker.uniqueTypes;
        forall k | 0 <= k < |marker.uniqueTypes| ensures sig(marker.uniqueTypes[k]) !in start {
          if k < |m.uniqueTypes| {
            assert marker.uniqueTypes[k] == m.uniqueTypes[k];
          }
        }
        NewUniquesMarked(m, marks(t), sig);
        ReachedFromStep(m.uniqueTypes, marker.uniqueTypes, wave[..|wave| - 1], t, marks);
      }
    }
    assert saved[..|saved|] == saved;
  }

  /** What marking a list adds to the unique types comes from that list. */
  lemma NewUniquesMarked<T>(m: MarkState<T>, ts: seq<T>, sig: T -> string)
    requires MarkInv(m, sig)
    ensures var m2 := MarkAll(m, ts, sig);
            forall k :: |m.uniqueTypes| <= k < |m2.uniqueTypes| ==> m2.uniqueTypes[k] in ts
  {
    MarkAllFacts(m, ts, sig);
    var m2 := MarkAll(m, ts, sig);
    forall k | |m.uniqueTypes| <= k < |m2.uniqueTypes| ensures m2.uniqueTypes[k] in ts {
      var u := m2.uniqueTypes[k];
      assert u in m.typeVisited ==> sig(u) in SigImage(m.typeVisited, sig);
      assert u in Elems(ts);
    }
  }

  /**
   * One emitted type `t`: the unique list grew from `before` to `after` by types
   * of marks(t), so everything in it is reached from the wave with `t` appended.
   */
  lemma ReachedFromStep<T>(before: seq<T>, after: seq<T>, wave: seq<T>, t: T, marks: T -> seq<T>)
    requires ReachedFrom(before, 0, wave, marks)
    requires |before| <= |after| && after[..|before|] == before
    requires forall k :: |before| <= k < |after| ==> after[k] in marks(t)
    ensures ReachedFrom(after, 0, wave + [t], marks)
  {
    assert (wave + [t])[..|wave|] == wave;
    forall i | 0 <= i < |after| ensures after[i] in Reach(wave + [t], marks) {
      if i < |before| {
        assert after[i] == before[i];
      } else {
        assert after[i] in Elems(marks(t)) by {
          var k :| 0 <= k < |marks(t)| && marks(t)[k] == after[i];
        }
      }
    }
  }

  /** Between waves: the wave loop's invariant carries over, and the loop's measure drops. */
  lemma WaveNext<T>(m0: MarkState<T>, m1: MarkState<T>, sig: T -> string, first: seq<T>, before: seq<T>,
                    emitted: seq<T>, wave: seq<T>, marks: T -> seq<T>, existing: set<string>, universe: set<T>)
    requires WaveInv(m0, sig, first, before, emitted, marks, existing, universe)
    requires MarkInv(m1, sig) && m0.typeVisited <= m1.typeVisited <= universe
    requires m1.sigVisited == m0.sigVisited + SigsOf(m1.uniqueTypes, sig)
    requires forall k :: 0 <= k < |m1.uniqueTypes| ==> sig(m1.uniqueTypes[k]) !in m0.sigVisited
    requires wave == Emittable(m0.uniqueTypes, existing, sig)
    requires forall k :: 0 <= k < |wave| ==> SigsOf(marks(wave[k]), sig) <= m1.sigVisited
    requires ReachedFrom(m1.uniqueTypes, 0, wave, marks)
    ensures WaveInv(m1, sig, first, before + m0.uniqueTypes, emitted + wave, marks, existing, universe)
    ensures |m1.uniqueTypes| > 0 ==>
      |SigImage(universe, sig) - m1.sigVisited| < |SigImage(universe, sig) - m0.sigVisited|
    ensures m1.uniqueTypes == [] ==> m1.sigVisited == m0.sigVisited
  {
    var all := before + m0.uniqueTypes;
    SigsOfAppend(all, m1.uniqueTypes, sig);
    EmittableAppend(before, m0.uniqueTypes, existing, sig);
    forall i | 0 <= i < |emitted + wave| ensures SigsOf(marks((emitted + wave)[i]), sig) <= m1.sigVisited {
      if i < |emitted| {
        assert (emitted + wave)[i] == emitted[i];
      } else {
        assert (emitted + wave)[i] == wave[i - |emitted|];
      }
    }
    assert DistinctSigs(all + m1.uniqueTypes, sig) by {
      var w := all + m1.uniqueTypes;
      forall i, j | 0 <= i < j < |w| ensures sig(w[i]) != sig(w[j]) {
        if j < |all| {
          assert w[i] == all[i] && w[j] == all[j];
        } else if i < |all| {
          assert w[i] == all[i];
          assert sig(w[i]) in SigsOf(all, sig);
          assert w[j] == m1.uniqueTypes[j - |all|];
        } else {
          assert w[i] == m1.uniqueTypes[i - |all|] && w[j] == m1.uniqueTypes[j - |all|];
        }
      }
    }
    assert (all + m1.uniqueTypes)[..|first|] == first by {
      assert (all + m1.uniqueTypes)[..|first|] == all[..|first|];
    }
    forall i | 0 <= i < |all| ensures all[i] in m1.typeVisited {
      if i >= |before| {
        assert all[i] == m0.uniqueTypes[i - |before|];
      }
    }
    ReachedFromNext(all, m1.uniqueTypes, |first|, emitted, wave, marks);
    SigImageGrows(m1.typeVisited, universe, sig);
    if |m1.uniqueTypes| > 0 {
      assert sig(m1.uniqueTypes[0]) in SigsOf(m1.uniqueTypes, sig);
      DiffShrinks(SigImage(universe, sig), m0.sigVisited, m1.sigVisited, sig(m1.uniqueTypes[0]));
    }
  }

  /** The reach of the waves so far, extended by one wave and what it discovered. */
  lemma ReachedFromNext<T>(all: seq<T>, found: seq<T>, lo: nat, emitted: seq<T>, wave: seq<T>, marks: T -> seq<T>)
    requires ReachedFrom(all, lo, emitted, marks) && ReachedFrom(found, 0, wave, marks)
    ensures ReachedFrom(all + found, lo, emitted + wave, marks)
  {
    ReachAppend(emitted, wave, marks);
    var w := all + found;
    forall i | lo <= i < |w| ensures w[i] in Reach(emitted + wave, marks) {
      if i < |all| {
        assert w[i] == all[i];
      } else {
        assert w[i] == found[i - |all|];
      }
    }
  }

  /**
   * The wave loop of CreateClientForType. Each wave is appended to `all` and the
   * unique list emptied; then each type of the wave whose signature has no
   * existing writer is emitted, which marks `marks(t)` (what its writer and reader
   * templates mark). The loop ends on an empty wave. gen/main.go has no existing
   * writers (`existing` empty); main/main.go skips the signatures of its
   * ExistingWriters table.
   *
   * `universe` holds every type marking can reach; it stands for the finitely
   * many types the library and the service can produce, and bounds the loop.
   */
  method Waves<T(==)>(marker: TypeMarker<T>, marks: T -> seq<T>, existing: set<string>, ghost universe: set<T>)
    returns (all: seq<T>, emitted: seq<T>)
    requires MarkInv(marker.State(), marker.sig)
    requires marker.sigVisited == SigsOf(marker.uniqueTypes, marker.sig)
    requires marker.typeVisited <= universe
    requires forall t :: t in universe ==> Elems(marks(t)) <= universe
    modifies marker
    ensures marker.uniqueTypes == []
    ensures |old(marker.uniqueTypes)| <= |all| && all[..|old(marker.uniqueTypes)|] == old(marker.uniqueTypes)
    ensures DistinctSigs(all, marker.sig)
    ensures marker.sigVisited == SigsOf(all, marker.sig)
    ensures emitted == Emittable(all, existing, marker.sig)
    ensures forall i :: 0 <= i < |emitted| ==> SigsOf(marks(emitted[i]), marker.sig) <= SigsOf(all, marker.sig)
    ensures ReachedFrom(all, |old(marker.uniqueTypes)|, emitted, marks)
    ensures forall i :: 0 <= i < |all| ==> all[i] in universe
  {
    var sig := marker.sig;
    ghost var first := marker.uniqueTypes;
    all, emitted := [], [];
    assert [] + marker.uniqueTypes == marker.uniqueTypes;
    assert first[..|first|] == first;
    while |marker.uniqueTypes| > 0
      invariant WaveInv(marker.State(), sig, first, all, emitted, marks, existing, universe)
      decreases |SigImage(universe, sig) - marker.sigVisited|, |marker.uniqueTypes|
    {
      ghost var m0 := marker.State();
      var saved := marker.uniqueTypes;
      marker.uniqueTypes := [];
      assert Elems(saved) <= marker.typeVisited;
      var wave := EmitWave(marker, saved, marks, existing, universe);
      WaveNext(m0, marker.State(), sig, first, all, emitted, wave, marks, existing, universe);
      all := all + saved;
      emitted := emitted + wave;
    }
    assert all + [] == all;
  }
}
