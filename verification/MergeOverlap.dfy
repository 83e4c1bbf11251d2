/** Two patches merged one after the other: when the second hides all that the first one changed. */
module MergeOverlap {
  import opened Bytes
  import opened Json
  import Ordering

  /** What a path of a value shows: nothing, an object, or a value without paths of its own. */
  datatype Shape = Absent | Object | Plain(value: Json)

  function ShapeOf(v: Option<Json>): Shape {
    match v
    case None => Absent
    case Some(Obj(_)) => Object
    case Some(w) => Plain(w)
  }

  ghost predicate SameShape(s: Shape, t: Shape) {
    if s.Plain? && t.Plain? then Same(s.value, t.value) else s == t
  }

  ghost predicate SameAt(v: Json, w: Json, path: Path) {
    SameShape(ShapeOf(At(v, path)), ShapeOf(At(w, path)))
  }

  // ----- Equality up to key order, path by path -----

  lemma {:induction false} SameShowsSame(v: Json, w: Json, path: Path)
    requires Same(v, w)
    ensures SameAt(v, w, path)
    decreases |path|
  {
    hide EachSame;
    if path != [] && v.Obj? {
      if Lookup(v.fields, path[0]).Some? {
        EachSameAt(v.fields, w.fields, path[0]);
        SameShowsSame(Lookup(v.fields, path[0]).value, Lookup(w.fields, path[0]).value, path[1..]);
      }
    }
  }

  lemma {:induction false} ShowsSame(v: Json, w: Json)
    requires Valid(v) && Valid(w) && forall path :: SameAt(v, w, path)
    ensures Same(v, w)
    decreases v
  {
    hide EachSame, SameAt;
    ShownHere(v, w);
    if v.Obj? {
      forall k
        ensures Lookup(v.fields, k).Some? <==> Lookup(w.fields, k).Some?
        ensures Lookup(v.fields, k).Some? ==> Same(Lookup(v.fields, k).value, Lookup(w.fields, k).value)
      {
        ShownBelow(v, w, k);
        if Lookup(v.fields, k).Some? {
          LookupSmaller(v.fields, k);
          LookupValid(v.fields, k);
          LookupValid(w.fields, k);
          ShowsSame(Lookup(v.fields, k).value, Lookup(w.fields, k).value);
        }
      }
      EachSameFrom(v.fields, w.fields);
    }
  }

  lemma ShownHere(v: Json, w: Json)
    requires SameAt(v, w, [])
    ensures v.Obj? == w.Obj? && (!v.Obj? ==> Same(v, w))
  {
  }

  lemma AtBelow(v: Json, k: Ordering.Text, path: Path)
    requires v.Obj?
    ensures At(v, [k] + path) == AtOption(Lookup(v.fields, k), path)
  {
    assert ([k] + path)[1..] == path;
  }

  lemma ShownBelow(v: Json, w: Json, k: Ordering.Text)
    requires v.Obj? && w.Obj? && forall path :: SameAt(v, w, path)
    ensures Lookup(v.fields, k).Some? <==> Lookup(w.fields, k).Some?
    ensures Lookup(v.fields, k).Some? ==>
              forall path :: SameAt(Lookup(v.fields, k).value, Lookup(w.fields, k).value, path)
  {
    hide Same;
    AtBelow(v, k, []);
    AtBelow(w, k, []);
    assert SameAt(v, w, [k] + []);
    if Lookup(v.fields, k).Some? {
      forall path
        ensures SameAt(Lookup(v.fields, k).value, Lookup(w.fields, k).value, path)
      {
        AtBelow(v, k, path);
        AtBelow(w, k, path);
        assert SameAt(v, w, [k] + path);
      }
    }
  }

  // ----- Merging -----

  /** The patch holds something at the path, or something other than an object above it. */
  predicate Tells(patch: Fields, path: Path) {
    At(Obj(patch), path).Some? || CutOff(Obj(patch), path)
  }

  /** At each path a merge shows what the patch shows if that tells of it, else what the base shows. */
  lemma MergeShows(base: Fields, patch: Fields, path: Path)
    requires ValidFields(patch)
    ensures ShapeOf(At(Obj(Merge(base, patch)), path))
         == ShapeOf(At(Obj(if Tells(patch, path) then patch else base), path))
  {
    hide Merge, At, CutOff;
    MergeAt(base, patch, path);
  }

  lemma {:induction false} AtValid(v: Json, path: Path)
    requires Valid(v) && At(v, path).Some?
    ensures Valid(At(v, path).value)
    decreases |path|
  {
    if path != [] {
      LookupValid(v.fields, path[0]);
      AtValid(Lookup(v.fields, path[0]).value, path[1..]);
    }
  }

  lemma ShowsItself(v: Json, path: Path)
    requires Valid(v)
    ensures SameAt(v, v, path)
  {
    hide Same, Canon;
    if At(v, path).Some? {
      AtValid(v, path);
      CanonSame(At(v, path).value, At(v, path).value);
    }
  }

  /** Whatever `first` tells of and `second` does not, `first` tells it as the base already has it. */
  ghost predicate Overwrites(base: Fields, first: Fields, second: Fields) {
    forall path :: Tells(first, path) && !Tells(second, path) ==> SameAt(Obj(base), Obj(first), path)
  }

  /**
   * Merging `second` gives the same with or without `first` before it, up to key order, exactly
   * when `second` overwrites every change of `first`.
   */
  lemma MergeIgnoresIff(base: Fields, first: Fields, second: Fields)
    requires ValidFields(base) && ValidFields(first) && ValidFields(second)
    ensures Same(Obj(Merge(base, second)), Obj(Merge(Merge(base, first), second))) <==> Overwrites(base, first, second)
  {
    hide Merge, Same, At, Tells, ShapeOf, SameShape;
    var direct, both := Obj(Merge(base, second)), Obj(Merge(Merge(base, first), second));
    MergeValid(base, second);
    MergeValid(base, first);
    MergeValid(Merge(base, first), second);
    forall path
      ensures SameAt(direct, both, path) <==>
              (Tells(first, path) && !Tells(second, path) ==> SameAt(Obj(base), Obj(first), path))
    {
      MergeShows(base, second, path);
      MergeShows(Merge(base, first), second, path);
      MergeShows(base, first, path);
      ShowsItself(Obj(base), path);
      ShowsItself(Obj(second), path);
    }
    if Same(direct, both) {
      forall path
        ensures SameAt(direct, both, path)
      {
        SameShowsSame(direct, both, path);
      }
    }
    if Overwrites(base, first, second) {
      ShowsSame(direct, both);
    }
  }
}
