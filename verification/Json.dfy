/** JSON values, objects with JavaScript's property order, deep merge and the canonical form. */
module Json {
  import opened Bytes
  import opened Ordering

  /** Objects list their properties in enumeration order. */
  datatype Json =
    | Null
    | Bool(flag: bool)
    | Num(number: real)
    | Str(text: Text)
    | Arr(items: Items)
    | Obj(fields: Fields)

  datatype Items = NoItems | Item(head: Json, tail: Items)

  datatype Fields = NoFields | Field(key: Text, value: Json, rest: Fields)

  function Lookup(f: Fields, key: Text): Option<Json> {
    match f
    case NoFields => None
    case Field(k, v, rest) => if k == key then Some(v) else Lookup(rest, key)
  }

  function Keys(f: Fields): seq<Text> {
    match f
    case NoFields => []
    case Field(k, _, rest) => [k] + Keys(rest)
  }

  /** Keys are unique at every level. */
  predicate Valid(v: Json) {
    match v
    case Arr(items) => ValidItems(items)
    case Obj(fields) => ValidFields(fields)
    case _ => true
  }

  predicate ValidItems(items: Items) {
    items.Item? ==> Valid(items.head) && ValidItems(items.tail)
  }

  predicate ValidFields(f: Fields) {
    f.Field? ==> Valid(f.value) && Lookup(f.rest, f.key).None? && ValidFields(f.rest)
  }

  /** Array-index keys: decimal numerals below 2^32 - 1 without leading zeros. */
  predicate IsIndex(key: Text) {
    && (forall i :: 0 <= i < |key| ==> 48 <= key[i] <= 57)
    && (key == [48] || (1 <= |key| <= 10 && key[0] != 48 && Numeral(key) < 0xFFFF_FFFF))
  }

  function Numeral(key: Text): int
    decreases |key|
  {
    if key == [] then 0 else 10 * Numeral(key[..|key| - 1]) + (key[|key| - 1] as int - 48)
  }

  /** Assigning a property: in place if it exists; index keys ascend in front of all others. */
  function Put(f: Fields, key: Text, value: Json): Fields {
    if Lookup(f, key).Some? then Replace(f, key, value)
    else if IsIndex(key) then PutIndex(f, key, value)
    else PutLast(f, key, value)
  }

  function Replace(f: Fields, key: Text, value: Json): Fields {
    match f
    case NoFields => NoFields
    case Field(k, v, rest) => if k == key then Field(k, value, rest) else Field(k, v, Replace(rest, key, value))
  }

  function PutIndex(f: Fields, key: Text, value: Json): Fields {
    match f
    case NoFields => Field(key, value, NoFields)
    case Field(k, v, rest) =>
      if IsIndex(k) && Numeral(k) < Numeral(key) then Field(k, v, PutIndex(rest, key, value))
      else Field(key, value, f)
  }

  function PutLast(f: Fields, key: Text, value: Json): Fields {
    match f
    case NoFields => Field(key, value, NoFields)
    case Field(k, v, rest) => Field(k, v, PutLast(rest, key, value))
  }

  lemma {:induction false} LookupReplace(f: Fields, key: Text, value: Json, k: Text)
    ensures Lookup(Replace(f, key, value), k)
         == if k == key && Lookup(f, key).Some? then Some(value) else Lookup(f, k)
  {
    if f.Field? {
      LookupReplace(f.rest, key, value, k);
    }
  }

  lemma {:induction false} LookupPutIndex(f: Fields, key: Text, value: Json, k: Text)
    requires Lookup(f, key).None?
    ensures Lookup(PutIndex(f, key, value), k) == if k == key then Some(value) else Lookup(f, k)
  {
    if f.Field? {
      LookupPutIndex(f.rest, key, value, k);
    }
  }

  lemma {:induction false} LookupPutLast(f: Fields, key: Text, value: Json, k: Text)
    requires Lookup(f, key).None?
    ensures Lookup(PutLast(f, key, value), k) == if k == key then Some(value) else Lookup(f, k)
  {
    if f.Field? {
      LookupPutLast(f.rest, key, value, k);
    }
  }

  lemma LookupPut(f: Fields, key: Text, value: Json, k: Text)
    ensures Lookup(Put(f, key, value), k) == if k == key then Some(value) else Lookup(f, k)
  {
    hide IsIndex;
    LookupReplace(f, key, value, k);
    if Lookup(f, key).None? {
      LookupPutIndex(f, key, value, k);
      LookupPutLast(f, key, value, k);
    }
  }

  lemma {:induction false} ReplaceValid(f: Fields, key: Text, value: Json)
    requires ValidFields(f) && Valid(value)
    ensures ValidFields(Replace(f, key, value))
  {
    if f.Field? && f.key != key {
      ReplaceValid(f.rest, key, value);
      LookupReplace(f.rest, key, value, f.key);
    }
  }

  lemma {:induction false} PutIndexValid(f: Fields, key: Text, value: Json)
    requires ValidFields(f) && Valid(value) && Lookup(f, key).None?
    ensures ValidFields(PutIndex(f, key, value))
  {
    if f.Field? {
      PutIndexValid(f.rest, key, value);
      LookupPutIndex(f.rest, key, value, f.key);
    }
  }

  lemma {:induction false} PutLastValid(f: Fields, key: Text, value: Json)
    requires ValidFields(f) && Valid(value) && Lookup(f, key).None?
    ensures ValidFields(PutLast(f, key, value))
  {
    if f.Field? {
      PutLastValid(f.rest, key, value);
      LookupPutLast(f.rest, key, value, f.key);
    }
  }

  lemma PutValid(f: Fields, key: Text, value: Json)
    requires ValidFields(f) && Valid(value)
    ensures ValidFields(Put(f, key, value))
  {
    hide IsIndex, Valid, ValidFields;
    ReplaceValid(f, key, value);
    if Lookup(f, key).None? {
      PutIndexValid(f, key, value);
      PutLastValid(f, key, value);
    }
  }

  lemma {:induction false} LookupValid(f: Fields, key: Text)
    requires ValidFields(f) && Lookup(f, key).Some?
    ensures Valid(Lookup(f, key).value)
  {
    if f.key != key {
      LookupValid(f.rest, key);
    }
  }

  /** Writing back the value that is there changes nothing, not even the order. */
  lemma {:induction false} PutSame(f: Fields, key: Text)
    requires Lookup(f, key).Some?
    ensures Put(f, key, Lookup(f, key).value) == f
    ensures Replace(f, key, Lookup(f, key).value) == f
  {
    if f.key != key {
      PutSame(f.rest, key);
    }
  }

  // ----- Deep merge -----

  function Merge(base: Fields, patch: Fields): Fields
    decreases patch
  {
    match patch
    case NoFields => base
    case Field(k, v, rest) => Merge(Put(base, k, MergeValue(Lookup(base, k), v)), rest)
  }

  function MergeValue(old_: Option<Json>, patch: Json): Json
    decreases patch
  {
    if old_.Some? && old_.value.Obj? && patch.Obj? then Obj(Merge(old_.value.fields, patch.fields)) else patch
  }

  /** `deepMergeJsonObject`: a copy of the base, overwritten property by property. */
  method DeepMergeJsonObject(base: Fields, patch: Fields) returns (result: Fields)
    ensures result == Merge(base, patch)
    decreases patch
  {
    result := base;
    var entries := patch;
    while entries.Field?
      invariant Merge(result, entries) == Merge(base, patch)
      invariant entries == patch || entries < patch
      decreases entries
    {
      var baseValue := Lookup(result, entries.key);
      if baseValue.Some? && baseValue.value.Obj? && entries.value.Obj? {
        var merged := DeepMergeJsonObject(baseValue.value.fields, entries.value.fields);
        result := Put(result, entries.key, Obj(merged));
      } else {
        result := Put(result, entries.key, entries.value);
      }
      entries := entries.rest;
    }
  }

  /** Property by property: the patch's value, merged into the base's if both are objects. */
  lemma {:induction false} LookupMerge(base: Fields, patch: Fields, key: Text)
    requires ValidFields(patch)
    ensures Lookup(Merge(base, patch), key)
         == match Lookup(patch, key)
            case None => Lookup(base, key)
            case Some(v) => Some(MergeValue(Lookup(base, key), v))
    decreases patch
  {
    hide Put;
    if patch.Field? {
      var value := MergeValue(Lookup(base, patch.key), patch.value);
      LookupPut(base, patch.key, value, key);
      LookupMerge(Put(base, patch.key, value), patch.rest, key);
    }
  }

  lemma {:induction false} MergeValid(base: Fields, patch: Fields)
    requires ValidFields(base) && ValidFields(patch)
    ensures ValidFields(Merge(base, patch))
    decreases patch, 0
  {
    hide Put;
    if patch.Field? {
      var value := MergeValue(Lookup(base, patch.key), patch.value);
      if Lookup(base, patch.key).Some? {
        LookupValid(base, patch.key);
        if value != patch.value && patch.value.Obj? && Lookup(base, patch.key).value.Obj? {
          MergeValid(Lookup(base, patch.key).value.fields, patch.value.fields);
        }
      }
      PutValid(base, patch.key, value);
      MergeValid(Put(base, patch.key, value), patch.rest);
    }
  }

  /** A patch that changes no property leaves the base as it is. */
  ghost predicate Absorbed(base: Fields, patch: Fields) {
    patch.Field? ==>
      && Lookup(base, patch.key) == Some(MergeValue(Lookup(base, patch.key), patch.value))
      && Absorbed(base, patch.rest)
  }

  lemma {:induction false} AbsorbedMerge(base: Fields, patch: Fields)
    requires Absorbed(base, patch)
    ensures Merge(base, patch) == base
    decreases patch
  {
    hide Put;
    if patch.Field? {
      PutSame(base, patch.key);
      AbsorbedMerge(base, patch.rest);
    }
  }

  /** Whether merging `patch` once more into `base` is absorbed, property by property. */
  lemma {:induction false} AbsorbedFrom(base: Fields, whole: Fields, part: Fields)
    requires ValidFields(whole) && ValidFields(part)
    requires forall k :: Lookup(part, k).Some? ==> Lookup(whole, k) == Lookup(part, k)
    requires forall k :: Lookup(whole, k).Some? ==>
               Lookup(base, k) == Some(MergeValue(Lookup(base, k), Lookup(whole, k).value))
    ensures Absorbed(base, part)
    decreases part
  {
    hide MergeValue;
    if part.Field? {
      assert Lookup(part, part.key) == Some(part.value);
      forall k | Lookup(part.rest, k).Some?
        ensures Lookup(whole, k) == Lookup(part.rest, k)
      {
        assert Lookup(part, k) == Lookup(part.rest, k);
      }
      AbsorbedFrom(base, whole, part.rest);
    }
  }

  /** Merging a value into itself, or a second time, changes nothing. */
  lemma {:induction false} MergeValueTwice(old_: Option<Json>, patch: Json)
    requires Valid(patch)
    ensures MergeValue(Some(patch), patch) == patch
    ensures MergeValue(Some(MergeValue(old_, patch)), patch) == MergeValue(old_, patch)
    decreases patch, 1
  {
    if patch.Obj? {
      MergeSelf(patch.fields);
      if old_.Some? && old_.value.Obj? {
        MergeTwice(old_.value.fields, patch.fields);
      }
    }
  }

  /** merge(p, p) = p, order included. */
  lemma {:induction false} MergeSelf(patch: Fields)
    requires ValidFields(patch)
    ensures Merge(patch, patch) == patch
    decreases patch, 0
  {
    hide MergeValue, Merge;
    forall k | Lookup(patch, k).Some?
      ensures Lookup(patch, k) == Some(MergeValue(Lookup(patch, k), Lookup(patch, k).value))
    {
      LookupValid(patch, k);
      LookupSmaller(patch, k);
      MergeValueTwice(None, Lookup(patch, k).value);
    }
    AbsorbedFrom(patch, patch, patch);
    AbsorbedMerge(patch, patch);
  }

  /** merge(merge(b, p), p) = merge(b, p), order included. */
  lemma {:induction false} MergeTwice(base: Fields, patch: Fields)
    requires ValidFields(patch)
    ensures Merge(Merge(base, patch), patch) == Merge(base, patch)
    decreases patch, 0
  {
    hide MergeValue, Merge;
    var once := Merge(base, patch);
    forall k | Lookup(patch, k).Some?
      ensures Lookup(once, k) == Some(MergeValue(Lookup(once, k), Lookup(patch, k).value))
    {
      LookupMerge(base, patch, k);
      LookupValid(patch, k);
      LookupSmaller(patch, k);
      MergeValueTwice(Lookup(base, k), Lookup(patch, k).value);
    }
    AbsorbedFrom(once, patch, patch);
    AbsorbedMerge(once, patch);
  }

  lemma {:induction false} LookupSmaller(f: Fields, key: Text)
    requires Lookup(f, key).Some?
    ensures Lookup(f, key).value < f
  {
    if f.key != key {
      LookupSmaller(f.rest, key);
    }
  }

  // ----- The merge, path by path -----

  type Path = seq<Text>

  function At(v: Json, path: Path): Option<Json>
    decreases |path|
  {
    if path == [] then Some(v)
    else if !v.Obj? then None
    else
      match Lookup(v.fields, path[0])
      case None => None
      case Some(w) => At(w, path[1..])
  }

  function AtOption(v: Option<Json>, path: Path): Option<Json> {
    match v case None => None case Some(w) => At(w, path)
  }

  /** On the way to `path`, strictly before its end, the value is something other than an object. */
  predicate CutOff(v: Json, path: Path)
    decreases |path|
  {
    path != [] &&
    (!v.Obj? ||
     match Lookup(v.fields, path[0])
     case None => false
     case Some(w) => CutOff(w, path[1..]))
  }

  /** What a merge holds at a path, told from base and patch at that path alone. */
  function Overlay(base: Option<Json>, patch: Json, path: Path): Option<Json> {
    match At(patch, path)
    case Some(p) =>
      // The patch decides; two objects are merged.
      Some(MergeValue(AtOption(base, path), p))
    case None =>
      // The patch says nothing: the base stays, unless the patch put a non-object above.
      if CutOff(patch, path) then None else AtOption(base, path)
  }

  lemma {:induction false} MergeValueAt(base: Option<Json>, patch: Json, path: Path)
    requires Valid(patch)
    ensures At(MergeValue(base, patch), path) == Overlay(base, patch, path)
    decreases |path|
  {
    hide Merge;
    if path != [] && patch.Obj? {
      var key := path[0];
      if base.Some? && base.value.Obj? {
        LookupMerge(base.value.fields, patch.fields, key);
        if Lookup(patch.fields, key).Some? {
          LookupValid(patch.fields, key);
          MergeValueAt(Lookup(base.value.fields, key), Lookup(patch.fields, key).value, path[1..]);
        }
      } else if Lookup(patch.fields, key).Some? {
        LookupValid(patch.fields, key);
        MergeValueAt(None, Lookup(patch.fields, key).value, path[1..]);
      }
    }
  }

  /** Every path of a merged profile is explained by the base, the patch, and nothing else. */
  lemma MergeAt(base: Fields, patch: Fields, path: Path)
    requires ValidFields(patch)
    ensures At(Obj(Merge(base, patch)), path) == Overlay(Some(Obj(base)), Obj(patch), path)
  {
    MergeValueAt(Some(Obj(base)), Obj(patch), path);
  }

  /** The patch wins wherever it holds a non-object; null is stored like any other value. */
  lemma PatchWins(base: Fields, patch: Fields, path: Path)
    requires ValidFields(patch)
    requires At(Obj(patch), path).Some? && !At(Obj(patch), path).value.Obj?
    ensures At(Obj(Merge(base, patch)), path) == At(Obj(patch), path)
  {
    MergeAt(base, patch, path);
  }

  // ----- Canonical form -----

  /** Equal up to key order at every level. */
  ghost predicate Same(v: Json, w: Json)
    decreases v, 1
  {
    match (v, w)
    case (Arr(a), Arr(b)) => SameItems(a, b)
    case (Obj(a), Obj(b)) => SameFields(a, b)
    case _ => v == w
  }

  ghost predicate SameItems(a: Items, b: Items)
    decreases a, 0
  {
    match (a, b)
    case (NoItems, NoItems) => true
    case (Item(x, s), Item(y, t)) => Same(x, y) && SameItems(s, t)
    case _ => false
  }

  /** The same keys, and at each of them the same value. */
  ghost predicate SameFields(a: Fields, b: Fields)
    decreases a, 1
  {
    && (forall k :: Lookup(a, k).Some? <==> Lookup(b, k).Some?)
    && EachSame(a, b)
  }

  ghost predicate EachSame(a: Fields, b: Fields)
    decreases a, 0
  {
    a.Field? ==>
      && Lookup(b, a.key).Some?
      && Same(a.value, Lookup(b, a.key).value)
      && EachSame(a.rest, b)
  }

  /** Build an object by assigning the given keys in turn. */
  function Build(keys: seq<Text>, from: Fields, target: Fields): Fields
    decreases |keys|
  {
    if keys == [] then target
    else
      var value := Lookup(from, keys[0]).GetOr(Null);
      Build(keys[1..], from, Put(target, keys[0], value))
  }

  /** `sortJsonValue` */
  function Canon(v: Json): Json {
    match v
    case Arr(items) => Arr(CanonItems(items))
    case Obj(fields) => Obj(Build(Sort(Keys(fields)), CanonFields(fields), NoFields))
    case _ => v
  }

  function CanonItems(items: Items): Items {
    match items
    case NoItems => NoItems
    case Item(head, tail) => Item(Canon(head), CanonItems(tail))
  }

  /** The same properties with canonical values, in the old order. */
  function CanonFields(f: Fields): Fields {
    match f
    case NoFields => NoFields
    case Field(k, v, rest) => Field(k, Canon(v), CanonFields(rest))
  }

  /** `sortJsonValue` on an object: assign the sorted keys to a fresh object. */
  method SortJsonValue(v: Json) returns (r: Json)
    ensures r == Canon(v)
    decreases v, 1
  {
    match v
    case Arr(items) =>
      var sorted := SortItems(items);
      r := Arr(sorted);
    case Obj(fields) =>
      var keys := Sort(Keys(fields));
      var sorted := NoFields;
      for i := 0 to |keys|
        invariant Build(keys[i..], CanonFields(fields), sorted) == Build(keys, CanonFields(fields), NoFields)
      {
        SortMember(Self, Keys(fields), keys[i]);
        KeysAreLookups(fields, keys[i]);
        LookupSmaller(fields, keys[i]);
        LookupCanonFields(fields, keys[i]);
        var value := SortJsonValue(Lookup(fields, keys[i]).value);
        sorted := Put(sorted, keys[i], value);
        assert keys[i..][1..] == keys[i + 1..];
      }
      r := Obj(sorted);
    case _ =>
      r := v;
  }

  method SortItems(items: Items) returns (r: Items)
    ensures r == CanonItems(items)
    decreases items, 0
  {
    match items
    case NoItems => r := NoItems;
    case Item(head, tail) =>
      var first := SortJsonValue(head);
      var others := SortItems(tail);
      r := Item(first, others);
  }

  lemma {:induction false} KeysAreLookups(f: Fields, k: Text)
    ensures k in Keys(f) <==> Lookup(f, k).Some?
  {
    if f.Field? {
      KeysAreLookups(f.rest, k);
    }
  }

  lemma {:induction false} KeysDistinct(f: Fields)
    requires ValidFields(f)
    ensures Distinct(Self, Keys(f))
  {
    if f.Field? {
      KeysDistinct(f.rest);
      KeysAreLookups(f.rest, f.key);
      forall j | 0 <= j < |Keys(f.rest)|
        ensures Keys(f.rest)[j] != f.key
      {
        assert Keys(f.rest)[j] in Keys(f.rest);
      }
    }
  }

  lemma {:induction false} LookupCanonFields(f: Fields, k: Text)
    ensures Lookup(CanonFields(f), k)
         == match Lookup(f, k) case None => None case Some(v) => Some(Canon(v))
  {
    hide Canon;
    if f.Field? {
      LookupCanonFields(f.rest, k);
    }
  }

  lemma {:induction false} LookupBuild(keys: seq<Text>, from: Fields, target: Fields, k: Text)
    ensures Lookup(Build(keys, from, target), k)
         == if k in keys then Some(Lookup(from, k).GetOr(Null)) else Lookup(target, k)
    decreases |keys|
  {
    hide Put;
    if keys != [] {
      var next := Put(target, keys[0], Lookup(from, keys[0]).GetOr(Null));
      LookupPut(target, keys[0], Lookup(from, keys[0]).GetOr(Null), k);
      LookupBuild(keys[1..], from, next, k);
      assert keys == [keys[0]] + keys[1..];
    }
  }

  lemma {:induction false} BuildAgrees(keys: seq<Text>, a: Fields, b: Fields, target: Fields)
    requires forall k :: k in keys ==> Lookup(a, k) == Lookup(b, k)
    ensures Build(keys, a, target) == Build(keys, b, target)
    decreases |keys|
  {
    hide Put;
    if keys != [] {
      BuildAgrees(keys[1..], a, b, Put(target, keys[0], Lookup(a, keys[0]).GetOr(Null)));
    }
  }

  lemma {:induction false} BuildValid(keys: seq<Text>, from: Fields, target: Fields)
    requires ValidFields(from) && ValidFields(target)
    ensures ValidFields(Build(keys, from, target))
    decreases |keys|
  {
    hide Put;
    if keys != [] {
      var value := Lookup(from, keys[0]).GetOr(Null);
      if Lookup(from, keys[0]).Some? {
        LookupValid(from, keys[0]);
      }
      PutValid(target, keys[0], value);
      BuildValid(keys[1..], from, Put(target, keys[0], value));
    }
  }

  lemma {:induction false} CanonValid(v: Json)
    requires Valid(v)
    ensures Valid(Canon(v))
    decreases v, 1
  {
    match v
    case Arr(items) => CanonItemsValid(items);
    case Obj(fields) =>
      CanonFieldsValid(fields);
      BuildValid(Sort(Keys(fields)), CanonFields(fields), NoFields);
    case _ =>
  }

  lemma {:induction false} CanonItemsValid(items: Items)
    requires ValidItems(items)
    ensures ValidItems(CanonItems(items))
    decreases items, 0
  {
    if items.Item? {
      CanonValid(items.head);
      CanonItemsValid(items.tail);
    }
  }

  lemma {:induction false} CanonFieldsValid(f: Fields)
    requires ValidFields(f)
    ensures ValidFields(CanonFields(f))
    decreases f, 0
  {
    if f.Field? {
      CanonValid(f.value);
      CanonFieldsValid(f.rest);
      LookupCanonFields(f.rest, f.key);
    }
  }

  /** What the canonical object holds under a key. */
  lemma LookupCanon(f: Fields, k: Text)
    ensures Lookup(Build(Sort(Keys(f)), CanonFields(f), NoFields), k)
         == match Lookup(f, k) case None => None case Some(v) => Some(Canon(v))
  {
    hide Canon, Build, SortBy, Keys;
    LookupBuild(Sort(Keys(f)), CanonFields(f), NoFields, k);
    SortMember(Self, Keys(f), k);
    KeysAreLookups(f, k);
    LookupCanonFields(f, k);
  }

  lemma {:induction false} EachSameAt(a: Fields, b: Fields, k: Text)
    requires EachSame(a, b) && Lookup(a, k).Some?
    ensures Lookup(b, k).Some? && Same(Lookup(a, k).value, Lookup(b, k).value)
  {
    if a.key != k {
      EachSameAt(a.rest, b, k);
    }
  }

  lemma {:induction false} EachSameFrom(a: Fields, b: Fields)
    requires ValidFields(a)
    requires forall k :: Lookup(a, k).Some? ==>
               Lookup(b, k).Some? && Same(Lookup(a, k).value, Lookup(b, k).value)
    ensures EachSame(a, b)
  {
    if a.Field? {
      assert Lookup(a, a.key) == Some(a.value);
      forall k | Lookup(a.rest, k).Some?
        ensures Lookup(b, k).Some? && Same(Lookup(a.rest, k).value, Lookup(b, k).value)
      {
        assert Lookup(a, k) == Lookup(a.rest, k);
      }
      EachSameFrom(a.rest, b);
    }
  }

  /** Values equal up to key order have one canonical form. */
  lemma {:induction false} SameCanon(v: Json, w: Json)
    requires Valid(v) && Valid(w) && Same(v, w)
    ensures Canon(v) == Canon(w)
    decreases v, 1
  {
    match (v, w)
    case (Arr(a), Arr(b)) => SameCanonItems(a, b);
    case (Obj(a), Obj(b)) => SameCanonFields(a, b);
    case _ =>
  }

  lemma {:induction false} SameCanonItems(a: Items, b: Items)
    requires ValidItems(a) && ValidItems(b) && SameItems(a, b)
    ensures CanonItems(a) == CanonItems(b)
    decreases a, 0
  {
    if a.Item? {
      SameCanon(a.head, b.head);
      SameCanonItems(a.tail, b.tail);
    }
  }

  lemma {:induction false} SameCanonFields(a: Fields, b: Fields)
    requires ValidFields(a) && ValidFields(b) && SameFields(a, b)
    ensures Canon(Obj(a)) == Canon(Obj(b))
    decreases a, 0
  {
    hide Same, EachSame, SortBy, Build;
    KeysDistinct(a);
    KeysDistinct(b);
    forall k
      ensures k in Keys(a) <==> k in Keys(b)
    {
      KeysAreLookups(a, k);
      KeysAreLookups(b, k);
    }
    SortCanonical(Self, Keys(a), Keys(b));
    var keys := Sort(Keys(a));
    forall k | k in keys
      ensures Lookup(CanonFields(a), k) == Lookup(CanonFields(b), k)
    {
      SortMember(Self, Keys(a), k);
      KeysAreLookups(a, k);
      EachSameAt(a, b, k);
      LookupCanonFields(a, k);
      LookupCanonFields(b, k);
      LookupValid(a, k);
      LookupValid(b, k);
      LookupSmaller(a, k);
      SameCanon(Lookup(a, k).value, Lookup(b, k).value);
    }
    BuildAgrees(keys, CanonFields(a), CanonFields(b), NoFields);
  }

  /** One canonical form means equal up to key order. */
  lemma {:induction false} CanonSame(v: Json, w: Json)
    requires Valid(v) && Valid(w) && Canon(v) == Canon(w)
    ensures Same(v, w)
    decreases v, 1
  {
    match (v, w)
    case (Arr(a), Arr(b)) => CanonSameItems(a, b);
    case (Obj(a), Obj(b)) => CanonSameFields(a, b);
    case _ =>
  }

  lemma {:induction false} CanonSameItems(a: Items, b: Items)
    requires ValidItems(a) && ValidItems(b) && CanonItems(a) == CanonItems(b)
    ensures SameItems(a, b)
    decreases a, 0
  {
    if a.Item? && b.Item? {
      CanonSame(a.head, b.head);
      CanonSameItems(a.tail, b.tail);
    }
  }

  lemma {:induction false} CanonSameFields(a: Fields, b: Fields)
    requires ValidFields(a) && ValidFields(b) && Canon(Obj(a)) == Canon(Obj(b))
    ensures SameFields(a, b)
    decreases a, 0
  {
    hide Same, EachSame, SortBy, Build, Keys;
    forall k
      ensures Lookup(a, k).Some? <==> Lookup(b, k).Some?
      ensures Lookup(a, k).Some? ==> Same(Lookup(a, k).value, Lookup(b, k).value)
    {
      LookupCanon(a, k);
      LookupCanon(b, k);
      if Lookup(a, k).Some? && Lookup(b, k).Some? {
        LookupValid(a, k);
        LookupValid(b, k);
        LookupSmaller(a, k);
        CanonSame(Lookup(a, k).value, Lookup(b, k).value);
      }
    }
    EachSameFrom(a, b);
  }

  /** The canonical form is the value itself, up to key order ... */
  lemma {:induction false} CanonPreserves(v: Json)
    requires Valid(v)
    ensures Same(Canon(v), v)
    decreases v, 1
  {
    match v
    case Arr(items) => CanonItemsPreserves(items);
    case Obj(fields) => CanonFieldsPreserves(fields);
    case _ =>
  }

  lemma {:induction false} CanonItemsPreserves(items: Items)
    requires ValidItems(items)
    ensures SameItems(CanonItems(items), items)
    decreases items, 0
  {
    if items.Item? {
      CanonPreserves(items.head);
      CanonItemsPreserves(items.tail);
    }
  }

  lemma {:induction false} CanonFieldsPreserves(f: Fields)
    requires ValidFields(f)
    ensures SameFields(Canon(Obj(f)).fields, f)
    decreases f, 0
  {
    hide Same, EachSame, SortBy, Build, Keys;
    var canonical := Canon(Obj(f)).fields;
    CanonFieldsValid(f);
    BuildValid(Sort(Keys(f)), CanonFields(f), NoFields);
    forall k
      ensures Lookup(canonical, k).Some? <==> Lookup(f, k).Some?
      ensures Lookup(canonical, k).Some? ==> Same(Lookup(canonical, k).value, Lookup(f, k).value)
    {
      LookupCanon(f, k);
      if Lookup(f, k).Some? {
        LookupValid(f, k);
        LookupSmaller(f, k);
        CanonPreserves(Lookup(f, k).value);
      }
    }
    EachSameFrom(canonical, f);
  }

  /** ... and canonicalising again changes nothing. */
  lemma CanonIdempotent(v: Json)
    requires Valid(v)
    ensures Canon(Canon(v)) == Canon(v)
  {
    hide Canon, Same;
    CanonValid(v);
    CanonPreserves(v);
    SameCanon(Canon(v), v);
  }
}
