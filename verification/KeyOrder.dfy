/**
 * The order in which an object lists its keys: array indices first, ascending, then all other keys
 * in the order in which they were first assigned.
 */
module KeyOrder {
  import opened Bytes
  import opened Ordering
  import opened Json

  // ----- Array indices are the decimal numerals below 2^32 - 1 -----

  function Decimal(n: nat): Text {
    if n < 10 then [48 + n] else Decimal(n / 10) + [48 + n % 10]
  }

  function Power(n: nat): nat {
    if n == 0 then 1 else 10 * Power(n - 1)
  }

  lemma {:induction false} DecimalReads(n: nat)
    ensures var key := Decimal(n);
      && key != [] && Numeral(key) == n
      && (forall i :: 0 <= i < |key| ==> 48 <= key[i] <= 57)
      && (key[0] == 48 <==> n == 0)
  {
    if n >= 10 {
      DecimalReads(n / 10);
      var key := Decimal(n);
      assert key[..|key| - 1] == Decimal(n / 10);
    } else {
      assert Decimal(n)[..0] == [];
    }
  }

  lemma {:induction false} DecimalIsShort(n: nat, k: nat)
    requires k > 0 && n < Power(k)
    ensures |Decimal(n)| <= k
    decreases k
  {
    if n >= 10 && k > 1 {
      DecimalIsShort(n / 10, k - 1);
    }
  }

  lemma {:induction false} NumeralWrites(key: Text)
    requires key != [] && (forall i :: 0 <= i < |key| ==> 48 <= key[i] <= 57)
    requires key[0] != 48 || |key| == 1
    ensures Numeral(key) >= 0 && Decimal(Numeral(key)) == key
    ensures key[0] != 48 ==> Numeral(key) > 0
    decreases |key|
  {
    var front, digit := key[..|key| - 1], key[|key| - 1] - 48;
    if |key| == 1 {
      assert front == [] && Numeral(front) == 0;
    } else {
      NumeralWrites(front);
      assert Numeral(key) == 10 * Numeral(front) + digit;
      assert key == front + [48 + digit];
    }
  }

  lemma TenDigits()
    ensures 0xFFFF_FFFF < Power(10)
  {
    assert Power(5) == 100000;
    assert Power(10) == 100000 * Power(5);
  }

  /** A key is an array index exactly when it is the decimal numeral of a number below 2^32 - 1. */
  lemma IsIndexIff(key: Text)
    ensures IsIndex(key) <==> exists n: nat :: n < 0xFFFF_FFFF && key == Decimal(n)
    ensures IsIndex(key) ==> 0 <= Numeral(key) < 0xFFFF_FFFF && key == Decimal(Numeral(key))
  {
    hide Decimal, Power;
    if IsIndex(key) {
      NumeralWrites(key);
      if key == [48] {
        assert key[..0] == [] && Numeral([]) == 0;
      }
    }
    forall n: nat | n < 0xFFFF_FFFF && key == Decimal(n)
      ensures IsIndex(key)
    {
      DecimalReads(n);
      TenDigits();
      DecimalIsShort(n, 10);
      ZeroDecimal();
    }
  }

  lemma ZeroDecimal()
    ensures Decimal(0) == [48]
  {
  }

  lemma IndicesDiffer(a: Text, b: Text)
    requires IsIndex(a) && IsIndex(b) && a != b
    ensures Numeral(a) != Numeral(b)
  {
    hide IsIndex, Decimal, Numeral;
    IsIndexIff(a);
    IsIndexIff(b);
  }

  // ----- The order of keys -----

  /** Array indices come first, strictly ascending. */
  ghost predicate IndicesFirst(keys: seq<Text>) {
    forall i, j :: 0 <= i < j < |keys| && IsIndex(keys[j]) ==> IsIndex(keys[i]) && Numeral(keys[i]) < Numeral(keys[j])
  }

  /** The keys that are no array indices, in order. */
  function Others(keys: seq<Text>): seq<Text>
    decreases |keys|
  {
    if keys == [] then []
    else if IsIndex(keys[0]) then Others(keys[1..])
    else [keys[0]] + Others(keys[1..])
  }

  lemma {:induction false} OthersAppend(a: seq<Text>, b: seq<Text>)
    ensures Others(a + b) == Others(a) + Others(b)
    decreases |a|
  {
    hide IsIndex;
    if a == [] {
      assert a + b == b;
    } else {
      assert (a + b)[1..] == a[1..] + b;
      OthersAppend(a[1..], b);
    }
  }

  lemma {:induction false} ReplaceKeys(f: Fields, key: Text, value: Json)
    ensures Keys(Replace(f, key, value)) == Keys(f)
  {
    if f.Field? && f.key != key {
      ReplaceKeys(f.rest, key, value);
    }
  }

  lemma {:induction false} PutLastKeys(f: Fields, key: Text, value: Json)
    ensures Keys(PutLast(f, key, value)) == Keys(f) + [key]
  {
    if f.Field? {
      PutLastKeys(f.rest, key, value);
    }
  }

  /** The first `p` keys are the array indices below `key`. */
  ghost predicate Below(keys: seq<Text>, p: nat, key: Text) {
    && p <= |keys|
    && (forall i :: 0 <= i < p ==> IsIndex(keys[i]) && Numeral(keys[i]) < Numeral(key))
    && (p < |keys| && IsIndex(keys[p]) ==> Numeral(key) <= Numeral(keys[p]))
  }

  lemma ConsInsert(first: Text, keys: seq<Text>, key: Text, p: nat)
    requires IsIndex(first) && Numeral(first) < Numeral(key) && Below(keys, p, key)
    ensures var all := [first] + keys;
      && Below(all, p + 1, key)
      && [first] + (keys[..p] + [key] + keys[p..]) == all[..p + 1] + [key] + all[p + 1..]
  {
    hide IsIndex, Numeral;
  }

  /** A new array index is inserted; `p` smaller ones stay before it. */
  lemma {:induction false} PutIndexKeys(f: Fields, key: Text, value: Json) returns (p: nat)
    ensures var keys := Keys(f);
      Below(keys, p, key) && p <= |keys| && Keys(PutIndex(f, key, value)) == keys[..p] + [key] + keys[p..]
  {
    hide IsIndex, Numeral, Below;
    p := 0;
    if f.Field? && IsIndex(f.key) && Numeral(f.key) < Numeral(key) {
      var k := PutIndexKeys(f.rest, key, value);
      p := k + 1;
      ConsInsert(f.key, Keys(f.rest), key, k);
    } else {
      NoneBelow(f, key);
    }
  }

  lemma NoneBelow(f: Fields, key: Text)
    requires !(f.Field? && IsIndex(f.key) && Numeral(f.key) < Numeral(key))
    ensures Below(Keys(f), 0, key)
  {
    hide IsIndex, Numeral;
  }

  lemma InsertedAt(keys: seq<Text>, key: Text, p: nat, i: nat)
    requires p <= |keys| && i <= |keys|
    ensures (keys[..p] + [key] + keys[p..])[i] == if i < p then keys[i] else if i == p then key else keys[i - 1]
  {
  }

  lemma InsertedInOrder(keys: seq<Text>, key: Text, p: nat)
    requires IndicesFirst(keys) && IsIndex(key) && key !in keys && Below(keys, p, key)
    ensures IndicesFirst(keys[..p] + [key] + keys[p..])
  {
    hide IsIndex, Numeral;
    var new_ := keys[..p] + [key] + keys[p..];
    forall i, j | 0 <= i < j < |new_| && IsIndex(new_[j])
      ensures IsIndex(new_[i]) && Numeral(new_[i]) < Numeral(new_[j])
    {
      InsertedAt(keys, key, p, i);
      InsertedAt(keys, key, p, j);
      if j > p {
        BeyondInserted(keys, key, p, j - 1);
      }
    }
  }

  /** An index behind the place of insertion is greater than the inserted one. */
  lemma BeyondInserted(keys: seq<Text>, key: Text, p: nat, j: nat)
    requires IndicesFirst(keys) && IsIndex(key) && key !in keys && Below(keys, p, key)
    requires p <= j < |keys| && IsIndex(keys[j])
    ensures Numeral(key) < Numeral(keys[j])
  {
    hide IsIndex, Numeral;
    assert keys[p] in keys;
    if j == p {
      IndicesDiffer(key, keys[p]);
    } else {
      assert IsIndex(keys[p]) && Numeral(keys[p]) < Numeral(keys[j]);
    }
  }

  /** Assigning a property keeps the order of all others, and puts a new one where it belongs. */
  lemma PutOrder(f: Fields, key: Text, value: Json)
    requires IndicesFirst(Keys(f))
    ensures var before, after := Keys(f), Keys(Put(f, key, value));
      && IndicesFirst(after)
      && Others(after) == Others(before) + (if key in before || IsIndex(key) then [] else [key])
      && (forall k :: k in after <==> k in before || k == key)
  {
    hide IsIndex, IndicesFirst, Others, Numeral;
    var before, after := Keys(f), Keys(Put(f, key, value));
    forall k
      ensures k in after <==> k in before || k == key
    {
      KeysAreLookups(Put(f, key, value), k);
      KeysAreLookups(f, k);
      LookupPut(f, key, value, k);
    }
    KeysAreLookups(f, key);
    NoOthers();
    if key in before {
      ReplaceKeys(f, key, value);
    } else if IsIndex(key) {
      var p := PutIndexKeys(f, key, value);
      InsertedInOrder(before, key, p);
      OthersAppend(before[..p] + [key], before[p..]);
      OthersAppend(before[..p], [key]);
      OthersAppend(before[..p], before[p..]);
      OneOther(key);
      assert before[..p] + before[p..] == before;
    } else {
      PutLastKeys(f, key, value);
      OthersAppend(before, [key]);
      OneOther(key);
      LastInOrder(before, key);
    }
  }

  lemma NoOthers()
    ensures Others([]) == []
  {
  }

  lemma OneOther(key: Text)
    ensures Others([key]) == if IsIndex(key) then [] else [key]
  {
    hide IsIndex;
    assert [key][1..] == [];
  }

  lemma LastInOrder(keys: seq<Text>, key: Text)
    requires IndicesFirst(keys) && !IsIndex(key)
    ensures IndicesFirst(keys + [key])
  {
    hide IsIndex, Numeral;
  }

  // ----- Merging keeps the base's order -----

  /** The keys that are no array indices and not among `known`, in order. */
  function NewOthers(keys: seq<Text>, known: seq<Text>): seq<Text>
    decreases |keys|
  {
    if keys == [] then []
    else if IsIndex(keys[0]) || keys[0] in known then NewOthers(keys[1..], known)
    else [keys[0]] + NewOthers(keys[1..], known)
  }

  lemma {:induction false} NewOthersSame(keys: seq<Text>, a: seq<Text>, b: seq<Text>)
    requires forall k :: k in keys ==> (k in a <==> k in b)
    ensures NewOthers(keys, a) == NewOthers(keys, b)
    decreases |keys|
  {
    hide IsIndex;
    if keys != [] {
      assert keys[0] in keys;
      NewOthersSame(keys[1..], a, b);
    }
  }

  /** One key more is known, and the others are told from it. */
  lemma NewOthersCons(key: Text, keys: seq<Text>, known: seq<Text>, after: seq<Text>)
    requires key !in keys && forall k :: k in after <==> k in known || k == key
    ensures NewOthers([key] + keys, known)
         == (if key in known || IsIndex(key) then [] else [key]) + NewOthers(keys, after)
  {
    hide IsIndex;
    assert ([key] + keys)[1..] == keys;
    NewOthersSame(keys, known, after);
  }

  /** A merge lists the base's keys in their order, then the patch's new ones in theirs; indices come first. */
  lemma {:induction false} MergeOrder(base: Fields, patch: Fields)
    requires IndicesFirst(Keys(base)) && ValidFields(patch)
    ensures IndicesFirst(Keys(Merge(base, patch)))
    ensures Others(Keys(Merge(base, patch))) == Others(Keys(base)) + NewOthers(Keys(patch), Keys(base))
    decreases patch
  {
    hide IsIndex, IndicesFirst, Others, Put, MergeValue, NewOthers;
    if patch.NoFields? {
      NoneNew(Keys(base));
    } else {
      var value := MergeValue(Lookup(base, patch.key), patch.value);
      var next := Put(base, patch.key, value);
      PutOrder(base, patch.key, value);
      MergeOrder(next, patch.rest);
      KeysAreLookups(patch.rest, patch.key);
      NewOthersCons(patch.key, Keys(patch.rest), Keys(base), Keys(next));
      Associative(
        Others(Keys(base)), if patch.key in Keys(base) || IsIndex(patch.key) then [] else [patch.key],
        NewOthers(Keys(patch.rest), Keys(next)));
    }
  }

  lemma NoneNew(known: seq<Text>)
    ensures NewOthers([], known) == []
  {
  }

  // ----- The canonical order -----

  /** Array indices ascending by number, then all other keys ascending by text. */
  ghost predicate InCanonicalOrder(keys: seq<Text>) {
    IndicesFirst(keys) && Ascending(Self, Others(keys))
  }

  /** At every level. */
  ghost predicate Ordered(v: Json)
    decreases v, 1
  {
    match v
    case Arr(items) => OrderedItems(items)
    case Obj(fields) => InCanonicalOrder(Keys(fields)) && OrderedFields(fields)
    case _ => true
  }

  ghost predicate OrderedItems(items: Items)
    decreases items, 0
  {
    items.Item? ==> Ordered(items.head) && OrderedItems(items.tail)
  }

  ghost predicate OrderedFields(f: Fields)
    decreases f, 0
  {
    f.Field? ==> Ordered(f.value) && OrderedFields(f.rest)
  }

  lemma {:induction false} OrderedAt(f: Fields, k: Text)
    requires OrderedFields(f) && Lookup(f, k).Some?
    ensures Ordered(Lookup(f, k).value)
    decreases f
  {
    if f.key != k {
      OrderedAt(f.rest, k);
    }
  }

  lemma {:induction false} OrderedFromLookups(f: Fields)
    requires ValidFields(f) && forall k :: Lookup(f, k).Some? ==> Ordered(Lookup(f, k).value)
    ensures OrderedFields(f)
    decreases f
  {
    hide Ordered;
    if f.Field? {
      assert Lookup(f, f.key) == Some(f.value);
      forall k | Lookup(f.rest, k).Some?
        ensures Ordered(Lookup(f.rest, k).value)
      {
        assert Lookup(f, k) == Lookup(f.rest, k);
      }
      OrderedFromLookups(f.rest);
    }
  }

  /** Building from ascending keys: they are appended to what is there, indices sorted in. */
  lemma {:induction false} BuildOrder(keys: seq<Text>, from: Fields, target: Fields)
    requires InCanonicalOrder(Keys(target)) && Ascending(Self, keys)
    requires forall a, b :: a in Keys(target) && b in keys ==> Less(a, b)
    ensures InCanonicalOrder(Keys(Build(keys, from, target)))
    decreases |keys|
  {
    hide IsIndex, IndicesFirst, Others, Put, Less;
    if keys != [] {
      var key, value := keys[0], Lookup(from, keys[0]).GetOr(Null);
      assert keys[0] in keys;
      PutOrder(target, key, value);
      AscendingTail(Self, keys);
      LessTotal(key, key);
      forall o | o in Others(Keys(target))
        ensures Less(o, key)
      {
        OthersAreKeys(Keys(target), o);
      }
      assert Ascending(Self, Others(Keys(target)) + [key]);
      forall a, b | a in Keys(Put(target, key, value)) && b in keys[1..]
        ensures Less(a, b)
      {
        assert b in keys;
        FirstIsLeast(Self, keys, b);
      }
      BuildOrder(keys[1..], from, Put(target, key, value));
    }
  }

  lemma {:induction false} OthersAreKeys(keys: seq<Text>, k: Text)
    requires k in Others(keys)
    ensures k in keys
    decreases |keys|
  {
    hide IsIndex;
    if keys != [] {
      assert keys == [keys[0]] + keys[1..];
      if k in Others(keys[1..]) {
        OthersAreKeys(keys[1..], k);
      }
    }
  }

  /** `sortJsonValue` lists the keys of every object in canonical order. */
  lemma {:induction false} CanonIsOrdered(v: Json)
    requires Valid(v)
    ensures Ordered(Canon(v))
    decreases v, 2
  {
    hide InCanonicalOrder, Build, CanonFields, Sort;
    match v
    case Arr(items) => CanonItemsOrdered(items);
    case Obj(fields) =>
      var built := Build(Sort(Keys(fields)), CanonFields(fields), NoFields);
      CanonKeysOrdered(fields);
      CanonValid(v);
      forall k | Lookup(built, k).Some?
        ensures Ordered(Lookup(built, k).value)
      {
        LookupCanon(fields, k);
        LookupSmaller(fields, k);
        LookupValid(fields, k);
        CanonIsOrdered(Lookup(fields, k).value);
      }
      OrderedFromLookups(built);
    case _ =>
  }

  lemma {:induction false} CanonItemsOrdered(items: Items)
    requires ValidItems(items)
    ensures OrderedItems(CanonItems(items))
    decreases items, 1
  {
    hide Canon, Ordered;
    if items.Item? {
      CanonIsOrdered(items.head);
      CanonItemsOrdered(items.tail);
    }
  }

  lemma CanonKeysOrdered(f: Fields)
    requires ValidFields(f)
    ensures InCanonicalOrder(Keys(Build(Sort(Keys(f)), CanonFields(f), NoFields)))
  {
    hide Build, CanonFields, IndicesFirst, Others;
    KeysDistinct(f);
    SortAscending(Self, Keys(f));
    NoOthers();
    NothingInOrder();
    BuildOrder(Sort(Keys(f)), CanonFields(f), NoFields);
  }

  lemma NothingInOrder()
    ensures IndicesFirst([])
  {
  }
}
