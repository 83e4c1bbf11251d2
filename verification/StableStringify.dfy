/** The text of a JSON value as a token sequence, and the signature built from the canonical form. */
module StableStringify {
  import Ordering
  import opened Json

  datatype Token =
    | BraceOpen | BraceClose | BracketOpen | BracketClose | Comma | Colon
    | NullToken | BoolToken(flag: bool) | NumToken(number: real) | StrToken(text: Ordering.Text)

  /** `JSON.stringify`, up to the spelling of single tokens. */
  function Stringify(v: Json): seq<Token> {
    match v
    case Null => [NullToken]
    case Bool(b) => [BoolToken(b)]
    case Num(n) => [NumToken(n)]
    case Str(t) => [StrToken(t)]
    case Arr(items) => [BracketOpen] + StringifyItems(items, true)
    case Obj(fields) => [BraceOpen] + StringifyFields(fields, true)
  }

  function Separator(first: bool): seq<Token> {
    if first then [] else [Comma]
  }

  function StringifyItems(items: Items, first: bool): seq<Token> {
    match items
    case NoItems => [BracketClose]
    case Item(head, tail) => Separator(first) + (Stringify(head) + StringifyItems(tail, false))
  }

  function StringifyFields(f: Fields, first: bool): seq<Token> {
    match f
    case NoFields => [BraceClose]
    case Field(k, v, rest) =>
      Separator(first) + ([StrToken(k), Colon] + (Stringify(v) + StringifyFields(rest, false)))
  }

  function StableJsonStringify(v: Json): seq<Token> {
    Stringify(Canon(v))
  }

  // ----- A reader of the text -----

  /** A value and the tokens behind it. */
  datatype Reading<V> = Reading(value: V, rest: seq<Token>) | NoValue

  function ReadValue(t: seq<Token>): (r: Reading<Json>)
    ensures r.Reading? ==> |r.rest| < |t|
    decreases |t|, 1
  {
    if t == [] then NoValue
    else
      match t[0]
      case NullToken => Reading(Null, t[1..])
      case BoolToken(b) => Reading(Bool(b), t[1..])
      case NumToken(n) => Reading(Num(n), t[1..])
      case StrToken(text) => Reading(Str(text), t[1..])
      case BracketOpen =>
        (match ReadItems(t[1..], true)
         case Reading(items, rest) => Reading(Arr(items), rest)
         case NoValue => NoValue)
      case BraceOpen =>
        (match ReadFields(t[1..], true)
         case Reading(fields, rest) => Reading(Obj(fields), rest)
         case NoValue => NoValue)
      case _ => NoValue
  }

  function ReadItems(t: seq<Token>, first: bool): (r: Reading<Items>)
    ensures r.Reading? ==> |r.rest| < |t|
    decreases |t|, if first then 3 else 2
  {
    if t == [] then NoValue
    else if t[0] == BracketClose then Reading(NoItems, t[1..])
    else if !first && t[0] != Comma then NoValue
    else
      match ReadValue(if first then t else t[1..])
      case NoValue => NoValue
      case Reading(head, rest) =>
        match ReadItems(rest, false)
        case NoValue => NoValue
        case Reading(tail, more) => Reading(Item(head, tail), more)
  }

  function ReadFields(t: seq<Token>, first: bool): (r: Reading<Fields>)
    ensures r.Reading? ==> |r.rest| < |t|
    decreases |t|, if first then 3 else 2
  {
    if t == [] then NoValue
    else if t[0] == BraceClose then Reading(NoFields, t[1..])
    else if !first && t[0] != Comma then NoValue
    else
      var u := if first then t else t[1..];
      if |u| < 2 || !u[0].StrToken? || u[1] != Colon then NoValue
      else
        match ReadValue(u[2..])
        case NoValue => NoValue
        case Reading(value, rest) =>
          match ReadFields(rest, false)
          case NoValue => NoValue
          case Reading(tail, more) => Reading(Field(u[0].text, value, tail), more)
  }

  lemma Reassociate<T>(a: seq<T>, b: seq<T>, c: seq<T>, d: seq<T>)
    ensures (a + (b + c)) + d == a + (b + (c + d))
    ensures ((a + (b + c)) + d)[|a|..] == b + (c + d)
  {
    assert (a + (b + c)) + d == a + (b + (c + d));
  }

  predicate Opens(t: Token) {
    t != BraceClose && t != BracketClose && t != Comma && t != Colon
  }

  lemma StartsOpen(v: Json)
    ensures Stringify(v) != [] && Opens(Stringify(v)[0])
  {
  }

  /** Reading the text of a value gives the value back, whatever follows it. */
  lemma {:induction false} ReadsBack(v: Json, s: seq<Token>)
    ensures ReadValue(Stringify(v) + s) == Reading(v, s)
    decreases v, 1
  {
    hide StringifyItems, StringifyFields, ReadItems, ReadFields;
    var t := Stringify(v) + s;
    assert t[1..] == Stringify(v)[1..] + s;
    match v
    case Arr(items) => ReadsItemsBack(items, true, s);
    case Obj(fields) => ReadsFieldsBack(fields, true, s);
    case _ =>
  }

  lemma {:induction false} ReadsItemsBack(items: Items, first: bool, s: seq<Token>)
    ensures ReadItems(StringifyItems(items, first) + s, first) == Reading(items, s)
    decreases items, 0
  {
    hide Stringify, ReadValue;
    match items
    case NoItems =>
      assert (StringifyItems(items, first) + s)[1..] == s;
    case Item(head, tail) =>
      Reassociate(Separator(first), Stringify(head), StringifyItems(tail, false), s);
      StartsOpen(head);
      ReadsBack(head, StringifyItems(tail, false) + s);
      ReadsItemsBack(tail, false, s);
  }

  lemma {:induction false} ReadsFieldsBack(fields: Fields, first: bool, s: seq<Token>)
    ensures ReadFields(StringifyFields(fields, first) + s, first) == Reading(fields, s)
    decreases fields, 0
  {
    hide Stringify, ReadValue;
    match fields
    case NoFields =>
      assert (StringifyFields(fields, first) + s)[1..] == s;
    case Field(k, v, tail) =>
      var t := StringifyFields(fields, first) + s;
      var behind := Stringify(v) + (StringifyFields(tail, false) + s);
      Reassociate(Separator(first) + [StrToken(k), Colon], Stringify(v), StringifyFields(tail, false), s);
      assert t == Separator(first) + [StrToken(k), Colon] + behind;
      assert (if first then t else t[1..])[2..] == behind;
      ReadsBack(v, StringifyFields(tail, false) + s);
      ReadsFieldsBack(tail, false, s);
  }

  /** No value's text is a proper prefix of another's, whatever follows. */
  lemma PrefixFree(v: Json, w: Json, s: seq<Token>, t: seq<Token>)
    requires Stringify(v) + s == Stringify(w) + t
    ensures v == w && s == t
  {
    hide Stringify, ReadValue;
    ReadsBack(v, s);
    ReadsBack(w, t);
  }

  /** Reading a signature gives the canonical form, and so the value up to key order. */
  lemma SignatureReads(v: Json)
    requires Valid(v)
    ensures var r := ReadValue(StableJsonStringify(v)); r.Reading? && r.rest == [] && Same(r.value, v)
  {
    hide Stringify, ReadValue, Canon, Same;
    ReadsBack(Canon(v), []);
    assert StableJsonStringify(v) + [] == StableJsonStringify(v);
    CanonPreserves(v);
  }

  /** Two values have one signature exactly when they are equal up to key order. */
  lemma StableIffSame(v: Json, w: Json)
    requires Valid(v) && Valid(w)
    ensures StableJsonStringify(v) == StableJsonStringify(w) <==> Same(v, w)
  {
    hide Canon, Same, Stringify;
    if Same(v, w) {
      SameCanon(v, w);
    }
    if StableJsonStringify(v) == StableJsonStringify(w) {
      PrefixFree(Canon(v), Canon(w), [], []);
      CanonSame(v, w);
    }
  }
}
