/**
 * The profile defaults of an account: six sections of settings, each setting normalized on its own,
 * and what a merged patch does to one setting.
 */
module ProfileDefaults {
  import opened Bytes
  import opened Ordering
  import opened Json

  /** The rules by which a setting is normalized. */
  datatype Kind =
    | Choice(options: seq<Text>, fallback: Text)
    | Window
    | OptionalText(absent: Json)
    | Texts(fallbackItems: Items)
    | Flag(fallbackFlag: bool)
    | ViewId

  datatype Setting = Setting(name: Text, kind: Kind)

  datatype Section = Section(name: Text, settings: seq<Setting>)

  /** JavaScript's conversion of a value that is no number; `None` is NaN or an infinity. */
  type Coercion = Json -> Option<real>

  function Chars(s: string): (t: Text)
    ensures |t| == |s|
  {
    seq(|s|, i requires 0 <= i < |s| => s[i] as nat)
  }

  function Word(s: string): Json {
    Str(Chars(s))
  }

  // ----- One setting -----

  predicate IsSpace(c: nat) {
    || 9 <= c <= 13 || c == 32 || c == 160 || c == 0x1680 || 0x2000 <= c <= 0x200A
    || c == 0x2028 || c == 0x2029 || c == 0x202F || c == 0x205F || c == 0x3000 || c == 0xFEFF
  }

  /** The white space and line terminators of ECMAScript, sections 12.2 and 12.3. */
  lemma SpacesAre(c: nat)
    ensures IsSpace(c) <==>
            c in {0x0009, 0x000A, 0x000B, 0x000C, 0x000D, 0x0020, 0x00A0, 0x1680,
                  0x2000, 0x2001, 0x2002, 0x2003, 0x2004, 0x2005, 0x2006, 0x2007, 0x2008, 0x2009, 0x200A,
                  0x2028, 0x2029, 0x202F, 0x205F, 0x3000, 0xFEFF}
  {
  }

  function TrimStart(t: Text): Text
    decreases |t|
  {
    if t != [] && IsSpace(t[0]) then TrimStart(t[1..]) else t
  }

  function TrimEnd(t: Text): Text
    decreases |t|
  {
    if t != [] && IsSpace(t[|t| - 1]) then TrimEnd(t[..|t| - 1]) else t
  }

  function Trim(t: Text): Text {
    TrimEnd(TrimStart(t))
  }

  /** `normalizeStringArray` on an array: text items trimmed, everything else and empty text dropped. */
  function Trimmed(items: Items): Items {
    match items
    case NoItems => NoItems
    case Item(head, tail) =>
      if head.Str? && Trim(head.text) != [] then Item(Str(Trim(head.text)), Trimmed(tail)) else Trimmed(tail)
  }

  function NumberOf(coerce: Coercion, v: Json): Option<real> {
    if v.Num? then Some(v.number) else coerce(v)
  }

  /** `normalizePositiveInteger`; `None` stands for a value without a finite number. */
  function NormalizePositiveInteger(number: Option<real>, fallback: real): real {
    if number.None? || number.value <= 0.0 then fallback
    else (number.value + 0.5).Floor as real
  }

  /** What a profile stores for a setting whose section holds `v`, or holds nothing. */
  function NormalizeSetting(coerce: Coercion, kind: Kind, v: Option<Json>): Json {
    match kind
    case Choice(options, fallback) =>
      if v.Some? && v.value.Str? && v.value.text in options then v.value else Str(fallback)
    case Window =>
      Num(NormalizePositiveInteger(if v.None? then None else NumberOf(coerce, v.value), 30.0))
    case OptionalText(absent) =>
      if v.Some? && v.value.Str? && Trim(v.value.text) != [] then Str(Trim(v.value.text)) else absent
    case Texts(fallback) =>
      Arr(if v.Some? && v.value.Arr? then Trimmed(v.value.items) else fallback)
    case Flag(fallback) =>
      if v.Some? && v.value.Bool? then v.value else Bool(fallback)
    case ViewId =>
      if v.None? || v.value.Null? then Null
      else
        // NaN and the infinities are stored as null.
        match NumberOf(coerce, v.value) case None => Null case Some(n) => Num(n)
  }

  lemma {:induction false} TrimStartStarts(t: Text)
    ensures var u := TrimStart(t); u == [] || !IsSpace(u[0])
    decreases |t|
  {
    if t != [] && IsSpace(t[0]) {
      TrimStartStarts(t[1..]);
    }
  }

  lemma {:induction false} TrimEndEnds(t: Text)
    ensures var u := TrimEnd(t);
      && u <= t && (u == [] || !IsSpace(u[|u| - 1]))
    decreases |t|
  {
    if t != [] && IsSpace(t[|t| - 1]) {
      TrimEndEnds(t[..|t| - 1]);
    }
  }

  lemma TrimTwice(t: Text)
    ensures Trim(Trim(t)) == Trim(t)
  {
    hide IsSpace;
    TrimStartStarts(t);
    TrimEndEnds(TrimStart(t));
  }

  lemma {:induction false} TrimmedTwice(items: Items)
    ensures Trimmed(Trimmed(items)) == Trimmed(items)
  {
    hide Trim;
    match items
    case NoItems =>
    case Item(head, tail) =>
      TrimmedTwice(tail);
      if head.Str? {
        TrimTwice(head.text);
      }
  }

  /** A kind whose fallback is normalized itself. */
  predicate Steady(kind: Kind) {
    match kind
    case OptionalText(absent) => absent == Null || absent == Str([])
    case Texts(fallback) => Trimmed(fallback) == fallback
    case _ => true
  }

  /** Telemetry windows that round to zero. */
  predicate Vanishing(coerce: Coercion, kind: Kind, v: Option<Json>) {
    kind.Window? && v.Some? && NumberOf(coerce, v.value).Some? && 0.0 < NumberOf(coerce, v.value).value < 0.5
  }

  /**
   * Normalizing a telemetry window twice (once when it is stored, once when it is read) gives
   * what normalizing it once gives, except between 0 and 0.5: those round to 0 and are then
   * read as the fallback.
   */
  lemma WindowStableIff(number: Option<real>)
    ensures var once := NormalizePositiveInteger(number, 30.0);
      NormalizePositiveInteger(Some(once), 30.0) == once <==> !(number.Some? && 0.0 < number.value < 0.5)
  {
    var once := NormalizePositiveInteger(number, 30.0);
    assert (30.0 + 0.5).Floor == 30;
    if number.Some? && number.value >= 0.5 {
      assert (number.value + 0.5).Floor >= 1;
      assert (once + 0.5).Floor == (number.value + 0.5).Floor;
    }
  }

  /** The one kind of setting that a second normalization changes is a vanishing window. */
  lemma SettingStableIff(coerce: Coercion, kind: Kind, v: Option<Json>)
    requires Steady(kind)
    ensures var once := NormalizeSetting(coerce, kind, v);
      NormalizeSetting(coerce, kind, Some(once)) == once <==> !Vanishing(coerce, kind, v)
  {
    hide NormalizePositiveInteger, Trim;
    match kind
    case Window => WindowStableIff(if v.None? then None else NumberOf(coerce, v.value));
    case OptionalText(_) =>
      if v.Some? && v.value.Str? {
        TrimTwice(v.value.text);
      }
      TrimNothing();
    case Texts(_) =>
      if v.Some? && v.value.Arr? {
        TrimmedTwice(v.value.items);
      }
    case _ =>
  }

  lemma TrimNothing()
    ensures Trim([]) == []
  {
  }

  lemma WholeWindow(number: Option<real>)
    ensures var once := NormalizePositiveInteger(number, 30.0); !(0.0 < once < 0.5)
  {
  }

  /** A setting as it is read back from a stored profile. */
  function Settled(coerce: Coercion, kind: Kind, v: Option<Json>): Json {
    NormalizeSetting(coerce, kind, Some(NormalizeSetting(coerce, kind, v)))
  }

  /** Normalizing more often than twice changes nothing any more. */
  lemma SettledForGood(coerce: Coercion, kind: Kind, v: Option<Json>)
    requires Steady(kind)
    ensures NormalizeSetting(coerce, kind, Some(Settled(coerce, kind, v))) == Settled(coerce, kind, v)
    ensures !NormalizeSetting(coerce, kind, v).Obj?
  {
    hide NormalizePositiveInteger, Trim, Trimmed;
    var once := NormalizeSetting(coerce, kind, v);
    SettingStableIff(coerce, kind, Some(once));
    if kind.Window? {
      WholeWindow(if v.None? then None else NumberOf(coerce, v.value));
    }
  }

  // ----- All settings -----

  /** `asJsonObject(v)[name]` */
  function LookupIn(v: Option<Json>, name: Text): Option<Json> {
    if v.Some? && v.value.Obj? then Lookup(v.value.fields, name) else None
  }

  function Read(value: Fields, section: Text, name: Text): Option<Json> {
    LookupIn(Lookup(value, section), name)
  }

  function NormalizeSection(coerce: Coercion, settings: seq<Setting>, v: Option<Json>): Fields
    decreases |settings|
  {
    if settings == [] then NoFields
    else
      Field(settings[0].name, NormalizeSetting(coerce, settings[0].kind, LookupIn(v, settings[0].name)),
            NormalizeSection(coerce, settings[1..], v))
  }

  function NormalizeAs(coerce: Coercion, schema: seq<Section>, value: Fields): Fields
    decreases |schema|
  {
    if schema == [] then NoFields
    else
      Field(schema[0].name, Obj(NormalizeSection(coerce, schema[0].settings, Lookup(value, schema[0].name))),
            NormalizeAs(coerce, schema[1..], value))
  }

  ghost predicate WellFormedSection(settings: seq<Setting>) {
    && (forall i, j :: 0 <= i < j < |settings| ==> settings[i].name != settings[j].name)
    && (forall j :: 0 <= j < |settings| ==> Steady(settings[j].kind))
  }

  ghost predicate WellFormed(schema: seq<Section>) {
    && (forall i, j :: 0 <= i < j < |schema| ==> schema[i].name != schema[j].name)
    && (forall i :: 0 <= i < |schema| ==> WellFormedSection(schema[i].settings))
  }

  predicate InSchema(schema: seq<Section>, i: nat, j: nat) {
    i < |schema| && j < |schema[i].settings|
  }

  function SettingAt(coerce: Coercion, schema: seq<Section>, value: Fields, i: nat, j: nat): Json
    requires InSchema(schema, i, j)
  {
    var setting := schema[i].settings[j];
    NormalizeSetting(coerce, setting.kind, Read(value, schema[i].name, setting.name))
  }

  lemma {:induction false} LookupSection(coerce: Coercion, settings: seq<Setting>, v: Option<Json>, j: nat)
    requires WellFormedSection(settings) && j < |settings|
    ensures Lookup(NormalizeSection(coerce, settings, v), settings[j].name)
         == Some(NormalizeSetting(coerce, settings[j].kind, LookupIn(v, settings[j].name)))
    decreases |settings|
  {
    hide NormalizeSetting, LookupIn, Steady;
    if j > 0 {
      assert settings[0].name != settings[j].name;
      LookupSection(coerce, settings[1..], v, j - 1);
    }
  }

  lemma {:induction false} LookupNormalized(coerce: Coercion, schema: seq<Section>, value: Fields, i: nat)
    requires WellFormed(schema) && i < |schema|
    ensures Lookup(NormalizeAs(coerce, schema, value), schema[i].name)
         == Some(Obj(NormalizeSection(coerce, schema[i].settings, Lookup(value, schema[i].name))))
    decreases |schema|
  {
    hide NormalizeSection, WellFormedSection;
    if i > 0 {
      assert schema[0].name != schema[i].name;
      LookupNormalized(coerce, schema[1..], value, i - 1);
    }
  }

  /** A normalized profile holds each setting normalized on its own. */
  lemma ReadNormalized(coerce: Coercion, schema: seq<Section>, value: Fields, i: nat, j: nat)
    requires WellFormed(schema) && InSchema(schema, i, j)
    ensures Read(NormalizeAs(coerce, schema, value), schema[i].name, schema[i].settings[j].name)
         == Some(SettingAt(coerce, schema, value, i, j))
  {
    hide NormalizeSetting, NormalizeSection, NormalizeAs, WellFormedSection;
    LookupNormalized(coerce, schema, value, i);
    LookupSection(coerce, schema[i].settings, Lookup(value, schema[i].name), j);
  }

  lemma {:induction false} SameSection(coerce: Coercion, settings: seq<Setting>, v: Option<Json>, w: Option<Json>)
    requires forall j :: 0 <= j < |settings| ==>
               (NormalizeSetting(coerce, settings[j].kind, LookupIn(v, settings[j].name))
                == NormalizeSetting(coerce, settings[j].kind, LookupIn(w, settings[j].name)))
    ensures NormalizeSection(coerce, settings, v) == NormalizeSection(coerce, settings, w)
    decreases |settings|
  {
    hide NormalizeSetting, LookupIn;
    if settings != [] {
      SameSection(coerce, settings[1..], v, w);
    }
  }

  ghost predicate SameSettings(coerce: Coercion, schema: seq<Section>, v: Fields, w: Fields) {
    forall i: nat, j: nat :: InSchema(schema, i, j) ==>
      SettingAt(coerce, schema, v, i, j) == SettingAt(coerce, schema, w, i, j)
  }

  lemma {:induction false} SameSections(coerce: Coercion, schema: seq<Section>, v: Fields, w: Fields)
    requires SameSettings(coerce, schema, v, w)
    ensures NormalizeAs(coerce, schema, v) == NormalizeAs(coerce, schema, w)
    decreases |schema|
  {
    hide NormalizeSetting, NormalizeSection, LookupIn;
    if schema != [] {
      var settings := schema[0].settings;
      forall j | 0 <= j < |settings|
        ensures NormalizeSetting(coerce, settings[j].kind, LookupIn(Lookup(v, schema[0].name), settings[j].name))
             == NormalizeSetting(coerce, settings[j].kind, LookupIn(Lookup(w, schema[0].name), settings[j].name))
      {
        assert InSchema(schema, 0, j);
        assert SettingAt(coerce, schema, v, 0, j) == SettingAt(coerce, schema, w, 0, j);
      }
      SameSection(coerce, settings, Lookup(v, schema[0].name), Lookup(w, schema[0].name));
      forall i: nat, j: nat | InSchema(schema[1..], i, j)
        ensures SettingAt(coerce, schema[1..], v, i, j) == SettingAt(coerce, schema[1..], w, i, j)
      {
        assert InSchema(schema, i + 1, j);
        assert SettingAt(coerce, schema, v, i + 1, j) == SettingAt(coerce, schema, w, i + 1, j);
      }
      SameSections(coerce, schema[1..], v, w);
    }
  }

  /** Normalized profiles are equal exactly when they agree on every setting. */
  lemma NormalizedEqualIff(coerce: Coercion, schema: seq<Section>, v: Fields, w: Fields)
    requires WellFormed(schema)
    ensures NormalizeAs(coerce, schema, v) == NormalizeAs(coerce, schema, w) <==> SameSettings(coerce, schema, v, w)
  {
    hide NormalizeAs, SettingAt, WellFormed;
    if SameSettings(coerce, schema, v, w) {
      SameSections(coerce, schema, v, w);
    }
    if NormalizeAs(coerce, schema, v) == NormalizeAs(coerce, schema, w) {
      forall i: nat, j: nat | InSchema(schema, i, j)
        ensures SettingAt(coerce, schema, v, i, j) == SettingAt(coerce, schema, w, i, j)
      {
        ReadNormalized(coerce, schema, v, i, j);
        ReadNormalized(coerce, schema, w, i, j);
      }
    }
  }

  // ----- A patch merged into a normalized profile -----

  /** The patch holds the setting, or holds something other than an object for its section. */
  predicate Decides(patch: Fields, section: Text, name: Text) {
    match Lookup(patch, section)
    case None => false
    case Some(v) => v.Obj? ==> Lookup(v.fields, name).Some?
  }

  lemma ReadMerge(base: Fields, patch: Fields, section: Text, name: Text)
    requires ValidFields(patch)
    requires Lookup(base, section).Some? && Lookup(base, section).value.Obj?
    requires Read(base, section, name).Some? && !Read(base, section, name).value.Obj?
    ensures Read(Merge(base, patch), section, name)
         == if Decides(patch, section, name) then Read(patch, section, name) else Read(base, section, name)
  {
    hide Merge;
    LookupMerge(base, patch, section);
    if Lookup(patch, section).Some? && Lookup(patch, section).value.Obj? {
      LookupValid(patch, section);
      LookupMerge(Lookup(base, section).value.fields, Lookup(patch, section).value.fields, name);
    }
  }

  /** Each setting of a patched profile comes from the patch if that decides it, else it is read back. */
  lemma SettingAfter(coerce: Coercion, schema: seq<Section>, value: Fields, patch: Fields, i: nat, j: nat)
    requires WellFormed(schema) && InSchema(schema, i, j) && ValidFields(patch)
    ensures var section, setting := schema[i].name, schema[i].settings[j];
      SettingAt(coerce, schema, Merge(NormalizeAs(coerce, schema, value), patch), i, j)
        == if Decides(patch, section, setting.name)
           then NormalizeSetting(coerce, setting.kind, Read(patch, section, setting.name))
           else Settled(coerce, setting.kind, Read(value, section, setting.name))
  {
    hide NormalizeAs, NormalizeSetting, NormalizeSection, Merge, Decides, Steady;
    var section, setting := schema[i].name, schema[i].settings[j];
    var base := NormalizeAs(coerce, schema, value);
    ReadNormalized(coerce, schema, value, i, j);
    LookupNormalized(coerce, schema, value, i);
    SettledForGood(coerce, setting.kind, Read(value, section, setting.name));
    ReadMerge(base, patch, section, setting.name);
  }

  /** Reading a profile twice before a merge is reading it once. */
  lemma ReadTwice(coerce: Coercion, schema: seq<Section>, value: Fields, patch: Fields)
    requires WellFormed(schema) && ValidFields(patch)
    ensures NormalizeAs(coerce, schema, Merge(NormalizeAs(coerce, schema, NormalizeAs(coerce, schema, value)), patch))
         == NormalizeAs(coerce, schema, Merge(NormalizeAs(coerce, schema, value), patch))
  {
    hide NormalizeAs, NormalizeSetting, Merge, Decides, Read, Steady;
    var once := NormalizeAs(coerce, schema, value);
    var twice := NormalizeAs(coerce, schema, once);
    forall i: nat, j: nat | InSchema(schema, i, j)
      ensures SettingAt(coerce, schema, Merge(twice, patch), i, j)
           == SettingAt(coerce, schema, Merge(once, patch), i, j)
    {
      SettingAfter(coerce, schema, value, patch, i, j);
      SettingAfter(coerce, schema, once, patch, i, j);
      ReadNormalized(coerce, schema, value, i, j);
      SettledForGood(coerce, schema[i].settings[j].kind, Read(value, schema[i].name, schema[i].settings[j].name));
    }
    SameSections(coerce, schema, Merge(twice, patch), Merge(once, patch));
  }

  /** Normalizing a profile twice gives what normalizing it once gives exactly when no window vanishes. */
  lemma NormalizationStableIff(coerce: Coercion, schema: seq<Section>, value: Fields)
    requires WellFormed(schema)
    ensures var once := NormalizeAs(coerce, schema, value);
      NormalizeAs(coerce, schema, once) == once <==>
        forall i: nat, j: nat :: InSchema(schema, i, j) ==>
          var setting := schema[i].settings[j];
          !Vanishing(coerce, setting.kind, Read(value, schema[i].name, setting.name))
  {
    hide NormalizeAs, NormalizeSetting, Read, Vanishing, Steady;
    var once := NormalizeAs(coerce, schema, value);
    NormalizedEqualIff(coerce, schema, once, value);
    forall i: nat, j: nat | InSchema(schema, i, j)
      ensures var setting := schema[i].settings[j];
        SettingAt(coerce, schema, once, i, j) == SettingAt(coerce, schema, value, i, j) <==>
          !Vanishing(coerce, setting.kind, Read(value, schema[i].name, setting.name))
    {
      ReadNormalized(coerce, schema, value, i, j);
      SettingStableIff(coerce, schema[i].settings[j].kind, Read(value, schema[i].name, schema[i].settings[j].name));
    }
  }

  // ----- The settings of the service -----

  const LAYERS: Items := Item(Word("rtk-track"), Item(Word("device-health"), NoItems))

  const UNITS: seq<Setting> := [
    Setting(Chars("distance"), Choice([Chars("imperial")], Chars("metric"))),
    Setting(Chars("coordinateFormat"), Choice([Chars("dms")], Chars("decimal")))]

  const TELEMETRY: seq<Setting> := [Setting(Chars("defaultWindowMinutes"), Window)]

  const DEVICES: seq<Setting> := [
    Setting(Chars("defaultHardwareFilter"), OptionalText(Str([]))),
    Setting(Chars("sortBy"), Choice([Chars("hardware_family"), Chars("external_id")], Chars("recent"))),
    Setting(Chars("pinnedDeviceIds"), Texts(NoItems)),
    Setting(Chars("pinnedGroups"), Texts(NoItems))]

  const MAP: seq<Setting> := [Setting(Chars("defaultLayerNames"), Texts(LAYERS))]

  const NOTIFICATIONS: seq<Setting> := [
    Setting(Chars("solverStatus"), Flag(true)),
    Setting(Chars("deviceOffline"), Flag(true))]

  const VIEW_SELECTION: seq<Setting> := [
    Setting(Chars("savedViewId"), ViewId),
    Setting(Chars("contextKey"), OptionalText(Null))]

  const SCHEMA: seq<Section> := [
    Section(Chars("units"), UNITS),
    Section(Chars("telemetry"), TELEMETRY),
    Section(Chars("devices"), DEVICES),
    Section(Chars("map"), MAP),
    Section(Chars("notifications"), NOTIFICATIONS),
    Section(Chars("defaultViewSelection"), VIEW_SELECTION)]

  /** `normalizeProfileDefaults` */
  function NormalizeProfileDefaults(coerce: Coercion, value: Fields): Fields {
    NormalizeAs(coerce, SCHEMA, value)
  }

  /** Within a list the names have different lengths. */
  lemma SchemaWellFormed()
    ensures WellFormed(SCHEMA)
  {
    hide Chars, WellFormedSection, UNITS, TELEMETRY, DEVICES, MAP, NOTIFICATIONS, VIEW_SELECTION;
    SettingsWellFormed();
    DevicesWellFormed();
    assert forall i, j :: 0 <= i < j < |SCHEMA| ==> |SCHEMA[i].name| != |SCHEMA[j].name|;
  }

  lemma SettingsWellFormed()
    ensures WellFormedSection(UNITS) && WellFormedSection(TELEMETRY)
    ensures WellFormedSection(MAP) && WellFormedSection(NOTIFICATIONS) && WellFormedSection(VIEW_SELECTION)
  {
    hide Chars, Trimmed;
    LayersTrimmed();
  }

  lemma DevicesWellFormed()
    ensures WellFormedSection(DEVICES)
  {
    hide Chars, Trimmed;
    NothingTrimmed();
    assert forall i, j :: 0 <= i < j < |DEVICES| ==> |DEVICES[i].name| != |DEVICES[j].name|;
  }

  lemma NothingTrimmed()
    ensures Trimmed(NoItems) == NoItems
  {
  }

  lemma AlreadyTrim(t: Text)
    requires t != [] && !IsSpace(t[0]) && !IsSpace(t[|t| - 1])
    ensures Trim(t) == t
  {
  }

  lemma LayersTrimmed()
    ensures Trimmed(LAYERS) == LAYERS
  {
    hide Trim;
    AlreadyTrim(Chars("rtk-track"));
    AlreadyTrim(Chars("device-health"));
    var last := Item(Word("device-health"), NoItems);
    assert Trimmed(last) == last;
  }

  /** `createDefaultProfileDefaults` */
  function DefaultProfile(): Fields {
    Field(Chars("units"), Obj(
      Field(Chars("distance"), Word("metric"),
      Field(Chars("coordinateFormat"), Word("decimal"), NoFields))),
    Field(Chars("telemetry"), Obj(
      Field(Chars("defaultWindowMinutes"), Num(30.0), NoFields)),
    Field(Chars("devices"), Obj(
      Field(Chars("defaultHardwareFilter"), Str([]),
      Field(Chars("sortBy"), Word("recent"),
      Field(Chars("pinnedDeviceIds"), Arr(NoItems),
      Field(Chars("pinnedGroups"), Arr(NoItems), NoFields))))),
    Field(Chars("map"), Obj(
      Field(Chars("defaultLayerNames"), Arr(LAYERS), NoFields)),
    Field(Chars("notifications"), Obj(
      Field(Chars("solverStatus"), Bool(true),
      Field(Chars("deviceOffline"), Bool(true), NoFields))),
    Field(Chars("defaultViewSelection"), Obj(
      Field(Chars("savedViewId"), Null,
      Field(Chars("contextKey"), Null, NoFields))),
    NoFields))))))
  }

  lemma NoUnits(coerce: Coercion)
    ensures NormalizeSection(coerce, UNITS, None)
         == Field(Chars("distance"), Word("metric"), Field(Chars("coordinateFormat"), Word("decimal"), NoFields))
    ensures NormalizeSection(coerce, TELEMETRY, None) == Field(Chars("defaultWindowMinutes"), Num(30.0), NoFields)
    ensures NormalizeSection(coerce, MAP, None) == Field(Chars("defaultLayerNames"), Arr(LAYERS), NoFields)
    ensures NormalizeSection(coerce, NOTIFICATIONS, None)
         == Field(Chars("solverStatus"), Bool(true), Field(Chars("deviceOffline"), Bool(true), NoFields))
    ensures NormalizeSection(coerce, VIEW_SELECTION, None)
         == Field(Chars("savedViewId"), Null, Field(Chars("contextKey"), Null, NoFields))
  {
    hide Chars;
    assert NormalizeSection(coerce, UNITS[1..], None) == Field(Chars("coordinateFormat"), Word("decimal"), NoFields);
    assert NormalizeSection(coerce, NOTIFICATIONS[1..], None) == Field(Chars("deviceOffline"), Bool(true), NoFields);
    assert NormalizeSection(coerce, VIEW_SELECTION[1..], None) == Field(Chars("contextKey"), Null, NoFields);
  }

  lemma NoDevices(coerce: Coercion)
    ensures NormalizeSection(coerce, DEVICES, None)
         == Field(Chars("defaultHardwareFilter"), Str([]),
            Field(Chars("sortBy"), Word("recent"),
            Field(Chars("pinnedDeviceIds"), Arr(NoItems),
            Field(Chars("pinnedGroups"), Arr(NoItems), NoFields))))
  {
    hide Chars;
    assert DEVICES[2..][1..] == DEVICES[3..] && DEVICES[1..][1..] == DEVICES[2..];
    assert NormalizeSection(coerce, DEVICES[3..], None) == Field(Chars("pinnedGroups"), Arr(NoItems), NoFields);
    assert NormalizeSection(coerce, DEVICES[2..], None)
        == Field(Chars("pinnedDeviceIds"), Arr(NoItems), NormalizeSection(coerce, DEVICES[3..], None));
  }

  lemma NormalizeTail(coerce: Coercion, schema: seq<Section>, k: nat)
    requires k < |schema|
    ensures NormalizeAs(coerce, schema[k..], NoFields)
         == Field(schema[k].name, Obj(NormalizeSection(coerce, schema[k].settings, None)),
                  NormalizeAs(coerce, schema[k + 1..], NoFields))
    ensures k == 0 ==> schema[k..] == schema
    ensures k + 1 == |schema| ==> NormalizeAs(coerce, schema[k + 1..], NoFields) == NoFields
  {
    hide NormalizeSection;
    assert schema[k..][1..] == schema[k + 1..];
  }

  /** Normalizing nothing gives the default profile, and the default profile is normalized. */
  lemma DefaultsAreNormal(coerce: Coercion)
    ensures NormalizeProfileDefaults(coerce, NoFields) == DefaultProfile()
    ensures NormalizeProfileDefaults(coerce, DefaultProfile()) == DefaultProfile()
  {
    hide Chars, NormalizeSection, NormalizeSetting, WellFormed;
    NoUnits(coerce);
    NoDevices(coerce);
    NormalizeTail(coerce, SCHEMA, 0);
    NormalizeTail(coerce, SCHEMA, 1);
    NormalizeTail(coerce, SCHEMA, 2);
    NormalizeTail(coerce, SCHEMA, 3);
    NormalizeTail(coerce, SCHEMA, 4);
    NormalizeTail(coerce, SCHEMA, 5);
    SchemaWellFormed();
    NormalizationStableIff(coerce, SCHEMA, NoFields);
  }

  // ----- What a profile shows after normalization, setting by setting -----

  function Shown(coerce: Coercion, value: Fields, section: string, name: string): Option<Json> {
    Read(NormalizeProfileDefaults(coerce, value), Chars(section), Chars(name))
  }

  function Given(value: Fields, section: string, name: string): Option<Json> {
    Read(value, Chars(section), Chars(name))
  }

  lemma ShownIs(coerce: Coercion, value: Fields, i: nat, j: nat)
    requires InSchema(SCHEMA, i, j)
    ensures var setting := SCHEMA[i].settings[j];
      Read(NormalizeProfileDefaults(coerce, value), SCHEMA[i].name, setting.name)
        == Some(NormalizeSetting(coerce, setting.kind, Read(value, SCHEMA[i].name, setting.name)))
  {
    hide NormalizeAs, NormalizeSetting, Read, SCHEMA, WellFormed;
    SchemaWellFormed();
    ReadNormalized(coerce, SCHEMA, value, i, j);
  }

  /** One of the allowed texts is kept; everything else becomes the default. */
  ghost predicate KeepsChoice(given: Option<Json>, shown: Option<Json>, allowed: set<string>, default_: string) {
    && (forall s :: s in allowed ==> (shown == Some(Word(s)) <==> given == Some(Word(s))))
    && ((forall s :: s in allowed ==> given != Some(Word(s))) ==> shown == Some(Word(default_)))
  }

  lemma OneChoice(coerce: Coercion, given: Option<Json>, option: string, default_: string)
    requires |option| != |default_|
    ensures KeepsChoice(given, Some(NormalizeSetting(coerce, Choice([Chars(option)], Chars(default_)), given)),
                        {option}, default_)
  {
    hide Chars;
  }

  lemma TwoChoices(coerce: Coercion, given: Option<Json>, a: string, b: string, default_: string)
    requires |a| != |default_| && |b| != |default_|
    ensures KeepsChoice(given, Some(NormalizeSetting(coerce, Choice([Chars(a), Chars(b)], Chars(default_)), given)),
                        {a, b}, default_)
  {
    hide Chars;
  }

  lemma ChoicesAreKept(coerce: Coercion, value: Fields)
    ensures KeepsChoice(Given(value, "units", "distance"), Shown(coerce, value, "units", "distance"),
                        {"imperial"}, "metric")
    ensures KeepsChoice(Given(value, "units", "coordinateFormat"), Shown(coerce, value, "units", "coordinateFormat"),
                        {"dms"}, "decimal")
    ensures KeepsChoice(Given(value, "devices", "sortBy"), Shown(coerce, value, "devices", "sortBy"),
                        {"hardware_family", "external_id"}, "recent")
  {
    hide NormalizeAs, NormalizeSetting, Read, Chars, KeepsChoice;
    ShownIs(coerce, value, 0, 0);
    ShownIs(coerce, value, 0, 1);
    ShownIs(coerce, value, 2, 1);
    OneChoice(coerce, Given(value, "units", "distance"), "imperial", "metric");
    OneChoice(coerce, Given(value, "units", "coordinateFormat"), "dms", "decimal");
    TwoChoices(coerce, Given(value, "devices", "sortBy"), "hardware_family", "external_id", "recent");
  }

  /** A flag is kept; everything else is on. */
  ghost predicate KeepsFlag(given: Option<Json>, shown: Option<Json>) {
    forall on: bool :: shown == Some(Bool(on)) <==> given == Some(Bool(on)) || (on && given != Some(Bool(false)))
  }

  lemma FlagsAreKept(coerce: Coercion, value: Fields)
    ensures KeepsFlag(Given(value, "notifications", "solverStatus"),
                      Shown(coerce, value, "notifications", "solverStatus"))
    ensures KeepsFlag(Given(value, "notifications", "deviceOffline"),
                      Shown(coerce, value, "notifications", "deviceOffline"))
  {
    hide NormalizeAs, Read, Chars;
    ShownIs(coerce, value, 4, 0);
    ShownIs(coerce, value, 4, 1);
  }

  /** The value is this number, or converts to it. */
  predicate IsNumber(coerce: Coercion, v: Option<Json>, x: real) {
    v.Some? && (v == Some(Num(x)) || (!v.value.Num? && coerce(v.value) == Some(x)))
  }

  /** The whole number nearest to `x`, the upper one of two. */
  predicate Nearest(w: real, x: real) {
    w.Floor as real == w && w - 0.5 <= x < w + 0.5
  }

  lemma WindowIsRounded(coerce: Coercion, value: Fields)
    ensures var given, shown := Given(value, "telemetry", "defaultWindowMinutes"),
                                Shown(coerce, value, "telemetry", "defaultWindowMinutes");
      && (forall x: real, w: real :: IsNumber(coerce, given, x) && x > 0.0 ==>
            (shown == Some(Num(w)) <==> Nearest(w, x)))
      && ((forall x: real :: x > 0.0 ==> !IsNumber(coerce, given, x)) ==> shown == Some(Num(30.0)))
  {
    hide NormalizeAs, Read, Chars, NormalizePositiveInteger, Nearest;
    ShownIs(coerce, value, 1, 0);
    var given := Given(value, "telemetry", "defaultWindowMinutes");
    var number := if given.None? then None else NumberOf(coerce, given.value);
    forall x: real, w: real | IsNumber(coerce, given, x) && x > 0.0
      ensures NormalizePositiveInteger(number, 30.0) == w <==> Nearest(w, x)
    {
      assert number == Some(x);
      Rounds(x, w);
    }
    if number.Some? && number.value > 0.0 {
      assert IsNumber(coerce, given, number.value);
    } else {
      NotRounded(number);
    }
  }

  lemma FloorIs(y: real, k: int)
    requires k as real <= y < k as real + 1.0
    ensures y.Floor == k
  {
  }

  lemma Rounds(x: real, w: real)
    requires x > 0.0
    ensures NormalizePositiveInteger(Some(x), 30.0) == w <==> Nearest(w, x)
  {
    var f := (x + 0.5).Floor;
    FloorIs(f as real, f);
    if Nearest(w, x) {
      FloorIs(x + 0.5, w.Floor);
    }
  }

  lemma NotRounded(number: Option<real>)
    requires number.None? || number.value <= 0.0
    ensures NormalizePositiveInteger(number, 30.0) == 30.0
  {
  }

  ghost predicate AllSpace(t: Text) {
    forall i :: 0 <= i < |t| ==> IsSpace(t[i])
  }

  /** `part` is `whole` without the spaces around it, and none are left. */
  ghost predicate Inner(whole: Text, part: Text) {
    && (part != [] ==> !IsSpace(part[0]) && !IsSpace(part[|part| - 1]))
    && exists i: nat, j: nat ::
         i <= j <= |whole| && AllSpace(whole[..i]) && whole[i..j] == part && AllSpace(whole[j..])
  }

  lemma {:induction false} TrimStartDrops(t: Text) returns (i: nat)
    ensures i <= |t| && TrimStart(t) == t[i..] && AllSpace(t[..i])
    decreases |t|
  {
    i := 0;
    if t != [] && IsSpace(t[0]) {
      var k := TrimStartDrops(t[1..]);
      i := k + 1;
      assert t[1..][k..] == t[i..];
      forall p | 0 <= p < i
        ensures IsSpace(t[..i][p])
      {
        assert p > 0 ==> t[..i][p] == t[1..][..k][p - 1];
      }
    }
  }

  lemma {:induction false} TrimEndDrops(t: Text) returns (j: nat)
    ensures j <= |t| && TrimEnd(t) == t[..j] && AllSpace(t[j..])
    decreases |t|
  {
    j := |t|;
    if t != [] && IsSpace(t[|t| - 1]) {
      var front := t[..|t| - 1];
      j := TrimEndDrops(front);
      assert front[..j] == t[..j];
      forall p | 0 <= p < |t| - j
        ensures IsSpace(t[j..][p])
      {
        assert p < |t| - j - 1 ==> t[j..][p] == front[j..][p];
      }
    }
  }

  lemma TrimIsInner(t: Text)
    ensures Inner(t, Trim(t))
  {
    hide IsSpace, TrimStart, TrimEnd;
    var i := TrimStartDrops(t);
    var start := TrimStart(t);
    var j := TrimEndDrops(start);
    TrimStartStarts(t);
    TrimEndEnds(start);
    assert t[i..][..j] == t[i..i + j] && t[i..][j..] == t[i + j..];
    assert AllSpace(t[..i]) && t[i..i + j] == Trim(t) && AllSpace(t[i + j..]);
  }

  /** There is only one such part. */
  lemma InnerIsUnique(whole: Text, a: Text, b: Text)
    requires Inner(whole, a) && Inner(whole, b)
    ensures a == b
  {
    hide IsSpace;
    var i: nat, j: nat :| i <= j <= |whole| && AllSpace(whole[..i]) && whole[i..j] == a && AllSpace(whole[j..]);
    var k: nat, l: nat :| k <= l <= |whole| && AllSpace(whole[..k]) && whole[k..l] == b && AllSpace(whole[l..]);
    InnerEnds(whole, a, i, j, k, l);
    InnerEnds(whole, b, k, l, i, j);
  }

  /** The first part's ends, if it has any, lie within any other such part. */
  lemma InnerEnds(whole: Text, a: Text, i: nat, j: nat, k: nat, l: nat)
    requires i <= j <= |whole| && whole[i..j] == a && (a != [] ==> !IsSpace(a[0]) && !IsSpace(a[|a| - 1]))
    requires k <= l <= |whole| && AllSpace(whole[..k]) && AllSpace(whole[l..])
    ensures a != [] ==> k <= i && j <= l
  {
    hide IsSpace;
    Spaces(whole, k, l);
    if a != [] {
      assert whole[i] == a[0] && whole[j - 1] == a[|a| - 1];
    }
  }

  lemma Spaces(whole: Text, k: nat, l: nat)
    requires k <= |whole| && l <= |whole| && AllSpace(whole[..k]) && AllSpace(whole[l..])
    ensures forall p :: 0 <= p < k ==> IsSpace(whole[p])
    ensures forall p :: l <= p < |whole| ==> IsSpace(whole[p])
  {
    hide IsSpace;
    forall p | 0 <= p < k
      ensures IsSpace(whole[p])
    {
      assert whole[..k][p] == whole[p];
    }
    forall p | l <= p < |whole|
      ensures IsSpace(whole[p])
    {
      assert whole[l..][p - l] == whole[p];
    }
  }

  /** A text is kept without the spaces around it, unless nothing is left; everything else is absent. */
  ghost predicate KeepsText(given: Option<Json>, shown: Option<Json>, absent: Json) {
    && (forall whole: Text, part: Text :: given == Some(Str(whole)) && Inner(whole, part) ==>
          shown == Some(if part == [] then absent else Str(part)))
    && (!(given.Some? && given.value.Str?) ==> shown == Some(absent))
  }

  lemma TextsAreKept(coerce: Coercion, value: Fields)
    ensures KeepsText(Given(value, "devices", "defaultHardwareFilter"),
                      Shown(coerce, value, "devices", "defaultHardwareFilter"), Str([]))
    ensures KeepsText(Given(value, "defaultViewSelection", "contextKey"),
                      Shown(coerce, value, "defaultViewSelection", "contextKey"), Null)
  {
    hide NormalizeAs, Read, Chars, Trim, Inner;
    ShownIs(coerce, value, 2, 0);
    ShownIs(coerce, value, 5, 1);
    forall whole: Text, part: Text | Inner(whole, part)
      ensures Trim(whole) == part
    {
      TrimIsInner(whole);
      InnerIsUnique(whole, part, Trim(whole));
    }
  }

  /** In order, the inner parts of those items that are texts and not all space. */
  ghost predicate InnerItems(items: Items, kept: Items) {
    match items
    case NoItems => kept == NoItems
    case Item(head, tail) =>
      if head.Str? && !AllSpace(head.text) then
        kept.Item? && kept.head.Str? && Inner(head.text, kept.head.text) && InnerItems(tail, kept.tail)
      else InnerItems(tail, kept)
  }

  lemma TrimsAwayIff(t: Text)
    ensures Trim(t) == [] <==> AllSpace(t)
  {
    hide IsSpace, Trim;
    TrimIsInner(t);
    if AllSpace(t) {
      assert t[..0] == [] && t[0..0] == [] && t[0..] == t;
      assert AllSpace(t[..0]);
      assert Inner(t, []);
      InnerIsUnique(t, [], Trim(t));
    } else if Trim(t) == [] {
      var i: nat, j: nat :| i <= j <= |t| && AllSpace(t[..i]) && t[i..j] == Trim(t) && AllSpace(t[j..]);
      forall p | 0 <= p < |t|
        ensures IsSpace(t[p])
      {
        assert p < i ==> t[..i][p] == t[p];
        assert j <= p ==> t[j..][p - j] == t[p];
      }
    }
  }

  lemma {:induction false} TrimmedIsInner(items: Items, kept: Items)
    ensures kept == Trimmed(items) <==> InnerItems(items, kept)
    decreases items
  {
    hide Trim, Inner, AllSpace;
    match items
    case NoItems =>
    case Item(head, tail) =>
      if head.Str? {
        TrimsAwayIff(head.text);
        TrimIsInner(head.text);
        if kept.Item? && kept.head.Str? && Inner(head.text, kept.head.text) {
          InnerIsUnique(head.text, kept.head.text, Trim(head.text));
        }
      }
      TrimmedIsInner(tail, kept);
      if kept.Item? {
        TrimmedIsInner(tail, kept.tail);
      }
  }

  /** A list keeps the inner parts of its texts; everything else becomes the default list. */
  ghost predicate KeepsTexts(given: Option<Json>, shown: Option<Json>, default_: Items) {
    && (forall items: Items, kept: Items :: given == Some(Arr(items)) ==>
          (shown == Some(Arr(kept)) <==> InnerItems(items, kept)))
    && (!(given.Some? && given.value.Arr?) ==> shown == Some(Arr(default_)))
  }

  lemma ListsAreKept(coerce: Coercion, value: Fields)
    ensures KeepsTexts(Given(value, "devices", "pinnedDeviceIds"),
                       Shown(coerce, value, "devices", "pinnedDeviceIds"), NoItems)
    ensures KeepsTexts(Given(value, "devices", "pinnedGroups"),
                       Shown(coerce, value, "devices", "pinnedGroups"), NoItems)
    ensures KeepsTexts(Given(value, "map", "defaultLayerNames"),
                       Shown(coerce, value, "map", "defaultLayerNames"), LAYERS)
  {
    hide NormalizeAs, Read, Chars, Trimmed, InnerItems;
    ShownIs(coerce, value, 2, 2);
    ShownIs(coerce, value, 2, 3);
    ShownIs(coerce, value, 3, 0);
    forall items: Items, kept: Items
      ensures kept == Trimmed(items) <==> InnerItems(items, kept)
    {
      TrimmedIsInner(items, kept);
    }
  }

  lemma ViewIdIsKept(coerce: Coercion, value: Fields)
    ensures var given, shown := Given(value, "defaultViewSelection", "savedViewId"),
                                Shown(coerce, value, "defaultViewSelection", "savedViewId");
      && (forall x: real :: shown == Some(Num(x)) <==> given != Some(Null) && IsNumber(coerce, given, x))
      && ((forall x: real :: shown != Some(Num(x))) ==> shown == Some(Null))
  {
    hide NormalizeAs, Read, Chars;
    ShownIs(coerce, value, 5, 0);
  }

  // ----- Nothing else is kept -----

  lemma {:induction false} SectionKeys(coerce: Coercion, settings: seq<Setting>, v: Option<Json>, w: Option<Json>)
    ensures Keys(NormalizeSection(coerce, settings, v)) == Keys(NormalizeSection(coerce, settings, w))
    decreases |settings|
  {
    hide NormalizeSetting, LookupIn;
    if settings != [] {
      SectionKeys(coerce, settings[1..], v, w);
    }
  }

  lemma {:induction false} ProfileKeys(coerce: Coercion, schema: seq<Section>, v: Fields, w: Fields)
    ensures Keys(NormalizeAs(coerce, schema, v)) == Keys(NormalizeAs(coerce, schema, w))
    decreases |schema|
  {
    hide NormalizeSection;
    if schema != [] {
      ProfileKeys(coerce, schema[1..], v, w);
    }
  }

  /** A normalized profile has the sections and settings of the default profile, in that order, and no others. */
  lemma ShapeIsFixed(coerce: Coercion, value: Fields, i: nat)
    requires i < |SCHEMA|
    ensures var shown := NormalizeProfileDefaults(coerce, value); var name := SCHEMA[i].name;
      && Keys(shown) == Keys(DefaultProfile())
      && Lookup(shown, name).Some? && Lookup(shown, name).value.Obj?
      && Lookup(DefaultProfile(), name).Some? && Lookup(DefaultProfile(), name).value.Obj?
      && Keys(Lookup(shown, name).value.fields) == Keys(Lookup(DefaultProfile(), name).value.fields)
  {
    hide NormalizeAs, NormalizeSection, SCHEMA, WellFormed, DefaultProfile;
    SchemaWellFormed();
    DefaultsAreNormal(coerce);
    ProfileKeys(coerce, SCHEMA, value, NoFields);
    LookupNormalized(coerce, SCHEMA, value, i);
    LookupNormalized(coerce, SCHEMA, NoFields, i);
    SectionKeys(coerce, SCHEMA[i].settings, Lookup(value, SCHEMA[i].name), Lookup(NoFields, SCHEMA[i].name));
  }
}
