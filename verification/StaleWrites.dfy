/**
 * Two transactions on one profile that both read before either writes, which the service's plain
 * `BEGIN` does not exclude: when the change log still replays to the profile, and what is lost.
 */
module StaleWrites {
  import opened Bytes
  import opened Json
  import MergeOverlap
  import opened ProfileDefaults
  import opened ProfileLog

  /** The service's own normalization and defaults. */
  function Service(coerce: Coercion): Config {
    Config((value: Fields) => NormalizeProfileDefaults(coerce, value), DefaultProfile())
  }

  // ----- Any normalization -----

  /** The first transaction's write, and the second's on top of it; both merge into what `seen` shows. */
  function Between(cfg: Config, db: Database, a: AccountId, id: Option<SuggestionId>, first: Fields): Database
    requires a in db.profiles
  {
    WriteFrom(cfg, db, View(cfg, db.profiles[a]), a, id, first)
  }

  function After(
    cfg: Config, db: Database, a: AccountId,
    id: Option<SuggestionId>, first: Fields, id': Option<SuggestionId>, second: Fields): Database
    requires a in db.profiles
  {
    WriteFrom(cfg, Between(cfg, db, a, id, first), View(cfg, db.profiles[a]), a, id', second)
  }

  /** What the log replays to after both writes, and what the profile holds instead. */
  lemma AfterBoth(
    cfg: Config, db: Database, a: AccountId,
    id: Option<SuggestionId>, first: Fields, id': Option<SuggestionId>, second: Fields)
    requires a in db.profiles && Logged(cfg, db, a)
    ensures var seen := View(cfg, db.profiles[a]).defaults; var after := After(cfg, db, a, id, first, id', second);
      && |Rows(after.changes, a)| == |Rows(db.changes, a)| + 2
      && after.profiles[a].defaults == cfg.normalize(Merge(seen, second))
      && Replay(cfg, Rows(after.changes, a))
         == cfg.normalize(Merge(cfg.normalize(cfg.normalize(Merge(seen, first))), second))
      && (Logged(cfg, after, a) <==> after.profiles[a].defaults == Replay(cfg, Rows(after.changes, a)))
  {
    hide Merge, Rows, Replay;
    var between, after := Between(cfg, db, a, id, first), After(cfg, db, a, id, first, id', second);
    ApplyKeepsLog(cfg, db, a, id, first, a);
    assert Logged(cfg, between, a);
    var row, row' := between.changes[|db.changes|], after.changes[|between.changes|];
    RowsAppend(db.changes, row, a);
    RowsAppend(between.changes, row', a);
    ReplayAppend(cfg, Rows(between.changes, a), row');
  }

  /**
   * Without normalization the log replays to the profile, up to key order, exactly when the second
   * patch overwrites every change of the first.
   */
  lemma PlainStaleWriteIff(
    cfg: Config, db: Database, a: AccountId,
    id: Option<SuggestionId>, first: Fields, id': Option<SuggestionId>, second: Fields)
    requires forall d :: cfg.normalize(d) == d
    requires a in db.profiles && Logged(cfg, db, a) && ValidFields(db.profiles[a].defaults)
    requires ValidFields(first) && ValidFields(second)
    ensures var after := After(cfg, db, a, id, first, id', second);
      Same(Obj(after.profiles[a].defaults), Obj(Replay(cfg, Rows(after.changes, a)))) <==>
        MergeOverlap.Overwrites(db.profiles[a].defaults, first, second)
  {
    hide Merge, Same, Rows, Replay, MergeOverlap.Overwrites, After, Logged;
    AfterBoth(cfg, db, a, id, first, id', second);
    MergeOverlap.MergeIgnoresIff(db.profiles[a].defaults, first, second);
  }

  // ----- The service's normalization -----

  /**
   * The setting survives the race: the second patch decides it anyway, or the first does not, or
   * decides it as it was.
   */
  predicate Undisturbed(coerce: Coercion, seen: Fields, first: Fields, second: Fields, i: nat, j: nat)
    requires InSchema(SCHEMA, i, j)
  {
    var section, setting := SCHEMA[i].name, SCHEMA[i].settings[j];
    || Decides(second, section, setting.name)
    || !Decides(first, section, setting.name)
    || Settled(coerce, setting.kind, Read(first, section, setting.name))
       == Settled(coerce, setting.kind, Read(seen, section, setting.name))
  }

  /** One setting, as the profile holds it after both writes and as the log replays it. */
  lemma SettingAfterBoth(coerce: Coercion, stored: Fields, first: Fields, second: Fields, i: nat, j: nat)
    requires WellFormed(SCHEMA) && InSchema(SCHEMA, i, j) && ValidFields(first) && ValidFields(second)
    ensures var seen := NormalizeProfileDefaults(coerce, stored);
      var written := NormalizeProfileDefaults(coerce, Merge(seen, first));
      var section, setting := SCHEMA[i].name, SCHEMA[i].settings[j];
      var held := SettingAt(coerce, SCHEMA, Merge(seen, second), i, j);
      var replayed := SettingAt(coerce, SCHEMA, Merge(NormalizeProfileDefaults(coerce, written), second), i, j);
      && (held == replayed <==> Undisturbed(coerce, seen, first, second, i, j))
      && (held != replayed ==>
            && held == Settled(coerce, setting.kind, Read(seen, section, setting.name))
            && replayed == Settled(coerce, setting.kind, Read(first, section, setting.name)))
  {
    hide NormalizeAs, NormalizeSetting, Merge, Decides, Read, Steady, SCHEMA, WellFormed;
    var section, setting := SCHEMA[i].name, SCHEMA[i].settings[j];
    var seen := NormalizeProfileDefaults(coerce, stored);
    var merged := Merge(seen, first);
    var written := NormalizeProfileDefaults(coerce, merged);
    SteadyAt(i, j);
    SettingAfter(coerce, SCHEMA, stored, second, i, j);
    SettingAfter(coerce, SCHEMA, stored, first, i, j);
    SettingAfter(coerce, SCHEMA, written, second, i, j);
    ReadNormalized(coerce, SCHEMA, merged, i, j);
    ReadNormalized(coerce, SCHEMA, stored, i, j);
    SettledForGood(coerce, setting.kind, Read(stored, section, setting.name));
    SettledForGood(coerce, setting.kind, Read(first, section, setting.name));
  }

  lemma SteadyAt(i: nat, j: nat)
    requires WellFormed(SCHEMA) && InSchema(SCHEMA, i, j)
    ensures Steady(SCHEMA[i].settings[j].kind)
  {
    hide SCHEMA;
    assert WellFormedSection(SCHEMA[i].settings);
  }

  /**
   * With the service's normalization the log replays to the profile exactly when every setting
   * that the first patch changes is decided by the second.
   */
  lemma StaleWriteLogsIff(
    coerce: Coercion, db: Database, a: AccountId,
    id: Option<SuggestionId>, first: Fields, id': Option<SuggestionId>, second: Fields)
    requires a in db.profiles && Logged(Service(coerce), db, a)
    requires ValidFields(first) && ValidFields(second)
    ensures var seen := View(Service(coerce), db.profiles[a]).defaults;
      Logged(Service(coerce), After(Service(coerce), db, a, id, first, id', second), a) <==>
        forall i: nat, j: nat :: InSchema(SCHEMA, i, j) ==> Undisturbed(coerce, seen, first, second, i, j)
  {
    hide NormalizeAs, Merge, Undisturbed, SCHEMA, WellFormed, Logged, After, Rows, Replay, SettingAt;
    AfterBoth(Service(coerce), db, a, id, first, id', second);
    SchemaWellFormed();
    var stored := db.profiles[a].defaults;
    var seen := NormalizeProfileDefaults(coerce, stored);
    var written := NormalizeProfileDefaults(coerce, Merge(seen, first));
    var held, replayed := Merge(seen, second), Merge(NormalizeProfileDefaults(coerce, written), second);
    NormalizedEqualIff(coerce, SCHEMA, held, replayed);
    forall i: nat, j: nat | InSchema(SCHEMA, i, j)
      ensures SettingAt(coerce, SCHEMA, held, i, j) == SettingAt(coerce, SCHEMA, replayed, i, j) <==>
              Undisturbed(coerce, seen, first, second, i, j)
    {
      SettingAfterBoth(coerce, stored, first, second, i, j);
    }
  }

  /** A disturbed setting is lost: the profile shows it as it was seen, not as the first patch left it. */
  lemma DisturbedIsLost(
    coerce: Coercion, db: Database, a: AccountId,
    id: Option<SuggestionId>, first: Fields, id': Option<SuggestionId>, second: Fields, i: nat, j: nat)
    requires a in db.profiles && Logged(Service(coerce), db, a)
    requires ValidFields(first) && ValidFields(second) && InSchema(SCHEMA, i, j)
    requires !Undisturbed(coerce, View(Service(coerce), db.profiles[a]).defaults, first, second, i, j)
    ensures var cfg := Service(coerce); var section, setting := SCHEMA[i].name, SCHEMA[i].settings[j];
      var seen := View(cfg, db.profiles[a]).defaults; var after := After(cfg, db, a, id, first, id', second);
      var shown := Read(View(cfg, after.profiles[a]).defaults, section, setting.name);
      && |Rows(after.changes, a)| == |Rows(db.changes, a)| + 2 && !Logged(cfg, after, a)
      && shown == Some(Settled(coerce, setting.kind, Read(seen, section, setting.name)))
      && shown != Some(Settled(coerce, setting.kind, Read(first, section, setting.name)))
  {
    hide NormalizeAs, NormalizeSetting, Merge, Read, Undisturbed, SCHEMA, WellFormed, Logged, Rows, Replay, Steady;
    var cfg := Service(coerce);
    var setting := SCHEMA[i].settings[j];
    var stored := db.profiles[a].defaults;
    var seen := NormalizeProfileDefaults(coerce, stored);
    SchemaWellFormed();
    SteadyAt(i, j);
    AfterBoth(cfg, db, a, id, first, id', second);
    StaleWriteLogsIff(coerce, db, a, id, first, id', second);
    SettingAfterBoth(coerce, stored, first, second, i, j);
    ReadNormalized(coerce, SCHEMA, Merge(seen, second), i, j);
    ReadNormalized(coerce, SCHEMA, NormalizeProfileDefaults(coerce, Merge(seen, second)), i, j);
    SettledForGood(coerce, setting.kind, Read(seen, SCHEMA[i].name, setting.name));
  }

  /** A patch of one notification setting. */
  function Notify(name: string, on: bool): Fields {
    Field(Chars("notifications"), Obj(Field(Chars(name), Bool(on), NoFields)), NoFields)
  }

  lemma NotificationSettings(coerce: Coercion)
    ensures InSchema(SCHEMA, 4, 0) && SCHEMA[4].name == Chars("notifications")
    ensures SCHEMA[4].settings[0] == Setting(Chars("solverStatus"), Flag(true))
    ensures Decides(Notify("solverStatus", false), Chars("notifications"), Chars("solverStatus"))
    ensures !Decides(Notify("deviceOffline", false), Chars("notifications"), Chars("solverStatus"))
    ensures Read(Notify("solverStatus", false), Chars("notifications"), Chars("solverStatus")) == Some(Bool(false))
    ensures ValidFields(Notify("solverStatus", false)) && ValidFields(Notify("deviceOffline", false))
  {
    hide Chars;
    assert |Chars("deviceOffline")| != |Chars("solverStatus")|;
  }

  lemma DefaultSolverStatus(coerce: Coercion)
    ensures Read(DefaultProfile(), Chars("notifications"), Chars("solverStatus")) == Some(Bool(true))
  {
    hide NormalizeAs, SCHEMA, WellFormed;
    NotificationSettings(coerce);
    SchemaWellFormed();
    DefaultsAreNormal(coerce);
    ReadNormalized(coerce, SCHEMA, NoFields, 4, 0);
    assert Read(NoFields, Chars("notifications"), Chars("solverStatus")) == None;
  }

  /**
   * So a fresh account can lose an update: of two concurrent patches that switch off one
   * notification each, both are logged, and the first is switched on again.
   */
  lemma LostUpdate(coerce: Coercion, a: AccountId)
    ensures var cfg := Service(coerce); var db := Load(cfg, Database(map[], []), a);
      var after := After(cfg, db, a, None, Notify("solverStatus", false), None, Notify("deviceOffline", false));
      && |Rows(after.changes, a)| == 2 && !Logged(cfg, after, a)
      && Read(View(cfg, after.profiles[a]).defaults, Chars("notifications"), Chars("solverStatus")) == Some(Bool(true))
  {
    hide NormalizeAs, Merge, Read, SCHEMA, WellFormed, DefaultProfile, Chars, Decides, Notify, Replay;
    var cfg := Service(coerce);
    var db := Load(cfg, Database(map[], []), a);
    StartInv(cfg);
    LoadKeepsLog(cfg, Database(map[], []), a, a);
    DefaultsAreNormal(coerce);
    NotificationSettings(coerce);
    DefaultSolverStatus(coerce);
    DisturbedIsLost(coerce, db, a, None, Notify("solverStatus", false), None, Notify("deviceOffline", false), 4, 0);
  }

  // ----- Atomic transactions with the service's normalization -----

  /** The service's normalization meets what the plain replay asks of it. */
  lemma ServiceReadsOnce(coerce: Coercion)
    ensures ReadsOnce(Service(coerce)) && Service(coerce).normalize(Service(coerce).initial) == Service(coerce).initial
  {
    hide NormalizeAs, Merge, WellFormed, SCHEMA, DefaultProfile;
    SchemaWellFormed();
    DefaultsAreNormal(coerce);
    forall d: Fields, p: Fields | ValidFields(p)
      ensures var n := Service(coerce).normalize; n(Merge(n(n(d)), p)) == n(Merge(n(d), p))
    {
      ReadTwice(coerce, SCHEMA, d, p);
    }
  }

  lemma {:induction false} RowsValid(changes: seq<Change>, a: AccountId)
    requires ValidPayloads(changes)
    ensures ValidPayloads(Rows(changes, a))
    decreases |changes|
  {
    if changes != [] {
      RowsValid(changes[..|changes| - 1], a);
    }
  }

  /** After any run, folding merge-then-normalize over an account's payloads gives its profile. */
  lemma ServiceLogReplays(coerce: Coercion, events: seq<Event>, a: AccountId)
    requires forall k :: 0 <= k < |events| ==> ValidEvent(events[k])
    ensures var cfg := Service(coerce); var db := Run(cfg, Start, events).db;
      a in db.profiles ==> db.profiles[a].defaults == PlainReplay(cfg, Rows(db.changes, a))
  {
    hide Run, ReadsOnce, ValidPayloads, Rows, Replay, PlainReplay, NormalizeProfileDefaults;
    var cfg := Service(coerce);
    var changes := Run(cfg, Start, events).db.changes;
    LogReplays(cfg, events, a);
    ServiceReadsOnce(coerce);
    StartValid();
    RunValid(cfg, Start, events);
    RowsValid(changes, a);
    PlainReplaySuffices(cfg, Rows(changes, a));
  }
}
