/**
 * Operator profiles, their change log and the publishing of suggestions, as a state machine whose
 * transactions are atomic while requests interleave freely and may stop anywhere.
 */
module ProfileLog {
  import opened Bytes
  import opened Json

  type AccountId = nat
  type SuggestionId = nat
  type RequestId = nat

  /** What the service brings along: its normalization and the defaults of a new profile. */
  datatype Config = Config(normalize: Fields -> Fields, initial: Fields)

  datatype Profile = Profile(version: nat, defaults: Fields)

  datatype Change = Change(account: AccountId, suggestion: Option<SuggestionId>, version: nat, payload: Fields)

  datatype Database = Database(profiles: map<AccountId, Profile>, changes: seq<Change>)

  // ----- Transactions -----

  /** `loadOrCreateProfile` on the stored rows: a new profile has version 1. */
  function Load(cfg: Config, db: Database, a: AccountId): (r: Database)
    ensures a in r.profiles
  {
    if a in db.profiles then db
    else db.(profiles := db.profiles[a := Profile(1, cfg.initial)])
  }

  /** What a reader sees: rows are normalized again when they are mapped. */
  function View(cfg: Config, p: Profile): Profile {
    p.(defaults := cfg.normalize(p.defaults))
  }

  /** Merge, normalize, bump the version, append the change row. */
  function Apply(cfg: Config, db: Database, a: AccountId, suggestion: Option<SuggestionId>, patch: Fields): Database {
    var loaded := Load(cfg, db, a);
    WriteFrom(cfg, loaded, View(cfg, loaded.profiles[a]), a, suggestion, patch)
  }

  /** The writing half: the merge starts from what was read, the version from what is stored. */
  function WriteFrom(
    cfg: Config, db: Database, seen: Profile, a: AccountId, suggestion: Option<SuggestionId>, patch: Fields): Database
    requires a in db.profiles
  {
    var version := db.profiles[a].version + 1;
    Database(
      db.profiles[a := Profile(version, cfg.normalize(Merge(seen.defaults, patch)))],
      db.changes + [Change(a, suggestion, version, patch)])
  }

  // ----- The log of one account -----

  function Rows(changes: seq<Change>, a: AccountId): seq<Change>
    decreases |changes|
  {
    if changes == [] then []
    else
      var last := changes[|changes| - 1];
      Rows(changes[..|changes| - 1], a) + (if last.account == a then [last] else [])
  }

  /** Folding merge-then-normalize over the payloads, from the initial defaults. */
  function Replay(cfg: Config, rows: seq<Change>): Fields
    decreases |rows|
  {
    if rows == [] then cfg.initial
    else
      var before := Replay(cfg, rows[..|rows| - 1]);
      cfg.normalize(Merge(cfg.normalize(before), rows[|rows| - 1].payload))
  }

  /** The rows carry versions 2, 3, ... and the profile is exactly what they replay to. */
  ghost predicate Logged(cfg: Config, db: Database, a: AccountId) {
    var rows := Rows(db.changes, a);
    && (forall i :: 0 <= i < |rows| ==> rows[i].version == i + 2)
    && if a in db.profiles then db.profiles[a] == Profile(|rows| + 1, Replay(cfg, rows)) else rows == []
  }

  lemma RowsAppend(changes: seq<Change>, c: Change, a: AccountId)
    ensures Rows(changes + [c], a) == if c.account == a then Rows(changes, a) + [c] else Rows(changes, a)
  {
    assert (changes + [c])[..|changes|] == changes;
  }

  lemma LoadKeepsLog(cfg: Config, db: Database, a: AccountId, b: AccountId)
    requires Logged(cfg, db, b)
    ensures Logged(cfg, Load(cfg, db, a), b)
  {
    if a == b && a !in db.profiles {
      assert Replay(cfg, Rows(db.changes, a)) == cfg.initial;
    }
  }

  lemma ApplyKeepsLog(
    cfg: Config, db: Database, a: AccountId, suggestion: Option<SuggestionId>, patch: Fields, b: AccountId)
    requires Logged(cfg, db, a) && Logged(cfg, db, b)
    ensures Logged(cfg, Apply(cfg, db, a, suggestion, patch), b)
  {
    hide Merge, Replay, Rows;
    LoadKeepsLog(cfg, db, a, a);
    var loaded := Load(cfg, db, a);
    var row := Change(a, suggestion, loaded.profiles[a].version + 1, patch);
    RowsAppend(db.changes, row, b);
    ReplayAppend(cfg, Rows(db.changes, a), row);
    RowsAppend(db.changes, row, a);
    assert Logged(cfg, loaded, a);
  }

  lemma ReplayAppend(cfg: Config, rows: seq<Change>, row: Change)
    ensures Replay(cfg, rows + [row]) == cfg.normalize(Merge(cfg.normalize(Replay(cfg, rows)), row.payload))
  {
    hide Merge;
    assert (rows + [row])[..|rows|] == rows;
  }

  /** Folding merge-then-normalize alone, without the normalization on reading. */
  function PlainReplay(cfg: Config, rows: seq<Change>): Fields
    decreases |rows|
  {
    if rows == [] then cfg.initial
    else cfg.normalize(Merge(PlainReplay(cfg, rows[..|rows| - 1]), rows[|rows| - 1].payload))
  }

  /** Reading a profile twice before a merge comes to the same as reading it once. */
  ghost predicate ReadsOnce(cfg: Config) {
    forall d: Fields, p: Fields :: ValidFields(p) ==>
      cfg.normalize(Merge(cfg.normalize(cfg.normalize(d)), p)) == cfg.normalize(Merge(cfg.normalize(d), p))
  }

  ghost predicate ValidPayloads(rows: seq<Change>) {
    forall k :: 0 <= k < |rows| ==> ValidFields(rows[k].payload)
  }

  lemma {:induction false} PlainReplaySuffices(cfg: Config, rows: seq<Change>)
    requires ReadsOnce(cfg) && cfg.normalize(cfg.initial) == cfg.initial && ValidPayloads(rows)
    ensures Replay(cfg, rows) == PlainReplay(cfg, rows)
    ensures cfg.normalize(cfg.normalize(Replay(cfg, rows))) == cfg.normalize(Replay(cfg, rows))
    ensures exists d :: Replay(cfg, rows) == cfg.normalize(d)
    ensures (forall d :: cfg.normalize(cfg.normalize(d)) == cfg.normalize(d)) ==>
              cfg.normalize(Replay(cfg, rows)) == Replay(cfg, rows)
    decreases |rows|
  {
    hide Merge, ReadsOnce;
    if rows == [] {
    } else {
      var front, patch := rows[..|rows| - 1], rows[|rows| - 1].payload;
      PlainReplaySuffices(cfg, front);
      var before :| Replay(cfg, front) == cfg.normalize(before);
      ReadOnce(cfg, before, patch);
      var d := Merge(cfg.normalize(Replay(cfg, front)), patch);
      assert Replay(cfg, rows) == cfg.normalize(d);
      ReadOnce(cfg, d, NoFields);
    }
  }

  lemma ReadOnce(cfg: Config, d: Fields, p: Fields)
    requires ReadsOnce(cfg) && ValidFields(p)
    ensures cfg.normalize(Merge(cfg.normalize(cfg.normalize(d)), p)) == cfg.normalize(Merge(cfg.normalize(d), p))
    ensures p == NoFields ==> cfg.normalize(cfg.normalize(cfg.normalize(d))) == cfg.normalize(cfg.normalize(d))
  {
  }

  // ----- The whole system -----

  datatype Status = Proposed | Approved | Rejected | Published

  datatype Suggestion = Suggestion(account: AccountId, status: Status, basedOn: Option<nat>, patch: Fields)

  /** A publish request after it has read its suggestion, and after its transaction. */
  datatype Phase =
    | Fetched(id: SuggestionId, suggestion: Suggestion)
    | Committed(id: SuggestionId)

  datatype State = State(
    db: Database,
    suggestions: map<SuggestionId, Suggestion>,
    requests: map<RequestId, Phase>)

  /**
   * One atomic step of one party. A request that crashes between two of its steps is one whose
   * next step never comes.
   */
  datatype Event =
    | Visit(account: AccountId)
    | Patch(account: AccountId, patch: Fields)
    | Suggest(id: SuggestionId, account: AccountId, basedOn: Option<nat>, patch: Fields)
    | Review(id: SuggestionId, approve: bool)
    | Fetch(request: RequestId, id: SuggestionId, target: AccountId)
    | Commit(request: RequestId)
    | Mark(request: RequestId)

  const Start := State(Database(map[], []), map[], map[])

  /** The version check of the publish transaction. */
  predicate Stale(cfg: Config, db: Database, s: Suggestion) {
    s.basedOn.Some? && s.basedOn.value != Load(cfg, db, s.account).profiles[s.account].version
  }

  function Step(cfg: Config, s: State, e: Event): State {
    match e
    case Visit(a) => s.(db := Load(cfg, s.db, a))
    case Patch(a, patch) => s.(db := Apply(cfg, s.db, a, None, patch))
    case Suggest(id, a, basedOn, patch) =>
      if id in s.suggestions then s
      else s.(suggestions := s.suggestions[id := Suggestion(a, Proposed, basedOn, patch)])
    case Review(id, approve) =>
      if id !in s.suggestions || s.suggestions[id].status == Published then s
      else
        var status := if approve then Approved else Rejected;
        s.(suggestions := s.suggestions[id := s.suggestions[id].(status := status)])
    case Fetch(r, id, target) =>
      if r in s.requests || id !in s.suggestions then s
      else if s.suggestions[id].account != target || s.suggestions[id].status != Approved then s
      else s.(requests := s.requests[r := Fetched(id, s.suggestions[id])])
    case Commit(r) =>
      if r !in s.requests || !s.requests[r].Fetched? then s
      else
        var q := s.requests[r];
        if Stale(cfg, s.db, q.suggestion) then s.(requests := s.requests - {r})
        else s.(db := Apply(cfg, s.db, q.suggestion.account, Some(q.id), q.suggestion.patch),
                requests := s.requests[r := Committed(q.id)])
    case Mark(r) =>
      if r !in s.requests || !s.requests[r].Committed? then s
      else
        var id := s.requests[r].id;
        if id !in s.suggestions then s.(requests := s.requests - {r})
        else s.(suggestions := s.suggestions[id := s.suggestions[id].(status := Published)],
                requests := s.requests - {r})
  }

  function Run(cfg: Config, s: State, events: seq<Event>): State
    decreases |events|
  {
    if events == [] then s else Run(cfg, Step(cfg, s, events[0]), events[1..])
  }

  /** What a suggestion keeps for ever, whatever its status. */
  predicate SameSuggestion(s: Suggestion, t: Suggestion) {
    s.account == t.account && s.basedOn == t.basedOn && s.patch == t.patch
  }

  /** Requests hold what their suggestion says; a row that names a dated suggestion carries the next version. */
  ghost predicate Traced(s: State) {
    && (forall r :: r in s.requests ==> s.requests[r].id in s.suggestions)
    && (forall r :: r in s.requests && s.requests[r].Fetched? ==>
          SameSuggestion(s.requests[r].suggestion, s.suggestions[s.requests[r].id]))
    && (forall k :: 0 <= k < |s.db.changes| ==> RowTraced(s.db.changes[k], s.suggestions))
  }

  predicate RowTraced(c: Change, suggestions: map<SuggestionId, Suggestion>) {
    c.suggestion.Some? ==>
      && c.suggestion.value in suggestions
      && var g := suggestions[c.suggestion.value];
         c.account == g.account && c.payload == g.patch && (g.basedOn.Some? ==> c.version == g.basedOn.value + 1)
  }

  ghost predicate Inv(cfg: Config, s: State) {
    Traced(s) && forall a :: Logged(cfg, s.db, a)
  }

  lemma StartInv(cfg: Config)
    ensures Inv(cfg, Start)
  {
  }

  lemma StepLogged(cfg: Config, s: State, e: Event, a: AccountId)
    requires forall b :: Logged(cfg, s.db, b)
    ensures Logged(cfg, Step(cfg, s, e).db, a)
  {
    hide Load, Apply, Logged;
    match e
    case Visit(b) => LoadKeepsLog(cfg, s.db, b, a);
    case Patch(b, patch) =>
      assert Logged(cfg, s.db, b);
      ApplyKeepsLog(cfg, s.db, b, None, patch, a);
    case Commit(r) =>
      if r in s.requests && s.requests[r].Fetched? {
        var q := s.requests[r];
        assert Logged(cfg, s.db, q.suggestion.account);
        ApplyKeepsLog(cfg, s.db, q.suggestion.account, Some(q.id), q.suggestion.patch, a);
      }
    case _ =>
  }

  lemma StepTraced(cfg: Config, s: State, e: Event)
    requires Traced(s)
    ensures Traced(Step(cfg, s, e))
  {
    hide Merge;
  }

  lemma {:induction false} RunInv(cfg: Config, s: State, events: seq<Event>)
    requires Inv(cfg, s)
    ensures Inv(cfg, Run(cfg, s, events))
    decreases |events|
  {
    hide Step, Traced, Logged;
    if events != [] {
      var next := Step(cfg, s, events[0]);
      StepTraced(cfg, s, events[0]);
      forall a
        ensures Logged(cfg, next.db, a)
      {
        StepLogged(cfg, s, events[0], a);
      }
      RunInv(cfg, next, events[1..]);
    }
  }

  /** After any run, every account's log has contiguous versions and replays to its profile. */
  lemma LogReplays(cfg: Config, events: seq<Event>, a: AccountId)
    ensures Logged(cfg, Run(cfg, Start, events).db, a)
  {
    hide Step, Traced, Logged, Run;
    StartInv(cfg);
    RunInv(cfg, Start, events);
  }

  /** The patches of requests are objects with unique keys at every level. */
  predicate ValidEvent(e: Event) {
    match e
    case Patch(_, patch) => ValidFields(patch)
    case Suggest(_, _, _, patch) => ValidFields(patch)
    case _ => true
  }

  ghost predicate ValidState(s: State) {
    && ValidPayloads(s.db.changes)
    && (forall id :: id in s.suggestions ==> ValidFields(s.suggestions[id].patch))
    && (forall r :: r in s.requests && s.requests[r].Fetched? ==> ValidFields(s.requests[r].suggestion.patch))
  }

  lemma StartValid()
    ensures ValidState(Start)
  {
  }

  lemma StepValid(cfg: Config, s: State, e: Event)
    requires ValidState(s) && ValidEvent(e)
    ensures ValidState(Step(cfg, s, e))
  {
    hide Merge, Stale;
  }

  lemma {:induction false} RunValid(cfg: Config, s: State, events: seq<Event>)
    requires ValidState(s) && forall k :: 0 <= k < |events| ==> ValidEvent(events[k])
    ensures ValidPayloads(Run(cfg, s, events).db.changes)
    decreases |events|
  {
    hide Step;
    if events != [] {
      StepValid(cfg, s, events[0]);
      RunValid(cfg, Step(cfg, s, events[0]), events[1..]);
    }
  }

  // ----- At most once -----

  lemma {:induction false} RowsGrow(changes: seq<Change>, a: AccountId, i: nat, j: nat)
    requires i <= j <= |changes|
    ensures |Rows(changes[..i], a)| <= |Rows(changes[..j], a)|
    decreases j
  {
    if i < j {
      assert changes[..j][..j - 1] == changes[..j - 1];
      RowsGrow(changes, a, i, j - 1);
    }
  }

  /** Where the `k`-th change stands in its account's rows. */
  lemma {:induction false} RowIndex(changes: seq<Change>, k: nat)
    requires k < |changes|
    ensures var a := changes[k].account; var i := |Rows(changes[..k], a)|;
      i < |Rows(changes, a)| && Rows(changes, a)[i] == changes[k]
    ensures |Rows(changes[..k + 1], changes[k].account)| == |Rows(changes[..k], changes[k].account)| + 1
    decreases |changes|
  {
    var n := |changes| - 1;
    assert changes[..k + 1][..k] == changes[..k];
    if k < n {
      RowIndex(changes[..n], k);
      assert changes[..n][..k] == changes[..k];
    }
  }

  /** A suggestion that names the version it is based on gets at most one change row, in any run. */
  lemma PublishedAtMostOnce(cfg: Config, events: seq<Event>, id: SuggestionId, i: nat, j: nat)
    requires var s := Run(cfg, Start, events);
      && id in s.suggestions && s.suggestions[id].basedOn.Some?
      && i < |s.db.changes| && s.db.changes[i].suggestion == Some(id)
      && j < |s.db.changes| && s.db.changes[j].suggestion == Some(id)
    ensures i == j
  {
    hide Run, Step, Rows, Logged, Load, Stale;
    StartInv(cfg);
    RunInv(cfg, Start, events);
    var s := Run(cfg, Start, events);
    assert RowTraced(s.db.changes[i], s.suggestions) && RowTraced(s.db.changes[j], s.suggestions);
    if i < j {
      VersionsDiffer(cfg, s.db, i, j);
    } else if j < i {
      VersionsDiffer(cfg, s.db, j, i);
    }
  }

  lemma VersionsDiffer(cfg: Config, db: Database, i: nat, j: nat)
    requires i < j < |db.changes| && db.changes[i].account == db.changes[j].account
    requires Logged(cfg, db, db.changes[i].account)
    ensures db.changes[i].version < db.changes[j].version
  {
    hide Rows, Replay;
    RowIndex(db.changes, i);
    RowIndex(db.changes, j);
    RowsGrow(db.changes, db.changes[i].account, i + 1, j);
  }

  /** Every row that names a suggestion is its patch, written for its own account. */
  lemma RowsComeFromSuggestions(cfg: Config, events: seq<Event>, k: nat)
    requires k < |Run(cfg, Start, events).db.changes|
    ensures RowTraced(Run(cfg, Start, events).db.changes[k], Run(cfg, Start, events).suggestions)
  {
    hide Run, Step, Logged;
    StartInv(cfg);
    RunInv(cfg, Start, events);
  }

  // ----- Where the guarantees end -----

  /** Two requests that publish one suggestion, both past the approval check before either commits. */
  function Twice(id: SuggestionId, account: AccountId, basedOn: Option<nat>, patch: Fields): seq<Event> {
    [Suggest(id, account, basedOn, patch), Review(id, true), Fetch(0, id, account), Fetch(1, id, account),
     Commit(0), Commit(1)]
  }

  /** Without a based-on version the second request publishes again: the bound needs that version. */
  lemma UndatedPublishesTwice(cfg: Config, id: SuggestionId, account: AccountId, patch: Fields)
    ensures var s := Run(cfg, Start, Twice(id, account, None, patch));
      && s.suggestions == map[id := Suggestion(account, Approved, None, patch)]
      && |s.db.changes| == 2 && s.db.changes[0].suggestion == s.db.changes[1].suggestion == Some(id)
  {
    hide Merge;
    var e := Twice(id, account, None, patch);
    var g := Suggestion(account, Approved, None, patch);
    var s1 := Step(cfg, Start, e[0]);
    var s2 := Step(cfg, s1, e[1]);
    assert s2.suggestions == map[id := g] && s2.db == Start.db && s2.requests == map[];
    var s3 := Step(cfg, s2, e[2]);
    var s4 := Step(cfg, s3, e[3]);
    assert s4.requests == map[0 := Fetched(id, g), 1 := Fetched(id, g)] && s4.db == Start.db;
    TwoCommits(cfg, s4, id, g);
    RunSix(cfg, e);
  }

  lemma TwoCommits(cfg: Config, s: State, id: SuggestionId, g: Suggestion)
    requires s.requests == map[0 := Fetched(id, g), 1 := Fetched(id, g)] && s.db == Start.db && g.basedOn.None?
    ensures var t := Step(cfg, Step(cfg, s, Commit(0)), Commit(1));
      && t.suggestions == s.suggestions
      && |t.db.changes| == 2 && t.db.changes[0].suggestion == t.db.changes[1].suggestion == Some(id)
  {
    hide Merge;
    var t := Step(cfg, s, Commit(0));
    assert t.requests[1] == Fetched(id, g) && |t.db.changes| == 1;
  }

  ghost predicate AtMostOneRow(s: State, id: SuggestionId) {
    forall i, j :: 0 <= i < j < |s.db.changes| ==>
      !(s.db.changes[i].suggestion == s.db.changes[j].suggestion == Some(id))
  }

  /** The suggestion exists and is the one described; its status may be any. */
  predicate Describes(s: State, id: SuggestionId, g: Suggestion) {
    id in s.suggestions && SameSuggestion(s.suggestions[id], g)
  }

  /** A suggestion has at most one change row in every run exactly when it names a based-on version. */
  lemma AtMostOnceIff(cfg: Config, id: SuggestionId, g: Suggestion)
    ensures (forall events :: Describes(Run(cfg, Start, events), id, g) ==> AtMostOneRow(Run(cfg, Start, events), id))
        <==> g.basedOn.Some?
  {
    hide Run;
    if g.basedOn.Some? {
      forall events, i, j | Describes(Run(cfg, Start, events), id, g)
                            && 0 <= i < j < |Run(cfg, Start, events).db.changes|
        ensures var changes := Run(cfg, Start, events).db.changes;
          !(changes[i].suggestion == changes[j].suggestion == Some(id))
      {
        var changes := Run(cfg, Start, events).db.changes;
        if changes[i].suggestion == changes[j].suggestion == Some(id) {
          PublishedAtMostOnce(cfg, events, id, i, j);
        }
      }
    } else {
      UndatedPublishesTwice(cfg, id, g.account, g.patch);
      var s := Run(cfg, Start, Twice(id, g.account, None, g.patch));
      assert Describes(s, id, g) && !AtMostOneRow(s, id);
    }
  }

  // ----- What a publish request still knows when it commits -----

  /** The outcome of the last review of the suggestion among these events. */
  function LastReview(events: seq<Event>, id: SuggestionId): Option<bool>
    decreases |events|
  {
    if events == [] then None
    else
      var later := LastReview(events[1..], id);
      if later.None? && events[0].Review? && events[0].id == id then Some(events[0].approve) else later
  }

  /** A step in which a request that has committed the suggestion marks it published. */
  predicate Marks(s: State, e: Event, id: SuggestionId) {
    e.Mark? && e.request in s.requests && s.requests[e.request] == Committed(id)
  }

  predicate MarkedDuring(cfg: Config, s: State, events: seq<Event>, id: SuggestionId)
    decreases |events|
  {
    events != [] && (Marks(s, events[0], id) || MarkedDuring(cfg, Step(cfg, s, events[0]), events[1..], id))
  }

  function Outcome(approve: bool): Status {
    if approve then Approved else Rejected
  }

  /** Being published is final; until then the last review decides. */
  lemma {:induction false} StatusAfter(cfg: Config, s: State, events: seq<Event>, id: SuggestionId)
    requires id in s.suggestions
    ensures var t := Run(cfg, s, events);
      && id in t.suggestions
      && t.suggestions[id].status ==
           if s.suggestions[id].status == Published || MarkedDuring(cfg, s, events, id) then Published
           else match LastReview(events, id) case None => s.suggestions[id].status case Some(b) => Outcome(b)
    decreases |events|
  {
    hide Step;
    if events != [] {
      StatusStep(cfg, s, events[0], id);
      StatusAfter(cfg, Step(cfg, s, events[0]), events[1..], id);
    }
  }

  lemma StatusStep(cfg: Config, s: State, e: Event, id: SuggestionId)
    requires id in s.suggestions
    ensures var t := Step(cfg, s, e);
      && id in t.suggestions
      && t.suggestions[id].status ==
           if s.suggestions[id].status == Published || Marks(s, e, id) then Published
           else if e.Review? && e.id == id then Outcome(e.approve)
           else s.suggestions[id].status
  {
    hide Apply, Load, Stale;
  }

  /** A request keeps what it has fetched until it commits. */
  lemma {:induction false} FetchedIsKept(cfg: Config, s: State, events: seq<Event>, r: RequestId)
    requires r in s.requests && s.requests[r].Fetched? && Commit(r) !in events
    ensures var t := Run(cfg, s, events); r in t.requests && t.requests[r] == s.requests[r]
    decreases |events|
  {
    hide Step;
    if events != [] {
      assert events[0] in events;
      KeptByStep(cfg, s, events[0], r);
      FetchedIsKept(cfg, Step(cfg, s, events[0]), events[1..], r);
    }
  }

  lemma KeptByStep(cfg: Config, s: State, e: Event, r: RequestId)
    requires r in s.requests && s.requests[r].Fetched? && e != Commit(r)
    ensures var t := Step(cfg, s, e); r in t.requests && t.requests[r] == s.requests[r]
  {
    hide Apply, Load, Stale;
  }

  /** The approval check of the publish handler passes. */
  predicate MayFetch(s: State, r: RequestId, id: SuggestionId, target: AccountId) {
    && r !in s.requests && id in s.suggestions
    && s.suggestions[id].account == target && s.suggestions[id].status == Approved
  }

  /**
   * From its approval check to its commit: the suggestion a request publishes is still approved at
   * its commit exactly when no other request has marked it meanwhile and no rejection came last.
   */
  lemma ApprovedAtCommitIff(
    cfg: Config, s: State, r: RequestId, id: SuggestionId, target: AccountId, between: seq<Event>)
    requires MayFetch(s, r, id, target) && Commit(r) !in between
    ensures var fetched := Step(cfg, s, Fetch(r, id, target)); var t := Run(cfg, fetched, between);
      && r in t.requests && t.requests[r] == Fetched(id, s.suggestions[id])
      && id in t.suggestions
      && (t.suggestions[id].status == Approved <==>
            !MarkedDuring(cfg, fetched, between, id) && LastReview(between, id) != Some(false))
  {
    hide Run, MarkedDuring, LastReview;
    var fetched := Step(cfg, s, Fetch(r, id, target));
    FetchedIsKept(cfg, fetched, between, r);
    StatusAfter(cfg, fetched, between, id);
  }

  /** A request that has committed has left its row. */
  ghost predicate Recorded(s: State) {
    forall r :: r in s.requests && s.requests[r].Committed? ==> HasRow(s.db.changes, s.requests[r].id)
  }

  ghost predicate HasRow(changes: seq<Change>, id: SuggestionId) {
    exists k :: 0 <= k < |changes| && changes[k].suggestion == Some(id)
  }

  /** The log only grows, by at most one row a step. */
  lemma StepAppends(cfg: Config, s: State, e: Event)
    ensures var t := Step(cfg, s, e);
      && s.db.changes <= t.db.changes
      && (e.Commit? && e.request in s.requests && s.requests[e.request].Fetched? ==>
            var q := s.requests[e.request];
            && (Stale(cfg, s.db, q.suggestion) ==> t.db == s.db)
            && (!Stale(cfg, s.db, q.suggestion) ==>
                  && |t.db.changes| == |s.db.changes| + 1
                  && t.db.changes[|s.db.changes|].suggestion == Some(q.id)))
  {
    hide Merge, Stale;
  }

  lemma RowStays(a: seq<Change>, b: seq<Change>, id: SuggestionId)
    requires a <= b && HasRow(a, id)
    ensures HasRow(b, id)
  {
    var k :| 0 <= k < |a| && a[k].suggestion == Some(id);
    assert b[k] == a[k];
  }

  lemma StepRecorded(cfg: Config, s: State, e: Event)
    requires Recorded(s)
    ensures Recorded(Step(cfg, s, e))
  {
    hide Apply, Load, Stale, HasRow;
    var t := Step(cfg, s, e);
    StepAppends(cfg, s, e);
    forall r | r in t.requests && t.requests[r].Committed?
      ensures HasRow(t.db.changes, t.requests[r].id)
    {
      if r in s.requests && s.requests[r] == t.requests[r] {
        RowStays(s.db.changes, t.db.changes, t.requests[r].id);
      } else {
        LastRow(t.db.changes, t.requests[r].id);
      }
    }
  }

  lemma LastRow(changes: seq<Change>, id: SuggestionId)
    requires changes != [] && changes[|changes| - 1].suggestion == Some(id)
    ensures HasRow(changes, id)
  {
  }

  lemma {:induction false} RunRecorded(cfg: Config, s: State, events: seq<Event>)
    requires Recorded(s)
    ensures Recorded(Run(cfg, s, events)) && s.db.changes <= Run(cfg, s, events).db.changes
    decreases |events|
  {
    hide Step, Recorded;
    if events != [] {
      StepRecorded(cfg, s, events[0]);
      StepAppends(cfg, s, events[0]);
      RunRecorded(cfg, Step(cfg, s, events[0]), events[1..]);
    }
  }

  /** Marking means that a row is there. */
  lemma {:induction false} MarkedHasRow(cfg: Config, s: State, events: seq<Event>, id: SuggestionId)
    requires Recorded(s) && MarkedDuring(cfg, s, events, id)
    ensures HasRow(Run(cfg, s, events).db.changes, id)
    decreases |events|
  {
    hide Step, HasRow;
    var next := Step(cfg, s, events[0]);
    StepRecorded(cfg, s, events[0]);
    if Marks(s, events[0], id) {
      StepAppends(cfg, s, events[0]);
      RunRecorded(cfg, next, events[1..]);
      RowStays(s.db.changes, Run(cfg, next, events[1..]).db.changes, id);
    } else {
      MarkedHasRow(cfg, next, events[1..], id);
    }
  }

  /** Once a dated suggestion has a row, its account has moved past the version it is based on. */
  lemma RowMakesStale(cfg: Config, s: State, id: SuggestionId)
    requires Inv(cfg, s) && HasRow(s.db.changes, id) && id in s.suggestions && s.suggestions[id].basedOn.Some?
    ensures Stale(cfg, s.db, s.suggestions[id])
  {
    hide Rows, Replay;
    var k :| 0 <= k < |s.db.changes| && s.db.changes[k].suggestion == Some(id);
    assert RowTraced(s.db.changes[k], s.suggestions);
    RowIndex(s.db.changes, k);
    assert Logged(cfg, s.db, s.suggestions[id].account);
  }

  /** Whether the commit of a request appends its row. */
  predicate Publishes(cfg: Config, s: State, r: RequestId) {
    |Step(cfg, s, Commit(r)).db.changes| > |s.db.changes|
  }

  /**
   * In any run: a suggestion is published without being approved any more exactly when the version
   * check passes and, since the approval check, a rejection came last or another request marked it.
   * If it names a based-on version, a mark always fails the version check: only the rejection counts.
   */
  lemma PublishedUnapprovedIff(
    cfg: Config, before: seq<Event>, r: RequestId, id: SuggestionId, target: AccountId, between: seq<Event>)
    requires MayFetch(Run(cfg, Start, before), r, id, target) && Commit(r) !in between
    ensures var s := Run(cfg, Start, before); var g := s.suggestions[id];
      var fetched := Step(cfg, s, Fetch(r, id, target)); var t := Run(cfg, fetched, between);
      && id in t.suggestions
      && (Publishes(cfg, t, r) && t.suggestions[id].status != Approved <==>
            !Stale(cfg, t.db, g) &&
            (LastReview(between, id) == Some(false) || (g.basedOn.None? && MarkedDuring(cfg, fetched, between, id))))
  {
    hide Run, MarkedDuring, LastReview, Recorded, Stale, HasRow, Inv;
    var s := Run(cfg, Start, before);
    var fetched := Step(cfg, s, Fetch(r, id, target));
    var t := Run(cfg, fetched, between);
    ApprovedAtCommitIff(cfg, s, r, id, target, between);
    StepAppends(cfg, t, Commit(r));
    if s.suggestions[id].basedOn.Some? && MarkedDuring(cfg, fetched, between, id) {
      StartInv(cfg);
      StartRecorded();
      RunInv(cfg, Start, before);
      RunRecorded(cfg, Start, before);
      StepKeepsAll(cfg, s, Fetch(r, id, target));
      RunInv(cfg, fetched, between);
      MarkedHasRow(cfg, fetched, between, id);
      TracedAt(cfg, t, r);
      RowMakesStale(cfg, t, id);
      SameStale(cfg, t.db, s.suggestions[id], t.suggestions[id]);
    }
  }

  // ----- Where a published row comes from -----

  lemma {:induction false} RunAppend(cfg: Config, s: State, a: seq<Event>, b: seq<Event>)
    ensures Run(cfg, s, a + b) == Run(cfg, Run(cfg, s, a), b)
    decreases |a|
  {
    hide Step;
    if a == [] {
      assert a + b == b;
    } else {
      assert (a + b)[1..] == a[1..] + b;
      RunAppend(cfg, Step(cfg, s, a[0]), a[1..], b);
    }
  }

  /** A suggestion that is approved was approved by its last review, and never marked. */
  lemma {:induction false} ApprovedByReview(cfg: Config, s: State, events: seq<Event>, id: SuggestionId)
    requires id !in s.suggestions && Traced(s)
    requires var t := Run(cfg, s, events); id in t.suggestions && t.suggestions[id].status == Approved
    ensures LastReview(events, id) == Some(true) && !MarkedDuring(cfg, s, events, id)
    decreases |events|
  {
    hide Step, Traced;
    if events == [] {
      assert false;
    }
    var next := Step(cfg, s, events[0]);
    StepTraced(cfg, s, events[0]);
    NoMarkBefore(s, events[0], id);
    if id in next.suggestions {
      SuggestedNow(cfg, s, events[0], id);
      StatusAfter(cfg, next, events[1..], id);
    } else {
      ApprovedByReview(cfg, next, events[1..], id);
    }
  }

  lemma NoMarkBefore(s: State, e: Event, id: SuggestionId)
    requires id !in s.suggestions && Traced(s)
    ensures !Marks(s, e, id)
  {
  }

  lemma SuggestedNow(cfg: Config, s: State, e: Event, id: SuggestionId)
    requires id !in s.suggestions && id in Step(cfg, s, e).suggestions
    ensures Step(cfg, s, e).suggestions[id].status == Proposed
  {
    hide Apply, Load, Stale;
  }

  /** The `n`-th event asks to publish the suggestion for its account after its approval was given last. */
  predicate ApprovedFetch(cfg: Config, events: seq<Event>, n: nat, id: SuggestionId, account: AccountId) {
    && n < |events|
    && events[n].Fetch? && events[n].id == id && events[n].target == account
    && LastReview(events[..n], id) == Some(true)
    && !MarkedDuring(cfg, Start, events[..n], id)
  }

  ghost predicate FetchedWell(cfg: Config, events: seq<Event>, r: RequestId, id: SuggestionId, account: AccountId) {
    exists n: nat :: ApprovedFetch(cfg, events, n, id, account) && events[n].request == r
  }

  /** Some request fetched the suggestion when it was approved, and committed later. */
  ghost predicate PublishedWell(cfg: Config, events: seq<Event>, id: SuggestionId, account: AccountId) {
    exists n: nat, m: nat ::
      n < m < |events| && ApprovedFetch(cfg, events, n, id, account) && events[m] == Commit(events[n].request)
  }

  ghost predicate Founded(cfg: Config, events: seq<Event>, s: State) {
    && (forall r :: r in s.requests && s.requests[r].Fetched? ==>
          FetchedWell(cfg, events, r, s.requests[r].id, s.requests[r].suggestion.account))
    && (forall k :: 0 <= k < |s.db.changes| && s.db.changes[k].suggestion.Some? ==>
          PublishedWell(cfg, events, s.db.changes[k].suggestion.value, s.db.changes[k].account))
  }

  lemma FetchedWellStays(
    cfg: Config, events: seq<Event>, e: Event, r: RequestId, id: SuggestionId, account: AccountId)
    requires FetchedWell(cfg, events, r, id, account)
    ensures FetchedWell(cfg, events + [e], r, id, account)
    ensures e == Commit(r) ==> PublishedWell(cfg, events + [e], id, account)
  {
    hide LastReview, MarkedDuring;
    var n: nat :| ApprovedFetch(cfg, events, n, id, account) && events[n].request == r;
    assert (events + [e])[..n] == events[..n];
    assert ApprovedFetch(cfg, events + [e], n, id, account);
    assert (events + [e])[|events|] == e;
  }

  lemma PublishedWellStays(cfg: Config, events: seq<Event>, e: Event, id: SuggestionId, account: AccountId)
    requires PublishedWell(cfg, events, id, account)
    ensures PublishedWell(cfg, events + [e], id, account)
  {
    hide LastReview, MarkedDuring;
    var n: nat, m: nat :|
      n < m < |events| && ApprovedFetch(cfg, events, n, id, account) && events[m] == Commit(events[n].request);
    assert (events + [e])[..n] == events[..n];
    assert ApprovedFetch(cfg, events + [e], n, id, account) && (events + [e])[m] == events[m];
  }

  /** A step that lets a request fetch a suggestion. */
  lemma FetchNow(cfg: Config, s: State, e: Event, r: RequestId)
    requires var t := Step(cfg, s, e); r in t.requests && t.requests[r].Fetched?
    requires !(r in s.requests && s.requests[r] == Step(cfg, s, e).requests[r])
    ensures e.Fetch? && e.request == r
    ensures var q := Step(cfg, s, e).requests[r];
      && e.id == q.id && e.target == q.suggestion.account
      && e.id in s.suggestions && s.suggestions[e.id].status == Approved
  {
    hide Apply, Load, Stale;
  }

  /** A step that appends a row naming a suggestion. */
  lemma RowNow(cfg: Config, s: State, e: Event, k: nat)
    requires k < |Step(cfg, s, e).db.changes| && Step(cfg, s, e).db.changes[k].suggestion.Some?
    requires !(k < |s.db.changes|)
    ensures e.Commit? && e.request in s.requests && s.requests[e.request].Fetched?
    ensures var row, q := Step(cfg, s, e).db.changes[k], s.requests[e.request];
      row.suggestion == Some(q.id) && row.account == q.suggestion.account
  {
    hide Merge, Stale;
  }

  lemma {:induction false} RunFounded(cfg: Config, events: seq<Event>)
    ensures Founded(cfg, events, Run(cfg, Start, events))
    decreases |events|
  {
    hide Step, FetchedWell, PublishedWell;
    if events != [] {
      var front, e := events[..|events| - 1], events[|events| - 1];
      RunFounded(cfg, front);
      RunAppend(cfg, Start, front, [e]);
      assert front + [e] == events;
      assert Run(cfg, Start, events) == Step(cfg, Run(cfg, Start, front), e);
      StepFounded(cfg, front, e);
    }
  }

  lemma StepFounded(cfg: Config, front: seq<Event>, e: Event)
    requires Founded(cfg, front, Run(cfg, Start, front))
    ensures Founded(cfg, front + [e], Step(cfg, Run(cfg, Start, front), e))
  {
    hide Step, Run, FetchedWell, PublishedWell;
    var s := Run(cfg, Start, front);
    var t := Step(cfg, s, e);
    StepAppends(cfg, s, e);
    forall r | r in t.requests && t.requests[r].Fetched?
      ensures FetchedWell(cfg, front + [e], r, t.requests[r].id, t.requests[r].suggestion.account)
    {
      var q := t.requests[r];
      if r in s.requests && s.requests[r] == q {
        FetchedWellStays(cfg, front, e, r, q.id, q.suggestion.account);
      } else {
        FetchNow(cfg, s, e, r);
        StartInv(cfg);
        ApprovedByReview(cfg, Start, front, q.id);
        FetchedWellNow(cfg, front, e, q.id);
      }
    }
    forall k | 0 <= k < |t.db.changes| && t.db.changes[k].suggestion.Some?
      ensures PublishedWell(cfg, front + [e], t.db.changes[k].suggestion.value, t.db.changes[k].account)
    {
      if k < |s.db.changes| {
        assert t.db.changes[k] == s.db.changes[k];
        PublishedWellStays(cfg, front, e, t.db.changes[k].suggestion.value, t.db.changes[k].account);
      } else {
        RowNow(cfg, s, e, k);
        var q := s.requests[e.request];
        FetchedWellStays(cfg, front, e, e.request, q.id, q.suggestion.account);
      }
    }
  }

  lemma FetchedWellNow(cfg: Config, front: seq<Event>, e: Event, id: SuggestionId)
    requires e.Fetch? && e.id == id
    requires LastReview(front, id) == Some(true) && !MarkedDuring(cfg, Start, front, id)
    ensures FetchedWell(cfg, front + [e], e.request, id, e.target)
  {
    hide LastReview, MarkedDuring;
    assert (front + [e])[..|front|] == front;
    assert ApprovedFetch(cfg, front + [e], |front|, id, e.target);
  }

  /**
   * In every run, a row that names a suggestion was committed by a request that fetched it for the
   * row's account, when its last review had approved it and nothing had marked it.
   */
  lemma RowsWereApproved(cfg: Config, events: seq<Event>, k: nat)
    requires var changes := Run(cfg, Start, events).db.changes; k < |changes| && changes[k].suggestion.Some?
    ensures var row := Run(cfg, Start, events).db.changes[k];
      PublishedWell(cfg, events, row.suggestion.value, row.account)
  {
    hide Run, PublishedWell, FetchedWell;
    RunFounded(cfg, events);
  }

  lemma {:induction false} ReviewedByEvent(events: seq<Event>, id: SuggestionId)
    requires LastReview(events, id).Some?
    ensures Review(id, LastReview(events, id).value) in events
    decreases |events|
  {
    if LastReview(events[1..], id).Some? {
      ReviewedByEvent(events[1..], id);
    }
  }

  /** Without an approval there is no row. */
  lemma NothingUnapproved(cfg: Config, events: seq<Event>, id: SuggestionId, k: nat)
    requires Review(id, true) !in events && k < |Run(cfg, Start, events).db.changes|
    ensures Run(cfg, Start, events).db.changes[k].suggestion != Some(id)
  {
    hide Run, MarkedDuring, LastReview;
    var row := Run(cfg, Start, events).db.changes[k];
    if row.suggestion == Some(id) {
      RowsWereApproved(cfg, events, k);
      var n: nat, m: nat :|
        n < m < |events| && ApprovedFetch(cfg, events, n, id, row.account) && events[m] == Commit(events[n].request);
      ReviewedByEvent(events[..n], id);
    }
  }

  /** A request that has committed appends nothing more until it fetches again. */
  lemma CommitsOnce(cfg: Config, s: State, r: RequestId, between: seq<Event>)
    requires forall e :: e in between ==> !(e.Fetch? && e.request == r)
    ensures !Publishes(cfg, Run(cfg, Step(cfg, s, Commit(r)), between), r)
  {
    hide Step, Run;
    SpentByCommit(cfg, s, r);
    SpentStays(cfg, Step(cfg, s, Commit(r)), between, r);
    SpentAppendsNothing(cfg, Run(cfg, Step(cfg, s, Commit(r)), between), r);
  }

  predicate Spent(s: State, r: RequestId) {
    r in s.requests ==> s.requests[r].Committed?
  }

  lemma SpentByCommit(cfg: Config, s: State, r: RequestId)
    ensures Spent(Step(cfg, s, Commit(r)), r)
  {
    hide Apply, Load, Stale;
  }

  lemma {:induction false} SpentStays(cfg: Config, s: State, events: seq<Event>, r: RequestId)
    requires Spent(s, r) && forall e :: e in events ==> !(e.Fetch? && e.request == r)
    ensures Spent(Run(cfg, s, events), r)
    decreases |events|
  {
    hide Step;
    if events != [] {
      assert events[0] in events;
      SpentByStep(cfg, s, events[0], r);
      SpentStays(cfg, Step(cfg, s, events[0]), events[1..], r);
    }
  }

  lemma SpentByStep(cfg: Config, s: State, e: Event, r: RequestId)
    requires Spent(s, r) && !(e.Fetch? && e.request == r)
    ensures Spent(Step(cfg, s, e), r)
  {
    hide Apply, Load, Stale;
  }

  lemma SpentAppendsNothing(cfg: Config, s: State, r: RequestId)
    requires Spent(s, r)
    ensures !Publishes(cfg, s, r)
  {
    hide Apply, Load, Stale;
  }

  // ----- Every patch is logged -----

  function PatchesOf(events: seq<Event>): seq<(AccountId, Fields)>
    decreases |events|
  {
    if events == [] then []
    else
      var before, last := PatchesOf(events[..|events| - 1]), events[|events| - 1];
      if last.Patch? then before + [(last.account, last.patch)] else before
  }

  /** The rows that do not come from a suggestion, by account and payload. */
  function PatchRows(changes: seq<Change>): seq<(AccountId, Fields)>
    decreases |changes|
  {
    if changes == [] then []
    else
      var before, last := PatchRows(changes[..|changes| - 1]), changes[|changes| - 1];
      if last.suggestion.None? then before + [(last.account, last.payload)] else before
  }

  /** What one step adds to the log: a patch its row, a commit at most one for its suggestion, others none. */
  lemma StepLogs(cfg: Config, s: State, e: Event)
    ensures var before, after := s.db.changes, Step(cfg, s, e).db.changes;
      && (e.Patch? ==>
            && |after| == |before| + 1 && after[..|before|] == before
            && after[|before|].account == e.account && after[|before|].suggestion == None
            && after[|before|].payload == e.patch)
      && (!e.Patch? && after != before ==>
            |after| == |before| + 1 && after[..|before|] == before && after[|before|].suggestion.Some?)
  {
    hide Merge, Stale;
  }

  lemma {:induction false} PatchesAreLogged(cfg: Config, events: seq<Event>)
    ensures PatchRows(Run(cfg, Start, events).db.changes) == PatchesOf(events)
    decreases |events|
  {
    hide Step;
    if events != [] {
      var front, e := events[..|events| - 1], events[|events| - 1];
      PatchesAreLogged(cfg, front);
      RunAppend(cfg, Start, front, [e]);
      assert front + [e] == events;
      assert Run(cfg, Start, events) == Step(cfg, Run(cfg, Start, front), e);
      StepLogs(cfg, Run(cfg, Start, front), e);
    }
  }

  predicate Touches(e: Event, a: AccountId) {
    (e.Visit? && e.account == a) || (e.Patch? && e.account == a)
  }

  /** A profile appears when its account visits, patches, or gets a row. */
  lemma StepCreates(cfg: Config, s: State, e: Event, a: AccountId)
    ensures var t := Step(cfg, s, e);
      a in t.db.profiles <==>
        || a in s.db.profiles || Touches(e, a)
        || (|t.db.changes| > |s.db.changes| && t.db.changes[|s.db.changes|].account == a)
  {
    hide Merge, Stale;
  }

  ghost predicate HasAccountRow(changes: seq<Change>, a: AccountId) {
    exists k :: 0 <= k < |changes| && changes[k].account == a
  }

  ghost predicate Touched(events: seq<Event>, a: AccountId) {
    exists k :: 0 <= k < |events| && Touches(events[k], a)
  }

  /** An account has a profile exactly when it has visited, patched, or had a suggestion published. */
  lemma {:induction false} ProfileExistsIff(cfg: Config, events: seq<Event>, a: AccountId)
    ensures var db := Run(cfg, Start, events).db;
      a in db.profiles <==> Touched(events, a) || HasAccountRow(db.changes, a)
    decreases |events|
  {
    hide Step, Touches;
    if events != [] {
      var front, e := events[..|events| - 1], events[|events| - 1];
      var s := Run(cfg, Start, front);
      ProfileExistsIff(cfg, front, a);
      RunAppend(cfg, Start, front, [e]);
      assert front + [e] == events;
      assert Run(cfg, Start, events) == Step(cfg, s, e);
      StepCreates(cfg, s, e, a);
      StepLogs(cfg, s, e);
      TouchedLast(front, e, a);
      RowLast(s.db.changes, Step(cfg, s, e).db.changes, a);
    }
  }

  lemma TouchedLast(front: seq<Event>, e: Event, a: AccountId)
    ensures Touched(front + [e], a) <==> Touched(front, a) || Touches(e, a)
  {
    var events := front + [e];
    assert events[|front|] == e;
    if Touched(front, a) {
      var k :| 0 <= k < |front| && Touches(front[k], a);
      assert events[k] == front[k];
    }
  }

  lemma RowLast(before: seq<Change>, after: seq<Change>, a: AccountId)
    requires after == before || (|after| == |before| + 1 && after[..|before|] == before)
    ensures HasAccountRow(after, a) <==>
            HasAccountRow(before, a) || (|after| > |before| && after[|before|].account == a)
  {
    if HasAccountRow(before, a) {
      var k :| 0 <= k < |before| && before[k].account == a;
      assert after[k] == before[k];
    }
  }

  // ----- The life of a request -----

  /**
   * A request is created by a fetch that may pass, committed by a commit whose version check passes,
   * and ended by a commit whose check fails or by its mark; nothing else concerns it.
   */
  lemma RequestLife(cfg: Config, s: State, e: Event, r: RequestId)
    ensures var t := Step(cfg, s, e);
      && (r !in s.requests ==>
            (r in t.requests <==> e.Fetch? && e.request == r && MayFetch(s, r, e.id, e.target))
            && (r in t.requests ==> t.requests[r] == Fetched(e.id, s.suggestions[e.id])))
      && (r in s.requests && s.requests[r].Fetched? ==>
            if e != Commit(r) then r in t.requests && t.requests[r] == s.requests[r]
            else if Stale(cfg, s.db, s.requests[r].suggestion) then r !in t.requests
            else r in t.requests && t.requests[r] == Committed(s.requests[r].id))
      && (r in s.requests && s.requests[r].Committed? ==>
            if e != Mark(r) then r in t.requests && t.requests[r] == s.requests[r]
            else r !in t.requests)
  {
    hide Apply, Load, Stale;
  }

  lemma StartRecorded()
    ensures Recorded(Start)
  {
  }

  lemma StepKeepsAll(cfg: Config, s: State, e: Event)
    requires Inv(cfg, s) && Recorded(s)
    ensures Inv(cfg, Step(cfg, s, e)) && Recorded(Step(cfg, s, e))
  {
    hide Step, Recorded, Traced, Logged;
    RunInv(cfg, s, [e]);
    assert Run(cfg, s, [e]) == Step(cfg, s, e);
    StepRecorded(cfg, s, e);
  }

  lemma TracedAt(cfg: Config, s: State, r: RequestId)
    requires Inv(cfg, s) && r in s.requests && s.requests[r].Fetched?
    ensures s.requests[r].id in s.suggestions
    ensures SameSuggestion(s.requests[r].suggestion, s.suggestions[s.requests[r].id])
  {
  }

  lemma SameStale(cfg: Config, db: Database, g: Suggestion, h: Suggestion)
    requires SameSuggestion(g, h)
    ensures Stale(cfg, db, g) == Stale(cfg, db, h)
  {
  }

  /** The approval is checked when a suggestion is fetched: one rejected since is still published. */
  lemma RejectedStillPublishes(cfg: Config, id: SuggestionId, account: AccountId, patch: Fields)
    ensures var s := Run(cfg, Start,
              [Visit(account), Suggest(id, account, Some(1), patch), Review(id, true), Fetch(0, id, account),
               Review(id, false), Commit(0)]);
      && id in s.suggestions && s.suggestions[id].status == Rejected
      && |s.db.changes| == 1 && s.db.changes[0].suggestion == Some(id)
  {
    hide Merge, Run;
    var e := [Visit(account), Suggest(id, account, Some(1), patch), Review(id, true), Fetch(0, id, account),
              Review(id, false), Commit(0)];
    var g := Suggestion(account, Approved, Some(1), patch);
    var s1 := Step(cfg, Start, e[0]);
    var s2 := Step(cfg, s1, e[1]);
    var s3 := Step(cfg, s2, e[2]);
    assert s3.suggestions == map[id := g] && s3.requests == map[];
    assert s3.db == Database(map[account := Profile(1, cfg.initial)], []);
    RejectedThenCommitted(cfg, s3, id, g);
    RunSix(cfg, e);
  }

  lemma RejectedThenCommitted(cfg: Config, s: State, id: SuggestionId, g: Suggestion)
    requires s.suggestions == map[id := g] && s.requests == map[] && g.status == Approved && g.basedOn == Some(1)
    requires s.db == Database(map[g.account := Profile(1, cfg.initial)], [])
    ensures var t := Step(cfg, Step(cfg, Step(cfg, s, Fetch(0, id, g.account)), Review(id, false)), Commit(0));
      && id in t.suggestions && t.suggestions[id].status == Rejected
      && |t.db.changes| == 1 && t.db.changes[0].suggestion == Some(id)
  {
    hide Merge;
    var s1 := Step(cfg, s, Fetch(0, id, g.account));
    assert s1.requests == map[0 := Fetched(id, g)] && s1.db == s.db;
    var s2 := Step(cfg, s1, Review(id, false));
    assert s2.requests == s1.requests && s2.db == s.db && s2.suggestions[id].status == Rejected;
  }

  lemma RunSix(cfg: Config, e: seq<Event>)
    requires |e| == 6
    ensures Run(cfg, Start, e) == Step(cfg, Step(cfg, Step(cfg, Step(cfg, Step(cfg, Step(cfg, Start,
              e[0]), e[1]), e[2]), e[3]), e[4]), e[5])
  {
    hide Step;
    RunOne(cfg, Start, e);
    var s := Step(cfg, Start, e[0]);
    RunOne(cfg, s, e[1..]);
    s := Step(cfg, s, e[1]);
    RunOne(cfg, s, e[2..]);
    s := Step(cfg, s, e[2]);
    RunOne(cfg, s, e[3..]);
    s := Step(cfg, s, e[3]);
    RunOne(cfg, s, e[4..]);
    s := Step(cfg, s, e[4]);
    RunOne(cfg, s, e[5..]);
    assert e[5..][1..] == [];
  }

  lemma RunOne(cfg: Config, s: State, e: seq<Event>)
    requires e != []
    ensures Run(cfg, s, e) == Run(cfg, Step(cfg, s, e[0]), e[1..])
    ensures forall k :: 1 <= k < |e| ==> e[1..][k - 1] == e[k]
    ensures forall k :: 1 <= k <= |e| ==> e[1..][k - 1..] == e[k..]
  {
  }
}
