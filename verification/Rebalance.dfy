/** The queue rebalancer: a plan of moves and of duplicates to skip, and its application. */
module Rebalance {
  import opened Bytes
  import opened Ordering

  datatype Status = Queued | Skipped | Other(name: Text)

  /** The `runtimeAccountId` of a task's payload: absent, null, or a text. */
  datatype Account = NoKey | NullValue | Named(text: Text)

  datatype Task = Task(id: nat, queue: Text, kind: Text, status: Status, account: Account)

  /** The names and the queue-resolution function of the task service. */
  datatype Service = Service(defaultQueue: Text, preferenceKind: Text, resolve: (Text, Text) -> Text)

  datatype Move = Move(id: nat, kind: Text, target: Text)

  datatype Group = Group(account: Text, keep: nat, skip: seq<nat>)

  datatype Plan = Plan(
    moves: seq<Move>,
    countsByQueue: seq<(Text, nat)>,
    countsByKind: seq<(Text, nat)>,
    groups: seq<Group>,
    skipped: seq<nat>)

  /** Rows in the order of their primary key. */
  ghost predicate Keyed(rows: seq<Task>) {
    forall i, j :: 0 <= i < j < |rows| ==> rows[i].id < rows[j].id
  }

  // ----- Moves -----

  predicate InDefault(s: Service, t: Task) {
    t.queue == s.defaultQueue && t.status == Queued
  }

  function Target(s: Service, t: Task): Text {
    s.resolve(t.kind, s.defaultQueue)
  }

  predicate Movable(s: Service, t: Task) {
    InDefault(s, t) && Target(s, t) != s.defaultQueue
  }

  function Moves(s: Service, rows: seq<Task>): seq<Move>
    decreases |rows|
  {
    if rows == [] then []
    else
      var t := rows[|rows| - 1];
      var before := Moves(s, rows[..|rows| - 1]);
      if Movable(s, t) then before + [Move(t.id, t.kind, Target(s, t))] else before
  }

  // ----- Counting tables -----

  function Get<V>(table: seq<(Text, V)>, key: Text): Option<V>
    decreases |table|
  {
    if table == [] then None
    else if table[0].0 == key then Some(table[0].1)
    else Get(table[1..], key)
  }

  /** Update an entry in place, or append it. */
  function Set<V>(table: seq<(Text, V)>, key: Text, value: V): seq<(Text, V)>
    decreases |table|
  {
    if table == [] then [(key, value)]
    else if table[0].0 == key then [(key, value)] + table[1..]
    else [table[0]] + Set(table[1..], key, value)
  }

  function KeyOf<V>(entry: (Text, V)): Text {
    entry.0
  }

  function Tally(keys: seq<Text>): seq<(Text, nat)>
    decreases |keys|
  {
    if keys == [] then []
    else
      var before, key := Tally(keys[..|keys| - 1]), keys[|keys| - 1];
      Set(before, key, Get(before, key).GetOr(0) + 1)
  }

  function Total(table: seq<(Text, nat)>): nat
    decreases |table|
  {
    if table == [] then 0 else table[0].1 + Total(table[1..])
  }

  lemma {:induction false} TotalSet(table: seq<(Text, nat)>, key: Text, value: nat)
    ensures Total(Set(table, key, value)) + Get(table, key).GetOr(0) == Total(table) + value
    decreases |table|
  {
    if table != [] && table[0].0 != key {
      TotalSet(table[1..], key, value);
    }
  }

  lemma {:induction false} GetSet<V>(table: seq<(Text, V)>, key: Text, value: V, k: Text)
    ensures Get(Set(table, key, value), k) == if k == key then Some(value) else Get(table, k)
    decreases |table|
  {
    if table != [] && table[0].0 != key {
      GetSet(table[1..], key, value, k);
    }
  }

  lemma {:induction false} TotalInsert(entry: (Text, nat), table: seq<(Text, nat)>)
    ensures Total(Insert(KeyOf, entry, table)) == entry.1 + Total(table)
    decreases |table|
  {
    if table != [] && !Less(entry.0, table[0].0) {
      TotalInsert(entry, table[1..]);
    }
  }

  lemma {:induction false} TotalSort(table: seq<(Text, nat)>)
    ensures Total(SortBy(KeyOf, table)) == Total(table)
    decreases |table|
  {
    if table != [] {
      TotalSort(table[1..]);
      TotalInsert(table[0], SortBy(KeyOf, table[1..]));
    }
  }

  lemma CountLast(keys: seq<Text>, k: Text)
    requires keys != []
    ensures var front, key := keys[..|keys| - 1], keys[|keys| - 1];
      multiset(keys)[k] == multiset(front)[k] + (if k == key then 1 else 0)
  {
    assert keys == keys[..|keys| - 1] + [keys[|keys| - 1]];
  }

  /** A tally holds each key's number of occurrences, and its total is their number. */
  lemma {:induction false} TallyCounts(keys: seq<Text>, k: Text)
    ensures Total(Tally(keys)) == |keys|
    ensures Get(Tally(keys), k).GetOr(0) == multiset(keys)[k]
    decreases |keys|
  {
    hide Set, Get, Total;
    if keys == [] {
      NothingTallied(k);
    } else {
      var front, key := keys[..|keys| - 1], keys[|keys| - 1];
      var before := Tally(front);
      TallyCounts(front, k);
      TallyCounts(front, key);
      CountLast(keys, k);
      TotalSet(before, key, Get(before, key).GetOr(0) + 1);
      GetSet(before, key, Get(before, key).GetOr(0) + 1, k);
    }
  }

  lemma NothingTallied(k: Text)
    ensures Total([]) == 0 && Get<nat>([], k) == None
  {
  }

  // ----- Duplicate preference tasks -----

  /** A queued preference task that belongs to the preference queue and names an account. */
  predicate Preference(s: Service, t: Task) {
    && t.kind == s.preferenceKind && t.status == Queued && !t.account.NoKey?
    && s.resolve(s.preferenceKind, t.queue) == s.resolve(s.preferenceKind, s.defaultQueue)
  }

  /** `str(...)` of the account: a null reads as the text None. */
  function AccountText(a: Account): Text
    requires !a.NoKey?
  {
    if a.NullValue? then [78, 111, 110, 101] else a.text
  }

  predicate InGroup(s: Service, t: Task, account: Text) {
    Preference(s, t) && AccountText(t.account) == account
  }

  /** The ids of an account's preference tasks, in table order. */
  function GroupIds(s: Service, rows: seq<Task>, account: Text): seq<nat>
    decreases |rows|
  {
    if rows == [] then []
    else
      var t := rows[|rows| - 1];
      var before := GroupIds(s, rows[..|rows| - 1], account);
      if InGroup(s, t, account) then before + [t.id] else before
  }

  /** The grouping dictionary, in insertion order. */
  function Grouped(s: Service, rows: seq<Task>): seq<(Text, seq<nat>)>
    decreases |rows|
  {
    if rows == [] then []
    else
      var t := rows[|rows| - 1];
      var before := Grouped(s, rows[..|rows| - 1]);
      if !Preference(s, t) then before
      else
        var account := AccountText(t.account);
        Set(before, account, Get(before, account).GetOr([]) + [t.id])
  }

  function GroupsOf(table: seq<(Text, seq<nat>)>): seq<Group>
    decreases |table|
  {
    if table == [] then []
    else
      var (account, ids) := table[0];
      (if |ids| <= 1 then [] else [Group(account, ids[0], ids[1..])]) + GroupsOf(table[1..])
  }

  function SkippedOf(table: seq<(Text, seq<nat>)>): seq<nat>
    decreases |table|
  {
    if table == [] then []
    else
      var ids := table[0].1;
      (if |ids| <= 1 then [] else ids[1..]) + SkippedOf(table[1..])
  }

  /** What the entry at `i` adds to what has been collected before it. */
  lemma NextEntry(table: seq<(Text, seq<nat>)>, i: nat, groups: seq<Group>, skipped: seq<nat>)
    requires i < |table|
    ensures var (account, ids) := table[i];
      if |ids| <= 1 then
        GroupsOf(table[i..]) == GroupsOf(table[i + 1..]) && SkippedOf(table[i..]) == SkippedOf(table[i + 1..])
      else
        && groups + GroupsOf(table[i..]) == groups + [Group(account, ids[0], ids[1..])] + GroupsOf(table[i + 1..])
        && skipped + SkippedOf(table[i..]) == skipped + ids[1..] + SkippedOf(table[i + 1..])
  {
    var (account, ids) := table[i];
    assert table[i..][1..] == table[i + 1..];
    if |ids| > 1 {
      Associative(groups, [Group(account, ids[0], ids[1..])], GroupsOf(table[i + 1..]));
      Associative(skipped, ids[1..], SkippedOf(table[i + 1..]));
    }
  }

  lemma EntriesEnd(table: seq<(Text, seq<nat>)>, groups: seq<Group>, skipped: seq<nat>)
    ensures table[0..] == table
    ensures groups + GroupsOf(table[|table|..]) == groups && skipped + SkippedOf(table[|table|..]) == skipped
  {
  }

  function PlanFor(s: Service, rows: seq<Task>): Plan {
    var moves := Moves(s, rows);
    var table := SortBy(KeyOf, Grouped(s, rows));
    Plan(
      moves,
      SortBy(KeyOf, Tally(Targets(moves))),
      SortBy(KeyOf, Tally(Kinds(moves))),
      GroupsOf(table),
      SkippedOf(table))
  }

  function Targets(moves: seq<Move>): (k: seq<Text>)
    ensures |k| == |moves|
  {
    seq(|moves|, i requires 0 <= i < |moves| => moves[i].target)
  }

  function Kinds(moves: seq<Move>): (k: seq<Text>)
    ensures |k| == |moves|
  {
    seq(|moves|, i requires 0 <= i < |moves| => moves[i].kind)
  }

  // ----- Applying a plan -----

  function SetQueue(rows: seq<Task>, id: nat, queue: Text): (r: seq<Task>)
    ensures |r| == |rows|
  {
    seq(|rows|, i requires 0 <= i < |rows| => if rows[i].id == id then rows[i].(queue := queue) else rows[i])
  }

  function ApplyMoves(rows: seq<Task>, moves: seq<Move>): (r: seq<Task>)
    ensures |r| == |rows|
    decreases |moves|
  {
    if moves == [] then rows else ApplyMoves(SetQueue(rows, moves[0].id, moves[0].target), moves[1..])
  }

  function SkipTasks(rows: seq<Task>, ids: seq<nat>): (r: seq<Task>)
    ensures |r| == |rows|
  {
    seq(|rows|, i requires 0 <= i < |rows| => if rows[i].id in ids then rows[i].(status := Skipped) else rows[i])
  }

  function Applied(rows: seq<Task>, plan: Plan): (r: seq<Task>)
    ensures |r| == |rows|
  {
    SkipTasks(ApplyMoves(rows, plan.moves), plan.skipped)
  }

  // ----- What a plan says about one row -----

  /** The queue that a run of moves leaves a task in. */
  function LastTarget(moves: seq<Move>, id: nat, queue: Text): Text
    decreases |moves|
  {
    if moves == [] then queue
    else LastTarget(moves[1..], id, if moves[0].id == id then moves[0].target else queue)
  }

  lemma {:induction false} ApplyMovesRow(rows: seq<Task>, moves: seq<Move>, i: nat)
    requires i < |rows|
    ensures ApplyMoves(rows, moves)[i] == rows[i].(queue := LastTarget(moves, rows[i].id, rows[i].queue))
    decreases |moves|
  {
    if moves != [] {
      ApplyMovesRow(SetQueue(rows, moves[0].id, moves[0].target), moves[1..], i);
    }
  }

  lemma {:induction false} LastTargetAppend(a: seq<Move>, b: seq<Move>, id: nat, queue: Text)
    ensures LastTarget(a + b, id, queue) == LastTarget(b, id, LastTarget(a, id, queue))
    decreases |a|
  {
    if a == [] {
      assert a + b == b;
    } else {
      assert (a + b)[1..] == a[1..] + b;
      LastTargetAppend(a[1..], b, id, if a[0].id == id then a[0].target else queue);
    }
  }

  lemma {:induction false} NoRowNoMove(s: Service, rows: seq<Task>, id: nat, queue: Text)
    requires forall i :: 0 <= i < |rows| ==> rows[i].id != id
    ensures LastTarget(Moves(s, rows), id, queue) == queue
    decreases |rows|
  {
    if rows != [] {
      var front, t := rows[..|rows| - 1], rows[|rows| - 1];
      NoRowNoMove(s, front, id, queue);
      LastTargetAppend(Moves(s, front), [Move(t.id, t.kind, Target(s, t))], id, queue);
    }
  }

  /** The plan moves a task exactly if it is movable, and then to its target. */
  lemma {:induction false} PlannedQueue(s: Service, rows: seq<Task>, i: nat, queue: Text)
    requires Keyed(rows) && i < |rows|
    ensures LastTarget(Moves(s, rows), rows[i].id, queue) == if Movable(s, rows[i]) then Target(s, rows[i]) else queue
    decreases |rows|
  {
    hide Movable, Target;
    var n := |rows| - 1;
    var front, t := rows[..n], rows[n];
    LastTargetAppend(Moves(s, front), [Move(t.id, t.kind, Target(s, t))], rows[i].id, queue);
    if i == n {
      NoRowNoMove(s, front, t.id, queue);
    } else {
      PlannedQueue(s, front, i, queue);
    }
  }

  lemma {:induction false} GroupIdsIn(s: Service, rows: seq<Task>, account: Text, id: nat)
    ensures id in GroupIds(s, rows, account) <==>
            exists i :: 0 <= i < |rows| && rows[i].id == id && InGroup(s, rows[i], account)
    decreases |rows|
  {
    hide InGroup;
    if rows != [] {
      var n := |rows| - 1;
      GroupIdsIn(s, rows[..n], account, id);
      if exists i :: 0 <= i < |rows| && rows[i].id == id && InGroup(s, rows[i], account) {
        var i :| 0 <= i < |rows| && rows[i].id == id && InGroup(s, rows[i], account);
        assert i < n ==> rows[..n][i] == rows[i];
      }
    }
  }

  /** In a keyed table an id stands for one row. */
  lemma RowInGroup(s: Service, rows: seq<Task>, account: Text, i: nat)
    requires Keyed(rows) && i < |rows|
    ensures rows[i].id in GroupIds(s, rows, account) <==> InGroup(s, rows[i], account)
  {
    hide InGroup;
    GroupIdsIn(s, rows, account, rows[i].id);
    if rows[i].id in GroupIds(s, rows, account) {
      var j :| 0 <= j < |rows| && rows[j].id == rows[i].id && InGroup(s, rows[j], account);
      assert j == i;
    }
  }

  lemma {:induction false} GroupIdsAscend(s: Service, rows: seq<Task>, account: Text)
    requires Keyed(rows)
    ensures var ids := GroupIds(s, rows, account); forall i, j :: 0 <= i < j < |ids| ==> ids[i] < ids[j]
    decreases |rows|
  {
    hide InGroup;
    if rows != [] {
      var n := |rows| - 1;
      var front := GroupIds(s, rows[..n], account);
      GroupIdsAscend(s, rows[..n], account);
      forall i | 0 <= i < |front|
        ensures front[i] < rows[n].id
      {
        GroupIdsIn(s, rows[..n], account, front[i]);
      }
    }
  }

  // ----- The grouping table -----

  lemma {:induction false} GetIn<V>(table: seq<(Text, V)>, key: Text, value: V)
    requires Distinct(KeyOf, table)
    ensures (key, value) in table <==> Get(table, key) == Some(value)
    decreases |table|
  {
    if table != [] {
      assert Distinct(KeyOf, table[1..]);
      GetIn(table[1..], key, value);
      assert table == [table[0]] + table[1..];
    }
  }

  lemma {:induction false} SetKeys<V>(table: seq<(Text, V)>, key: Text, value: V, j: nat)
    requires j < |Set(table, key, value)|
    ensures var changed := Set(table, key, value)[j].0;
      changed == key || exists i :: 0 <= i < |table| && table[i].0 == changed
    decreases |table|
  {
    if table != [] && table[0].0 != key && j > 0 {
      SetKeys(table[1..], key, value, j - 1);
      if Set(table, key, value)[j].0 != key {
        var i :| 0 <= i < |table[1..]| && table[1..][i].0 == Set(table[1..], key, value)[j - 1].0;
        assert table[i + 1].0 == Set(table, key, value)[j].0;
      }
    } else if table != [] && j > 0 {
      assert table[j].0 == Set(table, key, value)[j].0;
    } else if table != [] {
      assert table[0].0 == Set(table, key, value)[j].0;
    }
  }

  lemma {:induction false} SetDistinct<V>(table: seq<(Text, V)>, key: Text, value: V)
    requires Distinct(KeyOf, table)
    ensures Distinct(KeyOf, Set(table, key, value))
    decreases |table|
  {
    if table != [] && table[0].0 != key {
      assert Distinct(KeyOf, table[1..]);
      SetDistinct(table[1..], key, value);
      var tail := Set(table[1..], key, value);
      forall j | 0 <= j < |tail|
        ensures KeyOf(tail[j]) != KeyOf(table[0])
      {
        SetKeys(table[1..], key, value, j);
        if tail[j].0 != key {
          var i :| 0 <= i < |table[1..]| && table[1..][i].0 == tail[j].0;
          assert KeyOf(table[0]) != KeyOf(table[i + 1]);
        }
      }
    }
  }

  lemma {:induction false} TallyDistinct(keys: seq<Text>)
    ensures Distinct(KeyOf, Tally(keys))
    decreases |keys|
  {
    if keys != [] {
      var before := Tally(keys[..|keys| - 1]);
      TallyDistinct(keys[..|keys| - 1]);
      SetDistinct(before, keys[|keys| - 1], Get(before, keys[|keys| - 1]).GetOr(0) + 1);
    }
  }

  /** Sorting a table leaves every entry where a lookup finds it. */
  lemma GetSort<V>(table: seq<(Text, V)>, key: Text)
    requires Distinct(KeyOf, table)
    ensures Get(SortBy(KeyOf, table), key) == Get(table, key)
  {
    SortAscending(KeyOf, table);
    AscendingIsDistinct(SortBy(KeyOf, table));
    if Get(table, key).Some? {
      GetIn(table, key, Get(table, key).value);
      SortMember(KeyOf, table, (key, Get(table, key).value));
      GetIn(SortBy(KeyOf, table), key, Get(table, key).value);
    } else if Get(SortBy(KeyOf, table), key).Some? {
      var value := Get(SortBy(KeyOf, table), key).value;
      GetIn(SortBy(KeyOf, table), key, value);
      SortMember(KeyOf, table, (key, value));
      GetIn(table, key, value);
    }
  }

  lemma AscendingIsDistinct<V>(table: seq<(Text, V)>)
    requires Ascending(KeyOf, table)
    ensures Distinct(KeyOf, table)
  {
    forall i, j | 0 <= i < j < |table|
      ensures KeyOf(table[i]) != KeyOf(table[j])
    {
      LessTotal(KeyOf(table[i]), KeyOf(table[j]));
    }
  }

  /** The dictionary holds, for each account with tasks, the ids of its group. */
  lemma {:induction false} GroupedHolds(s: Service, rows: seq<Task>, account: Text)
    ensures Distinct(KeyOf, Grouped(s, rows))
    ensures var ids := GroupIds(s, rows, account);
      Get(Grouped(s, rows), account) == if ids == [] then None else Some(ids)
    decreases |rows|
  {
    hide Preference;
    if rows != [] {
      var n := |rows| - 1;
      var before, t := Grouped(s, rows[..n]), rows[n];
      GroupedHolds(s, rows[..n], account);
      if Preference(s, t) {
        PreferenceHasAccount(s, t);
        var key := AccountText(t.account);
        GroupedHolds(s, rows[..n], key);
        var value := Get(before, key).GetOr([]) + [t.id];
        SetDistinct(before, key, value);
        GetSet(before, key, value, account);
      }
    }
  }

  lemma PreferenceHasAccount(s: Service, t: Task)
    requires Preference(s, t)
    ensures !t.account.NoKey?
  {
  }

  lemma {:induction false} SkippedIn(table: seq<(Text, seq<nat>)>, id: nat)
    ensures id in SkippedOf(table) <==> exists e :: e in table && |e.1| > 1 && id in e.1[1..]
    decreases |table|
  {
    if table != [] {
      SkippedIn(table[1..], id);
      assert table == [table[0]] + table[1..];
      assert forall e :: e in table <==> e == table[0] || e in table[1..];
    }
  }

  // ----- The effect of a plan on its table -----

  /** The lowest id of the task's account group. */
  function Lowest(s: Service, rows: seq<Task>, t: Task): nat
    requires Preference(s, t)
  {
    var ids := GroupIds(s, rows, AccountText(t.account));
    if ids == [] then t.id else ids[0]
  }

  /** It belongs to a task of the group, and no task of the group has a lower one. */
  lemma LowestIsLeast(s: Service, rows: seq<Task>, i: nat)
    requires Keyed(rows) && i < |rows| && Preference(s, rows[i])
    ensures var account := AccountText(rows[i].account); var least := Lowest(s, rows, rows[i]);
      && (exists j :: 0 <= j < |rows| && InGroup(s, rows[j], account) && rows[j].id == least)
      && (forall j :: 0 <= j < |rows| && InGroup(s, rows[j], account) ==> least <= rows[j].id)
  {
    hide GroupIds, Preference;
    PreferenceHasAccount(s, rows[i]);
    var account := AccountText(rows[i].account);
    var ids := GroupIds(s, rows, account);
    RowInGroup(s, rows, account, i);
    GroupIdsIn(s, rows, account, ids[0]);
    GroupIdsAscend(s, rows, account);
    forall j | 0 <= j < |rows| && InGroup(s, rows[j], account)
      ensures ids[0] <= rows[j].id
    {
      RowInGroup(s, rows, account, j);
      InTail(ids, rows[j].id);
    }
  }

  /** The plan skips exactly the group members that are not their group's lowest. */
  lemma PlannedSkip(s: Service, rows: seq<Task>, i: nat)
    requires Keyed(rows) && i < |rows|
    ensures rows[i].id in PlanFor(s, rows).skipped <==>
            Preference(s, rows[i]) && rows[i].id != Lowest(s, rows, rows[i])
  {
    hide Moves, Tally, Targets, Kinds, GroupsOf, SkippedOf, Grouped, GroupIds, SortBy, Preference;
    var table, t := SortBy(KeyOf, Grouped(s, rows)), rows[i];
    SkippedIn(table, t.id);
    if t.id in PlanFor(s, rows).skipped {
      var e :| e in table && |e.1| > 1 && t.id in e.1[1..];
      EntryIsGroup(s, rows, e.0, e.1);
      InTail(e.1, t.id);
      RowInGroup(s, rows, e.0, i);
      GroupIdsAscend(s, rows, e.0);
    }
    if Preference(s, t) && t.id != Lowest(s, rows, t) {
      PreferenceHasAccount(s, t);
      var account := AccountText(t.account);
      var ids := GroupIds(s, rows, account);
      RowInGroup(s, rows, account, i);
      EntryIsGroup(s, rows, account, ids);
      InTail(ids, t.id);
      assert (account, ids) in table;
    }
  }

  lemma InTail(ids: seq<nat>, id: nat)
    requires ids != []
    ensures id in ids <==> id == ids[0] || id in ids[1..]
    ensures id in ids[1..] ==> exists j :: 1 <= j < |ids| && ids[j] == id
  {
    assert ids == [ids[0]] + ids[1..];
    if id in ids[1..] {
      var tail := ids[1..];
      var j :| 0 <= j < |tail| && tail[j] == id;
      assert ids[j + 1] == id;
    }
  }

  /** An entry of the sorted table is an account with its whole, nonempty group. */
  lemma EntryIsGroup(s: Service, rows: seq<Task>, account: Text, ids: seq<nat>)
    ensures (account, ids) in SortBy(KeyOf, Grouped(s, rows)) <==> ids == GroupIds(s, rows, account) && ids != []
  {
    hide Grouped, GroupIds, SortBy;
    GroupedHolds(s, rows, account);
    SortMember(KeyOf, Grouped(s, rows), (account, ids));
    GetIn(Grouped(s, rows), account, ids);
  }

  /**
   * What applying the plan does to a row: a movable task goes to its target queue; a preference
   * task that is not the lowest of its account is skipped; nothing else changes.
   */
  lemma RowAfter(s: Service, rows: seq<Task>, i: nat)
    requires Keyed(rows) && i < |rows|
    ensures var t := rows[i];
      Applied(rows, PlanFor(s, rows))[i] == t.(
        queue := if Movable(s, t) then Target(s, t) else t.queue,
        status := if Preference(s, t) && t.id != Lowest(s, rows, t) then Skipped else t.status)
  {
    hide Moves, Tally, GroupsOf, SkippedOf, Grouped, Preference, Movable, Lowest;
    ApplyMovesRow(rows, Moves(s, rows), i);
    PlannedQueue(s, rows, i, rows[i].queue);
    PlannedSkip(s, rows, i);
  }

  lemma AppliedKeyed(s: Service, rows: seq<Task>)
    requires Keyed(rows)
    ensures Keyed(Applied(rows, PlanFor(s, rows)))
  {
    hide PlanFor, Applied;
    forall i | 0 <= i < |rows|
      ensures Applied(rows, PlanFor(s, rows))[i].id == rows[i].id
    {
      RowAfter(s, rows, i);
    }
  }

  lemma {:induction false} NothingMovable(s: Service, rows: seq<Task>)
    requires forall i :: 0 <= i < |rows| ==> !Movable(s, rows[i])
    ensures Moves(s, rows) == []
    decreases |rows|
  {
    hide Movable;
    if rows != [] {
      NothingMovable(s, rows[..|rows| - 1]);
    }
  }

  /** After the plan, at most the lowest member of a group is still in it. */
  lemma OneLeft(s: Service, rows: seq<Task>, account: Text)
    requires Keyed(rows)
    ensures |GroupIds(s, Applied(rows, PlanFor(s, rows)), account)| <= 1
  {
    hide PlanFor, Applied, GroupIds;
    var after := Applied(rows, PlanFor(s, rows));
    var left, ids := GroupIds(s, after, account), GroupIds(s, rows, account);
    AppliedKeyed(s, rows);
    GroupIdsAscend(s, after, account);
    assert |left| > 1 ==> left[0] in left && left[1] in left;
    forall id | id in left
      ensures ids != [] && id == ids[0]
    {
      GroupIdsIn(s, after, account, id);
      var i :| 0 <= i < |after| && after[i].id == id && InGroup(s, after[i], account);
      StaysLowest(s, rows, i, account);
    }
  }

  /** A row that is in a group after the plan was in it before, as its lowest. */
  lemma StaysLowest(s: Service, rows: seq<Task>, i: nat, account: Text)
    requires Keyed(rows) && i < |rows|
    requires InGroup(s, Applied(rows, PlanFor(s, rows))[i], account)
    ensures InGroup(s, rows[i], account) && Applied(rows, PlanFor(s, rows))[i].id == rows[i].id
    ensures GroupIds(s, rows, account) != [] && rows[i].id == GroupIds(s, rows, account)[0]
  {
    hide PlanFor, Applied, GroupIds;
    RowAfter(s, rows, i);
    RowInGroup(s, rows, account, i);
  }

  lemma {:induction false} NoDuplicates(table: seq<(Text, seq<nat>)>)
    requires forall e :: e in table ==> |e.1| <= 1
    ensures GroupsOf(table) == [] && SkippedOf(table) == []
    decreases |table|
  {
    if table != [] {
      assert table[0] in table;
      assert forall e :: e in table[1..] ==> e in table;
      NoDuplicates(table[1..]);
    }
  }

  /** Collecting again from the table a plan was applied to finds nothing to do. */
  lemma Fixpoint(s: Service, rows: seq<Task>)
    requires Keyed(rows)
    ensures PlanFor(s, Applied(rows, PlanFor(s, rows))) == Plan([], [], [], [], [])
  {
    hide Applied, Moves, Grouped, GroupIds, SortBy, Movable, Preference, Lowest;
    var plan := PlanFor(s, rows);
    var after := Applied(rows, plan);
    forall i | 0 <= i < |after|
      ensures !Movable(s, after[i])
    {
      MovedForGood(s, rows, i);
    }
    NothingMovable(s, after);
    forall e | e in SortBy(KeyOf, Grouped(s, after))
      ensures |e.1| <= 1
    {
      EntryIsGroup(s, after, e.0, e.1);
      OneLeft(s, rows, e.0);
    }
    NoDuplicates(SortBy(KeyOf, Grouped(s, after)));
    EmptyTables();
  }

  lemma EmptyTables()
    ensures SortBy(KeyOf, Tally(Targets([]))) == [] && SortBy(KeyOf, Tally(Kinds([]))) == []
  {
  }

  lemma MovedForGood(s: Service, rows: seq<Task>, i: nat)
    requires Keyed(rows) && i < |rows|
    ensures !Movable(s, Applied(rows, PlanFor(s, rows))[i])
  {
    hide PlanFor, Applied, Preference, Lowest;
    RowAfter(s, rows, i);
  }

  /**
   * Each account with a group keeps exactly its lowest task queued, and only tasks that the plan
   * skips leave the queued state.
   */
  lemma LowestStaysQueued(s: Service, rows: seq<Task>, i: nat)
    requires Keyed(rows) && i < |rows|
    ensures var before, after := rows[i], Applied(rows, PlanFor(s, rows))[i];
      && (Preference(s, before) ==> (after.status == Queued <==> before.id == Lowest(s, rows, before)))
      && (before.status == Queued && after.status != Queued <==> before.id in PlanFor(s, rows).skipped)
      && (!Preference(s, before) ==> after.status == before.status)
  {
    hide PlanFor, Applied, Lowest;
    RowAfter(s, rows, i);
    PlannedSkip(s, rows, i);
  }

  /** Both count tables say how often each queue and each kind is moved, and add up to the moves. */
  lemma CountsAddUp(s: Service, rows: seq<Task>, key: Text)
    ensures var plan := PlanFor(s, rows);
      && Total(plan.countsByQueue) == Total(plan.countsByKind) == |plan.moves|
      && Get(plan.countsByQueue, key).GetOr(0) == multiset(Targets(plan.moves))[key]
      && Get(plan.countsByKind, key).GetOr(0) == multiset(Kinds(plan.moves))[key]
  {
    hide Moves, SortBy, Tally, Total, Get, Grouped, GroupsOf, SkippedOf;
    var moves := Moves(s, rows);
    TallyCounts(Targets(moves), key);
    TallyCounts(Kinds(moves), key);
    TotalSort(Tally(Targets(moves)));
    TotalSort(Tally(Kinds(moves)));
    TallyDistinct(Targets(moves));
    TallyDistinct(Kinds(moves));
    GetSort(Tally(Targets(moves)), key);
    GetSort(Tally(Kinds(moves)), key);
  }

  // ----- The plan in terms of the table's fields alone -----

  /** The moves, ascending by id, are the queued tasks of the default queue that resolve to another one. */
  lemma {:induction false} MovesAre(s: Service, rows: seq<Task>, m: Move)
    ensures m in Moves(s, rows) <==>
            exists i :: 0 <= i < |rows| && MoveOf(s, rows[i], m)
    decreases |rows|
  {
    hide MoveOf;
    if rows != [] {
      var n := |rows| - 1;
      MovesAre(s, rows[..n], m);
      MoveOfIff(s, rows[n], m);
      if exists i :: 0 <= i < |rows| && MoveOf(s, rows[i], m) {
        var i :| 0 <= i < |rows| && MoveOf(s, rows[i], m);
        assert i < n ==> rows[..n][i] == rows[i];
      }
    }
  }

  predicate MoveOf(s: Service, t: Task, m: Move) {
    && t.status == Queued && t.queue == s.defaultQueue
    && m.id == t.id && m.kind == t.kind
    && m.target == s.resolve(t.kind, s.defaultQueue) && m.target != s.defaultQueue
  }

  lemma MoveOfIff(s: Service, t: Task, m: Move)
    ensures MoveOf(s, t, m) <==> Movable(s, t) && m == Move(t.id, t.kind, Target(s, t))
  {
  }

  lemma {:induction false} MovesAscend(s: Service, rows: seq<Task>)
    requires Keyed(rows)
    ensures forall i, j :: 0 <= i < j < |Moves(s, rows)| ==> Moves(s, rows)[i].id < Moves(s, rows)[j].id
    decreases |rows|
  {
    hide Movable, Target;
    if rows != [] {
      var n := |rows| - 1;
      var front := Moves(s, rows[..n]);
      MovesAscend(s, rows[..n]);
      forall i | 0 <= i < |front|
        ensures front[i].id < rows[n].id
      {
        MovesAre(s, rows[..n], front[i]);
        assert front[i] in front;
        var k :| 0 <= k < n && MoveOf(s, rows[..n][k], front[i]);
      }
    }
  }

  /** A queued preference task, effectively in the preference queue, whose account reads as this text. */
  predicate PrefersFor(s: Service, t: Task, account: Text) {
    && t.status == Queued && t.kind == s.preferenceKind
    && s.resolve(t.kind, t.queue) == s.resolve(t.kind, s.defaultQueue)
    && (t.account == Named(account)
        || (t.account == NullValue && account == ['N' as nat, 'o' as nat, 'n' as nat, 'e' as nat]))
  }

  lemma PrefersIff(s: Service, t: Task, account: Text)
    ensures PrefersFor(s, t, account) <==> InGroup(s, t, account)
  {
  }

  /** A group is an account with several such tasks: it keeps the lowest and skips the others, ascending. */
  lemma GroupsAre(s: Service, rows: seq<Task>, g: Group)
    requires Keyed(rows)
    ensures g in PlanFor(s, rows).groups <==>
            var ids := [g.keep] + g.skip;
            && g.skip != []
            && (forall i, j :: 0 <= i < j < |ids| ==> ids[i] < ids[j])
            && (forall id :: id in ids <==>
                  exists i :: 0 <= i < |rows| && rows[i].id == id && PrefersFor(s, rows[i], g.account))
  {
    hide GroupIds, Grouped, SortBy, Moves, Tally, InGroup, PrefersFor, GroupsOf, SkippedOf, Keyed;
    var ids := GroupIds(s, rows, g.account);
    var listed := [g.keep] + g.skip;
    GroupIdsAscend(s, rows, g.account);
    GroupIn(SortBy(KeyOf, Grouped(s, rows)), g);
    forall id
      ensures id in ids <==> exists i :: 0 <= i < |rows| && rows[i].id == id && PrefersFor(s, rows[i], g.account)
    {
      GroupIdsIn(s, rows, g.account, id);
      forall i | 0 <= i < |rows|
        ensures PrefersFor(s, rows[i], g.account) <==> InGroup(s, rows[i], g.account)
      {
        PrefersIff(s, rows[i], g.account);
      }
    }
    EntryIsGroup(s, rows, g.account, listed);
    if forall i, j :: 0 <= i < j < |listed| ==> listed[i] < listed[j] {
      if forall id :: id in listed <==> id in ids {
        SameAscending(listed, ids);
      }
    }
  }

  lemma {:induction false} SameAscending(a: seq<nat>, b: seq<nat>)
    requires forall i, j :: 0 <= i < j < |a| ==> a[i] < a[j]
    requires forall i, j :: 0 <= i < j < |b| ==> b[i] < b[j]
    requires forall id :: id in a <==> id in b
    ensures a == b
    decreases |a|
  {
    assert a != [] ==> a[0] in a;
    assert b != [] ==> b[0] in b;
    if a != [] {
      LeastFirst(a, b[0]);
      LeastFirst(b, a[0]);
      InTail(a, a[0]);
      InTail(b, b[0]);
      forall id
        ensures id in a[1..] <==> id in b[1..]
      {
        TailOf(a, id);
        TailOf(b, id);
      }
      SameAscending(a[1..], b[1..]);
    }
  }

  lemma LeastFirst(a: seq<nat>, id: nat)
    requires forall i, j :: 0 <= i < j < |a| ==> a[i] < a[j]
    requires id in a
    ensures a[0] <= id
  {
  }

  lemma TailOf(a: seq<nat>, id: nat)
    requires a != [] && forall i, j :: 0 <= i < j < |a| ==> a[i] < a[j]
    ensures id in a[1..] <==> id in a && id != a[0]
  {
    InTail(a, id);
  }

  lemma {:induction false} GroupIn(table: seq<(Text, seq<nat>)>, g: Group)
    ensures g in GroupsOf(table) <==> (g.account, [g.keep] + g.skip) in table && g.skip != []
    decreases |table|
  {
    if table != [] {
      GroupIn(table[1..], g);
      assert table == [table[0]] + table[1..];
      var (account, ids) := table[0];
      if |ids| > 1 {
        assert [ids[0]] + ids[1..] == ids;
      }
      assert ([g.keep] + g.skip)[0] == g.keep && ([g.keep] + g.skip)[1..] == g.skip;
    }
  }

  function Skips(groups: seq<Group>): (ids: seq<seq<nat>>)
    ensures |ids| == |groups|
  {
    seq(|groups|, i requires 0 <= i < |groups| => groups[i].skip)
  }

  function AccountOf(g: Group): Text {
    g.account
  }

  lemma SkipsCons(g: Group, groups: seq<Group>)
    ensures Flatten(Skips([g] + groups)) == g.skip + Flatten(Skips(groups))
  {
    assert Skips([g] + groups)[1..] == Skips(groups);
  }

  lemma {:induction false} SkipsOf(table: seq<(Text, seq<nat>)>)
    ensures SkippedOf(table) == Flatten(Skips(GroupsOf(table)))
    decreases |table|
  {
    hide Skips;
    if table == [] {
      assert Skips([]) == [];
    } else {
      SkipsOf(table[1..]);
      var (account, ids) := table[0];
      var tail := GroupsOf(table[1..]);
      if |ids| > 1 {
        SkipsCons(Group(account, ids[0], ids[1..]), tail);
      } else {
        assert GroupsOf(table) == [] + tail == tail;
        assert SkippedOf(table) == [] + SkippedOf(table[1..]) == SkippedOf(table[1..]);
      }
    }
  }

  lemma {:induction false} GroupsAscend(table: seq<(Text, seq<nat>)>)
    requires Ascending(KeyOf, table)
    ensures Ascending(AccountOf, GroupsOf(table))
    decreases |table|
  {
    hide Less;
    if table != [] {
      AscendingTail(KeyOf, table);
      GroupsAscend(table[1..]);
      var tail := GroupsOf(table[1..]);
      forall j | 0 <= j < |tail|
        ensures Less(table[0].0, tail[j].account)
      {
        assert tail[j] in tail;
        GroupIn(table[1..], tail[j]);
        var e := (tail[j].account, [tail[j].keep] + tail[j].skip);
        var k :| 0 <= k < |table| - 1 && table[1..][k] == e;
        assert Less(KeyOf(table[0]), KeyOf(table[k + 1]));
      }
    }
  }

  /** Groups and tables are sorted, and the skipped ids are those of the groups, in order. */
  lemma PlanIsSorted(s: Service, rows: seq<Task>)
    ensures var plan := PlanFor(s, rows);
      && Ascending(KeyOf, plan.countsByQueue) && Ascending(KeyOf, plan.countsByKind)
      && Ascending(AccountOf, plan.groups)
      && plan.skipped == Flatten(Skips(plan.groups))
  {
    hide Moves, Tally, Grouped, SortBy, Less, Ascending, Distinct, GroupsOf, SkippedOf, GroupIds;
    var table := SortBy(KeyOf, Grouped(s, rows));
    TallyDistinct(Targets(Moves(s, rows)));
    TallyDistinct(Kinds(Moves(s, rows)));
    GroupedHolds(s, rows, []);
    SortAscending(KeyOf, Tally(Targets(Moves(s, rows))));
    SortAscending(KeyOf, Tally(Kinds(Moves(s, rows))));
    SortAscending(KeyOf, Grouped(s, rows));
    GroupsAscend(table);
    SkipsOf(table);
  }

  /**
   * A row after the plan, by its fields before: only a queued task of the default queue changes its
   * queue, and only a queued preference task is skipped, when its account has a lower one.
   */
  lemma RowAfterFields(s: Service, rows: seq<Task>, i: nat)
    requires Keyed(rows) && i < |rows|
    ensures var t, u := rows[i], Applied(rows, PlanFor(s, rows))[i]; var target := s.resolve(t.kind, s.defaultQueue);
      && u.id == t.id && u.kind == t.kind && u.account == t.account
      && u.queue == (if t.status == Queued && t.queue == s.defaultQueue then target else t.queue)
      && (u.status == t.status || u.status == Skipped)
      && (u.status != t.status <==>
            exists account, j: nat :: PrefersFor(s, t, account) && j < i && PrefersFor(s, rows[j], account))
  {
    hide Moves, PlanFor, GroupIds, Lowest, Applied, Preference, PrefersFor, InGroup;
    var t := rows[i];
    RowAfter(s, rows, i);
    MovableFields(s, t);
    if Preference(s, t) {
      LowestIsLeast(s, rows, i);
      PreferenceHasAccount(s, t);
      PreferenceFields(s, t);
      var account := AccountText(t.account);
      if t.id != Lowest(s, rows, t) {
        var j :| 0 <= j < |rows| && InGroup(s, rows[j], account) && rows[j].id == Lowest(s, rows, t);
        PrefersIff(s, rows[j], account);
        PrefersIff(s, t, account);
        assert InGroup(s, t, account);
      }
    }
    forall account, j: nat | PrefersFor(s, t, account) && j < i && PrefersFor(s, rows[j], account)
      ensures Preference(s, t) && t.id != Lowest(s, rows, t)
    {
      PrefersIff(s, t, account);
      PrefersIff(s, rows[j], account);
      GroupFields(s, t, account);
      LowestIsLeast(s, rows, i);
    }
  }

  lemma MovableFields(s: Service, t: Task)
    ensures (if Movable(s, t) then Target(s, t) else t.queue)
         == (if t.status == Queued && t.queue == s.defaultQueue then s.resolve(t.kind, s.defaultQueue) else t.queue)
  {
  }

  lemma PreferenceFields(s: Service, t: Task)
    requires Preference(s, t)
    ensures t.status == Queued && InGroup(s, t, AccountText(t.account))
  {
  }

  lemma GroupFields(s: Service, t: Task, account: Text)
    requires InGroup(s, t, account)
    ensures Preference(s, t) && t.status == Queued && account == AccountText(t.account)
  {
  }

  lemma TallyNothing()
    ensures Tally(Targets([])) == [] && Tally(Kinds([])) == []
  {
  }

  lemma TallyNext(moves: seq<Move>, m: Move)
    ensures Tally(Targets(moves + [m]))
         == Set(Tally(Targets(moves)), m.target, Get(Tally(Targets(moves)), m.target).GetOr(0) + 1)
    ensures Tally(Kinds(moves + [m]))
         == Set(Tally(Kinds(moves)), m.kind, Get(Tally(Kinds(moves)), m.kind).GetOr(0) + 1)
  {
    assert Targets(moves + [m])[..|moves|] == Targets(moves);
    assert Kinds(moves + [m])[..|moves|] == Kinds(moves);
  }

  // ----- The script -----

  class TaskTable {
    var rows: seq<Task>

    constructor (rows: seq<Task>)
      ensures this.rows == rows
    {
      this.rows := rows;
    }

    /** The first loop of `collect_plan`. */
    method CollectMoves(s: Service)
      returns (moves: seq<Move>, byQueue: seq<(Text, nat)>, byKind: seq<(Text, nat)>)
      ensures moves == Moves(s, rows)
      ensures byQueue == Tally(Targets(moves)) && byKind == Tally(Kinds(moves))
    {
      hide Tally, Targets, Kinds, Set, Get;
      TallyNothing();
      moves, byQueue, byKind := [], [], [];
      for i := 0 to |rows|
        invariant moves == Moves(s, rows[..i])
        invariant byQueue == Tally(Targets(moves)) && byKind == Tally(Kinds(moves))
      {
        var t := rows[i];
        assert rows[..i + 1][..i] == rows[..i];
        if InDefault(s, t) {
          var target := s.resolve(t.kind, s.defaultQueue);
          if target != s.defaultQueue {
            TallyNext(moves, Move(t.id, t.kind, target));
            moves := moves + [Move(t.id, t.kind, target)];
            byQueue := Set(byQueue, target, Get(byQueue, target).GetOr(0) + 1);
            byKind := Set(byKind, t.kind, Get(byKind, t.kind).GetOr(0) + 1);
          }
        }
      }
      assert rows[..|rows|] == rows;
    }

    /** The second loop: preference tasks by account. */
    method GroupPreferences(s: Service) returns (grouped: seq<(Text, seq<nat>)>)
      ensures grouped == Grouped(s, rows)
    {
      grouped := [];
      for i := 0 to |rows|
        invariant grouped == Grouped(s, rows[..i])
      {
        var t := rows[i];
        assert rows[..i + 1][..i] == rows[..i];
        if t.kind == s.preferenceKind && t.status == Queued && !t.account.NoKey? {
          if s.resolve(s.preferenceKind, t.queue) != s.resolve(s.preferenceKind, s.defaultQueue) {
            continue;
          }
          var account := AccountText(t.account);
          grouped := Set(grouped, account, Get(grouped, account).GetOr([]) + [t.id]);
        }
      }
      assert rows[..|rows|] == rows;
    }

    /** The third loop: groups of more than one keep their first task. */
    method CollectDuplicates(table: seq<(Text, seq<nat>)>) returns (groups: seq<Group>, skipped: seq<nat>)
      ensures groups == GroupsOf(table) && skipped == SkippedOf(table)
    {
      hide GroupsOf, SkippedOf;
      groups, skipped := [], [];
      EntriesEnd(table, groups, skipped);
      for i := 0 to |table|
        invariant groups + GroupsOf(table[i..]) == GroupsOf(table)
        invariant skipped + SkippedOf(table[i..]) == SkippedOf(table)
      {
        var (account, ids) := table[i];
        NextEntry(table, i, groups, skipped);
        if |ids| <= 1 {
          continue;
        }
        groups := groups + [Group(account, ids[0], ids[1..])];
        skipped := skipped + ids[1..];
      }
      EntriesEnd(table, groups, skipped);
    }

    /** `collect_plan` */
    method CollectPlan(s: Service) returns (plan: Plan)
      ensures plan == PlanFor(s, rows)
    {
      var moves, byQueue, byKind := CollectMoves(s);
      var grouped := GroupPreferences(s);
      var groups, skipped := CollectDuplicates(SortBy(KeyOf, grouped));
      plan := Plan(moves, SortBy(KeyOf, byQueue), SortBy(KeyOf, byKind), groups, skipped);
    }

    /** `apply_plan`: one update a move, one update for all skips, one notification a pair. */
    method ApplyPlan(plan: Plan) returns (movedRows: nat, skippedRows: nat, notified: set<(Text, Text)>)
      modifies this
      ensures rows == Applied(old(rows), plan)
      ensures movedRows == |plan.moves| && skippedRows == |plan.skipped|
      ensures notified == set m | m in plan.moves :: (m.target, m.kind)
    {
      hide SetQueue;
      movedRows, notified := 0, {};
      for i := 0 to |plan.moves|
        invariant movedRows == i
        invariant ApplyMoves(rows, plan.moves[i..]) == ApplyMoves(old(rows), plan.moves)
        invariant notified == set m | m in plan.moves[..i] :: (m.target, m.kind)
      {
        var move := plan.moves[i];
        rows := SetQueue(rows, move.id, move.target);
        movedRows := movedRows + 1;
        notified := notified + {(move.target, move.kind)};
        assert plan.moves[i..][1..] == plan.moves[i + 1..];
        assert plan.moves[..i + 1] == plan.moves[..i] + [move];
      }
      assert plan.moves[..|plan.moves|] == plan.moves;
      skippedRows := 0;
      if plan.skipped != [] {
        rows := SkipTasks(rows, plan.skipped);
        skippedRows := |plan.skipped|;
      } else {
        assert SkipTasks(rows, plan.skipped) == rows;
      }
    }

    /** The script run with `--apply`, and again: the second plan is empty. */
    method RebalanceTwice(s: Service) returns (first: Plan, second: Plan)
      requires Keyed(rows)
      modifies this
      ensures first == PlanFor(s, old(rows)) && rows == Applied(old(rows), first)
      ensures second == Plan([], [], [], [], [])
    {
      hide PlanFor, Applied;
      first := CollectPlan(s);
      Fixpoint(s, rows);
      var _, _, _ := ApplyPlan(first);
      second := CollectPlan(s);
    }
  }
}
