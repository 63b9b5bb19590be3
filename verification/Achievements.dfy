/** The achievement engine: events add to progress, reaching the requirement unlocks, an
    unlock's reward is claimed once, and daily statistics count both.

    The engine's tables are the fields of one class. What every operation keeps is split into
    predicates over the tables, each with its own small lemmas, and joined in `Valid`. */
module Achievements {

  import opened Prelude

  type User = string
  type Id = string
  type Day = string
  type Key = (User, Id)

  // ---------- Rules ----------

  /** A JSON value. A text carries the number it reads as, when it reads as one. */
  datatype Value = Num(n: real) | Text(s: string, number: Option<real>) | Flag(b: bool) | Null

  type Metadata = map<string, Value>

  function AsNumber(v: Value): Option<real> {
    match v
    case Num(n) => Some(n)
    case Text(_, number) => number
    case Flag(b) => Some(if b then 1.0 else 0.0)
    case Null => Some(0.0)
  }

  predicate SameValue(v: Value, w: Value) {
    if v.Text? && w.Text? then v.s == w.s else v == w
  }

  predicate Truthy(v: Value) {
    match v
    case Num(n) => n != 0.0
    case Text(s, _) => s != ""
    case Flag(b) => b
    case Null => false
  }

  /** A missing `value` is None. */
  datatype Operator =
    | Any
    | Eq(field: string, value: Option<Value>)
    | Gte(field: string, value: Option<Value>)
    | Lte(field: string, value: Option<Value>)
    | In(field: string, values: seq<Value>)
    | Unknown

  datatype Rule = Rule(eventCodes: seq<string>, operator: Operator, incrementField: Option<string>)

  /** `reward` is the number of entries of the reward definition, when there is one. */
  datatype Definition = Definition(
    id: Id, active: bool, requiredProgress: int, repeatable: bool, reward: Option<nat>, rule: Option<Rule>)

  type Definitions = map<Id, Definition>

  datatype Event = Event(user: User, code: string, metadata: Metadata)

  function Field(metadata: Metadata, field: string): Option<Value> {
    if field in metadata then Some(metadata[field]) else None
  }

  /** What is not a number compares with nothing. */
  predicate AtLeast(a: Option<real>, b: Option<real>) {
    a.Some? && b.Some? && a.value >= b.value
  }

  /** A missing or null field counts as zero. */
  function FieldNumber(metadata: Metadata, field: string): Option<real> {
    if field in metadata then AsNumber(metadata[field]) else Some(0.0)
  }

  function Threshold(value: Option<Value>): Option<real> {
    if value.Some? then AsNumber(value.value) else None
  }

  predicate EvaluateRule(op: Operator, metadata: Metadata) {
    match op
    case Any => true
    case Eq(field, value) =>
      var actual := Field(metadata, field);
      if actual.Some? && value.Some? then SameValue(actual.value, value.value) else actual.None? && value.None?
    case Gte(field, value) => AtLeast(FieldNumber(metadata, field), Threshold(value))
    case Lte(field, value) => AtLeast(Threshold(value), FieldNumber(metadata, field))
    case In(field, values) => field in metadata && exists v :: v in values && SameValue(metadata[field], v)
    case Unknown => true
  }

  /** The rule's increment field, if it names one that is present and not falsy. */
  function IncrementValue(rule: Rule, metadata: Metadata): Option<Value> {
    if rule.incrementField.Some? && rule.incrementField.value != "" && rule.incrementField.value in metadata
      && Truthy(metadata[rule.incrementField.value])
    then Some(metadata[rule.incrementField.value]) else None
  }

  /** The floor of the field, at least 1; one without a field; None for what is not a number. */
  function ExtractIncrement(rule: Rule, metadata: Metadata): (n: Option<int>)
    ensures var value := IncrementValue(rule, metadata);
      if value.None? then n == Some(1)
      else
        var v := AsNumber(value.value);
        && (v.None? <==> n.None?)
        && (v.Some? && v.value < 1.0 ==> n.value == 1)
        && (v.Some? && v.value >= 1.0 ==> n.value as real <= v.value < (n.value + 1) as real)
  {
    var value := IncrementValue(rule, metadata);
    if value.None? then Some(1)
    else
      var number := AsNumber(value.value);
      if number.None? then None else Some(if number.value.Floor > 1 then number.value.Floor else 1)
  }

  /** Comparisons: a missing or null field is zero, flags are 0 and 1, a text is the number it reads
      as, and what is not a number, a missing threshold included, passes neither. */
  lemma ComparisonExact(metadata: Metadata, field: string, threshold: Option<Value>, x: Option<real>, y: Option<real>)
    requires field !in metadata ==> x == Some(0.0)
    requires field in metadata ==>
      match metadata[field]
      case Num(n) => x == Some(n)
      case Text(_, n) => x == n
      case Flag(b) => x == Some(if b then 1.0 else 0.0)
      case Null => x == Some(0.0)
    requires threshold.None? ==> y == None
    requires threshold.Some? ==>
      match threshold.value
      case Num(n) => y == Some(n)
      case Text(_, n) => y == n
      case Flag(b) => y == Some(if b then 1.0 else 0.0)
      case Null => y == Some(0.0)
    ensures EvaluateRule(Gte(field, threshold), metadata) <==> x.Some? && y.Some? && y.value <= x.value
    ensures EvaluateRule(Lte(field, threshold), metadata) <==> x.Some? && y.Some? && x.value <= y.value
  {
  }

  /** Equality and membership compare without conversion: numbers with numbers, texts by their
      characters. A missing field equals a missing value only, and is a member of nothing. */
  lemma EqualityExact(metadata: Metadata, field: string, value: Value, values: seq<Value>)
    ensures field !in metadata ==>
      && EvaluateRule(Eq(field, None), metadata) && !EvaluateRule(Eq(field, Some(value)), metadata)
      && !EvaluateRule(In(field, values), metadata)
    ensures field in metadata && metadata[field].Num? ==>
      && (EvaluateRule(Eq(field, Some(value)), metadata) <==> value == metadata[field])
      && (EvaluateRule(In(field, values), metadata) <==> metadata[field] in values)
      && !EvaluateRule(Eq(field, None), metadata)
    ensures field in metadata && metadata[field].Text? ==>
      && (EvaluateRule(Eq(field, Some(value)), metadata) <==> value.Text? && value.s == metadata[field].s)
      && (EvaluateRule(In(field, values), metadata) <==> exists v :: v in values && v.Text? && v.s == metadata[field].s)
    ensures EvaluateRule(Any, metadata) && EvaluateRule(Unknown, metadata)
  {
  }

  /** A numeric increment field counts its floor, and anything below 2 counts one; so do no field,
      null and flags. A text counts as the number it reads as, and is no number otherwise. */
  lemma IncrementExact(rule: Rule, metadata: Metadata, field: string)
    requires rule.incrementField == Some(field) && field != ""
    ensures var n := ExtractIncrement(rule, metadata);
      if field !in metadata then n == Some(1)
      else
        match metadata[field]
        case Num(v) => n == Some(if v < 2.0 then 1 else v.Floor)
        case Text(s, v) =>
          if s == "" then n == Some(1)
          else if v.None? then n == None
          else n == Some(if v.value < 2.0 then 1 else v.value.Floor)
        case Flag(_) => n == Some(1)
        case Null => n == Some(1)
  {
  }

  predicate Responds(def: Definition, event: Event) {
    def.active && def.rule.Some? && event.code in def.rule.value.eventCodes
    && EvaluateRule(def.rule.value.operator, event.metadata)
  }

  /** What one definition makes of an event: its increment, or nothing. */
  function Increment(def: Definition, event: Event): seq<int> {
    if Responds(def, event) && ExtractIncrement(def.rule.value, event.metadata).Some?
    then [ExtractIncrement(def.rule.value, event.metadata).value] else []
  }

  // ---------- Tables ----------

  datatype Progress = Progress(current: int, isCompleted: bool)

  type ProgressTable = map<Key, Progress>

  /** The increments that each user's achievements have received. */
  type Logs = map<Key, seq<int>>

  datatype HistoryRow = HistoryRow(key: Key, before: int, after: int, unlocked: bool)

  datatype UnlockRow = UnlockRow(key: Key, iteration: int, unlockedOn: Day, claimedOn: Option<Day>)

  datatype DailyStats = DailyStats(totalUnlocks: int, uniqueUsersUnlocked: int, totalRewardsClaimed: int)

  // ---------- Progress and history ----------

  function Min(a: int, b: int): int {
    if a < b then a else b
  }

  function Sum(s: seq<int>): int {
    if s == [] then 0 else Sum(s[..|s| - 1]) + s[|s| - 1]
  }

  function Log(log: Logs, key: Key): seq<int> {
    if key in log then log[key] else []
  }

  function Append(log: Logs, key: Key, n: int): Logs {
    log[key := Log(log, key) + [n]]
  }

  lemma SumAppend(s: seq<int>, n: int)
    ensures Sum(s + [n]) == Sum(s) + n
  {
    assert (s + [n])[..|s|] == s;
  }

  function Current(progress: ProgressTable, key: Key): int {
    if key in progress then progress[key].current else 0
  }

  predicate Completed(progress: ProgressTable, key: Key) {
    key in progress && progress[key].isCompleted
  }

  /** Stored progress is the sum of the matching increments, capped at the requirement; a
      manual grant completes a row early and so suspends this for its key. */
  predicate ProgressAt(required: int, progress: ProgressTable, key: Key, total: int, granted: bool) {
    && (!Completed(progress, key) ==> Current(progress, key) < required)
    && (!granted ==>
          && Current(progress, key) == Min(required, total)
          && (Completed(progress, key) <==> total >= required))
  }

  ghost predicate ProgressOk(defs: Definitions, progress: ProgressTable, log: Logs, granted: set<Key>) {
    forall key: Key :: key.1 in defs ==>
      ProgressAt(defs[key.1].requiredProgress, progress, key, Sum(Log(log, key)), key in granted)
  }

  function HistoryOf(history: seq<HistoryRow>, key: Key): seq<HistoryRow> {
    if history == [] then []
    else
      var last := history[|history| - 1];
      HistoryOf(history[..|history| - 1], key) + if last.key == key then [last] else []
  }

  /** The rows lead from 0 to `current`, each starting where the one before it ended, always
      upwards, and at most the last one unlocks. */
  predicate Chained(rows: seq<HistoryRow>, current: int) {
    if rows == [] then current == 0
    else
      var last := rows[|rows| - 1];
      && last.after == current && last.before < last.after
      && Chained(rows[..|rows| - 1], last.before)
      && forall i :: 0 <= i < |rows| - 1 ==> !rows[i].unlocked
  }

  ghost predicate HistoryOk(history: seq<HistoryRow>, progress: ProgressTable) {
    forall key :: Chained(HistoryOf(history, key), Current(progress, key))
      && (!Completed(progress, key) ==> forall row :: row in HistoryOf(history, key) ==> !row.unlocked)
  }

  lemma HistoryAppend(history: seq<HistoryRow>, row: HistoryRow, key: Key)
    ensures HistoryOf(history + [row], key) == HistoryOf(history, key) + if row.key == key then [row] else []
  {
    assert (history + [row])[..|history|] == history;
  }

  /** Recording one step of progress keeps every chain. */
  lemma HistoryStep(history: seq<HistoryRow>, progress: ProgressTable, row: HistoryRow)
    requires HistoryOk(history, progress) && !Completed(progress, row.key)
    requires row.before == Current(progress, row.key) < row.after
    ensures HistoryOk(history + [row], progress[row.key := Progress(row.after, row.unlocked)])
  {
    var next := progress[row.key := Progress(row.after, row.unlocked)];
    forall key
      ensures Chained(HistoryOf(history + [row], key), Current(next, key))
      ensures !Completed(next, key) ==> forall r :: r in HistoryOf(history + [row], key) ==> !r.unlocked
    {
      HistoryAppend(history, row, key);
      var rows := HistoryOf(history, key);
      assert Chained(rows, Current(progress, key));
      if key == row.key {
        var more := rows + [row];
        assert more[..|more| - 1] == rows;
        assert forall i :: 0 <= i < |rows| ==> more[i] in rows;
      } else {
        assert HistoryOf(history + [row], key) == rows;
      }
    }
  }

  /** The progress table after an increment. */
  function Raised(progress: ProgressTable, key: Key, required: int, n: int): ProgressTable {
    if Completed(progress, key) then progress
    else
      var after := Min(Current(progress, key) + n, required);
      progress[key := Progress(after, after >= required)]
  }

  lemma RaisedAt(required: int, progress: ProgressTable, key: Key, total: int, granted: bool, n: int)
    requires required >= 1 && n >= 1 && ProgressAt(required, progress, key, total, granted)
    ensures ProgressAt(required, Raised(progress, key, required, n), key, total + n, granted)
  {
  }

  lemma RaisedElsewhere(required: int, progress: ProgressTable, key: Key, total: int, granted: bool,
                        other: Key, required': int, n: int)
    requires other != key && ProgressAt(required, progress, key, total, granted)
    ensures ProgressAt(required, Raised(progress, other, required', n), key, total, granted)
  {
  }

  /** One matching event: a completed row stays as it is, any other moves up. */
  lemma ProgressStep(defs: Definitions, progress: ProgressTable, log: Logs, granted: set<Key>, key: Key, n: int)
    requires key.1 in defs && defs[key.1].requiredProgress >= 1 && n >= 1
    requires ProgressOk(defs, progress, log, granted)
    ensures ProgressOk(defs, Raised(progress, key, defs[key.1].requiredProgress, n), Append(log, key, n), granted)
  {
    var required := defs[key.1].requiredProgress;
    var next, more := Raised(progress, key, required, n), Append(log, key, n);
    SumAppend(Log(log, key), n);
    forall k: Key | k.1 in defs
      ensures ProgressAt(defs[k.1].requiredProgress, next, k, Sum(Log(more, k)), k in granted)
    {
      hide ProgressAt, Raised, Sum;
      if k == key {
        RaisedAt(required, progress, key, Sum(Log(log, key)), key in granted, n);
      } else {
        RaisedElsewhere(defs[k.1].requiredProgress, progress, k, Sum(Log(log, k)), k in granted, key, required, n);
      }
    }
  }

  /** The history rows that increments `ns` leave, from the increments alone: one for each until
      their sum reaches the requirement, which the last one unlocks. */
  function Expected(key: Key, ns: seq<int>, required: int): seq<HistoryRow> {
    if ns == [] then []
    else
      var rest, n := ns[..|ns| - 1], ns[|ns| - 1];
      var before := Sum(rest);
      if before >= required then Expected(key, rest, required)
      else if before + n >= required then Expected(key, rest, required) + [HistoryRow(key, before, required, true)]
      else Expected(key, rest, required) + [HistoryRow(key, before, before + n, false)]
  }

  ghost predicate HistoryClosed(defs: Definitions, history: seq<HistoryRow>, log: Logs, granted: set<Key>) {
    forall key: Key :: key.1 in defs && key !in granted ==>
      HistoryOf(history, key) == Expected(key, Log(log, key), defs[key.1].requiredProgress)
  }

  lemma ExpectedStep(history: seq<HistoryRow>, progress: ProgressTable, key: Key, ns: seq<int>, n: int, required: int)
    requires n >= 1 && required >= 1 && ProgressAt(required, progress, key, Sum(ns), false)
    requires HistoryOf(history, key) == Expected(key, ns, required)
    ensures HistoryOf(Recorded(history, progress, key, required, n), key) == Expected(key, ns + [n], required)
  {
    var before := Current(progress, key);
    assert (ns + [n])[..|ns|] == ns;
    HistoryAppend(history, HistoryRow(key, before, Min(before + n, required), before + n >= required), key);
  }

  /** The history after an increment. */
  function Recorded(history: seq<HistoryRow>, progress: ProgressTable, key: Key, required: int,
                    n: int): seq<HistoryRow> {
    var before := Current(progress, key);
    if Completed(progress, key) then history
    else history + [HistoryRow(key, before, Min(before + n, required), before + n >= required)]
  }

  lemma HistoryClosedStep(defs: Definitions, history: seq<HistoryRow>, progress: ProgressTable, log: Logs,
                          granted: set<Key>, key: Key, n: int)
    requires key.1 in defs && n >= 1 && HistoryClosed(defs, history, log, granted)
    requires var required := defs[key.1].requiredProgress;
      required >= 1 && ProgressAt(required, progress, key, Sum(Log(log, key)), key in granted)
    ensures HistoryClosed(defs, Recorded(history, progress, key, defs[key.1].requiredProgress, n),
      Append(log, key, n), granted)
  {
    var required := defs[key.1].requiredProgress;
    var more, longer := Recorded(history, progress, key, required, n), Append(log, key, n);
    assert Log(longer, key) == Log(log, key) + [n];
    forall k: Key | k.1 in defs && k !in granted
      ensures HistoryOf(more, k) == Expected(k, Log(longer, k), defs[k.1].requiredProgress)
    {
      hide Expected, HistoryOf, Recorded, Append, Log, ProgressAt;
      if k == key {
        ExpectedStep(history, progress, key, Log(log, key), n, required);
      } else {
        ElsewhereSame(history, progress, log, key, n, required, k);
      }
    }
  }

  lemma ElsewhereSame(history: seq<HistoryRow>, progress: ProgressTable, log: Logs, key: Key, n: int, required: int,
                      k: Key)
    requires k != key
    ensures HistoryOf(Recorded(history, progress, key, required, n), k) == HistoryOf(history, k)
    ensures Log(Append(log, key, n), k) == Log(log, k)
  {
    var before := Current(progress, key);
    HistoryAppend(history, HistoryRow(key, before, Min(before + n, required), before + n >= required), k);
  }

  // ---------- Unlock rows ----------

  function Rows(unlocks: seq<UnlockRow>, key: Key): nat {
    if unlocks == [] then 0
    else Rows(unlocks[..|unlocks| - 1], key) + if unlocks[|unlocks| - 1].key == key then 1 else 0
  }

  function UnlockedOn(unlocks: seq<UnlockRow>, day: Day): nat {
    if unlocks == [] then 0
    else UnlockedOn(unlocks[..|unlocks| - 1], day) + if unlocks[|unlocks| - 1].unlockedOn == day then 1 else 0
  }

  function ClaimedOn(unlocks: seq<UnlockRow>, day: Day): nat {
    if unlocks == [] then 0
    else ClaimedOn(unlocks[..|unlocks| - 1], day) + if unlocks[|unlocks| - 1].claimedOn == Some(day) then 1 else 0
  }

  /** Each row's iteration is one more than the number of earlier rows for the same user and
      achievement. */
  predicate Numbered(unlocks: seq<UnlockRow>) {
    unlocks != [] ==>
      var last, rest := unlocks[|unlocks| - 1], unlocks[..|unlocks| - 1];
      last.iteration == Rows(rest, last.key) + 1 && Numbered(rest)
  }

  /** The rows of a user and achievement count upwards. */
  lemma {:induction false} IterationsAscend(unlocks: seq<UnlockRow>, key: Key)
    requires Numbered(unlocks)
    ensures forall i :: 0 <= i < |unlocks| && unlocks[i].key == key ==> 1 <= unlocks[i].iteration <= Rows(unlocks, key)
    ensures forall i, j :: 0 <= i < j < |unlocks| && unlocks[i].key == key && unlocks[j].key == key ==>
      unlocks[i].iteration < unlocks[j].iteration
    decreases |unlocks|
  {
    if unlocks == [] {
    } else {
      var last, rest := |unlocks| - 1, unlocks[..|unlocks| - 1];
      IterationsAscend(rest, key);
      assert forall i :: 0 <= i < last ==> unlocks[i] == rest[i];
    }
  }

  /** So their iterations are exactly 1 to n, each once. */
  lemma {:induction false} IterationsExact(unlocks: seq<UnlockRow>, key: Key, n: int)
    requires Numbered(unlocks)
    ensures 1 <= n <= Rows(unlocks, key) <==>
      exists i :: 0 <= i < |unlocks| && unlocks[i].key == key && unlocks[i].iteration == n
    decreases |unlocks|
  {
    IterationsAscend(unlocks, key);
    if unlocks == [] {
    } else {
      var last, rest := |unlocks| - 1, unlocks[..|unlocks| - 1];
      IterationsExact(rest, key, n);
      if 1 <= n <= Rows(unlocks, key) {
        if n <= Rows(rest, key) {
          var i :| 0 <= i < |rest| && rest[i].key == key && rest[i].iteration == n;
          assert unlocks[i] == rest[i];
        } else {
          assert unlocks[last].key == key && unlocks[last].iteration == n;
        }
      }
    }
  }

  ghost predicate UnlocksOk(defs: Definitions, unlocks: seq<UnlockRow>) {
    && Numbered(unlocks)
    && forall key: Key :: key.1 in defs && !defs[key.1].repeatable ==> Rows(unlocks, key) <= 1
  }

  /** Without manual grants there is exactly one row as soon as progress is complete, and none
      before that, for repeatable achievements too. */
  ghost predicate EarnedOnce(progress: ProgressTable, unlocks: seq<UnlockRow>, granted: set<Key>) {
    forall key :: key !in granted ==> Rows(unlocks, key) == if Completed(progress, key) then 1 else 0
  }

  function StatsOn(stats: map<Day, DailyStats>, day: Day): DailyStats {
    if day in stats then stats[day] else DailyStats(0, 0, 0)
  }

  ghost predicate StatsOk(stats: map<Day, DailyStats>, unlocks: seq<UnlockRow>) {
    forall day ::
      StatsOn(stats, day) == DailyStats(UnlockedOn(unlocks, day), UnlockedOn(unlocks, day), ClaimedOn(unlocks, day))
  }

  /** The claimed rows are exactly the announced ones, each announced once. */
  ghost predicate AnnouncedOk(announced: seq<nat>, unlocks: seq<UnlockRow>) {
    Distinct(announced) && forall id :: id in announced <==> 0 <= id < |unlocks| && unlocks[id].claimedOn.Some?
  }

  /** The users with a row on a day. */
  function UsersOn(unlocks: seq<UnlockRow>, day: Day): set<User> {
    set row | row in unlocks && row.unlockedOn == day :: row.key.0
  }

  /** No user has two rows on that day. */
  predicate OneRowEach(unlocks: seq<UnlockRow>, day: Day) {
    forall i, j :: 0 <= i < j < |unlocks| && unlocks[i].unlockedOn == day && unlocks[j].unlockedOn == day ==>
      unlocks[i].key.0 != unlocks[j].key.0
  }

  /** A day has at least as many rows as users, and as many exactly when no user has two. */
  lemma {:induction false} UsersCounted(unlocks: seq<UnlockRow>, day: Day)
    ensures |UsersOn(unlocks, day)| <= UnlockedOn(unlocks, day)
    ensures |UsersOn(unlocks, day)| == UnlockedOn(unlocks, day) <==> OneRowEach(unlocks, day)
    decreases |unlocks|
  {
    if unlocks == [] {
      assert UsersOn(unlocks, day) == {};
    } else {
      var rest, last := unlocks[..|unlocks| - 1], unlocks[|unlocks| - 1];
      UsersCounted(rest, day);
      assert unlocks == rest + [last];
      UsersAppend(rest, last, day);
      OneRowEachAppend(rest, last, day);
    }
  }

  lemma UsersAppend(unlocks: seq<UnlockRow>, row: UnlockRow, day: Day)
    ensures UsersOn(unlocks + [row], day) == UsersOn(unlocks, day) + if row.unlockedOn == day then {row.key.0} else {}
  {
    assert forall r :: r in unlocks + [row] <==> r in unlocks || r == row;
  }

  lemma OneRowEachAppend(unlocks: seq<UnlockRow>, row: UnlockRow, day: Day)
    ensures OneRowEach(unlocks + [row], day) <==>
      OneRowEach(unlocks, day) && (row.unlockedOn == day ==> row.key.0 !in UsersOn(unlocks, day))
  {
    var more := unlocks + [row];
    assert forall i :: 0 <= i < |unlocks| ==> more[i] == unlocks[i];
    assert more[|unlocks|] == row;
    if row.key.0 in UsersOn(unlocks, day) {
      var other :| other in unlocks && other.unlockedOn == day && other.key.0 == row.key.0;
      var i :| 0 <= i < |unlocks| && unlocks[i] == other;
      assert more[i].key.0 == more[|unlocks|].key.0;
    }
  }

  lemma RowAppend(unlocks: seq<UnlockRow>, row: UnlockRow)
    ensures forall key :: Rows(unlocks + [row], key) == Rows(unlocks, key) + if row.key == key then 1 else 0
    ensures forall day ::
      UnlockedOn(unlocks + [row], day) == UnlockedOn(unlocks, day) + if row.unlockedOn == day then 1 else 0
    ensures forall day ::
      ClaimedOn(unlocks + [row], day) == ClaimedOn(unlocks, day) + if row.claimedOn == Some(day) then 1 else 0
    ensures Numbered(unlocks) && row.iteration == Rows(unlocks, row.key) + 1 ==> Numbered(unlocks + [row])
  {
    assert (unlocks + [row])[..|unlocks|] == unlocks;
  }

  /** Claiming row `id` moves one claim count by one and nothing else. */
  lemma {:induction false} RowClaim(unlocks: seq<UnlockRow>, id: nat, day: Day)
    requires id < |unlocks| && unlocks[id].claimedOn.None?
    ensures var claimed := unlocks[id := unlocks[id].(claimedOn := Some(day))];
      && (forall key :: Rows(claimed, key) == Rows(unlocks, key))
      && (forall d :: UnlockedOn(claimed, d) == UnlockedOn(unlocks, d))
      && (forall d :: ClaimedOn(claimed, d) == ClaimedOn(unlocks, d) + if d == day then 1 else 0)
      && (Numbered(unlocks) ==> Numbered(claimed))
    decreases |unlocks|
  {
    var claimed := unlocks[id := unlocks[id].(claimedOn := Some(day))];
    var rest := unlocks[..|unlocks| - 1];
    if id == |rest| {
      assert claimed[..|claimed| - 1] == rest;
    } else {
      RowClaim(rest, id, day);
      assert claimed[..|claimed| - 1] == rest[id := rest[id].(claimedOn := Some(day))];
    }
  }

  function MarkCompleted(progress: ProgressTable, key: Key): ProgressTable {
    if key in progress then progress[key := progress[key].(isCompleted := true)] else progress
  }

  lemma MarkKeepsHistory(history: seq<HistoryRow>, progress: ProgressTable, key: Key)
    requires HistoryOk(history, progress)
    ensures HistoryOk(history, MarkCompleted(progress, key))
  {
    var marked := MarkCompleted(progress, key);
    forall k
      ensures Chained(HistoryOf(history, k), Current(marked, k))
      ensures !Completed(marked, k) ==> forall row :: row in HistoryOf(history, k) ==> !row.unlocked
    {
      assert Chained(HistoryOf(history, k), Current(progress, k));
    }
  }

  // ---------- The database ----------

  datatype Tables = Tables(
    progress: ProgressTable, history: seq<HistoryRow>, unlocks: seq<UnlockRow>, stats: map<Day, DailyStats>,
      announced: seq<nat>)

  predicate DefinitionsOk(defs: Definitions) {
    forall id :: id in defs ==> defs[id].id == id && defs[id].requiredProgress >= 1
  }

  /** What every operation keeps. `log` holds the increments of the matching events so far,
      `granted` the keys granted by hand, and `open` a key whose unlock is under way. */
  ghost predicate Consistent(defs: Definitions, t: Tables, log: Logs, granted: set<Key>, open: set<Key>) {
    && DefinitionsOk(defs)
    && ProgressOk(defs, t.progress, log, granted)
    && HistoryOk(t.history, t.progress)
    && HistoryClosed(defs, t.history, log, granted)
    && UnlocksOk(defs, t.unlocks)
    && EarnedOnce(t.progress, t.unlocks, granted + open)
    && StatsOk(t.stats, t.unlocks)
    && AnnouncedOk(t.announced, t.unlocks)
  }

  /** The tables after an increment. One that is not a number is refused by the database. */
  function Incremented(t: Tables, key: Key, requiredProgress: int, incrementBy: Option<int>): Tables {
    if Completed(t.progress, key) || incrementBy.None? then t
    else
      var before := Current(t.progress, key);
      var after := Min(before + incrementBy.value, requiredProgress);
      var row := HistoryRow(key, before, after, after >= requiredProgress);
      t.(progress := t.progress[key := Progress(after, row.unlocked)], history := t.history + [row])
  }

  lemma IncrementKeeps(defs: Definitions, t: Tables, log: Logs, granted: set<Key>, key: Key, n: int)
    requires Consistent(defs, t, log, granted, {}) && key.1 in defs && n >= 1
    ensures var next := Incremented(t, key, defs[key.1].requiredProgress, Some(n));
      && Consistent(defs, next, Append(log, key, n), granted, {key})
      && (Completed(next.progress, key) == Completed(t.progress, key) ==>
            Consistent(defs, next, Append(log, key, n), granted, {}))
  {
    hide HistoryOk, HistoryClosed, UnlocksOk, StatsOk, AnnouncedOk, ProgressOk, Log, Append;
    assert defs[key.1].requiredProgress >= 1;
    ProgressStep(defs, t.progress, log, granted, key, n);
    ProgressHere(defs, t.progress, log, granted, key);
    HistoryClosedStep(defs, t.history, t.progress, log, granted, key, n);
    if !Completed(t.progress, key) {
      var before, required := Current(t.progress, key), defs[key.1].requiredProgress;
      var after := Min(before + n, required);
      ProgressBelow(defs, t.progress, log, granted, key);
      HistoryStep(t.history, t.progress, HistoryRow(key, before, after, after >= required));
    }
  }

  lemma ProgressHere(defs: Definitions, progress: ProgressTable, log: Logs, granted: set<Key>, key: Key)
    requires key.1 in defs && ProgressOk(defs, progress, log, granted)
    ensures ProgressAt(defs[key.1].requiredProgress, progress, key, Sum(Log(log, key)), key in granted)
  {
  }

  lemma ProgressBelow(defs: Definitions, progress: ProgressTable, log: Logs, granted: set<Key>, key: Key)
    requires key.1 in defs && ProgressOk(defs, progress, log, granted) && !Completed(progress, key)
    ensures Current(progress, key) < defs[key.1].requiredProgress
  {
    assert ProgressAt(defs[key.1].requiredProgress, progress, key, Sum(Log(log, key)), key in granted);
  }

  function CountUnlock(stats: map<Day, DailyStats>, day: Day): map<Day, DailyStats> {
    var s := StatsOn(stats, day);
    stats[day := s.(totalUnlocks := s.totalUnlocks + 1, uniqueUsersUnlocked := s.uniqueUsersUnlocked + 1)]
  }

  function CountClaim(stats: map<Day, DailyStats>, day: Day): map<Day, DailyStats> {
    var s := StatsOn(stats, day);
    stats[day := s.(totalRewardsClaimed := s.totalRewardsClaimed + 1)]
  }

  /** The tables after the reward of row `id` is claimed. */
  function AfterClaim(t: Tables, id: nat, day: Day): Tables
    requires id < |t.unlocks|
  {
    t.(unlocks := t.unlocks[id := t.unlocks[id].(claimedOn := Some(day))],
       stats := CountClaim(t.stats, day), announced := t.announced + [id])
  }

  lemma ClaimKeeps(defs: Definitions, t: Tables, log: Logs, granted: set<Key>, open: set<Key>, id: nat, day: Day)
    requires Consistent(defs, t, log, granted, open) && id < |t.unlocks| && t.unlocks[id].claimedOn.None?
    ensures Consistent(defs, AfterClaim(t, id, day), log, granted, open)
  {
    RowClaim(t.unlocks, id, day);
  }

  /** The tables after an award without a claim. */
  function AfterAward(t: Tables, key: Key, day: Day): Tables {
    t.(unlocks := t.unlocks + [UnlockRow(key, Rows(t.unlocks, key) + 1, day, None)],
       progress := MarkCompleted(t.progress, key), stats := CountUnlock(t.stats, day))
  }

  /** Marking a key that is complete, or granted by hand, says nothing new about its progress. */
  lemma MarkKeepsProgress(defs: Definitions, progress: ProgressTable, log: Logs, granted: set<Key>, key: Key)
    requires ProgressOk(defs, progress, log, granted) && (key in granted || Completed(progress, key))
    ensures ProgressOk(defs, MarkCompleted(progress, key), log, granted)
  {
  }

  lemma AwardKeepsUnlocks(defs: Definitions, unlocks: seq<UnlockRow>, row: UnlockRow)
    requires UnlocksOk(defs, unlocks) && row.iteration == Rows(unlocks, row.key) + 1
    requires row.key.1 in defs && (defs[row.key.1].repeatable || Rows(unlocks, row.key) == 0)
    ensures UnlocksOk(defs, unlocks + [row])
  {
    RowAppend(unlocks, row);
  }

  lemma AwardKeepsStats(stats: map<Day, DailyStats>, announced: seq<nat>, unlocks: seq<UnlockRow>, row: UnlockRow)
    requires StatsOk(stats, unlocks) && AnnouncedOk(announced, unlocks) && row.claimedOn.None?
    ensures StatsOk(CountUnlock(stats, row.unlockedOn), unlocks + [row]) && AnnouncedOk(announced, unlocks + [row])
  {
    RowAppend(unlocks, row);
  }

  lemma AwardEarns(progress: ProgressTable, unlocks: seq<UnlockRow>, granted: set<Key>, key: Key, row: UnlockRow)
    requires EarnedOnce(progress, unlocks, granted + {key}) && row.key == key
    ensures EarnedOnce(MarkCompleted(progress, key), unlocks + [row], granted + {key})
    ensures Rows(unlocks, key) == 0 && Completed(progress, key) ==>
      EarnedOnce(MarkCompleted(progress, key), unlocks + [row], granted - {key})
  {
    RowAppend(unlocks, row);
  }

  lemma AwardKeeps(defs: Definitions, t: Tables, log: Logs, granted: set<Key>, open: set<Key>, key: Key, day: Day)
    requires Consistent(defs, t, log, granted, open) && key in granted + open
    requires key.1 in defs && (defs[key.1].repeatable || Rows(t.unlocks, key) == 0)
    requires key in granted || Completed(t.progress, key)
    ensures Consistent(defs, AfterAward(t, key, day), log, granted, open)
    ensures Rows(t.unlocks, key) == 0 && Completed(t.progress, key) ==>
      Consistent(defs, AfterAward(t, key, day), log, granted, open - {key})
  {
    hide HistoryOk, HistoryClosed, ProgressOk, UnlocksOk, StatsOk, AnnouncedOk, EarnedOnce;
    var all := granted + open;
    assert all + {key} == all && all - {key} <= granted + (open - {key}) <= all;
    AwardEarns(t.progress, t.unlocks, all, key, UnlockRow(key, Rows(t.unlocks, key) + 1, day, None));
    EarnedOnceFewer(MarkCompleted(t.progress, key), AfterAward(t, key, day).unlocks, all - {key},
      granted + (open - {key}));
    MarkKeepsProgress(defs, t.progress, log, granted, key);
    MarkKeepsHistory(t.history, t.progress, key);
    AwardKeepsUnlocks(defs, t.unlocks, UnlockRow(key, Rows(t.unlocks, key) + 1, day, None));
    AwardKeepsStats(t.stats, t.announced, t.unlocks, UnlockRow(key, Rows(t.unlocks, key) + 1, day, None));
  }

  lemma EarnedOnceFewer(progress: ProgressTable, unlocks: seq<UnlockRow>, granted: set<Key>, more: set<Key>)
    requires granted <= more
    ensures EarnedOnce(progress, unlocks, granted) ==> EarnedOnce(progress, unlocks, more)
  {
  }

  // ---------- The engine ----------

  datatype UnlockResult = Unlocked(id: nat) | NotFound | NotActive | AlreadyUnlocked | UserNotFound

  datatype ClaimResult = Claimed(id: nat) | AlreadyClaimed | Missing | NotUnlocked | NoReward

  predicate AutoClaims(def: Definition) {
    def.reward.Some? && def.reward.value > 0
  }

  /** Awarding an achievement: the outcome, and the tables behind it. */
  function Unlock(defs: Definitions, t: Tables, key: Key, day: Day): (UnlockResult, Tables) {
    if key.1 !in defs then (NotFound, t)
    else if !defs[key.1].active then (NotActive, t)
    else if !defs[key.1].repeatable && Rows(t.unlocks, key) > 0 then (AlreadyUnlocked, t)
    else
      var awarded := AfterAward(t, key, day);
      (Unlocked(|t.unlocks|), if AutoClaims(defs[key.1]) then AfterClaim(awarded, |t.unlocks|, day) else awarded)
  }

  lemma UnlockKeeps(defs: Definitions, t: Tables, log: Logs, granted: set<Key>, open: set<Key>, key: Key, day: Day)
    requires Consistent(defs, t, log, granted, open) && key in granted + open
      && (key in granted || Completed(t.progress, key))
    ensures Consistent(defs, Unlock(defs, t, key, day).1, log, granted, open)
    ensures Rows(t.unlocks, key) == 0 && Completed(t.progress, key) && Unlock(defs, t, key, day).0.Unlocked? ==>
      Consistent(defs, Unlock(defs, t, key, day).1, log, granted, open - {key})
  {
    hide Consistent;
    if Unlock(defs, t, key, day).0.Unlocked? {
      AwardKeeps(defs, t, log, granted, open, key, day);
      if AutoClaims(defs[key.1]) {
        ClaimKeeps(defs, AfterAward(t, key, day), log, granted, open, |t.unlocks|, day);
        if Rows(t.unlocks, key) == 0 && Completed(t.progress, key) {
          ClaimKeeps(defs, AfterAward(t, key, day), log, granted, open - {key}, |t.unlocks|, day);
        }
      }
    }
  }

  /** An award in full: who is refused, and what the new row, the progress, the day's statistics and
      the announcements are. A reward with entries is claimed at once. */
  lemma UnlockExact(defs: Definitions, t: Tables, key: Key, day: Day)
    ensures var (result, out) := Unlock(defs, t, key, day);
      && (result == NotFound <==> key.1 !in defs)
      && (result == NotActive <==> key.1 in defs && !defs[key.1].active)
      && (result == AlreadyUnlocked <==>
            key.1 in defs && defs[key.1].active && !defs[key.1].repeatable && Rows(t.unlocks, key) > 0)
      && (result.Unlocked? || result == NotFound || result == NotActive || result == AlreadyUnlocked)
      && (!result.Unlocked? ==> out == t)
      && (result.Unlocked? ==>
            var claims := defs[key.1].reward.Some? && defs[key.1].reward.value != 0;
            var before, after := StatsOn(t.stats, day), StatsOn(out.stats, day);
            && result.id == |t.unlocks| && out.history == t.history
            && out.unlocks == t.unlocks +
                 [UnlockRow(key, Rows(t.unlocks, key) + 1, day, if claims then Some(day) else None)]
            && out.announced == t.announced + (if claims then [|t.unlocks|] else [])
            && out.progress.Keys == t.progress.Keys
            && (forall k :: k in t.progress ==>
                  out.progress[k] == Progress(t.progress[k].current, k == key || t.progress[k].isCompleted))
            && after.totalUnlocks == before.totalUnlocks + 1
              && after.uniqueUsersUnlocked == before.uniqueUsersUnlocked + 1
            && after.totalRewardsClaimed == before.totalRewardsClaimed + (if claims then 1 else 0)
            && forall d :: d != day ==> StatsOn(out.stats, d) == StatsOn(t.stats, d))
  {
  }

  /** Granting a key by hand only relaxes what is known about it. */
  lemma GrantRelaxes(defs: Definitions, t: Tables, log: Logs, granted: set<Key>, key: Key)
    requires Consistent(defs, t, log, granted, {})
    ensures Consistent(defs, t, log, granted + {key}, {})
  {
    hide HistoryOk, UnlocksOk, StatsOk, AnnouncedOk;
  }

  /** The event whose increments lead from `before` to `after` is the first to reach the requirement. */
  predicate Reaches(def: Definition, before: seq<int>, after: seq<int>) {
    Sum(before) < def.requiredProgress <= Sum(after)
  }

  lemma CompletesIffReaches(defs: Definitions, t: Tables, log: Logs, granted: set<Key>, key: Key, n: int)
    requires Consistent(defs, t, log, granted, {}) && key.1 in defs && key !in granted && n >= 1
    ensures var next := Incremented(t, key, defs[key.1].requiredProgress, Some(n));
      Reaches(defs[key.1], Log(log, key), Log(log, key) + [n]) <==>
        !Completed(t.progress, key) && Completed(next.progress, key)
    ensures !Completed(t.progress, key) ==> Rows(t.unlocks, key) == 0
  {
    hide HistoryOk, HistoryClosed, UnlocksOk, StatsOk, AnnouncedOk;
    SumAppend(Log(log, key), n);
    assert ProgressAt(defs[key.1].requiredProgress, t.progress, key, Sum(Log(log, key)), key in granted);
  }

  // ---------- Claiming by achievement ----------

  predicate RowOf(unlocks: seq<UnlockRow>, key: Key, i: nat) {
    i < |unlocks| && unlocks[i].key == key
  }

  predicate HasRow(unlocks: seq<UnlockRow>, key: Key) {
    exists i: nat :: i < |unlocks| && RowOf(unlocks, key, i)
  }

  predicate HasUnclaimed(unlocks: seq<UnlockRow>, key: Key) {
    exists i: nat :: i < |unlocks| && RowOf(unlocks, key, i) && unlocks[i].claimedOn.None?
  }

  predicate HasClaimed(unlocks: seq<UnlockRow>, key: Key) {
    exists i: nat :: i < |unlocks| && RowOf(unlocks, key, i) && unlocks[i].claimedOn.Some?
  }

  /** The achievement has a reward definition, be it an empty one. */
  predicate Rewarded(defs: Definitions, key: Key) {
    key.1 in defs && defs[key.1].reward.Some?
  }

  /** Row `id` is unclaimed, and every later row of its user and achievement is claimed. */
  predicate NewestUnclaimed(unlocks: seq<UnlockRow>, key: Key, id: nat) {
    && RowOf(unlocks, key, id) && unlocks[id].claimedOn.None?
    && forall i :: id < i < |unlocks| && unlocks[i].key == key ==> unlocks[i].claimedOn.Some?
  }

  function Newest(unlocks: seq<UnlockRow>, key: Key): (id: Option<nat>)
    ensures id.Some? ==> NewestUnclaimed(unlocks, key, id.value)
    ensures id.None? <==> !HasUnclaimed(unlocks, key)
  {
    if unlocks == [] then None
    else
      var i := |unlocks| - 1;
      if unlocks[i].key == key && unlocks[i].claimedOn.None? then
        assert RowOf(unlocks, key, i);
        Some(i)
      else
        var id := Newest(unlocks[..i], key);
        assert forall j: nat :: j < i ==> RowOf(unlocks, key, j) == RowOf(unlocks[..i], key, j);
        id
  }

  /** Claiming by achievement. `found` is the row that the eligibility check happens to read, any
      one of the key's rows; what is claimed is the newest unclaimed one. */
  function ClaimNewest(defs: Definitions, t: Tables, key: Key, found: nat, day: Day): (ClaimResult, Tables)
    requires HasRow(t.unlocks, key) ==> RowOf(t.unlocks, key, found)
  {
    if !HasRow(t.unlocks, key) then (NotUnlocked, t)
    else if t.unlocks[found].claimedOn.Some? then (AlreadyClaimed, t)
    else if !Rewarded(defs, key) then (NoReward, t)
    else
      var id := Newest(t.unlocks, key);
      if id.None? then (AlreadyClaimed, t) else (Claimed(id.value), AfterClaim(t, id.value, day))
  }

  /** Whatever row is found, the claim succeeds if and only if there is a reward and all of the
      key's rows, of which there is one, are unclaimed. */
  lemma ClaimAlwaysSucceeds(defs: Definitions, t: Tables, key: Key, day: Day)
    ensures (HasRow(t.unlocks, key) &&
             forall found: nat :: RowOf(t.unlocks, key, found) ==>
               ClaimNewest(defs, t, key, found, day).0.Claimed?) <==>
      HasRow(t.unlocks, key) && Rewarded(defs, key) && !HasClaimed(t.unlocks, key)
  {
    forall found: nat | RowOf(t.unlocks, key, found)
      ensures ClaimNewest(defs, t, key, found, day).0.Claimed? <==>
        Rewarded(defs, key) && t.unlocks[found].claimedOn.None?
    {
      ClaimSucceeds(defs, t, key, found, day);
    }
  }

  lemma ClaimSucceeds(defs: Definitions, t: Tables, key: Key, found: nat, day: Day)
    requires RowOf(t.unlocks, key, found)
    ensures ClaimNewest(defs, t, key, found, day).0.Claimed? <==>
      Rewarded(defs, key) && t.unlocks[found].claimedOn.None?
  {
    assert HasRow(t.unlocks, key);
    if t.unlocks[found].claimedOn.None? {
      assert HasUnclaimed(t.unlocks, key);
    }
  }

  /** An unclaimed reward may be refused if and only if another of the key's rows is claimed, or
      there is no reward definition. */
  lemma ClaimMayBeRefused(defs: Definitions, t: Tables, key: Key, day: Day)
    requires HasUnclaimed(t.unlocks, key)
    ensures HasRow(t.unlocks, key)
    ensures (exists found: nat ::
        RowOf(t.unlocks, key, found) && !ClaimNewest(defs, t, key, found, day).0.Claimed?) <==>
      HasClaimed(t.unlocks, key) || !Rewarded(defs, key)
  {
    var open: nat :| open < |t.unlocks| && RowOf(t.unlocks, key, open) && t.unlocks[open].claimedOn.None?;
    assert RowOf(t.unlocks, key, open);
    forall found: nat | RowOf(t.unlocks, key, found)
      ensures ClaimNewest(defs, t, key, found, day).0.Claimed? <==>
        Rewarded(defs, key) && t.unlocks[found].claimedOn.None?
    {
      ClaimSucceeds(defs, t, key, found, day);
    }
  }

  lemma UnclaimedNotAnnounced(defs: Definitions, t: Tables, log: Logs, granted: set<Key>, id: nat)
    requires Consistent(defs, t, log, granted, {}) && id < |t.unlocks| && t.unlocks[id].claimedOn.None?
    ensures id !in t.announced
  {
  }

  // ---------- Events ----------

  /** An order in which the database may list definitions. */
  predicate Listing(defs: Definitions, order: seq<Id>) {
    (forall id :: id in order ==> id in defs) && Distinct(order)
  }

  /** The definitions, in `order`, that answer to an event. */
  function Responding(defs: Definitions, event: Event, order: seq<Id>): (matching: seq<Id>)
    requires forall id :: id in order ==> id in defs
    ensures forall id :: id in matching ==> id in defs && defs[id].rule.Some?
  {
    if order == [] then []
    else
      Responding(defs, event, order[..|order| - 1]) +
      if Responds(defs[order[|order| - 1]], event) then [order[|order| - 1]] else []
  }

  lemma {:induction false} RespondingExact(defs: Definitions, event: Event, order: seq<Id>)
    requires Listing(defs, order)
    ensures var matching := Responding(defs, event, order);
      && (forall id :: id in matching <==>
            && id in order && defs[id].active && defs[id].rule.Some? && event.code in defs[id].rule.value.eventCodes
            && EvaluateRule(defs[id].rule.value.operator, event.metadata))
      && Distinct(matching)
    decreases |order|
  {
    if order == [] {
    } else {
      var rest, last := order[..|order| - 1], order[|order| - 1];
      RespondingExact(defs, event, rest);
      hide EvaluateRule;
      assert order == rest + [last];
    }
  }

  function Ids(order: seq<Id>): set<Id> {
    set id | id in order
  }

  /** `after` is `before` with `ns` added for `key`. */
  ghost predicate Extended(before: Logs, after: Logs, key: Key, ns: seq<int>) {
    forall k :: Log(after, k) == if k == key then Log(before, k) + ns else Log(before, k)
  }

  /** Between `before` and `after` exactly the responding definitions among `ids` have each
      received their increment for the event's user. */
  ghost predicate Contributed(defs: Definitions, event: Event, before: Logs, after: Logs, ids: set<Id>) {
    forall key: Key :: Log(after, key) == Log(before, key) +
      if key.0 == event.user && key.1 in ids && key.1 in defs then Increment(defs[key.1], event) else []
  }

  /** `unlockedIds` names exactly the achievements among `ids`, of those never granted by hand,
      whose requirement is first reached between `before` and `after`. */
  ghost predicate UnlockedExactly(defs: Definitions, user: User, granted: set<Key>, before: Logs,
                                  after: Logs, ids: set<Id>, unlockedIds: seq<Id>)
  {
    && (forall id :: id in unlockedIds ==> id in ids)
    && forall id :: id in ids && id in defs && (user, id) !in granted ==>
         (id in unlockedIds <==> Reaches(defs[id], Log(before, (user, id)), Log(after, (user, id))))
  }

  lemma UnlockedStep(defs: Definitions, user: User, granted: set<Key>, start: Logs, log: Logs, after: Logs,
                     ids: set<Id>, unlockedIds: seq<Id>, id: Id, ns: seq<int>, unlocked: bool)
    requires UnlockedExactly(defs, user, granted, start, log, ids, unlockedIds) && id in defs && id !in ids
    requires Log(log, (user, id)) == Log(start, (user, id)) && Extended(log, after, (user, id), ns)
    requires (user, id) !in granted ==>
      (unlocked <==> Reaches(defs[id], Log(log, (user, id)), Log(after, (user, id))))
    ensures UnlockedExactly(defs, user, granted, start, after, ids + {id},
      if unlocked then unlockedIds + [id] else unlockedIds)
  {
    hide Reaches;
  }

  lemma ContributedStep(defs: Definitions, event: Event, start: Logs, log: Logs, after: Logs, ids: set<Id>, id: Id)
    requires Contributed(defs, event, start, log, ids) && id !in ids && id in defs
    requires Extended(log, after, (event.user, id), Increment(defs[id], event))
    ensures Contributed(defs, event, start, after, ids + {id})
    ensures Log(log, (event.user, id)) == Log(start, (event.user, id))
  {
    hide Increment;
  }

  /** What one definition's answer to an event does to the log, and when it unlocks. */
  ghost predicate Answered(def: Definition, event: Event, granted: set<Key>, before: Logs, after: Logs,
                           unlocked: bool)
  {
    var key := (event.user, def.id);
    && Extended(before, after, key, Increment(def, event))
    && (key !in granted ==> (unlocked <==> Reaches(def, Log(before, key), Log(after, key))))
  }

  ghost predicate Evaluated(defs: Definitions, event: Event, granted: set<Key>, before: Logs, after: Logs,
                            ids: set<Id>, unlockedIds: seq<Id>)
  {
    && Contributed(defs, event, before, after, ids)
    && UnlockedExactly(defs, event.user, granted, before, after, ids, unlockedIds)
  }

  lemma NothingYet(defs: Definitions, event: Event, granted: set<Key>, log: Logs)
    ensures Evaluated(defs, event, granted, log, log, {}, [])
  {
  }

  lemma EvaluatedStep(defs: Definitions, event: Event, granted: set<Key>, start: Logs, before: Logs,
                      after: Logs, seen: set<Id>, unlockedIds: seq<Id>, id: Id, unlocked: bool)
    requires Evaluated(defs, event, granted, start, before, seen, unlockedIds) && id !in seen
    requires id in defs && defs[id].id == id && Answered(defs[id], event, granted, before, after, unlocked)
    ensures Evaluated(defs, event, granted, start, after, seen + {id},
      if unlocked then unlockedIds + [id] else unlockedIds)
  {
    hide Contributed, UnlockedExactly, Reaches, Extended, Increment;
    ContributedStep(defs, event, start, before, after, seen, id);
    var ns := Increment(defs[id], event);
    UnlockedStep(defs, event.user, granted, start, before, after, seen, unlockedIds, id, ns, unlocked);
  }

  lemma ContributedWithin(defs: Definitions, event: Event, before: Logs, after: Logs, ids: set<Id>, order: set<Id>)
    requires Contributed(defs, event, before, after, ids)
    requires forall id :: id in defs && Responds(defs[id], event) ==> (id in ids <==> id in order)
    ensures Contributed(defs, event, before, after, order)
  {
  }

  lemma UnlockedBeyond(defs: Definitions, event: Event, granted: set<Key>, before: Logs, after: Logs,
                       ids: set<Id>, order: set<Id>, unlockedIds: seq<Id>)
    requires Contributed(defs, event, before, after, ids)
    requires UnlockedExactly(defs, event.user, granted, before, after, ids, unlockedIds) && ids <= order
    ensures UnlockedExactly(defs, event.user, granted, before, after, order, unlockedIds)
  {
    forall id | id in defs && id !in ids
      ensures !Reaches(defs[id], Log(before, (event.user, id)), Log(after, (event.user, id)))
    {
      assert Log(after, (event.user, id)) == Log(before, (event.user, id));
    }
  }

  /** The tables after an increment of `n`, and the unlock when that completes the progress. */
  function RaiseOnce(defs: Definitions, t: Tables, key: Key, required: int, n: int, day: Day): (Tables, bool) {
    var next := Incremented(t, key, required, Some(n));
    if Completed(t.progress, key) || !Completed(next.progress, key) then (next, false)
    else var (result, out) := Unlock(defs, next, key, day); (out, result.Unlocked?)
  }

  /** What one responding definition does to the tables, and whether it unlocks. */
  function Answer(defs: Definitions, t: Tables, event: Event, def: Definition, day: Day): (Tables, bool)
    requires def.rule.Some?
  {
    var extracted := ExtractIncrement(def.rule.value, event.metadata);
    if extracted.None? then (t, false)
    else RaiseOnce(defs, t, (event.user, def.id), def.requiredProgress, extracted.value, day)
  }

  /** The definitions `ids` answer an event one after another. */
  function Answers(defs: Definitions, t: Tables, event: Event, ids: seq<Id>, day: Day): (Tables, seq<Id>)
    requires forall id :: id in ids ==> id in defs && defs[id].rule.Some?
  {
    if ids == [] then (t, [])
    else
      var (sofar, unlockedIds) := Answers(defs, t, event, ids[..|ids| - 1], day);
      var last := ids[|ids| - 1];
      var (next, unlocked) := Answer(defs, sofar, event, defs[last], day);
      (next, if unlocked then unlockedIds + [last] else unlockedIds)
  }

  lemma AnswerKeeps(defs: Definitions, t: Tables, log: Logs, granted: set<Key>, event: Event, def: Definition, day: Day)
    returns (after: Logs)
    requires Consistent(defs, t, log, granted, {}) && def.id in defs && defs[def.id] == def && Responds(def, event)
    ensures Consistent(defs, Answer(defs, t, event, def, day).0, after, granted, {})
    ensures Answered(def, event, granted, log, after, Answer(defs, t, event, def, day).1)
  {
    var key, extracted := (event.user, def.id), ExtractIncrement(def.rule.value, event.metadata);
    if extracted.None? {
      after := log;
    } else {
      after := Append(log, key, extracted.value);
      hide Consistent, Append, RaiseOnce, Reaches;
      RaiseKeeps(defs, t, log, granted, def, key, extracted.value, day);
      AppendExtends(log, key, extracted.value);
    }
  }

  lemma AppendExtends(log: Logs, key: Key, n: int)
    ensures Extended(log, Append(log, key, n), key, [n])
  {
  }

  lemma RaiseKeeps(defs: Definitions, t: Tables, log: Logs, granted: set<Key>, def: Definition, key: Key, n: int,
                   day: Day)
    requires Consistent(defs, t, log, granted, {}) && def.id in defs && defs[def.id] == def
    requires key.1 == def.id && def.active && n >= 1
    ensures var (out, unlocked) := RaiseOnce(defs, t, key, def.requiredProgress, n, day);
      && Consistent(defs, out, Append(log, key, n), granted, {})
      && (key !in granted ==> (unlocked <==> Reaches(def, Log(log, key), Log(log, key) + [n])))
  {
    assert {key} - {key} == {} && key in granted + {key};
    hide Consistent, Append, AfterAward, AfterClaim;
    var after := Append(log, key, n);
    IncrementKeeps(defs, t, log, granted, key, n);
    if key !in granted {
      CompletesIffReaches(defs, t, log, granted, key, n);
    }
    var next := Incremented(t, key, def.requiredProgress, Some(n));
    if !Completed(t.progress, key) && Completed(next.progress, key) {
      UnlockKeeps(defs, next, after, granted, {key}, key, day);
      if key in granted {
        GrantedIsOpen(defs, Unlock(defs, next, key, day).1, after, granted, key);
      } else {
        AwardNotRefused(defs, next, key, day);
      }
    }
  }

  lemma GrantedIsOpen(defs: Definitions, t: Tables, log: Logs, granted: set<Key>, key: Key)
    requires Consistent(defs, t, log, granted, {key}) && key in granted
    ensures Consistent(defs, t, log, granted, {})
  {
    assert granted + {key} == granted + {};
  }

  lemma AwardNotRefused(defs: Definitions, t: Tables, key: Key, day: Day)
    requires key.1 in defs && defs[key.1].active && Rows(t.unlocks, key) == 0
    ensures Unlock(defs, t, key, day).0.Unlocked?
  {
  }

  lemma {:induction false} AnswersKeep(defs: Definitions, t: Tables, log: Logs, granted: set<Key>, event: Event,
                                       ids: seq<Id>, day: Day)
    returns (after: Logs)
    requires Consistent(defs, t, log, granted, {}) && Listing(defs, ids)
    requires forall id :: id in ids ==> id in defs && defs[id].rule.Some? && Responds(defs[id], event)
    ensures Consistent(defs, Answers(defs, t, event, ids, day).0, after, granted, {})
    ensures Evaluated(defs, event, granted, log, after, Ids(ids), Answers(defs, t, event, ids, day).1)
    decreases |ids|
  {
    if ids == [] {
      after := log;
      NothingYet(defs, event, granted, log);
      assert Ids(ids) == {};
    } else {
      var rest, last := ids[..|ids| - 1], ids[|ids| - 1];
      assert ids == rest + [last] && Ids(ids) == Ids(rest) + {last} && last !in Ids(rest);
      assert defs[last].id == last;
      hide Evaluated, Answered, Answer, Responds;
      var before := AnswersKeep(defs, t, log, granted, event, rest, day);
      hide Consistent;
      var (sofar, unlockedIds) := Answers(defs, t, event, rest, day);
      after := AnswerKeeps(defs, sofar, before, granted, event, defs[last], day);
      EvaluatedStep(defs, event, granted, log, before, after, Ids(rest), unlockedIds, last,
        Answer(defs, sofar, event, defs[last], day).1);
    }
  }

  /** An event keeps everything and has exactly the promised effect on progress and unlocks. */
  lemma EventKeeps(defs: Definitions, t: Tables, log: Logs, granted: set<Key>, event: Event, order: seq<Id>, day: Day)
    returns (after: Logs)
    requires Consistent(defs, t, log, granted, {}) && Listing(defs, order)
    ensures var (next, unlockedIds) := Answers(defs, t, event, Responding(defs, event, order), day);
      Consistent(defs, next, after, granted, {}) && Evaluated(defs, event, granted, log, after, Ids(order), unlockedIds)
  {
    var matching := Responding(defs, event, order);
    RespondingExact(defs, event, order);
    after := AnswersKeep(defs, t, log, granted, event, matching, day);
    hide Consistent, Contributed, UnlockedExactly;
    ContributedWithin(defs, event, log, after, Ids(matching), Ids(order));
    UnlockedBeyond(defs, event, granted, log, after, Ids(matching), Ids(order),
      Answers(defs, t, event, matching, day).1);
  }

  // ---------- Whole runs ----------

  datatype Operation =
    | Happen(event: Event, order: seq<Id>, day: Day)
    | Grant(key: Key, day: Day)
    | Claim(id: nat, day: Day)

  const EMPTY := Tables(map[], [], [], map[], [])

  predicate Proper(defs: Definitions, op: Operation) {
    op.Happen? ==> Listing(defs, op.order)
  }

  function Perform(defs: Definitions, users: set<User>, t: Tables, op: Operation): Tables
    requires Proper(defs, op)
  {
    match op
    case Happen(event, order, day) =>
      Answers(defs, t, event, Responding(defs, event, order), day).0
    case Grant(key, day) => if key.0 in users then Unlock(defs, t, key, day).1 else t
    case Claim(id, day) => if id < |t.unlocks| && t.unlocks[id].claimedOn.None? then AfterClaim(t, id, day) else t
  }

  function AfterAll(defs: Definitions, users: set<User>, ops: seq<Operation>): Tables
    requires forall op :: op in ops ==> Proper(defs, op)
  {
    if ops == [] then EMPTY else Perform(defs, users, AfterAll(defs, users, ops[..|ops| - 1]), ops[|ops| - 1])
  }

  // The closed form reads the operations alone, never the tables.

  /** What an operation contributes to the progress of `key`. */
  function Contribution(defs: Definitions, op: Operation, key: Key): seq<int> {
    if op.Happen? && op.event.user == key.0 && key.1 in op.order && key.1 in defs
    then Increment(defs[key.1], op.event) else []
  }

  function Increments(defs: Definitions, ops: seq<Operation>, key: Key): seq<int> {
    if ops == [] then []
    else Increments(defs, ops[..|ops| - 1], key) + Contribution(defs, ops[|ops| - 1], key)
  }

  /** A manual grant that is not refused. */
  predicate GoesThrough(defs: Definitions, users: set<User>, t: Tables, op: Operation) {
    op.Grant? && op.key.0 in users && Unlock(defs, t, op.key, op.day).0.Unlocked?
  }

  /** The keys that manual grants have awarded. */
  function Granted(defs: Definitions, users: set<User>, ops: seq<Operation>): set<Key>
    requires forall op :: op in ops ==> Proper(defs, op)
  {
    if ops == [] then {}
    else
      var rest, last := ops[..|ops| - 1], ops[|ops| - 1];
      Granted(defs, users, rest) +
      if GoesThrough(defs, users, AfterAll(defs, users, rest), last) then {last.key} else {}
  }

  ghost predicate Logged(defs: Definitions, ops: seq<Operation>, log: Logs) {
    forall key :: Log(log, key) == Increments(defs, ops, key)
  }

  lemma PerformKeeps(defs: Definitions, users: set<User>, t: Tables, log: Logs, granted: set<Key>, op: Operation)
    returns (after: Logs)
    requires Consistent(defs, t, log, granted, {}) && Proper(defs, op)
    ensures Consistent(defs, Perform(defs, users, t, op), after,
      granted + (if GoesThrough(defs, users, t, op) then {op.key} else {}), {})
    ensures forall key :: Log(after, key) == Log(log, key) + Contribution(defs, op, key)
  {
    hide Consistent, UnlockedExactly, Increment, AfterAward, AfterClaim;
    after := log;
    assert granted + {} == granted;
    match op
    case Happen(event, order, day) => after := EventKeeps(defs, t, log, granted, event, order, day);
    case Grant(key, day) =>
      if GoesThrough(defs, users, t, op) {
        GrantRelaxes(defs, t, log, granted, key);
        UnlockKeeps(defs, t, log, granted + {key}, {}, key, day);
      }
    case Claim(id, day) =>
      if id < |t.unlocks| && t.unlocks[id].claimedOn.None? {
        ClaimKeeps(defs, t, log, granted, {}, id, day);
      }
  }

  lemma RunStep(defs: Definitions, users: set<User>, ops: seq<Operation>, op: Operation, before: Logs, after: Logs)
    requires forall o :: o in ops + [op] ==> Proper(defs, o)
    requires Logged(defs, ops, before)
      && forall key :: Log(after, key) == Log(before, key) + Contribution(defs, op, key)
    ensures Logged(defs, ops + [op], after)
    ensures (forall o :: o in ops ==> Proper(defs, o)) && Proper(defs, op)
    ensures AfterAll(defs, users, ops + [op]) == Perform(defs, users, AfterAll(defs, users, ops), op)
    ensures Granted(defs, users, ops + [op]) ==
      Granted(defs, users, ops) + if GoesThrough(defs, users, AfterAll(defs, users, ops), op) then {op.key} else {}
  {
    hide GoesThrough, Perform, Contribution, Proper;
    assert (ops + [op])[..|ops|] == ops;
    assert forall o :: o in ops ==> o in ops + [op];
    assert op in ops + [op];
  }

  /** Every run keeps everything, with a log that is the closed form. */
  lemma {:induction false} RunKeeps(defs: Definitions, users: set<User>, ops: seq<Operation>) returns (log: Logs)
    requires DefinitionsOk(defs) && forall op :: op in ops ==> Proper(defs, op)
    ensures Consistent(defs, AfterAll(defs, users, ops), log, Granted(defs, users, ops), {}) && Logged(defs, ops, log)
    decreases |ops|
  {
    if ops == [] {
      log := map[];
    } else {
      var rest, last := ops[..|ops| - 1], ops[|ops| - 1];
      assert ops == rest + [last];
      var before := RunKeeps(defs, users, rest);
      hide *;
      log := PerformKeeps(defs, users, AfterAll(defs, users, rest), before, Granted(defs, users, rest), last);
      RunStep(defs, users, rest, last, before, log);
    }
  }

  /** In every run of events, grants and claims, progress that nobody granted by hand is the sum
      of the matching increments capped at the requirement, its history is exactly the row per
      increment up to there, and there is one unlock row as soon as the sum reaches the requirement
      and none before. */
  lemma ProgressClosedForm(defs: Definitions, users: set<User>, ops: seq<Operation>, key: Key)
    requires DefinitionsOk(defs) && forall op :: op in ops ==> Proper(defs, op)
    requires key.1 in defs && key !in Granted(defs, users, ops)
    ensures var t, required := AfterAll(defs, users, ops), defs[key.1].requiredProgress;
      var increments := Increments(defs, ops, key);
      var total := Sum(increments);
      && Current(t.progress, key) == (if total < required then total else required)
      && Chained(HistoryOf(t.history, key), if total < required then total else required)
      && HistoryOf(t.history, key) == Expected(key, increments, required)
      && (Completed(t.progress, key) <==> total >= required)
      && Rows(t.unlocks, key) == if total >= required then 1 else 0
  {
    var log := RunKeeps(defs, users, ops);
    ProgressHere(defs, AfterAll(defs, users, ops).progress, log, Granted(defs, users, ops), key);
  }

  /** What one more operation adds to the increments of a key, in full. */
  lemma IncrementsExact(defs: Definitions, ops: seq<Operation>, op: Operation, key: Key)
    ensures Increments(defs, [], key) == []
    ensures Increments(defs, ops + [op], key) == Increments(defs, ops, key) +
      if op.Happen? && op.event.user == key.0 && key.1 in op.order && key.1 in defs
        && defs[key.1].active && defs[key.1].rule.Some? && op.event.code in defs[key.1].rule.value.eventCodes
        && EvaluateRule(defs[key.1].rule.value.operator, op.event.metadata)
        && ExtractIncrement(defs[key.1].rule.value, op.event.metadata).Some?
      then [ExtractIncrement(defs[key.1].rule.value, op.event.metadata).value] else []
  {
    assert (ops + [op])[..|ops|] == ops;
  }

  /** In every run the unlock rows are numbered 1 to n per user and achievement, one at most when
      it is not repeatable; rewards are announced once each, exactly for the claimed rows; and
      the statistics are the row counts. */
  lemma RunAccounts(defs: Definitions, users: set<User>, ops: seq<Operation>, key: Key, n: int)
    requires DefinitionsOk(defs) && forall op :: op in ops ==> Proper(defs, op)
    ensures var t := AfterAll(defs, users, ops);
      && StatsOk(t.stats, t.unlocks) && AnnouncedOk(t.announced, t.unlocks)
      && (key.1 in defs && !defs[key.1].repeatable ==> Rows(t.unlocks, key) <= 1)
      && (1 <= n <= Rows(t.unlocks, key) <==>
        exists i :: 0 <= i < |t.unlocks| && t.unlocks[i].key == key && t.unlocks[i].iteration == n)
      && (forall i, j :: 0 <= i < j < |t.unlocks| && t.unlocks[i].key == key && t.unlocks[j].key == key ==>
            t.unlocks[i].iteration < t.unlocks[j].iteration)
  {
    var log := RunKeeps(defs, users, ops);
    IterationsAscend(AfterAll(defs, users, ops).unlocks, key);
    IterationsExact(AfterAll(defs, users, ops).unlocks, key, n);
  }

  /** The unique-user statistic of a day is the number of users with an unlock that day if and
      only if none of them has two; otherwise it is larger. */
  lemma UniqueUsersExact(defs: Definitions, users: set<User>, ops: seq<Operation>, day: Day)
    requires DefinitionsOk(defs) && forall op :: op in ops ==> Proper(defs, op)
    ensures var t := AfterAll(defs, users, ops);
      && |UsersOn(t.unlocks, day)| <= StatsOn(t.stats, day).uniqueUsersUnlocked
      && (StatsOn(t.stats, day).uniqueUsersUnlocked == |UsersOn(t.unlocks, day)| <==> OneRowEach(t.unlocks, day))
  {
    var log := RunKeeps(defs, users, ops);
    UsersCounted(AfterAll(defs, users, ops).unlocks, day);
  }

  lemma TwoOperations(defs: Definitions, users: set<User>, a: Operation, b: Operation)
    requires Proper(defs, a) && Proper(defs, b)
    ensures AfterAll(defs, users, [a, b]) == Perform(defs, users, Perform(defs, users, EMPTY, a), b)
  {
    hide Perform;
    assert [a, b][..1] == [a] && [a][..0] == [];
    assert AfterAll(defs, users, []) == EMPTY;
    assert AfterAll(defs, users, [a]) == Perform(defs, users, EMPTY, a);
  }

  /** Two grants to one user on one day count two unique users. */
  lemma OneUserCountedTwice(defs: Definitions, user: User, a: Id, b: Id, day: Day)
    requires a in defs && b in defs && a != b && defs[a].active && defs[b].active
    requires !AutoClaims(defs[a]) && !AutoClaims(defs[b])
    ensures var t := AfterAll(defs, {user}, [Grant((user, a), day), Grant((user, b), day)]);
      StatsOn(t.stats, day).uniqueUsersUnlocked == 2 && UsersOn(t.unlocks, day) == {user}
  {
    hide Perform, Unlock;
    var first, second := UnlockRow((user, a), 1, day, None), UnlockRow((user, b), 1, day, None);
    TwoOperations(defs, {user}, Grant((user, a), day), Grant((user, b), day));
    var one := PlainGrant(defs, user, EMPTY, a, day);
    assert Rows([], (user, a)) == 0 && [first][..0] == [];
    assert one.unlocks == [first];
    var two := PlainGrant(defs, user, one, b, day);
    assert two.unlocks == [first, second] && first in two.unlocks;
    assert StatsOn(EMPTY.stats, day).uniqueUsersUnlocked == 0;
  }

  /** A grant that adds a row and claims nothing. */
  lemma PlainGrant(defs: Definitions, user: User, t: Tables, id: Id, day: Day) returns (next: Tables)
    requires id in defs && defs[id].active && !AutoClaims(defs[id])
    requires defs[id].repeatable || Rows(t.unlocks, (user, id)) == 0
    ensures next == Perform(defs, {user}, t, Grant((user, id), day))
    ensures next.unlocks == t.unlocks + [UnlockRow((user, id), Rows(t.unlocks, (user, id)) + 1, day, None)]
    ensures StatsOn(next.stats, day).uniqueUsersUnlocked == StatsOn(t.stats, day).uniqueUsersUnlocked + 1
  {
    next := AfterAward(t, (user, id), day);
  }

  /** A refusal that happens: after two grants of a repeatable achievement with an empty reward,
      and a claim of the newer row, the older one is claimed or refused as the database pleases. */
  lemma ClaimRefused(defs: Definitions, key: Key, day: Day)
    requires key.1 in defs && defs[key.1].active && defs[key.1].repeatable && defs[key.1].reward == Some(0)
    ensures var t := Perform(defs, {key.0}, AfterAll(defs, {key.0}, [Grant(key, day), Grant(key, day)]), Claim(1, day));
      && RowOf(t.unlocks, key, 0) && RowOf(t.unlocks, key, 1) && HasRow(t.unlocks, key) && |t.unlocks| == 2
      && ClaimNewest(defs, t, key, 0, day).0 == Claimed(0)
      && ClaimNewest(defs, t, key, 1, day).0 == AlreadyClaimed
  {
    hide Perform, Unlock, ClaimNewest, AfterAll, HasRow;
    var two := TwoGrants(defs, key, day);
    ClaimSecond(defs, key.0, two, day);
    TwoRowsOneClaimed(defs, Perform(defs, {key.0}, two, Claim(1, day)), key, day);
  }

  lemma TwoGrants(defs: Definitions, key: Key, day: Day) returns (two: Tables)
    requires key.1 in defs && defs[key.1].active && defs[key.1].repeatable && !AutoClaims(defs[key.1])
    ensures two == AfterAll(defs, {key.0}, [Grant(key, day), Grant(key, day)])
    ensures two.unlocks == [UnlockRow(key, 1, day, None), UnlockRow(key, 2, day, None)]
  {
    hide Perform, Unlock;
    var first := UnlockRow(key, 1, day, None);
    TwoOperations(defs, {key.0}, Grant(key, day), Grant(key, day));
    var one := PlainGrant(defs, key.0, EMPTY, key.1, day);
    assert Rows([], key) == 0 && one.unlocks == [first];
    assert [first][..0] == [] && Rows([first], key) == 1;
    two := PlainGrant(defs, key.0, one, key.1, day);
  }

  lemma ClaimSecond(defs: Definitions, user: User, t: Tables, day: Day)
    requires |t.unlocks| == 2 && t.unlocks[1].claimedOn.None?
    ensures Perform(defs, {user}, t, Claim(1, day)).unlocks == [t.unlocks[0], t.unlocks[1].(claimedOn := Some(day))]
  {
  }

  lemma TwoRowsOneClaimed(defs: Definitions, t: Tables, key: Key, day: Day)
    requires |t.unlocks| == 2 && t.unlocks[0].key == t.unlocks[1].key == key && Rewarded(defs, key)
    requires t.unlocks[0].claimedOn.None? && t.unlocks[1].claimedOn.Some?
    ensures RowOf(t.unlocks, key, 0) && RowOf(t.unlocks, key, 1) && HasRow(t.unlocks, key)
    ensures ClaimNewest(defs, t, key, 0, day).0 == Claimed(0)
    ensures ClaimNewest(defs, t, key, 1, day).0 == AlreadyClaimed
  {
    assert RowOf(t.unlocks, key, 0);
    assert HasUnclaimed(t.unlocks, key);
  }

  class AchievementEngine {
    const defs: Definitions
    const users: set<User>
    var tables: Tables

    // The increments of the matching events so far, and the keys granted by hand.
    ghost var log: Logs
    ghost var granted: set<Key>

    ghost predicate Valid()
      reads this
    {
      Consistent(defs, tables, log, granted, {})
    }

    constructor (definitions: Definitions, users: set<User>)
      requires DefinitionsOk(definitions)
      ensures Valid() && defs == definitions && this.users == users
      ensures tables == EMPTY && log == map[] && granted == {}
    {
      defs, this.users := definitions, users;
      tables := EMPTY;
      log, granted := map[], {};
    }

    /** An increment that is not a number is refused by the database, and the error ends the
        definition's answer. */
    method IncrementProgress(key: Key, requiredProgress: int, incrementBy: Option<int>) returns (justCompleted: bool)
      modifies this`tables
      ensures tables == Incremented(old(tables), key, requiredProgress, incrementBy)
      ensures justCompleted <==> !Completed(old(tables).progress, key) && Completed(tables.progress, key)
    {
      if key in tables.progress && tables.progress[key].isCompleted {
        return false;
      }
      if incrementBy.None? {
        return false;
      }
      var progressBefore := if key in tables.progress then tables.progress[key].current else 0;
      var newProgress := Min(progressBefore + incrementBy.value, requiredProgress);
      justCompleted := newProgress >= requiredProgress;
      tables := tables.(progress := tables.progress[key := Progress(newProgress, justCompleted)]);
      tables := tables.(history := tables.history + [HistoryRow(key, progressBefore, newProgress, justCompleted)]);
    }

    method IncrementUnlocks(day: Day)
      modifies this`tables
      ensures tables == old(tables).(stats := CountUnlock(old(tables).stats, day))
    {
      if day in tables.stats {
        var s := tables.stats[day];
        s := s.(totalUnlocks := s.totalUnlocks + 1, uniqueUsersUnlocked := s.uniqueUsersUnlocked + 1);
        tables := tables.(stats := tables.stats[day := s]);
      } else {
        tables := tables.(stats := tables.stats[day := DailyStats(1, 1, 0)]);
      }
    }

    method IncrementRewardsClaimed(day: Day)
      modifies this`tables
      ensures tables == old(tables).(stats := CountClaim(old(tables).stats, day))
    {
      if day in tables.stats {
        var s := tables.stats[day];
        tables := tables.(stats := tables.stats[day := s.(totalRewardsClaimed := s.totalRewardsClaimed + 1)]);
      } else {
        tables := tables.(stats := tables.stats[day := DailyStats(0, 0, 1)]);
      }
    }

    /** Claims one row's reward, and announces it, unless that has been done. */
    method ClaimReward(id: nat, day: Day) returns (result: ClaimResult)
      modifies this`tables
      ensures result == if id >= |old(tables).unlocks| then Missing
                        else if old(tables).unlocks[id].claimedOn.Some? then AlreadyClaimed else Claimed(id)
      ensures tables == if result.Claimed? then AfterClaim(old(tables), id, day) else old(tables)
      ensures tables == Perform(defs, users, old(tables), Claim(id, day))
    {
      if id >= |tables.unlocks| {
        return Missing;
      }
      var unlock := tables.unlocks[id];
      if unlock.claimedOn.Some? {
        return AlreadyClaimed;
      }
      tables := tables.(unlocks := tables.unlocks[id := unlock.(claimedOn := Some(day))]);
      IncrementRewardsClaimed(day);
      tables := tables.(announced := tables.announced + [id]);
      return Claimed(id);
    }

    /** Awards an achievement after the checks; a non-empty reward is claimed at once. */
    method UnlockAchievement(key: Key, day: Day) returns (result: UnlockResult)
      modifies this`tables
      ensures (result, tables) == Unlock(defs, old(tables), key, day)
    {
      if key.1 !in defs {
        return NotFound;
      }
      var def := defs[key.1];
      if !def.active {
        return NotActive;
      }
      var existing := Rows(tables.unlocks, key);
      if !def.repeatable && existing > 0 {
        return AlreadyUnlocked;
      }
      var iterationCount := if def.repeatable then existing else 0;
      var id := |tables.unlocks|;
      tables := tables.(unlocks := tables.unlocks + [UnlockRow(key, iterationCount + 1, day, None)]);
      if key in tables.progress {
        tables := tables.(progress := tables.progress[key := tables.progress[key].(isCompleted := true)]);
      }
      IncrementUnlocks(day);
      if def.reward.Some? && def.reward.value > 0 {
        var claim := ClaimReward(id, day);
      }
      return Unlocked(id);
    }

    method ManualGrant(key: Key, day: Day) returns (result: UnlockResult)
      requires Valid()
      modifies this
      ensures Valid() && log == old(log)
      ensures if key.0 !in users then result == UserNotFound && tables == old(tables)
              else (result, tables) == Unlock(defs, old(tables), key, day)
      ensures tables == Perform(defs, users, old(tables), Grant(key, day))
      ensures granted == old(granted) + if result.Unlocked? then {key} else {}
    {
      if key.0 !in users {
        return UserNotFound;
      }
      GrantRelaxes(defs, tables, log, granted, key);
      UnlockKeeps(defs, tables, log, granted + {key}, {}, key, day);
      result := UnlockAchievement(key, day);
      if result.Unlocked? {
        granted := granted + {key};
      }
    }

    /** Claims the newest unclaimed reward of an achievement. Which of the user's rows the
        eligibility check finds is up to the database. */
    method ClaimRewardByAchievementId(key: Key, found: nat, day: Day) returns (result: ClaimResult)
      requires Valid() && (HasRow(tables.unlocks, key) ==> RowOf(tables.unlocks, key, found))
      modifies this`tables
      ensures Valid()
      ensures (result, tables) == ClaimNewest(defs, old(tables), key, found, day)
      ensures result.Claimed? ==>
        && NewestUnclaimed(old(tables).unlocks, key, result.id) && result.id !in old(tables).announced
        && tables == Perform(defs, users, old(tables), Claim(result.id, day))
    {
      hide Consistent, Perform;
      var newest := FindNewest(key);
      if !(exists i :: 0 <= i < |tables.unlocks| && RowOf(tables.unlocks, key, i)) {
        return NotUnlocked;
      }
      if tables.unlocks[found].claimedOn.Some? {
        return AlreadyClaimed;
      }
      if key.1 !in defs || defs[key.1].reward.None? {
        return NoReward;
      }
      if newest.None? {
        return AlreadyClaimed;
      }
      UnclaimedNotAnnounced(defs, tables, log, granted, newest.value);
      ClaimKeeps(defs, tables, log, granted, {}, newest.value, day);
      result := ClaimReward(newest.value, day);
    }

    /** The newest unclaimed row, searched from the end. */
    method FindNewest(key: Key) returns (newest: Option<nat>)
      ensures newest == Newest(tables.unlocks, key)
    {
      var id := |tables.unlocks|;
      assert tables.unlocks[..id] == tables.unlocks;
      while id > 0
        invariant 0 <= id <= |tables.unlocks|
        invariant Newest(tables.unlocks, key) == Newest(tables.unlocks[..id], key)
      {
        assert tables.unlocks[..id][..id - 1] == tables.unlocks[..id - 1];
        id := id - 1;
        if tables.unlocks[id].key == key && tables.unlocks[id].claimedOn.None? {
          return Some(id);
        }
      }
      return None;
    }

    /** One definition's answer to an event: progress, and the unlock when that completes it.
        An unlock that is refused is not an error here. */
    method EvaluateOne(def: Definition, event: Event, day: Day) returns (unlocked: bool)
      requires def.rule.Some?
      modifies this`tables
      ensures (tables, unlocked) == Answer(defs, old(tables), event, def, day)
    {
      hide Unlock, ExtractIncrement;
      var key := (event.user, def.id);
      var increment := ExtractIncrement(def.rule.value, event.metadata);
      var justCompleted := IncrementProgress(key, def.requiredProgress, increment);
      if !justCompleted {
        return false;
      }
      var result := UnlockAchievement(key, day);
      return result.Unlocked?;
    }

    /** The loop over the definitions that respond to an event. */
    method EvaluateMatching(event: Event, matching: seq<Id>, day: Day) returns (unlockedIds: seq<Id>)
      requires forall id :: id in matching ==> id in defs && defs[id].rule.Some?
      modifies this`tables
      ensures (tables, unlockedIds) == Answers(defs, old(tables), event, matching, day)
    {
      hide Answer;
      unlockedIds := [];
      for i := 0 to |matching|
        invariant (tables, unlockedIds) == Answers(defs, old(tables), event, matching[..i], day)
      {
        var id := matching[i];
        assert matching[..i + 1][..i] == matching[..i];
        var unlocked := EvaluateOne(defs[id], event, day);
        if unlocked {
          unlockedIds := unlockedIds + [id];
        }
      }
      assert matching[..|matching|] == matching;
    }

    /** An event: every responding definition progresses by its increment. `order` is the order
        in which the database lists the definitions. */
    method EvaluateEvent(event: Event, order: seq<Id>, day: Day) returns (evaluated: nat, unlockedIds: seq<Id>)
      requires Valid() && Listing(defs, order)
      modifies this`tables, this`log
      ensures Valid()
      ensures evaluated == |Responding(defs, event, order)|
      ensures (tables, unlockedIds) == Answers(defs, old(tables), event, Responding(defs, event, order), day)
      ensures tables == Perform(defs, users, old(tables), Happen(event, order, day))
      ensures Evaluated(defs, event, granted, old(log), log, Ids(order), unlockedIds)
    {
      hide Consistent, Evaluated, Answers;
      var matching := Responding(defs, event, order);
      ghost var after := EventKeeps(defs, tables, log, granted, event, order, day);
      unlockedIds := EvaluateMatching(event, matching, day);
      log := after;
      evaluated := |matching|;
    }
  }
}
