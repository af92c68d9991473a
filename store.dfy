/**
  The relational store the engine and the routes work over: the goals table,
  the goal_instances table (one row per goal and day), and the append-only
  progress_entries and achievements tables. Rows are values; the database is
  one object whose tables are maps and sequences that the operations reassign.
*/
module Store {
  import opened Wrappers

  type GoalId = int

  /** A calendar day as a day number: yesterday is `today - 1`. */
  type Day = int

  type Pos = n: int | 0 < n witness 1

  /** The carryover multiplier, a REAL column, as the rational num/den. */
  datatype Ratio = Ratio(num: int, den: Pos)

  /** The values the CHECK constraints of the goals table admit. */
  datatype Cadence = Daily | Weekly | Monthly
  datatype TargetKind = Quantity | Quality
  datatype Priority = Low | Medium | High

  function CadenceName(c: Cadence): string {
    match c
    case Daily => "daily"
    case Weekly => "weekly"
    case Monthly => "monthly"
  }

  /** CHECK(type IN ('daily', 'weekly', 'monthly')): None when the check fails. */
  function ParseCadence(s: string): (r: Option<Cadence>)
    ensures r.Some? ==> CadenceName(r.value) == s
    ensures r.None? ==> forall c :: CadenceName(c) != s
  {
    if s == "daily" then Some(Daily)
    else if s == "weekly" then Some(Weekly)
    else if s == "monthly" then Some(Monthly)
    else None
  }

  function TargetKindName(k: TargetKind): string {
    match k
    case Quantity => "quantity"
    case Quality => "quality"
  }

  /** CHECK(target_type IN ('quantity', 'quality')). */
  function ParseTargetKind(s: string): (r: Option<TargetKind>)
    ensures r.Some? ==> TargetKindName(r.value) == s
    ensures r.None? ==> forall k :: TargetKindName(k) != s
  {
    if s == "quantity" then Some(Quantity)
    else if s == "quality" then Some(Quality)
    else None
  }

  function PriorityName(p: Priority): string {
    match p
    case Low => "low"
    case Medium => "medium"
    case High => "high"
  }

  /** CHECK(priority IN ('low', 'medium', 'high')). */
  function ParsePriority(s: string): (r: Option<Priority>)
    ensures r.Some? ==> PriorityName(r.value) == s
    ensures r.None? ==> forall p :: PriorityName(p) != s
  {
    if s == "low" then Some(Low)
    else if s == "medium" then Some(Medium)
    else if s == "high" then Some(High)
    else None
  }

  /**
    A row of the goals table (timestamps and the unused current_value column
    left out). The multiplier and the cap are nullable: an edit that does not
    send them writes NULL.
  */
  datatype Goal = Goal(
    title: string,
    description: Option<string>,
    category: Option<int>,
    cadence: Cadence,
    kind: TargetKind,
    target: int,
    recurring: bool,
    active: bool,
    priority: Priority,
    streak: int,
    longest: int,
    completions: int,
    multiplier: Option<Ratio>,
    cap: Option<int>)

  /** UNIQUE(goal_id, date): a goal has at most one instance per day, so the pair is the key. */
  datatype Key = Key(goal: GoalId, day: Day)

  /** A row of goal_instances (notes and the timestamps left out). */
  datatype Instance = Instance(target: int, current: int, completed: bool, carriedFrom: Option<Day>)

  /** A row of progress_entries; `instance` names the goal_instances row it belongs to. */
  datatype ProgressEntry = ProgressEntry(instance: Key, value: int, notes: Option<string>)

  /** A row of achievements. */
  datatype Achievement = Achievement(goal: GoalId, kind: string, title: string, description: string)

  /** An instance inserted with only its target given: every other column takes its default. */
  function FreshInstance(target: int): (r: Instance)
    ensures r.target == target && r.current == 0 && !r.completed && r.carriedFrom.None?
  {
    Instance(target, 0, false, None)
  }

  /** The goal statistics only ever grow together or the streak drops to zero. */
  ghost predicate StatsConsistent(g: Goal) {
    0 <= g.streak <= g.longest <= g.completions
  }

  ghost predicate Consistent(goals: map<GoalId, Goal>, instances: map<Key, Instance>, entries: seq<ProgressEntry>,
                             achievements: seq<Achievement>, nextGoalId: GoalId)
  {
    && 0 < nextGoalId
    && (forall g :: g in goals ==> 0 < g < nextGoalId && StatsConsistent(goals[g]))
    && (forall k :: k in instances ==> k.goal in goals)
    && (forall k :: k in instances && instances[k].carriedFrom.Some? ==> instances[k].carriedFrom.value == k.day - 1)
    && (forall i :: 0 <= i < |entries| ==> entries[i].instance in instances)
    && (forall i :: 0 <= i < |achievements| ==> achievements[i].goal in goals)
  }

  /** Writing an instance row of an existing goal keeps the store consistent. */
  lemma WriteInstanceKeepsConsistent(goals: map<GoalId, Goal>, instances: map<Key, Instance>, entries: seq<ProgressEntry>,
                                     achievements: seq<Achievement>, nextGoalId: GoalId, k: Key, inst: Instance)
    requires Consistent(goals, instances, entries, achievements, nextGoalId)
    requires k.goal in goals
    requires inst.carriedFrom.Some? ==> inst.carriedFrom.value == k.day - 1
    ensures Consistent(goals, instances[k := inst], entries, achievements, nextGoalId)
  {
  }

  /** Rewriting an existing goal row with consistent stats keeps the store consistent. */
  lemma WriteGoalKeepsConsistent(goals: map<GoalId, Goal>, instances: map<Key, Instance>, entries: seq<ProgressEntry>,
                                 achievements: seq<Achievement>, nextGoalId: GoalId, g: GoalId, goal: Goal)
    requires Consistent(goals, instances, entries, achievements, nextGoalId)
    requires g in goals && StatsConsistent(goal)
    ensures Consistent(goals[g := goal], instances, entries, achievements, nextGoalId)
  {
  }

  /** Appending a progress entry for an existing instance keeps the store consistent. */
  lemma AppendEntryKeepsConsistent(goals: map<GoalId, Goal>, instances: map<Key, Instance>, entries: seq<ProgressEntry>,
                                   achievements: seq<Achievement>, nextGoalId: GoalId, e: ProgressEntry)
    requires Consistent(goals, instances, entries, achievements, nextGoalId)
    requires e.instance in instances
    ensures Consistent(goals, instances, entries + [e], achievements, nextGoalId)
  {
    var es := entries + [e];
    forall i | 0 <= i < |es|
      ensures es[i].instance in instances
    {
      if i < |entries| {
        assert es[i] == entries[i];
      }
    }
  }

  /** Appending an achievement of an existing goal keeps the store consistent. */
  lemma AppendAchievementKeepsConsistent(goals: map<GoalId, Goal>, instances: map<Key, Instance>, entries: seq<ProgressEntry>,
                                         achievements: seq<Achievement>, nextGoalId: GoalId, a: Achievement)
    requires Consistent(goals, instances, entries, achievements, nextGoalId)
    requires a.goal in goals
    ensures Consistent(goals, instances, entries, achievements + [a], nextGoalId)
  {
    var all := achievements + [a];
    forall i | 0 <= i < |all|
      ensures all[i].goal in goals
    {
      if i < |achievements| {
        assert all[i] == achievements[i];
      }
    }
  }

  /** The rows of a query, in the order the store happens to return them: each element of `s` once. */
  method Enumerate<T>(s: set<T>) returns (xs: seq<T>)
    ensures |xs| == |s|
    ensures forall x :: x in xs <==> x in s
    ensures forall j, k :: 0 <= j < k < |xs| ==> xs[j] != xs[k]
  {
    xs := [];
    var rest := s;
    while rest != {}
      invariant rest <= s
      invariant forall x :: x in xs <==> x in s && x !in rest
      invariant forall j, k :: 0 <= j < k < |xs| ==> xs[j] != xs[k]
      invariant |xs| + |rest| == |s|
      decreases |rest|
    {
      NonEmptyHasMember(rest);
      var x :| x in rest;
      xs := xs + [x];
      rest := rest - {x};
    }
  }

  lemma NonEmptyHasMember<T>(s: set<T>)
    requires s != {}
    ensures exists x :: x in s
  {
    if forall x :: x !in s {
      assert false;
    }
  }

  class Db {
    var goals: map<GoalId, Goal>
    var instances: map<Key, Instance>
    var entries: seq<ProgressEntry>
    var achievements: seq<Achievement>
    /** The next AUTOINCREMENT id of the goals table. */
    var nextGoalId: GoalId

    /**
      What every operation keeps: ids below the AUTOINCREMENT counter, every
      instance, entry and achievement referring to an existing row, carried
      instances marked with the day before their own, and consistent goal stats.
    */
    ghost predicate Valid()
      reads this
    {
      Consistent(goals, instances, entries, achievements, nextGoalId)
    }

    /** A freshly created database: every table empty. */
    constructor ()
      ensures Valid()
      ensures goals == map[] && instances == map[] && entries == [] && achievements == []
    {
      goals := map[];
      instances := map[];
      entries := [];
      achievements := [];
      nextGoalId := 1;
    }
  }
}
