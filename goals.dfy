/**
  The goal routes: recording progress on a day's instance (with the streak,
  longest-streak and completion statistics and the 7-day achievement),
  creating, editing and soft-deleting goals, and the two listing queries that
  show only active goals.

  Each handler is a method that reads and writes the store step by step, in
  the order the route does; the values it must land on are stated by the
  functions beside it, and the lemmas relate those functions across calls and
  to the daily carryover.
*/
module GoalRoutes {
  import opened Wrappers
  import opened Store
  import Carryover

  /** The HTTP status a handler answers with. */
  datatype Status = Ok | Created | BadRequest | NotFound | ServerError

  // ---------------------------------------------------------------------
  // Progress, streaks and achievements
  // ---------------------------------------------------------------------

  /** The four tables a progress call touches, as values. */
  datatype Tables = Tables(
    goals: map<GoalId, Goal>,
    instances: map<Key, Instance>,
    entries: seq<ProgressEntry>,
    achievements: seq<Achievement>)

  function TablesOf(db: Db): Tables
    reads db
  {
    Tables(db.goals, db.instances, db.entries, db.achievements)
  }

  /** The goal_instances.goal_id foreign key: every instance belongs to a goal. */
  ghost predicate Linked(t: Tables) {
    forall k :: k in t.instances ==> k.goal in t.goals
  }

  /** The instance after `value` is added: completion is recomputed from scratch. */
  function Progressed(inst: Instance, value: int): (r: Instance)
    ensures r.target == inst.target && r.carriedFrom == inst.carriedFrom
    ensures r.current - inst.current == value
    ensures r.completed <==> r.current >= r.target
  {
    var current := inst.current + value;
    inst.(current := current, completed := current >= inst.target)
  }

  /** The goal's statistics once one of its instances has just been completed. */
  function WithCompletion(goal: Goal): (r: Goal)
    ensures r.streak == goal.streak + 1 && r.completions == goal.completions + 1
    ensures r.longest >= r.streak && r.longest >= goal.longest
    ensures r.longest == goal.longest || r.longest == r.streak
    ensures r.(streak := goal.streak, longest := goal.longest, completions := goal.completions) == goal
  {
    var streak := goal.streak + 1;
    goal.(streak := streak, longest := if goal.longest < streak then streak else goal.longest,
          completions := goal.completions + 1)
  }

  /** The row the 7-day milestone inserts. */
  function StreakAchievement(g: GoalId): Achievement {
    Achievement(g, "streak", "7-Day Streak!", "Completed goal for 7 consecutive days")
  }

  /** The instance a progress call starts from: the stored one, or a new one at the goal's base target. */
  function StartingInstance(t: Tables, k: Key): Instance
    requires k in t.instances || k.goal in t.goals
  {
    if k in t.instances then t.instances[k] else FreshInstance(t.goals[k.goal].target)
  }

  /** Whether adding `value` takes the instance from incomplete to completed. */
  predicate Completes(before: Instance, value: int) {
    !before.completed && Progressed(before, value).completed
  }

  /**
    The effect of one POST /:goalId/progress for goal `g` on day `day`: None
    (404, nothing written) when the day has no instance and the goal does not
    exist; otherwise the tables after the route's writes.
  */
  function Record(t: Tables, g: GoalId, day: Day, value: int, notes: Option<string>): (r: Option<Tables>)
    requires Linked(t)
    ensures r.None? <==> Key(g, day) !in t.instances && g !in t.goals
    ensures r.Some? ==> Linked(r.value) && r.value.goals.Keys == t.goals.Keys
    ensures r.Some? ==> r.value.entries == t.entries + [ProgressEntry(Key(g, day), value, notes)]
  {
    var k := Key(g, day);
    if k !in t.instances && g !in t.goals then None
    else Some(Recorded(t, k, StartingInstance(t, k), value, notes))
  }

  /** The writes of a progress call once its instance `before` is known. */
  function Recorded(t: Tables, k: Key, before: Instance, value: int, notes: Option<string>): Tables
    requires k.goal in t.goals
  {
    var instances := t.instances[k := Progressed(before, value)];
    var entries := t.entries + [ProgressEntry(k, value, notes)];
    if Completes(before, value) then
      var goal := WithCompletion(t.goals[k.goal]);
      var achievements := if goal.streak == 7 then t.achievements + [StreakAchievement(k.goal)] else t.achievements;
      Tables(t.goals[k.goal := goal], instances, entries, achievements)
    else
      Tables(t.goals, instances, entries, t.achievements)
  }

  /**
    One progress call, row by row: the day's instance (created at the goal's
    base target when missing) gains `value` and has its completion
    recomputed, every other instance is untouched; the goal's statistics move
    exactly when the instance goes from incomplete to completed; an
    achievement is appended exactly when that completion makes the streak 7.
  */
  lemma RecordEffects(t: Tables, g: GoalId, day: Day, value: int, notes: Option<string>)
    requires Linked(t)
    requires Key(g, day) in t.instances || g in t.goals
    ensures var r := Record(t, g, day, value, notes).value; var k := Key(g, day);
      && g in t.goals
      && r.instances.Keys == t.instances.Keys + {k}
      && (forall k' :: k' in t.instances && k' != k ==> r.instances[k'] == t.instances[k'])
      && (k !in t.instances ==> r.instances[k].target == t.goals[g].target && r.instances[k].carriedFrom.None?)
      && (k in t.instances ==> r.instances[k].target == t.instances[k].target)
      && r.instances[k].current == (if k in t.instances then t.instances[k].current else 0) + value
      && (r.instances[k].completed <==> r.instances[k].current >= r.instances[k].target)
      && (forall h :: h in t.goals && h != g ==> r.goals[h] == t.goals[h])
      && (Completes(StartingInstance(t, k), value) ==> r.goals[g] == WithCompletion(t.goals[g]))
      && (!Completes(StartingInstance(t, k), value) ==> r.goals == t.goals)
      && (r.achievements == t.achievements + [StreakAchievement(g)] <==>
            Completes(StartingInstance(t, k), value) && t.goals[g].streak == 6)
      && (r.achievements != t.achievements + [StreakAchievement(g)] ==> r.achievements == t.achievements)
  {
    var k := Key(g, day);
    if k in t.instances {
      assert g in t.goals;
    }
    var r := Record(t, g, day, value, notes).value;
    if !(Completes(StartingInstance(t, k), value) && t.goals[g].streak == 6) {
      assert r.achievements == t.achievements;
      assert |r.achievements| != |t.achievements + [StreakAchievement(g)]|;
    }
  }

  /** A progress call keeps every invariant of the store. */
  lemma RecordKeepsConsistent(t: Tables, nextGoalId: GoalId, g: GoalId, day: Day, value: int, notes: Option<string>)
    requires Consistent(t.goals, t.instances, t.entries, t.achievements, nextGoalId)
    requires Key(g, day) in t.instances || g in t.goals
    ensures Linked(t)
    ensures var r := Record(t, g, day, value, notes).value;
      Consistent(r.goals, r.instances, r.entries, r.achievements, nextGoalId)
  {
    var k := Key(g, day);
    assert g in t.goals;
    var before := StartingInstance(t, k);
    var after := Progressed(before, value);
    var e := ProgressEntry(k, value, notes);
    WriteInstanceKeepsConsistent(t.goals, t.instances, t.entries, t.achievements, nextGoalId, k, after);
    var instances := t.instances[k := after];
    AppendEntryKeepsConsistent(t.goals, instances, t.entries, t.achievements, nextGoalId, e);
    if Completes(before, value) {
      var goal := WithCompletion(t.goals[g]);
      WriteGoalKeepsConsistent(t.goals, instances, t.entries + [e], t.achievements, nextGoalId, g, goal);
      if goal.streak == 7 {
        AppendAchievementKeepsConsistent(t.goals[g := goal], instances, t.entries + [e], t.achievements,
                                         nextGoalId, StreakAchievement(g));
      }
    }
  }

  /** POST /:goalId/progress. `date` is the optional day of the body; without one, today. */
  method RecordProgress(db: Db, g: GoalId, value: int, notes: Option<string>, date: Option<Day>, today: Day)
    returns (status: Status, updated: Option<Instance>)
    requires db.Valid()
    modifies db
    ensures db.Valid()
    ensures var r := Record(old(TablesOf(db)), g, date.GetOr(today), value, notes);
      && (status == NotFound <==> r.None?)
      && (r.None? ==> TablesOf(db) == old(TablesOf(db)) && updated.None?)
      && (r.Some? ==> status == Ok && TablesOf(db) == r.value
                      && updated == Some(r.value.instances[Key(g, date.GetOr(today))]))
    ensures db.nextGoalId == old(db.nextGoalId)
  {
    ghost var t := TablesOf(db);
    var k := Key(g, date.GetOr(today));
    var before: Instance;
    if k in db.instances {
      before := db.instances[k];
    } else {
      if g !in db.goals {
        return NotFound, None;
      }
      before := FreshInstance(db.goals[g].target);
      db.instances := db.instances[k := before];
    }
    assert g in db.goals;
    assert before == StartingInstance(t, k);
    ghost var t1 := TablesOf(db);
    var after := WriteProgress(db, k, before, value, notes);
    assert t1.instances[k := after] == t.instances[k := after];
    assert Recorded(t1, k, before, value, notes) == Recorded(t, k, before, value, notes);
    status, updated := Ok, Some(after);
    RecordKeepsConsistent(t, db.nextGoalId, g, k.day, value, notes);
  }

  /**
    The writes of POST /:goalId/progress in the route's order: the entry, the
    instance's new value and completion, then, on a completion, the goal's
    statistics and possibly the 7-day achievement.
  */
  method WriteProgress(db: Db, k: Key, before: Instance, value: int, notes: Option<string>) returns (after: Instance)
    requires k.goal in db.goals
    modifies db
    ensures TablesOf(db) == Recorded(old(TablesOf(db)), k, before, value, notes)
    ensures after == Progressed(before, value)
    ensures db.nextGoalId == old(db.nextGoalId)
  {
    db.entries := db.entries + [ProgressEntry(k, value, notes)];
    after := Progressed(before, value);
    db.instances := db.instances[k := after];
    if after.completed && !before.completed {
      var goal := WithCompletion(db.goals[k.goal]);
      db.goals := db.goals[k.goal := goal];
      if goal.streak == 7 {
        db.achievements := db.achievements + [StreakAchievement(k.goal)];
      }
    }
  }

  // ---------------------------------------------------------------------
  // Runs of progress calls
  // ---------------------------------------------------------------------

  /** One progress request: the goal, the day, the increment and the notes. */
  datatype Call = Call(goal: GoalId, day: Day, value: int, notes: Option<string>)

  /** A call that answers 404 leaves the tables as they were. */
  function Apply(t: Tables, c: Call): (r: Tables)
    requires Linked(t)
    ensures Linked(r) && r.goals.Keys == t.goals.Keys
  {
    match Record(t, c.goal, c.day, c.value, c.notes)
    case None => t
    case Some(q) => q
  }

  /** The tables after a run of progress calls with no carryover in between. */
  function Run(t: Tables, calls: seq<Call>): (r: Tables)
    requires Linked(t)
    ensures Linked(r) && r.goals.Keys == t.goals.Keys
    decreases |calls|
  {
    if calls == [] then t else Run(Apply(t, calls[0]), calls[1..])
  }

  /** How many 7-day achievements of goal `g` a list of achievements holds. */
  function StreakAwards(achs: seq<Achievement>, g: GoalId): nat {
    if achs == [] then 0
    else StreakAwards(achs[..|achs| - 1], g) + (if achs[|achs| - 1] == StreakAchievement(g) then 1 else 0)
  }

  /** One call never lowers a streak, raises it by at most one, and awards the milestone when it reaches 7. */
  lemma {:induction false} ApplyStreak(t: Tables, c: Call, g: GoalId)
    requires Linked(t) && g in t.goals
    ensures var r := Apply(t, c);
      && (r.goals[g].streak == t.goals[g].streak || r.goals[g].streak == t.goals[g].streak + 1)
      && StreakAwards(r.achievements, g)
         == StreakAwards(t.achievements, g) + (if t.goals[g].streak < 7 <= r.goals[g].streak then 1 else 0)
  {
    var r := Apply(t, c);
    if Record(t, c.goal, c.day, c.value, c.notes).Some? {
      RecordEffects(t, c.goal, c.day, c.value, c.notes);
      var k := Key(c.goal, c.day);
      if r.achievements == t.achievements + [StreakAchievement(c.goal)] {
        assert (t.achievements + [StreakAchievement(c.goal)])[..|t.achievements|] == t.achievements;
        if c.goal != g {
          assert StreakAchievement(c.goal) != StreakAchievement(g);
        }
      }
    }
  }

  /**
    The 7-day achievement is awarded at most once per streak: over any run of
    progress calls (on any goals and days), goal `g` receives one exactly when
    its streak passes from below 7 to at least 7, and none otherwise.
  */
  lemma {:induction false} SevenDayAwardedOnce(t: Tables, calls: seq<Call>, g: GoalId)
    requires Linked(t) && g in t.goals
    ensures var r := Run(t, calls);
      && r.goals[g].streak >= t.goals[g].streak
      && StreakAwards(r.achievements, g)
         == StreakAwards(t.achievements, g) + (if t.goals[g].streak < 7 <= r.goals[g].streak then 1 else 0)
    decreases |calls|
  {
    if calls != [] {
      var t1 := Apply(t, calls[0]);
      ApplyStreak(t, calls[0], g);
      SevenDayAwardedOnce(t1, calls[1..], g);
    }
  }

  /** The instance row and the goal row of one progress call on an existing goal. */
  lemma RecordStep(t: Tables, c: Call)
    requires Linked(t) && c.goal in t.goals
    ensures var r := Apply(t, c); var k := Key(c.goal, c.day); var before := StartingInstance(t, k);
      && k in r.instances && r.instances[k] == Progressed(before, c.value)
      && r.goals[c.goal] == (if Completes(before, c.value) then WithCompletion(t.goals[c.goal]) else t.goals[c.goal])
  {
  }

  /**
    An increment that is negative can undo a completion, so the same day can
    be completed, undone and completed again: a goal with a positive target
    and no instance yet that day, given +target, -target, +target, has its
    total completions and its streak counted up twice.
  */
  lemma NegativeValueRecounts(t: Tables, g: GoalId, day: Day)
    requires Linked(t) && g in t.goals && Key(g, day) !in t.instances && t.goals[g].target > 0
    ensures var n := t.goals[g].target;
      var r := Run(t, [Call(g, day, n, None), Call(g, day, -n, None), Call(g, day, n, None)]);
      && r.goals[g].completions == t.goals[g].completions + 2
      && r.goals[g].streak == t.goals[g].streak + 2
      && Key(g, day) in r.instances && r.instances[Key(g, day)].current == n && r.instances[Key(g, day)].completed
  {
    var n, k := t.goals[g].target, Key(g, day);
    var c1, c2, c3 := Call(g, day, n, None), Call(g, day, -n, None), Call(g, day, n, None);
    var t1 := Apply(t, c1);
    RecordStep(t, c1);
    assert t1.instances[k] == Instance(n, n, true, None);
    var t2 := Apply(t1, c2);
    RecordStep(t1, c2);
    assert t2.instances[k] == Instance(n, 0, false, None);
    var t3 := Apply(t2, c3);
    RecordStep(t2, c3);
    assert Run(t2, [c3]) == t3 by {
      assert [c3][1..] == [];
    }
    assert Run(t1, [c2, c3]) == t3 by {
      assert [c2, c3][1..] == [c3];
    }
    assert Run(t, [c1, c2, c3]) == t3 by {
      assert [c1, c2, c3][1..] == [c2, c3];
    }
  }

  /**
    A missed day restarts the streak: when yesterday's instance of a
    recurring daily goal was left incomplete, the daily carryover breaks the
    streak, and the first completion of today's instance brings it to 1.
  */
  lemma MissedDayRestartsStreak(goals: map<GoalId, Goal>, insts: map<Key, Instance>, today: Day, g: GoalId,
                                value: int, notes: Option<string>)
    requires forall k :: k in insts ==> k.goal in goals
    requires g in Carryover.CarrySet(goals, insts, today - 1)
    requires value >= Carryover.NewTarget(Carryover.RowOf(goals, insts, today - 1, g))
    ensures var t := Tables(Carryover.ReconciledGoals(goals, insts, today), Carryover.ReconciledInstances(goals, insts, today), [], []);
      && Linked(t)
      && Record(t, g, today, value, notes).Some?
      && Record(t, g, today, value, notes).value.goals[g].streak == 1
  {
    var t := Tables(Carryover.ReconciledGoals(goals, insts, today), Carryover.ReconciledInstances(goals, insts, today), [], []);
    ReconciledLinked(goals, insts, today);
    Carryover.ReconciledInstancesAt(goals, insts, today);
    Carryover.ReconcileBreaksOnlyCarriedStreaks(goals, insts, today, g);
    assert t.instances[Key(g, today)] == Carryover.CarriedInstance(Carryover.RowOf(goals, insts, today - 1, g), today - 1);
    RecordEffects(t, g, today, value, notes);
  }

  /** The daily carryover keeps the goal_instances.goal_id foreign key. */
  lemma ReconciledLinked(goals: map<GoalId, Goal>, insts: map<Key, Instance>, today: Day)
    requires forall k :: k in insts ==> k.goal in goals
    ensures Linked(Tables(Carryover.ReconciledGoals(goals, insts, today), Carryover.ReconciledInstances(goals, insts, today), [], []))
  {
    var t := Tables(Carryover.ReconciledGoals(goals, insts, today), Carryover.ReconciledInstances(goals, insts, today), [], []);
    Carryover.ReconciledInstancesAt(goals, insts, today);
    forall k | k in t.instances
      ensures k.goal in t.goals
    {
      if k !in insts {
        assert k.day == today;
        if k.goal !in Carryover.CarrySet(goals, insts, today - 1) {
          assert Key(k.goal, today) == k;
        }
      }
    }
  }

  /** A progress call for a day other than `y` changes no goal setting and no row of day `y`. */
  lemma ApplyKeepsSettings(t: Tables, c: Call, y: Day)
    requires Linked(t) && c.day != y
    ensures Carryover.SameSettings(t.goals, Apply(t, c).goals)
    ensures Carryover.SameOnDay(t.instances, Apply(t, c).instances, y)
  {
    if Record(t, c.goal, c.day, c.value, c.notes).Some? {
      RecordEffects(t, c.goal, c.day, c.value, c.notes);
      var r := Apply(t, c);
      forall h | h in t.goals
        ensures t.goals[h].(streak := 0, longest := 0, completions := 0) == r.goals[h].(streak := 0, longest := 0, completions := 0)
      {
        if h == c.goal && Completes(StartingInstance(t, Key(c.goal, c.day)), c.value) {
          assert r.goals[h] == WithCompletion(t.goals[h]);
        }
      }
      forall h ensures Key(h, y) in t.instances ==> t.instances[Key(h, y)] == r.instances[Key(h, y)] {
        assert Key(h, y) != Key(c.goal, c.day);
      }
    }
  }

  /** A run of progress calls on days other than `y` changes no goal setting and no row of day `y`. */
  lemma {:induction false} RunKeepsSettings(t: Tables, calls: seq<Call>, y: Day)
    requires Linked(t)
    requires forall j :: 0 <= j < |calls| ==> calls[j].day != y
    ensures Carryover.SameSettings(t.goals, Run(t, calls).goals)
    ensures Carryover.SameOnDay(t.instances, Run(t, calls).instances, y)
    decreases |calls|
  {
    if calls == [] {
      assert Run(t, calls) == t;
    } else {
      var t1 := Apply(t, calls[0]);
      ApplyKeepsSettings(t, calls[0], y);
      RunKeepsSettings(t1, calls[1..], y);
      assert Run(t, calls) == Run(t1, calls[1..]);
      Carryover.SameSettingsTrans(t.goals, t1.goals, Run(t1, calls[1..]).goals);
      Carryover.SameOnDayTrans(t.instances, t1.instances, Run(t1, calls[1..]).instances, y);
    }
  }

  /**
    The daily carryover run a second time on the same day, after progress has
    been recorded for today, carries again: a goal carried by the first run
    gets back the instance the first run wrote, so today's progress on it is
    discarded, and its streak is zeroed again even if today's progress had
    raised it.
  */
  lemma RerunAfterProgressRecarries(goals: map<GoalId, Goal>, insts: map<Key, Instance>, today: Day,
                                    calls: seq<Call>, g: GoalId)
    requires forall k :: k in insts ==> k.goal in goals
    requires forall j :: 0 <= j < |calls| ==> calls[j].day == today
    requires g in Carryover.CarrySet(goals, insts, today - 1)
    ensures var t1 := Tables(Carryover.ReconciledGoals(goals, insts, today), Carryover.ReconciledInstances(goals, insts, today), [], []);
      && Linked(t1)
      && var t2 := Run(t1, calls);
      && var again := Carryover.ReconciledInstances(t2.goals, t2.instances, today);
      && Key(g, today) in t1.instances && Key(g, today) in again
      && again[Key(g, today)] == t1.instances[Key(g, today)] && again[Key(g, today)].current == 0
      && g in Carryover.ReconciledGoals(t2.goals, t2.instances, today)
      && Carryover.ReconciledGoals(t2.goals, t2.instances, today)[g].streak == 0
  {
    var y := today - 1;
    var t1 := Tables(Carryover.ReconciledGoals(goals, insts, today), Carryover.ReconciledInstances(goals, insts, today), [], []);
    ReconciledLinked(goals, insts, today);
    var t2 := Run(t1, calls);
    RunKeepsSettings(t1, calls, y);
    Carryover.ResetKeepsSettings(goals, Carryover.CarrySet(goals, insts, y));
    Carryover.ReconcileKeepsYesterday(goals, insts, today);
    Carryover.SameSettingsTrans(goals, t1.goals, t2.goals);
    Carryover.SameOnDayTrans(insts, t1.instances, t2.instances, y);
    Carryover.ReconcileCarriedAt(goals, insts, today, g);
    Carryover.RerunRecarries(goals, insts, t2.goals, t2.instances, today, g);
  }

  /**
    An edit that leaves out the multiplier and the cap switches carryover
    off for that goal: the next carry of an incomplete instance gives back the
    goal's base target, though the row is still replaced and the streak reset.
  */
  lemma EditWithoutSettingsCarriesNothing(goals: map<GoalId, Goal>, insts: map<Key, Instance>, yesterday: Day,
                                          g: GoalId, edit: GoalEdit, priority: Priority)
    requires g in goals && Key(g, yesterday) in insts
    requires PriorityName(priority) == edit.priority && edit.multiplier.None? && edit.cap.None?
    ensures var edited := goals[g := Edited(goals[g], edit, priority)];
      && Carryover.RawCarryover(Carryover.RowOf(edited, insts, yesterday, g)) == 0
      && Carryover.NewTarget(Carryover.RowOf(edited, insts, yesterday, g)) == edit.target
  {
    Carryover.NullSettingsCarryNothing(goals[g := Edited(goals[g], edit, priority)], insts, yesterday, g);
  }

  // ---------------------------------------------------------------------
  // Creating, editing and deleting goals
  // ---------------------------------------------------------------------

  /** The body of POST /: None for a field the client left out. */
  datatype NewGoal = NewGoal(
    title: Option<string>,
    description: Option<string>,
    category: Option<int>,
    cadence: Option<string>,
    kind: Option<string>,
    target: Option<int>,
    recurring: Option<bool>,
    priority: Option<string>,
    multiplier: Option<Ratio>,
    cap: Option<int>)

  /** A title or type that is missing or empty is falsy, and the route refuses it. */
  predicate Missing(s: Option<string>) {
    s.None? || s.value == ""
  }

  /** The goal row POST / inserts, or the status it answers with instead. */
  datatype Admission = Refused(status: Status) | Admitted(goal: Goal)

  /**
    400 when the title or the type is missing; 500 when the INSERT breaks a
    CHECK constraint (an unknown type, target type or priority); otherwise a
    new active goal with no statistics yet, every field the client left out
    taking its default.
  */
  function Admit(req: NewGoal): (r: Admission)
    ensures r == Refused(BadRequest) <==> Missing(req.title) || Missing(req.cadence)
    ensures r == Refused(ServerError) <==>
      !Missing(req.title) && !Missing(req.cadence) &&
      (ParseCadence(req.cadence.value).None? || ParseTargetKind(req.kind.GetOr("quantity")).None?
       || ParsePriority(req.priority.GetOr("medium")).None?)
    ensures r.Admitted? ==>
      && r.goal.title == req.title.value
      && CadenceName(r.goal.cadence) == req.cadence.value
      && TargetKindName(r.goal.kind) == req.kind.GetOr("quantity")
      && PriorityName(r.goal.priority) == req.priority.GetOr("medium")
      && r.goal.target == req.target.GetOr(1)
      && r.goal.recurring == req.recurring.GetOr(true)
      && r.goal.multiplier == Some(req.multiplier.GetOr(Ratio(11, 10)))
      && r.goal.cap == Some(req.cap.GetOr(5))
      && r.goal.description == req.description && r.goal.category == req.category
      && r.goal.active && r.goal.streak == 0 && r.goal.longest == 0 && r.goal.completions == 0
  {
    if Missing(req.title) || Missing(req.cadence) then Refused(BadRequest)
    else
      var cadence, kind, priority :=
        ParseCadence(req.cadence.value), ParseTargetKind(req.kind.GetOr("quantity")), ParsePriority(req.priority.GetOr("medium"));
      if cadence.None? || kind.None? || priority.None? then Refused(ServerError)
      else
        Admitted(Goal(req.title.value, req.description, req.category, cadence.value, kind.value,
                      req.target.GetOr(1), req.recurring.GetOr(true), true, priority.value, 0, 0, 0,
                      Some(req.multiplier.GetOr(Ratio(11, 10))), Some(req.cap.GetOr(5))))
  }

  /**
    POST /. The new goal takes the next AUTOINCREMENT id; a daily goal also
    gets today's instance at its target (INSERT OR IGNORE, which finds no row
    for a new id), any other goal gets none.
  */
  method CreateGoal(db: Db, req: NewGoal, today: Day) returns (status: Status, id: Option<GoalId>)
    requires db.Valid()
    modifies db
    ensures db.Valid()
    ensures Admit(req).Refused? ==>
      status == Admit(req).status && id.None? && TablesOf(db) == old(TablesOf(db)) && db.nextGoalId == old(db.nextGoalId)
    ensures Admit(req).Admitted? ==>
      && status == Created && id == Some(old(db.nextGoalId))
      && old(db.nextGoalId) !in old(db.goals)
      && db.goals == old(db.goals)[old(db.nextGoalId) := Admit(req).goal]
      && db.nextGoalId == old(db.nextGoalId) + 1
      && db.instances == (if Admit(req).goal.cadence == Daily
                          then old(db.instances)[Key(old(db.nextGoalId), today) := FreshInstance(Admit(req).goal.target)]
                          else old(db.instances))
      && (Admit(req).goal.cadence == Daily ==> Key(old(db.nextGoalId), today) !in old(db.instances))
      && db.entries == old(db.entries) && db.achievements == old(db.achievements)
  {
    var admission := Admit(req);
    if admission.Refused? {
      return admission.status, None;
    }
    var goal := admission.goal;
    var newId := db.nextGoalId;
    db.goals := db.goals[newId := goal];
    db.nextGoalId := newId + 1;
    if goal.cadence == Daily {
      var k := Key(newId, today);
      assert k !in db.instances;
      if k !in db.instances {
        db.instances := db.instances[k := FreshInstance(goal.target)];
      }
    }
    status, id := Created, Some(newId);
  }

  /**
    The body of PUT /:id. The multiplier and the cap may be left out (None),
    as the application's edit dialog does; the route then writes NULL into
    those columns. Every other column the route writes is given.
  */
  datatype GoalEdit = GoalEdit(
    title: string,
    description: Option<string>,
    category: Option<int>,
    target: int,
    priority: string,
    active: bool,
    multiplier: Option<Ratio>,
    cap: Option<int>)

  /** The goal row after PUT /:id: the edited columns replaced, type, target type, recurrence and statistics kept. */
  function Edited(goal: Goal, edit: GoalEdit, priority: Priority): (r: Goal)
    requires PriorityName(priority) == edit.priority
    ensures r.cadence == goal.cadence && r.kind == goal.kind && r.recurring == goal.recurring
    ensures r.streak == goal.streak && r.longest == goal.longest && r.completions == goal.completions
    ensures r.title == edit.title && r.description == edit.description && r.category == edit.category
    ensures r.target == edit.target && PriorityName(r.priority) == edit.priority && r.active == edit.active
    ensures r.multiplier == edit.multiplier && r.cap == edit.cap
  {
    goal.(title := edit.title, description := edit.description, category := edit.category, target := edit.target,
          priority := priority, active := edit.active, multiplier := edit.multiplier, cap := edit.cap)
  }

  /**
    PUT /:id. The UPDATE of an existing goal with an unknown priority breaks
    the CHECK constraint: 500 and nothing written. An id that names no goal
    matches no row, so the constraint is never evaluated: 200 and nothing
    written. Otherwise the goal's row is edited and today's instance, if there
    is one, takes the new target while its progress and completed flag stay as
    they were; no other instance changes.
  */
  method UpdateGoal(db: Db, id: GoalId, edit: GoalEdit, today: Day) returns (status: Status)
    requires db.Valid()
    modifies db
    ensures db.Valid()
    ensures id in old(db.goals) && ParsePriority(edit.priority).None? ==>
      status == ServerError && TablesOf(db) == old(TablesOf(db))
    ensures id !in old(db.goals) ==> status == Ok && TablesOf(db) == old(TablesOf(db))
    ensures id in old(db.goals) && ParsePriority(edit.priority).Some? ==>
      && status == Ok
      && db.goals == old(db.goals)[id := Edited(old(db.goals)[id], edit, ParsePriority(edit.priority).value)]
      && db.instances == (if Key(id, today) in old(db.instances)
                          then old(db.instances)[Key(id, today) := old(db.instances)[Key(id, today)].(target := edit.target)]
                          else old(db.instances))
      && db.entries == old(db.entries) && db.achievements == old(db.achievements)
    ensures db.nextGoalId == old(db.nextGoalId)
  {
    if id !in db.goals {
      // No row matches the UPDATEs, and no instance belongs to an unknown goal.
      return Ok;
    }
    var priority := ParsePriority(edit.priority);
    if priority.None? {
      return ServerError;
    }
    db.goals := db.goals[id := Edited(db.goals[id], edit, priority.value)];
    var k := Key(id, today);
    if k in db.instances {
      db.instances := db.instances[k := db.instances[k].(target := edit.target)];
    }
    status := Ok;
  }

  /** DELETE /:id: the goal row is kept and marked inactive; an unknown id changes nothing. */
  function SoftDeleted(goals: map<GoalId, Goal>, id: GoalId): (r: map<GoalId, Goal>)
    ensures r.Keys == goals.Keys
    ensures id in goals ==> !r[id].active && r[id].(active := goals[id].active) == goals[id]
    ensures forall g :: g in goals && g != id ==> r[g] == goals[g]
  {
    if id in goals then goals[id := goals[id].(active := false)] else goals
  }

  method DeleteGoal(db: Db, id: GoalId) returns (status: Status)
    requires db.Valid()
    modifies db
    ensures db.Valid()
    ensures status == Ok
    ensures db.goals == SoftDeleted(old(db.goals), id)
    ensures db.instances == old(db.instances) && db.entries == old(db.entries) && db.achievements == old(db.achievements)
    ensures db.nextGoalId == old(db.nextGoalId)
  {
    if id in db.goals {
      db.goals := db.goals[id := db.goals[id].(active := false)];
    }
    status := Ok;
  }

  // ---------------------------------------------------------------------
  // Listing
  // ---------------------------------------------------------------------

  /** The goals GET / returns: the active ones. */
  function ActiveGoals(goals: map<GoalId, Goal>): (s: set<GoalId>)
    ensures forall g :: g in s <==> g in goals && goals[g].active
  {
    set g | g in goals && goals[g].active
  }

  /** The instances GET /today returns: today's, of active goals. */
  function TodayGoals(goals: map<GoalId, Goal>, insts: map<Key, Instance>, today: Day): (s: set<GoalId>)
    ensures forall g :: g in s <==> g in goals && goals[g].active && Key(g, today) in insts
  {
    set g | g in goals && goals[g].active && Key(g, today) in insts
  }

  /** GET /: the active goals, each once, in the order the store returns them. */
  method ListGoals(db: Db) returns (ids: seq<GoalId>)
    ensures forall g :: g in ids <==> g in db.goals && db.goals[g].active
    ensures forall j, k :: 0 <= j < k < |ids| ==> ids[j] != ids[k]
  {
    ids := Enumerate(ActiveGoals(db.goals));
  }

  /** GET /today: today's instances of the active goals, each goal once. */
  method TodayInstances(db: Db, today: Day) returns (rows: seq<(GoalId, Instance)>)
    ensures forall j :: 0 <= j < |rows| ==>
      var g := rows[j].0;
      g in db.goals && db.goals[g].active && Key(g, today) in db.instances && rows[j].1 == db.instances[Key(g, today)]
    ensures forall g :: g in db.goals && db.goals[g].active && Key(g, today) in db.instances ==>
      exists j :: 0 <= j < |rows| && rows[j].0 == g
    ensures forall j, k :: 0 <= j < k < |rows| ==> rows[j].0 != rows[k].0
  {
    var goals, insts := db.goals, db.instances;
    var ids := Enumerate(TodayGoals(goals, insts, today));
    assert forall j :: 0 <= j < |ids| ==> ids[j] in TodayGoals(goals, insts, today);
    rows := seq(|ids|, j requires 0 <= j < |ids| => (ids[j], insts[Key(ids[j], today)]));
    forall g | g in db.goals && db.goals[g].active && Key(g, today) in db.instances
      ensures exists j :: 0 <= j < |rows| && rows[j].0 == g
    {
      var j :| 0 <= j < |ids| && ids[j] == g;
      assert rows[j].0 == g;
    }
  }

  /**
    Deleting is soft: the goal leaves both listings, yet its row, its
    instances and everything else stay, and another goal is listed exactly
    as before.
  */
  lemma DeleteHidesOnlyThatGoal(goals: map<GoalId, Goal>, insts: map<Key, Instance>, today: Day, id: GoalId)
    ensures id !in ActiveGoals(SoftDeleted(goals, id)) && id !in TodayGoals(SoftDeleted(goals, id), insts, today)
    ensures id in goals ==> id in SoftDeleted(goals, id)
    ensures ActiveGoals(SoftDeleted(goals, id)) == ActiveGoals(goals) - {id}
    ensures TodayGoals(SoftDeleted(goals, id), insts, today) == TodayGoals(goals, insts, today) - {id}
  {
    var d := SoftDeleted(goals, id);
    assert ActiveGoals(d) == ActiveGoals(goals) - {id};
    assert TodayGoals(d, insts, today) == TodayGoals(goals, insts, today) - {id};
  }
}
