/**
  The daily carryover reconciler: yesterday's unfinished instances of active
  daily goals raise today's target by a capped, multiplied remainder and break
  the goal's streak; then every active daily goal still without an instance
  for today gets one at its base target.

  The first half states the reconciliation on values (the arithmetic, the
  selection, and the resulting tables); the second half is the service object
  whose methods perform it step by step against the store and are proved to
  land on those values.
*/
module Carryover {
  import opened Wrappers
  import opened Store

  // ---------------------------------------------------------------------
  // Arithmetic
  // ---------------------------------------------------------------------

  /** ceil(x / d); Dafny's `/` rounds down for a positive divisor. */
  function CeilDiv(x: int, d: Pos): (r: int)
    ensures (r - 1) * d < x <= r * d
  {
    var q := x / d;
    assert x == q * d + x % d;
    if x % d == 0 then q else q + 1
  }

  /**
    One row of the carryover query: yesterday's instance (its target and
    current value) joined with its goal's multiplier, cap, base target
    (selected as `original_target`) and recurring flag.
  */
  datatype CarryRow = CarryRow(
    goal: GoalId,
    target: int,
    current: int,
    multiplier: Ratio,
    cap: int,
    originalTarget: int,
    recurring: bool)

  /** What was left to do yesterday; not clamped at zero. */
  function Remaining(row: CarryRow): int {
    row.target - row.current
  }

  /** ceil(remaining × multiplier), before the cap. */
  function RawCarryover(row: CarryRow): (r: int)
    ensures (r - 1) * row.multiplier.den < Remaining(row) * row.multiplier.num <= r * row.multiplier.den
  {
    CeilDiv(Remaining(row) * row.multiplier.num, row.multiplier.den)
  }

  /** min(ceil(remaining × multiplier), cap). */
  function CappedCarryover(row: CarryRow): (r: int)
    ensures r <= row.cap && r <= RawCarryover(row)
    ensures r == row.cap || r == RawCarryover(row)
  {
    if RawCarryover(row) < row.cap then RawCarryover(row) else row.cap
  }

  /** Today's target: the goal's configured base plus the capped carryover. */
  function NewTarget(row: CarryRow): (r: int)
    ensures r <= row.originalTarget + row.cap
    ensures r - row.originalTarget <= RawCarryover(row)
  {
    row.originalTarget + CappedCarryover(row)
  }

  /** The worked examples: 10/4 at 1.1 capped at 5 gives 15; 1.0 on 3 gives 13; nothing left gives the base. */
  lemma CarryoverExamples()
    ensures NewTarget(CarryRow(1, 10, 4, Ratio(11, 10), 5, 10, true)) == 15
    ensures NewTarget(CarryRow(1, 10, 7, Ratio(1, 1), 10, 10, true)) == 13
    ensures NewTarget(CarryRow(1, 10, 10, Ratio(11, 10), 5, 10, true)) == 10
  {
  }

  /** The sign of a product with a positive denominator is the sign of the other factor. */
  lemma MulSign(a: int, d: Pos)
    ensures a < 0 ==> a * d < 0
    ensures a >= 0 ==> a * d >= 0
  {
  }

  /** With a multiplier of at least one, the carryover is at least the remainder, up to the cap. */
  lemma CarryoverCoversRemaining(row: CarryRow)
    requires row.multiplier.num >= row.multiplier.den
    requires Remaining(row) >= 0
    ensures CappedCarryover(row) >= if Remaining(row) < row.cap then Remaining(row) else row.cap
  {
    var m, d, rem, r := row.multiplier.num, row.multiplier.den, Remaining(row), RawCarryover(row);
    assert rem * m - rem * d == rem * (m - d);
    NonNegMul(rem, m - d);
    CancelPos(rem, r, d);
  }

  lemma NonNegMul(a: int, b: int)
    requires 0 <= a && 0 <= b
    ensures 0 <= a * b
  {
  }

  /** Dividing both sides of `a * d <= b * d` by a positive `d`. */
  lemma CancelPos(a: int, b: int, d: Pos)
    requires a * d <= b * d
    ensures a <= b
  {
    if a > b {
      assert (b - a) * d == b * d - a * d;
      MulSign(b - a, d);
    }
  }

  /** A multiplier of exactly one carries the remainder over unchanged, before the cap. */
  lemma UnitMultiplierCarriesRemainder(row: CarryRow)
    requires row.multiplier.num == row.multiplier.den
    ensures RawCarryover(row) == Remaining(row)
  {
    var d, rem, r := row.multiplier.den, Remaining(row), RawCarryover(row);
    assert (rem - r) * d == rem * d - r * d;
    assert (r - 1 - rem) * d == (r - 1) * d - rem * d;
    MulSign(rem - r - 1, d);
    MulSign(r - 1 - rem, d);
    assert (rem - r - 1) * d == (rem - r) * d - d;
  }

  /**
    The remainder is not clamped: when yesterday's value overshot its target
    and the multiplier is non-negative, the carryover is at most zero and
    today's target is at most the base.
  */
  lemma OvershootLowersTarget(row: CarryRow)
    requires Remaining(row) < 0 && row.multiplier.num >= 0
    ensures CappedCarryover(row) <= 0
    ensures NewTarget(row) <= row.originalTarget
  {
    var d, r := row.multiplier.den, RawCarryover(row);
    assert Remaining(row) * row.multiplier.num <= 0 by {
      assert Remaining(row) * row.multiplier.num == -((-Remaining(row)) * row.multiplier.num);
    }
    MulSign(r - 1, d);
  }

  // ---------------------------------------------------------------------
  // The reconciliation on values
  // ---------------------------------------------------------------------

  /** The WHERE clause of the carryover query, for the instance of goal `g` dated `yesterday`. */
  predicate Eligible(goals: map<GoalId, Goal>, insts: map<Key, Instance>, yesterday: Day, g: GoalId) {
    && g in goals
    && Key(g, yesterday) in insts
    && !insts[Key(g, yesterday)].completed
    && goals[g].active
    && goals[g].cadence == Daily
  }

  /** The goals whose instance the carryover query returns (recurring or not). */
  function EligibleGoals(goals: map<GoalId, Goal>, insts: map<Key, Instance>, yesterday: Day): (s: set<GoalId>)
    ensures forall g :: g in s <==> Eligible(goals, insts, yesterday, g)
  {
    set g | g in goals && Eligible(goals, insts, yesterday, g)
  }

  /**
    The row the query returns for an eligible goal. A NULL multiplier or cap
    enters the arithmetic as 0: JavaScript's `*` and Math.min read null as 0.
  */
  function RowOf(goals: map<GoalId, Goal>, insts: map<Key, Instance>, yesterday: Day, g: GoalId): (row: CarryRow)
    requires g in goals && Key(g, yesterday) in insts
  {
    var inst := insts[Key(g, yesterday)];
    var goal := goals[g];
    CarryRow(g, inst.target, inst.current, goal.multiplier.GetOr(Ratio(0, 1)), goal.cap.GetOr(0),
             goal.target, goal.recurring)
  }

  /**
    A goal whose multiplier and cap are NULL (as an edit that leaves them out
    writes them) carries nothing over: today's replacing instance has the
    base target, whatever was left yesterday.
  */
  lemma NullSettingsCarryNothing(goals: map<GoalId, Goal>, insts: map<Key, Instance>, yesterday: Day, g: GoalId)
    requires g in goals && Key(g, yesterday) in insts
    requires goals[g].multiplier.None? && goals[g].cap.None?
    ensures RawCarryover(RowOf(goals, insts, yesterday, g)) == 0
    ensures NewTarget(RowOf(goals, insts, yesterday, g)) == goals[g].target
  {
    var row := RowOf(goals, insts, yesterday, g);
    assert Remaining(row) * row.multiplier.num == 0;
  }

  /** The goals that are carried over: the eligible ones that are recurring. */
  function CarrySet(goals: map<GoalId, Goal>, insts: map<Key, Instance>, yesterday: Day): (s: set<GoalId>)
    ensures s <= EligibleGoals(goals, insts, yesterday)
    ensures forall g :: g in s <==> Eligible(goals, insts, yesterday, g) && goals[g].recurring
  {
    set g | g in EligibleGoals(goals, insts, yesterday) && goals[g].recurring
  }

  /** The row written for today by INSERT OR REPLACE: every column not listed takes its default. */
  function CarriedInstance(row: CarryRow, yesterday: Day): (r: Instance)
    ensures r.target <= row.originalTarget + row.cap
    ensures r.current == 0 && !r.completed && r.carriedFrom == Some(yesterday)
  {
    Instance(NewTarget(row), 0, false, Some(yesterday))
  }

  /** The instance table once the goals of `s` have had today's instance replaced. */
  function CarryInto(goals: map<GoalId, Goal>, insts: map<Key, Instance>, today: Day, s: set<GoalId>): (r: map<Key, Instance>)
    requires s <= EligibleGoals(goals, insts, today - 1)
  {
    insts + CarriedRows(goals, insts, today, s)
  }

  /** Today's carried-over instance of every goal of `s`. */
  function CarriedRows(goals: map<GoalId, Goal>, insts: map<Key, Instance>, today: Day, s: set<GoalId>): map<Key, Instance>
    requires s <= EligibleGoals(goals, insts, today - 1)
  {
    map g | g in s :: Key(g, today) := CarriedInstance(RowOf(goals, insts, today - 1, g), today - 1)
  }

  /** Carrying over the goals of `s` replaces their rows for today and touches no other row. */
  lemma CarryIntoAt(goals: map<GoalId, Goal>, insts: map<Key, Instance>, today: Day, s: set<GoalId>)
    requires s <= EligibleGoals(goals, insts, today - 1)
    ensures var r := CarryInto(goals, insts, today, s);
      && (forall k :: k in r ==> k in insts || (k.day == today && k.goal in s))
      && (forall k :: k in insts && !(k.day == today && k.goal in s) ==> k in r && r[k] == insts[k])
      && (forall g :: g in s ==>
            Key(g, today) in r && r[Key(g, today)] == CarriedInstance(RowOf(goals, insts, today - 1, g), today - 1))
  {
  }

  /** The goals table once the goals of `s` have had their streak broken. */
  function ResetStreaks(goals: map<GoalId, Goal>, s: set<GoalId>): map<GoalId, Goal> {
    map g | g in goals :: if g in s then goals[g].(streak := 0) else goals[g]
  }

  /** Breaking the streaks of `s` zeroes exactly their streak fields and nothing else. */
  lemma ResetStreaksAt(goals: map<GoalId, Goal>, s: set<GoalId>)
    ensures var r := ResetStreaks(goals, s);
      && r.Keys == goals.Keys
      && (forall g :: g in goals && g !in s ==> r[g] == goals[g])
      && (forall g :: g in goals && g in s ==> r[g].streak == 0 && r[g].(streak := goals[g].streak) == goals[g])
  {
  }

  /** The WHERE clause of the back-fill query: an active daily goal with no instance today. */
  predicate NeedsInstance(goals: map<GoalId, Goal>, insts: map<Key, Instance>, today: Day, g: GoalId) {
    g in goals && goals[g].active && goals[g].cadence == Daily && Key(g, today) !in insts
  }

  function MissingGoals(goals: map<GoalId, Goal>, insts: map<Key, Instance>, today: Day): (s: set<GoalId>)
    ensures s <= goals.Keys
    ensures forall g :: g in s <==> NeedsInstance(goals, insts, today, g)
  {
    set g | g in goals && NeedsInstance(goals, insts, today, g)
  }

  /** The instance table once the goals of `s` have had a base-target instance inserted for today. */
  function AddFresh(goals: map<GoalId, Goal>, insts: map<Key, Instance>, today: Day, s: set<GoalId>): (r: map<Key, Instance>)
    requires s <= goals.Keys
  {
    insts + map g | g in s :: Key(g, today) := FreshInstance(goals[g].target)
  }

  /** Back-filling the goals of `s` inserts their rows for today and touches no other row. */
  lemma AddFreshAt(goals: map<GoalId, Goal>, insts: map<Key, Instance>, today: Day, s: set<GoalId>)
    requires s <= goals.Keys
    ensures var r := AddFresh(goals, insts, today, s);
      && (forall k :: k in r ==> k in insts || (k.day == today && k.goal in s))
      && (forall k :: k in insts && !(k.day == today && k.goal in s) ==> k in r && r[k] == insts[k])
      && (forall g :: g in s ==> Key(g, today) in r && r[Key(g, today)] == FreshInstance(goals[g].target))
  {
  }

  /** Carrying over and breaking streaks of selected goals keeps the store consistent. */
  lemma CarryKeepsConsistent(goals: map<GoalId, Goal>, insts: map<Key, Instance>, entries: seq<ProgressEntry>,
                             achievements: seq<Achievement>, nextGoalId: GoalId, today: Day,
                             carried: set<GoalId>, reset: set<GoalId>)
    requires Consistent(goals, insts, entries, achievements, nextGoalId)
    requires carried <= EligibleGoals(goals, insts, today - 1)
    ensures Consistent(ResetStreaks(goals, reset), CarryInto(goals, insts, today, carried), entries, achievements, nextGoalId)
  {
    CarryIntoAt(goals, insts, today, carried);
  }

  lemma AddFreshKeepsConsistent(goals: map<GoalId, Goal>, insts: map<Key, Instance>, entries: seq<ProgressEntry>,
                                achievements: seq<Achievement>, nextGoalId: GoalId, today: Day, s: set<GoalId>)
    requires Consistent(goals, insts, entries, achievements, nextGoalId)
    requires s <= goals.Keys
    ensures Consistent(goals, AddFresh(goals, insts, today, s), entries, achievements, nextGoalId)
  {
    AddFreshAt(goals, insts, today, s);
  }

  /** The complete back-fill: existing rows untouched, every active daily goal covered for today. */
  function FillMissing(goals: map<GoalId, Goal>, insts: map<Key, Instance>, today: Day): (r: map<Key, Instance>)
    ensures forall k :: k in insts ==> k in r && r[k] == insts[k]
    ensures forall g :: g in goals && goals[g].active && goals[g].cadence == Daily ==> Key(g, today) in r
    ensures forall k :: k in r && k !in insts ==>
      k.day == today && NeedsInstance(goals, insts, today, k.goal) && r[k] == FreshInstance(goals[k.goal].target)
  {
    AddFresh(goals, insts, today, MissingGoals(goals, insts, today))
  }

  /** The goals table after a run without faults. */
  function ReconciledGoals(goals: map<GoalId, Goal>, insts: map<Key, Instance>, today: Day): map<GoalId, Goal> {
    ResetStreaks(goals, CarrySet(goals, insts, today - 1))
  }

  /** The instance table after a run without faults. */
  function ReconciledInstances(goals: map<GoalId, Goal>, insts: map<Key, Instance>, today: Day): map<Key, Instance> {
    FillMissing(ReconciledGoals(goals, insts, today), CarryInto(goals, insts, today, CarrySet(goals, insts, today - 1)), today)
  }

  /**
    What a run without faults leaves for today: a carried goal's instance is
    replaced (target from the base, progress discarded, flag cleared), an
    active daily goal with no instance gets a fresh one at its base target,
    and every other instance of today, and every instance of another day, is
    left as it was. Every active daily goal then has its one instance today.
  */
  lemma ReconciledInstancesAt(goals: map<GoalId, Goal>, insts: map<Key, Instance>, today: Day)
    ensures var r := ReconciledInstances(goals, insts, today);
      && (forall g :: g in goals && goals[g].active && goals[g].cadence == Daily ==> Key(g, today) in r)
      && (forall k :: k in r && k !in insts ==> k.day == today)
      && (forall k :: k in insts && k.day != today ==> k in r && r[k] == insts[k])
      && (forall g :: g in CarrySet(goals, insts, today - 1) ==>
            Key(g, today) in r && r[Key(g, today)] == CarriedInstance(RowOf(goals, insts, today - 1, g), today - 1))
      && (forall g :: g !in CarrySet(goals, insts, today - 1) && Key(g, today) in insts ==>
            Key(g, today) in r && r[Key(g, today)] == insts[Key(g, today)])
      && (forall g :: g !in CarrySet(goals, insts, today - 1) && Key(g, today) !in insts && Key(g, today) in r ==>
            g in goals && r[Key(g, today)] == FreshInstance(goals[g].target))
  {
    var c := CarrySet(goals, insts, today - 1);
    CarryIntoAt(goals, insts, today, c);
    ResetStreaksAt(goals, c);
  }

  /** Only the carried goals lose their streak, and nothing else about any goal changes. */
  lemma ReconcileBreaksOnlyCarriedStreaks(goals: map<GoalId, Goal>, insts: map<Key, Instance>, today: Day, g: GoalId)
    requires g in goals
    ensures var r := ReconciledGoals(goals, insts, today);
      && r.Keys == goals.Keys
      && (r[g].streak == 0 || r[g] == goals[g])
      && r[g].(streak := goals[g].streak) == goals[g]
      && (Eligible(goals, insts, today - 1, g) && goals[g].recurring ==> r[g].streak == 0)
      && (!(Eligible(goals, insts, today - 1, g) && goals[g].recurring) ==> r[g] == goals[g])
  {
  }

  lemma CarryIntoStep(goals: map<GoalId, Goal>, insts: map<Key, Instance>, today: Day, s: set<GoalId>, g: GoalId)
    requires s <= EligibleGoals(goals, insts, today - 1)
    requires g in EligibleGoals(goals, insts, today - 1)
    ensures CarryInto(goals, insts, today, s + {g})
         == CarryInto(goals, insts, today, s)[Key(g, today) := CarriedInstance(RowOf(goals, insts, today - 1, g), today - 1)]
  {
    var x := CarriedInstance(RowOf(goals, insts, today - 1, g), today - 1);
    CarriedRowsStep(goals, insts, today, s, g);
    MergeUpdate(insts, CarriedRows(goals, insts, today, s), Key(g, today), x);
  }

  lemma CarriedRowsStep(goals: map<GoalId, Goal>, insts: map<Key, Instance>, today: Day, s: set<GoalId>, g: GoalId)
    requires s <= EligibleGoals(goals, insts, today - 1)
    requires g in EligibleGoals(goals, insts, today - 1)
    ensures CarriedRows(goals, insts, today, s + {g})
         == CarriedRows(goals, insts, today, s)[Key(g, today) := CarriedInstance(RowOf(goals, insts, today - 1, g), today - 1)]
  {
    var a := CarriedRows(goals, insts, today, s + {g});
    var c := CarriedRows(goals, insts, today, s);
    forall k | k in a
      ensures k in c || k == Key(g, today)
    {
      var h :| h in s + {g} && k == Key(h, today);
    }
  }

  lemma MergeUpdate<K, V>(m: map<K, V>, c: map<K, V>, k: K, v: V)
    ensures m + c[k := v] == (m + c)[k := v]
  {
  }

  lemma ResetStreaksStep(goals: map<GoalId, Goal>, s: set<GoalId>, g: GoalId)
    requires g in goals
    ensures ResetStreaks(goals, s + {g}) == ResetStreaks(goals, s)[g := ResetStreaks(goals, s)[g].(streak := 0)]
  {
  }

  lemma AddFreshStep(goals: map<GoalId, Goal>, insts: map<Key, Instance>, today: Day, s: set<GoalId>, g: GoalId)
    requires s <= goals.Keys && g in goals
    ensures AddFresh(goals, insts, today, s + {g}) == AddFresh(goals, insts, today, s)[Key(g, today) := FreshInstance(goals[g].target)]
  {
  }

  /** Two goals tables that differ at most in their statistics (streak, longest streak, completions). */
  ghost predicate SameSettings(ga: map<GoalId, Goal>, gb: map<GoalId, Goal>) {
    ga.Keys == gb.Keys
    && forall g :: g in ga ==>
         ga[g].(streak := 0, longest := 0, completions := 0) == gb[g].(streak := 0, longest := 0, completions := 0)
  }

  /** Two instance tables that agree on the rows of `day`. */
  ghost predicate SameOnDay(ia: map<Key, Instance>, ib: map<Key, Instance>, day: Day) {
    forall g :: (Key(g, day) in ia <==> Key(g, day) in ib) && (Key(g, day) in ia ==> ia[Key(g, day)] == ib[Key(g, day)])
  }

  /** The carryover selection and its rows depend on the goal settings and yesterday's rows alone. */
  lemma SelectionDependsOnYesterday(ga: map<GoalId, Goal>, ia: map<Key, Instance>, gb: map<GoalId, Goal>, ib: map<Key, Instance>, y: Day)
    requires SameSettings(ga, gb) && SameOnDay(ia, ib, y)
    ensures CarrySet(ga, ia, y) == CarrySet(gb, ib, y)
    ensures forall g :: g in CarrySet(ga, ia, y) ==> RowOf(ga, ia, y, g) == RowOf(gb, ib, y, g)
  {
    forall g | g in ga
      ensures Eligible(ga, ia, y, g) <==> Eligible(gb, ib, y, g)
      ensures ga[g].recurring == gb[g].recurring
    {
      var a, b := ga[g].(streak := 0, longest := 0, completions := 0), gb[g].(streak := 0, longest := 0, completions := 0);
      assert a.active == b.active && a.cadence == b.cadence && a.recurring == b.recurring;
    }
    forall g | g in CarrySet(ga, ia, y)
      ensures RowOf(ga, ia, y, g) == RowOf(gb, ib, y, g)
    {
      var a, b := ga[g].(streak := 0, longest := 0, completions := 0), gb[g].(streak := 0, longest := 0, completions := 0);
      assert a.multiplier == b.multiplier && a.cap == b.cap && a.target == b.target && a.recurring == b.recurring;
    }
  }

  /** After a run, a carried goal's row for today is the instance carried from yesterday's row. */
  lemma ReconcileCarriedAt(goals: map<GoalId, Goal>, insts: map<Key, Instance>, today: Day, g: GoalId)
    requires g in CarrySet(goals, insts, today - 1)
    ensures var r := ReconciledInstances(goals, insts, today);
      Key(g, today) in r && r[Key(g, today)] == CarriedInstance(RowOf(goals, insts, today - 1, g), today - 1)
  {
    var c := CarryInto(goals, insts, today, CarrySet(goals, insts, today - 1));
    assert Key(g, today) in c;
  }

  /** A run leaves yesterday's rows as they were. */
  lemma ReconcileKeepsYesterday(goals: map<GoalId, Goal>, insts: map<Key, Instance>, today: Day)
    ensures SameOnDay(insts, ReconciledInstances(goals, insts, today), today - 1)
  {
    var y := today - 1;
    var s := CarrySet(goals, insts, y);
    var c := CarryInto(goals, insts, today, s);
    var i1 := FillMissing(ResetStreaks(goals, s), c, today);
    forall g ensures (Key(g, y) in insts <==> Key(g, y) in i1) && (Key(g, y) in insts ==> insts[Key(g, y)] == i1[Key(g, y)]) {
      if Key(g, y) in i1 {
        assert Key(g, y) in c;
      }
    }
  }

  /** Carrying over goals whose today row already holds the carried instance changes nothing. */
  lemma CarryIntoNoop(goals: map<GoalId, Goal>, insts: map<Key, Instance>, today: Day, s: set<GoalId>)
    requires s <= EligibleGoals(goals, insts, today - 1)
    requires forall g :: g in s ==>
      Key(g, today) in insts && insts[Key(g, today)] == CarriedInstance(RowOf(goals, insts, today - 1, g), today - 1)
    ensures CarryInto(goals, insts, today, s) == insts
  {
    var r := CarryInto(goals, insts, today, s);
    assert r.Keys == insts.Keys;
    forall k | k in r
      ensures r[k] == insts[k]
    {
      if k.day == today && k.goal in s {
        assert k == Key(k.goal, today);
      }
    }
  }

  /**
    Yesterday's rows are only read, so a second run on the same day selects
    the same goals, recomputes the same targets and finds nothing to
    back-fill: it leaves the goals and instances exactly as the first run did.
  */
  lemma {:induction false} ReconcileIdempotent(goals: map<GoalId, Goal>, insts: map<Key, Instance>, today: Day)
    ensures var g1, i1 := ReconciledGoals(goals, insts, today), ReconciledInstances(goals, insts, today);
      ReconciledGoals(g1, i1, today) == g1 && ReconciledInstances(g1, i1, today) == i1
  {
    var y := today - 1;
    var s := CarrySet(goals, insts, y);
    var g1 := ReconciledGoals(goals, insts, today);
    var i1 := ReconciledInstances(goals, insts, today);
    ResetKeepsSettings(goals, s);
    ReconcileKeepsYesterday(goals, insts, today);
    SelectionDependsOnYesterday(goals, insts, g1, i1, y);
    ResetTwice(goals, s);
    forall g | g in s
      ensures Key(g, today) in i1 && i1[Key(g, today)] == CarriedInstance(RowOf(g1, i1, y, g), y)
    {
      ReconcileCarriedAt(goals, insts, today, g);
    }
    CarryIntoNoop(g1, i1, today, s);
    ReconcileLeavesNothingMissing(goals, insts, today);
    var s2 := CarrySet(g1, i1, y);
    var g2 := ResetStreaks(g1, s2);
    var c2 := CarryInto(g1, i1, today, s2);
    assert g2 == g1 && c2 == i1;
    AddFreshNone(g2, c2, today);
    assert ReconciledInstances(g1, i1, today) == AddFresh(g2, c2, today, MissingGoals(g2, c2, today));
  }

  lemma AddFreshNone(goals: map<GoalId, Goal>, insts: map<Key, Instance>, today: Day)
    ensures AddFresh(goals, insts, today, {}) == insts
  {
  }

  lemma ResetKeepsSettings(goals: map<GoalId, Goal>, s: set<GoalId>)
    ensures SameSettings(goals, ResetStreaks(goals, s))
  {
  }

  lemma ResetTwice(goals: map<GoalId, Goal>, s: set<GoalId>)
    ensures ResetStreaks(ResetStreaks(goals, s), s) == ResetStreaks(goals, s)
  {
  }

  /** After a run no active daily goal is missing today's instance. */
  lemma ReconcileLeavesNothingMissing(goals: map<GoalId, Goal>, insts: map<Key, Instance>, today: Day)
    ensures MissingGoals(ReconciledGoals(goals, insts, today), ReconciledInstances(goals, insts, today), today) == {}
  {
  }

  // ---------------------------------------------------------------------
  // Faults and the outcome of one run
  // ---------------------------------------------------------------------

  /**
    What the store does wrong during one phase of a run: its SELECT rejects,
    or the write with the given number (counting from 0 within the phase)
    throws.
  */
  datatype PhaseFaults = PhaseFaults(selectFails: bool, failingWrite: Option<nat>)

  /** Faults of the carryover phase and of the back-fill phase. */
  datatype Faults = Faults(carry: PhaseFaults, fill: PhaseFaults)

  const NoFaults := Faults(PhaseFaults(false, None), PhaseFaults(false, None))

  /** The failing write is among the first `writes` writes of the phase. */
  predicate Reaches(f: PhaseFaults, writes: nat) {
    f.failingWrite.Some? && f.failingWrite.value < writes
  }

  /**
    The back-fill phase: `added` are the goals that received today's instance.
    A failed select inserts nothing; a failing write ends the phase after
    exactly that many inserts; otherwise every missing goal is covered.
  */
  ghost predicate FillOutcome(goals: map<GoalId, Goal>, i0: map<Key, Instance>, today: Day, f: PhaseFaults,
                              i1: map<Key, Instance>, added: set<GoalId>)
  {
    var missing := MissingGoals(goals, i0, today);
    && added <= missing
    && i1 == AddFresh(goals, i0, today, added)
    && (if f.selectFails then added == {}
        else if Reaches(f, |missing|) then |added| == f.failingWrite.value
        else added == missing)
  }

  /**
    One run of the reconciler from tables (g0, i0) to (g1, i1). `carried`
    are the goals whose today instance was replaced, `reset` those whose
    streak was broken, `added` those back-filled. A failed select means an
    empty list. A write error in the carryover loop ends the run there: the
    goals before it are done, the goal it hit may have its instance but not
    its streak reset, and nothing is back-filled.
  */
  ghost predicate RunOutcome(g0: map<GoalId, Goal>, i0: map<Key, Instance>, today: Day, faults: Faults,
                             g1: map<GoalId, Goal>, i1: map<Key, Instance>,
                             carried: set<GoalId>, reset: set<GoalId>, added: set<GoalId>)
  {
    var s := if faults.carry.selectFails then {} else CarrySet(g0, i0, today - 1);
    && reset <= carried <= s
    && g1 == ResetStreaks(g0, reset)
    && (var c := CarryInto(g0, i0, today, carried);
        if Reaches(faults.carry, 2 * |s|) then
          && |carried| == (faults.carry.failingWrite.value + 1) / 2
          && |reset| == faults.carry.failingWrite.value / 2
          && added == {}
          && i1 == c
        else
          && carried == s && reset == s
          && FillOutcome(g1, c, today, faults.fill, i1, added))
  }

  /** A run without faults produces exactly the reconciled tables. */
  lemma CleanRunReconciles(g0: map<GoalId, Goal>, i0: map<Key, Instance>, today: Day,
                           g1: map<GoalId, Goal>, i1: map<Key, Instance>,
                           carried: set<GoalId>, reset: set<GoalId>, added: set<GoalId>)
    requires RunOutcome(g0, i0, today, NoFaults, g1, i1, carried, reset, added)
    ensures g1 == ReconciledGoals(g0, i0, today)
    ensures i1 == ReconciledInstances(g0, i0, today)
  {
  }

  /** Two clean runs on the same day: the second changes nothing, streaks included. */
  lemma {:induction false} RerunChangesNothing(g0: map<GoalId, Goal>, i0: map<Key, Instance>, today: Day,
                                               g1: map<GoalId, Goal>, i1: map<Key, Instance>,
                                               c1: set<GoalId>, r1: set<GoalId>, a1: set<GoalId>,
                                               g2: map<GoalId, Goal>, i2: map<Key, Instance>,
                                               c2: set<GoalId>, r2: set<GoalId>, a2: set<GoalId>)
    requires RunOutcome(g0, i0, today, NoFaults, g1, i1, c1, r1, a1)
    requires RunOutcome(g1, i1, today, NoFaults, g2, i2, c2, r2, a2)
    ensures g2 == g1 && i2 == i1
  {
    CleanRunReconciles(g0, i0, today, g1, i1, c1, r1, a1);
    CleanRunReconciles(g1, i1, today, g2, i2, c2, r2, a2);
    ReconcileIdempotent(g0, i0, today);
  }

  /**
    A rerun re-carries from yesterday's rows alone: on any tables whose goal
    settings and yesterday's rows are those of (g0, i0), whatever today's
    rows and the statistics have become since, a carried goal's row for today
    is again the instance computed from yesterday and its streak is zero.
  */
  lemma RerunRecarries(g0: map<GoalId, Goal>, i0: map<Key, Instance>, g1: map<GoalId, Goal>, i1: map<Key, Instance>,
                       today: Day, g: GoalId)
    requires SameSettings(g0, g1) && SameOnDay(i0, i1, today - 1)
    requires g in CarrySet(g0, i0, today - 1)
    ensures var r := ReconciledInstances(g1, i1, today);
      Key(g, today) in r && r[Key(g, today)] == CarriedInstance(RowOf(g0, i0, today - 1, g), today - 1)
    ensures g in ReconciledGoals(g1, i1, today) && ReconciledGoals(g1, i1, today)[g].streak == 0
  {
    SelectionDependsOnYesterday(g0, i0, g1, i1, today - 1);
    ReconcileCarriedAt(g1, i1, today, g);
    ReconcileBreaksOnlyCarriedStreaks(g1, i1, today, g);
  }

  lemma SameSettingsTrans(ga: map<GoalId, Goal>, gb: map<GoalId, Goal>, gc: map<GoalId, Goal>)
    requires SameSettings(ga, gb) && SameSettings(gb, gc)
    ensures SameSettings(ga, gc)
  {
  }

  lemma SameOnDayTrans(ia: map<Key, Instance>, ib: map<Key, Instance>, ic: map<Key, Instance>, day: Day)
    requires SameOnDay(ia, ib, day) && SameOnDay(ib, ic, day)
    ensures SameOnDay(ia, ic, day)
  {
  }

  // ---------------------------------------------------------------------
  // The service
  // ---------------------------------------------------------------------

  /** The goals of the recurring rows among `rows`. */
  ghost function RecurringGoals(rows: seq<CarryRow>): set<GoalId> {
    RecurringPrefix(rows, |rows|)
  }

  /** The rows a carryover query returns: each row is its goal's eligible instance, one row per goal. */
  ghost predicate RowsOf(goals: map<GoalId, Goal>, insts: map<Key, Instance>, yesterday: Day, rows: seq<CarryRow>) {
    && (forall j :: 0 <= j < |rows| ==>
          rows[j].goal in EligibleGoals(goals, insts, yesterday)
          && rows[j] == RowOf(goals, insts, yesterday, rows[j].goal))
    && (forall j, k :: 0 <= j < k < |rows| ==> rows[j].goal != rows[k].goal)
  }

  /** The recurring goals among the first `i` rows. */
  ghost function RecurringPrefix(rows: seq<CarryRow>, i: nat): set<GoalId>
    requires i <= |rows|
  {
    if i == 0 then {} else RecurringPrefix(rows, i - 1) + (if rows[i - 1].recurring then {rows[i - 1].goal} else {})
  }

  /** How many of the first `i` rows are recurring. */
  ghost function CountRecurring(rows: seq<CarryRow>, i: nat): nat
    requires i <= |rows|
  {
    if i == 0 then 0 else CountRecurring(rows, i - 1) + (if rows[i - 1].recurring then 1 else 0)
  }

  /** The goals table after the streak writes of the first `i` rows. */
  ghost function ResetPrefix(goals: map<GoalId, Goal>, rows: seq<CarryRow>, i: nat): map<GoalId, Goal>
    requires i <= |rows|
  {
    if i == 0 then goals
    else
      var m := ResetPrefix(goals, rows, i - 1);
      var g := rows[i - 1].goal;
      if rows[i - 1].recurring && g in m then m[g := m[g].(streak := 0)] else m
  }

  /** The instance table after the instance writes of the first `i` rows. */
  ghost function CarryPrefix(insts: map<Key, Instance>, rows: seq<CarryRow>, i: nat, today: Day): map<Key, Instance>
    requires i <= |rows|
  {
    if i == 0 then insts
    else
      var m := CarryPrefix(insts, rows, i - 1, today);
      if rows[i - 1].recurring then m[Key(rows[i - 1].goal, today) := CarriedInstance(rows[i - 1], today - 1)] else m
  }

  lemma {:induction false} RecurringPrefixIn(rows: seq<CarryRow>, i: nat, g: GoalId)
    requires i <= |rows|
    requires g in RecurringPrefix(rows, i)
    ensures exists j :: 0 <= j < i && rows[j].goal == g && rows[j].recurring
  {
    if i > 0 && g !in RecurringPrefix(rows, i - 1) {
      assert rows[i - 1].goal == g;
    } else if i > 0 {
      RecurringPrefixIn(rows, i - 1, g);
    }
  }

  lemma {:induction false} RecurringPrefixHas(rows: seq<CarryRow>, i: nat, j: nat)
    requires j < i <= |rows| && rows[j].recurring
    ensures rows[j].goal in RecurringPrefix(rows, i)
  {
    if j < i - 1 {
      RecurringPrefixHas(rows, i - 1, j);
    }
  }

  /** A goal is among the recurring goals exactly when some recurring row is its. */
  lemma {:induction false} RecurringGoalsMembers(rows: seq<CarryRow>)
    ensures forall g :: g in RecurringGoals(rows) <==> exists j :: 0 <= j < |rows| && rows[j].recurring && rows[j].goal == g
  {
    forall g | g in RecurringGoals(rows)
      ensures exists j :: 0 <= j < |rows| && rows[j].recurring && rows[j].goal == g
    {
      RecurringPrefixIn(rows, |rows|, g);
    }
    forall g | exists j :: 0 <= j < |rows| && rows[j].recurring && rows[j].goal == g
      ensures g in RecurringGoals(rows)
    {
      var j :| 0 <= j < |rows| && rows[j].recurring && rows[j].goal == g;
      RecurringPrefixHas(rows, |rows|, j);
    }
  }

  /** With one row per goal, a later row's goal is not among the earlier recurring ones. */
  lemma {:induction false} RecurringPrefixExcludes(rows: seq<CarryRow>, i: nat, k: nat)
    requires i <= k < |rows|
    requires forall j, l :: 0 <= j < l < |rows| ==> rows[j].goal != rows[l].goal
    ensures rows[k].goal !in RecurringPrefix(rows, i)
  {
    if i > 0 {
      RecurringPrefixExcludes(rows, i - 1, k);
    }
  }

  /** With one row per goal, the prefix holds as many goals as there are recurring rows in it. */
  lemma {:induction false} RecurringPrefixCount(rows: seq<CarryRow>, i: nat)
    requires i <= |rows|
    requires forall j, l :: 0 <= j < l < |rows| ==> rows[j].goal != rows[l].goal
    ensures |RecurringPrefix(rows, i)| == CountRecurring(rows, i)
  {
    if i > 0 {
      var before, g := RecurringPrefix(rows, i - 1), rows[i - 1].goal;
      RecurringPrefixCount(rows, i - 1);
      if rows[i - 1].recurring {
        RecurringPrefixExcludes(rows, i - 1, i - 1);
        assert RecurringPrefix(rows, i) == before + {g};
        assert |before + {g}| == |before| + 1;
      } else {
        assert RecurringPrefix(rows, i) == before;
      }
    }
  }

  lemma {:induction false} CountRecurringMonotone(rows: seq<CarryRow>, i: nat, k: nat)
    requires i <= k <= |rows|
    ensures CountRecurring(rows, i) <= CountRecurring(rows, k)
  {
    if i < k {
      CountRecurringMonotone(rows, i, k - 1);
    }
  }

  /** The recurring goals of the selected rows are eligible goals. */
  lemma {:induction false} RecurringPrefixEligible(goals: map<GoalId, Goal>, insts: map<Key, Instance>, yesterday: Day,
                                                   rows: seq<CarryRow>, i: nat)
    requires RowsOf(goals, insts, yesterday, rows) && i <= |rows|
    ensures RecurringPrefix(rows, i) <= EligibleGoals(goals, insts, yesterday)
  {
    if i > 0 {
      RecurringPrefixEligible(goals, insts, yesterday, rows, i - 1);
    }
  }

  /** The streak writes of the first `i` rows break exactly the streaks of their recurring goals. */
  lemma {:induction false} ResetPrefixIsReset(goals: map<GoalId, Goal>, insts: map<Key, Instance>, yesterday: Day,
                                              rows: seq<CarryRow>, i: nat)
    requires RowsOf(goals, insts, yesterday, rows) && i <= |rows|
    ensures ResetPrefix(goals, rows, i) == ResetStreaks(goals, RecurringPrefix(rows, i))
  {
    if i > 0 {
      ResetPrefixIsReset(goals, insts, yesterday, rows, i - 1);
      var g := rows[i - 1].goal;
      var m := ResetPrefix(goals, rows, i - 1);
      assert g in goals;
      ResetStreaksAt(goals, RecurringPrefix(rows, i - 1));
      if rows[i - 1].recurring {
        ResetStreaksStep(goals, RecurringPrefix(rows, i - 1), g);
      }
    }
  }

  /** The instance writes of the first `i` rows are the carryover of exactly their recurring goals. */
  ghost predicate CarryMatches(goals: map<GoalId, Goal>, insts: map<Key, Instance>, today: Day, rows: seq<CarryRow>, i: nat)
    requires i <= |rows|
  {
    && RecurringPrefix(rows, i) <= EligibleGoals(goals, insts, today - 1)
    && CarryPrefix(insts, rows, i, today) == CarryInto(goals, insts, today, RecurringPrefix(rows, i))
  }

  /** The instance writes of the first `i` rows carry over exactly their recurring goals. */
  lemma {:induction false} CarryPrefixIsCarry(goals: map<GoalId, Goal>, insts: map<Key, Instance>, today: Day,
                                              rows: seq<CarryRow>, i: nat)
    requires RowsOf(goals, insts, today - 1, rows) && i <= |rows|
    ensures CarryMatches(goals, insts, today, rows, i)
  {
    if i > 0 {
      CarryPrefixIsCarry(goals, insts, today, rows, i - 1);
      CarryPrefixStep(goals, insts, today, rows, i);
    } else {
      CarryIntoNone(goals, insts, today);
    }
  }

  lemma CarryIntoNone(goals: map<GoalId, Goal>, insts: map<Key, Instance>, today: Day)
    ensures CarryInto(goals, insts, today, {}) == insts
  {
  }

  /** One more row: its instance write is the carryover of its goal, or nothing. */
  lemma CarryPrefixStep(goals: map<GoalId, Goal>, insts: map<Key, Instance>, today: Day, rows: seq<CarryRow>, i: nat)
    requires RowsOf(goals, insts, today - 1, rows) && 0 < i <= |rows|
    requires CarryMatches(goals, insts, today, rows, i - 1)
    ensures CarryMatches(goals, insts, today, rows, i)
  {
    RecurringPrefixEligible(goals, insts, today - 1, rows, i);
    var g, before := rows[i - 1].goal, RecurringPrefix(rows, i - 1);
    var m := CarryPrefix(insts, rows, i - 1, today);
    if rows[i - 1].recurring {
      assert rows[i - 1] == RowOf(goals, insts, today - 1, g);
      assert RecurringPrefix(rows, i) == before + {g};
      CarryIntoStep(goals, insts, today, before, g);
    } else {
      assert RecurringPrefix(rows, i) == before;
    }
  }

  /** The recurring goals among the first `i` rows are among those of the first `k`. */
  lemma {:induction false} PrefixInRecurring(rows: seq<CarryRow>, i: nat, k: nat)
    requires i <= k <= |rows|
    ensures RecurringPrefix(rows, i) <= RecurringPrefix(rows, k)
  {
    if i < k {
      PrefixInRecurring(rows, i, k - 1);
    }
  }

  /** The recurring goals among the first `i` rows, counted, and compared with all of them. */
  lemma {:induction false} PrefixCounts(rows: seq<CarryRow>, i: nat)
    requires i <= |rows|
    requires forall j, l :: 0 <= j < l < |rows| ==> rows[j].goal != rows[l].goal
    ensures RecurringPrefix(rows, i) <= RecurringGoals(rows)
    ensures |RecurringPrefix(rows, i)| == CountRecurring(rows, i) <= |RecurringGoals(rows)|
    ensures i < |rows| && rows[i].recurring ==> CountRecurring(rows, i) < |RecurringGoals(rows)|
    ensures i == |rows| ==> RecurringPrefix(rows, i) == RecurringGoals(rows)
  {
    PrefixInRecurring(rows, i, |rows|);
    RecurringPrefixCount(rows, i);
    RecurringPrefixCount(rows, |rows|);
    if i < |rows| {
      CountRecurringMonotone(rows, i + 1, |rows|);
    } else {
      CountRecurringMonotone(rows, i, |rows|);
    }
  }

  /**
    What the carryover loop leaves, from tables (g0, i0) to (g1, i1): `carried`
    had today's instance replaced, `reset` its streak broken. The loop is
    aborted exactly when the failing write falls among the 2 writes per
    recurring row; it then stops at that write.
  */
  ghost predicate CarryOutcome(g0: map<GoalId, Goal>, i0: map<Key, Instance>, today: Day, carry: PhaseFaults,
                               rows: seq<CarryRow>, aborted: bool, carried: set<GoalId>, reset: set<GoalId>,
                               g1: map<GoalId, Goal>, i1: map<Key, Instance>)
  {
    var s := RecurringGoals(rows);
    && s <= EligibleGoals(g0, i0, today - 1)
    && reset <= carried <= s
    && g1 == ResetStreaks(g0, reset)
    && i1 == CarryInto(g0, i0, today, carried)
    && (aborted <==> Reaches(carry, 2 * |s|))
    && (aborted ==> |carried| == (carry.failingWrite.value + 1) / 2 && |reset| == carry.failingWrite.value / 2)
    && (!aborted ==> carried == s && reset == s)
  }

  /** The counts behind a loop stopped at row `i` by its first write: `c` recurring rows done. */
  lemma {:induction false} AbortCountsBefore(rows: seq<CarryRow>, i: nat, carry: PhaseFaults)
    requires i < |rows| && rows[i].recurring
    requires forall j, l :: 0 <= j < l < |rows| ==> rows[j].goal != rows[l].goal
    requires carry.failingWrite == Some(2 * CountRecurring(rows, i))
    ensures RecurringPrefix(rows, i) <= RecurringGoals(rows)
    ensures |RecurringPrefix(rows, i)| == (carry.failingWrite.value + 1) / 2 == carry.failingWrite.value / 2
    ensures Reaches(carry, 2 * |RecurringGoals(rows)|)
  {
    var c := CountRecurring(rows, i);
    PrefixCounts(rows, i);
    assert (2 * c + 1) / 2 == c && (2 * c) / 2 == c;
  }

  /** The counts behind a loop stopped at row `i` by its second write, after the row's instance write. */
  lemma {:induction false} AbortCountsAfter(rows: seq<CarryRow>, i: nat, carry: PhaseFaults)
    requires i < |rows| && rows[i].recurring
    requires forall j, l :: 0 <= j < l < |rows| ==> rows[j].goal != rows[l].goal
    requires carry.failingWrite == Some(2 * CountRecurring(rows, i) + 1)
    ensures RecurringPrefix(rows, i) <= RecurringPrefix(rows, i + 1) <= RecurringGoals(rows)
    ensures |RecurringPrefix(rows, i + 1)| == (carry.failingWrite.value + 1) / 2
    ensures |RecurringPrefix(rows, i)| == carry.failingWrite.value / 2
    ensures Reaches(carry, 2 * |RecurringGoals(rows)|)
  {
    var c := CountRecurring(rows, i);
    PrefixCounts(rows, i);
    PrefixCounts(rows, i + 1);
    assert (2 * c + 2) / 2 == c + 1 && (2 * c + 1) / 2 == c;
  }

  /** The loop stopped at row `i` by its first write, before the row's instance was replaced. */
  lemma {:induction false} CarryAbortedBefore(g0: map<GoalId, Goal>, i0: map<Key, Instance>, today: Day, carry: PhaseFaults,
                                              rows: seq<CarryRow>, i: nat)
    requires RowsOf(g0, i0, today - 1, rows)
    requires i < |rows| && rows[i].recurring
    requires carry.failingWrite == Some(2 * CountRecurring(rows, i))
    ensures CarryOutcome(g0, i0, today, carry, rows, true, RecurringPrefix(rows, i), RecurringPrefix(rows, i),
                         ResetPrefix(g0, rows, i), CarryPrefix(i0, rows, i, today))
  {
    AbortCountsBefore(rows, i, carry);
    RecurringPrefixEligible(g0, i0, today - 1, rows, |rows|);
    ResetPrefixIsReset(g0, i0, today - 1, rows, i);
    CarryPrefixIsCarry(g0, i0, today, rows, i);
  }

  /** The loop stopped at row `i` by its second write: the instance replaced, the streak not yet broken. */
  lemma {:induction false} CarryAbortedAfter(g0: map<GoalId, Goal>, i0: map<Key, Instance>, today: Day, carry: PhaseFaults,
                                             rows: seq<CarryRow>, i: nat)
    requires RowsOf(g0, i0, today - 1, rows)
    requires i < |rows| && rows[i].recurring
    requires carry.failingWrite == Some(2 * CountRecurring(rows, i) + 1)
    ensures CarryOutcome(g0, i0, today, carry, rows, true, RecurringPrefix(rows, i + 1), RecurringPrefix(rows, i),
                         ResetPrefix(g0, rows, i), CarryPrefix(i0, rows, i + 1, today))
  {
    AbortCountsAfter(rows, i, carry);
    RecurringPrefixEligible(g0, i0, today - 1, rows, |rows|);
    ResetPrefixIsReset(g0, i0, today - 1, rows, i);
    CarryPrefixIsCarry(g0, i0, today, rows, i + 1);
  }

  /** The loop ran through every row. */
  lemma {:induction false} CarryCompleted(g0: map<GoalId, Goal>, i0: map<Key, Instance>, today: Day, carry: PhaseFaults, rows: seq<CarryRow>)
    requires RowsOf(g0, i0, today - 1, rows)
    requires !Reaches(carry, 2 * CountRecurring(rows, |rows|))
    ensures CarryOutcome(g0, i0, today, carry, rows, false, RecurringPrefix(rows, |rows|), RecurringPrefix(rows, |rows|),
                         ResetPrefix(g0, rows, |rows|), CarryPrefix(i0, rows, |rows|, today))
  {
    PrefixCounts(rows, |rows|);
    RecurringPrefixEligible(g0, i0, today - 1, rows, |rows|);
    ResetPrefixIsReset(g0, i0, today - 1, rows, |rows|);
    CarryPrefixIsCarry(g0, i0, today, rows, |rows|);
  }

  /** The streak writes leave the goal ids as they were. */
  lemma {:induction false} ResetPrefixKeys(goals: map<GoalId, Goal>, rows: seq<CarryRow>, i: nat)
    requires i <= |rows|
    ensures ResetPrefix(goals, rows, i).Keys == goals.Keys
  {
    if i > 0 {
      ResetPrefixKeys(goals, rows, i - 1);
    }
  }

  /** Rows built one per enumerated eligible goal name exactly the eligible goals, once each. */
  lemma SelectedRowsCover(goals: map<GoalId, Goal>, insts: map<Key, Instance>, yesterday: Day,
                          ids: seq<GoalId>, rows: seq<CarryRow>)
    requires forall x :: x in ids <==> x in EligibleGoals(goals, insts, yesterday)
    requires forall j :: 0 <= j < |ids| ==> ids[j] in EligibleGoals(goals, insts, yesterday)
    requires forall j, k :: 0 <= j < k < |ids| ==> ids[j] != ids[k]
    requires |rows| == |ids| && forall j :: 0 <= j < |ids| ==> rows[j] == RowOf(goals, insts, yesterday, ids[j])
    ensures (set j | 0 <= j < |rows| :: rows[j].goal) == EligibleGoals(goals, insts, yesterday)
    ensures RowsOf(goals, insts, yesterday, rows)
  {
    assert forall j :: 0 <= j < |rows| ==> rows[j].goal == ids[j];
    forall g | g in EligibleGoals(goals, insts, yesterday)
      ensures g in (set j | 0 <= j < |rows| :: rows[j].goal)
    {
      var j :| 0 <= j < |ids| && ids[j] == g;
      assert rows[j].goal == g;
    }
  }

  /** The recurring goals among those rows are exactly the carry set. */
  lemma SelectedRowsCarry(goals: map<GoalId, Goal>, insts: map<Key, Instance>, yesterday: Day,
                          ids: seq<GoalId>, rows: seq<CarryRow>)
    requires forall x :: x in ids <==> x in EligibleGoals(goals, insts, yesterday)
    requires forall j :: 0 <= j < |ids| ==> ids[j] in EligibleGoals(goals, insts, yesterday)
    requires |rows| == |ids| && forall j :: 0 <= j < |ids| ==> rows[j] == RowOf(goals, insts, yesterday, ids[j])
    ensures RecurringGoals(rows) == CarrySet(goals, insts, yesterday)
  {
    RecurringGoalsMembers(rows);
    forall g | g in RecurringGoals(rows)
      ensures g in CarrySet(goals, insts, yesterday)
    {
      var j :| 0 <= j < |rows| && rows[j].recurring && rows[j].goal == g;
      assert rows[j] == RowOf(goals, insts, yesterday, ids[j]);
    }
    forall g | g in CarrySet(goals, insts, yesterday)
      ensures g in RecurringGoals(rows)
    {
      var j :| 0 <= j < |ids| && ids[j] == g;
      assert rows[j].goal == g && rows[j].recurring;
    }
  }

  /** A scheduled cron task; `scheduled` is false once it has been stopped. */
  class CronTask {
    var scheduled: bool

    constructor ()
      ensures scheduled
    {
      scheduled := true;
    }

    method Stop()
      modifies this
      ensures !scheduled
    {
      scheduled := false;
    }
  }

  class CarryoverService {
    const db: Db
    var job: CronTask?

    constructor (db: Db)
      ensures this.db == db && job == null
    {
      this.db := db;
      job := null;
    }

    /**
      Schedules the daily run and runs once immediately. A second call
      schedules another task and leaves the first one running.
    */
    method Start(today: Day, faults: Faults) returns (ghost carried: set<GoalId>, ghost reset: set<GoalId>, ghost added: set<GoalId>)
      requires db.Valid()
      modifies this, db
      ensures job != null && fresh(job) && job.scheduled
      ensures db.Valid()
      ensures RunOutcome(old(db.goals), old(db.instances), today, faults, db.goals, db.instances, carried, reset, added)
      ensures db.entries == old(db.entries) && db.achievements == old(db.achievements) && db.nextGoalId == old(db.nextGoalId)
    {
      job := new CronTask();
      carried, reset, added := ProcessCarryovers(today, faults);
    }

    /** Stops the scheduled task if there is one; the handle itself is kept. */
    method Stop()
      modifies job
      ensures job == old(job)
      ensures job != null ==> !job.scheduled
    {
      if job != null {
        job.Stop();
      }
    }

    /** The carryover query: yesterday's incomplete instances of active daily goals. */
    method SelectIncomplete(yesterday: Day) returns (rows: seq<CarryRow>)
      ensures (set j | 0 <= j < |rows| :: rows[j].goal) == EligibleGoals(db.goals, db.instances, yesterday)
      ensures RowsOf(db.goals, db.instances, yesterday, rows)
      ensures RecurringGoals(rows) == CarrySet(db.goals, db.instances, yesterday)
    {
      var goals, insts := db.goals, db.instances;
      var ids := Enumerate(EligibleGoals(goals, insts, yesterday));
      assert forall j :: 0 <= j < |ids| ==> ids[j] in EligibleGoals(goals, insts, yesterday);
      rows := seq(|ids|, j requires 0 <= j < |ids| => RowOf(goals, insts, yesterday, ids[j]));
      SelectedRowsCover(goals, insts, yesterday, ids, rows);
      SelectedRowsCarry(goals, insts, yesterday, ids, rows);
    }

    /** The back-fill query: active daily goals with no instance for today. */
    method SelectMissing(today: Day) returns (ids: seq<GoalId>)
      ensures |ids| == |MissingGoals(db.goals, db.instances, today)|
      ensures forall g :: g in ids <==> NeedsInstance(db.goals, db.instances, today, g)
      ensures forall j, k :: 0 <= j < k < |ids| ==> ids[j] != ids[k]
    {
      ids := Enumerate(MissingGoals(db.goals, db.instances, today));
    }

    /**
      The daily run. Carries over every selected recurring goal (instance
      replaced, then streak broken), then back-fills. Errors are caught and
      never reach the caller; the state they leave is what RunOutcome says.
    */
    method ProcessCarryovers(today: Day, faults: Faults) returns (ghost carried: set<GoalId>, ghost reset: set<GoalId>, ghost added: set<GoalId>)
      requires db.Valid()
      modifies db
      ensures db.Valid()
      ensures RunOutcome(old(db.goals), old(db.instances), today, faults, db.goals, db.instances, carried, reset, added)
      ensures db.entries == old(db.entries) && db.achievements == old(db.achievements) && db.nextGoalId == old(db.nextGoalId)
    {
      var yesterday := today - 1;
      ghost var g0, i0 := db.goals, db.instances;
      var rows: seq<CarryRow> := [];
      if !faults.carry.selectFails {
        rows := SelectIncomplete(yesterday);
      }
      var aborted;
      aborted, carried, reset := CarryRows(rows, today, faults.carry);
      CarryKeepsConsistent(g0, i0, db.entries, db.achievements, db.nextGoalId, today, carried, reset);
      added := {};
      if !aborted {
        added := CreateTodayInstances(today, faults.fill);
      }
    }

    /**
      The loop over the selected rows: a recurring goal has today's instance
      replaced, then its streak broken; a non-recurring row is skipped. The
      first failing write ends the loop with `aborted` set.
    */
    method CarryRows(rows: seq<CarryRow>, today: Day, carry: PhaseFaults)
      returns (aborted: bool, ghost carried: set<GoalId>, ghost reset: set<GoalId>)
      requires RowsOf(db.goals, db.instances, today - 1, rows)
      modifies db
      ensures CarryOutcome(old(db.goals), old(db.instances), today, carry, rows, aborted, carried, reset, db.goals, db.instances)
      ensures db.entries == old(db.entries) && db.achievements == old(db.achievements) && db.nextGoalId == old(db.nextGoalId)
    {
      ghost var g0, i0, e0, a0, n0 := db.goals, db.instances, db.entries, db.achievements, db.nextGoalId;
      aborted := false;
      var writes := 0;
      var i := 0;
      while i < |rows|
        invariant 0 <= i <= |rows|
        invariant writes == 2 * CountRecurring(rows, i)
        invariant !Reaches(carry, writes)
        invariant db.goals == ResetPrefix(g0, rows, i)
        invariant db.instances == CarryPrefix(i0, rows, i, today)
        invariant db.entries == e0 && db.achievements == a0 && db.nextGoalId == n0
      {
        var failed, after := CarryRow(rows, i, today, carry, writes, g0, i0);
        if failed {
          aborted := true;
          if after == writes {
            carried, reset := RecurringPrefix(rows, i), RecurringPrefix(rows, i);
            CarryAbortedBefore(g0, i0, today, carry, rows, i);
          } else {
            carried, reset := RecurringPrefix(rows, i + 1), RecurringPrefix(rows, i);
            CarryAbortedAfter(g0, i0, today, carry, rows, i);
          }
          return;
        }
        writes, i := after, i + 1;
      }
      carried, reset := RecurringPrefix(rows, i), RecurringPrefix(rows, i);
      CarryCompleted(g0, i0, today, carry, rows);
    }

    /**
      One row of the loop: a recurring row has today's instance replaced,
      then its streak broken, and either write may be the failing one; a
      non-recurring row writes nothing. `after` counts the writes so far,
      the failing one included.
    */
    method CarryRow(rows: seq<CarryRow>, i: nat, today: Day, carry: PhaseFaults, writes: nat,
                    ghost g0: map<GoalId, Goal>, ghost i0: map<Key, Instance>)
      returns (failed: bool, after: nat)
      requires RowsOf(g0, i0, today - 1, rows) && i < |rows|
      requires writes == 2 * CountRecurring(rows, i) && !Reaches(carry, writes)
      requires db.goals == ResetPrefix(g0, rows, i) && db.instances == CarryPrefix(i0, rows, i, today)
      modifies db
      ensures db.entries == old(db.entries) && db.achievements == old(db.achievements) && db.nextGoalId == old(db.nextGoalId)
      ensures !failed ==>
        && after == 2 * CountRecurring(rows, i + 1) && !Reaches(carry, after)
        && db.goals == ResetPrefix(g0, rows, i + 1) && db.instances == CarryPrefix(i0, rows, i + 1, today)
      ensures failed && after == writes ==>
        && rows[i].recurring && carry.failingWrite == Some(writes)
        && db.goals == ResetPrefix(g0, rows, i) && db.instances == CarryPrefix(i0, rows, i, today)
      ensures failed && after != writes ==>
        && rows[i].recurring && carry.failingWrite == Some(writes + 1)
        && db.goals == ResetPrefix(g0, rows, i) && db.instances == CarryPrefix(i0, rows, i + 1, today)
    {
      var row := rows[i];
      after := writes;
      failed := false;
      if row.recurring {
        if carry.failingWrite.Some? && carry.failingWrite.value == after {
          return true, after;
        }
        db.instances := db.instances[Key(row.goal, today) := CarriedInstance(row, today - 1)];
        after := after + 1;
        if carry.failingWrite.Some? && carry.failingWrite.value == after {
          return true, after;
        }
        ResetPrefixKeys(g0, rows, i);
        assert row.goal in g0;
        db.goals := db.goals[row.goal := db.goals[row.goal].(streak := 0)];
        after := after + 1;
      }
    }

    /** Inserts today's base-target instance for every active daily goal that has none. */
    method CreateTodayInstances(today: Day, fill: PhaseFaults) returns (ghost added: set<GoalId>)
      requires db.Valid()
      modifies db
      ensures db.Valid()
      ensures db.goals == old(db.goals)
      ensures FillOutcome(db.goals, old(db.instances), today, fill, db.instances, added)
      ensures db.entries == old(db.entries) && db.achievements == old(db.achievements) && db.nextGoalId == old(db.nextGoalId)
    {
      ghost var i0 := db.instances;
      ghost var missing := MissingGoals(db.goals, i0, today);
      var ids: seq<GoalId> := [];
      if !fill.selectFails {
        ids := SelectMissing(today);
      }
      ghost var n;
      added, n := InsertFresh(ids, today, fill);
      assert added <= missing by {
        forall g | g in added
          ensures g in missing
        {
          assert g in ids[..n];
          assert g in ids;
        }
      }
      AddFreshKeepsConsistent(db.goals, i0, db.entries, db.achievements, db.nextGoalId, today, added);
      if n == |ids| {
        assert ids[..n] == ids;
        assert !fill.selectFails ==> added == missing;
      }
    }

    /**
      The insert loop of the back-fill: a base-target instance for each goal
      of `ids` in turn, until the failing write. `n` inserts are done.
    */
    method InsertFresh(ids: seq<GoalId>, today: Day, fill: PhaseFaults) returns (ghost added: set<GoalId>, ghost n: nat)
      requires forall j :: 0 <= j < |ids| ==> ids[j] in db.goals
      requires forall j, k :: 0 <= j < k < |ids| ==> ids[j] != ids[k]
      modifies db
      ensures n <= |ids| && !Reaches(fill, n) && (n < |ids| ==> fill.failingWrite == Some(n))
      ensures forall g :: g in added <==> g in ids[..n]
      ensures added <= old(db.goals).Keys
      ensures |added| == n
      ensures db.goals == old(db.goals) && db.instances == AddFresh(db.goals, old(db.instances), today, added)
      ensures db.entries == old(db.entries) && db.achievements == old(db.achievements) && db.nextGoalId == old(db.nextGoalId)
    {
      added := {};
      n := 0;
      var i := 0;
      while i < |ids| && !(fill.failingWrite.Some? && fill.failingWrite.value == i)
        invariant 0 <= i <= |ids| && n == i
        invariant forall g :: g in added <==> g in ids[..i]
        invariant forall g :: g in added ==> g in ids
        invariant added <= db.goals.Keys
        invariant !Reaches(fill, i)
        invariant db.goals == old(db.goals)
        invariant db.instances == AddFresh(db.goals, old(db.instances), today, added)
        invariant db.entries == old(db.entries) && db.achievements == old(db.achievements)
        invariant db.nextGoalId == old(db.nextGoalId)
      {
        var g := ids[i];
        assert ids[..i + 1] == ids[..i] + [g];
        assert g !in ids[..i];
        AddFreshStep(db.goals, old(db.instances), today, added, g);
        db.instances := db.instances[Key(g, today) := FreshInstance(db.goals[g].target)];
        added := added + {g};
        i := i + 1;
        n := i;
      }
      DistinctCount(ids[..i], added);
    }

    /** The manual trigger: one run, exactly as the scheduled one. */
    method TriggerCarryover(today: Day, faults: Faults) returns (ghost carried: set<GoalId>, ghost reset: set<GoalId>, ghost added: set<GoalId>)
      requires db.Valid()
      modifies db
      ensures db.Valid()
      ensures RunOutcome(old(db.goals), old(db.instances), today, faults, db.goals, db.instances, carried, reset, added)
      ensures db.entries == old(db.entries) && db.achievements == old(db.achievements) && db.nextGoalId == old(db.nextGoalId)
    {
      carried, reset, added := ProcessCarryovers(today, faults);
    }
  }

  /** A set holding exactly the elements of a sequence without repeats has the sequence's length. */
  lemma {:induction false} DistinctCount(xs: seq<GoalId>, s: set<GoalId>)
    requires forall j, k :: 0 <= j < k < |xs| ==> xs[j] != xs[k]
    requires forall x :: x in s <==> x in xs
    ensures |s| == |xs|
  {
    if xs != [] {
      var last := xs[|xs| - 1];
      var init := xs[..|xs| - 1];
      assert xs == init + [last];
      assert last !in init;
      DistinctCount(init, s - {last});
      assert s == (s - {last}) + {last};
    } else {
      assert forall x :: x !in s;
      assert s == {};
    }
  }
}
