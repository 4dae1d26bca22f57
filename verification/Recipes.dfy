/**
 Company-news recipes: their versions, their single active row per source, and the health counters
 that turn an active recipe stale after too many incorrect or empty runs.
 */
module Recipes {
  import opened Common

  type RecipeId = nat
  type RunId = nat
  type JobId = nat
  type SourceId = nat
  type CompanyId = nat
  type Time = int  // microseconds

  const U32_MAX: nat := 0xFFFF_FFFF
  const I32_MAX: nat := 0x7FFF_FFFF
  const SECOND := 1_000_000
  const MAX_RATIO_BPS := 10_000
  const RETIRED_FAILURES: nat := 3

  type U32 = x: nat | x <= U32_MAX

  /** `wellFormed` stands for the checks of a spec that concern neither its health thresholds nor its intervals. */
  datatype Spec = Spec(
    crawlInterval: U32,
    staleAfter: U32,
    maxEmptyRuns: U32,
    maxFailures: U32,
    browser: bool,
    wellFormed: bool)
  {
    predicate Valid() {
      && wellFormed
      && crawlInterval != 0 && staleAfter >= crawlInterval
      && maxEmptyRuns != 0 && maxFailures != 0
    }
  }

  datatype RecipeStatus = Active | Stale | Superseded

  datatype Recipe = Recipe(
    key: string,
    company: CompanyId,
    source: SourceId,
    version: nat,
    status: RecipeStatus,
    spec: Spec,
    hash: string,
    generatedBy: Option<nat>,
    verifiedAt: Time,
    staleAt: Option<Time>,
    staleReason: Option<string>)

  datatype Freshness = FreshnessUnknown | Fresh | Overdue | ContentStale
  datatype Correctness = CorrectnessUnknown | Passing | Failing

  datatype Counts = Counts(failures: nat, empties: nat, incorrects: nat)

  datatype Health = Health(
    counts: Counts,
    rebuild: bool,
    correctness: Correctness,
    freshness: Freshness,
    lastCorrectAt: Option<Time>,
    lastItemAt: Option<Time>,
    fingerprint: Option<string>,
    reason: Option<string>)

  const NO_HEALTH := Health(Counts(0, 0, 0), false, CorrectnessUnknown, FreshnessUnknown, None, None, None, None)

  datatype RunStatus = Running | Passed | Failed | RunStale | Cancelled

  datatype RecipeRun = RecipeRun(
    recipe: RecipeId,
    source: SourceId,
    job: JobId,
    crawlRun: nat,
    status: RunStatus,
    finishedAt: Option<Time>,
    report: Option<Completion>)

  datatype Source = Source(disabled: bool, exported: bool, browser: bool, slo: nat, activeRecipe: Option<RecipeId>)

  datatype Activation = Activation(
    key: string,
    company: CompanyId,
    source: SourceId,
    spec: Spec,
    hash: string,
    generatedBy: Option<nat>,
    verifiedAt: Time,
    latest: Option<Time>,
    dated: bool,
    fingerprint: Option<string>)

  datatype Completion = Completion(
    discovered: int,
    accepted: int,
    rejected: int,
    normalized: int,
    added: int,
    ratio: int,
    latest: Option<Time>,
    dated: bool,
    fingerprint: Option<string>,
    reasons: seq<string>,
    error: Option<string>,
    transient: bool)
  {
    predicate Consistent() {
      && discovered >= 0 && accepted >= 0 && rejected >= 0 && normalized >= 0 && added >= 0
      && accepted + rejected <= discovered
      && normalized <= accepted && added <= normalized
      && 0 <= ratio <= MAX_RATIO_BPS
      && (transient ==> error.Some?)
    }

    predicate Correct() { reasons == [] && error.None? }
    predicate Empty() { accepted == 0 }

    function Reason(): Option<string> {
      if error.Some? then error else if reasons != [] then Some(reasons[0]) else None
    }
  }

  type RecipeTable = map<RecipeId, Recipe>
  type HealthTable = map<RecipeId, Health>
  type RunTable = map<RunId, RecipeRun>
  type SourceTable = map<SourceId, Source>

  // ----- Health after a run

  function NextCounts(c: Counts, correct: bool, empty: bool, transient: bool): Counts {
    if transient then c else
      Counts(if correct then 0 else c.failures + 1,
             if empty then c.empties + 1 else 0,
             if correct then 0 else c.incorrects + 1)
  }

  /** A threshold is a u32 compared with an i32 counter, so one past the i32 range counts as the largest i32. */
  function Threshold(limit: U32): nat { Min(limit, I32_MAX) }

  predicate Exceeds(c: Counts, spec: Spec) {
    || c.failures >= Threshold(spec.maxFailures)
    || c.empties >= Threshold(spec.maxEmptyRuns)
    || c.incorrects >= Threshold(spec.maxFailures)
  }

  function FreshnessAt(latest: Option<Time>, at: Time, staleAfter: nat, dated: bool, correct: bool): Freshness {
    if !dated then (if correct then FreshnessUnknown else Overdue)
    else if latest.Some? && latest.value < at - staleAfter * SECOND then ContentStale
    else if !correct then Overdue
    else if latest.Some? then Fresh
    else FreshnessUnknown
  }

  function HealthOf(health: HealthTable, id: RecipeId): Health {
    if id in health then health[id] else NO_HEALTH
  }

  function OrElse<T>(a: Option<T>, b: Option<T>): Option<T> { if a.Some? then a else b }

  function ActivatedHealth(h: Health, a: Activation): Health {
    var latest := OrElse(a.latest, h.lastItemAt);
    Health(Counts(0, 0, 0), false, Passing,
           FreshnessAt(latest, a.verifiedAt, a.spec.staleAfter, a.dated, true),
           Some(a.verifiedAt), latest, OrElse(a.fingerprint, h.fingerprint), None)
  }

  function RebuildAfter(h: Health, spec: Spec, c: Completion): bool {
    if c.transient then h.rebuild
    else Exceeds(NextCounts(h.counts, c.Correct(), c.Empty(), false), spec)
  }

  function CompletedHealth(h: Health, spec: Spec, c: Completion, now: Time): Health {
    var latest := OrElse(c.latest, h.lastItemAt);
    Health(NextCounts(h.counts, c.Correct(), c.Empty(), c.transient),
           RebuildAfter(h, spec, c),
           if c.Correct() then Passing else if c.transient then h.correctness else Failing,
           if c.transient then h.freshness else FreshnessAt(latest, now, spec.staleAfter, c.dated, c.Correct()),
           if c.Correct() then Some(now) else h.lastCorrectAt,
           latest, OrElse(c.fingerprint, h.fingerprint), c.Reason())
  }

  function RetiredHealth(h: Health, reason: string): Health {
    h.(correctness := Failing, rebuild := true, reason := Some(reason),
       counts := h.counts.(incorrects := Max(h.counts.incorrects, RETIRED_FAILURES)))
  }

  function RunStatusAfter(rebuild: bool, correct: bool): RunStatus {
    if rebuild then RunStale else if correct then Passed else Failed
  }

  // ----- Choosing the recipe that an activation writes

  predicate IsActive(recipes: RecipeTable, id: RecipeId) { id in recipes && recipes[id].status.Active? }

  predicate Reusable(recipes: RecipeTable, source: SourceId, hash: string, id: RecipeId) {
    IsActive(recipes, id) && recipes[id].source == source && recipes[id].hash == hash
  }

  predicate NothingReusable(recipes: RecipeTable, source: SourceId, hash: string) {
    forall k :: k in recipes ==> !Reusable(recipes, source, hash, k)
  }

  predicate HasVersion(recipes: RecipeTable, id: RecipeId, key: string, version: nat) {
    id in recipes && recipes[id].key == key && recipes[id].version == version
  }

  predicate IsMaxVersion(recipes: RecipeTable, key: string, version: nat) {
    && (forall k :: k in recipes && recipes[k].key == key ==> recipes[k].version <= version)
    && (version == 0 || exists k :: k in recipes && HasVersion(recipes, k, key, version))
  }

  // ----- States and events

  datatype State = State(recipes: RecipeTable, health: HealthTable, runs: RunTable, sources: SourceTable)

  datatype Event =
    | Activate(a: Activation, id: RecipeId, version: nat)
    | Supersede(id: RecipeId, reason: string)
    | Retire(id: RecipeId, reason: string, now: Time)
    | Begin(run: RunId, recipe: RecipeId, source: SourceId, job: JobId, crawlRun: nat)
    | Complete(run: RunId, recipe: RecipeId, c: Completion, now: Time)
    | CancelRuns(job: JobId, now: Time)
    | MarkOverdue(now: Time)

  predicate Blank(s: string) { Trim(s) == [] }

  predicate RunOfJob(runs: RunTable, run: RunId, job: JobId) {
    run in runs && runs[run].job == job && runs[run].status.Running?
  }

  predicate Enabled(s: State, e: Event) {
    match e
    case Activate(a, id, version) =>
      if NothingReusable(s.recipes, a.source, a.hash)
      then id !in s.recipes && version > 0 && IsMaxVersion(s.recipes, a.key, version - 1)
      else Reusable(s.recipes, a.source, a.hash, id)
    case Begin(run, _, _, job, _) => RunOfJob(s.runs, run, job) ||
        (run !in s.runs && forall k :: k in s.runs ==> !RunOfJob(s.runs, k, job))
    case _ => true
  }

  /** Whether the transaction commits a change; any other call leaves every table as it was. */
  predicate Takes(s: State, e: Event) {
    match e
    case Activate(a, _, _) =>
      a.spec.Valid() && !Blank(a.key) && !Blank(a.hash) && a.source in s.sources && a.spec.crawlInterval <= I32_MAX
    case Supersede(id, reason) => !Blank(reason) && IsActive(s.recipes, id)
    case Retire(id, reason, _) => !Blank(reason) && IsActive(s.recipes, id)
    case Begin(_, recipe, source, _, _) => recipe in s.recipes && source in s.sources
    case Complete(run, recipe, c, _) => c.Consistent() && recipe in s.recipes && run in s.runs &&
        s.runs[run].status.Running?
    case _ => true
  }

  function SupersededIn(recipes: RecipeTable, source: SourceId): RecipeTable {
    map k | k in recipes ::
      if recipes[k].source == source && recipes[k].status.Active? then recipes[k].(status := Superseded) else recipes[k]
  }

  function NewRecipe(a: Activation, version: nat): Recipe {
    Recipe(a.key, a.company, a.source, version, Active, a.spec, a.hash, a.generatedBy, a.verifiedAt, None, None)
  }

  function Reverified(recipes: RecipeTable, id: RecipeId, a: Activation): RecipeTable
    requires id in recipes
  {
    recipes[id := recipes[id].(verifiedAt := a.verifiedAt,
                               generatedBy := OrElse(a.generatedBy, recipes[id].generatedBy))]
  }

  function Inserted(recipes: RecipeTable, id: RecipeId, a: Activation, version: nat): RecipeTable {
    SupersededIn(recipes, a.source)[id := NewRecipe(a, version)]
  }

  function SupersededRow(recipes: RecipeTable, id: RecipeId): RecipeTable
    requires id in recipes
  {
    recipes[id := recipes[id].(status := Superseded, staleAt := None, staleReason := None)]
  }

  function StaleRow(recipes: RecipeTable, id: RecipeId, reason: string, now: Time): RecipeTable
    requires id in recipes
  {
    recipes[id := recipes[id].(status := Stale, staleAt := Some(now), staleReason := Some(reason))]
  }

  function StaleReason(c: Completion): string {
    if c.Reason().Some? then c.Reason().value else "recipe correctness threshold exceeded"
  }

  function RecipesAfter(s: State, e: Event): RecipeTable {
    match e
    case Activate(a, id, version) =>
      if id in s.recipes then Reverified(s.recipes, id, a) else Inserted(s.recipes, id, a, version)
    case Supersede(id, _) => if id in s.recipes then SupersededRow(s.recipes, id) else s.recipes
    case Retire(id, reason, now) => if id in s.recipes then StaleRow(s.recipes, id, reason, now) else s.recipes
    case Complete(_, id, c, now) =>
      if IsActive(s.recipes, id) && RebuildAfter(HealthOf(s.health, id), s.recipes[id].spec, c)
      then StaleRow(s.recipes, id, StaleReason(c), now)
      else s.recipes
    case _ => s.recipes
  }

  function LateFrom(r: Recipe, h: Health): Time {
    (if h.lastCorrectAt.Some? then h.lastCorrectAt.value else r.verifiedAt) + r.spec.crawlInterval * SECOND
  }

  function HealthAfter(s: State, e: Event): HealthTable {
    match e
    case Activate(a, id, _) => s.health[id := ActivatedHealth(HealthOf(s.health, id), a)]
    case Retire(id, reason, _) => if id in s.health then s.health[id := RetiredHealth(s.health[id], reason)]
        else s.health
    case Begin(_, id, _, _, _) => s.health[id := HealthOf(s.health, id)]
    case Complete(_, id, c, now) =>
      if id in s.recipes
      then s.health[id := CompletedHealth(HealthOf(s.health, id), s.recipes[id].spec, c, now)]
      else s.health
    case MarkOverdue(now) =>
      map k | k in s.health ::
        if IsActive(s.recipes, k) && !s.health[k].freshness.ContentStale? && LateFrom(s.recipes[k], s.health[k]) <= now
        then s.health[k].(freshness := Overdue)
        else s.health[k]
    case _ => s.health
  }

  function RunsAfter(s: State, e: Event): RunTable {
    match e
    case Begin(run, recipe, source, job, crawlRun) =>
      if run in s.runs
      then s.runs[run := s.runs[run].(crawlRun := crawlRun)]
      else s.runs[run := RecipeRun(recipe, source, job, crawlRun, Running, None, None)]
    case Complete(run, id, c, now) =>
      if run in s.runs && id in s.recipes
      then s.runs[run := s.runs[run].(
             status := RunStatusAfter(RebuildAfter(HealthOf(s.health, id), s.recipes[id].spec, c), c.Correct()),
             finishedAt := Some(now), report := Some(c))]
      else s.runs
    case CancelRuns(job, now) =>
      map k | k in s.runs :: if RunOfJob(s.runs, k, job) then s.runs[k].(status := Cancelled, finishedAt := Some(now))
          else s.runs[k]
    case _ => s.runs
  }

  function SourcesAfter(s: State, e: Event): SourceTable {
    match e
    case Activate(a, id, _) =>
      if a.source in s.sources
      then s.sources[a.source := s.sources[a.source].(browser := a.spec.browser, slo := a.spec.crawlInterval,
                                                      activeRecipe := Some(id))]
      else s.sources
    case Supersede(id, _) =>
      if id in s.recipes && s.recipes[id].source in s.sources &&
          s.sources[s.recipes[id].source].activeRecipe == Some(id)
      then s.sources[s.recipes[id].source := s.sources[s.recipes[id].source].(activeRecipe := None)]
      else s.sources
    case Retire(id, _, _) =>
      if id in s.recipes && s.recipes[id].source in s.sources
      then s.sources[s.recipes[id].source :=
                     s.sources[s.recipes[id].source].(disabled := true, exported := false, activeRecipe := None)]
      else s.sources
    case _ => s.sources
  }

  function Apply(s: State, e: Event): State {
    if Takes(s, e) then State(RecipesAfter(s, e), HealthAfter(s, e), RunsAfter(s, e), SourcesAfter(s, e)) else s
  }

  // ----- The code

  datatype RecipeError = InvalidSpec | BlankText | ConstraintViolation | IntervalTooLong | InconsistentCounts
      | RunNotRunning(run: RunId)

  datatype Outcome = Outcome(status: RunStatus, rebuild: bool)

  /** The state row that a completed run leaves. */
  method NextHealth(current: Health, spec: Spec, c: Completion, now: Time) returns (next: Health)
    ensures next == CompletedHealth(current, spec, c, now)
  {
    var correct, empty := c.reasons == [] && c.error.None?, c.accepted == 0;
    var counts := NextCounts(current.counts, correct, empty, c.transient);
    var rebuild;
    if c.transient {
      rebuild := current.rebuild;
    } else {
      rebuild :=
        || counts.failures >= Min(spec.maxFailures, I32_MAX)
        || counts.empties >= Min(spec.maxEmptyRuns, I32_MAX)
        || counts.incorrects >= Min(spec.maxFailures, I32_MAX);
    }
    var latest := OrElse(c.latest, current.lastItemAt);
    var freshness :=
      if c.transient then current.freshness else FreshnessAt(latest, now, spec.staleAfter, c.dated, correct);
    var correctness := if correct then Passing else if c.transient then current.correctness else Failing;
    next := Health(counts, rebuild, correctness, freshness, if correct then Some(now) else current.lastCorrectAt,
                   latest, OrElse(c.fingerprint, current.fingerprint), c.Reason());
  }

  class RecipeStore {
    var recipes: RecipeTable
    var health: HealthTable
    var runs: RunTable
    var sources: SourceTable

    ghost function Abs(): State reads this { State(recipes, health, runs, sources) }

    constructor (sources: SourceTable)
      ensures Abs() == State(map[], map[], map[], sources)
    {
      recipes, health, runs, this.sources := map[], map[], map[], sources;
    }

    /** SELECT COALESCE(max(version), 0) ... WHERE recipe_key = key. */
    method MaxVersion(key: string) returns (version: nat)
      ensures IsMaxVersion(recipes, key, version)
    {
      version := 0;
      var todo := recipes.Keys;
      while todo != {}
        invariant todo <= recipes.Keys
        invariant forall k :: k in recipes && k !in todo && recipes[k].key == key ==> recipes[k].version <= version
        invariant version == 0 || exists k :: k in recipes && HasVersion(recipes, k, key, version)
        decreases todo
      {
        var k :| k in todo;
        todo := todo - {k};
        if recipes[k].key == key && recipes[k].version > version {
          version := recipes[k].version;
          assert HasVersion(recipes, k, key, version);
        }
      }
    }

    /** The row an activation leaves active: the one already active with this content, else a new version. */
    method WriteRecipe(a: Activation, newId: RecipeId) returns (id: RecipeId, ghost version: nat)
      requires newId !in recipes
      modifies this`recipes
      ensures Enabled(old(Abs()), Activate(a, id, version))
      ensures recipes == RecipesAfter(old(Abs()), Activate(a, id, version))
      ensures id == newId <==> NothingReusable(old(recipes), a.source, a.hash)
    {
      version := 0;
      if k :| k in recipes && Reusable(recipes, a.source, a.hash, k) {
        id := k;
        recipes := recipes[id := recipes[id].(verifiedAt := a.verifiedAt,
                                              generatedBy := OrElse(a.generatedBy, recipes[id].generatedBy))];
      } else {
        id := newId;
        var latest := MaxVersion(a.key);
        version := latest + 1;
        recipes := map k | k in recipes ::
          if recipes[k].source == a.source && recipes[k].status.Active? then recipes[k].(status := Superseded)
              else recipes[k];
        recipes := recipes[id := NewRecipe(a, latest + 1)];
      }
    }

    /** The state row starts afresh: counters at zero, correctness passing, no rebuild. */
    method WriteHealth(a: Activation, id: RecipeId)
      modifies this`health
      ensures health == old(health)[id := ActivatedHealth(HealthOf(old(health), id), a)]
    {
      var previous := if id in health then health[id].lastItemAt else None;
      var latest := OrElse(a.latest, previous);
      var freshness := FreshnessAt(latest, a.verifiedAt, a.spec.staleAfter, a.dated, true);
      if id in health {
        health := health[id := health[id].(
          lastCorrectAt := Some(a.verifiedAt), counts := Counts(0, 0, 0),
          lastItemAt := OrElse(latest, health[id].lastItemAt),
          fingerprint := OrElse(a.fingerprint, health[id].fingerprint), freshness := freshness, correctness := Passing,
          rebuild := false, reason := None)];
      } else {
        health := health[id := Health(Counts(0, 0, 0), false, Passing, freshness, Some(a.verifiedAt), latest,
                                      a.fingerprint, None)];
      }
    }

    /**
     Makes a spec the active recipe of its source: the active row is kept if its content is the same, else superseded.
     */
    method ActivateRecipe(a: Activation, newId: RecipeId) returns (r: Result<RecipeId, RecipeError>, ghost version: nat)
      requires newId !in recipes
      modifies this
      ensures r.Ok? <==> Takes(old(Abs()), Activate(a, newId, version))
      ensures r.Err? ==> Abs() == old(Abs())
      ensures r.Ok? ==>
                var e := Activate(a, r.value, version);
                Enabled(old(Abs()), e) && Abs() == Apply(old(Abs()), e)
      ensures r.Ok? ==> (r.value == newId <==> NothingReusable(old(recipes), a.source, a.hash))
    {
      hide Enabled, RecipesAfter, ActivatedHealth, NothingReusable, Blank, Spec.Valid;
      version := 0;
      if !a.spec.Valid() {
        return Err(InvalidSpec), version;
      }
      if Blank(a.key) || Blank(a.hash) {
        return Err(BlankText), version;
      }
      if a.source !in sources {
        return Err(ConstraintViolation), version;
      }
      var savedRecipes, savedHealth := recipes, health;
      var id;
      id, version := WriteRecipe(a, newId);
      WriteHealth(a, id);
      if a.spec.crawlInterval > I32_MAX {
        recipes, health := savedRecipes, savedHealth;
        return Err(IntervalTooLong), version;
      }
      sources := sources[a.source :=
                         sources[a.source].(browser := a.spec.browser, slo := a.spec.crawlInterval,
                                            activeRecipe := Some(id))];
      r := Ok(id);
    }

    method SupersedeActive(id: RecipeId, reason: string) returns (r: Result<bool, RecipeError>)
      modifies this
      ensures r == if Blank(reason) then Err(BlankText) else Ok(IsActive(old(recipes), id))
      ensures Abs() == Apply(old(Abs()), Supersede(id, reason))
    {
      if Blank(reason) {
        return Err(BlankText);
      }
      if id !in recipes || !recipes[id].status.Active? {
        return Ok(false);
      }
      var source := recipes[id].source;
      recipes := recipes[id := recipes[id].(status := Superseded, staleAt := None, staleReason := None)];
      if source in sources && sources[source].activeRecipe == Some(id) {
        sources := sources[source := sources[source].(activeRecipe := None)];
      }
      return Ok(true);
    }

    method RetireForOwnership(id: RecipeId, reason: string, now: Time) returns (r: Result<bool, RecipeError>)
      modifies this
      ensures r == if Blank(reason) then Err(BlankText) else Ok(IsActive(old(recipes), id))
      ensures Abs() == Apply(old(Abs()), Retire(id, reason, now))
    {
      if Blank(reason) {
        return Err(BlankText);
      }
      if id !in recipes || !recipes[id].status.Active? {
        return Ok(false);
      }
      var source := recipes[id].source;
      recipes := recipes[id := recipes[id].(status := Stale, staleAt := Some(now), staleReason := Some(reason))];
      if id in health {
        var c := health[id].counts;
        health := health[id := health[id].(
          correctness := Failing, rebuild := true, counts := c.(incorrects := Max(c.incorrects, RETIRED_FAILURES)),
          reason := Some(reason))];
      }
      if source in sources {
        sources := sources[source := sources[source].(disabled := true, exported := false, activeRecipe := None)];
      }
      return Ok(true);
    }

    /** Opens a run; a job that already has one running keeps that row, whatever recipe it was opened for. */
    method BeginRun(recipe: RecipeId, source: SourceId, job: JobId, crawlRun: nat, newRun: RunId)
        returns (r: Result<RunId, RecipeError>)
      requires newRun !in runs
      modifies this
      ensures r.Ok? <==> recipe in recipes && source in sources
      ensures r.Err? ==> Abs() == old(Abs())
      ensures r.Ok? ==>
                var e := Begin(r.value, recipe, source, job, crawlRun);
                Enabled(old(Abs()), e) && Abs() == Apply(old(Abs()), e)
    {
      if recipe !in recipes || source !in sources {
        return Err(ConstraintViolation);
      }
      var run := newRun;
      if k :| k in runs && RunOfJob(runs, k, job) {
        run := k;
        runs := runs[run := runs[run].(crawlRun := crawlRun)];
      } else {
        runs := runs[run := RecipeRun(recipe, source, job, crawlRun, Running, None, None)];
      }
      if recipe !in health {
        health := health[recipe := NO_HEALTH];
      } else {
        assert health == health[recipe := health[recipe]];
      }
      return Ok(run);
    }

    /** Records what a run saw, and turns the recipe stale when a streak of bad runs has become too long. */
    method CompleteRun(run: RunId, id: RecipeId, c: Completion, now: Time) returns (r: Result<Outcome, RecipeError>)
      requires id in recipes
      modifies this
      ensures Abs() == Apply(old(Abs()), Complete(run, id, c, now))
      ensures r.Ok? <==> Takes(old(Abs()), Complete(run, id, c, now))
      ensures r.Ok? ==> run in runs && r.value == Outcome(runs[run].status, HealthOf(health, id).rebuild)
      ensures r.Ok? && r.value.rebuild ==> !IsActive(recipes, id)
    {
      if !c.Consistent() {
        return Err(InconsistentCounts);
      }
      var current := if id in health then health[id] else NO_HEALTH;
      var next := NextHealth(current, recipes[id].spec, c, now);
      assert next.rebuild == RebuildAfter(current, recipes[id].spec, c);
      hide RebuildAfter, CompletedHealth;
      if run !in runs || !runs[run].status.Running? {
        return Err(RunNotRunning(run));
      }
      var status := if next.rebuild then RunStale else if c.Correct() then Passed else Failed;
      runs := runs[run := runs[run].(status := status, finishedAt := Some(now), report := Some(c))];
      health := health[id := next];
      if next.rebuild && recipes[id].status.Active? {
        var reason := if c.Reason().Some? then c.Reason().value else "recipe correctness threshold exceeded";
        recipes := recipes[id := recipes[id].(status := Stale, staleAt := Some(now), staleReason := Some(reason))];
      }
      return Ok(Outcome(status, next.rebuild));
    }

    /** Closes the running recipe runs of a job, when its crawl begins again or is cancelled, and counts them. */
    method CancelRunsOf(job: JobId, now: Time) returns (count: nat)
      modifies this`runs
      ensures Abs() == Apply(old(Abs()), CancelRuns(job, now))
      ensures count == |set k | k in old(runs) && RunOfJob(old(runs), k, job)|
    {
      count := |set k | k in runs && RunOfJob(runs, k, job)|;
      runs := map k | k in runs :: if RunOfJob(runs, k, job)
          then runs[k].(status := Cancelled, finishedAt := Some(now)) else runs[k];
    }

    method MarkOverdueRecipes(now: Time)
      modifies this`health
      ensures Abs() == Apply(old(Abs()), MarkOverdue(now))
    {
      health := map k | k in health ::
        if IsActive(recipes, k) && !health[k].freshness.ContentStale? && LateFrom(recipes[k], health[k]) <= now
        then health[k].(freshness := Overdue)
        else health[k];
    }

    /** The recipe a crawl of this source runs: active, its newest version, and without a pending rebuild. */
    method GetActiveForSource(source: SourceId) returns (r: Option<RecipeId>)
      ensures r.Some? ==> Served(recipes, health, source, r.value)
      ensures r.Some? ==> forall k :: k in recipes && Served(recipes, health, source, k) ==>
          recipes[k].version <= recipes[r.value].version
      ensures r.None? ==> forall k :: k in recipes ==> !Served(recipes, health, source, k)
    {
      r := None;
      var todo := recipes.Keys;
      while todo != {}
        invariant todo <= recipes.Keys
        invariant r.Some? ==> Served(recipes, health, source, r.value)
        invariant forall k :: k in recipes && k !in todo && Served(recipes, health, source, k) ==>
                                r.Some? && recipes[k].version <= recipes[r.value].version
        decreases todo
      {
        var k :| k in todo;
        todo := todo - {k};
        if Served(recipes, health, source, k) && (r.None? || recipes[k].version > recipes[r.value].version) {
          r := Some(k);
        }
      }
    }
  }

  predicate Served(recipes: RecipeTable, health: HealthTable, source: SourceId, id: RecipeId) {
    IsActive(recipes, id) && recipes[id].source == source && !HealthOf(health, id).rebuild
  }
}
