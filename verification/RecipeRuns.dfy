/** What holds over every run of activations, supersessions, retirements and completed recipe runs. */
module RecipeRuns {
  import opened Common
  import opened Recipes

  function Exec(s: State, es: seq<Event>): State {
    if es == [] then s else Apply(Exec(s, es[..|es| - 1]), es[|es| - 1])
  }

  predicate Run(s: State, es: seq<Event>) {
    es != [] ==> Run(s, es[..|es| - 1]) && Enabled(Exec(s, es[..|es| - 1]), es[|es| - 1])
  }

  predicate Initial(s: State) { s.recipes == map[] && s.health == map[] && s.runs == map[] }

  // ----- One active recipe per source, and versions that count up

  ghost predicate OneActive(recipes: RecipeTable) {
    forall a, b :: IsActive(recipes, a) && IsActive(recipes, b) && recipes[a].source == recipes[b].source ==> a == b
  }

  ghost predicate VersionsDistinct(recipes: RecipeTable) {
    forall a, b ::
      a in recipes && b in recipes && recipes[a].key == recipes[b].key && recipes[a].version == recipes[b].version ==>
        a == b
  }

  ghost predicate VersionTaken(recipes: RecipeTable, key: string, version: nat) {
    exists k :: HasVersion(recipes, k, key, version)
  }

  /** The versions of a key are 1, 2, ... without a gap. */
  ghost predicate VersionsDense(recipes: RecipeTable) {
    forall a, v: nat :: a in recipes && 1 <= v <= recipes[a].version ==> VersionTaken(recipes, recipes[a].key, v)
  }

  predicate Sound(s: State, id: RecipeId) {
    id in s.recipes ==>
      var r := s.recipes[id];
      && r.spec.Valid() && r.version > 0 && r.source in s.sources && id in s.health
      && (r.status.Active? ==>
            && s.sources[r.source].activeRecipe == Some(id) && !s.health[id].rebuild
            && !Exceeds(s.health[id].counts, r.spec))
  }

  ghost predicate Inv(s: State) {
    && OneActive(s.recipes) && VersionsDistinct(s.recipes) && VersionsDense(s.recipes)
    && forall id :: Sound(s, id)
  }

  datatype Identity = Identity(key: string, version: nat, source: SourceId, spec: Spec, hash: string)

  function IdentityOf(r: Recipe): Identity { Identity(r.key, r.version, r.source, r.spec, r.hash) }

  /** Every row keeps what identifies it, and a row that is no longer active never becomes active again. */
  predicate RowStep(before: RecipeTable, next: RecipeTable, id: RecipeId) {
    id in before ==>
      && id in next && IdentityOf(next[id]) == IdentityOf(before[id])
      && (next[id].status.Active? ==> before[id].status.Active?)
  }

  lemma ReverifiedRow(recipes: RecipeTable, id: RecipeId, a: Activation, k: RecipeId)
    requires id in recipes
    ensures RowStep(recipes, Reverified(recipes, id, a), k) && Reverified(recipes, id, a).Keys == recipes.Keys
    ensures k in recipes ==> Reverified(recipes, id, a)[k].status == recipes[k].status
  {
  }

  lemma InsertedRow(recipes: RecipeTable, id: RecipeId, a: Activation, version: nat, k: RecipeId)
    requires id !in recipes
    ensures RowStep(recipes, Inserted(recipes, id, a, version), k)
    ensures Inserted(recipes, id, a, version).Keys == recipes.Keys + {id}
    ensures var r := Inserted(recipes, id, a, version)[id];
            IdentityOf(r) == Identity(a.key, version, a.source, a.spec, a.hash) && r.status.Active?
    ensures k in recipes ==>
              Inserted(recipes, id, a, version)[k].status ==
              if recipes[k].source == a.source && recipes[k].status.Active? then Superseded else recipes[k].status
  {
  }

  lemma ClosedRow(recipes: RecipeTable, id: RecipeId, reason: string, now: Time, k: RecipeId)
    requires id in recipes
    ensures RowStep(recipes, StaleRow(recipes, id, reason, now), k) &&
        StaleRow(recipes, id, reason, now).Keys == recipes.Keys
    ensures RowStep(recipes, SupersededRow(recipes, id), k) && SupersededRow(recipes, id).Keys == recipes.Keys
    ensures k in recipes ==> StaleRow(recipes, id, reason, now)[k].status == if k == id then Stale
        else recipes[k].status
    ensures k in recipes ==> SupersededRow(recipes, id)[k].status == if k == id then Superseded else recipes[k].status
  {
  }

  predicate Inserts(s: State, e: Event) { e.Activate? && Takes(s, e) && e.id !in s.recipes }

  predicate Trip(s: State, e: Event) {
    e.Complete? && IsActive(s.recipes, e.recipe) &&
        RebuildAfter(HealthOf(s.health, e.recipe), s.recipes[e.recipe].spec, e.c)
  }

  function StatusAfter(s: State, e: Event, k: RecipeId): RecipeStatus
    requires k in s.recipes
  {
    var now := s.recipes[k].status;
    if !Takes(s, e) then now
    else if e.Supersede? && e.id == k then Superseded
    else if e.Retire? && e.id == k then Stale
    else if e.Complete? && e.recipe == k && Trip(s, e) then Stale
    else if Inserts(s, e) && s.recipes[k].source == e.a.source && now.Active? then Superseded
    else now
  }

  /**
   What one event does to one row: only an activation adds a row, and its version comes after the largest of its key.
   */
  lemma RowAfter(s: State, e: Event, k: RecipeId)
    ensures RowStep(s.recipes, Apply(s, e).recipes, k)
    ensures k in s.recipes ==> Apply(s, e).recipes[k].status == StatusAfter(s, e, k)
    ensures Inserts(s, e) ==>
              && Apply(s, e).recipes.Keys == s.recipes.Keys + {e.id}
              && IdentityOf(Apply(s, e).recipes[e.id]) == Identity(e.a.key, e.version, e.a.source, e.a.spec, e.a.hash)
              && Apply(s, e).recipes[e.id].status.Active?
    ensures !Inserts(s, e) ==> Apply(s, e).recipes.Keys == s.recipes.Keys
  {
    RowsExist(s, e);
    hide Takes, HealthAfter, RunsAfter, SourcesAfter, RebuildAfter, HealthOf, Reverified, Inserted, StaleRow,
         SupersededRow, IdentityOf, StaleReason;
    match e
    case Activate(a, id, version) =>
      if id in s.recipes {
        ReverifiedRow(s.recipes, id, a, k);
      } else {
        InsertedRow(s.recipes, id, a, version, k);
      }
    case Supersede(id, _) =>
      if id in s.recipes {
        ClosedRow(s.recipes, id, "", 0, k);
      }
    case Retire(id, reason, now) =>
      if id in s.recipes {
        ClosedRow(s.recipes, id, reason, now, k);
      }
    case Complete(_, id, c, now) =>
      if id in s.recipes {
        ClosedRow(s.recipes, id, StaleReason(c), now, k);
      }
    case _ =>
  }

  ghost predicate TableStep(before: RecipeTable, next: RecipeTable) {
    forall k :: k in before ==>
      && k in next && next[k].key == before[k].key && next[k].version == before[k].version &&
          next[k].source == before[k].source
      && (next[k].status.Active? ==> before[k].status.Active?)
  }

  lemma RowsAfter(s: State, e: Event)
    ensures TableStep(s.recipes, Apply(s, e).recipes)
    ensures Inserts(s, e) ==>
              var next := Apply(s, e).recipes;
              && next.Keys == s.recipes.Keys + {e.id}
              && next[e.id].key == e.a.key && next[e.id].version == e.version && next[e.id].source == e.a.source
              && forall k :: k in s.recipes && next[k].status.Active? ==> next[k].source != e.a.source
    ensures !Inserts(s, e) ==> Apply(s, e).recipes.Keys == s.recipes.Keys
  {
    hide Apply, Takes;
    var next := Apply(s, e).recipes;
    RowAfter(s, e, 0);
    forall k | k in s.recipes
      ensures RowStep(s.recipes, next, k)
      ensures next[k].status == StatusAfter(s, e, k)
    {
      RowAfter(s, e, k);
    }
  }

  lemma {:induction false} NeverActiveAgain(s: State, es: seq<Event>, i: nat, id: RecipeId)
    requires Run(s, es) && i <= |es|
    ensures RowStep(Exec(s, es[..i]).recipes, Exec(s, es).recipes, id)
  {
    hide Enabled, Apply, IdentityOf;
    if i == |es| {
      assert es[..i] == es;
    } else {
      var front := es[..|es| - 1];
      assert front[..i] == es[..i];
      NeverActiveAgain(s, front, i, id);
      RowAfter(Exec(s, front), es[|es| - 1], id);
    }
  }

  lemma OneActivePreserved(s: State, e: Event)
    requires OneActive(s.recipes)
    ensures OneActive(Apply(s, e).recipes)
  {
    hide Apply, Takes;
    RowsAfter(s, e);
  }

  lemma NewestVersion(s: State, e: Event)
    requires Enabled(s, e) && Inserts(s, e)
    ensures e.version > 0 && IsMaxVersion(s.recipes, e.a.key, e.version - 1)
  {
    hide IsMaxVersion;
  }

  lemma VersionsDistinctPreserved(s: State, e: Event)
    requires Enabled(s, e) && VersionsDistinct(s.recipes)
    ensures VersionsDistinct(Apply(s, e).recipes)
  {
    hide Apply, Takes, Enabled;
    RowsAfter(s, e);
    if Inserts(s, e) {
      NewestVersion(s, e);
    }
  }

  lemma VersionsDensePreserved(s: State, e: Event)
    requires Enabled(s, e) && VersionsDense(s.recipes)
    ensures VersionsDense(Apply(s, e).recipes)
  {
    hide Apply, Takes, Enabled, VersionTaken, IsMaxVersion;
    var next := Apply(s, e).recipes;
    RowsAfter(s, e);
    forall a, v: nat | a in next && 1 <= v <= next[a].version
      ensures VersionTaken(next, next[a].key, v)
    {
      if a in s.recipes {
        TakenStays(s.recipes, next, s.recipes[a].key, v);
      } else if v == next[a].version {
        TakenBy(next, a);
      } else {
        NewestVersion(s, e);
        BelowNewVersion(s.recipes, e.a.key, e.version, v);
        TakenStays(s.recipes, next, e.a.key, v);
      }
    }
  }

  lemma TakenBy(recipes: RecipeTable, id: RecipeId)
    requires id in recipes
    ensures VersionTaken(recipes, recipes[id].key, recipes[id].version)
  {
    assert HasVersion(recipes, id, recipes[id].key, recipes[id].version);
  }

  lemma TakenStays(before: RecipeTable, next: RecipeTable, key: string, v: nat)
    requires VersionTaken(before, key, v) && TableStep(before, next)
    ensures VersionTaken(next, key, v)
  {
    var k :| HasVersion(before, k, key, v);
    assert HasVersion(next, k, key, v);
  }

  lemma BelowNewVersion(recipes: RecipeTable, key: string, version: nat, v: nat)
    requires version > 0 && IsMaxVersion(recipes, key, version - 1) && VersionsDense(recipes) && 1 <= v < version
    ensures VersionTaken(recipes, key, v)
  {
    var k :| k in recipes && HasVersion(recipes, k, key, version - 1);
    assert VersionTaken(recipes, recipes[k].key, v);
  }

  lemma RowsExist(s: State, e: Event)
    ensures Takes(s, e) && e.Complete? ==> e.recipe in s.recipes
    ensures Takes(s, e) && e.Activate? ==> e.a.source in s.sources && e.a.spec.Valid()
    ensures Takes(s, e) && (e.Supersede? || e.Retire?) ==> IsActive(s.recipes, e.id)
  {
    hide Blank, Completion.Consistent;
  }

  lemma ActivatedRow(h: Health, a: Activation)
    ensures !ActivatedHealth(h, a).rebuild && ActivatedHealth(h, a).counts == Counts(0, 0, 0)
  {
    hide FreshnessAt;
  }

  lemma CompletedRow(h: Health, spec: Spec, c: Completion, now: Time)
    ensures CompletedHealth(h, spec, c, now).rebuild == RebuildAfter(h, spec, c)
    ensures CompletedHealth(h, spec, c, now).counts == NextCounts(h.counts, c.Correct(), c.Empty(), c.transient)
  {
    hide RebuildAfter, NextCounts, FreshnessAt;
  }

  /** The state row and the source row after an event, where they matter for an active recipe. */
  lemma StateRowAfter(s: State, e: Event, id: RecipeId)
    requires Takes(s, e)
    ensures s.health.Keys <= Apply(s, e).health.Keys && s.sources.Keys == Apply(s, e).sources.Keys
    ensures e.Activate? ==> e.id in Apply(s, e).health
    ensures e.Activate? && e.id == id ==>
        !Apply(s, e).health[id].rebuild && Apply(s, e).health[id].counts == Counts(0, 0, 0)
    ensures e.Complete? && e.recipe == id ==>
              Apply(s, e).health[id].rebuild == RebuildAfter(HealthOf(s.health, id), s.recipes[id].spec, e.c)
    ensures e.Complete? && e.recipe == id ==>
              Apply(s, e).health[id].counts == NextCounts(HealthOf(s.health, id).counts, e.c.Correct(), e.c.Empty(),
                                                          e.c.transient)
    ensures (id in s.health && !(e.Activate? && e.id == id) && !(e.Complete? && e.recipe == id)
             && !(e.Retire? && e.id == id)) ==>
              && Apply(s, e).health[id].rebuild == s.health[id].rebuild
              && Apply(s, e).health[id].counts == s.health[id].counts
  {
    RowsExist(s, e);
    hide Takes, RecipesAfter, RunsAfter, ActivatedHealth, CompletedHealth, RetiredHealth, NextCounts, RebuildAfter,
         IsActive, LateFrom;
    match e
    case Activate(a, k, _) =>
      ActivatedRow(HealthOf(s.health, k), a);
    case Complete(_, k, c, now) =>
      CompletedRow(HealthOf(s.health, k), s.recipes[k].spec, c, now);
    case Retire(_, _, _) =>
    case MarkOverdue(_) =>
    case _ =>
  }

  lemma PointerAfter(s: State, e: Event, source: SourceId)
    requires Takes(s, e) && source in s.sources
    ensures source in Apply(s, e).sources
    ensures e.Activate? && e.a.source == source ==> Apply(s, e).sources[source].activeRecipe == Some(e.id)
    ensures (!(e.Activate? && e.a.source == source)
             && !((e.Supersede? || e.Retire?) && e.id in s.recipes && s.recipes[e.id].source == source)) ==>
              Apply(s, e).sources[source] == s.sources[source]
  {
    RowsExist(s, e);
    hide Takes, RecipesAfter, RunsAfter, HealthAfter;
    match e
    case Activate(_, _, _) =>
    case Supersede(_, _) =>
    case Retire(_, _, _) =>
    case _ =>
  }

  lemma NewRowSound(s: State, e: Event, id: RecipeId)
    requires Enabled(s, e) && Takes(s, e) && id !in s.recipes
    ensures Sound(Apply(s, e), id)
  {
    RowAfter(s, e, id);
    StateRowAfter(s, e, id);
    RowsExist(s, e);
    hide Takes, Apply, NextCounts, Exceeds, IdentityOf;
    if Inserts(s, e) && e.id == id {
      PointerAfter(s, e, e.a.source);
      NewIdentity(Apply(s, e).recipes[id], e.a, e.version);
      ZeroCountsPass(e.a.spec);
    }
  }

  lemma OldRowSound(s: State, e: Event, id: RecipeId)
    requires Takes(s, e) && OneActive(s.recipes) && Sound(s, id) && id in s.recipes
    requires e.Activate? && e.id in s.recipes ==> IsActive(s.recipes, e.id) && s.recipes[e.id].source == e.a.source
    ensures Sound(Apply(s, e), id)
  {
    RowAfter(s, e, id);
    StateRowAfter(s, e, id);
    RowsExist(s, e);
    PointerAfter(s, e, s.recipes[id].source);
    ZeroCountsPass(s.recipes[id].spec);
    hide Takes, Apply, NextCounts, Exceeds, IdentityOf, Spec.Valid;
    SameIdentity(Apply(s, e).recipes[id], s.recipes[id]);
  }

  lemma SoundPreserved(s: State, e: Event, id: RecipeId)
    requires Enabled(s, e) && Inv(s)
    ensures Sound(Apply(s, e), id)
  {
    assert Sound(s, id);
    if Takes(s, e) {
      ActivationTargets(s, e);
      hide Takes, Enabled, Sound, VersionsDense, VersionsDistinct, OneActive;
      if id in s.recipes {
        OldRowSound(s, e, id);
      } else {
        NewRowSound(s, e, id);
      }
    }
  }

  lemma SameIdentity(a: Recipe, b: Recipe)
    requires IdentityOf(a) == IdentityOf(b)
    ensures a.key == b.key && a.version == b.version && a.source == b.source && a.spec == b.spec && a.hash == b.hash
  {
  }

  lemma NewIdentity(r: Recipe, a: Activation, version: nat)
    requires IdentityOf(r) == Identity(a.key, version, a.source, a.spec, a.hash)
    ensures r.key == a.key && r.version == version && r.source == a.source && r.spec == a.spec && r.hash == a.hash
  {
  }

  lemma ZeroCountsPass(spec: Spec)
    requires spec.Valid()
    ensures !Exceeds(Counts(0, 0, 0), spec)
  {
  }

  /** An activation writes the recipe that is the only active one of its source afterwards. */
  lemma ActivationTargets(s: State, e: Event)
    requires Enabled(s, e) && OneActive(s.recipes)
    ensures e.Activate? && e.id !in s.recipes ==> e.version > 0
    ensures e.Activate? && e.id in s.recipes ==> IsActive(s.recipes, e.id) && s.recipes[e.id].source == e.a.source
  {
    hide IsMaxVersion;
  }

  lemma InvPreserved(s: State, e: Event)
    requires Enabled(s, e) && Inv(s)
    ensures Inv(Apply(s, e))
  {
    hide Enabled, Apply, Sound, VersionsDistinct, VersionsDense, OneActive;
    OneActivePreserved(s, e);
    VersionsDistinctPreserved(s, e);
    VersionsDensePreserved(s, e);
    forall id
      ensures Sound(Apply(s, e), id)
    {
      SoundPreserved(s, e, id);
    }
  }

  /** At most one recipe of a source is active, and the versions of a key are 1, 2, ..., n, each once. */
  lemma {:induction false} ReachableInv(s: State, es: seq<Event>)
    requires Initial(s) && Run(s, es)
    ensures Inv(Exec(s, es))
  {
    hide Enabled, Apply;
    if es != [] {
      ReachableInv(s, es[..|es| - 1]);
      InvPreserved(Exec(s, es[..|es| - 1]), es[|es| - 1]);
    }
  }

  /** A recipe inserted later has a larger version than every recipe of its key before it. */
  lemma {:induction false} VersionsIncrease(s: State, es: seq<Event>, i: nat, a: RecipeId, b: RecipeId)
    requires Run(s, es) && i < |es|
    requires a in Exec(s, es[..i]).recipes && b !in Exec(s, es[..i]).recipes && b in Exec(s, es).recipes
    requires Exec(s, es[..i]).recipes[a].key == Exec(s, es).recipes[b].key
    ensures Exec(s, es[..i]).recipes[a].version < Exec(s, es).recipes[b].version
    decreases |es|
  {
    hide Enabled, Apply;
    var front, e := es[..|es| - 1], es[|es| - 1];
    var mid := Exec(s, front);
    assert front[..i] == es[..i];
    NeverActiveAgain(s, front, i, a);
    RowsAfter(mid, e);
    if Inserts(mid, e) {
      NewestVersion(mid, e);
    }
    if b in mid.recipes {
      VersionsIncrease(s, front, i, a, b);
    }
  }

  /** In every reachable state the rebuild guard of the active-recipe query changes nothing. */
  lemma GuardIsRedundant(s: State, es: seq<Event>, source: SourceId, id: RecipeId)
    requires Initial(s) && Run(s, es)
    ensures var t := Exec(s, es); Served(t.recipes, t.health, source, id) <==>
        IsActive(t.recipes, id) && t.recipes[id].source == source
    ensures var t := Exec(s, es); Served(t.recipes, t.health, source, id) ==>
        source in t.sources && t.sources[source].activeRecipe == Some(id)
  {
    ReachableInv(s, es);
    assert Sound(Exec(s, es), id);
  }

  // ----- The counters are the trailing streaks of the run history

  /** The runs completed for a recipe since it was last activated. */
  function History(s: State, es: seq<Event>, id: RecipeId): seq<Completion> {
    if es == [] then [] else
      var front, e := es[..|es| - 1], es[|es| - 1];
      var before := History(s, front, id);
      if !Takes(Exec(s, front), e) then before
      else if e.Activate? && e.id == id then []
      else if e.Complete? && e.recipe == id then before + [e.c]
      else before
  }

  predicate RetiredIn(s: State, es: seq<Event>, id: RecipeId) {
    es != [] &&
    (RetiredIn(s, es[..|es| - 1], id)
     || (es[|es| - 1].Retire? && es[|es| - 1].id == id && Takes(Exec(s, es[..|es| - 1]), es[|es| - 1])))
  }

  /** The history without the runs that failed for a passing reason. */
  function Counted(log: seq<Completion>): seq<Completion> {
    if log == [] then []
    else if log[|log| - 1].transient then Counted(log[..|log| - 1])
    else Counted(log[..|log| - 1]) + [log[|log| - 1]]
  }

  function IncorrectStreak(log: seq<Completion>): nat {
    if log == [] || log[|log| - 1].Correct() then 0 else 1 + IncorrectStreak(log[..|log| - 1])
  }

  function EmptyStreak(log: seq<Completion>): nat {
    if log == [] || !log[|log| - 1].Empty() then 0 else 1 + EmptyStreak(log[..|log| - 1])
  }

  lemma {:induction false} StreaksAreTrailing(log: seq<Completion>)
    ensures var n := IncorrectStreak(log);
            && n <= |log| && (forall i :: |log| - n <= i < |log| ==> !log[i].Correct())
            && (n < |log| ==> log[|log| - n - 1].Correct())
    ensures var n := EmptyStreak(log);
            && n <= |log| && (forall i :: |log| - n <= i < |log| ==> log[i].Empty())
            && (n < |log| ==> !log[|log| - n - 1].Empty())
  {
    if log != [] {
      StreaksAreTrailing(log[..|log| - 1]);
    }
  }

  function Streaks(log: seq<Completion>): Counts {
    var steady := Counted(log);
    Counts(IncorrectStreak(steady), EmptyStreak(steady), IncorrectStreak(steady))
  }

  lemma StreaksAfter(log: seq<Completion>, c: Completion)
    ensures Streaks(log + [c]) == NextCounts(Streaks(log), c.Correct(), c.Empty(), c.transient)
  {
    assert (log + [c])[..|log|] == log;
    if !c.transient {
      assert Counted(log + [c])[..|Counted(log)|] == Counted(log);
    }
  }

  lemma CountsStep(s: State, e: Event, id: RecipeId)
    requires Enabled(s, e)
    ensures HealthOf(Apply(s, e).health, id).counts ==
            if !Takes(s, e) then HealthOf(s.health, id).counts
            else match e
              case Activate(_, k, _) => if k == id then Counts(0, 0, 0) else HealthOf(s.health, id).counts
              case Complete(_, k, c, _) =>
                if k == id then NextCounts(HealthOf(s.health, id).counts, c.Correct(), c.Empty(), c.transient)
                    else HealthOf(s.health, id).counts
              case Retire(k, reason, _) =>
                if k == id && k in s.health then RetiredHealth(s.health[k], reason).counts
                    else HealthOf(s.health, id).counts
              case _ => HealthOf(s.health, id).counts
  {
    hide RecipesAfter, RunsAfter, SourcesAfter, NextCounts, FreshnessAt, Exceeds;
  }

  /** The trailing streak of incorrect runs since the last activation. */
  function StreakNow(s: State, es: seq<Event>, id: RecipeId): nat { IncorrectStreak(Counted(History(s, es, id))) }

  predicate RetiresNow(s: State, e: Event, id: RecipeId) { e.Retire? && e.id == id && Takes(s, e) }

  /** A new activation, or a correct run that counts. */
  predicate Clears(s: State, e: Event, id: RecipeId) {
    Takes(s, e) && ((e.Activate? && e.id == id) || (e.Complete? && e.recipe == id && !e.c.transient && e.c.Correct()))
  }

  /** By how much the correctness counter is ahead of its streak: only a retirement puts it ahead. */
  function Excess(s: State, es: seq<Event>, id: RecipeId): nat {
    if es == [] then 0 else
      var front, e := es[..|es| - 1], es[|es| - 1];
      if Clears(Exec(s, front), e, id) then 0
      else if RetiresNow(Exec(s, front), e, id) then
        Max(StreakNow(s, front, id) + Excess(s, front, id), 3) - StreakNow(s, front, id)
      else Excess(s, front, id)
  }

  /** What one event does to counters that are `x` ahead of the streaks `k` on the correctness side. */
  function Ahead(k: Counts, x: nat): Counts { k.(incorrects := k.incorrects + x) }

  lemma AheadStep(k: Counts, x: nat, c: Completion)
    ensures NextCounts(Ahead(k, x), c.Correct(), c.Empty(), c.transient) ==
            Ahead(NextCounts(k, c.Correct(), c.Empty(), c.transient), if !c.transient && c.Correct() then 0 else x)
  {
  }

  lemma AheadRetired(h: Health, k: Counts, x: nat, reason: string)
    requires h.counts == Ahead(k, x)
    ensures RetiredHealth(h, reason).counts == Ahead(k, Max(k.incorrects + x, 3) - k.incorrects)
  {
  }

  /**
   The counters of every recipe over every run: the trailing streaks, and what a retirement has added to one of them.
   */
  lemma {:induction false} CountsAreStreaksAndExcess(s: State, es: seq<Event>, id: RecipeId)
    requires Initial(s) && Run(s, es)
    ensures HealthOf(Exec(s, es).health, id).counts == Ahead(Streaks(History(s, es, id)), Excess(s, es, id))
  {
    hide Enabled, Apply, Takes, NextCounts, Streaks, RetiredHealth, Ahead;
    EmptyHistory();
    NothingAhead(Counts(0, 0, 0));
    if es != [] {
      var front, e := es[..|es| - 1], es[|es| - 1];
      var mid, k, x := Exec(s, front), Streaks(History(s, front, id)), Excess(s, front, id);
      CountsAreStreaksAndExcess(s, front, id);
      CountsStep(mid, e, id);
      StreaksNow(s, front, id);
      if e.Complete? {
        StreaksAfter(History(s, front, id), e.c);
        AheadStep(k, x, e.c);
      } else if RetiresNow(mid, e, id) {
        RowsExist(mid, e);
        ReachableInv(s, front);
        assert Sound(mid, id);
        AheadRetired(mid.health[id], k, x, e.reason);
      }
    }
  }

  lemma NothingAhead(k: Counts)
    ensures Ahead(k, 0) == k
  {
  }

  lemma StreaksNow(s: State, es: seq<Event>, id: RecipeId)
    ensures Streaks(History(s, es, id)).incorrects == StreakNow(s, es, id)
  {
  }

  /**
   Over every run, retired or not, the failure and empty counters are the trailing streaks since the last activation.
   */
  lemma FailureAndEmptyCountsAreStreaks(s: State, es: seq<Event>, id: RecipeId)
    requires Initial(s) && Run(s, es)
    ensures var c, log := HealthOf(Exec(s, es).health, id).counts, Counted(History(s, es, id));
            c.failures == IncorrectStreak(log) && c.empties == EmptyStreak(log)
  {
    CountsAreStreaksAndExcess(s, es, id);
  }

  /** Event i retires the recipe while its streak is shorter than what a retirement sets the counter to. */
  predicate Bumps(s: State, es: seq<Event>, i: nat, id: RecipeId)
    requires i < |es|
  {
    RetiresNow(Exec(s, es[..i]), es[i], id) && StreakNow(s, es[..i], id) < 3
  }

  predicate ClearsAt(s: State, es: seq<Event>, j: nat, id: RecipeId)
    requires j < |es|
  {
    Clears(Exec(s, es[..j]), es[j], id)
  }

  /** Such a retirement with nothing after it that clears the counter. */
  predicate BumpShows(s: State, es: seq<Event>, id: RecipeId) {
    exists i :: 0 <= i < |es| && Bumps(s, es, i, id) && NothingClears(s, es, i + 1, id)
  }

  predicate NothingClears(s: State, es: seq<Event>, from: nat, id: RecipeId) {
    forall j :: from <= j < |es| ==> !ClearsAt(s, es, j, id)
  }

  lemma PrefixAgrees(s: State, es: seq<Event>, i: nat, id: RecipeId)
    requires i < |es| - 1
    ensures Bumps(s, es[..|es| - 1], i, id) == Bumps(s, es, i, id) &&
        ClearsAt(s, es[..|es| - 1], i, id) == ClearsAt(s, es, i, id)
  {
    hide Clears, RetiresNow, StreakNow;
    assert es[..|es| - 1][..i] == es[..i];
  }

  lemma BumpShowsStep(s: State, es: seq<Event>, id: RecipeId)
    requires es != []
    ensures var n := |es| - 1;
            BumpShows(s, es, id) <==> !ClearsAt(s, es, n, id) && (BumpShows(s, es[..n], id) || Bumps(s, es, n, id))
  {
    hide Bumps, ClearsAt;
    var n, front := |es| - 1, es[..|es| - 1];
    forall i | 0 <= i < n
      ensures Bumps(s, front, i, id) == Bumps(s, es, i, id) && ClearsAt(s, front, i, id) == ClearsAt(s, es, i, id)
    {
      PrefixAgrees(s, es, i, id);
    }
    BumpIsNoClear(s, es, n, id);
    if BumpShows(s, es, id) {
      var i :| 0 <= i < |es| && Bumps(s, es, i, id) && NothingClears(s, es, i + 1, id);
      assert i < n ==> NothingClears(s, front, i + 1, id);
    }
    if !ClearsAt(s, es, n, id) && BumpShows(s, front, id) {
      var i :| 0 <= i < |front| && Bumps(s, front, i, id) && NothingClears(s, front, i + 1, id);
      assert NothingClears(s, es, i + 1, id);
    }
    if Bumps(s, es, n, id) {
      assert NothingClears(s, es, n + 1, id);
    }
  }

  lemma BumpIsNoClear(s: State, es: seq<Event>, i: nat, id: RecipeId)
    requires i < |es|
    ensures Bumps(s, es, i, id) ==> !ClearsAt(s, es, i, id)
  {
  }

  lemma {:induction false} ExcessIsABump(s: State, es: seq<Event>, id: RecipeId)
    ensures Excess(s, es, id) > 0 <==> BumpShows(s, es, id)
  {
    hide Clears, RetiresNow, StreakNow, BumpShows, Exec;
    if es == [] {
      NoBump(s, id);
    } else {
      BumpShowsStep(s, es, id);
      ExcessIsABump(s, es[..|es| - 1], id);
    }
  }

  lemma NoBump(s: State, id: RecipeId)
    ensures !BumpShows(s, [], id)
  {
  }

  /**
   The correctness counter is its streak too, exactly unless the recipe was retired for ownership at a streak
   below three and no correct counted run or new activation has come since.
   */
  lemma CorrectnessCountIsTheStreakUnlessRetired(s: State, es: seq<Event>, id: RecipeId)
    requires Initial(s) && Run(s, es)
    ensures HealthOf(Exec(s, es).health, id).counts.incorrects == StreakNow(s, es, id) <==> !BumpShows(s, es, id)
  {
    hide BumpShows, StreakNow;
    CountsAreStreaksAndExcess(s, es, id);
    StreaksNow(s, es, id);
    ExcessIsABump(s, es, id);
  }

  const SAMPLE := Activation("k", 0, 1, Spec(1, 1, 1, 1, false, true), "h", None, 0, None, true, None)
  const SAMPLE_SOURCE := Source(false, false, false, 0, None)

  lemma FirstActivation(s: State, a: Activation, id: RecipeId)
    requires Initial(s) && Takes(s, Activate(a, id, 1))
    ensures Enabled(s, Activate(a, id, 1))
    ensures var t := Apply(s, Activate(a, id, 1));
            IsActive(t.recipes, id) && id in t.health && HealthOf(t.health, id).counts == Counts(0, 0, 0)
  {
    var e := Activate(a, id, 1);
    RowAfter(s, e, id);
    StateRowAfter(s, e, id);
    hide Takes, Apply, IdentityOf;
    assert NothingReusable(s.recipes, a.source, a.hash) && IsMaxVersion(s.recipes, a.key, 0);
  }

  lemma {:induction false} TwoEvents(s: State, first: Event, second: Event, id: RecipeId)
    requires Enabled(s, first) && Enabled(Apply(s, first), second)
    ensures var es := [first, second];
            && es[..1] == [first] && Run(s, es) && Exec(s, es[..1]) == Apply(s, first) &&
                Exec(s, es) == Apply(Apply(s, first), second)
            && History(s, es, id) ==
               if !Takes(Apply(s, first), second) then History(s, es[..1], id)
               else if second.Activate? && second.id == id then []
               else if second.Complete? && second.recipe == id then History(s, es[..1], id) + [second.c]
               else History(s, es[..1], id)
  {
    hide Enabled, Apply, Takes;
    var es := [first, second];
    assert es[..1] == [first] && [first][..0] == [];
    assert Exec(s, [first][..0]) == s && Run(s, [first][..0]);
    assert Exec(s, [first]) == Apply(s, first) && Run(s, [first]);
  }

  lemma ActivationStartsAfresh(s: State, e: Event, id: RecipeId)
    requires Takes(s, e) && e.Activate? && e.id == id
    ensures History(s, [e], id) == []
  {
    hide Takes, Apply;
    assert [e][..0] == [];
    assert Exec(s, [e][..0]) == s;
  }

  const SAMPLE_STATE := State(map[], map[], map[], map[1 := SAMPLE_SOURCE])

  lemma SampleIsTaken()
    ensures Initial(SAMPLE_STATE) && Takes(SAMPLE_STATE, Activate(SAMPLE, 0, 1)) && !Blank("r")
  {
    hide Blank;
    LetterIsNotBlank('k');
    LetterIsNotBlank('h');
    LetterIsNotBlank('r');
    assert ['k'] == "k" && ['h'] == "h" && ['r'] == "r";
    assert 1 in SAMPLE_STATE.sources;
  }

  lemma LetterIsNotBlank(c: char)
    requires 'a' <= c <= 'z'
    ensures !Blank([c])
  {
    hide Trim;
    TrimOfTrimmed([c]);
  }

  /** A recipe retired right after its activation: the counter says three, and no run was incorrect. */
  lemma RetirementRunsAhead()
    ensures var es := [Activate(SAMPLE, 0, 1), Retire(0, "r", 0)];
            && Initial(SAMPLE_STATE) && Run(SAMPLE_STATE, es)
            && HealthOf(Exec(SAMPLE_STATE, es).health, 0).counts.incorrects == 3
            && StreakNow(SAMPLE_STATE, es, 0) == 0
  {
    var s, e1, e2 := SAMPLE_STATE, Activate(SAMPLE, 0, 1), Retire(0, "r", 0);
    SampleIsTaken();
    FirstActivation(s, SAMPLE, 0);
    var mid := Apply(s, e1);
    assert Takes(mid, e2) && Enabled(mid, e2) by { hide Apply; }
    hide Apply, Takes, Enabled, Blank;
    CountsStep(mid, e2, 0);
    TwoEvents(s, e1, e2, 0);
    ActivationStartsAfresh(s, e1, 0);
  }

  lemma {:induction false} OnlyARetirementBumps(s: State, es: seq<Event>, id: RecipeId)
    requires !RetiredIn(s, es, id)
    ensures Excess(s, es, id) == 0
  {
    hide Clears, Takes, StreakNow, Exec;
    if es != [] {
      OnlyARetirementBumps(s, es[..|es| - 1], id);
    }
  }

  /** In particular, all three counters of a recipe that was never retired are streaks. */
  lemma CountsAreStreaks(s: State, es: seq<Event>, id: RecipeId)
    requires Initial(s) && Run(s, es) && !RetiredIn(s, es, id)
    ensures HealthOf(Exec(s, es).health, id).counts == Streaks(History(s, es, id))
  {
    hide Streaks;
    CountsAreStreaksAndExcess(s, es, id);
    OnlyARetirementBumps(s, es, id);
    NothingAhead(Streaks(History(s, es, id)));
  }

  lemma EmptyHistory()
    ensures Streaks([]) == Counts(0, 0, 0)
  {
  }

  // ----- A recipe turns stale at exactly the first run whose streak reaches its threshold

  predicate Trips(log: seq<Completion>, spec: Spec) {
    log != [] && !log[|log| - 1].transient && Exceeds(Streaks(log), spec)
  }

  predicate TripsWithin(log: seq<Completion>, spec: Spec) {
    exists i :: 0 <= i <= |log| && Trips(log[..i], spec)
  }

  lemma TripsExtend(log: seq<Completion>, c: Completion, spec: Spec)
    ensures TripsWithin(log + [c], spec) <==> TripsWithin(log, spec) || Trips(log + [c], spec)
  {
    var longer := log + [c];
    assert longer[..|longer|] == longer;
    assert forall i :: 0 <= i <= |log| ==> longer[..i] == log[..i];
    if TripsWithin(log, spec) {
      var i :| 0 <= i <= |log| && Trips(log[..i], spec);
      assert Trips(longer[..i], spec);
    }
    if TripsWithin(longer, spec) {
      var i :| 0 <= i <= |longer| && Trips(longer[..i], spec);
      assert i <= |log| ==> Trips(log[..i], spec);
    }
  }

  predicate StatusMatches(s: State, log: seq<Completion>, retired: bool, id: RecipeId) {
    if id in s.recipes
    then match s.recipes[id].status
      case Active => !retired && !TripsWithin(log, s.recipes[id].spec)
      case Stale => retired || TripsWithin(log, s.recipes[id].spec)
      case Superseded => true
    else log == [] && !retired
  }

  /** A completed run turns its active recipe stale exactly if it trips, and leaves every other status alone. */
  lemma CompletionTurnsStale(s: State, e: Event, log: seq<Completion>, id: RecipeId)
    requires Takes(s, e) && e.Complete? && e.recipe == id
    requires Sound(s, id) && HealthOf(s.health, id).counts == Streaks(log)
    ensures StatusAfter(s, e, id) ==
            if s.recipes[id].status.Active? && Trips(log + [e.c], s.recipes[id].spec) then Stale
                else s.recipes[id].status
  {
    hide Exceeds, Streaks, NextCounts;
    StreaksAfter(log, e.c);
  }

  lemma NoTripWithoutRuns(spec: Spec)
    ensures !TripsWithin([], spec)
  {
    var none: seq<Completion> := [];
    assert forall i :: 0 <= i <= |none| ==> none[..i] == none;
  }

  /** Unless superseded, a recipe is stale exactly if it was retired or some run since its activation has tripped. */
  lemma {:induction false} StaleExactlyAtTheFirstTrip(s: State, es: seq<Event>, id: RecipeId)
    requires Initial(s) && Run(s, es)
    ensures StatusMatches(Exec(s, es), History(s, es, id), RetiredIn(s, es, id), id)
  {
    hide Enabled, Apply, Takes, Trips, TripsWithin, Streaks, IdentityOf;
    if es != [] {
      var front, e := es[..|es| - 1], es[|es| - 1];
      var mid, log := Exec(s, front), History(s, front, id);
      StaleExactlyAtTheFirstTrip(s, front, id);
      RowAfter(mid, e, id);
      ReachableInv(s, front);
      ActivationTargets(mid, e);
      RowsExist(mid, e);
      if id in mid.recipes {
        SameIdentity(Apply(mid, e).recipes[id], mid.recipes[id]);
        NoTripWithoutRuns(mid.recipes[id].spec);
        if Takes(mid, e) && e.Complete? && e.recipe == id {
          TripsExtend(log, e.c, mid.recipes[id].spec);
          if mid.recipes[id].status.Active? {
            assert Sound(mid, id);
            CountsAreStreaks(s, front, id);
            CompletionTurnsStale(mid, e, log, id);
          } else {
            OnlyActiveRowsTurnStale(mid, e);
          }
        }
      } else if Inserts(mid, e) && e.id == id {
        NoTripWithoutRuns(Apply(mid, e).recipes[id].spec);
      }
    }
  }

  lemma OnlyActiveRowsTurnStale(s: State, e: Event)
    ensures e.Complete? && !IsActive(s.recipes, e.recipe) ==> !Trip(s, e)
  {
  }
}
