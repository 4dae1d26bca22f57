/** The rows of recipes, their health, their runs and their sources as functions of the events of a run. */
module RecipeHistory {
  import opened Common
  import opened Recipes
  import opened RecipeRuns

  // ----- Which events count

  /** An activation that commits: a valid spec with an interval that the column holds, under a key and a hash. */
  predicate Activates(t: State, e: Event) {
    && e.Activate? && e.a.source in t.sources && Trim(e.a.key) != [] && Trim(e.a.hash) != []
    && var spec := e.a.spec;
       && spec.wellFormed && spec.maxEmptyRuns > 0 && spec.maxFailures > 0
       && 0 < spec.crawlInterval <= spec.staleAfter && spec.crawlInterval <= 2_147_483_647
  }

  /** A completion that commits: consistent counts for a run that is still running. */
  predicate Finishes(t: State, e: Event) {
    && e.Complete? && e.recipe in t.recipes && e.run in t.runs && t.runs[e.run].status.Running?
    && var c := e.c;
       && c.discovered >= c.accepted + c.rejected && c.accepted >= c.normalized >= c.added >= 0 && c.rejected >= 0
       && 0 <= c.ratio <= 10_000 && (c.transient ==> c.error.Some?)
  }

  predicate Closes(t: State, e: Event) {
    (e.Retire? || e.Supersede?) && e.id in t.recipes && t.recipes[e.id].status.Active? && Trim(e.reason) != []
  }

  predicate Opens(t: State, e: Event) { e.Begin? && e.recipe in t.recipes && e.source in t.sources }

  lemma CommitsExactlyWhen(t: State, e: Event)
    ensures Takes(t, e) <==>
            Activates(t, e) || Finishes(t, e) || Closes(t, e) || Opens(t, e) || e.CancelRuns? || e.MarkOverdue?
  {
    hide Trim;
  }

  predicate ActivatesIt(t: State, e: Event, id: RecipeId) { Activates(t, e) && e.id == id }

  predicate FinishesIt(t: State, e: Event, id: RecipeId) { Finishes(t, e) && e.recipe == id }

  predicate RetiresIt(t: State, e: Event, id: RecipeId) { Closes(t, e) && e.Retire? && e.id == id }

  // ----- What the history says of a recipe

  /** The first of two that is there. */
  function Either<T>(a: Option<T>, b: Option<T>): Option<T> {
    match a case Some(_) => a case None => b
  }

  /** The date of the newest item that an activation or a run has told last. */
  function LastItem(s: State, es: seq<Event>, id: RecipeId): Option<Time> {
    if es == [] then None
    else
      var front, e := es[..|es| - 1], es[|es| - 1];
      if ActivatesIt(Exec(s, front), e, id) then Either(e.a.latest, LastItem(s, front, id))
      else if FinishesIt(Exec(s, front), e, id) then Either(e.c.latest, LastItem(s, front, id))
      else LastItem(s, front, id)
  }

  function LastFingerprint(s: State, es: seq<Event>, id: RecipeId): Option<string> {
    if es == [] then None
    else
      var front, e := es[..|es| - 1], es[|es| - 1];
      if ActivatesIt(Exec(s, front), e, id) then Either(e.a.fingerprint, LastFingerprint(s, front, id))
      else if FinishesIt(Exec(s, front), e, id) then Either(e.c.fingerprint, LastFingerprint(s, front, id))
      else LastFingerprint(s, front, id)
  }

  /** A run that found nothing wrong. */
  predicate Clean(c: Completion) { c.reasons == [] && c.error.None? }

  function LastCorrect(s: State, es: seq<Event>, id: RecipeId): Option<Time> {
    if es == [] then None
    else
      var front, e := es[..|es| - 1], es[|es| - 1];
      if ActivatesIt(Exec(s, front), e, id) then Some(e.a.verifiedAt)
      else if FinishesIt(Exec(s, front), e, id) && Clean(e.c) then Some(e.now)
      else LastCorrect(s, front, id)
  }

  /** The last event that judged the recipe: an activation, a retirement, or a run without a passing reason to fail. */
  function LastVerdict(s: State, es: seq<Event>, id: RecipeId): Option<Event> {
    if es == [] then None
    else
      var front, e := es[..|es| - 1], es[|es| - 1];
      var t := Exec(s, front);
      if ActivatesIt(t, e, id) || RetiresIt(t, e, id) || (FinishesIt(t, e, id) && !e.c.transient) then Some(e)
      else LastVerdict(s, front, id)
  }

  /** The last event that gave or cleared a reason; runs with a passing reason give one too. */
  function LastReason(s: State, es: seq<Event>, id: RecipeId): Option<Event> {
    if es == [] then None
    else
      var front, e := es[..|es| - 1], es[|es| - 1];
      var t := Exec(s, front);
      if ActivatesIt(t, e, id) || RetiresIt(t, e, id) || FinishesIt(t, e, id) then Some(e) else LastReason(s, front, id)
  }

  /** What an assessment of freshness goes by. */
  datatype Assessment = Assessment(at: Time, newest: Option<Time>, dated: bool, correct: bool, staleAfter: nat)

  function LastAssessment(s: State, es: seq<Event>, id: RecipeId): Option<Assessment> {
    if es == [] then None
    else
      var front, e := es[..|es| - 1], es[|es| - 1];
      var t := Exec(s, front);
      if ActivatesIt(t, e, id) then
        Some(Assessment(e.a.verifiedAt, LastItem(s, es, id), e.a.dated, true, e.a.spec.staleAfter))
      else if FinishesIt(t, e, id) && !e.c.transient then
        Some(Assessment(e.now, LastItem(s, es, id), e.c.dated, Clean(e.c), t.recipes[id].spec.staleAfter))
      else LastAssessment(s, front, id)
  }

  /** The newest item is older than the recipe allows. */
  predicate TooOld(a: Assessment) {
    a.dated && a.newest.Some? && a.at - a.newest.value > a.staleAfter * 1_000_000
  }

  /** Whether a sweep since the last assessment found the active recipe without a correct run for a whole interval. */
  function SweptLate(s: State, es: seq<Event>, id: RecipeId): bool {
    es != [] &&
    var front, e := es[..|es| - 1], es[|es| - 1];
    var t := Exec(s, front);
    if ActivatesIt(t, e, id) || (FinishesIt(t, e, id) && !e.c.transient) then false
    else
      || SweptLate(s, front, id)
      || (e.MarkOverdue? && id in t.recipes && t.recipes[id].status.Active?
          && var last := LastCorrect(s, front, id);
             var since := if last.Some? then last.value else t.recipes[id].verifiedAt;
             e.now - since >= t.recipes[id].spec.crawlInterval * 1_000_000)
  }

  // ----- What the health columns are

  ghost predicate FreshnessColumn(h: Health, a: Option<Assessment>, swept: bool) {
    match h.freshness
    case ContentStale => a.Some? && TooOld(a.value)
    case Overdue => !(a.Some? && TooOld(a.value)) && (swept || (a.Some? && !a.value.correct))
    case Fresh => !swept && a.Some? && !TooOld(a.value) && a.value.correct && a.value.dated && a.value.newest.Some?
    case FreshnessUnknown => !swept && (a.Some? ==> a.value.correct && !(a.value.dated && a.value.newest.Some?))
  }

  ghost predicate VerdictColumn(h: Health, last: Option<Event>) {
    match last
    case None => h.correctness.CorrectnessUnknown?
    case Some(Activate(_, _, _)) => h.correctness.Passing?
    case Some(Complete(_, _, c, _)) => if Clean(c) then h.correctness.Passing? else h.correctness.Failing?
    case Some(Retire(_, _, _)) => h.correctness.Failing?
    case _ => false
  }

  ghost predicate ReasonColumn(h: Health, last: Option<Event>) {
    match last
    case None => h.reason.None?
    case Some(Activate(_, _, _)) => h.reason.None?
    case Some(Complete(_, _, c, _)) =>
      if c.error.Some? then h.reason == c.error
      else if c.reasons != [] then h.reason == Some(c.reasons[0])
      else h.reason.None?
    case Some(Retire(_, reason, _)) => h.reason == Some(reason)
    case _ => false
  }

  ghost predicate HealthColumns(h: Health, s: State, es: seq<Event>, id: RecipeId) {
    && h.lastItemAt == LastItem(s, es, id)
    && h.fingerprint == LastFingerprint(s, es, id)
    && h.lastCorrectAt == LastCorrect(s, es, id)
    && VerdictColumn(h, LastVerdict(s, es, id))
    && ReasonColumn(h, LastReason(s, es, id))
    && FreshnessColumn(h, LastAssessment(s, es, id), SweptLate(s, es, id))
  }

  // ----- One more event, for the health of a recipe

  lemma HealthUntouched(t: State, e: Event, id: RecipeId)
    requires !ActivatesIt(t, e, id) && !FinishesIt(t, e, id) && !RetiresIt(t, e, id) && !e.MarkOverdue?
    ensures HealthOf(Apply(t, e).health, id) == HealthOf(t.health, id)
  {
    CommitsExactlyWhen(t, e);
    hide Takes, RecipesAfter, RunsAfter, SourcesAfter, ActivatedHealth, CompletedHealth, RetiredHealth, Trim;
  }

  lemma HealthWritten(t: State, e: Event, id: RecipeId)
    requires Sound(t, id)
    ensures ActivatesIt(t, e, id) ==> HealthOf(Apply(t, e).health, id) == ActivatedHealth(HealthOf(t.health, id), e.a)
    ensures FinishesIt(t, e, id) ==>
              HealthOf(Apply(t, e).health, id) ==
              CompletedHealth(HealthOf(t.health, id), t.recipes[id].spec, e.c, e.now)
    ensures RetiresIt(t, e, id) ==> HealthOf(Apply(t, e).health, id) == RetiredHealth(HealthOf(t.health, id), e.reason)
  {
    CommitsExactlyWhen(t, e);
    hide Takes, RecipesAfter, RunsAfter, SourcesAfter, ActivatedHealth, CompletedHealth, RetiredHealth, Trim;
  }

  lemma HealthSwept(t: State, now: Time, id: RecipeId)
    requires Sound(t, id)
    ensures var h, next := HealthOf(t.health, id), HealthOf(Apply(t, MarkOverdue(now)).health, id);
            next == if (&& id in t.recipes && t.recipes[id].status.Active? && !h.freshness.ContentStale?
                        && now - (if h.lastCorrectAt.Some? then h.lastCorrectAt.value else t.recipes[id].verifiedAt) >=
                           t.recipes[id].spec.crawlInterval * 1_000_000)
                    then h.(freshness := Overdue) else h
  {
  }

  lemma ActivationColumns(s: State, front: seq<Event>, e: Event, id: RecipeId)
    requires var t := Exec(s, front); Sound(t, id) && HealthColumns(HealthOf(t.health, id), s, front, id)
    requires ActivatesIt(Exec(s, front), e, id)
    ensures HealthColumns(HealthOf(Apply(Exec(s, front), e).health, id), s, front + [e], id)
  {
    hide Apply, Trim, Spec.Valid, Exceeds, RebuildAfter, NextCounts, Activates, Finishes, Closes, Exec, Sound;
    assert (front + [e])[..|front|] == front;
    HealthWritten(Exec(s, front), e, id);
    OneKind(Exec(s, front), e, id);
  }

  lemma CompletionColumns(s: State, front: seq<Event>, e: Event, id: RecipeId)
    requires var t := Exec(s, front); Sound(t, id) && HealthColumns(HealthOf(t.health, id), s, front, id)
    requires FinishesIt(Exec(s, front), e, id)
    ensures HealthColumns(HealthOf(Apply(Exec(s, front), e).health, id), s, front + [e], id)
  {
    hide Apply, Trim, Spec.Valid, Exceeds, RebuildAfter, NextCounts, Activates, Finishes, Closes, Exec, Sound;
    assert (front + [e])[..|front|] == front;
    HealthWritten(Exec(s, front), e, id);
    OneKind(Exec(s, front), e, id);
  }

  lemma OtherColumns(s: State, front: seq<Event>, e: Event, id: RecipeId)
    requires var t := Exec(s, front); Sound(t, id) && HealthColumns(HealthOf(t.health, id), s, front, id)
    requires !ActivatesIt(Exec(s, front), e, id) && !FinishesIt(Exec(s, front), e, id)
    ensures HealthColumns(HealthOf(Apply(Exec(s, front), e).health, id), s, front + [e], id)
  {
    hide Apply, Trim, Spec.Valid, Exceeds, RebuildAfter, NextCounts, Activates, Finishes, Closes, Exec, Sound;
    var t := Exec(s, front);
    assert (front + [e])[..|front|] == front;
    if RetiresIt(t, e, id) {
      HealthWritten(t, e, id);
      OneKind(t, e, id);
    } else if e.MarkOverdue? {
      HealthSwept(t, e.now, id);
    } else {
      HealthUntouched(t, e, id);
    }
  }

  lemma OneKind(t: State, e: Event, id: RecipeId)
    ensures ActivatesIt(t, e, id) ==> e.Activate?
    ensures FinishesIt(t, e, id) ==> e.Complete? && id in t.recipes && (e.c.transient ==> e.c.error.Some?)
    ensures RetiresIt(t, e, id) ==> e.Retire?
  {
  }

  /**
   In every reachable state the health of a recipe is what the events before told: the newest item and fingerprint told
   last, the last correct run, the last verdict and reason, and the last assessment of freshness or a sweep since then.
   */
  lemma {:induction false} HealthFollowsHistory(s: State, es: seq<Event>, id: RecipeId)
    requires Initial(s) && Run(s, es)
    ensures HealthColumns(HealthOf(Exec(s, es).health, id), s, es, id)
  {
    hide Enabled, Apply, HealthColumns, Sound;
    if es == [] {
      NoVerdictYet(s, id);
    } else {
      var front, e := es[..|es| - 1], es[|es| - 1];
      assert front + [e] == es;
      HealthFollowsHistory(s, front, id);
      ReachableInv(s, front);
      if ActivatesIt(Exec(s, front), e, id) {
        ActivationColumns(s, front, e, id);
      } else if FinishesIt(Exec(s, front), e, id) {
        CompletionColumns(s, front, e, id);
      } else {
        OtherColumns(s, front, e, id);
      }
    }
  }

  lemma NoVerdictYet(s: State, id: RecipeId)
    requires Initial(s)
    ensures HealthColumns(HealthOf(s.health, id), s, [], id)
  {
  }

  // ----- Whether a rebuild is due

  /** The counters against the thresholds, which as numbers of an i32 column end at the largest of them. */
  predicate TooManyBad(c: Counts, spec: Spec) {
    var failures := if spec.maxFailures <= 2_147_483_647 then spec.maxFailures else 2_147_483_647;
    var empties := if spec.maxEmptyRuns <= 2_147_483_647 then spec.maxEmptyRuns else 2_147_483_647;
    c.failures >= failures || c.incorrects >= failures || c.empties >= empties
  }

  ghost predicate RebuildColumn(h: Health, last: Option<Event>, spec: Spec) {
    match last
    case Some(Complete(_, _, _, _)) => h.rebuild <==> TooManyBad(h.counts, spec)
    case Some(Retire(_, _, _)) => h.rebuild
    case _ => !h.rebuild
  }

  lemma RebuildStep(s: State, front: seq<Event>, e: Event, id: RecipeId, spec: Spec)
    requires var t := Exec(s, front);
             Sound(t, id) && RebuildColumn(HealthOf(t.health, id), LastVerdict(s, front, id), spec) &&
             (id in t.recipes ==> t.recipes[id].spec == spec)
    ensures RebuildColumn(HealthOf(Apply(Exec(s, front), e).health, id), LastVerdict(s, front + [e], id), spec)
  {
    hide Apply, Trim, Spec.Valid, FreshnessAt, Activates, Finishes, Closes, Exec, Sound;
    var t := Exec(s, front);
    assert (front + [e])[..|front|] == front;
    OneKind(t, e, id);
    if ActivatesIt(t, e, id) || FinishesIt(t, e, id) || RetiresIt(t, e, id) {
      HealthWritten(t, e, id);
    } else if e.MarkOverdue? {
      HealthSwept(t, e.now, id);
    } else {
      HealthUntouched(t, e, id);
    }
  }

  lemma {:induction false} RebuildHistory(s: State, es: seq<Event>, id: RecipeId, spec: Spec)
    requires Initial(s) && Run(s, es) && (id in Exec(s, es).recipes ==> Exec(s, es).recipes[id].spec == spec)
    ensures RebuildColumn(HealthOf(Exec(s, es).health, id), LastVerdict(s, es, id), spec)
  {
    hide Enabled, Apply, Sound, RebuildColumn, IdentityOf;
    if es == [] {
      NoRebuildYet(s, id, spec);
    } else {
      var front, e := es[..|es| - 1], es[|es| - 1];
      assert front + [e] == es;
      ReachableInv(s, front);
      RowAfter(Exec(s, front), e, id);
      if id in Exec(s, front).recipes {
        SameIdentity(Exec(s, es).recipes[id], Exec(s, front).recipes[id]);
      }
      RebuildHistory(s, front, id, spec);
      RebuildStep(s, front, e, id, spec);
    }
  }

  lemma NoRebuildYet(s: State, id: RecipeId, spec: Spec)
    requires Initial(s)
    ensures RebuildColumn(HealthOf(s.health, id), LastVerdict(s, [], id), spec)
  {
  }

  /**
   A rebuild is due exactly if the last verdict on the recipe was a retirement, or a run that left a counter too high.
   */
  lemma RebuildFollowsVerdict(s: State, es: seq<Event>, id: RecipeId)
    requires Initial(s) && Run(s, es) && id in Exec(s, es).recipes
    ensures RebuildColumn(HealthOf(Exec(s, es).health, id), LastVerdict(s, es, id), Exec(s, es).recipes[id].spec)
  {
    RebuildHistory(s, es, id, Exec(s, es).recipes[id].spec);
  }

  // ----- The rows of recipes

  function FirstActivationOf(s: State, es: seq<Event>, id: RecipeId): Option<Event> {
    if es == [] then None
    else
      var front, e := es[..|es| - 1], es[|es| - 1];
      if FirstActivationOf(s, front, id).Some? then FirstActivationOf(s, front, id)
      else if ActivatesIt(Exec(s, front), e, id) then Some(e)
      else None
  }

  function LastActivation(s: State, es: seq<Event>, id: RecipeId): Option<Event> {
    if es == [] then None
    else
      var front, e := es[..|es| - 1], es[|es| - 1];
      if ActivatesIt(Exec(s, front), e, id) then Some(e) else LastActivation(s, front, id)
  }

  /** The generating run that an activation named last. */
  function LastGenerator(s: State, es: seq<Event>, id: RecipeId): Option<nat> {
    if es == [] then None
    else
      var front, e := es[..|es| - 1], es[|es| - 1];
      if ActivatesIt(Exec(s, front), e, id) then Either(e.a.generatedBy, LastGenerator(s, front, id))
      else LastGenerator(s, front, id)
  }

  /**
   Whether an event ends the life of an active recipe: closed by name, replaced at its source, or tripped by a run.
   */
  predicate EndsLife(t: State, e: Event, id: RecipeId) {
    && id in t.recipes && t.recipes[id].status.Active?
    && (|| (Closes(t, e) && e.id == id)
        || (Activates(t, e) && e.id !in t.recipes && e.a.source == t.recipes[id].source)
        || (Finishes(t, e) && e.recipe == id && Trip(t, e)))
  }

  function EndOfLife(s: State, es: seq<Event>, id: RecipeId): Option<Event> {
    if es == [] then None
    else
      var front, e := es[..|es| - 1], es[|es| - 1];
      if EndsLife(Exec(s, front), e, id) then Some(e) else EndOfLife(s, front, id)
  }

  ghost predicate LifeColumns(r: Recipe, end: Option<Event>) {
    match end
    case None => r.status.Active? && r.staleAt.None? && r.staleReason.None?
    case Some(Retire(_, reason, now)) => r.status.Stale? && r.staleAt == Some(now) && r.staleReason == Some(reason)
    case Some(Complete(_, _, c, now)) =>
      && r.status.Stale? && r.staleAt == Some(now)
      && r.staleReason == (if c.error.Some? then c.error
                           else if c.reasons != [] then Some(c.reasons[0])
                           else Some("recipe correctness threshold exceeded"))
    case Some(_) => r.status.Superseded? && r.staleAt.None? && r.staleReason.None?
  }

  predicate NamedBy(r: Recipe, a: Activation, version: nat) {
    && r.key == a.key && r.company == a.company && r.source == a.source && r.spec == a.spec && r.hash == a.hash
    && r.version == version
  }

  ghost predicate RecipeColumns(r: Recipe, s: State, es: seq<Event>, id: RecipeId) {
    var first, last := FirstActivationOf(s, es, id), LastActivation(s, es, id);
    && first.Some? && first.value.Activate? && last.Some? && last.value.Activate?
    && NamedBy(r, first.value.a, first.value.version)
    && r.verifiedAt == last.value.a.verifiedAt && r.generatedBy == LastGenerator(s, es, id)
    && LifeColumns(r, EndOfLife(s, es, id))
  }

  /** One event and one row: the columns that name the recipe. */
  lemma NamedStep(t: State, e: Event, id: RecipeId)
    requires Enabled(t, e) && OneActive(t.recipes)
    ensures id in Apply(t, e).recipes <==> id in t.recipes || ActivatesIt(t, e, id)
    ensures id in t.recipes ==>
              var r, next := t.recipes[id], Apply(t, e).recipes[id];
              && next.key == r.key && next.company == r.company && next.source == r.source && next.spec == r.spec
              && next.hash == r.hash && next.version == r.version
              && next.verifiedAt == (if ActivatesIt(t, e, id) then e.a.verifiedAt else r.verifiedAt)
              && next.generatedBy ==
                 (if ActivatesIt(t, e, id) then Either(e.a.generatedBy, r.generatedBy) else r.generatedBy)
    ensures id !in t.recipes && ActivatesIt(t, e, id) ==>
              var r, a := Apply(t, e).recipes[id], e.a;
              && NamedBy(r, a, e.version) && r.verifiedAt == a.verifiedAt && r.generatedBy == a.generatedBy
              && r.status.Active? && r.staleAt.None? && r.staleReason.None?
  {
    CommitsExactlyWhen(t, e);
    hide Takes, HealthAfter, RunsAfter, SourcesAfter, RebuildAfter, HealthOf, StaleReason, Trim, Spec.Valid,
         IsMaxVersion;
  }

  /** One event and one row: the columns that tell its life. */
  lemma LifeStep(t: State, e: Event, id: RecipeId)
    requires Enabled(t, e) && id in t.recipes
    ensures var r, next := t.recipes[id], Apply(t, e).recipes[id];
            if EndsLife(t, e, id) then LifeColumns(r, None) ==> LifeColumns(next, Some(e))
            else next.status == r.status && next.staleAt == r.staleAt && next.staleReason == r.staleReason
  {
    CommitsExactlyWhen(t, e);
    hide Takes, HealthAfter, RunsAfter, SourcesAfter, RebuildAfter, HealthOf, Trim, Spec.Valid, IsMaxVersion,
         NothingReusable;
  }

  lemma LifeTells(r: Recipe, next: Recipe, end: Option<Event>)
    requires LifeColumns(r, end)
    ensures r.status.Active? <==> end.None?
    ensures next.status == r.status && next.staleAt == r.staleAt && next.staleReason == r.staleReason ==>
              LifeColumns(next, end)
  {
  }

  lemma LifeBegins(r: Recipe)
    requires r.status.Active? && r.staleAt.None? && r.staleReason.None?
    ensures LifeColumns(r, None)
  {
  }

  /**
   In every reachable state the recipes are those that were activated, each with the content of its first activation,
   and when and by what its life as the active recipe ended.
   */
  lemma {:induction false} RecipesFollowHistory(s: State, es: seq<Event>, id: RecipeId)
    requires Initial(s) && Run(s, es)
    ensures id in Exec(s, es).recipes ==> RecipeColumns(Exec(s, es).recipes[id], s, es, id)
    ensures id !in Exec(s, es).recipes ==>
              FirstActivationOf(s, es, id).None? && LastGenerator(s, es, id).None? && EndOfLife(s, es, id).None?
  {
    hide Enabled, Apply, ActivatesIt, EndsLife, LifeColumns, OneActive, Sound;
    if es != [] {
      var front, e := es[..|es| - 1], es[|es| - 1];
      var t := Exec(s, front);
      RecipesFollowHistory(s, front, id);
      ReachableInv(s, front);
      NamedStep(t, e, id);
      EndOfNothing(t, e, id);
      if id in t.recipes {
        LifeStep(t, e, id);
        LifeTells(t.recipes[id], Apply(t, e).recipes[id], EndOfLife(s, front, id));
      } else if ActivatesIt(t, e, id) {
        LifeBegins(Apply(t, e).recipes[id]);
      }
    }
  }

  lemma EndOfNothing(t: State, e: Event, id: RecipeId)
    ensures EndsLife(t, e, id) ==> id in t.recipes && t.recipes[id].status.Active?
    ensures ActivatesIt(t, e, id) ==> e.Activate?
  {
  }

  // ----- The rows of runs

  function FirstBegin(s: State, es: seq<Event>, run: RunId): Option<Event> {
    if es == [] then None
    else
      var front, e := es[..|es| - 1], es[|es| - 1];
      if FirstBegin(s, front, run).Some? then FirstBegin(s, front, run)
      else if Opens(Exec(s, front), e) && e.run == run then Some(e)
      else None
  }

  function LastBegin(s: State, es: seq<Event>, run: RunId): Option<Event> {
    if es == [] then None
    else
      var front, e := es[..|es| - 1], es[|es| - 1];
      if Opens(Exec(s, front), e) && e.run == run then Some(e) else LastBegin(s, front, run)
  }

  /** Whether an event ends a running run: a completion that commits, or a cancellation of its job. */
  predicate EndsRun(t: State, e: Event, run: RunId) {
    && run in t.runs && t.runs[run].status.Running?
    && ((Finishes(t, e) && e.run == run) || (e.CancelRuns? && e.job == t.runs[run].job))
  }

  /** That event, with the rebuild flag that it left for the recipe it names. */
  function EndOfRun(s: State, es: seq<Event>, run: RunId): Option<(Event, bool)> {
    if es == [] then None
    else
      var front, e := es[..|es| - 1], es[|es| - 1];
      if EndsRun(Exec(s, front), e, run)
      then Some((e, e.Complete? && HealthOf(Exec(s, es).health, e.recipe).rebuild))
      else EndOfRun(s, front, run)
  }

  ghost predicate EndColumns(r: RecipeRun, end: Option<(Event, bool)>) {
    match end
    case None => r.status.Running? && r.finishedAt.None? && r.report.None?
    case Some((Complete(_, _, c, now), rebuild)) =>
      && (if rebuild then r.status.RunStale? else if Clean(c) then r.status.Passed? else r.status.Failed?)
      && r.finishedAt == Some(now) && r.report == Some(c)
    case Some((CancelRuns(_, now), _)) => r.status.Cancelled? && r.finishedAt == Some(now) && r.report.None?
    case _ => false
  }

  ghost predicate RunColumns(r: RecipeRun, s: State, es: seq<Event>, run: RunId) {
    var first, last := FirstBegin(s, es, run), LastBegin(s, es, run);
    && first.Some? && first.value.Begin? && last.Some? && last.value.Begin?
    && r.recipe == first.value.recipe && r.source == first.value.source && r.job == first.value.job == last.value.job
    && r.crawlRun == last.value.crawlRun
    && EndColumns(r, EndOfRun(s, es, run))
  }

  lemma RunStep(t: State, e: Event, run: RunId)
    requires Enabled(t, e)
    ensures run in Apply(t, e).runs <==> run in t.runs || (Opens(t, e) && e.run == run)
    ensures run in t.runs ==>
              var r, next := t.runs[run], Apply(t, e).runs[run];
              && next.recipe == r.recipe && next.source == r.source && next.job == r.job
              && next.crawlRun == (if Opens(t, e) && e.run == run then e.crawlRun else r.crawlRun)
              && (Opens(t, e) && e.run == run ==> e.job == r.job && r.status.Running?)
              && if EndsRun(t, e, run)
                 then EndColumns(r, None) ==>
                        EndColumns(next, Some((e, e.Complete? && HealthOf(Apply(t, e).health, e.recipe).rebuild)))
                 else next.status == r.status && next.finishedAt == r.finishedAt && next.report == r.report
    ensures run !in t.runs && Opens(t, e) && e.run == run ==>
              var r := Apply(t, e).runs[run];
              && r.recipe == e.recipe && r.source == e.source && r.job == e.job && r.crawlRun == e.crawlRun
              && EndColumns(r, None)
  {
    CommitsExactlyWhen(t, e);
    if Finishes(t, e) { CompletedRow(HealthOf(t.health, e.recipe), t.recipes[e.recipe].spec, e.c, e.now); }
    hide Takes, RecipesAfter, SourcesAfter, RebuildAfter, CompletedHealth, ActivatedHealth, Trim, Spec.Valid,
         IsMaxVersion, NothingReusable;
  }

  lemma RunTells(r: RecipeRun, next: RecipeRun, end: Option<(Event, bool)>)
    requires EndColumns(r, end)
    ensures r.status.Running? <==> end.None?
    ensures next.status == r.status && next.finishedAt == r.finishedAt && next.report == r.report ==>
              EndColumns(next, end)
  {
  }

  /** In every reachable state a recipe run is as it was begun, and as the first event left it that could end it. */
  lemma {:induction false} RunsFollowHistory(s: State, es: seq<Event>, run: RunId)
    requires Initial(s) && Run(s, es)
    ensures run in Exec(s, es).runs ==> RunColumns(Exec(s, es).runs[run], s, es, run)
    ensures run !in Exec(s, es).runs ==> FirstBegin(s, es, run).None? && EndOfRun(s, es, run).None?
  {
    hide Enabled, Apply, Opens, EndsRun, EndColumns, HealthOf;
    if es != [] {
      var front, e := es[..|es| - 1], es[|es| - 1];
      var t := Exec(s, front);
      RunsFollowHistory(s, front, run);
      RunStep(t, e, run);
      KindsOfRunEvents(t, e, run);
      if run in t.runs {
        RunTells(t.runs[run], Apply(t, e).runs[run], EndOfRun(s, front, run));
      }
    }
  }

  lemma KindsOfRunEvents(t: State, e: Event, run: RunId)
    ensures EndsRun(t, e, run) ==> run in t.runs && t.runs[run].status.Running?
    ensures Opens(t, e) ==> e.Begin?
  {
  }

  // ----- The rows of sources

  function LastActivationAt(s: State, es: seq<Event>, source: SourceId): Option<Event> {
    if es == [] then None
    else
      var front, e := es[..|es| - 1], es[|es| - 1];
      if Activates(Exec(s, front), e) && e.a.source == source then Some(e) else LastActivationAt(s, front, source)
  }

  predicate ClosesAt(t: State, e: Event, source: SourceId) { Closes(t, e) && t.recipes[e.id].source == source }

  /** Whether a recipe of the source was closed by name since its last activation. */
  predicate ClosedSince(s: State, es: seq<Event>, source: SourceId) {
    es != [] &&
    var front, e := es[..|es| - 1], es[|es| - 1];
    !(Activates(Exec(s, front), e) && e.a.source == source) &&
      (ClosesAt(Exec(s, front), e, source) || ClosedSince(s, front, source))
  }

  predicate EverRetired(s: State, es: seq<Event>, source: SourceId) {
    es != [] &&
    var front, e := es[..|es| - 1], es[|es| - 1];
    (e.Retire? && ClosesAt(Exec(s, front), e, source)) || EverRetired(s, front, source)
  }

  ghost predicate SourceColumns(r: Source, s: State, es: seq<Event>, source: SourceId)
    requires source in s.sources
  {
    var last := LastActivationAt(s, es, source);
    && (last.Some? ==> last.value.Activate? && r.browser == last.value.a.spec.browser &&
                       r.slo == last.value.a.spec.crawlInterval)
    && (last.None? ==> r.browser == s.sources[source].browser && r.slo == s.sources[source].slo)
    && r.activeRecipe == (if ClosedSince(s, es, source) then None
                          else if last.Some? then Some(last.value.id) else s.sources[source].activeRecipe)
    && (if EverRetired(s, es, source) then r.disabled && !r.exported
        else r.disabled == s.sources[source].disabled && r.exported == s.sources[source].exported)
  }

  lemma SourceStep(t: State, e: Event, source: SourceId)
    requires source in t.sources && (e.Supersede? ==> Sound(t, e.id))
    ensures source in Apply(t, e).sources
    ensures var r, next := t.sources[source], Apply(t, e).sources[source];
            if Activates(t, e) && e.a.source == source
            then next == r.(browser := e.a.spec.browser, slo := e.a.spec.crawlInterval, activeRecipe := Some(e.id))
            else if ClosesAt(t, e, source) && e.Retire?
            then next == r.(disabled := true, exported := false, activeRecipe := None)
            else if ClosesAt(t, e, source) then next == r.(activeRecipe := None)
            else next == r
  {
    CommitsExactlyWhen(t, e);
    hide Takes, RecipesAfter, RunsAfter, HealthAfter, Trim, Spec.Valid, Exceeds;
  }

  /**
   In every reachable state a source points to the recipe activated for it last, unless one was closed by name since,
   and is disabled and withheld from export once one was retired.
   */
  lemma {:induction false} SourcesFollowHistory(s: State, es: seq<Event>, source: SourceId)
    requires Initial(s) && Run(s, es) && source in s.sources
    ensures source in Exec(s, es).sources && SourceColumns(Exec(s, es).sources[source], s, es, source)
  {
    hide Enabled, Apply, Activates, Closes, Sound;
    if es != [] {
      var front, e := es[..|es| - 1], es[|es| - 1];
      SourcesFollowHistory(s, front, source);
      ReachableInv(s, front);
      SourceStep(Exec(s, front), e, source);
      KindsOfSourceEvents(Exec(s, front), e);
    }
  }

  lemma KindsOfSourceEvents(t: State, e: Event)
    ensures Activates(t, e) ==> e.Activate?
    ensures Closes(t, e) ==> (e.Retire? || e.Supersede?) && e.id in t.recipes
  {
  }

  // ----- Which row a call writes

  predicate ActiveWith(t: State, source: SourceId, hash: string, id: RecipeId) {
    && id in t.recipes && t.recipes[id].status.Active? && t.recipes[id].source == source && t.recipes[id].hash == hash
  }

  /**
   An activation writes the active recipe of the source that has the same content, if there is one, and else a new row,
   with the version after the largest of its key.
   */
  lemma ActivationWrites(t: State, a: Activation, id: RecipeId, version: nat)
    ensures Enabled(t, Activate(a, id, version)) <==>
            if exists k :: ActiveWith(t, a.source, a.hash, k) then ActiveWith(t, a.source, a.hash, id)
            else
              && id !in t.recipes && version >= 1
              && (forall k :: k in t.recipes && t.recipes[k].key == a.key ==> t.recipes[k].version < version)
              && (version > 1 ==>
                    exists k :: k in t.recipes && t.recipes[k].key == a.key && t.recipes[k].version == version - 1)
  {
    assert forall k :: ActiveWith(t, a.source, a.hash, k) <==> Reusable(t.recipes, a.source, a.hash, k);
    if k :| k in t.recipes && t.recipes[k].key == a.key && t.recipes[k].version == version - 1 {
      assert HasVersion(t.recipes, k, a.key, version - 1);
    }
  }

  predicate RunningAt(t: State, job: JobId, run: RunId) {
    run in t.runs && t.runs[run].job == job && t.runs[run].status.Running?
  }

  /** A run is begun in the row of the running run of its job, if there is one, and else in a new one. */
  lemma BeginWrites(t: State, run: RunId, recipe: RecipeId, source: SourceId, job: JobId, crawlRun: nat)
    ensures Enabled(t, Begin(run, recipe, source, job, crawlRun)) <==>
            if run in t.runs then RunningAt(t, job, run) else forall k :: k in t.runs ==> !RunningAt(t, job, k)
  {
    assert forall k :: RunningAt(t, job, k) <==> RunOfJob(t.runs, k, job);
  }
}
