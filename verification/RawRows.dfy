/** What the raw rows of a crawl show, over every run of crawls, quarantines and retirements. */
module RawRows {
  import opened Common
  import opened CrawlRuns

  /** The last entry that a list has for a key. */
  function LastEntry(list: seq<Processed>, key: string): Option<Processed> {
    if list == [] then None
    else if list[|list| - 1].key == key then Some(list[|list| - 1])
    else LastEntry(list[..|list| - 1], key)
  }

  function EntryCount(list: seq<Processed>, key: string): nat {
    if list == [] then 0 else EntryCount(list[..|list| - 1], key) + if list[|list| - 1].key == key then 1 else 0
  }

  /** Completing a run leaves no raw row of it pending: each shows the outcome of the last entry with its key. */
  lemma {:induction false} CompletionSettles(raws: map<RawId, RawRow>, items: Feed.Table, run: RunId,
                                             list: seq<Processed>, trace: seq<Feed.Event>,
                                             src: SourceId, now: Time, id: RawId)
    requires Traces(trace, run, src, list, now) && FeedRuns.Run(items, trace) && id.0 == run &&
        forall k :: k in raws ==> k.0 != run
    ensures Settled(RawsAfter(raws, run, list, trace), FeedRuns.Exec(items, trace), list, None, id)
  {
    if list == [] {
      hide FeedRuns.Exec;
    } else {
      var front, p := list[..|list| - 1], list[|list| - 1];
      hide Feed.Enabled, Feed.Apply, Settled, SettledRaw;
      if p.Rejected? {
        CompletionSettles(raws, items, run, front, trace, src, now, id);
        EntrySettles(RawsAfter(raws, run, front, trace), FeedRuns.Exec(items, trace), FeedRuns.Exec(items, trace),
                     list, id, 0);
      } else {
        var past, e := trace[..|trace| - 1], trace[|trace| - 1];
        CompletionSettles(raws, items, run, front, past, src, now, id);
        ItemsRemain(FeedRuns.Exec(items, past), e);
        EntrySettles(RawsAfter(raws, run, front, past), FeedRuns.Exec(items, past), FeedRuns.Exec(items, trace), list,
                     id, ItemOf(e));
      }
    }
  }

  lemma EntrySettles(raws: map<RawId, RawRow>, before: Feed.Table, items: Feed.Table, list: seq<Processed>, id: RawId,
                     item: ItemId)
    requires list != [] && Settled(raws, before, list[..|list| - 1], None, id) && before.Keys <= items.Keys
    requires list[|list| - 1].Normalized? ==> item in items
    ensures Settled(SettledRaw(raws, id.0, list[|list| - 1], item), items, list, None, id)
  {
  }

  lemma ItemsRemain(items: Feed.Table, e: Feed.Event)
    requires Feed.Enabled(items, e)
    ensures items.Keys <= Feed.Apply(items, e).Keys
    ensures e.Insert? || e.Merge? ==> e.id in Feed.Apply(items, e)
  {
  }

  /**
   What a raw row shows: nothing is pending; the last entry of the committed list with its key decides, unless a
   quarantine or retirement has set the row aside since, and then its text; and the item it names exists.
   */
  ghost predicate Settled(raws: map<RawId, RawRow>, items: Feed.Table, list: seq<Processed>, skip: Option<string>,
                          id: RawId) {
    if id in raws then
      && LastEntry(list, id.1).Some?
      && var row, last := raws[id], LastEntry(list, id.1).value;
         && row.attempts == EntryCount(list, id.1)
         && row.status == (if skip.Some? then RawSkipped else if last.Normalized? then RawNormalized else RawFailed)
         && row.error == (if skip.Some? then skip else if last.Rejected? then Some(last.error) else None)
         && (row.status.RawNormalized? ==> row.item.Some?)
         && (row.status.RawSkipped? ==> row.item.None?)
         && (row.item.Some? ==> row.item.value in items)
    else LastEntry(list, id.1).None? && EntryCount(list, id.1) == 0 && skip.None?
  }

  /** Raw rows belong to completed runs, and the raw row that an item came from exists. */
  ghost predicate RawInv(t: State) {
    && (forall id :: id in t.raws ==> id.0 in t.runs && t.runs[id.0].status.Completed?)
    && RowsExist(t.items, t.raws)
  }

  /** The entries of the completion of a run that took effect; there is at most one. */
  function Committed(s: State, es: seq<Event>, run: RunId): seq<Processed> {
    if es == [] then []
    else
      var front, e := es[..|es| - 1], es[|es| - 1];
      if e.Complete? && e.run == run && Takes(Exec(s, front), e) then e.list else Committed(s, front, run)
  }

  /** What the last quarantine or retirement that set a raw row aside wrote on it. */
  function LastSkip(s: State, es: seq<Event>, id: RawId): Option<string> {
    if es == [] then None
    else
      var front, e := es[..|es| - 1], es[|es| - 1];
      if e.Other? && Skips(Exec(s, front).items, e.feed, id) then Some(SkipText(e.feed)) else LastSkip(s, front, id)
  }

  lemma {:induction false} RowsOfRun(raws: map<RawId, RawRow>, run: RunId, list: seq<Processed>, trace: seq<Feed.Event>)
    ensures var after := RawsAfter(raws, run, list, trace);
            && raws.Keys <= after.Keys
            && (forall id :: id in after ==> id in raws || id.0 == run)
            && (forall id :: id in raws && id.0 != run ==> after[id] == raws[id])
  {
    if list != [] {
      var front, p := list[..|list| - 1], list[|list| - 1];
      RowsOfRun(raws, run, front, if p.Rejected? || trace == [] then trace else trace[..|trace| - 1]);
    }
  }

  /** The raw row that an item came from exists. */
  ghost predicate RowsExist(items: Feed.Table, raws: map<RawId, RawRow>) {
    forall k :: k in items && items[k].rawId.Some? ==> items[k].rawId.value in raws
  }

  lemma {:induction false} ItemsComeFromRows(raws: map<RawId, RawRow>, items: Feed.Table, run: RunId,
                                             list: seq<Processed>,
                                             trace: seq<Feed.Event>, src: SourceId, now: Time)
    requires Traces(trace, run, src, list, now) && RowsExist(items, raws)
    ensures RowsExist(FeedRuns.Exec(items, trace), RawsAfter(raws, run, list, trace))
  {
    hide Feed.Apply, SettledRaw, RowsExist;
    if list == [] {
      hide FeedRuns.Exec;
    } else {
      var front, p := list[..|list| - 1], list[|list| - 1];
      if p.Rejected? {
        ItemsComeFromRows(raws, items, run, front, trace, src, now);
        OneMoreRaw(FeedRuns.Exec(items, trace), RawsAfter(raws, run, front, trace), run, p, 0);
      } else {
        var past, e := trace[..|trace| - 1], trace[|trace| - 1];
        ItemsComeFromRows(raws, items, run, front, past, src, now);
        OneMoreRaw(FeedRuns.Exec(items, past), RawsAfter(raws, run, front, past), run, p, ItemOf(e));
        UpsertSetsRow(FeedRuns.Exec(items, past), e, SettledRaw(RawsAfter(raws, run, front, past), run, p, ItemOf(e)));
      }
    }
  }

  lemma OneMoreRaw(items: Feed.Table, raws: map<RawId, RawRow>, run: RunId, p: Processed, item: ItemId)
    requires RowsExist(items, raws)
    ensures RowsExist(items, SettledRaw(raws, run, p, item)) && (run, p.key) in SettledRaw(raws, run, p, item)
  {
  }

  lemma UpsertSetsRow(items: Feed.Table, e: Feed.Event, raws: map<RawId, RawRow>)
    requires (e.Insert? || e.Merge?) && e.raw in raws && RowsExist(items, raws)
    ensures RowsExist(Feed.Apply(items, e), raws)
  {
  }

  lemma HidingKeepsRows(items: Feed.Table, e: Feed.Event, raws: map<RawId, RawRow>)
    requires (e.Hydrate? || e.Quarantine? || e.Retire?) && RowsExist(items, raws)
    ensures RowsExist(Feed.Apply(items, e), RawsSkipped(raws, items, e))
  {
    hide Skips, SkipText, SkippedRaw;
  }

  lemma RawInvStep(t: State, e: Event)
    requires RawInv(t) && Enabled(t, e)
    ensures RawInv(Apply(t, e))
  {
    hide RunsAfter, HealthAfter, Traces, RawsAfter, RawsSkipped, RowsExist, FeedRuns.Exec, FeedRuns.Run, Feed.Enabled,
         Feed.Apply;
    if e.Other? {
      HidingKeepsRows(t.items, e.feed, t.raws);
      SameRaws(t.raws, t.items, e.feed);
    } else if e.Complete? && Takes(t, e) {
      RowsOfRun(t.raws, e.run, e.list, e.trace);
      ItemsComeFromRows(t.raws, t.items, e.run, e.list, e.trace, e.src, e.now);
      CompletedNow(t, e);
    }
    var t' := Apply(t, e);
    forall id | id in t'.raws
      ensures id.0 in t'.runs && t'.runs[id.0].status.Completed?
    {
      if id in t.raws {
        FinishedStep(t, e, id.0);
      }
    }
  }

  lemma SameRaws(raws: map<RawId, RawRow>, items: Feed.Table, feed: Feed.Event)
    ensures RawsSkipped(raws, items, feed).Keys == raws.Keys
  {
    hide Skips, SkipText, SkippedRaw;
  }

  lemma CompletedNow(t: State, e: Event)
    requires e.Complete? && Takes(t, e)
    ensures e.run in RunsAfter(t, e) && RunsAfter(t, e)[e.run].status.Completed?
  {
  }

  lemma SettledStep(t: State, e: Event, list: seq<Processed>, skip: Option<string>, id: RawId)
    requires RawInv(t) && Enabled(t, e) && Settled(t.raws, t.items, list, skip, id)
    ensures Settled(Apply(t, e).raws, Apply(t, e).items,
                    if e.Complete? && e.run == id.0 && Takes(t, e) then e.list else list,
                    if e.Other? && Skips(t.items, e.feed, id) then Some(SkipText(e.feed)) else skip, id)
  {
    hide HealthAfter, RunsAfter, InsertCount, RawsAfter, FeedRuns.Exec, FeedRuns.Run, Traces, SkipText;
    if e.Complete? && Takes(t, e) {
      hide Feed.Apply;
      if e.run == id.0 {
        CompletionSettles(t.raws, t.items, e.run, e.list, e.trace, e.src, e.now, id);
      } else {
        RowsOfRun(t.raws, e.run, e.list, e.trace);
        UpsertsGrowTheTable(t.items, e.trace, e.run, e.src, e.list, e.now);
      }
    } else if e.Other? {
      ItemsRemain(t.items, e.feed);
      hide Feed.Apply, Feed.Enabled;
      if Skips(t.items, e.feed, id) {
        SkippedRowExists(t, e.feed, id);
      }
    }
  }

  lemma SkippedRowExists(t: State, feed: Feed.Event, id: RawId)
    requires RawInv(t) && Skips(t.items, feed, id)
    ensures id in t.raws
  {
  }

  /**
   In every reachable state a raw row exists exactly for the keys of the list that its run committed, belongs to a
   completed run and is never pending; it shows the outcome of the last entry with its key until a quarantine or
   retirement of an item that came from it sets it aside.
   */
  lemma {:induction false} RawRowsAreSettled(s: State, es: seq<Event>, id: RawId)
    requires Run(s, es) && s.raws == map[] && forall k :: k in s.items ==> s.items[k].rawId.None?
    ensures var t := Exec(s, es);
            RawInv(t) && Settled(t.raws, t.items, Committed(s, es, id.0), LastSkip(s, es, id), id)
  {
    if es != [] {
      hide Enabled, Apply, Skips, SkipText, RawInv, Settled;
      var front, e := es[..|es| - 1], es[|es| - 1];
      RawRowsAreSettled(s, front, id);
      RawInvStep(Exec(s, front), e);
      SettledStep(Exec(s, front), e, Committed(s, front, id.0), LastSkip(s, front, id), id);
    }
  }
}
