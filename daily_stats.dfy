/**
 * The `daily_stats` record kept in the extension's local storage, and
 * `updateDailyStats`, the read-merge-write that every routine uses to change it.
 */
module DailyStats {
  import opened Js

  /** The stored record. Any field may be missing from what storage returns. */
  datatype Stats = Stats(
    date: Option<string>,
    bonusStatus: Option<string>,
    visitCount: Option<nat>,
    activityBarClass: Option<string>,
    activityBarStyle: Option<string>,
    lastUpdated: Option<int>)

  /** An update request: `{bonus_status?, increment_visit?}`. */
  datatype Update = Update(bonusStatus: Option<string>, incrementVisit: bool)

  const UnknownStatus: string := "unknown"

  /** The record a new day starts from. */
  function Fresh(dateKey: string): Stats {
    Stats(Some(dateKey), Some(UnknownStatus), Some(0), None, None, None)
  }

  /** A record is present and belongs to the day `dateKey`. */
  predicate IsToday(stored: Option<Stats>, dateKey: string) {
    stored.Some? && stored.value.date == Some(dateKey)
  }

  /** What the merge starts from: today's record, or a fresh one on rollover. */
  function DayBase(stored: Option<Stats>, dateKey: string): Stats {
    if IsToday(stored, dateKey) then stored.value else Fresh(dateKey)
  }

  /**
   * The record `updateDailyStats` writes back, field by field: a rollover
   * drops every field of an absent or stale record; `bonus_status` moves only
   * for a truthy update; `increment_visit` adds exactly one, an absent count
   * reading as 0; everything else is kept.
   */
  function Merge(stored: Option<Stats>, dateKey: string, u: Update): (r: Stats)
    ensures r.date == Some(dateKey)
    ensures !IsToday(stored, dateKey) ==>
      r.activityBarClass.None? && r.activityBarStyle.None? && r.lastUpdated.None?
    ensures IsToday(stored, dateKey) ==>
      r.activityBarClass == stored.value.activityBarClass &&
      r.activityBarStyle == stored.value.activityBarStyle &&
      r.lastUpdated == stored.value.lastUpdated
    ensures Truthy(u.bonusStatus) ==> r.bonusStatus == u.bonusStatus
    ensures !Truthy(u.bonusStatus) ==>
      r.bonusStatus == (if IsToday(stored, dateKey) then stored.value.bonusStatus else Some(UnknownStatus))
    ensures u.incrementVisit ==>
      r.visitCount == Some(if IsToday(stored, dateKey) then OrZero(stored.value.visitCount) + 1 else 1)
    ensures !u.incrementVisit ==>
      r.visitCount == (if IsToday(stored, dateKey) then stored.value.visitCount else Some(0))
  {
    var base := DayBase(stored, dateKey);
    Stats(
      base.date,
      if Truthy(u.bonusStatus) then u.bonusStatus else base.bonusStatus,
      if u.incrementVisit then Some(OrZero(base.visitCount) + 1) else base.visitCount,
      base.activityBarClass,
      base.activityBarStyle,
      base.lastUpdated)
  }

  /** The update a successful topic visit sends. */
  const IncrementVisit: Update := Update(None, true)

  /** The stored record after `n` successive visit increments on the day `dateKey`. */
  function Increments(stored: Option<Stats>, dateKey: string, n: nat): Option<Stats> {
    if n == 0 then stored else Some(Merge(Increments(stored, dateKey, n - 1), dateKey, IncrementVisit))
  }

  /**
   * `n` increments on one day raise the day's count by exactly `n` and touch
   * nothing else: at most the first of them rolls the record over.
   */
  lemma {:induction false} IncrementsAddUp(stored: Option<Stats>, dateKey: string, n: nat)
    requires n > 0
    ensures Increments(stored, dateKey, n) ==
      Some(DayBase(stored, dateKey).(visitCount := Some(OrZero(DayBase(stored, dateKey).visitCount) + n)))
  {
    if n > 1 {
      IncrementsAddUp(stored, dateKey, n - 1);
    }
  }

  /** chrome.storage.local, reduced to its `daily_stats` entry. */
  class LocalStorage {
    var dailyStats: Option<Stats>

    constructor (initial: Option<Stats>)
      ensures dailyStats == initial
    {
      dailyStats := initial;
    }

    /** Read the record, roll it over if it is not today's, apply `updates`, write it back. */
    method UpdateDailyStats(dateKey: string, updates: Update)
      modifies this
      ensures dailyStats == Some(Merge(old(dailyStats), dateKey, updates))
    {
      var stats := if dailyStats.Some? then dailyStats.value else Fresh(dateKey);
      if stats.date != Some(dateKey) {
        stats := Fresh(dateKey);
      }
      if Truthy(updates.bonusStatus) {
        stats := stats.(bonusStatus := updates.bonusStatus);
      }
      if updates.incrementVisit {
        stats := stats.(visitCount := Some(OrZero(stats.visitCount) + 1));
      }
      dailyStats := Some(stats);
    }
  }
}
