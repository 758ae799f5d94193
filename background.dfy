/**
 * The background script: settings with their defaults, alarm set-up and
 * dispatch, the check-in routine with its page probe, and the browsing
 * routine's per-topic visit loop.
 */
module Background {
  import opened Js
  import opened DailyStats
  import Topics

  /** The settings the routines use, after defaults are filled in. */
  datatype Settings = Settings(
    checkInOnStartup: bool,
    checkInInterval: int,   // hours
    browsingInterval: int,  // minutes
    topicCount: int)

  /** What chrome.storage.sync holds: any key may be unset. */
  datatype SyncedSettings = SyncedSettings(
    checkInOnStartup: Option<bool>,
    checkInInterval: Option<int>,
    browsingInterval: Option<int>,
    topicCount: Option<int>)

  const DefaultSettings: Settings := Settings(false, 3, 60, 8)

  /** `getSettings`: each unset key takes its default. */
  function GetSettings(synced: SyncedSettings): (s: Settings)
    ensures synced.checkInOnStartup.None? ==> s.checkInOnStartup == DefaultSettings.checkInOnStartup
    ensures synced.checkInOnStartup.Some? ==> s.checkInOnStartup == synced.checkInOnStartup.value
    ensures synced.checkInInterval.None? ==> s.checkInInterval == DefaultSettings.checkInInterval
    ensures synced.checkInInterval.Some? ==> s.checkInInterval == synced.checkInInterval.value
    ensures synced.browsingInterval.None? ==> s.browsingInterval == DefaultSettings.browsingInterval
    ensures synced.browsingInterval.Some? ==> s.browsingInterval == synced.browsingInterval.value
    ensures synced.topicCount.None? ==> s.topicCount == DefaultSettings.topicCount
    ensures synced.topicCount.Some? ==> s.topicCount == synced.topicCount.value
  {
    Settings(
      if synced.checkInOnStartup.Some? then synced.checkInOnStartup.value else DefaultSettings.checkInOnStartup,
      if synced.checkInInterval.Some? then synced.checkInInterval.value else DefaultSettings.checkInInterval,
      if synced.browsingInterval.Some? then synced.browsingInterval.value else DefaultSettings.browsingInterval,
      if synced.topicCount.Some? then synced.topicCount.value else DefaultSettings.topicCount)
  }

  const AlarmCheckIn: string := "daily_checkin"
  const AlarmBrowsing: string := "periodic_browse"

  datatype Routine = CheckIn | Browsing

  /** The alarm listener: which routine an alarm of this name starts. */
  function OnAlarm(name: string): (r: Option<Routine>)
    ensures r == Some(CheckIn) <==> name == AlarmCheckIn
    ensures r == Some(Browsing) <==> name == AlarmBrowsing
    ensures r.None? <==> name != AlarmCheckIn && name != AlarmBrowsing
  {
    if name == AlarmCheckIn then Some(CheckIn)
    else if name == AlarmBrowsing then Some(Browsing)
    else None
  }

  /** How often, in minutes, `setupAlarms` makes a routine's alarm fire. */
  function PeriodInMinutes(s: Settings, r: Routine): int {
    match r
    case CheckIn => s.checkInInterval * 60
    case Browsing => s.browsingInterval
  }

  /**
   * The alarms left after `setupAlarms`, name to period in minutes: every
   * earlier alarm is cleared, then exactly one alarm per routine is created,
   * and each one is dispatched to the routine whose period it carries.
   */
  function SetupAlarms(s: Settings): (alarms: map<string, int>)
    ensures forall name :: name in alarms <==> OnAlarm(name).Some?
    ensures forall name :: name in alarms ==> alarms[name] == PeriodInMinutes(s, OnAlarm(name).value)
  {
    map[AlarmCheckIn := s.checkInInterval * 60, AlarmBrowsing := s.browsingInterval]
  }

  /** With nothing saved, check-in runs every 180 minutes and browsing every 60, eight topics a pass. */
  lemma DefaultSchedule()
    ensures SetupAlarms(GetSettings(SyncedSettings(None, None, None, None))) ==
      map[AlarmCheckIn := 180, AlarmBrowsing := 60]
    ensures GetSettings(SyncedSettings(None, None, None, None)).topicCount == 8
    ensures !GetSettings(SyncedSettings(None, None, None, None)).checkInOnStartup
  {
  }

  /** Events the background script listens to. */
  datatype Event = Installed | Startup | Message(kind: string) | Alarm(name: string)

  datatype Action = RearmAlarms | Run(routine: Routine) | Ignore

  /** The listeners registered at the top of the background script. */
  function Handle(e: Event, s: Settings): (a: Action)
    ensures a == RearmAlarms <==> e == Installed || e == Message("SETTINGS_UPDATED")
    ensures a == Run(CheckIn) <==> e == Alarm(AlarmCheckIn) || (e == Startup && s.checkInOnStartup)
    ensures a == Run(Browsing) <==> e == Alarm(AlarmBrowsing)
  {
    match e
    case Installed => RearmAlarms
    case Startup => if s.checkInOnStartup then Run(CheckIn) else Ignore
    case Message(kind) => if kind == "SETTINGS_UPDATED" then RearmAlarms else Ignore
    case Alarm(name) => if OnAlarm(name).Some? then Run(OnAlarm(name).value) else Ignore
  }

  /** What the injected probe sees on the claim page. */
  datatype ClaimPage = ClaimPage(hasClaimButton: bool, hasClaimedText: bool)

  const Claimed: string := "claimed"
  const MaybeClaimed: string := "maybe_claimed"

  /** The injected probe's answer; a found button is clicked and reported as claimed. */
  function ProbeStatus(page: ClaimPage): (status: string)
    ensures status == Claimed <==> page.hasClaimButton || page.hasClaimedText
    ensures status == MaybeClaimed <==> !page.hasClaimButton && !page.hasClaimedText
  {
    if page.hasClaimButton then Claimed
    else if page.hasClaimedText then Claimed
    else MaybeClaimed
  }

  /** The record after a probe's answer is merged: the answer is always truthy, so it is recorded as is. */
  lemma CheckInRecordsProbe(stored: Option<Stats>, today: string, page: ClaimPage)
    ensures Merge(stored, today, Update(Some(ProbeStatus(page)), false)).bonusStatus == Some(ProbeStatus(page))
    ensures IsToday(stored, today) ==>
      Merge(stored, today, Update(Some(ProbeStatus(page)), false)).visitCount == stored.value.visitCount
  {
  }

  /**
   * How `executeScript` ends: it rejects, it resolves without a truthy
   * `results[0].result` (the probe threw, for instance), or the probe answers
   * after seeing `page`.
   */
  datatype Injection = Rejected | NoResult | Saw(page: ClaimPage)

  /** `results[0].result` of a resolved injection, absent when it is not there. */
  function ProbeResult(i: Injection): (result: Option<string>)
    requires !i.Rejected?
    ensures Truthy(result) <==> i.Saw?
    ensures i.Saw? ==> result == Some(ProbeStatus(i.page))
  {
    match i
    case NoResult => None
    case Saw(page) => Some(ProbeStatus(page))
  }

  /**
   * `performCheckIn`. `tabCreated` is whether the claim tab opened and
   * `injection` how the probe's injection ended. A rejected injection rejects
   * inside the timer callback, outside the routine's try block, so the tab
   * is not closed. Returns whether the tab is closed.
   */
  method PerformCheckIn(store: LocalStorage, today: string, tabCreated: bool, injection: Injection)
    returns (tabClosed: bool)
    modifies store
    ensures tabClosed <==> tabCreated && !injection.Rejected?
    ensures tabCreated && injection.Saw? ==>
      store.dailyStats == Some(Merge(old(store.dailyStats), today, Update(Some(ProbeStatus(injection.page)), false)))
    ensures !(tabCreated && injection.Saw?) ==> store.dailyStats == old(store.dailyStats)
  {
    tabClosed := false;
    if !tabCreated {
      return;
    }
    if injection.Rejected? {
      return;
    }
    var result := ProbeResult(injection);
    if Truthy(result) {
      store.UpdateDailyStats(today, Update(result, false));
    }
    tabClosed := true;
  }

  /** The ids, in order, whose tab opened, stayed and closed without an error. */
  function Completed(ids: seq<string>, failing: set<string>): (done: seq<string>)
  {
    if ids == [] then []
    else
      var last := ids[|ids| - 1];
      Completed(ids[..|ids| - 1], failing) + (if last in failing then [] else [last])
  }

  /** The completed visits are exactly the ids that are not in the failing set. */
  lemma {:induction false} CompletedMembers(ids: seq<string>, failing: set<string>)
    ensures forall x :: x in Completed(ids, failing) <==> x in ids && x !in failing
  {
    if ids != [] {
      var init, last := ids[..|ids| - 1], ids[|ids| - 1];
      CompletedMembers(init, failing);
      assert ids == init + [last];
    }
  }

  /** Over distinct ids, one visit is counted for each id that does not fail. */
  lemma {:induction false} CompletedCount(ids: seq<string>, failing: set<string>)
    requires Topics.Distinct(ids)
    ensures |Completed(ids, failing)| == |set x | x in ids && x !in failing|
  {
    if ids != [] {
      var init, last := ids[..|ids| - 1], ids[|ids| - 1];
      DistinctSplit(init, last);
      CompletedCount(init, failing);
      assert ids == init + [last];
      OutsideCount(init, last, failing);
    }
  }

  /** Dropping the last element of a duplicate-free list leaves one without it. */
  lemma DistinctSplit(init: seq<string>, last: string)
    requires Topics.Distinct(init + [last])
    ensures Topics.Distinct(init) && last !in init
  {
    var ids := init + [last];
    forall a, b | 0 <= a < b < |init| ensures init[a] != init[b] {
      assert init[a] == ids[a] && init[b] == ids[b];
    }
    forall a | 0 <= a < |init| ensures init[a] != last {
      assert init[a] == ids[a] && last == ids[|init|];
    }
  }

  /** A new id adds one to the ids outside the failing set exactly when it does not fail. */
  lemma OutsideCount(init: seq<string>, last: string, failing: set<string>)
    requires last !in init
    ensures |set x | x in init + [last] && x !in failing|
      == |set x | x in init && x !in failing| + (if last in failing then 0 else 1)
  {
    var before := set x | x in init && x !in failing;
    var after := set x | x in init + [last] && x !in failing;
    if last in failing {
      assert after == before;
    } else {
      assert after == before + {last};
    }
  }

  /**
   * The loop of `performBrowsing`: each id is visited in turn; a visit that
   * completes sends one increment, a failing one is skipped and the loop goes on.
   */
  method VisitTopics(store: LocalStorage, today: string, ids: seq<string>, failing: set<string>)
    modifies store
    ensures store.dailyStats == Increments(old(store.dailyStats), today, |Completed(ids, failing)|)
  {
    for i := 0 to |ids|
      invariant store.dailyStats == Increments(old(store.dailyStats), today, |Completed(ids[..i], failing)|)
    {
      assert ids[..i + 1][..i] == ids[..i];
      if ids[i] !in failing {
        store.UpdateDailyStats(today, IncrementVisit);
      }
    }
    assert ids[..|ids|] == ids;
  }

  /**
   * `performBrowsing`. `listing` is the fetched text of the recent page, or
   * None when the fetch failed; `failing` is the set of topic ids whose visit throws.
   */
  method PerformBrowsing(store: LocalStorage, today: string, synced: SyncedSettings,
                         listing: Option<string>, failing: set<string>)
    modifies store
    ensures listing.None? ==> store.dailyStats == old(store.dailyStats)
    ensures listing.Some? ==>
      store.dailyStats == Increments(old(store.dailyStats), today,
                                     |Completed(Topics.TopicIds(listing.value, GetSettings(synced).topicCount), failing)|)
  {
    var settings := GetSettings(synced);
    if listing.None? {
      return;
    }
    var topIds := Topics.TopicIds(listing.value, settings.topicCount);
    VisitTopics(store, today, topIds, failing);
  }

  /**
   * A browsing pass over distinct ids (as `Topics.TopicIds` selects them)
   * raises the day's visit count by the number of ids that did not fail, and
   * changes nothing else of the day's record.
   */
  lemma {:induction false} BrowsingPassCount(stored: Option<Stats>, today: string, ids: seq<string>, failing: set<string>)
    requires Topics.Distinct(ids)
    ensures var n := |set x | x in ids && x !in failing|;
      Increments(stored, today, |Completed(ids, failing)|) ==
        if n == 0 then stored
        else Some(DayBase(stored, today).(visitCount := Some(OrZero(DayBase(stored, today).visitCount) + n)))
  {
    CompletedCount(ids, failing);
    if |Completed(ids, failing)| > 0 {
      IncrementsAddUp(stored, today, |Completed(ids, failing)|);
    }
  }
}
