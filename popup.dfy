/**
 * The popup: which record it shows for the popup's own date key, and what
 * `updateUI` writes into the status, counter, activity bar and time fields.
 */
module Popup {
  import opened Js
  import opened DailyStats

  /** The record passed to `updateUI` when the stored one is missing or belongs to another day. */
  const NoDataYet: Stats := Stats(None, Some(UnknownStatus), Some(0), None, None, None)

  /**
   * The DOMContentLoaded handler's choice: the stored record when its `date`
   * equals the popup's key, `{bonus_status: 'unknown', visit_count: 0}` otherwise.
   */
  function ShownStats(stored: Option<Stats>, popupKey: string): (shown: Stats)
    ensures IsToday(stored, popupKey) ==> shown == stored.value
    ensures !IsToday(stored, popupKey) ==>
      shown.bonusStatus == Some(UnknownStatus) && shown.visitCount == Some(0) &&
      shown.activityBarClass.None? && shown.activityBarStyle.None? && shown.lastUpdated.None?
  {
    if stored.Some? && stored.value.date == Some(popupKey) then stored.value else NoDataYet
  }

  /**
   * Right after the background script merges an update under its own date key,
   * the popup shows that record only if its key is the same; under any other
   * key (the popup uses the UTC date, the background script the local one) it
   * shows no data for the day.
   */
  lemma PopupAfterMerge(stored: Option<Stats>, backgroundKey: string, popupKey: string, u: Update)
    ensures backgroundKey == popupKey ==>
      ShownStats(Some(Merge(stored, backgroundKey, u)), popupKey) == Merge(stored, backgroundKey, u)
    ensures backgroundKey != popupKey ==>
      ShownStats(Some(Merge(stored, backgroundKey, u)), popupKey) == NoDataYet
  {
  }

  datatype StatusLabel = StatusLabel(text: string, cssClass: string)

  const ClaimedText: string := "已领取"
  const UnclaimedText: string := "未领取"
  const MaybeClaimedText: string := "可能已领取"
  const UnknownText: string := "未知"

  /** `updateUI`'s status text and class for a `bonus_status`. */
  function LabelFor(status: Option<string>): (tag: StatusLabel)
    ensures status == Some("claimed") ==> tag == StatusLabel(ClaimedText, "status-claimed")
    ensures status == Some("unclaimed") ==> tag == StatusLabel(UnclaimedText, "status-unclaimed")
    ensures status == Some("maybe_claimed") ==> tag == StatusLabel(MaybeClaimedText, "status-claimed")
    ensures tag.cssClass == "status-claimed" <==> status == Some("claimed") || status == Some("maybe_claimed")
    ensures tag.cssClass == "status-unknown" <==> tag.text == UnknownText
    ensures tag.text == UnknownText <==>
      status != Some("claimed") && status != Some("unclaimed") && status != Some("maybe_claimed")
  {
    if status == Some("claimed") then StatusLabel(ClaimedText, "status-claimed")
    else if status == Some("unclaimed") then StatusLabel(UnclaimedText, "status-unclaimed")
    else if status == Some("maybe_claimed") then StatusLabel(MaybeClaimedText, "status-claimed")
    else StatusLabel(UnknownText, "status-unknown")
  }

  /** A stale or missing record is shown as unknown status, zero visits and an empty activity bar. */
  lemma StaleRecordShowsDefaults(stored: Option<Stats>, popupKey: string)
    requires !IsToday(stored, popupKey)
    ensures LabelFor(ShownStats(stored, popupKey).bonusStatus) == StatusLabel(UnknownText, "status-unknown")
    ensures OrZero(ShownStats(stored, popupKey).visitCount) == 0
    ensures !Truthy(ShownStats(stored, popupKey).activityBarClass)
    ensures !Truthy(ShownStats(stored, popupKey).activityBarStyle)
    ensures !HasLastUpdated(ShownStats(stored, popupKey))
  {
  }

  const DefaultBarClass: string := "member-activity-start"
  const PlaceholderTime: string := "--"
  const WaitingText: string := "等待数据更新..."

  /** `stats.last_updated` is truthy (a timestamp other than 0). */
  predicate HasLastUpdated(stats: Stats) {
    stats.lastUpdated.Some? && stats.lastUpdated.value != 0
  }

  /** The inline style of the activity bar's inner element. */
  datatype BarStyle =
    | AsDeclared                  // whatever popup.html gives it
    | WidthZero(before: BarStyle) // `style.width = '0%'` set on top of `before`
    | Replaced(css: string)       // the whole style assigned from the record

  /**
   * The popup elements `updateUI` writes. The optional time elements are
   * taken to be present in popup.html.
   */
  class PopupView {
    var bonusText: string
    var bonusClassName: string
    var countText: nat
    var barClassName: string
    var barStyle: BarStyle
    var localTime: string
    var utcTime: string
    var lastUpdatedText: string

    /**
     * The view after `updateUI(stats)`, the bar's style having been `before`;
     * `formatLocal` and `formatUtc` stand for the two date formatters.
     */
    ghost predicate Shows(stats: Stats, before: BarStyle, formatLocal: int -> string, formatUtc: int -> string)
      reads this
    {
      && bonusText == LabelFor(stats.bonusStatus).text
      && bonusClassName == "value " + LabelFor(stats.bonusStatus).cssClass
      && countText == OrZero(stats.visitCount)
      && barClassName == (if Truthy(stats.activityBarClass) then stats.activityBarClass.value else DefaultBarClass)
      && barStyle == (if Truthy(stats.activityBarStyle) then Replaced(stats.activityBarStyle.value)
                      else if Truthy(stats.activityBarClass) then before
                      else WidthZero(before))
      && (HasLastUpdated(stats) ==>
            localTime == formatLocal(stats.lastUpdated.value) &&
            utcTime == formatUtc(stats.lastUpdated.value) &&
            lastUpdatedText == "")
      && (!HasLastUpdated(stats) ==>
            localTime == PlaceholderTime && utcTime == PlaceholderTime && lastUpdatedText == WaitingText)
    }

    /** `updateUI`: write the record's status, count, activity bar and times into the view. */
    method UpdateUI(stats: Stats, formatLocal: int -> string, formatUtc: int -> string)
      modifies this
      ensures Shows(stats, old(barStyle), formatLocal, formatUtc)
    {
      var statusText := UnknownText;
      var statusClass := "status-unknown";
      if stats.bonusStatus == Some("claimed") {
        statusText, statusClass := ClaimedText, "status-claimed";
      } else if stats.bonusStatus == Some("unclaimed") {
        statusText, statusClass := UnclaimedText, "status-unclaimed";
      } else if stats.bonusStatus == Some("maybe_claimed") {
        statusText, statusClass := MaybeClaimedText, "status-claimed";
      }
      bonusText := statusText;
      bonusClassName := "value " + statusClass;

      countText := OrZero(stats.visitCount);

      if Truthy(stats.activityBarClass) {
        barClassName := stats.activityBarClass.value;
      } else {
        barClassName := DefaultBarClass;
        barStyle := WidthZero(barStyle);
      }
      if Truthy(stats.activityBarStyle) {
        barStyle := Replaced(stats.activityBarStyle.value);
      }

      if HasLastUpdated(stats) {
        localTime := formatLocal(stats.lastUpdated.value);
        utcTime := formatUtc(stats.lastUpdated.value);
        lastUpdatedText := "";
      } else {
        localTime := PlaceholderTime;
        utcTime := PlaceholderTime;
        lastUpdatedText := WaitingText;
      }
    }

    /** The DOMContentLoaded handler: read the stored record and show it under the popup's date key. */
    method Load(stored: Option<Stats>, popupKey: string, formatLocal: int -> string, formatUtc: int -> string)
      modifies this
      ensures Shows(ShownStats(stored, popupKey), old(barStyle), formatLocal, formatUtc)
    {
      var stats := if stored.Some? then stored.value else Stats(None, None, None, None, None, None);
      if stats.date != Some(popupKey) {
        UpdateUI(NoDataYet, formatLocal, formatUtc);
      } else {
        UpdateUI(stats, formatLocal, formatUtc);
      }
    }
  }
}
