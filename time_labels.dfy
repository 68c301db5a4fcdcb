/**
 * Two small profile widgets: the relative time under a comment
 * (client/components/profile/CommentCard.tsx) and the page buttons
 * (client/components/profile/Pagination.tsx).
 */
module TimeLabels {
  import opened Wrappers
  import opened Text

  // ---------------------------------------------------------------- timeAgo

  datatype Interval = Interval(name: String, seconds: nat)

  /** The units tried in order, longest first; a month is 30 days and a year 365. */
  const Intervals: seq<Interval> := [
    Interval("year", 31536000),
    Interval("month", 2592000),
    Interval("day", 86400),
    Interval("hour", 3600),
    Interval("minute", 60)
  ]

  const JustNow: String := "just now"

  /** "count unit ago", with an 's' on the unit when count is above one. */
  function Phrase(count: nat, name: String): String {
    NatToString(count) + " " + name + (if count > 1 then "s" else "") + " ago"
  }

  /** The for-of loop: the first unit of the table that fits at least once, with how many times it fits. */
  function FirstFit(table: seq<Interval>, seconds: int): (r: Option<(Interval, nat)>)
    ensures r.Some? ==> r.value.1 >= 1
  {
    if table == [] then None
    else if table[0].seconds > 0 && seconds / table[0].seconds >= 1 then Some((table[0], seconds / table[0].seconds))
    else FirstFit(table[1..], seconds)
  }

  /** timeAgo from the milliseconds elapsed; seconds are rounded down, so negative ages count as 'just now'. */
  function TimeAgo(elapsedMs: int): (r: String)
    ensures r == JustNow <==> elapsedMs / 1000 < 60
  {
    var seconds := elapsedMs / 1000;
    FitsFromAMinute(seconds);
    match FirstFit(Intervals, seconds)
    case None => JustNow
    case Some((unit, count)) =>
      var p := Phrase(count, unit.name);
      assert p[0] != JustNow[0];
      p
  }

  /** The reference: the longest unit not longer than the age, by explicit thresholds. */
  function UnitIndex(seconds: int): (k: nat)
    requires seconds >= 60
    ensures k < |Intervals| && Intervals[k].seconds <= seconds
    ensures forall j | 0 <= j < k :: seconds < Intervals[j].seconds
  {
    if seconds >= 31536000 then 0
    else if seconds >= 2592000 then 1
    else if seconds >= 86400 then 2
    else if seconds >= 3600 then 3
    else 4
  }

  /** Some unit fits exactly when the age is a minute or more. */
  lemma FitsFromAMinute(seconds: int)
    ensures FirstFit(Intervals, seconds).Some? <==> seconds >= 60
  {
    if seconds >= 60 {
      FirstFitFinds(Intervals, seconds, UnitIndex(seconds));
    } else {
      NothingFits(Intervals, seconds);
    }
  }

  lemma {:induction false} NothingFits(table: seq<Interval>, seconds: int)
    requires forall j | 0 <= j < |table| :: seconds < table[j].seconds
    ensures FirstFit(table, seconds).None?
    decreases |table|
  {
    if table != [] {
      if table[0].seconds > 0 {
        DivBelowOne(seconds, table[0].seconds);
      }
      NothingFits(table[1..], seconds);
    }
  }

  /**
   * From a minute on, the label names the longest unit that fits and how
   * many whole units fit, at least one; the unit is plural exactly when more
   * than one fits.
   */
  lemma TimeAgoUsesLongestUnit(elapsedMs: int)
    requires elapsedMs / 1000 >= 60
    ensures var seconds := elapsedMs / 1000;
            var unit := Intervals[UnitIndex(seconds)];
            && seconds / unit.seconds >= 1
            && TimeAgo(elapsedMs) == Phrase(seconds / unit.seconds, unit.name)
  {
    var seconds := elapsedMs / 1000;
    var k := UnitIndex(seconds);
    FirstFitFinds(Intervals, seconds, k);
  }

  lemma {:induction false} FirstFitFinds(table: seq<Interval>, seconds: int, k: nat)
    requires k < |table| && 0 < table[k].seconds <= seconds
    requires forall j | 0 <= j < k :: seconds < table[j].seconds
    ensures FirstFit(table, seconds) == Some((table[k], seconds / table[k].seconds))
    ensures seconds / table[k].seconds >= 1
    decreases k
  {
    DivAtLeastOne(seconds, table[k].seconds);
    if k > 0 {
      DivBelowOne(seconds, table[0].seconds);
      FirstFitFinds(table[1..], seconds, k - 1);
    }
  }

  lemma DivAtLeastOne(a: int, b: nat)
    requires 0 < b <= a
    ensures a / b >= 1
  {
  }

  lemma DivBelowOne(a: int, b: nat)
    requires 0 < b && a < b
    ensures a / b < 1
  {
  }

  /** With a 30-day month, an age of 360 to 364 days reads as twelve months. */
  lemma TwelveMonths()
    ensures TimeAgo(360 * 86400 * 1000) == "12 months ago"
  {
    TimeAgoUsesLongestUnit(360 * 86400 * 1000);
    assert NatToString(12) == "12";
  }

  // ---------------------------------------------------------------- pagination

  datatype Button = Button(target: int, disabled: bool, highlighted: bool)
  datatype Widget = Widget(previous: Button, pages: seq<Button>, next: Button)

  /** The buttons for page `current` of `total`, the last page of the comment list's metadata. */
  function Pagination(current: int, total: nat): (w: Widget)
    ensures w.previous.target == (if current - 1 > 1 then current - 1 else 1)
    ensures w.previous.disabled <==> current == 1
    ensures w.next.target == (if current + 1 < total then current + 1 else total)
    ensures w.next.disabled <==> current == total
    ensures |w.pages| == total
    ensures forall k | 0 <= k < total :: w.pages[k].target == k + 1 && !w.pages[k].disabled
    ensures forall k | 0 <= k < total :: w.pages[k].highlighted <==> k + 1 == current
  {
    Widget(
      Button(if current - 1 > 1 then current - 1 else 1, current == 1, false),
      seq(total, k requires 0 <= k < total => Button(k + 1, false, k + 1 == current)),
      Button(if current + 1 < total then current + 1 else total, current == total, false))
  }

  /**
   * On a page in range, every enabled button leads to a page in range,
   * exactly one page button is highlighted, and previous and next step by one.
   */
  lemma PaginationInRange(current: int, total: nat)
    requires 1 <= current <= total
    ensures var w := Pagination(current, total);
            && 1 <= w.previous.target <= total && 1 <= w.next.target <= total
            && (!w.previous.disabled ==> w.previous.target == current - 1)
            && (!w.next.disabled ==> w.next.target == current + 1)
            && w.pages[current - 1].highlighted
            && forall k | 0 <= k < total && k != current - 1 :: !w.pages[k].highlighted
  {
  }

  /** Next then previous comes back to the page, unless it was the last one. */
  lemma NextThenPrevious(current: int, total: nat)
    requires 1 <= current < total
    ensures Pagination(Pagination(current, total).next.target, total).previous.target == current
  {
  }

  /** With no pages, next is enabled on page 1 and asks for page 0, which the service raises back to 1. */
  lemma EmptyListNext()
    ensures Pagination(1, 0).pages == []
    ensures !Pagination(1, 0).next.disabled && Pagination(1, 0).next.target == 0
  {
  }
}
