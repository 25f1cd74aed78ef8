/**
 * Broadcast seasons: the `YYYY[q]Q` quarter buckets the server derives from
 * a show's begin date, and the "current or previous season" working set that
 * the refresh keeps warm.
 *
 * The calendar date of the server clock is the explicit parameter `today`.
 * A begin date the date library cannot parse formats as "Invalid date",
 * which is the season `InvalidDate` here.
 */
module Seasons {
  import opened Common
  import opened Types

  /** A season bucket: a year and a quarter 1..4, or the bucket of unparsable dates. */
  datatype Season = Quarter(year: int, quarter: int) | InvalidDate

  /** The quarter (1..4) a month falls in. */
  function QuarterOfMonth(m: Month): (q: int)
    ensures 1 <= q <= 4
    ensures 3 * (q - 1) < m <= 3 * q
  {
    (m - 1) / 3 + 1
  }

  /** `moment(date).format('YYYY[q]Q')` as a season. */
  function SeasonOfDate(d: Date): (s: Season)
    ensures s.Quarter? && s.year == d.year && 1 <= s.quarter <= 4
    ensures 3 * (s.quarter - 1) < d.month <= 3 * s.quarter
  {
    Quarter(d.year, QuarterOfMonth(d.month))
  }

  /** The season of a possibly unparsable begin date. */
  function SeasonOf(begin: Option<Date>): Season {
    match begin
    case None => InvalidDate
    case Some(d) => SeasonOfDate(d)
  }

  /** The test "the show begins in the given season". */
  function InSeason(season: Season): Item -> bool {
    (it: Item) => SeasonOf(it.begin) == season
  }

  /** `moment(date).subtract(3, 'months')`, on year and month. */
  function SubtractThreeMonths(d: Date): (r: Date)
    ensures 12 * r.year + r.month == 12 * d.year + d.month - 3
  {
    if d.month > 3 then Date(d.year, d.month - 3) else Date(d.year - 1, d.month + 9)
  }

  /** `getCurrentSeason`. */
  function CurrentSeason(today: Date): Season {
    SeasonOfDate(today)
  }

  /** `getPreviousSeason`: the season of the date three months before `today`. */
  function PreviousSeason(today: Date): Season {
    SeasonOfDate(SubtractThreeMonths(today))
  }

  /** The previous season is the quarter before the current one; the first quarter rolls back to the fourth of the year before. */
  lemma PreviousSeasonRollsBack(today: Date)
    ensures var cur := CurrentSeason(today);
      PreviousSeason(today) == (if cur.quarter == 1 then Quarter(cur.year - 1, 4) else Quarter(cur.year, cur.quarter - 1))
  {
  }

  /** The current and previous seasons are different buckets. */
  lemma CurrentIsNotPrevious(today: Date)
    ensures CurrentSeason(today) != PreviousSeason(today)
  {
    PreviousSeasonRollsBack(today);
  }

  /** `isRecentSeasonItem`: the show's begin season is the current or the previous one. */
  predicate IsRecentSeasonItem(today: Date, item: Item) {
    var s := SeasonOf(item.begin);
    s == CurrentSeason(today) || s == PreviousSeason(today)
  }

  /** A show is recent exactly when its begin date is in today's quarter or in the quarter just before it. */
  lemma RecentIffSameOrPreviousQuarter(today: Date, item: Item)
    ensures IsRecentSeasonItem(today, item) <==>
      item.begin.Some? &&
      var y, q := item.begin.value.year, QuarterOfMonth(item.begin.value.month);
      var ty, tq := today.year, QuarterOfMonth(today.month);
      (y == ty && q == tq) || (if tq == 1 then y == ty - 1 && q == 4 else y == ty && q == tq - 1)
  {
    PreviousSeasonRollsBack(today);
  }

  /** `getRecentSeasonItems`: the catalog shows of the working set, in catalog order. */
  function GetRecentSeasonItems(today: Date, items: seq<Item>): (r: seq<Item>)
    ensures forall it :: it in r <==> it in items && IsRecentSeasonItem(today, it)
    ensures IsSubsequence(r, items)
  {
    FilterIsSubsequence(items, it => IsRecentSeasonItem(today, it));
    FilterMembers(items, it => IsRecentSeasonItem(today, it));
    Filter(items, it => IsRecentSeasonItem(today, it))
  }
}
