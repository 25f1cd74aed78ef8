/**
 * The client's pure helpers for the show list: the search, weekday,
 * new-show and watching filters, the list order, the hoisting of watched
 * shows, the broadcast-time texts and the season labels.
 *
 * Case folding is ASCII and `localeCompare` is the ordinal comparison of
 * `Common`. The clock of the new-show filter is the parameter `today`.
 */
module BangumiUtils {
  import opened Common
  import opened Types
  import opened Seasons
  import opened Catalog

  /** `Weekday.ALL`: the tab that shows every weekday. */
  const WeekdayAll := 7

  // ---------------------------------------------------------------- filters

  /** `get(item, 'titleTranslate.zh-Hans[0]')`: the first simplified-Chinese title, when there is one. */
  function ZhHansTitle(item: Item): Option<string> {
    if |item.zhHansTitles| > 0 then Some(item.zhHansTitles[0]) else None
  }

  /** The text searched: the Chinese title when it is non-empty, else the original title. */
  function SearchTarget(item: Item): string {
    var cn := ZhHansTitle(item).GetOr("");
    if cn != "" then cn else item.title
  }

  /** `searchFilter(searchText)(item)`: case-insensitive substring search in the search target. */
  predicate SearchFilter(searchText: string, item: Item) {
    Contains(Lower(SearchTarget(item)), Lower(searchText))
  }

  /** An empty search keeps every show. */
  lemma SearchEmptyKeepsAll(item: Item)
    ensures SearchFilter("", item)
  {
    assert Lower("") == "";
    ContainsEmpty(Lower(SearchTarget(item)));
  }

  /** Folding a character up and then down is folding it down. */
  lemma LowerOfUpper(s: string)
    ensures Lower(Upper(s)) == Lower(s)
  {
    assert forall i :: 0 <= i < |s| ==> Lower(Upper(s))[i] == LowerChar(UpperChar(s[i]));
  }

  /** The search ignores the case of the query. */
  lemma SearchIgnoresCase(searchText: string, item: Item)
    ensures SearchFilter(Upper(searchText), item) == SearchFilter(searchText, item)
  {
    LowerOfUpper(searchText);
  }

  /** Lower-casing keeps an occurrence where it is. */
  lemma LowerKeepsOccurrence(s: string, sub: string, i: int)
    requires OccursAt(s, sub, i)
    ensures OccursAt(Lower(s), Lower(sub), i)
  {
    forall k | 0 <= k < |sub|
      ensures Lower(s)[i..i + |sub|][k] == Lower(sub)[k]
    {
      assert s[i + k] == s[i..i + |sub|][k] == sub[k];
    }
  }

  /**
   * A show whose Chinese title is missing or empty is found by any
   * substring of its original title; a show with a non-empty Chinese title is
   * found by the substrings of that title, whatever its original title.
   */
  lemma SearchFindsTitle(searchText: string, item: Item)
    ensures ZhHansTitle(item).GetOr("") == "" && Contains(item.title, searchText) ==> SearchFilter(searchText, item)
    ensures ZhHansTitle(item).GetOr("") != "" && Contains(item.zhHansTitles[0], searchText) ==> SearchFilter(searchText, item)
    ensures ZhHansTitle(item).GetOr("") != "" ==> forall t :: SearchFilter(searchText, item.(title := t)) == SearchFilter(searchText, item)
  {
    var target := SearchTarget(item);
    if Contains(target, searchText) {
      var i :| OccursAt(target, searchText, i);
      LowerKeepsOccurrence(target, searchText, i);
    }
  }

  /** `weekdayFilter(weekday)(item)`. */
  predicate WeekdayFilter(weekday: int, item: Item) {
    weekday == WeekdayAll || item.weekday == weekday
  }

  /** The "all" tab shows every show; each show with a weekday 0..6 appears on exactly one day tab. */
  lemma WeekdayTabsPartition(item: Item)
    requires 0 <= item.weekday <= 6
    ensures WeekdayFilter(WeekdayAll, item)
    ensures forall w :: 0 <= w <= 6 ==> (WeekdayFilter(w, item) <==> w == item.weekday)
  {
  }

  /** `newBangumiFilter`: the show begins in the same calendar quarter as `today`. */
  predicate NewBangumiFilter(today: Date, item: Item) {
    item.begin.Some? && item.begin.value.year == today.year
    && QuarterOfMonth(item.begin.value.month) == QuarterOfMonth(today.month)
  }

  /** A new show (client) begins in the current season (server), so it belongs to the server's refresh working set. */
  lemma NewBangumiIsCurrentSeason(today: Date, item: Item)
    ensures NewBangumiFilter(today, item) <==> SeasonOf(item.begin) == CurrentSeason(today)
    ensures NewBangumiFilter(today, item) ==> IsRecentSeasonItem(today, item)
  {
  }

  /** `watchingFilter(watchingList)(item)`: the show's id is in the list. */
  predicate WatchingFilter(watchingList: seq<string>, item: Item) {
    item.id.Some? && item.id.value in watchingList
  }

  /** The watching filter as a function of the show. */
  function Watching(watchingList: seq<string>): Item -> bool {
    (it: Item) => WatchingFilter(watchingList, it)
  }

  /** The negation of the watching filter. */
  function NotWatching(watchingList: seq<string>): Item -> bool {
    (it: Item) => !WatchingFilter(watchingList, it)
  }

  // ----------------------------------------------------------------- order

  /** The title a show is ordered by: the first Chinese title when the list exists (even when empty text), else the original title. */
  function SortTitle(item: Item): string {
    ZhHansTitle(item).GetOr(item.title)
  }

  /**
   * `itemSortCompare`: by weekday; on the same weekday by broadcast text
   * when both shows have one; otherwise by sort title.
   */
  function ItemSortCompare(a: Item, b: Item): int {
    if a.weekday != b.weekday then a.weekday - b.weekday
    else if a.broadcast != "" && b.broadcast != "" then StrCompare(a.broadcast, b.broadcast)
    else StrCompare(SortTitle(a), SortTitle(b))
  }

  /** The sign of an integer. */
  function Sign(n: int): int {
    if n < 0 then -1 else if n > 0 then 1 else 0
  }

  /** Swapping the arguments flips the sign of the comparison, and a show compares equal to itself. */
  lemma ItemSortAntisymmetric(a: Item, b: Item)
    ensures Sign(ItemSortCompare(a, b)) == -Sign(ItemSortCompare(b, a))
    ensures ItemSortCompare(a, a) == 0
  {
    StrLessTotal(a.broadcast, b.broadcast);
    StrLessTotal(SortTitle(a), SortTitle(b));
  }

  /**
   * Among shows that all have a broadcast text, or that all lack one, the
   * order is transitive.
   */
  lemma ItemSortTransitiveWithinClass(a: Item, b: Item, c: Item)
    requires (a.broadcast == "") == (b.broadcast == "") == (c.broadcast == "")
    requires ItemSortCompare(a, b) < 0 && ItemSortCompare(b, c) < 0
    ensures ItemSortCompare(a, c) < 0
  {
    if a.weekday == b.weekday == c.weekday {
      if a.broadcast != "" {
        StrLessTransitive(a.broadcast, b.broadcast, c.broadcast);
      } else {
        StrLessTransitive(SortTitle(a), SortTitle(b), SortTitle(c));
      }
    }
  }

  /**
   * Mixing shows with and without a broadcast text on one weekday breaks
   * transitivity: these three shows compare in a cycle, so `Array.sort`
   * has no consistent order to find.
   */
  lemma ItemSortCycle()
    ensures var a := Item(None, "z", [], None, "", "1", 1, [], None, None, None);
      var b := Item(None, "m", [], None, "", "", 1, [], None, None, None);
      var c := Item(None, "a", [], None, "", "2", 1, [], None, None, None);
      ItemSortCompare(a, c) < 0 && ItemSortCompare(c, b) < 0 && ItemSortCompare(b, a) < 0
  {
    assert StrLess("1", "2");
    assert StrLess("a", "m");
    assert StrLess("m", "z");
  }

  /**
   * The order `itemSortCompare` evidently intends, made consistent: on the
   * same weekday a show with a broadcast text comes before one without, so
   * the broadcast comparison and the title comparison never meet.
   */
  function ItemSortCompareCorrected(a: Item, b: Item): int {
    if a.weekday != b.weekday then a.weekday - b.weekday
    else if a.broadcast != "" && b.broadcast != "" then StrCompare(a.broadcast, b.broadcast)
    else if a.broadcast != "" then -1
    else if b.broadcast != "" then 1
    else StrCompare(SortTitle(a), SortTitle(b))
  }

  /** The corrected order agrees with the original wherever the original is consistent: among shows that all have, or all lack, a broadcast text. */
  lemma ItemSortCorrectedAgrees(a: Item, b: Item)
    requires (a.broadcast == "") == (b.broadcast == "")
    ensures ItemSortCompareCorrected(a, b) == ItemSortCompare(a, b)
  {
  }

  /** The corrected order is antisymmetric and transitive on all shows: a strict weak order that `Array.sort` can follow. */
  lemma ItemSortCorrectedIsOrder(a: Item, b: Item, c: Item)
    ensures Sign(ItemSortCompareCorrected(a, b)) == -Sign(ItemSortCompareCorrected(b, a))
    ensures ItemSortCompareCorrected(a, a) == 0
    ensures ItemSortCompareCorrected(a, b) < 0 && ItemSortCompareCorrected(b, c) < 0 ==> ItemSortCompareCorrected(a, c) < 0
  {
    StrLessTotal(a.broadcast, b.broadcast);
    StrLessTotal(SortTitle(a), SortTitle(b));
    if ItemSortCompareCorrected(a, b) < 0 && ItemSortCompareCorrected(b, c) < 0 && a.weekday == b.weekday == c.weekday {
      if a.broadcast != "" && b.broadcast != "" && c.broadcast != "" {
        StrLessTransitive(a.broadcast, b.broadcast, c.broadcast);
      } else if a.broadcast == "" && b.broadcast == "" && c.broadcast == "" {
        StrLessTransitive(SortTitle(a), SortTitle(b), SortTitle(c));
      }
    }
  }

  /** The three shows that break the original order are ordered by the corrected one. */
  lemma ItemSortCorrectedBreaksCycle()
    ensures var a := Item(None, "z", [], None, "", "1", 1, [], None, None, None);
      var b := Item(None, "m", [], None, "", "", 1, [], None, None, None);
      var c := Item(None, "a", [], None, "", "2", 1, [], None, None, None);
      ItemSortCompareCorrected(a, c) < 0 && ItemSortCompareCorrected(c, b) < 0 && ItemSortCompareCorrected(a, b) < 0
  {
    assert StrLess("1", "2");
  }

  // ---------------------------------------------------------------- hoist

  /** `hoistWatchingItems`: the watched shows, then the others, each part in list order. */
  function HoistWatchingItems(items: seq<Item>, watchingIds: seq<string>): (r: seq<Item>)
    ensures |r| == |items| && multiset(r) == multiset(items)
    ensures forall i, j :: 0 <= i < j < |r| && WatchingFilter(watchingIds, r[j]) ==> WatchingFilter(watchingIds, r[i])
  {
    var w, n := Filter(items, Watching(watchingIds)), Filter(items, NotWatching(watchingIds));
    FilterPartition(items, Watching(watchingIds), NotWatching(watchingIds));
    assert forall j :: |w| <= j < |w + n| ==> !WatchingFilter(watchingIds, (w + n)[j]) by {
      forall j | |w| <= j < |w + n|
        ensures !WatchingFilter(watchingIds, (w + n)[j])
      {
        assert (w + n)[j] == n[j - |w|];
        assert NotWatching(watchingIds)(n[j - |w|]);
      }
    }
    assert forall i :: 0 <= i < |w| ==> WatchingFilter(watchingIds, (w + n)[i]) by {
      forall i | 0 <= i < |w|
        ensures WatchingFilter(watchingIds, (w + n)[i])
      {
        assert (w + n)[i] == w[i];
        assert Watching(watchingIds)(w[i]);
      }
    }
    w + n
  }

  /** Both parts of the hoisted list keep the order they had in the input. */
  lemma HoistKeepsOrder(items: seq<Item>, watchingIds: seq<string>)
    ensures var r, k := HoistWatchingItems(items, watchingIds), |Filter(items, Watching(watchingIds))|;
      k <= |r| && IsSubsequence(r[..k], items) && IsSubsequence(r[k..], items)
  {
    var w, n := Filter(items, Watching(watchingIds)), Filter(items, NotWatching(watchingIds));
    FilterIsSubsequence(items, Watching(watchingIds));
    FilterIsSubsequence(items, NotWatching(watchingIds));
    assert (w + n)[..|w|] == w && (w + n)[|w|..] == n;
  }

  /** With nothing watched the list is unchanged. */
  lemma HoistNothingWatched(items: seq<Item>)
    ensures HoistWatchingItems(items, []) == items
  {
    FilterNone(items, Watching([]));
    FilterAll(items, NotWatching([]));
  }

  /** Hoisting twice is hoisting once. */
  lemma HoistIdempotent(items: seq<Item>, watchingIds: seq<string>)
    ensures HoistWatchingItems(HoistWatchingItems(items, watchingIds), watchingIds) == HoistWatchingItems(items, watchingIds)
  {
    var p, q := Watching(watchingIds), NotWatching(watchingIds);
    var w, n := Filter(items, p), Filter(items, q);
    assert HoistWatchingItems(items, watchingIds) == w + n;
    FilterConcat(w, n, p);
    FilterConcat(w, n, q);
    FilterAll(w, p);
    FilterNone(n, p);
    FilterNone(w, q);
    FilterAll(n, q);
    assert w + [] == w && [] + n == n;
  }

  // ------------------------------------------------------- broadcast times

  /** The Japanese and Chinese broadcast texts of a show. */
  datatype BroadcastTimes = BroadcastTimes(jp: string, cn: string)

  /** Site `k` of the show has catalog metadata with a broadcast text. */
  predicate CnBroadcastAt(sites: seq<Site>, siteMeta: map<string, SiteMetaEntry>, k: int) {
    0 <= k < |sites| && sites[k].site in siteMeta && siteMeta[sites[k].site].broadcast != ""
  }

  /**
   * `getBroadcastTimeString`: the show's own broadcast text, and the
   * broadcast text of the first of its sites whose metadata has one ("" when
   * none has).
   */
  method GetBroadcastTimeString(item: Item, siteMeta: map<string, SiteMetaEntry>) returns (r: BroadcastTimes)
    ensures r.jp == item.broadcast
    ensures r.cn != "" <==> exists k :: CnBroadcastAt(item.sites, siteMeta, k)
    ensures forall k :: (CnBroadcastAt(item.sites, siteMeta, k) && (forall j :: 0 <= j < k ==> !CnBroadcastAt(item.sites, siteMeta, j))
      ==> r.cn == siteMeta[item.sites[k].site].broadcast)
  {
    r := BroadcastTimes("", "");
    if item.broadcast != "" {
      r := r.(jp := item.broadcast);
    }
    var i := 0;
    while i < |item.sites|
      invariant 0 <= i <= |item.sites|
      invariant r.jp == item.broadcast && r.cn == ""
      invariant forall j :: 0 <= j < i ==> !CnBroadcastAt(item.sites, siteMeta, j)
    {
      var name := item.sites[i].site;
      if name in siteMeta && siteMeta[name].broadcast != "" {
        r := r.(cn := siteMeta[name].broadcast);
        assert CnBroadcastAt(item.sites, siteMeta, i);
        return;
      }
      i := i + 1;
    }
  }

  // --------------------------------------------------------- season labels

  /** The month texts indexed by quarter in the code (index 0 is ""). */
  const QuarterStartMonths: seq<string> := ["", "1", "4", "7", "10"]

  /** `quarterToMonth`: the first month of quarters 1..4 as text, "" for anything else. */
  function QuarterToMonth(quarter: int): (r: string)
    ensures 1 <= quarter <= 4 ==> r == NatToString(3 * quarter - 2)
    ensures !(1 <= quarter <= 4) ==> r == ""
  {
    assert NatToString(10) == "10";
    if 0 <= quarter < |QuarterStartMonths| then QuarterStartMonths[quarter] else ""
  }

  /** The regular expression `^(\d{4})q(\d)$`. */
  predicate IsSeasonText(s: string) {
    |s| == 6 && AllDigits(s[..4]) && s[4] == 'q' && IsDigit(s[5])
  }

  /** `months[q]` inside a template literal: an index past the table renders as "undefined". */
  function MonthSlot(q: nat): string {
    if q < |QuarterStartMonths| then QuarterStartMonths[q] else "undefined"
  }

  /**
   * `formatSeason`: "YYYY年M月" for a season text, with M the first month of
   * the quarter; other texts come back unchanged. Quarter digit 0 gives an
   * empty month and digits 5..9 give "undefined".
   */
  function FormatSeason(season: string): (r: string)
    ensures !IsSeasonText(season) ==> r == season
    ensures IsSeasonText(season) ==>
      var q := season[5] as int - '0' as int;
      r == season[..4] + "年" + (if q == 0 then "" else if q <= 4 then QuarterToMonth(q) else "undefined") + "月"
  {
    if !IsSeasonText(season) then season
    else season[..4] + "年" + MonthSlot(season[5] as int - '0' as int) + "月"
  }

  /** The server's season text of a quarter (four-digit year) formats as its year and the first month of the quarter. */
  lemma FormatSeasonOfQuarter(year: int, quarter: int)
    requires 0 <= year <= 9999 && 1 <= quarter <= 4
    ensures FormatSeason(YearText(year) + "q" + [DigitChar(quarter)])
      == YearText(year) + "年" + NatToString(3 * quarter - 2) + "月"
  {
    FormatSeasonParts(YearText(year), quarter);
  }

  /** A four-digit year, "q" and a quarter digit 1..4 form a season text that formats as year and month. */
  lemma FormatSeasonParts(y: string, quarter: int)
    requires |y| == 4 && AllDigits(y) && 1 <= quarter <= 4
    ensures FormatSeason(y + "q" + [DigitChar(quarter)]) == y + "年" + NatToString(3 * quarter - 2) + "月"
  {
    var s := y + "q" + [DigitChar(quarter)];
    assert s[..4] == y && s[4] == 'q' && s[5] == DigitChar(quarter);
    assert IsSeasonText(s);
  }
}
