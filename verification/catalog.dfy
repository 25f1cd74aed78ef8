/**
 * The catalog `process` step of `BangumiModel`: every show gets an id
 * derived from its begin month and title, its sites are sorted by name, and
 * the shows are indexed by begin season, by missing end date, and by id; the
 * per-site metadata is grouped by site type.
 *
 * The digest function (MD5 in the service) is the parameter `hash`. Seasons
 * are kept as `Season` values, which the code renders as "YYYYqQ" strings
 * one-to-one.
 */
module Catalog {
  import opened Common
  import opened Types
  import opened Seasons

  // ------------------------------------------------------------------- ids

  /** `moment(...).format('YYYY')`: the year zero-padded to four digits, with a minus sign when negative. */
  function YearText(y: int): (r: string)
    ensures 0 <= y <= 9999 ==> |r| == 4 && AllDigits(r) && DigitsValue(r) == y
  {
    if y < 0 then "-" + PadNat(-y, 4)
    else if y <= 9999 then
      assert Pow10(4) == 10000;
      PadNatExact(y, 4);
      PadNat(y, 4)
    else PadNat(y, 4)
  }

  /** `moment(begin).format('YYYY-MM')`, "Invalid date" for an unparsable date. */
  function YearMonthText(begin: Option<Date>): string {
    match begin
    case None => "Invalid date"
    case Some(d) => YearText(d.year) + "-" + PadNat(d.month, 2)
  }

  /** `generateItemID`: the digest of the begin month text followed by the title. */
  function ItemId(hash: string -> string, item: Item): string {
    hash(YearMonthText(item.begin) + item.title)
  }

  /** `generateItemID` as a function of the show alone, for a fixed digest. */
  function ItemIdOf(hash: string -> string): Item -> string {
    (it: Item) => ItemId(hash, it)
  }

  /** Ten to the power `w`. */
  function Pow10(w: nat): (r: nat)
    ensures r >= 1
  {
    if w == 0 then 1 else 10 * Pow10(w - 1)
  }

  /** The decimal text of a number below `10^w` has at most `w` digits, and reads back as the number. */
  lemma {:induction false} NatToStringBounds(n: nat, w: nat)
    requires 1 <= w && n < Pow10(w)
    ensures |NatToString(n)| <= w
    ensures DigitsValue(NatToString(n)) == n
    decreases w
  {
    var s := NatToString(n);
    if n < 10 {
      assert s[..|s| - 1] == [];
    } else {
      assert w >= 2;
      NatToStringBounds(n / 10, w - 1);
      assert s[..|s| - 1] == NatToString(n / 10);
    }
  }

  /** Leading zeros do not change the value of a digit string. */
  lemma {:induction false} LeadingZeros(z: nat, t: string)
    requires AllDigits(t)
    ensures AllDigits(seq(z, _ => '0') + t)
    ensures DigitsValue(seq(z, _ => '0') + t) == DigitsValue(t)
    decreases |t|, z
  {
    var zs := seq(z, _ => '0');
    if |t| > 0 {
      var u := zs + t;
      assert u[..|u| - 1] == zs + t[..|t| - 1];
      LeadingZeros(z, t[..|t| - 1]);
    } else if z > 0 {
      assert zs[..z - 1] == seq(z - 1, _ => '0');
      LeadingZeros(z - 1, t);
      assert zs + t == zs;
      assert seq(z - 1, _ => '0') + t == seq(z - 1, _ => '0');
    }
  }

  /** A number below `10^w` pads to exactly `w` digits that read back as the number. */
  lemma PadNatExact(n: nat, w: nat)
    requires 1 <= w && n < Pow10(w)
    ensures |PadNat(n, w)| == w && DigitsValue(PadNat(n, w)) == n
  {
    NatToStringBounds(n, w);
    var t := NatToString(n);
    if |t| < w {
      LeadingZeros(w - |t|, t);
    }
  }

  /**
   * For four-digit years, the digest input determines the begin month and
   * the title: two shows get different ids unless they share both (or the
   * digest collides).
   */
  lemma IdInputInjective(a: Item, b: Item)
    requires a.begin.Some? && b.begin.Some?
    requires 0 <= a.begin.value.year <= 9999 && 0 <= b.begin.value.year <= 9999
    requires YearMonthText(a.begin) + a.title == YearMonthText(b.begin) + b.title
    ensures a.begin == b.begin && a.title == b.title
  {
    var da, db := a.begin.value, b.begin.value;
    PadNatExact(da.month, 2);
    PadNatExact(db.month, 2);
    var ya, yb := YearText(da.year), YearText(db.year);
    var ma, mb := PadNat(da.month, 2), PadNat(db.month, 2);
    var sa, sb := YearMonthText(a.begin) + a.title, YearMonthText(b.begin) + b.title;
    assert sa == ya + "-" + ma + a.title;
    assert sb == yb + "-" + mb + b.title;
    assert sa[..4] == ya && sb[..4] == yb;
    assert sa[5..7] == ma && sb[5..7] == mb;
    assert sa[7..] == a.title && sb[7..] == b.title;
    assert DigitsValue(ya) == da.year && DigitsValue(yb) == db.year;
  }

  // ------------------------------------------------------------ site order

  /** `siteSortCompare`: -1 when the first site name sorts strictly before the second, else 1 (never 0). */
  function SiteSortCompare(a: Site, b: Site): (r: int)
    ensures r == -1 <==> StrLess(a.site, b.site)
    ensures r == -1 || r == 1
  {
    if StrLess(a.site, b.site) then -1 else 1
  }

  /** The sites are in non-decreasing order of name. */
  predicate SitesSorted(ss: seq<Site>) {
    forall i, j :: 0 <= i < j < |ss| ==> !StrLess(ss[j].site, ss[i].site)
  }

  /** Insert a site into a sorted list, after every site whose name is not greater. */
  function InsertSite(x: Site, ss: seq<Site>): (r: seq<Site>)
    requires SitesSorted(ss)
    ensures SitesSorted(r)
    ensures multiset(r) == multiset(ss) + multiset{x}
    ensures forall i :: 0 <= i < |r| ==> r[i] == x || r[i] in ss
    decreases |ss|
  {
    if |ss| == 0 then [x]
    else if SiteSortCompare(x, ss[0]) < 0 then
      InsertFront(x, ss);
      [x] + ss
    else
      var rest := InsertSite(x, ss[1..]);
      InsertAfterHead(x, ss, rest);
      [ss[0]] + rest
  }

  /** A site named before the head of a sorted list can go in front of it. */
  lemma InsertFront(x: Site, ss: seq<Site>)
    requires SitesSorted(ss) && |ss| > 0 && StrLess(x.site, ss[0].site)
    ensures SitesSorted([x] + ss)
  {
    forall j | 0 <= j < |ss|
      ensures !StrLess(ss[j].site, x.site)
    {
      if StrLess(ss[j].site, x.site) {
        StrLessTransitive(ss[j].site, x.site, ss[0].site);
        StrLessTotal(ss[0].site, ss[j].site);
      }
    }
    var r := [x] + ss;
    forall i, j | 0 <= i < j < |r|
      ensures !StrLess(r[j].site, r[i].site)
    {
      assert r[j] == ss[j - 1];
      if i > 0 {
        assert r[i] == ss[i - 1];
      }
    }
  }

  /** The head of a sorted list, followed by the rest with a not-earlier site inserted, is sorted. */
  lemma InsertAfterHead(x: Site, ss: seq<Site>, rest: seq<Site>)
    requires SitesSorted(ss) && |ss| > 0 && !StrLess(x.site, ss[0].site)
    requires SitesSorted(rest)
    requires multiset(rest) == multiset(ss[1..]) + multiset{x}
    requires forall i :: 0 <= i < |rest| ==> rest[i] == x || rest[i] in ss[1..]
    ensures SitesSorted([ss[0]] + rest)
    ensures multiset([ss[0]] + rest) == multiset(ss) + multiset{x}
    ensures forall i :: 0 <= i < |[ss[0]] + rest| ==> ([ss[0]] + rest)[i] == x || ([ss[0]] + rest)[i] in ss
  {
    assert ss == [ss[0]] + ss[1..];
    var r := [ss[0]] + rest;
    forall i, j | 0 <= i < j < |r|
      ensures !StrLess(r[j].site, r[i].site)
    {
      assert r[j] == rest[j - 1];
      if i > 0 {
        assert r[i] == rest[i - 1];
      } else if rest[j - 1] != x {
        var k :| 1 <= k < |ss| && ss[k] == rest[j - 1];
      }
    }
    forall i | 0 <= i < |r|
      ensures r[i] == x || r[i] in ss
    {
      if i > 0 {
        assert r[i] == rest[i - 1];
      }
    }
  }

  /** `sites.sort(siteSortCompare)`: the same sites, sorted by name. */
  function SortSites(ss: seq<Site>): (r: seq<Site>)
    ensures SitesSorted(r)
    ensures multiset(r) == multiset(ss)
    decreases |ss|
  {
    if |ss| == 0 then []
    else
      assert ss == ss[..|ss| - 1] + [ss[|ss| - 1]];
      InsertSite(ss[|ss| - 1], SortSites(ss[..|ss| - 1]))
  }

  /** In sorted sites every later site compares as "not before" every earlier one. */
  lemma SortedCompare(ss: seq<Site>)
    requires SitesSorted(ss)
    ensures forall i, j :: 0 <= i < j < |ss| ==> SiteSortCompare(ss[j], ss[i]) == 1
  {
  }

  // ----------------------------------------------------------- process

  /** A show as `process` leaves it: its id set and its sites sorted. */
  function ProcessedItem(idOf: Item -> string, item: Item): Item {
    item.(id := Some(idOf(item)), sites := SortSites(item.sites))
  }

  /** Processing sets the id, sorts the sites (the same sites, by name) and changes nothing else. */
  lemma ProcessedItemSpec(idOf: Item -> string, item: Item)
    ensures ProcessedItem(idOf, item).id == Some(idOf(item))
    ensures SitesSorted(ProcessedItem(idOf, item).sites)
    ensures multiset(ProcessedItem(idOf, item).sites) == multiset(item.sites)
    ensures ProcessedItem(idOf, item).(id := item.id, sites := item.sites) == item
  {
  }

  /** Every show processed, in order (the catalog list after `process` has updated each show in place). */
  function ProcessedItems(idOf: Item -> string, items: seq<Item>): seq<Item> {
    seq(|items|, i requires 0 <= i < |items| => ProcessedItem(idOf, items[i]))
  }

  /** The ids of the shows, in order. */
  function IdsOf(idOf: Item -> string, items: seq<Item>): (r: seq<string>)
    ensures |r| == |items|
    ensures forall i :: 0 <= i < |items| ==> r[i] == idOf(items[i])
  {
    seq(|items|, i requires 0 <= i < |items| => idOf(items[i]))
  }

  /** The test "the show has no (or an empty) end date". */
  function NoEndDate(): Item -> bool {
    (it: Item) => it.end == ""
  }

  /** The begin season of a show. */
  function ItemSeason(): Item -> Season {
    (it: Item) => SeasonOf(it.begin)
  }

  /** The distinct begin seasons of the shows, in order of first appearance (a `Set`'s insertion order). */
  function SeasonOrder(items: seq<Item>): seq<Season> {
    KeyOrder(items, ItemSeason())
  }

  /** `siteMap`: the site metadata grouped by site type, each site under its own type only. */
  function SiteMap(meta: map<string, SiteMetaEntry>): (r: map<SiteType, map<string, SiteMetaEntry>>)
    ensures forall t :: t in r <==> exists n :: n in meta && meta[n].siteType == t
    ensures forall t, n :: t in r ==> (n in r[t] <==> n in meta && meta[n].siteType == t)
    ensures forall t, n :: t in r && n in r[t] ==> r[t][n] == meta[n]
  {
    var types := set n | n in meta :: meta[n].siteType;
    map t | t in types :: map n | n in meta && meta[n].siteType == t :: meta[n]
  }

  /** Every site of the metadata is listed, under exactly one type. */
  lemma SiteMapPartition(meta: map<string, SiteMetaEntry>)
    ensures forall n :: n in meta ==> meta[n].siteType in SiteMap(meta) && n in SiteMap(meta)[meta[n].siteType]
    ensures forall t1, t2, n :: t1 in SiteMap(meta) && t2 in SiteMap(meta) && n in SiteMap(meta)[t1] && n in SiteMap(meta)[t2] ==> t1 == t2
  {
  }

  /** The per-season id lists: a list per season that occurs, each show's id appended to its season's list in order. */
  function SeasonIdLists(idOf: Item -> string, items: seq<Item>): map<Season, seq<string>>
    decreases |items|
  {
    if |items| == 0 then map[]
    else
      var n := |items| - 1;
      var m := SeasonIdLists(idOf, items[..n]);
      var k := SeasonOf(items[n].begin);
      var ids := if k in m then m[k] else [];
      m[k := ids + [idOf(items[n])]]
  }

  /** Each season that occurs has a list, holding the ids of that season's shows in catalog order. */
  lemma {:induction false} SeasonIdListsSpec(idOf: Item -> string, items: seq<Item>)
    ensures forall s :: s in SeasonIdLists(idOf, items) <==> s in SeasonOrder(items)
    ensures forall s :: s in SeasonIdLists(idOf, items) ==> SeasonIdLists(idOf, items)[s] == IdsOf(idOf, Filter(items, InSeason(s)))
    decreases |items|
  {
    if |items| > 0 {
      var n := |items| - 1;
      SeasonIdListsSpec(idOf, items[..n]);
      SeasonIdListsStep(idOf, items, items[..n], SeasonIdLists(idOf, items[..n]), SeasonIdLists(idOf, items));
    }
  }

  /** The inductive step of `SeasonIdListsSpec`: adding the last show to its season's list. */
  lemma SeasonIdListsStep(idOf: Item -> string, items: seq<Item>, init: seq<Item>, m: map<Season, seq<string>>, r: map<Season, seq<string>>)
    requires |items| > 0 && init == items[..|items| - 1]
    requires forall s :: s in m <==> s in SeasonOrder(init)
    requires forall s :: s in m ==> m[s] == IdsOf(idOf, Filter(init, InSeason(s)))
    requires var k := SeasonOf(items[|items| - 1].begin);
      r == m[k := (if k in m then m[k] else []) + [idOf(items[|items| - 1])]]
    ensures forall s :: s in r <==> s in SeasonOrder(items)
    ensures forall s :: s in r ==> r[s] == IdsOf(idOf, Filter(items, InSeason(s)))
  {
    var k := SeasonOf(items[|items| - 1].begin);
    KeyOrderLast(items, ItemSeason());
    forall s | s in r
      ensures r[s] == IdsOf(idOf, Filter(items, InSeason(s)))
    {
      if s == k {
        SeasonIdListsNew(idOf, items, m);
      } else {
        FilterLast(items, InSeason(s));
        assert r[s] == m[s];
      }
    }
  }

  /** The season of the last show gets the show's id appended to its list, or a new list holding just that id. */
  lemma SeasonIdListsNew(idOf: Item -> string, items: seq<Item>, m: map<Season, seq<string>>)
    requires |items| > 0
    requires forall s :: s in m <==> s in SeasonOrder(items[..|items| - 1])
    requires forall s :: s in m ==> m[s] == IdsOf(idOf, Filter(items[..|items| - 1], InSeason(s)))
    ensures var k := SeasonOf(items[|items| - 1].begin);
      (if k in m then m[k] else []) + [idOf(items[|items| - 1])] == IdsOf(idOf, Filter(items, InSeason(k)))
  {
    var n := |items| - 1;
    var init := items[..n];
    var k := SeasonOf(items[n].begin);
    assert Filter(items, InSeason(k)) == Filter(init, InSeason(k)) + [items[n]];
    IdsOfSnoc(idOf, Filter(init, InSeason(k)), items[n]);
    if k !in m {
      forall i | 0 <= i < |init|
        ensures !InSeason(k)(init[i])
      {
        KeyOrderCovers(init, ItemSeason(), i);
      }
      FilterNone(init, InSeason(k));
    }
  }

  /** Show `k` is the last one in `items` with the given id. */
  predicate LastWithId(idOf: Item -> string, items: seq<Item>, k: int, id: string) {
    && 0 <= k < |items|
    && idOf(items[k]) == id
    && forall j :: k < j < |items| ==> idOf(items[j]) != id
  }

  /** The id index: each show, processed, stored under its id; a later show with the same id replaces an earlier one. */
  function Entities(idOf: Item -> string, items: seq<Item>): map<string, Item>
    decreases |items|
  {
    if |items| == 0 then map[]
    else
      var n := |items| - 1;
      Entities(idOf, items[..n])[idOf(items[n]) := ProcessedItem(idOf, items[n])]
  }

  /** Every show's id is a key of the id index, holding the last show with that id. */
  lemma {:induction false} EntitiesSpec(idOf: Item -> string, items: seq<Item>)
    ensures forall k :: 0 <= k < |items| ==> idOf(items[k]) in Entities(idOf, items)
    ensures forall id :: id in Entities(idOf, items) ==>
      exists k :: LastWithId(idOf, items, k, id) && Entities(idOf, items)[id] == ProcessedItem(idOf, items[k])
    decreases |items|
  {
    if |items| > 0 {
      var n := |items| - 1;
      EntitiesSpec(idOf, items[..n]);
      EntitiesStep(idOf, items, items[..n], Entities(idOf, items[..n]), Entities(idOf, items));
    }
  }

  /** The inductive step of `Entities`: the last show's id now maps to it. */
  lemma EntitiesStep(idOf: Item -> string, items: seq<Item>, init: seq<Item>, m: map<string, Item>, r: map<string, Item>)
    requires |items| > 0 && init == items[..|items| - 1]
    requires forall k :: 0 <= k < |init| ==> idOf(init[k]) in m
    requires forall id :: id in m ==> exists k :: LastWithId(idOf, init, k, id) && m[id] == ProcessedItem(idOf, init[k])
    requires r == m[idOf(items[|items| - 1]) := ProcessedItem(idOf, items[|items| - 1])]
    ensures forall k :: 0 <= k < |items| ==> idOf(items[k]) in r
    ensures forall id :: id in r ==> exists k :: LastWithId(idOf, items, k, id) && r[id] == ProcessedItem(idOf, items[k])
  {
    var n := |items| - 1;
    var id := idOf(items[n]);
    assert forall k :: 0 <= k < |items| ==> idOf(items[k]) in r by {
      forall k | 0 <= k < |items|
        ensures idOf(items[k]) in r
      {
        if k < n {
          assert init[k] == items[k];
        }
      }
    }
    forall other | other in r
      ensures exists k :: LastWithId(idOf, items, k, other) && r[other] == ProcessedItem(idOf, items[k])
    {
      if other == id {
        assert LastWithId(idOf, items, n, other);
      } else {
        var k :| LastWithId(idOf, init, k, other) && m[other] == ProcessedItem(idOf, init[k]);
        LastWithIdExtend(idOf, items, k, other);
      }
    }
  }

  /** The last show with an id stays the last one when a show with another id is appended. */
  lemma LastWithIdExtend(idOf: Item -> string, items: seq<Item>, k: int, id: string)
    requires |items| > 0
    requires LastWithId(idOf, items[..|items| - 1], k, id) && idOf(items[|items| - 1]) != id
    ensures LastWithId(idOf, items, k, id) && items[..|items| - 1][k] == items[k]
  {
    assert forall j :: k < j < |items| - 1 ==> items[..|items| - 1][j] == items[j];
  }

  /** The indexes `process` builds. */
  datatype Catalog = Catalog(
    items: seq<Item>,
    seasons: seq<Season>,
    seasonIds: map<Season, seq<string>>,
    noEndDateIds: seq<string>,
    itemEntities: map<string, Item>,
    siteMap: map<SiteType, map<string, SiteMetaEntry>>)

  /**
   * `process`: one pass over the shows in order; a later show with the same
   * id replaces an earlier one in the id index.
   */
  method Process(hash: string -> string, items: seq<Item>, siteMeta: map<string, SiteMetaEntry>) returns (c: Catalog)
    ensures |c.items| == |items|
    ensures forall i :: 0 <= i < |items| ==> c.items[i] == ProcessedItem(ItemIdOf(hash), items[i])
    ensures c.seasons == SeasonOrder(items)
    ensures c.seasonIds == SeasonIdLists(ItemIdOf(hash), items)
    ensures c.noEndDateIds == IdsOf(ItemIdOf(hash), Filter(items, NoEndDate()))
    ensures c.itemEntities == Entities(ItemIdOf(hash), items)
    ensures c.siteMap == SiteMap(siteMeta)
  {
    c := BuildCatalog(ItemIdOf(hash), items, siteMeta);
  }

  /** The loop of `process`, for any id function. */
  method BuildCatalog(idOf: Item -> string, items: seq<Item>, siteMeta: map<string, SiteMetaEntry>) returns (c: Catalog)
    ensures |c.items| == |items|
    ensures forall i :: 0 <= i < |items| ==> c.items[i] == ProcessedItem(idOf, items[i])
    ensures c.seasons == SeasonOrder(items)
    ensures c.seasonIds == SeasonIdLists(idOf, items)
    ensures c.noEndDateIds == IdsOf(idOf, Filter(items, NoEndDate()))
    ensures c.itemEntities == Entities(idOf, items)
    ensures c.siteMap == SiteMap(siteMeta)
  {
    var out: seq<Item> := [];
    var seasons: seq<Season> := [];
    var seasonIds: map<Season, seq<string>> := map[];
    var noEnd: seq<string> := [];
    var entities: map<string, Item> := map[];
    var i := 0;
    while i < |items|
      invariant 0 <= i <= |items|
      invariant out == ProcessedItems(idOf, items[..i])
      invariant seasons == SeasonOrder(items[..i])
      invariant seasonIds == SeasonIdLists(idOf, items[..i])
      invariant noEnd == IdsOf(idOf, Filter(items[..i], NoEndDate()))
      invariant entities == Entities(idOf, items[..i])
    {
      out, seasons, seasonIds, noEnd, entities := ProcessStep(idOf, items, i, out, seasons, seasonIds, noEnd, entities);
      i := i + 1;
    }
    assert items[..i] == items;
    c := Catalog(out, seasons, seasonIds, noEnd, entities, SiteMap(siteMeta));
  }

  /** One pass of the loop of `process`: show `i` added to every index built so far. */
  method ProcessStep(idOf: Item -> string, items: seq<Item>, i: nat, out: seq<Item>, seasons: seq<Season>,
                     seasonIds: map<Season, seq<string>>, noEnd: seq<string>, entities: map<string, Item>)
    returns (out': seq<Item>, seasons': seq<Season>, seasonIds': map<Season, seq<string>>, noEnd': seq<string>, entities': map<string, Item>)
    requires i < |items|
    requires out == ProcessedItems(idOf, items[..i])
    requires seasons == SeasonOrder(items[..i])
    requires seasonIds == SeasonIdLists(idOf, items[..i])
    requires noEnd == IdsOf(idOf, Filter(items[..i], NoEndDate()))
    requires entities == Entities(idOf, items[..i])
    ensures out' == ProcessedItems(idOf, items[..i + 1])
    ensures seasons' == SeasonOrder(items[..i + 1])
    ensures seasonIds' == SeasonIdLists(idOf, items[..i + 1])
    ensures noEnd' == IdsOf(idOf, Filter(items[..i + 1], NoEndDate()))
    ensures entities' == Entities(idOf, items[..i + 1])
  {
    var item := items[i];
    var season := SeasonOf(item.begin);
    var id := idOf(item);
    ProcessUnfold(idOf, items, i);
    seasons' := seasons;
    if season !in seasons {
      seasons' := seasons + [season];
    }
    var ids := if season in seasonIds then seasonIds[season] else [];
    noEnd' := noEnd;
    if item.end == "" {
      noEnd' := noEnd + [id];
    }
    seasonIds' := seasonIds[season := ids + [id]];
    var processed := ProcessedItem(idOf, item);
    entities' := entities[id := processed];
    out' := out + [processed];
  }

  /** How each index `process` builds grows by one show. */
  lemma ProcessUnfold(idOf: Item -> string, items: seq<Item>, i: nat)
    requires i < |items|
    ensures var x, k, pre, init := items[i], SeasonOf(items[i].begin), items[..i + 1], items[..i];
      && ProcessedItems(idOf, pre) == ProcessedItems(idOf, init) + [ProcessedItem(idOf, x)]
      && SeasonOrder(pre) == (if k in SeasonOrder(init) then SeasonOrder(init) else SeasonOrder(init) + [k])
      && SeasonIdLists(idOf, pre) == SeasonIdLists(idOf, init)[k := (if k in SeasonIdLists(idOf, init) then SeasonIdLists(idOf, init)[k] else []) + [idOf(x)]]
      && Entities(idOf, pre) == Entities(idOf, init)[idOf(x) := ProcessedItem(idOf, x)]
      && IdsOf(idOf, Filter(pre, NoEndDate())) == IdsOf(idOf, Filter(init, NoEndDate())) + (if x.end == "" then [idOf(x)] else [])
  {
    var pre := items[..i + 1];
    assert pre[..i] == items[..i] && pre[i] == items[i];
    KeyOrderLast(pre, ItemSeason());
    ProcessedItemsSnoc(idOf, pre);
    NoEndSnoc(idOf, pre);
  }

  /** The processed list of a non-empty list is that of its front plus the last show processed. */
  lemma ProcessedItemsSnoc(idOf: Item -> string, xs: seq<Item>)
    requires |xs| > 0
    ensures ProcessedItems(idOf, xs) == ProcessedItems(idOf, xs[..|xs| - 1]) + [ProcessedItem(idOf, xs[|xs| - 1])]
  {
  }

  /** The no-end-date ids of a non-empty list are those of its front, plus the last show's when it has no end date. */
  lemma NoEndSnoc(idOf: Item -> string, xs: seq<Item>)
    requires |xs| > 0
    ensures var x := xs[|xs| - 1];
      IdsOf(idOf, Filter(xs, NoEndDate())) == IdsOf(idOf, Filter(xs[..|xs| - 1], NoEndDate())) + (if x.end == "" then [idOf(x)] else [])
  {
    FilterLast(xs, NoEndDate());
    IdsOfSnoc(idOf, Filter(xs[..|xs| - 1], NoEndDate()), xs[|xs| - 1]);
  }

  /** The ids of a list with one more show are the old ids and that show's. */
  lemma IdsOfSnoc(idOf: Item -> string, xs: seq<Item>, x: Item)
    ensures IdsOf(idOf, xs + [x]) == IdsOf(idOf, xs) + [idOf(x)]
  {
  }
}
