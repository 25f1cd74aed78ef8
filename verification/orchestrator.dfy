/**
 * The refresh orchestrator and retry engine of `BangumiModel`: provider keys
 * of a show, the guarded refresh pass over the working set, the failed-item
 * list and its retry pass, the per-show manual refresh, the read-only
 * overlay of cached values onto shows, and the cache status reports.
 *
 * Every provider call is an oracle outcome (`Fetch`: a value, no value, or a
 * thrown error) and every call made is logged, so "no fetch happened" can be
 * stated. The retry timer is the flag `retryPending`; sleeps are left out.
 * Shows of one chunk, which the service fetches concurrently, are processed
 * one after the other.
 */
module Orchestrator {
  import opened Common
  import opened Types
  import opened Cache
  import opened Seasons
  import Adapters

  // -------------------------------------------------------------- site keys

  /** Site `i` is the first site of `sites` with the given name (`sites.find(s => s.site === name)`). */
  predicate IsFirstSite(sites: seq<Site>, name: string, i: int) {
    && 0 <= i < |sites|
    && sites[i].site == name
    && forall j :: 0 <= j < i ==> sites[j].site != name
  }

  /** The index of the first site with the given name. */
  function FindSite(sites: seq<Site>, name: string): (r: Option<nat>)
    ensures r.Some? ==> IsFirstSite(sites, name, r.value)
    ensures r.None? ==> forall i :: 0 <= i < |sites| ==> sites[i].site != name
    decreases |sites|
  {
    if |sites| == 0 then None
    else if sites[0].site == name then Some(0)
    else
      match FindSite(sites[1..], name)
      case None => None
      case Some(i) =>
        assert forall j :: 1 <= j < i + 1 ==> sites[j] == sites[1..][j - 1];
        Some(i + 1)
  }

  /** `find(...)?.id || null`: the id of the first site with the given name, when that id is non-empty. */
  function SiteId(item: Item, name: string): (r: Option<string>)
    ensures r.Some? <==> exists i :: IsFirstSite(item.sites, name, i) && item.sites[i].id != ""
    ensures r.Some? ==> exists i :: IsFirstSite(item.sites, name, i) && r.value == item.sites[i].id && r.value != ""
  {
    match FindSite(item.sites, name)
    case None => None
    case Some(i) =>
      assert forall k :: IsFirstSite(item.sites, name, k) ==> k == i;
      if item.sites[i].id != "" then Some(item.sites[i].id) else None
  }

  /** `getBangumiSubjectId`: the image key of a show. */
  function GetBangumiSubjectId(item: Item): Option<string> {
    SiteId(item, "bangumi")
  }

  /** `getBilibiliMediaId`: the preview-video key of a show. */
  function GetBilibiliMediaId(item: Item): Option<string> {
    SiteId(item, "bilibili")
  }

  /** `getMikanId`. */
  function GetMikanId(item: Item): Option<string> {
    SiteId(item, "mikan")
  }

  /** `getMikanRssId`: the feed key of a show, which is the mikan id itself. */
  function GetMikanRssId(item: Item): Option<string> {
    GetMikanId(item)
  }

  // ------------------------------------------------------ provider outcomes

  /** The outcome of one provider call: a value, no value (`null`/`undefined`), or a thrown error. */
  datatype Fetch<T> = Value(v: T) | NoValue | Throws

  /** What each provider call would answer during one pass. */
  datatype Oracle = Oracle(
    image: string -> Fetch<string>,
    seasonId: string -> Fetch<int>,
    pvBvid: int -> Fetch<string>,
    rss: string -> Fetch<RssContent>)

  /** A provider call that was made. */
  datatype Call = ImageCall(subjectId: string) | SeasonIdCall(mediaId: string) | PvBvidCall(seasonId: int) | RssCall(rssId: string)

  /** An adapter answer lifted to an outcome: `null` is no value. */
  function FromOption<T>(o: Option<T>): (r: Fetch<T>)
    ensures !r.Throws?
    ensures o.Some? <==> r.Value?
  {
    match o
    case Some(v) => Value(v)
    case None => NoValue
  }

  /** The decoded answers of the providers' endpoints, and the feed adapter's results. */
  datatype Responses = Responses(
    image: string -> Adapters.Http<Adapters.ImageResponse>,
    media: string -> Adapters.Http<Adapters.MediaResponse>,
    season: int -> Adapters.Http<Adapters.SeasonResponse>,
    feed: string -> Option<RssContent>)

  /** The oracle the real adapters make of the endpoints' answers. */
  function AdapterOracle(r: Responses): Oracle {
    Oracle(
      k => FromOption(Adapters.FetchImage(r.image(k))),
      k => FromOption(Adapters.FetchSeasonId(r.media(k))),
      sid => FromOption(Adapters.FetchPvBvid(r.season(sid))),
      k => FromOption(r.feed(k)))
  }

  /** No provider call of the oracle throws. */
  ghost predicate NeverThrows(o: Oracle) {
    && (forall k :: !o.image(k).Throws?)
    && (forall k :: !o.seasonId(k).Throws?)
    && (forall sid :: !o.pvBvid(sid).Throws?)
    && (forall k :: !o.rss(k).Throws?)
  }

  /** The adapters swallow every error, so the orchestrator never sees a thrown one, nor the no-cover url. */
  lemma AdaptersNeverThrow(r: Responses)
    ensures NeverThrows(AdapterOracle(r))
    ensures forall k :: AdapterOracle(r).image(k) != Value(NoIconUrl)
  {
    var o := AdapterOracle(r);
    forall k
      ensures !o.image(k).Throws? && o.image(k) != Value(NoIconUrl)
    {
      var a := Adapters.FetchImage(r.image(k));
      assert o.image(k) == FromOption(a);
    }
    forall k
      ensures !o.seasonId(k).Throws?
    {
      assert o.seasonId(k) == FromOption(Adapters.FetchSeasonId(r.media(k)));
    }
    forall sid
      ensures !o.pvBvid(sid).Throws?
    {
      assert o.pvBvid(sid) == FromOption(Adapters.FetchPvBvid(r.season(sid)));
    }
    forall k
      ensures !o.rss(k).Throws?
    {
      assert o.rss(k) == FromOption(r.feed(k));
    }
  }

  // -------------------------------------------------- fetch-and-store steps

  /** The effect of one provider step: the store after it, whether it threw, and the calls it made. */
  datatype Step = Step(store: Store, threw: bool, calls: seq<Call>)

  /** `fetchBangumiImage`: fetch the cover; store it unless it is the no-cover url, a `null` becoming a negative entry. */
  function FetchBangumiImage(s: Store, now: int, subjectId: string, o: Oracle): (p: Step)
    ensures p.calls == [ImageCall(subjectId)]
    ensures p.store.pvBvid == s.pvBvid && p.store.rss == s.rss
    ensures p.threw <==> o.image(subjectId).Throws?
    ensures o.image(subjectId).Throws? || o.image(subjectId) == Value(NoIconUrl) ==> p.store == s
    ensures o.image(subjectId).NoValue? ==> p.store.image == s.image[subjectId := Entry(NoIconUrl, now, true)]
    ensures o.image(subjectId).Value? && o.image(subjectId).v != NoIconUrl
      ==> p.store.image == s.image[subjectId := Entry(o.image(subjectId).v, now, false)]
  {
    match o.image(subjectId)
    case Throws => Step(s, true, [ImageCall(subjectId)])
    case NoValue => Step(SetImageCache(s, now, subjectId, None), false, [ImageCall(subjectId)])
    case Value(url) =>
      if url == NoIconUrl then Step(s, false, [ImageCall(subjectId)])
      else Step(SetImageCache(s, now, subjectId, Some(url)), false, [ImageCall(subjectId)])
  }

  /**
   * `fetchPvBvid` (the model's wrapper): resolve the season id, then the PV
   * bvid; store only when both are truthy. A `null` at either step stores
   * nothing, so no negative preview entry is ever written here.
   */
  function FetchPvBvid(s: Store, now: int, mediaId: string, o: Oracle): (p: Step)
    ensures p.store.image == s.image && p.store.rss == s.rss
    ensures |p.calls| >= 1 && p.calls[0] == SeasonIdCall(mediaId)
    ensures p.store != s ==> exists sid :: (sid != 0 && o.seasonId(mediaId) == Value(sid)
      && o.pvBvid(sid).Value? && o.pvBvid(sid).v != ""
      && p.store == SetPvBvidCache(s, now, mediaId, Some(o.pvBvid(sid).v)))
    ensures (o.seasonId(mediaId).Value? && o.seasonId(mediaId).v != 0
      && o.pvBvid(o.seasonId(mediaId).v).Value? && o.pvBvid(o.seasonId(mediaId).v).v != "")
      ==> p.store == SetPvBvidCache(s, now, mediaId, Some(o.pvBvid(o.seasonId(mediaId).v).v)) && !p.threw
    ensures p.threw <==> (o.seasonId(mediaId).Throws?
      || (o.seasonId(mediaId).Value? && o.seasonId(mediaId).v != 0 && o.pvBvid(o.seasonId(mediaId).v).Throws?))
    ensures forall m :: m in p.store.pvBvid && !(m in s.pvBvid && p.store.pvBvid[m] == s.pvBvid[m]) ==> !p.store.pvBvid[m].isEmpty
    ensures p.threw ==> p.store == s
  {
    match o.seasonId(mediaId)
    case Throws => Step(s, true, [SeasonIdCall(mediaId)])
    case NoValue => Step(s, false, [SeasonIdCall(mediaId)])
    case Value(sid) =>
      if sid == 0 then Step(s, false, [SeasonIdCall(mediaId)])
      else
        var calls := [SeasonIdCall(mediaId), PvBvidCall(sid)];
        match o.pvBvid(sid)
        case Throws => Step(s, true, calls)
        case NoValue => Step(s, false, calls)
        case Value(bvid) =>
          if bvid == "" then Step(s, false, calls)
          else Step(SetPvBvidCache(s, now, mediaId, Some(bvid)), false, calls)
  }

  /** `fetchRssContent`: store the feed when the adapter returns one; nothing is stored otherwise. */
  function FetchRssContent(s: Store, now: int, rssId: string, o: Oracle): (p: Step)
    ensures p.calls == [RssCall(rssId)]
    ensures p.store.image == s.image && p.store.pvBvid == s.pvBvid
    ensures p.threw <==> o.rss(rssId).Throws?
    ensures o.rss(rssId).Value? ==> p.store == SetRssCache(s, now, rssId, Some(o.rss(rssId).v))
    ensures !o.rss(rssId).Value? ==> p.store == s
  {
    match o.rss(rssId)
    case Throws => Step(s, true, [RssCall(rssId)])
    case NoValue => Step(s, false, [RssCall(rssId)])
    case Value(content) => Step(SetRssCache(s, now, rssId, Some(content)), false, [RssCall(rssId)])
  }

  /** The refresh pass's image step: skip a show without a key or with a fresh entry (negative or not), else fetch and store. */
  function RefreshImage(s: Store, now: int, item: Item, o: Oracle): (p: Step)
    ensures p.store.pvBvid == s.pvBvid && p.store.rss == s.rss
    ensures GetBangumiSubjectId(item).None? ==> p == Step(s, false, [])
    ensures GetBangumiSubjectId(item).Some? ==>
      var k := GetBangumiSubjectId(item).value;
      && (ShouldSkipRefresh(now, Get(s.image, k), false) ==> p == Step(s, false, []))
      && (!ShouldSkipRefresh(now, Get(s.image, k), false) ==> p.calls == [ImageCall(k)] && (p.threw <==> o.image(k).Throws?))
      && (forall j :: j != k ==> Get(p.store.image, j) == Get(s.image, j))
      && (!p.threw && o.image(k) != Value(NoIconUrl) ==> ShouldSkipRefresh(now, Get(p.store.image, k), false))
  {
    match GetBangumiSubjectId(item)
    case None => Step(s, false, [])
    case Some(k) => if ShouldSkipRefresh(now, Get(s.image, k), false) then Step(s, false, []) else FetchBangumiImage(s, now, k, o)
  }

  /** The refresh pass's preview step: skip without a key or with a fresh entry, else fetch and store. */
  function RefreshPv(s: Store, now: int, item: Item, o: Oracle): (p: Step)
    ensures p.store.image == s.image && p.store.rss == s.rss
    ensures GetBilibiliMediaId(item).None? ==> p == Step(s, false, [])
    ensures GetBilibiliMediaId(item).Some? ==>
      var k := GetBilibiliMediaId(item).value;
      && (ShouldSkipRefresh(now, Get(s.pvBvid, k), false) ==> p == Step(s, false, []))
      && (!ShouldSkipRefresh(now, Get(s.pvBvid, k), false) ==> |p.calls| >= 1 && p.calls[0] == SeasonIdCall(k))
      && (p.store != s ==> ShouldSkipRefresh(now, Get(p.store.pvBvid, k), false) && !p.store.pvBvid[k].isEmpty)
  {
    match GetBilibiliMediaId(item)
    case None => Step(s, false, [])
    case Some(k) => if ShouldSkipRefresh(now, Get(s.pvBvid, k), false) then Step(s, false, []) else FetchPvBvid(s, now, k, o)
  }

  /** The refresh pass's feed step (feed time-to-live): skip without a key or with a fresh entry, else fetch and store. */
  function RefreshRss(s: Store, now: int, item: Item, o: Oracle): (p: Step)
    ensures p.store.image == s.image && p.store.pvBvid == s.pvBvid
    ensures GetMikanId(item).None? ==> p == Step(s, false, [])
    ensures GetMikanId(item).Some? ==>
      var k := GetMikanId(item).value;
      && (ShouldSkipRefresh(now, Get(s.rss, k), true) ==> p == Step(s, false, []))
      && (!ShouldSkipRefresh(now, Get(s.rss, k), true) ==> p.calls == [RssCall(k)] && (p.threw <==> o.rss(k).Throws?))
      && (!p.threw && o.rss(k).Value? ==> ShouldSkipRefresh(now, Get(p.store.rss, k), true))
  {
    match GetMikanId(item)
    case None => Step(s, false, [])
    case Some(k) => if ShouldSkipRefresh(now, Get(s.rss, k), true) then Step(s, false, []) else FetchRssContent(s, now, k, o)
  }

  // ---------------------------------------------------------- failed items

  /** The provider a failed item is retried against. */
  datatype Kind = ImageKind | PvKind | RssKind

  /** A recorded failure (`FailedItem`). */
  datatype FailedItem = FailedItem(
    id: string,
    kind: Kind,
    subjectId: Option<string>,
    mediaId: Option<string>,
    rssId: Option<string>,
    retryCount: int,
    lastRetryTime: int)

  /** The failure the refresh pass records for a show: always typed image, with every key the show has. */
  function FailedOf(item: Item, now: int): (f: FailedItem)
    ensures f.kind == ImageKind && f.retryCount == 0 && f.lastRetryTime == now
    ensures f.id == item.id.GetOr("")
    ensures f.subjectId == GetBangumiSubjectId(item) && f.mediaId == GetBilibiliMediaId(item) && f.rssId == GetMikanId(item)
  {
    FailedItem(item.id.GetOr(""), ImageKind, GetBangumiSubjectId(item), GetBilibiliMediaId(item), GetMikanId(item), 0, now)
  }

  // ------------------------------------------------------------ refresh pass

  /** The running state of a refresh pass: the store, the failures so far, and the calls made. */
  datatype PassState = PassState(store: Store, failed: seq<FailedItem>, calls: seq<Call>)

  /**
   * The provider steps of one show: image, then preview, then feed. A thrown
   * error ends the sequence (later steps are not run); what earlier steps
   * stored stays.
   */
  function ItemSteps(s: Store, now: int, item: Item, o: Oracle): (p: Step)
    ensures p.store.image == RefreshImage(s, now, item, o).store.image
    ensures RefreshImage(s, now, item, o).threw ==>
      p.threw && p.store == s && forall c :: c in p.calls ==> c.ImageCall?
    ensures !RefreshImage(s, now, item, o).threw && RefreshPv(RefreshImage(s, now, item, o).store, now, item, o).threw ==>
      p.threw && p.store == RefreshImage(s, now, item, o).store && forall c :: c in p.calls ==> !c.RssCall?
  {
    var a := RefreshImage(s, now, item, o);
    if a.threw then a
    else
      var b := RefreshPv(a.store, now, item, o);
      if b.threw then Step(b.store, true, a.calls + b.calls)
      else
        var c := RefreshRss(b.store, now, item, o);
        Step(c.store, c.threw, a.calls + b.calls + c.calls)
  }

  /** One show of a refresh pass: its provider steps, and a recorded failure when one of them threw. */
  function ProcessItem(ps: PassState, now: int, item: Item, o: Oracle): (r: PassState)
    ensures r.failed == ps.failed || r.failed == ps.failed + [FailedOf(item, now)]
    ensures ItemSteps(ps.store, now, item, o).threw <==> r.failed == ps.failed + [FailedOf(item, now)]
    ensures |r.calls| >= |ps.calls| && r.calls[..|ps.calls|] == ps.calls
  {
    var p := ItemSteps(ps.store, now, item, o);
    PassState(p.store, if p.threw then ps.failed + [FailedOf(item, now)] else ps.failed, ps.calls + p.calls)
  }

  /** The shows processed one after another. */
  function ProcessItems(ps: PassState, now: int, items: seq<Item>, o: Oracle): (r: PassState)
    ensures |ps.failed| <= |r.failed| <= |ps.failed| + |items|
    ensures r.failed[..|ps.failed|] == ps.failed
    decreases |items|
  {
    if |items| == 0 then ps
    else
      var next := ProcessItem(ps, now, items[0], o);
      var r := ProcessItems(next, now, items[1..], o);
      assert r.failed[..|ps.failed|] == ps.failed by {
        assert r.failed[..|next.failed|] == next.failed;
        assert next.failed[..|ps.failed|] == ps.failed;
      }
      r
  }

  /** `f` is the failure record of one of the shows. */
  predicate FailureOfSome(f: FailedItem, items: seq<Item>, now: int) {
    exists j :: 0 <= j < |items| && f == FailedOf(items[j], now)
  }

  /** Every failure a pass adds is the failure record of one of its shows. */
  lemma {:induction false} PassFailuresFromItems(ps: PassState, now: int, items: seq<Item>, o: Oracle)
    ensures forall i :: |ps.failed| <= i < |ProcessItems(ps, now, items, o).failed| ==>
      FailureOfSome(ProcessItems(ps, now, items, o).failed[i], items, now)
    decreases |items|
  {
    if |items| > 0 {
      var next := ProcessItem(ps, now, items[0], o);
      var r := ProcessItems(next, now, items[1..], o);
      assert r == ProcessItems(ps, now, items, o);
      PassFailuresFromItems(next, now, items[1..], o);
      assert r.failed[..|next.failed|] == next.failed;
      forall i | |ps.failed| <= i < |r.failed|
        ensures FailureOfSome(r.failed[i], items, now)
      {
        if i < |next.failed| {
          assert r.failed[i] == next.failed[i] == FailedOf(items[0], now);
        } else {
          assert FailureOfSome(r.failed[i], items[1..], now);
          var j :| 0 <= j < |items[1..]| && r.failed[i] == FailedOf(items[1..][j], now);
          assert items[1..][j] == items[j + 1];
        }
      }
    }
  }

  /** The store a pass has reached when it comes to show `k`. */
  function StoreBefore(ps: PassState, now: int, items: seq<Item>, o: Oracle, k: nat): Store
    requires k <= |items|
  {
    ProcessItems(ps, now, items[..k], o).store
  }

  /** For each show, whether its steps threw, run against the store the pass had reached by then. */
  function ThrowFlags(ps: PassState, now: int, items: seq<Item>, o: Oracle): (f: seq<bool>)
    ensures |f| == |items|
  {
    seq(|items|, k requires 0 <= k < |items| => ItemSteps(StoreBefore(ps, now, items, o, k), now, items[k], o).threw)
  }

  /** Flag `k` of `ThrowFlags`. */
  lemma ThrowFlagAt(ps: PassState, now: int, items: seq<Item>, o: Oracle, k: nat)
    requires k < |items|
    ensures ThrowFlags(ps, now, items, o)[k] == ItemSteps(StoreBefore(ps, now, items, o, k), now, items[k], o).threw
  {
  }

  /** Dropping the last element of a prefix. */
  lemma PrefixSnoc<T>(xs: seq<T>, n: nat)
    requires 0 < n <= |xs|
    ensures xs[..n] == xs[..n - 1] + [xs[n - 1]]
    ensures xs[..n][..n - 1] == xs[..n - 1]
    ensures xs[..n][n - 1] == xs[n - 1]
  {
  }

  /** The failure records of the flagged shows, in show order. */
  function RecordsOf(items: seq<Item>, threw: seq<bool>, now: int): seq<FailedItem>
    requires |threw| == |items|
    decreases |items|
  {
    if |items| == 0 then []
    else
      var n := |items| - 1;
      RecordsOf(items[..n], threw[..n], now) + (if threw[n] then [FailedOf(items[n], now)] else [])
  }

  /** A flagged show has its record among the records. */
  lemma {:induction false} RecordsOfHas(items: seq<Item>, threw: seq<bool>, now: int, k: nat)
    requires |threw| == |items| && k < |items| && threw[k]
    ensures FailedOf(items[k], now) in RecordsOf(items, threw, now)
    decreases |items|
  {
    var n := |items| - 1;
    if k < n {
      RecordsOfHas(items[..n], threw[..n], now, k);
    }
  }

  /** One show processed on its own adds its record exactly when its steps throw. */
  lemma ProcessOneRecord(q: PassState, now: int, x: Item, o: Oracle)
    ensures ProcessItems(q, now, [x], o).failed == q.failed + (if ItemSteps(q.store, now, x, o).threw then [FailedOf(x, now)] else [])
    ensures ProcessItems(q, now, [x], o).store == ItemSteps(q.store, now, x, o).store
  {
    assert [x][1..] == [];
  }

  /**
   * The failures of a pass are exactly the records of the shows whose steps
   * threw, one each, in show order; a show that threw is never missed.
   */
  lemma PassRecordsThrown(ps: PassState, now: int, items: seq<Item>, o: Oracle)
    ensures ProcessItems(ps, now, items, o).failed == ps.failed + RecordsOf(items, ThrowFlags(ps, now, items, o), now)
    ensures forall k :: 0 <= k < |items| && ItemSteps(StoreBefore(ps, now, items, o, k), now, items[k], o).threw ==>
      FailedOf(items[k], now) in ProcessItems(ps, now, items, o).failed
  {
    var flags := ThrowFlags(ps, now, items, o);
    PrefixRecordsThrown(ps, now, items, o, |items|);
    assert items[..|items|] == items && flags[..|items|] == flags;
    forall k | 0 <= k < |items| && ItemSteps(StoreBefore(ps, now, items, o, k), now, items[k], o).threw
      ensures FailedOf(items[k], now) in ProcessItems(ps, now, items, o).failed
    {
      ThrowFlagAt(ps, now, items, o, k);
      RecordsOfHas(items, flags, now, k);
    }
  }

  /** `PassRecordsThrown` for the first `n` shows. */
  lemma {:induction false} PrefixRecordsThrown(ps: PassState, now: int, items: seq<Item>, o: Oracle, n: nat)
    requires n <= |items|
    ensures ProcessItems(ps, now, items[..n], o).failed == ps.failed + RecordsOf(items[..n], ThrowFlags(ps, now, items, o)[..n], now)
    decreases n
  {
    var flags := ThrowFlags(ps, now, items, o);
    if n == 0 {
      assert items[..0] == [];
    } else {
      PrefixRecordsThrown(ps, now, items, o, n - 1);
      var q := ProcessItems(ps, now, items[..n - 1], o);
      assert q.failed == ps.failed + RecordsOf(items[..n - 1], flags[..n - 1], now);
      PrefixSnoc(items, n);
      PrefixSnoc(flags, n);
      ProcessItemsConcat(ps, now, items[..n - 1], [items[n - 1]], o);
      ProcessOneRecord(q, now, items[n - 1], o);
      ThrowFlagAt(ps, now, items, o, n - 1);
      SeqAssoc(ps.failed, RecordsOf(items[..n - 1], flags[..n - 1], now), if flags[n - 1] then [FailedOf(items[n - 1], now)] else []);
    }
  }

  /** Processing a concatenation is processing the first part, then the second. */
  lemma {:induction false} ProcessItemsConcat(ps: PassState, now: int, a: seq<Item>, b: seq<Item>, o: Oracle)
    ensures ProcessItems(ps, now, a + b, o) == ProcessItems(ProcessItems(ps, now, a, o), now, b, o)
    decreases |a|
  {
    if |a| > 0 {
      assert (a + b)[0] == a[0];
      assert (a + b)[1..] == a[1..] + b;
      ProcessItemsConcat(ProcessItem(ps, now, a[0], o), now, a[1..], b, o);
    } else {
      assert a + b == b;
    }
  }

  /** The number of shows fetched at once (`CONCURRENT_LIMIT`). */
  const ConcurrentLimit: nat := 2

  /** The concatenation of a list of lists. */
  function Flatten<T>(xss: seq<seq<T>>): seq<T>
    decreases |xss|
  {
    if |xss| == 0 then [] else xss[0] + Flatten(xss[1..])
  }

  /** The chunks of the working set: consecutive slices of `size`, the last possibly shorter. */
  function Chunks<T>(xs: seq<T>, size: nat): (cs: seq<seq<T>>)
    requires size >= 1
    ensures Flatten(cs) == xs
    ensures forall i :: 0 <= i < |cs| ==> 1 <= |cs[i]| <= size
    ensures forall i :: 0 <= i < |cs| - 1 ==> |cs[i]| == size
    decreases |xs|
  {
    if |xs| == 0 then []
    else if |xs| <= size then
      assert Flatten([xs]) == xs + Flatten([xs][1..]);
      [xs]
    else
      var rest := Chunks(xs[size..], size);
      var cs := [xs[..size]] + rest;
      assert cs[1..] == rest;
      assert xs[..size] + xs[size..] == xs;
      cs
  }

  /** The chunks processed one after another, each chunk's shows in order. */
  function ProcessChunks(ps: PassState, now: int, chunks: seq<seq<Item>>, o: Oracle): PassState
    decreases |chunks|
  {
    if |chunks| == 0 then ps else ProcessChunks(ProcessItems(ps, now, chunks[0], o), now, chunks[1..], o)
  }

  /** Processing chunk by chunk is processing their concatenation show by show. */
  lemma {:induction false} ProcessChunksFlatten(ps: PassState, now: int, chunks: seq<seq<Item>>, o: Oracle)
    ensures ProcessChunks(ps, now, chunks, o) == ProcessItems(ps, now, Flatten(chunks), o)
    decreases |chunks|
  {
    if |chunks| > 0 {
      ProcessChunksFlatten(ProcessItems(ps, now, chunks[0], o), now, chunks[1..], o);
      ProcessItemsConcat(ps, now, chunks[0], Flatten(chunks[1..]), o);
    }
  }

  /** The model's process state: the cache, the failed-item list, the refresh guard, and whether a retry timer is pending. */
  datatype Engine = Engine(store: Store, failedItems: seq<FailedItem>, isRefreshing: bool, retryPending: bool)

  /** An engine state after an operation, with the provider calls the operation made. */
  datatype Run = Run(engine: Engine, calls: seq<Call>)

  /**
   * `refreshAllCaches`: a no-op while a pass is running; otherwise one pass
   * over the working set in chunks, after which the failed-item list is
   * replaced by the pass's failures, a retry is scheduled if there are any,
   * and the guard is cleared.
   */
  function RefreshAllCaches(e: Engine, now: int, today: Date, catalog: seq<Item>, o: Oracle): (r: Run)
    ensures e.isRefreshing ==> r == Run(e, [])
    ensures !e.isRefreshing ==> !r.engine.isRefreshing
    ensures !e.isRefreshing ==>
      var pass := ProcessItems(PassState(e.store, [], []), now, GetRecentSeasonItems(today, catalog), o);
      r.engine.store == pass.store && r.engine.failedItems == pass.failed && r.calls == pass.calls
    ensures !e.isRefreshing ==> |r.engine.failedItems| <= |GetRecentSeasonItems(today, catalog)|
    ensures !e.isRefreshing ==> forall f :: f in r.engine.failedItems ==>
      FailureOfSome(f, GetRecentSeasonItems(today, catalog), now)
    ensures !e.isRefreshing ==> (r.engine.retryPending <==> |r.engine.failedItems| > 0 || e.retryPending)
    ensures !e.isRefreshing ==>
      var recent := GetRecentSeasonItems(today, catalog);
      r.engine.failedItems == RecordsOf(recent, ThrowFlags(PassState(e.store, [], []), now, recent, o), now)
  {
    if e.isRefreshing then Run(e, [])
    else
      var recent := GetRecentSeasonItems(today, catalog);
      var chunks := Chunks(recent, ConcurrentLimit);
      var start := PassState(e.store, [], []);
      var pass := ProcessChunks(start, now, chunks, o);
      assert pass == ProcessItems(start, now, recent, o) by { ProcessChunksFlatten(start, now, chunks, o); }
      assert forall f :: f in pass.failed ==> FailureOfSome(f, recent, now) by {
        PassFailuresFromItems(start, now, recent, o);
      }
      assert pass.failed == RecordsOf(recent, ThrowFlags(start, now, recent, o), now) by {
        PassRecordsThrown(start, now, recent, o);
      }
      var pending := if |pass.failed| > 0 then true else e.retryPending;
      Run(Engine(pass.store, pass.failed, false, pending), pass.calls)
  }

  /** A pass whose provider calls never throw records no failures. */
  lemma {:induction false} NoThrowNoFailures(ps: PassState, now: int, items: seq<Item>, o: Oracle)
    requires NeverThrows(o)
    ensures ProcessItems(ps, now, items, o).failed == ps.failed
    decreases |items|
  {
    if |items| > 0 {
      var item := items[0];
      var a := RefreshImage(ps.store, now, item, o);
      var b := RefreshPv(a.store, now, item, o);
      if GetBilibiliMediaId(item).Some? {
        var k := GetBilibiliMediaId(item).value;
        assert !o.seasonId(k).Throws?;
        assert o.seasonId(k).Value? ==> !o.pvBvid(o.seasonId(k).v).Throws?;
      }
      var c := RefreshRss(b.store, now, item, o);
      if GetMikanId(item).Some? {
        assert !o.rss(GetMikanId(item).value).Throws?;
      }
      if GetBangumiSubjectId(item).Some? {
        assert !o.image(GetBangumiSubjectId(item).value).Throws?;
      }
      assert !a.threw && !b.threw && !c.threw;
      NoThrowNoFailures(ProcessItem(ps, now, item, o), now, items[1..], o);
    }
  }

  /** With the real adapters, a refresh pass never records a failure and never schedules a retry of its own. */
  lemma AdapterPassHasNoFailures(e: Engine, now: int, today: Date, catalog: seq<Item>, r: Responses)
    requires !e.isRefreshing
    ensures RefreshAllCaches(e, now, today, catalog, AdapterOracle(r)).engine.failedItems == []
    ensures RefreshAllCaches(e, now, today, catalog, AdapterOracle(r)).engine.retryPending == e.retryPending
  {
    AdaptersNeverThrow(r);
    NoThrowNoFailures(PassState(e.store, [], []), now, GetRecentSeasonItems(today, catalog), AdapterOracle(r));
  }

  /**
   * Negative caching: once a show's image step has stored an entry (a
   * negative one included), a later step within the time-to-live makes no
   * image call and changes nothing.
   */
  lemma SecondImageStepSkips(s: Store, now: int, later: int, item: Item, o: Oracle, o2: Oracle)
    requires GetBangumiSubjectId(item).Some?
    requires var k := GetBangumiSubjectId(item).value; !o.image(k).Throws? && o.image(k) != Value(NoIconUrl)
    requires !ShouldSkipRefresh(now, Get(s.image, GetBangumiSubjectId(item).value), false)
    requires now <= later <= now + CacheExpireTime
    ensures var first := RefreshImage(s, now, item, o);
      RefreshImage(first.store, later, item, o2) == Step(first.store, false, [])
  {
    var k := GetBangumiSubjectId(item).value;
    var first := RefreshImage(s, now, item, o);
    assert k in first.store.image && first.store.image[k].timestamp == now;
    assert Get(first.store.image, k) == Some(first.store.image[k]);
    assert !IsExpired(later, now, false);
  }

  // --------------------------------------------------------------- retry

  /** The failed item has the key its kind needs. */
  predicate HasKindKey(f: FailedItem) {
    match f.kind
    case ImageKind => f.subjectId.Some?
    case PvKind => f.mediaId.Some?
    case RssKind => f.rssId.Some?
  }

  /** The fetch for a failed item's kind, run unconditionally (no freshness check). */
  function RetryFetch(s: Store, now: int, f: FailedItem, o: Oracle): (p: Step)
    requires HasKindKey(f)
  {
    match f.kind
    case ImageKind => FetchBangumiImage(s, now, f.subjectId.value, o)
    case PvKind => FetchPvBvid(s, now, f.mediaId.value, o)
    case RssKind => FetchRssContent(s, now, f.rssId.value, o)
  }

  /** A failed item kept for another retry: one more attempt counted, stamped with `now`, all else unchanged. */
  function Bumped(f: FailedItem, now: int): (g: FailedItem)
    ensures g.retryCount == f.retryCount + 1 && g.lastRetryTime == now
    ensures g.(retryCount := f.retryCount, lastRetryTime := f.lastRetryTime) == f
  {
    f.(retryCount := f.retryCount + 1, lastRetryTime := now)
  }

  /** The retry ceiling. */
  const MaxRetryCount := 5

  /** The outcome of retrying one failed item: the store after it, the item if it stays, and the calls made. */
  datatype RetryStep = RetryStep(store: Store, kept: Option<FailedItem>, calls: seq<Call>)

  /**
   * One failed item of a retry pass: it is resolved (dropped) when its kind
   * has a key and the fetch completes; otherwise it is given up at 5 or more
   * retries, or kept with one more retry counted.
   */
  function RetryOne(s: Store, now: int, f: FailedItem, o: Oracle): (r: RetryStep)
    ensures HasKindKey(f) && !RetryFetch(s, now, f, o).threw ==> r.kept.None?
    ensures !(HasKindKey(f) && !RetryFetch(s, now, f, o).threw) ==>
      r.kept == (if f.retryCount >= MaxRetryCount then None else Some(Bumped(f, now)))
    ensures !HasKindKey(f) ==> r.store == s && r.calls == []
    ensures r.kept.Some? ==> r.kept.value.retryCount <= MaxRetryCount
    ensures r.kept == (if StaysFailed(f, o) then Some(Bumped(f, now)) else None)
  {
    var resolved := HasKindKey(f) && !RetryFetch(s, now, f, o).threw;
    var p := if HasKindKey(f) then RetryFetch(s, now, f, o) else Step(s, false, []);
    var kept := if resolved then None else if f.retryCount >= MaxRetryCount then None else Some(Bumped(f, now));
    RetryStep(p.store, kept, p.calls)
  }

  /** `f` with one more retry counted, for every failed item of the list. */
  function BumpedAll(fs: seq<FailedItem>, now: int): (r: seq<FailedItem>)
    ensures |r| == |fs|
    ensures forall i :: 0 <= i < |fs| ==> r[i] == Bumped(fs[i], now)
  {
    seq(|fs|, i requires 0 <= i < |fs| => Bumped(fs[i], now))
  }

  /** `f` with one more retry counted, after the rest: `BumpedAll` distributes over appending. */
  lemma BumpedAllSnoc(fs: seq<FailedItem>, f: FailedItem, now: int)
    ensures BumpedAll(fs + [f], now) == BumpedAll(fs, now) + [Bumped(f, now)]
  {
    var l := BumpedAll(fs + [f], now);
    var r := BumpedAll(fs, now) + [Bumped(f, now)];
    assert |l| == |r|;
    forall i | 0 <= i < |l|
      ensures l[i] == r[i]
    {
      if i < |fs| {
        assert (fs + [f])[i] == fs[i];
      }
    }
  }

  /**
   * The retry fetch for a failed item throws. Whether it throws depends on
   * the providers' answers for the item's key alone, never on the store.
   */
  predicate RetryThrows(f: FailedItem, o: Oracle) {
    match f.kind
    case ImageKind => f.subjectId.Some? && o.image(f.subjectId.value).Throws?
    case PvKind =>
      f.mediaId.Some? &&
      var m := o.seasonId(f.mediaId.value);
      m.Throws? || (m.Value? && m.v != 0 && o.pvBvid(m.v).Throws?)
    case RssKind => f.rssId.Some? && o.rss(f.rssId.value).Throws?
  }

  /** A failed item a retry pass keeps: its fetch cannot complete (no key, or it throws) and it is under the ceiling. */
  predicate StaysFailed(f: FailedItem, o: Oracle) {
    (!HasKindKey(f) || RetryThrows(f, o)) && f.retryCount < MaxRetryCount
  }

  /** `StaysFailed` as a filter predicate. */
  function StillFailing(o: Oracle): FailedItem -> bool {
    f => StaysFailed(f, o)
  }

  /** What a retry pass leaves of `fs`, stated without the store: the items that stay failed, in order, each bumped. */
  function Survivors(fs: seq<FailedItem>, now: int, o: Oracle): seq<FailedItem> {
    BumpedAll(Filter(fs, StillFailing(o)), now)
  }

  /** `Survivors` of a non-empty list: the survivors of the front, then the last item bumped when it stays failed. */
  lemma SurvivorsLast(fs: seq<FailedItem>, now: int, o: Oracle)
    requires |fs| > 0
    ensures Survivors(fs, now, o) == Survivors(fs[..|fs| - 1], now, o)
      + (if StaysFailed(fs[|fs| - 1], o) then [Bumped(fs[|fs| - 1], now)] else [])
  {
    var last := fs[|fs| - 1];
    var init := Filter(fs[..|fs| - 1], StillFailing(o));
    FilterLast(fs, StillFailing(o));
    if StaysFailed(last, o) {
      BumpedAllSnoc(init, last, now);
    } else {
      assert BumpedAll(init, now) + [] == BumpedAll(init, now);
    }
  }

  /** The result of a retry loop: the store, the still-failed items, and the calls made. */
  datatype RetryPass = RetryPass(store: Store, kept: seq<FailedItem>, calls: seq<Call>)

  /**
   * The retry loop over a snapshot of the failed list: the survivors keep
   * their order, each with one more retry counted, none above the ceiling.
   */
  function RetryItems(s: Store, now: int, fs: seq<FailedItem>, o: Oracle): (r: RetryPass)
    ensures |r.kept| <= |fs|
    ensures IsSubsequence(r.kept, BumpedAll(fs, now))
    ensures forall g :: g in r.kept ==> g.retryCount <= MaxRetryCount
    ensures r.kept == Survivors(fs, now, o)
    decreases |fs|
  {
    SurvivorsBounds(fs, now, o);
    if |fs| == 0 then RetryPass(s, [], [])
    else
      var last := fs[|fs| - 1];
      var init := RetryItems(s, now, fs[..|fs| - 1], o);
      var step := RetryOne(init.store, now, last, o);
      var kept := if step.kept.Some? then init.kept + [step.kept.value] else init.kept;
      assert kept == Survivors(fs, now, o) by { SurvivorsLast(fs, now, o); }
      RetryPass(step.store, kept, init.calls + step.calls)
  }

  /** The survivors are at most the list, in its order, each bumped, none above the ceiling. */
  lemma {:induction false} SurvivorsBounds(fs: seq<FailedItem>, now: int, o: Oracle)
    ensures |Survivors(fs, now, o)| <= |fs|
    ensures IsSubsequence(Survivors(fs, now, o), BumpedAll(fs, now))
    ensures forall g :: g in Survivors(fs, now, o) ==> g.retryCount <= MaxRetryCount
    decreases |fs|
  {
    if |fs| > 0 {
      var init := fs[..|fs| - 1];
      var last := fs[|fs| - 1];
      SurvivorsBounds(init, now, o);
      SurvivorsLast(fs, now, o);
      assert fs == init + [last];
      BumpedAllSnoc(init, last, now);
      SubsequenceExtend(Survivors(init, now, o), BumpedAll(init, now), Bumped(last, now));
    }
  }

  /** Appending to the whole list keeps a subsequence a subsequence, with or without the appended element. */
  lemma SubsequenceExtend<T>(sub: seq<T>, xs: seq<T>, x: T)
    requires IsSubsequence(sub, xs)
    ensures IsSubsequence(sub, xs + [x])
    ensures IsSubsequence(sub + [x], xs + [x])
  {
    assert (xs + [x])[..|xs|] == xs;
    if |sub| > 0 {
      assert (sub + [x])[..|sub|] == sub;
    }
  }

  /**
   * `retryFailedItems` (run when the retry timer fires): an empty list is
   * left alone; otherwise each item is retried once and the list becomes the
   * still-failed items. The timer is re-armed exactly when that list is non-empty.
   */
  function RetryFailedItems(e: Engine, now: int, o: Oracle): (r: Run)
    ensures |r.engine.failedItems| <= |e.failedItems|
    ensures IsSubsequence(r.engine.failedItems, BumpedAll(e.failedItems, now))
    ensures forall g :: g in r.engine.failedItems ==> g.retryCount <= MaxRetryCount
    ensures r.engine.failedItems == Survivors(e.failedItems, now, o)
    ensures r.engine.retryPending <==> |r.engine.failedItems| > 0
    ensures r.engine.isRefreshing == e.isRefreshing
    ensures |e.failedItems| == 0 ==> r == Run(e.(retryPending := false), [])
  {
    if |e.failedItems| == 0 then Run(e.(retryPending := false), [])
    else
      var pass := RetryItems(e.store, now, e.failedItems, o);
      Run(e.(store := pass.store, failedItems := pass.kept, retryPending := |pass.kept| > 0), pass.calls)
  }

  /** The failed item retried `n` times on its own against outcomes that never let its fetch complete. */
  function RetryAlone(s: Store, now: int, f: FailedItem, o: Oracle, n: nat): Option<FailedItem>
    decreases n
  {
    if n == 0 then Some(f)
    else match RetryAlone(s, now, f, o, n - 1)
      case None => None
      case Some(g) => RetryOne(s, now, g, o).kept
  }

  /**
   * Abandonment: an item whose fetch never completes climbs one retry per
   * pass up to exactly the ceiling and is dropped by the pass after that.
   */
  lemma {:induction false} RetryAbandonment(s: Store, now: int, f: FailedItem, o: Oracle, n: nat)
    requires f.retryCount == 0
    requires forall g: FailedItem :: (g.kind == f.kind && g.subjectId == f.subjectId && g.mediaId == f.mediaId && g.rssId == f.rssId
      ==> !HasKindKey(g) || RetryFetch(s, now, g, o).threw)
    ensures n <= MaxRetryCount ==> RetryAlone(s, now, f, o, n).Some? && RetryAlone(s, now, f, o, n).value.retryCount == n
    ensures n > MaxRetryCount ==> RetryAlone(s, now, f, o, n).None?
    ensures n <= MaxRetryCount ==> var g := RetryAlone(s, now, f, o, n).value;
      g.kind == f.kind && g.subjectId == f.subjectId && g.mediaId == f.mediaId && g.rssId == f.rssId && g.id == f.id
    decreases n
  {
    if n > 0 {
      RetryAbandonment(s, now, f, o, n - 1);
      if n - 1 <= MaxRetryCount {
        var g := RetryAlone(s, now, f, o, n - 1).value;
        assert !HasKindKey(g) || RetryFetch(s, now, g, o).threw;
      }
    }
  }

  /** Every survivor has at least one more retry counted than the least of the list. */
  lemma SurvivorsRaiseCount(fs: seq<FailedItem>, now: int, o: Oracle, m: int)
    requires forall f :: f in fs ==> f.retryCount >= m
    ensures forall g :: g in Survivors(fs, now, o) ==> g.retryCount >= m + 1
  {
    var kept := Filter(fs, StillFailing(o));
    FilterMembers(fs, StillFailing(o));
    forall g | g in Survivors(fs, now, o)
      ensures g.retryCount >= m + 1
    {
      var i :| 0 <= i < |Survivors(fs, now, o)| && Survivors(fs, now, o)[i] == g;
      assert kept[i] in kept;
    }
  }

  /** One firing of the retry timer: the time it fires and the providers' answers then. */
  datatype Round = Round(now: int, o: Oracle)

  /** The engine after the retry timer fires once per round, with no refresh pass in between. */
  function RetryRounds(e: Engine, rounds: seq<Round>): Engine
    decreases |rounds|
  {
    if |rounds| == 0 then e
    else RetryRounds(RetryFailedItems(e, rounds[0].now, rounds[0].o).engine, rounds[1..])
  }

  /**
   * Abandonment of the whole list: whatever the providers answer, an item
   * still failed after `n` rounds has been retried at least `n` more times,
   * and none is above the ceiling; so after `MaxRetryCount + 1` rounds the
   * list is empty and no retry is pending.
   */
  lemma {:induction false} RetryRoundsDrain(e: Engine, rounds: seq<Round>)
    requires forall f :: f in e.failedItems ==> f.retryCount >= 0
    ensures forall g :: g in RetryRounds(e, rounds).failedItems ==> g.retryCount >= |rounds|
    ensures |rounds| > 0 ==> forall g :: g in RetryRounds(e, rounds).failedItems ==> g.retryCount <= MaxRetryCount
    ensures |rounds| > MaxRetryCount ==> RetryRounds(e, rounds).failedItems == []
    ensures |rounds| > MaxRetryCount ==> !RetryRounds(e, rounds).retryPending
    decreases |rounds|
  {
    if |rounds| > 0 {
      var next := RetryFailedItems(e, rounds[0].now, rounds[0].o).engine;
      SurvivorsRaiseCount(e.failedItems, rounds[0].now, rounds[0].o, 0);
      RetryRoundsDrainFrom(next, rounds[1..], 1);
      if |rounds| > MaxRetryCount {
        CountRangeNonEmpty(RetryRounds(e, rounds).failedItems, |rounds|, MaxRetryCount);
      }
    }
  }

  /** A non-empty list whose every retry count lies between `lo` and `hi` has `lo <= hi`. */
  lemma CountRangeNonEmpty(fs: seq<FailedItem>, lo: int, hi: int)
    requires forall g :: g in fs ==> lo <= g.retryCount <= hi
    ensures fs != [] ==> lo <= hi
  {
    if fs != [] {
      assert fs[0] in fs;
    }
  }

  /** The counting half of `RetryRoundsDrain`, from a list whose counts are all at least `m` and at most the ceiling. */
  lemma {:induction false} RetryRoundsDrainFrom(e: Engine, rounds: seq<Round>, m: int)
    requires forall f :: f in e.failedItems ==> m <= f.retryCount <= MaxRetryCount
    requires |e.failedItems| == 0 ==> !e.retryPending
    ensures forall g :: g in RetryRounds(e, rounds).failedItems ==> m + |rounds| <= g.retryCount <= MaxRetryCount
    ensures |RetryRounds(e, rounds).failedItems| == 0 ==> !RetryRounds(e, rounds).retryPending
    decreases |rounds|
  {
    if |rounds| > 0 {
      var next := RetryFailedItems(e, rounds[0].now, rounds[0].o).engine;
      SurvivorsRaiseCount(e.failedItems, rounds[0].now, rounds[0].o, m);
      RetryRoundsDrainFrom(next, rounds[1..], m + 1);
    }
  }

  /** Convergence: when every item has its key and every fetch completes, one retry pass empties the list. */
  lemma {:induction false} RetryConverges(s: Store, now: int, fs: seq<FailedItem>, o: Oracle)
    requires forall i :: 0 <= i < |fs| ==> HasKindKey(fs[i])
    requires NeverThrows(o)
    ensures RetryItems(s, now, fs, o).kept == []
    decreases |fs|
  {
    if |fs| > 0 {
      RetryConverges(s, now, fs[..|fs| - 1], o);
      var last := fs[|fs| - 1];
      var st := RetryItems(s, now, fs[..|fs| - 1], o).store;
      match last.kind
      case ImageKind => assert !o.image(last.subjectId.value).Throws?;
      case PvKind =>
        var m := last.mediaId.value;
        assert !o.seasonId(m).Throws?;
        if o.seasonId(m).Value? {
          var sid := o.seasonId(m).v;
          assert !o.pvBvid(sid).Throws?;
        }
      case RssKind => assert !o.rss(last.rssId.value).Throws?;
    }
  }

  /** `getFailedItemsStatus`: the count and a copy of the failed list. */
  datatype FailedStatus = FailedStatus(count: nat, items: seq<FailedItem>)

  function GetFailedItemsStatus(e: Engine): (r: FailedStatus)
    ensures r.count == |r.items| && r.items == e.failedItems
  {
    FailedStatus(|e.failedItems|, e.failedItems)
  }

  // ----------------------------------------------------- manual refresh

  /**
   * `refreshItemCache`: the three fetch-and-store steps for one show, with no
   * freshness check and no guard; each step's error is caught on its own, so
   * a throwing step does not stop the others. The failed list is not touched.
   */
  function RefreshItemCache(s: Store, now: int, item: Item, o: Oracle): (p: Step)
    ensures !p.threw
    ensures GetBangumiSubjectId(item).Some? ==> ImageCall(GetBangumiSubjectId(item).value) in p.calls
    ensures GetBilibiliMediaId(item).Some? ==> SeasonIdCall(GetBilibiliMediaId(item).value) in p.calls
    ensures GetMikanRssId(item).Some? ==> RssCall(GetMikanRssId(item).value) in p.calls
    ensures GetBangumiSubjectId(item).None? ==> p.store.image == s.image
    ensures GetBilibiliMediaId(item).None? ==> p.store.pvBvid == s.pvBvid
    ensures GetMikanRssId(item).None? ==> p.store.rss == s.rss
  {
    var a := ManualImageStep(s, now, item, o);
    var b := ManualPvStep(a.store, now, item, o);
    var c := ManualRssStep(b.store, now, item, o);
    assert a.calls + b.calls + c.calls == a.calls + (b.calls + c.calls);
    Step(c.store, false, a.calls + b.calls + c.calls)
  }

  /**
   * The manual refresh leaves in the image map what the image fetch alone
   * would have left there; a throwing image fetch leaves the map unchanged.
   */
  lemma ManualRefreshImage(s: Store, now: int, item: Item, o: Oracle)
    requires GetBangumiSubjectId(item).Some?
    ensures var k := GetBangumiSubjectId(item).value;
      RefreshItemCache(s, now, item, o).store.image == FetchBangumiImage(s, now, k, o).store.image
    ensures var k := GetBangumiSubjectId(item).value;
      FetchBangumiImage(s, now, k, o).threw ==> RefreshItemCache(s, now, item, o).store.image == s.image
  {
  }

  /**
   * The preview map ends as the preview fetch alone, run on the original
   * store, would leave it: whatever the image step did (a throw included)
   * does not stop or change it, and a throwing preview fetch leaves the map unchanged.
   */
  lemma ManualRefreshPv(s: Store, now: int, item: Item, o: Oracle)
    requires GetBilibiliMediaId(item).Some?
    ensures var k := GetBilibiliMediaId(item).value;
      RefreshItemCache(s, now, item, o).store.pvBvid == FetchPvBvid(s, now, k, o).store.pvBvid
    ensures var k := GetBilibiliMediaId(item).value;
      FetchPvBvid(s, now, k, o).threw ==> RefreshItemCache(s, now, item, o).store.pvBvid == s.pvBvid
  {
    var a := ManualImageStep(s, now, item, o);
    PvFetchOwnMap(a.store, s, now, GetBilibiliMediaId(item).value, o);
  }

  /**
   * The feed map ends as the feed fetch alone, run on the original store,
   * would leave it, whatever the two earlier steps did; a throwing feed
   * fetch leaves the map unchanged.
   */
  lemma ManualRefreshFeed(s: Store, now: int, item: Item, o: Oracle)
    requires GetMikanRssId(item).Some?
    ensures var k := GetMikanRssId(item).value;
      RefreshItemCache(s, now, item, o).store.rss == FetchRssContent(s, now, k, o).store.rss
    ensures var k := GetMikanRssId(item).value;
      FetchRssContent(s, now, k, o).threw ==> RefreshItemCache(s, now, item, o).store.rss == s.rss
  {
    var a := ManualImageStep(s, now, item, o);
    var b := ManualPvStep(a.store, now, item, o);
    RssFetchOwnMap(b.store, s, now, GetMikanRssId(item).value, o);
  }

  /** The manual refresh's image step: the fetch when the show has a subject id, else nothing. */
  function ManualImageStep(s: Store, now: int, item: Item, o: Oracle): (p: Step)
    ensures p.store.pvBvid == s.pvBvid && p.store.rss == s.rss
    ensures GetBangumiSubjectId(item).None? ==> p == Step(s, false, [])
    ensures GetBangumiSubjectId(item).Some? ==> p == FetchBangumiImage(s, now, GetBangumiSubjectId(item).value, o)
  {
    match GetBangumiSubjectId(item)
    case None => Step(s, false, [])
    case Some(k) => FetchBangumiImage(s, now, k, o)
  }

  /** The manual refresh's preview step: the fetch when the show has a media id, else nothing. */
  function ManualPvStep(s: Store, now: int, item: Item, o: Oracle): (p: Step)
    ensures p.store.image == s.image && p.store.rss == s.rss
    ensures GetBilibiliMediaId(item).None? ==> p == Step(s, false, [])
    ensures GetBilibiliMediaId(item).Some? ==> p == FetchPvBvid(s, now, GetBilibiliMediaId(item).value, o)
  {
    match GetBilibiliMediaId(item)
    case None => Step(s, false, [])
    case Some(k) => FetchPvBvid(s, now, k, o)
  }

  /** The manual refresh's feed step: the fetch when the show has a feed id, else nothing. */
  function ManualRssStep(s: Store, now: int, item: Item, o: Oracle): (p: Step)
    ensures p.store.image == s.image && p.store.pvBvid == s.pvBvid
    ensures GetMikanRssId(item).None? ==> p == Step(s, false, [])
    ensures GetMikanRssId(item).Some? ==> p == FetchRssContent(s, now, GetMikanRssId(item).value, o)
  {
    match GetMikanRssId(item)
    case None => Step(s, false, [])
    case Some(k) => FetchRssContent(s, now, k, o)
  }

  /** What the preview fetch leaves in the preview map depends on that map alone. */
  lemma PvFetchOwnMap(s: Store, t: Store, now: int, mediaId: string, o: Oracle)
    requires s.pvBvid == t.pvBvid
    ensures FetchPvBvid(s, now, mediaId, o).store.pvBvid == FetchPvBvid(t, now, mediaId, o).store.pvBvid
    ensures FetchPvBvid(s, now, mediaId, o).threw == FetchPvBvid(t, now, mediaId, o).threw
  {
  }

  /** What the feed fetch leaves in the feed map depends on that map alone. */
  lemma RssFetchOwnMap(s: Store, t: Store, now: int, rssId: string, o: Oracle)
    requires s.rss == t.rss
    ensures FetchRssContent(s, now, rssId, o).store.rss == FetchRssContent(t, now, rssId, o).store.rss
    ensures FetchRssContent(s, now, rssId, o).threw == FetchRssContent(t, now, rssId, o).threw
  {
  }

  // ----------------------------------------------------- enrichment view

  /** The bilibili player url embedding a bvid. */
  function EmbedLink(bvid: string): string {
    "https://player.bilibili.com/player.html?isOutside=true&bvid=" + bvid + "&high_quality=1"
  }

  /** The image overlay: the cached url when the show has a key with an unexpired entry, else the show's own field. */
  function ImageOverlay(s: Store, now: int, item: Item): Option<string> {
    match GetBangumiSubjectId(item)
    case Some(k) => if IsValidCache(now, Get(s.image, k), false) then Some(s.image[k].value) else item.image
    case None => item.image
  }

  /** The preview overlay: the embed link of the cached bvid, under the same rule. */
  function PvOverlay(s: Store, now: int, item: Item): Option<string> {
    match GetBilibiliMediaId(item)
    case Some(k) => if IsValidCache(now, Get(s.pvBvid, k), false) then Some(EmbedLink(s.pvBvid[k].value)) else item.previewEmbedLink
    case None => item.previewEmbedLink
  }

  /** The feed overlay: the cached feed under the feed time-to-live. */
  function RssOverlay(s: Store, now: int, item: Item): Option<RssContent> {
    match GetMikanRssId(item)
    case Some(k) => if IsValidCache(now, Get(s.rss, k), true) then Some(s.rss[k].value) else item.rssContent
    case None => item.rssContent
  }

  /** One show with the three overlays applied. */
  function Enriched(s: Store, now: int, item: Item): Item {
    item.(image := ImageOverlay(s, now, item),
          previewEmbedLink := PvOverlay(s, now, item),
          rssContent := RssOverlay(s, now, item))
  }

  /**
   * `enrichItemsWithImages`: the same shows in the same order, with
   * `image`, `previewEmbedLink` and `rssContent` overwritten from unexpired
   * cache entries (negative ones too) and every other field kept.
   */
  function EnrichItemsWithImages(s: Store, now: int, items: seq<Item>): (r: seq<Item>)
    ensures |r| == |items|
    ensures forall i :: 0 <= i < |items| ==>
      r[i].(image := items[i].image, previewEmbedLink := items[i].previewEmbedLink, rssContent := items[i].rssContent) == items[i]
    ensures forall i :: 0 <= i < |items| ==>
      && r[i].image == ImageOverlay(s, now, items[i])
      && r[i].previewEmbedLink == PvOverlay(s, now, items[i])
      && r[i].rssContent == RssOverlay(s, now, items[i])
  {
    seq(|items|, i requires 0 <= i < |items| => Enriched(s, now, items[i]))
  }

  /** The overlays read only the sites, which enrichment keeps, so a second enrichment writes the same values. */
  lemma EnrichedIdempotent(s: Store, now: int, item: Item)
    ensures Enriched(s, now, Enriched(s, now, item)) == Enriched(s, now, item)
  {
    var e := Enriched(s, now, item);
    assert e.sites == item.sites;
    assert GetBangumiSubjectId(e) == GetBangumiSubjectId(item);
    assert GetBilibiliMediaId(e) == GetBilibiliMediaId(item);
    assert GetMikanRssId(e) == GetMikanRssId(item);
    assert ImageOverlay(s, now, e) == e.image;
    assert PvOverlay(s, now, e) == e.previewEmbedLink;
    assert RssOverlay(s, now, e) == e.rssContent;
  }

  /** Enriching again from the same cache at the same time changes nothing. */
  lemma EnrichIdempotent(s: Store, now: int, items: seq<Item>)
    ensures EnrichItemsWithImages(s, now, EnrichItemsWithImages(s, now, items)) == EnrichItemsWithImages(s, now, items)
  {
    var once := EnrichItemsWithImages(s, now, items);
    var twice := EnrichItemsWithImages(s, now, once);
    forall i | 0 <= i < |items|
      ensures twice[i] == once[i]
    {
      EnrichedIdempotent(s, now, items[i]);
    }
  }

  /** The show's fields untouched by a cache with no entry for any of its keys. */
  lemma EnrichWithoutEntries(s: Store, now: int, items: seq<Item>)
    requires forall i :: 0 <= i < |items| ==>
      (GetBangumiSubjectId(items[i]).Some? ==> GetBangumiSubjectId(items[i]).value !in s.image)
      && (GetBilibiliMediaId(items[i]).Some? ==> GetBilibiliMediaId(items[i]).value !in s.pvBvid)
      && (GetMikanRssId(items[i]).Some? ==> GetMikanRssId(items[i]).value !in s.rss)
    ensures EnrichItemsWithImages(s, now, items) == items
  {
  }

  /**
   * End to end: a show with image and preview keys but no feed key, refreshed
   * while both providers answer, shows the cover and the embed link, keeps
   * its own feed field, and the feed adapter was never called.
   */
  lemma RefreshThenEnrich(s: Store, now: int, item: Item, o: Oracle, url: string, sid: int, bvid: string)
    requires GetBangumiSubjectId(item).Some? && GetBilibiliMediaId(item).Some? && GetMikanId(item).None?
    requires GetBangumiSubjectId(item).value !in s.image && GetBilibiliMediaId(item).value !in s.pvBvid
    requires o.image(GetBangumiSubjectId(item).value) == Value(url) && url != NoIconUrl
    requires o.seasonId(GetBilibiliMediaId(item).value) == Value(sid) && sid != 0
    requires o.pvBvid(sid) == Value(bvid) && bvid != ""
    ensures var after := ProcessItem(PassState(s, [], []), now, item, o);
      && after.failed == []
      && (forall c :: c in after.calls ==> !c.RssCall?)
      && EnrichItemsWithImages(after.store, now, [item])
         == [item.(image := Some(url), previewEmbedLink := Some(EmbedLink(bvid)))]
  {
    var k := GetBangumiSubjectId(item).value;
    var m := GetBilibiliMediaId(item).value;
    var a := RefreshImage(s, now, item, o);
    assert a.store.image[k] == Entry(url, now, false);
    var b := RefreshPv(a.store, now, item, o);
    assert b.store.pvBvid[m] == Entry(bvid, now, false);
    assert b.store.image == a.store.image;
  }

  // ------------------------------------------------------------ status

  /** `getItemCacheStatus`: per kind, whether an unexpired entry exists, its value, and the key. */
  datatype ItemCacheStatus = ItemCacheStatus(
    itemId: string,
    title: string,
    imageCached: bool, imageUrl: Option<string>, subjectId: Option<string>,
    pvCached: bool, embedLink: Option<string>, mediaId: Option<string>,
    rssCached: bool, rssContent: Option<RssContent>, rssId: Option<string>)

  function GetItemCacheStatus(s: Store, now: int, item: Item): ItemCacheStatus {
    var subjectId := GetBangumiSubjectId(item);
    var mediaId := GetBilibiliMediaId(item);
    var rssId := GetMikanRssId(item);
    var imageCached := subjectId.Some? && IsValidCache(now, Get(s.image, subjectId.value), false);
    var pvCached := mediaId.Some? && IsValidCache(now, Get(s.pvBvid, mediaId.value), false);
    var rssCached := rssId.Some? && IsValidCache(now, Get(s.rss, rssId.value), true);
    ItemCacheStatus(
      item.id.GetOr(""), item.title,
      imageCached, if imageCached then Some(s.image[subjectId.value].value) else None, subjectId,
      pvCached, if pvCached then Some(EmbedLink(s.pvBvid[mediaId.value].value)) else None, mediaId,
      rssCached, if rssCached then Some(s.rss[rssId.value].value) else None, rssId)
  }

  /** A show's status report and its enrichment agree: a cached kind reports the value the overlay writes. */
  lemma StatusAgreesWithEnrichment(s: Store, now: int, item: Item)
    ensures var st := GetItemCacheStatus(s, now, item);
      var e := EnrichItemsWithImages(s, now, [item])[0];
      && (st.imageCached ==> e.image == st.imageUrl)
      && (st.pvCached ==> e.previewEmbedLink == st.embedLink)
      && (st.rssCached ==> e.rssContent == st.rssContent)
      && (!st.imageCached ==> e.image == item.image)
      && (!st.pvCached ==> e.previewEmbedLink == item.previewEmbedLink)
      && (!st.rssCached ==> e.rssContent == item.rssContent)
  {
  }

  /** The report of `getRecentSeasonsCacheStatus`. */
  datatype SeasonsStatus = SeasonsStatus(
    currentSeason: Season,
    previousSeason: Season,
    totalItems: nat,
    currentSeasonItems: nat,
    previousSeasonItems: nat,
    imageCached: nat,
    pvCached: nat,
    rssCached: nat)

  /** The test "the show's image key has an unexpired entry". */
  function ImageCached(s: Store, now: int): Item -> bool {
    (it: Item) => GetItemCacheStatus(s, now, it).imageCached
  }

  /** The test "the show's preview key has an unexpired entry". */
  function PvCached(s: Store, now: int): Item -> bool {
    (it: Item) => GetItemCacheStatus(s, now, it).pvCached
  }

  /** The test "the show's feed key has an unexpired entry". */
  function RssCached(s: Store, now: int): Item -> bool {
    (it: Item) => GetItemCacheStatus(s, now, it).rssCached
  }

  /** Counts the shows that satisfy each of five tests, in one pass; every show is in exactly one of the two seasons. */
  method CountWorkingSet(recent: seq<Item>, isCur: Item -> bool, isPrev: Item -> bool,
                         isImg: Item -> bool, isPv: Item -> bool, isRss: Item -> bool)
    returns (nCur: nat, nPrev: nat, nImg: nat, nPv: nat, nRss: nat)
    requires forall i :: 0 <= i < |recent| ==> (isCur(recent[i]) || isPrev(recent[i])) && !(isCur(recent[i]) && isPrev(recent[i]))
    ensures nCur + nPrev == |recent|
    ensures nCur == Count(recent, isCur) && nPrev == Count(recent, isPrev)
    ensures nImg == Count(recent, isImg) && nPv == Count(recent, isPv) && nRss == Count(recent, isRss)
  {
    nCur, nPrev, nImg, nPv, nRss := 0, 0, 0, 0, 0;
    var i := 0;
    while i < |recent|
      invariant 0 <= i <= |recent|
      invariant nCur + nPrev == i
      invariant nCur == Count(recent[..i], isCur) && nPrev == Count(recent[..i], isPrev)
      invariant nImg == Count(recent[..i], isImg)
      invariant nPv == Count(recent[..i], isPv)
      invariant nRss == Count(recent[..i], isRss)
    {
      var it := recent[i];
      assert recent[..i + 1][..i] == recent[..i];
      if isCur(it) {
        nCur := nCur + 1;
      } else if isPrev(it) {
        nPrev := nPrev + 1;
      }
      if isImg(it) { nImg := nImg + 1; }
      if isPv(it) { nPv := nPv + 1; }
      if isRss(it) { nRss := nRss + 1; }
      i := i + 1;
    }
    assert recent[..i] == recent;
  }

  /** `getRecentSeasonsCacheStatus`: the two seasons, and counts over the working set. */
  method GetRecentSeasonsCacheStatus(s: Store, now: int, today: Date, catalog: seq<Item>) returns (r: SeasonsStatus)
    ensures r.currentSeason == CurrentSeason(today) && r.previousSeason == PreviousSeason(today)
    ensures r.totalItems == |GetRecentSeasonItems(today, catalog)|
    ensures r.currentSeasonItems + r.previousSeasonItems == r.totalItems
    ensures r.currentSeasonItems == Count(GetRecentSeasonItems(today, catalog), InSeason(CurrentSeason(today)))
    ensures r.previousSeasonItems == Count(GetRecentSeasonItems(today, catalog), InSeason(PreviousSeason(today)))
    ensures r.imageCached == Count(GetRecentSeasonItems(today, catalog), ImageCached(s, now))
    ensures r.pvCached == Count(GetRecentSeasonItems(today, catalog), PvCached(s, now))
    ensures r.rssCached == Count(GetRecentSeasonItems(today, catalog), RssCached(s, now))
    ensures r.imageCached <= r.totalItems && r.pvCached <= r.totalItems && r.rssCached <= r.totalItems
  {
    var cur, prev := CurrentSeason(today), PreviousSeason(today);
    CurrentIsNotPrevious(today);
    var recent := GetRecentSeasonItems(today, catalog);
    assert forall i :: 0 <= i < |recent| ==> (InSeason(cur)(recent[i]) || InSeason(prev)(recent[i])) && !(InSeason(cur)(recent[i]) && InSeason(prev)(recent[i])) by {
      forall i | 0 <= i < |recent|
        ensures (InSeason(cur)(recent[i]) || InSeason(prev)(recent[i])) && !(InSeason(cur)(recent[i]) && InSeason(prev)(recent[i]))
      {
        assert recent[i] in recent;
      }
    }
    var nCur, nPrev, nImg, nPv, nRss := CountWorkingSet(recent, InSeason(cur), InSeason(prev), ImageCached(s, now), PvCached(s, now), RssCached(s, now));
    r := SeasonsStatus(cur, prev, |recent|, nCur, nPrev, nImg, nPv, nRss);
  }
}
