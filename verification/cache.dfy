/**
 * The enrichment cache (`CacheService`): three key -> entry maps, one per
 * kind of enrichment data (cover image, preview-video id, release feed),
 * with a time-to-live per kind and negative entries (`isEmpty`) that record
 * "the provider was asked and has nothing".
 *
 * The clock is the explicit parameter `now` (milliseconds). Persisting the
 * maps to files is not modelled; it never changes the in-memory maps.
 */
module Cache {
  import opened Common
  import opened Types

  /** Time-to-live of image and preview-video entries: 7 days in milliseconds. */
  const CacheExpireTime: int := 7 * 24 * 60 * 60 * 1000

  /** Time-to-live of feed entries: 6 hours in milliseconds. */
  const RssCacheExpireTime: int := 6 * 60 * 60 * 1000

  /** The image provider's "no cover" picture, stored for confirmed-empty images. */
  const NoIconUrl := "https://lain.bgm.tv/img/no_icon_subject.png"

  /** A cache entry: the cached value, when it was written, and whether it is a negative entry. */
  datatype Entry<V> = Entry(value: V, timestamp: int, isEmpty: bool)

  /** The three cache maps: image url by subject id, preview bvid by media id, feed by feed key. */
  datatype Store = Store(
    image: map<string, Entry<string>>,
    pvBvid: map<string, Entry<string>>,
    rss: map<string, Entry<RssContent>>)

  /** The store before anything is loaded or written. */
  const EmptyStore := Store(map[], map[], map[])

  /** `cache[key]`: the entry under `key`, or `None` (`undefined`). */
  function Get<V>(m: map<string, Entry<V>>, key: string): (r: Option<Entry<V>>)
    ensures r.Some? <==> key in m
    ensures r.Some? ==> r.value == m[key]
  {
    if key in m then Some(m[key]) else None
  }

  /** The time-to-live used for an entry of the feed map (`isRss`) or of the other two. */
  function ExpireTime(isRss: bool): (t: int)
    ensures t == (if isRss then 21_600_000 else 604_800_000)
  {
    if isRss then RssCacheExpireTime else CacheExpireTime
  }

  /** `isExpired`: an entry written at `timestamp` is older than its time-to-live at `now`. */
  function IsExpired(now: int, timestamp: int, isRss: bool): (r: bool)
    ensures r <==> timestamp + ExpireTime(isRss) < now
  {
    now - timestamp > ExpireTime(isRss)
  }

  /** An entry exactly one time-to-live old is still fresh; one millisecond more and it is expired. */
  lemma ExpiryBoundary(now: int, isRss: bool)
    ensures !IsExpired(now, now - ExpireTime(isRss), isRss)
    ensures IsExpired(now, now - ExpireTime(isRss) - 1, isRss)
  {
  }

  /** Once expired, an entry stays expired as the clock advances. */
  lemma ExpiryMonotone(now: int, later: int, timestamp: int, isRss: bool)
    requires now <= later
    ensures IsExpired(now, timestamp, isRss) ==> IsExpired(later, timestamp, isRss)
  {
  }

  /** `isValidCache`: an entry is present and not expired. */
  function IsValidCache<V>(now: int, cached: Option<Entry<V>>, isRss: bool): (r: bool)
    ensures r <==> cached.Some? && cached.value.timestamp + ExpireTime(isRss) >= now
  {
    match cached
    case None => false
    case Some(e) => !IsExpired(now, e.timestamp, isRss)
  }

  /**
   * `shouldSkipRefresh`: the same test as `isValidCache`, so a fresh negative
   * entry suppresses a refetch exactly like a fresh positive one.
   */
  function ShouldSkipRefresh<V>(now: int, cached: Option<Entry<V>>, isRss: bool): (r: bool)
    ensures r == IsValidCache(now, cached, isRss)
    ensures cached.None? ==> !r
    ensures cached.Some? ==> (r <==> !IsExpired(now, cached.value.timestamp, isRss))
  {
    IsValidCache(now, cached, isRss)
  }

  /** Whether an entry suppresses a refresh does not depend on its value or on `isEmpty`. */
  lemma SkipIgnoresEmptiness<V>(now: int, e: Entry<V>, v: V, isRss: bool)
    ensures ShouldSkipRefresh(now, Some(e), isRss) == ShouldSkipRefresh(now, Some(Entry(v, e.timestamp, !e.isEmpty)), isRss)
  {
  }

  /** `m2` agrees with `m` on every key except `key`, which it holds. */
  predicate WritesOnly<V(==)>(m: map<string, Entry<V>>, m2: map<string, Entry<V>>, key: string) {
    && m2.Keys == m.Keys + {key}
    && forall k :: k in m && k != key ==> m2[k] == m[k]
  }

  /** `setImageCache`: `null` and the no-cover url both become a negative entry holding the no-cover url. */
  function SetImageCache(s: Store, now: int, subjectId: string, url: Option<string>): (s2: Store)
    ensures s2.pvBvid == s.pvBvid && s2.rss == s.rss
    ensures WritesOnly(s.image, s2.image, subjectId)
    ensures url.None? || url.value == NoIconUrl ==> s2.image[subjectId] == Entry(NoIconUrl, now, true)
    ensures url.Some? && url.value != NoIconUrl ==> s2.image[subjectId] == Entry(url.value, now, false)
    ensures ShouldSkipRefresh(now, Get(s2.image, subjectId), false)
  {
    var e := if url.None? || url.value == NoIconUrl then Entry(NoIconUrl, now, true) else Entry(url.value, now, false);
    s.(image := s.image[subjectId := e])
  }

  /** `setPvBvidCache`: `null` becomes a negative entry with an empty bvid. */
  function SetPvBvidCache(s: Store, now: int, mediaId: string, bvid: Option<string>): (s2: Store)
    ensures s2.image == s.image && s2.rss == s.rss
    ensures WritesOnly(s.pvBvid, s2.pvBvid, mediaId)
    ensures bvid.None? ==> s2.pvBvid[mediaId] == Entry("", now, true)
    ensures bvid.Some? ==> s2.pvBvid[mediaId] == Entry(bvid.value, now, false)
    ensures ShouldSkipRefresh(now, Get(s2.pvBvid, mediaId), false)
  {
    var e := if bvid.None? then Entry("", now, true) else Entry(bvid.value, now, false);
    s.(pvBvid := s.pvBvid[mediaId := e])
  }

  /** `setRssCache`: `null` becomes a negative entry holding an empty feed. */
  function SetRssCache(s: Store, now: int, rssUrl: string, content: Option<RssContent>): (s2: Store)
    ensures s2.image == s.image && s2.pvBvid == s.pvBvid
    ensures WritesOnly(s.rss, s2.rss, rssUrl)
    ensures content.None? ==> s2.rss[rssUrl] == Entry(EmptyRssContent, now, true)
    ensures content.Some? ==> s2.rss[rssUrl] == Entry(content.value, now, false)
    ensures ShouldSkipRefresh(now, Get(s2.rss, rssUrl), true)
  {
    var e := if content.None? then Entry(EmptyRssContent, now, true) else Entry(content.value, now, false);
    s.(rss := s.rss[rssUrl := e])
  }

  /** A negative entry written at `now` keeps suppressing refreshes for exactly one time-to-live. */
  lemma NegativeEntryLifetime(s: Store, now: int, later: int, subjectId: string)
    requires now <= later
    ensures var s2 := SetImageCache(s, now, subjectId, None);
      && s2.image[subjectId].isEmpty
      && (ShouldSkipRefresh(later, Get(s2.image, subjectId), false) <==> later <= now + CacheExpireTime)
  {
  }

  /** An image-map entry is present and expired. */
  predicate IsExpiredImage(now: int, image: map<string, Entry<string>>, id: string) {
    id in image && IsExpired(now, image[id].timestamp, false)
  }

  /** The ids of `ids` with no image entry, in input order. */
  function MissingIds(image: map<string, Entry<string>>, ids: seq<string>): (r: seq<string>)
    ensures forall id :: id in r <==> id in ids && id !in image
  {
    FilterMembers(ids, id => id !in image);
    Filter(ids, id => id !in image)
  }

  /** The ids of `ids` whose image entry is expired, in input order. */
  function ExpiredIds(now: int, image: map<string, Entry<string>>, ids: seq<string>): (r: seq<string>)
    ensures forall id :: id in r <==> id in ids && IsExpiredImage(now, image, id)
  {
    FilterMembers(ids, id => IsExpiredImage(now, image, id));
    Filter(ids, id => IsExpiredImage(now, image, id))
  }

  /**
   * `checkImageCacheBatch`: splits the ids without an image entry (`missing`)
   * from those whose entry has expired (`expired`); ids with a fresh entry are
   * in neither list.
   */
  method CheckImageCacheBatch(now: int, image: map<string, Entry<string>>, ids: seq<string>)
    returns (missing: seq<string>, expired: seq<string>)
    ensures missing == MissingIds(image, ids)
    ensures expired == ExpiredIds(now, image, ids)
    ensures forall id :: id in missing <==> id in ids && id !in image
    ensures forall id :: id in expired <==> id in ids && IsExpiredImage(now, image, id)
    ensures forall id :: id in ids && IsValidCache(now, Get(image, id), false) ==> id !in missing && id !in expired
    ensures IsSubsequence(missing, ids) && IsSubsequence(expired, ids)
  {
    missing, expired := [], [];
    var i := 0;
    while i < |ids|
      invariant 0 <= i <= |ids|
      invariant missing == MissingIds(image, ids[..i])
      invariant expired == ExpiredIds(now, image, ids[..i])
    {
      var id := ids[i];
      assert ids[..i + 1] == ids[..i] + [id];
      assert ids[..i + 1][..i] == ids[..i];
      if id !in image {
        missing := missing + [id];
      } else if IsExpired(now, image[id].timestamp, false) {
        expired := expired + [id];
      }
      i := i + 1;
    }
    assert ids[..i] == ids;
    FilterIsSubsequence(ids, id => id !in image);
    FilterIsSubsequence(ids, id => IsExpiredImage(now, image, id));
  }

  /** `getBatchCacheStatus`: each id is mapped to whether it has a fresh image entry. */
  function GetBatchCacheStatus(now: int, image: map<string, Entry<string>>, ids: seq<string>): (status: map<string, bool>)
    ensures status.Keys == set id | id in ids
    ensures forall id :: id in status ==> (status[id] <==> id in image && !IsExpired(now, image[id].timestamp, false))
  {
    map id | id in ids :: IsValidCache(now, Get(image, id), false)
  }

  /** The batch status reports exactly the ids that the batch check lists in neither of its two lists. */
  lemma BatchStatusMatchesCheck(now: int, image: map<string, Entry<string>>, ids: seq<string>, id: string)
    requires id in ids
    ensures GetBatchCacheStatus(now, image, ids)[id]
      <==> id !in MissingIds(image, ids) && id !in ExpiredIds(now, image, ids)
  {
  }
}
