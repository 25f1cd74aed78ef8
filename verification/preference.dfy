/**
 * The client's preference stores (`packages/client_v2/src/stores/preference.ts`):
 * the common display preferences and the watching list, each stamped with a
 * `version` that is the time of the last change. The clock is a parameter
 * `now` of every action that reads it.
 */
module Preference {
  import opened Common

  /** `VersionedCommonPreference`. */
  datatype CommonPreference = CommonPreference(
    newOnly: bool,
    watchingOnly: bool,
    hoistWatching: bool,
    bangumiDomain: string,
    mikanDomain: string,
    version: int)

  /** `VersionedBangumiPreference`: the ids of the shows being watched. */
  datatype BangumiPreference = BangumiPreference(watching: seq<string>, version: int)

  /** A partial update of the common preference: `None` for a field the update leaves out. */
  datatype CommonUpdate = CommonUpdate(
    newOnly: Option<bool>,
    watchingOnly: Option<bool>,
    hoistWatching: Option<bool>,
    bangumiDomain: Option<string>,
    mikanDomain: Option<string>)

  const DefaultBangumiDomain := "bangumi.tv"
  const DefaultMikanDomain := "mikanani.me"

  /** The store's contents before anything is set, created at time `now`. */
  function InitialCommon(now: int): CommonPreference {
    CommonPreference(false, false, false, DefaultBangumiDomain, DefaultMikanDomain, now)
  }

  /** The watching list before anything is set, created at time `now`. */
  function InitialBangumi(now: int): BangumiPreference {
    BangumiPreference([], now)
  }

  /** No id is listed twice. */
  predicate Distinct(xs: seq<string>) {
    forall i, j :: 0 <= i < j < |xs| ==> xs[i] != xs[j]
  }

  // ------------------------------------------------------------ set / update

  /** `setCommonPreference`: every field of the argument is copied into the store. */
  function SetCommon(store: CommonPreference, p: CommonPreference): (r: CommonPreference)
    ensures r.newOnly == p.newOnly && r.watchingOnly == p.watchingOnly && r.hoistWatching == p.hoistWatching
    ensures r.bangumiDomain == p.bangumiDomain && r.mikanDomain == p.mikanDomain && r.version == p.version
  {
    p
  }

  /** `setBangumiPreference`: the list and its version are copied into the store. */
  function SetBangumi(store: BangumiPreference, p: BangumiPreference): (r: BangumiPreference)
    ensures r.watching == p.watching && r.version == p.version
  {
    p
  }

  /** Setting forgets the earlier contents: the result depends on the argument alone. */
  lemma SetForgetsStore(a: CommonPreference, b: CommonPreference, p: CommonPreference, x: BangumiPreference, y: BangumiPreference, q: BangumiPreference)
    ensures SetCommon(a, p) == SetCommon(b, p)
    ensures SetBangumi(x, q) == SetBangumi(y, q)
    ensures SetCommon(SetCommon(a, InitialCommon(0)), p) == SetCommon(a, p)
  {
  }

  /** `updateCommonPreference`: the given fields overwrite the store's, and the version becomes `now`. */
  function UpdateCommon(store: CommonPreference, u: CommonUpdate, now: int): (r: CommonPreference)
    ensures r.version == now
    ensures u.newOnly.Some? ==> r.newOnly == u.newOnly.value
    ensures u.newOnly.None? ==> r.newOnly == store.newOnly
    ensures u.watchingOnly.Some? ==> r.watchingOnly == u.watchingOnly.value
    ensures u.watchingOnly.None? ==> r.watchingOnly == store.watchingOnly
    ensures u.hoistWatching.Some? ==> r.hoistWatching == u.hoistWatching.value
    ensures u.hoistWatching.None? ==> r.hoistWatching == store.hoistWatching
    ensures u.bangumiDomain.Some? ==> r.bangumiDomain == u.bangumiDomain.value
    ensures u.bangumiDomain.None? ==> r.bangumiDomain == store.bangumiDomain
    ensures u.mikanDomain.Some? ==> r.mikanDomain == u.mikanDomain.value
    ensures u.mikanDomain.None? ==> r.mikanDomain == store.mikanDomain
  {
    CommonPreference(
      u.newOnly.GetOr(store.newOnly),
      u.watchingOnly.GetOr(store.watchingOnly),
      u.hoistWatching.GetOr(store.hoistWatching),
      u.bangumiDomain.GetOr(store.bangumiDomain),
      u.mikanDomain.GetOr(store.mikanDomain),
      now)
  }

  /** The update that changes no field. */
  const NoUpdate := CommonUpdate(None, None, None, None, None)

  /** `b` applied after `a`, as one update: a field `b` gives wins, otherwise `a`'s. */
  function Then(a: CommonUpdate, b: CommonUpdate): CommonUpdate {
    CommonUpdate(
      if b.newOnly.Some? then b.newOnly else a.newOnly,
      if b.watchingOnly.Some? then b.watchingOnly else a.watchingOnly,
      if b.hoistWatching.Some? then b.hoistWatching else a.hoistWatching,
      if b.bangumiDomain.Some? then b.bangumiDomain else a.bangumiDomain,
      if b.mikanDomain.Some? then b.mikanDomain else a.mikanDomain)
  }

  /** An empty update changes only the version; two updates in a row are one merged update; repeating an update only moves the version. */
  lemma UpdateCommonLaws(store: CommonPreference, a: CommonUpdate, b: CommonUpdate, t1: int, t2: int)
    ensures UpdateCommon(store, NoUpdate, t2) == store.(version := t2)
    ensures UpdateCommon(UpdateCommon(store, a, t1), b, t2) == UpdateCommon(store, Then(a, b), t2)
    ensures UpdateCommon(UpdateCommon(store, a, t1), a, t2) == UpdateCommon(store, a, t1).(version := t2)
  {
  }

  // ------------------------------------------------------------ watching list

  /** `w2` is `w` without its element at `i`, which is the first occurrence of `id`. */
  predicate RemovedFirst(w: seq<string>, id: string, i: int, w2: seq<string>) {
    && 0 <= i < |w|
    && w[i] == id
    && id !in w[..i]
    && w2 == w[..i] + w[i + 1..]
  }

  /** `toggleWatching`: the first occurrence of `id` is removed if there is one, otherwise `id` is appended; the version always becomes `now`. */
  function ToggleWatching(p: BangumiPreference, id: string, now: int): (r: BangumiPreference)
    ensures r.version == now
    ensures id !in p.watching ==> r.watching == p.watching + [id]
    ensures id in p.watching ==> |r.watching| == |p.watching| - 1 && multiset(r.watching) == multiset(p.watching) - multiset{id}
    ensures id in p.watching ==> exists i :: RemovedFirst(p.watching, id, i, r.watching)
  {
    var index := IndexOf(p.watching, id);
    if index >= 0 then
      var w := RemoveAt(p.watching, index);
      assert multiset(w) + multiset{id} == multiset(p.watching);
      assert RemovedFirst(p.watching, id, index, w);
      BangumiPreference(w, now)
    else BangumiPreference(p.watching + [id], now)
  }

  /** `addBangumiWatching`: an absent id is appended and the version becomes `now`; a present one changes nothing, the version included. */
  function AddWatching(p: BangumiPreference, id: string, now: int): (r: BangumiPreference)
    ensures id in r.watching
    ensures id in p.watching ==> r == p
    ensures id !in p.watching ==> r.watching == p.watching + [id] && r.version == now
  {
    if id !in p.watching then BangumiPreference(p.watching + [id], now) else p
  }

  /** `removeBangumiWatching`: the first occurrence of a present id is removed and the version becomes `now`; an absent id changes nothing. */
  function RemoveWatching(p: BangumiPreference, id: string, now: int): (r: BangumiPreference)
    ensures id !in p.watching ==> r == p
    ensures id in p.watching ==> r.version == now && |r.watching| == |p.watching| - 1
    ensures id in p.watching ==> multiset(r.watching) == multiset(p.watching) - multiset{id}
    ensures id in p.watching ==> exists i :: RemovedFirst(p.watching, id, i, r.watching)
  {
    var index := IndexOf(p.watching, id);
    if index >= 0 then
      var w := RemoveAt(p.watching, index);
      assert multiset(w) + multiset{id} == multiset(p.watching);
      assert RemovedFirst(p.watching, id, index, w);
      BangumiPreference(w, now)
    else p
  }

  /** Toggling is removing a watched id and adding an unwatched one, except that it always moves the version. */
  lemma ToggleIsAddOrRemove(p: BangumiPreference, id: string, now: int)
    ensures id in p.watching ==> ToggleWatching(p, id, now) == RemoveWatching(p, id, now)
    ensures id !in p.watching ==> ToggleWatching(p, id, now) == AddWatching(p, id, now)
  {
  }

  /** Removing a present id keeps every other id, in its order. */
  lemma RemoveKeepsOthers(p: BangumiPreference, id: string, now: int)
    ensures Filter(RemoveWatching(p, id, now).watching, NotId(id)) == Filter(p.watching, NotId(id))
  {
    var k := IndexOf(p.watching, id);
    if k >= 0 {
      FilterRemoveAt(p.watching, k, NotId(id));
    }
  }

  /** The predicate "is not `id`". */
  function NotId(id: string): string -> bool {
    (x: string) => x != id
  }

  /** An id is removed from the first occurrence on: on a duplicate-free list, removal leaves no trace of it. */
  lemma RemoveFromDistinct(p: BangumiPreference, id: string, now: int)
    requires Distinct(p.watching)
    ensures id !in RemoveWatching(p, id, now).watching
    ensures Distinct(RemoveWatching(p, id, now).watching)
  {
    var w := p.watching;
    var k := IndexOf(w, id);
    if k >= 0 {
      var r := RemoveAt(w, k);
      assert RemoveWatching(p, id, now).watching == r;
      forall i | 0 <= i < |r|
        ensures r[i] != id
      {
        RemoveAtIndex(w, k, i);
      }
      forall i, j | 0 <= i < j < |r|
        ensures r[i] != r[j]
      {
        RemoveAtIndex(w, k, i);
        RemoveAtIndex(w, k, j);
      }
    }
  }

  /** Adding keeps a duplicate-free list duplicate-free. */
  lemma AddKeepsDistinct(p: BangumiPreference, id: string, now: int)
    requires Distinct(p.watching)
    ensures Distinct(AddWatching(p, id, now).watching)
  {
  }

  /** Adding twice is adding once. */
  lemma AddIdempotent(p: BangumiPreference, id: string, t1: int, t2: int)
    ensures AddWatching(AddWatching(p, id, t1), id, t2) == AddWatching(p, id, t1)
  {
  }

  /** Removing an id just added gives the original list back. */
  lemma RemoveUndoesAdd(p: BangumiPreference, id: string, t1: int, t2: int)
    requires id !in p.watching
    ensures RemoveWatching(AddWatching(p, id, t1), id, t2).watching == p.watching
  {
    var w := p.watching + [id];
    IndexOfAppended(p.watching, id);
    assert w[..|p.watching|] == p.watching;
  }

  /** Toggling an unwatched id twice gives the original list back. */
  lemma ToggleTwiceRestores(p: BangumiPreference, id: string, t1: int, t2: int)
    requires id !in p.watching
    ensures ToggleWatching(ToggleWatching(p, id, t1), id, t2).watching == p.watching
    ensures ToggleWatching(ToggleWatching(p, id, t1), id, t2).version == t2
  {
    var w := p.watching + [id];
    IndexOfAppended(p.watching, id);
    assert w[..|p.watching|] == p.watching;
  }

  /** Toggling a watched id twice, on a duplicate-free list, moves it to the end. */
  lemma ToggleTwiceMovesToEnd(p: BangumiPreference, id: string, t1: int, t2: int)
    requires Distinct(p.watching) && id in p.watching
    ensures ToggleWatching(ToggleWatching(p, id, t1), id, t2).watching == RemoveWatching(p, id, t1).watching + [id]
  {
    RemoveFromDistinct(p, id, t1);
  }

  /** The first index of an id appended to a list without it is the old length. */
  lemma IndexOfAppended(xs: seq<string>, x: string)
    requires x !in xs
    ensures IndexOf(xs + [x], x) == |xs|
  {
    assert (xs + [x])[|xs|] == x;
  }
}
