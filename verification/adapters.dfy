/**
 * The image and preview-video fetch adapters (`BangumiService.fetchImage`,
 * `BilibiliService.fetchSeasonId`, `BilibiliService.fetchPvBvid`), as
 * functions of the already-decoded HTTP response.
 *
 * Each adapter catches every error it meets and answers `null`: a failed
 * request, a rejected status, or a malformed body. Their result type here is
 * therefore `Option`, with no way to express "throws".
 */
module Adapters {
  import opened Common
  import Cache

  /** The result of one HTTP request: the decoded body, or an error thrown by the client (network, timeout, status rejected). */
  datatype Http<T> = Response(body: T) | Failed

  /**
   * The bilibili media-review response: `code` and `result.media.season_id`,
   * `None` when any step of that path is missing.
   */
  datatype MediaResponse = MediaResponse(code: int, seasonId: Option<int>)

  /** `fetchSeasonId`: the season id when `code` is 0 and the id is truthy (non-zero), else `null`. */
  function FetchSeasonId(resp: Http<MediaResponse>): (r: Option<int>)
    ensures r.Some? <==> resp.Response? && resp.body.code == 0 && resp.body.seasonId.Some? && resp.body.seasonId.value != 0
    ensures r.Some? ==> r.value == resp.body.seasonId.value
  {
    match resp
    case Failed => None
    case Response(body) =>
      if body.code == 0 && body.seasonId.Some? && body.seasonId.value != 0 then body.seasonId else None
  }

  /** One episode of a season listing; `bvid` is "" when absent. */
  datatype Episode = Episode(bvid: string)

  /** One section of a season listing; `title` is `None` when the field is missing, `episodes` likewise. */
  datatype Section = Section(title: Option<string>, episodes: Option<seq<Episode>>)

  /** The season-listing response: `code` and `result.section`, `None` when missing. */
  datatype SeasonResponse = SeasonResponse(code: int, sections: Option<seq<Section>>)

  /** Section `i` is the one `find(s => s.title.includes('PV'))` returns: every earlier title exists and lacks "PV", and its own has it. */
  predicate IsFirstPvSection(secs: seq<Section>, i: int) {
    && 0 <= i < |secs|
    && (forall j :: 0 <= j < i ==> secs[j].title.Some? && !Contains(secs[j].title.value, "PV"))
    && secs[i].title.Some? && Contains(secs[i].title.value, "PV")
  }

  /** Section `i` is the first without a title, and every earlier title exists and lacks "PV": the scan reaches it and throws. */
  predicate IsFirstUntitled(secs: seq<Section>, i: int) {
    && 0 <= i < |secs|
    && (forall j :: 0 <= j < i ==> secs[j].title.Some? && !Contains(secs[j].title.value, "PV"))
    && secs[i].title.None?
  }

  /** `section.episodes?.[0]?.bvid` is truthy. */
  predicate HasFirstBvid(sec: Section) {
    sec.episodes.Some? && |sec.episodes.value| > 0 && sec.episodes.value[0].bvid != ""
  }

  /** Outcome of the `find` scan: the index found, nothing found, or a section without a title (a thrown `TypeError`). */
  datatype PvSearch = Found(index: nat) | NotFound | TitleMissing

  /** The `find` scan over the sections for the first title containing "PV". */
  function FindPvSection(secs: seq<Section>): (r: PvSearch)
    ensures r.Found? <==> exists i :: IsFirstPvSection(secs, i)
    ensures r.Found? ==> IsFirstPvSection(secs, r.index)
    ensures r.TitleMissing? <==> exists i :: IsFirstUntitled(secs, i)
    decreases |secs|
  {
    if |secs| == 0 then NotFound
    else if secs[0].title.None? then
      assert IsFirstUntitled(secs, 0);
      TitleMissing
    else if Contains(secs[0].title.value, "PV") then
      assert IsFirstPvSection(secs, 0);
      Found(0)
    else
      var rest := FindPvSection(secs[1..]);
      FirstPvShift(secs);
      FirstUntitledShift(secs);
      match rest
      case Found(i) => Found(i + 1)
      case NotFound => NotFound
      case TitleMissing => TitleMissing
  }

  /** A first PV section past the head is the first PV section of the tail, one index later. */
  lemma FirstPvShift(secs: seq<Section>)
    requires |secs| > 0 && secs[0].title.Some? && !Contains(secs[0].title.value, "PV")
    ensures forall i :: IsFirstPvSection(secs, i + 1) <==> IsFirstPvSection(secs[1..], i)
    ensures forall i :: IsFirstPvSection(secs, i) ==> i > 0
    ensures (exists i :: IsFirstPvSection(secs, i)) <==> (exists i :: IsFirstPvSection(secs[1..], i))
  {
    forall i
      ensures IsFirstPvSection(secs, i + 1) <==> IsFirstPvSection(secs[1..], i)
    {
      if IsFirstPvSection(secs[1..], i) {
        forall j | 0 <= j < i + 1
          ensures secs[j].title.Some? && !Contains(secs[j].title.value, "PV")
        {
          if j > 0 {
            assert secs[j] == secs[1..][j - 1];
          }
        }
      }
      if IsFirstPvSection(secs, i + 1) {
        forall j | 0 <= j < i
          ensures secs[1..][j].title.Some? && !Contains(secs[1..][j].title.value, "PV")
        {
          assert secs[1..][j] == secs[j + 1];
        }
      }
    }
    if i :| IsFirstPvSection(secs, i) {
      assert IsFirstPvSection(secs[1..], i - 1);
    }
  }

  /** A first untitled section past the head is the first untitled section of the tail, one index later. */
  lemma FirstUntitledShift(secs: seq<Section>)
    requires |secs| > 0 && secs[0].title.Some? && !Contains(secs[0].title.value, "PV")
    ensures (exists i :: IsFirstUntitled(secs, i)) <==> (exists i :: IsFirstUntitled(secs[1..], i))
  {
    if i :| IsFirstUntitled(secs, i) {
      assert i > 0;
      forall j | 0 <= j < i - 1
        ensures secs[1..][j].title.Some? && !Contains(secs[1..][j].title.value, "PV")
      {
        assert secs[1..][j] == secs[j + 1];
      }
      assert IsFirstUntitled(secs[1..], i - 1);
    }
    if i :| IsFirstUntitled(secs[1..], i) {
      forall j | 0 <= j < i + 1
        ensures secs[j].title.Some? && !Contains(secs[j].title.value, "PV")
      {
        if j > 0 {
          assert secs[j] == secs[1..][j - 1];
        }
      }
      assert IsFirstUntitled(secs, i + 1);
    }
  }

  /**
   * `fetchPvBvid`: the first episode's bvid of the first section whose title
   * contains "PV", when `code` is 0. Later PV sections are never consulted.
   */
  function FetchPvBvid(resp: Http<SeasonResponse>): (r: Option<string>)
    ensures r.Some? <==>
      resp.Response? && resp.body.code == 0 && resp.body.sections.Some? &&
      exists i :: IsFirstPvSection(resp.body.sections.value, i) && HasFirstBvid(resp.body.sections.value[i])
    ensures r.Some? ==>
      r.value != "" && exists i :: IsFirstPvSection(resp.body.sections.value, i) && r.value == resp.body.sections.value[i].episodes.value[0].bvid
  {
    match resp
    case Failed => None
    case Response(body) =>
      if body.code != 0 || body.sections.None? then None
      else
        var secs := body.sections.value;
        match FindPvSection(secs)
        case Found(i) =>
          FirstPvUnique(secs, i);
          if HasFirstBvid(secs[i]) then Some(secs[i].episodes.value[0].bvid) else None
        case NotFound => None
        case TitleMissing => None
  }

  /** There is at most one first PV section. */
  lemma FirstPvUnique(secs: seq<Section>, i: int)
    requires IsFirstPvSection(secs, i)
    ensures forall k :: IsFirstPvSection(secs, k) ==> k == i
  {
  }

  /** The bangumi image endpoint's answer: the status and the `location` header ("" when absent). */
  datatype ImageResponse = ImageResponse(status: int, location: string)

  /**
   * `fetchImage`: a 302 answer's `location`, unless it is missing or the
   * no-cover picture; any other status is an error the adapter swallows.
   */
  function FetchImage(resp: Http<ImageResponse>): (r: Option<string>)
    ensures r.Some? <==> resp.Response? && resp.body.status == 302 && resp.body.location != "" && resp.body.location != Cache.NoIconUrl
    ensures r.Some? ==> r.value == resp.body.location
  {
    match resp
    case Failed => None
    case Response(body) =>
      if body.status != 302 then None
      else
        var finalUrl := if body.location != "" then body.location else Cache.NoIconUrl;
        if finalUrl == Cache.NoIconUrl then None else Some(finalUrl)
  }
}
