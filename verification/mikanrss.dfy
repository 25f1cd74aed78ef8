/**
 * The release-feed adapter (`MikanRssService`): the feed url of a show, the
 * bounded retry-with-backoff loop of one feed fetch, the redirect handling
 * and checks of a single attempt, and the normalisation of the parsed feed.
 *
 * The network and the XML parser are parameters: `world(k, referrer)` says
 * what attempt `k` receives when it sends `referrer`, and `parse` is what
 * the XML parser makes of a body (`None` when it throws). Sleeping is
 * recorded as the list of waits, in milliseconds.
 */
module MikanRss {
  import opened Common
  import opened Types

  const MikanUrlBase := "https://mikanani.me"

  /** The attempt limit when the environment gives none. */
  const DefaultMaxRetries := 3

  /** The first back-off wait, in milliseconds, when the environment gives none. */
  const DefaultBaseDelay := 3000

  /** The wait used instead of a negative one. */
  const FallbackDelay := 100

  /** `Number(process.env.X) || d`: a configured number is used unless it is missing, not a number, or zero. */
  function EnvNumberOr(configured: Option<int>, d: int): (r: int)
    ensures configured.Some? && configured.value != 0 ==> r == configured.value
    ensures configured.None? || configured.value == 0 ==> r == d
  {
    if configured.Some? && configured.value != 0 then configured.value else d
  }

  /** `getMikanRssUrl`: the feed url of a mikan show id; an empty id throws. */
  function GetMikanRssUrl(mikanId: string): (r: Result<string, string>)
    ensures r.Failure? <==> mikanId == ""
    ensures r.Success? ==> r.value == "https://mikanani.me/RSS/Bangumi?bangumiId=" + mikanId
  {
    if mikanId == "" then Failure("Invalid mikanId provided")
    else Success(MikanUrlBase + "/RSS/Bangumi?bangumiId=" + mikanId)
  }

  // ---------------------------------------------------------------- referrer

  /** JavaScript `s.split(c)` for a one-character separator. */
  function SplitOn(s: string, c: char): (parts: seq<string>)
    ensures |parts| >= 1
    ensures c !in s ==> parts == [s]
    decreases |s|
  {
    var i := IndexOf(s, c);
    if i < 0 then [s] else [s[..i]] + SplitOn(s[i + 1..], c)
  }

  /** Splitting at the first separator peels off the text before it. */
  lemma SplitOnFirst(a: string, c: char, b: string)
    requires c !in a
    ensures SplitOn(a + [c] + b, c) == [a] + SplitOn(b, c)
  {
    var s := a + [c] + b;
    assert s[|a|] == c;
    assert forall k :: 0 <= k < |a| ==> s[k] == a[k];
    assert forall r :: |a| < r <= |s| ==> s[..r][|a|] == c;
    assert IndexOf(s, c) == |a|;
    assert s[..|a|] == a;
    assert s[|a| + 1..] == b;
  }

  /** `rssUrl.split('?')[1]`: the text between the first and second '?', or "" when there is no '?'. */
  function QueryOf(url: string): string {
    var parts := SplitOn(url, '?');
    if |parts| >= 2 then parts[1] else ""
  }

  /** The name part of a `name=value` query pair. */
  function PairName(pair: string): string {
    var i := IndexOf(pair, '=');
    if i < 0 then pair else pair[..i]
  }

  /** The value part of a `name=value` query pair ("" when there is no '='). */
  function PairValue(pair: string): string {
    var i := IndexOf(pair, '=');
    if i < 0 then "" else pair[i + 1..]
  }

  /** Pair `i` is a non-empty pair named `name`. */
  predicate PairNamed(pairs: seq<string>, i: int, name: string) {
    0 <= i < |pairs| && pairs[i] != "" && PairName(pairs[i]) == name
  }

  /** `URLSearchParams.get(name)` over the '&'-separated pairs: the value of the first pair with that name. */
  function ParamGet(pairs: seq<string>, name: string): Option<string>
    decreases |pairs|
  {
    if |pairs| == 0 then None
    else if pairs[0] != "" && PairName(pairs[0]) == name then Some(PairValue(pairs[0]))
    else ParamGet(pairs[1..], name)
  }

  /** `ParamGet` answers the value of the first pair with the name, and `None` when no pair has it. */
  lemma {:induction false} ParamGetFirst(pairs: seq<string>, name: string)
    ensures (forall i :: !PairNamed(pairs, i, name)) ==> ParamGet(pairs, name).None?
    ensures forall i ::
      (PairNamed(pairs, i, name) && (forall j :: 0 <= j < i ==> !PairNamed(pairs, j, name)))
      ==> ParamGet(pairs, name) == Some(PairValue(pairs[i]))
    decreases |pairs|
  {
    if |pairs| > 0 {
      ParamGetFirst(pairs[1..], name);
      forall i | 0 <= i < |pairs[1..]|
        ensures PairNamed(pairs[1..], i, name) == PairNamed(pairs, i + 1, name)
      {
        assert pairs[1..][i] == pairs[i + 1];
      }
      if !PairNamed(pairs, 0, name) {
        forall i | PairNamed(pairs, i, name) && (forall j :: 0 <= j < i ==> !PairNamed(pairs, j, name))
          ensures ParamGet(pairs, name) == Some(PairValue(pairs[i]))
        {
          assert i > 0;
          assert PairNamed(pairs[1..], i - 1, name);
          forall j | 0 <= j < i - 1 ensures !PairNamed(pairs[1..], j, name) {
            assert !PairNamed(pairs, j + 1, name);
          }
        }
      }
    }
  }

  /** The referrer header of a feed request: the show page when the url names a `bangumiId`, else the site root. */
  function Referrer(rssUrl: string): string {
    var id := ParamGet(SplitOn(QueryOf(rssUrl), '&'), "bangumiId");
    if id.Some? && id.value != "" then MikanUrlBase + "/Home/Bangumi/" + id.value else MikanUrlBase + "/"
  }

  /** The query of a feed url is its single `bangumiId` pair. */
  lemma FeedUrlQuery(mikanId: string)
    requires mikanId != "" && '?' !in mikanId
    ensures QueryOf(GetMikanRssUrl(mikanId).value) == "bangumiId=" + mikanId
  {
    var prefix := "https://mikanani.me/RSS/Bangumi";
    var query := "bangumiId=" + mikanId;
    assert GetMikanRssUrl(mikanId).value == prefix + ['?'] + query;
    assert '?' !in prefix;
    assert '?' !in "bangumiId=";
    assert '?' !in query;
    SplitOnFirst(prefix, '?', query);
  }

  /** The pair `bangumiId=<id>` has name `bangumiId` and value `<id>`. */
  lemma BangumiIdPair(mikanId: string)
    ensures PairName("bangumiId=" + mikanId) == "bangumiId"
    ensures PairValue("bangumiId=" + mikanId) == mikanId
  {
    var query := "bangumiId=" + mikanId;
    assert query[9] == '=';
    assert query[..9] == "bangumiId";
    assert '=' !in "bangumiId";
    assert IndexOf(query, '=') == 9;
    assert query[10..] == mikanId;
  }

  /** The feed url of a show id sends that show's page as referrer (for ids without '?' or '&'). */
  lemma {:induction false} ReferrerOfFeedUrl(mikanId: string)
    requires mikanId != "" && '?' !in mikanId && '&' !in mikanId
    ensures GetMikanRssUrl(mikanId).Success?
    ensures Referrer(GetMikanRssUrl(mikanId).value) == MikanUrlBase + "/Home/Bangumi/" + mikanId
  {
    var url := GetMikanRssUrl(mikanId).value;
    var query := "bangumiId=" + mikanId;
    FeedUrlQuery(mikanId);
    assert '&' !in "bangumiId=";
    assert '&' !in query;
    var pairs := SplitOn(QueryOf(url), '&');
    assert pairs == [query];
    BangumiIdPair(mikanId);
    ParamGetFirst(pairs, "bangumiId");
    assert PairNamed(pairs, 0, "bangumiId");
    assert ParamGet(pairs, "bangumiId") == Some(mikanId);
  }

  /** A bare show id used as the url (as the refresh pass does) sends the site root as referrer. */
  lemma RawIdReferrer(mikanId: string)
    requires '?' !in mikanId
    ensures Referrer(mikanId) == "https://mikanani.me/"
  {
    assert QueryOf(mikanId) == "";
    assert SplitOn("", '&') == [""];
    ParamGetFirst([""], "bangumiId");
  }

  // ---------------------------------------------------------- normalisation

  /** An enclosure as the XML parser delivers it (each attribute possibly missing). */
  datatype RawEnclosure = RawEnclosure(url: Option<string>, mimeType: Option<string>, length: Option<string>)

  /** A channel item as the XML parser delivers it. */
  datatype RawItem = RawItem(
    title: Option<string>,
    description: Option<string>,
    link: Option<string>,
    pubDate: Option<string>,
    guid: Option<string>,
    enclosure: Option<RawEnclosure>)

  /** `channel.item`: missing, a single object (one `<item>`), or an array. */
  datatype ChannelItems = NoItems | OneItem(item: RawItem) | ItemArray(items: seq<RawItem>)

  /** A feed channel as the XML parser delivers it. */
  datatype Channel = Channel(title: Option<string>, description: Option<string>, link: Option<string>, item: ChannelItems)

  /** A parsed XML document: `rss`, and `rss.channel`, each possibly missing. */
  datatype XmlDocument = XmlDocument(rss: Option<Option<Channel>>)

  /** `x || ''`. */
  function OrEmpty(x: Option<string>): (r: string)
    ensures x.Some? ==> r == x.value
    ensures x.None? ==> r == ""
  {
    x.GetOr("")
  }

  /** The channel items as a list: an array as is, a single item wrapped, a missing one as the empty list. */
  function ItemList(ci: ChannelItems): (r: seq<RawItem>)
    ensures ci.NoItems? ==> r == []
    ensures ci.OneItem? ==> r == [ci.item]
    ensures ci.ItemArray? ==> r == ci.items
  {
    match ci
    case NoItems => []
    case OneItem(it) => [it]
    case ItemArray(its) => its
  }

  /** One normalised feed item: missing text fields become "", an empty guid becomes absent. */
  function NormalizeItem(raw: RawItem): (r: RssItem)
    ensures r.title == OrEmpty(raw.title) && r.description == OrEmpty(raw.description)
    ensures r.link == OrEmpty(raw.link) && r.pubDate == OrEmpty(raw.pubDate)
    ensures r.guid.Some? <==> raw.guid.Some? && raw.guid.value != ""
    ensures r.guid.Some? ==> r.guid == raw.guid
    ensures r.enclosure.Some? <==> raw.enclosure.Some?
  {
    RssItem(
      OrEmpty(raw.title),
      OrEmpty(raw.description),
      OrEmpty(raw.link),
      OrEmpty(raw.pubDate),
      if raw.guid.Some? && raw.guid.value != "" then raw.guid else None,
      match raw.enclosure
      case None => None
      case Some(e) => Some(Enclosure(OrEmpty(e.url), OrEmpty(e.mimeType), OrEmpty(e.length))))
  }

  /** The feed content of a channel: one normalised item per channel item, in order. */
  function NormalizeChannel(ch: Channel): (r: RssContent)
    ensures r.title == OrEmpty(ch.title) && r.description == OrEmpty(ch.description) && r.link == OrEmpty(ch.link)
    ensures |r.items| == |ItemList(ch.item)|
    ensures forall i :: 0 <= i < |r.items| ==> r.items[i] == NormalizeItem(ItemList(ch.item)[i])
  {
    var raw := ItemList(ch.item);
    RssContent(OrEmpty(ch.title), OrEmpty(ch.description), OrEmpty(ch.link), seq(|raw|, i requires 0 <= i < |raw| => NormalizeItem(raw[i])))
  }

  // ------------------------------------------------------------ one attempt

  const RedirectMarker := "window.location.replace"
  const RedirectCall := "window.location.replace('"

  /**
   * `/window\.location\.replace\('([^']+)'\)/` matches at index `i` with
   * group `target`: the call text, a non-empty run without quotes, then `')`.
   */
  predicate RedirectMatchAt(body: string, i: int, target: string) {
    && OccursAt(body, RedirectCall, i)
    && target != "" && '\'' !in target
    && OccursAt(body, target, i + |RedirectCall|)
    && OccursAt(body, "')", i + |RedirectCall| + |target|)
  }

  /** The regular expression tried at index `i` alone. */
  function MatchRedirectAt(body: string, i: nat): Option<string> {
    if !OccursAt(body, RedirectCall, i) then None
    else
      var start := i + |RedirectCall|;
      var k := IndexOf(body[start..], '\'');
      if k > 0 && start + k + 1 < |body| && body[start + k + 1] == ')' then Some(body[start..start + k])
      else None
  }

  /** `MatchRedirectAt` finds exactly the match of the pattern at `i`, if there is one. */
  lemma MatchRedirectAtSpec(body: string, i: nat)
    ensures MatchRedirectAt(body, i).Some? ==> RedirectMatchAt(body, i, MatchRedirectAt(body, i).value)
    ensures forall t :: RedirectMatchAt(body, i, t) ==> MatchRedirectAt(body, i) == Some(t)
  {
    if OccursAt(body, RedirectCall, i) {
      MatchRedirectAtSound(body, i);
      forall t | RedirectMatchAt(body, i, t) ensures MatchRedirectAt(body, i) == Some(t) {
        MatchRedirectAtComplete(body, i, t);
      }
    }
  }

  /** What `MatchRedirectAt` finds is a match of the pattern. */
  lemma MatchRedirectAtSound(body: string, i: nat)
    requires OccursAt(body, RedirectCall, i)
    ensures MatchRedirectAt(body, i).Some? ==> RedirectMatchAt(body, i, MatchRedirectAt(body, i).value)
  {
    var start := i + |RedirectCall|;
    var rest := body[start..];
    var k := IndexOf(rest, '\'');
    if k > 0 && start + k + 1 < |body| && body[start + k + 1] == ')' {
      assert body[start..start + k] == rest[..k];
      assert body[start + k..start + k + 2] == "')";
    }
  }

  /** A match of the pattern at `i` is what `MatchRedirectAt` finds. */
  lemma MatchRedirectAtComplete(body: string, i: nat, t: string)
    requires RedirectMatchAt(body, i, t)
    ensures MatchRedirectAt(body, i) == Some(t)
  {
    var start := i + |RedirectCall|;
    QuotedAt(body, start, t);
    assert OccursAt(body, RedirectCall, i);
    assert MatchRedirectAt(body, i) == Some(body[start..start + |t|]);
  }

  /** A quote-free `t` followed by `')` at `start` is the text up to the first quote from `start` on. */
  lemma QuotedAt(body: string, start: nat, t: string)
    requires '\'' !in t && OccursAt(body, t, start) && OccursAt(body, "')", start + |t|)
    ensures IndexOf(body[start..], '\'') == |t|
    ensures start + |t| + 1 < |body| && body[start + |t| + 1] == ')' && body[start..start + |t|] == t
  {
    var q := start + |t|;
    assert body[q..q + 2] == "')";
    assert body[q] == body[q..q + 2][0] == '\'';
    assert body[q + 1] == body[q..q + 2][1] == ')';
    var rest := body[start..];
    assert rest[..|t|] == t;
    assert rest[|t|] == body[q];
    IndexOfAfterPrefix(rest, t, '\'');
  }

  /** The leftmost match of the redirect pattern at index `i` or later. */
  function ExtractRedirectFrom(body: string, i: nat): (r: Option<string>)
    ensures r.Some? ==> exists k :: (i <= k && RedirectMatchAt(body, k, r.value)
      && forall j, t :: i <= j < k ==> !RedirectMatchAt(body, j, t))
    ensures r.None? ==> forall k, t :: i <= k ==> !RedirectMatchAt(body, k, t)
    decreases |body| - i
  {
    MatchRedirectAtSpec(body, i);
    if i > |body| then None
    else match MatchRedirectAt(body, i)
      case Some(t) => Some(t)
      case None => ExtractRedirectFrom(body, i + 1)
  }

  /** `responseData.match(/window\.location\.replace\('([^']+)'\)/)[1]`: the redirect target of a script page. */
  function ExtractRedirect(body: string): Option<string> {
    ExtractRedirectFrom(body, 0)
  }

  /** What one HTTP request returned: a body, or a thrown error with the response status when there was one. */
  datatype HttpText = Received(text: string) | RequestFailed(status: Option<int>)

  /** What the network does during one attempt: the feed request, and the request to the redirect target if one is made. */
  datatype AttemptWorld = AttemptWorld(response: HttpText, redirectResponse: HttpText)

  /** Why an attempt failed. */
  datatype FailReason =
    | Transport(status: Option<int>)
    | NoRedirectTarget
    | RedirectNotFeed
    | NotXml
    | NotRss

  /** The outcome of one attempt of `performRequest`. */
  datatype AttemptResult = Parsed(content: RssContent) | AttemptFailed(reason: FailReason)

  /** The failure was an HTTP 429 answer (rate limiting). */
  predicate IsRateLimited(r: AttemptResult) {
    r.AttemptFailed? && r.reason == Transport(Some(429))
  }

  /** The body of a script-redirect page, or of a redirect target that is still a page and not a feed. */
  predicate LooksLikePage(body: string) {
    Contains(body, "<html>") || Contains(body, RedirectMarker)
  }

  /** The body the XML parser is given, or the reason the attempt stops before parsing. */
  function FeedBody(w: AttemptWorld): (r: Result<string, FailReason>)
    ensures w.response.RequestFailed? ==> r == Failure(Transport(w.response.status))
    ensures w.response.Received? && !Contains(w.response.text, RedirectMarker) ==> r == Success(w.response.text)
    ensures w.response.Received? && Contains(w.response.text, RedirectMarker) && ExtractRedirect(w.response.text).None?
      ==> r == Failure(NoRedirectTarget)
    ensures r.Success? && r.value != w.response.text ==> w.redirectResponse.Received? && !LooksLikePage(r.value)
  {
    match w.response
    case RequestFailed(st) => Failure(Transport(st))
    case Received(body) =>
      if !Contains(body, RedirectMarker) then Success(body)
      else match ExtractRedirect(body)
        case None => Failure(NoRedirectTarget)
        case Some(_) =>
          match w.redirectResponse
          case RequestFailed(st) => Failure(Transport(st))
          case Received(body2) =>
            if LooksLikePage(body2) then Failure(RedirectNotFeed) else Success(body2)
  }

  /** One attempt: fetch, follow a script redirect, parse, and require `rss.channel`. */
  function RunAttempt(w: AttemptWorld, parse: string -> Option<XmlDocument>): (r: AttemptResult)
    ensures r.Parsed? <==> (FeedBody(w).Success? && parse(FeedBody(w).value).Some?
      && parse(FeedBody(w).value).value.rss.Some? && parse(FeedBody(w).value).value.rss.value.Some?)
    ensures r.Parsed? ==> r.content == NormalizeChannel(parse(FeedBody(w).value).value.rss.value.value)
  {
    match FeedBody(w)
    case Failure(reason) => AttemptFailed(reason)
    case Success(body) =>
      match parse(body)
      case None => AttemptFailed(NotXml)
      case Some(doc) =>
        if doc.rss.None? || doc.rss.value.None? then AttemptFailed(NotRss)
        else Parsed(NormalizeChannel(doc.rss.value.value))
  }

  // ------------------------------------------------------- retry with backoff

  function Pow2(n: nat): (r: nat)
    ensures r >= 1
  {
    if n == 0 then 1 else 2 * Pow2(n - 1)
  }

  /** The wait after failed attempt `attempt`: `baseDelay * 2^(attempt-1)`, tripled after a 429. */
  function Backoff(baseDelay: int, attempt: nat, rateLimited: bool): int
    requires attempt >= 1
  {
    var d := baseDelay * Pow2(attempt - 1);
    if rateLimited then d * 3 else d
  }

  /** The first wait is the base delay; each further attempt doubles it; rate limiting triples it; a non-negative base never gives a negative wait. */
  lemma BackoffLaws(baseDelay: int, attempt: nat)
    requires attempt >= 1
    ensures Backoff(baseDelay, 1, false) == baseDelay
    ensures Backoff(baseDelay, attempt + 1, false) == 2 * Backoff(baseDelay, attempt, false)
    ensures Backoff(baseDelay, attempt, true) == 3 * Backoff(baseDelay, attempt, false)
    ensures baseDelay >= 0 ==> Backoff(baseDelay, attempt, true) >= Backoff(baseDelay, attempt, false) >= baseDelay
  {
    assert Pow2(attempt) == 2 * Pow2(attempt - 1);
    assert baseDelay >= 0 ==> baseDelay * Pow2(attempt - 1) >= baseDelay * 1;
  }

  /** `delay(ms)`: the duration actually slept; a negative one is replaced by 100. */
  function DelayDuration(ms: int): (r: int)
    ensures r >= 0
    ensures ms >= 0 ==> r == ms
    ensures ms < 0 ==> r == FallbackDelay
  {
    if ms < 0 then FallbackDelay else ms
  }

  /** The outcome of each attempt `k` of a request for `rssUrl`. */
  function AttemptOutcome(rssUrl: string, world: (nat, string) -> AttemptWorld, parse: string -> Option<XmlDocument>): nat -> AttemptResult {
    (k: nat) => RunAttempt(world(k, Referrer(rssUrl)), parse)
  }

  /** The wait that follows each failed attempt `k` (attempts count from 1). */
  function WaitAfter(rssUrl: string, world: (nat, string) -> AttemptWorld, parse: string -> Option<XmlDocument>, baseDelay: int): nat -> int {
    (k: nat) => if k >= 1 then DelayDuration(Backoff(baseDelay, k, IsRateLimited(AttemptOutcome(rssUrl, world, parse)(k)))) else 0
  }

  /**
   * The attempt loop of `performRequest` over given attempt outcomes and
   * waits: attempts 1, 2, ... up to `maxRetries`, stopping at the first
   * parsed feed, with a wait after every failed attempt but the last.
   */
  method RetryLoop(maxRetries: int, outcome: nat -> AttemptResult, waitAfter: nat -> int)
    returns (result: Option<RssContent>, made: nat, waits: seq<int>)
    ensures maxRetries >= 1 ==> 1 <= made <= maxRetries
    ensures maxRetries < 1 ==> made == 0 && result.None?
    ensures forall k :: 1 <= k < made ==> outcome(k).AttemptFailed?
    ensures result.Some? ==> outcome(made) == Parsed(result.value)
    ensures result.None? ==> (made == (if maxRetries < 1 then 0 else maxRetries)
      && forall k :: 1 <= k <= made ==> outcome(k).AttemptFailed?)
    ensures |waits| == (if made == 0 then 0 else made - 1)
    ensures forall k :: 1 <= k < made ==> waits[k - 1] == waitAfter(k)
  {
    result, made, waits := None, 0, [];
    var attempt: nat := 1;
    while attempt <= maxRetries
      invariant 1 <= attempt && made == attempt - 1
      invariant maxRetries >= 1 ==> attempt <= maxRetries
      invariant maxRetries < 1 ==> attempt == 1
      invariant forall k :: 1 <= k < attempt ==> outcome(k).AttemptFailed?
      invariant |waits| == attempt - 1
      invariant forall k :: 1 <= k < attempt ==> waits[k - 1] == waitAfter(k)
      decreases maxRetries - attempt
    {
      var r := outcome(attempt);
      made := attempt;
      if r.Parsed? {
        result := Some(r.content);
        return;
      }
      if attempt == maxRetries {
        return;
      }
      waits := waits + [waitAfter(attempt)];
      attempt := attempt + 1;
    }
  }

  /**
   * `performRequest`: up to `maxRetries` attempts; the first parsed feed is
   * returned, and after each failed attempt but the last the loop waits the
   * back-off time. `made` is the number of attempts made.
   */
  method PerformRequest(rssUrl: string, maxRetries: int, baseDelay: int,
                        world: (nat, string) -> AttemptWorld, parse: string -> Option<XmlDocument>)
    returns (result: Option<RssContent>, made: nat, waits: seq<int>)
    ensures maxRetries >= 1 ==> 1 <= made <= maxRetries
    ensures maxRetries < 1 ==> made == 0 && result.None?
    ensures forall k :: 1 <= k < made ==> AttemptOutcome(rssUrl, world, parse)(k).AttemptFailed?
    ensures result.Some? ==> AttemptOutcome(rssUrl, world, parse)(made) == Parsed(result.value)
    ensures result.None? ==> (made == (if maxRetries < 1 then 0 else maxRetries)
      && forall k :: 1 <= k <= made ==> AttemptOutcome(rssUrl, world, parse)(k).AttemptFailed?)
    ensures |waits| == (if made == 0 then 0 else made - 1)
    ensures forall k :: 1 <= k < made ==> waits[k - 1] == WaitAfter(rssUrl, world, parse, baseDelay)(k)
  {
    result, made, waits := RetryLoop(maxRetries, AttemptOutcome(rssUrl, world, parse), WaitAfter(rssUrl, world, parse, baseDelay));
  }

  /**
   * `fetchContent`: an empty url is rejected before any request; otherwise
   * one `performRequest`, whose failures all end as `undefined` (`None`).
   */
  method FetchContent(rssUrl: string, maxRetries: int, baseDelay: int,
                      world: (nat, string) -> AttemptWorld, parse: string -> Option<XmlDocument>)
    returns (result: Option<RssContent>, made: nat, waits: seq<int>)
    ensures rssUrl == "" ==> result.None? && made == 0 && waits == []
    ensures rssUrl != "" && maxRetries >= 1 ==> 1 <= made <= maxRetries
    ensures result.Some? ==> (made >= 1 && AttemptOutcome(rssUrl, world, parse)(made) == Parsed(result.value)
      && forall k :: 1 <= k < made ==> AttemptOutcome(rssUrl, world, parse)(k).AttemptFailed?)
    ensures result.None? && rssUrl != "" ==> forall k :: 1 <= k <= maxRetries ==> AttemptOutcome(rssUrl, world, parse)(k).AttemptFailed?
  {
    if rssUrl == "" {
      return None, 0, [];
    }
    result, made, waits := PerformRequest(rssUrl, maxRetries, baseDelay, world, parse);
  }
}
