/**
 * The client's release-feed title parser and release grouping: each feed
 * entry's title is scanned for an episode number (and version), a release
 * group, a resolution, a subtitle language, a container format and a video
 * source; entries are then grouped by release group, resolution, source and
 * language, and each group is ordered by episode.
 *
 * Each regular expression of the parser is modelled by a per-position
 * matcher and the leftmost-match rule (`Leftmost`).
 */
module RssParser {
  import opened Common
  import opened Types

  /** A feed entry with the fields read from its title (`ParsedRssItem`). */
  datatype ParsedRssItem = ParsedRssItem(
    title: string,
    link: string,
    episode: Option<nat>,
    subGroup: Option<string>,
    resolution: Option<string>,
    language: Option<string>,
    format: Option<string>,
    source: Option<string>,
    version: Option<string>,
    originalItem: RssItem)

  // ------------------------------------------------------------ matching

  /** The leftmost position `k` with `i <= k <= n` where `matches` holds: where a regular-expression search stops. */
  function Leftmost(n: nat, i: nat, matches: nat -> bool): (r: Option<nat>)
    ensures r.Some? ==> i <= r.value <= n && matches(r.value)
    ensures r.Some? ==> forall k :: i <= k < r.value ==> !matches(k)
    ensures r.None? ==> forall k :: i <= k <= n ==> !matches(k)
    decreases n + 1 - i
  {
    if i > n then None
    else if matches(i) then Some(i)
    else Leftmost(n, i + 1, matches)
  }

  /**
   * `open([^close]+)close`-style scanning at `k`: when `s[k]` is `open`, the
   * text from `k + 1` up to the first `close` after it.
   */
  function Bracketed(s: string, k: nat, open: char, close: char): (r: Option<string>)
    ensures r.Some? <==> k < |s| && s[k] == open && close in s[k + 1..]
    ensures r.Some? ==> var g := r.value;
      && k + |g| + 1 < |s| && s[k + 1..k + 1 + |g|] == g && s[k + 1 + |g|] == close && close !in g
  {
    if k < |s| && s[k] == open then
      var j := IndexOf(s[k + 1..], close);
      if j < 0 then None
      else
        assert s[k + 1..k + 1 + j] == s[k + 1..][..j];
        Some(s[k + 1..k + 1 + j])
    else None
  }

  /** The bracketed text at `k` is exactly `g` when `s` has `open`, `g`, `close` there and `g` holds no `close`. */
  lemma BracketedExact(s: string, k: nat, open: char, close: char, g: string)
    requires k + |g| + 1 < |s| && s[k] == open && s[k + 1..k + 1 + |g|] == g && s[k + 1 + |g|] == close
    requires close !in g
    ensures Bracketed(s, k, open, close) == Some(g)
  {
    var t := s[k + 1..];
    assert t[|g|] == close && t[..|g|] == g;
    var j := IndexOf(t, close);
    assert j == |g|;
  }

  /** The number of decimal digits at the start of `s`. */
  function DigitPrefix(s: string): (n: nat)
    ensures n <= |s| && AllDigits(s[..n])
    ensures n < |s| ==> !IsDigit(s[n])
    decreases |s|
  {
    if |s| == 0 || !IsDigit(s[0]) then 0
    else
      var m := DigitPrefix(s[1..]);
      assert s[..m + 1] == [s[0]] + s[1..][..m];
      m + 1
  }

  // ------------------------------------------------------------- episode

  /** `\d{1,2}(?:v\d+)?` matches all of `g`: one or two digits, optionally `v` and more digits. */
  predicate IsEpisodeToken(g: string) {
    var m := DigitPrefix(g);
    1 <= m <= 2 && (m == |g| || (g[m] == 'v' && m + 1 < |g| && AllDigits(g[m + 1..])))
  }

  /** `\[(\d{1,2}(?:v\d+)?)\]` matches at `k`. */
  predicate EpisodeAt(s: string, k: nat) {
    var g := Bracketed(s, k, '[', ']');
    g.Some? && IsEpisodeToken(g.value)
  }

  /** An episode token holds digits and `v` only, so no closing bracket. */
  lemma EpisodeTokenChars(g: string)
    requires IsEpisodeToken(g)
    ensures ']' !in g
  {
    var m := DigitPrefix(g);
    forall i | 0 <= i < |g|
      ensures g[i] != ']'
    {
      if i < m {
        assert g[..m][i] == g[i];
      } else if i > m {
        assert g[m + 1..][i - m - 1] == g[i];
      }
    }
  }

  /** `EpisodeAt` is the regular expression: a bracket, an episode token and a closing bracket starting at `k`. */
  lemma EpisodeAtIff(s: string, k: nat, g: string)
    ensures (IsEpisodeToken(g) && OccursAt(s, "[" + g + "]", k)) ==> EpisodeAt(s, k) && Bracketed(s, k, '[', ']') == Some(g)
    ensures EpisodeAt(s, k) ==> OccursAt(s, "[" + Bracketed(s, k, '[', ']').value + "]", k)
  {
    if IsEpisodeToken(g) && OccursAt(s, "[" + g + "]", k) {
      BracketAround(s, k, g);
      EpisodeTokenChars(g);
      BracketedExact(s, k, '[', ']', g);
    }
    if EpisodeAt(s, k) {
      var g' := Bracketed(s, k, '[', ']').value;
      assert s[k..k + |g'| + 2] == "[" + g' + "]";
    }
  }

  /** An occurrence of `[g]` at `k`, character by character. */
  lemma BracketAround(s: string, k: nat, g: string)
    requires OccursAt(s, "[" + g + "]", k)
    ensures k + |g| + 1 < |s| && s[k] == '[' && s[k + 1..k + 1 + |g|] == g && s[k + 1 + |g|] == ']'
  {
    var w := "[" + g + "]";
    assert s[k..k + |w|] == w;
    forall i | 0 <= i < |g|
      ensures s[k + 1..k + 1 + |g|][i] == g[i]
    {
      assert s[k + 1 + i] == s[k..k + |w|][1 + i] == w[1 + i];
    }
    assert s[k] == w[0] && s[k + 1 + |g|] == w[1 + |g|];
  }

  /** The episode token of the title: the first `[..]` that holds one. */
  function EpisodeToken(title: string): (r: Option<string>)
    ensures r.Some? ==> IsEpisodeToken(r.value)
  {
    match Leftmost(|title|, 0, (k: nat) => EpisodeAt(title, k))
    case None => None
    case Some(k) => Bracketed(title, k, '[', ']')
  }

  /** The token is the one in the leftmost `[..]` that holds an episode token. */
  lemma EpisodeTokenFirst(title: string, k: nat, g: string)
    requires IsEpisodeToken(g) && OccursAt(title, "[" + g + "]", k)
    requires forall j :: 0 <= j < k ==> !EpisodeAt(title, j)
    ensures EpisodeToken(title) == Some(g)
  {
    EpisodeAtIff(title, k, g);
    var f := (j: nat) => EpisodeAt(title, j);
    assert f(k);
    var r := Leftmost(|title|, 0, f);
    assert r.Some?;
  }

  /** Without a bracketed episode token the title has no episode. */
  lemma EpisodeTokenAbsent(title: string)
    requires forall k :: 0 <= k < |title| ==> !EpisodeAt(title, k)
    ensures EpisodeToken(title) == None
  {
    var f := (j: nat) => EpisodeAt(title, j);
    assert !f(|title|);
    var r := Leftmost(|title|, 0, f);
  }

  /** The episode number of a token: the digits before any `v`. */
  function EpisodeNumber(g: string): (n: nat)
    requires IsEpisodeToken(g)
    ensures n < 100
  {
    var m := DigitPrefix(g);
    DigitsBelow(g[..m]);
    DigitsValue(g[..m])
  }

  /** A number of at most two digits is below 100. */
  lemma DigitsBelow(d: string)
    requires AllDigits(d) && |d| <= 2
    ensures DigitsValue(d) < 100
  {
    if |d| > 0 {
      assert AllDigits(d[..|d| - 1]);
      if |d| == 2 {
        assert d[..1][..0] == [];
      }
    }
  }

  /** The version of a token: `v` and the digits after it, when there is a `v`. */
  function EpisodeVersion(g: string): (r: Option<string>)
    requires IsEpisodeToken(g)
    ensures r.Some? <==> 'v' in g
    ensures r.Some? ==> |r.value| >= 2 && r.value[0] == 'v' && AllDigits(r.value[1..])
  {
    var m := DigitPrefix(g);
    if m < |g| then
      var v := "v" + g[m + 1..];
      assert v[1..] == g[m + 1..];
      assert g[m] == 'v';
      Some(v)
    else
      assert forall i :: 0 <= i < |g| ==> g[i] == g[..m][i];
      None
  }

  // ------------------------------------------------------------ subgroup

  /** `^\[([^\]]+)\]`: a non-empty bracketed text at the very start. */
  function LeadingGroup(title: string): (r: Option<string>)
    ensures r.Some? ==> |r.value| > 0 && Bracketed(title, 0, '[', ']') == r
  {
    var g := Bracketed(title, 0, '[', ']');
    if g.Some? && |g.value| > 0 then g else None
  }

  /** `【([^】]+)】` matches at `k`. */
  predicate CornerGroupAt(title: string, k: nat) {
    var g := Bracketed(title, k, '【', '】');
    g.Some? && |g.value| > 0
  }

  /** The first non-empty `【..】` text of the title. */
  function CornerGroup(title: string): (r: Option<string>)
    ensures r.Some? ==> |r.value| > 0 && '】' !in r.value
  {
    match Leftmost(|title|, 0, (k: nat) => CornerGroupAt(title, k))
    case None => None
    case Some(k) => Bracketed(title, k, '【', '】')
  }

  /** The release group: the leading bracketed text, else the first corner-bracketed text. */
  function SubGroup(title: string): (r: Option<string>)
    ensures r.Some? ==> |r.value| > 0
    ensures r == if LeadingGroup(title).Some? then LeadingGroup(title) else CornerGroup(title)
  {
    match LeadingGroup(title)
    case Some(g) => Some(g)
    case None => CornerGroup(title)
  }

  // ---------------------------------------------------------- resolution

  /** The letter of `[pP]`. */
  predicate IsP(c: char) {
    c == 'p' || c == 'P'
  }

  /** `\d{3,4}[pP]` at `k`, taking four digits when it can (the greedy quantifier). */
  function ResolutionAt(s: string, k: nat): (r: Option<string>)
    ensures r.Some? ==> ((|r.value| == 4 || |r.value| == 5) && OccursAt(s, r.value, k)
      && AllDigits(r.value[..|r.value| - 1]) && IsP(r.value[|r.value| - 1]))
  {
    if k + 4 <= |s| && AllDigits(s[k..k + 3]) then
      if k + 5 <= |s| && IsDigit(s[k + 3]) && IsP(s[k + 4]) then
        assert s[k..k + 5][..4] == s[k..k + 3] + [s[k + 3]];
        Some(s[k..k + 5])
      else if IsP(s[k + 3]) then
        assert s[k..k + 4][..3] == s[k..k + 3];
        Some(s[k..k + 4])
      else None
    else None
  }

  /** `w` digits and then `p` or `P` start at `k`. */
  predicate DigitsThenP(s: string, k: nat, w: nat) {
    k + w < |s| && AllDigits(s[k..k + w]) && IsP(s[k + w])
  }

  /** The regular expression matches at `k` exactly when three or four digits and a `p` start there; four digits win. */
  lemma ResolutionAtIff(s: string, k: nat)
    ensures ResolutionAt(s, k).Some? <==> DigitsThenP(s, k, 3) || DigitsThenP(s, k, 4)
    ensures DigitsThenP(s, k, 4) ==> ResolutionAt(s, k) == Some(s[k..k + 5])
    ensures !DigitsThenP(s, k, 4) && DigitsThenP(s, k, 3) ==> ResolutionAt(s, k) == Some(s[k..k + 4])
  {
    if DigitsThenP(s, k, 4) {
      assert s[k..k + 3] == s[k..k + 4][..3];
      assert s[k + 3] == s[k..k + 4][3];
    }
    if ResolutionAt(s, k).Some? {
      var w := |ResolutionAt(s, k).value| - 1;
      assert s[k..k + w] == ResolutionAt(s, k).value[..w];
    }
  }

  /** The resolution text of the title, upper-cased: the leftmost match. */
  function Resolution(title: string): (r: Option<string>)
    ensures r.Some? ==> ((|r.value| == 4 || |r.value| == 5) && r.value[|r.value| - 1] == 'P'
      && AllDigits(r.value[..|r.value| - 1]))
  {
    match Leftmost(|title|, 0, (k: nat) => ResolutionAt(title, k).Some?)
    case None => None
    case Some(k) =>
      var m := ResolutionAt(title, k).value;
      var u := Upper(m);
      assert AllDigits(u[..|u| - 1]) by {
        forall i | 0 <= i < |u| - 1
          ensures IsDigit(u[i])
        {
          assert m[..|m| - 1][i] == m[i];
        }
      }
      Some(u)
  }

  // --------------------------------------------------------------- format

  /** The container formats, upper-case. */
  const Formats: seq<string> := ["MP4", "MKV", "AVI"]

  /** `\[(MP4|MKV|AVI)\]` without regard to case matches at `k`. */
  predicate FormatAt(s: string, k: nat) {
    var g := Bracketed(s, k, '[', ']');
    g.Some? && Upper(g.value) in Formats
  }

  /** The container format of the title, upper-cased: the leftmost match. */
  function Format(title: string): (r: Option<string>)
    ensures r.Some? ==> r.value in Formats
  {
    match Leftmost(|title|, 0, (k: nat) => FormatAt(title, k))
    case None => None
    case Some(k) => Some(Upper(Bracketed(title, k, '[', ']').value))
  }

  // ------------------------------------------------- language and source

  /** A tag rule: the title contains one of `alternatives` (a regular-expression alternation), giving `value`. */
  datatype TagRule = TagRule(alternatives: seq<string>, value: string)

  /** The title contains one of the rule's alternatives. */
  predicate RuleMatches(title: string, rule: TagRule) {
    exists i :: 0 <= i < |rule.alternatives| && Contains(title, rule.alternatives[i])
  }

  /** The test "rule `j` matches the title". */
  function RuleAt(title: string, rules: seq<TagRule>): nat -> bool {
    (j: nat) => j < |rules| && RuleMatches(title, rules[j])
  }

  /** The values the rules give, in order. */
  function Values(rules: seq<TagRule>): seq<string> {
    seq(|rules|, j requires 0 <= j < |rules| => rules[j].value)
  }

  /** The value of the first rule that matches the title, if any. */
  function FirstRuleValue(title: string, rules: seq<TagRule>): (r: Option<string>)
    ensures r.Some? <==> exists j :: 0 <= j < |rules| && RuleMatches(title, rules[j])
    ensures r.Some? ==> r.value in Values(rules)
    ensures forall j :: (0 <= j < |rules| && RuleMatches(title, rules[j])
      && (forall i :: 0 <= i < j ==> !RuleMatches(title, rules[i]))) ==> r == Some(rules[j].value)
  {
    if |rules| == 0 then None
    else
      match Leftmost(|rules| - 1, 0, RuleAt(title, rules))
      case None =>
        assert forall j :: 0 <= j < |rules| ==> !RuleMatches(title, rules[j]) by {
          forall j | 0 <= j < |rules|
            ensures !RuleMatches(title, rules[j])
          {
            assert !RuleAt(title, rules)(j);
          }
        }
        None
      case Some(j) =>
        assert RuleAt(title, rules)(j);
        assert Values(rules)[j] == rules[j].value;
        assert forall i :: 0 <= i < j ==> !RuleMatches(title, rules[i]) by {
          forall i | 0 <= i < j
            ensures !RuleMatches(title, rules[i])
          {
            assert !RuleAt(title, rules)(i);
          }
        }
        Some(rules[j].value)
  }

  /** The subtitle-language rules, in the order they are tried. */
  const LanguageRules: seq<TagRule> := [
    TagRule(["简中", "简体中文", "CHS"], "简中"),
    TagRule(["繁中", "繁体中文", "CHT"], "繁中"),
    TagRule(["简繁", "简繁内嵌", "简繁日内封"], "简繁"),
    TagRule(["简日双语"], "简日"),
    TagRule(["繁日双语"], "繁日")]

  /** The video-source rules, in the order they are tried. */
  const SourceRules: seq<TagRule> := [
    TagRule(["WebRip", "WEB-DL"], "WEB"),
    TagRule(["BDRip", "BD"], "BD"),
    TagRule(["ABEMA"], "ABEMA"),
    TagRule(["Baha"], "Baha"),
    TagRule(["CR"], "CR")]

  // --------------------------------------------------------------- parse

  /**
   * `parseRssTitle`: the entry with every field read from its title;
   * fields the title does not show are absent.
   */
  function ParseRssTitle(item: RssItem): (r: ParsedRssItem)
    ensures r.title == item.title && r.link == "" && r.originalItem == item
    ensures r.episode.Some? ==> r.episode.value < 100
    ensures r.version.Some? ==> r.episode.Some?
    ensures r.subGroup.Some? ==> |r.subGroup.value| > 0
    ensures r.format.Some? ==> r.format.value in Formats
    ensures r.language.Some? ==> r.language.value in Values(LanguageRules)
    ensures r.source.Some? ==> r.source.value in Values(SourceRules)
    ensures r.episode.Some? <==> EpisodeToken(item.title).Some?
    ensures r.episode.Some? ==> r.episode.value == EpisodeNumber(EpisodeToken(item.title).value)
    ensures EpisodeToken(item.title).Some? ==> r.version == EpisodeVersion(EpisodeToken(item.title).value)
    ensures EpisodeToken(item.title).None? ==> r.version.None?
    ensures r.subGroup == SubGroup(item.title) && r.resolution == Resolution(item.title) && r.format == Format(item.title)
    ensures r.language == FirstRuleValue(item.title, LanguageRules) && r.source == FirstRuleValue(item.title, SourceRules)
  {
    var t := item.title;
    var token := EpisodeToken(t);
    ParsedRssItem(
      t,
      "",
      if token.Some? then Some(EpisodeNumber(token.value)) else None,
      SubGroup(t),
      Resolution(t),
      FirstRuleValue(t, LanguageRules),
      Format(t),
      FirstRuleValue(t, SourceRules),
      if token.Some? then EpisodeVersion(token.value) else None,
      item)
  }

  // -------------------------------------------------------------- grouping

  /** A group key part: the value when present and non-empty, else "unknown". */
  function OrUnknown(o: Option<string>): (r: string)
    ensures r != ""
  {
    if o.Some? && o.value != "" then o.value else "unknown"
  }

  /** The group key of an entry: group, resolution, source and language joined by `_`. */
  function GroupKey(p: ParsedRssItem): string {
    OrUnknown(p.subGroup) + "_" + OrUnknown(p.resolution) + "_" + OrUnknown(p.source) + "_" + OrUnknown(p.language)
  }

  /** The group key as a function of the entry. */
  function GroupKeyOf(): ParsedRssItem -> string {
    (p: ParsedRssItem) => GroupKey(p)
  }

  /** The test "the entry's key is `k`" for a key function. */
  function HasKey(key: ParsedRssItem -> string, k: string): ParsedRssItem -> bool {
    (p: ParsedRssItem) => key(p) == k
  }

  /** One group of entries (an entry of the result of `groupRssItems`). */
  datatype RssGroup = RssGroup(groupKey: string, items: seq<ParsedRssItem>)

  /** The keys of the groups, in order. */
  function Keys(gs: seq<RssGroup>): (r: seq<string>)
    ensures |r| == |gs| && forall j :: 0 <= j < |gs| ==> r[j] == gs[j].groupKey
  {
    seq(|gs|, j requires 0 <= j < |gs| => gs[j].groupKey)
  }

  /** The number of entries over all groups. */
  function Total(gs: seq<RssGroup>): nat
    decreases |gs|
  {
    if |gs| == 0 then 0 else Total(gs[..|gs| - 1]) + |gs[|gs| - 1].items|
  }

  /** `Total` after one group is replaced. */
  lemma {:induction false} TotalUpdate(gs: seq<RssGroup>, j: nat, g: RssGroup)
    requires j < |gs|
    ensures Total(gs[j := g]) == Total(gs) - |gs[j].items| + |g.items|
    decreases |gs|
  {
    var n := |gs| - 1;
    if j < n {
      assert gs[j := g][..n] == gs[..n][j := g];
      TotalUpdate(gs[..n], j, g);
    } else {
      assert gs[j := g][..n] == gs[..n];
    }
  }

  /** The groups after entry `p` with key `k` is added: to group `j`, or to a new last group when `j` is -1. */
  function AddEntry(gs: seq<RssGroup>, j: int, k: string, p: ParsedRssItem): seq<RssGroup>
    requires -1 <= j < |gs|
  {
    if j < 0 then gs + [RssGroup(k, [p])] else gs[j := RssGroup(gs[j].groupKey, gs[j].items + [p])]
  }

  /** Each group holds the entries with its key, in list order. */
  predicate GroupsHold(key: ParsedRssItem -> string, xs: seq<ParsedRssItem>, gs: seq<RssGroup>) {
    forall j :: 0 <= j < |gs| ==> gs[j].items == Filter(xs, HasKey(key, gs[j].groupKey))
  }

  /** The grouping invariant: groups in first-appearance order of their keys, each holding its entries in list order. */
  predicate Grouped(key: ParsedRssItem -> string, xs: seq<ParsedRssItem>, gs: seq<RssGroup>) {
    && Keys(gs) == KeyOrder(xs, key)
    && GroupsHold(key, xs, gs)
    && Total(gs) == |xs|
  }

  /** The keys after a group is appended. */
  lemma KeysSnoc(gs: seq<RssGroup>, g: RssGroup)
    ensures Keys(gs + [g]) == Keys(gs) + [g.groupKey]
  {
    assert forall i :: 0 <= i < |gs| ==> (gs + [g])[i] == gs[i];
  }

  /** The keys after a group's entries change. */
  lemma KeysUpdate(gs: seq<RssGroup>, j: nat, g: RssGroup)
    requires j < |gs| && g.groupKey == gs[j].groupKey
    ensures Keys(gs[j := g]) == Keys(gs)
  {
  }

  /** Adding an entry keeps the keys in first-appearance order. */
  lemma GroupKeysStep(key: ParsedRssItem -> string, xs: seq<ParsedRssItem>, gs: seq<RssGroup>, j: int)
    requires |xs| > 0 && Keys(gs) == KeyOrder(xs[..|xs| - 1], key)
    requires j == IndexOf(Keys(gs), key(xs[|xs| - 1]))
    ensures Keys(AddEntry(gs, j, key(xs[|xs| - 1]), xs[|xs| - 1])) == KeyOrder(xs, key)
  {
    var p := xs[|xs| - 1];
    var k := key(p);
    KeyOrderLast(xs, key);
    if j < 0 {
      KeysSnoc(gs, RssGroup(k, [p]));
    } else {
      KeysUpdate(gs, j, RssGroup(gs[j].groupKey, gs[j].items + [p]));
    }
  }

  /** Adding an entry keeps every group holding the entries with its key. */
  lemma GroupItemsStep(key: ParsedRssItem -> string, xs: seq<ParsedRssItem>, gs: seq<RssGroup>, j: int, i: int)
    requires |xs| > 0 && Keys(gs) == KeyOrder(xs[..|xs| - 1], key)
    requires GroupsHold(key, xs[..|xs| - 1], gs)
    requires j == IndexOf(Keys(gs), key(xs[|xs| - 1]))
    requires 0 <= i < |AddEntry(gs, j, key(xs[|xs| - 1]), xs[|xs| - 1])|
    ensures var r := AddEntry(gs, j, key(xs[|xs| - 1]), xs[|xs| - 1]);
      r[i].items == Filter(xs, HasKey(key, r[i].groupKey))
  {
    var init, p := xs[..|xs| - 1], xs[|xs| - 1];
    var k := key(p);
    var r := AddEntry(gs, j, k, p);
    FilterLast(xs, HasKey(key, r[i].groupKey));
    if j < 0 && i == |gs| {
      forall t | 0 <= t < |init|
        ensures !HasKey(key, k)(init[t])
      {
        KeyOrderCovers(init, key, t);
      }
      FilterNone(init, HasKey(key, k));
    } else if i != j {
      assert r[i] == gs[i];
      assert Keys(gs)[i] == gs[i].groupKey;
      KeyOrderDistinct(init, key);
      assert Keys(gs)[i] != k;
    }
  }

  /** Adding an entry adds one to the total. */
  lemma GroupTotalStep(gs: seq<RssGroup>, j: int, k: string, p: ParsedRssItem)
    requires -1 <= j < |gs|
    ensures Total(AddEntry(gs, j, k, p)) == Total(gs) + 1
  {
    if j >= 0 {
      TotalUpdate(gs, j, RssGroup(gs[j].groupKey, gs[j].items + [p]));
    } else {
      assert AddEntry(gs, j, k, p)[..|gs|] == gs;
    }
  }

  /** Adding the next entry to its group, or opening a new group for it, keeps the grouping invariant. */
  lemma GroupStep(key: ParsedRssItem -> string, xs: seq<ParsedRssItem>, gs: seq<RssGroup>, j: int)
    requires |xs| > 0 && Grouped(key, xs[..|xs| - 1], gs)
    requires j == IndexOf(Keys(gs), key(xs[|xs| - 1]))
    ensures Grouped(key, xs, AddEntry(gs, j, key(xs[|xs| - 1]), xs[|xs| - 1]))
  {
    var r := AddEntry(gs, j, key(xs[|xs| - 1]), xs[|xs| - 1]);
    GroupKeysStep(key, xs, gs, j);
    forall i | 0 <= i < |r|
      ensures r[i].items == Filter(xs, HasKey(key, r[i].groupKey))
    {
      GroupItemsStep(key, xs, gs, j, i);
    }
    GroupTotalStep(gs, j, key(xs[|xs| - 1]), xs[|xs| - 1]);
  }

  /** The loop of `groupRssItems` that fills the map, for any key function. */
  method CollectGroups(key: ParsedRssItem -> string, items: seq<ParsedRssItem>) returns (gs: seq<RssGroup>)
    ensures Grouped(key, items, gs)
  {
    gs := [];
    var i := 0;
    while i < |items|
      invariant 0 <= i <= |items|
      invariant Grouped(key, items[..i], gs)
    {
      var p := items[i];
      var j := IndexOf(Keys(gs), key(p));
      assert items[..i + 1][..i] == items[..i];
      GroupStep(key, items[..i + 1], gs, j);
      gs := AddEntry(gs, j, key(p), p);
      i := i + 1;
    }
    assert items[..i] == items;
  }

  // ------------------------------------------------------- episode order

  /** The sort key of an entry: `episode || 0`. */
  function EpisodeKey(p: ParsedRssItem): nat {
    p.episode.GetOr(0)
  }

  /** The entries are in non-decreasing episode order. */
  predicate EpisodeSorted(xs: seq<ParsedRssItem>) {
    forall i, j :: 0 <= i < j < |xs| ==> EpisodeKey(xs[i]) <= EpisodeKey(xs[j])
  }

  /** Every entry's sort key is at least `b`. */
  predicate KeysAtLeast(xs: seq<ParsedRssItem>, b: nat) {
    forall i :: 0 <= i < |xs| ==> b <= EpisodeKey(xs[i])
  }

  /** The test "the entry's sort key is `e`". */
  function EpisodeIs(e: nat): ParsedRssItem -> bool {
    (p: ParsedRssItem) => EpisodeKey(p) == e
  }

  /** Insert `x` after every entry whose key is not above its own. */
  function InsertByEpisode(x: ParsedRssItem, ys: seq<ParsedRssItem>): seq<ParsedRssItem>
    decreases |ys|
  {
    if |ys| == 0 then [x]
    else if EpisodeKey(ys[0]) > EpisodeKey(x) then [x] + ys
    else [ys[0]] + InsertByEpisode(x, ys[1..])
  }

  /** The stable sort `items.sort((a, b) => (a.episode || 0) - (b.episode || 0))`. */
  function SortByEpisode(xs: seq<ParsedRssItem>): seq<ParsedRssItem>
    decreases |xs|
  {
    if |xs| == 0 then [] else InsertByEpisode(xs[|xs| - 1], SortByEpisode(xs[..|xs| - 1]))
  }

  /** Insertion adds exactly `x`. */
  lemma {:induction false} InsertByEpisodePerm(x: ParsedRssItem, ys: seq<ParsedRssItem>)
    ensures multiset(InsertByEpisode(x, ys)) == multiset(ys) + multiset{x}
    ensures |InsertByEpisode(x, ys)| == |ys| + 1
    decreases |ys|
  {
    if |ys| > 0 {
      InsertByEpisodePerm(x, ys[1..]);
      assert ys == [ys[0]] + ys[1..];
    }
  }

  /** A lower bound of `x` and of every entry of `ys` bounds the list with `x` inserted. */
  lemma {:induction false} InsertByEpisodeBound(x: ParsedRssItem, ys: seq<ParsedRssItem>, b: nat)
    requires b <= EpisodeKey(x) && KeysAtLeast(ys, b)
    ensures KeysAtLeast(InsertByEpisode(x, ys), b)
    decreases |ys|
  {
    if |ys| > 0 && EpisodeKey(ys[0]) <= EpisodeKey(x) {
      InsertByEpisodeBound(x, ys[1..], b);
      var r := InsertByEpisode(x, ys);
      assert forall i :: 1 <= i < |r| ==> r[i] == InsertByEpisode(x, ys[1..])[i - 1];
    }
  }

  /** Insertion keeps the order sorted. */
  lemma {:induction false} InsertByEpisodeSorted(x: ParsedRssItem, ys: seq<ParsedRssItem>)
    requires EpisodeSorted(ys)
    ensures EpisodeSorted(InsertByEpisode(x, ys))
    decreases |ys|
  {
    if |ys| > 0 && EpisodeKey(ys[0]) <= EpisodeKey(x) {
      var rest := InsertByEpisode(x, ys[1..]);
      InsertByEpisodeSorted(x, ys[1..]);
      InsertByEpisodeBound(x, ys[1..], EpisodeKey(ys[0]));
      var r := [ys[0]] + rest;
      forall i, j | 0 <= i < j < |r|
        ensures EpisodeKey(r[i]) <= EpisodeKey(r[j])
      {
        assert r[j] == rest[j - 1];
        if i > 0 {
          assert r[i] == rest[i - 1];
        }
      }
    }
  }

  /** Filtering by one key the list with `x` inserted: the filtered list, with `x` last when it has that key. */
  lemma {:induction false} InsertByEpisodeStable(x: ParsedRssItem, ys: seq<ParsedRssItem>, e: nat)
    requires EpisodeSorted(ys)
    ensures Filter(InsertByEpisode(x, ys), EpisodeIs(e)) == Filter(ys, EpisodeIs(e)) + (if EpisodeKey(x) == e then [x] else [])
    decreases |ys|
  {
    var p := EpisodeIs(e);
    FilterSingle(x, p);
    if |ys| == 0 {
    } else if EpisodeKey(ys[0]) > EpisodeKey(x) {
      InsertStableFront(x, ys, e);
    } else {
      assert EpisodeSorted(ys[1..]) by {
        forall i, j | 0 <= i < j < |ys[1..]|
          ensures EpisodeKey(ys[1..][i]) <= EpisodeKey(ys[1..][j])
        {
          assert ys[1..][i] == ys[i + 1] && ys[1..][j] == ys[j + 1];
        }
      }
      InsertByEpisodeStable(x, ys[1..], e);
      InsertStableLater(x, ys, e);
    }
  }

  /** The stable-insertion step when `x` goes in front of everything. */
  lemma InsertStableFront(x: ParsedRssItem, ys: seq<ParsedRssItem>, e: nat)
    requires EpisodeSorted(ys) && |ys| > 0 && EpisodeKey(ys[0]) > EpisodeKey(x)
    ensures Filter(InsertByEpisode(x, ys), EpisodeIs(e)) == Filter(ys, EpisodeIs(e)) + (if EpisodeKey(x) == e then [x] else [])
  {
    var p := EpisodeIs(e);
    assert InsertByEpisode(x, ys) == [x] + ys;
    FilterCons(x, ys, p);
    if p(x) {
      forall i | 0 <= i < |ys|
        ensures !p(ys[i])
      {
        if i > 0 {
          assert EpisodeKey(ys[0]) <= EpisodeKey(ys[i]);
        }
      }
      FilterNone(ys, p);
    }
  }

  /** The stable-insertion step when `x` goes after the first entry. */
  lemma InsertStableLater(x: ParsedRssItem, ys: seq<ParsedRssItem>, e: nat)
    requires |ys| > 0 && EpisodeKey(ys[0]) <= EpisodeKey(x)
    requires Filter(InsertByEpisode(x, ys[1..]), EpisodeIs(e)) == Filter(ys[1..], EpisodeIs(e)) + (if EpisodeKey(x) == e then [x] else [])
    ensures Filter(InsertByEpisode(x, ys), EpisodeIs(e)) == Filter(ys, EpisodeIs(e)) + (if EpisodeKey(x) == e then [x] else [])
  {
    assert InsertByEpisode(x, ys) == [ys[0]] + InsertByEpisode(x, ys[1..]);
    assert ys == [ys[0]] + ys[1..];
    FilterConsAppend(ys[0], InsertByEpisode(x, ys[1..]), ys[1..], EpisodeIs(e), if EpisodeKey(x) == e then [x] else []);
  }

  /** The sort keeps the entries. */
  lemma {:induction false} SortByEpisodePerm(xs: seq<ParsedRssItem>)
    ensures multiset(SortByEpisode(xs)) == multiset(xs) && |SortByEpisode(xs)| == |xs|
    decreases |xs|
  {
    if |xs| > 0 {
      SortByEpisodePerm(xs[..|xs| - 1]);
      InsertByEpisodePerm(xs[|xs| - 1], SortByEpisode(xs[..|xs| - 1]));
      MultisetLast(xs);
    }
  }

  /** The sort orders by episode. */
  lemma {:induction false} SortByEpisodeSorted(xs: seq<ParsedRssItem>)
    ensures EpisodeSorted(SortByEpisode(xs))
    decreases |xs|
  {
    if |xs| > 0 {
      SortByEpisodeSorted(xs[..|xs| - 1]);
      InsertByEpisodeSorted(xs[|xs| - 1], SortByEpisode(xs[..|xs| - 1]));
    }
  }

  /** The sort keeps list order among entries with the same episode (it is stable). */
  lemma {:induction false} SortByEpisodeStable(xs: seq<ParsedRssItem>, e: nat)
    ensures Filter(SortByEpisode(xs), EpisodeIs(e)) == Filter(xs, EpisodeIs(e))
    decreases |xs|
  {
    if |xs| > 0 {
      var init := xs[..|xs| - 1];
      SortByEpisodeStable(init, e);
      SortByEpisodeSorted(init);
      InsertByEpisodeStable(xs[|xs| - 1], SortByEpisode(init), e);
      FilterLast(xs, EpisodeIs(e));
    }
  }

  /** Each group with its entries sorted by episode. */
  function SortGroups(gs: seq<RssGroup>): (r: seq<RssGroup>)
    ensures |r| == |gs| && Keys(r) == Keys(gs)
    ensures forall j :: 0 <= j < |gs| ==> r[j].items == SortByEpisode(gs[j].items)
  {
    seq(|gs|, j requires 0 <= j < |gs| => RssGroup(gs[j].groupKey, SortByEpisode(gs[j].items)))
  }

  /** Sorting the groups keeps the total. */
  lemma {:induction false} SortGroupsTotal(gs: seq<RssGroup>)
    ensures Total(SortGroups(gs)) == Total(gs)
    decreases |gs|
  {
    if |gs| > 0 {
      var n := |gs| - 1;
      SortGroupsTotal(gs[..n]);
      assert SortGroups(gs)[..n] == SortGroups(gs[..n]);
      SortByEpisodePerm(gs[n].items);
    }
  }

  /**
   * `groupRssItems`: one group per key in order of first appearance, each
   * holding the entries with that key, ordered by episode; no entry is lost.
   */
  method GroupRssItems(items: seq<ParsedRssItem>) returns (r: seq<RssGroup>)
    ensures Keys(r) == KeyOrder(items, GroupKeyOf())
    ensures forall j :: 0 <= j < |r| ==> r[j].items == SortByEpisode(Filter(items, HasKey(GroupKeyOf(), r[j].groupKey)))
    ensures Total(r) == |items|
  {
    var gs := CollectGroups(GroupKeyOf(), items);
    r := SortGroups(gs);
    SortGroupsTotal(gs);
    assert forall j :: 0 <= j < |r| ==> r[j].groupKey == Keys(r)[j] == Keys(gs)[j] == gs[j].groupKey;
  }

  /** No two groups share a key. */
  lemma GroupKeysDistinct(items: seq<ParsedRssItem>, r: seq<RssGroup>)
    requires Keys(r) == KeyOrder(items, GroupKeyOf())
    ensures forall i, j :: 0 <= i < j < |r| ==> r[i].groupKey != r[j].groupKey
  {
    KeyOrderSpec(items, GroupKeyOf());
  }

  /** Every entry is in the group of its key. */
  lemma GroupsCover(items: seq<ParsedRssItem>, r: seq<RssGroup>, t: int)
    requires Keys(r) == KeyOrder(items, GroupKeyOf())
    requires forall j :: 0 <= j < |r| ==> r[j].items == SortByEpisode(Filter(items, HasKey(GroupKeyOf(), r[j].groupKey)))
    requires 0 <= t < |items|
    ensures exists j :: 0 <= j < |r| && r[j].groupKey == GroupKey(items[t]) && items[t] in r[j].items
  {
    var k := GroupKey(items[t]);
    KeyOrderCovers(items, GroupKeyOf(), t);
    var j :| 0 <= j < |r| && Keys(r)[j] == k;
    var f := Filter(items, HasKey(GroupKeyOf(), k));
    FilterKeeps(items, HasKey(GroupKeyOf(), k), t);
    SortByEpisodePerm(f);
    assert items[t] in multiset(f);
    assert r[j].items == SortByEpisode(f);
  }
}
