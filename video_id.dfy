/**
 * extract_video_id: a bare 11-character id, or the id that the first match of the
 * URL pattern
 *   (?:youtube\.com\/(?:[^\/]+\/.+\/|(?:v|e(?:mbed)?)\/|.*[?&]v=)|youtu\.be\/)([^"&?\/\s]{11})
 * captures under Python's `re.search`.
 *
 * The pattern is modelled twice: declaratively (MatchesAt: the prefix alternatives as
 * shapes of the text between a start position p and the captured group at e) and as a
 * backtracking matcher (MatchAt, SearchFrom) that follows the order in which the regular
 * expression engine tries start positions, alternatives and greedy repetitions.
 */
module VideoId {
  import opened Wrappers
  import Text

  const IdLength: nat := 11
  const WatchHost := "youtube.com/"
  const ShortHost := "youtu.be/"

  /** `[A-Za-z0-9_-]` */
  predicate IsIdChar(c: char)
  {
    ('A' <= c <= 'Z') || ('a' <= c <= 'z') || ('0' <= c <= '9') || c == '_' || c == '-'
  }

  /** The input is itself an id: `len(url) == 11` and `^[A-Za-z0-9_-]{11}$`. */
  predicate IsBareId(s: string)
  {
    |s| == IdLength && forall k | 0 <= k < |s| :: IsIdChar(s[k])
  }

  /** Python's `\s` in a str pattern: the characters for which `str.isspace()` holds. */
  predicate IsSpace(c: char)
  {
    ('\t' <= c <= '\r') || ('\U{1C}' <= c <= '\U{1F}') || c == ' ' || c == '\U{85}' || c == '\U{A0}'
    || c == '\U{1680}' || ('\U{2000}' <= c <= '\U{200A}') || c == '\U{2028}' || c == '\U{2029}'
    || c == '\U{202F}' || c == '\U{205F}' || c == '\U{3000}'
  }

  /** `[^"&?\/\s]` */
  predicate IsGroupChar(c: char)
  {
    c != '"' && c != '&' && c != '?' && c != '/' && !IsSpace(c)
  }

  /** The capturing group `([^"&?\/\s]{11})` matches at e. */
  predicate GroupAt(s: string, e: int)
  {
    0 <= e && e + IdLength <= |s| && forall k | e <= k < e + IdLength :: IsGroupChar(s[k])
  }

  predicate LiteralAt(s: string, p: int, lit: string)
  {
    0 <= p && p + |lit| <= |s| && s[p..p + |lit|] == lit
  }

  predicate NoSlashIn(s: string, a: int, b: int)
    requires 0 <= a <= b <= |s|
  {
    forall k | a <= k < b :: s[k] != '/'
  }

  /** Every character of s[a..b] matches `.` (anything but a newline). */
  predicate NoNewlineIn(s: string, a: int, b: int)
    requires 0 <= a <= b <= |s|
  {
    forall k | a <= k < b :: s[k] != '\n'
  }

  // ---------------------------------------------------------------------------
  // Declarative reading of the pattern
  // ---------------------------------------------------------------------------

  /** `[^\/]+\/.+\/` matches s[q..e]. */
  ghost predicate PathShape(s: string, q: int, e: int)
  {
    0 <= q && e <= |s|
    && exists j | q < j && j + 2 < e :: s[j] == '/' && s[e - 1] == '/' && NoSlashIn(s, q, j) && NoNewlineIn(s, j + 1, e - 1)
  }

  /** `(?:v|e(?:mbed)?)\/` matches s[q..e]. */
  ghost predicate EmbedShape(s: string, q: int, e: int)
  {
    (e == q + 2 && (LiteralAt(s, q, "v/") || LiteralAt(s, q, "e/"))) || (e == q + 6 && LiteralAt(s, q, "embed/"))
  }

  /** `[?&]v=` matches at i. */
  predicate QueryAt(s: string, i: int)
  {
    0 <= i && i + 3 <= |s| && (s[i] == '?' || s[i] == '&') && s[i + 1] == 'v' && s[i + 2] == '='
  }

  /** `.*[?&]v=` matches s[q..e]. */
  ghost predicate QueryShape(s: string, q: int, e: int)
  {
    0 <= q && q + 3 <= e && QueryAt(s, e - 3) && NoNewlineIn(s, q, e - 3)
  }

  /** The non-capturing prefix of the pattern matches s[p..e]. */
  ghost predicate PrefixShape(s: string, p: int, e: int)
  {
    (LiteralAt(s, p, WatchHost) && (PathShape(s, p + 12, e) || EmbedShape(s, p + 12, e) || QueryShape(s, p + 12, e)))
    || (e == p + 9 && LiteralAt(s, p, ShortHost))
  }

  /** The whole pattern matches at start p, with the captured id starting at e. */
  ghost predicate MatchesAt(s: string, p: int, e: int)
  {
    PrefixShape(s, p, e) && GroupAt(s, e)
  }

  /** The path alternative from q leads to a group at e. */
  ghost predicate PathMatch(s: string, q: int, e: int)
  {
    PathShape(s, q, e) && GroupAt(s, e)
  }

  /** The `v/`, `e/`, `embed/` alternative from q leads to a group at e. */
  ghost predicate EmbedMatch(s: string, q: int, e: int)
  {
    EmbedShape(s, q, e) && GroupAt(s, e)
  }

  /** The query alternative from q leads to a group at e. */
  ghost predicate QueryMatch(s: string, q: int, e: int)
  {
    QueryShape(s, q, e) && GroupAt(s, e)
  }

  ghost predicate HasPathMatch(s: string, q: int)
  {
    exists e :: PathShape(s, q, e) && GroupAt(s, e)
  }

  ghost predicate HasEmbedMatch(s: string, q: int)
  {
    exists e :: EmbedShape(s, q, e) && GroupAt(s, e)
  }

  ghost predicate HasQueryMatch(s: string, q: int)
  {
    exists e :: QueryShape(s, q, e) && GroupAt(s, e)
  }

  /** e is the rightmost group the path alternative from q leads to: greedy `.+`. */
  ghost predicate LastPathMatch(s: string, q: int, e: int)
  {
    PathMatch(s, q, e) && forall e' | e < e' :: !(PathShape(s, q, e') && GroupAt(s, e'))
  }

  /** e is the rightmost group the query alternative from q leads to: greedy `.*`. */
  ghost predicate LastQueryMatch(s: string, q: int, e: int)
  {
    QueryMatch(s, q, e) && forall e' | e < e' :: !(QueryShape(s, q, e') && GroupAt(s, e'))
  }

  /**
   * e is the group `re.search` captures when its match starts at p. The alternatives are
   * taken in the order written (the path form, then `v/`, `e/`, `embed/`, then the query
   * form, then the short host), and the greedy `.+` and `.*` keep the rightmost group.
   */
  ghost predicate PreferredAt(s: string, p: int, e: int)
  {
    var watch := LiteralAt(s, p, WatchHost);
    if watch && HasPathMatch(s, p + 12) then LastPathMatch(s, p + 12, e)
    else if watch && HasEmbedMatch(s, p + 12) then EmbedMatch(s, p + 12, e)
    else if watch && HasQueryMatch(s, p + 12) then LastQueryMatch(s, p + 12, e)
    else e == p + 9 && LiteralAt(s, p, ShortHost) && GroupAt(s, e)
  }

  // ---------------------------------------------------------------------------
  // The backtracking matcher
  // ---------------------------------------------------------------------------

  /** Where the greedy `[^\/]+` that starts at i stops: the first '/' at or after i, or |s|. */
  function SlashFrom(s: string, i: nat): (j: nat)
    requires i <= |s|
    ensures i <= j <= |s|
    ensures NoSlashIn(s, i, j)
    ensures j < |s| ==> s[j] == '/'
    decreases |s| - i
  {
    if i == |s| || s[i] == '/' then i else SlashFrom(s, i + 1)
  }

  /** Where a greedy `.*` or `.+` that starts at i stops: the first newline at or after i, or |s|. */
  function LineEndFrom(s: string, i: nat): (j: nat)
    requires i <= |s|
    ensures i <= j <= |s|
    ensures NoNewlineIn(s, i, j)
    ensures j < |s| ==> s[j] == '\n'
    decreases |s| - i
  {
    if i == |s| || s[i] == '\n' then i else LineEndFrom(s, i + 1)
  }

  /** A closing '/' at j followed by the id group. */
  predicate SlashHit(s: string, j: int)
  {
    0 <= j < |s| && s[j] == '/' && GroupAt(s, j + 1)
  }

  /**
   * `.+\/` then the group, after `.+` has greedily taken the m characters from r:
   * the engine gives characters back one by one, so the closing slash is tried at
   * r + m, r + m - 1, ..., r + 1 and the first (rightmost) that works is kept.
   */
  function BacktrackSlash(s: string, r: nat, m: nat): (res: Option<nat>)
    ensures res.Some? ==> r < res.value <= r + m && SlashHit(s, res.value)
    ensures res.Some? ==> forall k | res.value < k <= r + m :: !SlashHit(s, k)
    ensures res.None? ==> forall k | r < k <= r + m :: !SlashHit(s, k)
    decreases m
  {
    if m == 0 then None
    else if SlashHit(s, r + m) then Some(r + m)
    else BacktrackSlash(s, r, m - 1)
  }

  /** `[?&]v=` at i followed by the id group. */
  predicate QueryHit(s: string, i: int)
  {
    QueryAt(s, i) && GroupAt(s, i + 3)
  }

  /**
   * `[?&]v=` then the group, after `.*` has greedily taken the n characters from q:
   * positions q + n, q + n - 1, ..., q are tried and the rightmost that works is kept.
   */
  function BacktrackQuery(s: string, q: nat, n: nat): (res: Option<nat>)
    ensures res.Some? ==> q <= res.value <= q + n && QueryHit(s, res.value)
    ensures res.Some? ==> forall k | res.value < k <= q + n :: !QueryHit(s, k)
    ensures res.None? ==> forall k | q <= k <= q + n :: !QueryHit(s, k)
    decreases n
  {
    if QueryHit(s, q + n) then Some(q + n)
    else if n == 0 then None
    else BacktrackQuery(s, q, n - 1)
  }

  /** First alternative after the host, `[^\/]+\/.+\/`, then the group: the start of the id. */
  function MatchPath(s: string, q: nat): (res: Option<nat>)
    requires q <= |s|
    ensures res.Some? ==> PathShape(s, q, res.value) && GroupAt(s, res.value)
    ensures res.Some? ==> forall e | res.value < e :: !(PathShape(s, q, e) && GroupAt(s, e))
    ensures res.None? ==> forall e :: !(PathShape(s, q, e) && GroupAt(s, e))
  {
    PathAfterFirstSlash(s, q);
    var j := SlashFrom(s, q);
    if j == q || j == |s| then None
    else
      var r := j + 1;
      var lineEnd := LineEndFrom(s, r);
      var hit := BacktrackSlash(s, r, lineEnd - r);
      if hit.Some? then
        assert hit.value < lineEnd;
        assert PathShape(s, q, hit.value + 1) by {
          assert NoNewlineIn(s, j + 1, hit.value);
          assert s[hit.value + 1 - 1] == '/';
        }
        Some(hit.value + 1)
      else
        None
  }

  /**
   * In every match of `[^\/]+\/.+\/` from q, the first slash is the one `[^\/]+` stops at,
   * and the closing slash lies within the line that follows it.
   */
  lemma PathAfterFirstSlash(s: string, q: nat)
    requires q <= |s|
    ensures forall e | PathShape(s, q, e) ::
      var j := SlashFrom(s, q);
      q < j < |s| && j + 2 < e && e - 1 < LineEndFrom(s, j + 1) && (GroupAt(s, e) ==> SlashHit(s, e - 1))
  {
    forall e | PathShape(s, q, e)
      ensures var j := SlashFrom(s, q);
        q < j < |s| && j + 2 < e && e - 1 < LineEndFrom(s, j + 1) && (GroupAt(s, e) ==> SlashHit(s, e - 1))
    {
      var j' :| q < j' && j' + 2 < e && s[j'] == '/' && s[e - 1] == '/' && NoSlashIn(s, q, j') && NoNewlineIn(s, j' + 1, e - 1);
      var j := SlashFrom(s, q);
      assert j' == j;
      var lineEnd := LineEndFrom(s, j + 1);
      assert e - 1 < lineEnd;
    }
  }

  /** Second alternative, `(?:v|e(?:mbed)?)\/`, then the group, in the engine's order. */
  function MatchEmbed(s: string, q: nat): (res: Option<nat>)
    ensures res.Some? ==> EmbedShape(s, q, res.value) && GroupAt(s, res.value)
    ensures res.None? ==> forall e :: !(EmbedShape(s, q, e) && GroupAt(s, e))
  {
    if LiteralAt(s, q, "v/") && GroupAt(s, q + 2) then Some(q + 2)
    else if LiteralAt(s, q, "embed/") && GroupAt(s, q + 6) then Some(q + 6)
    else if LiteralAt(s, q, "e/") && GroupAt(s, q + 2) then Some(q + 2)
    else None
  }

  /** Third alternative, `.*[?&]v=`, then the group. */
  function MatchQuery(s: string, q: nat): (res: Option<nat>)
    requires q <= |s|
    ensures res.Some? ==> QueryShape(s, q, res.value) && GroupAt(s, res.value)
    ensures res.Some? ==> forall e | res.value < e :: !(QueryShape(s, q, e) && GroupAt(s, e))
    ensures res.None? ==> forall e :: !(QueryShape(s, q, e) && GroupAt(s, e))
  {
    QueryWithinLine(s, q);
    var lineEnd := LineEndFrom(s, q);
    var hit := BacktrackQuery(s, q, lineEnd - q);
    if hit.Some? then
      assert hit.value < lineEnd;
      Some(hit.value + 3)
    else
      None
  }

  /** In every match of `.*[?&]v=` from q, the `[?&]` lies within the line that starts at q. */
  lemma QueryWithinLine(s: string, q: nat)
    requires q <= |s|
    ensures forall e | QueryShape(s, q, e) :: e - 3 < LineEndFrom(s, q) && (GroupAt(s, e) ==> QueryHit(s, e - 3))
  {
    var lineEnd := LineEndFrom(s, q);
    forall e | QueryShape(s, q, e)
      ensures e - 3 < lineEnd
    {
      assert s[e - 3] != '\n';
    }
  }

  /** The pattern tried at start position p: the first alternative that leads to a group. */
  function MatchAt(s: string, p: nat): (res: Option<nat>)
    requires p <= |s|
    ensures res.Some? ==> MatchesAt(s, p, res.value) && PreferredAt(s, p, res.value)
    ensures res.None? ==> forall e :: !MatchesAt(s, p, e)
  {
    var watch := LiteralAt(s, p, WatchHost);
    if watch && MatchPath(s, p + 12).Some? then
      assert PathMatch(s, p + 12, MatchPath(s, p + 12).value);
      MatchPath(s, p + 12)
    else if watch && MatchEmbed(s, p + 12).Some? then
      assert EmbedMatch(s, p + 12, MatchEmbed(s, p + 12).value);
      MatchEmbed(s, p + 12)
    else if watch && MatchQuery(s, p + 12).Some? then
      assert QueryMatch(s, p + 12, MatchQuery(s, p + 12).value);
      MatchQuery(s, p + 12)
    else if LiteralAt(s, p, ShortHost) && GroupAt(s, p + 9) then Some(p + 9)
    else None
  }

  /**
   * `re.search`: start positions are tried from left to right and the first one at
   * which the pattern matches wins. The result is that start and the id's position.
   */
  function SearchFrom(s: string, p: nat): (res: Option<(nat, nat)>)
    requires p <= |s|
    ensures res.Some? ==> p <= res.value.0 && MatchesAt(s, res.value.0, res.value.1)
    ensures res.Some? ==> PreferredAt(s, res.value.0, res.value.1)
    ensures res.Some? ==> forall p', e | p <= p' < res.value.0 :: !MatchesAt(s, p', e)
    ensures res.None? ==> forall p', e | p <= p' :: !MatchesAt(s, p', e)
    decreases |s| - p
  {
    var here := MatchAt(s, p);
    if here.Some? then Some((p, here.value))
    else if p == |s| then
      assert forall p', e | p < p' :: !MatchesAt(s, p', e) by {
        forall p', e | p < p'
          ensures !MatchesAt(s, p', e)
        {
          MatchStartsWithY(s, p', e);
        }
      }
      None
    else SearchFrom(s, p + 1)
  }

  /** The id captured by the first match of the URL pattern, if any. */
  function FindUrlId(s: string): (r: Option<string>)
    ensures r.Some? <==> exists p, e :: MatchesAt(s, p, e)
    ensures r.Some? ==> exists p, e ::
              && MatchesAt(s, p, e) && PreferredAt(s, p, e) && r.value == s[e..e + IdLength]
              && forall p', e' | p' < p :: !MatchesAt(s, p', e')
    ensures r.Some? ==> |r.value| == IdLength && forall k | 0 <= k < IdLength :: IsGroupChar(r.value[k])
  {
    match SearchFrom(s, 0)
    case Some((p, e)) => Some(s[e..e + IdLength])
    case None => None
  }

  /** extract_video_id(url). The input None is Python's None. */
  function ExtractVideoId(url: Option<string>): (r: Option<string>)
    ensures url == None || url == Some("") ==> r == None
    ensures url.Some? && IsBareId(url.value) ==> r == url
    ensures r.Some? ==> |r.value| == IdLength
    ensures r.Some? && url.Some? && !IsBareId(url.value) ==> forall k | 0 <= k < IdLength :: IsGroupChar(r.value[k])
    ensures url.Some? && !IsBareId(url.value) ==> r == FindUrlId(url.value)
  {
    match url
    case None => None
    case Some(s) =>
      if |s| == 0 then None
      else if |s| == IdLength && IsBareId(s) then Some(s)
      else FindUrlId(s)
  }

  // ---------------------------------------------------------------------------
  // Properties of extract_video_id
  // ---------------------------------------------------------------------------

  /** Every match starts at a 'y', the first letter of both hosts, and spans at least a host and an id. */
  lemma MatchStartsWithY(s: string, p: int, e: int)
    ensures MatchesAt(s, p, e) ==> 0 <= p < |s| && s[p] == 'y' && p + 9 <= e && e + IdLength <= |s|
  {
    if LiteralAt(s, p, WatchHost) {
      assert s[p..p + 12][0] == s[p];
    }
    if LiteralAt(s, p, ShortHost) {
      assert s[p..p + 9][0] == s[p];
    }
  }

  /** A match needs one of the two hosts in the text. */
  lemma MatchNeedsHost(s: string, p: int, e: int)
    ensures MatchesAt(s, p, e) ==> Text.HasInfix(s, WatchHost) || Text.HasInfix(s, ShortHost)
  {
    Text.HasInfixIff(s, WatchHost);
    Text.HasInfixIff(s, ShortHost);
    if LiteralAt(s, p, WatchHost) {
      assert Text.InfixAt(s, WatchHost, p);
    }
    if LiteralAt(s, p, ShortHost) {
      assert Text.InfixAt(s, ShortHost, p);
    }
  }

  /** An input that is not an id and names neither host yields None. */
  lemma WithoutHostNone(s: string)
    requires !IsBareId(s)
    requires !Text.HasInfix(s, WatchHost) && !Text.HasInfix(s, ShortHost)
    ensures ExtractVideoId(Some(s)) == None
  {
    forall p, e
      ensures !MatchesAt(s, p, e)
    {
      MatchNeedsHost(s, p, e);
    }
  }

  /**
   * When the pattern matches at p, nothing before p can start a match and the match at p
   * determines its group, re.search returns that group.
   */
  lemma FirstMatchDecides(s: string, p: nat, e: nat)
    requires MatchesAt(s, p, e)
    requires forall k | 0 <= k < p && k < |s| :: s[k] != 'y'
    requires forall e' | MatchesAt(s, p, e') :: e' == e
    ensures ExtractVideoId(Some(s)) == Some(s[e..e + IdLength])
  {
    MatchStartsWithY(s, p, e);
    NoMatchBeforeY(s, p);
    SearchFindsFirst(s, p, e);
    SearchDecides(s, p, e);
  }

  /** Every match starts at a 'y', so none starts before the first 'y'. */
  lemma NoMatchBeforeY(s: string, p: int)
    requires forall k | 0 <= k < p && k < |s| :: s[k] != 'y'
    ensures forall p', e' | p' < p :: !MatchesAt(s, p', e')
  {
    forall p', e' | p' < p
      ensures !MatchesAt(s, p', e')
    {
      MatchStartsWithY(s, p', e');
    }
  }

  /** At most one of `v/`, `e/` and `embed/` can lead to a group: they differ in their second character. */
  lemma EmbedMatchUnique(s: string, q: int, e1: int, e2: int)
    requires EmbedMatch(s, q, e1) && EmbedMatch(s, q, e2)
    ensures e1 == e2
  {
    assert LiteralAt(s, q, "embed/") ==> s[q..q + 6][1] == s[q + 1];
    assert LiteralAt(s, q, "v/") || LiteralAt(s, q, "e/") ==> s[q..q + 2][1] == s[q + 1];
  }

  /** The preferred group is a group of a match of the whole pattern. */
  lemma PreferredIsMatch(s: string, p: int, e: int)
    requires PreferredAt(s, p, e)
    ensures MatchesAt(s, p, e)
  {
  }

  /** The priority order leaves exactly one group per start position. */
  lemma PreferredUnique(s: string, p: int, e1: int, e2: int)
    requires PreferredAt(s, p, e1) && PreferredAt(s, p, e2)
    ensures e1 == e2
  {
    if LiteralAt(s, p, WatchHost) && !HasPathMatch(s, p + 12) && HasEmbedMatch(s, p + 12) {
      EmbedMatchUnique(s, p + 12, e1, e2);
    }
  }

  /**
   * re.search returns the preferred group of the leftmost start: when nothing matches
   * before p, the result is the group PreferredAt fixes at p.
   */
  lemma PreferredMatchDecides(s: string, p: int, e: int)
    requires PreferredAt(s, p, e)
    requires forall p', e' | p' < p :: !MatchesAt(s, p', e')
    requires !IsBareId(s)
    ensures ExtractVideoId(Some(s)) == Some(s[e..e + IdLength])
  {
    PreferredIsMatch(s, p, e);
    SearchFindsFirst(s, p, e);
    PreferredUnique(s, p, e, SearchFrom(s, 0).value.1);
    SearchDecides(s, p, e);
  }

  /** re.search stops at the first start position that matches. */
  lemma SearchFindsFirst(s: string, p: int, e: int)
    requires MatchesAt(s, p, e)
    requires forall p', e' | p' < p :: !MatchesAt(s, p', e')
    ensures SearchFrom(s, 0).Some? && SearchFrom(s, 0).value.0 == p
  {
    var found := SearchFrom(s, 0);
    assert found.Some?;
    assert !(found.value.0 < p) && !(p < found.value.0);
  }

  /** extract_video_id returns the group of the match re.search finds. */
  lemma SearchDecides(s: string, p: nat, e: nat)
    requires SearchFrom(s, 0) == Some((p, e))
    requires !IsBareId(s)
    ensures e + IdLength <= |s|
    ensures ExtractVideoId(Some(s)) == Some(s[e..e + IdLength])
  {
    assert MatchesAt(s, p, e);
    assert FindUrlId(s) == Some(s[e..e + IdLength]);
  }

  /** The id characters are in the capturing group's class and are neither '/' nor '?' nor '&'. */
  lemma IdTail(s: string, e: nat)
    requires e + IdLength == |s| && IsBareId(s[e..])
    ensures GroupAt(s, e)
    ensures forall k | e <= k < |s| :: IsIdChar(s[k]) && s[k] != '/' && s[k] != '?' && s[k] != '&' && s[k] != '\n'
  {
    forall k | e <= k < |s|
      ensures IsIdChar(s[k])
    {
      assert s[k] == s[e..][k - e];
    }
  }

  /** The short link `https://youtu.be/<id>` yields the id. */
  lemma ShortLinkYieldsId(id: string)
    requires IsBareId(id)
    ensures ExtractVideoId(Some("https://youtu.be/" + id)) == Some(id)
  {
    var s := "https://youtu.be/" + id;
    assert s[17..] == id;
    IdTail(s, 17);
    assert LiteralAt(s, 8, ShortHost);
    assert !LiteralAt(s, 8, WatchHost) by {
      assert s[8..20][5] != WatchHost[5];
    }
    FirstMatchDecides(s, 8, 17);
    assert s[17..28] == id;
  }

  /** In the watch link, the only way the pattern matches at the host is through `.*[?&]v=`. */
  lemma WatchLinkMatch(id: string)
    requires IsBareId(id)
    ensures var s := "https://www.youtube.com/watch?v=" + id;
      MatchesAt(s, 12, 32) && forall e' | MatchesAt(s, 12, e') :: e' == 32
  {
    var s := "https://www.youtube.com/watch?v=" + id;
    assert s[32..] == id;
    IdTail(s, 32);
    assert LiteralAt(s, 12, WatchHost);
    assert !LiteralAt(s, 12, ShortHost) by {
      assert s[12..21][5] != ShortHost[5];
    }
    assert forall k | 24 <= k < 32 :: s[k] != '/' && s[k] != '\n' && (k != 29 ==> s[k] != '?' && s[k] != '&');
    assert QueryShape(s, 24, 32);
    assert !LiteralAt(s, 24, "v/") && !LiteralAt(s, 24, "e/") && !LiteralAt(s, 24, "embed/") by {
      assert s[24..26][0] == 'w';
      assert s[24..30][0] == 'w';
    }
  }

  /** The watch link `https://www.youtube.com/watch?v=<id>` yields the id. */
  lemma WatchLinkYieldsId(id: string)
    requires IsBareId(id)
    ensures ExtractVideoId(Some("https://www.youtube.com/watch?v=" + id)) == Some(id)
  {
    var s := "https://www.youtube.com/watch?v=" + id;
    WatchLinkMatch(id);
    FirstMatchDecides(s, 12, 32);
    assert s[32..43] == id;
  }

  /** In the embed link, the only way the pattern matches at the host is through `e(?:mbed)?\/`. */
  lemma EmbedLinkMatch(id: string)
    requires IsBareId(id)
    ensures var s := "https://www.youtube.com/embed/" + id;
      MatchesAt(s, 12, 30) && forall e' | MatchesAt(s, 12, e') :: e' == 30
  {
    var s := "https://www.youtube.com/embed/" + id;
    assert s[30..] == id;
    IdTail(s, 30);
    assert LiteralAt(s, 12, WatchHost);
    assert !LiteralAt(s, 12, ShortHost) by {
      assert s[12..21][5] != ShortHost[5];
    }
    assert forall k | 24 <= k < 29 :: s[k] != '/' && s[k] != '\n' && s[k] != '?' && s[k] != '&';
    assert LiteralAt(s, 24, "embed/");
    assert !LiteralAt(s, 24, "v/") && !LiteralAt(s, 24, "e/") by {
      assert s[24..26][1] == 'm';
    }
  }

  /** The embed link `https://www.youtube.com/embed/<id>` yields the id. */
  lemma EmbedLinkYieldsId(id: string)
    requires IsBareId(id)
    ensures ExtractVideoId(Some("https://www.youtube.com/embed/" + id)) == Some(id)
  {
    var s := "https://www.youtube.com/embed/" + id;
    EmbedLinkMatch(id);
    FirstMatchDecides(s, 12, 30);
    assert s[30..41] == id;
  }

  /**
   * With two `v=` parameters the greedy `.*` reaches the last one:
   * `youtube.com/x?v=<a>&v=<b>` yields b, not a.
   */
  lemma QueryTakesLastV(a: string, b: string)
    requires IsBareId(a) && IsBareId(b)
    ensures ExtractVideoId(Some("youtube.com/x?v=" + a + "&v=" + b)) == Some(b)
  {
    var s := "youtube.com/x?v=" + a + "&v=" + b;
    assert s[30..] == b;
    IdTail(s, 30);
    forall k | 16 <= k < 27
      ensures IsIdChar(s[k])
    {
      assert s[k] == a[k - 16];
    }
    assert forall k | 12 <= k < |s| :: s[k] != '/' && s[k] != '\n';
    assert LiteralAt(s, 0, WatchHost);
    assert QueryMatch(s, 12, 30);
    assert !HasEmbedMatch(s, 12) by {
      assert s[12..14][0] == 'x';
      assert s[12..18][0] == 'x';
    }
    assert PreferredAt(s, 0, 30);
    PreferredMatchDecides(s, 0, 30);
    assert s[30..41] == b;
  }

  /**
   * The path form is tried before the query form: `youtube.com/a/b/<x>?v=<y>` yields x,
   * although `.*[?&]v=` would capture y.
   */
  lemma PathBeatsQuery(x: string, y: string)
    requires IsBareId(x) && IsBareId(y)
    ensures ExtractVideoId(Some("youtube.com/a/b/" + x + "?v=" + y)) == Some(x)
  {
    var s := "youtube.com/a/b/" + x + "?v=" + y;
    assert s[30..] == y;
    IdTail(s, 30);
    forall k | 16 <= k < 27
      ensures IsIdChar(s[k])
    {
      assert s[k] == x[k - 16];
    }
    assert forall k | 16 <= k < |s| :: s[k] != '/' && s[k] != '\n';
    assert LiteralAt(s, 0, WatchHost);
    assert NoSlashIn(s, 12, 13) && NoNewlineIn(s, 14, 15);
    assert PathShape(s, 12, 16);
    assert LastPathMatch(s, 12, 16);
    assert PreferredAt(s, 0, 16);
    PreferredMatchDecides(s, 0, 16);
    assert s[16..27] == x;
  }

  /**
   * A Shorts link `https://www.youtube.com/shorts/<id>` yields None: after `shorts/` the
   * path form needs a second slash, and neither `v/`, `e/`, `embed/` nor `?v=` occurs.
   */
  lemma ShortsLinkRejected(id: string)
    requires IsBareId(id)
    ensures ExtractVideoId(Some("https://www.youtube.com/shorts/" + id)) == None
  {
    var s := "https://www.youtube.com/shorts/" + id;
    assert s[31..] == id;
    IdTail(s, 31);
    assert forall k | 0 <= k <= 22 && k != 12 :: s[k] != 'y';
    assert forall k | 24 <= k < 30 :: s[k] != '/' && s[k] != '?' && s[k] != '&';
    assert !LiteralAt(s, 12, ShortHost) by {
      assert s[12..21][5] != ShortHost[5];
    }
    assert !LiteralAt(s, 24, "v/") && !LiteralAt(s, 24, "e/") && !LiteralAt(s, 24, "embed/") by {
      assert s[24..26][0] == 's';
      assert s[24..30][0] == 's';
    }
    forall p, e
      ensures !MatchesAt(s, p, e)
    {
      MatchStartsWithY(s, p, e);
    }
  }
}
