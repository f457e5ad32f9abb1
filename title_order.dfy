/**
 * The two title heuristics that decide display order (movies/views.py):
 * `extract_episode_number`, a (season, episode) sort key found by three
 * regular-expression searches, and `extract_movie_order_number`, the value
 * of a leading "<digits>." token.
 *
 * Each regular expression is modelled by what it matches at one position
 * (`MatchAt`, backtracking included) and by a leftmost search over positions
 * (`SearchFrom`), which is what Python's `re.search` returns.
 */
module TitleOrder {
  import opened Wrappers
  import opened Ascii

  /** The order number of a title without a leading "<digits>." token. */
  const NoOrderNumber: nat := 9999
  /** The season of a title without a season marker. */
  const DefaultSeason: nat := 1
  /** The episode of a title without an episode ("movie or unsorted item"). */
  const NoEpisode: nat := 9999

  /** `Marker(c, rest)` is the pattern `c(?:rest)?\s*(\d+)`;
      `StandaloneNumber` is `\b(\d+)\b`. */
  datatype Pattern = Marker(initial: char, rest: string) | StandaloneNumber

  /** `s(?:eason)?\s*(\d+)` */
  const SeasonMarker: Pattern := Marker('s', "eason")
  /** `e(?:pisode)?\s*(\d+)` */
  const EpisodeMarker: Pattern := Marker('e', "pisode")

  /** A match in a text `t`: group 0 is `t[start..end]`, group 1 (the digits)
      is `t[digits..end]`. */
  datatype Match = Match(start: nat, digits: nat, end: nat)

  ghost predicate ValidMatch(t: string, m: Match)
  {
    && m.start <= m.digits < m.end <= |t|
    && AllDigits(t[m.digits..m.end])
    && (m.end == |t| || !IsDigit(t[m.end]))
  }

  /** `match.group(0)` */
  function Group0(t: string, m: Match): string
    requires m.start <= m.end <= |t|
  {
    t[m.start..m.end]
  }

  /** `int(match.group(1))`, or `None` where it raises `ValueError`. */
  function Value(t: string, m: Match): Option<nat>
    requires ValidMatch(t, m)
  {
    ParseInt(t[m.digits..m.end])
  }

  /** The text a marker match has between its initial letter and its digits:
      optionally the rest of the word, then whitespace only. */
  ghost predicate MarkerGap(pat: Pattern, gap: string)
    requires pat.Marker?
  {
    || AllSpace(gap)
    || (|pat.rest| <= |gap| && gap[..|pat.rest|] == pat.rest && AllSpace(gap[|pat.rest|..]))
  }

  /** `\s*(\d+)` tried at position `p`: where its digits start, if it matches. */
  function DigitsAfterSpace(t: string, p: nat): (r: Option<nat>)
    requires p <= |t|
    ensures r.Some? ==> p <= r.value < |t| && IsDigit(t[r.value]) && AllSpace(t[p..r.value])
    ensures r.None? ==> forall j :: p <= j < |t| && AllSpace(t[p..j]) ==> !IsDigit(t[j])
  {
    var q := RunEnd(t, p, IsSpace);
    if q < |t| && IsDigit(t[q]) then Some(q)
    else None
  }

  /** What the pattern matches when the regular-expression engine tries it at
      position `i` of `t`, with greedy quantifiers and backtracking: a match
      exists exactly when the pattern's language allows one (the last two
      ensures), and then it is the one the greedy engine takes. */
  function MatchAt(pat: Pattern, t: string, i: nat): (r: Option<Match>)
    ensures r.Some? ==> r.value.start == i && ValidMatch(t, r.value)
    ensures r.Some? && pat.Marker? ==>
      i < r.value.digits && t[i] == pat.initial && MarkerGap(pat, t[i + 1..r.value.digits])
    ensures r.Some? && pat.StandaloneNumber? ==>
      && r.value.digits == i
      && (i == 0 || !IsWordChar(t[i - 1]))
      && (r.value.end == |t| || !IsWordChar(t[r.value.end]))
    ensures r.None? && pat.Marker? && i < |t| && t[i] == pat.initial ==>
      forall j :: i < j < |t| && MarkerGap(pat, t[i + 1..j]) ==> !IsDigit(t[j])
    ensures r.None? && pat.StandaloneNumber? && i < |t| && (i == 0 || !IsWordChar(t[i - 1])) ==>
      forall j :: i < j <= |t| && AllDigits(t[i..j]) ==> j < |t| && IsWordChar(t[j])
  {
    match pat
    case Marker(_, _) => MarkerMatchAt(pat, t, i)
    case StandaloneNumber => NumberMatchAt(t, i)
  }

  /** `c(?:rest)?\s*(\d+)` at position `i`. */
  function MarkerMatchAt(pat: Pattern, t: string, i: nat): (r: Option<Match>)
    requires pat.Marker?
    ensures r.Some? ==>
      && r.value.start == i && ValidMatch(t, r.value)
      && i < r.value.digits && t[i] == pat.initial && MarkerGap(pat, t[i + 1..r.value.digits])
    ensures r.None? && i < |t| && t[i] == pat.initial ==>
      forall j :: i < j < |t| && MarkerGap(pat, t[i + 1..j]) ==> !IsDigit(t[j])
  {
    if i >= |t| || t[i] != pat.initial then None
    else
      match MarkerDigits(pat, t, i)
      case Some(d) => Some(Match(i, d, RunEnd(t, d, IsDigit)))
      case None => None
  }

  /** Where the digits of a marker starting at `i` begin: after the rest of
      the word and whitespace when that alternative matches, otherwise after
      whitespace directly behind the letter. */
  function MarkerDigits(pat: Pattern, t: string, i: nat): (d: Option<nat>)
    requires pat.Marker? && i < |t|
    ensures d.Some? ==> i < d.value < |t| && IsDigit(t[d.value]) && MarkerGap(pat, t[i + 1..d.value])
    ensures d.None? ==> forall j :: i < j < |t| && MarkerGap(pat, t[i + 1..j]) ==> !IsDigit(t[j])
  {
    var long := i + 1 + |pat.rest|;
    var withRest := if long <= |t| && t[i + 1..long] == pat.rest then DigitsAfterSpace(t, long) else None;
    if withRest.Some? then
      MarkerGapOfDigits(pat, t, i, withRest.value, true);
      withRest
    else
      var bare := DigitsAfterSpace(t, i + 1);
      if bare.Some? then
        MarkerGapOfDigits(pat, t, i, bare.value, false);
        bare
      else
        MarkerNoDigits(pat, t, i);
        None
  }

  /** `\b(\d+)\b` at position `i`: a maximal digit run with no word character
      on either side. */
  function NumberMatchAt(t: string, i: nat): (r: Option<Match>)
    ensures r.Some? ==>
      && r.value.start == i && ValidMatch(t, r.value)
      && r.value.digits == i
      && (i == 0 || !IsWordChar(t[i - 1]))
      && (r.value.end == |t| || !IsWordChar(t[r.value.end]))
    ensures r.None? && i < |t| && (i == 0 || !IsWordChar(t[i - 1])) ==>
      forall j :: i < j <= |t| && AllDigits(t[i..j]) ==> j < |t| && IsWordChar(t[j])
  {
    if i < |t| && IsDigit(t[i]) && (i == 0 || !IsWordChar(t[i - 1])) then
      var e := RunEnd(t, i, IsDigit);
      if e == |t| || !IsWordChar(t[e]) then Some(Match(i, i, e))
      else
        NumberRunBlocked(t, i, e);
        None
    else
      NumberNoStart(t, i);
      None
  }

  /** The gap before digits found by either alternative of a marker is one the
      marker allows. */
  lemma MarkerGapOfDigits(pat: Pattern, t: string, i: nat, d: nat, withRest: bool)
    requires pat.Marker? && i < d <= |t|
    requires withRest ==> var long := i + 1 + |pat.rest|;
      long <= d && t[i + 1..long] == pat.rest && AllSpace(t[long..d])
    requires !withRest ==> AllSpace(t[i + 1..d])
    ensures MarkerGap(pat, t[i + 1..d])
  {
    if withRest {
      var long := i + 1 + |pat.rest|;
      assert t[i + 1..d][..|pat.rest|] == t[i + 1..long];
      assert t[i + 1..d][|pat.rest|..] == t[long..d];
    }
  }

  /** A maximal digit run followed by a word character: no shorter run ends
      at a word boundary either. */
  lemma NumberRunBlocked(t: string, i: nat, e: nat)
    requires i < e < |t| && IsWordChar(t[e]) && !IsDigit(t[e])
    requires forall k :: i <= k < e ==> IsDigit(t[k])
    ensures forall j :: i < j <= |t| && AllDigits(t[i..j]) ==> j < |t| && IsWordChar(t[j])
  {
    assert forall j :: e < j <= |t| ==> t[i..j][e - i] == t[e];
  }

  lemma NumberNoStart(t: string, i: nat)
    requires !(i < |t| && IsDigit(t[i]) && (i == 0 || !IsWordChar(t[i - 1])))
    ensures i < |t| && (i == 0 || !IsWordChar(t[i - 1])) ==>
      forall j :: i < j <= |t| && AllDigits(t[i..j]) ==> j < |t| && IsWordChar(t[j])
  {
    assert forall j :: i < j <= |t| ==> t[i..j][0] == t[i];
  }

  /** When neither alternative of a marker finds digits, no gap the marker
      allows ends at a digit. */
  lemma MarkerNoDigits(pat: Pattern, t: string, i: nat)
    requires pat.Marker? && i < |t|
    requires var long := i + 1 + |pat.rest|;
      long <= |t| && t[i + 1..long] == pat.rest ==> DigitsAfterSpace(t, long).None?
    requires DigitsAfterSpace(t, i + 1).None?
    ensures forall j :: i < j < |t| && MarkerGap(pat, t[i + 1..j]) ==> !IsDigit(t[j])
  {
    var long := i + 1 + |pat.rest|;
    forall j | i < j < |t| && MarkerGap(pat, t[i + 1..j]) ensures !IsDigit(t[j]) {
      var gap := t[i + 1..j];
      if !AllSpace(gap) {
        assert gap[..|pat.rest|] == t[i + 1..long];
        assert gap[|pat.rest|..] == t[long..j];
      }
    }
  }

  /** `re.search` from position `from`: the match at the leftmost position at
      which the pattern matches. */
  function SearchFrom(pat: Pattern, t: string, from: nat): (r: Option<Match>)
    requires from <= |t|
    ensures r.Some? ==> from <= r.value.start < |t| && MatchAt(pat, t, r.value.start) == r
    ensures forall j :: from <= j < |t| && (r.None? || j < r.value.start) ==> MatchAt(pat, t, j).None?
    decreases |t| - from
  {
    if from == |t| then None
    else
      var m := MatchAt(pat, t, from);
      if m.Some? then m else SearchFrom(pat, t, from + 1)
  }

  /** `i` is the leftmost position at which `pat` matches in `t`. */
  ghost predicate IsFirstMatch(pat: Pattern, t: string, i: int)
  {
    0 <= i < |t| && MatchAt(pat, t, i).Some? && forall j :: 0 <= j < i ==> MatchAt(pat, t, j).None?
  }

  /** `pat` matches nowhere in `t`. */
  ghost predicate NoMatch(pat: Pattern, t: string)
  {
    forall j :: 0 <= j < |t| ==> MatchAt(pat, t, j).None?
  }

  /** `int(group(1))` of the match at position `i`, or `None` where it
      raises `ValueError`. */
  function ValueAt(pat: Pattern, t: string, i: nat): Option<nat>
    requires MatchAt(pat, t, i).Some?
  {
    Value(t, MatchAt(pat, t, i).value)
  }

  /** `s.replace(target, '')`: the non-overlapping occurrences of `target`,
      found from the left, deleted. */
  function RemoveAll(s: string, target: string): (r: string)
    requires |target| > 0
    ensures |r| <= |s|
    ensures Occurs(target, s) ==> |r| <= |s| - |target|
    ensures !Occurs(target, s) ==> r == s
    decreases |s|
  {
    if |s| < |target| then
      assert !Occurs(target, s);
      s
    else if s[..|target|] == target then
      assert OccursAt(target, s, 0);
      RemoveAll(s[|target|..], target)
    else
      var tail := RemoveAll(s[1..], target);
      OccursPastFirst(target, s);
      assert !Occurs(target, s) ==> [s[0]] + s[1..] == s;
      [s[0]] + tail
  }

  /** The (season, episode) sort key of a title. */
  datatype EpisodeKey = EpisodeKey(season: nat, episode: nat)

  /** The episode a title with a season marker falls back to: the first
      standalone number left once every copy of the season match's text is
      deleted, or `NoEpisode` if there is none or `int()` refuses it. */
  function FallbackEpisode(t: string, seasonMatch: Match): (r: nat)
    requires ValidMatch(t, seasonMatch)
    ensures var cleaned := RemoveAll(t, Group0(t, seasonMatch));
      && (NoMatch(StandaloneNumber, cleaned) ==> r == NoEpisode)
      && (forall k :: IsFirstMatch(StandaloneNumber, cleaned, k) ==>
            r == UnwrapOr(ValueAt(StandaloneNumber, cleaned, k), NoEpisode))
  {
    var cleaned := RemoveAll(t, Group0(t, seasonMatch));
    var number := SearchFrom(StandaloneNumber, cleaned, 0);
    if number.Some? then UnwrapOr(Value(cleaned, number.value), NoEpisode) else NoEpisode
  }

  /** `extract_episode_number`: the (season, episode) sort key of a title,
      read from its lower-cased text. A number `int()` refuses leaves the
      default in place, as the `except ValueError: pass` branches do. */
  function ExtractEpisodeNumber(title: Option<string>): EpisodeKey
  {
    var t := Lower(OrEmpty(title));
    var seasonMatch := SearchFrom(SeasonMarker, t, 0);
    var episodeMatch := SearchFrom(EpisodeMarker, t, 0);
    var season := if seasonMatch.Some? then UnwrapOr(Value(t, seasonMatch.value), DefaultSeason) else DefaultSeason;
    var episode := if episodeMatch.Some? then UnwrapOr(Value(t, episodeMatch.value), NoEpisode) else NoEpisode;
    if episode == NoEpisode && seasonMatch.Some? then
      EpisodeKey(season, FallbackEpisode(t, seasonMatch.value))
    else
      EpisodeKey(season, episode)
  }

  /** `re.search` returns the match at the leftmost matching position, and
      nothing exactly when no position matches. */
  lemma SearchIsLeftmost(pat: Pattern, t: string)
    ensures NoMatch(pat, t) <==> SearchFrom(pat, t, 0).None?
    ensures forall i :: IsFirstMatch(pat, t, i) ==> SearchFrom(pat, t, 0) == MatchAt(pat, t, i)
  {
  }

  /** The season is the number of the leftmost season marker, or 1 when
      `int()` refuses that number. */
  lemma SeasonIsFirstMarker(title: Option<string>, i: nat)
    requires IsFirstMatch(SeasonMarker, Lower(OrEmpty(title)), i)
    ensures ExtractEpisodeNumber(title).season == UnwrapOr(ValueAt(SeasonMarker, Lower(OrEmpty(title)), i), DefaultSeason)
  {
    SearchIsLeftmost(SeasonMarker, Lower(OrEmpty(title)));
  }

  /** Without a season marker the season is 1, and the episode is the number
      of the leftmost episode marker, or 9999 without one (or when `int()`
      refuses it): the fallback never runs. */
  lemma WithoutSeasonMarker(title: Option<string>)
    requires NoMatch(SeasonMarker, Lower(OrEmpty(title)))
    ensures ExtractEpisodeNumber(title).season == DefaultSeason
    ensures NoMatch(EpisodeMarker, Lower(OrEmpty(title))) ==> ExtractEpisodeNumber(title).episode == NoEpisode
    ensures forall k :: IsFirstMatch(EpisodeMarker, Lower(OrEmpty(title)), k) ==>
      ExtractEpisodeNumber(title).episode == UnwrapOr(ValueAt(EpisodeMarker, Lower(OrEmpty(title)), k), NoEpisode)
  {
    SearchIsLeftmost(SeasonMarker, Lower(OrEmpty(title)));
    SearchIsLeftmost(EpisodeMarker, Lower(OrEmpty(title)));
  }

  /** An explicit episode number other than 9999 is kept. */
  lemma ExplicitEpisodeKept(title: Option<string>, k: nat)
    requires IsFirstMatch(EpisodeMarker, Lower(OrEmpty(title)), k)
    requires ValueAt(EpisodeMarker, Lower(OrEmpty(title)), k).Some?
    requires ValueAt(EpisodeMarker, Lower(OrEmpty(title)), k).value != NoEpisode
    ensures ExtractEpisodeNumber(title).episode == ValueAt(EpisodeMarker, Lower(OrEmpty(title)), k).value
  {
    SearchIsLeftmost(EpisodeMarker, Lower(OrEmpty(title)));
  }

  /** With a season marker and an episode that is still 9999 (no episode
      marker, an explicit 9999, or a number `int()` refuses), the episode is
      the fallback number. */
  lemma FallbackWhenNoEpisode(title: Option<string>, i: nat)
    requires IsFirstMatch(SeasonMarker, Lower(OrEmpty(title)), i)
    requires var t := Lower(OrEmpty(title));
      || NoMatch(EpisodeMarker, t)
      || exists k :: IsFirstMatch(EpisodeMarker, t, k) && UnwrapOr(ValueAt(EpisodeMarker, t, k), NoEpisode) == NoEpisode
    ensures ExtractEpisodeNumber(title).episode == FallbackEpisode(Lower(OrEmpty(title)), MatchAt(SeasonMarker, Lower(OrEmpty(title)), i).value)
  {
    SearchIsLeftmost(SeasonMarker, Lower(OrEmpty(title)));
    SearchIsLeftmost(EpisodeMarker, Lower(OrEmpty(title)));
  }

  /** `s` starts with `k` decimal digits immediately followed by '.'. */
  ghost predicate NumberedAt(s: string, k: int)
  {
    0 < k < |s| && AllDigits(s[..k]) && s[k] == '.'
  }

  /** `extract_movie_order_number`: the value of the digits that open the
      stripped title when a '.' follows them and `int()` accepts them, and
      9999 otherwise. Its meaning is stated by `OrderNumberCases`. */
  function ExtractMovieOrderNumber(title: Option<string>): nat
  {
    var s := Strip(OrEmpty(title));
    var e := RunEnd(s, 0, IsDigit);
    if 0 < e < |s| && s[e] == '.' then UnwrapOr(ParseInt(s[..e]), NoOrderNumber) else NoOrderNumber
  }

  /** After stripping whitespace, a title that starts with decimal digits
      immediately followed by '.' has the value of those digits, unless there
      are too many digits for `int()`; every other title, the empty one
      included, has 9999. */
  lemma OrderNumberCases(title: Option<string>)
    ensures var s := Strip(OrEmpty(title));
      forall k {:trigger NumberedAt(s, k)} :: NumberedAt(s, k) && k <= IntMaxStrDigits ==>
        ExtractMovieOrderNumber(title) == DigitsValue(s[..k])
    ensures var s := Strip(OrEmpty(title));
      forall k {:trigger NumberedAt(s, k)} :: NumberedAt(s, k) && k > IntMaxStrDigits ==>
        ExtractMovieOrderNumber(title) == NoOrderNumber
    ensures var s := Strip(OrEmpty(title));
      (forall k {:trigger NumberedAt(s, k)} :: !NumberedAt(s, k)) ==> ExtractMovieOrderNumber(title) == NoOrderNumber
  {
    var s := Strip(OrEmpty(title));
    var e := RunEnd(s, 0, IsDigit);
    assert 0 < e < |s| ==> AllDigits(s[..e]);
    assert 0 < e < |s| && s[e] == '.' ==> NumberedAt(s, e);
  }

  /** Matching is case-insensitive: titles that differ only in the case of
      their letters have the same key. */
  lemma EpisodeNumberIgnoresCase(a: string, b: string)
    requires SameIgnoringCase(a, b)
    ensures ExtractEpisodeNumber(Some(a)) == ExtractEpisodeNumber(Some(b))
  {
    LowerCaseInsensitive(a, b);
  }

  /** A title made of leading whitespace, a run of digits, a '.' and
      anything else has the value of the digits as order number, or 9999
      when `int()` refuses them. */
  lemma {:induction false} OrderNumberOfDigits(ws: string, d: string, rest: string)
    requires AllSpace(ws) && 0 < |d| && AllDigits(d)
    ensures ExtractMovieOrderNumber(Some(ws + d + "." + rest)) == UnwrapOr(ParseInt(d), NoOrderNumber)
  {
    var p := d + ".";
    assert p[0] == d[0] && IsDigit(d[0]);
    var title := ws + d + "." + rest;
    assert title == ws + (p + rest);
    TrimStartSkipsSpace(ws, p + rest);
    StripKeepsPrefix(p, rest);
    var s := Strip(title);
    var k := |d|;
    assert s[..|p|] == p;
    assert s[..k] == d by { assert s[..k] == s[..|p|][..k]; }
    assert s[k] == '.' by { assert s[k] == s[..|p|][k]; }
    assert NumberedAt(s, k);
    OrderNumberCases(Some(title));
  }

  /** A title made of leading whitespace, `str(n)`, a '.' and anything else
      has order number `n` when `str(n)` is within `int()`'s digit limit. */
  lemma OrderNumberOfNumberedTitle(ws: string, n: nat, rest: string)
    requires AllSpace(ws) && |ShowNat(n)| <= IntMaxStrDigits
    ensures ExtractMovieOrderNumber(Some(ws + ShowNat(n) + "." + rest)) == n
  {
    OrderNumberOfDigits(ws, ShowNat(n), rest);
    ParseIntShowNat(n);
  }
}
