/**
 * Worked examples of the title heuristics. Each is proved from the general
 * lemmas of module TitleOrder by following the regular-expression engine
 * position by position. The proofs work on a parameter pinned to the
 * example text, which keeps the verifier from unrolling the searches on a
 * literal string.
 */
module TitleOrderExamples {
  import opened Wrappers
  import opened Ascii
  import opened TitleOrder

  /** The key of a title whose leftmost season and episode markers carry
      `season` and `episode`, the episode not 9999. */
  lemma KeyOfMarkers(title: string, t: string, i: nat, k: nat, season: nat, episode: nat)
    requires Lower(title) == t
    requires IsFirstMatch(SeasonMarker, t, i) && ValueAt(SeasonMarker, t, i) == Some(season)
    requires IsFirstMatch(EpisodeMarker, t, k) && ValueAt(EpisodeMarker, t, k) == Some(episode)
    requires episode != NoEpisode
    ensures ExtractEpisodeNumber(Some(title)) == EpisodeKey(season, episode)
  {
    SeasonIsFirstMarker(Some(title), i);
    ExplicitEpisodeKept(Some(title), k);
  }

  /** The key of a title whose leftmost season marker carries `season`,
      with no episode marker, and whose fallback number is `episode`. */
  lemma KeyOfFallback(title: string, t: string, i: nat, season: nat, episode: nat)
    requires Lower(title) == t
    requires IsFirstMatch(SeasonMarker, t, i) && ValueAt(SeasonMarker, t, i) == Some(season)
    requires NoMatch(EpisodeMarker, t)
    requires FallbackEpisode(t, MatchAt(SeasonMarker, t, i).value) == episode
    ensures ExtractEpisodeNumber(Some(title)) == EpisodeKey(season, episode)
  {
    SeasonIsFirstMarker(Some(title), i);
    FallbackWhenNoEpisode(Some(title), i);
  }

  /** The same when the leftmost episode marker carries 9999. */
  lemma KeyOfExplicitFallback(title: string, t: string, i: nat, k: nat, season: nat, episode: nat)
    requires Lower(title) == t
    requires IsFirstMatch(SeasonMarker, t, i) && ValueAt(SeasonMarker, t, i) == Some(season)
    requires IsFirstMatch(EpisodeMarker, t, k) && ValueAt(EpisodeMarker, t, k) == Some(NoEpisode)
    requires FallbackEpisode(t, MatchAt(SeasonMarker, t, i).value) == episode
    ensures ExtractEpisodeNumber(Some(title)) == EpisodeKey(season, episode)
  {
    SeasonIsFirstMarker(Some(title), i);
    FallbackWhenNoEpisode(Some(title), i);
  }

  /** "S01E03" is season 1, episode 3. */
  lemma CompactMarkers()
    ensures ExtractEpisodeNumber(Some("S01E03")) == EpisodeKey(1, 3)
  {
    CompactMarkersFor("S01E03", "s01e03");
  }

  lemma CompactMarkersFor(title: string, t: string)
    requires title == "S01E03" && t == "s01e03"
    ensures ExtractEpisodeNumber(Some(title)) == EpisodeKey(1, 3)
  {
    LowerOfCompactMarkers(title, t);
    SeasonOfCompactMarkers(t);
    EpisodeOfCompactMarkers(t);
    KeyOfMarkers(title, t, 0, 3, 1, 3);
  }

  lemma LowerOfCompactMarkers(title: string, t: string)
    requires title == "S01E03" && t == "s01e03"
    ensures Lower(title) == t
  {
  }

  lemma SeasonOfCompactMarkers(t: string)
    requires t == "s01e03"
    ensures IsFirstMatch(SeasonMarker, t, 0) && ValueAt(SeasonMarker, t, 0) == Some(1)
  {
    assert RunEnd(t, 1, IsSpace) == 1;
    assert RunEnd(t, 1, IsDigit) == 3 by {
      assert RunEnd(t, 3, IsDigit) == 3;
      assert RunEnd(t, 2, IsDigit) == 3;
    }
    assert t[1..6] != "eason" by { assert t[1] == '0'; }
    assert MatchAt(SeasonMarker, t, 0) == Some(Match(0, 1, 3));
    DigitsOf01(t[1..3]);
    assert ValueAt(SeasonMarker, t, 0) == Some(DigitsValue(t[1..3]));
  }

  lemma EpisodeOfCompactMarkers(t: string)
    requires t == "s01e03"
    ensures IsFirstMatch(EpisodeMarker, t, 3) && ValueAt(EpisodeMarker, t, 3) == Some(3)
  {
    assert RunEnd(t, 4, IsSpace) == 4;
    assert RunEnd(t, 4, IsDigit) == 6 by {
      assert RunEnd(t, 6, IsDigit) == 6;
      assert RunEnd(t, 5, IsDigit) == 6;
    }
    assert MatchAt(EpisodeMarker, t, 3) == Some(Match(3, 4, 6));
    assert forall j :: 0 <= j < 3 ==> MatchAt(EpisodeMarker, t, j).None?;
    DigitsOf03(t[4..6]);
    assert ValueAt(EpisodeMarker, t, 3) == Some(DigitsValue(t[4..6]));
  }

  lemma SingleDigit(d: string)
    requires |d| == 1 && IsDigit(d[0])
    ensures AllDigits(d) && DigitsValue(d) == DigitValue(d[0])
  {
    assert d[..0] == [];
  }

  lemma DigitsOf01(d: string)
    requires d == "01"
    ensures AllDigits(d) && DigitsValue(d) == 1
  {
    assert d[..1][..0] == [];
    assert DigitsValue(d[..1]) == 0;
  }

  lemma DigitsOf03(d: string)
    requires d == "03"
    ensures AllDigits(d) && DigitsValue(d) == 3
  {
    assert d[..1][..0] == [];
    assert DigitsValue(d[..1]) == 0;
  }

  /** "Season 2 Episode 5" is season 2, episode 5. */
  lemma SpelledOutMarkers()
    ensures ExtractEpisodeNumber(Some("Season 2 Episode 5")) == EpisodeKey(2, 5)
  {
    SpelledOutMarkersFor("Season 2 Episode 5", "season 2 episode 5");
  }

  lemma SpelledOutMarkersFor(title: string, t: string)
    requires title == "Season 2 Episode 5" && t == "season 2 episode 5"
    ensures ExtractEpisodeNumber(Some(title)) == EpisodeKey(2, 5)
  {
    LowerOfSpelledOutMarkers(title, t);
    SeasonOfSpelledOutMarkers(t);
    EpisodeOfSpelledOutMarkers(t);
    KeyOfMarkers(title, t, 0, 9, 2, 5);
  }

  lemma LowerOfSpelledOutMarkers(title: string, t: string)
    requires title == "Season 2 Episode 5" && t == "season 2 episode 5"
    ensures Lower(title) == t
  {
  }

  lemma SeasonOfSpelledOutMarkers(t: string)
    requires t == "season 2 episode 5"
    ensures IsFirstMatch(SeasonMarker, t, 0) && ValueAt(SeasonMarker, t, 0) == Some(2)
  {
    assert t[1..6] == "eason";
    assert RunEnd(t, 6, IsSpace) == 7 by { assert RunEnd(t, 7, IsSpace) == 7; }
    assert RunEnd(t, 7, IsDigit) == 8 by { assert RunEnd(t, 8, IsDigit) == 8; }
    assert MatchAt(SeasonMarker, t, 0) == Some(Match(0, 7, 8));
    SingleDigit(t[7..8]);
    assert ValueAt(SeasonMarker, t, 0) == Some(DigitsValue(t[7..8]));
  }

  lemma EpisodeOfSpelledOutMarkers(t: string)
    requires t == "season 2 episode 5"
    ensures IsFirstMatch(EpisodeMarker, t, 9) && ValueAt(EpisodeMarker, t, 9) == Some(5)
  {
    NoEpisodeMarkerInSeasonWord(t);
    assert t[10..16] == [t[10], t[11], t[12], t[13], t[14], t[15]];
    assert RunEnd(t, 16, IsSpace) == 17 by { assert RunEnd(t, 17, IsSpace) == 17; }
    assert RunEnd(t, 17, IsDigit) == 18 by { assert RunEnd(t, 18, IsDigit) == 18; }
    assert MatchAt(EpisodeMarker, t, 9) == Some(Match(9, 17, 18));
    SingleDigit(t[17..18]);
    assert ValueAt(EpisodeMarker, t, 9) == Some(DigitsValue(t[17..18]));
  }

  /** The "e" of "season" is not followed by digits. */
  lemma NoEpisodeMarkerInSeasonWord(t: string)
    requires t == "season 2 episode 5"
    ensures forall j :: 0 <= j < 9 ==> MatchAt(EpisodeMarker, t, j).None?
  {
    assert t[2..8] != "pisode" by { assert t[2..8][0] == 'a'; }
    assert RunEnd(t, 2, IsSpace) == 2;
    assert MatchAt(EpisodeMarker, t, 1).None?;
    assert forall j :: 0 <= j < 9 && j != 1 ==> t[j] != 'e';
  }

  /** A title with no marker at all gets the defaults (1, 9999). */
  lemma NoMarkers()
    ensures ExtractEpisodeNumber(Some("random title")) == EpisodeKey(DefaultSeason, NoEpisode)
  {
    NoMarkersFor("random title");
  }

  lemma NoMarkersFor(t: string)
    requires t == "random title"
    ensures ExtractEpisodeNumber(Some(t)) == EpisodeKey(DefaultSeason, NoEpisode)
  {
    assert Lower(t) == t;
    assert forall j :: 0 <= j < |t| ==> t[j] != 's';
    assert forall j :: 0 <= j < |t| - 1 ==> t[j] != 'e';
    assert RunEnd(t, |t|, IsSpace) == |t|;
    assert MatchAt(EpisodeMarker, t, |t| - 1).None?;
    WithoutSeasonMarker(Some(t));
  }

  /** The season marker also fires inside a word: the "s" closing "this"
      followed by " 3" makes "this 3" season 3. Deleting "s 3" leaves "thi",
      which has no number, so the episode stays 9999. */
  lemma MarkerInsideWord()
    ensures ExtractEpisodeNumber(Some("this 3")) == EpisodeKey(3, NoEpisode)
  {
    MarkerInsideWordFor("this 3");
  }

  lemma MarkerInsideWordFor(t: string)
    requires t == "this 3"
    ensures ExtractEpisodeNumber(Some(t)) == EpisodeKey(3, NoEpisode)
  {
    LowerOfMarkerInsideWord(t);
    SeasonInsideWord(t);
    NoEpisodeInsideWord(t);
    FallbackInsideWord(t);
    KeyOfFallback(t, t, 3, 3, NoEpisode);
  }

  lemma LowerOfMarkerInsideWord(t: string)
    requires t == "this 3"
    ensures Lower(t) == t
  {
  }

  lemma NoEpisodeInsideWord(t: string)
    requires t == "this 3"
    ensures NoMatch(EpisodeMarker, t)
  {
    assert forall j :: 0 <= j < |t| ==> t[j] != 'e';
  }

  lemma FallbackInsideWord(t: string)
    requires t == "this 3"
    ensures FallbackEpisode(t, Match(3, 5, 6)) == NoEpisode
  {
    assert Group0(t, Match(3, 5, 6)) == "s 3";
    RemoveSeasonText(t, "s 3");
  }

  lemma SeasonInsideWord(t: string)
    requires t == "this 3"
    ensures IsFirstMatch(SeasonMarker, t, 3) && ValueAt(SeasonMarker, t, 3) == Some(3)
    ensures MatchAt(SeasonMarker, t, 3) == Some(Match(3, 5, 6))
  {
    assert forall j :: 0 <= j < 3 ==> t[j] != 's';
    assert RunEnd(t, 4, IsSpace) == 5 by { assert RunEnd(t, 5, IsSpace) == 5; }
    assert RunEnd(t, 5, IsDigit) == 6;
    assert MatchAt(SeasonMarker, t, 3) == Some(Match(3, 5, 6));
    assert forall j :: 0 <= j < 3 ==> MatchAt(SeasonMarker, t, j).None?;
    SingleDigit(t[5..6]);
    assert ValueAt(SeasonMarker, t, 3) == Some(DigitsValue(t[5..6]));
  }

  lemma RemoveSeasonText(t: string, target: string)
    requires t == "this 3" && target == "s 3"
    ensures RemoveAll(t, target) == "thi"
    ensures NoMatch(StandaloneNumber, "thi")
  {
    assert RemoveAll(t[3..], target) == "";
    assert RemoveAll(t[2..], target) == "i";
    assert RemoveAll(t[1..], target) == "hi";
  }

  /** An explicit episode 9999 counts as "no episode": in "s1 e9999 7" the
      fallback replaces it with the standalone 7. */
  lemma ExplicitNoEpisodeFallsBack()
    ensures ExtractEpisodeNumber(Some("s1 e9999 7")) == EpisodeKey(1, 7)
  {
    ExplicitNoEpisodeFallsBackFor("s1 e9999 7");
  }

  lemma ExplicitNoEpisodeFallsBackFor(t: string)
    requires t == "s1 e9999 7"
    ensures ExtractEpisodeNumber(Some(t)) == EpisodeKey(1, 7)
  {
    LowerOfExplicitNoEpisode(t);
    SeasonBeforeNineNineNineNine(t);
    ExplicitNineNineNineNine(t);
    StandaloneSeven(t, " e9999 7");
    KeyOfExplicitFallback(t, t, 0, 3, 1, 7);
  }

  lemma LowerOfExplicitNoEpisode(t: string)
    requires t == "s1 e9999 7"
    ensures Lower(t) == t
  {
  }

  lemma SeasonBeforeNineNineNineNine(t: string)
    requires t == "s1 e9999 7"
    ensures IsFirstMatch(SeasonMarker, t, 0) && ValueAt(SeasonMarker, t, 0) == Some(1)
    ensures MatchAt(SeasonMarker, t, 0) == Some(Match(0, 1, 2))
  {
    assert t[1..6] != "eason" by { assert t[1] == '1'; }
    assert RunEnd(t, 1, IsSpace) == 1;
    assert RunEnd(t, 1, IsDigit) == 2 by { assert RunEnd(t, 2, IsDigit) == 2; }
    assert MatchAt(SeasonMarker, t, 0) == Some(Match(0, 1, 2));
    SingleDigit(t[1..2]);
    assert ValueAt(SeasonMarker, t, 0) == Some(DigitsValue(t[1..2]));
  }

  lemma ExplicitNineNineNineNine(t: string)
    requires t == "s1 e9999 7"
    ensures IsFirstMatch(EpisodeMarker, t, 3) && ValueAt(EpisodeMarker, t, 3) == Some(NoEpisode)
  {
    assert forall j :: 0 <= j < 3 ==> t[j] != 'e';
    assert t[4..10] != "pisode" by { assert t[4] == '9'; }
    assert RunEnd(t, 4, IsSpace) == 4;
    assert RunEnd(t, 4, IsDigit) == 8 by {
      assert RunEnd(t, 8, IsDigit) == 8;
      assert RunEnd(t, 7, IsDigit) == 8;
      assert RunEnd(t, 6, IsDigit) == 8;
      assert RunEnd(t, 5, IsDigit) == 8;
    }
    assert MatchAt(EpisodeMarker, t, 3) == Some(Match(3, 4, 8));
    assert forall j :: 0 <= j < 3 ==> MatchAt(EpisodeMarker, t, j).None?;
    NineNineNineNine(t[4..8]);
    assert ValueAt(EpisodeMarker, t, 3) == Some(DigitsValue(t[4..8]));
  }

  lemma NineNineNineNine(d: string)
    requires d == "9999"
    ensures AllDigits(d) && DigitsValue(d) == 9999
  {
    assert d[..1][..0] == [];
    assert DigitsValue(d[..1]) == 9;
    assert d[..2][..1] == d[..1];
    assert DigitsValue(d[..2]) == 99;
    assert d[..3][..2] == d[..2];
    assert DigitsValue(d[..3]) == 999;
  }

  lemma StandaloneSeven(t: string, c: string)
    requires t == "s1 e9999 7" && c == " e9999 7"
    ensures FallbackEpisode(t, Match(0, 1, 2)) == 7
  {
    assert Group0(t, Match(0, 1, 2)) == t[..2];
    RemoveSeasonOne(t, c);
    SevenIsFirstNumber(c);
  }

  lemma RemoveSeasonOne(t: string, c: string)
    requires t == "s1 e9999 7" && c == " e9999 7"
    ensures RemoveAll(t, t[..2]) == c
  {
    assert t[2..] == c;
    assert forall i :: 0 <= i < |c| ==> c[i] != 's';
    assert t[..2][0] == 's';
    assert forall i :: 0 <= i <= |c| - 2 ==> c[i..i + 2][0] == c[i];
    assert forall i :: !OccursAt(t[..2], c, i);
  }

  lemma SevenIsFirstNumber(c: string)
    requires c == " e9999 7"
    ensures IsFirstMatch(StandaloneNumber, c, 7) && ValueAt(StandaloneNumber, c, 7) == Some(7)
  {
    assert RunEnd(c, 7, IsDigit) == 8;
    assert MatchAt(StandaloneNumber, c, 7) == Some(Match(7, 7, 8));
    assert forall j :: 0 <= j < 7 ==> !IsDigit(c[j]) || IsWordChar(c[j - 1]);
    assert forall j :: 0 <= j < 7 ==> MatchAt(StandaloneNumber, c, j).None?;
    SingleDigit(c[7..8]);
    assert ValueAt(StandaloneNumber, c, 7) == Some(DigitsValue(c[7..8]));
  }

  /** "10. Title" has order number 10. */
  lemma NumberedTitle()
    ensures ExtractMovieOrderNumber(Some("10. Title")) == 10
  {
    NumberedTitleFor("10. Title");
  }

  lemma NumberedTitleFor(s: string)
    requires s == "10. Title"
    ensures ExtractMovieOrderNumber(Some(s)) == 10
  {
    assert TrimStart(s) == s;
    assert TrimEnd(s) == s;
    assert s[..2] == "10";
    assert DigitsValue("10") == 10 by { assert "10"[..1] == "1"; }
    assert NumberedAt(s, 2);
    OrderNumberCases(Some(s));
  }

  /** Digits not followed by '.' are not an order number: "10 Title" sorts last. */
  lemma NumberWithoutDot()
    ensures ExtractMovieOrderNumber(Some("10 Title")) == NoOrderNumber
  {
    NumberWithoutDotFor("10 Title");
  }

  lemma NumberWithoutDotFor(s: string)
    requires s == "10 Title"
    ensures ExtractMovieOrderNumber(Some(s)) == NoOrderNumber
  {
    assert TrimStart(s) == s;
    assert TrimEnd(s) == s;
    assert forall k :: 2 < k <= |s| ==> s[..k][2] == ' ';
    OrderNumberCases(Some(s));
  }

  /** A title without a leading number sorts last. */
  lemma UnnumberedTitle()
    ensures ExtractMovieOrderNumber(Some("Title")) == NoOrderNumber
  {
    UnnumberedTitleFor("Title");
  }

  lemma UnnumberedTitleFor(s: string)
    requires s == "Title"
    ensures ExtractMovieOrderNumber(Some(s)) == NoOrderNumber
  {
    assert TrimStart(s) == s;
    assert TrimEnd(s) == s;
    assert forall k :: 0 < k <= |s| ==> s[..k][0] == 'T';
    OrderNumberCases(Some(s));
  }

  /** A missing title sorts last and has the default episode key. */
  lemma MissingTitle()
    ensures ExtractMovieOrderNumber(None) == NoOrderNumber
    ensures ExtractEpisodeNumber(None) == EpisodeKey(DefaultSeason, NoEpisode)
  {
    assert Strip("") == "";
    OrderNumberCases(None);
    WithoutSeasonMarker(None);
  }
}
