/**
 * The listing order of `playlist_detail` and `category_detail`
 * (movies/views.py). Both look at the first five movie titles; if one of
 * them carries a leading order number ("10. Title") the movies are sorted by
 * order number. Otherwise a playlist is sorted by `(season, episode)` and a
 * category lists its movies and playlists together, newest first.
 *
 * `PlaylistOrder` and `CategoryOrder` are the reference definitions; the
 * methods compute them the way the views do (a scan with an early exit and
 * in-place sorts), and the lemmas state what the orders guarantee.
 */
module Listing {
  import opened Wrappers
  import opened Ascii
  import opened TitleOrder
  import opened StableSort

  /** A creation time in whole microseconds since `datetime.min`; `None` when
      the record has none. */
  type Stamp = Option<nat>

  datatype Movie = Movie(title: string, createdAt: Stamp)

  datatype Playlist = Playlist(name: string, createdAt: Stamp)

  /** One entry of a category page: `{"type": "movie", "obj": m}` or
      `{"type": "playlist", "obj": p}`. */
  datatype Item = MovieItem(movie: Movie) | PlaylistItem(playlist: Playlist)

  /** How many titles the views inspect when deciding on the sort. */
  const ScanLimit := 5

  function OrderNumberOf(m: Movie): nat
  {
    ExtractMovieOrderNumber(Some(m.title))
  }

  function OrderRank(m: Movie): Rank
  {
    Rank(OrderNumberOf(m), 0)
  }

  function EpisodeRank(m: Movie): Rank
  {
    var k := ExtractEpisodeNumber(Some(m.title));
    Rank(k.season, k.episode)
  }

  /** The `created_at` of an entry's record. */
  function StampOf(item: Item): Stamp
  {
    if item.MovieItem? then item.movie.createdAt else item.playlist.createdAt
  }

  /** `created_at or datetime.min`: a missing time counts as the earliest. */
  function CreatedOf(item: Item): nat
  {
    UnwrapOr(StampOf(item), 0)
  }

  /** `reverse=True` on the creation time: Python's descending sort is still
      stable, so it is the stable ascending sort on the negated time. */
  function RecencyRank(item: Item): Rank
  {
    Rank(-(CreatedOf(item) as int), 0)
  }

  /** Ascending `RecencyRank` is descending creation time, and an entry
      without a time is never ranked ahead of another entry. */
  lemma RecencyRankReversesTime(a: Item, b: Item)
    ensures RankLe(RecencyRank(a), RecencyRank(b)) <==> CreatedOf(a) >= CreatedOf(b)
    ensures StampOf(a).None? ==> RankLe(RecencyRank(b), RecencyRank(a))
    ensures StampOf(a).Some? && StampOf(b).Some? ==>
      (RankLe(RecencyRank(a), RecencyRank(b)) <==> StampOf(a).value >= StampOf(b).value)
  {
  }

  /** One of the first five movies has an order number. */
  predicate HasNumericOrderIn(movies: seq<Movie>)
  {
    exists i :: 0 <= i < |movies| && i < ScanLimit && OrderNumberOf(movies[i]) != NoOrderNumber
  }

  /** The loop over `movies[:5]` that stops at the first title with an order
      number. */
  method HasNumericOrder(movies: array<Movie>) returns (found: bool)
    ensures found <==> HasNumericOrderIn(movies[..])
  {
    found := false;
    var i := 0;
    while i < movies.Length && i < ScanLimit
      invariant 0 <= i <= movies.Length && i <= ScanLimit
      invariant forall k :: 0 <= k < i ==> OrderNumberOf(movies[k]) == NoOrderNumber
    {
      if OrderNumberOf(movies[i]) != NoOrderNumber {
        found := true;
        break;
      }
      i := i + 1;
    }
  }

  /** Only the first five titles decide the sort: a sixth numbered title
      after five unnumbered ones does not count. */
  lemma OnlyFirstFiveDecide(movies: seq<Movie>)
    requires |movies| > ScanLimit
    ensures HasNumericOrderIn(movies) <==> HasNumericOrderIn(movies[..ScanLimit])
  {
    if HasNumericOrderIn(movies) {
      var i :| 0 <= i < |movies| && i < ScanLimit && OrderNumberOf(movies[i]) != NoOrderNumber;
      assert movies[..ScanLimit][i] == movies[i];
    }
    if HasNumericOrderIn(movies[..ScanLimit]) {
      var i :| 0 <= i < ScanLimit && OrderNumberOf(movies[..ScanLimit][i]) != NoOrderNumber;
      assert movies[..ScanLimit][i] == movies[i];
    }
  }

  /** The order of a playlist page. */
  function PlaylistOrder(movies: seq<Movie>): seq<Movie>
  {
    if HasNumericOrderIn(movies) then SortBy(movies, OrderRank) else SortBy(movies, EpisodeRank)
  }

  /** `playlist_detail`: the playlist's movies, sorted in place. */
  method PlaylistDetail(movies: array<Movie>)
    modifies movies
    ensures movies[..] == PlaylistOrder(old(movies[..]))
  {
    var numeric := HasNumericOrder(movies);
    if numeric {
      SortInPlace(movies, OrderRank);
    } else {
      SortInPlace(movies, EpisodeRank);
    }
  }

  /** A playlist page lists exactly the playlist's movies. */
  lemma PlaylistOrderPerm(movies: seq<Movie>)
    ensures multiset(PlaylistOrder(movies)) == multiset(movies)
  {
    SortPerm(movies, OrderRank);
    SortPerm(movies, EpisodeRank);
  }

  /** With a numbered title among the first five, a playlist page ascends by
      order number, titles with equal numbers keeping their stored order. */
  lemma PlaylistByOrderNumber(movies: seq<Movie>, k: Rank)
    requires HasNumericOrderIn(movies)
    ensures var r := PlaylistOrder(movies);
      && (forall i, j :: 0 <= i < j < |r| ==> OrderNumberOf(r[i]) <= OrderNumberOf(r[j]))
      && WithKey(r, OrderRank, k) == WithKey(movies, OrderRank, k)
  {
    SortSorted(movies, OrderRank);
    SortStable(movies, OrderRank, k);
    var r := PlaylistOrder(movies);
    forall i, j | 0 <= i < j < |r|
      ensures OrderNumberOf(r[i]) <= OrderNumberOf(r[j])
    {
      assert RankLe(OrderRank(r[i]), OrderRank(r[j]));
    }
  }

  /** Otherwise a playlist page ascends by season, then episode, movies with
      equal keys keeping their stored order. */
  lemma PlaylistByEpisode(movies: seq<Movie>, k: Rank)
    requires !HasNumericOrderIn(movies)
    ensures var r := PlaylistOrder(movies);
      && (forall i, j :: 0 <= i < j < |r| ==>
            var a := ExtractEpisodeNumber(Some(r[i].title));
            var b := ExtractEpisodeNumber(Some(r[j].title));
            a.season < b.season || (a.season == b.season && a.episode <= b.episode))
      && WithKey(r, EpisodeRank, k) == WithKey(movies, EpisodeRank, k)
  {
    SortSorted(movies, EpisodeRank);
    SortStable(movies, EpisodeRank, k);
    var r := PlaylistOrder(movies);
    forall i, j | 0 <= i < j < |r|
      ensures var a := ExtractEpisodeNumber(Some(r[i].title));
              var b := ExtractEpisodeNumber(Some(r[j].title));
              a.season < b.season || (a.season == b.season && a.episode <= b.episode)
    {
      assert RankLe(EpisodeRank(r[i]), EpisodeRank(r[j]));
    }
  }

  /** The elements of `s` that satisfy `keep`, in order. */
  function Filter<T>(s: seq<T>, keep: T -> bool): (r: seq<T>)
    ensures |r| <= |s|
    ensures forall i :: 0 <= i < |r| ==> r[i] in s && keep(r[i])
    ensures forall i :: 0 <= i < |s| && keep(s[i]) ==> s[i] in r
  {
    if s == [] then []
    else Filter(s[..|s| - 1], keep) + (if keep(s[|s| - 1]) then [s[|s| - 1]] else [])
  }

  /** `query.lower() in text.lower()` */
  function MatchesQuery(text: string, query: string): (b: bool)
    ensures b <==> Occurs(Lower(query), Lower(text))
  {
    Contains(Lower(text), Lower(query))
  }

  /** `if query:` — a missing or empty query keeps every movie; otherwise
      the movies whose title contains it, ignoring case (`MoviesMatchingQuery`). */
  function FilterMovies(movies: seq<Movie>, query: Option<string>): seq<Movie>
  {
    if IsTruthy(query) then Filter(movies, (m: Movie) => MatchesQuery(m.title, query.value)) else movies
  }

  /** `name__icontains=query`, taken here with the same case folding as the
      title filter (`PlaylistsMatchingQuery`). */
  function FilterPlaylists(playlists: seq<Playlist>, query: Option<string>): seq<Playlist>
  {
    if IsTruthy(query) then Filter(playlists, (p: Playlist) => MatchesQuery(p.name, query.value)) else playlists
  }

  /** The title filter keeps every movie when the query is missing or empty;
      otherwise it keeps, in their stored order, exactly the movies whose
      lower-cased title contains the lower-cased query: the positions of the
      kept movies are the positions of the matching ones. */
  lemma MoviesMatchingQuery(movies: seq<Movie>, query: Option<string>)
    ensures !IsTruthy(query) ==> FilterMovies(movies, query) == movies
    ensures IsTruthy(query) ==>
      var r := FilterMovies(movies, query);
      && (forall i :: 0 <= i < |r| ==> Occurs(Lower(query.value), Lower(r[i].title)))
      && exists idx: seq<int> :: (IndexesOf(idx, r, movies) &&
           forall i :: 0 <= i < |movies| ==> (i in idx <==> Occurs(Lower(query.value), Lower(movies[i].title))))
  {
    if IsTruthy(query) {
      var keep := (m: Movie) => MatchesQuery(m.title, query.value);
      FilterPositions(movies, keep);
      var idx: seq<int> :| SelectedBy(idx, Filter(movies, keep), movies, keep);
      assert forall i :: 0 <= i < |movies| ==> (i in idx <==> Occurs(Lower(query.value), Lower(movies[i].title)));
    }
  }

  /** The same for playlists and their names. */
  lemma PlaylistsMatchingQuery(playlists: seq<Playlist>, query: Option<string>)
    ensures !IsTruthy(query) ==> FilterPlaylists(playlists, query) == playlists
    ensures IsTruthy(query) ==>
      var r := FilterPlaylists(playlists, query);
      && (forall i :: 0 <= i < |r| ==> Occurs(Lower(query.value), Lower(r[i].name)))
      && exists idx: seq<int> :: (IndexesOf(idx, r, playlists) &&
           forall i :: 0 <= i < |playlists| ==> (i in idx <==> Occurs(Lower(query.value), Lower(playlists[i].name))))
  {
    if IsTruthy(query) {
      var keep := (p: Playlist) => MatchesQuery(p.name, query.value);
      FilterPositions(playlists, keep);
      var idx: seq<int> :| SelectedBy(idx, Filter(playlists, keep), playlists, keep);
      assert forall i :: 0 <= i < |playlists| ==> (i in idx <==> Occurs(Lower(query.value), Lower(playlists[i].name)));
    }
  }

  /** Filtering keeps exactly the elements that satisfy `keep`, in their
      original order: the result sits in `s` at increasing positions, and
      those are exactly the positions whose element satisfies `keep`. */
  lemma {:induction false} FilterPositions<T>(s: seq<T>, keep: T -> bool)
    ensures exists idx: seq<int> :: SelectedBy(idx, Filter(s, keep), s, keep)
    decreases |s|
  {
    if s == [] {
      assert Filter(s, keep) == [];
      assert SelectedBy([], Filter(s, keep), s, keep);
    } else {
      var p, x := s[..|s| - 1], s[|s| - 1];
      FilterPositions(p, keep);
      var idx: seq<int> :| SelectedBy(idx, Filter(p, keep), p, keep);
      assert s == p + [x];
      assert Filter(s, keep) == Filter(p, keep) + (if keep(x) then [x] else []);
      SelectedByExtend(idx, Filter(p, keep), p, keep, x);
      assert SelectedBy(if keep(x) then idx + [|p|] else idx, Filter(s, keep), s, keep);
    }
  }

  /** `idx` lists the positions in `s` of the elements of `r`, and these are
      exactly the positions whose element satisfies `keep`. */
  ghost predicate SelectedBy<T>(idx: seq<int>, r: seq<T>, s: seq<T>, keep: T -> bool)
  {
    IndexesOf(idx, r, s) && forall i :: 0 <= i < |s| ==> (i in idx <==> keep(s[i]))
  }

  lemma SelectedByExtend<T>(idx: seq<int>, r: seq<T>, s: seq<T>, keep: T -> bool, x: T)
    requires SelectedBy(idx, r, s, keep)
    ensures SelectedBy(if keep(x) then idx + [|s|] else idx, r + (if keep(x) then [x] else []), s + [x], keep)
  {
    var idx' := if keep(x) then idx + [|s|] else idx;
    var s' := s + [x];
    assert IndexesOf(idx', r + (if keep(x) then [x] else []), s');
    forall i | 0 <= i < |s'|
      ensures i in idx' <==> keep(s'[i])
    {
      if i < |s| {
        assert s'[i] == s[i];
      } else {
        assert |s| !in idx;
      }
    }
  }

  /** `idx` lists, in increasing order, the positions in `b` of `a`'s elements. */
  ghost predicate IndexesOf<T>(idx: seq<int>, a: seq<T>, b: seq<T>)
  {
    && |idx| == |a|
    && (forall i :: 0 <= i < |idx| ==> 0 <= idx[i] < |b| && b[idx[i]] == a[i])
    && (forall i, j :: 0 <= i < j < |idx| ==> idx[i] < idx[j])
  }

  function MovieItems(movies: seq<Movie>): (r: seq<Item>)
    ensures |r| == |movies|
    ensures forall i :: 0 <= i < |movies| ==> r[i] == MovieItem(movies[i])
  {
    if movies == [] then [] else MovieItems(movies[..|movies| - 1]) + [MovieItem(movies[|movies| - 1])]
  }

  function PlaylistItems(playlists: seq<Playlist>): (r: seq<Item>)
    ensures |r| == |playlists|
    ensures forall i :: 0 <= i < |playlists| ==> r[i] == PlaylistItem(playlists[i])
  {
    if playlists == [] then [] else PlaylistItems(playlists[..|playlists| - 1]) + [PlaylistItem(playlists[|playlists| - 1])]
  }

  /** The movies of a run of movie entries. */
  function MoviesOf(items: seq<Item>): seq<Movie>
    requires forall i :: 0 <= i < |items| ==> items[i].MovieItem?
  {
    if items == [] then [] else MoviesOf(items[..|items| - 1]) + [items[|items| - 1].movie]
  }

  lemma {:induction false} MoviesOfMovieItems(movies: seq<Movie>)
    ensures MoviesOf(MovieItems(movies)) == movies
    decreases |movies|
  {
    if movies != [] {
      var p := movies[..|movies| - 1];
      MoviesOfMovieItems(p);
      assert MovieItems(movies)[..|movies| - 1] == MovieItems(p);
    }
  }

  /** The entries of a category page before sorting: the filtered movies,
      then the filtered playlists. */
  function CategoryEntries(movies: seq<Movie>, playlists: seq<Playlist>, query: Option<string>): seq<Item>
  {
    MovieItems(FilterMovies(movies, query)) + PlaylistItems(FilterPlaylists(playlists, query))
  }

  /** The order of a category page. */
  function CategoryOrder(movies: seq<Movie>, playlists: seq<Playlist>, query: Option<string>): seq<Item>
  {
    var ms := FilterMovies(movies, query);
    var ps := FilterPlaylists(playlists, query);
    if HasNumericOrderIn(ms) then MovieItems(SortBy(ms, OrderRank)) + PlaylistItems(ps)
    else SortBy(MovieItems(ms) + PlaylistItems(ps), RecencyRank)
  }

  /** `list(...)`: a fresh array holding `s`. */
  method ToArray<T>(s: seq<T>) returns (a: array<T>)
    ensures fresh(a) && a[..] == s
  {
    a := new T[|s|](i requires 0 <= i < |s| => s[i]);
  }

  /** `category_detail`: filter, scan the first five titles, and sort in
      place either the movies by order number or all entries by recency. */
  method CategoryDetail(movies: seq<Movie>, playlists: seq<Playlist>, query: Option<string>)
    returns (items: seq<Item>)
    ensures items == CategoryOrder(movies, playlists, query)
  {
    var ms := FilterMovies(movies, query);
    var ps := FilterPlaylists(playlists, query);
    var shown := ToArray(ms);
    var numeric := HasNumericOrder(shown);
    if numeric {
      SortInPlace(shown, OrderRank);
    }
    var all := ToArray(MovieItems(shown[..]) + PlaylistItems(ps));
    if !numeric {
      SortInPlace(all, RecencyRank);
    }
    items := all[..];
  }

  /** A category page lists exactly the filtered movies and playlists. */
  lemma CategoryOrderPerm(movies: seq<Movie>, playlists: seq<Playlist>, query: Option<string>)
    ensures multiset(CategoryOrder(movies, playlists, query)) == multiset(CategoryEntries(movies, playlists, query))
  {
    var ms := FilterMovies(movies, query);
    var ps := FilterPlaylists(playlists, query);
    SortPerm(MovieItems(ms) + PlaylistItems(ps), RecencyRank);
    if HasNumericOrderIn(ms) {
      SortPerm(ms, OrderRank);
      MovieItemsPerm(SortBy(ms, OrderRank), ms);
    }
  }

  /** Wrapping movies as entries keeps their multiplicities. */
  lemma {:induction false} MovieItemsCount(s: seq<Movie>, it: Item)
    ensures multiset(MovieItems(s))[it] == (if it.MovieItem? then multiset(s)[it.movie] else 0)
    decreases |s|
  {
    if s != [] {
      var p := s[..|s| - 1];
      MovieItemsCount(p, it);
      var last := s[|s| - 1];
      assert s == p + [last];
      assert multiset(s) == multiset(p) + multiset{last};
      assert multiset(MovieItems(s)) == multiset(MovieItems(p)) + multiset{MovieItem(last)};
    }
  }

  lemma MovieItemsPerm(a: seq<Movie>, b: seq<Movie>)
    requires multiset(a) == multiset(b)
    ensures multiset(MovieItems(a)) == multiset(MovieItems(b))
  {
    forall it | true
      ensures multiset(MovieItems(a))[it] == multiset(MovieItems(b))[it]
    {
      MovieItemsCount(a, it);
      MovieItemsCount(b, it);
    }
  }

  /** Without a numbered title among the first five filtered movies, a
      category page runs from newest to oldest (a missing time counting as
      the oldest), entries created at the same time keeping the order movies
      first, then playlists, each in stored order. */
  lemma CategoryByRecency(movies: seq<Movie>, playlists: seq<Playlist>, query: Option<string>, k: Rank)
    requires !HasNumericOrderIn(FilterMovies(movies, query))
    ensures var r := CategoryOrder(movies, playlists, query);
      && (forall i, j :: 0 <= i < j < |r| ==> CreatedOf(r[i]) >= CreatedOf(r[j]))
      && WithKey(r, RecencyRank, k) == WithKey(CategoryEntries(movies, playlists, query), RecencyRank, k)
  {
    var entries := CategoryEntries(movies, playlists, query);
    SortSorted(entries, RecencyRank);
    SortStable(entries, RecencyRank, k);
    var r := CategoryOrder(movies, playlists, query);
    forall i, j | 0 <= i < j < |r|
      ensures CreatedOf(r[i]) >= CreatedOf(r[j])
    {
      assert RankLe(RecencyRank(r[i]), RecencyRank(r[j]));
    }
  }

  /** With a numbered title among the first five filtered movies, a category
      page lists the movies first, ascending by order number with equal
      numbers in their filtered stored order, then the filtered playlists in
      stored order. */
  lemma CategoryByOrderNumber(movies: seq<Movie>, playlists: seq<Playlist>, query: Option<string>, k: Rank)
    requires HasNumericOrderIn(FilterMovies(movies, query))
    ensures var r := CategoryOrder(movies, playlists, query);
      var n := |FilterMovies(movies, query)|;
      && |r| == n + |FilterPlaylists(playlists, query)|
      && (forall i :: 0 <= i < n ==> r[i].MovieItem?)
      && (forall i, j :: 0 <= i < j < n ==> OrderNumberOf(r[i].movie) <= OrderNumberOf(r[j].movie))
      && WithKey(MoviesOf(r[..n]), OrderRank, k) == WithKey(FilterMovies(movies, query), OrderRank, k)
      && r[n..] == PlaylistItems(FilterPlaylists(playlists, query))
  {
    var ms := FilterMovies(movies, query);
    var ps := FilterPlaylists(playlists, query);
    SortSorted(ms, OrderRank);
    SortStable(ms, OrderRank, k);
    var sorted := SortBy(ms, OrderRank);
    assert CategoryOrder(movies, playlists, query) == MovieItems(sorted) + PlaylistItems(ps);
    SortedMoviesFirst(sorted, ps);
  }

  /** Movies sorted by order number followed by playlists: the movie part is
      ordered and the playlists keep their order. */
  lemma SortedMoviesFirst(sorted: seq<Movie>, ps: seq<Playlist>)
    requires SortedBy(sorted, OrderRank)
    ensures var r := MovieItems(sorted) + PlaylistItems(ps);
      var n := |sorted|;
      && |r| == n + |ps|
      && (forall i :: 0 <= i < n ==> r[i].MovieItem?)
      && (forall i, j :: 0 <= i < j < n ==> OrderNumberOf(r[i].movie) <= OrderNumberOf(r[j].movie))
      && MoviesOf(r[..n]) == sorted
      && r[n..] == PlaylistItems(ps)
  {
    var r := MovieItems(sorted) + PlaylistItems(ps);
    assert r[..|sorted|] == MovieItems(sorted);
    MoviesOfMovieItems(sorted);
    forall i, j | 0 <= i < j < |sorted|
      ensures OrderNumberOf(r[i].movie) <= OrderNumberOf(r[j].movie)
    {
      assert r[i] == MovieItem(sorted[i]) && r[j] == MovieItem(sorted[j]);
      assert RankLe(OrderRank(sorted[i]), OrderRank(sorted[j]));
    }
  }
}
