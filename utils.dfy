/** The movie table and its flattening into a movie-genre relation
    (`get_movie_genres_dataframe` in utils.py).

    A movie's `Movie_genres` cell is a serialized `{genre_id: genre_name}`
    literal; the model receives it already evaluated, as the list of its
    entries in insertion order, or `None` when the cell is missing. Every
    movie row also carries its index label, because the source looks the
    movie id up by label (`movie_dataframe.loc[i, ...]`) with the position
    counter of `enumerate`. */
module Utils {
  import opened Common

  /** The entries of one evaluated genre map, in insertion order:
      (Freebase genre id, genre name). */
  type GenreMap = seq<(string, string)>

  /** One row of the movie table; `indexLabel` is its index label. */
  datatype MovieRecord = MovieRecord(indexLabel: int, wikiId: int, genres: Option<GenreMap>)

  /** One row of the relation table: columns `Wikipedia_movie_ID`,
      `Movie_genre_ID`, `Movie_genre`. */
  datatype GenreRelation = GenreRelation(movieId: int, genreId: string, genre: string)

  /** `loc[i, ...]` found no row labelled `i` (pandas' KeyError). */
  datatype FlattenError = MissingLabel(indexLabel: int)

  /** A missing genre cell becomes the empty map. */
  function Entries(g: Option<GenreMap>): GenreMap
  {
    if g.Some? then g.value else []
  }

  /** Every index label occurs once, as in any table read from a file. */
  predicate DistinctLabels(movies: seq<MovieRecord>)
  {
    forall i, j :: 0 <= i < j < |movies| ==> movies[i].indexLabel != movies[j].indexLabel
  }

  /** The default index: the row at position `i` is labelled `i`. */
  predicate DefaultIndex(movies: seq<MovieRecord>)
  {
    forall i :: 0 <= i < |movies| ==> movies[i].indexLabel == i
  }

  /** `movie_dataframe.loc[indexLabel, 'Wikipedia_movie_ID']`: the id of the
      row that carries the label, or `None` (pandas' KeyError). */
  function LocWikiId(movies: seq<MovieRecord>, indexLabel: int): (r: Option<int>)
    ensures r.None? <==> forall i :: 0 <= i < |movies| ==> movies[i].indexLabel != indexLabel
  {
    if movies == [] then None
    else if movies[0].indexLabel == indexLabel then Some(movies[0].wikiId)
    else
      assert forall i :: 1 <= i < |movies| ==> movies[1..][i - 1] == movies[i];
      LocWikiId(movies[1..], indexLabel)
  }

  /** The lookup finds the first row carrying the label. */
  lemma {:induction false} LocWikiIdAt(movies: seq<MovieRecord>, i: nat)
    requires i < |movies|
    requires forall j :: 0 <= j < i ==> movies[j].indexLabel != movies[i].indexLabel
    ensures LocWikiId(movies, movies[i].indexLabel) == Some(movies[i].wikiId)
  {
    if i > 0 {
      var tail := movies[1..];
      assert tail[i - 1] == movies[i];
      assert forall j :: 0 <= j < i - 1 ==> tail[j] == movies[j + 1];
      LocWikiIdAt(tail, i - 1);
    }
  }

  /** The relation rows of one movie, one per map entry, in map order. */
  function GenreRows(movieId: int, m: GenreMap): seq<GenreRelation>
  {
    seq(|m|, k requires 0 <= k < |m| => GenreRelation(movieId, m[k].0, m[k].1))
  }

  /** The rows appended while the outer loop visits the first `n` movies, or
      the failed lookup that stops it. */
  function Flattened(movies: seq<MovieRecord>, n: nat): Result<seq<GenreRelation>, FlattenError>
    requires n <= |movies|
  {
    if n == 0 then Ok([])
    else
      match Flattened(movies, n - 1)
      case Err(e) => Err(e)
      case Ok(rows) =>
        match LocWikiId(movies, n - 1)
        case None => Err(MissingLabel(n - 1))
        case Some(id) => Ok(rows + GenreRows(id, Entries(movies[n - 1].genres)))
  }

  /** The number of map entries of the first `n` movies. */
  function EntryCount(movies: seq<MovieRecord>, n: nat): nat
    requires n <= |movies|
  {
    if n == 0 then 0 else EntryCount(movies, n - 1) + |Entries(movies[n - 1].genres)|
  }

  /** Whatever the index, a table that flattens has one row per map entry. */
  lemma {:induction false} FlattenedCount(movies: seq<MovieRecord>, n: nat)
    requires n <= |movies|
    requires Flattened(movies, n).Ok?
    ensures |Flattened(movies, n).value| == EntryCount(movies, n)
  {
    if n > 0 {
      FlattenedCount(movies, n - 1);
    }
  }

  /** Flattening fails exactly at the first position that is not a label. */
  lemma {:induction false} FlattenedFailure(movies: seq<MovieRecord>, n: nat)
    requires n <= |movies|
    ensures Flattened(movies, n).Err? <==>
              exists i :: 0 <= i < n && LocWikiId(movies, i).None?
    ensures Flattened(movies, n).Err? ==>
              var l := Flattened(movies, n).error.indexLabel;
              0 <= l < n && LocWikiId(movies, l).None? &&
              forall i :: 0 <= i < l ==> LocWikiId(movies, i).Some?
  {
    if n > 0 {
      FlattenedFailure(movies, n - 1);
      if Flattened(movies, n - 1).Err? {
        var i :| 0 <= i < n - 1 && LocWikiId(movies, i).None?;
        assert 0 <= i < n && LocWikiId(movies, i).None?;
      } else if LocWikiId(movies, n - 1).None? {
        assert 0 <= n - 1 < n && LocWikiId(movies, n - 1).None?;
      } else {
        forall i | 0 <= i < n ensures LocWikiId(movies, i).Some? {
          if i < n - 1 {
            assert !(0 <= i < n - 1 && LocWikiId(movies, i).None?);
          }
        }
      }
    }
  }

  /** Once a lookup fails, the loop never gets further: the failure is final. */
  lemma {:induction false} FlattenedFailureIsFinal(movies: seq<MovieRecord>, n: nat, m: nat)
    requires n <= m <= |movies|
    requires Flattened(movies, n).Err?
    ensures Flattened(movies, m) == Flattened(movies, n)
    decreases m - n
  {
    if n < m {
      FlattenedFailureIsFinal(movies, n, m - 1);
    }
  }

  /** With the default index, every movie's rows follow those of the movies
      before it, and entry `k` of movie `i` becomes the row at offset
      `EntryCount(movies, i) + k`, carrying movie `i`'s own id. Together with
      the count, this places every entry exactly once. */
  lemma {:induction false} FlattenedAt(movies: seq<MovieRecord>, n: nat, i: nat, k: nat)
    requires n <= |movies| && DefaultIndex(movies)
    requires i < n && k < |Entries(movies[i].genres)|
    ensures Flattened(movies, n).Ok?
    ensures EntryCount(movies, i) + k < |Flattened(movies, n).value|
    ensures Flattened(movies, n).value[EntryCount(movies, i) + k]
         == GenreRelation(movies[i].wikiId, Entries(movies[i].genres)[k].0, Entries(movies[i].genres)[k].1)
  {
    DefaultIndexFlattens(movies, n);
    var prev := Flattened(movies, n - 1).value;
    var added := GenreRows(movies[n - 1].wikiId, Entries(movies[n - 1].genres));
    assert Flattened(movies, n).value == prev + added;
    FlattenedCount(movies, n - 1);
    if i == n - 1 {
      assert (prev + added)[|prev| + k] == added[k];
    } else {
      FlattenedAt(movies, n - 1, i, k);
      EntryCountMonotone(movies, i + 1, n - 1);
      assert (prev + added)[EntryCount(movies, i) + k] == prev[EntryCount(movies, i) + k];
    }
  }

  /** With the default index the lookup never fails. */
  lemma {:induction false} DefaultIndexFlattens(movies: seq<MovieRecord>, n: nat)
    requires n <= |movies| && DefaultIndex(movies)
    ensures Flattened(movies, n).Ok?
    ensures n > 0 ==> LocWikiId(movies, n - 1) == Some(movies[n - 1].wikiId)
  {
    if n > 0 {
      DefaultIndexFlattens(movies, n - 1);
      LocWikiIdAt(movies, n - 1);
    }
  }

  lemma {:induction false} EntryCountMonotone(movies: seq<MovieRecord>, m: nat, n: nat)
    requires m <= n <= |movies|
    ensures EntryCount(movies, m) <= EntryCount(movies, n)
    decreases n - m
  {
    if m < n {
      EntryCountMonotone(movies, m, n - 1);
    }
  }

  /** A movie whose genre cell is missing adds no row. */
  lemma MissingGenresAddNothing(movies: seq<MovieRecord>, i: nat)
    requires i < |movies| && movies[i].genres.None?
    ensures EntryCount(movies, i + 1) == EntryCount(movies, i)
  {
  }

  /** With labels out of position order, rows get the id of the movie whose
      label equals the position, not of the movie whose genres they list. */
  lemma ShuffledIndexMismatchesIds()
    ensures
      var movies := [MovieRecord(1, 100, Some([("g1", "Drama")])),
                     MovieRecord(0, 200, Some([("g2", "Comedy")]))];
      Flattened(movies, 2)
        == Ok([GenreRelation(200, "g1", "Drama"), GenreRelation(100, "g2", "Comedy")])
  {
    var movies := [MovieRecord(1, 100, Some([("g1", "Drama")])),
                   MovieRecord(0, 200, Some([("g2", "Comedy")]))];
    LocWikiIdAt(movies, 1);
    LocWikiIdAt(movies, 0);
    assert LocWikiId(movies, 0) == Some(200);
    assert LocWikiId(movies, 1) == Some(100);
    assert Entries(movies[0].genres) == [("g1", "Drama")];
    assert Entries(movies[1].genres) == [("g2", "Comedy")];
    assert Flattened(movies, 0) == Ok([]);
    assert GenreRows(200, [("g1", "Drama")]) == [GenreRelation(200, "g1", "Drama")];
    assert GenreRows(100, [("g2", "Comedy")]) == [GenreRelation(100, "g2", "Comedy")];
    assert Flattened(movies, 1) == Ok([] + GenreRows(200, Entries(movies[0].genres)));
    assert [] + GenreRows(200, Entries(movies[0].genres)) == [GenreRelation(200, "g1", "Drama")];
    assert Flattened(movies, 1) == Ok([GenreRelation(200, "g1", "Drama")]);
    assert Flattened(movies, 2) == Ok([GenreRelation(200, "g1", "Drama")] + GenreRows(100, Entries(movies[1].genres)));
    assert [GenreRelation(200, "g1", "Drama")] + GenreRows(100, Entries(movies[1].genres))
        == [GenreRelation(200, "g1", "Drama"), GenreRelation(100, "g2", "Comedy")];
  }

  /** The flattening loop: for each movie, look its id up by the position
      counter, then append one row per map entry. The input table is a
      value, so it is left as it was; the rows are a fresh sequence. */
  method GetMovieGenresDataframe(movies: seq<MovieRecord>)
    returns (result: Result<seq<GenreRelation>, FlattenError>)
    requires DistinctLabels(movies)
    ensures result == Flattened(movies, |movies|)
  {
    var newRows: seq<GenreRelation> := [];
    for i := 0 to |movies|
      invariant Flattened(movies, i) == Ok(newRows)
    {
      var movieId := LocWikiId(movies, i);
      if movieId.None? {
        FlattenedFailureIsFinal(movies, i + 1, |movies|);
        return Err(MissingLabel(i));
      }
      var genresDict := Entries(movies[i].genres);
      ghost var before := newRows;
      for k := 0 to |genresDict|
        invariant newRows == before + GenreRows(movieId.value, genresDict[..k])
      {
        assert genresDict[..k + 1] == genresDict[..k] + [genresDict[k]];
        newRows := newRows + [GenreRelation(movieId.value, genresDict[k].0, genresDict[k].1)];
      }
      assert genresDict[..|genresDict|] == genresDict;
    }
    return Ok(newRows);
  }
}
