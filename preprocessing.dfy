/** The table and token helpers of preprocessing.py.

    The natural-language libraries are not part of this model: a tagged
    text arrives as its (token, part-of-speech tag) pairs, and a parsed
    document as its tokens with their lemma, coarse part of speech and
    alphabetic and stop-word flags. */
module Preprocessing {
  import opened Common
  import opened Utils

  // ---------------------------------------------------------------------
  // Genre flattening (the copy in preprocessing.py)

  /** Lines 35-53: the same flattening loop as utils.py, writing the columns
      `Freebase_genre_ID` and `movie_genre`; the relation rows carry them
      as `genreId` and `genre`. Every map entry gives one row. */
  method GetMovieGenresDataframe(movies: seq<MovieRecord>)
    returns (result: Result<seq<GenreRelation>, FlattenError>)
    requires DistinctLabels(movies)
    ensures result == Flattened(movies, |movies|)
    ensures result.Ok? ==> |result.value| == EntryCount(movies, |movies|)
  {
    result := Utils.GetMovieGenresDataframe(movies);
    if result.Ok? {
      FlattenedCount(movies, |movies|);
    }
  }

  // ---------------------------------------------------------------------
  // The fictional subset

  /** A row of the summaries table: `Wikipedia_movie_ID`, `movie_summary`. */
  datatype Summary = Summary(movieId: int, text: string)

  /** The ratio of line 63 divides by the number of distinct movie ids,
      which is zero for an empty movie table. */
  datatype SubsetError = ZeroDivision

  /** Line 56: the default fictional genres. */
  const DefaultFictionalGenres: seq<string> := ["Science Fiction", "Fantasy"]

  /** Line 61: the genre rows whose genre is one of `fictional`. */
  function FictionalRows(genres: seq<GenreRelation>, fictional: seq<string>): seq<GenreRelation>
  {
    Filter(genres, (g: GenreRelation) => g.genre in fictional)
  }

  /** `unique()` of a movie-id column, as a set: only membership and size
      are used. */
  function MovieIdsOf(rows: seq<GenreRelation>): set<int>
  {
    set g | g in rows :: g.movieId
  }

  /** The ids of the movie table. */
  function WikiIds(movies: seq<MovieRecord>): set<int>
  {
    set m | m in movies :: m.wikiId
  }

  /** Line 62: `fictional_movies_N`, the number of distinct fictional ids. */
  function FictionalMoviesCount(genres: seq<GenreRelation>, fictional: seq<string>): (n: nat)
    ensures n <= |FictionalRows(genres, fictional)|
  {
    DistinctIdsBound(FictionalRows(genres, fictional));
    |MovieIdsOf(FictionalRows(genres, fictional))|
  }

  /** There are no more distinct ids than rows. */
  lemma {:induction false} DistinctIdsBound(rows: seq<GenreRelation>)
    ensures |MovieIdsOf(rows)| <= |rows|
  {
    if rows != [] {
      var init := rows[..|rows| - 1];
      DistinctIdsBound(init);
      assert rows == init + [rows[|rows| - 1]];
      assert MovieIdsOf(rows) == MovieIdsOf(init) + {rows[|rows| - 1].movieId};
    }
  }

  /** Lines 55-70: the summaries whose movie id is among the fictional ids,
      or the division by zero of line 63. */
  function GetFictionalSummariesSubset(genres: seq<GenreRelation>, movies: seq<MovieRecord>,
                                       summaries: seq<Summary>, fictional: seq<string>)
    : Result<seq<Summary>, SubsetError>
  {
    if |WikiIds(movies)| == 0 then Err(ZeroDivision)
    else
      var ids := MovieIdsOf(FictionalRows(genres, fictional));
      Ok(Filter(summaries, (s: Summary) => s.movieId in ids))
  }

  /** The subset fails exactly for an empty movie table. */
  lemma FictionalSubsetFails(genres: seq<GenreRelation>, movies: seq<MovieRecord>,
                             summaries: seq<Summary>, fictional: seq<string>)
    ensures GetFictionalSummariesSubset(genres, movies, summaries, fictional).Err? <==> movies == []
  {
    if movies != [] {
      assert movies[0].wikiId in WikiIds(movies);
    }
  }

  /** A summary is kept exactly when some genre row for its movie has a
      fictional genre. */
  lemma FictionalSubsetKeeps(genres: seq<GenreRelation>, movies: seq<MovieRecord>,
                             summaries: seq<Summary>, fictional: seq<string>, s: Summary)
    requires movies != []
    ensures GetFictionalSummariesSubset(genres, movies, summaries, fictional).Ok?
    ensures s in GetFictionalSummariesSubset(genres, movies, summaries, fictional).value
        <==> s in summaries && exists g :: g in genres && g.genre in fictional && g.movieId == s.movieId
  {
    FictionalSubsetFails(genres, movies, summaries, fictional);
    var rows := FictionalRows(genres, fictional);
    if exists g :: g in genres && g.genre in fictional && g.movieId == s.movieId {
      var g :| g in genres && g.genre in fictional && g.movieId == s.movieId;
      assert g in rows;
    }
  }

  /** With the default genres, a summary is kept exactly when some genre row
      for its movie is Science Fiction or Fantasy. */
  lemma DefaultFictionalSubsetKeeps(genres: seq<GenreRelation>, movies: seq<MovieRecord>,
                                    summaries: seq<Summary>, s: Summary)
    requires movies != []
    ensures GetFictionalSummariesSubset(genres, movies, summaries, DefaultFictionalGenres).Ok?
    ensures s in GetFictionalSummariesSubset(genres, movies, summaries, DefaultFictionalGenres).value
        <==> s in summaries && exists g :: g in genres && g.movieId == s.movieId
                                       && (g.genre == "Science Fiction" || g.genre == "Fantasy")
  {
    FictionalSubsetKeeps(genres, movies, summaries, DefaultFictionalGenres, s);
  }

  /** The kept summaries stay in table order, and every kept summary keeps
      all its duplicates: only the id set is de-duplicated. */
  lemma FictionalSubsetOrder(genres: seq<GenreRelation>, movies: seq<MovieRecord>,
                             summaries: seq<Summary>, fictional: seq<string>, s: Summary)
    requires movies != []
    requires s.movieId in MovieIdsOf(FictionalRows(genres, fictional))
    ensures GetFictionalSummariesSubset(genres, movies, summaries, fictional).Ok?
    ensures var r := GetFictionalSummariesSubset(genres, movies, summaries, fictional).value;
            IsSubsequence(r, summaries) && multiset(r)[s] == multiset(summaries)[s]
  {
    FictionalSubsetFails(genres, movies, summaries, fictional);
    var ids := MovieIdsOf(FictionalRows(genres, fictional));
    FilterIsSubsequence(summaries, (x: Summary) => x.movieId in ids);
    FilterCounts(summaries, (x: Summary) => x.movieId in ids, s);
  }

  // ---------------------------------------------------------------------
  // Token filters

  /** What a filter returns: the token list itself (`out_token`), or the
      tokens joined by single spaces. */
  datatype TextOut = Tokens(tokens: seq<string>) | Joined(text: string)

  function Output(tokens: seq<string>, outToken: bool): TextOut
  {
    if outToken then Tokens(tokens) else Joined(Join(tokens))
  }

  /** A token with its part-of-speech tag, as the tagger returns it. */
  type Tagged = (string, string)

  function TokenOf(t: Tagged): string
  {
    t.0
  }

  predicate NotProperNoun(t: Tagged)
  {
    t.1 != "NNP"
  }

  /** Lines 73-81: the tokens not tagged `NNP`, in order. */
  function FilterNames(tagged: seq<Tagged>, outToken: bool): TextOut
  {
    Output(Project(Filter(tagged, NotProperNoun), TokenOf), outToken)
  }

  /** With `out_token`, the list holds exactly the tokens of pairs not tagged
      `NNP`, one per such pair. */
  lemma FilterNamesKeeps(tagged: seq<Tagged>, w: string)
    ensures FilterNames(tagged, true).Tokens?
    ensures |FilterNames(tagged, true).tokens| == |Filter(tagged, NotProperNoun)| <= |tagged|
    ensures w in FilterNames(tagged, true).tokens <==> exists t :: t in tagged && t.1 != "NNP" && t.0 == w
  {
    ProjectMembership(Filter(tagged, NotProperNoun), TokenOf, w);
  }

  /** Without `out_token`, the joined text splits back into the kept tokens
      when no token holds a space and at least one is kept. */
  lemma FilterNamesJoinSplits(tagged: seq<Tagged>)
    requires forall t :: t in tagged ==> ' ' !in t.0
    requires Filter(tagged, NotProperNoun) != []
    ensures FilterNames(tagged, false).Joined?
    ensures Split(FilterNames(tagged, false).text) == FilterNames(tagged, true).tokens
  {
    var kept := Project(Filter(tagged, NotProperNoun), TokenOf);
    forall w | w in kept
      ensures ' ' !in w
    {
      ProjectMembership(Filter(tagged, NotProperNoun), TokenOf, w);
    }
    SplitJoin(kept);
  }

  /** A token of a parsed document: `lemma_` (as `lemmaText`), `pos_`, `is_alpha`, `is_stop`. */
  datatype DocToken = DocToken(lemmaText: string, pos: string, isAlpha: bool, isStop: bool)

  function LemmaOf(t: DocToken): string
  {
    t.lemmaText
  }

  /** Line 86: alphabetic, not a stop word, not a proper noun. */
  predicate KeptForDocs(t: DocToken)
  {
    t.isAlpha && !t.isStop && t.pos !in ["PROPN"]
  }

  /** Line 97: neither a proper noun nor a noun, and not a stop word. */
  predicate KeptForTopics(t: DocToken)
  {
    t.pos !in ["PROPN", "NOUN"] && !t.isStop
  }

  /** The lemmas of the tokens of `doc` that `keep` accepts, in order. */
  function KeptLemmas(doc: seq<DocToken>, keep: DocToken -> bool): seq<string>
  {
    Project(Filter(doc, keep), LemmaOf)
  }

  /** A lemma is kept exactly when some accepted token has it. */
  lemma KeptLemmasMembership(doc: seq<DocToken>, keep: DocToken -> bool, w: string)
    ensures |KeptLemmas(doc, keep)| <= |doc|
    ensures w in KeptLemmas(doc, keep) <==> exists t :: t in doc && keep(t) && t.lemmaText == w
  {
    ProjectMembership(Filter(doc, keep), LemmaOf, w);
  }

  /** A token's lemma appended after those of the tokens before it. */
  lemma KeptLemmasSnoc(doc: seq<DocToken>, k: nat, keep: DocToken -> bool)
    requires k < |doc|
    ensures KeptLemmas(doc[..k + 1], keep)
         == KeptLemmas(doc[..k], keep) + (if keep(doc[k]) then [doc[k].lemmaText] else [])
  {
    assert doc[..k + 1] == doc[..k] + [doc[k]];
    FilterSnoc(doc[..k], doc[k], keep);
    var f := Filter(doc[..k], keep);
    ProjectSnoc(f, doc[k], LemmaOf);
  }

  /** Lines 83-91: one entry per document, in order, each the kept lemmas
      of that document. */
  method PreprocessDocs(docs: seq<seq<DocToken>>, outToken: bool) returns (resultArray: seq<TextOut>)
    ensures |resultArray| == |docs|
    ensures forall i :: 0 <= i < |docs| ==> resultArray[i] == Output(KeptLemmas(docs[i], KeptForDocs), outToken)
  {
    resultArray := [];
    for i := 0 to |docs|
      invariant |resultArray| == i
      invariant forall j :: 0 <= j < i ==> resultArray[j] == Output(KeptLemmas(docs[j], KeptForDocs), outToken)
    {
      var tokens := KeptLemmas(docs[i], KeptForDocs);
      if outToken {
        resultArray := resultArray + [Tokens(tokens)];
      } else {
        resultArray := resultArray + [Joined(Join(tokens))];
      }
    }
  }

  /** Lines 93-99: the lemmas of the tokens that are neither proper nouns,
      nouns nor stop words, in order. */
  method CustomTokenizer(doc: seq<DocToken>) returns (tokens: seq<string>)
    ensures tokens == KeptLemmas(doc, KeptForTopics)
  {
    tokens := [];
    for k := 0 to |doc|
      invariant tokens == KeptLemmas(doc[..k], KeptForTopics)
    {
      KeptLemmasSnoc(doc, k, KeptForTopics);
      if doc[k].pos !in ["PROPN", "NOUN"] && !doc[k].isStop {
        tokens := tokens + [doc[k].lemmaText];
      }
    }
    assert doc[..|doc|] == doc;
  }
}
