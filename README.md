# Movie genre classification and summary analysis: a Dafny model

This project models the integer, list and string logic of four scripts of a
movie-summary analysis project built on the CMU movie corpus:

- **identification.py**: the interactive session in which an operator
  classifies every distinct genre as -1, 0, 1 or 2.
  - It can quit with `Q`.
  - A `2` corrects the previous answer.
  - It can resume from an earlier classification file.
  - It saves the earlier rows followed by the new ones under a file named
    after the operator.
- **utils.py**: the flattening of each movie's `{genre_id: genre_name}` map
  into a movie-genre relation table.
- **preprocessing.py**: the same flattening; the selection of the summaries
  of fictional movies; and three token filters (`filter_names`,
  `preprocess_docs`, `custom_tokenizer`).
- **movie_sentiment_analysis.py**:
  - The split of a table into nine release-year periods.
  - The "at least 100 rows" rule that draws a line segment solid or dotted.
  - The count of summaries per sentence count.

Each script is a module: `Identification`, `Utils`, `Preprocessing`,
`MovieSentimentAnalysis`. Module `Common` holds the shared vocabulary:
- `Result` and `Option`.
- The boolean-mask `Filter`, with its order and multiplicity lemmas.
- Bucket counting.
- First-occurrence `DropDuplicates`.
- Python's single-space `join` and `split`.

The scripts' loops are methods:
- `ClassifyGenres` and the methods it calls.
- `GetMovieGenresDataframe`.
- `PreprocessDocs`, `CustomTokenizer`.
- `SplitIntoPeriods`, `PeriodLineStyles`, `SentenceCountHistogram`.

Each method is proved equal to a specification function. The lemmas then
prove the scripts' promises about those functions.

The classification session is modelled as follows:
- The operator's answers are a sequence of strings consumed from the left.
  Running out of answers is Python's `EOFError`.
- Every exception that ends the script before it saves is a `Failure`:
  - `EOFError`.
  - The `TypeError` of slicing with a NaN index after loading an empty table.
  - The `IndexError` of `new_rows[-1]` on an empty list.
  - The `ValueError` of `int()` on unvalidated text.
  - The `KeyError` of selecting two columns of a table that has none.
- Python's `int()` on a string is modelled for ASCII text:
  - Surrounding ASCII white space: space, tab, line feed, carriage return,
    vertical tab and form feed (not the separators 0x1C-0x1F).
  - An optional sign.
  - Digits with single underscores.

  It is proved to read back every number `str()` writes.

Where the design text and the code disagree, the model follows the code:
- On a resume, the script prints that it resumes from index `n` of an
  `n`-row earlier table. The loop actually starts at position `n - 1`.
  - When the earlier table has one row per genre in table order, as a
    fresh session saves it, the last classified genre is asked again, and
    it is saved twice if the operator answers it before quitting.
    `ResumeRepeatsLastGenre` states this, and `ResumeAsksLastGenreAgain`
    shows it on a one-row table.
  - A table saved by a resumed session that recorded at least one answer
    already holds that repeated genre, so resuming from it moves on to the
    next unclassified genre.
    `ResumeAfterRepeatMovesOn` states this.
- `get_fictional_summaries_subset` is described as selecting summaries of
  fictional movies. It also divides by the number of distinct movie ids
  before printing a ratio, so it raises for an empty movie table.
  `FictionalSubsetFails` states this.
- The fictional subset is described as holding no duplicates. The code
  de-duplicates only the set of ids, so every copy of a kept summary stays.
  `FictionalSubsetOrder` states this.

## Model

| member | source | states |
|---|---|---|
| Identification.ClassifyGenres | identification.py:41-103 | the session run over a genre array and the answers gives exactly the outcome of `Session`: the saved table and file name, or the exception that stops the script |
| Identification.RunLoop | identification.py:63-88 | the genre loop from position `p` ends as `Loop` says: by a `Q`, by running out of genres, or by an exception |
| Identification.TakeTurn | identification.py:64-88 | one genre's turn ends as `Step` says: quit, one row appended, or an exception |
| Identification.ReadValidAnswer | identification.py:67-72 | the validation loop stops at the first answer in {-1, 0, 1, 2, Q}, or reports that the answers ran out |
| Identification.FirstValid | identification.py:67-72 | the accepted answer is in {-1, 0, 1, 2, Q}; every answer before it is outside that set and is skipped; with no accepted answer, none of the remaining answers is in the set |
| Identification.CorrectLast | identification.py:78-82 | the correction loop gives exactly `Correct`'s result |
| Identification.CorrectionOverwritesLast | identification.py:78-82 | a correction leaves the row count and every row but the last unchanged, keeps the last row's genre, and stores the raw replacement text as its classification; it ends on an answer other than 2; without a previous classification nothing changes; it raises IndexError exactly when a correction is due on an empty row list |
| Identification.StepShape | identification.py:63-88 | a `Q` turn appends nothing and has consumed the `Q`; any other completed turn appends one row for its own genre after the earlier rows, of which only the last may change, and sets the previous classification; every turn consumes at least one answer; the new row holds `int()` of the last answer read, and when no correction ran that is the accepted answer, so the value is -1, 0, 1 or 2 and the earlier rows are untouched |
| Identification.LoopKeepsEarlierRows | identification.py:63-88 | over the whole loop, rows present before it keep their genres, only the last of them may change, and answers are only consumed |
| Identification.LoopCountsTurns | identification.py:63-88 | without a `Q` every remaining genre appends exactly one row; after a `Q` fewer rows than remaining genres are appended, and the last answer consumed is the `Q` |
| Identification.LoopAppendsInOrder | identification.py:63-88 | the k-th appended row is for the genre at position `p + k`, in table order |
| Identification.LoopEndsOnInteger | identification.py:78-88 | the row appended last holds `int()` of an answer, never correction text, because a correction only rewrites a row that another follows |
| Identification.LoopWithoutTwos | identification.py:67-88 | when `2` is not among the answers the loop reads, no earlier row changes and every new row holds its accepted answer's value, -1, 0 or 1 |
| Identification.SavedTableEndsOnInteger | identification.py:78-94 | when the session appended rows, the last saved row holds `int()` of an answer |
| Identification.FreshSessionWithoutTwos | identification.py:67-94 | a fresh session in which `2` is not among the answers the genre loop reads saves only the values -1, 0 and 1; the operator's name may be anything |
| Identification.StepWithoutTwo | identification.py:67-88 | a turn whose accepted answer is not `2` runs no correction and appends the answer's value, -1, 0 or 1, after the untouched rows |
| Identification.SavedTable | identification.py:45-94 | the saved table starts with the earlier table unchanged, then holds at most one new row per genre from the resume position on, in table order, and is never empty |
| Identification.ResumeRepeatsLastGenre | identification.py:45-63 | on a resume from a table classified in genre order, the first new row is for the genre of the earlier table's last row: the last classified genre is asked again, not the one after it |
| Identification.ResumeAfterRepeatMovesOn | identification.py:45-63 | when the earlier table's last row is for the genre at position `n - 2`, as in a table saved by a resumed session, the first new row is for the genre at position `n - 1`, the one after it |
| Preprocessing.DefaultFictionalSubsetKeeps | preprocessing.py:55-70 | with the default genres, a summary is kept exactly when some genre row for its movie is Science Fiction or Fantasy |
| Identification.TwoWithoutPreviousIsRecorded | identification.py:54-88 | a `2` with no previous classification skips the correction and is recorded as the value 2 |
| Identification.QuitAfterCorrectionRaises | identification.py:78-88 | a `Q` read after a correction is not validated and makes `int()` raise |
| Identification.ResumeThenCorrectionRaises | identification.py:48-82 | on a resume, a first answer of `2` indexes the empty `new_rows` and raises IndexError |
| Identification.FreshSessionWithoutRowsRaises | identification.py:52-94 | a fresh session that appends no row, because of an immediate `Q` or because a genre table with its columns has no row, raises at the column selection instead of saving |
| Identification.FreshSessionCoversAllGenres | identification.py:59-94 | a fresh session in which no `Q` is accepted at the validated prompt saves exactly one row per distinct genre, in table order |
| Identification.ResumeAsksLastGenreAgain | identification.py:45-63 | resuming from a one-row table asks that row's genre again and saves it twice |
| Identification.CorrectionStoresRawText | identification.py:78-101 | a correction stores the unvalidated text typed (`maybe`) in the previous row, and the file is named after the operator |
| Identification.ParseIntShow | identification.py:88 | `int()` reads back every number `str()` writes |
| Identification.SeparatorIsNotStripped | identification.py:82-88 | an answer such as `"\x1c5"`, read unvalidated after a correction, makes `int()` raise: the separators 0x1C-0x1F are not stripped |
| Identification.ValidatedAnswersParse | identification.py:70-88 | the four numeric answers the validation accepts parse to their values; `Q` does not parse |
| Identification.ValidAnswerParses | identification.py:70-88 | the same, for any accepted answer |
| Common.DropDuplicatesPrefix | identification.py:59 | de-duplication keeps first occurrences in table order: de-duplicating a prefix gives a prefix of the result |
| Common.DropDuplicates | identification.py:59 | the result holds exactly the distinct rows of the table, each once |
| Utils.GetMovieGenresDataframe | utils.py:51-76 | the nested flattening loop gives exactly `Flattened`: the rows of every movie in order, or the failed label lookup |
| Utils.FlattenedCount | utils.py:69-73 | a table that flattens gives one row per map entry, summed over the movies |
| Utils.FlattenedAt | utils.py:69-73 | with the default index, entry `k` of movie `i` is the row at offset (entries of the earlier movies) + k and carries movie `i`'s own id, genre id and name |
| Utils.DefaultIndexFlattens | utils.py:69-70 | with the default 0..n-1 index the label lookup never fails |
| Utils.MissingGenresAddNothing | utils.py:63 | a movie whose genre cell is missing contributes no row |
| Utils.FlattenedFailure | utils.py:69-70 | flattening fails exactly when some position is not an index label, and it reports the first such position |
| Utils.FlattenedFailureIsFinal | utils.py:69-70 | once a lookup fails, the loop gets no further |
| Utils.LocWikiIdAt | utils.py:70 | `loc[label]` finds the first row carrying the label |
| Utils.LocWikiId | utils.py:70 | the lookup fails exactly when no row carries the label |
| Utils.ShuffledIndexMismatchesIds | utils.py:69-70 | with labels out of position order, rows get the id of the movie whose label equals the position, not the id of the movie whose genres they list |
| Preprocessing.GetMovieGenresDataframe | preprocessing.py:35-53 | the second flattening gives the same rows as the first, one per map entry |
| Preprocessing.FictionalMoviesCount | preprocessing.py:61-62 | the number of distinct fictional ids is at most the number of matching genre rows |
| Preprocessing.FictionalSubsetFails | preprocessing.py:63 | the subset raises ZeroDivisionError exactly for an empty movie table |
| Preprocessing.FictionalSubsetKeeps | preprocessing.py:55-70 | a summary is kept exactly when some genre row for its movie has a fictional genre |
| Preprocessing.FictionalSubsetOrder | preprocessing.py:67-68 | the kept summaries are in table order, and every duplicate of a kept summary is kept |
| Preprocessing.FilterNamesKeeps | preprocessing.py:77-79 | with `out_token`, the result has exactly one token per pair not tagged `NNP`, and a word is in it exactly when some such pair has it |
| Preprocessing.FilterNamesJoinSplits | preprocessing.py:80-81 | without `out_token`, the joined text splits back into the kept tokens when no token holds a space and at least one token is kept |
| Preprocessing.PreprocessDocs | preprocessing.py:83-91 | one entry per document, in order, each holding the lemmas of its alphabetic, non-stop, non-`PROPN` tokens, as a list or joined |
| Preprocessing.KeptLemmasMembership | preprocessing.py:86-97 | a lemma is kept exactly when some accepted token has it, and no more lemmas than tokens are kept |
| Preprocessing.CustomTokenizer | preprocessing.py:93-99 | the lemmas of the tokens that are neither `PROPN` nor `NOUN` nor stop words, in token order |
| Common.SplitJoin | preprocessing.py:81-90 | joining a non-empty list of space-free tokens with single spaces loses nothing (an empty list joins to `""`, which splits into one empty token) |
| Common.FilterIsSubsequence | preprocessing.py:68 | a boolean-mask selection keeps the order of the rows it keeps |
| Common.FilterCounts | preprocessing.py:68 | a boolean-mask selection keeps every selected row as often as it occurs |
| MovieSentimentAnalysis.SplitIntoPeriods | movie_sentiment_analysis.py:7-22 | nine sub-tables, one per period label; sub-table `i - 1` holds the rows with `time_periods[i-1] < year <= time_periods[i]` |
| MovieSentimentAnalysis.PeriodKeyMatches | movie_sentiment_analysis.py:7-20 | a row is in period `i` exactly when its period key is `i` |
| MovieSentimentAnalysis.PeriodsDisjoint | movie_sentiment_analysis.py:7-20 | no row is in two periods |
| MovieSentimentAnalysis.PeriodsCoverDated | movie_sentiment_analysis.py:7-20 | a row is in some period exactly when it has a year in (0, 2023] |
| MovieSentimentAnalysis.PeriodsPartitionDated | movie_sentiment_analysis.py:7-20 | the period sizes add up to the number of rows with a year in (0, 2023] |
| MovieSentimentAnalysis.PeriodIsBucket | movie_sentiment_analysis.py:19-20 | each period is the bucket of its index |
| MovieSentimentAnalysis.PeriodLineStyles | movie_sentiment_analysis.py:33-37 | flag `j` is set exactly when period `j` has at least 100 rows; there is one style per segment, as `Styles` gives |
| MovieSentimentAnalysis.StylesIgnoreFirstPeriod | movie_sentiment_analysis.py:36-37 | segment `j` is solid exactly when period `j + 1` has at least 100 rows, so the first period's size never decides a style |
| MovieSentimentAnalysis.SentenceCountHistogram | movie_sentiment_analysis.py:128-131 | 99 counts; count `j - 1` is the number of rows with exactly `j` sentences; they add up to the rows with 1 to 99 sentences, at most the table size |
| Common.BucketTotalCountsRange | movie_sentiment_analysis.py:130-131 | bucket sizes over a range of keys add up to the number of rows whose key is in the range |

## Left out

- The path prompts and file checks of identification.py lines 10-38, including the re-prompt loop of lines 18-19 that never ends: the genre table arrives as an array of relation rows.
- Reading the earlier classification file (line 44) and writing the result (line 103): the earlier table arrives as `Some(rows)` or `None`, and the saved table and file name are the result.
- All console output, including the `previous_classification` and row shown in the correction prompt: they are never stored. The previous classification is modelled only as set or not set.
- Identification.ResumePoint: the earlier table is read back without an index column, so it has the default index whoever wrote it; the model also assumes it has a `Classification` column, as the files this script writes do.
- Identification.Session: a genre table is assumed to have its columns. A relation table flattened from no map entry is built from an empty list and has no columns, so the script raises KeyError at identification.py line 59, before the loop; the model instead runs the loop over no genre.
- Identification.ClassifyGenres: the same assumption as `Session`, for the same column-less table.
- Identification.FreshSessionWithoutRowsRaises: for a column-less genre table the script raises at line 59 rather than line 94; the model reports the line-94 error.
- Preprocessing.GetFictionalSummariesSubset: the genre table is assumed to have its columns; for a column-less genre table built from no map entry, preprocessing.py line 61 raises KeyError, while the model returns an empty subset.
- Identification.ParseInt: strips only the six ASCII white-space characters and reads only ASCII digits; Python's `int()` also accepts non-ASCII Unicode digits and white space, which the model rejects.
- Identification.ParseInt: has no limit on the number of digits; Python 3.11 and later (and 3.10.7 and later) raise ValueError for more than 4300 digits, which the model accepts. Answers that long are not modelled.
- CSV reading and writing in utils.py, including the overwrite prompt of lines 79-87, and the dataset loaders `load_all_initial_dataframes` and `get_datasets`: file I/O.
- The write of the flattened table to `cleaned_genres.csv` at preprocessing.py line 51: file I/O.
- The `eval` of each genre literal (utils.py line 63, preprocessing.py line 37): each movie carries its map already evaluated, as its entries in insertion order.
- Utils.GetMovieGenresDataframe: requires distinct index labels, as every table read from a file has; duplicate labels would make `loc` return several rows.
- Tokenizing, tagging and lemmatizing by NLTK and spaCy, and the parallel `nlp.pipe`: tokens, tags, lemmas and flags are given data.
- Preprocessing.FictionalMoviesCount: the ratio of line 63 is a float and is not computed; only the zero division it can raise is modelled.
- `pd.to_datetime` coercion of release dates: each row carries a release year or none.
- Sentiment means, proportions and every plotting call of movie_sentiment_analysis.py: floating point and drawing.
- MovieSentimentAnalysis.SentenceCountHistogram: models one mask; the loop over masks repeats it per mask.
- MovieSentimentAnalysis.PeriodLineStyles: models one mask; the plot functions repeat it per mask.
- topic_modeling.py is not part of this model: vectorizer and topic-model fitting and ranking of float weights.
