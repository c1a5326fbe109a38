/** The integer logic of movie_sentiment_analysis.py: release years split
    into nine half-open periods, the "at least 100 rows" rule that chooses
    solid or dotted line segments, and the count of summaries per sentence
    count. Sentiment means, proportions and all drawing are not part of
    this model. */
module MovieSentimentAnalysis {
  import opened Common

  /** Line 7: the period boundaries. */
  const TimePeriods: seq<int> := [0, 1950, 1960, 1970, 1980, 1990, 2000, 2005, 2010, 2023]

  /** Line 8: one label per period. */
  const TimePeriodLabels: seq<string> :=
    ["before 1950", "50s", "60s", "70s", "80s", "90s", "2000-2005", "2005-2010", " after 2010s"]

  /** A row of the sentence table: its movie's release year, missing when
      the date did not parse, and the number of sentences of its summary. */
  datatype Film = Film(releaseYear: Option<int>, nSentences: int)

  /** Lines 19-20: `lo < release_year <= hi`; a missing year compares false. */
  predicate InPeriod(f: Film, lo: int, hi: int)
  {
    f.releaseYear.Some? && lo < f.releaseYear.value <= hi
  }

  /** The mask of lines 19-20. */
  function PeriodMask(lo: int, hi: int): Film -> bool
  {
    f => InPeriod(f, lo, hi)
  }

  /** The rows of `df` in the period `(lo, hi]`, in table order. */
  function Between(df: seq<Film>, lo: int, hi: int): seq<Film>
  {
    Filter(df, PeriodMask(lo, hi))
  }

  /** Period `i`, for `1 <= i < |TimePeriods|`: `(TimePeriods[i-1], TimePeriods[i]]`. */
  function Period(df: seq<Film>, i: nat): seq<Film>
    requires 1 <= i < |TimePeriods|
  {
    Between(df, TimePeriods[i - 1], TimePeriods[i])
  }

  /** Lines 11-22: one sub-table per period, in period order. */
  method SplitIntoPeriods(df: seq<Film>) returns (dfByPeriod: seq<seq<Film>>)
    ensures |dfByPeriod| == |TimePeriods| - 1 == |TimePeriodLabels|
    ensures forall i :: 1 <= i < |TimePeriods| ==> dfByPeriod[i - 1] == Period(df, i)
  {
    dfByPeriod := [];
    for i := 0 to |TimePeriods|
      invariant |dfByPeriod| == if i == 0 then 0 else i - 1
      invariant forall k :: 1 <= k < i ==> dfByPeriod[k - 1] == Period(df, k)
    {
      if i > 0 {
        var temp := Between(df, TimePeriods[i - 1], TimePeriods[i]);
        dfByPeriod := dfByPeriod + [temp];
      }
    }
  }

  /** The boundaries strictly increase. */
  lemma TimePeriodsIncrease(a: nat, b: nat)
    requires a < b < |TimePeriods|
    ensures TimePeriods[a] < TimePeriods[b]
  {
  }

  /** The period holding year `y`, searching from period `i`; 0 for none. */
  function PeriodIndexFrom(y: int, i: nat): (r: nat)
    requires 1 <= i
    decreases |TimePeriods| - i
    ensures r == 0 || i <= r < |TimePeriods|
  {
    if i >= |TimePeriods| then 0
    else if TimePeriods[i - 1] < y <= TimePeriods[i] then i
    else PeriodIndexFrom(y, i + 1)
  }

  /** The period a row belongs to, 0 when it belongs to none. */
  function PeriodKey(f: Film): int
  {
    if f.releaseYear.Some? then PeriodIndexFrom(f.releaseYear.value, 1) else 0
  }

  /** The search finds the only period whose bounds hold the year. */
  lemma {:induction false} PeriodIndexFromFinds(y: int, i: nat, k: nat)
    requires 1 <= i <= k < |TimePeriods|
    requires TimePeriods[i - 1] < y
    ensures PeriodIndexFrom(y, i) == k <==> TimePeriods[k - 1] < y <= TimePeriods[k]
    decreases |TimePeriods| - i
  {
    if TimePeriods[i - 1] < y <= TimePeriods[i] {
      if i < k - 1 {
        TimePeriodsIncrease(i, k - 1);
      }
    } else if i < k {
      PeriodIndexFromFinds(y, i + 1, k);
    }
  }

  /** A row is in period `i` exactly when its key is `i`. */
  lemma PeriodKeyMatches(f: Film, i: nat)
    requires 1 <= i < |TimePeriods|
    ensures PeriodKey(f) == i <==> InPeriod(f, TimePeriods[i - 1], TimePeriods[i])
  {
    if f.releaseYear.Some? {
      var y := f.releaseYear.value;
      if TimePeriods[0] < y {
        PeriodIndexFromFinds(y, 1, i);
      } else {
        NoPeriodBelowFirst(y, 1);
        if i > 1 {
          TimePeriodsIncrease(0, i - 1);
        }
      }
    }
  }

  lemma {:induction false} NoPeriodBelowFirst(y: int, i: nat)
    requires 1 <= i && y <= TimePeriods[0]
    ensures PeriodIndexFrom(y, i) == 0
    decreases |TimePeriods| - i
  {
    if i < |TimePeriods| {
      if i > 1 {
        TimePeriodsIncrease(0, i - 1);
      }
      NoPeriodBelowFirst(y, i + 1);
    }
  }

  /** Each period is the bucket of its index. */
  lemma PeriodIsBucket(df: seq<Film>, i: nat)
    requires 1 <= i < |TimePeriods|
    ensures Period(df, i) == Bucket(df, PeriodKey, i)
  {
    forall f | f in df
      ensures InPeriod(f, TimePeriods[i - 1], TimePeriods[i]) == (PeriodKey(f) == i)
    {
      PeriodKeyMatches(f, i);
    }
    FilterExtensional(df, PeriodMask(TimePeriods[i - 1], TimePeriods[i]), KeyIs(PeriodKey, i));
  }

  /** A row with a year in `(0, 2023]`. */
  predicate Dated(f: Film)
  {
    f.releaseYear.Some? && TimePeriods[0] < f.releaseYear.value <= TimePeriods[|TimePeriods| - 1]
  }

  /** The periods are disjoint: no row is in two of them. */
  lemma PeriodsDisjoint(df: seq<Film>, i: nat, j: nat, f: Film)
    requires 1 <= i < j < |TimePeriods|
    ensures !(f in Period(df, i) && f in Period(df, j))
  {
    PeriodKeyMatches(f, i);
    PeriodKeyMatches(f, j);
  }

  /** A row of the table is in some period exactly when its year is in
      `(0, 2023]`; a missing year or one outside lands in none. */
  lemma PeriodsCoverDated(df: seq<Film>, f: Film)
    requires f in df
    ensures Dated(f) <==> exists i :: 1 <= i < |TimePeriods| && f in Period(df, i)
  {
    if Dated(f) {
      var k := PeriodOfDatedYear(f.releaseYear.value);
      assert f in Period(df, k);
    }
    if exists i :: 1 <= i < |TimePeriods| && f in Period(df, i) {
      var i :| 1 <= i < |TimePeriods| && f in Period(df, i);
      if i > 1 {
        TimePeriodsIncrease(0, i - 1);
      }
      if i < |TimePeriods| - 1 {
        TimePeriodsIncrease(i, |TimePeriods| - 1);
      }
    }
  }

  /** Every year in `(0, 2023]` has a period. */
  lemma PeriodOfDatedYear(y: int) returns (k: nat)
    requires TimePeriods[0] < y <= TimePeriods[|TimePeriods| - 1]
    ensures 1 <= k < |TimePeriods| && TimePeriods[k - 1] < y <= TimePeriods[k]
  {
    k := 1;
    while TimePeriods[k] < y
      invariant 1 <= k < |TimePeriods| && TimePeriods[k - 1] < y
      decreases |TimePeriods| - k
    {
      k := k + 1;
    }
  }

  /** The period sizes add up to the number of rows with a year in `(0, 2023]`. */
  lemma PeriodsPartitionDated(df: seq<Film>)
    ensures BucketTotal(df, PeriodKey, 1, |TimePeriods|) == |Filter(df, Dated)|
  {
    BucketTotalCountsRange(df, PeriodKey, 1, |TimePeriods|);
    forall f | f in df
      ensures (1 <= PeriodKey(f) < |TimePeriods|) == Dated(f)
    {
      if Dated(f) {
        var k := PeriodOfDatedYear(f.releaseYear.value);
        PeriodKeyMatches(f, k);
      }
      var key := PeriodKey(f);
      if 1 <= key < |TimePeriods| {
        PeriodKeyMatches(f, key);
        if key > 1 {
          TimePeriodsIncrease(0, key - 1);
        }
        if key < |TimePeriods| - 1 {
          TimePeriodsIncrease(key, |TimePeriods| - 1);
        }
      }
    }
    FilterExtensional(df, KeyIn(PeriodKey, 1, |TimePeriods|), Dated);
  }

  // ---------------------------------------------------------------------
  // Line styles

  /** Line 35: a period is drawn solid when it has at least this many rows. */
  const MinRows: nat := 100

  datatype LineStyle = Solid | Dotted

  /** Lines 33-37: the condition list, one flag per period, and one style
      per segment between two consecutive periods. */
  method PeriodLineStyles(dfPeriods: seq<seq<Film>>) returns (conditionList: seq<bool>, styles: seq<LineStyle>)
    ensures |conditionList| == |dfPeriods|
    ensures forall j :: 0 <= j < |dfPeriods| ==> (conditionList[j] <==> |dfPeriods[j]| >= MinRows)
    ensures styles == Styles(dfPeriods)
  {
    conditionList := [];
    for j := 0 to |dfPeriods|
      invariant |conditionList| == j
      invariant forall k :: 0 <= k < j ==> (conditionList[k] <==> |dfPeriods[k]| >= MinRows)
    {
      conditionList := conditionList + [|dfPeriods[j]| >= MinRows];
    }
    styles := [];
    var j := 0;
    while j < |dfPeriods| - 1
      invariant 0 <= j && |styles| == j
      invariant j <= Segments(dfPeriods)
      invariant styles == Styles(dfPeriods)[..j]
    {
      var linestyle := if conditionList[j + 1] then Solid else Dotted;
      styles := styles + [linestyle];
      j := j + 1;
    }
  }

  /** The number of segments: one fewer than periods, none without periods. */
  function Segments(dfPeriods: seq<seq<Film>>): nat
  {
    if dfPeriods == [] then 0 else |dfPeriods| - 1
  }

  /** Segment `j` is solid when period `j + 1` has at least 100 rows. */
  function Styles(dfPeriods: seq<seq<Film>>): (r: seq<LineStyle>)
    ensures |r| == Segments(dfPeriods)
  {
    seq(Segments(dfPeriods), j requires 0 <= j < Segments(dfPeriods) =>
          if |dfPeriods[j + 1]| >= MinRows then Solid else Dotted)
  }

  /** The first period's size never decides a style: with nine periods
      there are eight segments, and segment `j` is solid exactly when
      period `j + 1` holds at least 100 rows. */
  lemma StylesIgnoreFirstPeriod(dfPeriods: seq<seq<Film>>, first: seq<Film>)
    requires dfPeriods != []
    ensures Styles(dfPeriods[0 := first]) == Styles(dfPeriods)
    ensures forall j :: 0 <= j < |dfPeriods| - 1 ==>
              (Styles(dfPeriods)[j] == Solid <==> |dfPeriods[j + 1]| >= MinRows)
  {
  }

  // ---------------------------------------------------------------------
  // Summary-length histogram

  function SentenceCount(f: Film): int
  {
    f.nSentences
  }

  /** Lines 128-131: `data[j - 1]` is the number of rows with exactly `j`
      sentences, for `j` from 1 to 99; together they count the rows with
      1 to 99 sentences, so never more than the table has. */
  method SentenceCountHistogram(df: seq<Film>) returns (data: seq<nat>)
    ensures |data| == 99
    ensures forall j :: 1 <= j < 100 ==> data[j - 1] == |Bucket(df, SentenceCount, j)|
    ensures Sum(data) == |Filter(df, KeyIn(SentenceCount, 1, 100))| <= |df|
  {
    data := [];
    for j := 1 to 100
      invariant |data| == j - 1
      invariant forall k :: 1 <= k < j ==> data[k - 1] == |Bucket(df, SentenceCount, k)|
      invariant Sum(data) == BucketTotal(df, SentenceCount, 1, j)
    {
      var count := |Bucket(df, SentenceCount, j)|;
      BucketTotalExtend(df, SentenceCount, 1, j);
      assert (data + [count])[..|data|] == data;
      data := data + [count];
    }
    BucketTotalCountsRange(df, SentenceCount, 1, 100);
  }
}
