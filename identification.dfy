/** The interactive genre-classification session of identification.py.

    The operator's answers to `input()` are a sequence of strings consumed
    from the left; asking for one more answer than the sequence holds is
    Python's EOFError. The path prompts that choose the genre table and the
    earlier classification file are not modelled: the genre table arrives
    as an array of relation rows, and the earlier classification table as
    `Some(rows)` when that file exists and `None` when it does not. */
module Identification {
  import opened Common
  import opened Utils

  /** The answers the validation loop accepts (identification.py line 70). */
  const ValidInputs: set<string> := {"-1", "0", "1", "2", "Q"}

  /** A `Classification` cell: an `int(...)` value, or the raw text that a
      correction writes into it. */
  datatype Cell = Int(n: int) | Text(s: string)

  /** A row of the classification table (`Movie_genre`, `Classification`). */
  datatype Row = Row(genre: string, classification: Cell)

  /** A row of the de-duplicated genre table (`Movie_genre_ID`, `Movie_genre`). */
  datatype Genre = Genre(id: string, name: string)

  /** The exceptions that end the script before anything is saved. */
  datatype Failure =
    | EndOfInput             // EOFError: `input()` with no answer left
    | NoResumeIndex          // TypeError: `iloc[nan:]` after loading an empty table
    | EmptyRowsIndex         // IndexError: `new_rows[-1]` on an empty list
    | NotAnInteger(text: string)  // ValueError: `int(user_input)`
    | NoColumns              // KeyError: selecting the two columns of a table without any

  /** What the script saves: the table and the file name built from the
      operator's name. */
  datatype Saved = Saved(table: seq<Row>, filename: string)

  // ---------------------------------------------------------------------
  // Python's int() on a string

  /** The ASCII characters `int()` strips around a number: space, tab, line
      feed, carriage return, vertical tab and form feed. The separators
      0x1C-0x1F count as white space for `str.isspace` but not here. */
  predicate IsSpace(c: char)
  {
    c in {' ', '\t', '\n', '\r', '\U{0B}', '\U{0C}'}
  }

  predicate IsDigit(c: char)
  {
    '0' <= c <= '9'
  }

  function StripLeading(s: string): string
  {
    if s != [] && IsSpace(s[0]) then StripLeading(s[1..]) else s
  }

  function StripTrailing(s: string): string
  {
    if s != [] && IsSpace(s[|s| - 1]) then StripTrailing(s[..|s| - 1]) else s
  }

  /** Decimal digits, single underscores allowed between two digits. */
  predicate WellFormedDigits(s: string)
  {
    && s != []
    && IsDigit(s[0]) && IsDigit(s[|s| - 1])
    && (forall i :: 0 <= i < |s| ==> IsDigit(s[i]) || s[i] == '_')
    && (forall i :: 0 <= i < |s| - 1 ==> s[i] == '_' ==> s[i + 1] != '_')
  }

  /** The number the digits spell, underscores skipped. */
  function DigitsValue(s: string): nat
  {
    if s == [] then 0
    else if s[|s| - 1] == '_' then DigitsValue(s[..|s| - 1])
    else 10 * DigitsValue(s[..|s| - 1]) + (s[|s| - 1] as int - '0' as int) % 10
  }

  /** `int(s)`: surrounding white space, an optional sign, then digits;
      `None` is the ValueError. */
  function ParseInt(s: string): Option<int>
  {
    var t := StripTrailing(StripLeading(s));
    if t != [] && (t[0] == '-' || t[0] == '+') then
      if WellFormedDigits(t[1..]) then
        var v: int := DigitsValue(t[1..]);
        Some(if t[0] == '-' then -v else v)
      else None
    else if WellFormedDigits(t) then Some(DigitsValue(t))
    else None
  }

  /** The decimal spelling of a number, as `str(n)` writes it. */
  function Show(n: int): (r: string)
  {
    if n < 0 then "-" + ShowNat(-n) else ShowNat(n)
  }

  function ShowNat(n: nat): (r: string)
    ensures r != [] && IsDigit(r[0]) && IsDigit(r[|r| - 1])
    ensures forall i :: 0 <= i < |r| ==> IsDigit(r[i])
  {
    if n < 10 then [('0' as int + n) as char]
    else ShowNat(n / 10) + [('0' as int + n % 10) as char]
  }

  lemma {:induction false} ShowNatDigits(n: nat)
    ensures WellFormedDigits(ShowNat(n))
    ensures DigitsValue(ShowNat(n)) == n
  {
    var r := ShowNat(n);
    if n >= 10 {
      ShowNatDigits(n / 10);
      assert r[..|r| - 1] == ShowNat(n / 10);
    }
  }

  /** `int` reads back every number `str` writes. */
  lemma {:induction false} ParseIntShow(n: int)
    ensures ParseInt(Show(n)) == Some(n)
  {
    var s := Show(n);
    if n < 0 {
      ShowNatDigits(-n);
      assert s[1..] == ShowNat(-n);
    } else {
      ShowNatDigits(n);
    }
    assert StripLeading(s) == s;
    assert StripTrailing(s) == s;
  }

  /** The ASCII control separators are not white space to `int()`: an
      answer such as `"\x1c5"`, read unvalidated after a correction, does
      not parse. */
  lemma SeparatorIsNotStripped(s: string)
    requires s == ['\U{1C}', '5']
    ensures ParseInt(s) == None
  {
    assert StripLeading(s) == s;
    assert StripTrailing(s) == s;
  }

  /** The four numeric answers the validation loop lets through parse to
      their values; `Q` does not parse. */
  lemma ValidatedAnswersParse()
    ensures ParseInt("-1") == Some(-1)
    ensures ParseInt("0") == Some(0)
    ensures ParseInt("1") == Some(1)
    ensures ParseInt("2") == Some(2)
    ensures ParseInt("Q") == None
  {
    ParseIntShow(-1);
    ParseIntShow(0);
    ParseIntShow(1);
    ParseIntShow(2);
    assert Show(-1) == "-1" && Show(0) == "0" && Show(1) == "1" && Show(2) == "2";
    assert StripTrailing(StripLeading("Q")) == "Q";
  }

  /** The same, for an answer not written out. */
  lemma ValidAnswerParses(s: string)
    requires s in ValidInputs
    ensures s == "-1" ==> ParseInt(s) == Some(-1)
    ensures s == "0" ==> ParseInt(s) == Some(0)
    ensures s == "1" ==> ParseInt(s) == Some(1)
    ensures s == "2" ==> ParseInt(s) == Some(2)
    ensures s == "Q" ==> ParseInt(s) == None
  {
    ValidatedAnswersParse();
  }

  // ---------------------------------------------------------------------
  // The session as a state machine over the answers

  /** Where the loop stands between two genres: the rows appended so far
      (`new_rows`), whether `previous_classification` is set, and how many
      answers have been read. */
  datatype State = State(rows: seq<Row>, hasPrevious: bool, consumed: nat)

  /** The end of one genre's turn: `Q` was read, a row was appended, or an
      exception was raised. */
  datatype Turn = Quit(st: State) | Next(st: State) | Fail(failure: Failure)

  /** The state after the correction loop. */
  datatype Corrected = Corrected(rows: seq<Row>, userInput: string, consumed: nat)

  /** How the genre loop ended: `quit` when by `Q`. */
  datatype LoopEnd = LoopEnd(st: State, quit: bool)

  /** Lines 67-72: the position of the first accepted answer from `k` on. */
  function FirstValid(inputs: seq<string>, k: nat): (r: Option<nat>)
    decreases |inputs| - k
    ensures r.Some? ==> k <= r.value < |inputs| && inputs[r.value] in ValidInputs
    ensures r.Some? ==> forall j :: k <= j < r.value ==> inputs[j] !in ValidInputs
    ensures r.None? ==> forall j :: k <= j < |inputs| ==> inputs[j] !in ValidInputs
  {
    if k >= |inputs| then None
    else if inputs[k] in ValidInputs then Some(k)
    else FirstValid(inputs, k + 1)
  }

  /** Lines 78-82: while the answer is `2` and a previous classification is
      set, read a replacement for the last row's classification (stored as
      raw text, not validated), then a new answer for the current genre. */
  function Correct(rows: seq<Row>, hasPrevious: bool, userInput: string, inputs: seq<string>, c: nat)
    : Result<Corrected, Failure>
    decreases |inputs| - c
  {
    if !(userInput == "2" && hasPrevious) then Ok(Corrected(rows, userInput, c))
    else if rows == [] then Err(EmptyRowsIndex)
    else if c >= |inputs| then Err(EndOfInput)
    else
      var rows' := rows[|rows| - 1 := Row(rows[|rows| - 1].genre, Text(inputs[c]))];
      if c + 1 >= |inputs| then Err(EndOfInput)
      else Correct(rows', hasPrevious, inputs[c + 1], inputs, c + 2)
  }

  /** The correction loop leaves the number of rows alone and changes only
      the classification of the last one, to the raw text of the answer
      read before the final one; it ends on an answer other than `2`, and
      with no correction due it changes nothing. It fails on an empty row
      list exactly when a correction is due, or when the answers run out. */
  lemma {:induction false} CorrectionOverwritesLast(rows: seq<Row>, hasPrevious: bool, userInput: string,
                                                    inputs: seq<string>, c: nat)
    decreases |inputs| - c
    ensures var r := Correct(rows, hasPrevious, userInput, inputs, c);
      && (r.Ok? ==> c <= r.value.consumed && (r.value.consumed == c || r.value.consumed <= |inputs|))
      && (r.Ok? ==> !(r.value.userInput == "2" && hasPrevious))
      && (r.Ok? ==> |r.value.rows| == |rows|)
      && (r.Ok? ==> forall i :: 0 <= i < |rows| - 1 ==> r.value.rows[i] == rows[i])
      && (r.Ok? && rows != [] ==> r.value.rows[|rows| - 1].genre == rows[|rows| - 1].genre)
      && (r.Ok? && !(userInput == "2" && hasPrevious) ==> r.value == Corrected(rows, userInput, c))
      && (r.Ok? && userInput == "2" && hasPrevious ==>
            && rows != []
            && c + 2 <= r.value.consumed <= |inputs|
            && r.value.userInput == inputs[r.value.consumed - 1]
            && r.value.rows[|rows| - 1].classification == Text(inputs[r.value.consumed - 2]))
      && (r == Err(EmptyRowsIndex) <==> userInput == "2" && hasPrevious && rows == [])
      && (r.Err? ==> r.error == EmptyRowsIndex || r.error == EndOfInput)
  {
    if userInput == "2" && hasPrevious && rows != [] && c + 1 < |inputs| {
      var rows' := rows[|rows| - 1 := Row(rows[|rows| - 1].genre, Text(inputs[c]))];
      CorrectionOverwritesLast(rows', hasPrevious, inputs[c + 1], inputs, c + 2);
    }
  }

  /** Lines 64-88: one genre's turn. */
  function Step(g: Genre, st: State, inputs: seq<string>): Turn
  {
    match FirstValid(inputs, st.consumed)
    case None => Fail(EndOfInput)
    case Some(j) =>
      if inputs[j] == "Q" then Quit(st.(consumed := j + 1))
      else
        match Correct(st.rows, st.hasPrevious, inputs[j], inputs, j + 1)
        case Err(f) => Fail(f)
        case Ok(c) =>
          match ParseInt(c.userInput)
          case None => Fail(NotAnInteger(c.userInput))
          case Some(n) => Next(State(c.rows + [Row(g.name, Int(n))], true, c.consumed))
  }

  /** A `Q` turn keeps the rows and has consumed the `Q`; any other turn that
      does not raise appends one row for its genre, after the rows before it,
      of which only the last may have changed, and then a previous
      classification is set. Every turn reads at least one answer. The new
      row holds `int()` of the last answer read; when no correction ran,
      that is the accepted answer itself, so the value is -1, 0, 1 or 2 and
      the earlier rows are untouched. */
  lemma StepShape(g: Genre, st: State, inputs: seq<string>)
    ensures var r := Step(g, st, inputs);
      && (r.Quit? ==> r.st.rows == st.rows && st.consumed < r.st.consumed <= |inputs|
                      && inputs[r.st.consumed - 1] == "Q")
      && (r.Next? ==> && |r.st.rows| == |st.rows| + 1
                      && r.st.rows[|st.rows|].genre == g.name
                      && r.st.hasPrevious
                      && st.consumed < r.st.consumed <= |inputs|
                      && (forall i :: 0 <= i < |st.rows| - 1 ==> r.st.rows[i] == st.rows[i])
                      && (st.rows != [] ==> r.st.rows[|st.rows| - 1].genre == st.rows[|st.rows| - 1].genre))
      && (r.Next? ==> && r.st.rows[|st.rows|].classification.Int?
                      && ParseInt(inputs[r.st.consumed - 1]) == Some(r.st.rows[|st.rows|].classification.n))
      && (r.Next? && (!st.hasPrevious || inputs[FirstValid(inputs, st.consumed).value] != "2") ==>
            && r.st.consumed == FirstValid(inputs, st.consumed).value + 1
            && r.st.rows[..|st.rows|] == st.rows
            && r.st.rows[|st.rows|].classification in {Int(-1), Int(0), Int(1), Int(2)})
  {
    var v := FirstValid(inputs, st.consumed);
    if v.Some? && inputs[v.value] != "Q" {
      CorrectionOverwritesLast(st.rows, st.hasPrevious, inputs[v.value], inputs, v.value + 1);
      ValidAnswerParses(inputs[v.value]);
    }
  }

  /** Line 63: the turns of the genres from position `p` on. */
  function Loop(genres: seq<Genre>, p: nat, st: State, inputs: seq<string>): Result<LoopEnd, Failure>
    decreases |genres| - p
  {
    if p >= |genres| then Ok(LoopEnd(st, false))
    else
      match Step(genres[p], st, inputs)
      case Fail(f) => Err(f)
      case Quit(s) => Ok(LoopEnd(s, true))
      case Next(s) => Loop(genres, p + 1, s, inputs)
  }

  /** The number of genres from position `p` on. */
  function Remaining(genres: seq<Genre>, p: nat): nat
  {
    if p < |genres| then |genres| - p else 0
  }

  /** Line 59: the genre table projected on (id, name), de-duplicated. */
  function GenreList(movieGenres: seq<GenreRelation>): seq<Genre>
  {
    DropDuplicates(seq(|movieGenres|, i requires 0 <= i < |movieGenres| =>
                         Genre(movieGenres[i].genreId, movieGenres[i].genre)))
  }

  /** Lines 41-54: where the loop starts, whether a previous classification
      is set, and the rows already saved. */
  datatype Resume = Resume(start: nat, hasPrevious: bool, base: seq<Row>)

  /** A table of `n` rows read back from its file has the index 0..n-1, so
      `last_index` is `n - 1`; with no row it is NaN and the slice on line 63
      raises. */
  function ResumePoint(loaded: Option<seq<Row>>): (r: Result<Resume, Failure>)
    ensures loaded.None? ==> r == Ok(Resume(0, false, []))
    ensures loaded.Some? && loaded.value != [] ==>
              r.Ok? && r.value.base == loaded.value && r.value.hasPrevious
              && r.value.start + 1 == |loaded.value|
    ensures loaded == Some([]) ==> r == Err(NoResumeIndex)
  {
    match loaded
    case None => Ok(Resume(0, false, []))
    case Some(rows) =>
      if rows == [] then Err(NoResumeIndex) else Ok(Resume(|rows| - 1, true, rows))
  }

  /** Lines 91-101: the saved table is the earlier rows followed by the new
      ones; one more answer names the file. With no earlier table and no new
      row the concatenation has no columns, and selecting `Movie_genre` and
      `Classification` raises. */
  function Finish(base: seq<Row>, l: Result<LoopEnd, Failure>, inputs: seq<string>): Result<Saved, Failure>
  {
    match l
    case Err(f) => Err(f)
    case Ok(e) =>
      if base + e.st.rows == [] then Err(NoColumns)
      else if e.st.consumed >= |inputs| then Err(EndOfInput)
      else Ok(Saved(base + e.st.rows, FileName(inputs[e.st.consumed])))
  }

  /** Line 101: the file the table is saved to, named after the user. */
  function FileName(userName: string): string
  {
    userName + "_genres.csv"
  }

  /** The whole session, from the loaded state to what is saved. */
  function Session(movieGenres: seq<GenreRelation>, loaded: Option<seq<Row>>, inputs: seq<string>)
    : Result<Saved, Failure>
  {
    match ResumePoint(loaded)
    case Err(f) => Err(f)
    case Ok(r) =>
      Finish(r.base, Loop(GenreList(movieGenres), r.start, State([], r.hasPrevious, 0), inputs), inputs)
  }

  // ---------------------------------------------------------------------
  // Properties of the session

  /** One turn of the loop, unfolded. */
  lemma LoopUnfold(genres: seq<Genre>, p: nat, st: State, inputs: seq<string>)
    requires p < |genres|
    ensures Step(genres[p], st, inputs).Next? ==>
              Loop(genres, p, st, inputs) == Loop(genres, p + 1, Step(genres[p], st, inputs).st, inputs)
    ensures Step(genres[p], st, inputs).Quit? ==>
              Loop(genres, p, st, inputs) == Ok(LoopEnd(Step(genres[p], st, inputs).st, true))
    ensures Step(genres[p], st, inputs).Fail? ==>
              Loop(genres, p, st, inputs) == Err(Step(genres[p], st, inputs).failure)
  {
  }

  /** The three ways a turn ends, each from what was read. */
  lemma StepQuits(g: Genre, st: State, inputs: seq<string>, j: nat)
    requires FirstValid(inputs, st.consumed) == Some(j) && inputs[j] == "Q"
    ensures Step(g, st, inputs) == Quit(st.(consumed := j + 1))
  {
  }

  lemma StepFails(g: Genre, st: State, inputs: seq<string>, j: nat, f: Failure)
    requires FirstValid(inputs, st.consumed) == Some(j) && inputs[j] != "Q"
    requires || Correct(st.rows, st.hasPrevious, inputs[j], inputs, j + 1) == Err(f)
             || (&& Correct(st.rows, st.hasPrevious, inputs[j], inputs, j + 1).Ok?
                 && var u := Correct(st.rows, st.hasPrevious, inputs[j], inputs, j + 1).value.userInput;
                    ParseInt(u).None? && f == NotAnInteger(u))
    ensures Step(g, st, inputs) == Fail(f)
  {
  }

  lemma StepAppends(g: Genre, st: State, inputs: seq<string>, j: nat, cr: Corrected, n: int)
    requires FirstValid(inputs, st.consumed) == Some(j) && inputs[j] != "Q"
    requires Correct(st.rows, st.hasPrevious, inputs[j], inputs, j + 1) == Ok(cr)
    requires ParseInt(cr.userInput) == Some(n)
    ensures Step(g, st, inputs) == Next(State(cr.rows + [Row(g.name, Int(n))], true, cr.consumed))
  {
  }

  /** Over the whole loop the rows present before it keep their genres and
      only the last of them may change; answers are only ever consumed. */
  lemma {:induction false} LoopKeepsEarlierRows(genres: seq<Genre>, p: nat, st: State, inputs: seq<string>, e: LoopEnd)
    requires Loop(genres, p, st, inputs) == Ok(e)
    ensures |st.rows| <= |e.st.rows|
    ensures forall i :: 0 <= i < |st.rows| - 1 ==> e.st.rows[i] == st.rows[i]
    ensures st.rows != [] ==> e.st.rows[|st.rows| - 1].genre == st.rows[|st.rows| - 1].genre
    ensures st.consumed <= e.st.consumed
    ensures e.st.consumed == st.consumed || e.st.consumed <= |inputs|
    decreases |genres| - p
  {
    if p < |genres| {
      LoopUnfold(genres, p, st, inputs);
      StepShape(genres[p], st, inputs);
      var t := Step(genres[p], st, inputs);
      if t.Next? {
        LoopKeepsEarlierRows(genres, p + 1, t.st, inputs, e);
      }
    }
  }

  /** Every genre that is not quit on appends exactly one row, and a `Q`
      ends the loop before the genre it was read for gets a row. */
  lemma {:induction false} LoopCountsTurns(genres: seq<Genre>, p: nat, st: State, inputs: seq<string>, e: LoopEnd)
    requires Loop(genres, p, st, inputs) == Ok(e)
    ensures |st.rows| <= |e.st.rows|
    ensures e.quit ==> |e.st.rows| - |st.rows| < Remaining(genres, p)
                       && 0 < e.st.consumed <= |inputs| && inputs[e.st.consumed - 1] == "Q"
    ensures !e.quit ==> |e.st.rows| - |st.rows| == Remaining(genres, p)
    decreases |genres| - p
  {
    if p < |genres| {
      LoopUnfold(genres, p, st, inputs);
      StepShape(genres[p], st, inputs);
      var t := Step(genres[p], st, inputs);
      if t.Next? {
        LoopCountsTurns(genres, p + 1, t.st, inputs, e);
      }
    }
  }

  /** The rows of `rows` from position `before` on are for the genres from
      position `p` on, one each, in table order. */
  predicate AlignedFrom(genres: seq<Genre>, p: nat, before: nat, rows: seq<Row>)
  {
    forall i :: before <= i < |rows| ==> RowFor(genres, p + (i - before), rows[i])
  }

  /** `row` is for the genre at position `k`. */
  predicate RowFor(genres: seq<Genre>, k: int, row: Row)
  {
    0 <= k < |genres| && row.genre == genres[k].name
  }

  lemma AlignedAt(genres: seq<Genre>, p: nat, before: nat, rows: seq<Row>, i: nat)
    requires AlignedFrom(genres, p, before, rows) && before <= i < |rows|
    ensures RowFor(genres, p + (i - before), rows[i])
  {
  }

  lemma AlignedStep(genres: seq<Genre>, p: nat, st: State, s: State, rows: seq<Row>)
    requires p < |genres|
    requires |s.rows| == |st.rows| + 1 && s.rows[|st.rows|].genre == genres[p].name
    requires |s.rows| <= |rows| && rows[|s.rows| - 1].genre == s.rows[|s.rows| - 1].genre
    requires AlignedFrom(genres, p + 1, |s.rows|, rows)
    ensures AlignedFrom(genres, p, |st.rows|, rows)
  {
    forall i | |st.rows| <= i < |rows|
      ensures RowFor(genres, p + (i - |st.rows|), rows[i])
    {
      if i > |st.rows| {
        AlignedAt(genres, p + 1, |s.rows|, rows, i);
      }
    }
  }

  /** The rows appended by the loop are for the genres it visits, in table
      order: the `k`-th new row is for the genre at position `p + k`. */
  lemma {:induction false} LoopAppendsInOrder(genres: seq<Genre>, p: nat, st: State, inputs: seq<string>, e: LoopEnd)
    requires Loop(genres, p, st, inputs) == Ok(e)
    ensures AlignedFrom(genres, p, |st.rows|, e.st.rows)
    decreases |genres| - p
  {
    if p < |genres| {
      LoopUnfold(genres, p, st, inputs);
      StepShape(genres[p], st, inputs);
      var t := Step(genres[p], st, inputs);
      if t.Next? {
        LoopAppendsInOrder(genres, p + 1, t.st, inputs, e);
        LoopKeepsEarlierRows(genres, p + 1, t.st, inputs, e);
        AlignedStep(genres, p, st, t.st, e.st.rows);
      } else if t.Quit? {
        assert e.st.rows == st.rows;
      }
    } else {
      assert e.st.rows == st.rows;
    }
  }

  /** A correction only rewrites a row when another follows it, so the row
      appended last holds `int()` of an answer and never correction text. */
  lemma {:induction false} LoopEndsOnInteger(genres: seq<Genre>, p: nat, st: State, inputs: seq<string>, e: LoopEnd)
    requires Loop(genres, p, st, inputs) == Ok(e)
    requires |e.st.rows| > |st.rows| || (st.rows != [] && st.rows[|st.rows| - 1].classification.Int?)
    ensures e.st.rows != [] && e.st.rows[|e.st.rows| - 1].classification.Int?
    decreases |genres| - p
  {
    if p < |genres| {
      LoopUnfold(genres, p, st, inputs);
      StepShape(genres[p], st, inputs);
      var t := Step(genres[p], st, inputs);
      if t.Next? {
        LoopEndsOnInteger(genres, p + 1, t.st, inputs, e);
      }
    }
  }

  /** No answer from position `lo` up to `hi` is `2`. */
  predicate NoTwoBetween(inputs: seq<string>, lo: nat, hi: nat)
  {
    forall k :: lo <= k < hi && k < |inputs| ==> inputs[k] != "2"
  }

  /** A turn whose accepted answer is not `2` runs no correction: it appends
      the accepted answer's value, -1, 0 or 1, after the untouched rows. */
  lemma StepWithoutTwo(g: Genre, st: State, inputs: seq<string>)
    requires Step(g, st, inputs).Next?
    requires NoTwoBetween(inputs, st.consumed, Step(g, st, inputs).st.consumed)
    ensures var s := Step(g, st, inputs).st;
      && |s.rows| == |st.rows| + 1 && s.rows[..|st.rows|] == st.rows
      && s.rows[|st.rows|].classification in {Int(-1), Int(0), Int(1)}
  {
    StepShape(g, st, inputs);
    var j := FirstValid(inputs, st.consumed).value;
    CorrectionOverwritesLast(st.rows, st.hasPrevious, inputs[j], inputs, j + 1);
    assert j < Step(g, st, inputs).st.consumed;
    ValidAnswerParses(inputs[j]);
  }

  /** When `2` is never among the answers the loop reads, no correction runs:
      the rows present before the loop stay as they were, and every new row
      holds the value of its accepted answer, -1, 0 or 1. */
  lemma {:induction false} LoopWithoutTwos(genres: seq<Genre>, p: nat, st: State, inputs: seq<string>, e: LoopEnd)
    requires Loop(genres, p, st, inputs) == Ok(e)
    requires NoTwoBetween(inputs, st.consumed, e.st.consumed)
    ensures |st.rows| <= |e.st.rows| && e.st.rows[..|st.rows|] == st.rows
    ensures forall i :: |st.rows| <= i < |e.st.rows| ==> e.st.rows[i].classification in {Int(-1), Int(0), Int(1)}
    decreases |genres| - p
  {
    if p < |genres| {
      LoopUnfold(genres, p, st, inputs);
      StepShape(genres[p], st, inputs);
      var t := Step(genres[p], st, inputs);
      if t.Next? {
        LoopKeepsEarlierRows(genres, p + 1, t.st, inputs, e);
        StepWithoutTwo(genres[p], st, inputs);
        LoopWithoutTwos(genres, p + 1, t.st, inputs, e);
        forall i | |st.rows| <= i < |e.st.rows|
          ensures e.st.rows[i].classification in {Int(-1), Int(0), Int(1)}
        {
          if i == |st.rows| {
            assert e.st.rows[i] == e.st.rows[..|t.st.rows|][i] == t.st.rows[i];
          }
        }
        assert e.st.rows[..|st.rows|] == e.st.rows[..|t.st.rows|][..|st.rows|];
      }
    }
  }

  /** A `2` while no previous classification is set skips the correction and
      is recorded as the value 2. */
  lemma TwoWithoutPreviousIsRecorded(g: Genre, rows: seq<Row>, c: nat, inputs: seq<string>, j: nat)
    requires FirstValid(inputs, c) == Some(j) && inputs[j] == "2"
    ensures Step(g, State(rows, false, c), inputs) == Next(State(rows + [Row(g.name, Int(2))], true, j + 1))
  {
    ValidAnswerParses(inputs[j]);
  }

  /** The answer read after a correction is not validated: a `Q` there is
      handed to `int()` and raises. */
  lemma QuitAfterCorrectionRaises(g: Genre, st: State, inputs: seq<string>, j: nat)
    requires FirstValid(inputs, st.consumed) == Some(j) && inputs[j] == "2" && st.hasPrevious
    requires Correct(st.rows, true, "2", inputs, j + 1).Ok?
    requires Correct(st.rows, true, "2", inputs, j + 1).value.userInput == "Q"
    ensures Step(g, st, inputs) == Fail(NotAnInteger("Q"))
  {
    var u := Correct(st.rows, true, inputs[j], inputs, j + 1).value.userInput;
    ValidAnswerParses(u);
  }

  /** What is saved starts with the earlier table unchanged; the new rows
      follow, one per genre visited, in table order from the resume point.
      On a resume the first new row is for the genre at position `n - 1`
      of an `n`-row earlier table, whatever genre that table's last row has. */
  lemma {:induction false} SavedTable(movieGenres: seq<GenreRelation>, loaded: Option<seq<Row>>, inputs: seq<string>)
    requires Session(movieGenres, loaded, inputs).Ok?
    ensures ResumePoint(loaded).Ok?
    ensures var r := ResumePoint(loaded).value;
            var t := Session(movieGenres, loaded, inputs).value.table;
      && |r.base| <= |t|
      && t[..|r.base|] == r.base
      && |t| - |r.base| <= Remaining(GenreList(movieGenres), r.start)
      && AlignedFrom(GenreList(movieGenres), r.start, |r.base|, t)
      && t != []
  {
    var r := ResumePoint(loaded).value;
    var genres := GenreList(movieGenres);
    var st := State([], r.hasPrevious, 0);
    var l := Loop(genres, r.start, st, inputs);
    assert Session(movieGenres, loaded, inputs) == Finish(r.base, l, inputs);
    LoopCountsTurns(genres, r.start, st, inputs, l.value);
    LoopAppendsInOrder(genres, r.start, st, inputs, l.value);
    AlignedAfterBase(genres, r.start, r.base, l.value.st.rows);
  }

  /** When the session appended rows, the last saved row holds `int()` of
      an answer: no correction can reach it. */
  lemma SavedTableEndsOnInteger(movieGenres: seq<GenreRelation>, loaded: Option<seq<Row>>, inputs: seq<string>)
    requires Session(movieGenres, loaded, inputs).Ok? && ResumePoint(loaded).Ok?
    requires |Session(movieGenres, loaded, inputs).value.table| > |ResumePoint(loaded).value.base|
    ensures var t := Session(movieGenres, loaded, inputs).value.table;
            t[|t| - 1].classification.Int?
  {
    var r := ResumePoint(loaded).value;
    var st := State([], r.hasPrevious, 0);
    var l := Loop(GenreList(movieGenres), r.start, st, inputs);
    SessionUnfold(movieGenres, loaded, inputs);
    assert l.Ok? && Session(movieGenres, loaded, inputs).value.table == r.base + l.value.st.rows;
    var rows := l.value.st.rows;
    LoopEndsOnInteger(GenreList(movieGenres), r.start, st, inputs, l.value);
    assert (r.base + rows)[|r.base + rows| - 1] == rows[|rows| - 1];
  }

  /** On a resume from a table classified in genre order, the first new row
      is for the genre of the earlier table's last row: that genre is asked
      again rather than the one after it. */
  lemma ResumeRepeatsLastGenre(movieGenres: seq<GenreRelation>, rows: seq<Row>, inputs: seq<string>)
    requires rows != [] && AlignedFrom(GenreList(movieGenres), 0, 0, rows)
    requires Session(movieGenres, Some(rows), inputs).Ok?
    requires |Session(movieGenres, Some(rows), inputs).value.table| > |rows|
    ensures Session(movieGenres, Some(rows), inputs).value.table[|rows|].genre == rows[|rows| - 1].genre
  {
    var genres := GenreList(movieGenres);
    var t := Session(movieGenres, Some(rows), inputs).value.table;
    assert ResumePoint(Some(rows)) == Ok(Resume(|rows| - 1, true, rows));
    SavedTable(movieGenres, Some(rows), inputs);
    AlignedAt(genres, |rows| - 1, |rows|, t, |rows|);
    AlignedAt(genres, 0, 0, rows, |rows| - 1);
  }

  /** A table saved by a resumed session that recorded at least one answer
      already holds the repeated genre, so its last row is for the genre at
      position `n - 2`; resuming from it moves on to the genre after that one
      and asks nothing again. */
  lemma ResumeAfterRepeatMovesOn(movieGenres: seq<GenreRelation>, rows: seq<Row>, inputs: seq<string>)
    requires |rows| >= 2 && RowFor(GenreList(movieGenres), |rows| - 2, rows[|rows| - 1])
    requires Session(movieGenres, Some(rows), inputs).Ok?
    requires |Session(movieGenres, Some(rows), inputs).value.table| > |rows|
    ensures RowFor(GenreList(movieGenres), |rows| - 1, Session(movieGenres, Some(rows), inputs).value.table[|rows|])
  {
    var genres := GenreList(movieGenres);
    var t := Session(movieGenres, Some(rows), inputs).value.table;
    assert ResumePoint(Some(rows)) == Ok(Resume(|rows| - 1, true, rows));
    SavedTable(movieGenres, Some(rows), inputs);
    AlignedAt(genres, |rows| - 1, |rows|, t, |rows|);
  }

  /** A fresh session in which `2` is never among the answers the genre loop
      reads saves only the accepted answers' values -1, 0 and 1; the answer
      naming the file may be anything. */
  lemma FreshSessionWithoutTwos(movieGenres: seq<GenreRelation>, inputs: seq<string>)
    requires Session(movieGenres, None, inputs).Ok?
    requires Loop(GenreList(movieGenres), 0, State([], false, 0), inputs).Ok?
    requires NoTwoBetween(inputs, 0, Loop(GenreList(movieGenres), 0, State([], false, 0), inputs).value.st.consumed)
    ensures forall r :: r in Session(movieGenres, None, inputs).value.table ==>
              r.classification in {Int(-1), Int(0), Int(1)}
  {
    var genres := GenreList(movieGenres);
    var st := State([], false, 0);
    SessionUnfold(movieGenres, None, inputs);
    var l := Loop(genres, 0, st, inputs);
    LoopWithoutTwos(genres, 0, st, inputs, l.value);
    assert Session(movieGenres, None, inputs).value.table == [] + l.value.st.rows;
  }

  /** The earlier table in front of the new rows shifts their positions. */
  lemma AlignedAfterBase(genres: seq<Genre>, start: nat, base: seq<Row>, rows: seq<Row>)
    requires AlignedFrom(genres, start, 0, rows)
    ensures (base + rows)[..|base|] == base
    ensures AlignedFrom(genres, start, |base|, base + rows)
  {
    var t := base + rows;
    assert t[..|base|] == base;
    forall i | |base| <= i < |t|
      ensures RowFor(genres, start + (i - |base|), t[i])
    {
      AlignedAt(genres, start, 0, rows, i - |base|);
      assert t[i] == rows[i - |base|];
    }
  }

  /** On a resume, a `2` as the very first answer makes the correction loop
      index the still empty `new_rows` and raise. */
  lemma {:induction false} ResumeThenCorrectionRaises(movieGenres: seq<GenreRelation>, loaded: seq<Row>, inputs: seq<string>)
    requires loaded != [] && |loaded| - 1 < |GenreList(movieGenres)|
    requires inputs != [] && inputs[0] == "2"
    ensures Session(movieGenres, Some(loaded), inputs) == Err(EmptyRowsIndex)
  {
    var genres := GenreList(movieGenres);
    var st := State([], true, 0);
    assert FirstValid(inputs, 0) == Some(0);
    assert Step(genres[|loaded| - 1], st, inputs) == Fail(EmptyRowsIndex);
  }

  /** A fresh session that appends no row, because the first accepted
      answer is `Q` or because there is no genre, raises at the column
      selection instead of saving. */
  lemma FreshSessionWithoutRowsRaises(movieGenres: seq<GenreRelation>, inputs: seq<string>, j: nat)
    requires || GenreList(movieGenres) == []
             || (FirstValid(inputs, 0) == Some(j) && inputs[j] == "Q")
    ensures Session(movieGenres, None, inputs) == Err(NoColumns)
  {
    var genres := GenreList(movieGenres);
    var st := State([], false, 0);
    SessionUnfold(movieGenres, None, inputs);
    if genres != [] {
      StepQuits(genres[0], st, inputs, j);
      LoopUnfold(genres, 0, st, inputs);
    }
  }

  /** A fresh session in which `Q` is never accepted at the validated prompt
      saves exactly one row per distinct genre, in table order. */
  lemma {:induction false} FreshSessionCoversAllGenres(movieGenres: seq<GenreRelation>, inputs: seq<string>)
    requires Session(movieGenres, None, inputs).Ok?
    requires !Loop(GenreList(movieGenres), 0, State([], false, 0), inputs).value.quit
    ensures var t := Session(movieGenres, None, inputs).value.table;
            var genres := GenreList(movieGenres);
            |t| == |genres| && forall i :: 0 <= i < |t| ==> t[i].genre == genres[i].name
  {
    var genres := GenreList(movieGenres);
    var l := Loop(genres, 0, State([], false, 0), inputs);
    LoopCountsTurns(genres, 0, State([], false, 0), inputs, l.value);
    LoopAppendsInOrder(genres, 0, State([], false, 0), inputs, l.value);
    var t := Session(movieGenres, None, inputs).value.table;
    assert t == [] + l.value.st.rows;
  }

  /** Resuming from one saved row asks its genre again and saves it twice. */
  lemma ResumeAsksLastGenreAgain(mg: seq<GenreRelation>, loaded: Option<seq<Row>>, inputs: seq<string>)
    requires mg == [GenreRelation(1, "/m/a", "Drama"), GenreRelation(1, "/m/b", "Comedy")]
    requires loaded == Some([Row("Drama", Int(0))]) && inputs == ["1", "Q", "ann"]
    ensures Session(mg, loaded, inputs)
         == Ok(Saved([Row("Drama", Int(0)), Row("Drama", Int(1))], FileName("ann")))
  {
    var genres := TwoGenres(mg);
    assert ResumePoint(loaded) == Ok(Resume(0, true, loaded.value));
    SessionUnfold(mg, loaded, inputs);
    var s := ResumedLoopOfExample(genres, inputs);
    assert Session(mg, loaded, inputs) == Finish(loaded.value, Ok(LoopEnd(s, true)), inputs);
    assert loaded.value + s.rows == [Row("Drama", Int(0)), Row("Drama", Int(1))];
  }

  lemma ResumedLoopOfExample(genres: seq<Genre>, inputs: seq<string>) returns (s: State)
    requires genres == [Genre("/m/a", "Drama"), Genre("/m/b", "Comedy")]
    requires inputs == ["1", "Q", "ann"]
    ensures s == State([Row("Drama", Int(1))], true, 2)
    ensures Loop(genres, 0, State([], true, 0), inputs) == Ok(LoopEnd(s, true))
  {
    ValidAnswerParses(inputs[0]);
    var s0 := State([], true, 0);
    assert FirstValid(inputs, 0) == Some(0);
    var cr := Corrected([], inputs[0], 1);
    assert Correct([], true, inputs[0], inputs, 1) == Ok(cr);
    StepAppends(genres[0], s0, inputs, 0, cr, 1);
    var s1 := State([Row("Drama", Int(1))], true, 1);
    assert [] + [Row("Drama", Int(1))] == s1.rows;
    LoopUnfold(genres, 0, s0, inputs);
    assert FirstValid(inputs, 1) == Some(1);
    StepQuits(genres[1], s1, inputs, 1);
    LoopUnfold(genres, 1, s1, inputs);
    s := s1.(consumed := 2);
  }

  /** A correction stores whatever text was typed, unvalidated, in the
      previous row. */
  lemma CorrectionStoresRawText(mg: seq<GenreRelation>, inputs: seq<string>)
    requires mg == [GenreRelation(1, "/m/a", "Drama"), GenreRelation(2, "/m/b", "Comedy")]
    requires inputs == ["0", "2", "maybe", "1", "bob"]
    ensures Session(mg, None, inputs)
         == Ok(Saved([Row("Drama", Text("maybe")), Row("Comedy", Int(1))], FileName("bob")))
  {
    var genres := TwoGenres(mg);
    SessionUnfold(mg, None, inputs);
    var s1 := FirstTurnOfExample(genres, inputs);
    var s2 := SecondTurnOfExample(genres, inputs, s1);
    LoopUnfold(genres, 0, State([], false, 0), inputs);
    LoopUnfold(genres, 1, s1, inputs);
    assert Loop(genres, 2, s2, inputs) == Ok(LoopEnd(s2, false));
    assert Session(mg, None, inputs) == Finish([], Ok(LoopEnd(s2, false)), inputs);
    assert [] + s2.rows == s2.rows;
  }

  lemma FirstTurnOfExample(genres: seq<Genre>, inputs: seq<string>) returns (s: State)
    requires genres == [Genre("/m/a", "Drama"), Genre("/m/b", "Comedy")]
    requires inputs == ["0", "2", "maybe", "1", "bob"]
    ensures s == State([Row("Drama", Int(0))], true, 1)
    ensures Step(genres[0], State([], false, 0), inputs) == Next(s)
  {
    ValidAnswerParses(inputs[0]);
    assert FirstValid(inputs, 0) == Some(0);
    var cr := Corrected([], inputs[0], 1);
    assert Correct([], false, inputs[0], inputs, 1) == Ok(cr);
    StepAppends(genres[0], State([], false, 0), inputs, 0, cr, 0);
    s := State([Row("Drama", Int(0))], true, 1);
    assert [] + [Row("Drama", Int(0))] == s.rows;
  }

  lemma SecondTurnOfExample(genres: seq<Genre>, inputs: seq<string>, s1: State) returns (s: State)
    requires genres == [Genre("/m/a", "Drama"), Genre("/m/b", "Comedy")]
    requires inputs == ["0", "2", "maybe", "1", "bob"]
    requires s1 == State([Row("Drama", Int(0))], true, 1)
    ensures s == State([Row("Drama", Text("maybe")), Row("Comedy", Int(1))], true, 4)
    ensures Step(genres[1], s1, inputs) == Next(s)
  {
    assert FirstValid(inputs, 1) == Some(1);
    var fixed := [Row("Drama", Text(inputs[2]))];
    CorrectionOfExample(inputs);
    ValidAnswerParses(inputs[3]);
    var cr := Corrected(fixed, inputs[3], 4);
    StepAppends(genres[1], s1, inputs, 1, cr, 1);
    s := State([Row("Drama", Text("maybe")), Row("Comedy", Int(1))], true, 4);
    assert fixed + [Row("Comedy", Int(1))] == s.rows;
  }

  lemma CorrectionOfExample(inputs: seq<string>)
    requires inputs == ["0", "2", "maybe", "1", "bob"]
    ensures Correct([Row("Drama", Int(0))], true, "2", inputs, 2)
         == Ok(Corrected([Row("Drama", Text("maybe"))], "1", 4))
  {
    var fixed := [Row("Drama", Text("maybe"))];
    assert [Row("Drama", Int(0))][0 := Row("Drama", Text("maybe"))] == fixed;
    assert Correct(fixed, true, "1", inputs, 4) == Ok(Corrected(fixed, "1", 4));
  }

  /** The genre table of the two examples: two movies' rows, two genres. */
  lemma TwoGenres(mg: seq<GenreRelation>) returns (genres: seq<Genre>)
    requires |mg| == 2 && mg[0].genreId == "/m/a" && mg[0].genre == "Drama"
    requires mg[1].genreId == "/m/b" && mg[1].genre == "Comedy"
    ensures genres == GenreList(mg) == [Genre("/m/a", "Drama"), Genre("/m/b", "Comedy")]
  {
    var pairs := seq(|mg|, i requires 0 <= i < |mg| => Genre(mg[i].genreId, mg[i].genre));
    assert pairs == [Genre("/m/a", "Drama"), Genre("/m/b", "Comedy")];
    assert pairs[..1] == [Genre("/m/a", "Drama")];
    assert DropDuplicates(pairs[..1]) == [Genre("/m/a", "Drama")];
    genres := GenreList(mg);
  }

  // ---------------------------------------------------------------------
  // The script

  /** Lines 67-72: read answers from position `c` on until one is accepted;
      `None` when the answers run out first. */
  method ReadValidAnswer(inputs: seq<string>, c: nat) returns (r: Option<nat>)
    ensures r == FirstValid(inputs, c)
  {
    var k := c;
    while k < |inputs| && inputs[k] !in ValidInputs
      invariant c <= k
      invariant FirstValid(inputs, k) == FirstValid(inputs, c)
      decreases |inputs| - k
    {
      k := k + 1;
    }
    if k < |inputs| {
      return Some(k);
    }
    return None;
  }

  /** Lines 78-82: the correction loop, on the rows appended so far. */
  method CorrectLast(rows: seq<Row>, hasPrevious: bool, userInput: string, inputs: seq<string>, c: nat)
    returns (r: Result<Corrected, Failure>)
    ensures r == Correct(rows, hasPrevious, userInput, inputs, c)
  {
    var newRows, answer, k := rows, userInput, c;
    while answer == "2" && hasPrevious
      invariant Correct(newRows, hasPrevious, answer, inputs, k) == Correct(rows, hasPrevious, userInput, inputs, c)
      decreases |inputs| - k
    {
      if newRows == [] {
        return Err(EmptyRowsIndex);
      }
      if k >= |inputs| {
        return Err(EndOfInput);
      }
      newRows := newRows[|newRows| - 1 := Row(newRows[|newRows| - 1].genre, Text(inputs[k]))];
      if k + 1 >= |inputs| {
        return Err(EndOfInput);
      }
      answer := inputs[k + 1];
      k := k + 2;
    }
    return Ok(Corrected(newRows, answer, k));
  }

  lemma SessionUnfold(movieGenres: seq<GenreRelation>, loaded: Option<seq<Row>>, inputs: seq<string>)
    ensures ResumePoint(loaded).Err? ==> Session(movieGenres, loaded, inputs) == Err(ResumePoint(loaded).error)
    ensures ResumePoint(loaded).Ok? ==>
              var r := ResumePoint(loaded).value;
              Session(movieGenres, loaded, inputs)
                == Finish(r.base, Loop(GenreList(movieGenres), r.start, State([], r.hasPrevious, 0), inputs), inputs)
  {
  }

  /** Lines 64-88: one genre's turn, from the state between two genres. */
  method TakeTurn(g: Genre, st: State, inputs: seq<string>) returns (t: Turn)
    ensures t == Step(g, st, inputs)
  {
    var valid := ReadValidAnswer(inputs, st.consumed);
    if valid.None? {
      return Fail(EndOfInput);
    }
    var userInput := inputs[valid.value];
    if userInput == "Q" {
      StepQuits(g, st, inputs, valid.value);
      return Quit(st.(consumed := valid.value + 1));
    }
    var corrected := CorrectLast(st.rows, st.hasPrevious, userInput, inputs, valid.value + 1);
    if corrected.Err? {
      StepFails(g, st, inputs, valid.value, corrected.error);
      return Fail(corrected.error);
    }
    var n := ParseInt(corrected.value.userInput);
    if n.None? {
      StepFails(g, st, inputs, valid.value, NotAnInteger(corrected.value.userInput));
      return Fail(NotAnInteger(corrected.value.userInput));
    }
    StepAppends(g, st, inputs, valid.value, corrected.value, n.value);
    return Next(State(corrected.value.rows + [Row(g.name, Int(n.value))], true, corrected.value.consumed));
  }

  /** Line 63: the genre loop, from the genre at position `p` on. */
  method RunLoop(genres: seq<Genre>, p: nat, st: State, inputs: seq<string>)
    returns (l: Result<LoopEnd, Failure>)
    ensures l == Loop(genres, p, st, inputs)
  {
    var q, s := p, st;
    while q < |genres|
      invariant Loop(genres, q, s, inputs) == Loop(genres, p, st, inputs)
      decreases |genres| - q
    {
      LoopUnfold(genres, q, s, inputs);
      var t := TakeTurn(genres[q], s, inputs);
      match t {
        case Fail(f) =>
          return Err(f);
        case Quit(s') =>
          return Ok(LoopEnd(s', true));
        case Next(s') =>
          q, s := q + 1, s';
      }
    }
    return Ok(LoopEnd(s, false));
  }

  /** Lines 41-103: the classification session. */
  method ClassifyGenres(movieGenres: array<GenreRelation>, loaded: Option<seq<Row>>, inputs: seq<string>)
    returns (out: Result<Saved, Failure>)
    ensures out == Session(movieGenres[..], loaded, inputs)
  {
    SessionUnfold(movieGenres[..], loaded, inputs);
    var resume := ResumePoint(loaded);
    if resume.Err? {
      return Err(resume.error);
    }
    var genres := GenreList(movieGenres[..]);
    var l := RunLoop(genres, resume.value.start, State([], resume.value.hasPrevious, 0), inputs);
    if l.Err? {
      return Err(l.error);
    }
    var table := resume.value.base + l.value.st.rows;
    if table == [] {
      return Err(NoColumns);
    }
    var consumed := l.value.st.consumed;
    if consumed >= |inputs| {
      return Err(EndOfInput);
    }
    var userName := inputs[consumed];
    out := Ok(Saved(table, FileName(userName)));
  }
}
