/** Shared vocabulary for the table and text operations of the analysis
    scripts: failure-carrying results, the boolean-mask filter that pandas
    and list comprehensions perform, bucket counting, first-occurrence
    de-duplication and the single-space join of token lists. */
module Common {

  datatype Option<T> = None | Some(value: T)

  datatype Result<T, E> = Ok(value: T) | Err(error: E)

  /** `r` is `s` with some elements left out, the rest in their original order. */
  ghost predicate IsSubsequence<T>(r: seq<T>, s: seq<T>)
    decreases |s|
  {
    if s == [] then r == []
    else
      || (r != [] && r[|r| - 1] == s[|s| - 1] && IsSubsequence(r[..|r| - 1], s[..|s| - 1]))
      || IsSubsequence(r, s[..|s| - 1])
  }

  /** The rows of `s` for which the mask `p` holds, as `df[mask]` or
      `[x for x in s if p(x)]` select them. */
  function Filter<T(!new)>(s: seq<T>, p: T -> bool): (r: seq<T>)
    ensures |r| <= |s|
    ensures forall x :: x in r <==> x in s && p(x)
  {
    if s == [] then []
    else
      var init := s[..|s| - 1];
      assert s == init + [s[|s| - 1]];
      Filter(init, p) + (if p(s[|s| - 1]) then [s[|s| - 1]] else [])
  }

  /** Filtering one more row adds it at the end exactly when the mask holds. */
  lemma FilterSnoc<T(!new)>(s: seq<T>, x: T, p: T -> bool)
    ensures Filter(s + [x], p) == Filter(s, p) + (if p(x) then [x] else [])
  {
    assert (s + [x])[..|s + [x]| - 1] == s;
  }

  /** Filtering keeps every selected row as often as it occurs, and drops
      every other row. */
  lemma {:induction false} FilterCounts<T(!new)>(s: seq<T>, p: T -> bool, x: T)
    ensures multiset(Filter(s, p))[x] == if p(x) then multiset(s)[x] else 0
  {
    if s != [] {
      var init := s[..|s| - 1];
      assert s == init + [s[|s| - 1]];
      FilterCounts(init, p, x);
    }
  }

  /** Filtering keeps the order of the rows it keeps. */
  lemma {:induction false} FilterIsSubsequence<T(!new)>(s: seq<T>, p: T -> bool)
    ensures IsSubsequence(Filter(s, p), s)
  {
    if s != [] {
      var init := s[..|s| - 1];
      FilterIsSubsequence(init, p);
      var r := Filter(s, p);
      if p(s[|s| - 1]) {
        assert r[..|r| - 1] == Filter(init, p);
      } else {
        assert r == Filter(init, p);
      }
    }
  }

  /** Two masks that agree on every row of `s` select the same rows. */
  lemma {:induction false} FilterExtensional<T(!new)>(s: seq<T>, p: T -> bool, q: T -> bool)
    requires forall x :: x in s ==> p(x) == q(x)
    ensures Filter(s, p) == Filter(s, q)
  {
    if s != [] {
      var init := s[..|s| - 1];
      assert forall x :: x in init ==> x in s;
      FilterExtensional(init, p, q);
    }
  }

  /** The mask `key(x) == j`. */
  function KeyIs<T>(key: T -> int, j: int): T -> bool
  {
    x => key(x) == j
  }

  /** The mask `lo <= key(x) < hi`. */
  function KeyIn<T>(key: T -> int, lo: int, hi: int): T -> bool
  {
    x => lo <= key(x) < hi
  }

  /** The rows whose key is `j`: one bucket of a count-by-key histogram. */
  function Bucket<T(!new)>(s: seq<T>, key: T -> int, j: int): seq<T>
  {
    Filter(s, KeyIs(key, j))
  }

  /** The sizes of the buckets `lo`, `lo + 1`, ..., `hi - 1`, added up. */
  function BucketTotal<T(!new)>(s: seq<T>, key: T -> int, lo: int, hi: int): nat
    decreases hi - lo
  {
    if hi <= lo then 0 else |Bucket(s, key, lo)| + BucketTotal(s, key, lo + 1, hi)
  }

  /** Buckets are disjoint: over a range of keys their sizes add up to the
      number of rows whose key lies in that range. */
  lemma {:induction false} BucketTotalCountsRange<T(!new)>(s: seq<T>, key: T -> int, lo: int, hi: int)
    ensures BucketTotal(s, key, lo, hi) == |Filter(s, KeyIn(key, lo, hi))|
    decreases |s|
  {
    if s == [] {
      BucketTotalOfEmpty(key, lo, hi);
    } else {
      var init, x := s[..|s| - 1], s[|s| - 1];
      assert s == init + [x];
      BucketTotalCountsRange(init, key, lo, hi);
      BucketTotalStep(init, x, key, lo, hi);
    }
  }

  lemma {:induction false} BucketTotalOfEmpty<T(!new)>(key: T -> int, lo: int, hi: int)
    ensures BucketTotal([], key, lo, hi) == 0
    decreases hi - lo
  {
    if lo < hi {
      BucketTotalOfEmpty(key, lo + 1, hi);
    }
  }

  /** Appending one row adds one to the total exactly when its key is in range. */
  lemma {:induction false} BucketTotalStep<T(!new)>(s: seq<T>, x: T, key: T -> int, lo: int, hi: int)
    ensures BucketTotal(s + [x], key, lo, hi)
         == BucketTotal(s, key, lo, hi) + (if lo <= key(x) < hi then 1 else 0)
    decreases hi - lo
  {
    var s' := s + [x];
    assert s'[..|s'| - 1] == s;
    if lo < hi {
      BucketTotalStep(s, x, key, lo + 1, hi);
    }
  }

  /** Appending the bucket `hi` extends the range at its top. */
  lemma {:induction false} BucketTotalExtend<T(!new)>(s: seq<T>, key: T -> int, lo: int, hi: int)
    requires lo <= hi
    ensures BucketTotal(s, key, lo, hi + 1) == BucketTotal(s, key, lo, hi) + |Bucket(s, key, hi)|
    decreases hi - lo
  {
    if lo < hi {
      BucketTotalExtend(s, key, lo + 1, hi);
    }
  }

  /** The sum of a sequence of counts. */
  function Sum(s: seq<nat>): nat
  {
    if s == [] then 0 else Sum(s[..|s| - 1]) + s[|s| - 1]
  }

  /** One column of a table: `f` applied to every row, in order. */
  function Project<T, U>(s: seq<T>, f: T -> U): seq<U>
  {
    seq(|s|, i requires 0 <= i < |s| => f(s[i]))
  }

  lemma ProjectSnoc<T, U>(s: seq<T>, x: T, f: T -> U)
    ensures Project(s + [x], f) == Project(s, f) + [f(x)]
  {
    var l, r := Project(s + [x], f), Project(s, f) + [f(x)];
    assert |l| == |r|;
    forall i | 0 <= i < |l| ensures l[i] == r[i] {
      if i < |s| {
        assert (s + [x])[i] == s[i];
      }
    }
  }

  /** A value is in the column exactly when some row gives it. */
  lemma ProjectMembership<T, U>(s: seq<T>, f: T -> U, y: U)
    ensures y in Project(s, f) <==> exists x :: x in s && f(x) == y
  {
    if y in Project(s, f) {
      var i :| 0 <= i < |s| && Project(s, f)[i] == y;
      assert s[i] in s && f(s[i]) == y;
    }
    if exists x :: x in s && f(x) == y {
      var x :| x in s && f(x) == y;
      var i :| 0 <= i < |s| && s[i] == x;
      assert Project(s, f)[i] == y;
    }
  }

  /** `s` without repeated elements, each kept at its first occurrence, as
      `drop_duplicates(keep='first')` leaves a table. */
  function DropDuplicates<T(==,!new)>(s: seq<T>): (r: seq<T>)
    ensures forall x :: x in r <==> x in s
    ensures forall i, j :: 0 <= i < j < |r| ==> r[i] != r[j]
  {
    if s == [] then []
    else
      var init := s[..|s| - 1];
      assert s == init + [s[|s| - 1]];
      if s[|s| - 1] in init then DropDuplicates(init) else DropDuplicates(init) + [s[|s| - 1]]
  }

  /** De-duplicating a longer table only adds rows after those of a shorter
      prefix, so the kept rows follow the order of their first occurrences. */
  lemma {:induction false} DropDuplicatesPrefix<T(!new)>(s: seq<T>, k: nat)
    requires k <= |s|
    ensures DropDuplicates(s[..k]) <= DropDuplicates(s)
    decreases |s|
  {
    if k < |s| {
      var init := s[..|s| - 1];
      assert init[..k] == s[..k];
      DropDuplicatesPrefix(init, k);
    } else {
      assert s[..k] == s;
    }
  }

  /** Python's `' '.join(tokens)`. */
  function Join(ts: seq<string>): (r: string)
    ensures |ts| == 1 ==> r == ts[0]
  {
    if ts == [] then ""
    else if |ts| == 1 then ts[0]
    else ts[0] + " " + Join(ts[1..])
  }

  /** Python's `s.split(' ')`: the pieces between single spaces. */
  function Split(s: string): (r: seq<string>)
    ensures |r| >= 1
  {
    if s == [] then [""]
    else if s[0] == ' ' then [""] + Split(s[1..])
    else
      var rest := Split(s[1..]);
      [[s[0]] + rest[0]] + rest[1..]
  }

  /** Joining tokens that hold no space with single spaces loses nothing:
      splitting the joined text gives the tokens back. */
  lemma {:induction false} SplitJoin(ts: seq<string>)
    requires ts != []
    requires forall t :: t in ts ==> ' ' !in t
    ensures Split(Join(ts)) == ts
  {
    if |ts| == 1 {
      SplitWord(ts[0]);
    } else {
      SplitJoin(ts[1..]);
      SplitWordThenSpace(ts[0], Join(ts[1..]));
    }
  }

  lemma {:induction false} SplitWord(t: string)
    requires ' ' !in t
    ensures Split(t) == [t]
  {
    if t != [] {
      assert forall c :: c in t[1..] ==> c in t;
      SplitWord(t[1..]);
      assert [t[0]] + t[1..] == t;
    }
  }

  lemma {:induction false} SplitWordThenSpace(t: string, rest: string)
    requires ' ' !in t
    ensures Split(t + " " + rest) == [t] + Split(rest)
  {
    if t == [] {
      assert t + " " + rest == [' '] + rest;
      assert ([' '] + rest)[1..] == rest;
    } else {
      var s := t + " " + rest;
      assert s[0] == t[0];
      assert s[1..] == t[1..] + " " + rest;
      SplitWordThenSpace(t[1..], rest);
      assert [t[0]] + t[1..] == t;
    }
  }
}
