/** Tables as sequences of records: boolean-mask filters, row-wise maps,
    calendar dates and the left merge that every script of the pipeline uses. */
module Frames {

  /** A cell that may be missing (NaN / NaT / None in the scripts). */
  datatype Option<+T> = None | Some(value: T)

  /** A numeric column cell: missing, a number, or text not yet coerced. */
  datatype Cell = Missing | Number(x: real) | Text(t: string)

  /** `pd.to_numeric(errors='coerce')`: text that does not parse becomes
      missing; numbers and missing cells are kept. */
  function ToNumeric(c: Cell, parseNumber: string -> Option<real>): (n: Cell)
    ensures !n.Text?
    ensures c.Number? ==> n == c
    ensures c.Missing? ==> n.Missing?
    ensures c.Text? && parseNumber(c.t).Some? ==> n == Number(parseNumber(c.t).value)
    ensures c.Text? && parseNumber(c.t).None? ==> n.Missing?
  {
    match c
    case Missing => Missing
    case Number(x) => Number(x)
    case Text(t) => match parseNumber(t) case None => Missing case Some(x) => Number(x)
  }

  /** A calendar date as (year, month, day); the scripts' timestamps are
      compared against midnight cutoffs, so the time of day never matters. */
  datatype Date = Date(year: int, month: int, day: int)

  /** Strict chronological order: lexicographic on (year, month, day). */
  predicate Before(a: Date, b: Date)
  {
    a.year < b.year
    || (a.year == b.year && a.month < b.month)
    || (a.year == b.year && a.month == b.month && a.day < b.day)
  }

  /** `Before` is a strict total order. */
  lemma BeforeIsStrictTotalOrder(a: Date, b: Date, c: Date)
    ensures !Before(a, a)
    ensures Before(a, b) && Before(b, c) ==> Before(a, c)
    ensures a == b || Before(a, b) || Before(b, a)
  {
  }

  /** Boolean-mask indexing `df[mask]`: the rows that satisfy `keep`, in their
      original order. */
  function Filter<T>(rows: seq<T>, keep: T -> bool): (kept: seq<T>)
    ensures |kept| <= |rows|
    ensures forall r :: r in kept ==> r in rows && keep(r)
    ensures forall r :: r in rows && keep(r) ==> r in kept
  {
    if rows == [] then []
    else if keep(rows[0]) then [rows[0]] + Filter(rows[1..], keep)
    else Filter(rows[1..], keep)
  }

  /** A mask keeps every copy of a row it passes and no copy of a row it
      fails. */
  lemma {:induction false} FilterMultiset<T>(rows: seq<T>, keep: T -> bool, x: T)
    ensures multiset(Filter(rows, keep))[x] == if keep(x) then multiset(rows)[x] else 0
  {
    if rows != [] {
      FilterMultiset(rows[1..], keep, x);
      assert rows == [rows[0]] + rows[1..];
    }
  }

  /** A row-wise transformation (`apply(..., axis=1)` or a vectorised column
      expression): one output row per input row, in order. */
  function Map<A, B>(rows: seq<A>, f: A -> B): (out: seq<B>)
    ensures |out| == |rows|
    ensures forall i :: 0 <= i < |rows| ==> out[i] == f(rows[i])
  {
    seq(|rows|, i requires 0 <= i < |rows| => f(rows[i]))
  }

  /** The image of a row is a row of the image. */
  lemma MapMember<A, B>(rows: seq<A>, f: A -> B, x: A)
    requires x in rows
    ensures f(x) in Map(rows, f)
  {
    var i :| 0 <= i < |rows| && rows[i] == x;
    assert Map(rows, f)[i] == f(x);
  }

  /** Every row of the image is the image of a row. */
  lemma MapOrigin<A, B>(rows: seq<A>, f: A -> B, y: B)
    requires y in Map(rows, f)
    ensures exists x :: x in rows && y == f(x)
  {
    var i :| 0 <= i < |rows| && Map(rows, f)[i] == y;
    assert rows[i] in rows;
  }

  /** `sub` can be obtained from `s` by deleting rows: an order-preserving
      subsequence. */
  predicate IsSubsequence<T(==)>(sub: seq<T>, s: seq<T>)
  {
    if sub == [] then true
    else if s == [] then false
    else (sub[0] == s[0] && IsSubsequence(sub[1..], s[1..])) || IsSubsequence(sub, s[1..])
  }

  lemma {:induction false} SubsequenceReflexive<T>(s: seq<T>)
    ensures IsSubsequence(s, s)
  {
    if s != [] {
      SubsequenceReflexive(s[1..]);
    }
  }

  /** A subsequence of a subsequence is a subsequence. */
  lemma {:induction false} SubsequenceTransitive<T>(a: seq<T>, b: seq<T>, c: seq<T>)
    requires IsSubsequence(a, b) && IsSubsequence(b, c)
    ensures IsSubsequence(a, c)
    decreases |c|
  {
    if a != [] {
      if b[0] == c[0] && IsSubsequence(b[1..], c[1..]) {
        if a[0] == b[0] && IsSubsequence(a[1..], b[1..]) {
          SubsequenceTransitive(a[1..], b[1..], c[1..]);
        } else {
          SubsequenceTransitive(a, b[1..], c[1..]);
        }
      } else {
        SubsequenceTransitive(a, b, c[1..]);
      }
    }
  }

  /** A row-wise transformation keeps a subsequence a subsequence. */
  lemma {:induction false} MapSubsequence<A, B>(a: seq<A>, b: seq<A>, f: A -> B)
    requires IsSubsequence(a, b)
    ensures IsSubsequence(Map(a, f), Map(b, f))
    decreases |b|
  {
    if a != [] {
      assert Map(b, f)[1..] == Map(b[1..], f);
      if a[0] == b[0] && IsSubsequence(a[1..], b[1..]) {
        assert Map(a, f)[1..] == Map(a[1..], f);
        MapSubsequence(a[1..], b[1..], f);
      } else {
        MapSubsequence(a, b[1..], f);
      }
    }
  }

  /** A filtered table is an order-preserving subsequence of the table. */
  lemma {:induction false} FilterIsSubsequence<T>(rows: seq<T>, keep: T -> bool)
    ensures IsSubsequence(Filter(rows, keep), rows)
  {
    if rows != [] {
      FilterIsSubsequence(rows[1..], keep);
    }
  }

  /** Filtering distributes over concatenation. */
  lemma {:induction false} FilterAppend<T>(a: seq<T>, b: seq<T>, keep: T -> bool)
    ensures Filter(a + b, keep) == Filter(a, keep) + Filter(b, keep)
  {
    if a == [] {
      assert a + b == b;
    } else {
      assert (a + b)[0] == a[0] && (a + b)[1..] == a[1..] + b;
      FilterAppend(a[1..], b, keep);
    }
  }

  /** Applying two masks one after the other keeps the same rows as applying
      their conjunction once, when the masks themselves are fixed. */
  lemma {:induction false} FilterFilter<T>(rows: seq<T>, p: T -> bool, q: T -> bool)
    ensures Filter(Filter(rows, p), q) == Filter(rows, r => p(r) && q(r))
  {
    if rows != [] {
      FilterFilter(rows[1..], p, q);
    }
  }

  /** Two masks that agree on every row keep the same rows. */
  lemma {:induction false} FilterExtensional<T>(rows: seq<T>, p: T -> bool, q: T -> bool)
    requires forall i :: 0 <= i < |rows| ==> p(rows[i]) == q(rows[i])
    ensures Filter(rows, p) == Filter(rows, q)
  {
    if rows != [] {
      FilterExtensional(rows[1..], p, q);
    }
  }

  /** Two masks applied one after the other keep what a mask that is their
      conjunction on every row keeps. */
  lemma {:induction false} FilterConjunction<T>(rows: seq<T>, p: T -> bool, q: T -> bool, both: T -> bool)
    requires forall i :: 0 <= i < |rows| ==> both(rows[i]) == (p(rows[i]) && q(rows[i]))
    ensures Filter(Filter(rows, p), q) == Filter(rows, both)
  {
    if rows != [] {
      FilterConjunction(rows[1..], p, q, both);
    }
  }

  /** A mask that every row passes removes nothing. */
  lemma {:induction false} FilterAll<T>(rows: seq<T>, keep: T -> bool)
    requires forall i :: 0 <= i < |rows| ==> keep(rows[i])
    ensures Filter(rows, keep) == rows
  {
    if rows != [] {
      FilterAll(rows[1..], keep);
    }
  }

  /** A mask that no row passes removes everything. */
  lemma {:induction false} FilterNone<T>(rows: seq<T>, keep: T -> bool)
    requires forall i :: 0 <= i < |rows| ==> !keep(rows[i])
    ensures Filter(rows, keep) == []
  {
    if rows != [] {
      FilterNone(rows[1..], keep);
    }
  }

  /** The number of rows satisfying `p`. */
  function Count<T>(rows: seq<T>, p: T -> bool): (n: nat)
    ensures n <= |rows|
    ensures n == |Filter(rows, p)|
  {
    if rows == [] then 0
    else (if p(rows[0]) then 1 else 0) + Count(rows[1..], p)
  }

  /** `pd.concat(frames, ignore_index=True)`: the rows of every frame, frame
      after frame, each frame's rows in their own order. */
  function Concat<T>(frames: seq<seq<T>>): (all: seq<T>)
    ensures forall f, r :: f in frames && r in f ==> r in all
    ensures forall r :: r in all ==> exists f :: f in frames && r in f
  {
    if frames == [] then []
    else
      var init := frames[..|frames| - 1];
      var all := Concat(init) + frames[|frames| - 1];
      assert forall f :: f in frames ==> f in init || f == frames[|frames| - 1];
      assert forall f :: f in init ==> f in frames;
      all
  }

  /** Concatenating two lists of frames concatenates their rows. */
  lemma {:induction false} ConcatAppend<T>(a: seq<seq<T>>, b: seq<seq<T>>)
    ensures Concat(a + b) == Concat(a) + Concat(b)
    decreases |b|
  {
    if b == [] {
      assert a + b == a;
    } else {
      var bi, last := b[..|b| - 1], b[|b| - 1];
      assert b == bi + [last];
      assert a + b == (a + bi) + [last];
      ConcatSnoc(a + bi, last);
      ConcatSnoc(bi, last);
      ConcatAppend(a, bi);
    }
  }

  /** One more frame adds its rows at the end. */
  lemma ConcatSnoc<T>(frames: seq<seq<T>>, f: seq<T>)
    ensures Concat(frames + [f]) == Concat(frames) + f
  {
    assert (frames + [f])[..|frames|] == frames;
  }

  // ---------------------------------------------------------------------------
  // Left merge (pandas `merge(..., how='left')`)
  // ---------------------------------------------------------------------------

  /** The right rows whose key equals `key`, in right-table order. */
  function MatchesOf<R, K(==)>(right: seq<R>, rightKey: R -> K, key: K): (ms: seq<R>)
    ensures forall r :: r in ms ==> r in right && rightKey(r) == key
    ensures forall r :: r in right && rightKey(r) == key ==> r in ms
  {
    Filter(right, r => rightKey(r) == key)
  }

  /** The merged rows one left row contributes: one pair per matching right
      row, or a single pair with no right row when nothing matches. */
  function JoinOne<L, R>(l: L, matches: seq<R>): (out: seq<(L, Option<R>)>)
    ensures |out| == if matches == [] then 1 else |matches|
    ensures forall p :: p in out ==> p.0 == l
    ensures matches == [] ==> out == [(l, None)]
    ensures forall i :: 0 <= i < |matches| ==> out[i] == (l, Some(matches[i]))
  {
    if matches == [] then [(l, None)]
    else seq(|matches|, i requires 0 <= i < |matches| => (l, Some(matches[i])))
  }

  /** A left merge: every left row, in left order, paired with each right row
      of equal key (in right order), or with `None` when there is none
      (`LeftJoinPairsEveryMatch`, `LeftJoinAppend` and `LeftJoinOne`). */
  function LeftJoin<L, R, K(==)>(left: seq<L>, right: seq<R>, leftKey: L -> K, rightKey: R -> K)
    : (joined: seq<(L, Option<R>)>)
    ensures |joined| >= |left|
    ensures forall p :: p in joined ==> p.0 in left
    ensures forall p :: p in joined && p.1.Some? ==>
              p.1.value in right && rightKey(p.1.value) == leftKey(p.0)
    ensures forall p :: p in joined && p.1.None? ==>
              forall r :: r in right ==> rightKey(r) != leftKey(p.0)
    ensures forall l :: l in left ==> exists p :: p in joined && p.0 == l
  {
    if left == [] then []
    else
      var head := JoinOne(left[0], MatchesOf(right, rightKey, leftKey(left[0])));
      var tail := LeftJoin(left[1..], right, leftKey, rightKey);
      assert head[0] in head + tail && head[0].0 == left[0];
      assert forall l :: l in left[1..] ==> l in left;
      assert forall p :: p in tail ==> p in head + tail;
      assert forall l :: l in left ==> l == left[0] || l in left[1..];
      head + tail
  }

  /** The right table has at most one row per key. */
  predicate UniqueKeys<R, K(==)>(right: seq<R>, rightKey: R -> K)
  {
    forall i, j :: 0 <= i < j < |right| ==> rightKey(right[i]) != rightKey(right[j])
  }

  /** With unique right keys, two right rows with the same key are one row. */
  lemma UniqueKeysSameRow<R, K>(right: seq<R>, rightKey: R -> K, a: R, b: R)
    requires UniqueKeys(right, rightKey)
    requires a in right && b in right && rightKey(a) == rightKey(b)
    ensures a == b
  {
    var i :| 0 <= i < |right| && right[i] == a;
    var j :| 0 <= j < |right| && right[j] == b;
    assert i == j;
  }

  /** With unique right keys, a key has at most one matching right row. */
  lemma {:induction false} UniqueKeysMatchAtMostOne<R, K>(right: seq<R>, rightKey: R -> K, key: K)
    requires UniqueKeys(right, rightKey)
    ensures |MatchesOf(right, rightKey, key)| <= 1
  {
    if right != [] {
      assert UniqueKeys(right[1..], rightKey) by {
        forall i, j | 0 <= i < j < |right[1..]|
          ensures rightKey(right[1..][i]) != rightKey(right[1..][j])
        {
          assert right[1..][i] == right[i + 1] && right[1..][j] == right[j + 1];
        }
      }
      UniqueKeysMatchAtMostOne(right[1..], rightKey, key);
      var rest := MatchesOf(right[1..], rightKey, key);
      if rightKey(right[0]) == key {
        FilterNone(right[1..], r => rightKey(r) == key);
      }
      assert MatchesOf(right, rightKey, key)
          == (if rightKey(right[0]) == key then [right[0]] else []) + rest;
    }
  }

  /** Every matching (left, right) pair of rows is a row of the merge. */
  lemma {:induction false} LeftJoinPairsEveryMatch<L, R, K>(left: seq<L>, right: seq<R>, leftKey: L -> K, rightKey: R -> K,
                                                            l: L, r: R)
    requires l in left && r in right && rightKey(r) == leftKey(l)
    ensures (l, Some(r)) in LeftJoin(left, right, leftKey, rightKey)
  {
    var ms := MatchesOf(right, rightKey, leftKey(left[0]));
    var head := JoinOne(left[0], ms);
    var tail := LeftJoin(left[1..], right, leftKey, rightKey);
    assert LeftJoin(left, right, leftKey, rightKey) == head + tail;
    if left[0] == l {
      var i :| 0 <= i < |ms| && ms[i] == r;
      assert head[i] == (l, Some(r));
    } else {
      assert l in left[1..];
      LeftJoinPairsEveryMatch(left[1..], right, leftKey, rightKey, l, r);
    }
  }

  /** The merge of two stacked left tables is the merge of the first followed
      by the merge of the second: the output follows the left order. */
  lemma {:induction false} LeftJoinAppend<L, R, K>(a: seq<L>, b: seq<L>, right: seq<R>, leftKey: L -> K, rightKey: R -> K)
    ensures LeftJoin(a + b, right, leftKey, rightKey)
            == LeftJoin(a, right, leftKey, rightKey) + LeftJoin(b, right, leftKey, rightKey)
  {
    if a == [] {
      assert a + b == b;
    } else {
      assert (a + b)[0] == a[0];
      assert (a + b)[1..] == a[1..] + b;
      LeftJoinAppend(a[1..], b, right, leftKey, rightKey);
    }
  }

  /** The merge of a single left row: one pair per matching right row, in
      right order, or the row alone. */
  lemma LeftJoinOne<L, R, K>(l: L, right: seq<R>, leftKey: L -> K, rightKey: R -> K)
    ensures LeftJoin([l], right, leftKey, rightKey) == JoinOne(l, MatchesOf(right, rightKey, leftKey(l)))
    ensures IsSubsequence(MatchesOf(right, rightKey, leftKey(l)), right)
  {
    assert [l][1..] == [];
    FilterIsSubsequence(right, r => rightKey(r) == leftKey(l));
  }

  /** When no left row matches more than one right row, the merge keeps the
      left table's row count and order, and row i carries left row i together
      with its unique match, if any. */
  lemma {:induction false} LeftJoinOneToOne<L, R, K>(left: seq<L>, right: seq<R>, leftKey: L -> K, rightKey: R -> K)
    requires forall i :: 0 <= i < |left| ==> |MatchesOf(right, rightKey, leftKey(left[i]))| <= 1
    ensures |LeftJoin(left, right, leftKey, rightKey)| == |left|
    ensures forall i :: 0 <= i < |left| ==> LeftJoin(left, right, leftKey, rightKey)[i].0 == left[i]
    ensures forall i :: 0 <= i < |left| ==>
              (LeftJoin(left, right, leftKey, rightKey)[i].1.None?
               <==> forall r :: r in right ==> rightKey(r) != leftKey(left[i]))
  {
    if left != [] {
      LeftJoinOneToOne(left[1..], right, leftKey, rightKey);
      var ms := MatchesOf(right, rightKey, leftKey(left[0]));
      var joined := LeftJoin(left, right, leftKey, rightKey);
      var tail := LeftJoin(left[1..], right, leftKey, rightKey);
      assert |JoinOne(left[0], ms)| == 1;
      assert joined == JoinOne(left[0], ms) + tail;
      if ms != [] {
        assert ms[0] in right && rightKey(ms[0]) == leftKey(left[0]);
      }
      forall i | 0 <= i < |left|
        ensures joined[i].0 == left[i]
        ensures joined[i].1.None? <==> forall r :: r in right ==> rightKey(r) != leftKey(left[i])
      {
        if i > 0 {
          assert joined[i] == tail[i - 1] && left[i] == left[1..][i - 1];
        }
      }
    }
  }
}
