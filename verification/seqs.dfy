/** Order-preserving selection from a sequence: the shape of every
    `if (...) list.push(x)` loop in the servers and of the `.filter` the
    merger applies to a directory listing. */
module Seqs {

  /** The elements of xs that satisfy keep, in their original order. */
  function Filter<T>(xs: seq<T>, keep: T -> bool): (ys: seq<T>)
    ensures |ys| <= |xs|
  {
    if xs == [] then [] else (if keep(xs[0]) then [xs[0]] else []) + Filter(xs[1..], keep)
  }

  /** The complement of a selection. */
  function Not<T>(keep: T -> bool): T -> bool {
    x => !keep(x)
  }

  /** An element is selected exactly when it occurs and satisfies keep. */
  lemma {:induction false} FilterMembership<T>(xs: seq<T>, keep: T -> bool, x: T)
    ensures x in Filter(xs, keep) <==> x in xs && keep(x)
  {
    if xs != [] {
      FilterMembership(xs[1..], keep, x);
      assert xs == [xs[0]] + xs[1..];
    }
  }

  /** Selecting by a condition every element meets keeps everything. */
  lemma {:induction false} FilterKeepsAll<T>(xs: seq<T>, keep: T -> bool)
    requires forall j :: 0 <= j < |xs| ==> keep(xs[j])
    ensures Filter(xs, keep) == xs
  {
    if xs != [] {
      assert keep(xs[0]);
      FilterKeepsAll(xs[1..], keep);
      assert xs == [xs[0]] + xs[1..];
    }
  }

  /** Pushing one more element selects it or not, and leaves the earlier
      selection alone: the loop body `if (keep(x)) ys.push(x)`. */
  lemma {:induction false} FilterSnoc<T>(xs: seq<T>, x: T, keep: T -> bool)
    ensures Filter(xs + [x], keep) == Filter(xs, keep) + (if keep(x) then [x] else [])
  {
    if xs == [] {
      assert [] + [x] == [x];
    } else {
      var head := if keep(xs[0]) then [xs[0]] else [];
      var last := if keep(x) then [x] else [];
      assert (xs + [x])[0] == xs[0];
      assert (xs + [x])[1..] == xs[1..] + [x];
      FilterSnoc(xs[1..], x, keep);
      calc {
        Filter(xs + [x], keep);
        head + Filter(xs[1..] + [x], keep);
        head + (Filter(xs[1..], keep) + last);
        (head + Filter(xs[1..], keep)) + last;
        Filter(xs, keep) + last;
      }
    }
  }

  /** A selection and its complement split the input: together they hold
      every element exactly as often as the input does. */
  lemma {:induction false} FilterPartition<T>(xs: seq<T>, keep: T -> bool)
    ensures multiset(Filter(xs, keep)) + multiset(Filter(xs, Not(keep))) == multiset(xs)
    ensures |Filter(xs, keep)| + |Filter(xs, Not(keep))| == |xs|
  {
    if xs != [] {
      FilterPartition(xs[1..], keep);
      assert xs == [xs[0]] + xs[1..];
      assert multiset(xs) == multiset([xs[0]]) + multiset(xs[1..]);
    }
  }

  /** before relates every earlier element of xs to every later one. */
  ghost predicate Chained<T>(xs: seq<T>, before: (T, T) -> bool) {
    forall j, k :: 0 <= j < k < |xs| ==> before(xs[j], xs[k])
  }

  /** Any relation that holds between every earlier and later element of the
      input holds between every earlier and later element of the selection:
      selection keeps order, distinctness and ascending keys. */
  lemma {:induction false} FilterKeepsOrder<T>(xs: seq<T>, keep: T -> bool, before: (T, T) -> bool)
    requires Chained(xs, before)
    ensures Chained(Filter(xs, keep), before)
  {
    if xs != [] {
      var tail := xs[1..];
      assert Chained(tail, before) by {
        forall j, k | 0 <= j < k < |tail|
          ensures before(tail[j], tail[k])
        {
          assert tail[j] == xs[j + 1] && tail[k] == xs[k + 1];
        }
      }
      FilterKeepsOrder(tail, keep, before);
      var rest := Filter(tail, keep);
      if keep(xs[0]) {
        var ys := [xs[0]] + rest;
        assert Filter(xs, keep) == ys;
        forall j, k | 0 <= j < k < |ys|
          ensures before(ys[j], ys[k])
        {
          if j == 0 {
            assert ys[k] == rest[k - 1] && ys[k] in rest;
            FilterMembership(tail, keep, ys[k]);
            var m :| 0 <= m < |tail| && tail[m] == ys[k];
            assert xs[m + 1] == ys[k] && ys[0] == xs[0];
            assert before(xs[0], xs[m + 1]);
          } else {
            assert ys[j] == rest[j - 1] && ys[k] == rest[k - 1];
            assert before(rest[j - 1], rest[k - 1]);
          }
        }
      } else {
        assert Filter(xs, keep) == rest;
      }
    }
  }
}
