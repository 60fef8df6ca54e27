/** Small shared vocabulary. */
module Basics {

  datatype Option<+T> = None | Some(value: T)

  /** The `char name[32]` fields of the optimiser hold at most 31 characters; `snprintf` drops the rest. */
  const NAME_LIMIT: nat := 31

  function Trunc(s: string): (r: string)
    ensures |r| <= NAME_LIMIT && r <= s
    ensures |s| <= NAME_LIMIT ==> r == s
  {
    if |s| <= NAME_LIMIT then s else s[..NAME_LIMIT]
  }

  // ----- lists of ids -----

  ghost predicate NoDup(s: seq<nat>) {
    forall i, j :: 0 <= i < j < |s| ==> s[i] != s[j]
  }

  function PositionIn(s: seq<nat>, x: nat): (k: nat)
    requires x in s
    ensures k < |s| && s[k] == x
  {
    if s[0] == x then 0 else 1 + PositionIn(s[1..], x)
  }

  lemma {:induction false} PositionUnique(s: seq<nat>, k: nat)
    requires NoDup(s) && k < |s|
    ensures PositionIn(s, s[k]) == k
  {
    if k > 0 {
      assert s[1..][k - 1] == s[k];
      PositionUnique(s[1..], k - 1);
    }
  }

  lemma SubsetSize<T>(a: set<T>, b: set<T>)
    requires a <= b
    ensures |a| <= |b|
    ensures |a| == |b| ==> a == b
  {
    assert b == a + (b - a);
  }

  // ----- selections -----

  /** The entries that are kept, in order. */
  ghost function Select<T(!new)>(ys: seq<T>, keep: T -> bool): seq<T> {
    if ys == [] then []
    else Select(ys[..|ys| - 1], keep) + if keep(ys[|ys| - 1]) then [ys[|ys| - 1]] else []
  }

  /** `xs` holds the entries of `ys` at the indices `at`, in order. */
  ghost predicate Subsequence<T>(xs: seq<T>, ys: seq<T>, at: seq<nat>) {
    && |at| == |xs| && (forall i, j :: 0 <= i < j < |at| ==> at[i] < at[j])
    && forall i :: 0 <= i < |xs| ==> at[i] < |ys| && ys[at[i]] == xs[i]
  }

  ghost predicate Lists(at: seq<nat>, i: nat) {
    exists k :: 0 <= k < |at| && at[k] == i
  }

  /** `xs` holds exactly the entries of `ys` with the property, each where it stands and in order. */
  ghost predicate Selected<T(!new)>(xs: seq<T>, ys: seq<T>, keep: T -> bool, at: seq<nat>) {
    && Subsequence(xs, ys, at) && (forall k :: 0 <= k < |at| ==> keep(ys[at[k]]))
    && forall i :: 0 <= i < |ys| && keep(ys[i]) ==> Lists(at, i)
  }

  lemma SelectedMore<T(!new)>(xs: seq<T>, ys: seq<T>, keep: T -> bool, at: seq<nat>, y: T) returns (more: seq<nat>)
    requires Selected(xs, ys, keep, at)
    ensures Selected(xs + if keep(y) then [y] else [], ys + [y], keep, more)
  {
    more := if keep(y) then at + [|ys|] else at;
    assert Subsequence(xs + if keep(y) then [y] else [], ys + [y], more) by {
      assert forall i :: 0 <= i < |at| ==> more[i] == at[i] && (ys + [y])[at[i]] == ys[at[i]];
    }
    forall i | 0 <= i < |ys| + 1 && keep((ys + [y])[i]) ensures Lists(more, i) {
      if i < |ys| {
        assert keep(ys[i]);
        var k :| 0 <= k < |at| && at[k] == i;
        assert more[k] == i;
      } else {
        assert more[|at|] == i;
      }
    }
    forall k | 0 <= k < |more| ensures keep((ys + [y])[more[k]]) {
      if k < |at| {
        assert more[k] == at[k] && (ys + [y])[at[k]] == ys[at[k]];
      }
    }
  }

  lemma {:induction false} SelectInOrder<T(!new)>(ys: seq<T>, keep: T -> bool) returns (at: seq<nat>)
    ensures Selected(Select(ys, keep), ys, keep, at)
  {
    if ys == [] {
      at := [];
    } else {
      var (init, last) := (ys[..|ys| - 1], ys[|ys| - 1]);
      at := SelectInOrder(init, keep);
      at := SelectedMore(Select(init, keep), init, keep, at, last);
      assert ys == init + [last];
    }
  }
}
