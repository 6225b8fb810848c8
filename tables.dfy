/**
  Table primitives shared by the two stages of the outage pipeline: absent
  cells (pandas NaN), results that may carry an error, duplicate removal that
  keeps the first occurrence, and the NaN-skipping column reductions (max and
  sum) that pandas applies in `groupby(...).max()`, `.sum()` and `.T.sum()`.
*/
module Tables {

  /** A cell that may be absent (a pandas NaN). */
  datatype Option<+T> = None | Some(value: T) {
    function GetOr(default: T): T {
      match this
      case Some(v) => v
      case None => default
    }
  }

  /** Success, or the `ValueError` the pipeline raises, as a value. */
  datatype Result<+R, +E> = Success(value: R) | Failure(error: E)

  predicate NoDuplicates<T(==)>(s: seq<T>) {
    forall i, j :: 0 <= i < j < |s| ==> s[i] != s[j]
  }

  /** `drop_duplicates()` with pandas' default keep="first": element s[i]
      survives exactly when it does not already occur in s[..i], and the
      survivors keep their relative order. */
  function FirstOccurrences<T(==)>(s: seq<T>): seq<T>
  {
    if s == [] then []
    else
      var init := s[..|s| - 1];
      FirstOccurrences(init) + (if s[|s| - 1] in init then [] else [s[|s| - 1]])
  }

  /** Dropping duplicates loses no value and invents none. */
  lemma {:induction false} FirstOccurrencesElements<T>(s: seq<T>)
    ensures forall x :: x in FirstOccurrences(s) <==> x in s
  {
    if s != [] {
      var init := s[..|s| - 1];
      FirstOccurrencesElements(init);
      assert s == init + [s[|s| - 1]];
    }
  }

  /** After dropping duplicates no two rows are identical. */
  lemma {:induction false} FirstOccurrencesNoDuplicates<T>(s: seq<T>)
    ensures NoDuplicates(FirstOccurrences(s))
  {
    if s != [] {
      var init := s[..|s| - 1];
      FirstOccurrencesNoDuplicates(init);
      FirstOccurrencesElements(init);
    }
  }

  /** Dropping duplicates from rows that are already distinct changes nothing. */
  lemma {:induction false} FirstOccurrencesOfDistinct<T>(s: seq<T>)
    requires NoDuplicates(s)
    ensures FirstOccurrences(s) == s
  {
    if s != [] {
      var init := s[..|s| - 1];
      assert NoDuplicates(init);
      FirstOccurrencesOfDistinct(init);
      assert s[|s| - 1] !in init by {
        forall i | 0 <= i < |init| ensures init[i] != s[|s| - 1] {
          assert init[i] == s[i];
        }
      }
      assert s == init + [s[|s| - 1]];
    }
  }

  /** A surviving row is a row of the input. */
  lemma FirstOccurrencesMember<T>(s: seq<T>, x: T)
    requires x in FirstOccurrences(s)
    ensures x in s
  {
    FirstOccurrencesElements(s);
  }

  /** The position of the first occurrence of `x` in `s`; `|s|` when there is none. */
  function FirstIndex<T(==)>(s: seq<T>, x: T): (r: nat)
    ensures r <= |s|
    ensures r < |s| <==> x in s
    ensures r < |s| ==> s[r] == x
    ensures forall j :: 0 <= j < r ==> s[j] != x
  {
    if s == [] then 0
    else if s[0] == x then 0
    else 1 + FirstIndex(s[1..], x)
  }

  /** The survivors of `drop_duplicates()` appear in the order in which their
      values first occur in the input. Together with `FirstOccurrencesElements`
      and `FirstOccurrencesNoDuplicates` this fixes the result completely. */
  lemma {:induction false} FirstOccurrencesOrder<T>(s: seq<T>)
    ensures var r := FirstOccurrences(s);
      forall i, j :: 0 <= i < j < |r| ==> FirstIndex(s, r[i]) < FirstIndex(s, r[j])
  {
    if s != [] {
      var n := |s| - 1;
      var init := s[..n];
      FirstOccurrencesOrder(init);
      FirstOccurrencesElements(init);
      FirstOccurrencesElements(s);
      var r' := FirstOccurrences(init);
      var r := FirstOccurrences(s);
      assert s == init + [s[n]];
      assert r == r' + (if s[n] in init then [] else [s[n]]);
      forall x | x in init ensures FirstIndex(s, x) == FirstIndex(init, x) {
        var a := FirstIndex(s, x);
        var b := FirstIndex(init, x);
        assert s[b] == x;
        assert a <= b;
        assert init[a] == x;
      }
      forall i, j | 0 <= i < j < |r| ensures FirstIndex(s, r[i]) < FirstIndex(s, r[j]) {
        assert r[i] == r'[i];
        FirstOccurrencesMember(init, r'[i]);
        if j < |r'| {
          assert r[j] == r'[j];
          FirstOccurrencesMember(init, r'[j]);
        } else {
          assert r[j] == s[n] && s[n] !in init;
          assert FirstIndex(s, r[j]) == n;
        }
      }
    }
  }

  /** Dropping duplicates twice is the same as dropping them once. */
  lemma FirstOccurrencesIdempotent<T>(s: seq<T>)
    ensures FirstOccurrences(FirstOccurrences(s)) == FirstOccurrences(s)
  {
    FirstOccurrencesNoDuplicates(s);
    FirstOccurrencesOfDistinct(FirstOccurrences(s));
  }

  /** `m` is what pandas' NaN-skipping max returns for `vs`: absent when every
      value is absent, otherwise a present value that bounds every other. */
  ghost predicate IsMaxOf(m: Option<int>, vs: seq<Option<int>>) {
    && (m.None? <==> forall i :: 0 <= i < |vs| ==> vs[i].None?)
    && (m.Some? ==>
          && (exists i :: 0 <= i < |vs| && vs[i] == m)
          && (forall i :: 0 <= i < |vs| && vs[i].Some? ==> vs[i].value <= m.value))
  }

  function MaxOpt(a: Option<int>, b: Option<int>): Option<int> {
    match (a, b)
    case (None, _) => b
    case (_, None) => a
    case (Some(x), Some(y)) => Some(if x < y then y else x)
  }

  /** NaN-skipping maximum of a column. */
  function MaxAll(vs: seq<Option<int>>): (m: Option<int>)
    ensures IsMaxOf(m, vs)
  {
    if vs == [] then None
    else MaxOpt(MaxAll(vs[..|vs| - 1]), vs[|vs| - 1])
  }

  /** Plain sum of a column of integers. */
  function Sum(xs: seq<int>): int {
    if xs == [] then 0 else Sum(xs[..|xs| - 1]) + xs[|xs| - 1]
  }

  /** Sum of the entries of `xs` whose label is `b` (a `groupby(label).sum()` cell). */
  function SumWhere(labels: seq<string>, xs: seq<int>, b: string): int
    requires |labels| == |xs|
  {
    if xs == [] then 0
    else
      var n := |xs| - 1;
      SumWhere(labels[..n], xs[..n], b) + (if labels[n] == b then xs[n] else 0)
  }

  /** Sum, over the labels `bs` in order, of each label's group sum. */
  function SumOfGroups(labels: seq<string>, xs: seq<int>, bs: seq<string>): int
    requires |labels| == |xs|
  {
    if bs == [] then 0
    else SumOfGroups(labels, xs, bs[..|bs| - 1]) + SumWhere(labels, xs, bs[|bs| - 1])
  }

  /** Summing every entry equals summing the per-label group sums, when the
      label list names each label that occurs exactly once. */
  lemma {:induction false} SumRegroup(labels: seq<string>, xs: seq<int>, bs: seq<string>)
    requires |labels| == |xs|
    requires NoDuplicates(bs)
    requires forall i :: 0 <= i < |labels| ==> labels[i] in bs
    ensures Sum(xs) == SumOfGroups(labels, xs, bs)
  {
    if xs == [] {
      SumOfGroupsEmpty(labels, xs, bs);
    } else {
      var n := |xs| - 1;
      SumRegroup(labels[..n], xs[..n], bs);
      SumOfGroupsSplitLast(labels, xs, bs);
      Indicator(bs, labels[n], xs[n]);
    }
  }

  /** Sum over labels `bs` of `x` where the label equals `l`. */
  function SumIndicator(bs: seq<string>, l: string, x: int): int {
    if bs == [] then 0
    else SumIndicator(bs[..|bs| - 1], l, x) + (if bs[|bs| - 1] == l then x else 0)
  }

  lemma {:induction false} SumOfGroupsEmpty(labels: seq<string>, xs: seq<int>, bs: seq<string>)
    requires |labels| == |xs| == 0
    ensures SumOfGroups(labels, xs, bs) == 0
  {
    if bs != [] {
      SumOfGroupsEmpty(labels, xs, bs[..|bs| - 1]);
    }
  }

  /** Adding one more entry adds it to the group of its own label. */
  lemma {:induction false} SumOfGroupsSplitLast(labels: seq<string>, xs: seq<int>, bs: seq<string>)
    requires |labels| == |xs| > 0
    ensures var n := |xs| - 1;
      SumOfGroups(labels, xs, bs)
        == SumOfGroups(labels[..n], xs[..n], bs) + SumIndicator(bs, labels[n], xs[n])
  {
    if bs != [] {
      SumOfGroupsSplitLast(labels, xs, bs[..|bs| - 1]);
    }
  }

  /** A label listed exactly once picks up its entry exactly once. */
  lemma {:induction false} Indicator(bs: seq<string>, l: string, x: int)
    requires NoDuplicates(bs)
    ensures SumIndicator(bs, l, x) == if l in bs then x else 0
  {
    if bs != [] {
      var init := bs[..|bs| - 1];
      assert NoDuplicates(init);
      Indicator(init, l, x);
      assert bs == init + [bs[|bs| - 1]];
      if bs[|bs| - 1] == l {
        assert l !in init by {
          forall i | 0 <= i < |init| ensures init[i] != l {
            assert init[i] == bs[i];
          }
        }
      }
    }
  }

  /** The group sums, added label by label, are the plain sum of their list. */
  lemma {:induction false} SumOfGroupsAsSum(labels: seq<string>, xs: seq<int>, bs: seq<string>)
    requires |labels| == |xs|
    ensures SumOfGroups(labels, xs, bs)
      == Sum(seq(|bs|, j requires 0 <= j < |bs| => SumWhere(labels, xs, bs[j])))
  {
    if bs != [] {
      var n := |bs| - 1;
      SumOfGroupsAsSum(labels, xs, bs[..n]);
      var whole := seq(|bs|, j requires 0 <= j < |bs| => SumWhere(labels, xs, bs[j]));
      assert whole[..n] == seq(n, j requires 0 <= j < n => SumWhere(labels, xs, bs[..n][j]));
    }
  }

  /** A maximum carries over to a second column when every present value of
      the second is bounded by a present value of the first and every present
      value of the first occurs in the second. */
  lemma IsMaxOfTransfer(m: Option<int>, ws: seq<Option<int>>, cs: seq<Option<int>>)
    requires IsMaxOf(m, ws)
    requires forall i :: 0 <= i < |cs| && cs[i].Some? ==>
      exists j :: 0 <= j < |ws| && ws[j].Some? && cs[i].value <= ws[j].value
    requires forall j :: 0 <= j < |ws| && ws[j].Some? ==> exists i :: 0 <= i < |cs| && cs[i] == ws[j]
    ensures IsMaxOf(m, cs)
  {
  }
}
