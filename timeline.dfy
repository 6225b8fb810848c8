/**
  The time axis of the aggregated table: after `groupby(index)` and
  `sort_index()` the instants form a strictly ascending sequence with each
  instant once.
*/
module Timeline {

  predicate StrictlyIncreasing(s: seq<int>) {
    forall i, j :: 0 <= i < j < |s| ==> s[i] < s[j]
  }

  /** Adds `x` to an ascending, duplicate-free axis. */
  function Insert(s: seq<int>, x: int): (r: seq<int>)
    requires StrictlyIncreasing(s)
    ensures StrictlyIncreasing(r)
    ensures forall y :: y in r <==> y in s || y == x
  {
    if s == [] then [x]
    else if x < s[0] then [x] + s
    else if x == s[0] then s
    else
      var t := Insert(s[1..], x);
      assert forall k :: 0 <= k < |t| ==> t[k] in s[1..] || t[k] == x;
      [s[0]] + t
  }

  /** The distinct values of `s`, in ascending order. */
  function SortedDistinct(s: seq<int>): (r: seq<int>)
    ensures StrictlyIncreasing(r)
    ensures forall y :: y in r <==> y in s
  {
    if s == [] then []
    else Insert(SortedDistinct(s[..|s| - 1]), s[|s| - 1])
  }

  /** An ascending, duplicate-free axis is determined by its set of instants. */
  lemma {:induction false} StrictlyIncreasingUnique(a: seq<int>, b: seq<int>)
    requires StrictlyIncreasing(a) && StrictlyIncreasing(b)
    requires forall y :: y in a <==> y in b
    ensures a == b
  {
    assert a != [] ==> a[0] in a && a[0] in b;
    assert b != [] ==> b[0] in b && b[0] in a;
    if a != [] && b != [] {
      // the first element of each is the least of the shared set
      assert a[0] in a && b[0] in b;
      assert a[0] == b[0] by {
        var i :| 0 <= i < |b| && b[i] == a[0];
        var j :| 0 <= j < |a| && a[j] == b[0];
        assert b[0] <= b[i] && a[0] <= a[j];
      }
      forall y ensures y in a[1..] <==> y in b[1..] {
        if y in a[1..] {
          var i :| 1 <= i < |a| && a[i] == y;
          assert a[i] in a;
          var j :| 0 <= j < |b| && b[j] == y;
          assert j != 0;
          assert b[1..][j - 1] == y;
        }
        if y in b[1..] {
          var i :| 1 <= i < |b| && b[i] == y;
          assert b[i] in b;
          var j :| 0 <= j < |a| && a[j] == y;
          assert j != 0;
          assert a[1..][j - 1] == y;
        }
      }
      StrictlyIncreasingUnique(a[1..], b[1..]);
      assert a == [a[0]] + a[1..];
      assert b == [b[0]] + b[1..];
    }
  }

  /** On an ascending axis positions and instants are ordered alike. */
  lemma PositionOrder(s: seq<int>, i: nat, j: nat)
    requires StrictlyIncreasing(s)
    requires i < |s| && j < |s|
    ensures s[i] <= s[j] <==> i <= j
  {
  }
}
