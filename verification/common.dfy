/** Small helpers shared by every game: an optional value, sums of integer
    sequences (accumulated left to right, as Python's built-in `sum` does)
    and per-player columns of a round-by-round history. */
module Common {

  /** A value that may be absent, such as a field left blank for a round. */
  datatype Option<+T> = None | Some(value: T)

  /** Sum of a sequence, adding the last element onto the sum of the prefix. */
  function Sum(s: seq<int>): int
  {
    if |s| == 0 then 0 else Sum(s[..|s| - 1]) + s[|s| - 1]
  }

  /** The last element of a non-empty sequence. */
  function Last<T>(s: seq<T>): T
    requires |s| > 0
  {
    s[|s| - 1]
  }

  /** A prefix of a prefix is a prefix. */
  lemma PrefixOfPrefix<T>(s: seq<T>, m: int, n: int)
    requires 0 <= n <= m <= |s|
    ensures s[..m][..n] == s[..n]
  {
  }

  /** Extending a prefix by one element adds that element to the sum. */
  lemma SumSnoc(s: seq<int>, i: int)
    requires 0 <= i < |s|
    ensures Sum(s[..i + 1]) == Sum(s[..i]) + s[i]
  {
    assert s[..i + 1][..i] == s[..i];
  }

  /** Every element in [lo, hi] bounds the sum by lo*|s| and hi*|s|. */
  lemma {:induction false} SumBounds(s: seq<int>, lo: int, hi: int)
    requires forall k :: 0 <= k < |s| ==> lo <= s[k] <= hi
    ensures lo * |s| <= Sum(s) <= hi * |s|
  {
    if |s| > 0 {
      var n := |s| - 1;
      SumBounds(s[..n], lo, hi);
      assert lo * |s| == lo * n + lo;
      assert hi * |s| == hi * n + hi;
    }
  }

  /** With non-negative elements the sum of a prefix never exceeds the sum of
      a longer prefix. */
  lemma {:induction false} SumPrefixMonotone(s: seq<int>, i: int, j: int)
    requires 0 <= i <= j <= |s|
    requires forall k :: 0 <= k < |s| ==> s[k] >= 0
    ensures Sum(s[..i]) <= Sum(s[..j])
    decreases j - i
  {
    if i < j {
      SumSnoc(s, j - 1);
      SumPrefixMonotone(s, i, j - 1);
    }
  }

  /** Column `i` of a round-by-round history: one player's values, round 1 first. */
  function Column(rows: seq<seq<int>>, i: int): (c: seq<int>)
    requires 0 <= i && forall k :: 0 <= k < |rows| ==> i < |rows[k]|
    ensures |c| == |rows|
    ensures forall k :: 0 <= k < |rows| ==> c[k] == rows[k][i]
  {
    seq(|rows|, k requires 0 <= k < |rows| => rows[k][i])
  }

  /** Taking a column commutes with taking a prefix of the rounds. */
  lemma ColumnPrefix(rows: seq<seq<int>>, i: int, n: int)
    requires 0 <= n <= |rows|
    requires 0 <= i && forall k :: 0 <= k < |rows| ==> i < |rows[k]|
    ensures Column(rows[..n], i) == Column(rows, i)[..n]
  {
  }
}
