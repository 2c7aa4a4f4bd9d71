/** internal/compat/bashsuite.go: scoring agreement between two outputs by a rolling-row LCS. */
module Lcs {
  import opened Text

  /** idx picks the elements of c out of s, left to right. */
  ghost predicate Embeds<T>(c: seq<T>, s: seq<T>, idx: seq<nat>) {
    && |idx| == |c|
    && (forall p :: 0 <= p < |idx| ==> idx[p] < |s| && s[idx[p]] == c[p])
    && (forall p, q :: 0 <= p < q < |idx| ==> idx[p] < idx[q])
  }

  ghost predicate Subsequence<T>(c: seq<T>, s: seq<T>) {
    exists idx: seq<nat> :: Embeds(c, s, idx)
  }

  ghost predicate Common<T>(c: seq<T>, a: seq<T>, b: seq<T>) {
    Subsequence(c, a) && Subsequence(c, b)
  }

  /** n is the length of a longest common subsequence of a and b. */
  ghost predicate LongestCommon<T(!new)>(n: int, a: seq<T>, b: seq<T>) {
    && (exists c :: Common(c, a, b) && |c| == n)
    && (forall c :: Common(c, a, b) ==> |c| <= n)
  }

  /** The table cell the dynamic program fills for the prefixes a[..i] and b[..j]. */
  function Cell<T(==)>(a: seq<T>, b: seq<T>, i: nat, j: nat): nat
    requires i <= |a| && j <= |b|
  {
    if i == 0 || j == 0 then 0
    else if a[i - 1] == b[j - 1] then Cell(a, b, i - 1, j - 1) + 1
    else if Cell(a, b, i - 1, j) >= Cell(a, b, i, j - 1) then Cell(a, b, i - 1, j)
    else Cell(a, b, i, j - 1)
  }

  lemma EmbedEmpty<T>(s: seq<T>)
    ensures Subsequence([], s)
  {
    assert Embeds([], s, []);
  }

  /** A subsequence of a prefix is a subsequence of the longer prefix. */
  lemma EmbedLonger<T>(c: seq<T>, s: seq<T>, i: nat)
    requires i < |s| && Subsequence(c, s[..i])
    ensures Subsequence(c, s[..i + 1])
  {
    var idx: seq<nat> :| Embeds(c, s[..i], idx);
    assert Embeds(c, s[..i + 1], idx);
  }

  lemma EmbedSnoc<T>(c: seq<T>, s: seq<T>, i: nat)
    requires i < |s| && Subsequence(c, s[..i])
    ensures Subsequence(c + [s[i]], s[..i + 1])
  {
    var idx: seq<nat> :| Embeds(c, s[..i], idx);
    assert Embeds(c + [s[i]], s[..i + 1], idx + [i]);
  }

  /** Dropping the last element leaves a subsequence of one element less. */
  lemma EmbedFront<T>(c: seq<T>, s: seq<T>, i: nat)
    requires i < |s| && |c| > 0 && Subsequence(c, s[..i + 1])
    ensures Subsequence(c[..|c| - 1], s[..i])
    ensures c[|c| - 1] != s[i] ==> Subsequence(c, s[..i])
  {
    var idx: seq<nat> :| Embeds(c, s[..i + 1], idx);
    assert idx[|c| - 1] <= i;
    assert forall p :: 0 <= p < |c| - 1 ==> idx[p] < idx[|c| - 1];
    assert Embeds(c[..|c| - 1], s[..i], idx[..|c| - 1]);
    if c[|c| - 1] != s[i] {
      assert idx[|c| - 1] != i;
      assert Embeds(c, s[..i], idx);
    }
  }

  /** Some common subsequence is as long as the cell says. */
  lemma {:induction false} CellReached<T>(a: seq<T>, b: seq<T>, i: nat, j: nat) returns (c: seq<T>)
    requires i <= |a| && j <= |b|
    ensures Common(c, a[..i], b[..j]) && |c| == Cell(a, b, i, j)
    decreases i + j
  {
    if i == 0 || j == 0 {
      c := [];
      EmbedEmpty(a[..i]);
      EmbedEmpty(b[..j]);
    } else if a[i - 1] == b[j - 1] {
      var d := CellReached(a, b, i - 1, j - 1);
      c := d + [a[i - 1]];
      EmbedSnoc(d, a, i - 1);
      EmbedSnoc(d, b, j - 1);
    } else if Cell(a, b, i - 1, j) >= Cell(a, b, i, j - 1) {
      c := CellReached(a, b, i - 1, j);
      EmbedLonger(c, a, i - 1);
    } else {
      c := CellReached(a, b, i, j - 1);
      EmbedLonger(c, b, j - 1);
    }
  }

  /** No common subsequence is longer than the cell says. */
  lemma {:induction false} CellBounds<T>(a: seq<T>, b: seq<T>, i: nat, j: nat, c: seq<T>)
    requires i <= |a| && j <= |b| && Common(c, a[..i], b[..j])
    ensures |c| <= Cell(a, b, i, j)
    decreases i + j
  {
    if |c| == 0 {
    } else if i == 0 || j == 0 {
    } else {
      var last := c[|c| - 1];
      EmbedFront(c, a, i - 1);
      EmbedFront(c, b, j - 1);
      if a[i - 1] == b[j - 1] {
        CellBounds(a, b, i - 1, j - 1, c[..|c| - 1]);
      } else if last != a[i - 1] {
        CellBounds(a, b, i - 1, j, c);
      } else {
        CellBounds(a, b, i, j - 1, c);
      }
    }
  }

  /** The last cell of the table is the length of a longest common subsequence. */
  lemma CellIsLongest<T(!new)>(a: seq<T>, b: seq<T>)
    ensures LongestCommon(Cell(a, b, |a|, |b|), a, b)
  {
    var w := WholeReached(a, b);
    forall c | Common(c, a, b)
      ensures |c| <= Cell(a, b, |a|, |b|)
    {
      WholeBounds(a, b, c);
    }
  }

  lemma WholeReached<T>(a: seq<T>, b: seq<T>) returns (c: seq<T>)
    ensures Common(c, a, b) && |c| == Cell(a, b, |a|, |b|)
  {
    assert a[..|a|] == a && b[..|b|] == b;
    c := CellReached(a, b, |a|, |b|);
  }

  lemma WholeBounds<T>(a: seq<T>, b: seq<T>, c: seq<T>)
    requires Common(c, a, b)
    ensures |c| <= Cell(a, b, |a|, |b|)
  {
    assert a[..|a|] == a && b[..|b|] == b;
    CellBounds(a, b, |a|, |b|, c);
  }

  /** The longest length is unique, so the contract of Agreement pins its answer. */
  lemma LongestUnique<T(!new)>(m: int, n: int, a: seq<T>, b: seq<T>)
    requires LongestCommon(m, a, b) && LongestCommon(n, a, b)
    ensures m == n
  {
    var c :| Common(c, a, b) && |c| == m;
    var d :| Common(d, a, b) && |d| == n;
  }

  /** The first n entries of row are row i of the table. */
  ghost predicate IsRow<T>(row: seq<nat>, a: seq<T>, b: seq<T>, i: nat, n: nat)
    requires i <= |a| && n <= |b| + 1
  {
    n <= |row| && forall j :: 0 <= j < n ==> row[j] == Cell(a, b, i, j)
  }

  /** The inner loop: row i of the table from row i - 1, whatever cur held beyond its first entry. */
  method FillRow(b: seq<string>, k: seq<string>, i: nat, prev: array<nat>, cur: array<nat>)
    requires 1 <= i <= |b|
    requires prev != cur && prev.Length == cur.Length == |k| + 1
    requires cur[0] == 0 && IsRow(prev[..], b, k, i - 1, |k| + 1)
    modifies cur
    ensures cur[0] == 0 && IsRow(cur[..], b, k, i, |k| + 1)
  {
    var j := 1;
    while j <= |k|
      invariant 1 <= j <= |k| + 1
      invariant IsRow(cur[..], b, k, i, j)
    {
      if b[i - 1] == k[j - 1] {
        cur[j] := prev[j - 1] + 1;
      } else if prev[j] >= cur[j - 1] {
        cur[j] := prev[j];
      } else {
        cur[j] := cur[j - 1];
      }
      assert cur[j] == Cell(b, k, i, j);
      j := j + 1;
    }
  }

  /** Two rows, swapped after every line and never cleared. */
  method Agreement(bashOut: string, koiOut: string) returns (total: nat, matched: nat)
    ensures total == |Split(bashOut, '\n')|
    ensures LongestCommon(matched, Split(bashOut, '\n'), Split(koiOut, '\n'))
  {
    var b, k := Split(bashOut, '\n'), Split(koiOut, '\n');
    total := |b|;
    var prev, cur := new nat[|k| + 1](_ => 0), new nat[|k| + 1](_ => 0);
    var i := 1;
    while i <= |b|
      invariant 1 <= i <= |b| + 1
      invariant prev != cur && prev.Length == cur.Length == |k| + 1
      invariant cur[0] == 0 && IsRow(prev[..], b, k, i - 1, |k| + 1)
      invariant fresh(prev) && fresh(cur)
    {
      FillRow(b, k, i, prev, cur);
      prev, cur := cur, prev;
      i := i + 1;
    }
    matched := prev[|k|];
    CellIsLongest(b, k);
  }
}
