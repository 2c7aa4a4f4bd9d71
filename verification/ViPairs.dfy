/** internal/editor/vi.go: bracket and quote text objects. */
module ViPairs {
  import opened Buffers

  /** Openers minus closers in text[..k]. */
  function Height(text: seq<char>, open: char, close: char, k: nat): int
    requires k <= |text|
  {
    if k == 0 then 0
    else Height(text, open, close, k - 1) +
         (if text[k - 1] == open then 1 else if text[k - 1] == close then -1 else 0)
  }

  /** text[i..j] is balanced: no prefix closes more than it opens, and nothing is left open. */
  ghost predicate Balanced(text: seq<char>, open: char, close: char, i: nat, j: nat)
    requires i <= j <= |text|
  {
    && Height(text, open, close, j) == Height(text, open, close, i)
    && forall k :: i <= k <= j ==> Height(text, open, close, k) >= Height(text, open, close, i)
  }

  /** A matching pair of delimiters at l and r with the character at c on or between them. */
  ghost predicate Encloses(text: seq<char>, open: char, close: char, l: int, r: int, c: nat) {
    && 0 <= l <= c <= r < |text| && l < r
    && text[l] == open && text[r] == close
    && Balanced(text, open, close, l + 1, r)
  }

  ghost predicate Innermost(text: seq<char>, open: char, close: char, l: int, r: int, c: nat) {
    && Encloses(text, open, close, l, r, c)
    && forall l', r' :: Encloses(text, open, close, l', r', c) ==> l' <= l && r <= r'
  }

  /** The innermost pair is unique, so the span returned is determined. */
  lemma InnermostUnique(text: seq<char>, open: char, close: char, l: int, r: int, l': int, r': int, c: nat)
    requires Innermost(text, open, close, l, r, c) && Innermost(text, open, close, l', r', c)
    ensures l == l' && r == r'
  {
    assert Encloses(text, open, close, l, r, c) && Encloses(text, open, close, l', r', c);
  }

  /** What the leftward scan stops at: the last opener before c left open when c is reached. */
  ghost predicate LeftEdge(text: seq<char>, open: char, close: char, l: int, c: nat)
    requires c < |text|
  {
    if text[c] == open then l == c
    else
      && 0 <= l < c && text[l] == open
      && Height(text, open, close, l) == Height(text, open, close, c) - 1
      && forall k :: l < k <= c ==> Height(text, open, close, k) >= Height(text, open, close, c)
  }

  /** Where there is no such opener. */
  ghost predicate NoLeftEdge(text: seq<char>, open: char, close: char, c: nat)
    requires c < |text|
  {
    text[c] != open &&
    forall k :: 0 <= k <= c ==> Height(text, open, close, k) >= Height(text, open, close, c)
  }

  /** Every enclosing pair starts at the left edge or further out. */
  lemma EnclosesOutside(text: seq<char>, open: char, close: char, l: int, c: nat, l': int, r': int)
    requires open != close && c < |text|
    requires LeftEdge(text, open, close, l, c) && Encloses(text, open, close, l', r', c)
    ensures l' <= l
    ensures l' < l ==> Height(text, open, close, l') < Height(text, open, close, l)
  {
    assert Height(text, open, close, l' + 1) == Height(text, open, close, l') + 1;
    if l' < c { assert Height(text, open, close, c) >= Height(text, open, close, l' + 1); }
    if l' < l < c { assert Height(text, open, close, l) >= Height(text, open, close, l' + 1); }
  }

  lemma EnclosesLeavesOpener(text: seq<char>, open: char, close: char, c: nat, l: int, r: int)
    requires open != close && Encloses(text, open, close, l, r, c)
    ensures !NoLeftEdge(text, open, close, c)
  {
    if l < c {
      assert Height(text, open, close, l + 1) == Height(text, open, close, l) + 1;
      assert Height(text, open, close, c) >= Height(text, open, close, l + 1);
    }
  }

  /** The leftward depth scan. */
  method ScanLeft(text: seq<char>, open: char, close: char, c: nat) returns (l: int)
    requires open != close && c < |text|
    ensures l >= 0 ==> LeftEdge(text, open, close, l, c)
    ensures l < 0 ==> NoLeftEdge(text, open, close, c)
  {
    l := c;
    if text[c] == open {
      return;
    }
    var depth := 0;
    while l >= 0
      invariant -1 <= l <= c && depth >= 0
      invariant l == c ==> depth == 0
      invariant l < c ==> depth == Height(text, open, close, l + 1) - Height(text, open, close, c)
      invariant forall k :: l < k <= c ==> Height(text, open, close, k) >= Height(text, open, close, c)
    {
      if text[l] == close && l != c {
        depth := depth + 1;
      } else if text[l] == open {
        if depth == 0 {
          return;
        }
        depth := depth - 1;
      }
      l := l - 1;
    }
  }

  /** The forward depth scan: the first place right of the opener where the height falls below. */
  method ScanRight(text: seq<char>, open: char, close: char, l: nat) returns (r: nat)
    requires open != close && l < |text|
    ensures l < r <= |text|
    ensures forall k :: l + 1 <= k <= r ==> Height(text, open, close, k) >= Height(text, open, close, l + 1)
    ensures r < |text| ==> text[r] == close && Balanced(text, open, close, l + 1, r)
  {
    r := l + 1;
    var depth := 0;
    while r < |text|
      invariant l < r <= |text| && depth >= 0
      invariant depth == Height(text, open, close, r) - Height(text, open, close, l + 1)
      invariant forall k :: l + 1 <= k <= r ==> Height(text, open, close, k) >= Height(text, open, close, l + 1)
    {
      if text[r] == open {
        depth := depth + 1;
      } else if text[r] == close {
        if depth == 0 {
          return;
        }
        depth := depth - 1;
      }
      r := r + 1;
    }
  }

  /** The two scans agree: what is found is the innermost pair, and it does enclose the cursor. */
  lemma ScansMeet(text: seq<char>, open: char, close: char, l: nat, r: nat, c: nat)
    requires open != close && c < |text| && LeftEdge(text, open, close, l, c)
    requires l < r <= |text|
    requires forall k :: l + 1 <= k <= r ==> Height(text, open, close, k) >= Height(text, open, close, l + 1)
    requires r < |text| ==> text[r] == close && Balanced(text, open, close, l + 1, r)
    ensures r < |text| ==> Innermost(text, open, close, l, r, c)
    ensures r == |text| ==> forall l', r' :: !Encloses(text, open, close, l', r', c)
  {
    assert Height(text, open, close, l + 1) == Height(text, open, close, l) + 1;
    if r < |text| {
      assert Height(text, open, close, r + 1) == Height(text, open, close, r) - 1;
      assert c <= r;
    }
    forall l', r' | Encloses(text, open, close, l', r', c)
      ensures r < |text| && l' <= l && r <= r'
    {
      EnclosesOutside(text, open, close, l, c, l', r');
      assert Height(text, open, close, r' + 1) == Height(text, open, close, r') - 1;
      assert Height(text, open, close, l' + 1) == Height(text, open, close, l') + 1;
      assert Height(text, open, close, r' + 1) < Height(text, open, close, l + 1);
    }
  }

  // --- identical delimiters ---

  /** The unescaped quotes in text[i..end], left to right. */
  function Quotes(text: seq<char>, q: char, i: nat, end: nat): seq<nat>
    requires i <= end <= |text|
    decreases end - i
  {
    if i == end then []
    else (if text[i] == q && (i == 0 || text[i - 1] != '\\') then [i] else []) + Quotes(text, q, i + 1, end)
  }

  lemma {:induction false} QuotesSnoc(text: seq<char>, q: char, i: nat, end: nat)
    requires i <= end < |text|
    ensures Quotes(text, q, i, end + 1) ==
            Quotes(text, q, i, end) + (if text[end] == q && (end == 0 || text[end - 1] != '\\') then [end] else [])
    decreases end - i
  {
    if i < end {
      QuotesSnoc(text, q, i + 1, end);
    }
  }

  /** The quotes of the cursor's line, paired up from its start. */
  function LineQuotes(text: seq<char>, q: char, cursor: nat): seq<nat>
    requires cursor <= |text|
  {
    Quotes(text, q, RunStart(text, cursor, IN_LINE), RunEnd(text, cursor, IN_LINE))
  }

  /** Pair number m is the first one that ends at or after the cursor. */
  ghost predicate FirstPair(positions: seq<nat>, cursor: nat, m: nat) {
    && 2 * m + 1 < |positions| && cursor <= positions[2 * m + 1]
    && forall k: nat :: k < m ==> positions[2 * k + 1] < cursor
  }

  function SpanOf(l: int, r: int, around: bool): (int, int) {
    if around then (l, r + 1) else (l + 1, r)
  }

  /** An inner span is what stands between the delimiters; the span around it has both of them. */
  lemma SpanDelimits(text: seq<char>, l: nat, r: nat, around: bool)
    requires l < r < |text|
    ensures var (from, to) := SpanOf(l, r, around);
            0 <= from <= to <= |text| &&
            text[from..to] == if around then [text[l]] + text[l + 1..r] + [text[r]] else text[l + 1..r]
  {
  }

  method QuoteSpan(b: Buffer, q: char, around: bool) returns (span: (int, int), ok: bool)
    requires b.Valid()
    ensures ok <==> exists m: nat :: FirstPair(LineQuotes(b.text, q, b.cursor), b.cursor, m)
    ensures forall m: nat :: FirstPair(LineQuotes(b.text, q, b.cursor), b.cursor, m) ==>
              span == SpanOf(LineQuotes(b.text, q, b.cursor)[2 * m], LineQuotes(b.text, q, b.cursor)[2 * m + 1], around)
  {
    var lineStart := b.ScanBack(b.cursor, IN_LINE);
    var lineEnd := b.ScanForward(b.cursor, IN_LINE);
    var positions: seq<nat> := [];
    for i := lineStart to lineEnd
      invariant positions == Quotes(b.text, q, lineStart, i)
    {
      QuotesSnoc(b.text, q, lineStart, i);
      if b.text[i] == q && (i == 0 || b.text[i - 1] != '\\') {
        positions := positions + [i];
      }
    }
    assert positions == LineQuotes(b.text, q, b.cursor);
    var i, m := 0, 0;
    while i + 1 < |positions|
      invariant i == 2 * m
      invariant forall k: nat :: k < m && 2 * k + 1 < |positions| ==> positions[2 * k + 1] < b.cursor
    {
      var l, r := positions[i], positions[i + 1];
      if b.cursor <= r {
        assert FirstPair(LineQuotes(b.text, q, b.cursor), b.cursor, m);
        return SpanOf(l, r, around), true;
      }
      i, m := i + 2, m + 1;
    }
    return (0, 0), false;
  }

  /** Sound, complete and innermost. */
  method PairSpan(b: Buffer, open: char, close: char, around: bool) returns (span: (int, int), ok: bool)
    requires b.Valid() && (open != close ==> b.cursor < |b.text|)
    ensures open != close ==> (ok <==> exists l, r :: Encloses(b.text, open, close, l, r, b.cursor))
    ensures open != close && ok ==>
              exists l, r :: Innermost(b.text, open, close, l, r, b.cursor) && span == SpanOf(l, r, around)
    ensures open == close ==>
              && (ok <==> exists m: nat :: FirstPair(LineQuotes(b.text, open, b.cursor), b.cursor, m))
              && forall m: nat :: FirstPair(LineQuotes(b.text, open, b.cursor), b.cursor, m) ==>
                   span == SpanOf(LineQuotes(b.text, open, b.cursor)[2 * m],
                                  LineQuotes(b.text, open, b.cursor)[2 * m + 1], around)
  {
    if open == close {
      span, ok := QuoteSpan(b, open, around);
      return;
    }
    var l := ScanLeft(b.text, open, close, b.cursor);
    if l < 0 {
      forall l, r | Encloses(b.text, open, close, l, r, b.cursor) ensures false {
        EnclosesLeavesOpener(b.text, open, close, b.cursor, l, r);
      }
      return (0, 0), false;
    }
    var r := ScanRight(b.text, open, close, l);
    ScansMeet(b.text, open, close, l, r, b.cursor);
    if r >= |b.text| {
      return (0, 0), false;
    }
    return SpanOf(l, r, around), true;
  }
}
