/** internal/editor/vi.go: the word motions. */
module ViWords {
  import opened Buffers

  /** 0 for blanks; a WORD is any other run, a word is a run of word characters or of punctuation. */
  function Class(a: Alphabet, c: char, big: bool): nat {
    if a.space(c) then 0 else if big || a.word(c) then 1 else 2
  }

  predicate WordStart(a: Alphabet, text: seq<char>, big: bool, j: nat)
    requires j < |text|
  {
    Class(a, text[j], big) != 0 && (j == 0 || Class(a, text[j - 1], big) != Class(a, text[j], big))
  }

  predicate WordEnd(a: Alphabet, text: seq<char>, big: bool, j: nat)
    requires j < |text|
  {
    Class(a, text[j], big) != 0 && (j + 1 == |text| || Class(a, text[j + 1], big) != Class(a, text[j], big))
  }

  /** A WORD starts at a non-blank after a blank; a word also where word characters meet others. */
  lemma StartsExactly(a: Alphabet, text: seq<char>, big: bool, j: nat)
    requires j < |text|
    ensures WordStart(a, text, big, j) <==>
            !a.space(text[j]) &&
            (j == 0 || a.space(text[j - 1]) || (!big && a.word(text[j - 1]) != a.word(text[j])))
  {
  }

  lemma EndsExactly(a: Alphabet, text: seq<char>, big: bool, j: nat)
    requires j < |text|
    ensures WordEnd(a, text, big, j) <==>
            !a.space(text[j]) &&
            (j + 1 == |text| || a.space(text[j + 1]) || (!big && a.word(text[j + 1]) != a.word(text[j])))
  {
  }

  /** The least word start above i, or the end of the text. */
  function NextStart(a: Alphabet, text: seq<char>, big: bool, i: nat): (r: nat)
    ensures r <= |text| && (i < |text| ==> i < r)
    ensures forall k :: i < k < r ==> !WordStart(a, text, big, k)
    ensures r < |text| ==> WordStart(a, text, big, r)
    decreases |text| - i
  {
    if i + 1 >= |text| then |text|
    else if WordStart(a, text, big, i + 1) then i + 1
    else NextStart(a, text, big, i + 1)
  }

  /** The greatest word start below i, or 0. */
  function PrevStart(a: Alphabet, text: seq<char>, big: bool, i: nat): (r: nat)
    requires i <= |text|
    ensures r <= i && (0 < i ==> r < i)
    ensures forall k :: r < k < i ==> !WordStart(a, text, big, k)
    ensures r > 0 ==> WordStart(a, text, big, r)
  {
    if i == 0 then 0
    else if WordStart(a, text, big, i - 1) then i - 1
    else PrevStart(a, text, big, i - 1)
  }

  /** The least word end above i, or the last index. */
  function NextEnd(a: Alphabet, text: seq<char>, big: bool, i: nat): (r: nat)
    ensures |text| > 0 ==> r < |text|
    ensures |text| == 0 ==> r == 0
    ensures i + 1 < |text| ==> i < r
    ensures forall k :: i < k < r ==> !WordEnd(a, text, big, k)
    ensures i < r && r + 1 < |text| ==> WordEnd(a, text, big, r)
    decreases |text| - i
  {
    if i + 1 >= |text| then (if |text| == 0 then 0 else |text| - 1)
    else if WordEnd(a, text, big, i + 1) then i + 1
    else NextEnd(a, text, big, i + 1)
  }

  /** These properties determine the three positions. */
  lemma {:induction false} NextStartIs(a: Alphabet, text: seq<char>, big: bool, i: nat, r: nat)
    requires i < r <= |text|
    requires forall k :: i < k < r ==> !WordStart(a, text, big, k)
    requires r < |text| ==> WordStart(a, text, big, r)
    ensures NextStart(a, text, big, i) == r
    decreases r - i
  {
    if i + 1 < r { NextStartIs(a, text, big, i + 1, r); }
  }

  lemma {:induction false} PrevStartIs(a: Alphabet, text: seq<char>, big: bool, i: nat, r: nat)
    requires r < i <= |text|
    requires forall k :: r < k < i ==> !WordStart(a, text, big, k)
    requires r > 0 ==> WordStart(a, text, big, r)
    ensures PrevStart(a, text, big, i) == r
  {
    if r + 1 < i { PrevStartIs(a, text, big, i - 1, r); }
  }

  lemma {:induction false} NextEndIs(a: Alphabet, text: seq<char>, big: bool, i: nat, r: nat)
    requires i < r < |text|
    requires forall k :: i < k < r ==> !WordEnd(a, text, big, k)
    requires r + 1 < |text| ==> WordEnd(a, text, big, r)
    ensures NextEnd(a, text, big, i) == r
    decreases r - i
  {
    if i + 1 < r { NextEndIs(a, text, big, i + 1, r); }
  }

  /** `w` */
  method WordForward(a: Alphabet, text: seq<char>, i: nat, big: bool) returns (r: nat)
    ensures r == NextStart(a, text, big, i)
  {
    if i >= |text| {
      return |text|;
    }
    r := i;
    var c := Class(a, text[i], big);
    if c != 0 {
      while r < |text| && Class(a, text[r], big) == c
        invariant i <= r <= |text|
        invariant forall k :: i <= k < r ==> Class(a, text[k], big) == c
      {
        r := r + 1;
      }
    }
    ghost var run := r;
    while r < |text| && Class(a, text[r], big) == 0
      invariant run <= r <= |text|
      invariant forall k :: run <= k < r ==> Class(a, text[k], big) == 0
    {
      r := r + 1;
    }
    NextStartIs(a, text, big, i, r);
  }

  /** `b` */
  method WordBack(a: Alphabet, text: seq<char>, i: nat, big: bool) returns (r: nat)
    requires i <= |text|
    ensures r == PrevStart(a, text, big, i)
  {
    if i <= 0 {
      return 0;
    }
    r := i - 1;
    while r > 0 && Class(a, text[r], big) == 0
      invariant r < i
      invariant forall k :: r < k < i ==> Class(a, text[k], big) == 0
    {
      r := r - 1;
    }
    var c := Class(a, text[r], big);
    ghost var run := r;
    while r > 0 && Class(a, text[r - 1], big) == c && c != 0
      invariant r <= run
      invariant forall k :: r <= k <= run ==> Class(a, text[k], big) == c
    {
      r := r - 1;
    }
    PrevStartIs(a, text, big, i, r);
  }

  /** `e` */
  method WordEndForward(a: Alphabet, text: seq<char>, i: nat, big: bool) returns (r: nat)
    ensures r == NextEnd(a, text, big, i)
  {
    if i + 1 >= |text| {
      return if |text| == 0 then 0 else |text| - 1;
    }
    r := i + 1;
    while r < |text| && Class(a, text[r], big) == 0
      invariant i < r <= |text|
      invariant forall k :: i < k < r ==> Class(a, text[k], big) == 0
    {
      r := r + 1;
    }
    if r >= |text| {
      NextEndIs(a, text, big, i, |text| - 1);
      return |text| - 1;
    }
    var c := Class(a, text[r], big);
    ghost var run := r;
    while r + 1 < |text| && Class(a, text[r + 1], big) == c
      invariant run <= r < |text|
      invariant forall k :: run <= k <= r ==> Class(a, text[k], big) == c
    {
      r := r + 1;
    }
    NextEndIs(a, text, big, i, r);
  }
}
