/** internal/editor/buffer.go: the command text and its cursor. */
module Buffers {

  /** The Unicode tables the editor consults; nothing here depends on what they contain. */
  datatype Alphabet = Alphabet(word: char -> bool, space: char -> bool)

  /** Leftward from i while p holds: the start of the run of p that ends at i. */
  function RunStart(text: seq<char>, i: nat, p: char -> bool): (r: nat)
    requires i <= |text|
    ensures r <= i && (forall k :: r <= k < i ==> p(text[k])) && (r > 0 ==> !p(text[r - 1]))
  {
    if i > 0 && p(text[i - 1]) then RunStart(text, i - 1, p) else i
  }

  /** Rightward from i while p holds: the end of the run of p that starts at i. */
  function RunEnd(text: seq<char>, i: nat, p: char -> bool): (r: nat)
    requires i <= |text|
    ensures i <= r <= |text| && (forall k :: i <= k < r ==> p(text[k])) && (r < |text| ==> !p(text[r]))
    decreases |text| - i
  {
    if i < |text| && p(text[i]) then RunEnd(text, i + 1, p) else i
  }

  function Not(p: char -> bool): char -> bool { c => !p(c) }

  const IN_LINE: char -> bool := c => c != '\n'

  class Buffer {
    const alphabet: Alphabet
    var text: seq<char>
    var cursor: nat

    ghost predicate Valid()
      reads this
    {
      cursor <= |text|
    }

    constructor (alphabet: Alphabet)
      ensures Valid() && text == [] && this.alphabet == alphabet
    {
      this.alphabet := alphabet;
      text, cursor := [], 0;
    }

    method Insert(s: seq<char>)
      requires Valid()
      modifies this
      ensures Valid() && cursor == old(cursor) + |s|
      ensures text == old(text[..cursor]) + s + old(text[cursor..])
    {
      text := text[..cursor] + s + text[cursor..];
      cursor := cursor + |s|;
    }

    method DeleteRange(from: nat, to: nat) returns (killed: seq<char>)
      requires Valid() && to <= |text|
      modifies this
      ensures Valid()
      ensures from >= to ==> killed == [] && text == old(text) && cursor == old(cursor)
      ensures from < to ==>
                && killed == old(text[from..to]) && text == old(text[..from] + text[to..])
                && cursor == if old(cursor) >= to then old(cursor) - (to - from)
                             else if old(cursor) > from then from else old(cursor)
    {
      if from >= to {
        return [];
      }
      killed := text[from..to];
      text := text[..from] + text[to..];
      if cursor >= to {
        cursor := cursor - (to - from);
      } else if cursor > from {
        cursor := from;
      }
    }

    method ScanBack(i: nat, p: char -> bool) returns (r: nat)
      requires i <= |text|
      ensures r == RunStart(text, i, p)
    {
      r := i;
      while r > 0 && p(text[r - 1])
        invariant r <= i && RunStart(text, r, p) == RunStart(text, i, p)
      {
        r := r - 1;
      }
    }

    method ScanForward(i: nat, p: char -> bool) returns (r: nat)
      requires i <= |text|
      ensures r == RunEnd(text, i, p)
    {
      r := i;
      while r < |text| && p(text[r])
        invariant r <= |text| && RunEnd(text, r, p) == RunEnd(text, i, p)
      {
        r := r + 1;
      }
    }

    /** The removed text stood directly left of the cursor, from `start` on. */
    twostate predicate KilledBack(start: nat, killed: seq<char>)
      reads this
    {
      && old(Valid()) && start <= old(cursor)
      && killed == old(text)[start..old(cursor)]
      && text == old(text)[..start] + old(text)[old(cursor)..] && cursor == start
    }

    /** The removed text stood directly right of the cursor, up to `end`. */
    twostate predicate KilledForward(end: nat, killed: seq<char>)
      reads this
    {
      && old(Valid()) && old(cursor) <= end <= |old(text)|
      && killed == old(text)[old(cursor)..end]
      && text == old(text)[..old(cursor)] + old(text)[end..] && cursor == old(cursor)
    }

    method KillWordBack() returns (killed: seq<char>)
      requires Valid()
      modifies this
      ensures Valid()
      ensures var end := RunStart(old(text), old(cursor), Not(alphabet.word));
              KilledBack(RunStart(old(text), end, alphabet.word), killed)
    {
      var i := ScanBack(cursor, Not(alphabet.word));
      i := ScanBack(i, alphabet.word);
      killed := DeleteRange(i, cursor);
    }

    method KillWordForward() returns (killed: seq<char>)
      requires Valid()
      modifies this
      ensures Valid()
      ensures var start := RunEnd(old(text), old(cursor), Not(alphabet.word));
              KilledForward(RunEnd(old(text), start, alphabet.word), killed)
    {
      var i := ScanForward(cursor, Not(alphabet.word));
      i := ScanForward(i, alphabet.word);
      killed := DeleteRange(cursor, i);
    }

    method KillToWhitespace() returns (killed: seq<char>)
      requires Valid()
      modifies this
      ensures Valid()
      ensures var end := RunStart(old(text), old(cursor), alphabet.space);
              KilledBack(RunStart(old(text), end, Not(alphabet.space)), killed)
    {
      var i := ScanBack(cursor, alphabet.space);
      i := ScanBack(i, Not(alphabet.space));
      killed := DeleteRange(i, cursor);
    }

    method KillToLineEnd() returns (killed: seq<char>)
      requires Valid()
      modifies this
      ensures Valid()
      ensures var end := RunEnd(old(text), old(cursor), IN_LINE);
              KilledForward(if end == old(cursor) < |old(text)| then end + 1 else end, killed)
    {
      var end := ScanForward(cursor, IN_LINE);
      if end == cursor && end < |text| {
        end := end + 1;
      }
      killed := DeleteRange(cursor, end);
    }

    method KillToLineStart() returns (killed: seq<char>)
      requires Valid()
      modifies this
      ensures Valid()
      ensures KilledBack(RunStart(old(text), old(cursor), IN_LINE), killed)
    {
      var start := ScanBack(cursor, IN_LINE);
      killed := DeleteRange(start, cursor);
    }
  }
}
