/** Go's strings.TrimSpace and its relatives, and strings.Cut. */
module Trimming {
  import opened Options

  function TrimRight(s: string, out: char -> bool): string {
    if s != "" && out(s[|s| - 1]) then TrimRight(s[..|s| - 1], out) else s
  }

  function TrimLeft(s: string, out: char -> bool): string {
    if s != "" && out(s[0]) then TrimLeft(s[1..], out) else s
  }

  /** unicode.IsSpace. */
  predicate IsSpace(c: char) {
    || '\t' <= c <= '\r' || c == ' ' || c == '\U{85}' || c == '\U{A0}' || c == '\U{1680}'
    || '\U{2000}' <= c <= '\U{200A}' || c == '\U{2028}' || c == '\U{2029}' || c == '\U{202F}'
    || c == '\U{205F}' || c == '\U{3000}'
  }

  function TrimSpace(s: string): string {
    TrimLeft(TrimRight(s, IsSpace), IsSpace)
  }

  lemma LastStays(s: string, out: char -> bool)
    requires s == "" || !out(s[|s| - 1])
    ensures TrimRight(s, out) == s
  {
  }

  /** Two trimmings, the second of a wider kind. */
  lemma {:induction false} TrimTwice(s: string, few: char -> bool, many: char -> bool)
    requires forall c :: few(c) ==> many(c)
    ensures TrimRight(TrimRight(s, few), many) == TrimRight(s, many)
    decreases |s|
  {
    if s != "" && few(s[|s| - 1]) { TrimTwice(s[..|s| - 1], few, many); }
  }

  /** strings.Cut. */
  function Cut(s: string, sep: char): Option<(string, string)> {
    if s == "" then None
    else if s[0] == sep then Some(("", s[1..]))
    else
      match Cut(s[1..], sep)
      case None => None
      case Some((before, after)) => Some(([s[0]] + before, after))
  }

  lemma {:induction false} CutFirst(before: string, sep: char, after: string)
    requires sep !in before
    ensures Cut(before + ([sep] + after), sep) == Some((before, after))
  {
    var s := before + ([sep] + after);
    if before == "" {
      assert s == [sep] + after;
    } else {
      assert s[1..] == before[1..] + ([sep] + after);
      CutFirst(before[1..], sep, after);
      assert [before[0]] + before[1..] == before;
    }
  }

  lemma {:induction false} TrimTail(s: string, trail: string)
    requires (forall c <- trail :: IsSpace(c)) && s != "" && !IsSpace(s[|s| - 1])
    ensures TrimRight(s + trail, IsSpace) == s
    decreases |trail|
  {
    if trail == "" {
      assert s + trail == s;
    } else {
      var n := |trail| - 1;
      assert trail[n] in trail && (s + trail)[..|s + trail| - 1] == s + trail[..n];
      TrimTail(s, trail[..n]);
    }
  }

  lemma {:induction false} TrimHead(lead: string, s: string)
    requires (forall c <- lead :: IsSpace(c)) && s != "" && !IsSpace(s[0])
    ensures TrimLeft(lead + s, IsSpace) == s
  {
    if lead == "" {
      assert lead + s == s;
    } else {
      assert lead[0] in lead && (lead + s)[1..] == lead[1..] + s;
      TrimHead(lead[1..], s);
    }
  }

  lemma TrimAll(lead: string, s: string, trail: string)
    requires (forall c <- lead :: IsSpace(c)) && (forall c <- trail :: IsSpace(c))
    requires s != "" && !IsSpace(s[0]) && !IsSpace(s[|s| - 1])
    ensures TrimSpace(lead + s + trail) == s
  {
    TrimTail(lead + s, trail);
    TrimHead(lead, s);
  }
}
