/** The string functions of Go's standard library that several components lean on. */
module Text {

  /** strings.Split with a one-character separator: never empty, one part more than separators. */
  function Split(s: string, sep: char): (parts: seq<string>)
    ensures |parts| >= 1
  {
    if s == "" then [""]
    else
      var rest := Split(s[1..], sep);
      if s[0] == sep then [""] + rest else [[s[0]] + rest[0]] + rest[1..]
  }

  lemma {:induction false} SplitParts(s: string, sep: char)
    ensures forall p <- Split(s, sep) :: sep !in p
  {
    if s != "" {
      SplitParts(s[1..], sep);
    }
  }

  /** strings.Join with a one-character separator. */
  function Join(parts: seq<string>, sep: char): string {
    if |parts| == 0 then ""
    else if |parts| == 1 then parts[0]
    else parts[0] + [sep] + Join(parts[1..], sep)
  }

  /** Joining separator-free parts and splitting again gives the parts back. */
  lemma {:induction false} SplitJoin(parts: seq<string>, sep: char)
    requires |parts| >= 1 && forall p <- parts :: sep !in p
    ensures Split(Join(parts, sep), sep) == parts
  {
    if |parts| == 1 {
      SplitPlain(parts[0], sep);
    } else {
      SplitJoin(parts[1..], sep);
      SplitHead(parts[0], Join(parts[1..], sep), sep);
      assert parts[0] + [sep] + Join(parts[1..], sep) == parts[0] + ([sep] + Join(parts[1..], sep));
    }
  }

  lemma {:induction false} SplitPlain(p: string, sep: char)
    requires sep !in p
    ensures Split(p, sep) == [p]
  {
    if p != "" {
      SplitPlain(p[1..], sep);
      assert p == [p[0]] + p[1..];
    }
  }

  /** A separator-free head followed by a separator is the first part. */
  lemma {:induction false} SplitHead(p: string, rest: string, sep: char)
    requires sep !in p
    ensures Split(p + [sep] + rest, sep) == [p] + Split(rest, sep)
  {
    var whole := p + [sep] + rest;
    if p == "" {
      assert whole[1..] == rest;
    } else {
      SplitHead(p[1..], rest, sep);
      assert whole[1..] == p[1..] + [sep] + rest;
      assert p == [p[0]] + p[1..];
    }
  }

  /** The parts between separators, and what follows the last one. */
  function Closed(s: string, sep: char): seq<string> {
    var parts := Split(s, sep);
    parts[..|parts| - 1]
  }

  function Rest(s: string, sep: char): string {
    var parts := Split(s, sep);
    parts[|parts| - 1]
  }

  /** Two splits meeting: the last part of one and the first of the other are one part. */
  function Glue(p: seq<string>, q: seq<string>): seq<string>
    requires |p| > 0 && |q| > 0
  {
    p[..|p| - 1] + [p[|p| - 1] + q[0]] + q[1..]
  }

  lemma GlueCons(p: seq<string>, q: seq<string>, part: string)
    requires |p| > 0 && |q| > 0
    ensures [part] + Glue(p, q) == Glue([part] + p, q)
  {
  }

  lemma GlueFirst(p: seq<string>, q: seq<string>, c: char)
    requires |p| > 0 && |q| > 0
    ensures [[c] + Glue(p, q)[0]] + Glue(p, q)[1..] == Glue([[c] + p[0]] + p[1..], q)
  {
    if |p| == 1 {
      assert [c] + (p[0] + q[0]) == [c] + p[0] + q[0];
    }
  }

  lemma {:induction false} SplitGlue(a: string, b: string, sep: char)
    ensures Split(a + b, sep) == Glue(Split(a, sep), Split(b, sep))
  {
    var q := Split(b, sep);
    if a == "" {
      assert a + b == b && "" + q[0] == q[0];
    } else {
      SplitGlue(a[1..], b, sep);
      assert (a + b)[1..] == a[1..] + b;
      GlueCons(Split(a[1..], sep), q, "");
      GlueFirst(Split(a[1..], sep), q, a[0]);
    }
  }

  /** Where nothing follows the last separator, what comes next is split on its own. */
  lemma SplitAppend(a: string, b: string, sep: char)
    requires Rest(a, sep) == ""
    ensures Closed(a + b, sep) == Closed(a, sep) + Closed(b, sep) && Rest(a + b, sep) == Rest(b, sep)
  {
    SplitGlue(a, b, sep);
    GlueEmpty(Split(a, sep), Split(b, sep));
  }

  lemma GlueEmpty(p: seq<string>, q: seq<string>)
    requires |p| > 0 && |q| > 0 && p[|p| - 1] == ""
    ensures var g := Glue(p, q);
            g[..|g| - 1] == p[..|p| - 1] + q[..|q| - 1] && g[|g| - 1] == q[|q| - 1]
  {
    assert "" + q[0] == q[0];
    assert Glue(p, q) == p[..|p| - 1] + q;
  }

  lemma RestOfCons(s: string, sep: char)
    requires s != ""
    ensures Rest(s, sep) == if s[0] == sep || sep in s[1..] then Rest(s[1..], sep) else s
  {
    var t := s[1..];
    if sep in t {
      SplitMore(t, sep);
    } else {
      SplitPlain(t, sep);
      assert s == [s[0]] + t;
    }
  }

  lemma {:induction false} SplitMore(t: string, sep: char)
    requires sep in t
    ensures |Split(t, sep)| > 1
  {
    if t[0] != sep { SplitMore(t[1..], sep); }
  }

  /** The text is its closed part, separators included, and the rest. */
  lemma {:induction false} RestIsSuffix(s: string, sep: char)
    ensures |Rest(s, sep)| <= |s| && s[|s| - |Rest(s, sep)|..] == Rest(s, sep)
    ensures sep !in s ==> Rest(s, sep) == s
    ensures sep !in Rest(s, sep)
    decreases |s|
  {
    if s != "" {
      RestOfCons(s, sep);
      RestIsSuffix(s[1..], sep);
      assert s == [s[0]] + s[1..];
    }
  }

  lemma {:induction false} CutIsClosed(s: string, sep: char)
    ensures |Rest(s, sep)| <= |s| && Rest(s[..|s| - |Rest(s, sep)|], sep) == ""
    decreases |s|
  {
    RestIsSuffix(s, sep);
    if s != "" {
      var t := s[1..];
      RestOfCons(s, sep);
      CutIsClosed(t, sep);
      RestIsSuffix(t, sep);
      var cut := t[..|t| - |Rest(t, sep)|];
      assert s == [s[0]] + t;
      if s[0] == sep || sep in t {
        assert s[..|s| - |Rest(s, sep)|] == [s[0]] + cut;
        assert ([s[0]] + cut)[1..] == cut;
        assert sep in t ==> sep in cut by { assert t == cut + Rest(t, sep); }
        RestOfCons([s[0]] + cut, sep);
      }
    }
  }

  /** A separator-free part and its separator come off the front. */
  lemma ClosedHead(p: string, rest: string, sep: char)
    requires sep !in p
    ensures Closed(p + [sep] + rest, sep) == [p] + Closed(rest, sep)
    ensures Rest(p + [sep] + rest, sep) == Rest(rest, sep)
  {
    SplitHead(p, rest, sep);
  }

  lemma Assoc<T>(a: seq<T>, b: seq<T>, c: seq<T>)
    ensures a + (b + c) == (a + b) + c
  {
  }
}
