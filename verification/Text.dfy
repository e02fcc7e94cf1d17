/** Blank space, trimming and lines. The source uses two notions of blank: `\s`
    of its regular expressions and the Unicode space of strings.TrimSpace. */
module Text {

  /** The class `\s` of Go's regexp package. */
  predicate IsBlank(c: char) {
    c == '\t' || c == '\n' || c == '\U{000C}' || c == '\r' || c == ' '
  }

  /** unicode.IsSpace, which strings.TrimSpace uses. */
  predicate IsSpace(c: char) {
    || IsBlank(c) || c == '\U{000B}' || c == '\U{0085}' || c == '\U{00A0}' || c == '\U{1680}'
    || '\U{2000}' <= c <= '\U{200A}' || c == '\U{2028}' || c == '\U{2029}'
    || c == '\U{202F}' || c == '\U{205F}' || c == '\U{3000}'
  }

  predicate AllSpace(s: string) {
    forall i :: 0 <= i < |s| ==> IsSpace(s[i])
  }

  function TrimLeft(s: string): string {
    if s != [] && IsSpace(s[0]) then TrimLeft(s[1..]) else s
  }

  function TrimRight(s: string): string {
    if s != [] && IsSpace(s[|s| - 1]) then TrimRight(s[..|s| - 1]) else s
  }

  function TrimSpace(s: string): string {
    TrimRight(TrimLeft(s))
  }

  lemma {:induction false} TrimRightOf(s: string) returns (b: string)
    ensures s == TrimRight(s) + b && AllSpace(b)
    ensures TrimRight(s) != [] ==> !IsSpace(TrimRight(s)[|TrimRight(s)| - 1])
  {
    if s != [] && IsSpace(s[|s| - 1]) {
      b := TrimRightOf(s[..|s| - 1]);
      b := b + [s[|s| - 1]];
      assert s == s[..|s| - 1] + [s[|s| - 1]];
    } else {
      b := [];
    }
  }

  lemma {:induction false} TrimLeftIs(a: string, rest: string)
    requires AllSpace(a) && (rest != [] ==> !IsSpace(rest[0]))
    ensures TrimLeft(a + rest) == rest
  {
    if a == [] {
      assert a + rest == rest;
    } else {
      assert (a + rest)[1..] == a[1..] + rest;
      TrimLeftIs(a[1..], rest);
    }
  }

  lemma {:induction false} TrimRightIs(core: string, b: string)
    requires AllSpace(b) && (core != [] ==> !IsSpace(core[|core| - 1]))
    ensures TrimRight(core + b) == core
  {
    if b == [] {
      assert core + b == core;
    } else {
      var b' := b[..|b| - 1];
      assert (core + b)[..|core + b| - 1] == core + b';
      TrimRightIs(core, b');
    }
  }

  /** Trimming removes the surrounding space and nothing else. */
  lemma TrimSpaceIs(a: string, core: string, b: string)
    requires AllSpace(a) && AllSpace(b)
    requires core != [] ==> !IsSpace(core[0]) && !IsSpace(core[|core| - 1])
    ensures TrimSpace(a + core + b) == core
  {
    if core == [] {
      TrimLeftIs(a + b, []);
      assert a + core + b == (a + b) + [];
    } else {
      TrimLeftIs(a, core + b);
      assert a + core + b == a + (core + b);
      TrimRightIs(core, b);
    }
  }

  // ----- lines -----

  /** strings.Split at newlines. */
  function Lines(s: string): (ls: seq<string>)
    ensures |ls| > 0 && forall l <- ls :: '\n' !in l
  {
    if s == [] then [[]]
    else
      var ls := Lines(s[1..]);
      if s[0] == '\n' then [[]] + ls else [[s[0]] + ls[0]] + ls[1..]
  }

  /** strings.Join with newlines. */
  function Join(ls: seq<string>): string {
    if |ls| == 0 then []
    else if |ls| == 1 then ls[0]
    else ls[0] + "\n" + Join(ls[1..])
  }

  lemma {:induction false} JoinOfLines(s: string)
    ensures Join(Lines(s)) == s
  {
    if s != [] {
      var ls := Lines(s[1..]);
      JoinOfLines(s[1..]);
      if s[0] == '\n' {
        assert Lines(s)[1..] == ls;
        assert s == [] + "\n" + s[1..];
      } else {
        assert Lines(s)[1..] == ls[1..];
        assert s == [s[0]] + s[1..];
      }
    }
  }

  lemma {:induction false} LinesOfOne(l: string)
    requires '\n' !in l
    ensures Lines(l) == [l]
  {
    if l != [] {
      LinesOfOne(l[1..]);
      assert l == [l[0]] + l[1..];
    }
  }

  lemma {:induction false} LinesOfFirst(l: string, rest: string)
    requires '\n' !in l
    ensures Lines(l + "\n" + rest) == [l] + Lines(rest)
  {
    var s := l + "\n" + rest;
    if l == [] {
      assert s[1..] == rest;
    } else {
      assert s[1..] == l[1..] + "\n" + rest;
      LinesOfFirst(l[1..], rest);
      assert l == [l[0]] + l[1..];
    }
  }

  lemma {:induction false} LinesOfJoin(ls: seq<string>)
    requires |ls| > 0 && forall l <- ls :: '\n' !in l
    ensures Lines(Join(ls)) == ls
  {
    if |ls| == 1 {
      LinesOfOne(ls[0]);
    } else {
      LinesOfJoin(ls[1..]);
      LinesOfFirst(ls[0], Join(ls[1..]));
    }
  }

  /** The characters of a join are those of its parts and the separators. */
  lemma {:induction false} CharsOfJoin(ls: seq<string>, c: char)
    ensures c in Join(ls) <==> (c == '\n' && |ls| > 1) || exists l <- ls :: c in l
  {
    if |ls| > 1 {
      CharsOfJoin(ls[1..], c);
      assert ls == [ls[0]] + ls[1..];
    }
  }
}
