/** What a configuration says, independently of the scanners that read it: the header
    of a check, the pattern of an include, and the ids that a written text declares. */
module Meaning {
  import opened Machines
  import opened Text
  import opened Splitter
  import opened Loader

  predicate NoBlank(s: string) {
    forall i :: 0 <= i < |s| ==> !IsBlank(s[i])
  }

  predicate IsGap(s: string) {
    s != [] && AllBlank(s)
  }

  predicate IsToken(s: string) {
    s != [] && NoBlank(s)
  }

  /** Nothing or a blank follows a token. */
  predicate EndsToken(tail: string) {
    tail != [] ==> IsBlank(tail[0])
  }

  // ----- headers of checks -----

  function HeaderText(g1: string, kind: string, g2: string, id: string, tail: string): string {
    "check" + (g1 + (kind + (g2 + (id + tail))))
  }

  predicate IsHeaderText(g1: string, kind: string, g2: string, id: string, tail: string) {
    IsGap(g1) && IsToken(kind) && IsGap(g2) && IsToken(id) && EndsToken(tail)
  }

  lemma {:induction false} TokenIs(t: string, tail: string)
    requires NoBlank(t) && EndsToken(tail)
    ensures Token(t + tail) == t
    decreases |t|
  {
    if t == [] {
      assert t + tail == tail;
    } else {
      assert (t + tail)[1..] == t[1..] + tail;
      TokenIs(t[1..], tail);
    }
  }

  lemma {:induction false} TokenOf(s: string)
    ensures NoBlank(Token(s)) && |Token(s)| <= |s| && s == Token(s) + s[|Token(s)|..] && EndsToken(s[|Token(s)|..])
  {
    if s != [] && !IsBlank(s[0]) {
      TokenOf(s[1..]);
      assert s[1..][|Token(s[1..])|..] == s[|Token(s)|..];
    }
  }

  lemma TokenFirst(t: string, tail: string)
    requires IsToken(t)
    ensures t + tail != [] && !IsBlank((t + tail)[0])
  {
    assert (t + tail)[0] == t[0];
  }

  lemma DropAfter(a: string, b: string)
    ensures (a + b)[|a|..] == b
  {
  }

  /** The fields after the word `check`. */
  lemma FieldsIs(g1: string, kind: string, g2: string, id: string, tail: string)
    requires IsHeaderText(g1, kind, g2, id, tail)
    ensures
      var afterCheck := DropBlank(g1 + (kind + (g2 + (id + tail))));
      && Token(afterCheck) == kind
      && |kind| <= |afterCheck| && Token(DropBlank(afterCheck[|kind|..])) == id
  {
    var idAndTail := id + tail;
    var afterKind := g2 + idAndTail;
    TokenFirst(kind, afterKind);
    DropGap(g1, kind + afterKind);
    TokenIs(kind, afterKind);
    DropAfter(kind, afterKind);
    TokenFirst(id, tail);
    DropGap(g2, idAndTail);
    TokenIs(id, tail);
  }

  lemma CheckLeads(after: string)
    ensures LeadsWith("check" + after, Check) && ("check" + after)[5..] == after
  {
  }

  /** A header gives the first word as the kind and the second one as the id. */
  lemma HeaderHereIs(g1: string, kind: string, g2: string, id: string, tail: string)
    requires IsHeaderText(g1, kind, g2, id, tail)
    ensures HeaderHere(HeaderText(g1, kind, g2, id, tail)) == Some(Header(kind, id))
  {
    var after := g1 + (kind + (g2 + (id + tail)));
    CheckLeads(after);
    FieldsIs(g1, kind, g2, id, tail);
    assert ("check" + after)[5] == g1[0];
  }

  ghost predicate HasHeader(s: string) {
    exists g1, kind, g2, id, tail :: IsHeaderText(g1, kind, g2, id, tail) && s == HeaderText(g1, kind, g2, id, tail)
  }

  lemma GapBefore(s: string) returns (gap: string)
    ensures s == gap + DropBlank(s) && AllBlank(gap) && (s != [] && IsBlank(s[0]) ==> gap != [])
  {
    BlanksDropped(s);
    gap := s[..|s| - |DropBlank(s)|];
  }

  lemma HeaderHereIff(s: string)
    ensures HeaderHere(s).Some? <==> HasHeader(s)
  {
    if HeaderHere(s).Some? {
      var g1 := GapBefore(s[5..]);
      var afterCheck := DropBlank(s[5..]);
      var kind := Token(afterCheck);
      TokenOf(afterCheck);
      var g2 := GapBefore(afterCheck[|kind|..]);
      var afterKind := DropBlank(afterCheck[|kind|..]);
      TokenOf(afterKind);
      var id := Token(afterKind);
      var tail := afterKind[|id|..];
      KindIsFollowed(afterCheck, g2, id);
      LeadingKeywordIs(s, Check);
      assert s == "check" + s[5..];
      assert IsHeaderText(g1, kind, g2, id, tail) && s == HeaderText(g1, kind, g2, id, tail);
    }
    if g1, kind, g2, id, tail :| IsHeaderText(g1, kind, g2, id, tail) && s == HeaderText(g1, kind, g2, id, tail) {
      HeaderHereIs(g1, kind, g2, id, tail);
    }
  }

  /** When something follows a token, it is a blank. */
  lemma KindIsFollowed(s: string, g2: string, id: string)
    requires EndsToken(s[|Token(s)|..]) && s[|Token(s)|..] == g2 + DropBlank(s[|Token(s)|..]) && AllBlank(g2)
    requires id == Token(DropBlank(s[|Token(s)|..])) && id != []
    ensures g2 != []
  {
    var rest := s[|Token(s)|..];
    assert rest != [];
    assert DropBlank(rest) != rest;
  }

  // ----- the line with the header -----

  predicate IsLineStart(text: string, p: int) {
    0 <= p <= |text| && (p == 0 || text[p - 1] == '\n')
  }

  /** The header of a text is that of its first line that has one. */
  lemma {:induction false} ParseHeaderFinds(text: string)
    ensures
      match ParseHeader(text)
      case None => forall p :: IsLineStart(text, p) ==> HeaderHere(text[p..]) == None
      case Some(h) => exists p :: IsLineStart(text, p) && HeaderHere(text[p..]) == Some(h)
                                  && forall q :: 0 <= q < p && IsLineStart(text, q) ==> HeaderHere(text[q..]) == None
    decreases |text|
  {
    assert text[0..] == text;
    if HeaderHere(text).Some? {
      assert IsLineStart(text, 0);
    } else {
      var n := NewlineFrom(text, 0);
      assert forall q :: 0 < q <= n && q <= |text| ==> !IsLineStart(text, q);
      if n < |text| {
        var rest := text[n + 1..];
        ParseHeaderFinds(rest);
        assert forall q :: 0 <= q <= |rest| ==> rest[q..] == text[n + 1 + q..];
        assert forall q :: 0 <= q <= |rest| ==> (IsLineStart(rest, q) <==> IsLineStart(text, n + 1 + q));
        LaterLines(text, n, ParseHeader(rest));
      }
    }
  }

  lemma LaterLines(text: string, n: nat, found: Option<Header>)
    requires n < |text| && HeaderHere(text) == None && text[0..] == text
    requires forall q :: 0 < q <= n ==> !IsLineStart(text, q)
    requires
      var rest := text[n + 1..];
      && (forall q :: 0 <= q <= |rest| ==> rest[q..] == text[n + 1 + q..])
      && (forall q :: 0 <= q <= |rest| ==> (IsLineStart(rest, q) <==> IsLineStart(text, n + 1 + q)))
      && match found
         case None => forall p :: IsLineStart(rest, p) ==> HeaderHere(rest[p..]) == None
         case Some(h) => exists p :: IsLineStart(rest, p) && HeaderHere(rest[p..]) == Some(h)
                                     && forall q :: 0 <= q < p && IsLineStart(rest, q) ==> HeaderHere(rest[q..]) == None
    ensures
      match found
      case None => forall p :: IsLineStart(text, p) ==> HeaderHere(text[p..]) == None
      case Some(h) => exists p :: IsLineStart(text, p) && HeaderHere(text[p..]) == Some(h)
                                  && forall q :: 0 <= q < p && IsLineStart(text, q) ==> HeaderHere(text[q..]) == None
  {
    var rest := text[n + 1..];
    forall q | IsLineStart(text, q) && q > n
      ensures IsLineStart(rest, q - n - 1) && HeaderHere(text[q..]) == HeaderHere(rest[q - n - 1..])
    {
      assert rest[q - n - 1..] == text[n + 1 + (q - n - 1)..];
    }
    if found.Some? {
      var p :| IsLineStart(rest, p) && HeaderHere(rest[p..]) == found
               && forall q :: 0 <= q < p && IsLineStart(rest, q) ==> HeaderHere(rest[q..]) == None;
      assert IsLineStart(text, n + 1 + p) && text[n + 1 + p..] == rest[p..];
    }
  }

  /** A check is malformed exactly when none of its lines has the form of a header. */
  lemma MalformedIff(text: string)
    ensures ParseHeader(text) == None <==> forall p :: IsLineStart(text, p) ==> !HasHeader(text[p..])
  {
    ParseHeaderFinds(text);
    forall p | IsLineStart(text, p)
      ensures HeaderHere(text[p..]).Some? <==> HasHeader(text[p..])
    {
      HeaderHereIff(text[p..]);
    }
  }

  /** The header of a check that starts with one. */
  lemma ParseHeaderIs(g1: string, kind: string, g2: string, id: string, tail: string)
    requires IsHeaderText(g1, kind, g2, id, tail)
    ensures ParseHeader(HeaderText(g1, kind, g2, id, tail)) == Some(Header(kind, id))
  {
    HeaderHereIs(g1, kind, g2, id, tail);
  }

  // ----- what a written text declares -----

  /** A statement of a configuration; `tail` is the rest of a check, `more` are
      further lines of an include, which are ignored. */
  datatype Statement =
    | CheckOf(kind: string, gap: string, id: string, tail: string)
    | IncludeOf(pattern: string, more: string)
    | SetOf(body: string)

  function ItemOf(st: Statement): Item {
    match st
    case CheckOf(kind, gap, id, tail) => Item(Check, kind + (gap + (id + tail)))
    case IncludeOf(pattern, more) => Item(Include, pattern + more)
    case SetOf(body) => Item(Set, body)
  }

  predicate IsStatement(st: Statement) {
    && WellFormed(ItemOf(st).body)
    && match st
       case CheckOf(kind, gap, id, tail) => IsToken(kind) && IsGap(gap) && IsToken(id) && EndsToken(tail)
       case IncludeOf(pattern, more) =>
         pattern != [] && !IsBlank(pattern[0]) && '\n' !in pattern && (more != [] ==> more[0] == '\n')
       case SetOf(_) => true
  }

  function ItemsOf(sts: seq<Statement>): seq<Item> {
    if sts == [] then [] else [ItemOf(sts[0])] + ItemsOf(sts[1..])
  }

  function DirectiveFor(st: Statement): Directive {
    Directive(ItemOf(st).keyword, Config(ItemOf(st)))
  }

  lemma CheckSays(kind: string, gap: string, id: string, tail: string)
    requires IsStatement(CheckOf(kind, gap, id, tail))
    ensures ParseHeader(DirectiveFor(CheckOf(kind, gap, id, tail)).config) == Some(Header(kind, id))
  {
    Rebracket("check", " ", kind + (gap + (id + tail)));
    assert IsHeaderText(" ", kind, gap, id, tail);
    ParseHeaderIs(" ", kind, gap, id, tail);
  }

  lemma FirstLineIs(pattern: string, more: string)
    requires '\n' !in pattern && (more != [] ==> more[0] == '\n')
    ensures NewlineFrom(pattern + more, 0) == |pattern|
  {
    var t := pattern + more;
    assert forall k :: 0 <= k < |pattern| ==> t[k] == pattern[k];
    assert more != [] ==> t[|pattern|] == more[0];
  }

  lemma PatternText(text: string, after: string)
    requires text == "include" + (" " + after) && after != [] && !IsBlank(after[0])
    ensures Pattern(text) == after[..NewlineFrom(after, 0)]
  {
    assert text[7..] == " " + after && text[7] == ' ';
    DropGap(" ", after);
  }

  lemma IncludeSays(pattern: string, more: string)
    requires IsStatement(IncludeOf(pattern, more))
    ensures Pattern(DirectiveFor(IncludeOf(pattern, more)).config) == pattern
  {
    var after := pattern + more;
    Rebracket("include", " ", after);
    assert after[0] == pattern[0];
    PatternText("include" + (" " + after), after);
    FirstLineIs(pattern, more);
    assert after[..|pattern|] == pattern;
  }

  /** The ids that files declare, one file after another. */
  function AllDeclared(env: Env, fs: seq<string>): seq<string>
    requires Acyclic(env)
  {
    if fs == [] then [] else DeclaredInFile(env, fs[0]) + AllDeclared(env, fs[1..])
  }

  /** The ids that statements declare: a check its own, an include those of the files
      that its pattern matches, up to a pattern that is not one. */
  function Says(env: Env, sts: seq<Statement>): seq<string>
    requires Acyclic(env)
  {
    if sts == [] then []
    else
      match sts[0]
      case CheckOf(_, _, id, _) => [id] + Says(env, sts[1..])
      case IncludeOf(pattern, _) =>
        if pattern !in env.globs then Says(env, sts[1..])
        else
          (match env.globs[pattern]
           case BadPattern => []
           case Matches(fs) => AllDeclared(env, fs) + Says(env, sts[1..]))
      case SetOf(_) => Says(env, sts[1..])
  }

  lemma {:induction false} AllDeclaredIs(env: Env, fs: seq<string>, r: nat)
    requires Acyclic(env) && FilesBelow(env, fs, r)
    ensures DeclaredInFiles(env, fs, r) == AllDeclared(env, fs)
    decreases |fs|
  {
    if fs != [] {
      AllDeclaredIs(env, fs[1..], r);
    }
  }

  lemma DirectivesFirst(sts: seq<Statement>)
    requires sts != []
    ensures Directives(ItemsOf(sts)) == [DirectiveFor(sts[0])] + Directives(ItemsOf(sts[1..]))
  {
    assert ItemsOf(sts)[1..] == ItemsOf(sts[1..]);
  }

  lemma {:induction false} DeclaredIs(env: Env, sts: seq<Statement>, r: nat)
    requires Acyclic(env) && forall st <- sts :: IsStatement(st)
    requires IncludesBelow(env, Directives(ItemsOf(sts)), r)
    ensures Declared(env, Directives(ItemsOf(sts)), r) == Says(env, sts)
    decreases |sts|
  {
    if sts != [] {
      DirectivesFirst(sts);
      var ds := Directives(ItemsOf(sts));
      assert ds[0] == DirectiveFor(sts[0]) && ds[1..] == Directives(ItemsOf(sts[1..]));
      DeclaredIs(env, sts[1..], r);
      match sts[0]
      case CheckOf(kind, gap, id, tail) => CheckSays(kind, gap, id, tail);
      case IncludeOf(pattern, more) =>
        IncludeSays(pattern, more);
        if GlobOf(env, ds[0]).Matches? {
          AllDeclaredIs(env, GlobOf(env, ds[0]).files, r);
        }
      case SetOf(_) =>
    }
  }

  lemma {:induction false} ItemsAreWellFormed(sts: seq<Statement>)
    requires forall st <- sts :: IsStatement(st)
    ensures forall item <- ItemsOf(sts) :: WellFormed(item.body)
  {
    if sts != [] {
      ItemsAreWellFormed(sts[1..]);
      assert IsStatement(sts[0]);
    }
  }

  /** A file declares exactly what its statements say, in order. */
  lemma FileDeclares(env: Env, f: string, sts: seq<Statement>)
    requires Acyclic(env) && IsReadable(env, f) && env.files[f] == Render(ItemsOf(sts))
    requires forall st <- sts :: IsStatement(st)
    ensures DeclaredInFile(env, f) == Says(env, sts)
  {
    ItemsAreWellFormed(sts);
    SplitRoundTrip(ItemsOf(sts));
    DeclaredIs(env, sts, RankOf(env, f));
  }

  function IdsIn(sts: seq<Statement>): seq<string> {
    if sts == [] then []
    else (if sts[0].CheckOf? then [sts[0].id] else []) + IdsIn(sts[1..])
  }

  lemma {:induction false} SaysIds(env: Env, sts: seq<Statement>)
    requires Acyclic(env) && forall st <- sts :: !st.IncludeOf?
    ensures Says(env, sts) == IdsIn(sts)
  {
    if sts != [] {
      SaysIds(env, sts[1..]);
    }
  }

  /** A file without includes declares the ids of its checks. */
  lemma ChecksDeclareIds(env: Env, f: string, sts: seq<Statement>)
    requires Acyclic(env) && IsReadable(env, f) && env.files[f] == Render(ItemsOf(sts))
    requires forall st <- sts :: IsStatement(st) && !st.IncludeOf?
    ensures DeclaredInFile(env, f) == IdsIn(sts)
  {
    FileDeclares(env, f, sts);
    SaysIds(env, sts);
  }
}
