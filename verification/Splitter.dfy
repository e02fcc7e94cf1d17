/** The splitting loop of `ParseConfig` (monitor/parsing.go). Its regular
    expression is replaced by scanners with the same leftmost-first meaning: the
    first directive is the first keyword followed by a blank that stands at the
    start of the text or of a line, after any blanks; it runs up to the first
    newline that is followed by blanks, a keyword and a literal space. */
module Splitter {
  import opened Machines
  import opened Text
  import opened Cleaner

  datatype Keyword = Check | Include | Set

  /** `config` is the trimmed text of the directive, keyword included. */
  datatype Directive = Directive(keyword: Keyword, config: string)

  function Word(k: Keyword): string {
    match k
    case Check => "check"
    case Include => "include"
    case Set => "set"
  }

  function WordLength(k: Keyword): nat {
    match k
    case Check => 5
    case Include => 7
    case Set => 3
  }

  predicate LeadsWith(s: string, k: Keyword) {
    && WordLength(k) <= |s|
    && match k
       case Check => s[0] == 'c' && s[1] == 'h' && s[2] == 'e' && s[3] == 'c' && s[4] == 'k'
       case Include =>
         s[0] == 'i' && s[1] == 'n' && s[2] == 'c' && s[3] == 'l' && s[4] == 'u' && s[5] == 'd' && s[6] == 'e'
       case Set => s[0] == 's' && s[1] == 'e' && s[2] == 't'
  }

  function LeadingKeyword(s: string): Option<Keyword> {
    if LeadsWith(s, Check) then Some(Check)
    else if LeadsWith(s, Include) then Some(Include)
    else if LeadsWith(s, Set) then Some(Set)
    else None
  }

  lemma LeadingKeywordIs(s: string, k: Keyword)
    ensures Word(k) <= s <==> LeadingKeyword(s) == Some(k)
  {
    var w := Word(k);
    if LeadingKeyword(s) == Some(k) {
      assert s[..|w|] == w;
    }
    if w <= s {
      assert forall i :: 0 <= i < |w| ==> s[i] == w[i];
    }
  }

  function DropBlank(s: string): (r: string)
    ensures |r| <= |s|
  {
    if s != [] && IsBlank(s[0]) then DropBlank(s[1..]) else s
  }

  predicate AllBlank(s: string) {
    forall i :: 0 <= i < |s| ==> IsBlank(s[i])
  }

  lemma {:induction false} BlanksDropped(s: string)
    ensures
      var r := DropBlank(s);
      && s == s[..|s| - |r|] + r && AllBlank(s[..|s| - |r|])
      && (r != [] ==> !IsBlank(r[0]))
  {
    if s != [] && IsBlank(s[0]) {
      var r := DropBlank(s);
      BlanksDropped(s[1..]);
      assert s[..|s| - |r|] == [s[0]] + s[1..][..|s| - 1 - |r|];
    }
  }

  // ----- where the first directive starts -----

  /** A keyword and a blank stand at the start. */
  predicate Opens(s: string) {
    match LeadingKeyword(s)
    case None => false
    case Some(k) => WordLength(k) < |s| && IsBlank(s[WordLength(k)])
  }

  /** Only blanks lie between `i` and the start of the text or of its line. */
  predicate IsFirstOfLine(t: string, i: nat)
    requires i <= |t|
  {
    i == 0 || t[i - 1] == '\n' || (IsBlank(t[i - 1]) && IsFirstOfLine(t, i - 1))
  }

  predicate StartsAt(t: string, i: nat)
    requires i <= |t|
  {
    Opens(t[i..]) && IsFirstOfLine(t, i)
  }

  function NewlineFrom(t: string, i: nat): (j: nat)
    requires i <= |t|
    ensures i <= j <= |t| && (forall k :: i <= k < j ==> t[k] != '\n') && (j < |t| ==> t[j] == '\n')
    decreases |t| - i
  {
    if i < |t| && t[i] != '\n' then NewlineFrom(t, i + 1) else i
  }

  /** The first directive start from the line that begins at `p` on. */
  function FirstStartFrom(t: string, p: nat): (r: Option<nat>)
    requires p <= |t|
    ensures r.Some? ==> p <= r.value <= |t| && Opens(t[r.value..])
    decreases |t| - p
  {
    var q := SkipBlank(t, p);
    var n := NewlineFrom(t, q);
    if Opens(t[q..]) then Some(q)
    else if n == |t| then None
    else FirstStartFrom(t, n + 1)
  }

  predicate NoStartIn(t: string, from: nat, to: nat) {
    forall i :: from <= i < to && i <= |t| ==> !StartsAt(t, i)
  }

  predicate IsFirstStart(t: string, p: nat, r: Option<nat>)
    requires p <= |t|
  {
    match r
    case Some(i) => p <= i <= |t| && StartsAt(t, i) && NoStartIn(t, p, i)
    case None => NoStartIn(t, p, |t| + 1)
  }

  lemma OneStartOnLine(t: string, p: nat)
    requires p <= |t| && IsFirstOfLine(t, p)
    ensures
      var q := SkipBlank(t, p);
      && IsFirstOfLine(t, q)
      && forall i :: p <= i <= NewlineFrom(t, q) && i != q ==> !StartsAt(t, i)
  {
    var q := SkipBlank(t, p);
    BlanksDoNotOpen(t, p, q);
    FirstAfterBlanks(t, p, q);
    RestOfLineIsNotFirst(t, q, NewlineFrom(t, q));
  }

  lemma StartOnLine(t: string, p: nat)
    requires p <= |t| && IsFirstOfLine(t, p) && Opens(t[SkipBlank(t, p)..])
    ensures IsFirstStart(t, p, Some(SkipBlank(t, p)))
  {
    OneStartOnLine(t, p);
    assert StartsAt(t, SkipBlank(t, p));
  }

  lemma NoStartOnLine(t: string, p: nat)
    requires p <= |t| && IsFirstOfLine(t, p) && !Opens(t[SkipBlank(t, p)..])
    ensures NoStartIn(t, p, NewlineFrom(t, SkipBlank(t, p)) + 1)
  {
    OneStartOnLine(t, p);
    assert !StartsAt(t, SkipBlank(t, p));
  }

  lemma SkipLine(t: string, p: nat, n: nat, r: Option<nat>)
    requires p <= n < |t| && NoStartIn(t, p, n + 1) && IsFirstStart(t, n + 1, r)
    ensures IsFirstStart(t, p, r)
  {
  }

  lemma {:induction false} FirstStartFromIsFirst(t: string, p: nat)
    requires p <= |t| && IsFirstOfLine(t, p)
    ensures IsFirstStart(t, p, FirstStartFrom(t, p))
    decreases |t| - p
  {
    if Opens(t[SkipBlank(t, p)..]) {
      StartOnLine(t, p);
    } else {
      NoStartOnLine(t, p);
      var n := NewlineFrom(t, SkipBlank(t, p));
      if n < |t| {
        FirstStartFromIsFirst(t, n + 1);
        SkipLine(t, p, n, FirstStartFrom(t, n + 1));
      }
    }
  }

  lemma {:induction false} FirstAfterBlanks(t: string, p: nat, q: nat)
    requires p <= q <= |t| && IsFirstOfLine(t, p) && forall j :: p <= j < q ==> IsBlank(t[j])
    ensures IsFirstOfLine(t, q)
    decreases q
  {
    if p < q {
      FirstAfterBlanks(t, p, q - 1);
    }
  }

  lemma BlanksDoNotOpen(t: string, p: nat, q: nat)
    requires p <= q <= |t| && forall j :: p <= j < q ==> IsBlank(t[j])
    ensures forall i :: p <= i < q ==> !Opens(t[i..])
  {
    forall i | p <= i < q
      ensures !Opens(t[i..])
    {
      var s := t[i..];
      assert IsBlank(s[0]);
    }
  }

  lemma {:induction false} RestOfLineIsNotFirst(t: string, q: nat, n: nat)
    requires q <= n <= |t| && (q < |t| ==> !IsBlank(t[q])) && forall k :: q <= k < n ==> t[k] != '\n'
    ensures forall i :: q < i <= n ==> !IsFirstOfLine(t, i)
  {
    if q < n {
      RestOfLineIsNotFirst(t, q, n - 1);
    }
  }

  function FirstStart(t: string): (r: Option<nat>)
    ensures r.Some? ==> r.value <= |t| && Opens(t[r.value..])
  {
    FirstStartFrom(t, 0)
  }

  /** The scanner finds the leftmost directive start, and one if there is one. */
  lemma FirstStartIsLeftmost(t: string)
    ensures IsFirstStart(t, 0, FirstStart(t))
  {
    FirstStartFromIsFirst(t, 0);
  }

  // ----- where it ends -----

  /** The next directive is recognised here, at a newline. */
  predicate NextHere(s: string) {
    && s != [] && s[0] == '\n'
    && var r := DropBlank(s);
       match LeadingKeyword(r)
       case None => false
       case Some(k) => WordLength(k) < |r| && r[WordLength(k)] == ' '
  }

  /** How much text lies before the first place where a directive is recognised. */
  function BeforeNext(s: string): (n: nat)
    ensures n <= |s|
  {
    if s == [] || NextHere(s) then 0 else 1 + BeforeNext(s[1..])
  }

  lemma {:induction false} BeforeNextIsFirst(s: string, i: nat)
    requires i <= |s|
    ensures i < BeforeNext(s) ==> !NextHere(s[i..])
    ensures i == BeforeNext(s) < |s| ==> NextHere(s[i..])
  {
    assert i == 0 ==> s[i..] == s;
    if s != [] && !NextHere(s) && i > 0 {
      BeforeNextIsFirst(s[1..], i - 1);
      assert s[1..][i - 1..] == s[i..];
    }
  }

  /** The body of an opened directive and all that follows it. */
  function BodyOn(s: string): (b: string)
    requires Opens(s)
    ensures |b| < |s|
  {
    DropBlank(s[WordLength(LeadingKeyword(s).value)..])
  }

  /** What follows an opened directive. */
  function RestOf(s: string): (r: string)
    requires Opens(s)
    ensures |r| < |s|
  {
    BodyOn(s)[BeforeNext(BodyOn(s))..]
  }

  function DirectiveOf(s: string): Directive
    requires Opens(s)
  {
    Directive(LeadingKeyword(s).value, TrimSpace(s[..|s| - |RestOf(s)|]))
  }

  /** All directives of a cleaned text. */
  function Split(t: string): seq<Directive>
    decreases |t|
  {
    match FirstStart(t)
    case None => []
    case Some(q) => [DirectiveOf(t[q..])] + Split(RestOf(t[q..]))
  }

  // ----- every character is accounted for -----

  lemma Pieces(s: string) returns (gap: string, taken: string)
    requires Opens(s)
    ensures s == (Word(LeadingKeyword(s).value) + (gap + taken)) + RestOf(s) && AllBlank(gap)
    ensures BodyOn(s) == taken + RestOf(s)
  {
    var w, b, rest := Word(LeadingKeyword(s).value), BodyOn(s), RestOf(s);
    WordThenTail(s);
    var tail := s[|w|..];
    BlanksDropped(tail);
    gap := tail[..|tail| - |b|];
    taken := b[..BeforeNext(b)];
    Joined(s, w, tail, gap, b, taken, rest);
  }

  lemma Joined(s: string, w: string, tail: string, gap: string, b: string, taken: string, rest: string)
    requires s == w + tail && tail == gap + b && |taken| <= |b| && taken == b[..|taken|] && rest == b[|taken|..]
    ensures s == (w + (gap + taken)) + rest && b == taken + rest
  {
    assert b == taken + rest;
    Regroup(w, gap, taken, rest);
  }

  lemma WordThenTail(s: string)
    requires LeadingKeyword(s).Some?
    ensures
      var w := Word(LeadingKeyword(s).value);
      w <= s && s == w + s[|w|..]
  {
    LeadingKeywordIs(s, LeadingKeyword(s).value);
  }

  lemma Regroup(a: string, b: string, c: string, d: string)
    ensures a + (b + (c + d)) == (a + (b + c)) + d
  {
  }

  lemma Rebracket(a: string, b: string, c: string)
    ensures (a + b) + c == a + (b + c)
  {
  }

  predicate EndsVisible(s: string) {
    s != [] && !IsSpace(s[|s| - 1])
  }

  /** A directive's text is its trimmed configuration and some space. */
  lemma DirectiveText(s: string) returns (blank: string)
    requires Opens(s)
    ensures s == DirectiveOf(s).config + (blank + RestOf(s)) && AllSpace(blank)
    ensures Word(DirectiveOf(s).keyword) <= DirectiveOf(s).config && EndsVisible(DirectiveOf(s).config)
  {
    var k := LeadingKeyword(s).value;
    var gap, taken := Pieces(s);
    var text := Word(k) + (gap + taken);
    DirectiveIs(s, text);
    blank := TrimAfterWord(k, gap + taken);
    Rebracket(TrimSpace(text), blank, RestOf(s));
  }

  lemma DirectiveIs(s: string, text: string)
    requires Opens(s) && s == text + RestOf(s)
    ensures DirectiveOf(s) == Directive(LeadingKeyword(s).value, TrimSpace(text))
  {
    assert s[..|s| - |RestOf(s)|] == text;
  }

  lemma TrimAfterWord(k: Keyword, x: string) returns (blank: string)
    ensures Word(k) + x == TrimSpace(Word(k) + x) + blank && AllSpace(blank)
    ensures Word(k) <= TrimSpace(Word(k) + x) && EndsVisible(TrimSpace(Word(k) + x))
  {
    var w := Word(k);
    var text := w + x;
    assert text[0] == w[0];
    assert TrimLeft(text) == text;
    blank := TrimRightOf(text);
    WordKept(w, x, TrimRight(text), blank);
  }

  lemma WordKept(w: string, x: string, r: string, blank: string)
    requires w + x == r + blank && AllSpace(blank) && w != [] && !IsSpace(w[|w| - 1])
    ensures w <= r
  {
    var j := |w| - 1;
    assert (w + x)[j] == w[j];
    assert r == (w + x)[..|r|];
    assert w == r[..|w|];
  }

  /** When a text starts with a recognised directive, that directive starts right
      after the blanks. */
  lemma NextIsFirst(t: string)
    requires NextHere(t)
    ensures FirstStart(t) == Some(|t| - |DropBlank(t)|)
    ensures t == t[..|t| - |DropBlank(t)|] + DropBlank(t) && AllBlank(t[..|t| - |DropBlank(t)|])
  {
    BlanksDropped(t);
    var r := DropBlank(t);
    var i := |t| - |r|;
    assert t[i..] == r;
    forall j | 0 <= j < i
      ensures IsBlank(t[j])
    {
      assert t[j] == t[..i][j];
    }
    SkipBlankIs(t, 0, i);
  }

  lemma {:induction false} SkipBlankIs(t: string, i: nat, j: nat)
    requires i <= j < |t| && !IsBlank(t[j]) && forall k :: i <= k < j ==> IsBlank(t[k])
    ensures SkipBlank(t, i) == j
    decreases j - i
  {
    if i < j {
      SkipBlankIs(t, i + 1, j);
    }
  }

  lemma NothingInEmpty()
    ensures FirstStart("") == None && Split("") == []
  {
  }

  function Weave(ds: seq<Directive>, blanks: seq<string>): string
    requires |ds| == |blanks|
  {
    if ds == [] then [] else ds[0].config + blanks[0] + Weave(ds[1..], blanks[1..])
  }

  /** A text that is empty or starts with a recognised directive: blanks, then the
      directives in order, each followed by blank space. */
  lemma {:induction false} RestCovers(rest: string) returns (lead: string, blanks: seq<string>)
    requires rest == [] || NextHere(rest)
    ensures |blanks| == |Split(rest)| && (forall b <- blanks :: AllSpace(b)) && AllSpace(lead)
    ensures rest == lead + Weave(Split(rest), blanks)
    decreases |rest|, 1
  {
    if rest == [] {
      NothingInEmpty();
      lead, blanks := "", [];
    } else {
      NextIsFirst(rest);
      lead := rest[..|rest| - |DropBlank(rest)|];
      assert rest[FirstStart(rest).value..] == DropBlank(rest);
      blanks := OpenedCovers(DropBlank(rest));
      assert Split(rest) == [DirectiveOf(DropBlank(rest))] + Split(RestOf(DropBlank(rest)));
    }
  }

  lemma {:induction false} OpenedCovers(s: string) returns (blanks: seq<string>)
    requires Opens(s)
    ensures |blanks| == 1 + |Split(RestOf(s))| && forall b <- blanks :: AllSpace(b)
    ensures s == Weave([DirectiveOf(s)] + Split(RestOf(s)), blanks)
    decreases |s|, 0
  {
    var d, rest := DirectiveOf(s), RestOf(s);
    var blank := DirectiveText(s);
    BeforeNextIsFirst(BodyOn(s), BeforeNext(BodyOn(s)));
    var lead, restBlanks := RestCovers(rest);
    blanks := [blank + lead] + restBlanks;
    WeaveFirst(d, Split(rest), blank + lead, restBlanks);
    Regroup(d.config, blank, lead, Weave(Split(rest), restBlanks));
  }

  lemma WeaveFirst(d: Directive, ds: seq<Directive>, blank: string, blanks: seq<string>)
    requires |ds| == |blanks|
    ensures Weave([d] + ds, [blank] + blanks) == (d.config + blank) + Weave(ds, blanks)
  {
    assert ([d] + ds)[1..] == ds && ([blank] + blanks)[1..] == blanks;
  }

  /** From the first directive start on, the text is exactly the directives in
      order, separated by blank space; without a start there are none. */
  lemma SplitCovers(t: string) returns (blanks: seq<string>)
    ensures |blanks| == |Split(t)| && forall b <- blanks :: AllSpace(b)
    ensures FirstStart(t) == None ==> Split(t) == []
    ensures FirstStart(t).Some? ==> t[FirstStart(t).value..] == Weave(Split(t), blanks)
  {
    match FirstStart(t)
    case None =>
      blanks := [];
    case Some(q) =>
      blanks := OpenedCovers(t[q..]);
  }

  // ----- no directive swallows another one -----

  lemma {:induction false} DropBlankAppend(a: string, b: string)
    requires DropBlank(a) != []
    ensures DropBlank(a + b) == DropBlank(a) + b
  {
    if IsBlank(a[0]) {
      assert (a + b)[1..] == a[1..] + b;
      DropBlankAppend(a[1..], b);
    }
  }

  lemma KeywordAppend(a: string, b: string)
    requires LeadingKeyword(a).Some?
    ensures LeadingKeyword(a + b) == LeadingKeyword(a)
  {
  }

  lemma NextHereAppend(a: string, b: string)
    requires NextHere(a)
    ensures NextHere(a + b)
  {
    DropBlankAppend(a, b);
    KeywordAppend(DropBlank(a), b);
  }

  /** Past its keyword and the blanks after it, a directive contains no place at
      which a directive would be recognised. */
  predicate NoneInside(d: Directive) {
    && Word(d.keyword) <= d.config
    && var body := DropBlank(d.config[|Word(d.keyword)|..]);
       forall i :: 0 <= i < |body| ==> !NextHere(body[i..])
  }

  lemma NothingBefore(body: string, rest: string)
    requires |body| <= BeforeNext(body + rest)
    ensures forall i :: 0 <= i < |body| ==> !NextHere(body[i..])
  {
    forall i | 0 <= i < |body|
      ensures !NextHere(body[i..])
    {
      BeforeNextIsFirst(body + rest, i);
      assert (body + rest)[i..] == body[i..] + rest;
      if NextHere(body[i..]) {
        NextHereAppend(body[i..], rest);
      }
    }
  }

  lemma DirectiveIsComplete(s: string)
    requires Opens(s)
    ensures NoneInside(DirectiveOf(s))
  {
    var blank := DirectiveText(s);
    var d := DirectiveOf(s);
    var tail := d.config[|Word(d.keyword)|..];
    var body := DropBlank(tail);
    if body != [] {
      var rest := blank + RestOf(s);
      TailAppend(s, d.config, rest, |Word(d.keyword)|);
      DropBlankAppend(tail, rest);
      assert BodyOn(s) == body + rest;
      NothingBefore(body, rest);
    }
  }

  lemma TailAppend(s: string, a: string, b: string, n: nat)
    requires s == a + b && n <= |a|
    ensures s[n..] == a[n..] + b
  {
  }

  lemma {:induction false} SplitIsComplete(t: string)
    ensures forall d <- Split(t) :: NoneInside(d)
    decreases |t|
  {
    match FirstStart(t)
    case None =>
    case Some(q) =>
      DirectiveIsComplete(t[q..]);
      SplitIsComplete(RestOf(t[q..]));
  }

  // ----- round trip -----

  /** A body that ends with a visible character, has no comment sign, and in which
      no directive would be recognised after its leading blanks. */
  predicate WellFormed(body: string) {
    && EndsVisible(body) && '#' !in body
    && forall i :: 0 <= i < |DropBlank(body)| ==> !NextHere(DropBlank(body)[i..])
  }

  datatype Item = Item(keyword: Keyword, body: string)

  function Config(item: Item): string {
    Word(item.keyword) + " " + item.body
  }

  function Directives(items: seq<Item>): seq<Directive> {
    if items == [] then [] else [Directive(items[0].keyword, Config(items[0]))] + Directives(items[1..])
  }

  function Configs(items: seq<Item>): seq<string> {
    if items == [] then [] else [Config(items[0])] + Configs(items[1..])
  }

  /** The items one after another, one newline between them. */
  function Render(items: seq<Item>): string {
    Join(Configs(items))
  }

  lemma KeywordInside(r: string, post: string, k: Keyword)
    requires Word(k) + " " <= r + post && (post == "" || post[0] == '\n')
    ensures Word(k) + " " <= r
  {
    var w := Word(k) + " ";
    assert forall c <- w :: c != '\n';
    assert w == (r + post)[..|w|] && r == (r + post)[..|r|];
  }

  lemma SpacedKeyword(r: string) returns (k: Keyword)
    requires NextHere("\n" + r) && DropBlank(r) == r
    ensures Word(k) + " " <= r
  {
    assert ("\n" + r)[1..] == r;
    k := LeadingKeyword(r).value;
    LeadingKeywordIs(r, k);
    assert r[..|Word(k)| + 1] == Word(k) + [r[|Word(k)|]];
  }

  lemma SpacedKeywordIs(r: string, k: Keyword)
    requires Word(k) + " " <= r
    ensures LeadingKeyword(r) == Some(k) && |Word(k)| < |r| && r[|Word(k)|] == ' '
  {
    LeadingKeywordIs(r, k);
    assert r[|Word(k)|] == (Word(k) + " ")[|Word(k)|];
  }

  /** Inside a well-formed body nothing is recognised, whatever new line follows. */
  lemma NothingInBody(x: string, post: string)
    requires EndsVisible(x) && (post == "" || post[0] == '\n')
    requires NextHere(x + post)
    ensures NextHere(x)
  {
    VisibleEndStays(x);
    DropBlankAppend(x, post);
    var r := DropBlank(x);
    var s := r + post;
    BlanksDropped(x);
    assert ("\n" + s)[1..] == s && s[0] == r[0];
    var k := SpacedKeyword(s);
    KeywordInside(r, post, k);
    SpacedKeywordIs(r, k);
  }

  lemma VisibleEndStays(x: string)
    requires EndsVisible(x)
    ensures EndsVisible(DropBlank(x))
  {
    BlanksDropped(x);
    assert x[..|x|] == x;
  }

  lemma BodyEndsAt(body: string, post: string)
    requires WellFormed(body) && (post == "" || NextHere(post))
    ensures BeforeNext(DropBlank(body) + post) == |DropBlank(body)|
  {
    VisibleEndStays(body);
    var visible := DropBlank(body);
    var s := visible + post;
    var n := BeforeNext(s);
    BeforeNextIsFirst(s, n);
    BeforeNextIsFirst(s, |visible|);
    assert s[|visible|..] == post;
    if n < |visible| {
      assert s[n..] == visible[n..] + post;
      NothingInBody(visible[n..], post);
    }
  }

  lemma WordOpens(k: Keyword, x: string)
    ensures
      var s := Word(k) + " " + x;
      Opens(s) && LeadingKeyword(s) == Some(k) && BodyOn(s) == DropBlank(x)
  {
    var s := Word(k) + " " + x;
    LeadingKeywordIs(s, k);
    assert s[|Word(k)|..][1..] == x;
  }

  lemma ConfigOpens(item: Item, post: string)
    requires WellFormed(item.body)
    ensures
      var s := Config(item) + post;
      && Opens(s) && LeadingKeyword(s) == Some(item.keyword) && BodyOn(s) == DropBlank(item.body) + post
  {
    VisibleEndStays(item.body);
    DropBlankAppend(item.body, post);
    WordOpens(item.keyword, item.body + post);
    assert Config(item) + post == Word(item.keyword) + " " + (item.body + post);
  }

  /** The first item is cut off exactly. */
  lemma FirstItemCut(item: Item, post: string)
    requires WellFormed(item.body) && (post == "" || NextHere(post))
    ensures
      var s := Config(item) + post;
      && Opens(s) && RestOf(s) == post
      && DirectiveOf(s) == Directive(item.keyword, Config(item))
  {
    var s := Config(item) + post;
    ConfigOpens(item, post);
    BodyEndsAt(item.body, post);
    assert (DropBlank(item.body) + post)[|DropBlank(item.body)|..] == post;
    DirectiveIs(s, Config(item));
    ConfigIsTrimmed(item);
  }

  lemma ConfigIsTrimmed(item: Item)
    requires WellFormed(item.body)
    ensures TrimSpace(Config(item)) == Config(item)
  {
    var c := Config(item);
    assert c == "" + c + "";
    assert c[0] == Word(item.keyword)[0];
    assert c[|c| - 1] == item.body[|item.body| - 1];
    TrimSpaceIs("", c, "");
  }

  lemma ConfigIsFirst(item: Item, post: string)
    requires WellFormed(item.body)
    ensures FirstStart(Config(item) + post) == Some(0)
    ensures NextHere("\n" + (Config(item) + post))
  {
    var s := Config(item) + post;
    ConfigOpens(item, post);
    assert s[0..] == s;
    assert s[0] == Word(item.keyword)[0];
    assert ("\n" + s)[1..] == s;
    assert DropBlank("\n" + s) == s;
    assert s[|Word(item.keyword)|] == ' ';
  }

  /** What follows the first configuration of a rendering. */
  function Following(items: seq<Item>): string
    requires items != []
  {
    if |items| == 1 then "" else "\n" + Render(items[1..])
  }

  lemma RenderFirst(items: seq<Item>)
    requires items != []
    ensures Render(items) == Config(items[0]) + Following(items)
  {
    assert Configs(items)[1..] == Configs(items[1..]);
    if |items| == 1 {
      assert Configs(items[1..]) == [];
    }
  }

  lemma FollowingIsNext(items: seq<Item>)
    requires items != [] && forall item <- items :: WellFormed(item.body)
    ensures Following(items) == "" || NextHere(Following(items))
  {
    if |items| > 1 {
      RenderFirst(items[1..]);
      ConfigIsFirst(items[1], Following(items[1..]));
    }
  }

  lemma SplitNewline(s: string)
    requires NextHere("\n" + s) && s != "" && !IsBlank(s[0])
    requires FirstStart(s) == Some(0)
    ensures Split("\n" + s) == Split(s)
  {
    var t := "\n" + s;
    NextIsFirst(t);
    assert t[1..] == s && DropBlank(t) == s && s[0..] == s;
  }

  lemma SplitFirstItem(item: Item, post: string)
    requires WellFormed(item.body) && (post == "" || NextHere(post))
    ensures Split(Config(item) + post) == [Directive(item.keyword, Config(item))] + Split(post)
  {
    var s := Config(item) + post;
    ConfigIsFirst(item, post);
    FirstItemCut(item, post);
    assert s[0..] == s;
  }

  lemma SplitFollowing(items: seq<Item>)
    requires |items| > 1 && forall item <- items :: WellFormed(item.body)
    ensures Split(Following(items)) == Split(Render(items[1..]))
  {
    var rest := items[1..];
    RenderFirst(rest);
    ConfigIsFirst(rest[0], Following(rest));
    assert Render(rest)[0] == Word(rest[0].keyword)[0];
    SplitNewline(Render(rest));
  }

  lemma {:induction false} SplitRendered(items: seq<Item>)
    requires items != [] && forall item <- items :: WellFormed(item.body)
    ensures Split(Render(items)) == Directives(items)
    decreases |items|
  {
    RenderFirst(items);
    FollowingIsNext(items);
    SplitFirstItem(items[0], Following(items));
    if |items| == 1 {
      NothingInEmpty();
      assert Directives(items[1..]) == [];
    } else {
      SplitFollowing(items);
      SplitRendered(items[1..]);
    }
  }

  lemma {:induction false} ConfigsHaveNoHash(items: seq<Item>)
    requires forall item <- items :: WellFormed(item.body)
    ensures forall c <- Configs(items) :: '#' !in c
  {
    if items != [] {
      ConfigsHaveNoHash(items[1..]);
    }
  }

  lemma WellFormedItemsReturn(items: seq<Item>)
    requires forall item <- items :: WellFormed(item.body)
    ensures Split(Clean(Render(items))) == Directives(items)
  {
    ConfigsHaveNoHash(items);
    CharsOfJoin(Configs(items), '#');
    CleanKeepsCommentFree(Render(items));
    if items == [] {
      NothingInEmpty();
    } else {
      SplitRendered(items);
    }
  }

  /** What every directive that comes out of a cleaned text is like. */
  predicate IsSplitOff(d: Directive) {
    NoneInside(d) && EndsVisible(d.config) && '#' !in d.config
  }

  lemma {:induction false} SplitOff(t: string)
    requires '#' !in t
    ensures forall d <- Split(t) :: IsSplitOff(d)
    decreases |t|
  {
    match FirstStart(t)
    case None =>
    case Some(q) =>
      var s := t[q..];
      var blank := DirectiveText(s);
      DirectiveIsComplete(s);
      assert forall c <- s :: c in t;
      PartsHaveNoHash(s, DirectiveOf(s).config, blank, RestOf(s));
      SplitOff(RestOf(s));
  }

  lemma PartsHaveNoHash(s: string, a: string, b: string, c: string)
    requires s == a + (b + c) && '#' !in s
    ensures '#' !in a && '#' !in c
  {
    assert forall i :: 0 <= i < |a| ==> a[i] == s[i];
    assert forall i :: 0 <= i < |c| ==> c[i] == s[|a| + |b| + i];
  }

  lemma SplitOffIsWellFormed(item: Item)
    requires IsSplitOff(Directive(item.keyword, Config(item)))
    ensures WellFormed(item.body)
  {
    var c, w := Config(item), Word(item.keyword);
    assert c[|w|..] == " " + item.body;
    assert (" " + item.body)[1..] == item.body;
    assert DropBlank(c[|w|..]) == DropBlank(item.body);
    assert forall i :: 0 <= i < |item.body| ==> item.body[i] == c[|w| + 1 + i];
  }

  lemma {:induction false} DirectivesIn(items: seq<Item>, item: Item)
    requires item in items
    ensures Directive(item.keyword, Config(item)) in Directives(items)
  {
    if item != items[0] {
      assert items == [items[0]] + items[1..];
      DirectivesIn(items[1..], item);
    }
  }

  /** Writing directives one after another, cleaning and splitting gives them back
      exactly when every body is well-formed. */
  lemma SplitRoundTrip(items: seq<Item>)
    ensures Split(Clean(Render(items))) == Directives(items) <==> forall item <- items :: WellFormed(item.body)
  {
    if forall item <- items :: WellFormed(item.body) {
      WellFormedItemsReturn(items);
    }
    if Split(Clean(Render(items))) == Directives(items) {
      CleanHasNoHash(Render(items));
      SplitOff(Clean(Render(items)));
      forall item <- items
        ensures WellFormed(item.body)
      {
        DirectivesIn(items, item);
        SplitOffIsWellFormed(item);
      }
    }
  }

  // ----- a keyword without a body -----

  /** The body that an empty one turns into. */
  function Swallowed(next: Item): string {
    "\n" + Config(next)
  }

  lemma SwallowedIsBody(next: Item)
    requires WellFormed(next.body) && forall i :: 0 <= i < |next.body| ==> !NextHere(next.body[i..])
    ensures WellFormed(Swallowed(next))
  {
    var c, n := Config(next), |Word(next.keyword)| + 1;
    assert c[0] == Word(next.keyword)[0] && c[|c| - 1] == next.body[|next.body| - 1];
    assert Swallowed(next)[1..] == c && DropBlank(Swallowed(next)) == c;
    forall i | 0 <= i < |c|
      ensures !NextHere(c[i..])
    {
      if i < n {
        assert c[i..][0] == (Word(next.keyword) + " ")[i] != '\n';
      } else {
        assert c[i..] == next.body[i - n..];
      }
    }
  }

  lemma TwoLines(w: string, c: string, post: string)
    ensures (w + " " + "") + ("\n" + (c + post)) == (w + " " + ("\n" + c)) + post
  {
    Rebracket("\n", c, post);
    Rebracket(w + " ", "\n" + c, post);
    assert w + " " + "" == w + " ";
  }

  lemma RenderSwallowed(k: Keyword, next: Item, rest: seq<Item>)
    ensures Render([Item(k, ""), next] + rest) == Render([Item(k, Swallowed(next))] + rest)
  {
    var two, one := [Item(k, ""), next] + rest, [Item(k, Swallowed(next))] + rest;
    assert two[1..] == [next] + rest && one[1..] == rest && two[1..][1..] == rest;
    RenderFirst(two);
    RenderFirst(two[1..]);
    RenderFirst(one);
    TwoLines(Word(k), Config(next), Following(one));
  }

  /** The empty body fails: its keyword takes the directive that follows it as its
      body, so that the two come out as one, whatever follows them. */
  lemma EmptyBodyTakesNext(k: Keyword, next: Item, rest: seq<Item>)
    requires WellFormed(next.body) && forall i :: 0 <= i < |next.body| ==> !NextHere(next.body[i..])
    requires forall item <- rest :: WellFormed(item.body)
    ensures Split(Clean(Render([Item(k, ""), next] + rest))) == Directives([Item(k, Swallowed(next))] + rest)
  {
    SwallowedIsBody(next);
    RenderSwallowed(k, next, rest);
    WellFormedItemsReturn([Item(k, Swallowed(next))] + rest);
  }

  lemma WordHasNoNext(k: Keyword, x: string)
    ensures BeforeNext(Word(k) + " " + x) > |Word(k)|
  {
    var s := Word(k) + " " + x;
    var n := BeforeNext(s);
    BeforeNextIsFirst(s, n);
    var word := Word(k) + " ";
    assert forall i :: 0 <= i < |word| ==> s[i] == word[i] && s[i] != '\n';
    assert n < |s| ==> s[n..][0] == s[n];
  }

  lemma DropGap(gap: string, x: string)
    requires AllBlank(gap) && x != [] && !IsBlank(x[0])
    ensures DropBlank(gap + x) == x
    decreases |gap|
  {
    if gap == [] {
      assert gap + x == x;
    } else {
      assert (gap + x)[1..] == gap[1..] + x;
      DropGap(gap[1..], x);
    }
  }

  lemma OpenedByWord(t: string, k: Keyword, after: string)
    requires t == Word(k) + after && after != [] && IsBlank(after[0])
    ensures Opens(t) && LeadingKeyword(t) == Some(k) && BodyOn(t) == DropBlank(after)
  {
    LeadingKeywordIs(t, k);
    assert t[|Word(k)|..] == after;
  }

  lemma OpenedIsFirst(t: string)
    requires Opens(t)
    ensures FirstStart(t) == Some(0)
  {
    assert t[0..] == t;
    var k := LeadingKeyword(t).value;
    assert t[0] == Word(k)[0];
  }

  lemma BareKeywordOpens(k: Keyword, gap: string, rest: string)
    requires gap != [] && AllBlank(gap) && rest != [] && !IsBlank(rest[0])
    ensures
      var t := Word(k) + gap + rest;
      Opens(t) && LeadingKeyword(t) == Some(k) && BodyOn(t) == rest && FirstStart(t) == Some(0)
  {
    var t := Word(k) + gap + rest;
    Rebracket(Word(k), gap, rest);
    OpenedByWord(t, k, gap + rest);
    DropGap(gap, rest);
    OpenedIsFirst(t);
  }

  lemma TrimKeepsPrefix(w: string, text: string)
    requires w <= text && w != [] && !IsSpace(w[0]) && EndsVisible(w)
    ensures w <= TrimSpace(text)
  {
    assert text == w + text[|w|..];
    assert TrimLeft(text) == text;
    var blank := TrimRightOf(text);
    WordKept(w, text[|w|..], TrimRight(text), blank);
  }

  lemma TextBegins(a: string, b: string, rest: string, n: nat)
    requires |b| < n <= |rest| && b <= rest
    ensures a + b <= (a + rest)[..|a| + n]
  {
    assert (a + b) == (a + rest)[..|a + b|];
  }

  lemma FirstHolds(t: string, start: string, word: string, rest: string)
    requires Opens(t) && t == start + rest && BodyOn(t) == rest
    requires word <= rest && |word| < BeforeNext(rest)
    requires start != [] && !IsSpace(start[0]) && EndsVisible(word)
    ensures start + word <= DirectiveOf(t).config
  {
    TextBegins(start, word, rest, BeforeNext(rest));
    TrimKeepsPrefix(start + word, t[..|t| - |RestOf(t)|]);
  }

  lemma SplitOpened(t: string)
    requires FirstStart(t) == Some(0)
    ensures Opens(t) && Split(t) != [] && Split(t)[0] == DirectiveOf(t)
  {
    assert t[0..] == t;
  }

  lemma WordIsVisible(k: Keyword, x: string)
    ensures EndsVisible(Word(k)) && Word(k) + x != [] && !IsSpace((Word(k) + x)[0])
  {
    assert (Word(k) + x)[0] == Word(k)[0];
  }

  lemma SpacedWord(k: Keyword, x: string)
    ensures
      var s := Word(k) + " " + x;
      s != [] && !IsBlank(s[0]) && Word(k) <= s && |Word(k)| < BeforeNext(s)
  {
    WordHasNoNext(k, x);
    var s := Word(k) + " " + x;
    assert s[0] == Word(k)[0];
  }

  lemma FirstOfBare(k: Keyword, t: string, start: string, word: string, rest: string)
    requires Opens(t) && LeadingKeyword(t) == Some(k) && BodyOn(t) == rest && FirstStart(t) == Some(0)
    requires t == start + rest && word <= rest && |word| < BeforeNext(rest)
    requires start != [] && !IsSpace(start[0]) && EndsVisible(word)
    ensures Split(t) != [] && Split(t)[0].keyword == k && start + word <= Split(t)[0].config
  {
    FirstHolds(t, start, word, rest);
    SplitOpened(t);
  }

  /** In any text: a keyword that only blanks separate from the next one takes it
      into its own directive. */
  lemma BareKeywordTakesNext(k: Keyword, gap: string, next: Keyword, x: string)
    requires gap != [] && AllBlank(gap)
    ensures
      var ds := Split(Word(k) + gap + (Word(next) + " " + x));
      ds != [] && ds[0].keyword == k && Word(k) + gap + Word(next) <= ds[0].config
  {
    var start, rest := Word(k) + gap, Word(next) + " " + x;
    WordIsVisible(k, gap);
    WordIsVisible(next, "");
    SpacedWord(next, x);
    BareKeywordOpens(k, gap, rest);
    FirstOfBare(k, start + rest, start, Word(next), rest);
  }

  // ----- what the scanners recognise -----

  /** A directive opens with a keyword and any blank. */
  lemma OpensIff(s: string)
    ensures Opens(s) <==> exists k, c, rest :: IsBlank(c) && s == Word(k) + ([c] + rest)
  {
    if Opens(s) {
      var k := LeadingKeyword(s).value;
      var n := |Word(k)|;
      LeadingKeywordIs(s, k);
      assert s == Word(k) + ([s[n]] + s[n + 1..]);
    }
    if k, c, rest :| IsBlank(c) && s == Word(k) + ([c] + rest) {
      LeadingKeywordIs(s, k);
      assert s[|Word(k)|] == ([c] + rest)[0];
    }
  }

  /** The next directive is recognised at a newline, by blanks, a keyword and a space. */
  predicate IsNext(s: string, blanks: string, k: Keyword, rest: string) {
    AllBlank(blanks) && s == "\n" + (blanks + (Word(k) + (" " + rest)))
  }

  lemma NextHereIff(s: string)
    ensures NextHere(s) <==> exists blanks, k, rest :: IsNext(s, blanks, k, rest)
  {
    if NextHere(s) {
      var blanks, k, rest := NextIs(s);
      assert IsNext(s, blanks, k, rest);
    }
    if blanks, k, rest :| IsNext(s, blanks, k, rest) {
      IsNextHere(s, blanks, k, rest);
    }
  }

  lemma NextIs(s: string) returns (blanks: string, k: Keyword, rest: string)
    requires NextHere(s)
    ensures IsNext(s, blanks, k, rest)
  {
    var r := DropBlank(s);
    BlanksDropped(s);
    var before := s[..|s| - |r|];
    k := LeadingKeyword(r).value;
    LeadingKeywordIs(r, k);
    blanks, rest := before[1..], r[|Word(k)| + 1..];
    assert r == Word(k) + (" " + rest);
    assert before == "\n" + blanks;
    Rebracket("\n", blanks, r);
  }

  lemma IsNextHere(s: string, blanks: string, k: Keyword, rest: string)
    requires IsNext(s, blanks, k, rest)
    ensures NextHere(s)
  {
    var r := Word(k) + (" " + rest);
    Rebracket("\n", blanks, r);
    assert r[0] == Word(k)[0];
    DropGap("\n" + blanks, r);
    LeadingKeywordIs(r, k);
    assert r[|Word(k)|] == (" " + rest)[0];
  }

  predicate OnlyBlanks(t: string, p: int, i: int) {
    0 <= p <= i <= |t| && (p == 0 || t[p - 1] == '\n') && forall j :: p <= j < i ==> IsBlank(t[j])
  }

  /** A directive starts on its line after blanks only. */
  lemma {:induction false} FirstOfLineIff(t: string, i: nat)
    requires i <= |t|
    ensures IsFirstOfLine(t, i) <==> exists p :: OnlyBlanks(t, p, i)
    decreases i
  {
    if i == 0 || t[i - 1] == '\n' {
      assert OnlyBlanks(t, i, i);
    } else {
      FirstOfLineIff(t, i - 1);
      if p :| OnlyBlanks(t, p, i) {
        assert p < i && OnlyBlanks(t, p, i - 1);
      }
      if IsBlank(t[i - 1]) && IsFirstOfLine(t, i - 1) {
        var p :| OnlyBlanks(t, p, i - 1);
        assert OnlyBlanks(t, p, i);
      }
    }
  }
}
