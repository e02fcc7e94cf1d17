/** `cleanLines` of monitor/parsing.go: dropping comments from a configuration. */
module Cleaner {
  import opened Machines
  import opened Text

  /** The first position from `i` on that is not blank, or the length. */
  function SkipBlank(s: string, i: nat): (j: nat)
    requires i <= |s|
    ensures i <= j <= |s| && (forall k :: i <= k < j ==> IsBlank(s[k]))
    ensures j < |s| ==> !IsBlank(s[j])
    decreases |s| - i
  {
    if i < |s| && IsBlank(s[i]) then SkipBlank(s, i + 1) else i
  }

  /** The first '#' from `i` on, or the length. */
  function HashFrom(s: string, i: nat): (j: nat)
    requires i <= |s|
    ensures i <= j <= |s| && '#' !in s[i..j] && (j < |s| ==> s[j] == '#')
    decreases |s| - i
  {
    if i < |s| && s[i] != '#' then
      var j := HashFrom(s, i + 1);
      assert s[i..j] == [s[i]] + s[i + 1..j];
      j
    else i
  }

  /** What becomes of one line: a comment line is dropped; a line that ends in a
      comment keeps what lies between its leading blanks and the first '#'; any
      other line is kept as it is, leading blanks included. */
  function CleanLine(l: string): Option<string> {
    var i := SkipBlank(l, 0);
    if i < |l| && l[i] == '#' then None
    else if HashFrom(l, i) < |l| then Some(l[i..HashFrom(l, i)])
    else Some(l)
  }

  function Kept(ls: seq<string>): seq<string> {
    if ls == [] then []
    else
      match CleanLine(ls[0])
      case None => Kept(ls[1..])
      case Some(l) => [l] + Kept(ls[1..])
  }

  function Clean(data: string): string {
    Join(Kept(Lines(data)))
  }

  lemma {:induction false} KeptAppend(a: seq<string>, b: seq<string>)
    ensures Kept(a + b) == Kept(a) + Kept(b)
  {
    if a == [] {
      assert a + b == b;
    } else {
      assert (a + b)[1..] == a[1..] + b;
      KeptAppend(a[1..], b);
    }
  }

  method CleanLines(data: string) returns (r: string)
    ensures r == Clean(data)
  {
    var ls := Lines(data);
    var result := [];
    for i := 0 to |ls|
      invariant result == Kept(ls[..i])
    {
      assert ls[..i + 1] == ls[..i] + [ls[i]];
      KeptAppend(ls[..i], [ls[i]]);
      match CleanLine(ls[i]) {
        case None =>
        case Some(l) => result := result + [l];
      }
    }
    assert ls[..|ls|] == ls;
    return Join(result);
  }

  lemma CleanLineHasNoHash(l: string)
    ensures CleanLine(l).Some? ==> '#' !in CleanLine(l).value && forall c <- CleanLine(l).value :: c in l
  {
    var i := SkipBlank(l, 0);
    var j := HashFrom(l, i);
    if j == |l| {
      assert l == l[..i] + l[i..j];
      assert forall c <- l[..i] :: IsBlank(c);
    }
  }

  lemma CommentFreeLine(l: string)
    requires '#' !in l
    ensures CleanLine(l) == Some(l)
  {
  }

  lemma {:induction false} KeptLinesAreClean(ls: seq<string>)
    ensures forall l <- Kept(ls) :: '#' !in l
    ensures (forall l <- ls :: '\n' !in l) ==> forall l <- Kept(ls) :: '\n' !in l
  {
    if ls != [] {
      KeptLinesAreClean(ls[1..]);
      CleanLineHasNoHash(ls[0]);
    }
  }

  lemma {:induction false} CommentFreeLinesAreKept(ls: seq<string>)
    requires forall l <- ls :: '#' !in l
    ensures Kept(ls) == ls
  {
    if ls != [] {
      CommentFreeLine(ls[0]);
      CommentFreeLinesAreKept(ls[1..]);
      assert ls == [ls[0]] + ls[1..];
    }
  }

  /** No comment survives. */
  lemma CleanHasNoHash(data: string)
    ensures '#' !in Clean(data)
  {
    KeptLinesAreClean(Lines(data));
    CharsOfJoin(Kept(Lines(data)), '#');
  }

  /** Text without comments is returned unchanged, blank lines and all. */
  lemma CleanKeepsCommentFree(data: string)
    requires '#' !in data
    ensures Clean(data) == data
  {
    JoinOfLines(data);
    CharsOfJoin(Lines(data), '#');
    CommentFreeLinesAreKept(Lines(data));
  }

  lemma CleanTwice(data: string)
    ensures Clean(Clean(data)) == Clean(data)
  {
    CleanHasNoHash(data);
    CleanKeepsCommentFree(Clean(data));
  }

  /** Kept lines are never merged or split: the lines of the output are exactly
      the kept lines (one empty line when nothing is kept). */
  lemma KeptLinesStayApart(data: string)
    ensures Lines(Clean(data)) == if Kept(Lines(data)) == [] then [[]] else Kept(Lines(data))
  {
    KeptLinesAreClean(Lines(data));
    if Kept(Lines(data)) != [] {
      LinesOfJoin(Kept(Lines(data)));
    }
  }

  // ----- what stays of a line -----

  /** A line: a comment, a body that ends in a comment, or text without one. */
  datatype Line =
    | Comment(blanks: string, tail: string)
    | Ended(blanks: string, body: string, tail: string)
    | Plain(text: string)

  predicate Blank(s: string) {
    forall i :: 0 <= i < |s| ==> IsBlank(s[i])
  }

  predicate IsLine(l: Line) {
    match l
    case Comment(blanks, _) => Blank(blanks)
    case Ended(blanks, body, _) => Blank(blanks) && body != [] && !IsBlank(body[0]) && '#' !in body
    case Plain(text) => '#' !in text
  }

  function Written(l: Line): string {
    match l
    case Comment(blanks, tail) => blanks + "#" + tail
    case Ended(blanks, body, tail) => blanks + body + "#" + tail
    case Plain(text) => text
  }

  /** A comment line goes away, a body loses its leading blanks and its comment, and
      other text stays as it is. */
  function Remains(l: Line): Option<string> {
    match l
    case Comment(_, _) => None
    case Ended(_, body, _) => Some(body)
    case Plain(text) => Some(text)
  }

  lemma {:induction false} SkipBlankTo(s: string, i: nat, j: nat)
    requires i <= j <= |s| && (forall k :: i <= k < j ==> IsBlank(s[k])) && (j < |s| ==> !IsBlank(s[j]))
    ensures SkipBlank(s, i) == j
    decreases j - i
  {
    if i < j {
      SkipBlankTo(s, i + 1, j);
    }
  }

  lemma {:induction false} HashFromTo(s: string, i: nat, j: nat)
    requires i <= j < |s| && (forall k :: i <= k < j ==> s[k] != '#') && s[j] == '#'
    ensures HashFrom(s, i) == j
    decreases j - i
  {
    if i < j {
      HashFromTo(s, i + 1, j);
    }
  }

  lemma CommentIsDropped(blanks: string, tail: string)
    requires Blank(blanks)
    ensures CleanLine(blanks + "#" + tail) == None
  {
    SkipBlankTo(blanks + "#" + tail, 0, |blanks|);
  }

  lemma EndedKeepsBody(blanks: string, body: string, tail: string)
    requires Blank(blanks) && body != [] && !IsBlank(body[0]) && '#' !in body
    ensures CleanLine(blanks + body + "#" + tail) == Some(body)
  {
    var l := blanks + body + "#" + tail;
    var i, j := |blanks|, |blanks + body|;
    assert forall k :: i <= k < j ==> l[k] == body[k - i];
    SkipBlankTo(l, 0, i);
    HashFromTo(l, i, j);
    assert l[i..j] == body;
  }

  /** What remains of every line that can be written. */
  lemma CleanLineIs(l: Line)
    requires IsLine(l)
    ensures CleanLine(Written(l)) == Remains(l)
  {
    match l
    case Comment(blanks, tail) => CommentIsDropped(blanks, tail);
    case Ended(blanks, body, tail) => EndedKeepsBody(blanks, body, tail);
    case Plain(text) => CommentFreeLine(text);
  }

  /** Every line is written in one of the three ways, so the above says what cleaning
      does to any line. */
  lemma EveryLineIsWritten(text: string) returns (l: Line)
    ensures IsLine(l) && Written(l) == text
  {
    var i := SkipBlank(text, 0);
    var j := HashFrom(text, i);
    if j == |text| {
      CommentFreeAfterBlanks(text, i);
      l := Plain(text);
    } else if i == j {
      l := Comment(text[..i], text[i + 1..]);
      assert text == text[..i] + "#" + text[i + 1..];
    } else {
      l := Ended(text[..i], text[i..j], text[j + 1..]);
      assert text == text[..i] + text[i..j] + "#" + text[j + 1..];
    }
  }

  lemma CommentFreeAfterBlanks(text: string, i: nat)
    requires i <= |text| && (forall k :: 0 <= k < i ==> IsBlank(text[k])) && '#' !in text[i..]
    ensures '#' !in text
  {
    assert text == text[..i] + text[i..];
  }

  /** A line is dropped exactly when its first visible character is '#'. */
  lemma DroppedIff(text: string)
    ensures CleanLine(text) == None <==> exists blanks, tail :: Blank(blanks) && text == blanks + "#" + tail
  {
    var l := EveryLineIsWritten(text);
    CleanLineIs(l);
    if blanks, tail :| Blank(blanks) && text == blanks + "#" + tail {
      CommentIsDropped(blanks, tail);
    }
  }

  function AllWritten(ls: seq<Line>): seq<string> {
    if ls == [] then [] else [Written(ls[0])] + AllWritten(ls[1..])
  }

  function AllRemains(ls: seq<Line>): seq<string> {
    if ls == [] then []
    else (if Remains(ls[0]).Some? then [Remains(ls[0]).value] else []) + AllRemains(ls[1..])
  }

  lemma {:induction false} KeptIs(ls: seq<Line>)
    requires forall l <- ls :: IsLine(l)
    ensures Kept(AllWritten(ls)) == AllRemains(ls)
  {
    if ls != [] {
      CleanLineIs(ls[0]);
      KeptIs(ls[1..]);
    }
  }

  lemma {:induction false} NoNewlines(ls: seq<Line>)
    requires forall l <- ls :: '\n' !in Written(l)
    ensures forall t <- AllWritten(ls) :: '\n' !in t
  {
    if ls != [] {
      NoNewlines(ls[1..]);
    }
  }

  /** Cleaning a text leaves exactly what remains of its lines, in order. */
  lemma CleanIs(ls: seq<Line>)
    requires ls != [] && forall l <- ls :: IsLine(l) && '\n' !in Written(l)
    ensures Clean(Join(AllWritten(ls))) == Join(AllRemains(ls))
  {
    NoNewlines(ls);
    LinesOfJoin(AllWritten(ls));
    KeptIs(ls);
  }
}
