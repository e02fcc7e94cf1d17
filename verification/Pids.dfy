/** Pid files (utils/process.go) and the unique ids of checks, both of which rest
    on decimal numerals. A pid is a 64-bit signed integer of the source. */
module Pids {
  import opened Machines
  import opened Text

  const UINT64 := 0x1_0000_0000_0000_0000
  const INT64 := 0x8000_0000_0000_0000

  function Digit(d: nat): char
    requires d < 10
  {
    ('0' as int + d) as char
  }

  predicate IsDigit(c: char) {
    '0' <= c <= '9'
  }

  predicate AllDigits(s: string) {
    forall i :: 0 <= i < |s| ==> IsDigit(s[i])
  }

  /** The shortest decimal numeral. */
  function Decimal(n: nat): (s: string)
    ensures s != [] && AllDigits(s)
  {
    if n < 10 then [Digit(n)] else Decimal(n / 10) + [Digit(n % 10)]
  }

  /** What fmt's %d prints. */
  function Format(n: int): string {
    if n < 0 then "-" + Decimal(-n) else Decimal(n)
  }

  function Value(s: string): nat
    requires AllDigits(s)
  {
    if s == [] then 0
    else 10 * Value(s[..|s| - 1]) + (s[|s| - 1] as int - '0' as int)
  }

  /** strconv.ParseUint in base 10 and 64 bits: digits only, and in range. */
  function ParseUint(s: string): Option<nat> {
    if s == [] || !AllDigits(s) || Value(s) >= UINT64 then None else Some(Value(s))
  }

  lemma {:induction false} ValueOfDecimal(n: nat)
    ensures Value(Decimal(n)) == n
  {
    if n >= 10 {
      ValueOfDecimal(n / 10);
      var s := Decimal(n);
      assert s[..|s| - 1] == Decimal(n / 10);
    }
  }

  lemma DecimalIsInjective(m: nat, n: nat)
    requires Decimal(m) == Decimal(n)
    ensures m == n
  {
    ValueOfDecimal(m);
    ValueOfDecimal(n);
  }

  // ----- pid files -----

  /** Go's conversion of a uint64 to int. */
  function ToInt(n: nat): int
    requires n < UINT64
  {
    if n < INT64 then n else n - UINT64
  }

  /** `content` is None when the file is missing or unreadable; the result is the
      pid (-1 on error) and whether there was no error. */
  function ReadPid(content: Option<string>): (int, bool) {
    match content
    case None => (-1, false)
    case Some(text) =>
      match ParseUint(TrimSpace(Lines(TrimSpace(text))[0]))
      case None => (-1, false)
      case Some(n) => (ToInt(n), true)
  }

  /** The content WritePid gives to the file. */
  function WritePid(pid: int): string {
    Format(pid)
  }

  lemma SpaceIsNoDigit(s: string)
    requires AllDigits(s)
    ensures '\n' !in s && forall i :: 0 <= i < |s| ==> !IsSpace(s[i])
  {
  }

  /** A line without space at its ends. */
  predicate Solid(s: string) {
    s != [] && '\n' !in s && !IsSpace(s[0]) && !IsSpace(s[|s| - 1])
  }

  lemma TrimmedText(before: string, core: string, x: string) returns (tail: string, b: string)
    requires Solid(core) && AllSpace(before)
    ensures TrimSpace(before + core + x) == core + tail
    ensures x == tail + b
  {
    assert before + core + x == before + (core + x);
    TrimLeftIs(before, core + x);
    b := TrimRightOf(core + x);
    var r := TrimRight(core + x);
    CorePrefix(core, x, r, b);
    tail := r[|core|..];
    assert (core + x)[|core|..] == x && (r + b)[|core|..] == tail + b;
  }

  /** The first line of a trimmed text is `core` when only space up to the end, or
      space and a new line, follows it. */
  lemma FirstLine(before: string, core: string, after: string, rest: string)
    requires Solid(core)
    requires AllSpace(before) && AllSpace(after) && '\n' !in after
    requires rest == "" || rest[0] == '\n'
    ensures TrimSpace(Lines(TrimSpace(before + core + after + rest))[0]) == core
  {
    var tail, b := TrimmedText(before, core, after + rest);
    assert before + core + after + rest == before + core + (after + rest);
    var line, more := FirstOf(after, rest, tail, b);
    CoreLine(core, line, more);
    assert core + tail == core + line + more;
  }

  lemma CoreLine(core: string, line: string, more: string)
    requires Solid(core) && AllSpace(line) && '\n' !in line
    requires more == "" || more[0] == '\n'
    ensures TrimSpace(Lines(core + line + more)[0]) == core
  {
    LinesOfPrefix(core + line, more);
    TrimSpaceIs("", core, line);
    assert "" + core + line == core + line;
  }

  lemma CorePrefix(core: string, x: string, r: string, b: string)
    requires core + x == r + b && AllSpace(b) && Solid(core)
    ensures core <= r
  {
    var j := |core| - 1;
    assert (core + x)[j] == core[j];
    assert r == (core + x)[..|r|];
    assert core == r[..|core|];
  }

  /** The blank end of the first line, and what follows that line. */
  lemma FirstOf(after: string, rest: string, tail: string, b: string) returns (line: string, more: string)
    requires after + rest == tail + b
    requires AllSpace(after) && '\n' !in after && (rest == "" || rest[0] == '\n')
    ensures tail == line + more && AllSpace(line) && '\n' !in line
    ensures more == "" || more[0] == '\n'
  {
    assert tail == (after + rest)[..|tail|];
    if |after| <= |tail| {
      line, more := after, tail[|after|..];
      assert tail[..|after|] == after;
      assert more == rest[..|more|];
    } else {
      line, more := tail, "";
      assert tail == after[..|tail|];
    }
  }

  lemma {:induction false} LinesOfPrefix(line: string, more: string)
    requires '\n' !in line && (more == "" || more[0] == '\n')
    ensures Lines(line + more)[0] == line
  {
    if more == "" {
      LinesOfOne(line);
      assert line + more == line;
    } else {
      LinesOfFirst(line, more[1..]);
      assert line + more == line + "\n" + more[1..];
    }
  }

  lemma ReadTrimmed(text: string, core: string)
    requires TrimSpace(Lines(TrimSpace(text))[0]) == core && core != []
    ensures
      ReadPid(Some(text)) ==
        if AllDigits(core) && Value(core) < UINT64 then
          (if Value(core) < INT64 then Value(core) else Value(core) - UINT64, true)
        else (-1, false)
  {
  }

  /** What is read from a file depends on its first line only: it must be a numeral
      below 2^64, which is read as a signed number. */
  lemma ReadPidIs(core: string, before: string, after: string, rest: string)
    requires Solid(core)
    requires AllSpace(before) && AllSpace(after) && '\n' !in after && (rest == "" || rest[0] == '\n')
    ensures
      ReadPid(Some(before + core + after + rest)) ==
        if AllDigits(core) && Value(core) < UINT64 then
          (if Value(core) < INT64 then Value(core) else Value(core) - UINT64, true)
        else (-1, false)
  {
    FirstLine(before, core, after, rest);
    ReadTrimmed(before + core + after + rest, core);
  }

  /** A missing or blank file has no pid. */
  lemma NoPid(blank: string)
    requires AllSpace(blank)
    ensures ReadPid(None) == ReadPid(Some(blank)) == (-1, false)
  {
    TrimSpaceIs(blank, "", "");
    assert blank + "" + "" == blank;
    LinesOfOne("");
    TrimSpaceIs("", "", "");
    assert "" + "" + "" == "";
  }

  /** A pid that fits in 63 bits is read back, whatever space surrounds it and
      whatever lines follow. */
  lemma PidRoundTrip(pid: nat, before: string, after: string, rest: string)
    requires pid < INT64
    requires AllSpace(before) && AllSpace(after) && '\n' !in after && (rest == "" || rest[0] == '\n')
    ensures ReadPid(Some(before + WritePid(pid) + after + rest)) == (pid, true)
  {
    SpaceIsNoDigit(Decimal(pid));
    ReadPidIs(Decimal(pid), before, after, rest);
    ValueOfDecimal(pid);
  }

  /** What WritePid writes is read back without error exactly for the pids that
      are not negative. */
  lemma PidReadBackIff(pid: int)
    requires -INT64 <= pid < INT64
    ensures ReadPid(Some(WritePid(pid))) == (if pid >= 0 then (pid, true) else (-1, false))
  {
    if pid >= 0 {
      PidRoundTrip(pid, "", "", "");
      assert "" + WritePid(pid) + "" + "" == WritePid(pid);
    } else {
      var s := WritePid(pid);
      SpaceIsNoDigit(Decimal(-pid));
      assert s[0] == '-' && s[|s| - 1] == Decimal(-pid)[|s| - 2];
      TrimSpaceIs("", s, "");
      assert "" + s + "" == s;
      LinesOfOne(s);
      assert !IsDigit(s[0]);
    }
  }

  // ----- unique ids -----

  /** GetUniqueID: the id and the address of the check object. */
  function UniqueID(id: string, address: nat): string {
    id + "-" + Decimal(address)
  }

  /** Different check objects have different unique ids, even with equal ids or
      with ids that end in numbers. */
  lemma UniqueIDIsInjective(id1: string, address1: nat, id2: string, address2: nat)
    requires UniqueID(id1, address1) == UniqueID(id2, address2)
    ensures id1 == id2 && address1 == address2
  {
    SameDash(id1, Decimal(address1), id2, Decimal(address2));
    DecimalIsInjective(address1, address2);
  }

  lemma SameDash(a: string, m: string, b: string, n: string)
    requires a + "-" + m == b + "-" + n && AllDigits(m) && AllDigits(n)
    ensures a == b && m == n
  {
    var s := a + "-" + m;
    assert s[|a|] == '-' && s[|b|] == '-';
    assert forall i :: |a| < i < |s| ==> s[i] == m[i - |a| - 1];
    assert forall i :: |b| < i < |s| ==> s[i] == n[i - |b| - 1];
    assert a == s[..|a|] && b == s[..|b|];
    assert m == s[|a| + 1..] && n == s[|b| + 1..];
  }
}
