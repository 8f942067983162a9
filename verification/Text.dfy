/** The text primitives both file formats rest on: number printing and `from_chars`
    parsing, `getline` line splitting, and splitting a line at its first three tabs. */
module Text {
  import opened Wrappers

  // ---------- numbers ----------

  const DIGITS: string := "0123456789ABCDEF"

  /** The value of a digit in either case; 16 or more when `c` is no digit of `base`. */
  function DigitValue(c: char): nat {
    if '0' <= c <= '9' then (c - '0') as nat
    else if 'A' <= c <= 'F' then (c - 'A') as nat + 10
    else if 'a' <= c <= 'f' then (c - 'a') as nat + 10
    else 16
  }

  predicate IsBase(base: nat) {
    base == 10 || base == 16
  }

  function DigitChar(d: nat): (c: char)
    requires d < 16
    ensures DigitValue(c) == d
  {
    DIGITS[d]
  }

  /** Stream output of an unsigned number (upper-case letters above nine). */
  function Print(n: nat, base: nat): (s: string)
    requires IsBase(base)
    ensures |s| > 0
    ensures forall i :: 0 <= i < |s| ==> DigitValue(s[i]) < base
  {
    if n < base then [DigitChar(n)] else Print(n / base, base) + [DigitChar(n % base)]
  }

  function DigitRun(s: string, base: nat): (n: nat)
    ensures n <= |s|
    ensures forall i :: 0 <= i < n ==> DigitValue(s[i]) < base
    ensures n < |s| ==> DigitValue(s[n]) >= base
  {
    if s == "" || DigitValue(s[0]) >= base then 0 else 1 + DigitRun(s[1..], base)
  }

  function ValueOf(s: string, base: nat): nat {
    if s == "" then 0 else ValueOf(s[..|s| - 1], base) * base + DigitValue(s[|s| - 1])
  }

  datatype Parsed = Parsed(value: nat, used: nat)

  /** `std::from_chars` for an unsigned type below `limit`: the longest run of digits, an error
      when it is empty or out of range, whatever follows left unread. */
  function FromChars(s: string, base: nat, limit: nat): Option<Parsed> {
    var n := DigitRun(s, base);
    if n == 0 || ValueOf(s[..n], base) >= limit then None
    else Some(Parsed(ValueOf(s[..n], base), n))
  }

  lemma {:induction false} ValueOfPrint(n: nat, base: nat)
    requires IsBase(base)
    ensures ValueOf(Print(n, base), base) == n
  {
    var s := Print(n, base);
    if n >= base {
      ValueOfPrint(n / base, base);
      assert s[..|s| - 1] == Print(n / base, base);
    } else {
      assert s[..0] == "";
    }
  }

  lemma {:induction false} DigitRunStops(s: string, rest: string, base: nat)
    requires forall i :: 0 <= i < |s| ==> DigitValue(s[i]) < base
    requires rest == "" || DigitValue(rest[0]) >= base
    ensures DigitRun(s + rest, base) == |s|
  {
    if s == "" {
      assert s + rest == rest;
    } else {
      assert (s + rest)[1..] == s[1..] + rest;
      DigitRunStops(s[1..], rest, base);
    }
  }

  /** Printing then parsing gives the number back, whatever non-digit text follows. */
  lemma PrintParse(n: nat, base: nat, limit: nat, rest: string)
    requires IsBase(base) && n < limit
    requires rest == "" || DigitValue(rest[0]) >= base
    ensures FromChars(Print(n, base) + rest, base, limit) == Some(Parsed(n, |Print(n, base)|))
  {
    var s := Print(n, base);
    DigitRunStops(s, rest, base);
    assert (s + rest)[..|s|] == s;
    ValueOfPrint(n, base);
  }

  lemma PrintParseAll(n: nat, base: nat, limit: nat)
    requires IsBase(base) && n < limit
    ensures FromChars(Print(n, base), base, limit) == Some(Parsed(n, |Print(n, base)|))
  {
    PrintParse(n, base, limit, "");
    assert Print(n, base) + "" == Print(n, base);
  }

  /** A number out of range is refused, and so is text that does not start with a digit. */
  lemma ParseRefuses(n: nat, base: nat, limit: nat, rest: string)
    requires IsBase(base) && (rest == "" || DigitValue(rest[0]) >= base)
    ensures n >= limit ==> FromChars(Print(n, base) + rest, base, limit) == None
    ensures FromChars(rest, base, limit) == None
  {
    var s := Print(n, base);
    DigitRunStops(s, rest, base);
    assert (s + rest)[..|s|] == s;
    ValueOfPrint(n, base);
  }

  // ---------- searching ----------

  /** The first position of `c` at or after `from`, or the length of `s`. */
  function IndexOf(s: string, c: char, from: nat): (i: nat)
    requires from <= |s|
    ensures from <= i <= |s|
    ensures forall j :: from <= j < i ==> s[j] != c
    ensures i < |s| ==> s[i] == c
    decreases |s| - from
  {
    if from == |s| || s[from] == c then from else IndexOf(s, c, from + 1)
  }

  lemma IndexOfIs(s: string, c: char, from: nat, i: nat)
    requires from <= i <= |s|
    requires forall j :: from <= j < i ==> s[j] != c
    requires i < |s| ==> s[i] == c
    ensures IndexOf(s, c, from) == i
  {
  }

  // ---------- lines ----------

  /** The lines a `getline` loop reads: a final newline ends the last line and opens no new one. */
  function Lines(t: string): seq<string>
    decreases |t|
  {
    if t == "" then []
    else
      var k := IndexOf(t, '\n', 0);
      if k == |t| then [t] else [t[..k]] + Lines(t[k + 1..])
  }

  function Unlines(lines: seq<string>): string {
    if lines == [] then "" else lines[0] + "\n" + Unlines(lines[1..])
  }

  lemma {:induction false} LinesOfUnlines(lines: seq<string>)
    requires forall i :: 0 <= i < |lines| ==> '\n' !in lines[i]
    ensures Lines(Unlines(lines)) == lines
  {
    if lines != [] {
      var t := Unlines(lines);
      var rest := Unlines(lines[1..]);
      assert '\n' !in lines[0];
      assert forall j :: 0 <= j < |lines[0]| ==> t[j] == lines[0][j];
      assert t[|lines[0]|] == '\n';
      IndexOfIs(t, '\n', 0, |lines[0]|);
      assert t[..|lines[0]|] == lines[0];
      assert t[|lines[0]| + 1..] == rest;
      LinesOfUnlines(lines[1..]);
    }
  }

  lemma FirstLineEnds(line: string, rest: string)
    requires '\n' !in line
    ensures Lines(line + "\n" + rest) == [line] + Lines(rest)
  {
    var t := line + "\n" + rest;
    assert forall j :: 0 <= j < |line| ==> t[j] == line[j];
    assert t[|line|] == '\n';
    IndexOfIs(t, '\n', 0, |line|);
    assert t[..|line|] == line && t[|line| + 1..] == rest;
  }

  lemma OneOpenLine(line: string)
    requires line != "" && '\n' !in line
    ensures Lines(line) == [line]
  {
    IndexOfIs(line, '\n', 0, |line|);
  }

  lemma UnlinesFront(lines: seq<string>, last: string)
    requires lines != []
    ensures Unlines(lines) + last == lines[0] + "\n" + (Unlines(lines[1..]) + last)
  {
  }

  /** A last line needs no newline. */
  lemma {:induction false} LinesOfOpenEnd(lines: seq<string>, last: string)
    requires forall i :: 0 <= i < |lines| ==> '\n' !in lines[i]
    requires last != "" && '\n' !in last
    ensures Lines(Unlines(lines) + last) == lines + [last]
  {
    if lines == [] {
      OneOpenLine(last);
      assert "" + last == last;
    } else {
      UnlinesFront(lines, last);
      FirstLineEnds(lines[0], Unlines(lines[1..]) + last);
      LinesOfOpenEnd(lines[1..], last);
    }
  }

  /** The first line is the text up to its first newline, or all of it. */
  lemma FirstLineMeaning(t: string, line: string)
    requires line != "" && '\n' !in line
    ensures Lines(t) != [] && Lines(t)[0] == line <==> t == line || line + "\n" <= t
  {
    if t == line {
      IndexOfIs(t, '\n', 0, |t|);
    } else if line + "\n" <= t {
      var rest := t[|line| + 1..];
      assert t == line + "\n" + rest;
      FirstLineEnds(line, rest);
    } else if t != "" {
      var k := IndexOf(t, '\n', 0);
      if k < |t| {
        assert t == t[..k] + "\n" + t[k + 1..];
      }
    }
  }

  // ---------- documents: a header line and a body ----------

  function Document(header: string, lines: seq<string>): string {
    Unlines([header] + lines)
  }

  lemma EmptyDocument(header: string)
    ensures Document(header, []) == header + "\n"
  {
    assert [header] + [] == [header];
    assert Unlines([header][1..]) == "";
  }

  lemma DocumentGrows(header: string, lines: seq<string>, i: nat)
    requires i < |lines|
    ensures Document(header, lines[..i + 1]) == Document(header, lines[..i]) + lines[i] + "\n"
  {
    assert [header] + lines[..i + 1] == ([header] + lines[..i]) + [lines[i]];
    UnlinesAppend([header] + lines[..i], lines[i]);
  }

  function LinesOf<E>(es: seq<E>, lineOf: E -> string): seq<string> {
    seq(|es|, i requires 0 <= i < |es| => lineOf(es[i]))
  }

  /** The save loop of both formats: the header, then one line per entry. */
  method WriteDocument<E>(header: string, es: seq<E>, lineOf: E -> string) returns (text: string)
    ensures text == Document(header, LinesOf(es, lineOf))
  {
    text := header + "\n";
    EmptyDocument(header);
    ghost var lines := LinesOf(es, lineOf);
    for i := 0 to |es|
      invariant text == Document(header, lines[..i])
    {
      DocumentGrows(header, lines, i);
      text := text + lineOf(es[i]) + "\n";
    }
    assert lines[..|lines|] == lines;
  }

  /** A document of newline-free lines reads back as its header and those lines. */
  lemma LinesOfDocument(header: string, lines: seq<string>)
    requires '\n' !in header && forall i :: 0 <= i < |lines| ==> '\n' !in lines[i]
    ensures Lines(Document(header, lines)) == [header] + lines
  {
    LinesOfUnlines([header] + lines);
  }

  lemma {:induction false} LinesHaveNoNewline(t: string)
    ensures forall l :: l in Lines(t) ==> '\n' !in l
    decreases |t|
  {
    if t != "" {
      var k := IndexOf(t, '\n', 0);
      if k < |t| {
        LinesHaveNoNewline(t[k + 1..]);
      }
    }
  }

  lemma {:induction false} UnlinesAppend(lines: seq<string>, last: string)
    ensures Unlines(lines + [last]) == Unlines(lines) + last + "\n"
  {
    if lines == [] {
      assert lines + [last] == [last];
      assert Unlines([last][1..]) == "";
    } else {
      assert (lines + [last])[1..] == lines[1..] + [last];
      UnlinesAppend(lines[1..], last);
    }
  }

  /** One `getline` call at `pos`: fails only at the end of the text. */
  method GetLine(t: string, pos: nat) returns (ok: bool, line: string, next: nat)
    requires pos <= |t|
    ensures ok <==> Lines(t[pos..]) != []
    ensures pos <= next <= |t|
    ensures ok ==> next > pos && Lines(t[pos..]) == [line] + Lines(t[next..])
    ensures !ok ==> next == pos
  {
    if pos == |t| {
      return false, "", pos;
    }
    var rest := t[pos..];
    var k := IndexOf(rest, '\n', 0);
    if k == |rest| {
      assert t[|t|..] == "";
      return true, rest, |t|;
    }
    assert rest[k + 1..] == t[pos + k + 1..];
    return true, rest[..k], pos + k + 1;
  }

  // ---------- tab-separated fields ----------

  datatype Fields = Fields(first: string, second: string, third: string, rest: string)

  datatype Cut = Cut(head: string, tail: string)

  function CutTab(s: string): Option<Cut> {
    var k := IndexOf(s, '\t', 0);
    if k == |s| then None else Some(Cut(s[..k], s[k + 1..]))
  }

  /** A line cut at its first three tabs; later tabs stay in the last field. */
  function SplitFields(line: string): Option<Fields> {
    match CutTab(line)
    case None => None
    case Some(a) =>
      match CutTab(a.tail)
      case None => None
      case Some(b) =>
        match CutTab(b.tail)
        case None => None
        case Some(c) => Some(Fields(a.head, b.head, c.head, c.tail))
  }

  function JoinFields(f: Fields): string {
    f.first + "\t" + (f.second + "\t" + (f.third + "\t" + f.rest))
  }

  lemma CutOfJoin(head: string, tail: string)
    requires '\t' !in head
    ensures CutTab(head + "\t" + tail) == Some(Cut(head, tail))
  {
    var s := head + "\t" + tail;
    assert s[|head|] == '\t' && forall j :: 0 <= j < |head| ==> s[j] == head[j];
    IndexOfIs(s, '\t', 0, |head|);
    assert s[..|head|] == head && s[|head| + 1..] == tail;
  }

  lemma SplitOfJoin(f: Fields)
    requires '\t' !in f.first && '\t' !in f.second && '\t' !in f.third
    ensures SplitFields(JoinFields(f)) == Some(f)
  {
    CutOfJoin(f.third, f.rest);
    CutOfJoin(f.second, f.third + "\t" + f.rest);
    CutOfJoin(f.first, f.second + "\t" + (f.third + "\t" + f.rest));
  }

  lemma CutMeaning(s: string)
    ensures match CutTab(s)
            case Some(c) => s == c.head + "\t" + c.tail && '\t' !in c.head
            case None => '\t' !in s
  {
    var k := IndexOf(s, '\t', 0);
    if k < |s| {
      assert s == s[..k] + "\t" + s[k + 1..];
    }
  }

  /** Cutting gives the one way to read a line as four fields of which only the last holds tabs, and
      fails when there is none. */
  lemma SplitMeaning(line: string, f: Fields)
    ensures SplitFields(line) == Some(f) <==>
            line == JoinFields(f) && '\t' !in f.first && '\t' !in f.second && '\t' !in f.third
  {
    if line == JoinFields(f) && '\t' !in f.first && '\t' !in f.second && '\t' !in f.third {
      SplitOfJoin(f);
    }
    CutMeaning(line);
    if CutTab(line).Some? {
      var a := CutTab(line).value;
      CutMeaning(a.tail);
      if CutTab(a.tail).Some? {
        CutMeaning(CutTab(a.tail).value.tail);
      }
    }
  }

  /** What a line means, if it has four fields. */
  function ReadFrom<T>(line: string, read: Fields -> Option<T>): Option<T> {
    match SplitFields(line)
    case None => None
    case Some(f) => read(f)
  }

  lemma ReadJoined<T>(f: Fields, read: Fields -> Option<T>)
    requires '\t' !in f.first && '\t' !in f.second && '\t' !in f.third
    ensures ReadFrom(JoinFields(f), read) == read(f)
  {
    SplitOfJoin(f);
  }

  lemma JoinHasNoNewline(f: Fields)
    requires '\n' !in f.first && '\n' !in f.second && '\n' !in f.third && '\n' !in f.rest
    ensures '\n' !in JoinFields(f)
  {
  }
}
