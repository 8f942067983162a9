/** Byte signatures: the two parsers of the signature syntax and the scan anchor. */
module Pattern {
  import opened Wrappers
  import opened Machine
  import opened Text

  datatype Token = Exact(value: byte) | Wildcard

  datatype PatternError = InvalidToken(token: string) | InvalidByte(token: string) | EmptyPattern

  datatype Pattern = Pattern(source: string, tokens: seq<Token>, anchorOffset: nat, anchorLength: nat)

  // ---------- reference reading of a signature ----------

  predicate IsSpace(c: char) {
    c == ' ' || '\t' <= c <= '\r'
  }

  /** The first space at or after `from`, or the length of `s`. */
  function WordEnd(s: string, from: nat): (i: nat)
    requires from <= |s|
    ensures from <= i <= |s|
    ensures forall j :: from <= j < i ==> !IsSpace(s[j])
    ensures i < |s| ==> IsSpace(s[i])
    decreases |s| - from
  {
    if from == |s| || IsSpace(s[from]) then from else WordEnd(s, from + 1)
  }

  /** The maximal space-free words of `s` from position `from` on. */
  function Words(s: string, from: nat): seq<string>
    requires from <= |s|
    decreases |s| - from
  {
    if from == |s| then []
    else if IsSpace(s[from]) then Words(s, from + 1)
    else [s[from..WordEnd(s, from + 1)]] + Words(s, WordEnd(s, from + 1))
  }

  function ParseToken(t: string): Result<Token, PatternError> {
    if t == "?" || t == "??" then Success(Wildcard)
    else if |t| != 2 then Failure(InvalidToken(t))
    else match FromChars(t, 16, 0x1_0000_0000)
      case Some(p) =>
        if p.used == |t| && p.value <= 0xFF then Success(Exact(p.value)) else Failure(InvalidByte(t))
      case None => Failure(InvalidByte(t))
  }

  /** All words as tokens, or the error of the first bad word. */
  function ParseTokens(words: seq<string>): (r: Result<seq<Token>, PatternError>)
    ensures r.Success? ==> |r.value| == |words|
  {
    if words == [] then Success([])
    else match ParseToken(words[0])
      case Failure(e) => Failure(e)
      case Success(t) =>
        match ParseTokens(words[1..])
        case Failure(e) => Failure(e)
        case Success(ts) => Success([t] + ts)
  }

  function TokensOf(signature: string): Result<seq<Token>, PatternError> {
    match ParseTokens(Words(signature, 0))
    case Failure(e) => Failure(e)
    case Success(ts) => if ts == [] then Failure(EmptyPattern) else Success(ts)
  }

  lemma {:induction false} ParseTokensAppend(words: seq<string>, last: string)
    ensures ParseTokens(words + [last]) ==
            match ParseTokens(words)
            case Failure(e) => Failure(e)
            case Success(ts) => (match ParseToken(last)
                                 case Failure(e) => Failure(e)
                                 case Success(t) => Success(ts + [t]))
  {
    if words == [] {
      assert words + [last] == [last];
      assert ParseTokens([last][1..]) == Success([]);
      if ParseToken(last).Success? {
        assert [] + [ParseToken(last).value] == [ParseToken(last).value] + [];
      }
    } else {
      assert (words + [last])[1..] == words[1..] + [last];
      ParseTokensAppend(words[1..], last);
      assert (words + [last])[0] == words[0];
      if ParseTokens(words).Success? && ParseToken(last).Success? {
        var t, ts, t' := ParseToken(words[0]).value, ParseTokens(words[1..]).value, ParseToken(last).value;
        assert [t] + (ts + [t']) == ([t] + ts) + [t'];
      }
    }
  }

  /** A failing prefix decides the whole signature. */
  lemma {:induction false} ParseTokensPrefixFails(words: seq<string>, rest: seq<string>)
    requires ParseTokens(words).Failure?
    ensures ParseTokens(words + rest) == ParseTokens(words)
  {
    assert words != [];
    assert (words + rest)[1..] == words[1..] + rest;
    if ParseToken(words[0]).Success? {
      ParseTokensPrefixFails(words[1..], rest);
    }
  }

  /** One more word read by either parser. */
  lemma NextWord(seen: seq<string>, tokens: seq<Token>, word: string, rest: seq<string>)
    requires ParseTokens(seen) == Success(tokens)
    ensures (seen + [word]) + rest == seen + ([word] + rest)
    ensures match ParseToken(word)
            case Failure(e) => ParseTokens(seen + ([word] + rest)) == Failure(e)
            case Success(t) => ParseTokens(seen + [word]) == Success(tokens + [t])
  {
    ParseTokensAppend(seen, word);
    if ParseToken(word).Failure? {
      ParseTokensPrefixFails(seen + [word], rest);
    }
  }

  // ---------- what a word means ----------

  /** A token is a wildcard mark or exactly two hexadecimal digits, most significant first; a bad word
      is a bad token or a bad byte by its length. */
  lemma ParseTokenMeaning(t: string)
    ensures ParseToken(t).Success? <==>
            t == "?" || t == "??" || (|t| == 2 && DigitValue(t[0]) < 16 && DigitValue(t[1]) < 16)
    ensures t == "?" || t == "??" ==> ParseToken(t) == Success(Wildcard)
    ensures ParseToken(t).Success? && |t| == 2 && t != "??" ==>
              ParseToken(t).value == Exact(16 * DigitValue(t[0]) + DigitValue(t[1]))
    ensures ParseToken(t).Failure? ==> ParseToken(t).error == if |t| != 2 then InvalidToken(t) else InvalidByte(t)
  {
    if |t| == 2 && t != "??" {
      var n := DigitRun(t, 16);
      assert n == 2 <==> DigitValue(t[0]) < 16 && DigitValue(t[1]) < 16;
      if n == 2 {
        assert t[..2] == t;
        assert t[..1][..0] == "" && ValueOf(t[..1], 16) == DigitValue(t[0]);
        assert ValueOf(t, 16) == ValueOf(t[..1], 16) * 16 + DigitValue(t[1]);
      }
    }
  }

  /** The digit `d` in either letter case. */
  predicate IsHexDigit(c: char, d: nat)
    requires d < 16
  {
    c == "0123456789ABCDEF"[d] || c == "0123456789abcdef"[d]
  }

  lemma HexDigitMeaning(c: char, d: nat)
    requires d < 16
    ensures IsHexDigit(c, d) <==> DigitValue(c) == d
  {
  }

  /** The ways to write a token: either wildcard mark, or two digits in either letter case. */
  predicate Spells(word: string, t: Token) {
    match t
    case Wildcard => word == "?" || word == "??"
    case Exact(v) => |word| == 2 && IsHexDigit(word[0], v / 16) && IsHexDigit(word[1], v % 16)
  }

  lemma SpellsMeaning(word: string, t: Token)
    ensures Spells(word, t) <==> ParseToken(word) == Success(t)
  {
    ParseTokenMeaning(word);
    if |word| == 2 && t.Exact? {
      HexDigitMeaning(word[0], t.value / 16);
      HexDigitMeaning(word[1], t.value % 16);
      assert t.value == 16 * (t.value / 16) + t.value % 16;
    }
  }

  // ---------- how words lie in a signature ----------

  /** Space, tab, line feed, vertical tab, form feed and carriage return. */
  const BLANKS: string := " \t\n\U{B}\U{C}\r"

  predicate Spaces(s: string) {
    forall i :: 0 <= i < |s| ==> s[i] in BLANKS
  }

  predicate IsWord(s: string) {
    s != "" && forall i :: 0 <= i < |s| ==> s[i] !in BLANKS
  }

  /** A gap, and then each word with the gap that follows it. */
  function Joined(first: string, words: seq<string>, gaps: seq<string>): string
    requires |gaps| == |words|
    decreases |words|
  {
    if words == [] then first else first + words[0] + Joined(gaps[0], words[1..], gaps[1..])
  }

  /** The signature consists of these words with spaces around them: any between two words, any or
      none before the first and after the last. */
  ghost predicate Layout(signature: string, first: string, words: seq<string>, gaps: seq<string>) {
    && |gaps| == |words| && signature == Joined(first, words, gaps)
    && Spaces(first) && (forall i :: 0 <= i < |words| ==> IsWord(words[i]) && Spaces(gaps[i]))
    && (forall i :: 0 <= i < |words| - 1 ==> gaps[i] != "")
  }

  ghost predicate HasWords(signature: string, words: seq<string>) {
    exists first, gaps :: Layout(signature, first, words, gaps)
  }

  lemma SpaceMeaning(c: char)
    ensures IsSpace(c) <==> c in BLANKS
  {
    assert BLANKS[0] == ' ' && BLANKS[1] == '\t' && BLANKS[2] == '\n' && BLANKS[5] == '\r';
    assert BLANKS[3] == '\U{B}' && BLANKS[4] == '\U{C}';
  }

  lemma {:induction false} WordsSkipSpaces(prefix: string, gap: string, rest: string)
    requires Spaces(gap)
    ensures Words(prefix + gap + rest, |prefix|) == Words(prefix + gap + rest, |prefix + gap|)
    decreases |gap|
  {
    if gap != "" {
      var s := prefix + gap + rest;
      SpaceMeaning(gap[0]);
      assert s[|prefix|] == gap[0];
      assert prefix + [gap[0]] + gap[1..] + rest == s && prefix + [gap[0]] + gap[1..] == prefix + gap;
      assert forall i :: 0 <= i < |gap[1..]| ==> gap[1..][i] == gap[i + 1];
      WordsSkipSpaces(prefix + [gap[0]], gap[1..], rest);
    }
  }

  lemma {:induction false} WordEndIs(s: string, from: nat, end: nat)
    requires from <= end <= |s|
    requires forall j :: from <= j < end ==> !IsSpace(s[j])
    requires end < |s| ==> IsSpace(s[end])
    ensures WordEnd(s, from) == end
    decreases end - from
  {
    if from < end {
      WordEndIs(s, from + 1, end);
    }
  }

  lemma WordComesFirst(prefix: string, word: string, rest: string)
    requires IsWord(word) && (rest != "" ==> IsSpace(rest[0]))
    ensures Words(prefix + word + rest, |prefix|) == [word] + Words(prefix + word + rest, |prefix + word|)
  {
    var s := prefix + word + rest;
    var end := |prefix + word|;
    forall j | |prefix| <= j < end ensures !IsSpace(s[j]) {
      assert s[j] == word[j - |prefix|];
      SpaceMeaning(s[j]);
    }
    assert rest != "" ==> s[end] == rest[0];
    WordEndIs(s, |prefix| + 1, end);
    assert s[|prefix|..end] == word;
  }

  lemma {:induction false} WordsOfLayout(prefix: string, first: string, words: seq<string>, gaps: seq<string>)
    requires |gaps| == |words| && Layout(Joined(first, words, gaps), first, words, gaps)
    ensures Words(prefix + Joined(first, words, gaps), |prefix|) == words
    decreases words
  {
    var text := Joined(first, words, gaps);
    if words == [] {
      assert prefix + text == prefix + first + "";
      WordsSkipSpaces(prefix, first, "");
    } else {
      var rest := Joined(gaps[0], words[1..], gaps[1..]);
      assert prefix + text == prefix + first + (words[0] + rest);
      WordsSkipSpaces(prefix, first, words[0] + rest);
      RestStartsWithSpace(words, gaps);
      assert prefix + text == (prefix + first) + words[0] + rest;
      WordComesFirst(prefix + first, words[0], rest);
      WordsOfLayout(prefix + first + words[0], gaps[0], words[1..], gaps[1..]);
      assert prefix + first + words[0] + rest == prefix + text;
      assert [words[0]] + words[1..] == words;
    }
  }

  lemma RestStartsWithSpace(words: seq<string>, gaps: seq<string>)
    requires words != [] && |gaps| == |words| && forall i :: 0 <= i < |gaps| ==> Spaces(gaps[i])
    requires forall i :: 0 <= i < |words| - 1 ==> gaps[i] != ""
    ensures var rest := Joined(gaps[0], words[1..], gaps[1..]); rest != "" ==> IsSpace(rest[0])
  {
    if gaps[0] != "" {
      SpaceMeaning(gaps[0][0]);
    }
  }

  /** A signature has only one sequence of words. */
  lemma WordsAreUnique(signature: string, words: seq<string>)
    requires HasWords(signature, words)
    ensures words == Words(signature, 0)
  {
    var first, gaps :| Layout(signature, first, words, gaps);
    assert "" + signature == signature;
    WordsOfLayout("", first, words, gaps);
  }

  /** And it has one, from any position on. */
  lemma {:induction false} LayoutFrom(s: string, from: nat) returns (first: string, gaps: seq<string>)
    requires from <= |s|
    ensures Layout(s[from..], first, Words(s, from), gaps)
    ensures from < |s| && IsSpace(s[from]) ==> first != ""
    decreases |s| - from
  {
    if from == |s| {
      return "", [];
    }
    SpaceMeaning(s[from]);
    if IsSpace(s[from]) {
      var f, gs := LayoutFrom(s, from + 1);
      first, gaps := [s[from]] + f, gs;
      GrowGap(s[from], f, Words(s, from + 1), gs);
      assert s[from..] == [s[from]] + s[from + 1..];
    } else {
      var end := WordEnd(s, from + 1);
      var f, gs := LayoutFrom(s, end);
      first, gaps := "", [f] + gs;
      WordFound(s, from, end);
      assert s[from..] == s[from..end] + s[end..];
      PrependWord(s[from..end], s[end..], f, Words(s, end), gs);
    }
  }

  lemma WordFound(s: string, from: nat, end: nat)
    requires from < end <= |s| && !IsSpace(s[from]) && end == WordEnd(s, from + 1)
    ensures IsWord(s[from..end])
    ensures Words(s, end) != [] ==> end < |s| && IsSpace(s[end])
  {
    var word := s[from..end];
    forall i | 0 <= i < |word| ensures word[i] !in BLANKS {
      SpaceMeaning(word[i]);
    }
  }

  lemma GrowGap(c: char, first: string, words: seq<string>, gaps: seq<string>)
    requires |gaps| == |words|
    ensures Joined([c] + first, words, gaps) == [c] + Joined(first, words, gaps)
  {
    if words != [] {
      var rest := Joined(gaps[0], words[1..], gaps[1..]);
      assert [c] + first + words[0] + rest == [c] + (first + words[0] + rest);
    }
  }

  lemma PrependWord(word: string, rest: string, first: string, words: seq<string>, gaps: seq<string>)
    requires IsWord(word) && Layout(rest, first, words, gaps) && (words != [] ==> first != "")
    ensures Layout(word + rest, "", [word] + words, [first] + gaps)
  {
    assert ([word] + words)[1..] == words && ([first] + gaps)[1..] == gaps;
    assert "" + word == word;
  }

  lemma EverySignatureHasWords(signature: string)
    ensures HasWords(signature, Words(signature, 0))
  {
    var first, gaps := LayoutFrom(signature, 0);
    assert signature[0..] == signature;
  }

  // ---------- what a signature means ----------

  /** The signature spells these tokens. */
  ghost predicate Reads(signature: string, tokens: seq<Token>) {
    tokens != [] && exists words ::
      HasWords(signature, words) && |words| == |tokens| && forall i :: 0 <= i < |words| ==> Spells(words[i], tokens[i])
  }

  /** The signature spells no tokens, for this reason: the first word that spells none, or no words. */
  ghost predicate Misreads(signature: string, e: PatternError) {
    exists words :: HasWords(signature, words) && SpellNothing(words, e)
  }

  ghost predicate SpellNothing(words: seq<string>, e: PatternError) {
    match e
    case EmptyPattern => words == []
    case InvalidToken(w) => |w| != 2 && FirstBadWord(words, w)
    case InvalidByte(w) => |w| == 2 && FirstBadWord(words, w)
  }

  ghost predicate SpellsSomething(word: string) {
    exists t :: Spells(word, t)
  }

  ghost predicate FirstBadAt(words: seq<string>, bad: string, i: nat) {
    i < |words| && words[i] == bad && !SpellsSomething(bad) && forall j :: 0 <= j < i ==> SpellsSomething(words[j])
  }

  ghost predicate FirstBadWord(words: seq<string>, bad: string) {
    exists i: nat :: FirstBadAt(words, bad, i)
  }

  lemma BadLater(words: seq<string>, bad: string)
    requires words != [] && SpellsSomething(words[0]) && FirstBadWord(words[1..], bad)
    ensures FirstBadWord(words, bad)
  {
    var i: nat :| FirstBadAt(words[1..], bad, i);
    forall j | 0 <= j < i + 1 ensures SpellsSomething(words[j]) {
      assert j > 0 ==> words[j] == words[1..][j - 1];
    }
    assert FirstBadAt(words, bad, i + 1);
  }

  lemma {:induction false} ParseTokensMeaning(words: seq<string>)
    ensures match ParseTokens(words)
            case Success(ts) => |ts| == |words| && forall i :: 0 <= i < |words| ==> Spells(words[i], ts[i])
            case Failure(e) => !e.EmptyPattern? && FirstBadWord(words, e.token)
                               && (e.InvalidToken? <==> |e.token| != 2)
  {
    if words != [] {
      var word := words[0];
      ParseTokensMeaning(words[1..]);
      ParseTokenMeaning(word);
      if ParseToken(word).Success? {
        SpellsMeaning(word, ParseToken(word).value);
        if ParseTokens(words[1..]).Failure? {
          BadLater(words, ParseTokens(words[1..]).error.token);
        } else {
          assert forall i :: 0 < i < |words| ==> words[i] == words[1..][i - 1];
        }
      } else {
        forall t ensures !Spells(word, t) {
          SpellsMeaning(word, t);
        }
        assert FirstBadAt(words, word, 0);
      }
    }
  }

  /** Reading a signature: it spells tokens, and then only these, or it does not, for the reason
      given. */
  lemma TokensOfMeaning(signature: string)
    ensures match TokensOf(signature)
            case Success(ts) => Reads(signature, ts)
            case Failure(e) => Misreads(signature, e)
  {
    EverySignatureHasWords(signature);
    ParseTokensMeaning(Words(signature, 0));
  }

  lemma {:induction false} ParseTokensOfSpelling(words: seq<string>, tokens: seq<Token>)
    requires |words| == |tokens| && forall i :: 0 <= i < |words| ==> Spells(words[i], tokens[i])
    ensures ParseTokens(words) == Success(tokens)
  {
    if words != [] {
      SpellsMeaning(words[0], tokens[0]);
      ParseTokensOfSpelling(words[1..], tokens[1..]);
      assert [tokens[0]] + tokens[1..] == tokens;
    }
  }

  /** However a token sequence is spelled, with either wildcard mark, in either letter case and with
      whatever spaces, it is read back. */
  lemma ReadsMeaning(signature: string, tokens: seq<Token>)
    ensures Reads(signature, tokens) <==> TokensOf(signature) == Success(tokens)
  {
    TokensOfMeaning(signature);
    if Reads(signature, tokens) {
      var words :| HasWords(signature, words) && |words| == |tokens|
                   && forall i :: 0 <= i < |words| ==> Spells(words[i], tokens[i]);
      WordsAreUnique(signature, words);
      ParseTokensOfSpelling(words, tokens);
    }
  }

  lemma {:induction false} BadWordDecides(words: seq<string>, bad: string)
    requires FirstBadWord(words, bad)
    ensures ParseToken(bad).Failure? && ParseTokens(words) == Failure(ParseToken(bad).error)
  {
    var i: nat :| FirstBadAt(words, bad, i);
    if ParseToken(bad).Success? {
      SpellsMeaning(bad, ParseToken(bad).value);
      assert SpellsSomething(bad);
    }
    if i > 0 {
      assert SpellsSomething(words[0]);
      var t :| Spells(words[0], t);
      SpellsMeaning(words[0], t);
      assert FirstBadAt(words[1..], bad, i - 1);
      BadWordDecides(words[1..], bad);
    }
  }

  /** A signature is refused for one reason, its first bad word or its emptiness. */
  lemma MisreadsMeaning(signature: string, e: PatternError)
    ensures Misreads(signature, e) <==> TokensOf(signature) == Failure(e)
  {
    TokensOfMeaning(signature);
    if Misreads(signature, e) {
      var words :| HasWords(signature, words) && SpellNothing(words, e);
      WordsAreUnique(signature, words);
      if !e.EmptyPattern? {
        BadWordDecides(words, e.token);
        ParseTokenMeaning(e.token);
      }
    }
  }

  lemma EverySpellingIsRead(signature: string)
    ensures forall tokens :: Reads(signature, tokens) <==> TokensOf(signature) == Success(tokens)
  {
    forall tokens ensures Reads(signature, tokens) <==> TokensOf(signature) == Success(tokens) {
      ReadsMeaning(signature, tokens);
    }
  }

  // ---------- one spelling of every token sequence ----------

  function TokenText(t: Token): string {
    match t
    case Wildcard => "??"
    case Exact(v) => [DigitChar(v / 16), DigitChar(v % 16)]
  }

  function Render(ts: seq<Token>): string {
    if ts == [] then "" else TokenText(ts[0]) + " " + Render(ts[1..])
  }

  lemma TwoCharacterWord(s: string, k: nat, w: string)
    requires |w| == 2 && k + 2 < |s| && s[k] == w[0] && s[k + 1] == w[1] && s[k + 2] == ' '
    requires !IsSpace(w[0]) && !IsSpace(w[1])
    ensures Words(s, k) == [w] + Words(s, k + 3)
  {
    assert WordEnd(s, k + 1) == WordEnd(s, k + 2) == k + 2;
    assert s[k..k + 2] == w;
    assert Words(s, k + 2) == Words(s, k + 3);
  }

  lemma TokenTextParses(t: Token)
    ensures ParseToken(TokenText(t)) == Success(t)
    ensures |TokenText(t)| == 2 && !IsSpace(TokenText(t)[0]) && !IsSpace(TokenText(t)[1])
  {
    var w := TokenText(t);
    ParseTokenMeaning(w);
    DigitsAreNotSpaces(w[0]);
    DigitsAreNotSpaces(w[1]);
  }

  lemma ParseTokensCons(w: string, words: seq<string>)
    ensures ParseTokens([w] + words) ==
            match ParseToken(w)
            case Failure(e) => Failure(e)
            case Success(t) => (match ParseTokens(words)
                                case Failure(e) => Failure(e)
                                case Success(ts) => Success([t] + ts))
  {
  }

  lemma {:induction false} WordsOfRender(prefix: string, ts: seq<Token>)
    ensures ParseTokens(Words(prefix + Render(ts), |prefix|)) == Success(ts)
    decreases ts
  {
    var s := prefix + Render(ts);
    if ts == [] {
      assert Words(s, |s|) == [];
    } else {
      var w := TokenText(ts[0]);
      TokenTextParses(ts[0]);
      var prefix' := prefix + w + " ";
      assert s == prefix' + Render(ts[1..]);
      TwoCharacterWord(s, |prefix|, w);
      WordsOfRender(prefix', ts[1..]);
      ParseTokensCons(w, Words(s, |prefix'|));
      assert [ts[0]] + ts[1..] == ts;
    }
  }

  lemma DigitsAreNotSpaces(c: char)
    requires c == '?' || DigitValue(c) < 16
    ensures !IsSpace(c)
  {
  }

  /** Every non-empty token sequence has a signature that compiles back to it. */
  lemma RenderRoundTrip(ts: seq<Token>)
    requires ts != []
    ensures TokensOf(Render(ts)) == Success(ts)
  {
    assert "" + Render(ts) == Render(ts);
    WordsOfRender("", ts);
  }

  // ---------- the anchor ----------

  ghost predicate IsRun(ts: seq<Token>, offset: int, length: int) {
    0 <= offset && 0 <= length && offset + length <= |ts| && forall i :: offset <= i < offset + length ==> ts[i].Exact?
  }

  /** The leftmost longest run of exact tokens among the first `bound` tokens. */
  ghost predicate IsAnchorWithin(ts: seq<Token>, bound: nat, offset: nat, length: nat) {
    && IsRun(ts, offset, length)
    && (forall o, l :: IsRun(ts, o, l) && o + l <= bound ==> l <= length)
    && (forall o :: 0 <= o < offset ==> !IsRun(ts, o, length))
  }

  ghost predicate IsAnchor(ts: seq<Token>, offset: nat, length: nat) {
    IsAnchorWithin(ts, |ts|, offset, length)
  }

  lemma AnchorIsUnique(ts: seq<Token>, o1: nat, l1: nat, o2: nat, l2: nat)
    requires IsAnchor(ts, o1, l1) && IsAnchor(ts, o2, l2)
    ensures o1 == o2 && l1 == l2
  {
  }

  lemma AnchorEmptyIffAllWildcards(ts: seq<Token>, offset: nat, length: nat)
    requires IsAnchor(ts, offset, length)
    ensures length == 0 <==> forall i :: 0 <= i < |ts| ==> ts[i].Wildcard?
    ensures length == 0 ==> offset == 0
  {
    if i :| 0 <= i < |ts| && ts[i].Exact? {
      assert IsRun(ts, i, 1);
    }
    if length > 0 {
      assert ts[offset].Exact?;
    } else {
      assert IsRun(ts, 0, 0);
    }
  }

  /** A run that ends where a left-maximal run ends is no longer than it. */
  lemma ClosingARun(ts: seq<Token>, index: nat, runStart: nat, runLength: nat, offset: nat, length: nat)
    requires runStart + runLength == index <= |ts|
    requires IsRun(ts, runStart, runLength)
    requires runStart > 0 ==> ts[runStart - 1].Wildcard?
    requires IsAnchorWithin(ts, runStart, offset, length) && offset + length <= runStart
    ensures runLength > length ==> IsAnchorWithin(ts, index, runStart, runLength)
    ensures runLength <= length ==> IsAnchorWithin(ts, index, offset, length)
  {
  }

  /** The anchor loop of the compiler. */
  method FindAnchor(ts: seq<Token>) returns (offset: nat, length: nat)
    ensures IsAnchor(ts, offset, length)
  {
    offset, length := 0, 0;
    var runStart, runLength := 0, 0;
    var index := 0;
    while index <= |ts|
      invariant index <= |ts| + 1
      invariant index <= |ts| ==> runLength <= index && (runLength > 0 ==> runStart == index - runLength)
      invariant index <= |ts| ==> IsRun(ts, index - runLength, runLength)
      invariant index <= |ts| ==> index - runLength > 0 ==> ts[index - runLength - 1].Wildcard?
      invariant index <= |ts| ==> offset + length <= index - runLength
      invariant index <= |ts| ==> IsAnchorWithin(ts, index - runLength, offset, length)
      invariant index == |ts| + 1 ==> IsAnchor(ts, offset, length)
    {
      if index < |ts| && ts[index].Exact? {
        if runLength == 0 {
          runStart := index;
        }
        runLength := runLength + 1;
      } else {
        ClosingARun(ts, index, index - runLength, runLength, offset, length);
        if runLength > length {
          offset, length := runStart, runLength;
        }
        runLength := 0;
        assert forall o, l :: IsRun(ts, o, l) && index < |ts| && o + l <= index + 1 && l > 0 ==> ts[o + l - 1].Exact?;
      }
      index := index + 1;
    }
  }

  // ---------- the two parsers ----------

  /** The tokenizer loop. */
  method Tokenize(signature: string) returns (r: Result<seq<Token>, PatternError>)
    ensures r == TokensOf(signature)
  {
    var tokens := [];
    ghost var seen: seq<string> := [];
    var i := 0;
    while i < |signature|
      invariant i <= |signature|
      invariant Words(signature, 0) == seen + Words(signature, i)
      invariant ParseTokens(seen) == Success(tokens)
    {
      while i < |signature| && IsSpace(signature[i])
        invariant i <= |signature|
        invariant Words(signature, 0) == seen + Words(signature, i)
      {
        i := i + 1;
      }
      if i == |signature| {
        break;
      }
      var start := i;
      while i < |signature| && !IsSpace(signature[i])
        invariant start <= i <= |signature|
        invariant i == start ==> i < |signature| && !IsSpace(signature[i])
        invariant i > start ==> WordEnd(signature, start + 1) == WordEnd(signature, i)
      {
        i := i + 1;
      }
      var token := signature[start..i];
      assert Words(signature, start) == [token] + Words(signature, i);
      NextWord(seen, tokens, token, Words(signature, i));
      match ParseToken(token) {
        case Failure(e) =>
          return Failure(e);
        case Success(t) =>
          tokens := tokens + [t];
          seen := seen + [token];
      }
    }
    assert Words(signature, 0) == seen;
    if tokens == [] {
      return Failure(EmptyPattern);
    }
    return Success(tokens);
  }

  /** Reads back every spelling of every token sequence, and says why nothing is spelled. */
  method Compile(signature: string) returns (r: Result<Pattern, PatternError>)
    ensures match TokensOf(signature)
            case Failure(e) => r == Failure(e)
            case Success(ts) => r.Success? && r.value.tokens == ts && r.value.source == signature
                                && IsAnchor(ts, r.value.anchorOffset, r.value.anchorLength)
    ensures forall tokens :: Reads(signature, tokens) <==> r.Success? && r.value.tokens == tokens
    ensures r.Failure? ==> Misreads(signature, r.error)
  {
    TokensOfMeaning(signature);
    EverySpellingIsRead(signature);
    var read := Tokenize(signature);
    if read.Failure? {
      return Failure(read.error);
    }
    var tokens := read.value;
    var offset, length := FindAnchor(tokens);
    return Success(Pattern(signature, tokens, offset, length));
  }

  /** `stream >> token`: the next word at or after `pos`, if any. */
  method ExtractWord(text: string, pos: nat) returns (ok: bool, word: string, next: nat)
    requires pos <= |text|
    ensures ok <==> Words(text, pos) != []
    ensures pos <= next <= |text|
    ensures ok ==> pos < next && Words(text, pos) == [word] + Words(text, next)
  {
    next := pos;
    while next < |text| && IsSpace(text[next])
      invariant pos <= next <= |text|
      invariant Words(text, pos) == Words(text, next)
    {
      next := next + 1;
    }
    if next == |text| {
      return false, "", next;
    }
    var end := WordEnd(text, next + 1);
    return true, text[next..end], end;
  }

  /** The out-of-process parser's loop. */
  method ParseWords(text: string) returns (r: Option<seq<Token>>)
    ensures r == match TokensOf(text)
                 case Failure(_) => None
                 case Success(ts) => Some(ts)
  {
    var tokens := [];
    ghost var seen: seq<string> := [];
    var ok, word, pos := ExtractWord(text, 0);
    ghost var before := 0;
    while ok
      invariant before <= |text| && pos <= |text|
      invariant Words(text, 0) == seen + Words(text, before)
      invariant ok <==> Words(text, before) != []
      invariant ok ==> before < pos && Words(text, before) == [word] + Words(text, pos)
      invariant ParseTokens(seen) == Success(tokens)
      decreases |text| - before
    {
      NextWord(seen, tokens, word, Words(text, pos));
      match ParseToken(word) {
        case Failure(e) =>
          return None;
        case Success(t) =>
          tokens := tokens + [t];
          seen := seen + [word];
      }
      before := pos;
      ok, word, pos := ExtractWord(text, pos);
    }
    assert Words(text, 0) == seen;
    if tokens == [] {
      return None;
    }
    return Some(tokens);
  }

  /** The out-of-process parser accepts the same strings and yields the same tokens. */
  method ParseProcessPattern(text: string) returns (r: Option<seq<Token>>)
    ensures r == match TokensOf(text)
                 case Failure(_) => None
                 case Success(ts) => Some(ts)
    ensures forall tokens :: Reads(text, tokens) <==> r == Some(tokens)
  {
    EverySpellingIsRead(text);
    r := ParseWords(text);
  }
}
