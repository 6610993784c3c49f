/** The token printer of libtokencap and the dictionary parser of afl-fuzz, which reads what the
    printer writes. */
module TokenCap {
  import opened Bytes
  import opened Config
  import opened Text

  const MAX_LINE: nat := 8192

  const NEWLINE: byte := 10
  const QUOTE: byte := 34
  const HASH: byte := 35
  const AT: byte := 64
  const BACKSLASH: byte := 92
  const LOWER_X: byte := 120

  // ---------- Characters ----------

  predicate IsHex(c: byte) { IsDigit(c) || 65 <= c <= 70 || 97 <= c <= 102 }

  function HexValue(c: byte): byte
    requires IsHex(c)
  {
    if IsDigit(c) then c - 48 else if c >= 97 then c - 87 else c - 55
  }

  function HexDigit(v: byte): (c: byte)
    requires v < 16
    ensures IsHex(c) && HexValue(c) == v
  {
    if v < 10 then v + 48 else v + 87
  }

  // ---------- The printer ----------

  predicate NeedsEscape(c: byte) { c <= 31 || c >= 127 || c == QUOTE || c == BACKSLASH }

  function Escape(c: byte): seq<byte> {
    if NeedsEscape(c) then [BACKSLASH, LOWER_X, HexDigit(c / 16), HexDigit(c % 16)] else [c]
  }

  function Escaped(tok: seq<byte>): (r: seq<byte>)
    ensures |r| <= 4 * |tok|
  {
    if |tok| == 0 then [] else Escape(tok[0]) + Escaped(tok[1..])
  }

  /** The part of a token that is printed: text stops at a NUL. */
  function Printed(tok: seq<byte>, isText: bool): seq<byte> {
    if |tok| == 0 || (isText && tok[0] == 0) then [] else [tok[0]] + Printed(tok[1..], isText)
  }

  function Line(tok: seq<byte>): seq<byte> { [QUOTE] + Escaped(tok) + [QUOTE, NEWLINE] }

  // ---------- The parser ----------

  datatype Error = MalformedValue | MalformedKeyword | EmptyKeyword | NonPrintable | InvalidEscape | TooBig

  datatype Parse = Skipped | Token(data: seq<byte>) | Failed(error: Error)

  function TrimRight(s: seq<byte>): (r: seq<byte>)
    ensures |r| <= |s|
  {
    if |s| > 0 && IsSpace(s[|s| - 1]) then TrimRight(s[..|s| - 1]) else s
  }

  /** Does the number at the start of s, read as `atoi` reads it, exceed the level as an unsigned
      number?  A negative one counts as the unsigned one with the same 32 bits. */
  predicate Exceeds(s: seq<byte>, level: nat) {
    var t := Skip(s, Space);
    if |t| > 0 && t[0] == 45 then ((-1) * Number(t[1..], 0)) % U32_MODULUS > level
    else if |t| > 0 && t[0] == 43 then Number(t[1..], 0) > level
    else Number(t, 0) > level
  }

  function CharAt(s: seq<byte>, k: nat): byte { if k < |s| then s[k] else 0 }

  function Decode(s: seq<byte>): Parse {
    if |s| == 0 then Token([])
    else if s[0] <= 31 || s[0] >= 128 then Failed(NonPrintable)
    else if s[0] != BACKSLASH then Prepend(s[0], Decode(s[1..]))
    else if CharAt(s, 1) == BACKSLASH || CharAt(s, 1) == QUOTE then Prepend(s[1], Decode(s[2..]))
    else if CharAt(s, 1) == LOWER_X && IsHex(CharAt(s, 2)) && IsHex(CharAt(s, 3))
    then Prepend(16 * HexValue(s[2]) + HexValue(s[3]), Decode(s[4..]))
    else Failed(InvalidEscape)
  }

  function Prepend(c: byte, p: Parse): Parse { if p.Token? then Token([c] + p.data) else p }

  /** What is between the quotes. */
  function ParseKeyword(s: seq<byte>): Parse {
    if |s| == 0 || s[0] != QUOTE then Failed(MalformedKeyword)
    else if |s| == 1 then Failed(EmptyKeyword)
    else
      var p := Decode(s[1..]);
      if p.Token? && |p.data| > MAX_DICT_FILE then Failed(TooBig) else p
  }

  /** A line: blank, a comment, or an optional label with an optional level and a keyword. */
  function ParseLine(line: seq<byte>, level: nat): Parse {
    var s := TrimRight(Skip(line, Space));
    if |s| == 0 || s[0] == HASH then Skipped
    else if s[|s| - 1] != QUOTE then Failed(MalformedValue)
    else AfterLabel(Skip(s[..|s| - 1], Label), level)
  }

  function AfterLabel(s: seq<byte>, level: nat): Parse {
    if |s| == 0 || s[0] != AT then ParseKeyword(Skip(s, SpaceOrEquals))
    else if Exceeds(s[1..], level) then Skipped
    else ParseKeyword(Skip(Skip(s[1..], Digit), SpaceOrEquals))
  }

  // ---------- Round trip of a token ----------

  lemma EscapeDecodes(c: byte, rest: seq<byte>)
    ensures Decode(Escape(c) + rest) == Prepend(c, Decode(rest))
  {
    var s := Escape(c) + rest;
    assert s[|Escape(c)|..] == rest;
    if NeedsEscape(c) {
      assert s[0] == BACKSLASH && s[1] == LOWER_X && s[2] == HexDigit(c / 16) && s[3] == HexDigit(c % 16);
      assert 16 * (c / 16) + c % 16 == c;
    } else {
      assert s[0] == c;
    }
  }

  lemma {:induction false} EscapedDecodes(tok: seq<byte>)
    ensures Decode(Escaped(tok)) == Token(tok)
  {
    if |tok| > 0 {
      EscapedDecodes(tok[1..]);
      EscapeDecodes(tok[0], Escaped(tok[1..]));
      assert [tok[0]] + tok[1..] == tok;
    }
  }

  lemma LineIsTrimmed(e: seq<byte>, line: seq<byte>)
    requires line == [QUOTE] + e + [QUOTE, NEWLINE]
    ensures TrimRight(Skip(line, Space)) == [QUOTE] + e + [QUOTE]
  {
    assert Skip(line, Space) == line;
    var s := [QUOTE] + e + [QUOTE];
    assert line[|line| - 1] == NEWLINE && line[..|line| - 1] == s;
    assert TrimRight(line) == TrimRight(s) == s;
  }

  lemma NothingBeforeQuote(body: seq<byte>, level: nat)
    requires |body| > 0 && body[0] == QUOTE
    ensures AfterLabel(Skip(body, Label), level) == ParseKeyword(body)
  {
    assert Skip(body, Label) == body && Skip(body, SpaceOrEquals) == body;
  }

  /** Reading a printed token gives the token back, except that nothing printed is an error. */
  lemma LineRoundTrip(tok: seq<byte>, level: nat)
    requires |tok| <= MAX_DICT_FILE
    ensures ParseLine(Line(tok), level) == if |tok| > 0 then Token(tok) else Failed(EmptyKeyword)
  {
    var e := Escaped(tok);
    var s := [QUOTE] + e + [QUOTE];
    LineIsTrimmed(e, Line(tok));
    var body := s[..|s| - 1];
    assert body == [QUOTE] + e && body[1..] == e;
    NothingBeforeQuote(body, level);
    EscapedDecodes(tok);
    if |tok| > 0 { assert |Escape(tok[0])| > 0; }
  }

  lemma {:induction false} PrintedFits(tok: seq<byte>, isText: bool)
    ensures |Printed(tok, isText)| <= |tok|
    ensures |Printed(tok, isText)| == 0 <==> |tok| == 0 || (isText && tok[0] == 0)
  {
    if |tok| > 0 { PrintedFits(tok[1..], isText); }
  }

  /** From the printer's argument to the parser's result: the token, in text mode its part before a
      NUL; only a text that starts with a NUL is not read back. */
  lemma DumpRoundTrip(ptr: seq<byte>, isText: bool, level: nat)
    requires MIN_AUTO_EXTRA <= |ptr| <= MAX_AUTO_EXTRA
    ensures ParseLine(Line(Printed(ptr, isText)), level)
         == if isText && ptr[0] == 0 then Failed(EmptyKeyword) else Token(Printed(ptr, isText))
  {
    PrintedFits(ptr, isText);
    LineRoundTrip(Printed(ptr, isText), level);
  }

  /** Printing is one-to-one. */
  lemma LinesAreDistinct(a: seq<byte>, b: seq<byte>)
    requires Line(a) == Line(b)
    ensures a == b
  {
    assert Line(a)[1..|Line(a)| - 2] == Escaped(a);
    assert Line(b)[1..|Line(b)| - 2] == Escaped(b);
    EscapedDecodes(a);
    EscapedDecodes(b);
  }

  // ---------- What any keyword stands for ----------

  const LOWER_DIGITS: seq<byte> := [48, 49, 50, 51, 52, 53, 54, 55, 56, 57, 97, 98, 99, 100, 101, 102]
  const UPPER_DIGITS: seq<byte> := [48, 49, 50, 51, 52, 53, 54, 55, 56, 57, 65, 66, 67, 68, 69, 70]

  /** The ways to write a byte: as it is, behind a backslash, or by two hexadecimal digits of either case. */
  datatype Spelling = Plain(c: byte) | Backslashed(c: byte) | Hex(hi: nat, lo: nat, upperHi: bool, upperLo: bool)

  predicate IsSpelling(x: Spelling) {
    match x
    case Plain(c) => 32 <= c <= 127 && c != 92
    case Backslashed(c) => c == 92 || c == 34
    case Hex(hi, lo, _, _) => hi < 16 && lo < 16
  }

  function Spelled(x: Spelling): seq<byte>
    requires IsSpelling(x)
  {
    match x
    case Plain(c) => [c]
    case Backslashed(c) => [92, c]
    case Hex(hi, lo, upperHi, upperLo) =>
      [92, 120, (if upperHi then UPPER_DIGITS else LOWER_DIGITS)[hi], (if upperLo then UPPER_DIGITS else LOWER_DIGITS)[lo]]
  }

  function Meaning(x: Spelling): byte
    requires IsSpelling(x)
  {
    match x
    case Plain(c) => c
    case Backslashed(c) => c
    case Hex(hi, lo, _, _) => (16 * hi + lo) as byte
  }

  ghost predicate AreSpellings(xs: seq<Spelling>) { forall k :: 0 <= k < |xs| ==> IsSpelling(xs[k]) }

  function AllSpelled(xs: seq<Spelling>): seq<byte>
    requires AreSpellings(xs)
  {
    if |xs| == 0 then [] else Spelled(xs[0]) + AllSpelled(xs[1..])
  }

  function AllMeant(xs: seq<Spelling>): (r: seq<byte>)
    requires AreSpellings(xs)
    ensures |r| == |xs| && forall k :: 0 <= k < |xs| ==> r[k] == Meaning(xs[k])
  {
    if |xs| == 0 then [] else [Meaning(xs[0])] + AllMeant(xs[1..])
  }

  lemma DigitValue(v: nat, upper: bool)
    requires v < 16
    ensures var c := (if upper then UPPER_DIGITS else LOWER_DIGITS)[v]; IsHex(c) && HexValue(c) as nat == v
  {
  }

  lemma DigitOf(c: byte) returns (v: nat, upper: bool)
    requires IsHex(c)
    ensures v < 16 && c == (if upper then UPPER_DIGITS else LOWER_DIGITS)[v] && v == HexValue(c) as nat
  {
    v, upper := HexValue(c) as nat, 65 <= c <= 70;
  }

  lemma SpellingDecodes(x: Spelling, rest: seq<byte>)
    requires IsSpelling(x)
    ensures Decode(Spelled(x) + rest) == Prepend(Meaning(x), Decode(rest))
  {
    var s := Spelled(x) + rest;
    assert s[|Spelled(x)|..] == rest;
    if x.Hex? {
      DigitValue(x.hi, x.upperHi);
      DigitValue(x.lo, x.upperLo);
      assert s[0] == 92 && s[1] == 120 && s[2] == Spelled(x)[2] && s[3] == Spelled(x)[3];
    } else if x.Backslashed? {
      assert s[0] == 92 && s[1] == x.c;
    } else {
      assert s[0] == x.c;
    }
  }

  /** Whatever the spelling, a keyword is decoded into what it stands for. */
  lemma {:induction false} SpelledDecodes(xs: seq<Spelling>)
    requires AreSpellings(xs)
    ensures Decode(AllSpelled(xs)) == Token(AllMeant(xs))
  {
    if |xs| > 0 {
      SpelledDecodes(xs[1..]);
      SpellingDecodes(xs[0], AllSpelled(xs[1..]));
    }
  }

  lemma FirstSpelling(s: seq<byte>) returns (x: Spelling)
    requires |s| > 0 && Decode(s).Token?
    ensures IsSpelling(x) && Spelled(x) <= s
  {
    if s[0] != BACKSLASH {
      x := Plain(s[0]);
    } else if CharAt(s, 1) == BACKSLASH || CharAt(s, 1) == QUOTE {
      x := Backslashed(s[1]);
    } else {
      var hi, upperHi := DigitOf(s[2]);
      var lo, upperLo := DigitOf(s[3]);
      x := Hex(hi, lo, upperHi, upperLo);
    }
  }

  /** Nothing else is decoded at all. */
  lemma {:induction false} DecodedIsSpelled(s: seq<byte>) returns (xs: seq<Spelling>)
    requires Decode(s).Token?
    ensures AreSpellings(xs) && s == AllSpelled(xs)
    decreases |s|
  {
    if |s| == 0 {
      xs := [];
    } else {
      var x := FirstSpelling(s);
      var rest := s[|Spelled(x)|..];
      assert s == Spelled(x) + rest;
      SpellingDecodes(x, rest);
      var ys := DecodedIsSpelled(rest);
      xs := [x] + ys;
      assert xs[1..] == ys;
    }
  }

  /** The printer writes printable characters other than quotes and backslashes as they are, and all other
      bytes by two lower-case digits. */
  lemma EscapeIsSpelling(c: byte)
    ensures Escape(c) == if 32 <= c <= 126 && c != 34 && c != 92 then Spelled(Plain(c))
                         else Spelled(Hex(c as nat / 16, c as nat % 16, false, false))
  {
  }

  // ---------- What any line stands for ----------

  ghost predicate AllIn(s: seq<byte>, cls: CharClass) { forall k :: 0 <= k < |s| ==> cls.Has(s[k]) }

  lemma {:induction false} TrimsSpaces(s: seq<byte>, trail: seq<byte>)
    requires |s| > 0 && !IsSpace(s[|s| - 1]) && AllIn(trail, Space)
    ensures TrimRight(s + trail) == s
  {
    if |trail| == 0 {
      assert s + trail == s;
    } else {
      var t := s + trail;
      assert t[|t| - 1] == trail[|trail| - 1] && t[..|t| - 1] == s + trail[..|trail| - 1];
      TrimsSpaces(s, trail[..|trail| - 1]);
    }
  }

  /** The keyword between the quotes: nothing is an error, and so is too much. */
  function Read(xs: seq<Spelling>): Parse
    requires AreSpellings(xs)
  {
    if |xs| == 0 then Failed(EmptyKeyword) else if |xs| > 128 then Failed(TooBig) else Token(AllMeant(xs))
  }

  lemma KeywordReads(xs: seq<Spelling>)
    requires AreSpellings(xs)
    ensures ParseKeyword([QUOTE] + AllSpelled(xs)) == Read(xs)
  {
    SpelledDecodes(xs);
    assert ([QUOTE] + AllSpelled(xs))[1..] == AllSpelled(xs);
    if |xs| > 0 { assert |Spelled(xs[0])| > 0; }
  }

  /** A line is trimmed, and must end with a quote. */
  lemma LineIsBody(lead: seq<byte>, body: seq<byte>, trail: seq<byte>, level: nat)
    requires AllIn(lead, Space) && AllIn(trail, Space) && |body| > 0 && !IsSpace(body[0]) && body[0] != HASH
    ensures ParseLine(lead + (body + [QUOTE] + trail), level) == AfterLabel(Skip(body, Label), level)
  {
    var s := body + [QUOTE];
    SkipsAll(lead, s + trail, Space);
    TrimsSpaces(s, trail);
    assert s[..|s| - 1] == body;
  }

  /** A line with a label or without and any spelling of a keyword: spaces around it and spaces and
      equality signs before the opening quote do not matter. */
  lemma LineReads(lead: seq<byte>, name: seq<byte>, gap: seq<byte>, xs: seq<Spelling>, trail: seq<byte>, level: nat)
    requires AllIn(lead, Space) && AllIn(name, Label) && AllIn(gap, SpaceOrEquals) && AllIn(trail, Space)
    requires AreSpellings(xs) && (|name| == 0 && |gap| > 0 ==> gap[0] == 61)
    ensures ParseLine(lead + (name + (gap + ([QUOTE] + AllSpelled(xs))) + [QUOTE] + trail), level) == Read(xs)
  {
    var key := [QUOTE] + AllSpelled(xs);
    LineIsBody(lead, name + (gap + key), trail, level);
    SkipsAll(name, gap + key, Label);
    SkipsAll(gap, key, SpaceOrEquals);
    KeywordReads(xs);
  }

  /** A line with an `@` behind the label. */
  lemma LevelLineIs(lead: seq<byte>, name: seq<byte>, at: seq<byte>, trail: seq<byte>, level: nat, s: seq<byte>)
    requires AllIn(lead, Space) && AllIn(name, Label) && AllIn(trail, Space) && at == [AT] + s
    ensures ParseLine(lead + (name + at + [QUOTE] + trail), level)
         == if Exceeds(s, level) then Skipped else ParseKeyword(Skip(Skip(s, Digit), SpaceOrEquals))
  {
    LineIsBody(lead, name + at, trail, level);
    SkipsAll(name, at, Label);
    assert at[1..] == s;
  }

  /** With a level behind the label, the line counts exactly if the level asked for is as high. */
  lemma LevelLineReads(lead: seq<byte>, name: seq<byte>, zeros: seq<byte>, n: nat, gap: seq<byte>, xs: seq<Spelling>,
                       trail: seq<byte>, level: nat)
    requires AllIn(lead, Space) && AllIn(name, Label) && AllIn(gap, SpaceOrEquals) && AllIn(trail, Space)
    requires AreSpellings(xs) && forall k :: 0 <= k < |zeros| ==> zeros[k] == 48
    ensures ParseLine(lead + (name + ([AT] + (zeros + Decimal(n) + (gap + ([QUOTE] + AllSpelled(xs))))) + [QUOTE] + trail), level)
         == if n > level then Skipped else Read(xs)
  {
    var key := gap + ([QUOTE] + AllSpelled(xs));
    var digits := zeros + Decimal(n);
    var at := [AT] + (digits + key);
    LevelLineIs(lead, name, at, trail, level, digits + key);
    NumberRoundTrip(zeros, n, key);
    assert IsDigit((digits + key)[0]) by { assert (digits + key)[0] == if |zeros| > 0 then zeros[0] else Decimal(n)[0]; }
    assert Skip(digits + key, Space) == digits + key;
    SkipsAll(digits, key, Digit);
    SkipsAll(gap, [QUOTE] + AllSpelled(xs), SpaceOrEquals);
    KeywordReads(xs);
  }

  /** A negative level is one from 2^31 on; and as the sign is not skipped, such a line can only be skipped
      or malformed. */
  lemma NegativeLevelReads(lead: seq<byte>, name: seq<byte>, n: nat, rest: seq<byte>, trail: seq<byte>, level: nat)
    requires AllIn(lead, Space) && AllIn(name, Label) && AllIn(trail, Space) && (|rest| > 0 ==> !IsDigit(rest[0]))
    requires 0 < n <= 0x8000_0000
    ensures ParseLine(lead + (name + ([AT, 45] + (Decimal(n) + rest)) + [QUOTE] + trail), level)
         == if 0x1_0000_0000 - n > level then Skipped else Failed(MalformedKeyword)
  {
    var digits := Decimal(n) + rest;
    var at := [AT, 45] + digits;
    assert at == [AT] + ([45] + digits);
    LevelLineIs(lead, name, at, trail, level, [45] + digits);
    NegativeExceeds(n, rest, [45] + digits, level);
  }

  lemma NegativeExceeds(n: nat, rest: seq<byte>, s: seq<byte>, level: nat)
    requires 0 < n <= 0x8000_0000 && s == [45] + (Decimal(n) + rest) && (|rest| > 0 ==> !IsDigit(rest[0]))
    ensures Exceeds(s, level) <==> 0x1_0000_0000 - n > level
    ensures Skip(Skip(s, Digit), SpaceOrEquals) == s && s[0] == 45
  {
    assert s[1..] == [] + Decimal(n) + rest;
    NumberRoundTrip([], n, rest);
    assert Skip(s, Space) == s && Skip(s, Digit) == s && Skip(s, SpaceOrEquals) == s;
    assert ((-1) * n) % U32_MODULUS == U32_MODULUS - n;
  }

  /** Blank lines and comments are skipped; any other line must have a quote as its last character. */
  lemma OtherLines(lead: seq<byte>, s: seq<byte>, trail: seq<byte>, level: nat)
    requires AllIn(lead, Space) && AllIn(trail, Space)
    requires |s| > 0 ==> !IsSpace(s[0]) && !IsSpace(s[|s| - 1])
    ensures |s| == 0 || s[0] == 35 ==> ParseLine(lead + (s + trail), level) == Skipped
    ensures |s| > 0 && s[0] != 35 && s[|s| - 1] != 34 ==> ParseLine(lead + (s + trail), level) == Failed(MalformedValue)
  {
    if |s| == 0 {
      assert lead + (s + trail) == lead + trail + [];
      SkipsAll(lead + trail, [], Space);
    } else {
      SkipsAll(lead, s + trail, Space);
      TrimsSpaces(s, trail);
    }
  }

  // ---------- Whole files ----------

  /** How much `fgets` reads: up to a newline, but less than the size of its buffer. */
  function ChunkLength(s: seq<byte>, n: nat): (r: nat)
    requires n <= |s|
    ensures n <= r <= |s|
    ensures n < |s| && n < MAX_LINE - 1 ==> n < r
    decreases |s| - n
  {
    if n == |s| || n >= MAX_LINE - 1 then n
    else if s[n] == NEWLINE then n + 1
    else ChunkLength(s, n + 1)
  }

  /** A chunk ends behind the first newline, after 8191 bytes or with the file, whichever comes first. */
  lemma {:induction false} ChunkEnds(s: seq<byte>, n: nat, r: nat)
    requires n <= |s| && n <= 8191 && r == ChunkLength(s, n)
    ensures r <= 8191 && forall k :: n <= k < r - 1 ==> s[k] != 10
    ensures r == |s| || r == 8191 || (r > n && s[r - 1] == 10)
    decreases |s| - n
  {
    if n < |s| && n < 8191 && s[n] != 10 { ChunkEnds(s, n + 1, r); }
  }

  /** What is read of a chunk ends before its first NUL. */
  lemma {:induction false} ReadUpToNul(s: seq<byte>)
    ensures UpToNul(s) <= s && 0 !in UpToNul(s)
    ensures |UpToNul(s)| < |s| ==> s[|UpToNul(s)|] == 0
  {
    if |s| > 0 && s[0] != 0 { ReadUpToNul(s[1..]); }
  }

  function UpToNul(s: seq<byte>): seq<byte> {
    if |s| == 0 || s[0] == 0 then [] else [s[0]] + UpToNul(s[1..])
  }

  datatype FileParse = Tokens(tokens: seq<seq<byte>>) | Aborted(error: Error)

  function ParseFile(file: seq<byte>, level: nat): FileParse {
    if |file| == 0 then Tokens([])
    else
      var n := ChunkLength(file, 0);
      WithLine(ParseLine(UpToNul(file[..n]), level), ParseFile(file[n..], level))
  }

  function WithLine(p: Parse, rest: FileParse): FileParse {
    match p
    case Skipped => rest
    case Failed(e) => Aborted(e)
    case Token(t) => if rest.Tokens? then Tokens([t] + rest.tokens) else rest
  }

  function Lines(toks: seq<seq<byte>>): seq<byte> {
    if |toks| == 0 then [] else Line(toks[0]) + Lines(toks[1..])
  }

  lemma {:induction false} EscapedIsPlain(tok: seq<byte>, k: nat)
    requires k < |Escaped(tok)|
    ensures 32 <= Escaped(tok)[k] < 127 && Escaped(tok)[k] != QUOTE
  {
    var first := Escape(tok[0]);
    if k < |first| {
      assert Escaped(tok)[k] == first[k];
    } else {
      assert Escaped(tok)[k] == Escaped(tok[1..])[k - |first|];
      EscapedIsPlain(tok[1..], k - |first|);
    }
  }

  lemma {:induction false} ChunkIsLine(s: seq<byte>, n: nat, len: nat)
    requires n < len <= |s| && len < MAX_LINE && s[len - 1] == NEWLINE
    requires forall k :: n <= k < len - 1 ==> s[k] != NEWLINE
    ensures ChunkLength(s, n) == len
    decreases len - n
  {
    if n < len - 1 { ChunkIsLine(s, n + 1, len); }
  }

  /** A file line by line: an error ends it, a line to be skipped adds nothing, and a token comes before those
      of the lines behind it, unless one of these is in error. */
  lemma LinesInOrder(line: seq<byte>, rest: seq<byte>, level: nat)
    requires 0 < |line| < 8192 && line[|line| - 1] == 10 && forall k :: 0 <= k < |line| - 1 ==> line[k] != 10
    ensures var p, behind, all := ParseLine(UpToNul(line), level), ParseFile(rest, level), ParseFile(line + rest, level);
      && (p.Failed? ==> all == Aborted(p.error))
      && (p.Skipped? || (p.Token? && behind.Aborted?) ==> all == behind)
      && (p.Token? && behind.Tokens? ==> all == Tokens([p.data] + behind.tokens))
    ensures ParseFile([], level) == Tokens([])
  {
    var file := line + rest;
    ChunkIsLine(file, 0, |line|);
    assert file[..|line|] == line && file[|line|..] == rest;
  }

  lemma {:induction false} NoNul(s: seq<byte>)
    requires forall k :: 0 <= k < |s| ==> s[k] != 0
    ensures UpToNul(s) == s
  {
    if |s| > 0 { NoNul(s[1..]); }
  }

  lemma LineIsPlain(tok: seq<byte>)
    requires |tok| <= MAX_DICT_FILE
    ensures |Line(tok)| < MAX_LINE && Line(tok)[|Line(tok)| - 1] == NEWLINE
    ensures forall k :: 0 <= k < |Line(tok)| ==> Line(tok)[k] != 0
    ensures forall k :: 0 <= k < |Line(tok)| - 1 ==> Line(tok)[k] != NEWLINE
  {
    forall k | 0 <= k < |Line(tok)|
      ensures Line(tok)[k] != 0 && (k < |Line(tok)| - 1 ==> Line(tok)[k] != NEWLINE)
    {
      if 1 <= k < |Line(tok)| - 2 {
        EscapedIsPlain(tok, k - 1);
        assert Line(tok)[k] == Escaped(tok)[k - 1];
      }
    }
  }

  /** A dictionary written token by token is read back token by token, at any level. */
  lemma {:induction false} FileRoundTrip(toks: seq<seq<byte>>, level: nat)
    requires forall k :: 0 <= k < |toks| ==> 0 < |toks[k]| <= MAX_DICT_FILE
    ensures ParseFile(Lines(toks), level) == Tokens(toks)
  {
    if |toks| > 0 {
      var line, rest := Line(toks[0]), Lines(toks[1..]);
      var file := line + rest;
      LineIsPlain(toks[0]);
      ChunkIsLine(file, 0, |line|);
      assert file[..|line|] == line && file[|line|..] == rest;
      NoNul(line);
      LineRoundTrip(toks[0], level);
      FileRoundTrip(toks[1..], level);
      assert [toks[0]] + toks[1..] == toks;
    }
  }

  // ---------- The printer as it runs ----------

  lemma {:induction false} EscapedSnoc(s: seq<byte>, c: byte)
    ensures Escaped(s + [c]) == Escaped(s) + Escape(c)
  {
    if |s| > 0 {
      assert (s + [c])[1..] == s[1..] + [c];
      EscapedSnoc(s[1..], c);
    } else {
      assert s + [c] == [c];
    }
  }

  lemma {:induction false} PrintedPrefix(tok: seq<byte>, isText: bool, i: nat)
    requires i <= |tok| && forall k :: 0 <= k < i ==> !(isText && tok[k] == 0)
    requires i == |tok| || (isText && tok[i] == 0)
    ensures Printed(tok, isText) == tok[..i]
  {
    if i > 0 { PrintedPrefix(tok[1..], isText, i - 1); }
  }

  /** The buffer of MAX_AUTO_EXTRA * 4 + 1 bytes is large enough for every token and its NUL. */
  method Dump(ptr: seq<byte>, isText: bool, buf: array<byte>) returns (line: Option<seq<byte>>)
    requires buf.Length == 4 * MAX_AUTO_EXTRA + 1
    modifies buf
    ensures line == if MIN_AUTO_EXTRA <= |ptr| <= MAX_AUTO_EXTRA then Some(Line(Printed(ptr, isText))) else None
  {
    if |ptr| < MIN_AUTO_EXTRA || |ptr| > MAX_AUTO_EXTRA { return None; }
    var pos, i := 0, 0;
    while i < |ptr| && !(isText && ptr[i] == 0)
      invariant 0 <= i <= |ptr| && 0 <= pos <= 4 * i
      invariant forall k :: 0 <= k < i ==> !(isText && ptr[k] == 0)
      invariant buf[..pos] == Escaped(ptr[..i])
    {
      EscapedSnoc(ptr[..i], ptr[i]);
      assert ptr[..i + 1] == ptr[..i] + [ptr[i]];
      pos := PrintChar(buf, pos, ptr[i]);
      i := i + 1;
    }
    PrintedPrefix(ptr, isText, i);
    buf[pos] := 0;
    line := Some([QUOTE] + buf[..pos] + [QUOTE, NEWLINE]);
  }

  /** An escape takes four bytes and a NUL behind them. */
  method PrintChar(buf: array<byte>, pos: nat, c: byte) returns (pos': nat)
    requires pos + 4 < buf.Length
    modifies buf
    ensures pos' <= pos + 4 && buf[..pos'] == old(buf[..pos]) + Escape(c)
  {
    if NeedsEscape(c) {
      buf[pos], buf[pos + 1], buf[pos + 2], buf[pos + 3] := BACKSLASH, LOWER_X, HexDigit(c / 16), HexDigit(c % 16);
      buf[pos + 4] := 0;
      pos' := pos + 4;
    } else {
      buf[pos] := c;
      pos' := pos + 1;
    }
  }

  // ---------- The parser as it runs ----------

  method SkipChars(s: seq<byte>, from: nat, cls: CharClass) returns (i: nat)
    requires from <= |s|
    ensures from <= i <= |s| && s[i..] == Skip(s[from..], cls)
  {
    i := from;
    while i < |s| && cls.Has(s[i])
      invariant from <= i <= |s| && Skip(s[i..], cls) == Skip(s[from..], cls)
    {
      assert s[i..][1..] == s[i + 1..];
      i := i + 1;
    }
  }

  method TrimmedEnd(s: seq<byte>, from: nat) returns (end: nat)
    requires from <= |s|
    ensures from <= end <= |s| && s[from..end] == TrimRight(s[from..])
  {
    end := |s|;
    assert s[from..end] == s[from..];
    while end > from && IsSpace(s[end - 1])
      invariant from <= end <= |s| && TrimRight(s[from..end]) == TrimRight(s[from..])
    {
      assert s[from..end][..end - 1 - from] == s[from..end - 1];
      end := end - 1;
    }
  }

  datatype Piece = Char(c: byte, used: nat) | Bad(error: Error)

  /** One character or escape: the byte it stands for and its length. */
  method DecodeOne(s: seq<byte>) returns (r: Piece)
    requires |s| > 0
    ensures r.Bad? ==> Decode(s) == Failed(r.error)
    ensures r.Char? ==> 1 <= r.used <= |s| && Decode(s) == Prepend(r.c, Decode(s[r.used..]))
  {
    if s[0] <= 31 || s[0] >= 128 { return Bad(NonPrintable); }
    if s[0] != BACKSLASH { return Char(s[0], 1); }
    if CharAt(s, 1) == BACKSLASH || CharAt(s, 1) == QUOTE { return Char(s[1], 2); }
    if CharAt(s, 1) != LOWER_X || !IsHex(CharAt(s, 2)) || !IsHex(CharAt(s, 3)) { return Bad(InvalidEscape); }
    return Char(16 * HexValue(s[2]) + HexValue(s[3]), 4);
  }

  ghost predicate Decoded(p: Parse, data: seq<byte>, rest: Parse) {
    if rest.Token? then p == Token(data + rest.data) else p == rest
  }

  lemma DecodedOneMore(p: Parse, data: seq<byte>, c: byte, rest: Parse)
    requires Decoded(p, data, Prepend(c, rest))
    ensures Decoded(p, data + [c], rest)
  {
    if rest.Token? { assert data + ([c] + rest.data) == data + [c] + rest.data; }
  }

  /** The decoding loop: each step consumes one, two or four characters and writes one byte, so
      that the output never outgrows the input. */
  method DecodeChars(s: seq<byte>) returns (p: Parse)
    ensures p == Decode(s)
    ensures p.Token? ==> |p.data| <= |s|
  {
    var lptr, data := 0, [];
    assert s[0..] == s;
    while lptr < |s|
      invariant 0 <= |data| <= lptr <= |s|
      invariant Decoded(Decode(s), data, Decode(s[lptr..]))
      decreases |s| - lptr
    {
      var rest := s[lptr..];
      var one := DecodeOne(rest);
      if one.Bad? { return Failed(one.error); }
      assert rest[one.used..] == s[lptr + one.used..];
      DecodedOneMore(Decode(s), data, one.c, Decode(s[lptr + one.used..]));
      data := data + [one.c];
      lptr := lptr + one.used;
    }
    p := Token(data);
  }

  /** One line of a dictionary file. */
  method ParseOneLine(line: seq<byte>, level: nat) returns (p: Parse)
    ensures p == ParseLine(line, level)
  {
    var start := SkipChars(line, 0, Space);
    var end := TrimmedEnd(line, start);
    var s := line[start..end];
    assert line[0..] == line;
    if |s| == 0 || s[0] == HASH { return Skipped; }
    if s[|s| - 1] != QUOTE { return Failed(MalformedValue); }
    s := s[..|s| - 1];
    p := ParseLabelled(s, level);
  }

  /** Label, level and keyword; the closing quote is already gone. */
  method ParseLabelled(s: seq<byte>, level: nat) returns (p: Parse)
    ensures p == AfterLabel(Skip(s, Label), level)
  {
    var lptr := SkipChars(s, 0, Label);
    assert s[0..] == s;
    if lptr < |s| && s[lptr] == AT {
      assert s[lptr..][1..] == s[lptr + 1..];
      lptr := lptr + 1;
      if Exceeds(s[lptr..], level) { return Skipped; }
      lptr := SkipChars(s, lptr, Digit);
    }
    lptr := SkipChars(s, lptr, SpaceOrEquals);
    p := ParseQuoted(s[lptr..]);
  }

  method ParseQuoted(s: seq<byte>) returns (p: Parse)
    ensures p == ParseKeyword(s)
  {
    if |s| == 0 || s[0] != QUOTE { return Failed(MalformedKeyword); }
    if |s| == 1 { return Failed(EmptyKeyword); }
    p := DecodeChars(s[1..]);
    if p.Token? && |p.data| > MAX_DICT_FILE { p := Failed(TooBig); }
  }

  ghost predicate Loaded(all: FileParse, tokens: seq<seq<byte>>, rest: FileParse) {
    if rest.Tokens? then all == Tokens(tokens + rest.tokens) else all == rest
  }

  lemma LoadedOneMore(all: FileParse, tokens: seq<seq<byte>>, rest: seq<byte>, level: nat)
    requires |rest| > 0 && Loaded(all, tokens, ParseFile(rest, level))
    ensures var n := ChunkLength(rest, 0);
            var p := ParseLine(UpToNul(rest[..n]), level);
            if p.Failed? then all == Aborted(p.error)
            else Loaded(all, if p.Token? then tokens + [p.data] else tokens, ParseFile(rest[n..], level))
  {
    var n := ChunkLength(rest, 0);
    var p, next := ParseLine(UpToNul(rest[..n]), level), ParseFile(rest[n..], level);
    if p.Token? && next.Tokens? { assert tokens + ([p.data] + next.tokens) == tokens + [p.data] + next.tokens; }
  }

  /** The tokens of the lines before pos. */
  ghost predicate LoadingAt(file: seq<byte>, level: nat, pos: nat, tokens: seq<seq<byte>>) {
    pos <= |file| && Loaded(ParseFile(file, level), tokens, ParseFile(file[pos..], level))
  }

  lemma LoadingStep(file: seq<byte>, level: nat, pos: nat, tokens: seq<seq<byte>>, n: nat, p: Parse)
    requires LoadingAt(file, level, pos, tokens) && pos < |file| && n == ChunkLength(file[pos..], 0)
    requires p == ParseLine(UpToNul(file[pos..][..n]), level)
    ensures p.Failed? ==> ParseFile(file, level) == Aborted(p.error)
    ensures !p.Failed? ==> LoadingAt(file, level, pos + n, if p.Token? then tokens + [p.data] else tokens)
  {
    LoadedOneMore(ParseFile(file, level), tokens, file[pos..], level);
    assert file[pos..][n..] == file[pos + n..];
  }

  /** All lines of a file; the first error ends the program. */
  method LoadFile(file: seq<byte>, level: nat) returns (r: FileParse)
    ensures r == ParseFile(file, level)
  {
    var pos, tokens := 0, [];
    assert file[0..] == file;
    while pos < |file|
      invariant LoadingAt(file, level, pos, tokens)
      decreases |file| - pos
    {
      var rest := file[pos..];
      var n := ChunkLength(rest, 0);
      var p := ParseOneLine(UpToNul(rest[..n]), level);
      LoadingStep(file, level, pos, tokens, n, p);
      if p.Failed? { return Aborted(p.error); }
      if p.Token? { tokens := tokens + [p.data]; }
      pos := pos + n;
    }
    assert file[|file|..] == [];
    r := Tokens(tokens);
  }
}
