/**
 The string operations the sources rely on: whitespace splitting, joining, and decimal numerals.
 */
module Text {

  // ----- sequences --------------------------------------------------------------------------

  lemma HeadAndTail<T>(a: seq<T>, b: seq<T>)
    requires a != []
    ensures a == [a[0]] + a[1..] && a + b == [a[0]] + (a[1..] + b)
  {
  }

  lemma Associative<T>(a: seq<T>, b: seq<T>, c: seq<T>)
    ensures (a + b) + c == a + (b + c)
  {
  }

  // ----- words ------------------------------------------------------------------------------

  predicate IsSpace(c: char) {
    var n := c as int;
    || 0x09 <= n <= 0x0d || 0x1c <= n <= 0x20 || n == 0x85 || n == 0xa0 || n == 0x1680
    || 0x2000 <= n <= 0x200a || n == 0x2028 || n == 0x2029 || n == 0x202f || n == 0x205f || n == 0x3000
  }

  /** The characters that `str.isspace` accepts, one by one. */
  const WHITESPACE: string :=
    "\t\n\U{0B}\U{0C}\r\U{1C}\U{1D}\U{1E}\U{1F} \U{85}\U{A0}\U{1680}"
    + "\U{2000}\U{2001}\U{2002}\U{2003}\U{2004}\U{2005}\U{2006}\U{2007}\U{2008}\U{2009}\U{200A}"
    + "\U{2028}\U{2029}\U{202F}\U{205F}\U{3000}"

  lemma SpaceIff(c: char)
    ensures IsSpace(c) <==> c in WHITESPACE
  {
  }

  predicate AllSpace(s: string) { forall i :: 0 <= i < |s| ==> IsSpace(s[i]) }

  predicate IsWord(s: string) { s != [] && forall i :: 0 <= i < |s| ==> !IsSpace(s[i]) }

  /** How many characters before the first whitespace. */
  function WordRun(s: string): (n: nat)
    ensures n <= |s|
    ensures forall i :: 0 <= i < n ==> !IsSpace(s[i])
    ensures n < |s| ==> IsSpace(s[n])
  {
    if s == [] || IsSpace(s[0]) then 0 else 1 + WordRun(s[1..])
  }

  /** Splitting on runs of whitespace, as a no-argument split does. */
  function Words(s: string): seq<string> {
    if s == [] then []
    else if IsSpace(s[0]) then Words(s[1..])
    else [s[..WordRun(s)]] + Words(s[WordRun(s)..])
  }

  predicate Blank(s: string) { Words(s) == [] }

  lemma {:induction false} WordsAreWords(s: string)
    ensures forall i :: 0 <= i < |Words(s)| ==> IsWord(Words(s)[i])
  {
    if s == [] {
    } else if IsSpace(s[0]) {
      WordsAreWords(s[1..]);
    } else {
      WordsAreWords(s[WordRun(s)..]);
    }
  }

  lemma {:induction false} SpacesThen(sep: string, b: string)
    requires AllSpace(sep)
    ensures Words(sep + b) == Words(b)
  {
    if sep == [] {
      assert sep + b == b;
    } else {
      SpacesThen(sep[1..], b);
      assert (sep + b)[1..] == sep[1..] + b;
    }
  }

  /** Whitespace between two texts separates their words. */
  lemma {:induction false} WordsSeparate(a: string, sep: string, b: string)
    requires sep != [] && AllSpace(sep)
    ensures Words(a + sep + b) == Words(a) + Words(b)
    decreases |a|
  {
    hide Words, IsSpace;
    if a == [] {
      assert a + sep + b == sep + b;
      SpacesThen(sep, b);
      SpacesThen(sep, "");
      NothingHasNoWords();
    } else if IsSpace(a[0]) {
      WordsSeparate(a[1..], sep, b);
      SkipFirst(a, sep + b);
      assert a + (sep + b) == a + sep + b && a[1..] + (sep + b) == a[1..] + sep + b;
    } else {
      var n := WordRun(a);
      SplitFirst(a, sep, b);
      WordsSeparate(a[n..], sep, b);
      FirstWord(a);
    }
  }

  lemma NothingHasNoWords()
    ensures Words("") == []
  {
  }

  lemma FirstWord(a: string)
    requires a != [] && !IsSpace(a[0])
    ensures Words(a) == [a[..WordRun(a)]] + Words(a[WordRun(a)..])
  {
  }

  lemma SkipFirst(a: string, rest: string)
    requires a != [] && IsSpace(a[0])
    ensures Words(a) == Words(a[1..]) && Words(a + rest) == Words(a[1..] + rest)
  {
    assert (a + rest)[1..] == a[1..] + rest;
  }

  lemma SplitFirst(a: string, sep: string, b: string)
    requires a != [] && !IsSpace(a[0]) && sep != [] && AllSpace(sep)
    ensures WordRun(a) > 0
    ensures Words(a + sep + b) == [a[..WordRun(a)]] + Words(a[WordRun(a)..] + sep + b)
  {
    hide Words, IsSpace;
    var s, n := a + sep + b, WordRun(a);
    assert s[0] == a[0];
    assert s == a + (sep + b);
    RunOfPrefix(a, sep + b);
    assert s[..n] == a[..n] && s[n..] == a[n..] + sep + b;
    FirstWord(s);
  }

  lemma {:induction false} RunOfPrefix(a: string, rest: string)
    requires rest != [] && IsSpace(rest[0])
    ensures WordRun(a + rest) == WordRun(a)
  {
    if a == [] {
      assert a + rest == rest;
    } else if !IsSpace(a[0]) {
      RunOfPrefix(a[1..], rest);
      assert (a + rest)[1..] == a[1..] + rest;
    }
  }

  lemma {:induction false} RunOfWord(w: string)
    requires forall i :: 0 <= i < |w| ==> !IsSpace(w[i])
    ensures WordRun(w) == |w|
  {
  }

  lemma OneWord(w: string)
    requires IsWord(w)
    ensures Words(w) == [w]
  {
    RunOfWord(w);
    assert w[..|w|] == w && w[|w|..] == [];
  }

  // ----- stripping --------------------------------------------------------------------------

  function SpaceRun(s: string): (n: nat)
    ensures n <= |s| && AllSpace(s[..n])
    ensures n < |s| ==> !IsSpace(s[n])
  {
    if s == [] || !IsSpace(s[0]) then 0 else 1 + SpaceRun(s[1..])
  }

  function TrimEnd(s: string): (r: string)
    ensures r <= s && AllSpace(s[|r|..])
    ensures r != [] ==> !IsSpace(r[|r| - 1])
  {
    if s != [] && IsSpace(s[|s| - 1]) then TrimEnd(s[..|s| - 1]) else s
  }

  function Strip(s: string): string { TrimEnd(s[SpaceRun(s)..]) }

  lemma {:induction false} NoWordsInSpace(s: string)
    ensures AllSpace(s) <==> Blank(s)
  {
    if s != [] && IsSpace(s[0]) {
      NoWordsInSpace(s[1..]);
      assert AllSpace(s[1..]) ==> AllSpace(s);
    }
  }

  lemma StripKeepsWords(s: string)
    ensures Words(Strip(s)) == Words(s)
    ensures Strip(s) == "" <==> Blank(s)
  {
    hide Words, TrimEnd, SpaceRun;
    var n := SpaceRun(s);
    var inner := s[n..];
    assert s == s[..n] + inner;
    SpacesThen(s[..n], inner);
    TrimKeepsWords(inner);
    NoWordsInSpace(Strip(s));
  }

  lemma TrimKeepsWords(s: string)
    ensures Words(TrimEnd(s)) == Words(s)
  {
    hide TrimEnd;
    var r := TrimEnd(s);
    if |r| < |s| {
      hide Words;
      assert r + s[|r|..] + "" == s;
      WordsSeparate(r, s[|r|..], "");
      NoWordsInSpace("");
    } else {
      assert r == s;
    }
  }

  predicate Trimmed(s: string) { s != "" && !IsSpace(s[0]) && !IsSpace(s[|s| - 1]) }

  lemma SpaceOnly(a: string, b: string)
    ensures AllSpace(a + b) <==> AllSpace(a) && AllSpace(b)
  {
    var s := a + b;
    assert forall i :: 0 <= i < |a| ==> s[i] == a[i];
    assert forall i :: 0 <= i < |b| ==> s[|a| + i] == b[i];
  }

  /** Stripping takes whitespace off both ends, and all of it. */
  lemma StripShape(s: string) returns (before: string, after: string)
    ensures s == before + Strip(s) + after && AllSpace(before) && AllSpace(after)
    ensures AllSpace(s) <==> Strip(s) == ""
    ensures Strip(s) != "" ==> Trimmed(Strip(s))
  {
    var n := SpaceRun(s);
    var core := TrimEnd(s[n..]);
    before, after := s[..n], s[n..][|core|..];
    assert s == before + core + after;
    SpaceOnly(before + core, after);
    SpaceOnly(before, core);
    if core != "" {
      assert core[0] == s[n];
      assert !AllSpace(core);
    }
  }

  // ----- joining ----------------------------------------------------------------------------

  function Join(sep: string, parts: seq<string>): string {
    if parts == [] then ""
    else if |parts| == 1 then parts[0]
    else parts[0] + sep + Join(sep, parts[1..])
  }

  function AllWords(parts: seq<string>): seq<string> {
    if parts == [] then [] else Words(parts[0]) + AllWords(parts[1..])
  }

  lemma {:induction false} WordsOfJoin(sep: string, parts: seq<string>)
    requires sep != [] && AllSpace(sep)
    ensures Words(Join(sep, parts)) == AllWords(parts)
  {
    if |parts| == 1 {
      assert AllWords(parts[1..]) == [];
    } else if |parts| > 1 {
      WordsOfJoin(sep, parts[1..]);
      WordsSeparate(parts[0], sep, Join(sep, parts[1..]));
    }
  }

  lemma {:induction false} AllWordsOfWords(words: seq<string>)
    requires forall i :: 0 <= i < |words| ==> IsWord(words[i])
    ensures AllWords(words) == words
  {
    if words != [] {
      OneWord(words[0]);
      AllWordsOfWords(words[1..]);
    }
  }

  /** Splitting undoes joining words with a space. */
  lemma WordsOfJoinedWords(words: seq<string>)
    requires forall i :: 0 <= i < |words| ==> IsWord(words[i])
    ensures Words(Join(" ", words)) == words
  {
    WordsOfJoin(" ", words);
    AllWordsOfWords(words);
  }

  lemma {:induction false} JoinAppend(sep: string, a: seq<string>, b: seq<string>)
    requires a != [] && b != []
    ensures Join(sep, a + b) == Join(sep, a) + sep + Join(sep, b)
  {
    assert (a + b)[1..] == a[1..] + b;
    if |a| == 1 {
      assert a[1..] + b == b;
    } else {
      JoinAppend(sep, a[1..], b);
    }
  }

  // ----- splitting at one character ---------------------------------------------------------

  function RunBefore(c: char, s: string): (n: nat)
    ensures n <= |s| && (n < |s| ==> s[n] == c)
    ensures forall i :: 0 <= i < n ==> s[i] != c
  {
    if s == [] || s[0] == c then 0 else 1 + RunBefore(c, s[1..])
  }

  /** The parts between occurrences of `c`; always at least one. */
  function Split(c: char, s: string): (parts: seq<string>)
    ensures parts != []
    decreases |s|
  {
    var n := RunBefore(c, s);
    if n == |s| then [s] else [s[..n]] + Split(c, s[n + 1..])
  }

  function Lines(s: string): seq<string> { Split('\n', s) }

  lemma {:induction false} SplitJoin(c: char, s: string)
    ensures Join([c], Split(c, s)) == s
    decreases |s|
  {
    hide RunBefore;
    var n := RunBefore(c, s);
    if n < |s| {
      SplitJoin(c, s[n + 1..]);
      JoinOfCons([c], s[..n], Split(c, s[n + 1..]));
      assert s == s[..n] + [c] + s[n + 1..];
    }
  }

  lemma JoinOfCons(sep: string, x: string, rest: seq<string>)
    requires rest != []
    ensures Join(sep, [x] + rest) == x + sep + Join(sep, rest)
  {
    assert ([x] + rest)[1..] == rest;
  }

  lemma {:induction false} SplitAround(c: char, a: string, b: string)
    ensures Split(c, a + [c] + b) == Split(c, a) + Split(c, b)
    decreases |a|
  {
    hide Split, RunBefore;
    var n := RunBefore(c, a);
    FirstPart(c, a, b);
    if n < |a| {
      SplitAround(c, a[n + 1..], b);
    }
  }

  lemma FirstPart(c: char, a: string, b: string)
    ensures var n := RunBefore(c, a);
            Split(c, a + [c] + b) == [a[..n]] + (if n == |a| then Split(c, b) else Split(c, a[n + 1..] + [c] + b))
    ensures var n := RunBefore(c, a);
            Split(c, a) == [a[..n]] + (if n == |a| then [] else Split(c, a[n + 1..]))
  {
    hide RunBefore;
    var s, n := a + [c] + b, RunBefore(c, a);
    RunWithin(c, a, [c] + b);
    assert s == a + ([c] + b);
    assert s[..n] == a[..n];
    if n < |a| {
      assert s[n + 1..] == a[n + 1..] + [c] + b;
    } else {
      assert s[n + 1..] == b;
    }
  }

  lemma {:induction false} RunWithin(c: char, a: string, rest: string)
    requires rest != [] && rest[0] == c
    ensures RunBefore(c, a + rest) == RunBefore(c, a)
  {
    if a == [] {
      assert a + rest == rest;
    } else if a[0] != c {
      RunWithin(c, a[1..], rest);
      assert (a + rest)[1..] == a[1..] + rest;
    }
  }

  // ----- decimal numerals -------------------------------------------------------------------

  predicate IsDigit(c: char) { '0' <= c <= '9' }

  predicate AllDigits(s: string) { s != [] && forall i :: 0 <= i < |s| ==> IsDigit(s[i]) }

  function DigitChar(d: nat): char
    requires d < 10
  {
    ('0' as int + d) as char
  }

  function Decimal(n: nat): (s: string)
    ensures AllDigits(s)
  {
    if n < 10 then [DigitChar(n)] else Decimal(n / 10) + [DigitChar(n % 10)]
  }

  function ParseDecimal(s: string): nat
    requires AllDigits(s)
  {
    var d := s[|s| - 1] as int - '0' as int;
    if |s| == 1 then d else ParseDecimal(s[..|s| - 1]) * 10 + d
  }

  lemma {:induction false} ParseOfDecimal(n: nat)
    ensures ParseDecimal(Decimal(n)) == n
  {
    if n >= 10 {
      ParseOfDecimal(n / 10);
      var s := Decimal(n);
      assert s[..|s| - 1] == Decimal(n / 10);
    }
  }

  /** Zero-padding to a width of at least four. */
  function Padded(n: nat): (s: string)
    ensures AllDigits(s)
  {
    PadTo(Decimal(n), 4)
  }

  function PadTo(s: string, width: nat): (r: string)
    requires AllDigits(s)
    ensures AllDigits(r)
    decreases width - |s|
  {
    if |s| < width then PadTo("0" + s, width) else s
  }

  lemma {:induction false} LeadingZero(s: string)
    requires AllDigits(s)
    ensures ParseDecimal("0" + s) == ParseDecimal(s)
  {
    var z := "0" + s;
    assert z[..|z| - 1] == "0" + s[..|s| - 1];
    if |s| > 1 {
      LeadingZero(s[..|s| - 1]);
    } else {
      assert z[..1] == "0";
      assert ParseDecimal("0") == 0;
    }
  }

  lemma {:induction false} PadKeepsValue(s: string, width: nat)
    requires AllDigits(s)
    ensures ParseDecimal(PadTo(s, width)) == ParseDecimal(s)
    decreases width - |s|
  {
    if |s| < width {
      LeadingZero(s);
      PadKeepsValue("0" + s, width);
    }
  }

  lemma PaddedInjective(m: nat, n: nat)
    requires Padded(m) == Padded(n)
    ensures m == n
  {
    PadKeepsValue(Decimal(m), 4);
    PadKeepsValue(Decimal(n), 4);
    ParseOfDecimal(m);
    ParseOfDecimal(n);
  }

  // ----- bytes ------------------------------------------------------------------------------

  function CharBytes(c: char): (n: nat)
    ensures 1 <= n <= 4
  {
    var p := c as int;
    if p < 0x80 then 1 else if p < 0x800 then 2 else if p < 0x10000 then 3 else 4
  }

  /** The length of the UTF-8 encoding. */
  function Bytes(s: string): nat {
    if s == [] then 0 else CharBytes(s[0]) + Bytes(s[1..])
  }

  /** The bytes of one character, by section 3 of RFC 3629. */
  function Utf8Char(c: char): (b: seq<nat>)
    ensures forall i :: 0 <= i < |b| ==> b[i] < 256
  {
    var p := c as int;
    if p < 0x80 then [p]
    else if p < 0x800 then [0xc0 + p / 64, 0x80 + p % 64]
    else if p < 0x10000 then [0xe0 + p / 64 / 64, 0x80 + p / 64 % 64, 0x80 + p % 64]
    else [0xf0 + p / 64 / 64 / 64, 0x80 + p / 64 / 64 % 64, 0x80 + p / 64 % 64, 0x80 + p % 64]
  }

  function Utf8(s: string): seq<nat> {
    if s == [] then [] else Utf8Char(s[0]) + Utf8(s[1..])
  }

  /** The number of bytes that the first one announces. */
  function Announced(first: nat): nat {
    if first < 0x80 then 1 else if first < 0xe0 then 2 else if first < 0xf0 then 3 else 4
  }

  /** What each byte after the first adds: six bits. */
  function SixMore(high: int, b: int): int { high * 64 + (b - 0x80) }

  function Decoded(b: seq<int>): int
    requires 1 <= |b| <= 4
  {
    if |b| == 1 then b[0]
    else if |b| == 2 then SixMore(b[0] - 0xc0, b[1])
    else if |b| == 3 then SixMore(SixMore(b[0] - 0xe0, b[1]), b[2])
    else SixMore(SixMore(SixMore(b[0] - 0xf0, b[1]), b[2]), b[3])
  }

  /** The encoding can be read back, character by character, so its bytes are all needed. */
  lemma Utf8CharReads(c: char)
    ensures |Utf8Char(c)| == CharBytes(c) == Announced(Utf8Char(c)[0])
    ensures Decoded(Utf8Char(c)) == c as int
  {
    hide SixMore;
    var p := c as int;
    SixBits(p);
    SixBits(p / 64);
    SixBits(p / 64 / 64);
  }

  lemma SixBits(p: int)
    ensures SixMore(p / 64, 0x80 + p % 64) == p
  {
  }

  lemma {:induction false} BytesAreUtf8(s: string)
    ensures Bytes(s) == |Utf8(s)|
  {
    if s != [] {
      Utf8CharReads(s[0]);
      BytesAreUtf8(s[1..]);
    }
  }

  lemma {:induction false} Utf8Reads(s: string, t: string)
    requires Utf8(s) == Utf8(t)
    ensures s == t
  {
    if s == [] || t == [] {
      BytesAreUtf8(s);
      BytesAreUtf8(t);
    } else {
      Utf8CharReads(s[0]);
      Utf8CharReads(t[0]);
      assert Utf8(s)[0] == Utf8Char(s[0])[0] && Utf8(t)[0] == Utf8Char(t[0])[0];
      var n := CharBytes(s[0]);
      assert Utf8(s)[..n] == Utf8Char(s[0]) && Utf8(t)[..n] == Utf8Char(t[0]);
      assert Utf8(s)[n..] == Utf8(s[1..]) && Utf8(t)[n..] == Utf8(t[1..]);
      Utf8Reads(s[1..], t[1..]);
    }
  }
}
