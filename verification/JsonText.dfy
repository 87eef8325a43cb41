/**
 * JSON strings as Python prints them (ASCII only) and a reader for them by section 7 of RFC 8259. Printing
 * takes the text that follows as an argument, so that printing and reading compose without slicing.
 *
 * A text is a sequence of code points, surrogates included, as in Python. A high surrogate right before a
 * low one prints like the one character the two stand for, so reading gives that character back; everything
 * else reads back as it was.
 */
module JsonText {
  import opened JsonNumbers

  type CodePoint = n: int | 0 <= n < 0x110000

  type Text = seq<CodePoint>

  /** The code points of a string of characters, which holds no surrogate. */
  function Codes(s: string): (r: Text)
    ensures |r| == |s| && forall i :: 0 <= i < |s| ==> r[i] == s[i] as int
  {
    seq(|s|, i requires 0 <= i < |s| => s[i] as int)
  }

  predicate High(n: int) {
    0xD800 <= n < 0xDC00
  }

  predicate Low(n: int) {
    0xDC00 <= n < 0xE000
  }

  function Combined(high: int, low: int): CodePoint
    requires High(high) && Low(low)
  {
    0x10000 + (high - 0xD800) * 1024 + (low - 0xDC00)
  }

  /** The text with each high surrogate and low surrogate next to each other made one character. */
  function Merged(s: Text): Text {
    if s == [] then []
    else if |s| >= 2 && High(s[0]) && Low(s[1]) then [Combined(s[0], s[1])] + Merged(s[2..])
    else [s[0]] + Merged(s[1..])
  }

  // ---------- printing ----------

  function HexDigit(n: nat): char
    requires n < 16
  {
    if n < 10 then ('0' as int + n) as char else ('a' as int + n - 10) as char
  }

  /** A `\u` escape of one 16-bit unit. */
  function PrintUnit(unit: nat, k: string): string
    requires unit < 0x10000
  {
    ['\\', 'u', HexDigit(unit / 4096), HexDigit(unit / 256 % 16), HexDigit(unit / 16 % 16), HexDigit(unit % 16)] + k
  }

  /** Quote, backslash and everything outside printable ASCII is escaped, above U+FFFF as a surrogate pair. */
  function PrintChar(c: CodePoint, k: string): string {
    if c == 34 then ['\\', '"'] + k
    else if c == 92 then ['\\', '\\'] + k
    else if c == 10 then ['\\', 'n'] + k
    else if c == 13 then ['\\', 'r'] + k
    else if c == 9 then ['\\', 't'] + k
    else if c == 12 then ['\\', 'f'] + k
    else if c == 8 then ['\\', 'b'] + k
    else if 32 <= c <= 126 then [c as char] + k
    else if c < 0x10000 then PrintUnit(c, k)
    else PrintUnit(0xD800 + (c - 0x10000) / 1024, PrintUnit(0xDC00 + (c - 0x10000) % 1024, k))
  }

  function PrintChars(s: Text, k: string): string {
    if s == [] then k else PrintChar(s[0], PrintChars(s[1..], k))
  }

  function PrintString(s: Text, k: string): string {
    ['"'] + PrintChars(s, ['"'] + k)
  }

  /** How the characters that need one are escaped. */
  lemma EscapesAre(c: CodePoint, k: string)
    ensures c == 34 ==> PrintChar(c, k) == "\\\"" + k
    ensures c == 92 ==> PrintChar(c, k) == "\\\\" + k
    ensures c == 8 ==> PrintChar(c, k) == "\\b" + k
    ensures c == 9 ==> PrintChar(c, k) == "\\t" + k
    ensures c == 10 ==> PrintChar(c, k) == "\\n" + k
    ensures c == 12 ==> PrintChar(c, k) == "\\f" + k
    ensures c == 13 ==> PrintChar(c, k) == "\\r" + k
  {
  }

  lemma HexDigitIs(n: nat)
    requires n < 16
    ensures HexDigit(n) == "0123456789abcdef"[n]
  {
  }

  /** Other control characters and what is outside ASCII: four lower-case hexadecimal digits. */
  lemma UnitsAre(c: CodePoint, k: string)
    requires (c < 32 && c !in {8, 9, 10, 12, 13}) || 127 <= c < 0x10000
    ensures var hex := "0123456789abcdef";
      PrintChar(c, k) == ['\\', 'u', hex[c / 4096], hex[c / 256 % 16], hex[c / 16 % 16], hex[c % 16]] + k
  {
    HexDigitIs(c / 4096);
    HexDigitIs(c / 256 % 16);
    HexDigitIs(c / 16 % 16);
    HexDigitIs(c % 16);
  }

  /** Text that needs no escape. */
  ghost predicate Unescaped(s: string) {
    forall i :: 0 <= i < |s| ==> ' ' <= s[i] <= '~' && s[i] != '"' && s[i] != '\\'
  }

  lemma {:induction false} UnescapedChars(s: string, k: string)
    requires Unescaped(s)
    ensures PrintChars(Codes(s), k) == s + k
  {
    if s != [] {
      UnescapedChars(s[1..], k);
      assert Codes(s)[1..] == Codes(s[1..]);
      assert s == [s[0]] + s[1..];
    }
  }

  /** A text without quote, backslash and anything outside printable ASCII is printed as it stands, between quotes. */
  lemma {:induction false} UnescapedStands(s: string, k: string)
    requires Unescaped(s)
    ensures PrintString(Codes(s), k) == "\"" + s + "\"" + k
  {
    UnescapedChars(s, ['"'] + k);
  }

  // ---------- reading ----------

  function HexValue(c: char): int {
    if '0' <= c <= '9' then c as int - '0' as int
    else if 'a' <= c <= 'f' then c as int - 'a' as int + 10
    else if 'A' <= c <= 'F' then c as int - 'A' as int + 10
    else -1
  }

  /** The unit a `\u` escape at the front of the text stands for, or -1. */
  function ReadUnit(s: string): (r: int)
    ensures r < 0x10000
    ensures r >= 0 ==> |s| >= 6
  {
    if |s| < 6 || s[0] != '\\' || s[1] != 'u' then -1
    else
      var a, b, c, d := HexValue(s[2]), HexValue(s[3]), HexValue(s[4]), HexValue(s[5]);
      if a < 0 || b < 0 || c < 0 || d < 0 then -1 else a * 4096 + b * 256 + c * 16 + d
  }

  /** One escaped or plain character. */
  function ReadChar(s: string): (r: Read<CodePoint>)
    ensures r.Ok? ==> |r.rest| < |s|
  {
    if s == [] || s[0] < ' ' || s[0] == '"' then Malformed
    else if s[0] != '\\' then Ok(s[0] as int, s[1..])
    else if |s| < 2 then Malformed
    else
      match s[1]
      case '"' => Ok(34, s[2..])
      case '\\' => Ok(92, s[2..])
      case '/' => Ok(47, s[2..])
      case 'b' => Ok(8, s[2..])
      case 'f' => Ok(12, s[2..])
      case 'n' => Ok(10, s[2..])
      case 'r' => Ok(13, s[2..])
      case 't' => Ok(9, s[2..])
      case 'u' => ReadEscape(s)
      case _ => Malformed
  }

  /** Two escapes that form a surrogate pair are one character; a lone surrogate stands for itself. */
  function ReadEscape(s: string): (r: Read<CodePoint>)
    ensures r.Ok? ==> |r.rest| < |s|
  {
    var unit := ReadUnit(s);
    if unit < 0 then Malformed
    else
      var next := ReadUnit(s[6..]);
      if High(unit) && Low(next) then Ok(Combined(unit, next), s[12..]) else Ok(unit, s[6..])
  }

  /** The characters up to the closing quote, which is consumed. */
  function ReadChars(s: string): (r: Read<Text>)
    ensures r.Ok? ==> |r.rest| < |s|
    decreases |s|
  {
    if s != [] && s[0] == '"' then Ok([], s[1..])
    else
      var c := ReadChar(s);
      if c.Malformed? then Malformed
      else
        var cs := ReadChars(c.rest);
        if cs.Malformed? then Malformed else Ok([c.value] + cs.value, cs.rest)
  }

  // ---------- reading undoes printing ----------

  lemma {:induction false} HexRoundTrip(n: nat)
    requires n < 16
    ensures HexValue(HexDigit(n)) == n
  {
  }

  lemma {:induction false} FourDigits(a: nat, b: nat, c: nat, d: nat, k: string)
    requires a < 16 && b < 16 && c < 16 && d < 16
    ensures var s := ['\\', 'u', HexDigit(a), HexDigit(b), HexDigit(c), HexDigit(d)] + k;
      ReadUnit(s) == a * 4096 + b * 256 + c * 16 + d && s[6..] == k
  {
    HexRoundTrip(a);
    HexRoundTrip(b);
    HexRoundTrip(c);
    HexRoundTrip(d);
    var s := ['\\', 'u', HexDigit(a), HexDigit(b), HexDigit(c), HexDigit(d)] + k;
    assert s[2] == HexDigit(a) && s[3] == HexDigit(b) && s[4] == HexDigit(c) && s[5] == HexDigit(d);
  }

  lemma {:induction false} SplitIntoDigits(unit: nat)
    requires unit < 0x10000
    ensures unit / 4096 < 16
    ensures unit == unit / 4096 * 4096 + unit / 256 % 16 * 256 + unit / 16 % 16 * 16 + unit % 16
  {
    var p, q := unit / 16, unit / 256;
    assert q == p / 16 && unit / 4096 == q / 16;
    assert unit == p * 16 + unit % 16 && p == q * 16 + p % 16 && q == q / 16 * 16 + q % 16;
  }

  lemma {:induction false} UnitRoundTrip(unit: nat, k: string)
    requires unit < 0x10000
    ensures ReadUnit(PrintUnit(unit, k)) == unit && PrintUnit(unit, k)[6..] == k
    ensures PrintUnit(unit, k)[0] == '\\' && PrintUnit(unit, k)[1] == 'u'
  {
    SplitIntoDigits(unit);
    FourDigits(unit / 4096, unit / 256 % 16, unit / 16 % 16, unit % 16, k);
  }

  /** A character that is not the first half of a pair reads back as itself. */
  lemma {:induction false} CharRoundTrip(c: CodePoint, k: string)
    requires !(High(c) && Low(ReadUnit(k)))
    ensures ReadChar(PrintChar(c, k)) == Ok(c, k)
    ensures PrintChar(c, k) != [] && PrintChar(c, k)[0] != '"'
  {
    var s := PrintChar(c, k);
    if 32 <= c <= 126 || c in {8, 9, 10, 12, 13} {
      if c == 34 || c == 92 || c < 32 {
        assert s[2..] == k;
      } else {
        assert s[1..] == k;
      }
    } else if c < 0x10000 {
      UnitRoundTrip(c, k);
    } else {
      WideRoundTrip(c, k);
    }
  }

  /** Every character above U+FFFF is a pair. */
  lemma {:induction false} Halves(c: CodePoint) returns (high: nat, low: nat)
    requires c >= 0x10000
    ensures High(high) && Low(low) && Combined(high, low) == c
  {
    var n := c - 0x10000;
    high, low := 0xD800 + n / 1024, 0xDC00 + n % 1024;
    assert n == n / 1024 * 1024 + n % 1024;
  }

  lemma {:induction false} PrintCombined(high: CodePoint, low: CodePoint, k: string)
    requires High(high) && Low(low)
    ensures PrintChar(Combined(high, low), k) == PrintUnit(high, PrintUnit(low, k))
  {
    var n := Combined(high, low) - 0x10000;
    assert n / 1024 == high - 0xD800 && n % 1024 == low - 0xDC00;
  }

  lemma {:induction false} WideRoundTrip(c: CodePoint, k: string)
    requires c >= 0x10000
    ensures ReadChar(PrintChar(c, k)) == Ok(c, k)
    ensures PrintChar(c, k) != [] && PrintChar(c, k)[0] != '"'
  {
    var high, low := Halves(c);
    PrintCombined(high, low, k);
    PairRead(high, low, k);
  }

  /** Two escapes in a row that form a pair are read as one character. */
  lemma {:induction false} PairRead(high: nat, low: nat, k: string)
    requires High(high) && Low(low)
    ensures var s := PrintUnit(high, PrintUnit(low, k));
      ReadChar(s) == Ok(Combined(high, low), k) && s != [] && s[0] == '\\'
  {
    var tail := PrintUnit(low, k);
    var s := PrintUnit(high, tail);
    UnitRoundTrip(low, k);
    UnitRoundTrip(high, tail);
    assert s[12..] == s[6..][6..];
  }

  /** A printed character looks like a low surrogate only if it is one. */
  lemma {:induction false} FirstUnit(c: CodePoint, k: string)
    ensures Low(ReadUnit(PrintChar(c, k))) ==> Low(c)
  {
    if c >= 0x10000 {
      UnitRoundTrip(0xD800 + (c - 0x10000) / 1024, PrintUnit(0xDC00 + (c - 0x10000) % 1024, k));
    } else if !(32 <= c <= 126) && c !in {8, 9, 10, 12, 13} {
      UnitRoundTrip(c, k);
    }
  }

  lemma {:induction false} ReadOneMore(s: string, c: CodePoint, rest: string, t: Text, k: string)
    requires s != [] && s[0] != '"' && ReadChar(s) == Ok(c, rest) && ReadChars(rest) == Ok(t, k)
    ensures ReadChars(s) == Ok([c] + t, k)
  {
  }

  lemma {:induction false} PrintPair(s: Text, end: string)
    requires |s| >= 2 && High(s[0]) && Low(s[1])
    ensures PrintChars(s, end) == PrintUnit(s[0], PrintUnit(s[1], PrintChars(s[2..], end)))
  {
    assert s[1..][0] == s[1] && s[1..][1..] == s[2..];
  }

  lemma {:induction false} NextIsNoLow(s: Text, end: string)
    requires end != [] && end[0] == '"' && (s != [] ==> !Low(s[0]))
    ensures !Low(ReadUnit(PrintChars(s, end)))
  {
    if s != [] {
      FirstUnit(s[0], PrintChars(s[1..], end));
    }
  }

  /** Reading a printed text gives it with its surrogate pairs merged. */
  lemma {:induction false} CharsRoundTrip(s: Text, k: string)
    ensures ReadChars(PrintChars(s, ['"'] + k)) == Ok(Merged(s), k)
    decreases |s|
  {
    var end := ['"'] + k;
    if s == [] {
      assert end[1..] == k;
    } else if |s| >= 2 && High(s[0]) && Low(s[1]) {
      CharsRoundTrip(s[2..], k);
      PrintPair(s, end);
      PairRead(s[0], s[1], PrintChars(s[2..], end));
      ReadOneMore(PrintChars(s, end), Combined(s[0], s[1]), PrintChars(s[2..], end), Merged(s[2..]), k);
    } else {
      CharsRoundTrip(s[1..], k);
      if High(s[0]) {
        NextIsNoLow(s[1..], end);
      }
      CharRoundTrip(s[0], PrintChars(s[1..], end));
      ReadOneMore(PrintChars(s, end), s[0], PrintChars(s[1..], end), Merged(s[1..]), k);
    }
  }

  predicate PairAt(s: Text, i: nat)
    requires i + 1 < |s|
  {
    High(s[i]) && Low(s[i + 1])
  }

  /** No high surrogate stands right before a low one. */
  predicate NoPair(s: Text) {
    forall i :: 0 <= i < |s| - 1 ==> !PairAt(s, i)
  }

  lemma {:induction false} NoPairTail(s: Text)
    requires s != []
    ensures NoPair(s) <==> NoPair(s[1..]) && (|s| >= 2 ==> !PairAt(s, 0))
  {
    assert forall i :: 0 <= i < |s| - 2 ==> PairAt(s[1..], i) == PairAt(s, i + 1);
    if NoPair(s[1..]) && (|s| >= 2 ==> !PairAt(s, 0)) {
      forall i | 0 <= i < |s| - 1 ensures !PairAt(s, i) {
        assert i > 0 ==> PairAt(s[1..], i - 1) == PairAt(s, i);
      }
    }
  }

  /** Merging leaves a text alone exactly when it has no surrogate pair, and shortens it otherwise. */
  lemma {:induction false} MergedIffNoPair(s: Text)
    ensures |Merged(s)| <= |s|
    ensures |Merged(s)| == |s| <==> NoPair(s)
    ensures Merged(s) == s <==> NoPair(s)
    decreases |s|
  {
    if s != [] {
      if |s| >= 2 && High(s[0]) && Low(s[1]) {
        MergedIffNoPair(s[2..]);
        assert PairAt(s, 0);
      } else {
        MergedIffNoPair(s[1..]);
        NoPairTail(s);
        assert s == [s[0]] + s[1..];
      }
    }
  }

  lemma {:induction false} CodesAreMerged(s: string)
    ensures Merged(Codes(s)) == Codes(s)
  {
    MergedIffNoPair(Codes(s));
  }

  lemma {:induction false} AppendPair(a: Text, b: Text, rest: Text)
    requires |a| >= 2 && High(a[0]) && Low(a[1]) && rest == a[2..]
    requires Merged(rest + b) == Merged(rest) + Merged(b)
    ensures Merged(a + b) == Merged(a) + Merged(b)
  {
    var s, c := a + b, [Combined(a[0], a[1])];
    assert s[0] == a[0] && s[1] == a[1] && s[2..] == rest + b;
    assert Merged(s) == c + Merged(rest + b) && Merged(a) == c + Merged(rest);
    Regroup(c, Merged(rest), Merged(b));
  }

  lemma {:induction false} AppendOne(a: Text, b: Text, rest: Text)
    requires a != [] && rest == a[1..] && (|a| >= 2 ==> !(High(a[0]) && Low(a[1]))) && (|a| == 1 ==> !High(a[0]))
    requires Merged(rest + b) == Merged(rest) + Merged(b)
    ensures Merged(a + b) == Merged(a) + Merged(b)
  {
    var s, c := a + b, [a[0]];
    assert s[0] == a[0] && s[1..] == rest + b;
    assert |a| >= 2 ==> s[1] == a[1];
    assert Merged(s) == c + Merged(rest + b) && Merged(a) == c + Merged(rest);
    Regroup(c, Merged(rest), Merged(b));
  }

  lemma {:induction false} Regroup(a: Text, b: Text, c: Text)
    ensures a + (b + c) == (a + b) + c
  {
  }

  /** Texts can be merged piece by piece where no piece ends in a high surrogate. */
  lemma {:induction false} MergedAppend(a: Text, b: Text)
    requires a != [] ==> !High(a[|a| - 1])
    ensures Merged(a + b) == Merged(a) + Merged(b)
    decreases |a|
  {
    if a == [] {
      assert a + b == b;
    } else if |a| >= 2 && High(a[0]) && Low(a[1]) {
      MergedAppend(a[2..], b);
      AppendPair(a, b, a[2..]);
    } else {
      MergedAppend(a[1..], b);
      AppendOne(a, b, a[1..]);
    }
  }

  lemma {:induction false} StringRoundTrip(s: Text, k: string)
    ensures PrintString(s, k)[0] == '"'
    ensures ReadChars(PrintString(s, k)[1..]) == Ok(Merged(s), k)
  {
    assert PrintString(s, k)[1..] == PrintChars(s, ['"'] + k);
    CharsRoundTrip(s, k);
  }

  // ---------- what prints alike ----------

  /** Merging pairs does not show in print. */
  lemma {:induction false} MergedPrintsAlike(s: Text, k: string)
    ensures PrintChars(Merged(s), k) == PrintChars(s, k)
    decreases |s|
  {
    if s != [] {
      if |s| >= 2 && High(s[0]) && Low(s[1]) {
        MergedPrintsAlike(s[2..], k);
        PrintPair(s, k);
        PrintCombined(s[0], s[1], PrintChars(s[2..], k));
        PrintFirst(Combined(s[0], s[1]), Merged(s[2..]), k);
      } else {
        MergedPrintsAlike(s[1..], k);
        PrintFirst(s[0], Merged(s[1..]), k);
      }
    }
  }

  lemma {:induction false} PrintFirst(c: CodePoint, rest: Text, k: string)
    ensures PrintChars([c] + rest, k) == PrintChar(c, PrintChars(rest, k))
  {
    assert ([c] + rest)[1..] == rest;
  }

  // ---------- printed texts are plain ----------

  lemma {:induction false} UnitIsPlain(unit: nat, k: string)
    requires unit < 0x10000 && Plain(k)
    ensures Plain(PrintUnit(unit, k))
  {
  }

  lemma {:induction false} CharIsPlain(c: CodePoint, k: string)
    requires Plain(k)
    ensures Plain(PrintChar(c, k))
  {
    if !(32 <= c <= 126) && c !in {8, 9, 10, 12, 13} {
      if c < 0x10000 {
        UnitIsPlain(c, k);
      } else {
        UnitIsPlain(0xDC00 + (c - 0x10000) % 1024, k);
        UnitIsPlain(0xD800 + (c - 0x10000) / 1024, PrintUnit(0xDC00 + (c - 0x10000) % 1024, k));
      }
    }
  }

  lemma {:induction false} CharsArePlain(s: Text, k: string)
    requires Plain(k)
    ensures Plain(PrintChars(s, k))
  {
    if s != [] {
      CharsArePlain(s[1..], k);
      CharIsPlain(s[0], PrintChars(s[1..], k));
    }
  }
}
