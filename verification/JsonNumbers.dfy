/** JSON numbers as Python prints them, and a reader for the whole number grammar of section 6 of RFC 8259. */
module JsonNumbers {
  datatype Read<T> = Ok(value: T, rest: string) | Malformed

  type Figure = d: nat | d < 10

  datatype Exponent = NoExponent | Exponent(value: int)

  datatype RawDecimal = Decimal(negative: bool, whole: nat, fraction: seq<Figure>, exponent: Exponent)

  /** What marks a float: a fraction or an exponent. */
  type Decimal = d: RawDecimal | d.fraction != [] || d.exponent != NoExponent
    witness RawDecimal.Decimal(false, 0, [0], NoExponent)

  /** An integer, or the shortest decimal text of a float. */
  datatype Number = Whole(value: int) | Float(decimal: Decimal)

  // ---------- printing ----------

  function Digit(n: nat): char
    requires n < 10
  {
    ('0' as int + n) as char
  }

  function PrintNat(n: nat, k: string): string {
    if n < 10 then [Digit(n)] + k else PrintNat(n / 10, [Digit(n % 10)] + k)
  }

  function PrintSign(negative: bool, k: string): string {
    if negative then ['-'] + k else k
  }

  function PrintFigures(figures: seq<Figure>, k: string): string {
    if figures == [] then k else [Digit(figures[0])] + PrintFigures(figures[1..], k)
  }

  function PrintFraction(fraction: seq<Figure>, k: string): string {
    if fraction == [] then k else ['.'] + PrintFigures(fraction, k)
  }

  /** Always with a sign, and with at least two digits. */
  function PrintExponent(e: Exponent, k: string): string {
    match e
    case NoExponent => k
    case Exponent(value) =>
      var size := if value < 0 then -value else value;
      ['e', if value < 0 then '-' else '+'] + (if size < 10 then ['0'] + PrintNat(size, k) else PrintNat(size, k))
  }

  function PrintNumber(n: Number, k: string): string {
    match n
    case Whole(value) => PrintSign(value < 0, PrintNat(if value < 0 then -value else value, k))
    case Float(d) =>
      PrintSign(d.negative, PrintNat(d.whole, PrintFraction(d.fraction, PrintExponent(d.exponent, k))))
  }

  // ---------- reading ----------

  predicate Starts(s: string, c: char) {
    s != [] && s[0] == c
  }

  predicate StartsDigit(s: string) {
    s != [] && '0' <= s[0] <= '9'
  }

  function ReadDigits(acc: nat, s: string): (r: (nat, string))
    ensures |r.1| <= |s|
    decreases |s|
  {
    if StartsDigit(s) then ReadDigits(acc * 10 + (s[0] as int - '0' as int), s[1..]) else (acc, s)
  }

  /** Digits without a leading zero. */
  function ReadNat(s: string): (r: Read<nat>)
    ensures r.Ok? ==> |r.rest| < |s|
  {
    if !StartsDigit(s) then Malformed
    else if s[0] == '0' then Ok(0, s[1..])
    else
      var (n, rest) := ReadDigits(s[0] as int - '0' as int, s[1..]);
      Ok(n, rest)
  }

  function ReadFigures(s: string): (r: (seq<Figure>, string))
    ensures |r.1| <= |s|
    decreases |s|
  {
    if StartsDigit(s) then
      var (figures, rest) := ReadFigures(s[1..]);
      ([s[0] as int - '0' as int] + figures, rest)
    else ([], s)
  }

  function ReadFraction(s: string): (r: Read<seq<Figure>>)
    ensures r.Ok? ==> |r.rest| <= |s|
  {
    if !Starts(s, '.') then Ok([], s)
    else if !StartsDigit(s[1..]) then Malformed
    else
      var (figures, rest) := ReadFigures(s[1..]);
      Ok(figures, rest)
  }

  function ReadExponent(s: string): (r: Read<Exponent>)
    ensures r.Ok? ==> |r.rest| <= |s|
  {
    if !Starts(s, 'e') && !Starts(s, 'E') then Ok(NoExponent, s)
    else
      var t := if Starts(s[1..], '-') || Starts(s[1..], '+') then s[2..] else s[1..];
      if !StartsDigit(t) then Malformed
      else
        var (size, rest) := ReadDigits(0, t);
        Ok(Exponent(if Starts(s[1..], '-') then -(size as int) else size), rest)
  }

  function ReadNumber(s: string): (r: Read<Number>)
    ensures r.Ok? ==> |r.rest| < |s|
  {
    var negative := Starts(s, '-');
    var whole := ReadNat(if negative then s[1..] else s);
    if whole.Malformed? then Malformed
    else
      var fraction := ReadFraction(whole.rest);
      if fraction.Malformed? then Malformed
      else
        var exponent := ReadExponent(fraction.rest);
        if exponent.Malformed? then Malformed
        else if fraction.value == [] && exponent.value == NoExponent then
          Ok(Whole(if negative then -(whole.value as int) else whole.value), exponent.rest)
        else
          Ok(Float(RawDecimal.Decimal(negative, whole.value, fraction.value, exponent.value)), exponent.rest)
  }

  // ---------- reading undoes printing ----------

  /** The text cannot continue a number. */
  predicate Ends(k: string) {
    !StartsDigit(k) && !Starts(k, '.') && !Starts(k, 'e') && !Starts(k, 'E')
  }

  lemma {:induction false} DigitValue(n: nat)
    requires n < 10
    ensures '0' <= Digit(n) <= '9' && Digit(n) as int - '0' as int == n
  {
  }

  /** Decimal notation: the digits of a number are those of its tenth and its last one. */
  lemma {:induction false} DecimalNotation(n: nat, d: nat, k: string)
    requires d < 10
    ensures PrintNat(d, k) == ["0123456789"[d]] + k
    ensures n > 0 ==> PrintNat(10 * n + d, k) == PrintNat(n, ["0123456789"[d]] + k)
    ensures n > 0 ==> PrintNumber(Whole(n), k) == PrintNat(n, k) && PrintNumber(Whole(-(n as int)), k) == "-" + PrintNat(n, k)
  {
    assert n > 0 ==> (10 * n + d) / 10 == n && (10 * n + d) % 10 == d;
  }

  lemma {:induction false} NatDigits(n: nat, k: string)
    ensures var s := PrintNat(n, k);
      && StartsDigit(s) && (s[0] == '0' <==> n == 0) && (n == 0 ==> s[1..] == k)
      && ReadDigits(s[0] as int - '0' as int, s[1..]) == ReadDigits(n, k)
  {
    if n < 10 {
      DigitValue(n);
      assert PrintNat(n, k)[1..] == k;
    } else {
      DigitValue(n % 10);
      var k' := [Digit(n % 10)] + k;
      NatDigits(n / 10, k');
      assert k'[1..] == k;
      assert n / 10 * 10 + n % 10 == n;
    }
  }

  lemma {:induction false} NatRoundTrip(n: nat, k: string)
    requires !StartsDigit(k)
    ensures ReadNat(PrintNat(n, k)) == Ok(n, k)
    ensures StartsDigit(PrintNat(n, k))
  {
    NatDigits(n, k);
  }

  lemma {:induction false} FiguresRoundTrip(figures: seq<Figure>, k: string)
    requires !StartsDigit(k)
    ensures ReadFigures(PrintFigures(figures, k)) == (figures, k)
    ensures figures != [] ==> StartsDigit(PrintFigures(figures, k))
  {
    if figures != [] {
      var rest := PrintFigures(figures[1..], k);
      FiguresRoundTrip(figures[1..], k);
      DigitValue(figures[0]);
      assert ([Digit(figures[0])] + rest)[1..] == rest;
      assert figures == [figures[0]] + figures[1..];
    }
  }

  lemma {:induction false} FractionRoundTrip(fraction: seq<Figure>, k: string)
    requires !StartsDigit(k) && !Starts(k, '.')
    ensures ReadFraction(PrintFraction(fraction, k)) == Ok(fraction, k)
    ensures !StartsDigit(PrintFraction(fraction, k))
  {
    if fraction != [] {
      var t := PrintFigures(fraction, k);
      FiguresRoundTrip(fraction, k);
      assert (['.'] + t)[1..] == t;
    }
  }

  lemma {:induction false} ExponentDigits(n: nat, k: string)
    requires !StartsDigit(k)
    ensures var s := if n < 10 then ['0'] + PrintNat(n, k) else PrintNat(n, k);
      StartsDigit(s) && ReadDigits(0, s) == (n, k)
  {
    var s := PrintNat(n, k);
    NatDigits(n, k);
    assert ReadDigits(0, s) == ReadDigits(s[0] as int - '0' as int, s[1..]);
    assert (['0'] + s)[1..] == s;
  }

  lemma {:induction false} ExponentRead(t: string, n: nat, k: string)
    requires StartsDigit(t) && ReadDigits(0, t) == (n, k)
    ensures ReadExponent(['e', '-'] + t) == Ok(Exponent(-(n as int)), k)
    ensures ReadExponent(['e', '+'] + t) == Ok(Exponent(n), k)
  {
    var minus, plus := ['e', '-'] + t, ['e', '+'] + t;
    assert minus[1..] == ['-'] + t && plus[1..] == ['+'] + t;
    assert minus[2..] == t && plus[2..] == t;
  }

  lemma {:induction false} ExponentRoundTrip(e: Exponent, k: string)
    requires Ends(k)
    ensures ReadExponent(PrintExponent(e, k)) == Ok(e, k)
    ensures !StartsDigit(PrintExponent(e, k)) && !Starts(PrintExponent(e, k), '.')
  {
    if e.Exponent? {
      var size := if e.value < 0 then -e.value else e.value;
      var t := if size < 10 then ['0'] + PrintNat(size, k) else PrintNat(size, k);
      ExponentDigits(size, k);
      ExponentRead(t, size, k);
      assert PrintExponent(e, k) == (if e.value < 0 then ['e', '-'] + t else ['e', '+'] + t);
    }
  }

  /** Reading a printed number gives it back and stops where it ends. */
  lemma {:induction false} NumberRoundTrip(n: Number, k: string)
    requires Ends(k)
    ensures ReadNumber(PrintNumber(n, k)) == Ok(n, k)
    ensures StartsDigit(PrintNumber(n, k)) || Starts(PrintNumber(n, k), '-')
  {
    match n
    case Whole(value) =>
      var size := if value < 0 then -value else value;
      NatRoundTrip(size, k);
      assert (['-'] + PrintNat(size, k))[1..] == PrintNat(size, k);
    case Float(d) =>
      var tail := PrintExponent(d.exponent, k);
      var body := PrintNat(d.whole, PrintFraction(d.fraction, tail));
      ExponentRoundTrip(d.exponent, k);
      FractionRoundTrip(d.fraction, tail);
      NatRoundTrip(d.whole, PrintFraction(d.fraction, tail));
      assert (['-'] + body)[1..] == body;
  }

  // ---------- printed numbers are plain ----------

  /** Printable ASCII only. */
  ghost predicate Plain(s: string) {
    forall i :: 0 <= i < |s| ==> ' ' <= s[i] <= '~'
  }

  lemma {:induction false} NatIsPlain(n: nat, k: string)
    requires Plain(k)
    ensures Plain(PrintNat(n, k))
  {
    DigitValue(n % 10);
    if n >= 10 {
      NatIsPlain(n / 10, [Digit(n % 10)] + k);
    }
  }

  lemma {:induction false} FiguresArePlain(figures: seq<Figure>, k: string)
    requires Plain(k)
    ensures Plain(PrintFigures(figures, k))
  {
    if figures != [] {
      FiguresArePlain(figures[1..], k);
      DigitValue(figures[0]);
    }
  }

  lemma {:induction false} NumberIsPlain(n: Number, k: string)
    requires Plain(k)
    ensures Plain(PrintNumber(n, k))
  {
    match n
    case Whole(value) =>
      NatIsPlain(if value < 0 then -value else value, k);
    case Float(d) =>
      if d.exponent.Exponent? {
        NatIsPlain(if d.exponent.value < 0 then -d.exponent.value else d.exponent.value, k);
      }
      var tail := PrintExponent(d.exponent, k);
      FiguresArePlain(d.fraction, tail);
      NatIsPlain(d.whole, PrintFraction(d.fraction, tail));
  }
}
