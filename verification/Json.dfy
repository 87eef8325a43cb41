/**
 * JSON values as Python prints them, compact or with a space after each separator, and a reader for them
 * by RFC 8259. Objects keep the order of their members.
 */
module Json {
  import opened JsonNumbers
  import opened JsonText

  datatype Value =
    | Null
    | Bool(flag: bool)
    | Num(number: Number)
    | Str(text: Text)
    | Arr(items: Items)
    | Obj(fields: Fields)

  datatype Items = NoItems | Item(head: Value, tail: Items)

  datatype Fields = NoFields | Field(key: Text, value: Value, rest: Fields)

  /** Python's default separators are followed by a space. */
  datatype Style = Compact | Spaced

  // ---------- printing ----------

  function Separated(style: Style, c: char, k: string): string {
    if style.Spaced? then [c, ' '] + k else [c] + k
  }

  function Print(style: Style, v: Value, k: string): string
    decreases v
  {
    match v
    case Null => ['n', 'u', 'l', 'l'] + k
    case Bool(flag) => (if flag then ['t', 'r', 'u', 'e'] else ['f', 'a', 'l', 's', 'e']) + k
    case Num(n) => PrintNumber(n, k)
    case Str(s) => PrintString(s, k)
    case Arr(items) =>
      if items.NoItems? then ['[', ']'] + k else ['['] + Print(style, items.head, PrintItems(style, items.tail, k))
    case Obj(fields) => if fields.NoFields? then ['{', '}'] + k else ['{'] + PrintMember(style, fields, k)
  }

  /** The items after the first. */
  function PrintItems(style: Style, items: Items, k: string): string
    decreases items
  {
    match items
    case NoItems => [']'] + k
    case Item(head, tail) => Separated(style, ',', Print(style, head, PrintItems(style, tail, k)))
  }

  function PrintMember(style: Style, fields: Fields, k: string): string
    requires fields.Field?
    decreases fields, 0
  {
    PrintString(fields.key, Separated(style, ':', Print(style, fields.value, PrintFields(style, fields.rest, k))))
  }

  /** The members after the first. */
  function PrintFields(style: Style, fields: Fields, k: string): string
    decreases fields, 1
  {
    match fields
    case NoFields => ['}'] + k
    case Field(_, _, _) => Separated(style, ',', PrintMember(style, fields, k))
  }

  function Encode(style: Style, v: Value): string {
    Print(style, v, [])
  }

  /** Python's separators: a comma and a colon, each followed by a space unless compact ones are asked for. */
  lemma SeparatorsAre(key: Text, v: Value, fields: Fields, items: Items, k: string)
    ensures PrintFields(Spaced, Field(key, v, fields), k)
         == ", " + PrintString(key, ": " + Print(Spaced, v, PrintFields(Spaced, fields, k)))
    ensures PrintFields(Compact, Field(key, v, fields), k)
         == "," + PrintString(key, ":" + Print(Compact, v, PrintFields(Compact, fields, k)))
    ensures PrintItems(Spaced, Item(v, items), k) == ", " + Print(Spaced, v, PrintItems(Spaced, items, k))
    ensures PrintItems(Compact, Item(v, items), k) == "," + Print(Compact, v, PrintItems(Compact, items, k))
  {
  }

  // ---------- reading ----------

  predicate IsSpace(c: char) {
    c == ' ' || c == '\t' || c == '\n' || c == '\r'
  }

  function Skip(s: string): (r: string)
    ensures |r| <= |s|
  {
    if s != [] && IsSpace(s[0]) then Skip(s[1..]) else s
  }

  /** The next character that is not white space. */
  predicate Next(s: string, c: char) {
    Skip(s) != [] && Skip(s)[0] == c
  }

  function After(s: string): (r: string)
    requires Skip(s) != []
    ensures |r| < |s|
  {
    Skip(s)[1..]
  }

  predicate Spells(s: string, word: string) {
    word <= s
  }

  function ReadValue(text: string): (r: Read<Value>)
    ensures r.Ok? ==> |r.rest| < |text|
    decreases |text|, 0
  {
    var s := Skip(text);
    if s == [] then Malformed
    else if s[0] == 'n' then if Spells(s, "null") then Ok(Null, s[4..]) else Malformed
    else if s[0] == 't' then if Spells(s, "true") then Ok(Bool(true), s[4..]) else Malformed
    else if s[0] == 'f' then if Spells(s, "false") then Ok(Bool(false), s[5..]) else Malformed
    else if s[0] == '"' then
      var r := ReadChars(s[1..]);
      if r.Malformed? then Malformed else Ok(Str(r.value), r.rest)
    else if s[0] == '[' then
      if Next(s[1..], ']') then Ok(Arr(NoItems), After(s[1..]))
      else
        var head := ReadValue(s[1..]);
        if head.Malformed? then Malformed
        else
          var tail := ReadItems(head.rest);
          if tail.Malformed? then Malformed else Ok(Arr(Item(head.value, tail.value)), tail.rest)
    else if s[0] == '{' then
      if Next(s[1..], '}') then Ok(Obj(NoFields), After(s[1..]))
      else
        var fields := ReadMember(s[1..]);
        if fields.Malformed? then Malformed else Ok(Obj(fields.value), fields.rest)
    else
      var n := ReadNumber(s);
      if n.Malformed? then Malformed else Ok(Num(n.value), n.rest)
  }

  /** The items after the first, and the closing bracket. */
  function ReadItems(s: string): (r: Read<Items>)
    ensures r.Ok? ==> |r.rest| < |s|
    decreases |s|, 1
  {
    if Next(s, ']') then Ok(NoItems, After(s))
    else if Next(s, ',') then
      var head := ReadValue(After(s));
      if head.Malformed? then Malformed
      else
        var tail := ReadItems(head.rest);
        if tail.Malformed? then Malformed else Ok(Item(head.value, tail.value), tail.rest)
    else Malformed
  }

  /** A key, its value and the members after it. */
  function ReadMember(s: string): (r: Read<Fields>)
    ensures r.Ok? ==> |r.rest| < |s|
    decreases |s|, 1
  {
    if !Next(s, '"') then Malformed
    else
      var key := ReadChars(After(s));
      if key.Malformed? || !Next(key.rest, ':') then Malformed
      else
        var value := ReadValue(After(key.rest));
        if value.Malformed? then Malformed
        else
          var rest := ReadFields(value.rest);
          if rest.Malformed? then Malformed else Ok(Field(key.value, value.value, rest.value), rest.rest)
  }

  /** The members after the first, and the closing brace. */
  function ReadFields(s: string): (r: Read<Fields>)
    ensures r.Ok? ==> |r.rest| < |s|
    decreases |s|, 2
  {
    if Next(s, '}') then Ok(NoFields, After(s))
    else if Next(s, ',') then ReadMember(After(s))
    else Malformed
  }

  /** A whole text holding one value and at most white space after it. */
  function Decode(s: string): Read<Value> {
    var r := ReadValue(s);
    if r.Ok? && Skip(r.rest) == [] then r else Malformed
  }

  // ---------- reading undoes printing ----------

  /** What every printed value begins with. */
  predicate StartsValue(s: string) {
    s != [] && s[0] != ',' && s[0] != ']' && s[0] != '}' && s[0] != ':' && !IsSpace(s[0])
  }

  /** The value with all its texts merged. */
  function MergedValue(v: Value): Value {
    match v
    case Null => Null
    case Bool(flag) => Bool(flag)
    case Num(n) => Num(n)
    case Str(s) => Str(Merged(s))
    case Arr(items) => Arr(MergedItems(items))
    case Obj(fields) => Obj(MergedFields(fields))
  }

  function MergedItems(items: Items): Items {
    match items
    case NoItems => NoItems
    case Item(head, tail) => Item(MergedValue(head), MergedItems(tail))
  }

  function MergedFields(fields: Fields): Fields {
    match fields
    case NoFields => NoFields
    case Field(key, value, rest) => Field(Merged(key), MergedValue(value), MergedFields(rest))
  }

  /** Merging changes no key that is a string of characters. */
  lemma {:induction false} MergedField(name: string, v: Value, rest: Fields)
    ensures MergedFields(Field(Codes(name), v, rest)) == Field(Codes(name), MergedValue(v), MergedFields(rest))
  {
    CodesAreMerged(name);
  }

  /** A separator is consumed together with the space after it. */
  lemma {:induction false} PastSeparator(style: Style, c: char, t: string)
    requires !IsSpace(c)
    ensures var s := Separated(style, c, t);
      Next(s, c) && ReadValue(After(s)) == ReadValue(t) && ReadMember(After(s)) == ReadMember(t)
  {
    var s := Separated(style, c, t);
    assert Skip(s) == s;
    if style.Spaced? {
      assert s[1..] == [' '] + t;
      assert ([' '] + t)[1..] == t;
      assert Skip([' '] + t) == Skip(t);
    } else {
      assert s[1..] == t;
    }
  }

  /** Reading a printed value, in either style, gives it back with its surrogate pairs merged, and stops where it ends. */
  lemma {:induction false} RoundTrip(style: Style, v: Value, k: string)
    requires Ends(k)
    ensures ReadValue(Print(style, v, k)) == Ok(MergedValue(v), k) && StartsValue(Print(style, v, k))
    decreases v
  {
    match v
    case Null => WordRoundTrip(k);
    case Bool(_) => WordRoundTrip(k);
    case Num(n) => NumberValueRoundTrip(n, k);
    case Str(t) => TextRoundTrip(t, k);
    case Arr(items) =>
      if items.NoItems? {
        EmptyRoundTrip(k);
      } else {
        var end := PrintItems(style, items.tail, k);
        ItemsRoundTrip(style, items.tail, k);
        RoundTrip(style, items.head, end);
        ArrayRead(MergedValue(items.head), MergedItems(items.tail), Print(style, items.head, end), end, k);
      }
    case Obj(fields) =>
      if fields.NoFields? {
        EmptyRoundTrip(k);
      } else {
        MemberRoundTrip(style, fields, k);
        ObjectRead(MergedFields(fields), PrintMember(style, fields, k), k);
      }
  }

  lemma {:induction false} WordRoundTrip(k: string)
    ensures ReadValue(['n', 'u', 'l', 'l'] + k) == Ok(Null, k)
    ensures ReadValue(['t', 'r', 'u', 'e'] + k) == Ok(Bool(true), k)
    ensures ReadValue(['f', 'a', 'l', 's', 'e'] + k) == Ok(Bool(false), k)
  {
    var n, t, f := ['n', 'u', 'l', 'l'] + k, ['t', 'r', 'u', 'e'] + k, ['f', 'a', 'l', 's', 'e'] + k;
    assert n[..4] == "null" && t[..4] == "true" && f[..5] == "false";
    assert n[4..] == k && t[4..] == k && f[5..] == k;
  }

  lemma {:induction false} NumberValueRoundTrip(n: Number, k: string)
    requires Ends(k)
    ensures ReadValue(PrintNumber(n, k)) == Ok(Num(n), k) && StartsValue(PrintNumber(n, k))
  {
    NumberRoundTrip(n, k);
    NumberRead(PrintNumber(n, k), n, k);
  }

  lemma {:induction false} NumberRead(s: string, n: Number, k: string)
    requires (StartsDigit(s) || Starts(s, '-')) && ReadNumber(s) == Ok(n, k)
    ensures ReadValue(s) == Ok(Num(n), k) && StartsValue(s)
  {
  }

  lemma {:induction false} TextRoundTrip(s: Text, k: string)
    ensures ReadValue(PrintString(s, k)) == Ok(Str(Merged(s)), k) && StartsValue(PrintString(s, k))
  {
    StringRoundTrip(s, k);
    assert Skip(PrintString(s, k)) == PrintString(s, k);
  }

  lemma {:induction false} EmptyRoundTrip(k: string)
    ensures ReadValue(['[', ']'] + k) == Ok(Arr(NoItems), k) && ReadValue(['{', '}'] + k) == Ok(Obj(NoFields), k)
  {
    var a, o := ['[', ']'] + k, ['{', '}'] + k;
    assert a[1..] == [']'] + k && o[1..] == ['}'] + k;
    assert ([']'] + k)[1..] == k && (['}'] + k)[1..] == k;
  }

  lemma {:induction false} ArrayRead(head: Value, tail: Items, s: string, t: string, k: string)
    requires ReadValue(s) == Ok(head, t) && StartsValue(s) && ReadItems(t) == Ok(tail, k)
    ensures ReadValue(['['] + s) == Ok(Arr(Item(head, tail)), k)
  {
    assert (['['] + s)[1..] == s;
    assert Skip(s) == s;
  }

  lemma {:induction false} ObjectRead(fields: Fields, s: string, k: string)
    requires ReadMember(s) == Ok(fields, k) && s != [] && s[0] == '"'
    ensures ReadValue(['{'] + s) == Ok(Obj(fields), k)
  {
    assert (['{'] + s)[1..] == s;
    assert Skip(s) == s;
  }

  lemma {:induction false} ItemsRoundTrip(style: Style, items: Items, k: string)
    ensures ReadItems(PrintItems(style, items, k)) == Ok(MergedItems(items), k)
    ensures Ends(PrintItems(style, items, k))
    decreases items
  {
    match items
    case NoItems =>
      assert ([']'] + k)[1..] == k;
    case Item(head, tail) =>
      var end := PrintItems(style, tail, k);
      ItemsRoundTrip(style, tail, k);
      RoundTrip(style, head, end);
      PastSeparator(style, ',', Print(style, head, end));
  }

  lemma {:induction false} MemberRoundTrip(style: Style, fields: Fields, k: string)
    requires fields.Field?
    ensures ReadMember(PrintMember(style, fields, k)) == Ok(MergedFields(fields), k)
    ensures PrintMember(style, fields, k) != [] && PrintMember(style, fields, k)[0] == '"'
    decreases fields, 0
  {
    var Field(key, value, rest) := fields;
    var end := PrintFields(style, rest, k);
    var tail := Print(style, value, end);
    StringRoundTrip(key, Separated(style, ':', tail));
    FieldsRoundTrip(style, rest, k);
    RoundTrip(style, value, end);
    PastSeparator(style, ':', tail);
    MemberRead(MergedFields(fields), PrintString(key, Separated(style, ':', tail)), Separated(style, ':', tail), end, k);
  }

  lemma {:induction false} MemberRead(fields: Fields, s: string, t: string, end: string, k: string)
    requires fields.Field? && s != [] && s[0] == '"' && ReadChars(s[1..]) == Ok(fields.key, t)
    requires Next(t, ':') && ReadValue(After(t)) == Ok(fields.value, end) && ReadFields(end) == Ok(fields.rest, k)
    ensures ReadMember(s) == Ok(fields, k)
  {
    assert Skip(s) == s && After(s) == s[1..];
  }

  lemma {:induction false} FieldsRoundTrip(style: Style, fields: Fields, k: string)
    ensures ReadFields(PrintFields(style, fields, k)) == Ok(MergedFields(fields), k)
    ensures Ends(PrintFields(style, fields, k))
    decreases fields, 1
  {
    match fields
    case NoFields =>
      assert (['}'] + k)[1..] == k;
    case Field(_, _, _) =>
      MemberRoundTrip(style, fields, k);
      PastSeparator(style, ',', PrintMember(style, fields, k));
  }

  lemma {:induction false} ObjectStarts(style: Style, fields: Fields)
    ensures Encode(style, Obj(fields)) != [] && Encode(style, Obj(fields))[0] == '{'
  {
  }

  lemma {:induction false} DecodeEncode(style: Style, v: Value)
    ensures Decode(Encode(style, v)) == Ok(MergedValue(v), [])
  {
    RoundTrip(style, v, []);
  }

  // ---------- what prints alike ----------

  lemma {:induction false} MergedValuePrintsAlike(style: Style, v: Value, k: string)
    ensures Print(style, MergedValue(v), k) == Print(style, v, k)
    decreases v
  {
    match v
    case Null =>
    case Bool(_) =>
    case Num(_) =>
    case Str(s) => MergedPrintsAlike(s, ['"'] + k);
    case Arr(items) =>
      if items.Item? {
        MergedItemsPrintAlike(style, items.tail, k);
        MergedValuePrintsAlike(style, items.head, PrintItems(style, items.tail, k));
      }
    case Obj(fields) =>
      if fields.Field? {
        MergedMemberPrintsAlike(style, fields, k);
      }
  }

  lemma {:induction false} MergedItemsPrintAlike(style: Style, items: Items, k: string)
    ensures PrintItems(style, MergedItems(items), k) == PrintItems(style, items, k)
    decreases items
  {
    if items.Item? {
      MergedItemsPrintAlike(style, items.tail, k);
      MergedValuePrintsAlike(style, items.head, PrintItems(style, items.tail, k));
    }
  }

  lemma {:induction false} MergedMemberPrintsAlike(style: Style, fields: Fields, k: string)
    requires fields.Field?
    ensures PrintMember(style, MergedFields(fields), k) == PrintMember(style, fields, k)
    decreases fields, 0
  {
    var end := PrintFields(style, fields.rest, k);
    MergedFieldsPrintAlike(style, fields.rest, k);
    MergedValuePrintsAlike(style, fields.value, end);
    MergedPrintsAlike(fields.key, ['"'] + Separated(style, ':', Print(style, fields.value, end)));
  }

  lemma {:induction false} MergedFieldsPrintAlike(style: Style, fields: Fields, k: string)
    ensures PrintFields(style, MergedFields(fields), k) == PrintFields(style, fields, k)
    decreases fields, 1
  {
    if fields.Field? {
      MergedMemberPrintsAlike(style, fields, k);
    }
  }

  /** Two values print alike exactly when they are equal once their surrogate pairs are merged. */
  lemma {:induction false} PrintsAlikeIff(style: Style, v: Value, w: Value)
    ensures Encode(style, v) == Encode(style, w) <==> MergedValue(v) == MergedValue(w)
  {
    DecodeEncode(style, v);
    DecodeEncode(style, w);
    MergedValuePrintsAlike(style, v, []);
    MergedValuePrintsAlike(style, w, []);
  }

  // ---------- when decoding undoes encoding ----------

  /** No text inside the value has a surrogate pair. */
  predicate Unpaired(v: Value) {
    match v
    case Null => true
    case Bool(_) => true
    case Num(_) => true
    case Str(s) => NoPair(s)
    case Arr(items) => UnpairedItems(items)
    case Obj(fields) => UnpairedFields(fields)
  }

  predicate UnpairedItems(items: Items) {
    items.NoItems? || (Unpaired(items.head) && UnpairedItems(items.tail))
  }

  predicate UnpairedFields(fields: Fields) {
    fields.NoFields? || (NoPair(fields.key) && Unpaired(fields.value) && UnpairedFields(fields.rest))
  }

  lemma {:induction false} MergedIffUnpaired(v: Value)
    ensures MergedValue(v) == v <==> Unpaired(v)
    decreases v
  {
    match v
    case Null =>
    case Bool(_) =>
    case Num(_) =>
    case Str(s) => MergedIffNoPair(s);
    case Arr(items) => MergedIffUnpairedItems(items);
    case Obj(fields) => MergedIffUnpairedFields(fields);
  }

  lemma {:induction false} MergedIffUnpairedItems(items: Items)
    ensures MergedItems(items) == items <==> UnpairedItems(items)
    decreases items
  {
    if items.Item? {
      MergedIffUnpaired(items.head);
      MergedIffUnpairedItems(items.tail);
    }
  }

  lemma {:induction false} MergedIffUnpairedFields(fields: Fields)
    ensures MergedFields(fields) == fields <==> UnpairedFields(fields)
    decreases fields
  {
    if fields.Field? {
      MergedIffNoPair(fields.key);
      MergedIffUnpaired(fields.value);
      MergedIffUnpairedFields(fields.rest);
    }
  }

  /** Decoding undoes encoding exactly for the values without a surrogate pair in any text. */
  lemma {:induction false} RoundTripIffUnpaired(style: Style, v: Value)
    ensures Decode(Encode(style, v)) == Ok(v, []) <==> Unpaired(v)
  {
    DecodeEncode(style, v);
    MergedIffUnpaired(v);
  }

  // ---------- the printed text is printable ASCII ----------

  lemma {:induction false} SeparatedIsPlain(style: Style, c: char, k: string)
    requires Plain(k) && ' ' <= c <= '~'
    ensures Plain(Separated(style, c, k))
  {
  }

  /** Whatever the strings inside, the printed text has no control character and nothing beyond ASCII. */
  lemma {:induction false} PrintIsPlain(style: Style, v: Value, k: string)
    requires Plain(k)
    ensures Plain(Print(style, v, k))
    decreases v
  {
    match v
    case Null =>
    case Bool(_) =>
    case Num(n) => NumberIsPlain(n, k);
    case Str(s) => CharsArePlain(s, ['"'] + k);
    case Arr(items) =>
      if items.Item? {
        ItemsArePlain(style, items.tail, k);
        PrintIsPlain(style, items.head, PrintItems(style, items.tail, k));
      }
    case Obj(fields) =>
      if fields.Field? {
        MemberIsPlain(style, fields, k);
      }
  }

  lemma {:induction false} ItemsArePlain(style: Style, items: Items, k: string)
    requires Plain(k)
    ensures Plain(PrintItems(style, items, k))
    decreases items
  {
    if items.Item? {
      ItemsArePlain(style, items.tail, k);
      PrintIsPlain(style, items.head, PrintItems(style, items.tail, k));
      SeparatedIsPlain(style, ',', Print(style, items.head, PrintItems(style, items.tail, k)));
    }
  }

  lemma {:induction false} MemberIsPlain(style: Style, fields: Fields, k: string)
    requires fields.Field? && Plain(k)
    ensures Plain(PrintMember(style, fields, k))
    decreases fields, 0
  {
    var value := Print(style, fields.value, PrintFields(style, fields.rest, k));
    FieldsArePlain(style, fields.rest, k);
    PrintIsPlain(style, fields.value, PrintFields(style, fields.rest, k));
    SeparatedIsPlain(style, ':', value);
    CharsArePlain(fields.key, ['"'] + Separated(style, ':', value));
  }

  lemma {:induction false} FieldsArePlain(style: Style, fields: Fields, k: string)
    requires Plain(k)
    ensures Plain(PrintFields(style, fields, k))
    decreases fields, 1
  {
    if fields.Field? {
      MemberIsPlain(style, fields, k);
      SeparatedIsPlain(style, ',', PrintMember(style, fields, k));
    }
  }
}
