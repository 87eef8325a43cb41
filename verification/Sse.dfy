/**
 * Streaming a finished completion as server-sent events, word by word, and a client that reads the
 * stream back: event framing by sections 9.2.5 and 9.2.6 of the WHATWG HTML standard, JSON by RFC 8259.
 */
module Sse {
  import opened Windows
  import J = Json
  import T = JsonText
  import N = JsonNumbers

  datatype Choice = Choice(content: Option<T.Text>, finishReason: Option<T.Text>)

  datatype Completion = Completion(id: T.Text, created: int, model: T.Text, choices: seq<Choice>)

  /** The text to stream: nothing when there is no choice or its content is null. */
  function TextOf(r: Completion): T.Text {
    if r.choices == [] || r.choices[0].content.None? then [] else r.choices[0].content.value
  }

  function FinishReason(r: Completion): Option<T.Text> {
    if r.choices == [] then Some(T.Codes("stop")) else r.choices[0].finishReason
  }

  // ---------- splitting into words ----------

  /** The code points for which Python's `str.isspace` holds. */
  predicate IsSpace(n: T.CodePoint) {
    || 9 <= n <= 13 || 28 <= n <= 32 || n == 0x85 || n == 0xA0 || n == 0x1680 || 0x2000 <= n <= 0x200A
    || n == 0x2028 || n == 0x2029 || n == 0x202F || n == 0x205F || n == 0x3000
  }

  /** White space one by one: the control characters, the separators and the blanks. */
  lemma IsSpaceIs(n: T.CodePoint)
    ensures IsSpace(n) <==> n in {
      0x09, 0x0A, 0x0B, 0x0C, 0x0D, 0x1C, 0x1D, 0x1E, 0x1F, 0x20, 0x85, 0xA0, 0x1680,
      0x2000, 0x2001, 0x2002, 0x2003, 0x2004, 0x2005, 0x2006, 0x2007, 0x2008, 0x2009, 0x200A,
      0x2028, 0x2029, 0x202F, 0x205F, 0x3000}
  {
  }

  function Joined(parts: seq<T.Text>): T.Text {
    if parts == [] then [] else parts[0] + Joined(parts[1..])
  }

  /** No white space, except possibly as the last character. */
  predicate Clean(part: T.Text) {
    forall i :: 0 <= i < |part| - 1 ==> !IsSpace(part[i])
  }

  predicate EndsInSpace(part: T.Text) {
    part != [] && IsSpace(part[|part| - 1])
  }

  /** Non-empty parts with white space only as last character, all but the last ending in white space. */
  ghost predicate IsSplit(text: T.Text, parts: seq<T.Text>) {
    && Joined(parts) == text
    && (forall k :: 0 <= k < |parts| ==> parts[k] != [] && Clean(parts[k]))
    && (forall k :: 0 <= k < |parts| - 1 ==> EndsInSpace(parts[k]))
  }

  lemma {:induction false} JoinedAppend(parts: seq<T.Text>, part: T.Text)
    ensures Joined(parts + [part]) == Joined(parts) + part
  {
    if parts == [] {
      assert parts + [part] == [part] && [part][1..] == [];
      assert Joined([part]) == part + Joined([]);
    } else {
      JoinedAppend(parts[1..], part);
      assert (parts + [part])[1..] == parts[1..] + [part];
    }
  }

  /** Cuts after every white-space character. */
  method SplitWords(content: T.Text) returns (parts: seq<T.Text>)
    ensures IsSplit(content, parts)
  {
    parts := [];
    var buf: T.Text := [];
    for i := 0 to |content|
      invariant Joined(parts) + buf == content[..i]
      invariant forall j :: 0 <= j < |buf| ==> !IsSpace(buf[j])
      invariant forall k :: 0 <= k < |parts| ==> Clean(parts[k]) && EndsInSpace(parts[k])
    {
      var ch := content[i];
      assert content[..i + 1] == content[..i] + [ch];
      assert Joined(parts) + (buf + [ch]) == (Joined(parts) + buf) + [ch];
      buf := buf + [ch];
      if IsSpace(ch) {
        JoinedAppend(parts, buf);
        parts := parts + [buf];
        buf := [];
      }
    }
    assert content[..|content|] == content;
    if buf != [] {
      JoinedAppend(parts, buf);
      parts := parts + [buf];
    }
  }

  lemma {:induction false} FirstPartIsLonger(text: T.Text, p: seq<T.Text>, q: seq<T.Text>)
    requires IsSplit(text, p) && IsSplit(text, q) && p != [] && q != []
    ensures |p[0]| >= |q[0]|
  {
    assert text == p[0] + Joined(p[1..]) && text == q[0] + Joined(q[1..]);
    var last := |p[0]| - 1;
    assert p[0][last] == text[last];
    assert |p| > 1 ==> EndsInSpace(p[0]);
    assert |p| == 1 ==> Joined(p[1..]) == [] && |text| == |p[0]|;
    assert last < |q[0]| ==> q[0][last] == text[last];
    assert Clean(q[0]);
  }

  lemma {:induction false} NoTextNoParts(text: T.Text, parts: seq<T.Text>)
    requires IsSplit(text, parts)
    ensures text == [] <==> parts == []
  {
    assert parts != [] ==> Joined(parts) == parts[0] + Joined(parts[1..]);
  }

  lemma {:induction false} TailIsSplit(text: T.Text, parts: seq<T.Text>)
    requires IsSplit(text, parts) && parts != []
    ensures |parts[0]| <= |text| && text[..|parts[0]|] == parts[0] && IsSplit(text[|parts[0]|..], parts[1..])
  {
    assert text == parts[0] + Joined(parts[1..]);
  }

  /** There is only one way to split a text. */
  lemma {:induction false} SplitIsUnique(text: T.Text, p: seq<T.Text>, q: seq<T.Text>)
    requires IsSplit(text, p) && IsSplit(text, q)
    ensures p == q
    decreases |p|
  {
    NoTextNoParts(text, p);
    NoTextNoParts(text, q);
    if p != [] {
      FirstPartIsLonger(text, p, q);
      FirstPartIsLonger(text, q, p);
      TailIsSplit(text, p);
      TailIsSplit(text, q);
      SplitIsUnique(text[|p[0]|..], p[1..], q[1..]);
      assert p == [p[0]] + p[1..] && q == [q[0]] + q[1..];
    }
  }

  // ---------- the stream ----------

  datatype Delta = Role(role: T.Text) | Content(text: T.Text) | NoDelta

  function DeltaFields(delta: Delta): J.Fields {
    match delta
    case Role(role) => J.Field(T.Codes("role"), J.Str(role), J.NoFields)
    case Content(text) => J.Field(T.Codes("content"), J.Str(text), J.NoFields)
    case NoDelta => J.NoFields
  }

  function Nullable(s: Option<T.Text>): J.Value {
    if s.Some? then J.Str(s.value) else J.Null
  }

  function ChoiceValue(delta: J.Value, finish: J.Value): J.Value {
    J.Obj(
      J.Field(T.Codes("index"), J.Num(N.Whole(0)),
        J.Field(T.Codes("delta"), delta, J.Field(T.Codes("finish_reason"), finish, J.NoFields))))
  }

  /** The last three fields of a chunk. */
  function ChunkTail(created: int, model: T.Text, choice: J.Value): J.Fields {
    J.Field(T.Codes("created"), J.Num(N.Whole(created)),
      J.Field(T.Codes("model"), J.Str(model),
        J.Field(T.Codes("choices"), J.Arr(J.Item(choice, J.NoItems)), J.NoFields)))
  }

  function ChunkValue(id: T.Text, created: int, model: T.Text, choice: J.Value): J.Value {
    J.Obj(
      J.Field(T.Codes("id"), J.Str(id),
        J.Field(T.Codes("object"), J.Str(T.Codes("chat.completion.chunk")), ChunkTail(created, model, choice))))
  }

  function Payload(r: Completion, delta: Delta, finish: Option<T.Text>): J.Value {
    ChunkValue(r.id, r.created, r.model, ChoiceValue(J.Obj(DeltaFields(delta)), Nullable(finish)))
  }

  const DONE := "[DONE]"

  const ASSISTANT := Role(T.Codes("assistant"))

  function Frame(data: string): string {
    "data: " + data + "\n\n"
  }

  function Chunk(r: Completion, delta: Delta, finish: Option<T.Text>): string {
    Frame(J.Encode(J.Compact, Payload(r, delta, finish)))
  }

  /** What each event of the stream carries. */
  function ContentData(r: Completion, parts: seq<T.Text>): seq<string> {
    if parts == [] then []
    else [J.Encode(J.Compact, Payload(r, Content(parts[0]), None))] + ContentData(r, parts[1..])
  }

  function StreamData(r: Completion, parts: seq<T.Text>): seq<string> {
    [J.Encode(J.Compact, Payload(r, ASSISTANT, None))] + ContentData(r, parts)
      + [J.Encode(J.Compact, Payload(r, NoDelta, FinishReason(r))), DONE]
  }

  function Framed(data: seq<string>): seq<string> {
    if data == [] then [] else [Frame(data[0])] + Framed(data[1..])
  }

  lemma {:induction false} FramedAppend(a: seq<string>, b: seq<string>)
    ensures Framed(a + b) == Framed(a) + Framed(b)
  {
    if a == [] {
      assert a + b == b;
    } else {
      FramedAppend(a[1..], b);
      assert (a + b)[1..] == a[1..] + b;
    }
  }

  lemma {:induction false} ContentDataAppend(r: Completion, parts: seq<T.Text>, part: T.Text)
    ensures ContentData(r, parts + [part]) == ContentData(r, parts) + [J.Encode(J.Compact, Payload(r, Content(part), None))]
  {
    if parts == [] {
      assert parts + [part] == [part] && [part][1..] == [];
      assert ContentData(r, [part]) == [J.Encode(J.Compact, Payload(r, Content(part), None))] + ContentData(r, []);
    } else {
      ContentDataAppend(r, parts[1..], part);
      assert (parts + [part])[1..] == parts[1..] + [part];
    }
  }

  lemma {:induction false} FramedOne(data: string)
    ensures Framed([data]) == [Frame(data)]
  {
    assert [data][1..] == [];
  }

  /** The chunks sent once the role and these parts are out. */
  function Sent(r: Completion, parts: seq<T.Text>): seq<string> {
    Framed([J.Encode(J.Compact, Payload(r, ASSISTANT, None))] + ContentData(r, parts))
  }

  lemma {:induction false} SentNothing(r: Completion)
    ensures Sent(r, []) == [Chunk(r, ASSISTANT, None)]
  {
    var role := [J.Encode(J.Compact, Payload(r, ASSISTANT, None))];
    assert role + ContentData(r, []) == role;
    FramedOne(role[0]);
  }

  lemma {:induction false} SentOneMore(r: Completion, parts: seq<T.Text>, part: T.Text)
    ensures Sent(r, parts + [part]) == Sent(r, parts) + [Chunk(r, Content(part), None)]
  {
    var role := [J.Encode(J.Compact, Payload(r, ASSISTANT, None))];
    var data := J.Encode(J.Compact, Payload(r, Content(part), None));
    ContentDataAppend(r, parts, part);
    assert role + (ContentData(r, parts) + [data]) == (role + ContentData(r, parts)) + [data];
    FramedAppend(role + ContentData(r, parts), [data]);
    FramedOne(data);
  }

  lemma {:induction false} SentAll(r: Completion, parts: seq<T.Text>)
    ensures Framed(StreamData(r, parts))
         == Sent(r, parts) + [Chunk(r, NoDelta, FinishReason(r)), "data: [DONE]\n\n"]
  {
    var role := [J.Encode(J.Compact, Payload(r, ASSISTANT, None))];
    var last := J.Encode(J.Compact, Payload(r, NoDelta, FinishReason(r)));
    FramedAppend(role + ContentData(r, parts), [last] + [DONE]);
    FramedAppend([last], [DONE]);
    FramedOne(last);
    FramedOne(DONE);
    assert [last] + [DONE] == [last, DONE];
    assert StreamData(r, parts) == (role + ContentData(r, parts)) + [last, DONE];
    assert Frame(DONE) == "data: [DONE]\n\n";
  }

  /** One chunk for the role, one for each part of the text, one with the finish reason, and the sentinel. */
  method SseStream(r: Completion) returns (chunks: seq<string>)
    ensures exists parts :: IsSplit(TextOf(r), parts) && chunks == Framed(StreamData(r, parts))
    ensures chunks != [] && chunks[|chunks| - 1] == "data: [DONE]\n\n"
    // what a client reads, chunk by chunk
    ensures var text := if r.choices != [] && r.choices[0].content.Some? then r.choices[0].content.value else [];
      var messages := UnderstandAll(ReadStream(Concat(chunks)));
      exists parts :: IsSplit(text, parts) && Spoken(messages, parts) && |messages| == |chunks|
    ensures forall m :: m in UnderstandAll(ReadStream(Concat(chunks))) && m != DoneMessage ==>
      && m.ChunkMessage? && m.id == T.Merged(r.id) && m.kind == T.Codes("chat.completion.chunk")
      && m.model == T.Merged(r.model) && m.created == r.created && m.index == 0
    // and what it ends up with
    ensures var transcript := Collect(UnderstandAll(ReadStream(Concat(chunks))));
      && transcript.roles == [T.Codes("assistant")] && transcript.done == 1 && transcript.bad == 0
      && (r.choices != [] && r.choices[0].content.Some? ==> transcript.text == T.Merged(r.choices[0].content.value))
      && (r.choices == [] || r.choices[0].content.None? ==> transcript.text == [])
      && (r.choices == [] ==> transcript.finishes == [Some(T.Codes("stop"))])
      && (r.choices != [] ==> transcript.finishes == [MergedOption(r.choices[0].finishReason)])
  {
    var content := if r.choices != [] then r.choices[0].content else Some([]);
    SentNothing(r);
    chunks := [Chunk(r, ASSISTANT, None)];
    var parts: seq<T.Text> := [];
    if content.Some? && content.value != [] {
      parts := SplitWords(content.value);
      for i := 0 to |parts|
        invariant chunks == Sent(r, parts[..i])
      {
        SentOneMore(r, parts[..i], parts[i]);
        assert parts[..i + 1] == parts[..i] + [parts[i]];
        chunks := chunks + [Chunk(r, Content(parts[i]), None)];
      }
      assert parts[..|parts|] == parts;
    }
    var finish := if r.choices != [] then r.choices[0].finishReason else Some(T.Codes("stop"));
    SentAll(r, parts);
    chunks := chunks + [Chunk(r, NoDelta, finish), "data: [DONE]\n\n"];
    assert IsSplit(TextOf(r), parts);
    ClientSeesTheCompletion(r, parts);
    StreamIsSpoken(r, parts);
    T.CodesAreMerged("stop");
    T.CodesAreMerged("assistant");
  }

  /** The messages carry the role, these parts in order, no text with the finish reason, and the sentinel. */
  ghost predicate Spoken(messages: seq<Message>, parts: seq<T.Text>) {
    var n := |parts|;
    && |messages| == n + 3
    && messages[0].ChunkMessage? && messages[0].delta == Role(T.Codes("assistant")) && messages[0].finish == None
    && (forall k :: 0 <= k < n ==>
         messages[k + 1].ChunkMessage? && messages[k + 1].delta == Content(T.Merged(parts[k])) && messages[k + 1].finish == None)
    && messages[n + 1].ChunkMessage? && messages[n + 1].delta == NoDelta
    && messages[n + 2] == DoneMessage
  }

  lemma {:induction false} ContentMessagesAt(r: Completion, parts: seq<T.Text>)
    ensures |ContentMessages(r, parts)| == |ContentData(r, parts)| == |parts|
    ensures forall k :: 0 <= k < |parts| ==> ContentMessages(r, parts)[k] == MessageFor(r, Content(parts[k]), None)
  {
    if parts != [] {
      ContentMessagesAt(r, parts[1..]);
    }
  }

  lemma {:induction false} FramedLength(data: seq<string>)
    ensures |Framed(data)| == |data|
    ensures data != [] ==> Framed(data)[|data| - 1] == Frame(data[|data| - 1])
  {
    if data != [] {
      FramedLength(data[1..]);
    }
  }

  /** The message is the sentinel or a chunk of this completion. */
  ghost predicate FromCompletion(r: Completion, m: Message) {
    m.DoneMessage? || (
      && m.ChunkMessage? && m.id == T.Merged(r.id) && m.kind == T.Codes("chat.completion.chunk")
      && m.model == T.Merged(r.model) && m.created == r.created && m.index == 0)
  }

  lemma {:induction false} MessagesAreFromCompletion(r: Completion, parts: seq<T.Text>, m: Message)
    requires m in StreamMessages(r, parts)
    ensures FromCompletion(r, m)
  {
    if m in ContentMessages(r, parts) {
      ContentMessagesAt(r, parts);
      var k :| 0 <= k < |parts| && m == ContentMessages(r, parts)[k];
    }
  }

  lemma {:induction false} MessagesAreSpoken(r: Completion, parts: seq<T.Text>)
    ensures Spoken(StreamMessages(r, parts), parts)
  {
    ContentMessagesAt(r, parts);
    T.CodesAreMerged("assistant");
    SpokenInOrder(MessageFor(r, ASSISTANT, None), ContentMessages(r, parts), MessageFor(r, NoDelta, FinishReason(r)), parts);
  }

  lemma {:induction false} SpokenInOrder(first: Message, content: seq<Message>, last: Message, parts: seq<T.Text>)
    requires first.ChunkMessage? && first.delta == Role(T.Codes("assistant")) && first.finish == None
    requires last.ChunkMessage? && last.delta == NoDelta
    requires |content| == |parts|
    requires forall k :: 0 <= k < |parts| ==>
      content[k].ChunkMessage? && content[k].delta == Content(T.Merged(parts[k])) && content[k].finish == None
    ensures Spoken([first] + content + [last, DoneMessage], parts)
  {
    var messages := [first] + content + [last, DoneMessage];
    assert messages[0] == first;
    assert messages[|parts| + 1] == last && messages[|parts| + 2] == DoneMessage;
    assert forall k :: 0 <= k < |parts| ==> messages[k + 1] == content[k];
  }

  /** Every message is one of this completion's, and they come in the order of the parts. */
  lemma {:induction false} StreamIsSpoken(r: Completion, parts: seq<T.Text>)
    ensures var messages := UnderstandAll(ReadStream(Concat(Framed(StreamData(r, parts)))));
      && Spoken(messages, parts) && |messages| == |Framed(StreamData(r, parts))|
      && (forall m :: m in messages ==> FromCompletion(r, m))
  {
    StreamRoundTrip(r, parts);
    MessagesAreSpoken(r, parts);
    ContentMessagesAt(r, parts);
    FramedLength(StreamData(r, parts));
    forall m | m in StreamMessages(r, parts) ensures FromCompletion(r, m) {
      MessagesAreFromCompletion(r, parts, m);
    }
  }

  // ---------- the bytes of a chunk ----------

  lemma {:induction false} Regroup(name: string, k: string)
    ensures ("\"" + name + "\"") + ([':'] + k) == ("\"" + name + "\":") + k
    ensures [','] + (("\"" + name + "\":") + k) == (",\"" + name + "\":") + k
    ensures ['{'] + (("\"" + name + "\":") + k) == ("{\"" + name + "\":") + k
  {
  }

  lemma {:induction false} MemberOnTheWire(name: string, v: J.Value, rest: J.Fields, k: string)
    requires T.Unescaped(name)
    ensures J.PrintMember(J.Compact, J.Field(T.Codes(name), v, rest), k)
         == ("\"" + name + "\":") + J.Print(J.Compact, v, J.PrintFields(J.Compact, rest, k))
  {
    var after := J.Print(J.Compact, v, J.PrintFields(J.Compact, rest, k));
    T.UnescapedStands(name, [':'] + after);
    Regroup(name, after);
  }

  /** The first member of an object, with what leads up to its value. */
  lemma {:induction false} FirstOnTheWire(name: string, lead: string, v: J.Value, rest: J.Fields, k: string)
    requires T.Unescaped(name) && lead == "{\"" + name + "\":"
    ensures J.Print(J.Compact, J.Obj(J.Field(T.Codes(name), v, rest)), k)
         == lead + J.Print(J.Compact, v, J.PrintFields(J.Compact, rest, k))
  {
    MemberOnTheWire(name, v, rest, k);
    Regroup(name, J.Print(J.Compact, v, J.PrintFields(J.Compact, rest, k)));
  }

  /** A member after the first. */
  lemma {:induction false} NextOnTheWire(name: string, lead: string, v: J.Value, rest: J.Fields, k: string)
    requires T.Unescaped(name) && lead == ",\"" + name + "\":"
    ensures J.PrintFields(J.Compact, J.Field(T.Codes(name), v, rest), k)
         == lead + J.Print(J.Compact, v, J.PrintFields(J.Compact, rest, k))
  {
    MemberOnTheWire(name, v, rest, k);
    Regroup(name, J.Print(J.Compact, v, J.PrintFields(J.Compact, rest, k)));
  }

  lemma {:induction false} ChoiceOnTheWire(delta: J.Value, finish: J.Value, k: string)
    ensures J.Print(J.Compact, ChoiceValue(delta, finish), k)
         == "{\"index\":" + ("0" + (",\"delta\":" + J.Print(J.Compact, delta,
              ",\"finish_reason\":" + J.Print(J.Compact, finish, ['}'] + k))))
  {
    IndexOnTheWire(J.Field(T.Codes("delta"), delta, J.Field(T.Codes("finish_reason"), finish, J.NoFields)), k);
    DeltaAndFinishOnTheWire(delta, finish, k);
  }

  lemma {:induction false} IndexOnTheWire(rest: J.Fields, k: string)
    ensures J.Print(J.Compact, J.Obj(J.Field(T.Codes("index"), J.Num(N.Whole(0)), rest)), k)
         == "{\"index\":" + ("0" + J.PrintFields(J.Compact, rest, k))
  {
    FirstOnTheWire("index", "{\"index\":", J.Num(N.Whole(0)), rest, k);
    ZeroOnTheWire(J.PrintFields(J.Compact, rest, k));
  }

  lemma {:induction false} DeltaAndFinishOnTheWire(delta: J.Value, finish: J.Value, k: string)
    ensures J.PrintFields(J.Compact, J.Field(T.Codes("delta"), delta,
              J.Field(T.Codes("finish_reason"), finish, J.NoFields)), k)
         == ",\"delta\":" + J.Print(J.Compact, delta, ",\"finish_reason\":" + J.Print(J.Compact, finish, ['}'] + k))
  {
    NextOnTheWire("finish_reason", ",\"finish_reason\":", finish, J.NoFields, k);
    NextOnTheWire("delta", ",\"delta\":", delta, J.Field(T.Codes("finish_reason"), finish, J.NoFields), k);
  }

  lemma {:induction false} ZeroOnTheWire(k: string)
    ensures J.Print(J.Compact, J.Num(N.Whole(0)), k) == ['0'] + k
  {
    assert N.PrintNumber(N.Whole(0), k) == N.PrintNat(0, k);
  }

  lemma {:induction false} ObjectNameOnTheWire(created: J.Value, rest: J.Fields)
    ensures var name := J.Str(T.Codes("chat.completion.chunk"));
      J.PrintFields(J.Compact, J.Field(T.Codes("object"), name, J.Field(T.Codes("created"), created, rest)), [])
      == ",\"object\":" + ("\"" + "chat.completion.chunk" + "\"" + (",\"created\":"
         + J.Print(J.Compact, created, J.PrintFields(J.Compact, rest, []))))
  {
    var name, f3 := J.Str(T.Codes("chat.completion.chunk")), J.Field(T.Codes("created"), created, rest);
    NextOnTheWire("object", ",\"object\":", name, f3, []);
    NextOnTheWire("created", ",\"created\":", created, rest, []);
    KindOnTheWire(J.PrintFields(J.Compact, f3, []));
  }

  lemma {:induction false} KindOnTheWire(k: string)
    ensures J.Print(J.Compact, J.Str(T.Codes("chat.completion.chunk")), k) == "\"" + "chat.completion.chunk" + "\"" + k
  {
    T.UnescapedStands("chat.completion.chunk", k);
  }

  lemma {:induction false} ListOnTheWire(choice: J.Value)
    ensures J.PrintFields(J.Compact, J.Field(T.Codes("choices"), J.Arr(J.Item(choice, J.NoItems)), J.NoFields), [])
         == ",\"choices\":" + ("[" + J.Print(J.Compact, choice, "]}"))
  {
    var list := J.Arr(J.Item(choice, J.NoItems));
    NextOnTheWire("choices", ",\"choices\":", list, J.NoFields, []);
    assert J.PrintFields(J.Compact, J.NoFields, []) == "}";
    assert J.PrintItems(J.Compact, J.NoItems, "}") == "]}";
  }

  lemma {:induction false} ChunkValueOnTheWire(id: T.Text, created: int, model: T.Text, choice: J.Value)
    ensures J.Encode(J.Compact, ChunkValue(id, created, model, choice))
         == "{\"id\":" + T.PrintString(id, ",\"object\":" + ("\"" + "chat.completion.chunk" + "\"" + (",\"created\":" +
              N.PrintNumber(N.Whole(created), ",\"model\":" + T.PrintString(model,
              ",\"choices\":" + ("[" + J.Print(J.Compact, choice, "]}")))))))
  {
    var f5 := J.Field(T.Codes("choices"), J.Arr(J.Item(choice, J.NoItems)), J.NoFields);
    var f4 := J.Field(T.Codes("model"), J.Str(model), f5);
    var f2 := J.Field(T.Codes("object"), J.Str(T.Codes("chat.completion.chunk")), ChunkTail(created, model, choice));
    ListOnTheWire(choice);
    NextOnTheWire("model", ",\"model\":", J.Str(model), f5, []);
    ObjectNameOnTheWire(J.Num(N.Whole(created)), f4);
    FirstOnTheWire("id", "{\"id\":", J.Str(id), f2, []);
  }

  /** What a delta looks like. */
  lemma {:induction false} DeltaOnTheWire(delta: Delta, k: string)
    ensures J.Print(J.Compact, J.Obj(DeltaFields(delta)), k) ==
      match delta {
        case Role(role) => "{\"role\":" + T.PrintString(role, ['}'] + k)
        case Content(text) => "{\"content\":" + T.PrintString(text, ['}'] + k)
        case NoDelta => "{}" + k
      }
  {
    match delta
    case Role(role) => FirstOnTheWire("role", "{\"role\":", J.Str(role), J.NoFields, k);
    case Content(text) => FirstOnTheWire("content", "{\"content\":", J.Str(text), J.NoFields, k);
    case NoDelta =>
  }

  /** A chunk, byte by byte but for the texts and the number in it. */
  lemma {:induction false} ChunkOnTheWire(r: Completion, delta: Delta, finish: Option<T.Text>)
    ensures Chunk(r, delta, finish)
         == "data: " + ("{\"id\":" + T.PrintString(r.id, ",\"object\":" + ("\"" + "chat.completion.chunk" + "\"" + (",\"created\":" +
              N.PrintNumber(N.Whole(r.created), ",\"model\":" + T.PrintString(r.model,
              ",\"choices\":" + ("[" + ("{\"index\":" + ("0" + (",\"delta\":" + J.Print(J.Compact, J.Obj(DeltaFields(delta)),
              ",\"finish_reason\":" + J.Print(J.Compact, Nullable(finish), "}]}")))))))))))) + "\n\n"
  {
    ChunkValueOnTheWire(r.id, r.created, r.model, ChoiceValue(J.Obj(DeltaFields(delta)), Nullable(finish)));
    ChoiceOnTheWire(J.Obj(DeltaFields(delta)), Nullable(finish), "]}");
    assert ['}'] + "]}" == "}]}";
  }

  function Concat(chunks: seq<string>): string {
    if chunks == [] then "" else chunks[0] + Concat(chunks[1..])
  }

  // ---------- reading an event stream ----------

  /** The first line and what follows it; a line ends with CR LF, LF or CR. An unfinished line is no line. */
  function NextLine(s: string): (r: Option<(string, string)>)
    ensures r.Some? ==> |r.value.1| < |s|
  {
    if s == [] then None
    else if s[0] == '\n' then Some(("", s[1..]))
    else if s[0] == '\r' then Some(("", if |s| >= 2 && s[1] == '\n' then s[2..] else s[1..]))
    else
      var r := NextLine(s[1..]);
      if r.None? then None else Some(([s[0]] + r.value.0, r.value.1))
  }

  /** Where the first colon is, or the length of the line. */
  function Colon(line: string): (i: nat)
    ensures i <= |line|
  {
    if line == [] || line[0] == ':' then 0 else 1 + Colon(line[1..])
  }

  /** One line of an event added to its data buffer: comments and fields other than `data` add nothing. */
  function AddLine(line: string, buffer: string): string {
    var i := Colon(line);
    var value := if i < |line| then line[i + 1..] else "";
    var stripped := if value != "" && value[0] == ' ' then value[1..] else value;
    if line[..i] == "data" then buffer + stripped + "\n" else buffer
  }

  /** The data of every event a blank line completes; without data there is no event. */
  function Events(s: string, buffer: string): seq<string>
    decreases |s|
  {
    var line := NextLine(s);
    if line.None? then []
    else if line.value.0 == "" then
      (if buffer == "" then [] else [buffer[..|buffer| - 1]]) + Events(line.value.1, "")
    else Events(line.value.1, AddLine(line.value.0, buffer))
  }

  function ReadStream(s: string): seq<string> {
    Events(if s != [] && s[0] == '\U{FEFF}' then s[1..] else s, "")
  }

  lemma {:induction false} LineRead(line: string, rest: string)
    requires N.Plain(line)
    ensures NextLine(line + "\n" + rest) == Some((line, rest))
  {
    var s := line + "\n" + rest;
    if line == [] {
      assert s[1..] == rest;
    } else {
      LineRead(line[1..], rest);
      assert s[1..] == line[1..] + "\n" + rest;
      assert [line[0]] + line[1..] == line;
    }
  }

  lemma {:induction false} DataLine(data: string)
    ensures AddLine("data: " + data, "") == data + "\n"
  {
    var line := "data: " + data;
    assert line[1..][1..][1..][1..] == ": " + data;
    assert Colon(line[1..][1..][1..][1..]) == 0;
    assert Colon(line[1..][1..][1..]) == 1;
    assert Colon(line[1..][1..]) == 2;
    assert Colon(line[1..]) == 3;
    assert Colon(line) == 4;
    assert line[..4] == "data";
    assert line[5..] == " " + data;
    assert (" " + data)[1..] == data;
  }

  lemma {:induction false} FrameRead(data: string, rest: string)
    requires N.Plain(data)
    ensures Events(Frame(data) + rest, "") == [data] + Events(rest, "")
  {
    var line := "data: " + data;
    var s := Frame(data) + rest;
    assert s == line + "\n" + ("\n" + rest);
    LineRead(line, "\n" + rest);
    DataLine(data);
    var after := "\n" + rest;
    assert Events(s, "") == Events(after, data + "\n");
    assert after[1..] == rest;
    assert NextLine(after) == Some(("", rest));
    assert (data + "\n")[..|data + "\n"| - 1] == data;
  }

  ghost predicate AllPlain(data: seq<string>) {
    forall k :: 0 <= k < |data| ==> N.Plain(data[k])
  }

  lemma {:induction false} FramesRead(data: seq<string>)
    requires AllPlain(data)
    ensures Events(Concat(Framed(data)), "") == data
  {
    if data != [] {
      FramesRead(data[1..]);
      var frames := Framed(data);
      assert frames[0] == Frame(data[0]) && frames[1..] == Framed(data[1..]);
      FrameRead(data[0], Concat(Framed(data[1..])));
      assert [data[0]] + data[1..] == data;
    }
  }

  // ---------- the client ----------

  datatype Message =
    | ChunkMessage(id: T.Text, kind: T.Text, model: T.Text, created: int, index: int, delta: Delta, finish: Option<T.Text>)
    | DoneMessage
    | Garbled

  function Lookup(v: J.Value, key: string): Option<J.Value> {
    if v.Obj? then LookupField(v.fields, T.Codes(key)) else None
  }

  function LookupField(fields: J.Fields, key: T.Text): Option<J.Value> {
    match fields
    case NoFields => None
    case Field(k, v, rest) => if k == key then Some(v) else LookupField(rest, key)
  }

  function TextIn(v: J.Value, key: string): Option<T.Text> {
    var found := Lookup(v, key);
    if found.Some? && found.value.Str? then Some(found.value.text) else None
  }

  function WholeIn(v: J.Value, key: string): Option<int> {
    var found := Lookup(v, key);
    if found.Some? && found.value.Num? && found.value.number.Whole? then Some(found.value.number.value) else None
  }

  function DeltaOf(v: J.Value): Delta {
    var role, content := TextIn(v, "role"), TextIn(v, "content");
    if role.Some? then Role(role.value) else if content.Some? then Content(content.value) else NoDelta
  }

  function FinishOf(v: J.Value): Option<T.Text> {
    TextIn(v, "finish_reason")
  }

  function MessageOf(v: J.Value): Message {
    var id, kind, model := TextIn(v, "id"), TextIn(v, "object"), TextIn(v, "model");
    var created, choices := WholeIn(v, "created"), Lookup(v, "choices");
    if id.None? || kind.None? || model.None? || created.None?
       || choices.None? || !choices.value.Arr? || !choices.value.items.Item? then Garbled
    else
      var choice := choices.value.items.head;
      var index, delta := WholeIn(choice, "index"), Lookup(choice, "delta");
      if index.None? || delta.None? then Garbled
      else
        ChunkMessage(id.value, kind.value, model.value, created.value, index.value, DeltaOf(delta.value), FinishOf(choice))
  }

  function Understand(data: string): Message {
    if data == DONE then DoneMessage
    else
      var r := J.Decode(data);
      if r.Malformed? then Garbled else MessageOf(r.value)
  }

  function UnderstandAll(data: seq<string>): seq<Message> {
    if data == [] then [] else [Understand(data[0])] + UnderstandAll(data[1..])
  }

  /** What a client ends up with: roles announced, text appended, finish reasons seen, sentinels seen. */
  datatype Transcript = Transcript(roles: seq<T.Text>, text: T.Text, finishes: seq<Option<T.Text>>, done: nat, bad: nat)

  function Collect(messages: seq<Message>): Transcript {
    if messages == [] then Transcript([], [], [], 0, 0)
    else
      var t := Collect(messages[1..]);
      match messages[0]
      case ChunkMessage(_, _, _, _, _, Role(role), _) => t.(roles := [role] + t.roles)
      case ChunkMessage(_, _, _, _, _, Content(text), _) => t.(text := text + t.text)
      case ChunkMessage(_, _, _, _, _, NoDelta, finish) => t.(finishes := [finish] + t.finishes)
      case DoneMessage => t.(done := t.done + 1)
      case Garbled => t.(bad := t.bad + 1)
  }

  function MergedDelta(delta: Delta): Delta {
    match delta
    case Role(role) => Role(T.Merged(role))
    case Content(text) => Content(T.Merged(text))
    case NoDelta => NoDelta
  }

  function MergedOption(s: Option<T.Text>): Option<T.Text> {
    if s.Some? then Some(T.Merged(s.value)) else None
  }

  /** The message a chunk carries; reading merges surrogate pairs. */
  function MessageFor(r: Completion, delta: Delta, finish: Option<T.Text>): Message {
    ChunkMessage(T.Merged(r.id), T.Codes("chat.completion.chunk"), T.Merged(r.model), r.created, 0,
                 MergedDelta(delta), MergedOption(finish))
  }

  function ContentMessages(r: Completion, parts: seq<T.Text>): seq<Message> {
    if parts == [] then [] else [MessageFor(r, Content(parts[0]), None)] + ContentMessages(r, parts[1..])
  }

  lemma {:induction false} CodesDiffer(a: string, b: string)
    requires a != b
    ensures T.Codes(a) != T.Codes(b)
  {
    if |a| == |b| {
      var i :| 0 <= i < |a| && a[i] != b[i];
      assert T.Codes(a)[i] != T.Codes(b)[i];
    }
  }

  /** A field with this key comes first, or the rest decides. */
  lemma {:induction false} LookupStep(name: string, v: J.Value, rest: J.Fields, key: string)
    ensures LookupField(J.Field(T.Codes(name), v, rest), T.Codes(key))
         == if name == key then Some(v) else LookupField(rest, T.Codes(key))
  {
    if name != key {
      CodesDiffer(name, key);
    }
  }

  lemma {:induction false} MergedSingle(name: string, text: T.Text)
    ensures J.MergedValue(J.Obj(J.Field(T.Codes(name), J.Str(text), J.NoFields)))
         == J.Obj(J.Field(T.Codes(name), J.Str(T.Merged(text)), J.NoFields))
  {
    J.MergedField(name, J.Str(text), J.NoFields);
  }

  lemma {:induction false} DeltaUnderstood(delta: Delta)
    ensures DeltaOf(J.MergedValue(J.Obj(DeltaFields(delta)))) == MergedDelta(delta)
  {
    match delta
    case Role(role) =>
      MergedSingle("role", role);
    case Content(text) =>
      MergedSingle("content", text);
      LookupStep("content", J.Str(T.Merged(text)), J.NoFields, "role");
      assert LookupField(J.NoFields, T.Codes("role")) == None;
    case NoDelta =>
  }

  lemma {:induction false} MergedChoice(delta: J.Value, finish: J.Value)
    ensures J.MergedValue(ChoiceValue(delta, finish)) == ChoiceValue(J.MergedValue(delta), J.MergedValue(finish))
  {
    var last := J.Field(T.Codes("finish_reason"), finish, J.NoFields);
    J.MergedField("finish_reason", finish, J.NoFields);
    J.MergedField("delta", delta, last);
    J.MergedField("index", J.Num(N.Whole(0)), J.Field(T.Codes("delta"), delta, last));
  }

  lemma {:induction false} ChoiceUnderstood(delta: J.Value, finish: Option<T.Text>)
    ensures var v := J.MergedValue(ChoiceValue(delta, Nullable(finish)));
      && Lookup(v, "delta") == Some(J.MergedValue(delta)) && FinishOf(v) == MergedOption(finish)
      && WholeIn(v, "index") == Some(0)
  {
    MergedChoice(delta, Nullable(finish));
    ChoiceLookups(J.MergedValue(delta), J.MergedValue(Nullable(finish)));
  }

  lemma {:induction false} ChoiceLookups(delta: J.Value, finish: J.Value)
    ensures var v := ChoiceValue(delta, finish);
      && Lookup(v, "index") == Some(J.Num(N.Whole(0)))
      && Lookup(v, "delta") == Some(delta) && Lookup(v, "finish_reason") == Some(finish)
  {
    var last := J.Field(T.Codes("finish_reason"), finish, J.NoFields);
    var two := J.Field(T.Codes("delta"), delta, last);
    var a, b := "index", "delta";
    assert a[0] == 'i' && b[0] == 'd';
    LookupPast("index", J.Num(N.Whole(0)), two, "delta");
    LookupPast("index", J.Num(N.Whole(0)), two, "finish_reason");
    LookupPast("delta", delta, last, "finish_reason");
  }

  lemma {:induction false} LookupPast(name: string, v: J.Value, rest: J.Fields, key: string)
    requires name != key
    ensures LookupField(J.Field(T.Codes(name), v, rest), T.Codes(key)) == LookupField(rest, T.Codes(key))
  {
    LookupStep(name, v, rest, key);
  }

  lemma {:induction false} TailLookups(created: int, model: T.Text, choice: J.Value)
    ensures var tail := ChunkTail(created, model, choice);
      && LookupField(tail, T.Codes("created")) == Some(J.Num(N.Whole(created)))
      && LookupField(tail, T.Codes("model")) == Some(J.Str(model))
      && LookupField(tail, T.Codes("choices")) == Some(J.Arr(J.Item(choice, J.NoItems)))
  {
    var f5 := J.Field(T.Codes("choices"), J.Arr(J.Item(choice, J.NoItems)), J.NoFields);
    var f4 := J.Field(T.Codes("model"), J.Str(model), f5);
    KeysDiffer();
    LookupPast("created", J.Num(N.Whole(created)), f4, "model");
    LookupPast("created", J.Num(N.Whole(created)), f4, "choices");
    LookupPast("model", J.Str(model), f5, "choices");
  }

  lemma {:induction false} ChunkLookups(id: T.Text, created: int, model: T.Text, choice: J.Value)
    ensures var v := ChunkValue(id, created, model, choice);
      && Lookup(v, "id") == Some(J.Str(id))
      && Lookup(v, "object") == Some(J.Str(T.Codes("chat.completion.chunk")))
      && Lookup(v, "created") == Some(J.Num(N.Whole(created)))
      && Lookup(v, "model") == Some(J.Str(model))
      && Lookup(v, "choices") == Some(J.Arr(J.Item(choice, J.NoItems)))
  {
    var name, tail := J.Str(T.Codes("chat.completion.chunk")), ChunkTail(created, model, choice);
    var f2 := J.Field(T.Codes("object"), name, tail);
    KeysDiffer();
    TailLookups(created, model, choice);
    LookupPast("id", J.Str(id), f2, "object");
    PastTwo(J.Str(id), name, tail, "created");
    PastTwo(J.Str(id), name, tail, "model");
    PastTwo(J.Str(id), name, tail, "choices");
  }

  lemma {:induction false} PastTwo(id: J.Value, name: J.Value, tail: J.Fields, key: string)
    requires key != "id" && key != "object"
    ensures LookupField(J.Field(T.Codes("id"), id, J.Field(T.Codes("object"), name, tail)), T.Codes(key))
         == LookupField(tail, T.Codes(key))
  {
    LookupPast("id", id, J.Field(T.Codes("object"), name, tail), key);
    LookupPast("object", name, tail, key);
  }

  /** The keys of a chunk are distinct. */
  lemma {:induction false} KeysDiffer()
    ensures "id" != "object" && "id" != "created" && "id" != "model" && "id" != "choices"
    ensures "object" != "created" && "object" != "model" && "object" != "choices"
    ensures "created" != "model" && "created" != "choices" && "model" != "choices"
  {
    var a, b := "created", "choices";
    assert a[1] == 'r' && b[1] == 'h';
  }

  /** Merging a chunk merges its texts and changes no key. */
  lemma {:induction false} MergedChunk(id: T.Text, created: int, model: T.Text, choice: J.Value)
    ensures J.MergedValue(ChunkValue(id, created, model, choice))
         == ChunkValue(T.Merged(id), created, T.Merged(model), J.MergedValue(choice))
  {
    var name, tail := J.Str(T.Codes("chat.completion.chunk")), ChunkTail(created, model, choice);
    MergedTail(created, model, choice);
    T.CodesAreMerged("chat.completion.chunk");
    J.MergedField("object", name, tail);
    J.MergedField("id", J.Str(id), J.Field(T.Codes("object"), name, tail));
  }

  lemma {:induction false} MergedList(choice: J.Value)
    ensures J.MergedValue(J.Arr(J.Item(choice, J.NoItems))) == J.Arr(J.Item(J.MergedValue(choice), J.NoItems))
  {
    assert J.MergedItems(J.NoItems) == J.NoItems;
    assert J.MergedItems(J.Item(choice, J.NoItems)) == J.Item(J.MergedValue(choice), J.NoItems);
  }

  lemma {:induction false} MergedTail(created: int, model: T.Text, choice: J.Value)
    ensures J.MergedFields(ChunkTail(created, model, choice))
         == ChunkTail(created, T.Merged(model), J.MergedValue(choice))
  {
    var f5 := J.Field(T.Codes("choices"), J.Arr(J.Item(choice, J.NoItems)), J.NoFields);
    MergedChoices(choice);
    J.MergedField("model", J.Str(model), f5);
    J.MergedField("created", J.Num(N.Whole(created)), J.Field(T.Codes("model"), J.Str(model), f5));
  }

  lemma {:induction false} MergedChoices(choice: J.Value)
    ensures J.MergedFields(J.Field(T.Codes("choices"), J.Arr(J.Item(choice, J.NoItems)), J.NoFields))
         == J.Field(T.Codes("choices"), J.Arr(J.Item(J.MergedValue(choice), J.NoItems)), J.NoFields)
  {
    MergedList(choice);
    J.MergedField("choices", J.Arr(J.Item(choice, J.NoItems)), J.NoFields);
  }

  lemma {:induction false} PayloadUnderstood(r: Completion, delta: Delta, finish: Option<T.Text>)
    ensures MessageOf(J.MergedValue(Payload(r, delta, finish))) == MessageFor(r, delta, finish)
  {
    var choice := ChoiceValue(J.Obj(DeltaFields(delta)), Nullable(finish));
    MergedChunk(r.id, r.created, r.model, choice);
    ChunkLookups(T.Merged(r.id), r.created, T.Merged(r.model), J.MergedValue(choice));
    ChoiceUnderstood(J.Obj(DeltaFields(delta)), finish);
    DeltaUnderstood(delta);
  }

  lemma {:induction false} EncodedPayload(r: Completion, delta: Delta, finish: Option<T.Text>)
    ensures var data := J.Encode(J.Compact, Payload(r, delta, finish));
      N.Plain(data) && Understand(data) == MessageFor(r, delta, finish)
  {
    var v := Payload(r, delta, finish);
    J.PrintIsPlain(J.Compact, v, []);
    J.DecodeEncode(J.Compact, v);
    J.ObjectStarts(J.Compact, v.fields);
    assert DONE[0] == '[';
    PayloadUnderstood(r, delta, finish);
  }

  lemma {:induction false} UnderstandAppend(a: seq<string>, b: seq<string>)
    ensures UnderstandAll(a + b) == UnderstandAll(a) + UnderstandAll(b)
  {
    if a == [] {
      assert a + b == b;
    } else {
      UnderstandAppend(a[1..], b);
      assert (a + b)[1..] == a[1..] + b;
    }
  }

  lemma {:induction false} ContentUnderstood(r: Completion, parts: seq<T.Text>)
    ensures AllPlain(ContentData(r, parts))
    ensures UnderstandAll(ContentData(r, parts)) == ContentMessages(r, parts)
  {
    if parts != [] {
      ContentUnderstood(r, parts[1..]);
      EncodedPayload(r, Content(parts[0]), None);
      var data, head := ContentData(r, parts), J.Encode(J.Compact, Payload(r, Content(parts[0]), None));
      assert data[0] == head && data[1..] == ContentData(r, parts[1..]);
    }
  }

  /** The messages of a stream: the role, the parts in order, the finish reason, the sentinel. */
  function StreamMessages(r: Completion, parts: seq<T.Text>): seq<Message> {
    [MessageFor(r, ASSISTANT, None)] + ContentMessages(r, parts)
      + [MessageFor(r, NoDelta, FinishReason(r)), DoneMessage]
  }

  lemma {:induction false} DoneIsPlain()
    ensures N.Plain(DONE)
  {
  }

  lemma {:induction false} PlainAppend(a: seq<string>, b: seq<string>)
    requires AllPlain(a) && AllPlain(b)
    ensures AllPlain(a + b)
  {
  }

  lemma {:induction false} StreamIsPlain(r: Completion, parts: seq<T.Text>)
    ensures AllPlain(StreamData(r, parts))
  {
    var role, content := [J.Encode(J.Compact, Payload(r, ASSISTANT, None))], ContentData(r, parts);
    var end := [J.Encode(J.Compact, Payload(r, NoDelta, FinishReason(r))), DONE];
    EncodedPayload(r, ASSISTANT, None);
    EncodedPayload(r, NoDelta, FinishReason(r));
    DoneIsPlain();
    ContentUnderstood(r, parts);
    PlainAppend(role, content);
    PlainAppend(role + content, end);
  }

  lemma {:induction false} StreamUnderstood(r: Completion, parts: seq<T.Text>)
    ensures UnderstandAll(StreamData(r, parts)) == StreamMessages(r, parts)
  {
    var role, content := [J.Encode(J.Compact, Payload(r, ASSISTANT, None))], ContentData(r, parts);
    var end := [J.Encode(J.Compact, Payload(r, NoDelta, FinishReason(r))), DONE];
    EncodedPayload(r, ASSISTANT, None);
    ContentUnderstood(r, parts);
    EndUnderstood(r, FinishReason(r));
    UnderstandOne(role[0]);
    UnderstandAppend(role + content, end);
    UnderstandAppend(role, content);
  }

  lemma {:induction false} EndUnderstood(r: Completion, finish: Option<T.Text>)
    ensures UnderstandAll([J.Encode(J.Compact, Payload(r, NoDelta, finish)), DONE]) == [MessageFor(r, NoDelta, finish), DoneMessage]
  {
    var last := J.Encode(J.Compact, Payload(r, NoDelta, finish));
    EncodedPayload(r, NoDelta, finish);
    UnderstandOne(last);
    UnderstandOne(DONE);
    UnderstandAppend([last], [DONE]);
    assert [last] + [DONE] == [last, DONE];
  }

  lemma {:induction false} UnderstandOne(data: string)
    ensures UnderstandAll([data]) == [Understand(data)]
  {
    assert [data][1..] == [];
  }

  /**
   * Parsing the bytes of a stream gives exactly its messages: one role, the parts of the text in order,
   * one finish reason and one sentinel, each carrying the completion's id, model and time.
   */
  lemma {:induction false} StreamRoundTrip(r: Completion, parts: seq<T.Text>)
    ensures UnderstandAll(ReadStream(Concat(Framed(StreamData(r, parts))))) == StreamMessages(r, parts)
  {
    StreamIsPlain(r, parts);
    StreamUnderstood(r, parts);
    var data := StreamData(r, parts);
    FramesRead(data);
    assert Framed(data)[0] == Frame(data[0]);
    assert Concat(Framed(data))[0] == 'd';
  }

  lemma {:induction false} CollectOne(r: Completion, part: T.Text, rest: seq<Message>)
    ensures Collect([MessageFor(r, Content(part), None)] + rest)
         == Collect(rest).(text := T.Merged(part) + Collect(rest).text)
  {
    var messages := [MessageFor(r, Content(part), None)] + rest;
    assert messages[1..] == rest;
  }

  /** Parts of a split cut no surrogate pair, so reading them one by one is reading the text. */
  lemma {:induction false} PartsMerge(text: T.Text, parts: seq<T.Text>)
    requires IsSplit(text, parts) && parts != []
    ensures T.Merged(text) == T.Merged(parts[0]) + T.Merged(Joined(parts[1..]))
  {
    var rest := Joined(parts[1..]);
    assert text == parts[0] + rest;
    if |parts| == 1 {
      assert rest == [] && text == parts[0];
    } else {
      assert EndsInSpace(parts[0]);
      T.MergedAppend(parts[0], rest);
    }
  }

  lemma {:induction false} CollectContent(r: Completion, text: T.Text, parts: seq<T.Text>, rest: seq<Message>)
    requires IsSplit(text, parts)
    ensures Collect(ContentMessages(r, parts) + rest) == Collect(rest).(text := T.Merged(text) + Collect(rest).text)
    decreases |parts|
  {
    if parts == [] {
      assert ContentMessages(r, parts) + rest == rest;
      assert [] + Collect(rest).text == Collect(rest).text;
    } else {
      var tail := ContentMessages(r, parts[1..]) + rest;
      assert ContentMessages(r, parts) + rest == [MessageFor(r, Content(parts[0]), None)] + tail;
      TailIsSplit(text, parts);
      var text' := Joined(parts[1..]);
      assert text[|parts[0]|..] == text';
      CollectContent(r, text', parts[1..], rest);
      CollectOne(r, parts[0], tail);
      PartsMerge(text, parts);
      assert T.Merged(parts[0]) + (T.Merged(text') + Collect(rest).text) == T.Merged(text) + Collect(rest).text;
    }
  }

  /** Any client that appends the deltas of the stream ends up with the completion's text as JSON can carry it. */
  lemma {:induction false} ClientSeesTheCompletion(r: Completion, parts: seq<T.Text>)
    requires IsSplit(TextOf(r), parts)
    ensures Collect(UnderstandAll(ReadStream(Concat(Framed(StreamData(r, parts))))))
         == Transcript([T.Codes("assistant")], T.Merged(TextOf(r)), [MergedOption(FinishReason(r))], 1, 0)
  {
    StreamRoundTrip(r, parts);
    CollectStream(r, parts);
  }

  lemma {:induction false} CollectStream(r: Completion, parts: seq<T.Text>)
    requires IsSplit(TextOf(r), parts)
    ensures Collect(StreamMessages(r, parts))
         == Transcript([T.Codes("assistant")], T.Merged(TextOf(r)), [MergedOption(FinishReason(r))], 1, 0)
  {
    var end := [MessageFor(r, NoDelta, FinishReason(r)), DoneMessage];
    var content := ContentMessages(r, parts) + end;
    CollectEnd(r, FinishReason(r));
    CollectContent(r, TextOf(r), parts, end);
    CollectRole(r, content);
    assert StreamMessages(r, parts) == [MessageFor(r, ASSISTANT, None)] + content;
    assert T.Merged(TextOf(r)) + [] == T.Merged(TextOf(r));
  }

  lemma {:induction false} CollectRole(r: Completion, rest: seq<Message>)
    ensures Collect([MessageFor(r, ASSISTANT, None)] + rest)
         == Collect(rest).(roles := [T.Codes("assistant")] + Collect(rest).roles)
  {
    T.CodesAreMerged("assistant");
    assert ([MessageFor(r, ASSISTANT, None)] + rest)[1..] == rest;
  }

  lemma {:induction false} CollectEnd(r: Completion, finish: Option<T.Text>)
    ensures Collect([MessageFor(r, NoDelta, finish), DoneMessage]) == Transcript([], [], [MergedOption(finish)], 1, 0)
  {
    var end := [MessageFor(r, NoDelta, finish), DoneMessage];
    assert end[1..] == [DoneMessage] && [DoneMessage][1..] == [];
    assert Collect([]) == Transcript([], [], [], 0, 0);
    assert Collect([DoneMessage]) == Transcript([], [], [], 1, 0);
  }

  /** The text arrives exactly as it was if and only if it has no high surrogate right before a low one. */
  lemma {:induction false} TextArrivesIffUnpaired(r: Completion, parts: seq<T.Text>)
    requires IsSplit(TextOf(r), parts)
    ensures Collect(UnderstandAll(ReadStream(Concat(Framed(StreamData(r, parts)))))).text == TextOf(r)
       <==> T.NoPair(TextOf(r))
  {
    ClientSeesTheCompletion(r, parts);
    T.MergedIffNoPair(TextOf(r));
  }

  /** A completion without text streams no content delta: only the role, the finish reason and the sentinel. */
  lemma {:induction false} NoTextNoDeltas(r: Completion, parts: seq<T.Text>)
    requires IsSplit(TextOf(r), parts)
    ensures TextOf(r) == [] <==> parts == []
    ensures TextOf(r) == [] ==> |StreamData(r, parts)| == 3
  {
    NoTextNoParts(TextOf(r), parts);
  }

  /** ASCII only, so encoding the chunks as UTF-8 changes nothing. */
  ghost predicate Ascii(s: string) {
    forall i :: 0 <= i < |s| ==> s[i] == '\n' || ' ' <= s[i] <= '~'
  }

  lemma {:induction false} StreamIsAscii(r: Completion, parts: seq<T.Text>)
    ensures forall k :: 0 <= k < |Framed(StreamData(r, parts))| ==> Ascii(Framed(StreamData(r, parts))[k])
  {
    StreamIsPlain(r, parts);
    FramesAreAscii(StreamData(r, parts));
  }

  lemma {:induction false} FramesAreAscii(data: seq<string>)
    requires AllPlain(data)
    ensures forall k :: 0 <= k < |Framed(data)| ==> Ascii(Framed(data)[k])
  {
    if data != [] {
      FramesAreAscii(data[1..]);
      assert N.Plain(data[0]);
      assert Ascii(Frame(data[0]));
    }
  }
}
