/**
 * The exact response cache in front of the router: what a cache key keeps of a request, and what a
 * hit may be trusted for, over every interleaving of lookups and stores.
 */
module Completions {
  import opened Windows
  import opened LruCache
  import A = Accounting
  import J = Json
  import N = JsonNumbers
  import T = JsonText

  // ---------- the key ----------

  datatype MessageContent = Plain(text: T.Text) | Structured(blocks: J.Value)

  datatype ChatMessage = ChatMessage(
    role: T.Text, content: MessageContent, name: Option<T.Text>, toolCallId: Option<T.Text>)

  datatype ChatRequest = ChatRequest(
    model: T.Text, messages: seq<ChatMessage>, temperature: Option<N.Decimal>, maxTokens: Option<int>,
    topP: Option<N.Decimal>, stream: bool, stop: seq<T.Text>, user: Option<T.Text>)
  {
    /** The model name as the router compares it; a lone surrogate is no character and matches nothing. */
    function Model(): (s: string)
      ensures |s| == |model|
      ensures forall i :: 0 <= i < |s| && !T.High(model[i]) && !T.Low(model[i]) ==> s[i] as int == model[i]
    {
      seq(|model|, i requires 0 <= i < |model| =>
        if T.High(model[i]) || T.Low(model[i]) then '\U{FFFD}' else model[i] as char)
    }
  }

  /** The text that is hashed; the hash is taken to be injective. */
  type CacheKey = string

  /** Structured content enters the key as its JSON text. */
  function ContentText(content: MessageContent): T.Text {
    match content
    case Plain(text) => text
    case Structured(blocks) => T.Codes(J.Encode(J.Spaced, blocks))
  }

  function MessageValue(message: ChatMessage): J.Value {
    J.Obj(
      J.Field(T.Codes("content"), J.Str(ContentText(message.content)),
        J.Field(T.Codes("role"), J.Str(message.role), J.NoFields)))
  }

  function MessageItems(messages: seq<ChatMessage>): J.Items {
    if messages == [] then J.NoItems else J.Item(MessageValue(messages[0]), MessageItems(messages[1..]))
  }

  function IntValue(n: Option<int>): J.Value {
    if n.None? then J.Null else J.Num(N.Whole(n.value))
  }

  function FloatValue(d: Option<N.Decimal>): J.Value {
    if d.None? then J.Null else J.Num(N.Float(d.value))
  }

  /** Members in the order of their keys. */
  function PayloadOf(maxTokens: J.Value, messages: J.Value, model: J.Value, temperature: J.Value, topP: J.Value): J.Value {
    J.Obj(
      J.Field(T.Codes("max_tokens"), maxTokens,
        J.Field(T.Codes("messages"), messages,
          J.Field(T.Codes("model"), model,
            J.Field(T.Codes("temperature"), temperature,
              J.Field(T.Codes("top_p"), topP, J.NoFields))))))
  }

  function KeyPayload(request: ChatRequest): J.Value {
    PayloadOf(IntValue(request.maxTokens), J.Arr(MessageItems(request.messages)), J.Str(request.model),
              FloatValue(request.temperature), FloatValue(request.topP))
  }

  function KeyOf(request: ChatRequest): CacheKey {
    J.Encode(J.Spaced, KeyPayload(request))
  }

  /** The two message lists read the same: as many messages, with roles and content texts equal up to surrogate pairs. */
  predicate SameConversation(a: seq<ChatMessage>, b: seq<ChatMessage>) {
    && |a| == |b|
    && (forall i :: 0 <= i < |a| ==> SameMessage(a[i], b[i]))
  }

  predicate SameMessage(a: ChatMessage, b: ChatMessage) {
    && T.Merged(a.role) == T.Merged(b.role)
    && T.Merged(ContentText(a.content)) == T.Merged(ContentText(b.content))
  }

  lemma {:induction false} MergedMessage(message: ChatMessage)
    ensures J.MergedValue(MessageValue(message)) ==
      J.Obj(
        J.Field(T.Codes("content"), J.Str(T.Merged(ContentText(message.content))),
          J.Field(T.Codes("role"), J.Str(T.Merged(message.role)), J.NoFields)))
  {
    var role := J.Field(T.Codes("role"), J.Str(message.role), J.NoFields);
    J.MergedField("role", J.Str(message.role), J.NoFields);
    J.MergedField("content", J.Str(ContentText(message.content)), role);
  }

  lemma {:induction false} MessagesMergeAlikeIff(a: seq<ChatMessage>, b: seq<ChatMessage>)
    ensures J.MergedItems(MessageItems(a)) == J.MergedItems(MessageItems(b)) <==> SameConversation(a, b)
  {
    if a != [] && b != [] {
      MessagesMergeAlikeIff(a[1..], b[1..]);
      MergedMessage(a[0]);
      MergedMessage(b[0]);
      SameConversationTail(a, b);
    }
  }

  lemma {:induction false} SameConversationTail(a: seq<ChatMessage>, b: seq<ChatMessage>)
    requires a != [] && b != []
    ensures SameConversation(a, b) <==> SameMessage(a[0], b[0]) && SameConversation(a[1..], b[1..])
  {
    if SameMessage(a[0], b[0]) && SameConversation(a[1..], b[1..]) {
      forall i | 0 <= i < |a| ensures SameMessage(a[i], b[i]) {
        assert i > 0 ==> SameMessage(a[1..][i - 1], b[1..][i - 1]);
      }
    } else if SameConversation(a, b) {
      forall i | 0 <= i < |a| - 1 ensures SameMessage(a[1..][i], b[1..][i]) {
        assert SameMessage(a[i + 1], b[i + 1]);
      }
    }
  }

  lemma {:induction false} MergedPayload(maxTokens: J.Value, messages: J.Value, model: J.Value, temperature: J.Value,
      topP: J.Value)
    ensures J.MergedValue(PayloadOf(maxTokens, messages, model, temperature, topP))
         == PayloadOf(J.MergedValue(maxTokens), J.MergedValue(messages), J.MergedValue(model),
                      J.MergedValue(temperature), J.MergedValue(topP))
  {
    var f5 := J.Field(T.Codes("top_p"), topP, J.NoFields);
    var f4 := J.Field(T.Codes("temperature"), temperature, f5);
    var f3 := J.Field(T.Codes("model"), model, f4);
    var f2 := J.Field(T.Codes("messages"), messages, f3);
    J.MergedField("top_p", topP, J.NoFields);
    J.MergedField("temperature", temperature, f5);
    J.MergedField("model", model, f4);
    J.MergedField("messages", messages, f3);
    J.MergedField("max_tokens", maxTokens, f2);
  }

  /**
   * Two requests share a key exactly when they agree on these five things; model, roles and contents are
   * compared by the text they print, and nothing else is looked at.
   */
  lemma {:induction false} KeysAgreeExactly(a: ChatRequest, b: ChatRequest)
    ensures KeyOf(a) == KeyOf(b) <==>
      && a.maxTokens == b.maxTokens && a.temperature == b.temperature && a.topP == b.topP
      && T.Merged(a.model) == T.Merged(b.model)
      && |a.messages| == |b.messages|
      && (forall i :: 0 <= i < |a.messages| ==>
           && T.Merged(a.messages[i].role) == T.Merged(b.messages[i].role)
           && T.Merged(ContentText(a.messages[i].content)) == T.Merged(ContentText(b.messages[i].content)))
  {
    J.PrintsAlikeIff(J.Spaced, KeyPayload(a), KeyPayload(b));
    MergedPayload(IntValue(a.maxTokens), J.Arr(MessageItems(a.messages)), J.Str(a.model),
                  FloatValue(a.temperature), FloatValue(a.topP));
    MergedPayload(IntValue(b.maxTokens), J.Arr(MessageItems(b.messages)), J.Str(b.model),
                  FloatValue(b.temperature), FloatValue(b.topP));
    MessagesMergeAlikeIff(a.messages, b.messages);
  }

  /** Stop sequences change what a model answers, and two requests that differ in them share a key. */
  lemma {:induction false} StopIsNotInTheKey(request: ChatRequest, stop: seq<T.Text>)
    requires stop != request.stop
    ensures exists other: ChatRequest :: other != request && other.stop == stop && KeyOf(other) == KeyOf(request)
  {
    var other := request.(stop := stop);
    assert other != request && KeyOf(other) == KeyOf(request);
  }

  lemma {:induction false} CodesAreInjective(a: string, b: string)
    ensures T.Codes(a) == T.Codes(b) <==> a == b
  {
    if T.Codes(a) == T.Codes(b) {
      forall i | 0 <= i < |a| ensures a[i] == b[i] {
        assert T.Codes(a)[i] == T.Codes(b)[i];
      }
    }
  }

  /** Two structured contents are told apart by the key exactly when they differ beyond surrogate pairs. */
  lemma {:induction false} StructuresAgreeIff(request: ChatRequest, message: ChatMessage, a: J.Value, b: J.Value)
    ensures KeyOf(request.(messages := [message.(content := Structured(a))]))
         == KeyOf(request.(messages := [message.(content := Structured(b))]))
       <==> J.MergedValue(a) == J.MergedValue(b)
  {
    var ma, mb := message.(content := Structured(a)), message.(content := Structured(b));
    var ta, tb := J.Encode(J.Spaced, a), J.Encode(J.Spaced, b);
    KeysAgreeExactly(request.(messages := [ma]), request.(messages := [mb]));
    T.CodesAreMerged(ta);
    T.CodesAreMerged(tb);
    CodesAreInjective(ta, tb);
    J.PrintsAlikeIff(J.Spaced, a, b);
    assert SameConversation([ma], [mb]) <==> SameMessage(ma, mb);
  }

  /** A plain text shares a key with structured content exactly when it spells out that content's JSON. */
  lemma {:induction false} TextPosesAsStructureIff(request: ChatRequest, message: ChatMessage, text: T.Text,
      blocks: J.Value)
    ensures KeyOf(request.(messages := [message.(content := Plain(text))]))
         == KeyOf(request.(messages := [message.(content := Structured(blocks))]))
       <==> T.Merged(text) == T.Codes(J.Encode(J.Spaced, blocks))
  {
    var ma, mb := message.(content := Plain(text)), message.(content := Structured(blocks));
    KeysAgreeExactly(request.(messages := [ma]), request.(messages := [mb]));
    T.CodesAreMerged(J.Encode(J.Spaced, blocks));
    assert SameConversation([ma], [mb]) <==> SameMessage(ma, mb);
  }

  // ---------- answers ----------

  datatype CacheStatus = CacheHit | CacheMiss

  datatype Meta = Meta(provider: string, upstreamModel: string, cache: CacheStatus, fallbackUsed: bool,
                       attempts: seq<string>)

  /** A response object; only its gateway metadata is ever assigned after construction. */
  class Answer {
    const content: string
    const usage: A.Usage
    var gateway: Option<Meta>

    constructor (content: string, usage: A.Usage, gateway: Option<Meta>)
      ensures this.content == content && this.usage == usage && this.gateway == gateway
    {
      this.content, this.usage, this.gateway := content, usage, gateway;
    }
  }

  function Relabelled(meta: Option<Meta>): Option<Meta> {
    if meta.None? then None
    else Some(meta.value.(cache := CacheHit, fallbackUsed := false, attempts := ["cache"]))
  }

  /** The copy a hit is served from; the stored object keeps its own metadata. */
  method ServeCopy(stored: Answer) returns (copy: Answer)
    ensures fresh(copy) && stored.gateway == old(stored.gateway)
    ensures copy.content == stored.content && copy.usage == stored.usage
    ensures copy.gateway == Relabelled(stored.gateway)
    ensures stored.gateway.None? ==> copy.gateway.None?
    ensures stored.gateway.Some? ==>
      var meta := stored.gateway.value;
      copy.gateway == Some(Meta(meta.provider, meta.upstreamModel, CacheHit, false, ["cache"]))
  {
    copy := new Answer(stored.content, stored.usage, stored.gateway);
    if copy.gateway.Some? {
      copy.gateway :=
        Some(copy.gateway.value.(cache := CacheHit, fallbackUsed := false, attempts := ["cache"]));
    }
  }

  // ---------- the cache over a run ----------

  /** An answer the router returned for a request with this key, stored at this time. */
  datatype RoutedAnswer = RoutedAnswer(key: CacheKey, answer: Answer, at: real)

  function LatestRouted(routed: seq<RoutedAnswer>, key: CacheKey): (r: Option<RoutedAnswer>)
    ensures r.Some? ==> r.value in routed && r.value.key == key
    ensures r.None? ==> forall i :: 0 <= i < |routed| ==> routed[i].key != key
  {
    if routed == [] then None
    else
      var last := routed[|routed| - 1];
      if last.key == key then Some(last) else LatestRouted(routed[..|routed| - 1], key)
  }

  /** No answer for the key was routed after the latest. */
  lemma {:induction false} LatestRoutedIsLast(routed: seq<RoutedAnswer>, key: CacheKey) returns (i: nat)
    requires LatestRouted(routed, key).Some?
    ensures i < |routed| && routed[i] == LatestRouted(routed, key).value
    ensures forall j :: i < j < |routed| ==> routed[j].key != key
  {
    i := |routed| - 1;
    if routed[i].key != key {
      i := LatestRoutedIsLast(routed[..|routed| - 1], key);
    }
  }

  function EntryOf(routed: Option<RoutedAnswer>, ttl: real): Option<Entry<Answer>> {
    if routed.None? then None else Some(Entry(routed.value.answer, routed.value.at + ttl))
  }

  /** Under every key the cache was last given the answer last routed for it, to expire one lifetime later. */
  ghost predicate InStep(log: seq<Touch<CacheKey, Answer>>, routed: seq<RoutedAnswer>, ttl: real) {
    forall key :: LatestStore(log, key) == EntryOf(LatestRouted(routed, key), ttl)
  }

  /** One more store in the log and one more answer routed stay in step. */
  lemma {:induction false} StoreKeepsStep(log: seq<Touch<CacheKey, Answer>>, touch: Touch<CacheKey, Answer>,
      routed: seq<RoutedAnswer>, answer: RoutedAnswer, ttl: real)
    requires touch == Stored(answer.key, Entry(answer.answer, answer.at + ttl))
    requires InStep(log, routed, ttl)
    ensures InStep(log + [touch], routed + [answer], ttl)
  {
    assert (log + [touch])[..|log|] == log && (routed + [answer])[..|routed|] == routed;
    forall key ensures LatestStore(log + [touch], key) == EntryOf(LatestRouted(routed + [answer], key), ttl) {
      assert LatestStore(log, key) == EntryOf(LatestRouted(routed, key), ttl);
    }
  }

  class ExactCache {
    const cache: InMemoryCache<CacheKey, Answer>
    const ttl: real
    ghost var routed: seq<RoutedAnswer>

    ghost predicate Valid()
      reads this, cache
    {
      && cache.Valid()
      && InStep(cache.log, routed, ttl)
    }

    constructor (max: nat, ttl: real, ghost now: real)
      ensures Valid() && fresh(cache) && cache.max == max && cache.clock == now
      ensures this.ttl == ttl && routed == []
    {
      this.ttl, routed := ttl, [];
      cache := new InMemoryCache(max, now);
    }

    /**
     * Before a request is routed. A hit is a fresh copy of the latest answer routed for the same key,
     * not older than the lifetime, and an answer that young, with fewer than `max` other keys touched
     * since its own last touch, is always a hit. No stored answer changes.
     */
    method Lookup(key: CacheKey, now: real) returns (hit: Option<Answer>)
      requires Valid() && cache.clock <= now
      modifies cache
      ensures Valid() && cache.clock == now && routed == old(routed)
      ensures hit.Some? ==>
        && fresh(hit.value)
        && LatestRouted(routed, key).Some?
        && var latest := LatestRouted(routed, key).value;
        && now - latest.at <= ttl
        && hit.value.content == latest.answer.content && hit.value.usage == latest.answer.usage
        && hit.value.gateway == Relabelled(latest.answer.gateway)
      ensures
        && LatestRouted(routed, key).Some? && now - LatestRouted(routed, key).value.at <= ttl
        && |TouchedSince(old(cache.log), key)| < cache.max
        ==> hit.Some?
    {
      hit := None;
      var found := cache.Get(key, now);
      if found.Some? {
        ghost var before := old(cache.log);
        HitKeepsStores(before, key);
        assert LatestStore(before, key) == EntryOf(LatestRouted(routed, key), ttl);
        var copy := ServeCopy(found.value);
        hit := Some(copy);
      }
    }

    /** After a request was routed, whatever other lookups and stores came in between. */
    method Store(key: CacheKey, answer: Answer, now: real)
      requires Valid() && cache.clock <= now
      modifies this`routed, cache
      ensures Valid() && cache.clock == now
      ensures routed == old(routed) + [RoutedAnswer(key, answer, now)]
    {
      cache.Set(key, answer, ttl, now);
      StoreKeepsStep(old(cache.log), Stored(key, Entry(answer, now + ttl)), routed, RoutedAnswer(key, answer, now), ttl);
      routed := routed + [RoutedAnswer(key, answer, now)];
    }
  }

  lemma {:induction false} HitKeepsStores<K, V>(log: seq<Touch<K, V>>, key: K)
    ensures forall k :: LatestStore(log + [Hit(key)], k) == LatestStore(log, k)
  {
    assert (log + [Hit(key)])[..|log|] == log;
  }
}
