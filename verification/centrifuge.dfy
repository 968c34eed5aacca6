/**
 * The Centrifugo backend: its default addresses, its publish (headers are
 * not supported), the frame built from a publication, and the
 * subscription machine that sits between the client's callbacks and the
 * stream handed to the dispatcher: a frame buffer of 64 slots, a one-slot
 * teardown channel, and the consumer's `select!`.
 */
module Centrifuge {
  import opened Results
  import opened Text
  import opened MqTrait

  const JsonAddress := "ws://localhost:8000/connection/websocket?format=json"
  const ProtobufAddress := "ws://localhost:8000/connection/websocket?format=protobuf"

  /** The address the client is created with: the given one verbatim, or the default for the encoding. */
  function ClientAddress(json: bool, addr: Option<string>): (r: string)
    ensures addr.Some? ==> r == addr.value
    ensures addr.None? ==> r == if json then JsonAddress else ProtobufAddress
  {
    addr.GetOr(if json then JsonAddress else ProtobufAddress)
  }

  /** The two defaults differ only in the requested format. */
  lemma DefaultAddressesShareEndpoint()
    ensures JsonAddress[..|JsonAddress| - 4] + "json" == JsonAddress
    ensures ProtobufAddress[..|ProtobufAddress| - 8] + "protobuf" == ProtobufAddress
    ensures JsonAddress[..|JsonAddress| - 4] == ProtobufAddress[..|ProtobufAddress| - 8]
  {
    var endpoint := "ws://localhost:8000/connection/websocket?format=";
    assert JsonAddress == endpoint + "json";
    assert ProtobufAddress == endpoint + "protobuf";
    assert JsonAddress[..|JsonAddress| - 4] == endpoint;
    assert ProtobufAddress[..|ProtobufAddress| - 8] == endpoint;
  }

  /**
   * `connect`: `dial` is the client's connection attempt to an address;
   * whatever it fails with is reported as "failed to connect".
   */
  function Connect(json: bool, addr: Option<string>, dial: string -> Result<()>): (r: Result<string>)
    ensures r.Ok? <==> dial(ClientAddress(json, addr)).Ok?
    ensures r.Ok? ==> r.value == ClientAddress(json, addr)
    ensures r.Err? ==> r.error == "failed to connect"
  {
    var address := ClientAddress(json, addr);
    if dial(address).Ok? then Ok(address) else Err("failed to connect")
  }

  /**
   * `publish`: the headers only decide whether a warning is logged; the
   * payload goes out unchanged through `send`. Returns whether the warning
   * was logged and the result.
   */
  function Publish(topic: string, headers: HeaderList, payload: seq<byte>,
                   send: (string, seq<byte>) -> Result<()>): (r: (bool, Result<()>))
    ensures r.0 <==> headers != []
    ensures r.1.Ok? <==> send(topic, payload).Ok?
    ensures r.1.Err? ==> r.1.error == "failed to publish: " + send(topic, payload).error
  {
    var warned := |headers| > 0;
    match send(topic, payload)
    case Ok(_) => (warned, Ok(()))
    case Err(e) => (warned, Err("failed to publish: " + e))
  }

  /** The headers never influence what is sent. */
  lemma PublishIgnoresHeaders(topic: string, h1: HeaderList, h2: HeaderList, payload: seq<byte>,
                              send: (string, seq<byte>) -> Result<()>)
    ensures Publish(topic, h1, payload, send).1 == Publish(topic, h2, payload, send).1
  {
  }

  /** The tags of a publication carry no key twice (they come from a map). */
  predicate DistinctKeys(tags: HeaderList) {
    forall i, j :: 0 <= i < j < |tags| ==> tags[i].0 != tags[j].0
  }

  lemma {:induction false} LastValueDistinct(tags: HeaderList, i: nat)
    requires DistinctKeys(tags) && i < |tags|
    ensures LastValue(tags, tags[i].0) == Some(tags[i].1)
    decreases |tags|
  {
    if i < |tags| - 1 {
      assert tags[|tags| - 1].0 != tags[i].0;
      var init := tags[..|tags| - 1];
      assert init[i] == tags[i];
      LastValueDistinct(init, i);
    }
  }

  /** With distinct keys, every tag becomes a header holding just its value. */
  lemma TagsLookup(tags: HeaderList)
    requires DistinctKeys(tags)
    ensures forall i :: 0 <= i < |tags| ==> Lookup(FromPairs(tags), tags[i].0) == Some([tags[i].1])
  {
    forall i | 0 <= i < |tags| ensures Lookup(FromPairs(tags), tags[i].0) == Some([tags[i].1]) {
      LastValueDistinct(tags, i);
      FromPairsLookup(tags, tags[i].0);
    }
  }

  /** The `on_publication` frame: topic from the channel, one header value per tag, payload from the data. */
  function PublicationFrame(channel: string, tags: HeaderList, data: seq<byte>): (f: Frame)
    ensures f.topic == channel && f.payload == data
    ensures Keys(f.headers) == PairKeys(tags)
    ensures DistinctKeys(tags) ==> forall i :: 0 <= i < |tags| ==> Lookup(f.headers, tags[i].0) == Some([tags[i].1])
  {
    if DistinctKeys(tags) then TagsLookup(tags); Frame(channel, FromPairs(tags), data)
    else Frame(channel, FromPairs(tags), data)
  }

  // ---------------------------------------------------------------------
  // The subscription machine
  // ---------------------------------------------------------------------

  /** The capacity of the bounded channel that carries frames to the subscriber. */
  const BufferCapacity: nat := 64

  /** How tokio renders `TrySendError::Full`. */
  const FullError := "no available capacity"

  /**
   * The subscription as the stream consumer sees it.
   *   buffer   — frames waiting in the 64-slot channel, oldest first
   *   teardown — the one-slot teardown channel (code, reason)
   *   closed   — the callbacks, and with them every sender, are gone
   *   output   — the stream items yielded so far
   *   accepted — every frame that ever entered the buffer
   *   dropped  — publications lost because the buffer was full
   *   done     — the stream has ended (its last item is the error)
   */
  datatype Sub = Sub(
    topic: string,
    buffer: seq<Frame>,
    teardown: Option<(nat, string)>,
    closed: bool,
    output: seq<Result<Frame>>,
    accepted: seq<Frame>,
    dropped: nat,
    done: bool)

  datatype SubEvent =
    | Publication(frame: Frame)
    | Unsubscribed(code: nat, reason: string)
    | CallbacksDropped
    | Poll(preferTeardown: bool)

  function Subscribe(topic: string): Sub {
    Sub(topic, [], None, false, [], [], 0, false)
  }

  /** The yielded frame: an empty topic is replaced by the subscribed one. */
  function WithTopic(f: Frame, topic: string): (g: Frame)
    ensures g.headers == f.headers && g.payload == f.payload
    ensures f.topic != "" ==> g == f
    ensures f.topic == "" ==> g.topic == topic
  {
    if f.topic == "" then f.(topic := topic) else f
  }

  /** `try_send` on the one-slot teardown channel: a full slot keeps its first signal. */
  function Signal(slot: Option<(nat, string)>, code: nat, reason: string): (r: Option<(nat, string)>)
    ensures slot.Some? ==> r == slot
    ensures slot.None? ==> r == Some((code, reason))
  {
    if slot.None? then Some((code, reason)) else slot
  }

  function FailureMessage(code: nat, reason: string): string {
    "subscription failed: " + Decimal(code) + " " + reason
  }

  const ClosedMessage := "subscription closed"

  /** One step of the subscription; after the stream has ended nothing changes. */
  function Step(s: Sub, e: SubEvent): (r: Sub)
    ensures s.done ==> r == s
    ensures r.topic == s.topic && s.accepted <= r.accepted && s.output <= r.output
    ensures |r.output| <= |s.output| + 1
    ensures e.Publication? && !s.done && !s.closed && |s.buffer| < BufferCapacity ==>
      r == s.(buffer := s.buffer + [e.frame], accepted := s.accepted + [e.frame])
    ensures e.Publication? && !s.done && !s.closed && |s.buffer| >= BufferCapacity ==>
      r == s.(teardown := Signal(s.teardown, 0, FullError), dropped := s.dropped + 1)
    ensures e.Poll? && !s.done && s.buffer != [] && (s.teardown.None? || !e.preferTeardown) ==>
      r == s.(buffer := s.buffer[1..], output := s.output + [Ok(WithTopic(s.buffer[0], s.topic))])
    ensures e.Poll? && !s.done && s.teardown.Some? && (s.buffer == [] || e.preferTeardown) ==>
      r == s.(output := s.output + [Err(FailureMessage(s.teardown.value.0, s.teardown.value.1))], done := true)
    ensures e.Poll? && !s.done && s.buffer == [] && s.teardown.None? ==>
      r == if s.closed then s.(output := s.output + [Err(ClosedMessage)], done := true) else s
    // The server's unsubscribe offers its code and reason as the teardown
    // signal, unless the callbacks are already gone.
    ensures e.Unsubscribed? && !s.done ==>
      r == if s.closed then s else s.(teardown := Signal(s.teardown, e.code, e.reason))
    // Dropping the callbacks closes the channel; only then can the stream end as closed.
    ensures e.CallbacksDropped? && !s.done ==> r == s.(closed := true)
    // A publication after the close is lost.
    ensures e.Publication? && !s.done && s.closed ==> r == s
  {
    if s.done then s
    else match e
      case Publication(frame) =>
        if s.closed then s
        else if |s.buffer| < BufferCapacity then
          s.(buffer := s.buffer + [frame], accepted := s.accepted + [frame])
        else
          s.(teardown := Signal(s.teardown, 0, FullError), dropped := s.dropped + 1)
      case Unsubscribed(code, reason) =>
        if s.closed then s else s.(teardown := Signal(s.teardown, code, reason))
      case CallbacksDropped =>
        s.(closed := true)
      case Poll(preferTeardown) =>
        var frameReady := s.buffer != [];
        var teardownReady := s.teardown.Some?;
        if frameReady && (!teardownReady || !preferTeardown) then
          s.(buffer := s.buffer[1..], output := s.output + [Ok(WithTopic(s.buffer[0], s.topic))])
        else if teardownReady then
          s.(output := s.output + [Err(FailureMessage(s.teardown.value.0, s.teardown.value.1))], done := true)
        else if s.closed then
          s.(output := s.output + [Err(ClosedMessage)], done := true)
        else s
  }

  function Replay(s: Sub, events: seq<SubEvent>): Sub
    decreases |events|
  {
    if events == [] then s else Replay(Step(s, events[0]), events[1..])
  }

  /**
   * The subscription invariant: the buffer never exceeds its capacity and
   * is the not-yet-yielded tail of the accepted frames; the stream is the
   * accepted frames, in order, with the topic substituted, followed by one
   * error exactly when it has ended.
   */
  ghost predicate Good(s: Sub) {
    && |s.buffer| <= BufferCapacity
    && |s.buffer| <= |s.accepted|
    && var n := |s.accepted| - |s.buffer|;
       && s.buffer == s.accepted[n..]
       && |s.output| == n + (if s.done then 1 else 0)
       && (forall i :: 0 <= i < n ==> s.output[i] == Ok(WithTopic(s.accepted[i], s.topic)))
       && (s.done ==> s.output[n].Err?)
  }

  lemma SubscribeGood(topic: string)
    ensures Good(Subscribe(topic))
  {
  }

  lemma StepGood(s: Sub, e: SubEvent)
    requires Good(s)
    ensures Good(Step(s, e))
  {
    var r := Step(s, e);
    var n := |s.accepted| - |s.buffer|;
    if !s.done {
      match e
      case Publication(frame) =>
        if !s.closed && |s.buffer| < BufferCapacity {
          assert r.accepted[n..] == s.accepted[n..] + [frame];
          forall i | 0 <= i < n ensures r.output[i] == Ok(WithTopic(r.accepted[i], r.topic)) {
            assert r.accepted[i] == s.accepted[i];
          }
        }
      case Unsubscribed(_, _) =>
      case CallbacksDropped =>
      case Poll(preferTeardown) =>
        if s.buffer != [] && (s.teardown.None? || !preferTeardown) {
          assert s.buffer[0] == s.accepted[n];
          assert r.buffer == s.accepted[n + 1..];
        }
    }
  }

  /** Every run of the subscription keeps the invariant. */
  lemma {:induction false} ReplayGood(s: Sub, events: seq<SubEvent>)
    requires Good(s)
    ensures Good(Replay(s, events))
    decreases |events|
  {
    if events != [] {
      StepGood(s, events[0]);
      ReplayGood(Step(s, events[0]), events[1..]);
    }
  }

  /** Nothing is ever yielded after the error that ends the stream. */
  lemma {:induction false} EndedStaysEnded(s: Sub, events: seq<SubEvent>)
    requires s.done
    ensures Replay(s, events) == s
    decreases |events|
  {
    if events != [] {
      EndedStaysEnded(Step(s, events[0]), events[1..]);
    }
  }

  /**
   * A publication arriving at a full buffer is lost and tears the
   * subscription down: the next poll that takes the teardown branch ends
   * the stream with "subscription failed: 0 no available capacity" (or with
   * the signal that was already waiting).
   */
  lemma OverflowTearsDown(s: Sub, f: Frame)
    requires Good(s) && !s.done && !s.closed && |s.buffer| == BufferCapacity
    ensures var t := Step(s, Publication(f));
      && t.buffer == s.buffer && t.accepted == s.accepted
      && t.teardown == (if s.teardown.None? then Some((0, FullError)) else s.teardown)
      && var u := Step(t, Poll(true));
         u.done && u.output == s.output + [Err(FailureMessage(t.teardown.value.0, t.teardown.value.1))]
  {
  }

  lemma FullErrorMessage()
    ensures FailureMessage(0, FullError) == "subscription failed: 0 no available capacity"
  {
    assert Decimal(0) == "0";
  }
}
