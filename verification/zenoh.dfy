/**
 * The Zenoh backend: the session configuration, the session description,
 * the fold of request headers into a payload encoding, the frame built
 * from a received sample, and the shape of publish, subscribe and request
 * around the session's calls (which are oracles). An encoding is
 * represented by its textual form.
 */
module Zenoh {
  import opened Results
  import opened Text
  import opened MqTrait
  import Utils

  /** `Encoding::default()`, the raw-bytes encoding. */
  const DefaultEncoding := "zenoh/bytes"

  const ContentTypeKey := "content-type"

  // ---------------------------------------------------------------------
  // connect
  // ---------------------------------------------------------------------

  /**
   * The `connect/endpoints` entry of the session configuration: exactly the
   * given address, or nothing (the default configuration) without one.
   */
  function Endpoints(addr: Option<string>): (r: Option<seq<string>>)
    ensures r.None? <==> addr.None?
    ensures r.Some? ==> |r.value| == 1 && r.value[0] == addr.value
  {
    match addr
    case None => None
    case Some(a) => Some([a])
  }

  /** `connect`: `open` opens a session for a configuration; its error is passed on unchanged. */
  function Connect(addr: Option<string>, open: Option<seq<string>> -> Result<()>): (r: Result<Option<seq<string>>>)
    ensures r.Ok? <==> open(Endpoints(addr)).Ok?
    ensures r.Ok? ==> r.value == Endpoints(addr)
    ensures r.Err? ==> r.error == open(Endpoints(addr)).error
  {
    var config := Endpoints(addr);
    var _ :- open(config);
    Ok(config)
  }

  // ---------------------------------------------------------------------
  // info
  // ---------------------------------------------------------------------

  function Labelled(tag: string, ids: seq<string>): (r: seq<Utils.Entry>)
    ensures |r| == |ids|
    ensures forall i :: 0 <= i < |ids| ==> r[i] == (tag, ids[i])
  {
    seq(|ids|, i requires 0 <= i < |ids| => (tag, ids[i]))
  }

  /** The entries of `info`: the session's own id, then every router, then every peer. */
  function InfoEntries(zid: string, routers: seq<string>, peers: seq<string>): (r: seq<Utils.Entry>)
    ensures |r| == 1 + |routers| + |peers|
    ensures r[0] == ("Client ID", zid)
    ensures forall i :: 0 <= i < |routers| ==> r[1 + i] == ("Connected Router ID", routers[i])
    ensures forall j :: 0 <= j < |peers| ==> r[1 + |routers| + j] == ("Connected Peer ID", peers[j])
  {
    [("Client ID", zid)] + Labelled("Connected Router ID", routers) + Labelled("Connected Peer ID", peers)
  }

  /** `info`: the entries laid out by `format_table`. */
  function Info(zid: string, routers: seq<string>, peers: seq<string>): string {
    Utils.FormatTable(InfoEntries(zid, routers, peers))
  }

  /** The description has one line per id when no id holds a newline. */
  lemma InfoLines(zid: string, routers: seq<string>, peers: seq<string>)
    requires '\n' !in zid
    requires forall i :: 0 <= i < |routers| ==> '\n' !in routers[i]
    requires forall j :: 0 <= j < |peers| ==> '\n' !in peers[j]
    ensures Count(Info(zid, routers, peers), '\n') == 1 + |routers| + |peers|
  {
    var e := InfoEntries(zid, routers, peers);
    forall k | 0 <= k < |e| ensures Utils.NoNewline(e[k]) {
      if k == 0 {
      } else if k < 1 + |routers| {
        assert e[k] == ("Connected Router ID", routers[k - 1]);
      } else {
        assert e[k] == ("Connected Peer ID", peers[k - 1 - |routers|]);
      }
    }
    Utils.TableNewlines(e);
  }

  // ---------------------------------------------------------------------
  // The header -> encoding fold of publish and request
  // ---------------------------------------------------------------------

  function AsciiLower(c: char): char {
    if 'A' <= c <= 'Z' then (c as int + 32) as char else c
  }

  /** `eq_ignore_ascii_case` */
  predicate EqIgnoreAsciiCase(a: string, b: string) {
    |a| == |b| && forall i :: 0 <= i < |a| ==> AsciiLower(a[i]) == AsciiLower(b[i])
  }

  predicate IsContentType(key: string) {
    EqIgnoreAsciiCase(key, ContentTypeKey)
  }

  /** The spellings the sender may use are all recognised. */
  lemma ContentTypeSpellings()
    ensures IsContentType("Content-Type") && IsContentType("content-type") && IsContentType("CONTENT-TYPE")
    ensures !IsContentType("content_type") && !IsContentType("Content-Type ")
  {
    assert AsciiLower("content_type"[7]) != AsciiLower(ContentTypeKey[7]);
  }

  /**
   * The header loop: each `content-type` header (in any ASCII case)
   * replaces the encoding with its parsed value, the first unparsable one
   * ends the loop with its error, other headers are skipped.
   */
  function FoldEncoding(headers: HeaderList, current: string, parse: string -> Result<string>): Result<string>
    decreases |headers|
  {
    if headers == [] then Ok(current)
    else if IsContentType(headers[0].0) then
      match parse(headers[0].1)
      case Err(e) => Err(e)
      case Ok(enc) => FoldEncoding(headers[1..], enc, parse)
    else FoldEncoding(headers[1..], current, parse)
  }

  /** The position of the first `content-type` header whose value does not parse. */
  function FirstBadContentType(headers: HeaderList, parse: string -> Result<string>): (r: Option<nat>)
    ensures r.Some? ==> r.value < |headers| && IsContentType(headers[r.value].0) && parse(headers[r.value].1).Err?
    ensures r.Some? ==> forall j :: 0 <= j < r.value && IsContentType(headers[j].0) ==> parse(headers[j].1).Ok?
    ensures r.None? ==> forall j :: 0 <= j < |headers| && IsContentType(headers[j].0) ==> parse(headers[j].1).Ok?
    decreases |headers|
  {
    if headers == [] then None
    else if IsContentType(headers[0].0) && parse(headers[0].1).Err? then Some(0)
    else match FirstBadContentType(headers[1..], parse)
      case None => None
      case Some(p) => Some(p + 1)
  }

  /** The value of the last `content-type` header, if there is one. */
  function LastContentType(headers: HeaderList): (r: Option<string>)
    ensures r.Some? ==> exists j :: 0 <= j < |headers| && IsContentType(headers[j].0) && headers[j].1 == r.value
    ensures r.None? ==> forall j :: 0 <= j < |headers| ==> !IsContentType(headers[j].0)
    decreases |headers|
  {
    if headers == [] then None
    else match LastContentType(headers[1..])
      case Some(v) =>
        var j :| 0 <= j < |headers[1..]| && IsContentType(headers[1..][j].0) && headers[1..][j].1 == v;
        assert headers[j + 1] == headers[1..][j];
        Some(v)
      case None =>
        if IsContentType(headers[0].0) then Some(headers[0].1)
        else
          assert forall j :: 1 <= j < |headers| ==> headers[j] == headers[1..][j - 1];
          None
  }

  /**
   * The fold, stated without the loop: an unparsable `content-type` fails
   * with the first such error; otherwise the last `content-type` decides,
   * and with none the starting encoding stays.
   */
  lemma {:induction false} FoldEncodingSpec(headers: HeaderList, current: string, parse: string -> Result<string>)
    ensures FirstBadContentType(headers, parse).Some? ==>
      FoldEncoding(headers, current, parse)
        == Err(parse(headers[FirstBadContentType(headers, parse).value].1).error)
    ensures FirstBadContentType(headers, parse).None? ==>
      FoldEncoding(headers, current, parse)
        == Ok(match LastContentType(headers) case None => current case Some(v) => parse(v).value)
    decreases |headers|
  {
    if headers != [] {
      var t := headers[1..];
      if IsContentType(headers[0].0) && parse(headers[0].1).Err? {
      } else if IsContentType(headers[0].0) {
        FoldEncodingSpec(t, parse(headers[0].1).value, parse);
      } else {
        FoldEncodingSpec(t, current, parse);
      }
    }
  }

  /** The encoding a publish or request uses: the fold started from the default. */
  function RequestEncoding(headers: HeaderList, parse: string -> Result<string>): (r: Result<string>)
    ensures (forall j :: 0 <= j < |headers| ==> !IsContentType(headers[j].0)) ==> r == Ok(DefaultEncoding)
  {
    FoldEncodingSpec(headers, DefaultEncoding, parse);
    FoldEncoding(headers, DefaultEncoding, parse)
  }

  /** Only the last `content-type` header counts when all of them parse. */
  lemma LastContentTypeWins(pre: HeaderList, v: string, post: HeaderList, parse: string -> Result<string>)
    requires forall j :: 0 <= j < |post| ==> !IsContentType(post[j].0)
    requires FirstBadContentType(pre + [(ContentTypeKey, v)] + post, parse).None?
    ensures parse(v).Ok? && RequestEncoding(pre + [(ContentTypeKey, v)] + post, parse) == Ok(parse(v).value)
  {
    var h := pre + [(ContentTypeKey, v)] + post;
    assert IsContentType(ContentTypeKey);
    assert h[|pre|] == (ContentTypeKey, v);
    LastOfSuffix(pre + [(ContentTypeKey, v)], post);
    LastOfSnoc(pre, (ContentTypeKey, v));
    FoldEncodingSpec(h, DefaultEncoding, parse);
  }

  lemma {:induction false} LastOfSuffix(a: HeaderList, b: HeaderList)
    requires forall j :: 0 <= j < |b| ==> !IsContentType(b[j].0)
    ensures LastContentType(a + b) == LastContentType(a)
    decreases |a|
  {
    if a == [] {
      assert a + b == b;
    } else {
      assert (a + b)[1..] == a[1..] + b;
      LastOfSuffix(a[1..], b);
    }
  }

  lemma {:induction false} LastOfSnoc(a: HeaderList, h: (string, string))
    requires IsContentType(h.0)
    ensures LastContentType(a + [h]) == Some(h.1)
    decreases |a|
  {
    if a == [] {
      assert a + [h] == [h];
      assert [h][1..] == [];
    } else {
      assert (a + [h])[1..] == a[1..] + [h];
      LastOfSnoc(a[1..], h);
    }
  }

  // ---------------------------------------------------------------------
  // Samples and frames
  // ---------------------------------------------------------------------

  /** A received sample or reply: key expression, payload and encoding. */
  datatype Sample = Sample(keyExpr: string, payload: seq<byte>, encoding: string)

  /** The frame for a sample: the encoding shows up as `Content-Type` unless it is the default. */
  function SampleFrame(s: Sample): (f: Frame)
    ensures f.topic == s.keyExpr && f.payload == s.payload
    ensures s.encoding == DefaultEncoding ==> f.headers == []
    ensures s.encoding != DefaultEncoding ==>
      Keys(f.headers) == {"Content-Type"} && Lookup(f.headers, "Content-Type") == Some([s.encoding])
  {
    var empty: Headers := [];
    if s.encoding == DefaultEncoding then Frame(s.keyExpr, empty, s.payload)
    else
      var h := Insert(empty, "Content-Type", [s.encoding]);
      Frame(s.keyExpr, h, s.payload)
  }

  /** Publishing with a `content-type` header and receiving the sample gives the header back, canonically spelled. */
  lemma EncodingRoundTrip(key: string, payload: seq<byte>, v: string, parse: string -> Result<string>)
    requires parse(v).Ok? && parse(v).value != DefaultEncoding
    ensures var enc := RequestEncoding([(ContentTypeKey, v)], parse);
      && enc == Ok(parse(v).value)
      && Lookup(SampleFrame(Sample(key, payload, enc.value)).headers, "Content-Type") == Some([parse(v).value])
  {
    LastContentTypeWins([], v, [], parse);
    assert [] + [(ContentTypeKey, v)] + [] == [(ContentTypeKey, v)];
  }

  // ---------------------------------------------------------------------
  // subscribe
  // ---------------------------------------------------------------------

  /**
   * The subscription stream over the samples the subscriber delivers:
   * a failed declaration is the only item; otherwise every sample becomes
   * a frame, and the first receive error ends the stream.
   */
  function SubscribeStream(declared: Result<()>, samples: seq<Result<Sample>>): (r: seq<Result<Frame>>)
    ensures declared.Err? ==> r == [Err("declare failed: " + declared.error)]
    ensures declared.Ok? ==> |r| <= |samples|
    ensures declared.Ok? ==> forall i :: 0 <= i < |r| ==>
      r[i] == match samples[i] case Ok(s) => Ok(SampleFrame(s)) case Err(e) => Err("recv failed: " + e)
    ensures declared.Ok? ==> forall i :: 0 <= i < |r| - 1 ==> r[i].Ok?
    ensures declared.Ok? && |r| < |samples| ==> r != [] && r[|r| - 1].Err?
    ensures declared.Ok? && (forall i :: 0 <= i < |samples| ==> samples[i].Ok?) ==> |r| == |samples|
  {
    if declared.Err? then [Err("declare failed: " + declared.error)]
    else Received(samples)
  }

  function Received(samples: seq<Result<Sample>>): (r: seq<Result<Frame>>)
    ensures |r| <= |samples|
    ensures forall i :: 0 <= i < |r| ==>
      r[i] == match samples[i] case Ok(s) => Ok(SampleFrame(s)) case Err(e) => Err("recv failed: " + e)
    ensures forall i :: 0 <= i < |r| - 1 ==> r[i].Ok?
    ensures |r| < |samples| ==> r != [] && r[|r| - 1].Err?
    ensures (forall i :: 0 <= i < |samples| ==> samples[i].Ok?) ==> |r| == |samples|
    decreases |samples|
  {
    if samples == [] then []
    else match samples[0]
      case Err(e) => [Err("recv failed: " + e)]
      case Ok(s) =>
        var rest := Received(samples[1..]);
        assert forall i :: 1 <= i < |samples| ==> samples[i] == samples[1..][i - 1];
        [Ok(SampleFrame(s))] + rest
  }

  // ---------------------------------------------------------------------
  // request
  // ---------------------------------------------------------------------

  /**
   * The session's answers to one request: declaring the querier, sending
   * the query with the chosen encoding, and the replies in arrival order;
   * `closed` is the receive error when no reply arrives at all.
   */
  datatype Query = Query(
    declare: Result<()>,
    send: string -> Result<()>,
    replies: seq<Result<Sample>>,
    closed: string)

  /** `request`: the encoding is settled first, then only the first reply is used. */
  function Request(headers: HeaderList, parse: string -> Result<string>, q: Query): (r: Result<Frame>)
    ensures RequestEncoding(headers, parse).Err? ==> r == Err(RequestEncoding(headers, parse).error)
    ensures r.Ok? ==>
      && RequestEncoding(headers, parse).Ok? && q.declare.Ok? && q.send(RequestEncoding(headers, parse).value).Ok?
      && q.replies != [] && q.replies[0].Ok? && r.value == SampleFrame(q.replies[0].value)
    ensures RequestEncoding(headers, parse).Ok? && q.declare.Err? ==> r == Err("declare failed: " + q.declare.error)
    ensures var enc := RequestEncoding(headers, parse);
      enc.Ok? && q.declare.Ok? && q.send(enc.value).Err? ==> r == Err("query failed: " + q.send(enc.value).error)
    ensures RequestEncoding(headers, parse).Ok? && q.declare.Ok? && q.send(RequestEncoding(headers, parse).value).Ok? ==>
      r == if q.replies == [] then Err("recv failed: " + q.closed)
           else match q.replies[0]
             case Ok(s) => Ok(SampleFrame(s))
             case Err(e) => Err("result failed: " + e)
  {
    var enc :- RequestEncoding(headers, parse);
    if q.declare.Err? then Err("declare failed: " + q.declare.error)
    else if q.send(enc).Err? then Err("query failed: " + q.send(enc).error)
    else if q.replies == [] then Err("recv failed: " + q.closed)
    else match q.replies[0]
      case Err(e) => Err("result failed: " + e)
      case Ok(s) => Ok(SampleFrame(s))
  }

  /** Replies after the first never change the answer. */
  lemma RequestUsesFirstReply(headers: HeaderList, parse: string -> Result<string>, q: Query, later: seq<Result<Sample>>)
    requires q.replies != []
    ensures Request(headers, parse, q) == Request(headers, parse, q.(replies := [q.replies[0]] + later))
  {
  }

  // ---------------------------------------------------------------------
  // publish
  // ---------------------------------------------------------------------

  /**
   * How the wait on the matching listener ended: it delivered a status
   * (whatever that status says; the program only logs it), its channel
   * failed, or five seconds passed.
   */
  datatype MatchWait = StatusReceived | RecvFailed(error: string) | TimedOut

  /** The session's answers to one publish. */
  datatype Put = Put(
    declare: string -> Result<()>,
    listener: Result<()>,
    wait: MatchWait,
    put: Result<()>)

  datatype PublishStep = Declared(encoding: string) | Listened | Waited | PutPayload

  /**
   * `publish`: the encoding is settled before anything is declared; the
   * payload is only put once the matching listener reported a status.
   */
  function Publish(headers: HeaderList, parse: string -> Result<string>, p: Put): (r: (seq<PublishStep>, Result<()>))
    ensures RequestEncoding(headers, parse).Err? ==> r == ([], Err(RequestEncoding(headers, parse).error))
    ensures r.0 != [] ==> RequestEncoding(headers, parse).Ok? && r.0[0] == Declared(RequestEncoding(headers, parse).value)
    ensures PutPayload in r.0 ==> p.wait == StatusReceived && r.0[|r.0| - 1] == PutPayload
    ensures var enc := RequestEncoding(headers, parse);
      enc.Ok? ==> (
        && |r.0| >= 1 && (p.declare(enc.value).Err? <==> |r.0| == 1)
        && (p.declare(enc.value).Err? ==> r.1 == Err("declare failed: " + p.declare(enc.value).error)))
    ensures |r.0| >= 2 ==> r.0[1] == Listened && (p.listener.Err? <==> |r.0| == 2)
    ensures |r.0| == 2 ==> r.1 == Err("matching listener failed: " + p.listener.error)
    ensures |r.0| >= 3 ==> r.0[2] == Waited && (!p.wait.StatusReceived? <==> |r.0| == 3)
    ensures |r.0| == 3 ==> r.1 == if p.wait.TimedOut? then Err("failed to find matching listeners")
                                  else Err("recv failed: " + p.wait.error)
    ensures |r.0| == 4 ==> (
      && r.0[3] == PutPayload
      && r.1 == if p.put.Ok? then Ok(()) else Err("failed to publish: " + p.put.error))
    ensures r.1.Ok? ==> |r.0| == 4 && p.put.Ok?
    ensures |r.0| <= 4
    // Once the listener reported a status, the payload is always put.
    ensures var enc := RequestEncoding(headers, parse);
      enc.Ok? && p.declare(enc.value).Ok? && p.listener.Ok? && p.wait.StatusReceived? ==>
        |r.0| == 4 && r.0[3] == PutPayload
  {
    match RequestEncoding(headers, parse)
    case Err(e) => ([], Err(e))
    case Ok(enc) =>
    var steps := [Declared(enc)];
    if p.declare(enc).Err? then (steps, Err("declare failed: " + p.declare(enc).error))
    else
      var steps := steps + [Listened];
      if p.listener.Err? then (steps, Err("matching listener failed: " + p.listener.error))
      else
        var steps := steps + [Waited];
        match p.wait
        case RecvFailed(e) => (steps, Err("recv failed: " + e))
        case TimedOut => (steps, Err("failed to find matching listeners"))
        case StatusReceived =>
          var steps := steps + [PutPayload];
          if p.put.Err? then (steps, Err("failed to publish: " + p.put.error)) else (steps, Ok(()))
  }
}
