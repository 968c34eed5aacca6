/**
 * The command loops of `run`: which calls reach the backend, in which
 * order, what is written for each received frame, and where the run
 * stops. A run is observed as the trace of events it produces; the
 * backend is the `MessageQueue` oracle, so every property holds for every
 * backend.
 */
module Dispatch {
  import opened Results
  import opened MqTrait
  import Cli

  /** The subcommand and its arguments; `data` is the UTF-8 encoding of the data argument. */
  datatype Command =
    | PublishCmd(channel: string, data: seq<byte>, header: HeaderList, count: nat, sleep: nat)
    | SubscribeCmd(channel: string, translate: Option<string>)
    | RequestCmd(channel: string, data: seq<byte>, header: HeaderList, count: nat, translate: Option<string>)

  /** What a run is seen to do. */
  datatype Event =
    | Connected(addr: Option<string>)
    | Slept(nanos: nat)
    | Published(channel: string, header: HeaderList, payload: seq<byte>)
    | Subscribed(channel: string)
    | Requested(channel: string, header: HeaderList, payload: seq<byte>)
    | Printed(idx: nat, text: string)
    | HelpShown
    | VersionShown

  /**
   * The backend together with the other outside collaborators of a run:
   * the lossy UTF-8 decoder, the shell-word splitter and the process runner
   * used by the translate filter.
   */
  datatype Env = Env(
    mq: MessageQueue,
    lossy: seq<byte> -> string,
    shlex: string -> Option<seq<string>>,
    spawn: (string, seq<string>, seq<byte>) -> Cli.ProcessRun)

  /** The address handed to `connect`: an empty URL asks for the backend's default. */
  function ConnectAddress(url: string): (r: Option<string>)
    ensures r.None? <==> url == ""
    ensures r.Some? ==> r.value == url
  {
    if url == "" then None else Some(url)
  }

  /** The text `print_data` writes for a payload: translated first when a command is set, then decoded. */
  function PayloadText(env: Env, frame: Frame, translate: Option<string>): (r: Result<string>)
    ensures translate.None? ==> r == Ok(env.lossy(frame.payload))
    ensures translate.Some? ==>
      var t := Cli.TranslateData(frame.payload, translate.value, env.shlex, env.spawn);
      r == if t.Ok? then Ok(env.lossy(t.value)) else Err(t.error)
  {
    match translate
    case None => Ok(env.lossy(frame.payload))
    case Some(command) =>
      var out :- Cli.TranslateData(frame.payload, command, env.shlex, env.spawn);
      Ok(env.lossy(out))
  }

  /** `print_data` for the `idx`-th frame of a run: the text written and how it ended. */
  function Shown(env: Env, translate: Option<string>, idx: nat, frame: Frame): (string, Result<()>) {
    Cli.PrintData(idx, frame, PayloadText(env, frame, translate))
  }

  /**
   * The loops below take the frame printer as a parameter `show`; a run
   * passes `Printer(env, translate)`.
   */
  function Printer(env: Env, translate: Option<string>): (nat, Frame) -> (string, Result<()>) {
    (idx: nat, frame: Frame) => Shown(env, translate, idx, frame)
  }

  // ---------------------------------------------------------------------
  // publish
  // ---------------------------------------------------------------------

  /** The first `n` publish calls all succeeded. */
  predicate PublishedOk(mq: MessageQueue, n: nat) {
    forall i :: 0 <= i < n ==> mq.publish(i).Ok?
  }

  /**
   * What the publish loop does: `count` calls, a sleep before every call
   * but the first, and the first failing call ends the loop with its error.
   */
  predicate PublishOutcome(mq: MessageQueue, channel: string, header: HeaderList, payload: seq<byte>,
                           count: nat, sleep: nat, trace: seq<Event>, res: Result<()>)
  {
    && (forall j :: 0 <= j < |trace| ==>
          trace[j] == if j % 2 == 0 then Published(channel, header, payload) else Slept(sleep))
    && (trace == [] || |trace| % 2 == 1)
    && (|trace| + 1) / 2 <= count
    && (res.Ok? <==> PublishedOk(mq, count))
    && (res.Ok? ==> (|trace| + 1) / 2 == count)
    && (res.Err? ==> var calls := (|trace| + 1) / 2;
          && calls >= 1
          && PublishedOk(mq, calls - 1)
          && res == mq.publish(calls - 1))
  }

  /** The publish loop of `publish`. */
  method PublishLoop(mq: MessageQueue, channel: string, header: HeaderList, payload: seq<byte>, count: nat, sleep: nat)
    returns (trace: seq<Event>, res: Result<()>)
    ensures PublishOutcome(mq, channel, header, payload, count, sleep, trace, res)
  {
    trace := [];
    var n := 0;
    while n < count
      invariant 0 <= n <= count
      invariant n == 0 ==> trace == []
      invariant n > 0 ==> |trace| == 2 * n - 1
      invariant forall j :: 0 <= j < |trace| ==>
        trace[j] == if j % 2 == 0 then Published(channel, header, payload) else Slept(sleep)
      invariant PublishedOk(mq, n)
    {
      if n > 0 {
        trace := trace + [Slept(sleep)];
      }
      trace := trace + [Published(channel, header, payload)];
      var r := mq.publish(n);
      if r.Err? {
        return trace, r;
      }
      n := n + 1;
    }
    res := Ok(());
  }

  // ---------------------------------------------------------------------
  // subscribe
  // ---------------------------------------------------------------------

  /** The first `n` stream items were frames, and each was written out without error. */
  predicate Delivered(show: (nat, Frame) -> (string, Result<()>), items: seq<Result<Frame>>, n: nat) {
    && n <= |items|
    && forall i :: 0 <= i < n ==> items[i].Ok? && show(i + 1, items[i].value).1.Ok?
  }

  /** Event `e`, at position `j >= 1` of a trace, is the `j`-th frame of `items` written with display index `j`. */
  predicate PrintedItem(show: (nat, Frame) -> (string, Result<()>), items: seq<Result<Frame>>, e: Event, j: nat) {
    && 1 <= j <= |items|
    && items[j - 1].Ok?
    && e == Printed(j, show(j, items[j - 1].value).0)
  }

  /**
   * What the subscribe loop does over the items the stream yields: display
   * indices 1, 2, 3, … without gaps; an error item, or a frame whose
   * translation fails, ends the run with that error.
   */
  predicate SubscribeOutcome(mq: MessageQueue, channel: string, show: (nat, Frame) -> (string, Result<()>),
                             trace: seq<Event>, res: Result<()>)
  {
    var items := mq.subscribe(channel);
    && |trace| >= 1 && trace[0] == Subscribed(channel)
    && (forall j :: 1 <= j < |trace| ==> PrintedItem(show, items, trace[j], j))
    && (res.Ok? <==> Delivered(show, items, |items|))
    && (res.Ok? ==> |trace| == |items| + 1)
    && (res.Err? ==>
          var m := |trace| - 1;
          || (Delivered(show, items, m) && m < |items| && items[m].Err? && res.error == items[m].error)
          || (1 <= m <= |items| && Delivered(show, items, m - 1) && items[m - 1].Ok?
              && res == show(m, items[m - 1].value).1))
  }

  /** The subscribe loop of `subscribe`. */
  method SubscribeLoop(mq: MessageQueue, channel: string, show: (nat, Frame) -> (string, Result<()>))
    returns (trace: seq<Event>, res: Result<()>)
    ensures SubscribeOutcome(mq, channel, show, trace, res)
  {
    var items := mq.subscribe(channel);
    trace := [Subscribed(channel)];
    var i := 0;
    while i < |items|
      invariant 0 <= i <= |items|
      invariant |trace| == i + 1 && trace[0] == Subscribed(channel)
      invariant Delivered(show, items, i)
      invariant forall j :: 1 <= j < |trace| ==> PrintedItem(show, items, trace[j], j)
    {
      match items[i]
      case Err(e) =>
        return trace, Err(e);
      case Ok(frame) =>
        var out := show(i + 1, frame);
        var next := trace + [Printed(i + 1, out.0)];
        assert PrintedItem(show, items, next[i + 1], i + 1);
        assert forall j :: 1 <= j < |trace| ==> next[j] == trace[j];
        trace := next;
        if out.1.Err? {
          return trace, out.1;
        }
        assert Delivered(show, items, i + 1);
        i := i + 1;
    }
    res := Ok(());
  }

  // ---------------------------------------------------------------------
  // request
  // ---------------------------------------------------------------------

  /** The first `n` requests were answered, and each answer was written out without error. */
  predicate Answered(mq: MessageQueue, show: (nat, Frame) -> (string, Result<()>), n: nat) {
    forall i :: 0 <= i < n ==> mq.request(i).Ok? && show(i + 1, mq.request(i).value).1.Ok?
  }

  /** Event `e` at position `j` of a request trace: a request at even positions, the written answer at odd ones. */
  predicate RequestStep(mq: MessageQueue, show: (nat, Frame) -> (string, Result<()>),
                        channel: string, header: HeaderList, payload: seq<byte>, e: Event, j: nat)
  {
    if j % 2 == 0 then e == Requested(channel, header, payload)
    else
      && mq.request(j / 2).Ok?
      && e == Printed(j / 2 + 1, show(j / 2 + 1, mq.request(j / 2).value).0)
  }

  /**
   * What the request loop does: `count` sequential requests, each answer
   * written with the next display index; the first failed request or
   * translation ends the run with its error.
   */
  predicate RequestOutcome(mq: MessageQueue, channel: string, header: HeaderList, payload: seq<byte>, count: nat,
                           show: (nat, Frame) -> (string, Result<()>), trace: seq<Event>, res: Result<()>)
  {
    && (forall j :: 0 <= j < |trace| ==> RequestStep(mq, show, channel, header, payload, trace[j], j))
    && (|trace| + 1) / 2 <= count
    && (res.Ok? <==> Answered(mq, show, count))
    && (res.Ok? ==> |trace| == 2 * count)
    && (res.Err? ==> var calls := (|trace| + 1) / 2;
          && calls >= 1
          && Answered(mq, show, calls - 1)
          && (|trace| % 2 == 1 ==> mq.request(calls - 1).Err? && res.error == mq.request(calls - 1).error)
          && (|trace| % 2 == 0 ==> mq.request(calls - 1).Ok? && res == show(calls, mq.request(calls - 1).value).1))
  }

  /** The request loop of `request`. */
  method RequestLoop(mq: MessageQueue, channel: string, header: HeaderList, payload: seq<byte>, count: nat,
                     show: (nat, Frame) -> (string, Result<()>))
    returns (trace: seq<Event>, res: Result<()>)
    ensures RequestOutcome(mq, channel, header, payload, count, show, trace, res)
  {
    trace := [];
    var n := 0;
    while n < count
      invariant 0 <= n <= count
      invariant |trace| == 2 * n
      invariant Answered(mq, show, n)
      invariant forall j :: 0 <= j < |trace| ==> RequestStep(mq, show, channel, header, payload, trace[j], j)
    {
      trace := trace + [Requested(channel, header, payload)];
      match mq.request(n)
      case Err(e) =>
        return trace, Err(e);
      case Ok(frame) =>
        var out := show(n + 1, frame);
        trace := trace + [Printed(n + 1, out.0)];
        if out.1.Err? {
          return trace, out.1;
        }
        n := n + 1;
    }
    res := Ok(());
  }

  // ---------------------------------------------------------------------
  // run
  // ---------------------------------------------------------------------

  /**
   * What a command's loop does once connected, with everything the loop's
   * own contract states: trace `t` and result `res`.
   */
  predicate CommandOutcome(env: Env, c: Command, t: seq<Event>, res: Result<()>) {
    match c
    case PublishCmd(channel, data, header, count, sleep) =>
      PublishOutcome(env.mq, channel, header, data, count, sleep, t, res)
    case SubscribeCmd(channel, translate) =>
      SubscribeOutcome(env.mq, channel, Printer(env, translate), t, res)
    case RequestCmd(channel, data, header, count, translate) =>
      RequestOutcome(env.mq, channel, header, data, count, Printer(env, translate), t, res)
  }

  /** A command is given and the backend accepted the connection. */
  predicate Connects(env: Env, version: bool, url: string, command: Option<Command>) {
    !version && command.Some? && env.mq.connect(ConnectAddress(url)).Ok?
  }

  /**
   * `init` and the command closure of `run`: `--version` prints and stops,
   * no command prints help without connecting, otherwise the backend is
   * connected (an empty URL meaning its default) and the command's loop
   * runs; a failed connect ends the run before any other call.
   */
  method Run(env: Env, version: bool, url: string, command: Option<Command>)
    returns (trace: seq<Event>, res: Result<()>)
    ensures version ==> trace == [VersionShown] && res.Ok?
    ensures !version && command.None? ==> trace == [HelpShown] && res.Ok?
    ensures !version && command.Some? ==> |trace| >= 1 && trace[0] == Connected(ConnectAddress(url))
    ensures !version && command.Some? && env.mq.connect(ConnectAddress(url)).Err? ==>
      trace == [Connected(ConnectAddress(url))] && res == env.mq.connect(ConnectAddress(url))
    ensures forall j :: 1 <= j < |trace| ==> !trace[j].Connected?
    ensures Connects(env, version, url, command) ==> |trace| >= 1 && CommandOutcome(env, command.value, trace[1..], res)
  {
    if version {
      return [VersionShown], Ok(());
    }
    if command.None? {
      return [HelpShown], Ok(());
    }
    var addr := ConnectAddress(url);
    trace := [Connected(addr)];
    var c := env.mq.connect(addr);
    if c.Err? {
      return trace, c;
    }
    var rest: seq<Event>;
    match command.value {
      case PublishCmd(channel, data, header, count, sleep) =>
        rest, res := PublishLoop(env.mq, channel, header, data, count, sleep);
      case SubscribeCmd(channel, translate) =>
        rest, res := SubscribeLoop(env.mq, channel, Printer(env, translate));
      case RequestCmd(channel, data, header, count, translate) =>
        rest, res := RequestLoop(env.mq, channel, header, data, count, Printer(env, translate));
    }
    assert forall j :: 0 <= j < |rest| ==> !rest[j].Connected?;
    trace := trace + rest;
    assert trace[1..] == rest;
  }
}
