/**
 * The Ctrl-C escalation of `ctrlc_trap`: the first interrupt asks the
 * running command to stop through a one-slot channel, a second one within
 * ten seconds (or one that finds the slot still full) ends the process
 * with exit code 1. Time is a nanosecond count supplied with each event.
 */
module Interrupt {
  import opened Results

  /** `Duration::from_secs(10)` in nanoseconds. */
  const Window: nat := 10_000_000_000

  /** The abort channel as the handler's `try_send` sees it. */
  datatype Channel = Open(pending: bool) | Closed

  /** The handler's captured state: when it last signalled, and its channel. */
  datatype Handler = Handler(lastSent: Option<int>, channel: Channel)

  datatype Reaction = Continue(handler: Handler) | Exit(code: int)

  /** `Instant::elapsed`: a clock that went backwards reads as no time at all. */
  function Elapsed(since: int, now: int): (d: nat)
    ensures now >= since ==> d + since == now
    ensures now < since ==> d == 0
  {
    if now >= since then now - since else 0
  }

  /** A previous signal lies less than the window in the past. */
  predicate Recent(h: Handler, now: int) {
    h.lastSent.Some? && Elapsed(h.lastSent.value, now) < Window
  }

  /** The closure given to `ctrlc::set_handler`. */
  function OnInterrupt(h: Handler, now: int): (r: Reaction)
    ensures Recent(h, now) ==> r == Exit(1)
    ensures r.Continue? <==> !Recent(h, now) && h.channel == Open(false)
    ensures r.Continue? ==> r.handler == Handler(Some(now), Open(true))
    ensures r.Exit? ==> r.code == 1
  {
    if Recent(h, now) then Exit(1)
    else
      var h' := h.(lastSent := Some(now));
      match h'.channel
      case Open(pending) => if pending then Exit(1) else Continue(h'.(channel := Open(true)))
      case Closed => Exit(1)
  }

  /** Where the command being supervised stands. */
  datatype App = Working | Finished(result: Result<()>)

  datatype Supervisor = Running(handler: Handler, app: App) | Exited(code: int)

  /**
   * What can happen next: a signal at time `now`, the command finishing, or
   * the `select!` being polled; `preferAbort` is the branch it picks when
   * both branches are ready.
   */
  datatype SupEvent = Interrupted(now: int) | AppDone(result: Result<()>) | Poll(preferAbort: bool)

  const Start := Running(Handler(None, Open(false)), Working)

  /** One step of the supervisor; an exited process ignores everything. */
  function Step(s: Supervisor, e: SupEvent): (r: Supervisor)
    ensures s.Exited? ==> r == s
    ensures s.Running? && e.Interrupted? && Recent(s.handler, e.now) ==> r == Exited(1)
    ensures (s.Running? && e.Poll? && s.handler.channel == Open(true) && (e.preferAbort || s.app == Working)) ==>
              r == Exited(0)
    ensures s.Running? && e.Poll? && s.handler.channel != Open(true) && s.app.Finished? ==>
              r == Exited(if s.app.result.Ok? then 0 else 1)
    // A signal outside the window is handled by the interrupt handler alone;
    // the command keeps its state unless the handler ends the process.
    ensures s.Running? && e.Interrupted? ==>
              var reaction := OnInterrupt(s.handler, e.now);
              && (reaction.Continue? ==> r == Running(reaction.handler, s.app))
              && (reaction.Exit? ==> r == Exited(reaction.code))
    // Only the first completion of the command is recorded.
    ensures s.Running? && e.AppDone? ==>
              && r.Running? && r.handler == s.handler
              && (s.app == Working ==> r.app == Finished(e.result))
              && (s.app.Finished? ==> r == s)
    // A finished command wins every poll in which the abort branch is not taken.
    ensures s.Running? && e.Poll? && s.app.Finished? && !(s.handler.channel == Open(true) && e.preferAbort) ==>
              r == Exited(if s.app.result.Ok? then 0 else 1)
    // With nothing ready, a poll leaves the supervisor waiting.
    ensures s.Running? && e.Poll? && s.handler.channel != Open(true) && s.app == Working ==> r == s
  {
    match s
    case Exited(_) => s
    case Running(h, app) =>
      match e
      case Interrupted(now) =>
        (match OnInterrupt(h, now)
         case Continue(h') => Running(h', app)
         case Exit(code) => Exited(code))
      case AppDone(result) =>
        if app == Working then Running(h, Finished(result)) else s
      case Poll(preferAbort) =>
        var abortReady := h.channel == Open(true);
        if abortReady && (preferAbort || app == Working) then Exited(0)
        else if app.Finished? then Exited(if app.result.Ok? then 0 else 1)
        else s
  }

  function Replay(s: Supervisor, events: seq<SupEvent>): Supervisor
    decreases |events|
  {
    if events == [] then s else Replay(Step(s, events[0]), events[1..])
  }

  /**
   * The reachable states: the channel stays open while the receiver is
   * being polled, a pending signal was sent at a recorded time, and a
   * process only ever exits with 0 or 1.
   */
  predicate Good(s: Supervisor) {
    match s
    case Running(h, _) => h.channel.Open? && (h.channel.pending ==> h.lastSent.Some?)
    case Exited(code) => code == 0 || code == 1
  }

  lemma StepGood(s: Supervisor, e: SupEvent)
    requires Good(s)
    ensures Good(Step(s, e))
  {
  }

  /** Every run from the start stays in the reachable states, so the exit code is 0 or 1. */
  lemma {:induction false} ReplayGood(s: Supervisor, events: seq<SupEvent>)
    requires Good(s)
    ensures Good(Replay(s, events))
    ensures Replay(s, events).Exited? ==> Replay(s, events).code in {0, 1}
    decreases |events|
  {
    if events != [] {
      StepGood(s, events[0]);
      ReplayGood(Step(s, events[0]), events[1..]);
    }
  }

  /** One Ctrl-C while the command runs stops it cleanly at the next poll. */
  lemma SingleInterruptStops(now: int, preferAbort: bool)
    ensures Step(Step(Start, Interrupted(now)), Poll(preferAbort)) == Exited(0)
  {
  }

  /**
   * A second Ctrl-C before the first was taken always exits with 1: inside
   * the window because it is recent, later because the slot is still full.
   */
  lemma SecondInterruptExits(t1: int, t2: int)
    ensures Step(Step(Start, Interrupted(t1)), Interrupted(t2)) == Exited(1)
  {
  }

  /** A command that fails ends the process with 1, one that succeeds with 0, when no signal is pending. */
  lemma AppResultDecides(result: Result<()>, preferAbort: bool)
    ensures Step(Step(Start, AppDone(result)), Poll(preferAbort)) == Exited(if result.Ok? then 0 else 1)
  {
  }
}
