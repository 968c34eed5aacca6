/**
 * The program entry point: the early `--upgrade`/`--help`/`--version`
 * checks, the search for the transport argument, the rewrite of that
 * argument to the backend's address, and the choice of backend by id.
 * Every cargo feature is taken as enabled, so all four ids are known.
 */
module Launcher {
  import opened Results
  import opened Text
  import UrlTransport

  datatype Backend = Centrifuge(json: bool) | Nats | Zenoh

  /** The known backend ids, in the order the error message lists them. */
  const TransportIds: seq<string> := ["cfj", "cfp", "nats", "zenoh"]

  /** The id under which a backend is selected. */
  function BackendId(b: Backend): string {
    match b
    case Centrifuge(json) => if json then "cfj" else "cfp"
    case Nats => "nats"
    case Zenoh => "zenoh"
  }

  function Quoted(ids: seq<string>): (r: seq<string>)
    ensures |r| == |ids|
    ensures forall i :: 0 <= i < |ids| ==> r[i] == "'" + ids[i] + "'"
  {
    seq(|ids|, i requires 0 <= i < |ids| => "'" + ids[i] + "'")
  }

  /** The `InvalidValue` error raised for an unknown id. */
  function InvalidTransportMessage(id: string): string {
    "invalid transport: '" + id + "', available transports are: " + Join(Quoted(TransportIds), ", ")
  }

  /** The `match` on the backend id. */
  function SelectBackend(id: string): (r: Result<Backend>)
    ensures r.Ok? <==> id in TransportIds
    ensures r.Ok? ==> BackendId(r.value) == id
    ensures r.Err? ==> r.error == InvalidTransportMessage(id)
  {
    if id == "cfj" then Ok(Centrifuge(true))
    else if id == "cfp" then Ok(Centrifuge(false))
    else if id == "nats" then Ok(Nats)
    else if id == "zenoh" then Ok(Zenoh)
    else Err(InvalidTransportMessage(id))
  }

  /** Every backend is reachable by its own id, and by no other. */
  lemma SelectBackendByItsId(b: Backend, id: string)
    ensures SelectBackend(BackendId(b)) == Ok(b)
    ensures SelectBackend(id) == Ok(b) ==> id == BackendId(b)
  {
  }

  lemma QuotedTransportIds()
    ensures Quoted(TransportIds) == ["'cfj'", "'cfp'", "'nats'", "'zenoh'"]
  {
    var q := Quoted(TransportIds);
    assert q[0] == "'cfj'";
    assert q[1] == "'cfp'";
    assert q[2] == "'nats'";
    assert q[3] == "'zenoh'";
  }

  /** The error lists every known id quoted, comma separated, in declaration order. */
  lemma InvalidTransportListing(id: string)
    ensures InvalidTransportMessage(id)
      == "invalid transport: '" + id + "', available transports are: " + "'cfj', 'cfp', 'nats', 'zenoh'"
  {
    QuotedTransportIds();
    JoinFour("'cfj'", "'cfp'", "'nats'", "'zenoh'", ", ");
    assert "'cfj'" + ", " + ("'cfp'" + ", " + ("'nats'" + ", " + "'zenoh'")) == "'cfj', 'cfp', 'nats', 'zenoh'";
  }

  predicate IsFlag(arg: string) {
    |arg| > 0 && arg[0] == '-'
  }

  /** `i` is the first position after the program name whose argument is not a flag. */
  predicate IsTransportIndex(args: seq<string>, i: nat) {
    && 1 <= i < |args|
    && !IsFlag(args[i])
    && forall j :: 1 <= j < i ==> IsFlag(args[j])
  }

  /** The transport-index loop of `main`. */
  method FindTransportIndex(args: seq<string>) returns (idx: Option<nat>)
    ensures idx.Some? ==> IsTransportIndex(args, idx.value)
    ensures idx.None? <==> forall j :: 1 <= j < |args| ==> IsFlag(args[j])
  {
    var i := 0;
    idx := None;
    while i < |args|
      invariant 0 <= i <= |args|
      invariant forall j :: 1 <= j < i ==> IsFlag(args[j])
    {
      if i != 0 && !IsFlag(args[i]) {
        idx := Some(i);
        return;
      }
      i := i + 1;
    }
  }

  /** What the early `HelpVersionOnly` parse found, when it succeeded. */
  datatype PreFlags = PreFlags(upgrade: bool, help: bool, version: bool)

  datatype Launch =
    | RunUpgrade(args: seq<string>)
    | PrintHelp
    | PrintVersion
    | RunBackend(backend: Backend, args: seq<string>)
    | InvalidTransport(message: string)

  /** No early flag applies: either the pre-parse failed or it found none of them. */
  predicate NoEarlyFlag(pre: Option<PreFlags>) {
    pre.None? || (!pre.value.upgrade && !pre.value.help && !pre.value.version)
  }

  /** The argument at `i` selects an unknown id, and `message` reports it. */
  predicate InvalidAt(args: seq<string>, i: nat, message: string) {
    && IsTransportIndex(args, i)
    && UrlTransport.Parse(args[i]).0 !in TransportIds
    && message == InvalidTransportMessage(UrlTransport.Parse(args[i]).0)
  }

  /**
   * The argument at `i` selects backend `b`, and `out` is `args` with that
   * one argument replaced by the remaining address.
   */
  predicate RewrittenAt(args: seq<string>, i: nat, b: Backend, out: seq<string>) {
    && IsTransportIndex(args, i)
    && BackendId(b) == UrlTransport.Parse(args[i]).0
    && |out| == |args|
    && out[i] == UrlTransport.Parse(args[i]).1
    && forall j :: 0 <= j < |args| && j != i ==> out[j] == args[j]
  }

  /** `main`: decides what the invocation runs. */
  method Decide(args: seq<string>, pre: Option<PreFlags>) returns (l: Launch)
    ensures pre.Some? && pre.value.upgrade ==> l == RunUpgrade(args)
    ensures pre.Some? && !pre.value.upgrade && pre.value.help ==> l == PrintHelp
    ensures pre.Some? && !pre.value.upgrade && !pre.value.help && pre.value.version ==> l == PrintVersion
    ensures NoEarlyFlag(pre) && (forall j :: 1 <= j < |args| ==> IsFlag(args[j])) ==> l == PrintHelp
    ensures l.InvalidTransport? ==>
              && NoEarlyFlag(pre)
              && (exists i: nat :: InvalidAt(args, i, l.message))
    ensures l.RunBackend? ==>
              && NoEarlyFlag(pre)
              && (exists i: nat :: RewrittenAt(args, i, l.backend, l.args))
    ensures NoEarlyFlag(pre) && (exists i :: IsTransportIndex(args, i)) ==> l.RunBackend? || l.InvalidTransport?
  {
    if pre.Some? {
      if pre.value.upgrade {
        return RunUpgrade(args);
      }
      if pre.value.help {
        return PrintHelp;
      }
      if pre.value.version {
        return PrintVersion;
      }
    }
    var idx := FindTransportIndex(args);
    if idx.None? {
      return PrintHelp;
    }
    var i := idx.value;
    var (id, rest) := UrlTransport.Parse(args[i]);
    var rewritten := args[i := rest];
    match SelectBackend(id)
    case Ok(b) =>
      l := RunBackend(b, rewritten);
      assert RewrittenAt(args, i, b, rewritten);
    case Err(e) =>
      l := InvalidTransport(e);
      assert InvalidAt(args, i, e);
  }
}
