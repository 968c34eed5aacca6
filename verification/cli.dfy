/**
 * The value parsers, the verbosity mapping, the translate filter and the
 * rendering of a received frame, as the command-line engine defines them.
 */
module Cli {
  import opened Results
  import opened Text
  import opened MqTrait

  // ---------------------------------------------------------------------
  // `-H key:value`
  // ---------------------------------------------------------------------

  const HeaderFormatError := "header must be in the format of \"key: value\""

  /** `parse_header`: splits at the first `:` only and trims both halves. */
  function ParseHeader(s: string): (r: Result<(string, string)>)
    ensures r.Err? <==> ':' !in s
    ensures r.Err? ==> r.error == HeaderFormatError
    ensures r.Ok? ==> ':' !in r.value.0 && Trimmed(r.value.0) && Trimmed(r.value.1)
  {
    match IndexOf(s, ':')
    case None => Err(HeaderFormatError)
    case Some(p) =>
      var key := Trim(s[..p]);
      var lo :| InfixBetweenWhitespace(s[..p], lo, key);
      assert forall i :: 0 <= i < |key| ==> key[i] == s[..p][lo + i];
      Ok((key, Trim(s[p + 1..])))
  }

  /** Any input with a colon is a key without colons, a colon, and a value that may hold more colons. */
  lemma ParseHeaderSplit(k: string, v: string)
    requires ':' !in k
    ensures ParseHeader(k + ":" + v) == Ok((Trim(k), Trim(v)))
  {
    var s := k + ":" + v;
    var p := IndexOf(s, ':').value;
    assert s[|k|] == ':';
    assert s[..|k|] == k;
    assert p == |k|;
    assert s[..p] == k;
    assert s[p + 1..] == v;
  }

  /** Rendering a header as `key: value` and parsing it gives it back. */
  lemma ParseHeaderRoundTrip(k: string, v: string)
    requires ':' !in k && Trimmed(k) && Trimmed(v)
    ensures ParseHeader(k + ": " + v) == Ok((k, v))
  {
    var rest := " " + v;
    ParseHeaderAt(k + ": " + v, k, rest);
    TrimTrimmed(k);
    TrimLeadingSpace(v);
  }

  /** ParseHeaderSplit for a string already known to have that shape. */
  lemma ParseHeaderAt(s: string, k: string, rest: string)
    requires ':' !in k && s == k + ":" + rest
    ensures ParseHeader(s) == Ok((Trim(k), Trim(rest)))
  {
    ParseHeaderSplit(k, rest);
  }

  // ---------------------------------------------------------------------
  // `--sleep DURATION`
  // ---------------------------------------------------------------------

  const NegativeDurationError := "duration must be positive"

  /**
   * `parse_duration`: `goParse` stands for the Go-style duration parser,
   * which yields a signed nanosecond count or its own error message.
   */
  function ParseDuration(s: string, goParse: string -> Result<int>): (r: Result<nat>)
    ensures r.Ok? <==> goParse(s).Ok? && goParse(s).value >= 0
    ensures r.Ok? ==> r.value == goParse(s).value
    ensures goParse(s).Err? ==> r == Err(goParse(s).error)
    ensures goParse(s).Ok? && goParse(s).value < 0 ==> r == Err(NegativeDurationError)
  {
    var nanos :- goParse(s);
    if nanos < 0 then Err(NegativeDurationError) else Ok(nanos)
  }

  // ---------------------------------------------------------------------
  // `-v` / `-q`
  // ---------------------------------------------------------------------

  /** How many times a counted flag was given (clap stores it in a `u8`). */
  newtype FlagCount = x: int | 0 <= x < 256

  datatype Level = Error | Warn | Info | Debug | Trace

  /** Severity rank: `Error` lets the fewest events through. */
  function Rank(l: Level): nat {
    match l
    case Error => 0
    case Warn => 1
    case Info => 2
    case Debug => 3
    case Trace => 4
  }

  const I32Min: int := -0x8000_0000
  const I32Max: int := 0x7fff_ffff

  /** `i32::saturating_sub` */
  function SaturatingSubI32(a: int, b: int): int {
    if a - b < I32Min then I32Min else if a - b > I32Max then I32Max else a - b
  }

  /** The `match` arms of `setup_logging`. */
  function LevelOfDelta(d: int): Level {
    if d <= -2 then Error
    else if d == -1 then Warn
    else if d == 0 then Info
    else if d == 1 then Debug
    else Trace
  }

  /** `setup_logging`: the default level for `verbose` and `quiet` flag counts. */
  function VerbosityLevel(verbose: FlagCount, quiet: FlagCount): Level {
    LevelOfDelta(SaturatingSubI32(verbose as int, quiet as int))
  }

  /**
   * Closed form of the mapping: two steps either side of `Info`, one per
   * flag, clamped at `Error` and `Trace`. Counts of at most 255 never
   * saturate the 32-bit difference.
   */
  lemma VerbosityRankClosedForm(verbose: FlagCount, quiet: FlagCount)
    ensures SaturatingSubI32(verbose as int, quiet as int) == verbose as int - quiet as int
    ensures Rank(VerbosityLevel(verbose, quiet))
      == if verbose as int - quiet as int <= -2 then 0
         else if verbose as int - quiet as int >= 2 then 4
         else verbose as int - quiet as int + 2
  {
  }

  /** More `-v` never lowers the level; more `-q` never raises it; no flags means `Info`. */
  lemma VerbosityMonotone(v1: FlagCount, v2: FlagCount, q1: FlagCount, q2: FlagCount)
    requires v1 <= v2 && q2 <= q1
    ensures Rank(VerbosityLevel(v1, q1)) <= Rank(VerbosityLevel(v2, q2))
    ensures VerbosityLevel(0, 0) == Info
  {
    VerbosityRankClosedForm(v1, q1);
    VerbosityRankClosedForm(v2, q2);
  }

  // ---------------------------------------------------------------------
  // `--translate CMD`
  // ---------------------------------------------------------------------

  /** How a spawned translate process ended (spawn, pipe or wait failure included). */
  datatype ProcessRun =
    | SpawnFailed(error: string)
    | Finished(success: bool, status: string, stdout: seq<byte>, stderr: seq<byte>)

  const InvalidTranslateCommand := "invalid translate command"

  /**
   * The program and arguments taken from the shell-word split of the
   * command line; an empty split names the empty program.
   */
  function TranslateArgv(words: Option<seq<string>>): (r: Result<(string, seq<string>)>)
    ensures r.Err? <==> words.None?
    ensures r.Err? ==> r.error == InvalidTranslateCommand
    ensures r.Ok? && words.value == [] ==> r.value == ("", [])
    ensures r.Ok? && words.value != [] ==> [r.value.0] + r.value.1 == words.value
  {
    match words
    case None => Err(InvalidTranslateCommand)
    case Some(w) => if w == [] then Ok(("", [])) else Ok((w[0], w[1..]))
  }

  /**
   * `translate_data`: `shlex` is the shell-word splitter, `spawn` runs a
   * program with arguments on the given standard input.
   */
  function TranslateData(
    data: seq<byte>, command: string,
    shlex: string -> Option<seq<string>>,
    spawn: (string, seq<string>, seq<byte>) -> ProcessRun): (r: Result<seq<byte>>)
    ensures shlex(command).None? ==> r == Err(InvalidTranslateCommand)
    ensures r.Ok? ==> var argv := TranslateArgv(shlex(command)).value;
      && spawn(argv.0, argv.1, data).Finished?
      && spawn(argv.0, argv.1, data).success
      && r.value == spawn(argv.0, argv.1, data).stdout
    ensures shlex(command).Some? && r.Err? ==> var argv := TranslateArgv(shlex(command)).value;
      || spawn(argv.0, argv.1, data).SpawnFailed?
      || r.error == "translate failed with exit code " + spawn(argv.0, argv.1, data).status
    ensures shlex(command).Some? ==>
      var argv := TranslateArgv(shlex(command)).value;
      var p := spawn(argv.0, argv.1, data);
      && (p.SpawnFailed? ==> r == Err(p.error))
      && (p.Finished? && p.success ==> r == Ok(p.stdout))
      && (p.Finished? && !p.success ==> r == Err("translate failed with exit code " + p.status))
  {
    var argv :- TranslateArgv(shlex(command));
    match spawn(argv.0, argv.1, data)
    case SpawnFailed(e) => Err(e)
    case Finished(success, status, stdout, _) =>
      if success then Ok(stdout) else Err("translate failed with exit code " + status)
  }

  /** A filter that copies its input (`cat`) leaves the payload unchanged. */
  lemma TranslateIdentity(
    data: seq<byte>, command: string,
    shlex: string -> Option<seq<string>>,
    spawn: (string, seq<string>, seq<byte>) -> ProcessRun)
    requires shlex(command).Some? && shlex(command).value != []
    requires forall input: seq<byte> ::
      spawn(shlex(command).value[0], shlex(command).value[1..], input).Finished?
      && spawn(shlex(command).value[0], shlex(command).value[1..], input).success
      && spawn(shlex(command).value[0], shlex(command).value[1..], input).stdout == input
    ensures TranslateData(data, command, shlex, spawn) == Ok(data)
  {
    var run := spawn(shlex(command).value[0], shlex(command).value[1..], data);
    assert run.Finished? && run.success && run.stdout == data;
  }

  // ---------------------------------------------------------------------
  // `print_data`
  // ---------------------------------------------------------------------

  /** `[#idx] Received on "topic" (N bytes)` and a newline. */
  function Heading(idx: nat, frame: Frame): string {
    "[#" + Decimal(idx) + "] Received on \"" + frame.topic + "\" (" + Decimal(|frame.payload|) + " bytes)\n"
  }

  /** One `key: value` line per value of one key, in order. */
  function ValueLines(key: string, values: seq<string>): string
    decreases |values|
  {
    if values == [] then "" else key + ": " + values[0] + "\n" + ValueLines(key, values[1..])
  }

  /** The value lines of every key, keys in map order. */
  function HeaderLines(h: seq<HeaderEntry>): string
    decreases |h|
  {
    if h == [] then "" else ValueLines(h[0].key, h[0].values) + HeaderLines(h[1..])
  }

  /** Header lines, then one blank line, only when there are headers. */
  function HeaderBlock(h: Headers): string {
    if h == [] then "" else HeaderLines(h) + "\n"
  }

  /** Number of header values across all keys. */
  function ValueCount(h: seq<HeaderEntry>): nat
    decreases |h|
  {
    if h == [] then 0 else |h[0].values| + ValueCount(h[1..])
  }

  predicate HeaderTextClean(h: seq<HeaderEntry>) {
    forall i :: 0 <= i < |h| ==>
      '\n' !in h[i].key && forall j :: 0 <= j < |h[i].values| ==> '\n' !in h[i].values[j]
  }

  lemma {:induction false} ValueLinesCount(key: string, values: seq<string>)
    requires '\n' !in key && forall j :: 0 <= j < |values| ==> '\n' !in values[j]
    ensures Count(ValueLines(key, values), '\n') == |values|
    decreases |values|
  {
    if values != [] {
      var line := key + ": " + values[0];
      ValueLinesCount(key, values[1..]);
      CountAbsent(line, '\n');
      CountConcat(line, "\n", '\n');
      CountConcat(line + "\n", ValueLines(key, values[1..]), '\n');
    }
  }

  /** There is exactly one header line per value, across all keys. */
  lemma {:induction false} HeaderLinesCount(h: seq<HeaderEntry>)
    requires HeaderTextClean(h)
    ensures Count(HeaderLines(h), '\n') == ValueCount(h)
    decreases |h|
  {
    if h != [] {
      ValueLinesCount(h[0].key, h[0].values);
      HeaderLinesCount(h[1..]);
      CountConcat(ValueLines(h[0].key, h[0].values), HeaderLines(h[1..]), '\n');
    }
  }

  /** The text already ends a line. */
  predicate EndsLine(t: string) {
    |t| > 0 && (t[|t| - 1] == '\n' || t[|t| - 1] == '\r')
  }

  /**
   * The payload text, a newline only when the text does not already end a
   * line, and always a blank-line separator.
   */
  function PayloadBlock(text: string): (r: string)
    ensures text <= r
    ensures |r| == |text| + (if EndsLine(text) then 2 else 3)
    ensures EndsLine(text) ==> r == text + "\n\n"
    ensures !EndsLine(text) ==> r == text + "\n\n\n" && r[|text|] == '\n'
    ensures EndsWith(r, "\n\n") && EndsLine(r[..|r| - 2])
  {
    var body := if EndsLine(text) then text else text + "\n";
    assert (body + "\n\n")[..|body|] == body;
    body + "\n\n"
  }

  /**
   * `print_data`: `payload` is the text written for the payload (decoded,
   * and translated when a translate command is set) or the translate error.
   * Returns what was written and how the call ended.
   */
  function PrintData(idx: nat, frame: Frame, payload: Result<string>): (r: (string, Result<()>))
    ensures Heading(idx, frame) + HeaderBlock(frame.headers) <= r.0
    ensures r.1.Ok? <==> payload.Ok?
    ensures payload.Err? ==> r == (Heading(idx, frame) + HeaderBlock(frame.headers), Err(payload.error))
    ensures payload.Ok? ==> r == (Heading(idx, frame) + HeaderBlock(frame.headers) + PayloadBlock(payload.value), Ok(()))
    ensures payload.Ok? ==> EndsWith(r.0, "\n\n")
  {
    var prefix := Heading(idx, frame) + HeaderBlock(frame.headers);
    match payload
    case Err(e) => (prefix, Err(e))
    case Ok(text) =>
      var out := prefix + PayloadBlock(text);
      assert out[|out| - 2..] == PayloadBlock(text)[|PayloadBlock(text)| - 2..];
      (out, Ok(()))
  }

  /** The heading for the first frame of a five-byte payload on topic `t`. */
  lemma HeadingVector(frame: Frame)
    requires frame.topic == "t" && |frame.payload| == 5
    ensures Heading(1, frame) == "[#1] Received on \"t\" (5 bytes)\n"
  {
    assert Decimal(1) == "1" && Decimal(5) == "5";
  }

  /** The heading is a single line when the topic holds no newline. */
  lemma HeadingOneLine(idx: nat, frame: Frame)
    requires '\n' !in frame.topic
    ensures Count(Heading(idx, frame), '\n') == 1
  {
    var a := "[#" + Decimal(idx) + "] Received on \"" + frame.topic + "\" (" + Decimal(|frame.payload|) + " bytes)";
    assert Heading(idx, frame) == a + "\n";
    assert '\n' !in Decimal(idx) && '\n' !in Decimal(|frame.payload|);
    assert '\n' !in a;
    CountAbsent(a, '\n');
    CountConcat(a, "\n", '\n');
  }

  /**
   * For one-line texts, `print_data` writes the heading line, one line per
   * header value plus a blank line when there are headers, then the payload
   * line and the two separator newlines.
   */
  lemma PrintDataLines(idx: nat, frame: Frame, text: string)
    requires '\n' !in frame.topic && HeaderTextClean(frame.headers)
    requires '\n' !in text && '\r' !in text
    ensures Count(PrintData(idx, frame, Ok(text)).0, '\n')
      == 1 + (if frame.headers == [] then 0 else ValueCount(frame.headers) + 1) + 3
  {
    HeadingOneLine(idx, frame);
    var hb := HeaderBlock(frame.headers);
    if frame.headers != [] {
      HeaderLinesCount(frame.headers);
      CountConcat(HeaderLines(frame.headers), "\n", '\n');
    }
    assert Count(hb, '\n') == if frame.headers == [] then 0 else ValueCount(frame.headers) + 1;
    assert !EndsLine(text) by {
      if |text| > 0 {
        assert text[|text| - 1] in text;
      }
    }
    var pb := PayloadBlock(text);
    assert pb == text + "\n" + "\n\n";
    CountAbsent(text, '\n');
    CountConcat(text, "\n", '\n');
    CountConcat(text + "\n", "\n\n", '\n');
    CountConcat(Heading(idx, frame), hb, '\n');
    CountConcat(Heading(idx, frame) + hb, pb, '\n');
  }
}
