# mqcat in Dafny

mqcat is a command-line client for message queues. The first positional
argument selects the backend (`cfj`, `cfp`, `nats` or `zenoh`) and carries its
address. The client can publish, subscribe or request, and it prints every
received frame. This project models the deterministic core of the `mqcat`
binary and proves what that core promises:

- the split of an address into backend id and backend address, with the
  argument rewrite and backend choice in `main`;
- the `Frame` record and its sorted header map, and the `MessageQueue`
  capability, which appears here as an oracle;
- the CLI value parsers, the verbosity-to-level mapping, the Ctrl-C
  escalation, the translate filter's argv rule, the rendering of a received
  frame, and the publish, subscribe and request loops as traces of backend
  calls;
- `format_table`;
- the self-upgrade decisions: validation, gating, asset name and lookup,
  archive entry, and the dry-run stop;
- the Centrifuge backend's default address, its header handling and its
  64-slot subscription buffer with teardown;
- the Zenoh backend's endpoint configuration, session description, the fold
  from headers to an encoding, the frame built from a sample, and the shape
  of its publish, subscribe and request.

The modules follow the source files:

| module | file | source |
|---|---|---|
| `Results` | results.dfy | `Option`/`Result` for `anyhow::Result`; an error is its message |
| `Text` | text.dfy | string helpers: decimal rendering, byte-wise `<`, `str::trim`, counting |
| `MqTrait` | mqtrait.dfy | src/mqtrait.rs |
| `UrlTransport` | url_transport.dfy | src/url_transport.rs |
| `Launcher` | launcher.dfy | src/main.rs |
| `Utils` | utils.dfy | src/utils.rs |
| `Cli` | cli.dfy | src/cli.rs (parsers, logging level, translate, `print_data`) |
| `Interrupt` | interrupt.dfy | src/cli.rs `ctrlc_trap` |
| `Dispatch` | dispatch.dfy | src/cli.rs `init` and `run` |
| `Upgrade` | upgrade.dfy | src/upgrade.rs |
| `Centrifuge` | centrifuge.dfy | src/backends/centrifuge.rs |
| `Zenoh` | zenoh.dfy | src/backends/zenoh.rs |

Modelling choices:

- A `BTreeMap<String, Vec<String>>` is a sequence of entries whose keys
  strictly ascend. This is the subset type `MqTrait.Headers`.
- `BTreeMap::insert` is `MqTrait.Insert`.
- Collecting pairs into a map is `MqTrait.FromPairs`, where the last
  duplicate key wins.
- Strings are `seq<char>`. Rust compares `&str` byte-wise, which is the same
  as comparing code points, so `Text.StrLess` compares code points.
- Every outside collaborator is a function-typed parameter or a field of an
  oracle datatype:
  - the backend;
  - `shlex::split`, `go_parse_duration` and the child process;
  - `String::from_utf8_lossy`;
  - the release service, download, archive reader and executable
    replacement;
  - the Centrifuge and Zenoh clients;
  - `Encoding::from_str`.

  Each property therefore holds for every behaviour of these collaborators.
- A backend answers the i-th `publish` or `request` call with `publish(i)`
  or `request(i)`.
- A subscription is the finite sequence of items its stream yields.
- Time is an integer count of nanoseconds supplied with each event.
- The nondeterministic branch choice of `tokio::select!` is an explicit
  boolean in the event that polls.
- The disabled test at src/url_transport.rs:24-28 expects `("zenoh", "")`
  for `"zenoh:"`. The code returns `("zenoh", "zenoh:")`, and the model
  follows the code.
- All cargo features are taken as enabled. The transport list is therefore
  `cfj, cfp, nats, zenoh`, and `--upgrade` is available.

## Model

| member | source | states |
|---|---|---|
| UrlTransport.FirstSeparator | src/url_transport.rs:3 | the position of the first `+`, `/` or `:`, or none exactly when the address holds none of them |
| UrlTransport.Parse | src/url_transport.rs:1-11 | the id is a separator-free prefix of the address; with no separator the result is `(url, "")`; after a `+` the id, `+` and remainder reassemble the address; after `/` or `:` the remainder is the whole address |
| UrlTransport.ParseIsTheSplit | src/url_transport.rs:1-11 | `parse` is the one and only split of the address that has this shape, so the description determines the result |
| UrlTransport.PlusRoundTrip | src/url_transport.rs:5-6 | for every separator-free id, `parse(id + "+" + address) == (id, address)` |
| UrlTransport.NativeUrlKept | src/url_transport.rs:9 | an address whose first separator is `/` or `:` is handed over whole, with the text before it as id |
| UrlTransport.LaterSeparatorsKept | src/url_transport.rs:3-9 | only the first separator decides; every later `+`, `/` or `:` stays in the remainder |
| Launcher.Quoted | src/main.rs:154 | each id is wrapped in single quotes, one for one, in order |
| Launcher.SelectBackend | src/main.rs:120-157 | an id selects a backend exactly when it is one of `cfj, cfp, nats, zenoh`, and that backend's id is the given one; any other id gives the invalid-transport message |
| Launcher.QuotedTransportIds | src/main.rs:138-147 | the quoted listing is `'cfj'`, `'cfp'`, `'nats'`, `'zenoh'` in this order |
| Launcher.InvalidTransportListing | src/main.rs:149-156 | the full error text: `invalid transport: '<id>', available transports are: 'cfj', 'cfp', 'nats', 'zenoh'` |
| Launcher.FindTransportIndex | src/main.rs:101-107 | the first position after the program name whose argument does not start with `-`; none exactly when every later argument is a flag |
| Launcher.Decide | src/main.rs:85-158 | the early checks in the order upgrade, help, version; help when there is no positional argument; otherwise the first positional argument is replaced by the address remainder, every other argument and the length unchanged, and the id either selects a backend or yields the invalid-transport error |
| MqTrait.Lookup | src/mqtrait.rs:3 | a key has values exactly when it is one of the map's keys |
| MqTrait.LookupEntry | src/mqtrait.rs:3 | every entry of the sorted map is found by its key |
| MqTrait.InsertEntrySpec | src/mqtrait.rs:3 | inserting into a sorted map keeps the keys strictly ascending, maps the key to the new values, leaves every other key's values alone and adds exactly that key |
| MqTrait.Insert | src/mqtrait.rs:3 | `BTreeMap::insert`: the key maps to the new values, every other lookup is unchanged, and the key set grows by the key |
| MqTrait.FromPairs | src/mqtrait.rs:3 | a map collected from pairs has exactly the pairs' keys |
| MqTrait.FromPairsLookup | src/mqtrait.rs:3 | in a map collected from pairs each key maps to the single value of its last pair |
| Utils.MaxKeyLen | src/utils.rs:2 | the longest key length, attained by some entry, and 0 for no entries |
| Utils.FormatTable | src/utils.rs:1-11 | empty input gives the empty string; otherwise the table ends in a newline |
| Utils.LinesSplit | src/utils.rs:4-10 | the table of a concatenation is the concatenation of the tables: each entry gives its own line, in input order |
| Utils.EntryLine | src/utils.rs:4-10 | the table is the lines of the entries before, the entry's own line, and the lines after |
| Utils.AlignedEntry | src/utils.rs:2-9 | every entry that is not the blank pair is `(width - len(key))` spaces, the key, `": "`, the value and a newline, with at least two spaces of padding |
| Utils.TableNewlines | src/utils.rs:4-10 | a table of entries without newlines has exactly one newline per entry, so a blank pair is a bare newline |
| Cli.ParseHeader | src/cli.rs:85-91 | an error exactly when the text holds no `:`, with the fixed message; otherwise the key holds no `:` and both halves are trimmed |
| Cli.ParseHeaderSplit | src/cli.rs:86-90 | the split is at the first `:` only, and the value keeps any later `:` |
| Cli.ParseHeaderRoundTrip | src/cli.rs:85-91 | `key: value` written with trimmed halves parses back to exactly that pair |
| Cli.ParseDuration | src/cli.rs:93-100 | the parser's error passes through; a negative duration is rejected with `duration must be positive`; zero and positive values give that many nanoseconds |
| Cli.VerbosityRankClosedForm | src/cli.rs:159-168 | the level is `verbose - quiet` clamped to the range ERROR..TRACE, and the saturating subtraction never saturates for two `u8` counts |
| Cli.VerbosityMonotone | src/cli.rs:162-168 | more `-v` or fewer `-q` never lowers the level, and the default is INFO |
| Cli.TranslateArgv | src/cli.rs:193-201 | an unsplittable command is `invalid translate command`; an empty split gives an empty program and no arguments; otherwise program and arguments reassemble the words |
| Cli.TranslateData | src/cli.rs:192-222 | a command that does not split into words is the invalid-command error; otherwise its first word runs with the rest as arguments and the data on stdin: a spawn failure is that error, a successful exit gives exactly the child's stdout, and a failed exit is `translate failed with exit code <status>` |
| Cli.TranslateIdentity | src/cli.rs:192-222 | a command that copies its input through leaves the payload unchanged |
| Cli.ValueLinesCount | src/cli.rs:231-233 | one line per value of a key |
| Cli.HeaderLinesCount | src/cli.rs:230-234 | one line per header value, over all keys |
| Cli.PayloadBlock | src/cli.rs:245-250 | the payload text, then a `\n` only when it does not already end in `\n` or `\r`, then always `\n\n` |
| Cli.PrintData | src/cli.rs:224-253 | the output is the heading and the header block, then for a translated payload the payload block, which writes the payload text and ends in a blank line, and the result is success; a failed translation ends the output after the header block with its error |
| Cli.HeadingOneLine | src/cli.rs:225-227 | the heading is exactly one line when the topic holds no newline |
| Cli.PrintDataLines | src/cli.rs:224-253 | for one-line texts the output has the heading line, one line per header value and a blank line only when there are headers, then the payload line and the two separator newlines |
| Interrupt.Elapsed | src/cli.rs:122 | elapsed time since an instant, zero for a clock that went backwards |
| Interrupt.OnInterrupt | src/cli.rs:120-142 | a signal within ten seconds of the last one exits with 1; otherwise the handler continues exactly when the slot was free, and it then records the time and fills the slot; every other case exits with 1 |
| Interrupt.Step | src/cli.rs:148-156 | an exited process stays exited; a recent second signal exits with 1; a pending abort ends the run with 0 when chosen or when the command still runs; a finished command ends with 0 or 1 by its result whenever the abort branch is not taken; a signal outside the window is handled by the interrupt handler alone; only the first completion of the command is recorded; with nothing ready a poll keeps waiting |
| Interrupt.StepGood | src/cli.rs:116-156 | each step keeps the channel open while polled, records a time for a pending signal, and exits only with 0 or 1 |
| Interrupt.ReplayGood | src/cli.rs:112-157 | every run from the start exits, if at all, with 0 or 1 |
| Interrupt.SingleInterruptStops | src/cli.rs:128-149 | one Ctrl-C while the command runs ends the run cleanly with 0 at the next poll |
| Interrupt.SecondInterruptExits | src/cli.rs:121-139 | a second Ctrl-C before the first was taken always exits with 1 |
| Interrupt.AppResultDecides | src/cli.rs:150-155 | with no signal, a failed command exits with 1 and a successful one with 0 |
| Dispatch.ConnectAddress | src/cli.rs:259 | an empty URL connects with no address; any other is passed as given |
| Dispatch.PayloadText | src/cli.rs:238-245 | without a translate command the payload is decoded as is; with one, the translated output is decoded, and a translation error is the result |
| Dispatch.PublishLoop | src/cli.rs:260-266 | publish calls alternate with sleeps, with no sleep before the first; there are at most `count` calls; success exactly when all `count` calls succeed; otherwise the run stops at the first failing call with its error |
| Dispatch.SubscribeLoop | src/cli.rs:269-278 | the frames are written with display indices 1, 2, 3, … and no gaps; success exactly when every item is a frame and is written; on success there is one write per item; otherwise the first error item or failed translation ends the run with that error |
| Dispatch.RequestLoop | src/cli.rs:279-290 | at most `count` sequential requests, each answer written with the next index; success exactly when all of them are answered and written, with two events per request; otherwise the first failed request or translation ends the run with its error |
| Dispatch.Run | src/cli.rs:177-298 | `--version` prints and stops; no subcommand prints help without connecting; otherwise one connect comes first and a failed connect ends the run with its error; after connecting, the events after the connect and the result meet the whole contract of the command's loop as stated for the three loops above |
| Upgrade.CheckValidChars | src/upgrade.rs:49-51 | valid exactly when every character is ASCII alphanumeric or one of `- . + _`, so the empty string is valid |
| Upgrade.CheckValidCharsConcat | src/upgrade.rs:49-51 | a concatenation is valid exactly when both parts are |
| Upgrade.ValidVersionIsOneSegment | src/upgrade.rs:57-79 | a valid version holds no `/`, `?`, `#`, `%` or space, so it cannot add path segments, a query or a fragment to the manifest address |
| Upgrade.TrimStartMatches | src/upgrade.rs:103 | `trim_start_matches`: removes a prefix made only of the character, and what remains does not start with it |
| Upgrade.TrimLeadingVs | src/upgrade.rs:103 | any number of leading `v` are removed, and nothing else |
| Upgrade.AssetNameOfTag | src/upgrade.rs:103 | the asset name is `mqcat-` + the tag without its leading `v`s + `-` + arch + `.zip` |
| Upgrade.BeforeFirst | src/upgrade.rs:92 | `split('T').next()`: the prefix before the first `T`, or the whole string without one |
| Upgrade.FindAsset | src/upgrade.rs:104-111 | the position of the first asset with exactly that name, and none exactly when no asset has it |
| Upgrade.ZipEntryChoice | src/upgrade.rs:124-125 | the archive entry is `mqcat.exe` exactly when the arch ends in `-windows`, otherwise `mqcat` |
| Upgrade.FromDownload | src/upgrade.rs:116-132 | download, then unpack the chosen entry, then install only when this is not a dry run; each failure stops there with its error; a dry run succeeds after the unpack; otherwise the binary extracted is the one installed and the install's result is the result |
| Upgrade.InstallRelease | src/upgrade.rs:103-132 | no matching asset is `file not found: <name>` with no download; otherwise the first matching asset is downloaded; a dry run never installs |
| Upgrade.RunUpgrade | src/upgrade.rs:53-132 | an invalid version, then an invalid arch, fails before any request; the manifest for `releases/<version>` is fetched first; the up-to-date and newer-build gates stop with success unless forced; otherwise the release is installed |
| Upgrade.UpToDateStops | src/upgrade.rs:87-90 | without `--force`, a release tagged with the running version is only fetched, and the upgrade succeeds |
| Upgrade.NewerBuildStops | src/upgrade.rs:92-99 | without `--force`, a release dated before the build date is only fetched, and the upgrade succeeds |
| Upgrade.ForceDownloads | src/upgrade.rs:87-116 | with `--force` both gates are passed, and the first matching asset is downloaded right after the manifest |
| Upgrade.DryRunNeverInstalls | src/upgrade.rs:129-132 | a dry run never replaces the executable, whatever the release |
| Centrifuge.ClientAddress | src/backends/centrifuge.rs:14-21 | a given address is used verbatim; without one, the JSON or the protobuf default |
| Centrifuge.DefaultAddressesShareEndpoint | src/backends/centrifuge.rs:15-17 | both defaults are the same websocket endpoint and differ only in the `format` query |
| Centrifuge.Connect | src/backends/centrifuge.rs:20-40 | the client connects to the chosen address; any failure is `failed to connect` |
| Centrifuge.Publish | src/backends/centrifuge.rs:43-50 | a warning exactly when headers are given; the payload is sent unchanged; a failure is `failed to publish: ` plus the client's error |
| Centrifuge.PublishIgnoresHeaders | src/backends/centrifuge.rs:44-48 | the result does not depend on the headers |
| Centrifuge.PublicationFrame | src/backends/centrifuge.rs:69-73 | topic is the channel, payload is the data, the header keys are the tag keys, and each tag k→v becomes k→[v] |
| Centrifuge.TagsLookup | src/backends/centrifuge.rs:71 | every tag of a publication is found with its single value |
| Centrifuge.WithTopic | src/backends/centrifuge.rs:85-87 | a frame with an empty topic gets the subscribed topic; any other frame passes unchanged |
| Centrifuge.Signal | src/backends/centrifuge.rs:55-75 | the one-slot teardown channel keeps its first signal and drops later ones |
| Centrifuge.Step | src/backends/centrifuge.rs:52-98 | a publication enters the 64-slot buffer, or when it is full is dropped with a teardown signal `(0, "no available capacity")`; a poll yields the oldest frame, or ends the stream with `subscription failed: <code> <reason>`, or with `subscription closed` once every sender is gone; the server's unsubscribe offers its code and reason as the teardown signal unless the callbacks are gone; dropping the callbacks closes the channel, after which publications are lost; an ended stream never changes |
| Centrifuge.SubscribeGood | src/backends/centrifuge.rs:52-55 | a fresh subscription satisfies the invariant |
| Centrifuge.StepGood | src/backends/centrifuge.rs:54-95 | each step keeps the buffer within 64 and FIFO, the output equal to the accepted frames in order with the topic filled in, and one final error exactly when ended |
| Centrifuge.ReplayGood | src/backends/centrifuge.rs:81-98 | every run of the subscription keeps that invariant |
| Centrifuge.EndedStaysEnded | src/backends/centrifuge.rs:90-95 | nothing is yielded after the error that ends the stream |
| Centrifuge.OverflowTearsDown | src/backends/centrifuge.rs:74-91 | a publication at a full buffer is lost, and the teardown branch then ends the stream with the overflow signal or with the one already waiting |
| Centrifuge.FullErrorMessage | src/backends/centrifuge.rs:75-91 | the overflow error reads `subscription failed: 0 no available capacity` |
| Zenoh.Endpoints | src/backends/zenoh.rs:26-31 | with an address the configured endpoints are exactly `[addr]`; without one the default configuration is used |
| Zenoh.Connect | src/backends/zenoh.rs:25-37 | the session opens with that configuration, and its error is passed on unchanged |
| Zenoh.InfoEntries | src/backends/zenoh.rs:40-48 | `Client ID` first, then one `Connected Router ID` per router, then one `Connected Peer ID` per peer, in order |
| Zenoh.InfoLines | src/backends/zenoh.rs:40-50 | the description has one line per id |
| Zenoh.ContentTypeSpellings | src/backends/zenoh.rs:56 | the key matches `content-type` in any ASCII case (`Content-Type`, `CONTENT-TYPE`), and a near miss such as `content_type` or a trailing space does not |
| Zenoh.FoldEncodingSpec | src/backends/zenoh.rs:54-61 | an unparsable `content-type` value fails with the first such error; otherwise the last `content-type` header decides the encoding, and other headers are ignored |
| Zenoh.RequestEncoding | src/backends/zenoh.rs:54-61 | with no `content-type` header the encoding is the default |
| Zenoh.LastContentTypeWins | src/backends/zenoh.rs:55-57 | the last `content-type` header wins over earlier ones when all of them parse |
| Zenoh.SampleFrame | src/backends/zenoh.rs:99-106 | topic is the key expression and payload the sample bytes; the headers are empty for the default encoding, otherwise exactly `Content-Type` → [encoding] |
| Zenoh.EncodingRoundTrip | src/backends/zenoh.rs:57-105 | a non-default encoding sent as a `content-type` header comes back as the `Content-Type` header |
| Zenoh.SubscribeStream | src/backends/zenoh.rs:90-110 | a failed declaration is the only item, as `declare failed: …`; otherwise each sample becomes a frame in order, and the first receive error ends the stream as `recv failed: …` |
| Zenoh.Request | src/backends/zenoh.rs:112-140 | an encoding error comes before any declaration; declare, query, receive and reply errors are reported with their own prefixes; success is the frame of the first reply |
| Zenoh.RequestUsesFirstReply | src/backends/zenoh.rs:128-130 | replies after the first never change the answer |
| Zenoh.Publish | src/backends/zenoh.rs:53-88 | an encoding error comes before any declaration; the publisher is declared with the folded encoding; each later step (matching listener, wait, put) happens only after the previous one succeeded, and its failure carries its own prefix; the payload is put exactly when the matching listener reported a status (which is logged, not inspected), and nothing follows the put; a timeout is `failed to find matching listeners` |
| Text.Decimal | src/backends/centrifuge.rs:91 | `{}` of an integer: digits only, with no leading zero |
| Text.DecimalRoundTrip | src/backends/centrifuge.rs:91 | reading the rendered digits gives the number back, so the rendering is injective |
| Text.Trim | src/cli.rs:90 | `str::trim`: the result has no white space at either end and sits between white space in the input |
| Text.TrimPadded | src/cli.rs:90 | trimming a trimmed string padded with white space gives it back |
| Text.StrLessTransitive | src/upgrade.rs:93 | the `<` on strings is transitive |
| Text.StrLessConnected | src/upgrade.rs:93 | the `<` on strings is total on distinct strings |

A few lemmas are worked examples rather than properties. They compute the
result for particular inputs and follow from the contracts above:
`UrlTransport.ParseVectorsBare`, `UrlTransport.ParseVectorNatsUrl`,
`UrlTransport.ParseVectorWsUrl`, `UrlTransport.ParseVectorZenohPrefix`,
`UrlTransport.ParseVectorNatsPrefix`, `UrlTransport.ParseVectorCfjPrefix`,
`UrlTransport.ParseVectorsSeparatorOnly`, `UrlTransport.ParseVectorsEmptyAddress`
(the cases of the unit tests in src/url_transport.rs),
`Launcher.SelectBackendByItsId`, `Upgrade.FirstNamedUnique` and
`Cli.HeadingVector`.

## Left out

- src/backends/nats.rs: the NATS client is passed through unchanged apart
  from an empty-subject guard. Its `publish` and `request` signatures do not
  match the trait in src/mqtrait.rs. The backend is covered by the
  `MessageQueue` oracle.
- src/backends/mod.rs and the cargo feature gating: every backend is taken
  as enabled.
- build.rs and the version module: only their values (version, build date,
  target triple) are used, as the parameters of `Upgrade.Build`.
- The workspace crates `mqcat`, `mqcat-commons`, `mqcat-nats`, `mqcat-zenoh`
  and `mqcat-centrifuge` are not part of this model. They are an older draft
  of the same logic.
- Network, archive and filesystem I/O (`ureq`, `zip`, the executable
  replacement and its temporary file) are oracles. Their error texts are
  whatever the oracle returns.
- Real concurrency and time are replaced by integers and explicit events:
  - signals, `Instant`, `tokio::time::sleep`, the `select!` scheduling;
  - the Zenoh five-second matching timeout, which appears as the
    `TimedOut` outcome.
- Logging is left out: warnings, info lines, the unknown-header warning in
  Zenoh, the RTT message and the `tracing` setup. Only the selected level
  is modelled.
- clap argument parsing, help and version texts, and `get_styles` are
  left out.
  - A parsed invocation is the input of `Launcher.Decide` and
    `Dispatch.Run`.
  - The early `HelpVersionOnly` parse is its outcome, `PreFlags`.
- `Cli.PrintData`: stdout write errors are not modelled; only the bytes
  written and the translation error are.
- `Dispatch.SubscribeLoop`: the stream is a finite sequence of items, so an
  endless subscription is modelled by its finite prefixes.
- `Dispatch.SubscribeLoop`: the `u32` display index is unbounded, so
  wrap-around after 2^32 frames is not modelled.
- `Dispatch.RequestLoop`: the `u32` display index is unbounded, so
  wrap-around after 2^32 frames is not modelled.
- `Dispatch.PayloadText`: `String::from_utf8_lossy` is an oracle, and the
  UTF-8 encoding of the `data` argument is taken as given bytes.
- `Utils.AlignedEntry`: the width uses the character count. The source
  uses the byte length, and the two agree only for ASCII keys.
- `Zenoh.Publish`, `Zenoh.Request` and `Zenoh.FoldEncodingSpec`: an
  encoding is represented by its text, and `Encoding::from_str` is an
  oracle, so which strings parse is not modelled. The default encoding is
  `zenoh/bytes`.
- `Zenoh.Connect`: the JSON5 round trip of the endpoint list through
  `insert_json5` is taken to give back `[addr]`.
- `Upgrade.ValidVersionIsOneSegment`: the allowed characters include `.`,
  so the versions `.` and `..` pass the check in src/upgrade.rs:49-51 and
  form a dot segment that resolves outside the release's own address. The
  lemma promises only that no separator, query, fragment or escape is
  added.
- `Zenoh.Connect`: the configuration step is unwrapped in
  src/backends/zenoh.rs:28-30, so an endpoint text the configuration
  rejects panics there; the model assumes it is always accepted.
- The Centrifuge `request` is left out: its signature does not match the
  `MessageQueue` trait.
- `Centrifuge.Connect`: the client name `mqcat <version>`, the event-logging
  callbacks and the Centrifuge protocol are not modelled.
- `ZenohMQ`'s `Drop` (closing the session) is left out: it has no
  observable result.
