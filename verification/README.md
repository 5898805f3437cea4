# manx: a Dafny model of the WebSocket CLI's decision logic

manx is an interactive command-line WebSocket peer. `manx connect URL` sends
each typed line as a text message and prints what the server sends back.
`manx listen PORT` accepts connections and logs what clients send. Most of
the program is threads, channels, an async executor and readline
redrawing. This project models the small, pure decisions inside that
plumbing and proves properties about them:

- **Credentials** (`Auth`): `parse_authorization` splits `USER[:PASSWORD]`
  on every `:`.
- **Listen port** (`Listen`): the port argument is parsed as a `usize` the
  way current Rust's integer `FromStr` does on a 64-bit target, then
  limited to 65535.
- **Message policies** (`Client`, `Server`, `Legacy`): each policy decides,
  for one read from the peer, whether to reply, what line to show, and
  whether the loop stops. There is one policy each for the async client's
  read task, the listener's handler, and the older thread-based client and
  listener in `src/main.rs`. `Loop` is the receive loop they all share.
  `Client` also models the stdout thread's filter.
- **UTF-8** (`Utf8`): `String::from_utf8` / `str::from_utf8` accept
  exactly the shortest encodings of Unicode scalar values. The model proves
  decoding and encoding are inverse in both directions.
- **Connection setup** (`Transport`): `init` runs a fixed sequence of
  fallible steps. DNS, TCP, TLS and the WebSocket handshake are oracles in a
  `Network` value. The result records every step attempted. `WsStream`
  forwards each `Sink`/`Stream` call to the variant it wraps.

A receive loop is modelled as a fold over a finite sequence of reads
(`Incoming`: a message, or a read error). It returns a `Trace`: the replies
written, the lines shown, how many reads it took, and why it stopped. When
no read stops it, `halted` is `None`. For the async client this means the
stream ended. For the listeners it means the handler is still waiting.
`process::exit` becomes a returned `Exited(code, notice)`. A thread that
panics on `unwrap` becomes a `Panicked` end. Colour painting is the
identity.

Behaviour worth knowing before reading the model:
- There is no ping/pong display flag. The async client always shows
  `"Ping!\n"` for a ping, `"<< payload\n"` for text, and
  `"Unsupported ws message"` for a pong.
- A "wss" URL without a certificate fails with the plain error
  "No certificate found for tls". The check comes after name resolution
  and before any connect.
- Invalid UTF-8 in a binary message panics the async client's read task
  (an `unwrap`), and invalid UTF-8 in a text message panics the older
  client's receive thread. The model records this as a `Panicked` end, not
  as an exit code.

## Model

| member | source | states |
|---|---|---|
| `Utf8.Decode` | src/client.rs:121 | `String::from_utf8`: a decoded string has at most as many characters as the input has bytes; what it accepts and returns is stated by `Utf8.DecodeIffEncode`, `Utf8.DecodeEncode` and `Utf8.EncodeDecode` |
| `Utf8.DecodeIffEncode` | src/client.rs:119-122 | `String::from_utf8(bs)` gives `s` exactly when `s`'s UTF-8 encoding is `bs`, in both directions |
| `Utf8.DecodeEncode` | src/client.rs:121 | every string's UTF-8 encoding decodes back to that string |
| `Utf8.EncodeDecode` | src/client.rs:121 | whatever decodes re-encodes to exactly the input bytes: only shortest-form, non-surrogate, at most U+10FFFF input is accepted |
| `Utf8.DecodeSomeIffEncoding` | src/client.rs:121 | decoding fails exactly when the payload is not the encoding of any string |
| `Auth.ParseAuthorization` | src/main.rs:31-43 | `None` exactly when the input has two or more `:`. With no `:`, the whole input is the user and the password is `None` (the empty input included). Any result is colon-free and spells the input back |
| `Auth.Split` | src/main.rs:32 | `split(':')` always gives at least one piece; `Auth.SplitPieces`, `Auth.JoinSplit` and `Auth.SplitJoin` state that it splits at every `:` |
| `Auth.SplitPieces` | src/main.rs:32-33 | splitting on `:` gives one piece more than there are colons, and no piece contains a colon |
| `Auth.JoinSplit` | src/main.rs:32 | the pieces joined with the separator are the original string |
| `Auth.SplitJoin` | src/main.rs:32 | splitting undoes joining separator-free pieces |
| `Auth.ParseCredentials` | src/main.rs:36-41 | for colon-free `u` and `p`, `u` parses to `(u, None)` and `u + ":" + p` parses to `(u, Some(p))`; `"u:"` gives `Some("")` |
| `Auth.ParseIffCredentials` | src/main.rs:31-43 | parsing and writing `USER[:PASSWORD]` are inverse on colon-free credentials, both directions |
| `Listen.ReadDigits` | src/main.rs:266 | the digit loop accepts exactly all-digit input not above `usize::MAX` and returns its decimal value; `PosOverflow` exactly when the leading digit run already exceeds `usize::MAX` |
| `Listen.ParseUsize` | src/main.rs:266 | `Empty` exactly for empty input; a single leading `+` is allowed (a lone `+` is `InvalidDigit`); otherwise as the digit loop |
| `Listen.ValidatePort` | src/main.rs:266-278 | the listener starts exactly when the argument parses as an unsigned integer at most 65535, on that value; every other outcome exits with code 1. A number that parses but exceeds 65535 is reported as out of range with that number, and only such a number; any parse failure is reported with the argument and its error kind (`Empty` exactly for `""`, `PosOverflow` exactly when the leading digits exceed `usize::MAX`) |
| `Listen.PortRoundTrip` | src/main.rs:266-267 | every port 0..65535 written in decimal, with or without `+`, is accepted as itself |
| `Loop.Run` | src/client.rs:98-136 | a receive loop stops right after the first read whose reaction halts, no earlier read halts it, and without a halt it takes every read |
| `Loop.RunTrace` | src/client.rs:98-136 | a receive loop writes and shows exactly what the reactions to the reads it took produce, in order |
| `Loop.RunBounded` | src/server.rs:20-51 | a receive loop writes at most one reply and shows at most one line per read it takes |
| `Loop.RepliesArePongs` | src/server.rs:37-43 | a loop whose reactions answer each ping with the pong for its payload, and nothing else, writes exactly the pongs for the pings, in arrival order |
| `Loop.ShownOnePerRead` | src/client.rs:110-135 | reactions that each show a line show exactly one line per read |
| `Client.ClientReact` | src/client.rs:99-131 | only a ping gets a reply, `Pong` with the same bytes. A read that keeps the read task running queues exactly one display line; one that stops it queues none. Text shows `"<< t\n"`; binary shows its decoding or panics; close exits 0 with no line; a read error exits 1; a pong shows `"Unsupported ws message"` |
| `Client.BinaryShownDecoded` | src/client.rs:119-122 | a binary message is shown as the string whose UTF-8 encoding it is, and the read task panics exactly when there is no such string |
| `Client.ClientReplies` | src/client.rs:111-113 | the read task enqueues exactly one pong per ping, with the same payload, in arrival order |
| `Client.ClientShownCount` | src/client.rs:110-135 | reads that keep the read task running each queue exactly one display line |
| `Client.ReadLoop` | src/client.rs:98-136 | the read task takes at most the reads given, all of them unless a read stops it, and a stop comes after at least one read; its writes are stated by `Client.ReadLoopReplies`, its lines by `Client.ReadLoopShown`, its ends by `Client.ReadLoopEnds` |
| `Client.ReadLoopReplies` | src/client.rs:98-136 | over any read sequence, the read task hands the write task exactly the pongs for the pings it took, in order |
| `Client.ReadLoopShown` | src/client.rs:110-135 | the display lines number exactly the reads that kept the read task running: the terminating read adds none |
| `Client.ReadLoopEnds` | src/client.rs:98-131 | the stream ends only when no read failed and no close came; exit 0 follows a close, exit 1 a read error, a panic a non-UTF-8 binary message |
| `Client.ToStdout` | src/client.rs:135 | each display line is handed to the stdout thread as one text message, in order |
| `Client.StdoutLoop` | src/client.rs:41-64 | the stdout thread prints at most one line per message, and nothing for a stream of non-text, non-binary messages |
| `Client.StdoutOne` | src/client.rs:43-59 | a text message is printed as it is, a binary one as its UTF-8 decoding or with a panic when there is none, and any other message is not printed |
| `Client.StdoutAppend` | src/client.rs:42-64 | the stdout thread prints one stream after another as the first's lines followed by the second's; once it panics, nothing later is printed |
| `Client.StdoutPanicsIff` | src/client.rs:59 | the stdout thread panics exactly when it is handed a binary message that is not UTF-8 |
| `Client.StdoutSkipsControl` | src/client.rs:42-45 | removing any message that is neither text nor binary leaves what is printed unchanged |
| `Client.DisplayReachesScreen` | src/client.rs:41-64 | every queued display line is printed, in order, and the stdout thread does not panic on them |
| `Client.ReadLoopDisplayed` | src/client.rs:98-136 | what the read task queues for display over any read sequence is printed in full and in order |
| `Server.ServerReact` | src/server.rs:21-50 | a close gets exactly one `Close(None)` and stops the handler; a ping gets `Pong` with the same bytes; pong and binary do nothing; text is logged and not answered; a read error stops the handler without a reply |
| `Server.ServerReplies` | src/server.rs:37-43 | up to the first close or read error, the handler writes one pong per ping, in order, and nothing else |
| `Server.Handler` | src/server.rs:20-51 | the handler takes at most the reads given, all of them unless a read stops it; its writes are stated by `Server.HandlerRepliesSplit`, its ends by `Server.HandlerEnds` |
| `Server.HandlerRepliesSplit` | src/server.rs:20-51 | the handler writes the pongs for the pings among the reads that kept it running, in order, then `Close(None)` if the client closed, and nothing else |
| `Server.HandlerEnds` | src/server.rs:20-36 | the handler stops exactly on the first close (client closed) or read error (disconnected) |
| `Legacy.ReceiveReact` | src/main.rs:94-110 | only a ping gets a reply, a pong with the same payload, and shows `"Ping!\n"`. Text shows `"<< text\n"` or panics on invalid UTF-8. Binary, close and pong all show `"Other type of ws message"` and keep the thread running. A read error stops it silently |
| `Legacy.TextShownDecoded` | src/main.rs:105-107 | a text payload is shown as the string whose UTF-8 encoding it is, and the thread panics exactly when there is none |
| `Legacy.ReceiveReplies` | src/main.rs:101-103 | the old receive thread queues one pong per ping, same payload, in arrival order |
| `Legacy.ReceiveLoop` | src/main.rs:93-127 | the old receive thread takes at most the reads given, all of them unless a read stops it; its writes are stated by `Legacy.ReceiveLoopReplies`, its terminal output by `Legacy.ReceiveLoopShown`, its ends by `Legacy.ReceiveLoopEnds` |
| `Legacy.ReceiveLoopReplies` | src/main.rs:93-127 | over any read sequence, the old receive thread queues exactly the pongs for the pings it took, in order |
| `Legacy.ReceiveLoopShown` | src/main.rs:100-122 | one terminal write per read the old receive thread survives; the read that stops it writes nothing |
| `Legacy.ReceiveLoopEnds` | src/main.rs:93-110 | the old receive thread stops silently exactly after a read error, and panics only on a text message that is not UTF-8; with no read error and no text message it takes every read, closes included |
| `Legacy.HandlerReact` | src/main.rs:178-204 | a close gets exactly one empty close frame and stops the handler; a ping gets a pong with the same payload; text, binary and pong are never answered and stop the handler only when they are not UTF-8; a read error logs and disconnects |
| `Legacy.HandlerPrintsDecoded` | src/main.rs:198-203 | text, binary and pong payloads are printed as `"<< s (ip)"` for the string `s` they encode |
| `Legacy.HandlerReplies` | src/main.rs:194-197 | while no read stops the old handler, it writes one pong per ping, in order |
| `Legacy.HandlerLoop` | src/main.rs:177-205 | the old handler takes at most the reads given, all of them unless a read stops it; its writes are stated by `Legacy.HandlerLoopReplies`, its ends by `Legacy.HandlerLoopEnds` |
| `Legacy.HandlerLoopReplies` | src/main.rs:177-205 | the old handler writes the pongs for the pings among the reads that kept it running, in order, then one empty close frame if the client closed, and nothing else |
| `Legacy.HandlerLoopEnds` | src/main.rs:177-193 | the old handler ends as client-closed exactly when its last read was a close, and as disconnected exactly when it was a read error |
| `Transport.Init` | src/ws.rs:62-98 | steps run in plan order and stop at the first failure, which is the last step attempted; success ran the whole plan and is `Plain` exactly for "ws" and `Tls` exactly for "wss". A missing host, a missing port, a failed resolution, an empty address list and an unsupported scheme each fail with their own step and message |
| `Transport.InitWsOutcome` | src/ws.rs:62-80 | once a "ws" URL resolves, a failed connect to the first address or a failed handshake fails `init` with that step and the oracle's own error; when both succeed `init` returns `Plain` around the handshake's stream |
| `Transport.InitWssOutcome` | src/ws.rs:62-93 | once a "wss" URL resolves, a missing certificate, a PEM error, a connect error, a TLS error with the URL's host and a handshake error each fail `init` with that step and error, in that order; when all succeed `init` returns `Tls` around the handshake's stream |
| `Transport.ConnectPlain` | src/ws.rs:76-80 | for "ws": a connect error is reported as the connect step's error, then a handshake error as the handshake step's; success is `Plain` around the handshake's stream |
| `Transport.ConnectTls` | src/ws.rs:81-93 | for "wss": a missing certificate, then a PEM, connect, TLS and handshake error, each reported as its own step with the oracle's error; success is `Tls` around the handshake's stream |
| `Transport.NoHostOrPortNoResolve` | src/ws.rs:63-64 | a missing host or unknown port fails before any address resolution |
| `Transport.ResolveFailureNoConnect` | src/ws.rs:66-73 | a resolution failure or empty address list fails before scheme dispatch and before any connect |
| `Transport.WsNeverTls` | src/ws.rs:76-80 | "ws" never attempts the certificate or TLS steps, and succeeds only as `Plain` |
| `Transport.WssWithoutCertNoConnect` | src/ws.rs:81-89 | "wss" without a certificate never connects, and after resolution fails with "No certificate found for tls" |
| `Transport.WssHandshakeAfterTls` | src/ws.rs:81-92 | for "wss", the WebSocket handshake is attempted only after connect and TLS both succeeded, and success is `Tls` |
| `Transport.OtherSchemeRejected` | src/ws.rs:75-94 | any other scheme never connects, and after resolution fails with "unsupported scheme" |
| `Transport.Forward` | src/ws.rs:22-59 | each `Sink`/`Stream` call is answered by the stream of the variant it was made on, and the variant is kept |
| `Transport.ForwardingPreservesVariant` | src/ws.rs:14-60 | over any sequence of calls the wrapper keeps its variant, and answers exactly as its inner plain or TLS stream would alone |

## Left out

- Threads, channels (`mpsc`, `piper`), smol tasks and `future::select` (src/client.rs:28-41, 97-145; src/main.rs:80-128). They are concurrency. The model folds each receive loop over a finite sequence of reads instead, and the queues are the `replies` and `shown` sequences.
- The readline input loop, history and prompt redraw with ANSI escape sequences (src/client.rs:47-77, src/main.rs:112-137). They are terminal I/O on a foreign library.
- ANSI colour painting is treated as the identity on strings.
- The global executor in src/executor.rs is a runtime wrapper with no decision logic.
- The clap command-line definition (src/cli.rs, src/main.rs:216-234) and URL parsing (src/main.rs:237-251) are library configuration and parsing. `Url` holds the host and the `port_or_known_default` the URL library reports.
- Name resolution, TCP connect, PEM parsing, TLS and the WebSocket handshake are `Network` oracles. The model fixes which oracle `init` consults, with which arguments and in which order, and how it reports their answers, but not what the oracles do.
- The hard-coded `127.0.0.1:9999` connect and the unused `_auth_option` in src/client.rs:26,91 are plumbing quirks. So are the older client's connect-error reporting and request setup (src/main.rs:45-77) and the listeners' bind and accept (src/main.rs:147-175, src/server.rs:7-18).
- Write failures are not modelled. The listeners' `write_message(..).unwrap()` / `send_message(..).unwrap()` and the client's stdout-channel `send(..).unwrap()` are assumed to succeed.
- The `Context` and waker arguments of the `Sink`/`Stream` methods. Each inner stream is an arbitrary state-transition function from call to answer.
- `ParseIntError`'s debug text. The error kind is kept, not the printed message.
- Listen.ParseUsize: `usize` is taken to be 64 bits wide.
- Listen.ParseUsize: a lone `+` is `InvalidDigit`, as in current Rust releases. Releases before the lone-sign change reported `Empty` for it, and the toolchain this code was written for is not pinned, so the model does not promise the older behaviour.
- Client.StdoutLoop: its own contract only bounds the output and covers the all-control case. What it prints is stated by `Client.StdoutOne` (one message) and `Client.StdoutAppend` (concatenation), when it panics by `Client.StdoutPanicsIff`, and skipping by `Client.StdoutSkipsControl`.
