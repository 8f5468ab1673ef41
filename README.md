# pialive core in Dafny

pialive is a liveness agent. On a schedule it runs a shell command and
publishes the output, wrapped in a three-field JSON envelope, to every broker in
a comma-separated list. This project models the sequential core of `main.go`
and proves properties of it:

- **Topic.** The topic is the prefix plus the configured suffix. When the
  suffix is empty, the MAC address rule of `getMacAddr` supplies it.
- **Broker list.** `strings.Split` on `,` gives one task per entry.
- **Task.** Each broker task retries its connect until one attempt succeeds,
  sleeping the reconnect interval after each failure. Then it publishes once
  per cycle forever, sleeping the send interval after each cycle.
- **Payload.** The output field is the command's stdout with the error text
  appended (no delimiter). If configured, it is base64-encoded (section 4 of
  RFC 4648, Go's `StdEncoding`). It then goes into the envelope
  `{cmdOutput, command, ts}`.
- **Supervisor.** It launches the tasks in list order and pauses the startup
  interval after every launch.

Go strings are byte sequences, so every text here is `GoString = seq<byte>`.
I/O is replaced by inputs:

- the interface listing is an `Option<seq<Interface>>`, where `None` means
  `net.Interfaces()` failed;
- connect outcomes are a `seq<bool>`;
- each publish cycle is a `Cycle`: the command's stdout and error text, the
  timestamp text, and the publish outcome.

Executions are recorded as event traces (`ConnectFail`, `Connected`, `Sleep`,
`Publish`, `Launch`, `Pause`). The classes `Agent.Task` and `Agent.Supervisor`
record them imperatively. The module `Trace` gives them as functions, and the
lemmas are proved about those functions. The endless loops run over finite
inputs: a task makes at most one connect attempt per element of its attempt
sequence, up to the first success; once connected, it runs one publish cycle
per `Cycle`.

Modules: `GoTypes` (bytes, strings, Option), `Base64`, `Strings` (Split/Join),
`Net` (`getMacAddr`, `HardwareAddr.String`), `Configuration` (the `config`
struct, `byte(cfg.Qos)`), `Message` (output composition and envelope), `Trace`
(trace specifications and their lemmas) and `Agent` (topic, `Task`,
`Supervisor`).

Three points of the code shape the model:

- `json.Marshal`'s error is discarded at main.go:87, so every cycle publishes
  and the model has no skip path.
- `cmd.Output()` at main.go:104 returns stdout only, so the stdout bytes are
  what the model takes as the command's output.
- The default topic suffix comes from `getMacAddr` (main.go:107-118), which is
  modelled here.

## Model

| member | source | states |
|---|---|---|
| `Base64.Encode` | main.go:77-79 | an encoding has a multiple of 4 characters, and a non-empty input gives a non-empty text |
| `Base64.EncodeLength` | main.go:77-79 | the encoding of n bytes has 4·⌈n/3⌉ characters |
| `Base64.EncodeShape` | main.go:77-79 | an encoding is alphabet characters followed by exactly (3 − n mod 3) mod 3 `=` characters |
| `Base64.DecodeEncode` | main.go:77-79 | decoding the encoding of any byte sequence, the empty one included, returns exactly that sequence |
| `Base64.EncodeDecode` | main.go:77-79 | whatever the strict decoder accepts is the encoding of what it returns |
| `Base64.DecodeIffEncode` | main.go:77-79 | s decodes to b if and only if s is the encoding of b |
| `Base64.VectorEmpty` | main.go:78 | the empty input encodes to "" (section 10 of RFC 4648) |
| `Base64.VectorF` | main.go:78 | "f" encodes to "Zg==" (section 10 of RFC 4648) |
| `Base64.VectorFo` | main.go:78 | "fo" encodes to "Zm8=" (section 10 of RFC 4648) |
| `Base64.VectorFoo` | main.go:78 | "foo" encodes to "Zm9v" (section 10 of RFC 4648) |
| `Base64.VectorFoob` | main.go:78 | "foob" encodes to "Zm9vYg==" (section 10 of RFC 4648) |
| `Base64.VectorFooba` | main.go:78 | "fooba" encodes to "Zm9vYmE=" (section 10 of RFC 4648) |
| `Base64.VectorFoobar` | main.go:78 | "foobar" encodes to "Zm9vYmFy" (section 10 of RFC 4648) |
| `Base64.RejectsUnusedBits` | main.go:78 | the strict decoder refuses "Zh==", whose padding hides non-zero bits |
| `Base64.SextetOf` | main.go:78 | mapping an alphabet character to its 6-bit value and back gives the same character |
| `Strings.Split` | main.go:54 | splitting always gives at least one piece |
| `Strings.SplitNoComma` | main.go:54 | a string without a comma, the empty one included, is a single piece: itself |
| `Strings.SplitCount` | main.go:54 | splitting gives (number of commas + 1) pieces |
| `Strings.SplitPiecesCommaFree` | main.go:54 | no piece contains a comma |
| `Strings.JoinSplit` | main.go:54 | joining the pieces with commas gives back the original string, so nothing is dropped or reordered |
| `Strings.SplitJoin` | main.go:54-55 | splitting a comma-joined list of comma-free entries gives that exact list, with order, duplicates and empty entries kept |
| `Strings.SplitExample` | main.go:54 | ",a,,a" splits into "", "a", "", "a": empty entries and duplicates are kept |
| `Strings.SplitPiece` | main.go:54 | a comma-free piece followed by a comma is one entry, and the rest is split on its own |
| `Net.HardwareAddrString` | main.go:112 | the text of an n-byte address has 3n − 1 characters, and the empty address gives "" |
| `Net.HardwareAddrStringExample` | main.go:112 | the address 0x00, 0xab, 0x10 reads "00:ab:10" |
| `Net.HardwareAddrStringAt` | main.go:112 | byte i appears as two lower-case hex digits at positions 3i and 3i+1, with `:` after it unless it is the last byte |
| `Net.HardwareAddrStringInjective` | main.go:112 | different hardware addresses have different text forms |
| `Net.FirstEligible` | main.go:110-111 | gives the index of the first interface that is up and has a non-empty hardware address; every earlier one fails that test |
| `Net.MacAddr` | main.go:107-118 | definition of the selection rule; its properties are in `Net.MacAddrEmpty` and `Net.MacAddrFirstWins` |
| `Net.GetMacAddr` | main.go:107-118 | the loop returns exactly `MacAddr` of the listing: "" when the listing failed or no interface qualifies, otherwise the text of the first qualifying interface's address |
| `Net.MacAddrEmpty` | main.go:107-118 | the address is "" exactly when the listing failed or no interface is up with a non-empty hardware address |
| `Net.MacAddrFirstWins` | main.go:110-115 | interfaces after the first qualifying one, qualifying or not, do not change the result |
| `Agent.Topic` | main.go:44-48 | definition of the topic rule; its properties are in `Agent.TopicIgnoresInterfaces` and `Agent.TopicFallback` |
| `Agent.TopicIgnoresInterfaces` | main.go:44-48 | with a non-empty suffix, the topic is prefix + suffix for every interface listing |
| `Agent.TopicFallback` | main.go:44-48 | with an empty suffix, the topic equals the bare prefix exactly when no MAC address was found |
| `Configuration.Defaults` | main.go:19-30 | definition: the struct-tag defaults of the `config` struct |
| `Configuration.QosByteWraps` | main.go:88 | `byte(-1)` is 255 |
| `Configuration.QosByte` | main.go:88 | `byte(cfg.Qos)` is the QoS itself for 0..255 and agrees with it modulo 256 for any value |
| `Message.RawOutput` | main.go:70-75 | definition of the output before encoding; its properties are in `Message.RawOutputSplits` and `Message.BoomScenario` |
| `Message.EncodeOutput` | main.go:77-79 | definition of the optional encoding; its properties are in `Message.EncodedOutput` |
| `Message.BuildEnvelope` | main.go:81-85 | definition of one cycle's envelope; its properties are in `Message.EnvelopeFields` and `Message.EchoScenario` |
| `Message.EncodedOutput` | main.go:77-79 | with the flag off the output is unchanged; with it on, the result decodes to the raw output, has length 4·⌈n/3⌉ and has the padded shape |
| `Message.Members` | main.go:32-36 | the envelope has exactly the three distinct keys `cmdOutput`, `command` and `ts`, each holding its field |
| `Message.RawOutputSplits` | main.go:70-75 | stdout is a prefix of the output field; the error text, when there is one, is everything after it |
| `Message.EnvelopeFields` | main.go:70-85 | `command` is the configured command verbatim and `ts` the given timestamp. `cmdOutput` is the raw output when encoding is off, and decodes to it when encoding is on |
| `Message.BoomScenario` | main.go:72-75 | an empty stdout with error "boom" and encoding off gives the output field "boom" |
| `Message.EchoScenario` | main.go:70-85 | `echo hi` with encoding off gives the envelope {"hi\n", "echo hi", ts} |
| `Trace.ConnectPhase` | main.go:60-68 | definition of the connect loop's events; its properties are in `Trace.ConnectPhaseShape` and `Trace.RetryWithoutCap` |
| `Trace.PublishCycle` | main.go:86-93 | definition of one cycle's Publish and Sleep; its properties are in `Trace.PublishPhaseShape` |
| `Trace.PublishPhase` | main.go:69-94 | definition of the publish loop's events; its properties are in `Trace.PublishPhaseShape` and `Trace.PublishOutcomeIgnored` |
| `Trace.TaskTrace` | main.go:57-95 | definition of a task's events; its properties are in `Trace.NoPublishBeforeConnected` and `Trace.ConnectFailThenRetry` |
| `Trace.LaunchPhase` | main.go:55-97 | definition of the launch loop's events; its properties are in `Trace.LaunchPhaseShape` |
| `Trace.FailuresBefore` | main.go:60-68 | gives the number of failed connect attempts before the first success: all of them fail and the next one, if any, succeeds |
| `Trace.ConnectPhaseShape` | main.go:60-68 | the connect phase is one (ConnectFail, Sleep(reconnect)) pair per failure, then Connected if an attempt succeeded |
| `Trace.RetryWithoutCap` | main.go:60-68 | for any number n of failures, a later success still connects, right after exactly n ConnectFail/Sleep pairs |
| `Trace.ConnectFailThenRetry` | main.go:60-64 | in a task trace every ConnectFail is followed by Sleep(reconnect), and then by another connect attempt if the trace goes on |
| `Trace.NoPublishBeforeConnected` | main.go:60-70 | every Publish comes after the Connected event of the first successful attempt, and never happens without one |
| `Trace.PublishPhaseShape` | main.go:69-94 | each cycle gives exactly one Publish (fixed topic, `byte(cfg.Qos)`, retained flag, that cycle's envelope) followed by Sleep(send interval) |
| `Trace.PublishOutcomeIgnored` | main.go:88-93 | publish outcomes do not change the trace: a failed publish is followed by the next cycle as usual |
| `Trace.LaunchPhaseShape` | main.go:55-97 | the supervisor's trace is Launch(entry i), Pause(startup) for every entry in order, the last entry included |
| `Agent.LaunchesMatchEntries` | main.go:54-97 | for the configured broker string: (commas + 1) launches and as many pauses, interleaved, in list order |
| `Agent.Task.constructor` | main.go:57-59 | a new task is idle and has an empty trace |
| `Agent.Task.ConnectWithRetry` | main.go:60-68 | the trace becomes the connect phase for the attempts; the state is Online if some attempt succeeded, otherwise Connecting (still retrying) |
| `Agent.Task.PublishOnce` | main.go:70-93 | computing the output step by step gives `Message.BuildEnvelope` of the cycle's result; one Publish and one Sleep are appended |
| `Agent.Task.PublishCycles` | main.go:69-94 | the trace grows by the publish phase of the cycles, and the task stays Online |
| `Agent.Task.Run` | main.go:57-95 | the task stays valid, its trace is `Trace.TaskTrace` of its inputs, and it ends Online exactly when some attempt succeeded (otherwise still Connecting) |
| `Agent.Supervisor.LaunchAll` | main.go:55-97 | the loop creates one new, distinct, idle task per entry, in order, and records Launch then Pause for each, so its events are the launch phase |
| `Agent.Supervisor.Start` | main.go:44-97 | sets the topic from the topic rule and the broker list from Split; launches one new, distinct, idle task per entry, in order, with the shared configuration, client id and topic; the trace is the launch phase |
| `Agent.Supervisor.RunTask` | main.go:57-95 | task i stays valid, its trace is `Trace.TaskTrace` of its inputs and it ends Online exactly when some attempt succeeded; every other task is unchanged |

## Left out

- MQTT client (paho `Connect`, `Publish`, tokens, auto-reconnect): a foreign library and network I/O. Connect and publish results are input values. Once a session is connected, the model treats it as connected for good, as the transport's auto-reconnect does.
- Per-iteration `broker` variable: each task is given its own broker entry (`Agent.LaunchedFor`), which is Go's behaviour from Go 1.22 on, where each iteration of the `range` loop at main.go:55 has its own variable. main.go alone does not show which semantics applies. It is set by the `go` version in the module's go.mod: from 1.22 on, each iteration has its own variable; before 1.22, all iterations share one. Under a go.mod language version before 1.22 all closures share one `broker`, so the goroutine started at main.go:57 reads it at main.go:58 (and at main.go:62 and 65) whenever it runs; with a short or zero startup pause, several tasks can connect to a later entry and an earlier broker gets no session. The model does not capture that shared-variable behaviour.
- Goroutines and the blocking receive at main.go:98-99: concurrency and process lifetime. Each task's trace is built independently and sequentially. `Agent.Supervisor.RunTask` shows that running one task touches no other.
- The endless loops: a task makes at most one connect attempt per element of its attempt sequence, up to the first success; once connected, it runs one publish cycle per `Cycle`. A task whose attempts all fail ends its trace while still retrying (state Connecting).
- `runCmd` (`bash -c` via `exec.Command`) and `net.Interfaces()`: OS I/O. Their results are input values.
- `envconfig.Process`, `uuid.New()` and `time.Now().String()`: environment parsing, randomness and the clock. The configuration is a record, and the client id and timestamp are opaque strings. `Configuration.Defaults` records the struct-tag defaults.
- `encoding/json` escaping and formatting: library-internal. The envelope is a record, and `Message.Members` gives its keys and values in struct order without escaping. `json.Marshal` also replaces invalid UTF-8 bytes with U+FFFD, so with encoding off the `cmdOutput` text on the wire can differ from the raw bytes `Message.EnvelopeFields` states for the record; with encoding on the field is pure ASCII and is not affected.
- `time.Sleep` and `time.Duration` arithmetic: Sleep and Pause events carry the configured integer seconds. The overflow of `seconds * time.Second` in int64 is not modelled.
- Logging. The failed-connect and failed-publish log lines leave no trace event.
- `Base64.Decode` is a strict, canonical decoder, written as the partner of `Base64.Encode`. The source never decodes. Go's `StdEncoding.DecodeString` also accepts non-zero padding bits, which this decoder rejects.
