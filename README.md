# clusterssh, modelled in Dafny

clusterssh runs one command on many SSH hosts at once. It passes the same
standard input to every host and collects one Result per host. An
interrupt sends a Ctrl-C byte to every remote command and then allows a
five-second grace period. This project models the sequential logic around
that fan-out and proves what the code promises about it:

- `Session` is one host's session step by step (`Host.run`). Each SSH
  library call is abstracted into an `Outcome`: which step fails, or what
  the command printed and returned. The module fixes what the host
  publishes on the stdin rendezvous channel and which Result it returns.
- `Pipes` is a remote stdin writer as the bytes written to it. It holds
  the two control bytes (`CTRL_C_CODE` 0x03, `EOF_CODE` 0x04) and the
  initial input delivery.
- `Engine` is `Cluster.Run`. The launch loop runs every host. The fan-in
  receives one publication per host and keeps the non-nil writers. The
  `Command` handle carries the Results and the registered writers, and
  `SendStopSignal` writes through it.
- `HostSpec` is `ParseHost`, with `url.Parse`, `net.SplitHostPort` and
  `$USER` as inputs (an `Environment`).
- `Cli` is `parseArgs`.
- `Orchestration` is main's `for`/`select` loop. It is a state machine
  with the number of running hosts, a done flag, the number of started
  grace timers and the number of stop signals sent. A pure step function
  `Next` and its iteration `Drain` specify the `Orchestrator` class, whose
  `Step` and `Drive` methods change the loop's state and send the stop
  signals.
- `Program` is `main` put together.

Concurrency becomes explicit input. Every goroutine's session is an
`Outcome`, and the hosts run one after the other in host order, so the
rendezvous channel delivers their publications in that order (`FanIn`
itself takes any sequence of arrivals). The loop's select is driven by a
sequence of `Event`s. `Feasible` says which event sequences can really
happen: a Result only while one is outstanding, a timeout only after a
timer was started.

In two places the code does something other than what it evidently
intends; the model follows the code:

- `ParseHost` never takes a port from the host spec. The guard at
  client.go:180 holds whether or not the split succeeds, so the name is
  always the whole authority and the port always "22" (see Findings).
- A host whose pseudo-terminal request fails publishes nothing on the
  rendezvous channel. The fan-in then waits for ever for a publication
  that never comes, so `Run` does not return (see Findings). `Engine.Run`
  reports this as `complete == false`, and `Program.ClusterSsh` reports it
  as `BlockedInRun`.

With zero hosts the running-host counter starts at 0, but the loop checks
it only after a Result. The loop therefore waits for an event rather than
returning at once (`ZeroHostsWaitForEvent`).

The main model follows the code as written in both findings. The corrected
definitions and their properties are separate members beside it.

## Model

| member | source | states |
|---|---|---|
| Pipes.Pipe.Write | client.go:136 | a write appends exactly the given bytes to the writer |
| Pipes.DeliverStdin | client.go:135-138 | the writer receives the caller's input followed by exactly one EOF_CODE (0x04) byte |
| Session.ErrorPrefix | client.go:117-147 | every failing step puts its own prefix, ending in ": ", before the library's error text (client.go:117, 125, 132, 147) |
| Session.ErrorPrefixNamesStep | client.go:117-147 | two failures get the same prefix exactly when they fail at the same step |
| Session.ResultOf | client.go:111-156 | the Result per outcome: it always names the host; a run keeps the captured stdout and the run's error; any earlier failure leaves the output empty and gives the step's prefix followed by the cause |
| Session.Publications | client.go:116-151 | what a host sends on the stdin channel (client.go:116, 124, 131, 151): at most one publication, and a non-nil one only for a run, carrying the host's own pipe |
| Session.RunHost | client.go:110-159 | step by step, the returned Result is the one the outcome dictates. A stdin pipe exists iff the host got past the stdin-pipe step, and it holds the input plus EOF. The publications are nil for a setup failure, nothing for a PTY failure and the pipe for a run |
| Session.SetupFailureProtocol | client.go:112-134 | a connect, session or stdin-pipe failure publishes nil exactly once and returns a Result with an error, empty output and the host itself |
| Session.PtyFailureProtocol | client.go:146-149 | a PTY failure publishes nothing and returns "failed to request pty: " plus the cause, with empty output |
| Session.SuccessProtocol | client.go:151-156 | on success the pipe is published exactly once, and the Result carries the captured stdout and the run's error unchanged |
| Session.PublishesAtMostOnce | client.go:110-159 | every host publishes exactly once, except on a PTY failure, when it publishes nothing; a non-nil publication happens iff the host ran its command |
| Engine.NonNil | client.go:94-96 | the kept writers are no more than the publications; every kept writer is a publication, and every non-nil publication is kept |
| Engine.NonNilAppend | client.go:90-98 | keeping the non-nil publications distributes over concatenation, so the result is the in-order subsequence |
| Engine.NonNilDistinct | client.go:90-98 | distinct non-nil publications register distinct writers |
| Engine.FanIn | client.go:90-98 | the loop performs min(host count, arrivals) receives; the registered writers are exactly the non-nil arrivals among them, in order; at most one writer per host |
| Engine.Arrivals | client.go:77-88 | defines what reaches the stdin channel: the hosts' publications, host after host. Its properties are the Arrivals lemmas below |
| Engine.NonNilPublications | client.go:94-96 | one host contributes its pipe to the registered writers if it ran its command, and nothing otherwise |
| Engine.ArrivalsLength | client.go:77-98 | the rendezvous receives one publication per host minus one per PTY failure |
| Engine.ArrivalsWriters | client.go:90-98 | the non-nil publications are exactly the pipes of the hosts that ran their command, in host order |
| Engine.ArrivalsDistinct | client.go:77-98 | distinct pipes give distinct publications, each one a host's pipe |
| Engine.Launch | client.go:77-88 | every host's Result is the one its outcome dictates; every pipe is new and holds input plus EOF; the arrivals are the hosts' publications in host order |
| Engine.Run | client.go:71-101 | Run returns iff no PTY request fails. It then registers exactly the pipes of the hosts that ran, and at most one writer per host. It keeps every host's Result, and each pipe received the input plus EOF |
| Engine.Command.constructor | client.go:100 | the handle holds the given Results and writers, and a handle built from distinct writers is valid |
| Engine.Command.SendStopSignal | client.go:65-69 | each registered writer receives exactly one CTRL_C_CODE (0x03) byte; every other writer is unchanged; the Results are constant |
| Engine.IntendedFanInCompletes | client.go:146-151 | with one publication per host, the fan-in receives all of them, and the registered writers are the pipes of the hosts that ran |
| Engine.PtyFailureStallsFanIn | client.go:146-149 | as written, a single host with a PTY failure publishes nothing, so the fan-in's one receive gets nothing |
| HostSpec.ParseHost | client.go:161-188 | fails iff url.Parse fails, with its error; the user is the userinfo's username verbatim, else $USER, else "root"; the password is the userinfo's; the name is the whole authority and the port "22" |
| HostSpec.PasswordIffGiven | client.go:167-172 | the password is set iff the userinfo carries one |
| HostSpec.UserNonEmptyByDefault | client.go:173-177 | without userinfo the user is never empty |
| HostSpec.SplitIgnored | client.go:179-186 | what net.SplitHostPort returns never changes the parsed host |
| HostSpec.ParseHostIntended | client.go:179-186 | as ParseHost, except that a successful split with a name gives that name and port |
| HostSpec.ExplicitPortDropped | client.go:179-186 | when the split succeeds with a name and a port other than 22, ParseHost loses the port and differs from the intended reading |
| HostSpec.IntendedAgreesUnlessPortGiven | client.go:179-186 | the two readings agree iff the split fails, finds no name, or finds the authority itself with port 22 |
| HostSpec.WebPortExample | client.go:180 | "web:2222" gives name "web:2222" and port 22 as written, and "web" with 2222 as intended |
| Cli.ParseArgs | cmd/clusterssh/main.go:20-34 | fails iff there are fewer than two arguments (USAGE message) or some host spec fails, and then names the first such spec; otherwise cmd is args[1] and host i is the parse of args[i+2], zero hosts included |
| Orchestration.Initial | cmd/clusterssh/main.go:44-45 | the loop starts not done, with no stop signal sent; no timeout can arrive first, and a Result can arrive iff there is a host |
| Orchestration.Next | cmd/clusterssh/main.go:59-75 | one pass of the select: main returns iff the event is a timeout, or a Result with at most one host still running. The counter never grows, and stop signals and timers grow together |
| Orchestration.CanArrive | cmd/clusterssh/main.go:45-73 | an assumption about the environment, not code: a Result can arrive only while one is outstanding (main.go:60), and a timeout only after a timer was started (main.go:45, 69-73); a signal can always arrive |
| Orchestration.Feasible | cmd/clusterssh/main.go:58-76 | an assumption about the environment, not code: every event the loop takes could arrive when it is taken |
| Orchestration.Drain | cmd/clusterssh/main.go:58-76 | the loop takes at most all events; it stops early only when it has returned; it takes none iff it has already returned or there are none |
| Orchestration.ResultRule | cmd/clusterssh/main.go:60-65 | a Result decrements the counter by exactly one, and the loop returns after it iff the counter is then at most 0 |
| Orchestration.SignalRule | cmd/clusterssh/main.go:66-72 | a signal leaves the counter, sends one stop signal, starts one more timer and never ends the loop |
| Orchestration.TimeoutRule | cmd/clusterssh/main.go:73-74 | a timeout ends the loop whatever the counter says |
| Orchestration.StopsOnlyOnResultOrTimeout | cmd/clusterssh/main.go:58-76 | the loop returns only on a Result that brings the counter to at most 0, or on a timeout, and never on a signal |
| Orchestration.StillRunningBeforeStop | cmd/clusterssh/main.go:58-76 | the loop has not returned after any event earlier than the last one it takes, so it returns on the first event that ends it |
| Orchestration.DrainCounts | cmd/clusterssh/main.go:58-76 | after the loop, the counter has dropped by one per Result taken, and stop signals and timers have grown by one per signal taken |
| Orchestration.WithoutSignalsOnlyResultsEnd | cmd/clusterssh/main.go:44-74 | without a signal no timeout can arrive; the loop takes only Results and returns iff there is a host and a Result arrives for each one, and then the counter is 0 |
| Orchestration.ZeroCounterEndsByTimeout | cmd/clusterssh/main.go:66-74 | once the counter is at most 0, only a timeout can end the loop |
| Orchestration.IdleLoopEndsOnlyByTimeout | cmd/clusterssh/main.go:44-76 | with no host running, the loop ends only on a timeout, preceded by at least one signal |
| Orchestration.ZeroHostsWaitForEvent | cmd/clusterssh/main.go:44-76 | with zero hosts the loop does not return before an event, and it returns on the first event iff that event is not a signal |
| Orchestration.Orchestrator.constructor | cmd/clusterssh/main.go:44-45 | the loop starts with one running host per host, no timer and no signal |
| Orchestration.Orchestrator.Step | cmd/clusterssh/main.go:59-75 | one pass changes the state as `Next` says; every registered writer receives one CTRL_C_CODE iff the event is a signal |
| Orchestration.Orchestrator.Drive | cmd/clusterssh/main.go:58-76 | the loop ends where `Drain` says; every writer receives one CTRL_C_CODE per stop signal sent and nothing else |
| Program.ClusterSsh | cmd/clusterssh/main.go:36-77 | main exits with an argument error iff parseArgs fails; it blocks in Run iff some PTY request fails; otherwise the loop's final state is the one `Drain` gives from one running host per host, and main returns iff that state is done |

## Left out

- The SSH transport (dial, handshake, sessions, PTY negotiation, `session.Run`) belongs to a foreign library. It is abstracted into one `Outcome` per host.
- `createKeyring` and `makeSigner` (client.go:20-48) read key files and parse private keys, which is I/O and library work. The `auth` slice and the `ssh.ClientConfig` assembled from it (client.go:72, 79-85) are left out with them. The append to the shared slice from several goroutines is a data race with no sequential meaning.
- Goroutine scheduling is left out: publications arrive in host order, while the source allows any order. So are the result channel's capacity of 100 (client.go:73) and the unbuffered rendezvous. `FanIn` accepts any arrival sequence.
- The input writes of client.go:135-138 and the stop-signal writes of client.go:67 run in their own goroutines in the source. They are done synchronously here, so their interleaving with other writes is not modelled.
- `defer session.Close()` at client.go:122 is registered before the error check, and the call runs when `run` returns. When `NewSession` fails, the deferred `Close` receives a nil session. If the library dereferences it, the goroutine panics after `stdins <- nil`; nothing recovers the panic, so the whole program exits, possibly while `Run`'s fan-in is still waiting. That library behaviour is not shown, so the model gives the Result the code builds.
- cmd/clusterssh/main.go:25 and main.go:44 use `clusterssh.Cluster` as a slice of hosts (`make(Cluster, n)`, `len(options.hosts)`), while client.go:50-52 declares it as a struct with a `Hosts` field. The files shown therefore do not compile together. The model uses `seq<Host>` for the host list in both places.
- The command string only reaches `session.Run`, so it is not modelled beyond `Options.cmd`. Remote output is part of the `Outcome`.
- `url.Parse` and `net.SplitHostPort` are inputs. The only assumption about the split is that a failure returns an empty name and port.
- The terminal check and the stdin read (cmd/clusterssh/main.go:51-54) are I/O; the bytes read are an input. The code reads stdin when stdin is a terminal, the opposite of what piping input suggests.
- `signal.Notify`, `time.Sleep`, `fmt` printing of each Result and of the "terminating..." line, `os.Exit`, and `SetLogger`/`DefaultLogger` (not defined in the files shown) are left out. A timer's expiry is a `TimeoutFired` event.
- The Results Run sends on its channel are the handle's `results`, in host order. The loop's `ResultReceived` event is counted but not tied to a particular Result.

## Findings

| source | as written | input that shows it | evidently intended | confidence | as-written member | corrected member |
|---|---|---|---|---|---|---|
| client.go:146-149 | a failed PTY request returns without publishing anything on the stdin rendezvous channel | one host whose PTY request fails: the fan-in's single receive never completes, so Run never returns and the program hangs | every host publishes exactly once; a host that does not reach the run publishes nil | high; not executed | Engine.PtyFailureStallsFanIn | Engine.IntendedFanInCompletes |
| client.go:180 | the guard "err is nil, or name is empty" sends a successful split to Name = whole authority, Port = "22" | host spec "web:2222": name "web:2222", port 22, and the dial address becomes "[web:2222]:22" | keep the whole authority and port 22 only when the split fails (the guard "err is not nil, or name is empty") | high; not executed | HostSpec.WebPortExample | HostSpec.ParseHostIntended |
