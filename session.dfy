/** One host's session (Host.run, client.go:103-159): connect, open a
    session, take the remote stdin, start the input delivery, request a
    pseudo-terminal, publish the stdin writer to the fan-in, run the command.
    The SSH library calls are abstracted into an `Outcome` per host. */
module Session {
  import opened Wrappers
  import opened Pipes

  /** client.go:103-108; a missing password is Go's nil *string. */
  datatype Host = Host(name: string, port: string, user: string, password: Option<string>)

  /** client.go:54-58; `error == None` is Go's nil error. The Host pointer
      is modelled by the host value it points at. */
  datatype Result = Result(output: string, error: Option<string>, host: Host)

  /** How far the SSH library lets one host get: the first call that
      fails, with the text of its error, or the command's captured standard
      output and the error `session.Run` returned. */
  datatype Outcome =
    | DialFails(cause: string)
    | SessionFails(cause: string)
    | StdinPipeFails(cause: string)
    | PtyFails(cause: string)
    | Ran(stdout: string, runError: Option<string>)
  {
    /** The host failed before it obtained a stdin pipe. */
    predicate SetupFailure() {
      DialFails? || SessionFails? || StdinPipeFails?
    }
  }

  /** The prefix client.go puts before the library's error text, one per
      failing step (client.go:117, 125, 132, 147). */
  function ErrorPrefix(o: Outcome): (r: string)
    requires !o.Ran?
    ensures |r| >= 2 && r[|r| - 2..] == ": "
  {
    match o
    case DialFails(_) => "Unable to connect: "
    case SessionFails(_) => "Unable to get ssh session: "
    case StdinPipeFails(_) => "Unable to get stdin: "
    case PtyFails(_) => "failed to request pty: "
  }

  /** The prefix tells which step failed: two failures share a prefix
      exactly when they fail at the same step. */
  lemma ErrorPrefixNamesStep(a: Outcome, b: Outcome)
    requires !a.Ran? && !b.Ran?
    ensures ErrorPrefix(a) == ErrorPrefix(b) <==>
              a.DialFails? == b.DialFails? && a.SessionFails? == b.SessionFails? && a.StdinPipeFails? == b.StdinPipeFails?
  {
  }

  /** The Result a host returns for a given outcome. */
  function ResultOf(host: Host, o: Outcome): (r: Result)
    ensures r.host == host
    ensures o.Ran? ==> r.output == o.stdout && r.error == o.runError
    ensures !o.Ran? ==> r.output == "" && r.error == Some(ErrorPrefix(o) + o.cause)
  {
    if o.Ran? then Result(o.stdout, o.runError, host)
    else Result("", Some(ErrorPrefix(o) + o.cause), host)
  }

  /** What a host sends on the stdin rendezvous channel, in order: `null`
      is Go's nil, `pipe` is the stdin pipe the session handed out. */
  function Publications(o: Outcome, pipe: Pipe?): (r: seq<Pipe?>)
    ensures |r| <= 1
    ensures forall p :: p in r && p != null ==> p == pipe && o.Ran?
  {
    if o.SetupFailure() then [null]
    else if o.PtyFails? then []
    else [pipe]
  }

  /** Host.run, step by step: `published` is what it sends on the
      rendezvous channel, `pipe` the stdin pipe it opened (null when it got
      none), `result` what it returns. The input delivery of
      client.go:135-138 runs in its own goroutine in the source; here it is
      done at the point it is started. */
  method RunHost(host: Host, cmdStdin: seq<byte>, outcome: Outcome)
    returns (published: seq<Pipe?>, result: Result, pipe: Pipe?)
    ensures pipe == null <==> outcome.SetupFailure()
    ensures pipe != null ==> fresh(pipe) && pipe.written == cmdStdin + [EOF_CODE]
    ensures published == Publications(outcome, pipe)
    ensures result == ResultOf(host, outcome)
  {
    published, pipe := [], null;
    result := Result("", None, host);
    if outcome.DialFails? {
      published := published + [null];
      result := result.(error := Some("Unable to connect: " + outcome.cause));
      return;
    }
    if outcome.SessionFails? {
      published := published + [null];
      result := result.(error := Some("Unable to get ssh session: " + outcome.cause));
      return;
    }
    if outcome.StdinPipeFails? {
      published := published + [null];
      result := result.(error := Some("Unable to get stdin: " + outcome.cause));
      return;
    }
    var p := new Pipe();
    DeliverStdin(p, cmdStdin);
    pipe := p;
    if outcome.PtyFails? {
      result := result.(error := Some("failed to request pty: " + outcome.cause));
      return;
    }
    published := published + [pipe];
    result := result.(error := outcome.runError);
    result := result.(output := outcome.stdout);
  }

  /** A connect, session or stdin-pipe failure publishes nil exactly once
      and returns an error Result with empty output for this host. */
  lemma SetupFailureProtocol(host: Host, o: Outcome, pipe: Pipe?)
    requires o.SetupFailure()
    ensures Publications(o, pipe) == [null]
    ensures ResultOf(host, o).error.Some?
    ensures ResultOf(host, o).output == ""
    ensures ResultOf(host, o).host == host
  {
  }

  /** A pseudo-terminal failure returns an error Result and publishes
      nothing at all: the fan-in is left one publication short. */
  lemma PtyFailureProtocol(host: Host, o: Outcome, pipe: Pipe?)
    requires o.PtyFails?
    ensures Publications(o, pipe) == []
    ensures ResultOf(host, o) == Result("", Some("failed to request pty: " + o.cause), host)
  {
  }

  /** A host that ran its command publishes its pipe exactly once, and its
      Result carries the captured output and the run's error unchanged. */
  lemma SuccessProtocol(host: Host, o: Outcome, pipe: Pipe?)
    requires o.Ran?
    ensures Publications(o, pipe) == [pipe]
    ensures ResultOf(host, o) == Result(o.stdout, o.runError, host)
  {
  }

  /** Every host publishes at most once, and exactly once unless its
      pseudo-terminal request fails; a non-nil publication happens only
      when the host reached the point of running its command. */
  lemma PublishesAtMostOnce(o: Outcome, pipe: Pipe?)
    ensures |Publications(o, pipe)| == if o.PtyFails? then 0 else 1
    ensures (exists p :: p in Publications(o, pipe) && p != null) <==> o.Ran? && pipe != null
  {
    if o.Ran? && pipe != null {
      assert pipe in Publications(o, pipe);
    }
  }
}
