/** The execution engine (Cluster.Run and Command, client.go:50-101): one
    session per host, a rendezvous on which every host publishes its stdin
    writer (or nil), and the handle through which an interrupt byte reaches
    every registered writer.

    The goroutines of client.go:77-88 are run one after the other in host
    order, so the rendezvous channel delivers the hosts' publications in
    that order; `FanIn` itself accepts any arrival order. */
module Engine {
  import opened Pipes
  import opened Session

  /** The non-nil entries of `ps`, in their order. */
  function NonNil(ps: seq<Pipe?>): (r: seq<Pipe>)
    ensures |r| <= |ps|
    ensures forall p :: p in r ==> p in ps
    ensures forall p :: p in ps && p != null ==> p in r
  {
    if ps == [] then []
    else
      var last := ps[|ps| - 1];
      if last == null then NonNil(ps[..|ps| - 1]) else NonNil(ps[..|ps| - 1]) + [last]
  }

  lemma {:induction false} NonNilAppend(a: seq<Pipe?>, b: seq<Pipe?>)
    ensures NonNil(a + b) == NonNil(a) + NonNil(b)
    decreases |b|
  {
    if b == [] {
      assert a + b == a;
    } else {
      var b' := b[..|b| - 1];
      assert (a + b)[..|a + b| - 1] == a + b';
      NonNilAppend(a, b');
    }
  }

  /** No writer is registered twice. */
  predicate Distinct(ps: seq<Pipe>) {
    forall i, j :: 0 <= i < j < |ps| ==> ps[i] != ps[j]
  }

  /** No non-nil writer is published twice. */
  predicate DistinctNonNil(ps: seq<Pipe?>) {
    forall i, j :: 0 <= i < j < |ps| && ps[i] != null ==> ps[i] != ps[j]
  }

  lemma {:induction false} NonNilDistinct(ps: seq<Pipe?>)
    requires DistinctNonNil(ps)
    ensures Distinct(NonNil(ps))
  {
    if ps != [] {
      var init := ps[..|ps| - 1];
      assert DistinctNonNil(init);
      NonNilDistinct(init);
      var last := ps[|ps| - 1];
      if last != null {
        forall p | p in NonNil(init) ensures p != last {
          var i :| 0 <= i < |init| && init[i] == p;
          assert ps[i] == p;
        }
        var r := NonNil(init);
        assert NonNil(ps) == r + [last];
        forall i, j | 0 <= i < j < |r| + 1 ensures (r + [last])[i] != (r + [last])[j] {
          if j == |r| {
            assert (r + [last])[i] in r;
          }
        }
      }
    }
  }

  function Min(a: nat, b: nat): (r: nat) {
    if a <= b then a else b
  }

  /** The receive loop of client.go:90-98: one receive per host, keeping the
      non-nil writers. When the arrivals run out before `hostCount`
      receives, the next receive blocks for ever; the loop then stops, and
      `received < hostCount` says that Run never returns. */
  method FanIn(hostCount: nat, arrivals: seq<Pipe?>) returns (stdins: seq<Pipe>, received: nat)
    ensures received == Min(hostCount, |arrivals|)
    ensures stdins == NonNil(arrivals[..received])
    ensures |stdins| <= received <= hostCount
  {
    stdins, received := [], 0;
    while received < hostCount && received < |arrivals|
      invariant received <= hostCount && received <= |arrivals|
      invariant stdins == NonNil(arrivals[..received])
    {
      var stdin := arrivals[received];
      assert arrivals[..received + 1][..received] == arrivals[..received];
      if stdin != null {
        stdins := stdins + [stdin];
      }
      received := received + 1;
    }
  }

  /** Everything the first |ps| hosts publish, host after host; `ps[i]`
      is host i's stdin pipe. */
  function Arrivals(os: seq<Outcome>, ps: seq<Pipe?>): (r: seq<Pipe?>)
    requires |ps| <= |os|
  {
    if ps == [] then []
    else Arrivals(os, ps[..|ps| - 1]) + Publications(os[|ps| - 1], ps[|ps| - 1])
  }

  /** The stdin pipes of those of the first |ps| hosts that reached the
      point of running their command, in host order. */
  function Ready(os: seq<Outcome>, ps: seq<Pipe?>): (r: seq<Pipe>)
    requires |ps| <= |os|
  {
    if ps == [] then []
    else
      var last := ps[|ps| - 1];
      var rest := Ready(os, ps[..|ps| - 1]);
      if os[|ps| - 1].Ran? && last != null then rest + [last] else rest
  }

  /** The number of hosts whose pseudo-terminal request fails. */
  function PtyFailures(os: seq<Outcome>): (r: nat) {
    if os == [] then 0
    else PtyFailures(os[..|os| - 1]) + (if os[|os| - 1].PtyFails? then 1 else 0)
  }

  /** Each PTY failure leaves the rendezvous one publication short. */
  lemma {:induction false} ArrivalsLength(os: seq<Outcome>, ps: seq<Pipe?>)
    requires |ps| <= |os|
    ensures |Arrivals(os, ps)| == |ps| - PtyFailures(os[..|ps|])
    ensures PtyFailures(os[..|ps|]) <= |ps|
  {
    if ps != [] {
      var n := |ps|;
      ArrivalsLength(os, ps[..n - 1]);
      assert os[..n][..n - 1] == os[..n - 1];
    }
  }

  /** What one host contributes to the registered writers: its pipe if it
      ran its command, nothing otherwise. */
  lemma NonNilPublications(o: Outcome, pipe: Pipe?)
    requires pipe == null <==> o.SetupFailure()
    ensures NonNil(Publications(o, pipe)) == if o.Ran? then [pipe as Pipe] else []
  {
    if o.SetupFailure() {
      assert NonNil([null]) == NonNil([]);
    } else if o.Ran? {
      assert NonNil([pipe]) == NonNil([]) + [pipe as Pipe];
    }
  }

  /** The non-nil publications are exactly the pipes of the hosts that
      reached the point of running their command, in order. */
  lemma {:induction false} ArrivalsWriters(os: seq<Outcome>, ps: seq<Pipe?>)
    requires |ps| <= |os|
    requires forall i :: 0 <= i < |ps| ==> (ps[i] == null <==> os[i].SetupFailure())
    ensures NonNil(Arrivals(os, ps)) == Ready(os, ps)
  {
    if ps != [] {
      var n := |ps|;
      var ps' := ps[..n - 1];
      assert forall i :: 0 <= i < |ps'| ==> ps'[i] == ps[i];
      ArrivalsWriters(os, ps');
      NonNilAppend(Arrivals(os, ps'), Publications(os[n - 1], ps[n - 1]));
      NonNilPublications(os[n - 1], ps[n - 1]);
    }
  }

  /** The handle Run returns (client.go:60-63): the Results the hosts send
      to the result channel, one per host in host order, and the stdin
      writers registered by the fan-in. Neither changes after Run. */
  class Command {
    const results: seq<Result>
    const stdins: seq<Pipe>

    predicate Valid() {
      Distinct(stdins)
    }

    constructor (results: seq<Result>, stdins: seq<Pipe>)
      requires Distinct(stdins)
      ensures this.results == results && this.stdins == stdins
      ensures Valid()
    {
      this.results := results;
      this.stdins := stdins;
    }

    /** client.go:65-69: one CTRL_C_CODE byte to each registered writer.
        The source starts one goroutine per write and does not wait; here
        the writes are done in order. */
    method SendStopSignal()
      requires Valid()
      modifies stdins
      ensures forall i :: 0 <= i < |stdins| ==> stdins[i].written == old(stdins[i].written) + [CTRL_C_CODE]
      ensures forall p: Pipe :: old(allocated(p)) && p !in stdins ==> p.written == old(p.written)
    {
      for i := 0 to |stdins|
        invariant forall k :: 0 <= k < i ==> stdins[k].written == old(stdins[k].written) + [CTRL_C_CODE]
        invariant forall k :: i <= k < |stdins| ==> stdins[k].written == old(stdins[k].written)
      {
        stdins[i].Write([CTRL_C_CODE]);
      }
    }
  }

  /** Host i's stdin pipe, when it has one, holds the caller's input
      followed by one end-of-input marker. */
  ghost predicate Delivered(pipes: seq<Pipe?>, cmdStdin: seq<byte>)
    reads set k | 0 <= k < |pipes| && pipes[k] != null :: pipes[k]
  {
    forall k :: 0 <= k < |pipes| && pipes[k] != null ==> pipes[k].written == cmdStdin + [EOF_CODE]
  }

  /** The first |pipes| hosts have run: host k returned `results[k]`, and
      it holds a stdin pipe exactly when it got past the stdin-pipe step. */
  predicate Launched(hosts: seq<Host>, outcomes: seq<Outcome>, results: seq<Result>, pipes: seq<Pipe?>)
    requires |pipes| == |results| <= |hosts| == |outcomes|
  {
    forall k :: 0 <= k < |pipes| ==>
      results[k] == ResultOf(hosts[k], outcomes[k]) && (pipes[k] == null <==> outcomes[k].SetupFailure())
  }

  lemma LaunchStep(hosts: seq<Host>, outcomes: seq<Outcome>, results: seq<Result>, pipes: seq<Pipe?>,
                   result: Result, pipe: Pipe?)
    requires |pipes| == |results| < |hosts| == |outcomes|
    requires Launched(hosts, outcomes, results, pipes)
    requires result == ResultOf(hosts[|pipes|], outcomes[|pipes|])
    requires pipe == null <==> outcomes[|pipes|].SetupFailure()
    ensures Launched(hosts, outcomes, results + [result], pipes + [pipe])
  {
    var n := |pipes|;
    forall k | 0 <= k < n + 1
      ensures (results + [result])[k] == ResultOf(hosts[k], outcomes[k])
      ensures (pipes + [pipe])[k] == null <==> outcomes[k].SetupFailure()
    {
      if k < n {
        assert (results + [result])[k] == results[k];
        assert (pipes + [pipe])[k] == pipes[k];
      }
    }
  }

  lemma DistinctStep(pipes: seq<Pipe?>, pipe: Pipe?)
    requires DistinctNonNil(pipes)
    requires pipe != null ==> pipe !in pipes
    ensures DistinctNonNil(pipes + [pipe])
  {
  }

  /** The launch loop of client.go:77-88: every host runs its session and
      its Result goes to the result channel; `arrivals` is what reaches the
      stdin rendezvous, host after host. */
  method Launch(hosts: seq<Host>, cmdStdin: seq<byte>, outcomes: seq<Outcome>)
    returns (results: seq<Result>, arrivals: seq<Pipe?>, ghost pipes: seq<Pipe?>)
    requires |outcomes| == |hosts|
    ensures |results| == |hosts| && |pipes| == |hosts|
    ensures Launched(hosts, outcomes, results, pipes)
    ensures forall i :: 0 <= i < |hosts| && pipes[i] != null ==> fresh(pipes[i])
    ensures Delivered(pipes, cmdStdin)
    ensures arrivals == Arrivals(outcomes, pipes)
    ensures DistinctNonNil(pipes)
  {
    results, arrivals, pipes := [], [], [];
    for i := 0 to |hosts|
      invariant |results| == i && |pipes| == i
      invariant Launched(hosts, outcomes, results, pipes)
      invariant forall k :: 0 <= k < i && pipes[k] != null ==> fresh(pipes[k])
      invariant Delivered(pipes, cmdStdin)
      invariant arrivals == Arrivals(outcomes, pipes)
      invariant DistinctNonNil(pipes)
    {
      var published, result, pipe := RunHost(hosts[i], cmdStdin, outcomes[i]);
      assert pipe != null ==> pipe !in pipes;
      assert (pipes + [pipe])[..i] == pipes;
      assert Arrivals(outcomes, pipes + [pipe]) == Arrivals(outcomes, pipes) + published;
      LaunchStep(hosts, outcomes, results, pipes, result, pipe);
      DistinctStep(pipes, pipe);
      arrivals := arrivals + published;
      results := results + [result];
      pipes := pipes + [pipe];
    }
  }

  /** Distinct pipes make distinct publications. */
  lemma {:induction false} ArrivalsDistinct(os: seq<Outcome>, ps: seq<Pipe?>)
    requires |ps| <= |os|
    requires DistinctNonNil(ps)
    ensures DistinctNonNil(Arrivals(os, ps))
    ensures forall p :: p in Arrivals(os, ps) && p != null ==> p in ps
  {
    if ps != [] {
      var ps' := ps[..|ps| - 1];
      var last := ps[|ps| - 1];
      assert DistinctNonNil(ps');
      ArrivalsDistinct(os, ps');
      var prev := Arrivals(os, ps');
      var pub := Publications(os[|ps| - 1], last);
      assert pub == [] || pub == [null] || pub == [last];
      if last != null {
        forall p | p in ps' && p != null ensures p != last {
          var k :| 0 <= k < |ps'| && ps'[k] == p;
          assert ps[k] == p;
        }
      }
      assert Arrivals(os, ps) == prev + pub;
      forall i, j | 0 <= i < j < |prev + pub| && (prev + pub)[i] != null
        ensures (prev + pub)[i] != (prev + pub)[j]
      {
        if j >= |prev| && i < |prev| {
          assert (prev + pub)[i] in prev;
        }
      }
    }
  }

  /** Cluster.Run (client.go:71-101) for hosts whose sessions go as
      `outcomes` say. `pipes[i]` is the stdin pipe host i opened (null if
      it got none). `complete` is false when the fan-in blocks for ever,
      in which case the source's Run does not return. */
  method Run(hosts: seq<Host>, cmdStdin: seq<byte>, outcomes: seq<Outcome>)
    returns (cmd: Command, complete: bool, ghost pipes: seq<Pipe?>)
    requires |outcomes| == |hosts|
    ensures fresh(cmd) && cmd.Valid()
    ensures complete <==> PtyFailures(outcomes) == 0
    ensures |cmd.results| == |hosts|
    ensures forall i :: 0 <= i < |hosts| ==> cmd.results[i] == ResultOf(hosts[i], outcomes[i])
    ensures |pipes| == |hosts|
    ensures forall i :: 0 <= i < |hosts| ==> (pipes[i] == null <==> outcomes[i].SetupFailure())
    ensures forall i :: 0 <= i < |hosts| && pipes[i] != null ==>
              fresh(pipes[i]) && pipes[i].written == cmdStdin + [EOF_CODE]
    ensures complete ==> cmd.stdins == Ready(outcomes, pipes)
    ensures |cmd.stdins| <= |hosts|
    ensures forall p :: p in cmd.stdins ==> p in pipes && fresh(p)
  {
    var results, arrivals;
    results, arrivals, pipes := Launch(hosts, cmdStdin, outcomes);
    ArrivalsDistinct(outcomes, pipes);
    var stdins, received := FanIn(|hosts|, arrivals);
    ArrivalsLength(outcomes, pipes);
    assert outcomes[..|pipes|] == outcomes;
    assert DistinctNonNil(arrivals[..received]);
    NonNilDistinct(arrivals[..received]);
    assert forall p :: p in stdins ==> p in arrivals;
    complete := received == |hosts|;
    if complete {
      assert arrivals[..received] == arrivals;
      ArrivalsWriters(outcomes, pipes);
    }
    cmd := new Command(results, stdins);
  }

  /** What each host would publish under the rule the sessions are meant to
      follow: exactly one publication per host, nil for every host that
      does not reach the point of running its command. */
  function PublicationsIntended(o: Outcome, pipe: Pipe?): (r: seq<Pipe?>) {
    if o.Ran? then [pipe] else [null]
  }

  function ArrivalsIntended(os: seq<Outcome>, ps: seq<Pipe?>): (r: seq<Pipe?>)
    requires |ps| <= |os|
  {
    if ps == [] then []
    else ArrivalsIntended(os, ps[..|ps| - 1]) + PublicationsIntended(os[|ps| - 1], ps[|ps| - 1])
  }

  /** With one publication per host, the fan-in always receives all
      publications, so Run returns, and it registers exactly the writers of
      the hosts that reached the point of running their command. */
  lemma {:induction false} IntendedFanInCompletes(os: seq<Outcome>, ps: seq<Pipe?>)
    requires |ps| <= |os|
    ensures |ArrivalsIntended(os, ps)| == |ps|
    ensures NonNil(ArrivalsIntended(os, ps)) == Ready(os, ps)
  {
    if ps != [] {
      var ps' := ps[..|ps| - 1];
      IntendedFanInCompletes(os, ps');
      var pub := PublicationsIntended(os[|ps| - 1], ps[|ps| - 1]);
      NonNilAppend(ArrivalsIntended(os, ps'), pub);
      assert NonNil([null]) == NonNil([]) + [];
      var last := ps[|ps| - 1];
      if last != null {
        assert NonNil([last]) == NonNil([]) + [last];
      }
    }
  }

  /** As written: one host whose pseudo-terminal request fails publishes
      nothing, so the fan-in's single receive finds no publication and Run
      never returns. */
  lemma PtyFailureStallsFanIn(host: Host, cause: string, pipe: Pipe)
    ensures Arrivals([PtyFails(cause)], [pipe]) == []
    ensures Min(1, |Arrivals([PtyFails(cause)], [pipe])|) == 0
  {
  }
}
