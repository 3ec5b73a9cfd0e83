/** main (cmd/clusterssh/main.go:36-77) put together: parse the arguments,
    run the command on every host, then drive the control loop. The stdin
    bytes main reads, the hosts' session outcomes and the events reaching
    the loop are inputs. */
module Program {
  import opened Wrappers
  import opened Pipes
  import HostSpec
  import Cli
  import Engine
  import Orchestration
  import Session

  /** How main ends: with exit status 1 after an argument error; blocked
      for ever inside Run; returned from the loop; or still waiting in the
      loop when the given events run out. */
  datatype Exit =
    | ArgumentError(message: string)
    | BlockedInRun
    | Returned(state: Orchestration.LoopState)
    | Waiting(state: Orchestration.LoopState)

  method ClusterSsh(args: seq<string>, env: HostSpec.Environment, input: seq<byte>,
                    outcomes: seq<Session.Outcome>, events: seq<Orchestration.Event>)
    returns (exit: Exit)
    requires |args| >= 1
    requires |args| >= 2 ==> |outcomes| == |args| - 2
    ensures exit.ArgumentError? <==>
              |args| < 2 || exists k :: 2 <= k < |args| && HostSpec.ParseHost(args[k], env).Err?
    ensures exit.BlockedInRun? <==> !exit.ArgumentError? && Engine.PtyFailures(outcomes) > 0
    ensures exit.Returned? || exit.Waiting? ==>
              var stop := Orchestration.Drain(Orchestration.Initial(|args| - 2), events);
              && exit.state == stop.state
              && (exit.Returned? <==> stop.state.done)
  {
    var options := Cli.ParseArgs(args, env);
    if options.Err? {
      return ArgumentError(options.error);
    }
    var hosts := options.value.hosts;
    var cmd, complete, pipes := Engine.Run(hosts, input, outcomes);
    if !complete {
      return BlockedInRun;
    }
    forall i | 0 <= i < |cmd.stdins|
      ensures fresh(cmd.stdins[i])
    {
      assert cmd.stdins[i] in cmd.stdins;
    }
    var loop := new Orchestration.Orchestrator(|hosts|, cmd);
    var consumed := loop.Drive(events);
    var state := loop.State();
    exit := if state.done then Returned(state) else Waiting(state);
  }
}
