/** Command-line parsing (parseArgs, cmd/clusterssh/main.go:15-34): the
    command is the first argument, every following argument is a host spec. */
module Cli {
  import opened Wrappers
  import Session
  import HostSpec

  /** main.go:15-18, with the host list as a sequence of hosts. */
  datatype Options = Options(cmd: string, hosts: seq<Session.Host>)

  /** parseArgs: fills the host list position by position and stops at
      the first host spec that does not parse. `args[0]` is the program
      name, which the usage message quotes. */
  method ParseArgs(args: seq<string>, env: HostSpec.Environment) returns (r: Result<Options, string>)
    requires |args| >= 1
    ensures r.Err? <==> |args| < 2 || exists k :: 2 <= k < |args| && HostSpec.ParseHost(args[k], env).Err?
    ensures |args| < 2 ==> r == Err("USAGE: " + args[0] + " cmd hosts...")
    ensures r.Err? && |args| >= 2 ==>
              exists k :: 2 <= k < |args|
                && HostSpec.ParseHost(args[k], env).Err?
                && (forall j :: 2 <= j < k ==> HostSpec.ParseHost(args[j], env).Ok?)
                && r.error == "invalid host '" + args[k] + "': " + HostSpec.ParseHost(args[k], env).error
    ensures r.Ok? ==> r.value.cmd == args[1] && |r.value.hosts| == |args| - 2
    ensures r.Ok? ==> forall i :: 0 <= i < |r.value.hosts| ==>
              HostSpec.ParseHost(args[i + 2], env) == Ok(r.value.hosts[i])
  {
    if |args| < 2 {
      return Err("USAGE: " + args[0] + " cmd hosts...");
    }
    var cmd := args[1];
    var specs := args[2..];
    var hosts := seq(|specs|, _ => Session.Host("", "", "", None));
    for i := 0 to |specs|
      invariant |hosts| == |specs|
      invariant forall j :: 0 <= j < i ==> HostSpec.ParseHost(specs[j], env) == Ok(hosts[j])
    {
      var host := HostSpec.ParseHost(specs[i], env);
      if host.Err? {
        assert specs[i] == args[i + 2];
        assert forall j :: 2 <= j < i + 2 ==> specs[j - 2] == args[j];
        return Err("invalid host '" + specs[i] + "': " + host.error);
      }
      hosts := hosts[i := host.value];
    }
    assert forall j :: 2 <= j < |args| ==> specs[j - 2] == args[j];
    return Ok(Options(cmd, hosts));
  }
}
