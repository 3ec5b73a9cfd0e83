/** Host-spec parsing (ParseHost, client.go:161-188). The URL parser, the
    host/port splitter and the USER environment variable are inputs: an
    `Environment` gives what url.Parse and net.SplitHostPort return and
    what os.Getenv("USER") reads. */
module HostSpec {
  import opened Wrappers
  import Session

  /** url.Userinfo: the user name and, when one is given, the password. */
  datatype UserInfo = UserInfo(username: string, password: Option<string>)

  /** The parts of a parsed url.URL that ParseHost reads: its userinfo (nil
      when the spec has no `user@`) and its authority `Host`. */
  datatype Url = Url(user: Option<UserInfo>, host: string)

  /** What net.SplitHostPort returns: a name, a port and an error. */
  datatype Split = Split(name: string, port: string, err: Option<string>)

  /** net.SplitHostPort returns an empty name and port when it fails. */
  type SplitResult = s: Split | s.err.Some? ==> s.name == "" && s.port == ""
    witness Split("", "", None)

  datatype Environment = Environment(
    urlParse: string -> Result<Url, string>,
    splitHostPort: string -> SplitResult,
    user: string)

  /** ParseHost as written. It fails exactly when url.Parse fails, with
      url.Parse's error. Otherwise the user comes from the userinfo (even an
      empty one) or from USER, falling back to "root"; the password is set
      exactly when the userinfo carries one. Because the guard of
      client.go:180 holds for both outcomes of net.SplitHostPort, the name is
      always the whole authority and the port always "22". */
  function ParseHost(input: string, env: Environment): (r: Result<Session.Host, string>)
    ensures r.Err? <==> env.urlParse("ssh://" + input).Err?
    ensures r.Err? ==> r.error == env.urlParse("ssh://" + input).error
    ensures r.Ok? ==>
              var url := env.urlParse("ssh://" + input).value;
              && r.value.name == url.host
              && r.value.port == "22"
              && (url.user.Some? ==> r.value.user == url.user.value.username)
              && (url.user.Some? ==> r.value.password == url.user.value.password)
              && (url.user.None? ==> r.value.password.None?)
              && (url.user.None? && env.user != "" ==> r.value.user == env.user)
              && (url.user.None? && env.user == "" ==> r.value.user == "root")
  {
    var parsed := env.urlParse("ssh://" + input);
    if parsed.Err? then Err(parsed.error)
    else
      var url := parsed.value;
      var user := if url.user.Some? then url.user.value.username
                  else if env.user == "" then "root" else env.user;
      var password := if url.user.Some? then url.user.value.password else None;
      var split := env.splitHostPort(url.host);
      if split.err.None? || split.name == "" then
        Ok(Session.Host(url.host, "22", user, password))
      else
        Ok(Session.Host(split.name, split.port, user, password))
  }

  /** The password is set if and only if the userinfo carries one. */
  lemma PasswordIffGiven(input: string, env: Environment)
    requires ParseHost(input, env).Ok?
    ensures ParseHost(input, env).value.password.Some? <==>
              var url := env.urlParse("ssh://" + input).value;
              url.user.Some? && url.user.value.password.Some?
  {
  }

  /** The host's user is never empty unless the userinfo names an empty
      user explicitly. */
  lemma UserNonEmptyByDefault(input: string, env: Environment)
    requires ParseHost(input, env).Ok?
    requires env.urlParse("ssh://" + input).value.user.None?
    ensures ParseHost(input, env).value.user != ""
  {
  }

  /** Nothing net.SplitHostPort can return changes the host: a port given in
      the spec is dropped. */
  lemma SplitIgnored(input: string, env: Environment, other: string -> SplitResult)
    ensures ParseHost(input, env) == ParseHost(input, env.(splitHostPort := other))
  {
  }
  /** The guard client.go:180 evidently means: keep the whole authority and
      port 22 only when net.SplitHostPort fails or finds no name, and take
      the split name and port otherwise. Everything else is ParseHost's. */
  function ParseHostIntended(input: string, env: Environment): (r: Result<Session.Host, string>)
    ensures r.Err? <==> ParseHost(input, env).Err?
    ensures r.Ok? ==>
              var url := env.urlParse("ssh://" + input).value;
              var split := env.splitHostPort(url.host);
              && r.value.user == ParseHost(input, env).value.user
              && r.value.password == ParseHost(input, env).value.password
              && (split.err.None? && split.name != "" ==>
                    r.value.name == split.name && r.value.port == split.port)
              && (split.err.Some? || split.name == "" ==>
                    r.value.name == url.host && r.value.port == "22")
  {
    match ParseHost(input, env)
    case Err(e) => Err(e)
    case Ok(host) =>
      var split := env.splitHostPort(env.urlParse("ssh://" + input).value.host);
      if split.err.Some? || split.name == "" then Ok(host)
      else Ok(host.(name := split.name, port := split.port))
  }

  /** As written, a spec that names a port other than 22 loses it: the
      split succeeds, yet the host keeps the whole authority and port 22. */
  lemma ExplicitPortDropped(input: string, env: Environment)
    requires ParseHost(input, env).Ok?
    requires var split := env.splitHostPort(env.urlParse("ssh://" + input).value.host);
             split.err.None? && split.name != "" && split.port != "22"
    ensures ParseHost(input, env).value.port != env.splitHostPort(env.urlParse("ssh://" + input).value.host).port
    ensures ParseHostIntended(input, env) != ParseHost(input, env)
  {
  }

  /** The two readings agree exactly when the split fails, finds no name, or
      finds the authority itself with port 22. */
  lemma IntendedAgreesUnlessPortGiven(input: string, env: Environment)
    requires ParseHost(input, env).Ok?
    ensures var url := env.urlParse("ssh://" + input).value;
            var split := env.splitHostPort(url.host);
            ParseHostIntended(input, env) == ParseHost(input, env) <==>
              split.err.Some? || split.name == "" || (split.name == url.host && split.port == "22")
  {
  }
  /** "web:2222": url.Parse gives the authority "web:2222" and
      net.SplitHostPort splits it into "web" and "2222", yet ParseHost
      keeps "web:2222" as the name and port 22. */
  lemma WebPortExample()
    ensures var env := Environment(s => Ok(Url(None, "web:2222")),
                                   h => Split("web", "2222", None), "alice");
            && ParseHost("web:2222", env) == Ok(Session.Host("web:2222", "22", "alice", None))
            && ParseHostIntended("web:2222", env) == Ok(Session.Host("web", "2222", "alice", None))
  {
  }
}
