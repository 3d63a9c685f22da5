/**
 * The factory of the service clients: a validated index of the client configurations, and two
 * layers of options, those of the factory and those of a call, applied to a copy.
 */
module ClientFactory {
  import opened Options

  /** A pointer to a value this model does not look into. */
  type Handle = nat

  /** The options of a client; a nil pointer is None. */
  datatype Values = Values(tlsCfg: Option<Handle>, callerIdentity: Option<Handle>, agent: string)

  datatype ClientOption =
    | WithTLS(tlsCfg: Option<Handle>)
    | WithCallerIdentity(callerIdentity: Option<Handle>)
    | WithAgent(agent: string)

  const DEFAULTS := Values(None, None, "")

  function Step(v: Values, op: ClientOption): Values {
    match op
    case WithTLS(t) => v.(tlsCfg := t)
    case WithCallerIdentity(i) => v.(callerIdentity := i)
    case WithAgent(a) => v.(agent := a)
  }

  function Steps(v: Values, ops: seq<ClientOption>): Values
    decreases |ops|
  {
    if ops == [] then v else Steps(Step(v, ops[0]), ops[1..])
  }

  /** The struct the options are applied to, in place. */
  class OptionSet {
    var tlsCfg: Option<Handle>
    var callerIdentity: Option<Handle>
    var agent: string

    function Contents(): Values
      reads this
    {
      Values(tlsCfg, callerIdentity, agent)
    }

    constructor (v: Values)
      ensures Contents() == v
    {
      tlsCfg, callerIdentity, agent := v.tlsCfg, v.callerIdentity, v.agent;
    }

    method Apply(op: ClientOption)
      modifies this
      ensures Contents() == Step(old(Contents()), op)
    {
      match op
      case WithTLS(t) => tlsCfg := t;
      case WithCallerIdentity(i) => callerIdentity := i;
      case WithAgent(a) => agent := a;
    }

    method ApplyAll(ops: seq<ClientOption>)
      modifies this
      ensures Contents() == Steps(old(Contents()), ops)
    {
      for i := 0 to |ops|
        invariant Steps(Contents(), ops[i..]) == Steps(old(Contents()), ops)
      {
        Apply(ops[i]);
        assert ops[i..][1..] == ops[i + 1..];
      }
    }
  }

  /* ---- The configurations ---- */

  datatype TLSInfo = TLSInfo(certFile: string, keyFile: string, trustedCAFile: string, empty: bool)

  datatype Config = Config(
    name: string,
    clientTLS: TLSInfo,
    serverURL: map<string, string>,
    dialTimeout: int,
    dialKeepAliveTime: int,
    dialKeepAliveTimeout: int)

  /** Where the TLS configuration of a client comes from. */
  datatype TLSSource =
    | NoTLS
    | FromOption(tlsCfg: Handle)
    | FromFiles(certFile: string, keyFile: string, trustedCAFile: string)

  datatype Plan = Plan(
    endpoint: string,
    tls: TLSSource,
    callerIdentity: Option<Handle>,
    userAgent: string,
    dialTimeout: int,
    dialKeepAliveTime: int,
    dialKeepAliveTimeout: int)

  /** The libraries during a call: how paths expand, which TLS files load and which plans can be dialed. */
  datatype World = World(
    expand: string -> string,
    loads: (string, string, string) -> bool,
    dials: Plan -> bool)

  datatype Outcome =
    | Created(plan: Plan)
    | ClientNotFound(name: string)
    | ServerNotFound(server: string, name: string)
    | TLSFailed
    | DialFailed(host: string)

  predicate IsHttps(url: string) {
    "https://" <= url
  }

  function TLSOf(w: World, cfg: Config, v: Values, host: string): TLSSource {
    if v.tlsCfg.Some? then FromOption(v.tlsCfg.value)
    else if !IsHttps(host) then NoTLS
    else if cfg.clientTLS.empty then FromFiles("", "", w.expand(cfg.clientTLS.trustedCAFile))
    else
      FromFiles(w.expand(cfg.clientTLS.certFile), w.expand(cfg.clientTLS.keyFile),
                w.expand(cfg.clientTLS.trustedCAFile))
  }

  predicate Loads(w: World, tls: TLSSource) {
    tls.FromFiles? ==> w.loads(tls.certFile, tls.keyFile, tls.trustedCAFile)
  }

  /** The client the named configuration and the options give for the server. */
  function ClientOf(w: World, cfgs: map<string, Config>, v: Values, name: string, server: string): Outcome {
    if name !in cfgs then ClientNotFound(name)
    else
      var cfg := cfgs[name];
      var host := if server in cfg.serverURL then cfg.serverURL[server] else "";
      if host == "" then ServerNotFound(server, name)
      else
        var tls := TLSOf(w, cfg, v, host);
        var plan := Plan(host, tls, v.callerIdentity, v.agent,
                         cfg.dialTimeout, cfg.dialKeepAliveTime, cfg.dialKeepAliveTimeout);
        if !Loads(w, tls) then TLSFailed
        else if !w.dials(plan) then DialFailed(host)
        else Created(plan)
  }

  /** The server has a URL in the named configuration. */
  predicate Found(cfgs: map<string, Config>, name: string, server: string) {
    name in cfgs && server in cfgs[name].serverURL && cfgs[name].serverURL[server] != ""
  }

  /**
   * Each failure has its own condition, and a client is created without them. An option for TLS is
   * used for any URL, and then no file is loaded; without one an https URL takes the files of the
   * configuration, no certificate without client TLS, and any other URL none.
   */
  lemma ClientFor(w: World, cfgs: map<string, Config>, v: Values, name: string, server: string)
    ensures var o := ClientOf(w, cfgs, v, name, server);
            && (o.ClientNotFound? <==> name !in cfgs)
            && (o.ServerNotFound? <==> name in cfgs && !Found(cfgs, name, server))
            && (Found(cfgs, name, server) ==>
                  var cfg := cfgs[name];
                  var host := cfg.serverURL[server];
                  var files := v.tlsCfg.None? && "https://" <= host;
                  var cert := if cfg.clientTLS.empty then "" else w.expand(cfg.clientTLS.certFile);
                  var key := if cfg.clientTLS.empty then "" else w.expand(cfg.clientTLS.keyFile);
                  var ca := w.expand(cfg.clientTLS.trustedCAFile);
                  var tls := if v.tlsCfg.Some? then FromOption(v.tlsCfg.value)
                             else if files then FromFiles(cert, key, ca) else NoTLS;
                  var plan := Plan(host, tls, v.callerIdentity, v.agent,
                                   cfg.dialTimeout, cfg.dialKeepAliveTime, cfg.dialKeepAliveTimeout);
                  && (o.TLSFailed? <==> files && !w.loads(cert, key, ca))
                  && (o == DialFailed(host) <==> !o.TLSFailed? && !w.dials(plan))
                  && (o == Created(plan) <==> !o.TLSFailed? && w.dials(plan)))
  {
  }

  datatype FactoryError = NoError | NoName(index: nat) | Duplicate(name: string)

  /** The configuration at the position is refused: it has no name, or one that came before. */
  predicate Offends(cfgs: seq<Config>, i: nat)
    requires i < |cfgs|
  {
    cfgs[i].name == "" || exists j | 0 <= j < i :: cfgs[j].name == cfgs[i].name
  }

  /** Nothing is refused exactly if every configuration has a name and no two have the same. */
  lemma AcceptedExact(cfgs: seq<Config>)
    ensures (forall i | 0 <= i < |cfgs| :: !Offends(cfgs, i)) <==>
            && (forall i | 0 <= i < |cfgs| :: cfgs[i].name != "")
            && (forall i, j | 0 <= i < j < |cfgs| :: cfgs[i].name != cfgs[j].name)
  {
    if forall i | 0 <= i < |cfgs| :: !Offends(cfgs, i) {
      forall i | 0 <= i < |cfgs| ensures cfgs[i].name != "" {
        assert !Offends(cfgs, i);
      }
      forall i, j | 0 <= i < j < |cfgs| ensures cfgs[i].name != cfgs[j].name {
        assert !Offends(cfgs, j);
      }
    }
  }

  /** Every configuration is found by its name, and nothing else is. */
  ghost predicate Indexes(index: map<string, Config>, cfgs: seq<Config>) {
    && (forall i | 0 <= i < |cfgs| :: cfgs[i].name in index && index[cfgs[i].name] == cfgs[i])
    && (forall name | name in index :: exists i | 0 <= i < |cfgs| :: cfgs[i].name == name)
    && |index| == |cfgs|
  }

  class Factory {
    const dops: OptionSet
    var cfgs: map<string, Config>

    constructor (cfgs: map<string, Config>, dops: OptionSet)
      ensures this.cfgs == cfgs && this.dops == dops
    {
      this.cfgs := cfgs;
      this.dops := dops;
    }

    /** Nothing of the factory changes: the options of a call are applied to a copy. */
    method NewClient(w: World, name: string, server: string, ops: seq<ClientOption>) returns (res: Outcome)
      ensures res == ClientOf(w, cfgs, Steps(dops.Contents(), ops), name, server)
    {
      var opts := new OptionSet(dops.Contents());
      opts.ApplyAll(ops);
      if name !in cfgs {
        return ClientNotFound(name);
      }
      var cfg := cfgs[name];
      var host := "";
      if server in cfg.serverURL {
        host := cfg.serverURL[server];
      }
      if host == "" {
        return ServerNotFound(server, name);
      }
      var tls := if opts.tlsCfg.Some? then FromOption(opts.tlsCfg.value) else NoTLS;
      if tls == NoTLS && IsHttps(host) {
        var cert, key, ca := "", "", w.expand(cfg.clientTLS.trustedCAFile);
        if !cfg.clientTLS.empty {
          cert, key := w.expand(cfg.clientTLS.certFile), w.expand(cfg.clientTLS.keyFile);
        }
        tls := FromFiles(cert, key, ca);
        if !w.loads(cert, key, ca) {
          return TLSFailed;
        }
      }
      var plan := Plan(host, tls, opts.callerIdentity, opts.agent,
                       cfg.dialTimeout, cfg.dialKeepAliveTime, cfg.dialKeepAliveTimeout);
      if !w.dials(plan) {
        return DialFailed(host);
      }
      res := Created(plan);
    }
  }

  method NewFactory(cfgs: seq<Config>, ops: seq<ClientOption>) returns (f: Factory?, err: FactoryError)
    ensures f != null <==> forall i | 0 <= i < |cfgs| :: !Offends(cfgs, i)
    ensures f != null ==> fresh(f) && fresh(f.dops) && err == NoError
    ensures f != null ==> Indexes(f.cfgs, cfgs) && f.dops.Contents() == Steps(DEFAULTS, ops)
    ensures f == null ==> exists i | 0 <= i < |cfgs| ::
                && Offends(cfgs, i)
                && (forall j | 0 <= j < i :: !Offends(cfgs, j))
                && err == if cfgs[i].name == "" then NoName(i) else Duplicate(cfgs[i].name)
  {
    var index: map<string, Config> := map[];
    for i := 0 to |cfgs|
      invariant index == IndexOf(cfgs[..i])
      invariant forall j | 0 <= j < i :: !Offends(cfgs, j)
    {
      NamesBefore(cfgs, i);
      if cfgs[i].name == "" {
        return null, NoName(i);
      }
      if cfgs[i].name in index {
        return null, Duplicate(cfgs[i].name);
      }
      assert cfgs[..i + 1][..i] == cfgs[..i];
      index := index[cfgs[i].name := cfgs[i]];
    }
    assert cfgs[..|cfgs|] == cfgs;
    IndexOfAll(cfgs);
    var dops := new OptionSet(DEFAULTS);
    dops.ApplyAll(ops);
    f := new Factory(index, dops);
    err := NoError;
  }

  ghost function IndexOf(cfgs: seq<Config>): map<string, Config> {
    if cfgs == [] then map[] else IndexOf(cfgs[..|cfgs| - 1])[cfgs[|cfgs| - 1].name := cfgs[|cfgs| - 1]]
  }

  lemma {:induction false} IndexOfNames(cfgs: seq<Config>, name: string)
    ensures name in IndexOf(cfgs) <==> exists j | 0 <= j < |cfgs| :: cfgs[j].name == name
  {
    if cfgs != [] {
      IndexOfNames(cfgs[..|cfgs| - 1], name);
    }
  }

  lemma NamesBefore(cfgs: seq<Config>, i: nat)
    requires i < |cfgs|
    ensures Offends(cfgs, i) <==> cfgs[i].name == "" || cfgs[i].name in IndexOf(cfgs[..i])
  {
    IndexOfNames(cfgs[..i], cfgs[i].name);
    if j :| 0 <= j < i && cfgs[j].name == cfgs[i].name {
      assert cfgs[..i][j].name == cfgs[i].name;
    }
  }

  predicate Distinct(cfgs: seq<Config>) {
    forall i, j | 0 <= i < j < |cfgs| :: cfgs[i].name != cfgs[j].name
  }

  lemma {:induction false} IndexOfAt(cfgs: seq<Config>, i: nat)
    requires Distinct(cfgs) && i < |cfgs|
    ensures cfgs[i].name in IndexOf(cfgs) && IndexOf(cfgs)[cfgs[i].name] == cfgs[i]
  {
    if i < |cfgs| - 1 {
      IndexOfAt(cfgs[..|cfgs| - 1], i);
    }
  }

  lemma {:induction false} IndexOfSize(cfgs: seq<Config>)
    requires Distinct(cfgs)
    ensures |IndexOf(cfgs)| == |cfgs|
  {
    if cfgs != [] {
      var init := cfgs[..|cfgs| - 1];
      IndexOfSize(init);
      IndexOfNames(init, cfgs[|cfgs| - 1].name);
    }
  }

  lemma IndexOfAll(cfgs: seq<Config>)
    requires forall i | 0 <= i < |cfgs| :: !Offends(cfgs, i)
    ensures Indexes(IndexOf(cfgs), cfgs)
  {
    assert Distinct(cfgs) by {
      forall i, j | 0 <= i < j < |cfgs| ensures cfgs[i].name != cfgs[j].name {
        assert !Offends(cfgs, j);
      }
    }
    forall i | 0 <= i < |cfgs| ensures cfgs[i].name in IndexOf(cfgs) && IndexOf(cfgs)[cfgs[i].name] == cfgs[i] {
      IndexOfAt(cfgs, i);
    }
    forall name | name in IndexOf(cfgs) ensures exists i | 0 <= i < |cfgs| :: cfgs[i].name == name {
      IndexOfNames(cfgs, name);
    }
    IndexOfSize(cfgs);
  }

  /* ---- The layers ---- */

  lemma {:induction false} StepsAppend(v: Values, a: seq<ClientOption>, b: seq<ClientOption>)
    ensures Steps(v, a + b) == Steps(Steps(v, a), b)
    decreases |a|
  {
    if a == [] {
      assert a + b == b;
    } else {
      assert (a + b)[1..] == a[1..] + b;
      StepsAppend(Step(v, a[0]), a[1..], b);
    }
  }

  predicate SameSetting(x: ClientOption, y: ClientOption) {
    (x.WithTLS? && y.WithTLS?) || (x.WithCallerIdentity? && y.WithCallerIdentity?) || (x.WithAgent? && y.WithAgent?)
  }

  /** The setting of the option has its value. */
  predicate Has(v: Values, op: ClientOption) {
    match op
    case WithTLS(t) => v.tlsCfg == t
    case WithCallerIdentity(i) => v.callerIdentity == i
    case WithAgent(a) => v.agent == a
  }

  /** Of each setting the last option wins, also one that sets nil. */
  lemma {:induction false} LastWins(v: Values, ops: seq<ClientOption>, i: nat)
    requires i < |ops| && forall j | i < j < |ops| :: !SameSetting(ops[i], ops[j])
    ensures Has(Steps(v, ops), ops[i])
    decreases |ops|
  {
    if i > 0 {
      LastWins(Step(v, ops[0]), ops[1..], i - 1);
    } else {
      Untouched(Step(v, ops[0]), ops[1..], ops[0]);
    }
  }

  /** A setting no option is for keeps its value. */
  lemma {:induction false} Untouched(v: Values, ops: seq<ClientOption>, x: ClientOption)
    requires forall j | 0 <= j < |ops| :: !SameSetting(x, ops[j])
    ensures Has(Steps(v, ops), x) <==> Has(v, x)
    decreases |ops|
  {
    if ops != [] {
      Untouched(Step(v, ops[0]), ops[1..], x);
    }
  }

  /** Options of different settings may change places. */
  lemma Commute(v: Values, a: seq<ClientOption>, x: ClientOption, y: ClientOption, b: seq<ClientOption>)
    requires !SameSetting(x, y)
    ensures Steps(v, a + [x, y] + b) == Steps(v, a + [y, x] + b)
  {
    StepsAppend(v, a + [x, y], b);
    StepsAppend(v, a + [y, x], b);
    StepsAppend(v, a, [x, y]);
    StepsAppend(v, a, [y, x]);
    var w := Steps(v, a);
    assert Steps(w, [x, y]) == Steps(Step(w, x), [y]) == Step(Step(w, x), y) by { assert [x, y][1..] == [y]; }
    assert Steps(w, [y, x]) == Steps(Step(w, y), [x]) == Step(Step(w, y), x) by { assert [y, x][1..] == [x]; }
  }

  /** Options given to the factory and then to a call are the same as all of them given to either. */
  method Layered(w: World, cfgs: seq<Config>, a: seq<ClientOption>, b: seq<ClientOption>, name: string, server: string)
    returns (layered: Outcome, atOnce: Outcome, perCall: Outcome)
    requires forall i | 0 <= i < |cfgs| :: !Offends(cfgs, i)
    ensures layered == atOnce == perCall
  {
    var f, _ := NewFactory(cfgs, a);
    layered := f.NewClient(w, name, server, b);
    var g, _ := NewFactory(cfgs, a + b);
    atOnce := g.NewClient(w, name, server, []);
    var h, _ := NewFactory(cfgs, []);
    perCall := h.NewClient(w, name, server, a + b);
    StepsAppend(DEFAULTS, a, b);
    SameIndex(f.cfgs, g.cfgs, cfgs);
    SameIndex(f.cfgs, h.cfgs, cfgs);
  }

  lemma SameIndex(x: map<string, Config>, y: map<string, Config>, cfgs: seq<Config>)
    requires Indexes(x, cfgs) && Indexes(y, cfgs)
    ensures x == y
  {
    assert forall name :: name in x <==> name in y;
  }

  datatype Call = Call(w: World, name: string, server: string, ops: seq<ClientOption>)

  ghost function ResultOf(f: Factory, call: Call): Outcome
    reads f, f.dops
  {
    ClientOf(call.w, f.cfgs, Steps(f.dops.Contents(), call.ops), call.name, call.server)
  }

  /** Over any run of calls, successful or not, each result depends on its own call only. */
  method RunCalls(f: Factory, calls: seq<Call>) returns (res: seq<Outcome>)
    ensures |res| == |calls|
    ensures forall i | 0 <= i < |calls| ::
              res[i] == ResultOf(f, calls[i])
  {
    res := [];
    for i := 0 to |calls|
      invariant |res| == i
      invariant forall j | 0 <= j < i ::
                  res[j] == ResultOf(f, calls[j])
    {
      var r := f.NewClient(calls[i].w, calls[i].name, calls[i].server, calls[i].ops);
      res := res + [r];
    }
  }
}
