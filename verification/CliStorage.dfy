/**
 * The clients of the CLI: each is created once, and the storage folder both use is resolved from
 * the flag, the environment, the configuration of the host and the default, in this order. The
 * HTTP client writes the folder it resolved back to the flag.
 */
module CliStorage {
  import opened Options

  const DEFAULT_STORAGE_PATH := "~/.config/trustyca"

  datatype HostConfig = HostConfig(storageFolder: string)

  /** The environment variables, the file system and the libraries, fixed for a run. */
  datatype World = World(
    envServer: string,
    envStorage: string,
    // homedir.Expand, "" for a path it cannot expand
    expand: string -> string,
    // the path of the configuration file for a Cfg and a storage folder
    configFile: (string, string) -> string,
    // the hosts a configuration file lists, None for a file that does not load
    hosts: string -> Option<map<string, HostConfig>>,
    // the configuration of the HTTP client for a host that is not listed, None for an error
    unlisted: Option<HostConfig>)

  /** Which of the steps outside this model succeed in a call. */
  datatype IO = IO(configFile: bool, tls: bool, token: bool, dial: bool)

  datatype Client = Client(host: string, storageFolder: string)

  datatype State = State(server: string, cfg: string, storage: string, rpc: Option<Client>, http: Option<Client>)

  datatype Result = Ok(client: Client) | NoServer | Failed

  function Coalesce(ss: seq<string>): string {
    if ss == [] then "" else if ss[0] != "" then ss[0] else Coalesce(ss[1..])
  }

  predicate IsHttps(url: string) {
    "https://" <= url
  }

  function Host(w: World, s: State): string {
    Coalesce([s.server, w.envServer])
  }

  /** The folder as long as it is not looked up in the configuration, not expanded. */
  function PlainFolder(w: World, s: State): string {
    Coalesce([s.storage, w.envStorage, DEFAULT_STORAGE_PATH])
  }

  function ConfigFileName(w: World, s: State): string {
    w.configFile(s.cfg, PlainFolder(w, s))
  }

  /** The configuration of the host in the configuration file. */
  function Listed(w: World, s: State): Option<HostConfig> {
    var hosts := w.hosts(ConfigFileName(w, s));
    if hosts.Some? && Host(w, s) in hosts.value then Some(hosts.value[Host(w, s)]) else None
  }

  function RpcFolder(w: World, s: State): string {
    if IsHttps(Host(w, s)) && Listed(w, s).Some? then
      w.expand(Coalesce([s.storage, w.envStorage, Listed(w, s).value.storageFolder, DEFAULT_STORAGE_PATH]))
    else
      PlainFolder(w, s)
  }

  function HttpConfig(w: World, s: State): Option<HostConfig> {
    if Listed(w, s).Some? then Listed(w, s) else w.unlisted
  }

  function HttpFolder(w: World, s: State): string
    requires HttpConfig(w, s).Some?
  {
    w.expand(Coalesce([s.storage, w.envStorage, HttpConfig(w, s).value.storageFolder, DEFAULT_STORAGE_PATH]))
  }

  /** What a call does, as a function of the state: the new state and the result. */
  function RpcCall(w: World, s: State, skipAuth: bool, io: IO): (State, Result) {
    if s.rpc.Some? then (s, Ok(s.rpc.value))
    else if Host(w, s) == "" then (s, NoServer)
    else if IsHttps(Host(w, s)) && !(io.configFile && (skipAuth || io.token) && io.tls) then (s, Failed)
    else if !io.dial then (s, Failed)
    else
      var c := Client(Host(w, s), RpcFolder(w, s));
      (s.(rpc := Some(c)), Ok(c))
  }

  /** The folder is written back before the steps that can still fail. */
  function HttpCall(w: World, s: State, skipAuth: bool, io: IO): (State, Result) {
    if s.http.Some? then (s, Ok(s.http.value))
    else if Host(w, s) == "" then (s, NoServer)
    else if !io.configFile || HttpConfig(w, s).None? then (s, Failed)
    else
      var folder := HttpFolder(w, s);
      var s' := s.(storage := folder);
      if IsHttps(Host(w, s)) && !(io.tls && (skipAuth || io.token)) then (s', Failed)
      else
        var c := Client(Host(w, s), folder);
        (s'.(http := Some(c)), Ok(c))
  }

  class Cli {
    var server: string
    var cfg: string
    var storage: string
    var rpcClient: Option<Client>
    var httpClient: Option<Client>

    function Contents(): State
      reads this
    {
      State(server, cfg, storage, rpcClient, httpClient)
    }

    method RPCClient(w: World, skipAuth: bool, io: IO) returns (res: Result)
      modifies this
      ensures (Contents(), res) == RpcCall(w, old(Contents()), skipAuth, io)
    {
      if rpcClient.Some? {
        return Ok(rpcClient.value);
      }
      var host := Coalesce([server, w.envServer]);
      if host == "" {
        return NoServer;
      }
      var folder := Coalesce([storage, w.envStorage, DEFAULT_STORAGE_PATH]);
      if IsHttps(host) {
        if !io.configFile {
          return Failed;
        }
        var hosts := w.hosts(ConfigFileName(w, Contents()));
        if hosts.Some? && host in hosts.value {
          var rc := hosts.value[host];
          folder := w.expand(Coalesce([storage, w.envStorage, rc.storageFolder, DEFAULT_STORAGE_PATH]));
        }
        if !skipAuth && !io.token {
          return Failed;
        }
        if !io.tls {
          return Failed;
        }
      }
      if !io.dial {
        return Failed;
      }
      rpcClient := Some(Client(host, folder));
      return Ok(rpcClient.value);
    }

    method HTTPClient(w: World, skipAuth: bool, io: IO) returns (res: Result)
      modifies this
      ensures (Contents(), res) == HttpCall(w, old(Contents()), skipAuth, io)
    {
      if httpClient.Some? {
        return Ok(httpClient.value);
      }
      var host := Coalesce([server, w.envServer]);
      if host == "" {
        return NoServer;
      }
      if !io.configFile {
        return Failed;
      }
      var config := HttpConfig(w, Contents());
      if config.None? {
        return Failed;
      }
      storage := w.expand(Coalesce([storage, w.envStorage, config.value.storageFolder, DEFAULT_STORAGE_PATH]));
      if IsHttps(host) {
        if !io.tls {
          return Failed;
        }
        if !skipAuth && !io.token {
          return Failed;
        }
      }
      httpClient := Some(Client(host, storage));
      return Ok(httpClient.value);
    }
  }

  /* ---- Runs ---- */

  datatype Call = Rpc(skipAuth: bool, io: IO) | Http(skipAuth: bool, io: IO)

  function Do(w: World, s: State, c: Call): (State, Result) {
    match c
    case Rpc(skip, io) => RpcCall(w, s, skip, io)
    case Http(skip, io) => HttpCall(w, s, skip, io)
  }

  function After(w: World, s: State, calls: seq<Call>): State
    decreases |calls|
  {
    if calls == [] then s else After(w, Do(w, s, calls[0]).0, calls[1..])
  }

  /** The path of the folder of the host: the first of the flag, the environment, the configuration and the default. */
  function Path(w: World, s: State): string
    requires Listed(w, s).Some?
  {
    Coalesce([s.storage, w.envStorage, Listed(w, s).value.storageFolder, DEFAULT_STORAGE_PATH])
  }

  function Folder(w: World, s: State): string
    requires Listed(w, s).Some?
  {
    w.expand(Path(w, s))
  }

  /** The path can be expanded, and expanding it again changes nothing. */
  predicate Expands(w: World, path: string) {
    w.expand(path) != "" && w.expand(w.expand(path)) == w.expand(path)
  }

  lemma CoalesceFirst(ss: seq<string>, i: nat)
    requires i < |ss| && ss[i] != ""
    ensures Coalesce(ss) != "" && (i == 0 ==> Coalesce(ss) == ss[0])
  {
    if i > 0 {
      CoalesceFirst(ss[1..], i - 1);
    }
  }

  /** The first string that is not empty. */
  lemma {:induction false} CoalesceExact(ss: seq<string>, i: nat)
    requires i < |ss| && ss[i] != "" && forall j | 0 <= j < i :: ss[j] == ""
    ensures Coalesce(ss) == ss[i]
  {
    if i > 0 {
      CoalesceExact(ss[1..], i - 1);
    }
  }

  lemma {:induction false} CoalesceNone(ss: seq<string>)
    requires forall j | 0 <= j < |ss| :: ss[j] == ""
    ensures Coalesce(ss) == ""
  {
    if ss != [] {
      CoalesceNone(ss[1..]);
    }
  }

  function Or(a: string, b: string): string {
    if a != "" then a else b
  }

  lemma CoalesceThree(a: string, b: string, c: string)
    ensures Coalesce([a, b, c]) == Or(a, Or(b, c))
  {
    var ss := [a, b, c];
    if a != "" {
      CoalesceExact(ss, 0);
    } else if b != "" {
      CoalesceExact(ss, 1);
    } else if c != "" {
      CoalesceExact(ss, 2);
    } else {
      CoalesceNone(ss);
    }
  }

  lemma CoalesceFour(a: string, b: string, c: string, d: string)
    ensures Coalesce([a, b, c, d]) == Or(a, Or(b, Or(c, d)))
  {
    var ss := [a, b, c, d];
    if a == "" {
      assert ss[1..] == [b, c, d];
      CoalesceThree(b, c, d);
    }
  }

  /** The settings a call goes by: each is the flag, else the environment, and so on. */
  datatype Settings = Settings(host: string, https: bool, folder: string, listed: Option<HostConfig>)

  function SettingsOf(w: World, s: State): Settings {
    var host := Or(s.server, w.envServer);
    var folder := Or(s.storage, Or(w.envStorage, "~/.config/trustyca"));
    var hosts := w.hosts(w.configFile(s.cfg, folder));
    Settings(host, |host| >= 8 && host[..8] == "https://", folder,
             if hosts.Some? && host in hosts.value then Some(hosts.value[host]) else None)
  }

  lemma SettingsExact(w: World, s: State)
    ensures var x := SettingsOf(w, s);
            && Host(w, s) == x.host && (IsHttps(Host(w, s)) <==> x.https)
            && PlainFolder(w, s) == x.folder && Listed(w, s) == x.listed
  {
    CoalesceThree(s.storage, w.envStorage, DEFAULT_STORAGE_PATH);
    var ss := [s.server, w.envServer];
    if s.server == "" {
      assert ss[1..] == [w.envServer];
      assert Coalesce([w.envServer]) == w.envServer;
    }
  }

  /**
   * A gRPC client is created for the host of the flag or the environment. Its folder is that of the
   * flag, the environment or the default; for an https host the configuration lists it is that of
   * the flag, the environment, the configuration or the default, expanded.
   */
  lemma RpcResult(w: World, s: State, skipAuth: bool, io: IO)
    requires s.rpc.None?
    ensures var (s', res) := RpcCall(w, s, skipAuth, io);
            var x := SettingsOf(w, s);
            && (res == NoServer <==> s.server == "" && w.envServer == "")
            && (res == Failed <==>
                  && x.host != ""
                  && (!io.dial || (x.https && (!io.configFile || !io.tls || (!skipAuth && !io.token)))))
            && (res.Ok? ==>
                  && s' == s.(rpc := Some(res.client)) && res.client.host == x.host
                  && res.client.storageFolder ==
                     if x.https && x.listed.Some? then
                       w.expand(Or(s.storage, Or(w.envStorage, Or(x.listed.value.storageFolder, "~/.config/trustyca"))))
                     else x.folder)
            && (!res.Ok? ==> s' == s)
  {
    SettingsExact(w, s);
    if Listed(w, s).Some? {
      CoalesceFour(s.storage, w.envStorage, Listed(w, s).value.storageFolder, DEFAULT_STORAGE_PATH);
    }
  }

  /**
   * An HTTP client is created for the same host, if the configuration lists it or the library has
   * one for a host that is not listed, with the folder of the flag, the environment, that
   * configuration or the default, expanded; the folder is written back also if the call fails later.
   */
  lemma HttpResult(w: World, s: State, skipAuth: bool, io: IO)
    requires s.http.None?
    ensures var (s', res) := HttpCall(w, s, skipAuth, io);
            var x := SettingsOf(w, s);
            var config := if x.listed.Some? then x.listed else w.unlisted;
            && (res == NoServer <==> s.server == "" && w.envServer == "")
            && (res == Failed <==>
                  && x.host != ""
                  && (!io.configFile || config.None? || (x.https && (!io.tls || (!skipAuth && !io.token)))))
            && (if x.host != "" && io.configFile && config.Some? then
                  && s'.storage ==
                     w.expand(Or(s.storage, Or(w.envStorage, Or(config.value.storageFolder, "~/.config/trustyca"))))
                  && s' == s.(storage := s'.storage, http := s'.http)
                else s' == s)
            && (res.Ok? ==> s'.http == Some(res.client) && res.client == Client(x.host, s'.storage))
            && (!res.Ok? ==> s'.http == None)
  {
    SettingsExact(w, s);
    if HttpConfig(w, s).Some? {
      CoalesceFour(s.storage, w.envStorage, HttpConfig(w, s).value.storageFolder, DEFAULT_STORAGE_PATH);
    }
  }

  /** A client that has been created uses the folder. */
  predicate Uses(c: Option<Client>, folder: string) {
    c.Some? ==> c.value.storageFolder == folder
  }

  /** The flag is as given or the folder itself, and the clients use the folder. */
  ghost predicate Settled(w: World, s0: State, s: State)
    requires Listed(w, s0).Some?
  {
    && s.server == s0.server && s.cfg == s0.cfg
    && (s.storage == s0.storage || s.storage == Folder(w, s0))
    && Uses(s.rpc, Folder(w, s0)) && Uses(s.http, Folder(w, s0))
  }

  lemma FoldersSettled(w: World, s0: State, s: State)
    requires Listed(w, s0).Some? && IsHttps(Host(w, s0)) && Expands(w, Path(w, s0)) && Settled(w, s0, s)
    ensures RpcFolder(w, s) == Folder(w, s0)
    ensures HttpConfig(w, s).Some? ==> HttpFolder(w, s) == Folder(w, s0)
  {
    if s.storage == s0.storage {
      assert ConfigFileName(w, s) == ConfigFileName(w, s0) && Listed(w, s) == Listed(w, s0);
    } else {
      assert Coalesce([s.storage, w.envStorage, DEFAULT_STORAGE_PATH]) == s.storage;
      assert forall x :: Coalesce([s.storage, w.envStorage, x, DEFAULT_STORAGE_PATH]) == s.storage;
    }
  }

  /**
   * For an https host the configuration lists, if its path expands, every call of any run, whatever fails in it, gives
   * a client with the one folder of the host, although the HTTP client writes the folder back,
   * which also moves the configuration file the later calls read when no Cfg is given.
   */
  lemma {:induction false} OneFolder(w: World, s0: State, s: State, calls: seq<Call>)
    requires Listed(w, s0).Some? && IsHttps(Host(w, s0)) && Expands(w, Path(w, s0)) && Settled(w, s0, s)
    ensures Settled(w, s0, After(w, s, calls))
    decreases |calls|
  {
    if calls != [] {
      FoldersSettled(w, s0, s);
      OneFolder(w, s0, Do(w, s, calls[0]).0, calls[1..]);
    }
  }

  /** A client, once created, is the client of every later call of its kind. */
  lemma {:induction false} ClientsKept(w: World, s: State, calls: seq<Call>)
    ensures s.rpc.Some? ==> After(w, s, calls).rpc == s.rpc
    ensures s.http.Some? ==> After(w, s, calls).http == s.http
    ensures var s' := After(w, s, calls);
            forall skip, io :: (s'.rpc.Some? ==> RpcCall(w, s', skip, io) == (s', Ok(s'.rpc.value))) &&
                               (s'.http.Some? ==> HttpCall(w, s', skip, io) == (s', Ok(s'.http.value)))
    decreases |calls|
  {
    if calls != [] {
      ClientsKept(w, Do(w, s, calls[0]).0, calls[1..]);
    }
  }

  lemma TwoCalls(w: World, s: State, a: Call, b: Call)
    ensures After(w, s, [a, b]) == Do(w, Do(w, s, a).0, b).0
  {
    var s' := Do(w, s, a).0;
    assert After(w, s, [a, b]) == After(w, s', [b]);
    assert After(w, s', [b]) == Do(w, s', b).0;
  }

  /** Both clients have been created and use the same folder. */
  predicate Agree(s: State) {
    s.rpc.Some? && s.http.Some? && s.rpc.value.storageFolder == s.http.value.storageFolder
  }

  /** The state after the HTTP client has written its folder back. */
  function Moved(w: World, s: State): State
    requires HttpConfig(w, s).Some?
  {
    s.(storage := HttpFolder(w, s))
  }

  lemma PlainFolderOf(w: World, s: State)
    ensures PlainFolder(w, s) != "" && (s.storage != "" ==> PlainFolder(w, s) == s.storage)
    ensures s.storage != "" ==> forall x :: Coalesce([s.storage, w.envStorage, x, DEFAULT_STORAGE_PATH]) == s.storage
  {
    CoalesceFirst([s.storage, w.envStorage, DEFAULT_STORAGE_PATH], 2);
  }

  /** The folder of the gRPC client once the HTTP client has written its own back. */
  lemma MovedFolders(w: World, s: State)
    requires HttpConfig(w, s).Some?
    ensures var moved, f := Moved(w, s), HttpFolder(w, s);
            && (f != "" ==>
                  RpcFolder(w, moved) == if IsHttps(Host(w, s)) && Listed(w, moved).Some? then w.expand(f) else f)
            && (f != "" && HttpConfig(w, moved).Some? ==> HttpFolder(w, moved) == w.expand(f))
            && (f == "" && (!IsHttps(Host(w, s)) || Listed(w, moved).None?) ==> RpcFolder(w, moved) != "")
  {
    PlainFolderOf(w, Moved(w, s));
  }

  /**
   * For an https host, a gRPC client and a later HTTP client agree exactly if the configuration
   * lists the host or the unexpanded folder is the expanded one. A later gRPC client reads the
   * configuration file of the folder written back: it agrees exactly if that one does not list
   * the host or expanding the folder again changes nothing; and if the path did not expand, which
   * clears the flag, exactly if the path that is then resolved does not expand either.
   */
  lemma SecureHost(w: World, s: State, skip: bool, io: IO)
    requires IsHttps(Host(w, s)) && HttpConfig(w, s).Some?
    requires io == IO(true, true, true, true) && s.rpc.None? && s.http.None?
    ensures Agree(After(w, s, [Rpc(skip, io), Http(skip, io)])) <==>
            Listed(w, s).Some? || PlainFolder(w, s) == HttpFolder(w, s)
    ensures var f, moved := HttpFolder(w, s), Moved(w, s);
            Agree(After(w, s, [Http(skip, io), Rpc(skip, io)])) <==>
            if f == "" then Listed(w, moved).Some? && w.expand(Path(w, moved)) == ""
            else Listed(w, moved).None? || w.expand(f) == f
  {
    var rpc, http := Rpc(skip, io), Http(skip, io);
    TwoCalls(w, s, rpc, http);
    TwoCalls(w, s, http, rpc);
    assert Listed(w, Do(w, s, rpc).0) == Listed(w, s);
    MovedFolders(w, s);
    assert RpcFolder(w, Do(w, s, http).0) == RpcFolder(w, Moved(w, s));
  }

  /**
   * For a host that is not https the gRPC client neither expands the folder nor reads the
   * configuration: it agrees with an HTTP client created after it only by chance, and with one
   * created before it exactly if the path expands.
   */
  lemma PlainHost(w: World, s: State, skip: bool, io: IO)
    requires !IsHttps(Host(w, s)) && Host(w, s) != "" && io.configFile && io.dial
    requires HttpConfig(w, s).Some? && s.rpc.None? && s.http.None?
    ensures Agree(After(w, s, [Rpc(skip, io), Http(skip, io)])) <==>
            PlainFolder(w, s) == HttpFolder(w, s)
    ensures Agree(After(w, s, [Http(skip, io), Rpc(skip, io)])) <==> HttpFolder(w, s) != ""
  {
    var rpc, http := Rpc(skip, io), Http(skip, io);
    TwoCalls(w, s, rpc, http);
    assert Listed(w, Do(w, s, rpc).0) == Listed(w, s);
    TwoCalls(w, s, http, rpc);
    PlainFolderOf(w, Do(w, s, http).0);
  }

  /* ---- Every run, for every host ---- */

  predicate Consistent(s: State) {
    s.rpc.Some? && s.http.Some? ==> Agree(s)
  }

  ghost predicate AlwaysConsistent(w: World, s: State) {
    forall calls :: Consistent(After(w, s, calls))
  }

  /**
   * The gRPC client starts with the folder of the HTTP client, and both keep it once it is written
   * back: a folder does not expand further where a client expands it, and a path that does not
   * expand is followed by another that does not.
   */
  predicate Steady(w: World, s: State)
    requires HttpConfig(w, s).Some?
  {
    var f, moved, https := HttpFolder(w, s), Moved(w, s), IsHttps(Host(w, s));
    && ((https && Listed(w, s).Some?) || PlainFolder(w, s) == f)
    && (if f == "" then https && Listed(w, moved).Some? && w.expand(Path(w, moved)) == ""
        else https && HttpConfig(w, moved).Some? ==> w.expand(f) == f)
  }

  /** The flag is as given or the folder of the HTTP client, which both clients use. */
  ghost predicate OnFolder(w: World, s0: State, s: State)
    requires HttpConfig(w, s0).Some?
  {
    && s.server == s0.server && s.cfg == s0.cfg
    && (s.storage == s0.storage || (s.storage == HttpFolder(w, s0) && (IsHttps(Host(w, s0)) || s.http.Some?)))
    && Uses(s.rpc, HttpFolder(w, s0)) && Uses(s.http, HttpFolder(w, s0))
  }

  lemma SteadyCall(w: World, s0: State, s: State, c: Call)
    requires HttpConfig(w, s0).Some? && Steady(w, s0) && OnFolder(w, s0, s)
    ensures OnFolder(w, s0, Do(w, s, c).0)
  {
    MovedFolders(w, s0);
    var like := if s.storage == s0.storage then s0 else Moved(w, s0);
    assert Listed(w, s) == Listed(w, like) && RpcFolder(w, s) == RpcFolder(w, like);
    assert HttpConfig(w, s).Some? ==> HttpFolder(w, s) == HttpFolder(w, like);
  }

  lemma {:induction false} SteadyRun(w: World, s0: State, s: State, calls: seq<Call>)
    requires HttpConfig(w, s0).Some? && Steady(w, s0) && OnFolder(w, s0, s)
    ensures OnFolder(w, s0, After(w, s, calls))
    decreases |calls|
  {
    hide Steady, OnFolder, Do;
    if calls != [] {
      SteadyCall(w, s0, s, calls[0]);
      SteadyRun(w, s0, Do(w, s, calls[0]).0, calls[1..]);
    }
  }

  /** Without a configuration for the host there is no HTTP client. */
  lemma {:induction false} NoHttp(w: World, s0: State, s: State, calls: seq<Call>)
    requires (HttpConfig(w, s0).None? || Host(w, s0) == "") && s == s0.(rpc := s.rpc) && s0.http.None?
    ensures After(w, s, calls).http.None?
    decreases |calls|
  {
    if calls != [] {
      assert Listed(w, s) == Listed(w, s0);
      NoHttp(w, s0, Do(w, s, calls[0]).0, calls[1..]);
    }
  }

  /** Calls after which the clients differ: the HTTP client second, first, or after a call of it that failed. */
  lemma Unsteady(w: World, s: State) returns (calls: seq<Call>)
    requires HttpConfig(w, s).Some? && Host(w, s) != "" && s.rpc.None? && s.http.None? && !Steady(w, s)
    ensures !Consistent(After(w, s, calls))
  {
    var io := IO(true, true, true, true);
    var rpc, http, failing := Rpc(false, io), Http(false, io), Http(false, io.(token := false));
    MovedFolders(w, s);
    var s1 := Do(w, s, rpc).0;
    assert Listed(w, s1) == Listed(w, s);
    if RpcFolder(w, s) != HttpFolder(w, s) {
      calls := [rpc, http];
      TwoCalls(w, s, rpc, http);
    } else if HttpFolder(w, s) == "" {
      calls := [http, rpc];
      TwoCalls(w, s, http, rpc);
      assert RpcFolder(w, Do(w, s, http).0) == RpcFolder(w, Moved(w, s));
    } else {
      calls := [rpc, failing, http];
      assert calls[1..] == [failing, http];
      TwoCalls(w, s1, failing, http);
      var s2 := Do(w, s1, failing).0;
      assert Listed(w, s2) == Listed(w, Moved(w, s)) && HttpFolder(w, s2) == HttpFolder(w, Moved(w, s));
    }
  }

  /**
   * For every host, the clients agree after every run of calls, whatever fails in them, exactly
   * when there is never an HTTP client or the folder is steady.
   */
  lemma FoldersAgree(w: World, s: State)
    requires s.rpc.None? && s.http.None?
    ensures AlwaysConsistent(w, s) <==> Host(w, s) == "" || HttpConfig(w, s).None? || Steady(w, s)
  {
    hide Steady;
    if Host(w, s) == "" || HttpConfig(w, s).None? {
      forall calls ensures Consistent(After(w, s, calls)) {
        NoHttp(w, s, s, calls);
      }
    } else if Steady(w, s) {
      forall calls ensures Consistent(After(w, s, calls)) {
        SteadyRun(w, s, s, calls);
      }
    } else {
      var calls := Unsteady(w, s);
    }
  }
}
