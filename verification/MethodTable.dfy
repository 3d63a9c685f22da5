/** The RPC methods of the private API and the aliases of their CLI commands. */
module MethodTable {

  datatype MethodInfo = MethodInfo(cliCmd: string)

  type Methods = map<string, MethodInfo>

  const ADMIN_SERVICE_PREFIX := "/privpb.Admin/"

  predicate IsAdmin(name: string) {
    ADMIN_SERVICE_PREFIX <= name
  }

  /* ---- Aliases ---- */

  /** The names of the table in the order a range yields them. */
  ghost predicate IsOrder(methods: Methods, order: seq<string>) {
    && (forall name :: name in order <==> name in methods)
    && (forall i, j | 0 <= i < j < |order| :: order[i] != order[j])
  }

  /** The aliases of the methods visited so far: the last method of a command is its alias. */
  ghost function AliasesIn(methods: Methods, order: seq<string>): map<string, string>
    requires forall name | name in order :: name in methods
  {
    if order == [] then map[]
    else
      var name := order[|order| - 1];
      var before := AliasesIn(methods, order[..|order| - 1]);
      if methods[name].cliCmd == "" then before else before[methods[name].cliCmd := name]
  }

  method GetMethodAliases(methods: Methods) returns (res: map<string, string>)
    ensures exists order :: IsOrder(methods, order) && res == AliasesIn(methods, order)
  {
    res := map[];
    var todo := methods.Keys;
    ghost var order: seq<string> := [];
    while todo != {}
      invariant todo <= methods.Keys
      invariant forall name :: name in order <==> name in methods && name !in todo
      invariant forall i, j | 0 <= i < j < |order| :: order[i] != order[j]
      invariant res == AliasesIn(methods, order)
    {
      var fn :| fn in todo;
      todo := todo - {fn};
      if methods[fn].cliCmd != "" {
        res := res[methods[fn].cliCmd := fn];
      }
      assert (order + [fn])[..|order|] == order;
      order := order + [fn];
    }
    assert IsOrder(methods, order);
  }

  ghost predicate DistinctCommands(methods: Methods) {
    forall x, y | x in methods && y in methods && x != y && methods[x].cliCmd != "" ::
      methods[x].cliCmd != methods[y].cliCmd
  }

  /** The alias of a command is a method with the command, and every command has one. */
  lemma {:induction false} AliasesInSound(methods: Methods, order: seq<string>)
    requires forall name | name in order :: name in methods
    ensures var a := AliasesIn(methods, order);
            && (forall c | c in a :: c != "" && a[c] in order && methods[a[c]].cliCmd == c)
            && (forall name | name in order && methods[name].cliCmd != "" :: methods[name].cliCmd in a)
  {
    if order != [] {
      AliasesInSound(methods, order[..|order| - 1]);
      assert order == order[..|order| - 1] + [order[|order| - 1]];
    }
  }

  /** The aliases invert the commands: from a command to its method and back. */
  ghost predicate IsInverse(methods: Methods, a: map<string, string>) {
    && (forall c | c in a :: c != "" && a[c] in methods && methods[a[c]].cliCmd == c)
    && (forall name | name in methods && methods[name].cliCmd != "" ::
          methods[name].cliCmd in a && a[methods[name].cliCmd] == name)
  }

  lemma InverseUnique(methods: Methods, a: map<string, string>, b: map<string, string>)
    requires IsInverse(methods, a) && IsInverse(methods, b)
    ensures a == b
  {
    assert forall c | c in a :: c in b && b[c] == a[c];
    assert forall c | c in b :: c in a;
  }

  /** With distinct commands the aliases are the inverse of the commands, in every order. */
  lemma AliasesInverse(methods: Methods, order: seq<string>)
    requires DistinctCommands(methods) && IsOrder(methods, order)
    ensures IsInverse(methods, AliasesIn(methods, order))
  {
    AliasesInSound(methods, order);
  }

  ghost predicate OrderIrrelevant(methods: Methods) {
    forall o, p | IsOrder(methods, o) && IsOrder(methods, p) :: AliasesIn(methods, o) == AliasesIn(methods, p)
  }

  lemma DistinctIrrelevant(methods: Methods)
    requires DistinctCommands(methods)
    ensures OrderIrrelevant(methods)
  {
    forall o, p | IsOrder(methods, o) && IsOrder(methods, p) ensures AliasesIn(methods, o) == AliasesIn(methods, p) {
      AliasesInverse(methods, o);
      AliasesInverse(methods, p);
      InverseUnique(methods, AliasesIn(methods, o), AliasesIn(methods, p));
    }
  }

  /** The order of the range does not show exactly when no two methods share a command. */
  lemma OrderShows(methods: Methods)
    ensures OrderIrrelevant(methods) <==> DistinctCommands(methods)
  {
    if DistinctCommands(methods) {
      DistinctIrrelevant(methods);
    } else {
      var x, y :| x in methods && y in methods && x != y &&
                  methods[x].cliCmd != "" && methods[x].cliCmd == methods[y].cliCmd;
      SharedShows(methods, x, y);
    }
  }

  lemma SharedShows(methods: Methods, x: string, y: string)
    requires x in methods && y in methods && x != y && methods[x].cliCmd != "" && methods[x].cliCmd == methods[y].cliCmd
    ensures !OrderIrrelevant(methods)
  {
    hide AliasesIn, IsOrder;
    var rest := OrderOf(methods.Keys - {x, y});
    var o, p := rest + [y, x], rest + [x, y];
    LastVisited(methods, rest, y, x);
    LastVisited(methods, rest, x, y);
    assert IsOrder(methods, o) && IsOrder(methods, p) && AliasesIn(methods, o) != AliasesIn(methods, p);
  }

  /** The method visited last is the alias of its command. */
  lemma LastVisited(methods: Methods, rest: seq<string>, x: string, y: string)
    requires x in methods && y in methods && x != y && methods[y].cliCmd != ""
    requires forall name :: name in rest <==> name in methods && name != x && name != y
    requires forall i, j | 0 <= i < j < |rest| :: rest[i] != rest[j]
    ensures var o := rest + [x, y];
            IsOrder(methods, o) && (var a := AliasesIn(methods, o); methods[y].cliCmd in a && a[methods[y].cliCmd] == y)
  {
  }

  lemma {:induction false} OrderOf(names: set<string>) returns (order: seq<string>)
    ensures forall name :: name in order <==> name in names
    ensures forall i, j | 0 <= i < j < |order| :: order[i] != order[j]
  {
    if names == {} {
      order := [];
    } else {
      var name :| name in names;
      order := OrderOf(names - {name});
      order := order + [name];
    }
  }

  /* ---- The Admin methods ---- */

  ghost function AdminOnly(methods: Methods): Methods {
    map name | name in methods && IsAdmin(name) :: methods[name]
  }

  method GetAdminMethodsInfo(methods: Methods) returns (res: Methods)
    ensures res == AdminOnly(methods)
    ensures forall name | name in res :: name in methods && res[name] == methods[name]
    ensures forall name | name in methods :: name in res <==> |name| >= 14 && name[..14] == "/privpb.Admin/"
  {
    res := map[];
    var todo := methods.Keys;
    while todo != {}
      invariant todo <= methods.Keys
      invariant res == map name | name in methods && name !in todo && IsAdmin(name) :: methods[name]
    {
      var name :| name in todo;
      todo := todo - {name};
      if !IsAdmin(name) {
        continue;
      }
      res := res[name := methods[name]];
    }
  }

  ghost predicate NoOtherCommands(methods: Methods) {
    forall name | name in methods && !IsAdmin(name) :: methods[name].cliCmd == ""
  }

  /** The Admin methods have the aliases of all methods exactly when no other method has a command. */
  lemma AdminAliases(methods: Methods, o: seq<string>, p: seq<string>)
    requires DistinctCommands(methods) && IsOrder(methods, o) && IsOrder(AdminOnly(methods), p)
    ensures AliasesIn(methods, o) == AliasesIn(AdminOnly(methods), p) <==>
            NoOtherCommands(methods)
  {
    var a, b := AliasesIn(methods, o), AliasesIn(AdminOnly(methods), p);
    AliasesInverse(methods, o);
    AliasesInverse(AdminOnly(methods), p);
    if NoOtherCommands(methods) {
      forall name | name in methods && methods[name].cliCmd != ""
        ensures methods[name].cliCmd in b && b[methods[name].cliCmd] == name
      {
        assert name in AdminOnly(methods) && AdminOnly(methods)[name] == methods[name];
      }
      assert IsInverse(methods, b);
      InverseUnique(methods, a, b);
    } else {
      var name :| name in methods && !IsAdmin(name) && methods[name].cliCmd != "";
      assert a[methods[name].cliCmd] == name;
    }
  }

  /* ---- The table ---- */

  /** The methods with a command. */
  const COMMANDS: Methods := map[
    "/privpb.Admin/ListOrgs" := MethodInfo("org list"),
    "/privpb.Admin/ListProjects" := MethodInfo("project list"),
    "/privpb.Admin/ListIssuers" := MethodInfo("ca issuer list"),
    "/privpb.Admin/ListCertificates" := MethodInfo("ca cert list")
  ]

  const BACKEND_PREFIX := "/privpb.Backend/"

  /** The methods without one, all of the Backend service. */
  const BACKEND: set<string> := {
    "RegisterIssuer", "ImportIssuer", "ActivateIssuer", "UpdateIssuer", "GetIssuer", "ListIssuers",
    "RegisterRoot", "ListRoots", "RegisterProfile", "GetProfile", "ListProfiles", "DeleteProfile",
    "SignCertificate", "GetCertificate", "ListCertificates", "UpdateCertificateLabel", "RevokeCertificate",
    "ListRevokedCertificates", "GetCRL", "PublishCrls", "SignOCSP", "GetSummary"
  }

  /** A method of the Backend service has no command. */
  function TableOf(backend: set<string>, commands: Methods): Methods {
    (map name | name in backend :: BACKEND_PREFIX + name := MethodInfo("")) + commands
  }

  const METHODS: Methods := TableOf(BACKEND, COMMANDS)

  lemma CommandsAdmin()
    ensures forall name | name in COMMANDS :: IsAdmin(name)
  {
    assert IsAdmin("/privpb.Admin/ListOrgs");
    assert IsAdmin("/privpb.Admin/ListProjects");
    assert IsAdmin("/privpb.Admin/ListIssuers");
    assert IsAdmin("/privpb.Admin/ListCertificates");
  }

  lemma CommandsDistinct()
    ensures DistinctCommands(COMMANDS)
  {
    var orgs, projects, issuers, certs := "org list", "project list", "ca issuer list", "ca cert list";
    assert |orgs| == 8 && |projects| == |certs| == 12 && |issuers| == 14 && projects[0] != certs[0];
  }

  /** In the table of the private API every command is of an Admin method and of one method only. */
  lemma TableCommands()
    ensures DistinctCommands(METHODS) && NoOtherCommands(METHODS)
  {
    hide IsAdmin;
    CommandsAdmin();
    CommandsDistinct();
    assert forall name | name in METHODS && METHODS[name].cliCmd != "" ::
        name in COMMANDS && METHODS[name] == COMMANDS[name];
  }

  lemma NotAdmin(name: string)
    ensures !IsAdmin(BACKEND_PREFIX + name)
  {
    assert (BACKEND_PREFIX + name)[8] == 'B' && ADMIN_SERVICE_PREFIX[8] == 'A';
  }

  lemma AdminsOf(backend: set<string>, commands: Methods)
    requires forall name | name in commands :: IsAdmin(name)
    ensures AdminOnly(TableOf(backend, commands)) == commands
  {
    var table := TableOf(backend, commands);
    forall name | name in table && IsAdmin(name) ensures name in commands {
      if name !in commands {
        var short :| short in backend && name == BACKEND_PREFIX + short;
        NotAdmin(short);
      }
    }
    forall name | name in commands ensures name in AdminOnly(table) && AdminOnly(table)[name] == commands[name] {
    }
  }

  /** The Admin methods of the table are the four with a command. */
  lemma AdminTable()
    ensures AdminOnly(METHODS) == COMMANDS
  {
    CommandsAdmin();
    AdminsOf(BACKEND, COMMANDS);
    hide IsAdmin, AdminOnly, TableOf;
  }
}
