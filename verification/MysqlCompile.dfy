/**
 Compiling the MySQL configuration into named instances, and resolving an instance by its qualified
 or its plain name. Endpoints, pools and connection strings only matter here as sound or unsound.
 */
module MysqlCompile {
  import opened Wrappers
  import opened Text

  const DEFAULT := "default"

  /** One logical database: its configured real name, and whether its settings pass validation. */
  datatype Database = Database(name: string, sound: bool)

  /** `endpoint`: any host, port, user, password, write or read is set; `shared`: parameters or pools are. */
  datatype Server = Server(endpoint: bool, shared: bool, sound: bool, databases: map<string, Database>)

  /** `top` holds the fields of single-server mode. */
  datatype Config = Config(top: Server, servers: map<string, Server>)

  datatype Instance = Instance(name: string, server: string, database: string)

  /** An empty alias target marks an ambiguous name. */
  datatype Compiled = Compiled(instances: map<string, Instance>, aliases: map<string, string>)

  const EMPTY := Compiled(map[], map[])

  datatype CompileError = MixedModes | BadName(name: string) | EmptyServer | NoDatabases | Unsound | Duplicated(name: string)

  // ---------------------------------------------------------------- compiling

  predicate DotFree(s: string) {
    forall i | 0 <= i < |s| :: s[i] != '.'
  }

  /** validateKey, where dots are not allowed. */
  predicate ValidKey(key: string) {
    TrimSpace(key) != "" && TrimSpace(key) == key && DotFree(key)
  }

  predicate IsZero(s: Server) {
    !s.endpoint && !s.shared && s.databases == map[]
  }

  function Qualified(server: string, logical: string): string {
    server + "." + logical
  }

  function MakeInstance(server: string, logical: string, database: Database, multi: bool): Instance {
    Instance(if multi then Qualified(server, logical) else logical, server,
             if Blank(database.name) then logical else TrimSpace(database.name))
  }

  function Registering(out: Compiled, logical: string, instance: Instance): Result<Compiled, CompileError> {
    if instance.name in out.instances then Failure(Duplicated(instance.name))
    else
      var added := out.(instances := out.instances[instance.name := instance]);
      if logical == instance.name then Success(added)
      else if logical in out.aliases then
        Success(if out.aliases[logical] == instance.name then added else added.(aliases := out.aliases[logical := ""]))
      else Success(added.(aliases := out.aliases[logical := instance.name]))
  }

  /** The databases of one server, in the order given. */
  function Databases(out: Compiled, name: string, server: Server, multi: bool, order: seq<string>)
    : Result<Compiled, CompileError>
    requires forall i | 0 <= i < |order| :: order[i] in server.databases
  {
    if order == [] then Success(out)
    else
      var n := |order| - 1;
      var logical := order[n];
      var init := Databases(out, name, server, multi, order[..n]);
      if init.Failure? then init
      else if !ValidKey(logical) then Failure(BadName(logical))
      else if !server.databases[logical].sound then Failure(Unsound)
      else Registering(init.value, logical, MakeInstance(name, logical, server.databases[logical], multi))
  }

  function CompileServer(out: Compiled, name: string, server: Server, multi: bool): Result<Compiled, CompileError> {
    if IsZero(server) then Failure(EmptyServer)
    else if server.databases == map[] then Failure(NoDatabases)
    else if !server.sound then Failure(Unsound)
    else Databases(out, name, server, multi, SortedKeys(server.databases.Keys))
  }

  function Servers(servers: map<string, Server>, order: seq<string>): Result<Compiled, CompileError>
    requires forall i | 0 <= i < |order| :: order[i] in servers
  {
    if order == [] then Success(EMPTY)
    else
      var n := |order| - 1;
      var init := Servers(servers, order[..n]);
      if init.Failure? then init
      else if !ValidKey(order[n]) then Failure(BadName(order[n]))
      else CompileServer(init.value, order[n], servers[order[n]], true)
  }

  function Compile(c: Config): Result<Compiled, CompileError> {
    if c.servers == map[] && IsZero(c.top) then Success(EMPTY)
    else if c.servers != map[] then
      if c.top.endpoint || c.top.databases != map[] then Failure(MixedModes)
      else Servers(c.servers, SortedKeys(c.servers.Keys))
    else CompileServer(EMPTY, "", c.top, false)
  }

  // ---------------------------------------------------------------- resolving

  datatype ResolveError = NotConfigured(name: string) | NothingConfigured | Ambiguous(name: string)

  /** No name, or a blank one, asks for "default". */
  function Requested(name: Option<string>): string {
    if name.Some? && !Blank(name.value) then TrimSpace(name.value) else DEFAULT
  }

  function Resolve(c: Compiled, name: Option<string>): Result<Instance, ResolveError> {
    var requested := Requested(name);
    if c.instances == map[] then Failure(if requested != DEFAULT then NotConfigured(requested) else NothingConfigured)
    else if requested in c.instances then Success(c.instances[requested])
    else if requested in c.aliases && c.aliases[requested] == "" then Failure(Ambiguous(requested))
    else if requested in c.aliases && c.aliases[requested] in c.instances then Success(c.instances[c.aliases[requested]])
    else if requested == DEFAULT && |c.instances| == 1 then
      (assert c.instances.Keys != {}; var only := TheOnly(c.instances.Keys); Success(c.instances[only]))
    else Failure(NotConfigured(requested))
  }

  function TheOnly(s: set<string>): (x: string)
    requires |s| == 1
    ensures s == {x}
  {
    SingletonSet(s);
    var x :| s == {x};
    x
  }

  lemma SingletonSet(s: set<string>)
    requires |s| == 1
    ensures exists x :: s == {x}
    ensures forall x, y | x in s && y in s :: x == y
  {
    assert s != {};
    var x :| x in s;
    assert |s - {x}| == 0;
    assert s == {x};
  }

  // ---------------------------------------------------------------- what compiling produces

  /** What has been registered so far, in multi-server mode, as (server, logical name) pairs. */
  type Pairs = set<(string, string)>

  ghost predicate Names(servers: map<string, Server>, pairs: Pairs) {
    forall p | p in pairs :: p.0 in servers && p.1 in servers[p.0].databases && DotFree(p.0) && DotFree(p.1)
  }

  /** `x` is database `l` of server `s`, in multi-server mode. */
  predicate IsMulti(x: Instance, s: string, l: string, database: Database) {
    x == Instance(s + "." + l, s, if TrimSpace(database.name) == "" then l else TrimSpace(database.name))
  }

  /** `x` is database `l` of the only server. */
  predicate IsSingle(x: Instance, l: string, database: Database) {
    x == Instance(l, "", if TrimSpace(database.name) == "" then l else TrimSpace(database.name))
  }

  /** What the configured pair `p` is compiled into. */
  predicate IsInstance(x: Instance, servers: map<string, Server>, p: (string, string))
    requires p.0 in servers && p.1 in servers[p.0].databases
  {
    IsMulti(x, p.0, p.1, servers[p.0].databases[p.1])
  }

  /** Exactly the registered pairs are there, under their qualified names. */
  ghost predicate InstancesExact(servers: map<string, Server>, pairs: Pairs, instances: map<string, Instance>)
    requires Names(servers, pairs)
  {
    && (forall p | p in pairs :: Qualified(p.0, p.1) in instances && IsInstance(instances[Qualified(p.0, p.1)], servers, p))
    && (forall name | name in instances :: exists p | p in pairs :: name == Qualified(p.0, p.1))
  }

  /** The alias of a logical name: its only owner, or nothing when there are several. */
  ghost predicate AliasExact(pairs: Pairs, aliases: map<string, string>, l: string) {
    && (l in aliases <==> exists s :: (s, l) in pairs)
    && (l in aliases ==>
          && (forall s | (s, l) in pairs :: aliases[l] == Qualified(s, l) || aliases[l] == "")
          && (aliases[l] == "" <==> exists s, t :: s != t && (s, l) in pairs && (t, l) in pairs))
  }

  ghost predicate Exact(servers: map<string, Server>, pairs: Pairs, out: Compiled) {
    Names(servers, pairs) && InstancesExact(servers, pairs, out.instances) && forall l :: AliasExact(pairs, out.aliases, l)
  }

  lemma QualifiedInjective(s: string, l: string, t: string, m: string)
    requires DotFree(s) && DotFree(t) && Qualified(s, l) == Qualified(t, m)
    ensures s == t && l == m
  {
    var q := Qualified(s, l);
    assert q[|s|] == '.' && q[|t|] == '.';
    assert forall i | 0 <= i < |s| :: q[i] == s[i] && q[i] != '.';
    assert forall i | 0 <= i < |t| :: q[i] == t[i] && q[i] != '.';
    assert q[..|s|] == s && q[..|t|] == t && q[|s| + 1..] == l && q[|t| + 1..] == m;
  }

  lemma QualifiedDotted(s: string, l: string)
    ensures !DotFree(Qualified(s, l)) && Qualified(s, l) != ""
  {
    assert Qualified(s, l)[|s|] == '.';
  }

  lemma MadeMulti(s: string, l: string, database: Database)
    ensures IsMulti(MakeInstance(s, l, database, true), s, l, database)
    ensures MakeInstance(s, l, database, true).name == Qualified(s, l)
  {
    hide TrimSpace;
  }

  lemma MadeSingle(l: string, database: Database)
    ensures IsSingle(MakeInstance("", l, database, false), l, database)
    ensures MakeInstance("", l, database, false).name == l
  {
    hide TrimSpace;
  }

  /** Registering a new pair succeeds, and adds just that pair. */
  lemma RegisteringExact(servers: map<string, Server>, pairs: Pairs, out: Compiled, p: (string, string))
    requires Exact(servers, pairs, out) && p !in pairs && Names(servers, {p})
    ensures
      var next := Registering(out, p.1, MakeInstance(p.0, p.1, servers[p.0].databases[p.1], true));
      next.Success? && Exact(servers, pairs + {p}, next.value)
  {
    hide Qualified, TrimSpace, Blank, DotFree, MakeInstance, IsMulti;
    assert p in {p};
    MadeMulti(p.0, p.1, servers[p.0].databases[p.1]);
    var name := Qualified(p.0, p.1);
    if name in out.instances {
      var q :| q in pairs && name == Qualified(q.0, q.1);
      QualifiedInjective(p.0, p.1, q.0, q.1);
    }
    QualifiedDotted(p.0, p.1);
    var made := MakeInstance(p.0, p.1, servers[p.0].databases[p.1], true);
    var next := Registering(out, p.1, made).value;
    RegisteredInstances(servers, pairs, out.instances, p, made);
    forall l ensures AliasExact(pairs + {p}, next.aliases, l) {
      RegisteredAlias(pairs, out.aliases, next.aliases, p, l);
    }
  }

  lemma RegisteredInstances(servers: map<string, Server>, pairs: Pairs, instances: map<string, Instance>, p: (string, string),
                            made: Instance)
    requires Names(servers, pairs) && InstancesExact(servers, pairs, instances) && Names(servers, {p})
    requires p in {p} && IsInstance(made, servers, p) && Qualified(p.0, p.1) !in instances
    ensures Names(servers, pairs + {p})
    ensures p in {p} && InstancesExact(servers, pairs + {p}, instances[Qualified(p.0, p.1) := made])
  {
    hide Qualified, TrimSpace, Blank, DotFree;
    assert p in {p};
    var next := instances[Qualified(p.0, p.1) := made];
    assert p in pairs + {p};
    forall name | name in next ensures exists q | q in pairs + {p} :: name == Qualified(q.0, q.1) {
      if name in instances {
        var q :| q in pairs && name == Qualified(q.0, q.1);
        assert q in pairs + {p};
      }
    }
  }

  lemma RegisteredAlias(pairs: Pairs, aliases: map<string, string>, next: map<string, string>, p: (string, string), l: string)
    requires p !in pairs && AliasExact(pairs, aliases, l) && AliasExact(pairs, aliases, p.1)
    requires Qualified(p.0, p.1) != ""
    requires forall s | (s, p.1) in pairs :: Qualified(s, p.1) != Qualified(p.0, p.1)
    requires next == if p.1 in aliases then
                       (if aliases[p.1] == Qualified(p.0, p.1) then aliases else aliases[p.1 := ""])
                     else aliases[p.1 := Qualified(p.0, p.1)]
    ensures AliasExact(pairs + {p}, next, l)
  {
    hide Qualified;
    var after := pairs + {p};
    assert forall s :: (s, l) in after <==> (s, l) in pairs || (s == p.0 && l == p.1);
    if l == p.1 {
      assert (p.0, l) in after;
      if l in aliases {
        var s :| (s, l) in pairs;
        assert s != p.0;
        assert (s, l) in after;
      }
    }
  }

  /** All logical names of a server that come up in `order`. */
  ghost function PairsOf(name: string, order: seq<string>): Pairs {
    set l | l in order :: (name, l)
  }

  predicate SoundDatabases(server: Server, order: seq<string>) {
    forall i | 0 <= i < |order| :: order[i] in server.databases && ValidKey(order[i]) && server.databases[order[i]].sound
  }

  lemma {:induction false} DatabasesExact(servers: map<string, Server>, pairs: Pairs, out: Compiled, name: string,
                                          order: seq<string>)
    requires Exact(servers, pairs, out) && name in servers && DotFree(name)
    requires forall i | 0 <= i < |order| :: order[i] in servers[name].databases
    requires forall i, j | 0 <= i < j < |order| :: order[i] != order[j]
    requires forall i | 0 <= i < |order| :: (name, order[i]) !in pairs
    ensures
      var result := Databases(out, name, servers[name], true, order);
      && (result.Success? <==> SoundDatabases(servers[name], order))
      && (result.Success? ==> Exact(servers, pairs + PairsOf(name, order), result.value))
      && (result.Failure? ==> !result.error.Duplicated?)
  {
    hide Exact, Registering, TrimSpace, DotFree;
    if order == [] {
      assert pairs + PairsOf(name, order) == pairs;
    } else {
      var n := |order| - 1;
      DatabasesExact(servers, pairs, out, name, order[..n]);
      var init := Databases(out, name, servers[name], true, order[..n]);
      if init.Success? && ValidKey(order[n]) && servers[name].databases[order[n]].sound {
        var p, prior := (name, order[n]), pairs + PairsOf(name, order[..n]);
        assert order == order[..n] + [order[n]];
        assert p !in prior;
        RegisteringExact(servers, prior, init.value, p);
        assert prior + {p} == pairs + PairsOf(name, order);
      }
    }
  }

  predicate SoundServer(server: Server) {
    && !IsZero(server) && server.databases != map[] && server.sound
    && forall l | l in server.databases :: ValidKey(l) && server.databases[l].sound
  }

  ghost function AllPairs(servers: map<string, Server>, order: seq<string>): Pairs
    requires forall i | 0 <= i < |order| :: order[i] in servers
  {
    set s, l | s in order && l in servers[s].databases :: (s, l)
  }

  lemma SortedSound(server: Server)
    ensures SoundDatabases(server, SortedKeys(server.databases.Keys))
       <==> forall l | l in server.databases :: ValidKey(l) && server.databases[l].sound
    ensures forall i, j | 0 <= i < j < |SortedKeys(server.databases.Keys)| ::
        SortedKeys(server.databases.Keys)[i] != SortedKeys(server.databases.Keys)[j]
    ensures forall l :: l in SortedKeys(server.databases.Keys) <==> l in server.databases
  {
    hide SortedKeys, ValidKey, Leq;
    SortedKeysSorts(server.databases.Keys);
    var order := SortedKeys(server.databases.Keys);
    if SoundDatabases(server, order) {
      forall l | l in server.databases ensures ValidKey(l) && server.databases[l].sound {
        assert l in order;
        var i :| 0 <= i < |order| && order[i] == l;
      }
    }
  }

  lemma ServerExact(servers: map<string, Server>, pairs: Pairs, out: Compiled, name: string)
    requires Exact(servers, pairs, out) && name in servers && DotFree(name)
    requires forall l :: (name, l) !in pairs
    ensures
      var result := CompileServer(out, name, servers[name], true);
      && (result.Success? <==> SoundServer(servers[name]))
      && (result.Success? ==>
            Exact(servers, pairs + PairsOf(name, SortedKeys(servers[name].databases.Keys)), result.value))
      && (result.Failure? ==> !result.error.Duplicated?)
  {
    hide SortedKeys, Databases, Exact, ValidKey, SoundDatabases, DotFree;
    SortedSound(servers[name]);
    DatabasesExact(servers, pairs, out, name, SortedKeys(servers[name].databases.Keys));
  }

  lemma {:induction false} ServersExact(servers: map<string, Server>, order: seq<string>)
    requires forall i | 0 <= i < |order| :: order[i] in servers
    requires forall i, j | 0 <= i < j < |order| :: order[i] != order[j]
    ensures
      var result := Servers(servers, order);
      && (result.Success? <==> forall i | 0 <= i < |order| :: ValidKey(order[i]) && SoundServer(servers[order[i]]))
      && (result.Success? ==> Exact(servers, AllPairs(servers, order), result.value))
      && (result.Failure? ==> !result.error.Duplicated?)
  {
    hide Exact, CompileServer, TrimSpace, DotFree, SoundServer, SortedKeys;
    if order == [] {
      EmptyExact(servers);
      assert AllPairs(servers, order) == {};
    } else {
      var n := |order| - 1;
      var name := order[n];
      ServersExact(servers, order[..n]);
      var init := Servers(servers, order[..n]);
      if init.Success? && ValidKey(name) {
        var prior := AllPairs(servers, order[..n]);
        PairsStep(servers, order);
        ServerExact(servers, prior, init.value, name);
      }
    }
  }

  lemma PairsStep(servers: map<string, Server>, order: seq<string>)
    requires order != [] && forall i | 0 <= i < |order| :: order[i] in servers
    requires forall i, j | 0 <= i < j < |order| :: order[i] != order[j]
    ensures
      var n := |order| - 1;
      var prior := AllPairs(servers, order[..n]);
      && prior + PairsOf(order[n], SortedKeys(servers[order[n]].databases.Keys)) == AllPairs(servers, order)
      && forall l :: (order[n], l) !in prior
  {
    hide SortedKeys, Leq, SoundDatabases, ValidKey;
    var n := |order| - 1;
    SortedSound(servers[order[n]]);
    assert order == order[..n] + [order[n]];
    assert order[n] !in order[..n];
  }

  lemma EmptyExact(servers: map<string, Server>)
    ensures Exact(servers, {}, EMPTY)
  {
  }

  /** Every (server, logical name) pair of the configuration. */
  ghost function Configured(servers: map<string, Server>): Pairs {
    set s, l | s in servers && l in servers[s].databases :: (s, l)
  }

  predicate SoundConfig(servers: map<string, Server>) {
    forall s | s in servers :: ValidKey(s) && SoundServer(servers[s])
  }

  /**
   Multi-server mode: compiling succeeds exactly if every server and database is valid; the result
   is the configured pairs under their qualified names with their aliases, so it does not depend on
   the order of traversal, and no name is ever reported as duplicated.
   */
  lemma MultiCompileExact(c: Config)
    requires c.servers != map[] && !c.top.endpoint && c.top.databases == map[]
    ensures Compile(c).Success? <==> SoundConfig(c.servers)
    ensures Compile(c).Success? ==> Exact(c.servers, Configured(c.servers), Compile(c).value)
    ensures Compile(c).Failure? ==> !Compile(c).error.Duplicated?
  {
    hide Exact, Servers, ValidKey, SoundServer, SortedKeys, Leq;
    SortedKeysSorts(c.servers.Keys);
    var order := SortedKeys(c.servers.Keys);
    ServersExact(c.servers, order);
    assert AllPairs(c.servers, order) == Configured(c.servers);
    if Compile(c).Success? {
      forall s | s in c.servers ensures ValidKey(s) && SoundServer(c.servers[s]) {
        assert s in order;
        var i :| 0 <= i < |order| && order[i] == s;
      }
    }
  }

  /** A name's owners among the servers. */
  ghost predicate Owns(servers: map<string, Server>, s: string, l: string) {
    s in servers && l in servers[s].databases
  }

  lemma ConfiguredOwns(servers: map<string, Server>, s: string, l: string)
    ensures (s, l) in Configured(servers) <==> Owns(servers, s, l)
  {
  }

  lemma QualifiedIs(s: string, l: string)
    ensures Qualified(s, l) == s + "." + l
  {
  }

  /** Where a configured database ends up. */
  lemma OwnedInstance(servers: map<string, Server>, compiled: Compiled, s: string, l: string)
    requires Exact(servers, Configured(servers), compiled) && Owns(servers, s, l)
    ensures s + "." + l in compiled.instances
    ensures IsMulti(compiled.instances[s + "." + l], s, l, servers[s].databases[l])
  {
    hide Qualified, DotFree, AliasExact, IsMulti;
    QualifiedIs(s, l);
    var p := (s, l);
    assert p in Configured(servers) by { ConfiguredOwns(servers, s, l); }
    assert IsInstance(compiled.instances[Qualified(s, l)], servers, p);
  }

  /** A qualified name resolves to its own instance. */
  lemma QualifiedResolves(c: Config, compiled: Compiled, name: Option<string>, s: string, l: string)
    requires c.servers != map[] && Compile(c) == Success(compiled)
    requires Owns(c.servers, s, l) && Requested(name) == s + "." + l
    ensures Resolve(compiled, name).Success? && IsMulti(Resolve(compiled, name).value, s, l, c.servers[s].databases[l])
  {
    MultiMode(c);
    hide Compile, Qualified, Requested, MakeInstance, IsMulti, Exact, Configured;
    MultiCompileExact(c);
    OwnedInstance(c.servers, compiled, s, l);
  }

  lemma MultiMode(c: Config)
    requires c.servers != map[] && Compile(c).Success?
    ensures !c.top.endpoint && c.top.databases == map[]
  {
  }

  /** What the alias of a name with one owner stands for. */
  lemma UniqueAlias(servers: map<string, Server>, compiled: Compiled, s: string, l: string)
    requires Exact(servers, Configured(servers), compiled) && Owns(servers, s, l)
    requires forall t | Owns(servers, t, l) :: t == s
    ensures l in compiled.aliases && compiled.aliases[l] == s + "." + l && compiled.aliases[l] != ""
  {
    hide Qualified, DotFree, InstancesExact, Configured;
    QualifiedIs(s, l);
    QualifiedDotted(s, l);
    ConfiguredOwns(servers, s, l);
    forall t | (t, l) in Configured(servers) ensures t == s {
      ConfiguredOwns(servers, t, l);
    }
    assert AliasExact(Configured(servers), compiled.aliases, l);
  }

  /** A dot-free name resolves through its only owner. */
  lemma UniqueNameResolves(c: Config, compiled: Compiled, name: Option<string>, s: string)
    requires c.servers != map[] && Compile(c) == Success(compiled) && DotFree(Requested(name))
    requires Owns(c.servers, s, Requested(name))
    requires forall t | Owns(c.servers, t, Requested(name)) :: t == s
    ensures
      var l := Requested(name);
      Resolve(compiled, name).Success? && IsMulti(Resolve(compiled, name).value, s, l, c.servers[s].databases[l])
  {
    MultiMode(c);
    hide Compile, Requested, MakeInstance, IsMulti, DotFree, Exact, Configured, Owns;
    MultiCompileExact(c);
    DotFreeIsNoInstance(c.servers, compiled, Requested(name));
    OwnedInstance(c.servers, compiled, s, Requested(name));
    UniqueAlias(c.servers, compiled, s, Requested(name));
  }

  lemma DotFreeIsNoInstance(servers: map<string, Server>, compiled: Compiled, l: string)
    requires Exact(servers, Configured(servers), compiled) && DotFree(l)
    ensures l !in compiled.instances
  {
    hide Qualified, DotFree, Configured;
    if l in compiled.instances {
      var p :| p in Configured(servers) && l == Qualified(p.0, p.1);
      QualifiedDotted(p.0, p.1);
    }
  }

  /** A dot-free name that two servers define is ambiguous. */
  lemma SharedNameAmbiguous(c: Config, compiled: Compiled, name: Option<string>, s: string, t: string)
    requires c.servers != map[] && Compile(c) == Success(compiled) && DotFree(Requested(name))
    requires s != t && Owns(c.servers, s, Requested(name)) && Owns(c.servers, t, Requested(name))
    ensures Resolve(compiled, name) == Failure(Ambiguous(Requested(name)))
  {
    hide Compile, Requested, DotFree, Qualified;
    var l := Requested(name);
    MultiMode(c);
    MultiCompileExact(c);
    DotFreeIsNoInstance(c.servers, compiled, l);
    ConfiguredOwns(c.servers, s, l);
    ConfiguredOwns(c.servers, t, l);
    assert AliasExact(Configured(c.servers), compiled.aliases, l);
    assert compiled.instances != map[] by {
      var p := (s, l);
      assert p in Configured(c.servers) && Qualified(s, l) in compiled.instances;
    }
  }

  lemma UnknownNotFound(servers: map<string, Server>, compiled: Compiled, n: string)
    requires Exact(servers, Configured(servers), compiled)
    requires forall s :: !Owns(servers, s, n)
    requires forall s, l | Owns(servers, s, l) :: n != s + "." + l
    ensures n !in compiled.instances && n !in compiled.aliases
  {
    hide Qualified, DotFree, IsInstance;
    var pairs := Configured(servers);
    forall s ensures (s, n) !in pairs {
      ConfiguredOwns(servers, s, n);
    }
    assert AliasExact(pairs, compiled.aliases, n);
    forall p | p in pairs ensures n != Qualified(p.0, p.1) {
      QualifiedIs(p.0, p.1);
      assert Owns(servers, p.0, p.1);
    }
  }

  lemma OnlyInstance(servers: map<string, Server>, compiled: Compiled, s: string, l: string)
    requires Exact(servers, Configured(servers), compiled) && Configured(servers) == {(s, l)}
    ensures Owns(servers, s, l)
    ensures compiled.instances.Keys == {Qualified(s, l)}
    ensures IsMulti(compiled.instances[Qualified(s, l)], s, l, servers[s].databases[l])
  {
    hide Qualified, DotFree, MakeInstance, IsMulti;
    var p := (s, l);
    assert p in Configured(servers);
    forall name | name in compiled.instances ensures name == Qualified(s, l) {
      var q :| q in Configured(servers) && name == Qualified(q.0, q.1);
    }
    assert IsInstance(compiled.instances[Qualified(s, l)], servers, p);
  }

  /**
   A name that is neither a qualified name nor owned by any server fails, except that "default"
   stands for the only instance when there is just one.
   */
  lemma UnknownNameFails(c: Config, compiled: Compiled, name: Option<string>)
    requires c.servers != map[] && Compile(c) == Success(compiled)
    requires forall s :: !Owns(c.servers, s, Requested(name))
    requires forall s, l | Owns(c.servers, s, l) :: Requested(name) != s + "." + l
    ensures
      if Requested(name) == DEFAULT && |Configured(c.servers)| == 1 then
        exists s, l :: Configured(c.servers) == {(s, l)}
          && Resolve(compiled, name).Success?
          && IsMulti(Resolve(compiled, name).value, s, l, c.servers[s].databases[l])
      else
        Resolve(compiled, name) == Failure(NotConfigured(Requested(name)))
  {
    hide Compile, Requested, Qualified, MakeInstance, IsMulti, Exact, Configured;
    MultiMode(c);
    MultiCompileExact(c);
    UnknownNotFound(c.servers, compiled, Requested(name));
    InstanceCount(c.servers, compiled);
    ServersNotEmpty(c, compiled);
    if Requested(name) == DEFAULT && |Configured(c.servers)| == 1 {
      var p := TheOnlyPair(Configured(c.servers));
      assert (p.0, p.1) == p;
      OnlyInstance(c.servers, compiled, p.0, p.1);
    }
  }

  lemma TheOnlyPair(pairs: Pairs) returns (p: (string, string))
    requires |pairs| == 1
    ensures pairs == {p}
  {
    assert pairs != {};
    p :| p in pairs;
    assert |pairs - {p}| == 0;
  }

  lemma ServersNotEmpty(c: Config, compiled: Compiled)
    requires c.servers != map[] && Compile(c) == Success(compiled)
    ensures compiled.instances != map[]
  {
    hide Compile, Qualified, ValidKey;
    MultiMode(c);
    MultiCompileExact(c);
    assert c.servers.Keys != {};
    var s :| s in c.servers;
    assert SoundServer(c.servers[s]) && c.servers[s].databases.Keys != {};
    var l :| l in c.servers[s].databases;
    var p := (s, l);
    assert p in Configured(c.servers) && Qualified(s, l) in compiled.instances;
  }

  /** There are as many instances as configured pairs. */
  lemma InstanceCount(servers: map<string, Server>, compiled: Compiled)
    requires Exact(servers, Configured(servers), compiled)
    ensures |compiled.instances| == |Configured(servers)|
  {
    hide Qualified, DotFree, Configured;
    var pairs := Configured(servers);
    var names := set p | p in pairs :: Qualified(p.0, p.1);
    assert compiled.instances.Keys == names;
    QualifiedCount(servers, pairs);
  }

  lemma {:induction false} QualifiedCount(servers: map<string, Server>, pairs: Pairs)
    requires Names(servers, pairs)
    ensures |set p | p in pairs :: Qualified(p.0, p.1)| == |pairs|
  {
    hide Qualified, DotFree;
    var names := set p | p in pairs :: Qualified(p.0, p.1);
    if pairs != {} {
      var q :| q in pairs;
      var rest := pairs - {q};
      QualifiedCount(servers, rest);
      var fewer := set p | p in rest :: Qualified(p.0, p.1);
      var name := Qualified(q.0, q.1);
      if name in fewer {
        var p :| p in rest && name == Qualified(p.0, p.1);
        QualifiedInjective(p.0, p.1, q.0, q.1);
        assert false;
      }
      assert names == fewer + {name};
    }
  }

  /**
   Dot-free names in multi-server mode, exactly: such a name resolves if and only if one server owns
   it, or it is "default", unowned, and there is one instance in all; it is ambiguous if and only if
   several servers own it.
   */
  lemma DotFreeExact(c: Config, compiled: Compiled, name: Option<string>)
    requires c.servers != map[] && Compile(c) == Success(compiled) && DotFree(Requested(name))
    ensures
      var n := Requested(name);
      var result := Resolve(compiled, name);
      var several := exists s, t :: s != t && Owns(c.servers, s, n) && Owns(c.servers, t, n);
      var fallback := n == DEFAULT && |Configured(c.servers)| == 1;
      && (result.Success? <==> !several && (fallback || exists s :: Owns(c.servers, s, n)))
      && (result == Failure(Ambiguous(n)) <==> several)
  {
    hide Compile, Requested, Resolve, Qualified, MakeInstance, IsMulti, Configured, DotFree, Owns;
    var n := Requested(name);
    if s, t :| s != t && Owns(c.servers, s, n) && Owns(c.servers, t, n) {
      SharedNameAmbiguous(c, compiled, name, s, t);
    } else if s :| Owns(c.servers, s, n) {
      UniqueNameResolves(c, compiled, name, s);
    } else {
      forall s, l | Owns(c.servers, s, l) ensures n != s + "." + l {
        QualifiedIs(s, l);
        QualifiedDotted(s, l);
      }
      UnknownNameFails(c, compiled, name);
    }
  }

  // ---------------------------------------------------------------- names, and what goes wrong

  /** No name, or a blank one, asks for "default"; any other is taken without the space around it. */
  lemma RequestedIs(name: Option<string>, n: string)
    ensures Requested(name) == n
       <==> if name.None? || TrimSpace(name.value) == "" then n == "default" else n == TrimSpace(name.value)
  {
    hide TrimSpace;
  }

  /** A key is valid if it is not empty, has no space at its ends and no dot anywhere. */
  lemma ValidKeyIs(key: string)
    ensures ValidKey(key) <==> key != "" && Trimmed(key, WHITESPACE) && '.' !in key
  {
    hide Trim, WHITESPACE;
    TrimFixes(key, WHITESPACE);
  }

  /**
   Registering an instance under a name that is taken changes nothing; otherwise it is added, and its
   logical name becomes an alias for it, unless it is its own name or has an alias already, which
   from then on stands for nothing.
   */
  lemma RegisterExact(out: Compiled, logical: string, instance: Instance)
    ensures
      var result := Registering(out, logical, instance);
      && (instance.name in out.instances ==> result == Failure(Duplicated(instance.name)))
      && (instance.name !in out.instances ==>
            && result.Success? && result.value.instances == out.instances[instance.name := instance]
            && (forall l | l != logical || l == instance.name ::
                  (l in result.value.aliases <==> l in out.aliases)
                  && (l in out.aliases ==> result.value.aliases[l] == out.aliases[l]))
            && (logical != instance.name ==>
                  && logical in result.value.aliases
                  && result.value.aliases[logical]
                     == (if logical !in out.aliases || out.aliases[logical] == instance.name then instance.name else "")))
  {
  }

  /** Without any configuration nothing is compiled, and no name resolves. */
  lemma NothingToResolve(name: Option<string>)
    ensures Compile(Config(Server(false, false, true, map[]), map[])) == Success(Compiled(map[], map[]))
    ensures
      Resolve(Compiled(map[], map[]), name)
      == if Requested(name) == "default" then Failure(NothingConfigured) else Failure(NotConfigured(Requested(name)))
  {
    hide Requested;
  }

  /** Why a server can be refused. */
  predicate Refuses(server: Server, error: CompileError) {
    match error
    case EmptyServer => !server.endpoint && !server.shared && server.databases == map[]
    case NoDatabases => server.databases == map[] && (server.endpoint || server.shared)
    case Unsound => !server.sound || exists l :: l in server.databases && !server.databases[l].sound
    case BadName(l) => l in server.databases && !ValidKey(l)
    case _ => false
  }

  lemma {:induction false} DatabasesRefuse(out: Compiled, name: string, server: Server, multi: bool, order: seq<string>)
    requires forall i | 0 <= i < |order| :: order[i] in server.databases
    ensures
      var result := Databases(out, name, server, multi, order);
      result.Failure? ==> Refuses(server, result.error) || result.error.Duplicated?
  {
    hide ValidKey, MakeInstance;
    if order != [] {
      DatabasesRefuse(out, name, server, multi, order[..|order| - 1]);
    }
  }

  lemma ServerRefuses(out: Compiled, name: string, server: Server, multi: bool)
    ensures
      var result := CompileServer(out, name, server, multi);
      result.Failure? ==> Refuses(server, result.error) || result.error.Duplicated?
  {
    hide ValidKey, Databases;
    if !IsZero(server) && server.databases != map[] && server.sound {
      DatabasesRefuse(out, name, server, multi, SortedKeys(server.databases.Keys));
    }
  }

  lemma {:induction false} ServersRefuse(servers: map<string, Server>, order: seq<string>)
    requires forall i | 0 <= i < |order| :: order[i] in servers
    ensures
      var result := Servers(servers, order);
      result.Failure? ==>
        || result.error.Duplicated?
        || (result.error.BadName? && result.error.name in servers && !ValidKey(result.error.name))
        || exists s :: s in servers && Refuses(servers[s], result.error)
  {
    hide ValidKey, CompileServer, Refuses;
    if order != [] {
      var n := |order| - 1;
      ServersRefuse(servers, order[..n]);
      if Servers(servers, order[..n]).Success? {
        ServerRefuses(Servers(servers, order[..n]).value, order[n], servers[order[n]], true);
      }
    }
  }

  /** A compile error tells the truth: servers beside single-server fields, a bad name, or a server it applies to. */
  lemma ErrorExplained(c: Config)
    requires Compile(c).Failure?
    ensures
      var error := Compile(c).error;
      && (error.MixedModes? <==> c.servers != map[] && (c.top.endpoint || c.top.databases != map[]))
      && (!error.MixedModes? ==>
            if c.servers == map[] then Refuses(c.top, error)
            else
              || (error.BadName? && error.name in c.servers && !ValidKey(error.name))
              || exists s :: s in c.servers && Refuses(c.servers[s], error))
  {
    hide ValidKey, CompileServer, Servers, Refuses, SortedKeys, SoundServer, Exact;
    if c.servers == map[] {
      SingleCompileExact(c);
      ServerRefuses(EMPTY, "", c.top, false);
      NoMixedServer(c.top);
    } else if !c.top.endpoint && c.top.databases == map[] {
      MultiCompileExact(c);
      ServersRefuse(c.servers, SortedKeys(c.servers.Keys));
      forall s | s in c.servers ensures !Refuses(c.servers[s], MixedModes) {
        NoMixedServer(c.servers[s]);
      }
    }
  }

  lemma NoMixedServer(server: Server)
    ensures !Refuses(server, MixedModes)
  {
  }

  // ---------------------------------------------------------------- single-server mode

  lemma {:induction false} SingleDatabases(server: Server, order: seq<string>)
    requires forall i | 0 <= i < |order| :: order[i] in server.databases
    requires forall i, j | 0 <= i < j < |order| :: order[i] != order[j]
    ensures
      var result := Databases(EMPTY, "", server, false, order);
      && (result.Success? <==> SoundDatabases(server, order))
      && (result.Success? ==>
            && result.value.aliases == map[]
            && (forall l :: l in result.value.instances <==> l in order)
            && (forall i | 0 <= i < |order| ::
                  IsSingle(result.value.instances[order[i]], order[i], server.databases[order[i]])))
      && (result.Failure? ==> !result.error.Duplicated?)
  {
    hide TrimSpace, Blank, ValidKey, MakeInstance, IsSingle;
    if order != [] {
      var n := |order| - 1;
      SingleDatabases(server, order[..n]);
      MadeSingle(order[n], server.databases[order[n]]);
      assert order == order[..n] + [order[n]];
      assert order[n] !in order[..n];
    }
  }

  /** With one server, instances go by their plain names, and there are no aliases. */
  lemma SingleCompileExact(c: Config)
    requires c.servers == map[] && !IsZero(c.top)
    ensures Compile(c).Success? <==> SoundServer(c.top)
    ensures Compile(c).Success? ==>
        && Compile(c).value.aliases == map[] && Compile(c).value.instances.Keys == c.top.databases.Keys
        && forall l | l in c.top.databases :: IsSingle(Compile(c).value.instances[l], l, c.top.databases[l])
    ensures Compile(c).Failure? ==> !Compile(c).error.Duplicated?
  {
    hide SortedKeys, Databases, ValidKey, MakeInstance, SoundDatabases;
    SortedSound(c.top);
    var order := SortedKeys(c.top.databases.Keys);
    SingleDatabases(c.top, order);
    if Compile(c).Success? {
      var instances := Compile(c).value.instances;
      forall l | l in c.top.databases
        ensures l in instances && IsSingle(instances[l], l, c.top.databases[l])
      {
        assert l in order;
        var i :| 0 <= i < |order| && order[i] == l;
      }
    }
  }

  /** Resolving with one server: the database of that name, or "default" for the only one. */
  lemma SingleResolves(c: Config, compiled: Compiled, name: Option<string>)
    requires c.servers == map[] && !IsZero(c.top) && Compile(c) == Success(compiled)
    ensures
      var n := Requested(name);
      var result := Resolve(compiled, name);
      && (n in c.top.databases ==> result.Success? && IsSingle(result.value, n, c.top.databases[n]))
      && (n !in c.top.databases ==>
            if n == DEFAULT && |c.top.databases| == 1 then
              exists l :: c.top.databases.Keys == {l} && result.Success? && IsSingle(result.value, l, c.top.databases[l])
            else result == Failure(NotConfigured(n)))
  {
    hide Compile, Requested, MakeInstance, ValidKey;
    SingleCompileExact(c);
    assert compiled.instances.Keys == c.top.databases.Keys;
    assert |compiled.instances| == |compiled.instances.Keys| && |c.top.databases| == |c.top.databases.Keys|;
    assert c.top.databases.Keys != {};
    if |compiled.instances| == 1 {
      var only := TheOnly(compiled.instances.Keys);
      assert c.top.databases.Keys == {only};
    }
  }

  // ---------------------------------------------------------------- the configuration being built

  class CompiledConfig {
    var instances: map<string, Instance>
    var aliases: map<string, string>

    function Abs(): Compiled
      reads this
    {
      Compiled(instances, aliases)
    }

    constructor ()
      ensures Abs() == EMPTY
    {
      instances, aliases := map[], map[];
    }

    method Register(logical: string, instance: Instance) returns (failed: Option<CompileError>)
      modifies this
      ensures
        var result := Registering(old(Abs()), logical, instance);
        if result.Success? then failed.None? && Abs() == result.value
        else failed == Some(result.error) && Abs() == old(Abs())
    {
      if instance.name in instances {
        return Some(Duplicated(instance.name));
      }
      instances := instances[instance.name := instance];
      if logical == instance.name {
        return None;
      }
      if logical in aliases {
        if aliases[logical] != instance.name {
          aliases := aliases[logical := ""];
        }
        return None;
      }
      aliases := aliases[logical := instance.name];
      failed := None;
    }

    /** compileServer; after a failure the configuration is not used. */
    method CompileOne(name: string, server: Server, multi: bool) returns (failed: Option<CompileError>)
      modifies this
      ensures
        var result := CompileServer(old(Abs()), name, server, multi);
        if result.Success? then failed.None? && Abs() == result.value else failed == Some(result.error)
    {
      hide SortedKeys, ValidKey, MakeInstance, Registering;
      if IsZero(server) {
        return Some(EmptyServer);
      }
      if server.databases == map[] {
        return Some(NoDatabases);
      }
      if !server.sound {
        return Some(Unsound);
      }
      var order := SortedKeys(server.databases.Keys);
      var i := 0;
      while i < |order|
        invariant 0 <= i <= |order|
        invariant Databases(old(Abs()), name, server, multi, order[..i]) == Success(Abs())
      {
        var logical := order[i];
        assert order[..i + 1][..i] == order[..i];
        FailureSticks(old(Abs()), name, server, multi, order, i + 1);
        if !ValidKey(logical) {
          return Some(BadName(logical));
        }
        if !server.databases[logical].sound {
          return Some(Unsound);
        }
        failed := Register(logical, MakeInstance(name, logical, server.databases[logical], multi));
        if failed.Some? {
          return;
        }
        i := i + 1;
      }
      assert order[..i] == order;
      failed := None;
    }

    method CompileAll(c: Config) returns (failed: Option<CompileError>)
      requires Abs() == EMPTY
      modifies this
      ensures
        if Compile(c).Success? then failed.None? && Abs() == Compile(c).value else failed == Some(Compile(c).error)
    {
      hide SortedKeys, ValidKey, CompileServer;
      if c.servers == map[] && IsZero(c.top) {
        return None;
      }
      if c.servers == map[] {
        failed := CompileOne("", c.top, false);
        return;
      }
      if c.top.endpoint || c.top.databases != map[] {
        return Some(MixedModes);
      }
      var order := SortedKeys(c.servers.Keys);
      var i := 0;
      while i < |order|
        invariant 0 <= i <= |order|
        invariant Servers(c.servers, order[..i]) == Success(Abs())
      {
        assert order[..i + 1][..i] == order[..i];
        ServerFailureSticks(c.servers, order, i + 1);
        if !ValidKey(order[i]) {
          return Some(BadName(order[i]));
        }
        failed := CompileOne(order[i], c.servers[order[i]], true);
        if failed.Some? {
          return;
        }
        i := i + 1;
      }
      assert order[..i] == order;
      failed := None;
    }
  }

  lemma {:induction false} FailureSticks(out: Compiled, name: string, server: Server, multi: bool, order: seq<string>, n: nat)
    requires n <= |order| && forall i | 0 <= i < |order| :: order[i] in server.databases
    ensures Databases(out, name, server, multi, order[..n]).Failure? ==>
        Databases(out, name, server, multi, order) == Databases(out, name, server, multi, order[..n])
  {
    hide ValidKey, MakeInstance, Registering;
    if n == |order| {
      assert order[..n] == order;
    } else {
      var init := order[..|order| - 1];
      FailureSticks(out, name, server, multi, init, n);
      assert init[..n] == order[..n];
    }
  }

  lemma {:induction false} ServerFailureSticks(servers: map<string, Server>, order: seq<string>, n: nat)
    requires n <= |order| && forall i | 0 <= i < |order| :: order[i] in servers
    ensures Servers(servers, order[..n]).Failure? ==> Servers(servers, order) == Servers(servers, order[..n])
  {
    hide ValidKey, CompileServer;
    if n == |order| {
      assert order[..n] == order;
    } else {
      var init := order[..|order| - 1];
      ServerFailureSticks(servers, init, n);
      assert init[..n] == order[..n];
    }
  }
}
