/**
 Automatic ports of a server network (`window-networks.c`): the primary server has the default port, and the
 k-th other member the k-th smallest port above it that no server outside the network uses.
 */
module Ports {
  import opened Names
  import opened Wrappers

  const MAX_PORT := 65535

  datatype Protocol = Java | Bedrock | Rcon {
    /** The port of the primary server. */
    function Default(): int {
      match this
      case Java => 25565
      case Bedrock => 19132
      case Rcon => 25575
    }
  }

  // ----- one protocol -----

  /** The least port from `port` on that is not in use. */
  function FirstFree(used: set<int>, port: int): Option<int>
    decreases MAX_PORT + 1 - port
  {
    if port > MAX_PORT then None
    else if port !in used then Some(port)
    else FirstFree(used, port + 1)
  }

  function Clamp(port: int): int {
    if port < 1 then 1 else if port > MAX_PORT then MAX_PORT else port
  }

  /** `reserve_next_port`: the port, and the ports in use afterwards. */
  function NextPort(used: set<int>, start: int): int {
    var free := FirstFree(used, if start < 1 then 1 else start);
    if free.Some? then free.value else Clamp(start)
  }

  function Reserved(used: set<int>, start: int): set<int> {
    var free := FirstFree(used, if start < 1 then 1 else start);
    if free.Some? then used + {free.value} else used
  }

  method ReserveNext(used: set<int>, start: int) returns (port: int, nowUsed: set<int>)
    ensures port == NextPort(used, start) && nowUsed == Reserved(used, start)
    ensures (exists p :: start <= p && 1 <= p <= 65535 && p !in used) ==>
              && start <= port && 1 <= port <= 65535 && port !in used && nowUsed == used + {port}
              && forall p :: start <= p < port && 1 <= p ==> p in used
    ensures (forall p :: start <= p && 1 <= p <= 65535 ==> p in used) ==>
              nowUsed == used && port == if start > 65535 then 65535 else if start < 1 then 1 else start
  {
    port := if start < 1 then 1 else start;
    while port <= MAX_PORT
      invariant FirstFree(used, port) == FirstFree(used, if start < 1 then 1 else start)
      invariant start <= port && 1 <= port && forall p :: start <= p < port && 1 <= p ==> p in used
    {
      if port !in used {
        return port, used + {port};
      }
      port := port + 1;
    }
    return Clamp(start), used;
  }

  /** `reserve_port_if_valid` */
  function Reserve(used: set<int>, port: int): set<int> {
    if 0 < port <= MAX_PORT then used + {port} else used
  }

  /** The ports given to the members in order; `primary` says which members take the default one. */
  function Allocate(primary: seq<bool>, used: set<int>, next: int, default: int): seq<int> {
    if primary == [] then []
    else if primary[0] then [default] + Allocate(primary[1..], Reserve(used, default), default + 1, default)
    else
      var port := NextPort(used, next);
      [port] + Allocate(primary[1..], Reserved(used, next), port + 1, default)
  }

  /** How many ports between `default` and `port` nobody outside the network uses. */
  function Rank(outside: set<int>, default: int, port: int): nat
    decreases port - default
  {
    if port <= default + 1 then 0
    else Rank(outside, default, port - 1) + if port - 1 in outside then 0 else 1
  }

  /** `port` is the `k`-th smallest port above the default, from 0 on, that nobody outside uses. */
  predicate IsKthFree(outside: set<int>, default: int, k: nat, port: int) {
    default < port <= MAX_PORT && port !in outside && Rank(outside, default, port) == k
  }

  lemma {:induction false} RankGrows(outside: set<int>, default: int, p: int, q: int)
    requires default < p <= q
    ensures Rank(outside, default, p) <= Rank(outside, default, q)
    ensures p < q && p !in outside ==> Rank(outside, default, p) < Rank(outside, default, q)
    decreases q - p
  {
    if p < q {
      RankGrows(outside, default, p, q - 1);
    }
  }

  /** At most one port is the k-th free one. */
  lemma KthIsUnique(outside: set<int>, default: int, k: nat, p: int, q: int)
    requires IsKthFree(outside, default, k, p) && IsKthFree(outside, default, k, q)
    ensures p == q
  {
    if p < q {
      RankGrows(outside, default, p, q);
    } else if q < p {
      RankGrows(outside, default, q, p);
    }
  }

  /** Every rank below that of `port` is the rank of a free port before it. */
  lemma {:induction false} RankReached(outside: set<int>, default: int, k: nat, port: int) returns (p: int)
    requires default < port && k < Rank(outside, default, port)
    ensures default < p < port && p !in outside && Rank(outside, default, p) == k
    decreases port - default
  {
    if port - 1 !in outside && Rank(outside, default, port - 1) == k {
      p := port - 1;
    } else {
      p := RankReached(outside, default, k, port - 1);
    }
  }

  /** After `k` members other than the primary: the ports in use above the default, all of them before `next`. */
  predicate Holds(outside: set<int>, default: int, used: set<int>, next: int, k: nat) {
    && default < next
    && (forall p :: default < p <= MAX_PORT ==> (p in used <==> p in outside || Rank(outside, default, p) < k))
    && (forall p :: default < p < next && p <= MAX_PORT ==> p in used)
  }

  lemma {:induction false} FirstFreeIsLeast(used: set<int>, port: int)
    ensures var free := FirstFree(used, port);
            && (free.Some? ==> port <= free.value <= MAX_PORT && free.value !in used)
            && forall p :: port <= p <= MAX_PORT && (free.None? || p < free.value) ==> p in used
    decreases MAX_PORT + 1 - port
  {
    if port <= MAX_PORT && port in used {
      FirstFreeIsLeast(used, port + 1);
    }
  }

  lemma LeastIsKth(outside: set<int>, default: int, used: set<int>, next: int, k: nat, port: int)
    requires Holds(outside, default, used, next, k) && next <= port <= MAX_PORT && port !in used
    requires forall p :: next <= p < port ==> p in used
    ensures IsKthFree(outside, default, k, port)
  {
    if Rank(outside, default, port) > k {
      var p := RankReached(outside, default, k, port);
    }
  }

  lemma {:induction false} HoldsNext(outside: set<int>, default: int, used: set<int>, next: int, k: nat, port: int)
    requires Holds(outside, default, used, next, k) && next <= port && IsKthFree(outside, default, k, port)
    requires forall p :: next <= p < port ==> p in used
    ensures Holds(outside, default, used + {port}, port + 1, k + 1)
  {
    var more := used + {port};
    forall p | default < p <= MAX_PORT ensures p in more <==> p in outside || Rank(outside, default, p) < k + 1 {
      OneMoreRank(outside, default, p in used, k, port, p);
    }
    forall p | default < p < port + 1 && p <= MAX_PORT ensures p in more {
      assert p < next || next <= p;
    }
  }

  lemma OneMoreRank(outside: set<int>, default: int, isUsed: bool, k: nat, port: int, p: int)
    requires IsKthFree(outside, default, k, port) && default < p <= MAX_PORT
    requires isUsed <==> p in outside || Rank(outside, default, p) < k
    ensures isUsed || p == port <==> p in outside || Rank(outside, default, p) < k + 1
  {
    if p !in outside && Rank(outside, default, p) == k {
      KthIsUnique(outside, default, k, p, port);
    }
  }

  /** First fit takes the k-th free port. */
  lemma NextIsKth(outside: set<int>, default: int, used: set<int>, next: int, k: nat)
    requires 0 < default && Holds(outside, default, used, next, k) && k < Rank(outside, default, MAX_PORT + 1)
    ensures IsKthFree(outside, default, k, NextPort(used, next))
    ensures Holds(outside, default, Reserved(used, next), NextPort(used, next) + 1, k + 1)
  {
    FirstFreeIsLeast(used, next);
    var kth := RankReached(outside, default, k, MAX_PORT + 1);
    assert kth !in used && kth >= next;
    LeastIsKth(outside, default, used, next, k, NextPort(used, next));
    HoldsNext(outside, default, used, next, k, NextPort(used, next));
  }

  /** Members other than the primary among the first `n`. */
  function Others(primary: seq<bool>, n: nat): nat
    requires n <= |primary|
  {
    if n == 0 then 0 else Others(primary, n - 1) + if primary[n - 1] then 0 else 1
  }

  lemma {:induction false} OthersTail(primary: seq<bool>, n: nat)
    requires 0 < n <= |primary|
    ensures Others(primary, n) == (if primary[0] then 0 else 1) + Others(primary[1..], n - 1)
  {
    if n > 1 {
      OthersTail(primary, n - 1);
    }
  }

  lemma {:induction false} AllocateLength(primary: seq<bool>, used: set<int>, next: int, default: int)
    ensures |Allocate(primary, used, next, default)| == |primary|
    ensures default > 0 ==> forall j :: 0 <= j < |primary| ==> Allocate(primary, used, next, default)[j] > 0
  {
    if primary != [] {
      if primary[0] {
        AllocateLength(primary[1..], Reserve(used, default), default + 1, default);
      } else {
        FirstFreeIsLeast(used, if next < 1 then 1 else next);
        AllocateLength(primary[1..], Reserved(used, next), NextPort(used, next) + 1, default);
      }
    }
  }

  lemma AllocateFirst(primary: seq<bool>, used: set<int>, next: int, default: int)
    requires primary != []
    ensures var ports := Allocate(primary, used, next, default);
            && |ports| == |primary| && ports[0] == (if primary[0] then default else NextPort(used, next))
            && ports[1..] == if primary[0] then Allocate(primary[1..], Reserve(used, default), default + 1, default)
                             else Allocate(primary[1..], Reserved(used, next), NextPort(used, next) + 1, default)
  {
    AllocateLength(primary, used, next, default);
  }

  lemma {:induction false} AllocateFrom(primary: seq<bool>, outside: set<int>, default: int,
                                        used: set<int>, next: int, k: nat, j: nat)
    requires 0 < default < MAX_PORT && Holds(outside, default, used, next, k) && j < |primary|
    requires k + Others(primary, |primary|) <= Rank(outside, default, MAX_PORT + 1)
    ensures |Allocate(primary, used, next, default)| == |primary|
    ensures var port := Allocate(primary, used, next, default)[j];
            if primary[j] then port == default else IsKthFree(outside, default, k + Others(primary, j), port)
  {
    OthersTail(primary, |primary|);
    AllocateFirst(primary, used, next, default);
    var ports := Allocate(primary, used, next, default);
    var rest := primary[1..];
    if !primary[0] {
      NextIsKth(outside, default, used, next, k);
    }
    if j > 0 {
      OthersTail(primary, j);
      if primary[0] {
        AllocateFrom(rest, outside, default, Reserve(used, default), default + 1, k, j - 1);
      } else {
        AllocateFrom(rest, outside, default, Reserved(used, next), NextPort(used, next) + 1, k + 1, j - 1);
      }
      assert ports[j] == ports[1..][j - 1] && primary[j] == rest[j - 1];
    }
  }

  /** First fit over the whole network, unless the ports run out. */
  lemma AllocateIsFirstFit(primary: seq<bool>, outside: set<int>, default: int, j: nat)
    requires 0 < default < MAX_PORT && j < |primary|
    requires Others(primary, |primary|) <= Rank(outside, default, MAX_PORT + 1)
    ensures |Allocate(primary, outside, default + 1, default)| == |primary|
    ensures var port := Allocate(primary, outside, default + 1, default)[j];
            if primary[j] then port == default else IsKthFree(outside, default, Others(primary, j), port)
  {
    AllocateFrom(primary, outside, default, outside, default + 1, 0, j);
  }

  lemma {:induction false} OthersGrow(primary: seq<bool>, i: nat, j: nat)
    requires i < j <= |primary|
    ensures Others(primary, i) + (if primary[i] then 0 else 1) <= Others(primary, j)
  {
    if i + 1 < j {
      OthersGrow(primary, i, j - 1);
    }
  }

  /** No two members have the same port, if there is one primary at most. */
  lemma PortsAreDistinct(primary: seq<bool>, outside: set<int>, default: int, i: nat, j: nat)
    requires 0 < default < MAX_PORT && i < j < |primary| && !(primary[i] && primary[j])
    requires Others(primary, |primary|) <= Rank(outside, default, MAX_PORT + 1)
    ensures |Allocate(primary, outside, default + 1, default)| == |primary|
    ensures Allocate(primary, outside, default + 1, default)[i] != Allocate(primary, outside, default + 1, default)[j]
  {
    AllocateIsFirstFit(primary, outside, default, i);
    AllocateIsFirstFit(primary, outside, default, j);
    OthersGrow(primary, i, j);
  }

  // ----- servers and networks -----

  class Server {
    const id: string
    const name: string
    var java: int
    var bedrock: int
    var rcon: int

    constructor (id: string, name: string, java: int, bedrock: int, rcon: int)
      ensures this.id == id && this.name == name && this.java == java && this.bedrock == bedrock && this.rcon == rcon
    {
      this.id, this.name, this.java, this.bedrock, this.rcon := id, name, java, bedrock, rcon;
    }

    function Port(p: Protocol): int
      reads this
    {
      match p
      case Java => java
      case Bedrock => bedrock
      case Rcon => rcon
    }

    /** The setters ignore a port that is not positive. */
    method SetPorts(java: int, bedrock: int, rcon: int) returns (changed: bool)
      requires java > 0 && bedrock > 0
      modifies this
      ensures this.java == java && this.bedrock == bedrock && this.rcon == rcon
      ensures changed == (old(this.java) != java || old(this.bedrock) != bedrock || old(this.rcon) != rcon)
    {
      changed := this.java != java || this.bedrock != bedrock || this.rcon != rcon;
      this.java, this.bedrock, this.rcon := java, bedrock, rcon;
    }
  }

  /** A token names a server by ID or name, exactly or case-folded. */
  predicate Designates(token: string, server: Server) {
    || token == server.id || token == server.name
    || (Key(Some(token)).Some?
        && (Key(Some(token)) == Key(Some(server.id)) || Key(Some(token)) == Key(Some(server.name))))
  }

  /** `find_server_by_id`: the first such server. */
  function Find(servers: seq<Server>, token: string): Option<Server> {
    if servers == [] || token == "" then None
    else if Designates(token, servers[0]) then Some(servers[0])
    else Find(servers[1..], token)
  }

  datatype Member = Member(token: string, server: Server)

  /** The members that are found, in order. */
  function Resolved(servers: seq<Server>, tokens: seq<string>): seq<Member> {
    if tokens == [] then []
    else
      var server := Find(servers, tokens[0]);
      (if server.Some? then [Member(tokens[0], server.value)] else []) + Resolved(servers, tokens[1..])
  }

  /** The primary is the member with the proxy's ID or, when no proxy is set, the first one found. */
  function Primary(members: seq<Member>, proxy: Option<string>): seq<bool> {
    seq(|members|, i requires 0 <= i < |members| =>
      if proxy.Some? && proxy.value != "" then members[i].token == proxy.value else i == 0)
  }

  /** Servers whose ports are taken: those that have an ID which is not in the network. */
  predicate Outside(server: Server, tokens: seq<string>) {
    server.id != "" && server.id !in tokens
  }

  function Taken(servers: seq<Server>, tokens: seq<string>, p: Protocol): set<int>
    reads servers
  {
    set s | s in servers && Outside(s, tokens) && 0 < s.Port(p) <= MAX_PORT :: s.Port(p)
  }

  method CollectTaken(servers: seq<Server>, tokens: seq<string>)
    returns (java: set<int>, bedrock: set<int>, rcon: set<int>)
    ensures java == Taken(servers, tokens, Java) && bedrock == Taken(servers, tokens, Bedrock)
    ensures rcon == Taken(servers, tokens, Rcon)
  {
    java, bedrock, rcon := {}, {}, {};
    for i := 0 to |servers|
      invariant java == Taken(servers[..i], tokens, Java) && bedrock == Taken(servers[..i], tokens, Bedrock)
      invariant rcon == Taken(servers[..i], tokens, Rcon)
    {
      var server := servers[i];
      assert servers[..i + 1] == servers[..i] + [server];
      if Outside(server, tokens) {
        java := Reserve(java, server.java);
        bedrock := Reserve(bedrock, server.bedrock);
        rcon := Reserve(rcon, server.rcon);
      }
    }
    assert servers[..|servers|] == servers;
  }

  /** What is left to allocate, after the ports given so far. */
  predicate Remaining(ports: seq<int>, primary: seq<bool>, m: nat, used: set<int>, next: int, default: int) {
    m <= |primary| == |ports| && ports[m..] == Allocate(primary[m..], used, next, default)
  }

  method Give(ghost ports: seq<int>, ghost primary: seq<bool>, ghost m: nat, isPrimary: bool,
              used: set<int>, next: int, default: int)
    returns (port: int, nowUsed: set<int>)
    requires m < |primary| && primary[m] == isPrimary && 0 < default
    requires Remaining(ports, primary, m, used, next, default)
    ensures port == ports[m] > 0 && Remaining(ports, primary, m + 1, nowUsed, port + 1, default)
  {
    if isPrimary {
      port, nowUsed := default, Reserve(used, default);
    } else {
      port, nowUsed := ReserveNext(used, next);
    }
    AllocateLength(primary[m..], used, next, default);
    assert primary[m..][1..] == primary[m + 1..] && ports[m..][0] == ports[m] && ports[m..][1..] == ports[m + 1..];
  }

  /** The ports for all members, one protocol after the other. */
  datatype Plan = Plan(java: seq<int>, bedrock: seq<int>, rcon: seq<int>) {
    predicate For(n: nat) {
      |java| == |bedrock| == |rcon| == n
    }

    function Of(p: Protocol): seq<int> {
      match p
      case Java => java
      case Bedrock => bedrock
      case Rcon => rcon
    }
  }

  /** The ports of member `j` are those planned. */
  predicate HasPlanned(members: seq<Member>, j: nat, plan: Plan)
    requires j < |members| && plan.For(|members|)
    reads members[j].server
  {
    && members[j].server.java == plan.java[j] && members[j].server.bedrock == plan.bedrock[j]
    && members[j].server.rcon == plan.rcon[j]
  }

  function ServersOf(members: seq<Member>): set<Server> {
    set m | m in members :: m.server
  }

  /** All of the first `n` members have the ports planned. */
  predicate InPlace(members: seq<Member>, n: nat, plan: Plan)
    requires n <= |members| && plan.For(|members|)
    reads ServersOf(members)
  {
    forall j :: 0 <= j < n ==> HasPlanned(members, j, plan)
  }

  /** Among the first `n` members, none after `j` has the same server. */
  predicate Last(members: seq<Member>, j: nat, n: nat)
    requires j < n <= |members|
  {
    forall l :: j < l < n ==> members[l].server != members[j].server
  }

  lemma {:induction false} ResolvedAreServers(servers: seq<Server>, tokens: seq<string>)
    ensures forall m <- Resolved(servers, tokens) :: m.server in servers && m.token in tokens && m.token != ""
  {
    if tokens != [] {
      FoundIsServer(servers, tokens[0]);
      ResolvedAreServers(servers, tokens[1..]);
    }
  }

  lemma {:induction false} FoundIsServer(servers: seq<Server>, token: string)
    ensures Find(servers, token).Some? ==> Find(servers, token).value in servers && token != ""
  {
    if servers != [] && token != "" && !Designates(token, servers[0]) {
      FoundIsServer(servers[1..], token);
    }
  }

  method FindServer(servers: seq<Server>, token: string) returns (server: Server?)
    ensures Find(servers, token) == if server == null then None else Some(server)
  {
    server := null;
    if token == "" {
      return;
    }
    for i := 0 to |servers|
      invariant Find(servers, token) == Find(servers[i..], token)
    {
      if Designates(token, servers[i]) {
        return servers[i];
      }
      assert servers[i..][1..] == servers[i + 1..];
    }
  }

  twostate predicate Moved(server: Server)
    reads server
  {
    server.java != old(server.java) || server.bedrock != old(server.bedrock) || server.rcon != old(server.rcon)
  }

  /** The state of `apply_network_auto_ports` for one protocol. */
  datatype Pool = Pool(used: set<int>, next: int)

  /** Gives the next member its three ports. */
  method GivePorts(server: Server, isPrimary: bool, javaPool: Pool, bedrockPool: Pool, rconPool: Pool,
                   ghost members: seq<Member>, ghost primary: seq<bool>, ghost m: nat, ghost plan: Plan)
    returns (changed: bool, javaLeft: Pool, bedrockLeft: Pool, rconLeft: Pool)
    requires m < |members| == |primary| && primary[m] == isPrimary && server == members[m].server
    requires plan.For(|members|)
    requires forall j :: 0 <= j < m && Last(members, j, m) ==> HasPlanned(members, j, plan)
    requires Remaining(plan.java, primary, m, javaPool.used, javaPool.next, Java.Default())
    requires Remaining(plan.bedrock, primary, m, bedrockPool.used, bedrockPool.next, Bedrock.Default())
    requires Remaining(plan.rcon, primary, m, rconPool.used, rconPool.next, Rcon.Default())
    modifies server
    ensures forall j :: 0 <= j < m + 1 && Last(members, j, m + 1) ==> HasPlanned(members, j, plan)
    ensures changed == Moved(server) == !old(HasPlanned(members, m, plan))
    ensures Remaining(plan.java, primary, m + 1, javaLeft.used, javaLeft.next, Java.Default())
    ensures Remaining(plan.bedrock, primary, m + 1, bedrockLeft.used, bedrockLeft.next, Bedrock.Default())
    ensures Remaining(plan.rcon, primary, m + 1, rconLeft.used, rconLeft.next, Rcon.Default())
  {
    var java, usedJava := Give(plan.java, primary, m, isPrimary, javaPool.used, javaPool.next, Java.Default());
    var bedrock, usedBedrock :=
      Give(plan.bedrock, primary, m, isPrimary, bedrockPool.used, bedrockPool.next, Bedrock.Default());
    var rcon, usedRcon := Give(plan.rcon, primary, m, isPrimary, rconPool.used, rconPool.next, Rcon.Default());
    javaLeft, bedrockLeft := Pool(usedJava, java + 1), Pool(usedBedrock, bedrock + 1);
    rconLeft := Pool(usedRcon, rcon + 1);
    changed := server.SetPorts(java, bedrock, rcon);
    forall j | 0 <= j < m && Last(members, j, m + 1) ensures HasPlanned(members, j, plan) {
      assert members[m].server != members[j].server;
    }
  }

  /** The lookups of the loop over the members, which depend on no port. */
  method FindMembers(servers: seq<Server>, tokens: seq<string>) returns (members: seq<Member>)
    ensures members == Resolved(servers, tokens)
  {
    members := [];
    for i := 0 to |tokens|
      invariant members + Resolved(servers, tokens[i..]) == Resolved(servers, tokens)
    {
      assert tokens[i..][0] == tokens[i] && tokens[i..][1..] == tokens[i + 1..];
      var server := FindServer(servers, tokens[i]);
      if server != null {
        members := members + [Member(tokens[i], server)];
      }
    }
  }

  /** The loop over the members that are found. */
  method AssignAll(members: seq<Member>, proxy: Option<string>, java0: Pool, bedrock0: Pool, rcon0: Pool,
                   ghost primary: seq<bool>, ghost plan: Plan)
    returns (changed: bool)
    requires |primary| == |members| && plan.For(|members|)
    requires forall j :: 0 <= j < |members| ==>
               primary[j] == if proxy.Some? && proxy.value != "" then members[j].token == proxy.value else j == 0
    requires Remaining(plan.java, primary, 0, java0.used, java0.next, Java.Default())
    requires Remaining(plan.bedrock, primary, 0, bedrock0.used, bedrock0.next, Bedrock.Default())
    requires Remaining(plan.rcon, primary, 0, rcon0.used, rcon0.next, Rcon.Default())
    modifies ServersOf(members)
    ensures forall j :: 0 <= j < |members| && Last(members, j, |members|) ==> HasPlanned(members, j, plan)
    ensures changed == !old(InPlace(members, |members|, plan))
    ensures !changed ==> forall s <- ServersOf(members) :: !Moved(s)
  {
    var javaPool, bedrockPool, rconPool := java0, bedrock0, rcon0;
    var explicitProxy := proxy.Some? && proxy.value != "";
    var implicitGiven := false;
    changed := false;
    for m := 0 to |members|
      invariant implicitGiven == (!explicitProxy && m > 0)
      invariant Remaining(plan.java, primary, m, javaPool.used, javaPool.next, Java.Default())
      invariant Remaining(plan.bedrock, primary, m, bedrockPool.used, bedrockPool.next, Bedrock.Default())
      invariant Remaining(plan.rcon, primary, m, rconPool.used, rconPool.next, Rcon.Default())
      invariant forall j :: 0 <= j < m && Last(members, j, m) ==> HasPlanned(members, j, plan)
      invariant changed == !old(InPlace(members, m, plan))
      invariant !changed ==> forall s <- ServersOf(members) :: !Moved(s)
    {
      var isPrimary := if explicitProxy then members[m].token == proxy.value else !implicitGiven;
      implicitGiven := implicitGiven || !explicitProxy;
      var serverChanged;
      assert members[m].server in ServersOf(members) && members[m] in members;
      assert !changed ==> HasPlanned(members, m, plan) == old(HasPlanned(members, m, plan));
      assert old(InPlace(members, m + 1, plan))
          == (old(InPlace(members, m, plan)) && old(HasPlanned(members, m, plan)));
      serverChanged, javaPool, bedrockPool, rconPool :=
        GivePorts(members[m].server, isPrimary, javaPool, bedrockPool, rconPool, members, primary, m, plan);
      changed := changed || serverChanged;
    }
  }

  function PlanOf(primary: seq<bool>, java: set<int>, bedrock: set<int>, rcon: set<int>): Plan {
    Plan(Allocate(primary, java, Java.Default() + 1, Java.Default()),
         Allocate(primary, bedrock, Bedrock.Default() + 1, Bedrock.Default()),
         Allocate(primary, rcon, Rcon.Default() + 1, Rcon.Default()))
  }

  /** The ports that the members are to have, given those of the servers now. */
  function Planned(servers: seq<Server>, tokens: seq<string>, proxy: Option<string>): (plan: Plan)
    reads servers
    ensures plan.For(|Resolved(servers, tokens)|)
  {
    var primary := Primary(Resolved(servers, tokens), proxy);
    AllocateLength(primary, Taken(servers, tokens, Java), Java.Default() + 1, Java.Default());
    AllocateLength(primary, Taken(servers, tokens, Bedrock), Bedrock.Default() + 1, Bedrock.Default());
    AllocateLength(primary, Taken(servers, tokens, Rcon), Rcon.Default() + 1, Rcon.Default());
    PlanOf(primary, Taken(servers, tokens, Java), Taken(servers, tokens, Bedrock), Taken(servers, tokens, Rcon))
  }

  /** Every member already has the ports it is to have. */
  predicate UpToDate(servers: seq<Server>, tokens: seq<string>, proxy: Option<string>)
    reads servers
  {
    var members := Resolved(servers, tokens);
    ResolvedAreServers(servers, tokens);
    InPlace(members, |members|, Planned(servers, tokens, proxy))
  }

  /**
   `apply_network_auto_ports`. A server that is a member twice has the ports of its last place; `changed` is
   false exactly when every member had its ports before.
   */
  method ApplyAutoPorts(servers: seq<Server>, tokens: seq<string>, proxy: Option<string>) returns (changed: bool)
    modifies servers
    ensures var members := Resolved(servers, tokens);
            forall j :: 0 <= j < |members| && Last(members, j, |members|) ==>
              HasPlanned(members, j, old(Planned(servers, tokens, proxy)))
    ensures forall s <- servers :: s !in ServersOf(Resolved(servers, tokens)) ==> unchanged(s)
    ensures changed == !old(UpToDate(servers, tokens, proxy))
    ensures !changed ==> forall s <- servers :: !Moved(s)
  {
    var members := FindMembers(servers, tokens);
    ghost var primary := Primary(members, proxy);
    ghost var plan := Planned(servers, tokens, proxy);
    var java, bedrock, rcon := CollectTaken(servers, tokens);
    ResolvedAreServers(servers, tokens);
    assert primary[0..] == primary && plan.java[0..] == plan.java && plan.bedrock[0..] == plan.bedrock
           && plan.rcon[0..] == plan.rcon;
    changed := AssignAll(members, proxy, Pool(java, Java.Default() + 1), Pool(bedrock, Bedrock.Default() + 1),
                         Pool(rcon, Rcon.Default() + 1), primary, plan);
  }

  // ----- applying the ports again -----

  function Between(used: set<int>, low: int, high: int): set<int> {
    set p | p in used && low < p < high
  }

  /** Every port above the default is free or in use. */
  lemma {:induction false} RankCounts(used: set<int>, default: int, port: int)
    requires default < port
    ensures Rank(used, default, port) + |Between(used, default, port)| == port - default - 1
    decreases port - default
  {
    if port == default + 1 {
      assert Between(used, default, port) == {};
    } else {
      RankCounts(used, default, port - 1);
      var before := Between(used, default, port - 1);
      assert Between(used, default, port) == if port - 1 in used then before + {port - 1} else before;
    }
  }

  lemma {:induction false} NoMoreThanListed<T>(used: set<T>, ports: seq<T>)
    requires forall p <- used :: p in ports
    ensures |used| <= |ports|
  {
    if ports == [] {
      assert used == {};
    } else {
      forall p <- used - {ports[0]} ensures p in ports[1..] {
        assert p in ports && ports == [ports[0]] + ports[1..];
      }
      NoMoreThanListed(used - {ports[0]}, ports[1..]);
    }
  }

  lemma SubsetIsSmaller<T>(a: set<T>, b: set<T>)
    requires a <= b
    ensures |a| <= |b|
  {
    assert b == a + (b - a);
  }

  lemma {:induction false} OthersAtMost(primary: seq<bool>, n: nat)
    requires n <= |primary|
    ensures Others(primary, n) <= n
  {
    if n > 0 {
      OthersAtMost(primary, n - 1);
    }
  }

  lemma {:induction false} ResolvedAreFound(servers: seq<Server>, tokens: seq<string>)
    ensures |Resolved(servers, tokens)| <= |tokens|
    ensures forall m <- Resolved(servers, tokens) :: Find(servers, m.token) == Some(m.server)
  {
    if tokens != [] {
      ResolvedAreFound(servers, tokens[1..]);
    }
  }

  /** At most one server is primary, and it is the default's however often it is a member. */
  lemma OnePrimary(servers: seq<Server>, tokens: seq<string>, proxy: Option<string>, i: nat, j: nat)
    requires i < |Resolved(servers, tokens)| && j < |Resolved(servers, tokens)|
    requires Primary(Resolved(servers, tokens), proxy)[i] && Primary(Resolved(servers, tokens), proxy)[j]
    ensures Resolved(servers, tokens)[i].server == Resolved(servers, tokens)[j].server
  {
    var members := Resolved(servers, tokens);
    ResolvedAreFound(servers, tokens);
    assert members[i] in members && members[j] in members;
  }

  lemma {:induction false} PrimaryHasDefault(primary: seq<bool>, used: set<int>, next: int, default: int, j: nat)
    requires j < |primary| && primary[j]
    ensures |Allocate(primary, used, next, default)| == |primary|
    ensures Allocate(primary, used, next, default)[j] == default
  {
    AllocateFirst(primary, used, next, default);
    if j > 0 {
      var ports := Allocate(primary, used, next, default);
      assert ports[j] == ports[1..][j - 1] && primary[1..][j - 1];
      if primary[0] {
        PrimaryHasDefault(primary[1..], Reserve(used, default), default + 1, default, j - 1);
      } else {
        PrimaryHasDefault(primary[1..], Reserved(used, next), NextPort(used, next) + 1, default, j - 1);
      }
    }
  }

  /** Above the default, `after` is `before` and `port`. */
  predicate Adds(before: set<int>, after: set<int>, default: int, port: int) {
    forall q :: default < q <= MAX_PORT ==> (q in after <==> q in before || q == port)
  }

  /** `port` is one of the first `n` free ports. */
  predicate InTheWay(used: set<int>, default: int, n: nat, port: int) {
    default < port <= MAX_PORT && port !in used && Rank(used, default, port) < n
  }

  lemma {:induction false} RankAdds(before: set<int>, after: set<int>, default: int, port: int, q: int)
    requires Adds(before, after, default, port) && default < q <= MAX_PORT + 1
    ensures Rank(after, default, q) ==
              Rank(before, default, q) - if default < port < q && port !in before then 1 else 0
    decreases q - default
  {
    if q > default + 1 {
      RankAdds(before, after, default, port, q - 1);
      if default < port < q && port !in before {
        RankGrows(before, default, port, q);
      }
    }
  }

  lemma {:induction false} OthersReached(primary: seq<bool>, n: nat, k: nat) returns (j: nat)
    requires n <= |primary| && k < Others(primary, n)
    ensures j < n && !primary[j] && Others(primary, j) == k
  {
    if !primary[n - 1] && Others(primary, n - 1) == k {
      j := n - 1;
    } else {
      j := OthersReached(primary, n - 1, k);
    }
  }

  /** One port more in use changes the allocation exactly when it is one of those given out. */
  lemma PortMatters(primary: seq<bool>, before: set<int>, after: set<int>, default: int, port: int)
    requires 0 < default < MAX_PORT && Adds(before, after, default, port)
    requires Others(primary, |primary|) <= Rank(before, default, MAX_PORT + 1)
    requires Others(primary, |primary|) <= Rank(after, default, MAX_PORT + 1)
    ensures Allocate(primary, after, default + 1, default) == Allocate(primary, before, default + 1, default)
       <==> !InTheWay(before, default, Others(primary, |primary|), port)
  {
    var n := Others(primary, |primary|);
    var first, next := Allocate(primary, before, default + 1, default), Allocate(primary, after, default + 1, default);
    AllocateLength(primary, before, default + 1, default);
    AllocateLength(primary, after, default + 1, default);
    if InTheWay(before, default, n, port) {
      var j := OthersReached(primary, |primary|, Rank(before, default, port));
      AllocateIsFirstFit(primary, before, default, j);
      AllocateIsFirstFit(primary, after, default, j);
      KthIsUnique(before, default, Rank(before, default, port), port, first[j]);
      assert first[j] != next[j];
    } else {
      forall j | 0 <= j < |primary| ensures first[j] == next[j] {
        AllocateIsFirstFit(primary, before, default, j);
        AllocateIsFirstFit(primary, after, default, j);
        if !primary[j] {
          OthersGrow(primary, j, |primary|);
          SameRankThere(before, after, default, n, port, first[j]);
          KthIsUnique(after, default, Others(primary, j), first[j], next[j]);
        }
      }
    }
  }

  lemma SameRankThere(before: set<int>, after: set<int>, default: int, n: nat, port: int, q: int)
    requires Adds(before, after, default, port) && !InTheWay(before, default, n, port)
    requires default < q <= MAX_PORT && q !in before && Rank(before, default, q) < n
    ensures q !in after && Rank(after, default, q) == Rank(before, default, q)
  {
    RankAdds(before, after, default, port, q);
    if default < port < q && port !in before {
      RankGrows(before, default, port, q);
    }
  }

  /** The ports of servers that are neither members nor named in the network. */
  function Strangers(servers: seq<Server>, tokens: seq<string>, p: Protocol): set<int>
    reads servers
  {
    set s | s in servers && s !in ServersOf(Resolved(servers, tokens)) && Outside(s, tokens)
            && 0 < s.Port(p) <= MAX_PORT :: s.Port(p)
  }

  /**
   What lines 292-300 and the lookup of line 320 must not meet: a server that is a member in two places, unless both
   are the primary's, and a member whose own ID is not in the network, unless it is the primary.
   */
  predicate Coherent(servers: seq<Server>, tokens: seq<string>, proxy: Option<string>) {
    var members := Resolved(servers, tokens);
    var primary := Primary(members, proxy);
    && (forall i, j :: 0 <= i < j < |members| && members[i].server == members[j].server ==> primary[i] && primary[j])
    && (forall j :: 0 <= j < |members| && Outside(members[j].server, tokens) ==> primary[j])
  }

  /** The primary's own ports, if they count as taken, are none that a member is to have. */
  predicate PrimaryAside(servers: seq<Server>, tokens: seq<string>, proxy: Option<string>, p: Protocol)
    reads servers
  {
    var members := Resolved(servers, tokens);
    var primary := Primary(members, proxy);
    ResolvedAreServers(servers, tokens);
    forall j :: 0 <= j < |members| && Outside(members[j].server, tokens) ==>
      !InTheWay(Strangers(servers, tokens, p), p.Default(), Others(primary, |primary|), members[j].server.Port(p))
  }

  /** One application is enough. */
  predicate Settles(servers: seq<Server>, tokens: seq<string>, proxy: Option<string>)
    reads servers
  {
    Coherent(servers, tokens, proxy) && forall p :: PrimaryAside(servers, tokens, proxy, p)
  }

  /** Members whose own ID is not in the network. */
  function Strays(servers: seq<Server>, tokens: seq<string>): set<Server> {
    set m | m in Resolved(servers, tokens) && Outside(m.server, tokens) :: m.server
  }

  /** No protocol runs out of ports, whatever ports the members with other IDs occupy. */
  predicate Roomy(servers: seq<Server>, tokens: seq<string>, proxy: Option<string>)
    reads servers
  {
    var primary := Primary(Resolved(servers, tokens), proxy);
    forall p: Protocol :: Others(primary, |primary|) + |Strays(servers, tokens)|
                            <= Rank(Strangers(servers, tokens, p), p.Default(), MAX_PORT + 1)
  }

  function PortsOf(group: set<Server>, p: Protocol): set<int>
    reads group
  {
    set s | s in group :: s.Port(p)
  }

  lemma {:induction false} NoMorePorts(group: set<Server>, p: Protocol)
    ensures |PortsOf(group, p)| <= |group|
  {
    if group == {} {
      assert PortsOf(group, p) == {};
    } else {
      var s :| s in group;
      NoMorePorts(group - {s}, p);
      assert PortsOf(group, p) == PortsOf(group - {s}, p) + {s.Port(p)};
    }
  }

  lemma TakenSuffice(servers: seq<Server>, tokens: seq<string>, proxy: Option<string>, p: Protocol)
    requires Roomy(servers, tokens, proxy)
    ensures var primary := Primary(Resolved(servers, tokens), proxy);
            && Others(primary, |primary|) <= Rank(Taken(servers, tokens, p), p.Default(), MAX_PORT + 1)
            && Others(primary, |primary|) <= Rank(Strangers(servers, tokens, p), p.Default(), MAX_PORT + 1)
  {
    var strays, strangers, taken := Strays(servers, tokens), Strangers(servers, tokens, p), Taken(servers, tokens, p);
    var low, high := p.Default(), MAX_PORT + 1;
    ResolvedAreServers(servers, tokens);
    assert Between(taken, low, high) <= Between(strangers, low, high) + PortsOf(strays, p);
    SubsetIsSmaller(Between(taken, low, high), Between(strangers, low, high) + PortsOf(strays, p));
    NoMorePorts(strays, p);
    RankCounts(taken, low, high);
    RankCounts(strangers, low, high);
  }

  /** So few servers and members leave room. */
  lemma FewAreRoomy(servers: seq<Server>, tokens: seq<string>, proxy: Option<string>)
    requires |servers| + |tokens| <= MAX_PORT - Rcon.Default()
    ensures Roomy(servers, tokens, proxy)
  {
    var members := Resolved(servers, tokens);
    var primary := Primary(members, proxy);
    var all, others := set s | s in servers, set s | s in servers && s !in ServersOf(members);
    ResolvedAreFound(servers, tokens);
    ResolvedAreServers(servers, tokens);
    OthersAtMost(primary, |primary|);
    NoMoreThanListed(all, servers);
    assert others + Strays(servers, tokens) <= all && others !! Strays(servers, tokens);
    SubsetIsSmaller(others + Strays(servers, tokens), all);
    forall p: Protocol
      ensures Others(primary, |primary|) + |Strays(servers, tokens)|
                <= Rank(Strangers(servers, tokens, p), p.Default(), MAX_PORT + 1)
    {
      var strangers := Strangers(servers, tokens, p);
      assert Between(strangers, p.Default(), MAX_PORT + 1) <= PortsOf(others, p);
      SubsetIsSmaller(Between(strangers, p.Default(), MAX_PORT + 1), PortsOf(others, p));
      NoMorePorts(others, p);
      RankCounts(strangers, p.Default(), MAX_PORT + 1);
    }
  }

  lemma OwnPortIsTaken(servers: seq<Server>, tokens: seq<string>, server: Server, port: int)
    requires server in servers && Outside(server, tokens)
    requires 0 < port <= MAX_PORT && port !in Taken(servers, tokens, Java)
    ensures server.java != port
  {
    assert server.java == server.Port(Java);
  }

  /** A member, other than the primary, that occupies its own port is to have another one. */
  lemma StrayMoves(servers: seq<Server>, tokens: seq<string>, proxy: Option<string>, j: nat)
    requires Roomy(servers, tokens, proxy) && j < |Resolved(servers, tokens)|
    requires Outside(Resolved(servers, tokens)[j].server, tokens) && !Primary(Resolved(servers, tokens), proxy)[j]
    ensures !UpToDate(servers, tokens, proxy)
  {
    var members, taken := Resolved(servers, tokens), Taken(servers, tokens, Java);
    var primary := Primary(members, proxy);
    ResolvedAreFound(servers, tokens);
    ResolvedAreServers(servers, tokens);
    TakenSuffice(servers, tokens, proxy, Java);
    AllocateIsFirstFit(primary, taken, Java.Default(), j);
    assert members[j] in members;
    OwnPortIsTaken(servers, tokens, members[j].server, Planned(servers, tokens, proxy).java[j]);
    assert !HasPlanned(members, j, Planned(servers, tokens, proxy));
  }

  /** A server that is a member in two places is to have two ports. */
  lemma RepeatedMoves(servers: seq<Server>, tokens: seq<string>, proxy: Option<string>, i: nat, j: nat)
    requires Roomy(servers, tokens, proxy) && i < j < |Resolved(servers, tokens)|
    requires Resolved(servers, tokens)[i].server == Resolved(servers, tokens)[j].server
    requires !(Primary(Resolved(servers, tokens), proxy)[i] && Primary(Resolved(servers, tokens), proxy)[j])
    ensures !UpToDate(servers, tokens, proxy)
  {
    var members, plan := Resolved(servers, tokens), Planned(servers, tokens, proxy);
    var primary := Primary(members, proxy);
    ResolvedAreFound(servers, tokens);
    ResolvedAreServers(servers, tokens);
    TakenSuffice(servers, tokens, proxy, Java);
    PortsAreDistinct(primary, Taken(servers, tokens, Java), Java.Default(), i, j);
    assert members[i] in members && plan.java[i] != plan.java[j];
    assert HasPlanned(members, i, plan) ==> !HasPlanned(members, j, plan);
  }

  /** An incoherent network is never up to date: each application moves a member. */
  lemma IncoherentMoves(servers: seq<Server>, tokens: seq<string>, proxy: Option<string>)
    requires Roomy(servers, tokens, proxy) && !Coherent(servers, tokens, proxy)
    ensures !UpToDate(servers, tokens, proxy)
  {
    var members := Resolved(servers, tokens);
    var primary := Primary(members, proxy);
    if j :| 0 <= j < |members| && Outside(members[j].server, tokens) && !primary[j] {
      StrayMoves(servers, tokens, proxy, j);
    } else {
      var i, j :| 0 <= i < j < |members| && members[i].server == members[j].server && !(primary[i] && primary[j]);
      RepeatedMoves(servers, tokens, proxy, i, j);
    }
  }

  lemma {:induction false} LastPlace(members: seq<Member>, j: nat) returns (l: nat)
    requires j < |members|
    ensures j <= l < |members| && Last(members, l, |members|) && members[l].server == members[j].server
    decreases |members| - j
  {
    if Last(members, j, |members|) {
      l := j;
    } else {
      var next :| j < next < |members| && members[next].server == members[j].server;
      l := LastPlace(members, next);
    }
  }

  /** In a coherent network every member has what was planned, also one that is a member twice. */
  lemma CoherentHavePlanned(servers: seq<Server>, tokens: seq<string>, proxy: Option<string>, plan: Plan,
                            java: set<int>, bedrock: set<int>, rcon: set<int>)
    requires Coherent(servers, tokens, proxy) && plan.For(|Resolved(servers, tokens)|)
    requires plan == PlanOf(Primary(Resolved(servers, tokens), proxy), java, bedrock, rcon)
    requires var members := Resolved(servers, tokens);
             forall j :: 0 <= j < |members| && Last(members, j, |members|) ==> HasPlanned(members, j, plan)
    ensures InPlace(Resolved(servers, tokens), |Resolved(servers, tokens)|, plan)
  {
    var members := Resolved(servers, tokens);
    var primary := Primary(members, proxy);
    forall j | 0 <= j < |members| ensures HasPlanned(members, j, plan) {
      var l := LastPlace(members, j);
      if j < l {
        forall k <- {j, l} ensures plan.java[k] == Java.Default() && plan.bedrock[k] == Bedrock.Default()
                                   && plan.rcon[k] == Rcon.Default()
        {
          PrimaryHasDefault(primary, java, Java.Default() + 1, Java.Default(), k);
          PrimaryHasDefault(primary, bedrock, Bedrock.Default() + 1, Bedrock.Default(), k);
          PrimaryHasDefault(primary, rcon, Rcon.Default() + 1, Rcon.Default(), k);
        }
      }
    }
  }

  /** In a coherent network the ports taken are the strangers' and those of a primary with another ID. */
  lemma TakenAre(servers: seq<Server>, tokens: seq<string>, proxy: Option<string>, w: nat, p: Protocol)
    requires Coherent(servers, tokens, proxy) && w < |Resolved(servers, tokens)|
    requires Outside(Resolved(servers, tokens)[w].server, tokens)
    ensures Adds(Strangers(servers, tokens, p), Taken(servers, tokens, p), p.Default(),
                 Resolved(servers, tokens)[w].server.Port(p))
  {
    var members := Resolved(servers, tokens);
    ResolvedAreServers(servers, tokens);
    assert members[w] in members;
    forall s <- ServersOf(members) | Outside(s, tokens) ensures s == members[w].server {
      var m :| m in members && m.server == s;
      var i :| 0 <= i < |members| && members[i] == m;
      OnePrimary(servers, tokens, proxy, i, w);
    }
  }

  /** The ports that decide about a second application, for one protocol. */
  datatype View = View(strangers: set<int>, taken: set<int>, port: int) {
    /** Only the primary's port adds to the strangers', and there is room for all members. */
    predicate Fair(p: Protocol, primary: seq<bool>) {
      && Adds(strangers, taken, p.Default(), port)
      && Others(primary, |primary|) <= Rank(taken, p.Default(), MAX_PORT + 1)
      && Others(primary, |primary|) <= Rank(strangers, p.Default(), MAX_PORT + 1)
    }

    predicate Blocks(p: Protocol, primary: seq<bool>) {
      InTheWay(strangers, p.Default(), Others(primary, |primary|), port)
    }

    function Ports(p: Protocol, primary: seq<bool>): seq<int> {
      Allocate(primary, taken, p.Default() + 1, p.Default())
    }
  }

  function Seen(servers: seq<Server>, tokens: seq<string>, server: Server, p: Protocol): View
    reads servers, server
  {
    View(Strangers(servers, tokens, p), Taken(servers, tokens, p), server.Port(p))
  }

  lemma SeenIsFair(servers: seq<Server>, tokens: seq<string>, proxy: Option<string>, w: nat, p: Protocol)
    requires Roomy(servers, tokens, proxy) && Coherent(servers, tokens, proxy) && w < |Resolved(servers, tokens)|
    requires Outside(Resolved(servers, tokens)[w].server, tokens)
    ensures var members := Resolved(servers, tokens);
            var view := Seen(servers, tokens, members[w].server, p);
            view.Fair(p, Primary(members, proxy))
  {
    ResolvedAreFound(servers, tokens);
    TakenAre(servers, tokens, proxy, w, p);
    TakenSuffice(servers, tokens, proxy, p);
  }

  lemma SeenDecides(servers: seq<Server>, tokens: seq<string>, proxy: Option<string>, w: nat, p: Protocol)
    requires Coherent(servers, tokens, proxy) && w < |Resolved(servers, tokens)|
    requires Outside(Resolved(servers, tokens)[w].server, tokens)
    ensures var members := Resolved(servers, tokens);
            var view := Seen(servers, tokens, members[w].server, p);
            PrimaryAside(servers, tokens, proxy, p) == !view.Blocks(p, Primary(members, proxy))
  {
    var members := Resolved(servers, tokens);
    forall j | 0 <= j < |members| && Outside(members[j].server, tokens)
      ensures members[j].server == members[w].server
    {
      OnePrimary(servers, tokens, proxy, j, w);
    }
  }

  /** Once the primary has the default port, the allocation is the former one unless its own port was in the way. */
  lemma SamePortsAgain(p: Protocol, primary: seq<bool>, before: View, after: View)
    requires before.Fair(p, primary) && after.Fair(p, primary)
    requires before.strangers == after.strangers && after.port == p.Default()
    ensures (before.Ports(p, primary) == after.Ports(p, primary)) == !before.Blocks(p, primary)
  {
    PortMatters(primary, before.strangers, before.taken, p.Default(), before.port);
    PortMatters(primary, after.strangers, after.taken, p.Default(), after.port);
  }

  lemma OnePlan(members: seq<Member>, a: Plan, b: Plan)
    requires a.For(|members|) && b.For(|members|) && InPlace(members, |members|, a)
    ensures InPlace(members, |members|, b) == (a == b)
  {
    if InPlace(members, |members|, b) {
      forall j | 0 <= j < |members|
        ensures a.java[j] == b.java[j] && a.bedrock[j] == b.bedrock[j] && a.rcon[j] == b.rcon[j]
      {
        assert HasPlanned(members, j, a) && HasPlanned(members, j, b);
      }
      assert a.java == b.java && a.bedrock == b.bedrock && a.rcon == b.rcon;
    }
  }

  /** No member's own ID is missing from the network. */
  predicate AllInside(servers: seq<Server>, tokens: seq<string>) {
    forall m <- Resolved(servers, tokens) :: !Outside(m.server, tokens)
  }

  const PROTOCOLS := {Java, Bedrock, Rcon}

  lemma IsProtocol(p: Protocol)
    ensures p in PROTOCOLS
  {
    match p
    case Java =>
    case Bedrock =>
    case Rcon =>
  }

  /** `plan`, made when these ports were taken, has been carried out. */
  predicate CarriedOut(servers: seq<Server>, tokens: seq<string>, proxy: Option<string>, plan: Plan,
                       taken: map<Protocol, set<int>>)
    requires taken.Keys == PROTOCOLS
    reads ServersOf(Resolved(servers, tokens))
  {
    var members := Resolved(servers, tokens);
    && plan.For(|members|)
    && plan == PlanOf(Primary(members, proxy), taken[Java], taken[Bedrock], taken[Rcon])
    && forall j :: 0 <= j < |members| && Last(members, j, |members|) ==> HasPlanned(members, j, plan)
  }

  lemma UpToDateAgain(servers: seq<Server>, tokens: seq<string>, proxy: Option<string>, plan: Plan,
                      taken: map<Protocol, set<int>>)
    requires taken.Keys == PROTOCOLS && Coherent(servers, tokens, proxy)
    requires CarriedOut(servers, tokens, proxy, plan, taken)
    ensures InPlace(Resolved(servers, tokens), |Resolved(servers, tokens)|, plan)
    ensures UpToDate(servers, tokens, proxy) == (plan == Planned(servers, tokens, proxy))
  {
    CoherentHavePlanned(servers, tokens, proxy, plan, taken[Java], taken[Bedrock], taken[Rcon]);
    OnePlan(Resolved(servers, tokens), plan, Planned(servers, tokens, proxy));
  }

  lemma PrimaryAtDefault(members: seq<Member>, primary: seq<bool>, plan: Plan, taken: map<Protocol, set<int>>,
                         w: nat, p: Protocol)
    requires taken.Keys == PROTOCOLS && w < |members| == |primary| && primary[w]
    requires plan.For(|members|) && plan == PlanOf(primary, taken[Java], taken[Bedrock], taken[Rcon])
    requires HasPlanned(members, w, plan)
    ensures members[w].server.Port(p) == p.Default()
  {
    PrimaryHasDefault(primary, taken[p], p.Default() + 1, p.Default(), w);
  }

  lemma AsideAgainFor(servers: seq<Server>, tokens: seq<string>, proxy: Option<string>, view: View, w: nat, p: Protocol)
    requires Roomy(servers, tokens, proxy) && Coherent(servers, tokens, proxy)
    requires w < |Resolved(servers, tokens)| && Outside(Resolved(servers, tokens)[w].server, tokens)
    requires Resolved(servers, tokens)[w].server.Port(p) == p.Default()
    requires view.Fair(p, Primary(Resolved(servers, tokens), proxy)) && view.strangers == Strangers(servers, tokens, p)
    ensures var primary := Primary(Resolved(servers, tokens), proxy);
            var again := Allocate(primary, Taken(servers, tokens, p), p.Default() + 1, p.Default());
            (view.Ports(p, primary) == again) == !view.Blocks(p, primary)
  {
    var now := Seen(servers, tokens, Resolved(servers, tokens)[w].server, p);
    SeenIsFair(servers, tokens, proxy, w, p);
    SamePortsAgain(p, Primary(Resolved(servers, tokens), proxy), view, now);
  }

  lemma PrimaryAtDefaults(servers: seq<Server>, tokens: seq<string>, proxy: Option<string>, plan: Plan,
                          taken: map<Protocol, set<int>>, w: nat)
    requires taken.Keys == PROTOCOLS && CarriedOut(servers, tokens, proxy, plan, taken)
    requires w < |Resolved(servers, tokens)| && Primary(Resolved(servers, tokens), proxy)[w]
    requires InPlace(Resolved(servers, tokens), |Resolved(servers, tokens)|, plan)
    ensures Resolved(servers, tokens)[w].server in servers
    ensures forall p :: Resolved(servers, tokens)[w].server.Port(p) == p.Default()
  {
    var members := Resolved(servers, tokens);
    ResolvedAreServers(servers, tokens);
    assert members[w] in members && HasPlanned(members, w, plan);
    forall p ensures members[w].server.Port(p) == p.Default() {
      PrimaryAtDefault(members, Primary(members, proxy), plan, taken, w, p);
    }
  }

  /** A second application, when the primary's own ID is not in the network. */
  lemma AsideAgain(servers: seq<Server>, tokens: seq<string>, proxy: Option<string>, plan: Plan,
                   taken: map<Protocol, set<int>>, views: map<Protocol, View>, w: nat)
    requires taken.Keys == PROTOCOLS && Roomy(servers, tokens, proxy) && Coherent(servers, tokens, proxy)
    requires CarriedOut(servers, tokens, proxy, plan, taken)
    requires w < |Resolved(servers, tokens)| && Outside(Resolved(servers, tokens)[w].server, tokens)
    requires views.Keys == PROTOCOLS && forall p <- PROTOCOLS ::
               && views[p].Fair(p, Primary(Resolved(servers, tokens), proxy))
               && views[p].taken == taken[p] && views[p].strangers == Strangers(servers, tokens, p)
    ensures UpToDate(servers, tokens, proxy)
         == forall p <- PROTOCOLS :: !views[p].Blocks(p, Primary(Resolved(servers, tokens), proxy))
  {
    UpToDateAgain(servers, tokens, proxy, plan, taken);
    PrimaryAtDefaults(servers, tokens, proxy, plan, taken, w);
    AsidePlans(servers, tokens, proxy, taken, views, w);
    AllThree(views, Primary(Resolved(servers, tokens), proxy));
  }

  lemma AllThree(views: map<Protocol, View>, primary: seq<bool>)
    requires views.Keys == PROTOCOLS
    ensures (forall p <- PROTOCOLS :: !views[p].Blocks(p, primary)) ==
              (!views[Java].Blocks(Java, primary) && !views[Bedrock].Blocks(Bedrock, primary)
               && !views[Rcon].Blocks(Rcon, primary))
  {
    assert Java in PROTOCOLS && Bedrock in PROTOCOLS && Rcon in PROTOCOLS;
  }

  /** The plan is the former one when in no protocol the primary was in the way. */
  lemma AsidePlans(servers: seq<Server>, tokens: seq<string>, proxy: Option<string>, taken: map<Protocol, set<int>>,
                   views: map<Protocol, View>, w: nat)
    requires taken.Keys == views.Keys == PROTOCOLS && Roomy(servers, tokens, proxy) && Coherent(servers, tokens, proxy)
    requires w < |Resolved(servers, tokens)| && Outside(Resolved(servers, tokens)[w].server, tokens)
    requires forall p :: Resolved(servers, tokens)[w].server.Port(p) == p.Default()
    requires forall p <- PROTOCOLS ::
               && views[p].Fair(p, Primary(Resolved(servers, tokens), proxy))
               && views[p].taken == taken[p] && views[p].strangers == Strangers(servers, tokens, p)
    ensures var primary := Primary(Resolved(servers, tokens), proxy);
            (PlanOf(primary, taken[Java], taken[Bedrock], taken[Rcon]) == Planned(servers, tokens, proxy)) ==
              (!views[Java].Blocks(Java, primary) && !views[Bedrock].Blocks(Bedrock, primary)
               && !views[Rcon].Blocks(Rcon, primary))
  {
    AsideAgainFor(servers, tokens, proxy, views[Java], w, Java);
    AsideAgainFor(servers, tokens, proxy, views[Bedrock], w, Bedrock);
    AsideAgainFor(servers, tokens, proxy, views[Rcon], w, Rcon);
  }

  lemma AllDecided(servers: seq<Server>, tokens: seq<string>, proxy: Option<string>, w: nat, views: map<Protocol, View>)
    requires Roomy(servers, tokens, proxy) && Coherent(servers, tokens, proxy) && w < |Resolved(servers, tokens)|
    requires Outside(Resolved(servers, tokens)[w].server, tokens)
    requires views.Keys == PROTOCOLS
             && forall p <- PROTOCOLS :: views[p] == Seen(servers, tokens, Resolved(servers, tokens)[w].server, p)
    ensures forall p <- PROTOCOLS :: views[p].Fair(p, Primary(Resolved(servers, tokens), proxy))
    ensures (forall p :: PrimaryAside(servers, tokens, proxy, p))
         == forall p <- PROTOCOLS :: !views[p].Blocks(p, Primary(Resolved(servers, tokens), proxy))
  {
    forall p ensures p in PROTOCOLS && views[p].Fair(p, Primary(Resolved(servers, tokens), proxy))
                     && PrimaryAside(servers, tokens, proxy, p)
                        == !views[p].Blocks(p, Primary(Resolved(servers, tokens), proxy))
    {
      IsProtocol(p);
      SeenIsFair(servers, tokens, proxy, w, p);
      SeenDecides(servers, tokens, proxy, w, p);
    }
  }

  /** The ports before an application, seen from a primary whose own ID is not in the network. */
  lemma StandBack(servers: seq<Server>, tokens: seq<string>, proxy: Option<string>)
    returns (views: map<Protocol, View>, w: nat)
    ensures views.Keys == PROTOCOLS && forall p <- PROTOCOLS ::
              views[p].taken == Taken(servers, tokens, p) && views[p].strangers == Strangers(servers, tokens, p)
    ensures AllInside(servers, tokens) ==> forall p :: PrimaryAside(servers, tokens, proxy, p)
    ensures !AllInside(servers, tokens) ==>
              w < |Resolved(servers, tokens)| && Outside(Resolved(servers, tokens)[w].server, tokens)
    ensures !AllInside(servers, tokens) && Roomy(servers, tokens, proxy) && Coherent(servers, tokens, proxy) ==>
              && (forall p <- PROTOCOLS :: views[p].Fair(p, Primary(Resolved(servers, tokens), proxy)))
              && (forall p :: PrimaryAside(servers, tokens, proxy, p))
                 == forall p <- PROTOCOLS :: !views[p].Blocks(p, Primary(Resolved(servers, tokens), proxy))
  {
    var members := Resolved(servers, tokens);
    var primary := Primary(members, proxy);
    ResolvedAreServers(servers, tokens);
    w := 0;
    views := map p | p in PROTOCOLS :: View(Strangers(servers, tokens, p), Taken(servers, tokens, p), 0);
    if m :| m in members && Outside(m.server, tokens) {
      w :| 0 <= w < |members| && members[w] == m;
      views := map p | p in PROTOCOLS :: Seen(servers, tokens, m.server, p);
      if Roomy(servers, tokens, proxy) && Coherent(servers, tokens, proxy) {
        AllDecided(servers, tokens, proxy, w, views);
      }
    } else {
      forall j | 0 <= j < |members| ensures !Outside(members[j].server, tokens) {
        assert members[j] in members;
      }
    }
  }

  /** `ApplyAutoPorts`, and what it leaves for the next time. */
  method ApplyOnce(servers: seq<Server>, tokens: seq<string>, proxy: Option<string>)
    returns (changed: bool, ghost plan: Plan, ghost taken: map<Protocol, set<int>>)
    modifies servers
    ensures changed == !old(UpToDate(servers, tokens, proxy))
    ensures taken == old(map p | p in PROTOCOLS :: Taken(servers, tokens, p))
    ensures CarriedOut(servers, tokens, proxy, plan, taken)
    ensures forall p :: Strangers(servers, tokens, p) == old(Strangers(servers, tokens, p))
    ensures AllInside(servers, tokens) ==> plan == Planned(servers, tokens, proxy)
  {
    plan, taken := Planned(servers, tokens, proxy), map p | p in PROTOCOLS :: Taken(servers, tokens, p);
    ResolvedAreServers(servers, tokens);
    changed := ApplyAutoPorts(servers, tokens, proxy);
    forall p ensures Strangers(servers, tokens, p) == old(Strangers(servers, tokens, p)) {
    }
    if AllInside(servers, tokens) {
      forall p ensures Taken(servers, tokens, p) == old(Taken(servers, tokens, p)) {
      }
    }
  }

  /**
   Applying the ports twice. The second application changes nothing exactly when the network is coherent and the
   primary, if its own ID is not in the network, did not hold a port that another member is to have. In an
   incoherent network no application is the last.
   */
  method ApplyTwice(servers: seq<Server>, tokens: seq<string>, proxy: Option<string>) returns (first: bool, again: bool)
    modifies servers
    ensures Coherent(servers, tokens, proxy) && AllInside(servers, tokens) ==> !again
    ensures old(Roomy(servers, tokens, proxy)) ==> again == !old(Settles(servers, tokens, proxy))
    ensures old(Roomy(servers, tokens, proxy)) && !Coherent(servers, tokens, proxy) ==> first && again
  {
    ghost var views, w := StandBack(servers, tokens, proxy);
    if Roomy(servers, tokens, proxy) && !Coherent(servers, tokens, proxy) {
      IncoherentMoves(servers, tokens, proxy);
    }
    ghost var plan, taken;
    first, plan, taken := ApplyOnce(servers, tokens, proxy);
    assert Roomy(servers, tokens, proxy) == old(Roomy(servers, tokens, proxy));
    if Coherent(servers, tokens, proxy) {
      UpToDateAgain(servers, tokens, proxy, plan, taken);
      if !AllInside(servers, tokens) && Roomy(servers, tokens, proxy) {
        AsideAgain(servers, tokens, proxy, plan, taken, views, w);
      }
    } else if Roomy(servers, tokens, proxy) {
      IncoherentMoves(servers, tokens, proxy);
    }
    again := ApplyAutoPorts(servers, tokens, proxy);
  }

  /**
   A member given by its name keeps its own port occupied, since only IDs are compared when the ports in use are
   collected: it moves at every application.
   */
  method NamedMemberNeverSettles() returns (first: bool, second: bool, third: bool)
    ensures first && second && third
  {
    var lobby := new Server("1", "lobby", Java.Default(), Bedrock.Default(), Rcon.Default());
    var game := new Server("2", "game", Java.Default() + 1, Bedrock.Default() + 1, Rcon.Default() + 1);
    var servers, tokens := [lobby, game], ["1", "game"];
    ghost var members := [Member("1", lobby), Member("game", game)];
    NamedMembers(lobby, game);
    assert Outside(members[1].server, tokens) && !Primary(members, None)[1];
    FewAreRoomy(servers, tokens, None);
    IncoherentMoves(servers, tokens, None);
    first := ApplyAutoPorts(servers, tokens, None);
    FewAreRoomy(servers, tokens, None);
    IncoherentMoves(servers, tokens, None);
    second := ApplyAutoPorts(servers, tokens, None);
    FewAreRoomy(servers, tokens, None);
    IncoherentMoves(servers, tokens, None);
    third := ApplyAutoPorts(servers, tokens, None);
  }

  lemma NamedMembers(lobby: Server, game: Server)
    requires lobby.id == "1" && lobby.name == "lobby" && game.id == "2" && game.name == "game"
    ensures Resolved([lobby, game], ["1", "game"]) == [Member("1", lobby), Member("game", game)]
  {
    KeyLength("1");
    KeyLength("lobby");
    KeyLength("game");
    assert [lobby, game][1..] == [game] && ["1", "game"][1..] == ["game"] && ["game"][1..] == [];
    assert Designates("1", lobby) && !Designates("game", lobby) && Designates("game", game);
    assert Find([lobby, game], "1") == Some(lobby);
    assert Find([lobby, game], "game") == Find([game], "game") == Some(game);
    assert Resolved([lobby, game], ["game"]) == [Member("game", game)];
  }

  lemma KeyLength(s: string)
    requires s != "" && !IsSpace(s[0]) && !IsSpace(s[|s| - 1])
    ensures Key(Some(s)).Some? && |Key(Some(s)).value| == |s|
  {
  }

  /** A primary given by its name that holds the next port makes the member after it move twice. */
  method PrimaryInTheWay() returns (first: bool, again: bool)
    ensures again
  {
    var game := new Server("2", "game", Java.Default() + 1, Bedrock.Default() + 1, Rcon.Default() + 1);
    var lobby := new Server("1", "lobby", Java.Default(), Bedrock.Default(), Rcon.Default());
    var servers, tokens := [lobby, game], ["1", "game"];
    ghost var members := [Member("1", lobby), Member("game", game)];
    NamedMembers(lobby, game);
    ghost var primary := Primary(members, Some("game"));
    assert primary == [false, true] && members[1].server == game && Outside(game, tokens);
    assert members[0] in members && members[1] in members;
    assert lobby in ServersOf(members) && game in ServersOf(members);
    assert Strangers(servers, tokens, Java) == {};
    assert Others(primary, 1) == 1;
    assert game.java == Java.Default() + 1;
    assert InTheWay({}, Java.Default(), Others(primary, 2), game.Port(Java));
    assert !PrimaryAside(servers, tokens, Some("game"), Java);
    FewAreRoomy(servers, tokens, Some("game"));
    assert !Settles(servers, tokens, Some("game"));
    first, again := ApplyTwice(servers, tokens, Some("game"));
  }
}
