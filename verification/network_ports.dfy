/** The ports of a network that has its ranges to itself (`window-networks.c`), number by number. */
module NetworkPorts {
  import opened Names
  import opened Ports
  import opened Wrappers

  lemma {:induction false} FreeRank(outside: set<int>, default: int, k: nat)
    requires forall p :: default < p <= default + k ==> p !in outside
    ensures Rank(outside, default, default + 1 + k) == k
  {
    if k > 0 {
      FreeRank(outside, default, k - 1);
    }
  }

  /** Where nobody else uses the ports after the default one, they are given out in a row. */
  lemma InARow(primary: seq<bool>, outside: set<int>, default: int, j: nat)
    requires 0 < default && default + |primary| <= 65535 && j < |primary|
    requires forall p :: default < p <= default + |primary| ==> p !in outside
    ensures |Allocate(primary, outside, default + 1, default)| == |primary|
    ensures Allocate(primary, outside, default + 1, default)[j]
         == if primary[j] then default else default + 1 + Others(primary, j)
  {
    OthersAtMost(primary, |primary|);
    OthersAtMost(primary, j);
    FreeRank(outside, default, |primary|);
    RankGrows(outside, default, default + 1 + |primary|, 65536);
    AllocateIsFirstFit(primary, outside, default, j);
    if !primary[j] {
      OthersGrow(primary, j, |primary|);
      FreeRank(outside, default, Others(primary, j));
      KthIsUnique(outside, default, Others(primary, j), Allocate(primary, outside, default + 1, default)[j],
                  default + 1 + Others(primary, j));
    }
  }

  /** No port of a range that starts after `default` is one of a server with an ID that is not in the network. */
  predicate IsUnclaimed(servers: seq<Server>, tokens: seq<string>, p: Protocol, default: int)
    reads servers
  {
    forall s <- servers :: s.id != "" && s.id !in tokens ==> !(default < s.Port(p) <= default + |tokens|)
  }

  /** The member that leads the network: the one that the proxy names, or the first. */
  predicate Leads(members: seq<Member>, proxy: Option<string>, j: nat)
    requires j < |members|
  {
    if proxy.Some? && proxy.value != "" then members[j].token == proxy.value else j == 0
  }

  /** How many of the first `n` members do not lead. */
  function Followers(members: seq<Member>, proxy: Option<string>, n: nat): nat
    requires n <= |members|
  {
    if n == 0 then 0
    else Followers(members, proxy, n - 1) + if Leads(members, proxy, n - 1) then 0 else 1
  }

  lemma {:induction false} FollowersAreOthers(members: seq<Member>, proxy: Option<string>, n: nat)
    requires n <= |members|
    ensures Others(Primary(members, proxy), n) == Followers(members, proxy, n)
  {
    if n > 0 {
      FollowersAreOthers(members, proxy, n - 1);
    }
  }

  lemma PlannedFor(servers: seq<Server>, tokens: seq<string>, proxy: Option<string>, p: Protocol)
    returns (taken: set<int>, ports: seq<int>)
    ensures taken == Taken(servers, tokens, p) && ports == Planned(servers, tokens, proxy).Of(p)
    ensures ports == Allocate(Primary(Resolved(servers, tokens), proxy), taken, p.Default() + 1, p.Default())
  {
    taken, ports := Taken(servers, tokens, p), Planned(servers, tokens, proxy).Of(p);
  }

  lemma InARowFor(servers: seq<Server>, tokens: seq<string>, proxy: Option<string>, p: Protocol, default: int, j: nat)
    requires |tokens| <= 39960 && IsUnclaimed(servers, tokens, p, default) && default == p.Default()
    requires j < |Resolved(servers, tokens)|
    ensures var members := Resolved(servers, tokens);
            && |Planned(servers, tokens, proxy).Of(p)| == |members|
            && Planned(servers, tokens, proxy).Of(p)[j]
               == if Leads(members, proxy, j) then default else default + 1 + Followers(members, proxy, j)
  {
    var members := Resolved(servers, tokens);
    ResolvedAreFound(servers, tokens);
    FollowersAreOthers(members, proxy, j);
    var taken, ports := PlannedFor(servers, tokens, proxy, p);
    assert forall q :: default < q <= default + |members| ==> q !in taken;
    InARow(Primary(members, proxy), taken, default, j);
  }

  /** The three ports of member `j`, counted up from the default ones. */
  predicate IsNumbered(members: seq<Member>, proxy: Option<string>, j: nat, java: int, bedrock: int, rcon: int)
    requires j < |members|
  {
    if Leads(members, proxy, j) then java == 25565 && bedrock == 19132 && rcon == 25575
    else
      var n := Followers(members, proxy, j);
      java == 25566 + n && bedrock == 19133 + n && rcon == 25576 + n
  }

  /** A network whose ranges no server with another ID uses. */
  predicate HasItsRanges(servers: seq<Server>, tokens: seq<string>)
    reads servers
  {
    && |tokens| <= 39960
    && IsUnclaimed(servers, tokens, Java, 25565) && IsUnclaimed(servers, tokens, Bedrock, 19132)
    && IsUnclaimed(servers, tokens, Rcon, 25575)
  }

  lemma PlanIsNumbered(servers: seq<Server>, tokens: seq<string>, proxy: Option<string>, plan: Plan)
    requires HasItsRanges(servers, tokens) && plan == Planned(servers, tokens, proxy)
    ensures plan.For(|Resolved(servers, tokens)|)
    ensures forall j :: 0 <= j < |Resolved(servers, tokens)| ==>
              IsNumbered(Resolved(servers, tokens), proxy, j, plan.java[j], plan.bedrock[j], plan.rcon[j])
  {
    var members := Resolved(servers, tokens);
    forall j | 0 <= j < |members| ensures IsNumbered(members, proxy, j, plan.java[j], plan.bedrock[j], plan.rcon[j]) {
      InARowFor(servers, tokens, proxy, Java, 25565, j);
      InARowFor(servers, tokens, proxy, Bedrock, 19132, j);
      InARowFor(servers, tokens, proxy, Rcon, 25575, j);
    }
  }

  /**
   A network whose ranges nobody else uses: the leader gets 25565, 19132 and 25575, and the members after it the
   numbers that follow, in their order.
   */
  method NumberNetwork(servers: seq<Server>, tokens: seq<string>, proxy: Option<string>) returns (changed: bool)
    requires HasItsRanges(servers, tokens)
    modifies servers
    ensures var members := Resolved(servers, tokens);
            forall j :: 0 <= j < |members| && Last(members, j, |members|) ==>
              var server := members[j].server;
              IsNumbered(members, proxy, j, server.java, server.bedrock, server.rcon)
  {
    PlanIsNumbered(servers, tokens, proxy, Planned(servers, tokens, proxy));
    changed := ApplyAutoPorts(servers, tokens, proxy);
  }

  // ----- no clash -----

  /** A server of another network, or of none. */
  predicate IsElsewhere(server: Server, tokens: seq<string>) {
    server.id != "" && server.id !in tokens
  }

  /** A member that does not lead is planned no port that a server elsewhere has. */
  predicate IsClear(servers: seq<Server>, tokens: seq<string>, p: Protocol, port: int)
    reads servers
  {
    1 <= port <= 65535 && forall s <- servers :: IsElsewhere(s, tokens) ==> s.Port(p) != port
  }

  lemma FollowerIsClear(servers: seq<Server>, tokens: seq<string>, proxy: Option<string>, p: Protocol, j: nat)
    requires Roomy(servers, tokens, proxy) && j < |Resolved(servers, tokens)|
    requires !Leads(Resolved(servers, tokens), proxy, j)
    ensures |Planned(servers, tokens, proxy).Of(p)| == |Resolved(servers, tokens)|
    ensures IsClear(servers, tokens, p, Planned(servers, tokens, proxy).Of(p)[j])
  {
    var primary := Primary(Resolved(servers, tokens), proxy);
    TakenSuffice(servers, tokens, proxy, p);
    var taken, ports := PlannedFor(servers, tokens, proxy, p);
    AllocateIsFirstFit(primary, taken, p.Default(), j);
    forall s <- servers ensures IsElsewhere(s, tokens) ==> s.Port(p) != ports[j] {
      assert Outside(s, tokens) && 0 < s.Port(p) <= 65535 ==> s.Port(p) in taken;
    }
  }

  /** Every follower's ports are clear, as the servers are. */
  ghost predicate AllClear(servers: seq<Server>, tokens: seq<string>, proxy: Option<string>, plan: Plan)
    requires plan.For(|Resolved(servers, tokens)|)
    reads servers
  {
    forall j :: 0 <= j < |Resolved(servers, tokens)| && !Leads(Resolved(servers, tokens), proxy, j) ==>
      && IsClear(servers, tokens, Java, plan.java[j]) && IsClear(servers, tokens, Bedrock, plan.bedrock[j])
      && IsClear(servers, tokens, Rcon, plan.rcon[j])
  }

  lemma PlanIsClear(servers: seq<Server>, tokens: seq<string>, proxy: Option<string>, plan: Plan)
    requires Roomy(servers, tokens, proxy) && plan == Planned(servers, tokens, proxy)
    ensures plan.For(|Resolved(servers, tokens)|) && AllClear(servers, tokens, proxy, plan)
  {
    var members := Resolved(servers, tokens);
    forall j | 0 <= j < |members| && !Leads(members, proxy, j)
      ensures IsClear(servers, tokens, Java, plan.java[j]) && IsClear(servers, tokens, Bedrock, plan.bedrock[j])
      ensures IsClear(servers, tokens, Rcon, plan.rcon[j])
    {
      FollowerIsClear(servers, tokens, proxy, Java, j);
      FollowerIsClear(servers, tokens, proxy, Bedrock, j);
      FollowerIsClear(servers, tokens, proxy, Rcon, j);
    }
  }

  /** Every follower is put on ports from 1 to 65535 that no server elsewhere has. */
  method AvoidClashes(servers: seq<Server>, tokens: seq<string>, proxy: Option<string>) returns (changed: bool)
    requires |servers| + |tokens| <= 39960
    modifies servers
    ensures var members := Resolved(servers, tokens);
            forall j, s :: 0 <= j < |members| && Last(members, j, |members|) && !Leads(members, proxy, j)
                           && s in servers && IsElsewhere(s, tokens) ==>
              var server := members[j].server;
              && 1 <= server.java <= 65535 && old(s.java) != server.java
              && 1 <= server.bedrock <= 65535 && old(s.bedrock) != server.bedrock
              && 1 <= server.rcon <= 65535 && old(s.rcon) != server.rcon
    ensures forall s <- servers :: s !in ServersOf(Resolved(servers, tokens)) ==> unchanged(s)
  {
    FewAreRoomy(servers, tokens, proxy);
    ghost var plan := Planned(servers, tokens, proxy);
    PlanIsClear(servers, tokens, proxy, plan);
    changed := ApplyAutoPorts(servers, tokens, proxy);
    assert var members := Resolved(servers, tokens);
           forall j :: 0 <= j < |members| && Last(members, j, |members|) ==> HasPlanned(members, j, plan);
    ghost var members := Resolved(servers, tokens);
    forall j, s | 0 <= j < |members| && Last(members, j, |members|) && !Leads(members, proxy, j)
                  && s in servers && IsElsewhere(s, tokens)
      ensures var server := members[j].server;
              && 1 <= server.java <= 65535 && old(s.java) != server.java
              && 1 <= server.bedrock <= 65535 && old(s.bedrock) != server.bedrock
              && 1 <= server.rcon <= 65535 && old(s.rcon) != server.rcon
    {
      assert HasPlanned(members, j, plan);
      assert old(AllClear(servers, tokens, proxy, plan));
      assert old(IsClear(servers, tokens, Java, plan.java[j]) && s.Port(Java) == s.java);
      assert old(IsClear(servers, tokens, Bedrock, plan.bedrock[j]) && s.Port(Bedrock) == s.bedrock);
      assert old(IsClear(servers, tokens, Rcon, plan.rcon[j]) && s.Port(Rcon) == s.rcon);
    }
  }

  // ----- the servers that tokens name -----

  /** A token means a text as it is, or as the same name. */
  ghost predicate Means(token: string, text: string) {
    token == text || IsSameName(token, text)
  }

  ghost predicate IsMeant(token: string, server: Server) {
    token != "" && (Means(token, server.id) || Means(token, server.name))
  }

  lemma DesignatesIs(token: string, server: Server)
    requires token != ""
    ensures Designates(token, server) <==> IsMeant(token, server)
  {
    KeysAgree(token, server.id);
    KeysAgree(token, server.name);
  }

  /** A token finds the first server whose ID or name it means, and nothing if there is none. */
  lemma {:induction false} FindsFirst(servers: seq<Server>, token: string)
    ensures match Find(servers, token)
            case Some(server) => exists i :: 0 <= i < |servers| && servers[i] == server && IsMeant(token, server)
                                             && forall j :: 0 <= j < i ==> !IsMeant(token, servers[j])
            case None => forall server <- servers :: !IsMeant(token, server)
  {
    if servers != [] && token != "" {
      DesignatesIs(token, servers[0]);
      if Designates(token, servers[0]) {
        assert servers[0] == Find(servers, token).value;
      } else {
        FindsFirst(servers[1..], token);
        assert forall k :: 0 <= k < |servers[1..]| ==> servers[1..][k] == servers[k + 1];
        if Find(servers, token).Some? {
          var server := Find(servers, token).value;
          var i :| 0 <= i < |servers[1..]| && servers[1..][i] == server && IsMeant(token, server)
                   && forall j :: 0 <= j < i ==> !IsMeant(token, servers[1..][j]);
          assert servers[i + 1] == server;
          forall j | 0 <= j < i + 1 ensures !IsMeant(token, servers[j]) {
            assert j > 0 ==> servers[1..][j - 1] == servers[j];
          }
        }
      }
    }
  }

  /** If every token finds a server, the members are those servers, token by token. */
  lemma {:induction false} AllFoundInOrder(servers: seq<Server>, tokens: seq<string>)
    requires forall token <- tokens :: Find(servers, token).Some?
    ensures |Resolved(servers, tokens)| == |tokens|
    ensures forall i :: 0 <= i < |tokens| ==> Resolved(servers, tokens)[i].token == tokens[i]
                                              && Find(servers, tokens[i]) == Some(Resolved(servers, tokens)[i].server)
  {
    if tokens != [] {
      AllFoundInOrder(servers, tokens[1..]);
      var rest := Resolved(servers, tokens[1..]);
      assert forall i :: 0 < i < |tokens| ==> tokens[i] == tokens[1..][i - 1];
      assert Find(servers, tokens[0]).Some?;
      assert Resolved(servers, tokens) == [Member(tokens[0], Find(servers, tokens[0]).value)] + rest;
    }
  }
}
