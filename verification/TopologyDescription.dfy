/** The topology description as the object it is: servers are shared handles whose descriptions are updated in place. */
module TopologyDescription {
  import opened Wrappers
  import opened Sdam
  import opened Topology

  class Server {
    const address: Address
    ghost const id: ServerId
    var description: Desc

    constructor (address: Address, ghost id: ServerId)
      ensures description == DefaultDesc(address) && this.address == address && this.id == id
    {
      this.address, this.id, description := address, id, DefaultDesc(address);
    }

    /** `ServerDescription::update`: whether the reply is new. */
    method Update(reply: Result<Reply, string>) returns (r: Result<bool, string>)
      modifies this
      ensures match reply
              case Ok(v) => description == AfterReply(old(description), v) && r == Ok(!Unchanged(old(description), v))
              case Err(e) => description == old(description).(kind := Unknown) && r == Err(e)
    {
      if reply.Err? {
        description := description.(kind := Unknown);
        return Err(reply.error);
      }
      var v, d := reply.value, description;
      var k;
      if v.msg == Some("isdbgrid") { k := Mongos; }
      else if v.setName.Some? && v.isMaster { k := RSPrimary; }
      else if v.setName.Some? && v.secondary == Some(true) { k := RSSecondary; }
      else if v.setName.Some? && v.arbiterOnly == Some(true) { k := RSArbiter; }
      else if v.setName.Some? { k := RSOther; }
      else if v.isReplicaSet == Some(true) { k := RSGhost; }
      else { k := Standalone; }
      var same := d.kind == k && d.minWire == v.minWire && d.maxWire == v.minWire && d.me == v.me;
      same := same && (if v.hosts.Some? then d.hosts == v.hosts.value else d.hosts == []);
      same := same && (if v.passives.Some? then d.passives == v.passives.value else d.passives == []);
      same := same && (if v.arbiters.Some? then d.arbiters == v.arbiters.value else d.arbiters == []);
      same := same && (if v.tags.Some? then d.tags == v.tags.value else d.tags == map[]);
      same := same && d.setName == v.setName && d.setVersion == v.setVersion && d.electionId == v.electionId;
      same := same && d.primary == v.primary && d.sessionTimeout == Some(v.sessionTimeout);
      if same {
        description := description.(kind := k);
        return Ok(false);
      }
      description := Desc(
        description.address, k, v.minWire, v.maxWire, v.me, Or(v.hosts, []), Or(v.passives, []), Or(v.arbiters, []),
        Or(v.tags, map[]), v.setName, v.setVersion, v.electionId, v.primary, Some(v.sessionTimeout));
      return Ok(true);
    }
  }

  ghost function Descs(all: seq<Server>): (r: seq<Desc>)
    reads all
    ensures |r| == |all| && forall i | 0 <= i < |all| :: r[i] == all[i].description
  {
    if all == [] then [] else Descs(all[..|all| - 1]) + [all[|all| - 1].description]
  }

  ghost function Ids(servers: map<Address, Server>): map<Address, ServerId> {
    map a | a in servers :: servers[a].id
  }

  ghost predicate Linked(servers: map<Address, Server>, all: seq<Server>) {
    forall a | a in servers :: servers[a].id < |all| && all[servers[a].id] == servers[a] && servers[a].address == a
  }

  ghost predicate Placed(all: seq<Server>)
    reads all
  {
    forall i | 0 <= i < |all| :: all[i].id == i && all[i].description.address == all[i].address
  }

  lemma LinkedAdded(servers: map<Address, Server>, all: seq<Server>, server: Server)
    requires Linked(servers, all) && server.id == |all|
    ensures Linked(servers[server.address := server], all + [server])
  {
  }

  lemma IdsAdded(servers: map<Address, Server>, server: Server)
    ensures Ids(servers[server.address := server]) == Ids(servers)[server.address := server.id]
  {
  }

  lemma PlacedAdded(all: seq<Server>, server: Server)
    requires Placed(all) && server.id == |all| && server.description.address == server.address
    ensures Placed(all + [server])
  {
  }

  lemma DescsAdded(all: seq<Server>, server: Server)
    ensures (all + [server])[..|all|] == all && Descs(all + [server]) == Descs(all) + [server.description]
  {
    assert (all + [server])[..|all|] == all;
  }

  /** `HashMap::retain`. */
  function Kept(servers: map<Address, Server>, d: Desc): map<Address, Server> {
    map a | a in servers && (a in d.hosts || a in d.passives || a in d.arbiters) :: servers[a]
  }

  lemma KeptIds(servers: map<Address, Server>, all: seq<Server>, s: State, d: Desc)
    requires s.servers == Ids(servers) && Linked(servers, all)
    ensures Retain(s, d) == s.(servers := Ids(Kept(servers, d))) && Linked(Kept(servers, d), all)
  {
    assert Ids(Kept(servers, d)) == Retain(s, d).servers;
  }

  class TopologyDescription {
    var servers: map<Address, Server>
    var kind: TopologyType
    var setName: Option<string>
    var maxSetVersion: Option<int>
    var maxElectionId: Option<nat>
    /** All servers ever created, tracked or not. */
    ghost var all: seq<Server>
    ghost var unsettled: set<ServerId>

    ghost predicate Valid()
      reads this, all
    {
      Linked(servers, all) && Placed(all)
    }

    ghost function Abs(): State
      reads this, all
    {
      State(Ids(servers), Descs(all), kind, setName, maxSetVersion, maxElectionId, unsettled)
    }

    constructor (kind: TopologyType, setName: Option<string>)
      ensures Valid() && Abs() == Topology.Init([], kind, setName) && all == []
    {
      servers, this.kind, this.setName, maxSetVersion, maxElectionId := map[], kind, setName, None, None;
      all, unsettled := [], {};
    }

    lemma AbsFacts()
      requires Valid()
      ensures Keyed(Abs())
      ensures forall a | a in servers :: servers[a] in all && Abs().descs[servers[a].id] == servers[a].description
    {
      hide Descs;
    }

    method HasPrimary() returns (found: bool)
      requires Valid()
      ensures Keyed(Abs()) && found == Topology.HasPrimary(Abs())
    {
      var rest := servers.Keys;
      found := false;
      AbsFacts();
      ghost var s := Abs();
      hide Keyed, Descs;
      while rest != {} && !found
        invariant rest <= servers.Keys
        invariant found <==> exists a | a in servers && a !in rest :: PrimaryAt(s, a)
        decreases rest
      {
        var a :| a in rest;
        found := servers[a].description.kind == RSPrimary;
        rest := rest - {a};
      }
    }

    /** `check_if_has_primary`. */
    method CheckIfHasPrimary()
      requires Valid()
      modifies this`kind
      ensures Valid() && Keyed(old(Abs())) && Abs() == Topology.CheckIfHasPrimary(old(Abs()))
    {
      var found := HasPrimary();
      if !found { kind := ReplicaSetNoPrimary; }
      hide Descs, Keyed, Topology.HasPrimary;
    }

    /** Overwriting one description changes that server's, and no other's. */
    method Describe(server: Server, d: Desc)
      requires Valid() && server in all && d.address == server.description.address
      modifies server
      ensures Valid() && server.description == d
      ensures server.id < |old(Abs()).descs| && Abs() == With(old(Abs()), server.id, d)
    {
      server.description := d;
      hide Descs, Linked;
      assert Descs(all) == old(Descs(all))[server.id := d];
    }

    /** One round of the loop: `s` is the topology before it, `rest` what it still has to look at. */
    method InvalidateAt(a: Address, address: Address, ghost s: State, ghost rest: set<Address>)
      requires Valid() && a in servers && Keyed(s) && a in rest && s.servers == Ids(servers)
                && Abs() == PartInvalidate(s, address, rest)
      modifies servers[a]
      ensures Valid() && Abs() == PartInvalidate(s, address, rest - {a})
    {
      AbsFacts();
      PartStep(s, address, rest, a);
      var server := servers[a];
      hide Descs, Keyed, PartInvalidate;
      if server.description.kind == RSPrimary && server.description.address != address {
        Describe(server, server.description.(kind := Unknown));
      }
    }

    method InvalidateOthers(address: Address)
      requires Valid()
      modifies all
      ensures Valid() && Abs() == Topology.InvalidateOthers(old(Abs()), address)
    {
      AbsFacts();
      var rest := servers.Keys;
      ghost var s := Abs();
      assert s.servers == Ids(servers) && s.servers.Keys == servers.Keys;
      hide *;
      PartEnds(s, address);
      while rest != {}
        invariant rest <= servers.Keys
        invariant Valid() && Abs() == PartInvalidate(s, address, rest)
        decreases rest
      {
        var a :| a in rest;
        InvalidateAt(a, address, s, rest);
        rest := rest - {a};
      }
    }

    /** `Server::new` and the insertion that follows it. */
    method AddServer(address: Address)
      requires Valid()
      modifies this`servers, this`all
      ensures Valid() && old(all) <= all && |all| == |old(all)| + 1 && fresh(all[|old(all)|])
      ensures Abs() == WithServer(old(Abs()), address)
    {
      hide Descs, Linked, Placed, Ids;
      var server := new Server(address, |all|);
      LinkedAdded(servers, all, server);
      IdsAdded(servers, server);
      PlacedAdded(all, server);
      DescsAdded(all, server);
      servers := servers[address := server];
      all := all + [server];
    }

    method AddServers(addrs: seq<Address>, unusable: set<Address>) returns (ok: bool)
      requires Valid()
      modifies this`servers, this`all
      ensures Valid() && old(all) <= all && fresh(all[|old(all)|..])
      ensures (Abs(), ok) == Topology.AddServers(old(Abs()), addrs, unusable)
    {
      var i := 0;
      hide Descs, Valid;
      while i < |addrs|
        invariant i <= |addrs|
        invariant Valid() && old(all) <= all && fresh(all[|old(all)|..])
        invariant Topology.AddServers(old(Abs()), addrs, unusable) == Topology.AddServers(Abs(), addrs[i..], unusable)
      {
        assert addrs[i..][0] == addrs[i] && addrs[i..][1..] == addrs[i + 1..];
        if addrs[i] !in servers {
          if addrs[i] in unusable { return false; }
          ghost var was := all;
          AddServer(addrs[i]);
          assert all[|old(all)|..] == was[|old(all)|..] + [all[|was|]];
        }
        i := i + 1;
      }
      return true;
    }

    method RemoveServer(address: Address)
      requires Valid()
      modifies this`servers
      ensures Valid() && Abs() == Remove(old(Abs()), address)
    {
      servers := servers - {address};
      assert Ids(servers) == Ids(old(servers)) - {address};
      hide Descs, Placed, Ids;
    }

    method RetainListed(d: Desc)
      requires Valid()
      modifies this`servers
      ensures Valid() && Abs() == Retain(old(Abs()), d)
    {
      KeptIds(servers, all, Abs(), d);
      hide Descs, Placed, Ids, Linked, Kept, Retain;
      servers := Kept(servers, d);
    }

    /** The claim is recorded, unless it is stale. */
    method RecordClaim(d: Desc) returns (stale: bool)
      modifies this`maxSetVersion, this`maxElectionId
      ensures stale == Stale(old(Abs()), d)
      ensures Abs() == if stale then old(Abs()) else Record(old(Abs()), d)
    {
      hide Descs;
      if d.setVersion.Some? && d.electionId.Some? {
        if maxSetVersion.Some? && maxElectionId.Some? {
          if maxSetVersion.value > d.setVersion.value
             || (maxSetVersion.value == d.setVersion.value && maxElectionId.value > d.electionId.value) {
            return true;
          }
        }
        maxElectionId := d.electionId;
      }
      if d.setVersion.Some? {
        match maxSetVersion
        case Some(version) => if d.setVersion.value > version { maxSetVersion := d.setVersion; }
        case None => maxSetVersion := d.setVersion;
      }
      return false;
    }

    /** `mark possible primary`. */
    method MarkPossiblePrimary(d: Desc)
      requires Valid()
      modifies all
      ensures Valid() && Keyed(old(Abs())) && Abs() == Topology.MarkPossiblePrimary(old(Abs()), d)
    {
      AbsFacts();
      hide Descs;
      if d.primary.Some? && d.primary.value in servers {
        var server := servers[d.primary.value];
        if server.description.kind == Unknown {
          Describe(server, server.description.(kind := PossiblePrimary));
        }
      }
    }

    // ----- the arms of the table -----

    /** What every arm may assume of its reporter, tracked or not. */
    ghost predicate Reporting(server: Server)
      reads this, all
    {
      Valid() && server in all
    }

    lemma ReporterFacts(server: Server)
      requires Reporting(server)
      ensures Keyed(Abs()) && server.id < |Abs().descs| && Abs().descs[server.id] == server.description
    {
      AbsFacts();
      hide Descs;
    }

    method RemoveReporter(address: Address)
      requires Valid()
      modifies this`servers, this`kind
      ensures Valid() && Keyed(Remove(old(Abs()), address))
      ensures Abs() == Topology.CheckIfHasPrimary(Remove(old(Abs()), address))
    {
      RemoveServer(address);
      CheckIfHasPrimary();
      hide *;
    }

    method ResetReporter(server: Server)
      requires Reporting(server)
      modifies this`kind, server
      ensures Valid() && server.id < |old(Abs()).descs| && Keyed(Reset(old(Abs()), server.id))
      ensures Abs() == Topology.CheckIfHasPrimary(Reset(old(Abs()), server.id))
    {
      ReporterFacts(server);
      hide Descs, Linked, Placed, Topology.CheckIfHasPrimary;
      Describe(server, DefaultDesc(server.description.address));
      CheckIfHasPrimary();
    }

    /** `invalidate old primary` and `update servers`. */
    method UpdateServers(d: Desc, unusable: set<Address>) returns (ok: bool)
      requires Valid()
      modifies this`kind, this`servers, this`all, all
      ensures Valid() && old(all) <= all && fresh(all[|old(all)|..])
      ensures var (t, done) := Topology.AddServers(Retain(Topology.InvalidateOthers(old(Abs()), d.address), d),
                Listed(d), unusable);
              ok == done && Keyed(t) && Abs() == if ok then Topology.CheckIfHasPrimary(t) else t
    {
      hide Descs, Linked, Placed, Topology.CheckIfHasPrimary, Topology.AddServers, Retain, Topology.InvalidateOthers;
      InvalidateOthers(d.address);
      RetainListed(d);
      ok := AddServers(d.hosts + d.passives + d.arbiters, unusable);
      AbsFacts();
      if ok { CheckIfHasPrimary(); }
    }

    /** `update setVersion and electionId`, and what follows. */
    method UpdateFromClaim(server: Server, unusable: set<Address>) returns (o: Outcome)
      requires Reporting(server)
      modifies this, all
      ensures Valid() && old(all) <= all && fresh(all[|old(all)|..])
      ensures Keyed(old(Abs())) && server.id < |old(Abs()).descs|
      ensures (Abs(), o) == FromClaim(old(Abs()), server.id, unusable)
    {
      ReporterFacts(server);
      var d := server.description;
      hide Descs, Linked, Placed, Topology.CheckIfHasPrimary, Topology.AddServers, Retain, Topology.InvalidateOthers,
          Reset, Stale, Record, Keyed;
      var stale := RecordClaim(d);
      if stale {
        ResetReporter(server);
        return Done;
      }
      var ok := UpdateServers(d, unusable);
      o := if ok then Done else Failed;
    }

    /** The new type, and `update set name`. */
    method Enter(k: TopologyType, d: Desc) returns (mismatch: bool)
      requires Valid()
      modifies this`kind, this`setName
      ensures Valid()
      ensures mismatch == NameMismatch(old(Abs()), d)
      ensures var s := old(Abs()).(kind := k); Abs() == if mismatch then s else TakeName(s, d)
    {
      hide Descs;
      kind := k;
      if setName.None? {
        setName := d.setName;
      } else if setName != d.setName {
        return true;
      }
      return false;
    }

    /** `updateRSFromPrimary`. */
    method UpdateFromPrimary(server: Server, unusable: set<Address>) returns (o: Outcome)
      requires Reporting(server)
      modifies this, all
      ensures Valid() && old(all) <= all && fresh(all[|old(all)|..])
      ensures Keyed(old(Abs())) && server.id < |old(Abs()).descs|
      ensures (Abs(), o) == FromPrimary(old(Abs()), server.id, unusable)
    {
      ReporterFacts(server);
      FromPrimaryClaim(Abs(), server.id, unusable);
      var d := server.description;
      hide Valid, Abs, FromPrimary, FromClaim, Keyed, Remove, Topology.CheckIfHasPrimary, TakeName, NameMismatch;
      var mismatch := Enter(ReplicaSetWithPrimary, d);
      if mismatch {
        RemoveReporter(d.address);
        return Done;
      }
      o := UpdateFromClaim(server, unusable);
    }

    /** `updateRSWithoutPrimary`. */
    method UpdateWithoutPrimary(server: Server, unusable: set<Address>) returns (o: Outcome)
      requires Reporting(server)
      modifies this, all
      ensures Valid() && old(all) <= all && fresh(all[|old(all)|..])
      ensures Keyed(old(Abs())) && server.id < |old(Abs()).descs|
      ensures (Abs(), o) == WithoutPrimary(old(Abs()), server.id, unusable)
    {
      ReporterFacts(server);
      var d := server.description;
      assert Valid();
      hide Reporting, Valid, Abs, Keyed, Remove, TakeName, NameMismatch, Topology.AddServers,
          Topology.MarkPossiblePrimary;
      var mismatch := Enter(ReplicaSetNoPrimary, d);
      if mismatch {
        RemoveServer(d.address);
        return Done;
      }
      var ok := AddServers(d.hosts + d.passives + d.arbiters, unusable);
      if !ok { return Failed; }
      assert forall x | x in all :: x in old(all) || x in all[|old(all)|..];
      o := MarkAndCheck(d);
    }

    /** The end of it: `mark possibly primary`, and the reporter must be who it says it is. */
    method MarkAndCheck(d: Desc) returns (o: Outcome)
      requires Valid()
      modifies this`servers, all
      ensures Valid() && Keyed(old(Abs()))
      ensures var t := Topology.MarkPossiblePrimary(old(Abs()), d);
              if d.me.None? then Abs() == t && o == Panicked
              else o == Done && Abs() == if d.me.value != d.address then Remove(t, d.address) else t
    {
      MarkPossiblePrimary(d);
      hide *;
      if d.me.None? { return Panicked; }
      if d.me.value != d.address { RemoveServer(d.address); }
      return Done;
    }

    /** `updateRSWithPrimaryFromMember`. */
    method UpdateFromMember(server: Server) returns (o: Outcome)
      requires Reporting(server)
      modifies this`servers, this`kind, all
      ensures Valid()
      ensures Keyed(old(Abs())) && server.id < |old(Abs()).descs|
      ensures (Abs(), o) == FromMember(old(Abs()), server.id)
    {
      ReporterFacts(server);
      var d := server.description;
      assert Abs().setName == setName;
      hide Valid, Abs, Keyed, Remove, Topology.CheckIfHasPrimary, Topology.MarkPossiblePrimary;
      if setName != d.setName {
        RemoveReporter(d.address);
        return Done;
      }
      if d.me.None? { return Panicked; }
      if d.address != d.me.value {
        RemoveReporter(d.address);
        return Done;
      }
      CheckIfHasPrimary();
      MarkPossiblePrimary(d);
      return Done;
    }

    method Decide(k: TopologyType)
      requires Valid()
      modifies this`kind
      ensures Valid() && Abs() == old(Abs()).(kind := k)
    {
      kind := k;
      hide Descs, Linked, Placed, Ids;
    }

    /** The rows of the table for replica sets without a primary. */
    method UpdateNoPrimary(server: Server, unusable: set<Address>) returns (o: Outcome)
      requires Reporting(server) && kind == ReplicaSetNoPrimary
      modifies this, all
      ensures Valid() && old(all) <= all && fresh(all[|old(all)|..])
      ensures Keyed(old(Abs())) && server.id < |old(Abs()).descs|
      ensures (Abs(), o) == Topology.UpdateTable(old(Abs()), server.id, unusable)
    {
      ReporterFacts(server);
      var d := server.description;
      assert Abs().kind == kind && Valid();
      hide Reporting, Valid, Abs, Keyed, Remove, FromPrimary, WithoutPrimary;
      o := Done;
      match d.kind {
        case PossiblePrimary | Unknown | RSGhost =>
        case Standalone | Mongos => RemoveServer(d.address);
        case RSPrimary => o := UpdateFromPrimary(server, unusable);
        case RSSecondary | RSArbiter | RSOther => o := UpdateWithoutPrimary(server, unusable);
      }
    }

    /** The rows of the table for replica sets with a primary. */
    method UpdateWithPrimary(server: Server, unusable: set<Address>) returns (o: Outcome)
      requires Reporting(server) && kind == ReplicaSetWithPrimary
      modifies this, all
      ensures Valid() && old(all) <= all && fresh(all[|old(all)|..])
      ensures Keyed(old(Abs())) && server.id < |old(Abs()).descs|
      ensures (Abs(), o) == Topology.UpdateTable(old(Abs()), server.id, unusable)
    {
      ReporterFacts(server);
      var d := server.description;
      assert Abs().kind == kind && Valid();
      hide Reporting, Valid, Abs, Keyed, Remove, Topology.CheckIfHasPrimary, FromPrimary, FromMember;
      o := Done;
      match d.kind {
        case PossiblePrimary =>
        case Unknown | RSGhost => CheckIfHasPrimary();
        case Standalone | Mongos => RemoveReporter(d.address);
        case RSPrimary => o := UpdateFromPrimary(server, unusable);
        case RSSecondary | RSArbiter | RSOther => o := UpdateFromMember(server);
      }
    }

    /** `update`. The wire version check is not part of this model. */
    method UpdateTable(server: Server, unusable: set<Address>) returns (o: Outcome)
      requires Reporting(server)
      modifies this, all
      ensures Valid() && old(all) <= all && fresh(all[|old(all)|..])
      ensures Keyed(old(Abs())) && server.id < |old(Abs()).descs|
      ensures (Abs(), o) == Topology.UpdateTable(old(Abs()), server.id, unusable)
    {
      ReporterFacts(server);
      var d := server.description;
      assert Abs().kind == kind && Valid();
      hide Reporting, Valid, Abs, Keyed, Remove, FromPrimary, WithoutPrimary, FromMember;
      o := Done;
      match kind {
        case Single =>
        case Sharded => if d.kind !in {PossiblePrimary, Unknown, Mongos} { RemoveServer(d.address); }
        case ReplicaSetNoPrimary => o := UpdateNoPrimary(server, unusable);
        case ReplicaSetWithPrimary => o := UpdateWithPrimary(server, unusable);
        case UnknownType =>
          match d.kind {
            case PossiblePrimary | Unknown | RSGhost =>
            case Standalone => Decide(Single);
            case Mongos => Decide(Sharded);
            case RSPrimary => o := UpdateFromPrimary(server, unusable);
            case RSSecondary | RSArbiter | RSOther => o := UpdateWithoutPrimary(server, unusable);
          }
      }
    }

    method Update(server: Server, unusable: set<Address>) returns (o: Outcome)
      requires Reporting(server)
      modifies this, all
      ensures Valid() && old(all) <= all && fresh(all[|old(all)|..])
      ensures Keyed(old(Abs())) && server.id < |old(Abs()).descs|
      ensures (Abs(), o) == Topology.Update(old(Abs()), server.id, unusable)
    {
      ReporterFacts(server);
      hide Descs, Ids, Keyed, Linked, Placed, Topology.UpdateTable;
      o := UpdateTable(server, unusable);
      unsettled := unsettled - {server.id};
    }

    /** `init`: whether all configured hosts could be made servers of. */
    method Init(hosts: seq<Address>, unusable: set<Address>) returns (ok: bool)
      requires Valid() && Abs() == Topology.Init([], kind, setName)
      modifies this`servers, this`all
      ensures ok <==> forall a | a in hosts :: a !in unusable
      ensures ok ==> Valid() && Abs() == Topology.Init(hosts, kind, setName)
    {
      var i := 0;
      hide Valid, Abs;
      while i < |hosts|
        invariant i <= |hosts|
        invariant Valid() && Abs() == Topology.Init(hosts[..i], kind, setName)
        invariant forall a | a in hosts[..i] :: a !in unusable
      {
        if hosts[i] in unusable { return false; }
        AddServer(hosts[i]);
        i := i + 1;
        assert hosts[..i][..i - 1] == hosts[..i - 1] && hosts[..i][i - 1] == hosts[i - 1];
      }
      assert hosts[..i] == hosts;
      return true;
    }

    /** The description takes in a reply; whether it has to be reported is left to the caller. */
    method Apply(server: Server, reply: Result<Reply, string>) returns (r: Result<bool, string>)
      requires Reporting(server)
      modifies server
      ensures Reporting(server) && server.id < |old(Abs()).descs|
      ensures var d := old(Abs()).descs[server.id];
              match reply
              case Ok(v) => Abs() == With(old(Abs()), server.id, AfterReply(d, v)) && r == Ok(!Unchanged(d, v))
              case Err(e) => Abs() == With(old(Abs()), server.id, d.(kind := Unknown)) && r == Err(e)
    {
      ReporterFacts(server);
      ghost var before := server.description;
      hide Descs, Linked, Ids, Unchanged, AfterReply, Keyed;
      assert reply.Ok? ==> AfterReply(before, reply.value).address == before.address by {
        if reply.Ok? { MemberReply(before, reply.value); }
      }
      r := server.Update(reply);
      assert Descs(all) == old(Descs(all))[server.id := server.description];
    }

    method TakeReply(server: Server, reply: Result<Reply, string>) returns (r: Result<bool, string>)
      requires Reporting(server)
      modifies server, this`unsettled
      ensures Reporting(server) && server.id < |old(Abs()).descs|
      ensures match reply
              case Ok(v) => Abs() == Topology.TakeReply(old(Abs()), server.id, v)
                            && r == Ok(!Unchanged(old(Abs()).descs[server.id], v))
              case Err(e) => Abs() == TakeFailure(old(Abs()), server.id) && r == Err(e)
    {
      hide Descs, Linked, Placed, Ids, Unchanged, AfterReply;
      r := Apply(server, reply);
      if r == Ok(true) { unsettled := unsettled + {server.id}; }
    }

    /** One round of a server's monitor. A failed heartbeat ends it before the topology is updated. */
    method Heartbeat(server: Server, topologyOnly: bool, reply: Result<Reply, string>, unusable: set<Address>)
      returns (o: Result<Outcome, string>)
      requires Reporting(server)
      modifies this, all
      ensures Valid() && old(all) <= all && fresh(all[|old(all)|..])
      ensures var s, id := old(Abs()), server.id;
              && Keyed(s) && id < |s.descs|
              && (if topologyOnly then o.Ok? && (Abs(), o.value) == Topology.Update(s, id, unusable)
                  else match reply
                    case Err(e) => o == Err(e) && Abs() == TakeFailure(s, id)
                    case Ok(v) =>
                      var t := Topology.TakeReply(s, id, v);
                      Keyed(t) && o.Ok? &&
                      if Unchanged(s.descs[id], v) then o.value == Done && Abs() == t
                      else (Abs(), o.value) == Topology.Update(t, id, unusable))
    {
      ReporterFacts(server);
      hide Descs, Linked, Placed, Unchanged, Topology.TakeReply, TakeFailure, Topology.Update;
      var changed := true;
      if !topologyOnly {
        var r := TakeReply(server, reply);
        if r.Err? { return Err(r.error); }
        changed := r.value;
      }
      ReporterFacts(server);
      var done := Done;
      if changed { done := Update(server, unusable); }
      return Ok(done);
    }
  }

  ghost function WithServer(s: State, a: Address): State {
    s.(servers := s.servers[a := |s.descs|], descs := s.descs + [DefaultDesc(a)])
  }

  ghost function With(s: State, id: ServerId, d: Desc): State
    requires id < |s.descs|
  {
    s.(descs := s.descs[id := d])
  }

  /** A topology halfway through the invalidation of old primaries. */
  ghost function PartInvalidate(s: State, address: Address, rest: set<Address>): State {
    s.(descs := seq(|s.descs|, i requires 0 <= i < |s.descs| =>
                      var d := s.descs[i];
                      if Tracked(s, i) && d.address !in rest && d.kind == RSPrimary
                          && d.address != address then d.(kind := Unknown) else d))
  }

  lemma PartEnds(s: State, address: Address)
    requires Keyed(s)
    ensures PartInvalidate(s, address, s.servers.Keys) == s
    ensures PartInvalidate(s, address, {}) == InvalidateOthers(s, address)
  {
    assert PartInvalidate(s, address, s.servers.Keys).descs == s.descs;
    assert PartInvalidate(s, address, {}).descs == InvalidateOthers(s, address).descs;
  }

  lemma PartStep(s: State, address: Address, rest: set<Address>, a: Address)
    requires Keyed(s) && a in rest && a in s.servers
    ensures var t := PartInvalidate(s, address, rest);
            var d := s.descs[s.servers[a]];
            && |t.descs| == |s.descs| && t.descs[s.servers[a]] == d
            && PartInvalidate(s, address, rest - {a})
               == if d.kind == RSPrimary && d.address != address then With(t, s.servers[a], d.(kind := Unknown)) else t
  {
    var t, u, d := PartInvalidate(s, address, rest), PartInvalidate(s, address, rest - {a}), s.descs[s.servers[a]];
    var v := if d.kind == RSPrimary && d.address != address then With(t, s.servers[a], d.(kind := Unknown)) else t;
    assert u.descs == v.descs;
  }

  /** What updateRSFromPrimary does once the set name is accepted. */
  ghost function FromClaim(s: State, id: ServerId, unusable: set<Address>): (State, Outcome)
    requires Keyed(s) && id < |s.descs|
  {
    var d := s.descs[id];
    if Stale(s, d) then (CheckIfHasPrimary(Reset(s, id)), Done)
    else
      var (t, done) := AddServers(Retain(InvalidateOthers(Record(s, d), d.address), d), Listed(d), unusable);
      AddKeyed(Retain(InvalidateOthers(Record(s, d), d.address), d), Listed(d), unusable);
      if done then (CheckIfHasPrimary(t), Done) else (t, Failed)
  }

  lemma FromPrimaryClaim(s: State, id: ServerId, unusable: set<Address>)
    requires Keyed(s) && id < |s.descs|
    ensures var s1, d := s.(kind := ReplicaSetWithPrimary), s.descs[id];
            && Keyed(TakeName(s1, d)) && Keyed(Remove(s1, d.address))
            && FromPrimary(s, id, unusable) == if NameMismatch(s, d)
                then (CheckIfHasPrimary(Remove(s1, d.address)), Done)
                                               else FromClaim(TakeName(s1, d), id, unusable)
  {
    var s1, d := s.(kind := ReplicaSetWithPrimary), s.descs[id];
    assert Stale(TakeName(s1, d), d) == Stale(s1, d);
    hide CheckIfHasPrimary, AddServers, Retain, InvalidateOthers, Reset, Stale, Record;
  }
}
