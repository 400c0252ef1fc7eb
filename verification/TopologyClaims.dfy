/** Single updates field by field: what a primary's claim comes to, how far a failed update gets, and what the first
    reply ever makes of a topology. */
module TopologyClaims {
  import opened Wrappers
  import opened Sdam
  import opened Topology
  import opened TopologyInvariant
  import opened TopologyRuns
  import opened TopologyLaws
  import opened TopologyEffects

  // ----- a primary's claim -----

  /** The claim and the record are both complete, and the claim is lexicographically smaller. */
  predicate BelowRecord(s: State, d: Desc) {
    match (d.setVersion, d.electionId, s.maxSetVersion, s.maxElectionId)
    case (Some(v), Some(e), Some(version), Some(election)) => v < version || (v == version && e < election)
    case _ => false
  }

  /** What an accepted claim makes of the description at `i`. */
  function Deposed(s: State, d: Desc, i: ServerId): Desc
    requires i < |s.descs|
  {
    var e := s.descs[i];
    if e.kind == RSPrimary && e.address != d.address && Tracked(s, i) then e.(kind := Unknown) else e
  }

  /** What a claim comes to. Of another set, it costs the reporter its place; below the record, all that is known of the
      reporter; otherwise it is recorded, deposes the other tracked primaries, and decides who is tracked. */
  lemma ClaimJudged(s: State, id: ServerId, unusable: set<Address>)
    requires Inv(s) && id < |s.descs| && s.descs[id].kind == RSPrimary && s.kind != Single && s.kind != Sharded
    ensures var (d, (t, o)) := (s.descs[id], Update(s, id, unusable));
            if OtherSet(s, d) then
              && o == Done && t.servers.Keys == s.servers.Keys - {d.address} && t.descs == s.descs
              && t.maxSetVersion == s.maxSetVersion && t.maxElectionId == s.maxElectionId
            else if BelowRecord(s, d) then
              && o == Done && t.servers == s.servers
              && t.descs == s.descs[id := Desc(
                                      d.address, Unknown, 0, 0, None, [], [], [], map[], None, None, None, None, None)]
              && t.maxSetVersion == s.maxSetVersion && t.maxElectionId == s.maxElectionId
            else
              && t.maxSetVersion == (if d.setVersion.Some? && (s.maxSetVersion.None?
                                         || s.maxSetVersion.value < d.setVersion.value)
                                     then d.setVersion else s.maxSetVersion)
              && t.maxElectionId == (if d.setVersion.Some? && d.electionId.Some? then d.electionId else s.maxElectionId)
              && |s.descs| <= |t.descs| && (forall i | 0 <= i < |s.descs| :: t.descs[i] == Deposed(s, d, i))
              && (o == Done ==> t.servers.Keys == set a | a in d.hosts + d.passives + d.arbiters)
  {
    var d := s.descs[id];
    assert Stale(s, d) == BelowRecord(s, d);
    assert NameMismatch(s, d) == OtherSet(s, d);
    if OtherSet(s, d) {
      MismatchedClaim(s, id, unusable);
      hide Inv, Update;
    } else if BelowRecord(s, d) {
      StaleClaim(s, id, unusable);
      hide Inv, Update;
    } else {
      ClaimTaken(s, id, unusable);
      if Update(s, id, unusable).1 == Done { AcceptedAddresses(s, id, unusable); }
      hide Inv, Update, Deposed;
    }
  }

  lemma ClaimTaken(s: State, id: ServerId, unusable: set<Address>)
    requires Inv(s) && id < |s.descs| && Accepted(s, s.descs[id])
    ensures var (d, t) := (s.descs[id], Update(s, id, unusable).0);
            && t.maxSetVersion == Record(s, d).maxSetVersion && t.maxElectionId == Record(s, d).maxElectionId
            && |s.descs| <= |t.descs| && (forall i | 0 <= i < |s.descs| :: t.descs[i] == Deposed(s, d, i))
  {
    var d, t := s.descs[id], Update(s, id, unusable).0;
    var s1 := s.(kind := ReplicaSetWithPrimary);
    var r := AcceptPrimary(s1, d);
    AcceptedParts(s, id, unusable);
    AcceptFrame(s1, id);
    assert Record(s, d).maxSetVersion == Record(s1, d).maxSetVersion;
    assert Record(s, d).maxElectionId == Record(s1, d).maxElectionId;
    AcceptedDescs(s1, d);
    assert forall i | 0 <= i < |s.descs| :: Tracked(s1, i) <==> Tracked(s, i);
    hide Inv, Update, AcceptPrimary, AddServers, Record;
  }

  lemma AcceptedDescs(s: State, d: Desc)
    ensures |AcceptPrimary(s, d).descs| == |s.descs|
    ensures forall i | 0 <= i < |s.descs| :: AcceptPrimary(s, d).descs[i] == Deposed(s, d, i)
  {
    var p := Record(TakeName(s, d), d);
    assert p.servers == s.servers && p.descs == s.descs;
    assert forall i | 0 <= i < |s.descs| :: Tracked(p, i) <==> Tracked(s, i);
  }

  // ----- updates that fail -----

  /** Missing servers are created up to the first that cannot be. */
  lemma {:induction false} CreatesInOrder(s: State, addrs: seq<Address>, unusable: set<Address>, j: nat)
    requires j < |addrs| && !Reachable(s, unusable, addrs[j])
    requires forall i | 0 <= i < j :: Reachable(s, unusable, addrs[i])
    ensures var (t, ok) := AddServers(s, addrs, unusable);
            !ok && t.servers.Keys == s.servers.Keys + set a | a in addrs[..j]
    decreases |addrs|
  {
    var a, more := addrs[0], addrs[1..];
    if j > 0 {
      assert Reachable(s, unusable, a);
      var t := if a in s.servers then s
               else s.(servers := s.servers[a := |s.descs|], descs := s.descs + [DefaultDesc(a)]);
      assert forall i | 0 <= i < j - 1 :: more[i] == addrs[i + 1];
      forall b ensures Reachable(t, unusable, b) <==> Reachable(s, unusable, b) { }
      CreatesInOrder(t, more, unusable, j - 1);
      assert addrs[..j] == [a] + more[..j - 1];
    }
  }

  /** A failed update has created what it lists up to the server that cannot be created. A claim has by then let go of
      everything it does not list, and it leaves a topology with primary, whether one is tracked or not. */
  lemma FailedUpdate(s: State, id: ServerId, unusable: set<Address>, j: nat)
    requires Inv(s) && id < |s.descs| && Update(s, id, unusable).1 == Failed
    requires j < |Listed(s.descs[id])| && !Reachable(s, unusable, Listed(s.descs[id])[j])
    requires forall i | 0 <= i < j :: Reachable(s, unusable, Listed(s.descs[id])[i])
    ensures var (d, t) := (s.descs[id], Update(s, id, unusable).0);
            var listed := d.hosts + d.passives + d.arbiters;
            && t.servers.Keys == (if d.kind == RSPrimary then set a | a in s.servers && a in listed
                                  else s.servers.Keys) + set a | a in listed[..j]
            && t.kind == (if d.kind == RSPrimary then ReplicaSetWithPrimary else ReplicaSetNoPrimary)
            && (d.kind != RSPrimary ==> s.descs <= t.descs)
  {
    var d := s.descs[id];
    EndsExactly(s, id, unusable);
    assert Keyed(s);
    if Accepted(s, d) {
      FailedClaim(s, id, unusable, j);
    } else {
      FailedBranch(s, id, unusable, j);
      hide WithoutPrimary, FromPrimary, FromMember, Inv, Keyed;
    }
  }

  lemma FailedBranch(s: State, id: ServerId, unusable: set<Address>, j: nat)
    requires Keyed(s) && id < |s.descs| && !NameMismatch(s, s.descs[id])
    requires j < |Listed(s.descs[id])| && !Reachable(s, unusable, Listed(s.descs[id])[j])
    requires forall i | 0 <= i < j :: Reachable(s, unusable, Listed(s.descs[id])[i])
    ensures var (d, t) := (s.descs[id], WithoutPrimary(s, id, unusable).0);
            && t.servers.Keys == s.servers.Keys + set a | a in Listed(d)[..j]
            && t.kind == ReplicaSetNoPrimary && s.descs <= t.descs
  {
    var d := s.descs[id];
    var n := TakeName(s.(kind := ReplicaSetNoPrimary), d);
    assert n.servers == s.servers && n.descs == s.descs;
    CreatesInOrder(n, Listed(d), unusable, j);
    AddGrows(n, Listed(d), unusable);
    hide AddServers, TakeName, Keyed, MarkPossiblePrimary, Listed;
  }

  lemma FailedClaim(s: State, id: ServerId, unusable: set<Address>, j: nat)
    requires Inv(s) && id < |s.descs| && Update(s, id, unusable).1 == Failed && Accepted(s, s.descs[id])
    requires j < |Listed(s.descs[id])| && !Reachable(s, unusable, Listed(s.descs[id])[j])
    requires forall i | 0 <= i < j :: Reachable(s, unusable, Listed(s.descs[id])[i])
    ensures var (d, t) := (s.descs[id], Update(s, id, unusable).0);
            && t.servers.Keys == (set a | a in s.servers && a in Listed(d)) + set a | a in Listed(d)[..j]
            && t.kind == ReplicaSetWithPrimary
  {
    var d := s.descs[id];
    var s1 := s.(kind := ReplicaSetWithPrimary);
    var r := AcceptPrimary(s1, d);
    AcceptedParts(s, id, unusable);
    AcceptFrame(s1, id);
    assert r.kind == ReplicaSetWithPrimary;
    forall i | 0 <= i < |Listed(d)|
      ensures Reachable(r, unusable, Listed(d)[i]) <==> Reachable(s, unusable, Listed(d)[i]) {
      assert Listed(d)[i] in Listed(d);
    }
    CreatesInOrder(r, Listed(d), unusable, j);
    hide Inv, Update, AcceptPrimary, AddServers, Listed;
  }

  // ----- servers found on the way -----

  /** A server that a follower makes known starts with nothing known of it, but for the follower taking it for
      primary. */
  lemma NewcomersAfter(s: State, id: ServerId, unusable: set<Address>, a: Address)
    requires Inv(s) && id < |s.descs| && Follower(s.descs[id]) && Update(s, id, unusable).1 == Done
    requires a in Update(s, id, unusable).0.servers && a !in s.servers
    ensures var t := Update(s, id, unusable).0;
            && Keyed(t) && |s.descs| <= t.servers[a]
            && At(t, a) == Desc(a, if s.descs[id].primary == Some(a) then PossiblePrimary else Unknown,
                                0, 0, None, [], [], [], map[], None, None, None, None, None)
  {
    var t := Update(s, id, unusable).0;
    AddressesAfter(s, id, unusable);
    UpdateInv(s, id, unusable);
    assert Keyed(s) && Keyed(t) && a in Announced(s, s.descs[id]);
    assert (t.servers, t.descs) == (WithoutPrimary(s, id, unusable).0.servers, WithoutPrimary(s, id, unusable).0.descs);
    hide Update, Inv, WithoutPrimary, TrackedAfter, Announced, Keyed;
    NewcomersBranch(s, id, unusable, a);
  }

  lemma NewcomersBranch(s: State, id: ServerId, unusable: set<Address>, a: Address)
    requires Keyed(s) && id < |s.descs| && a !in s.servers && !NameMismatch(s, s.descs[id])
    requires var (t, o) := WithoutPrimary(s, id, unusable); Keyed(t) && a in t.servers && o == Done
    ensures var t := WithoutPrimary(s, id, unusable).0;
            && |s.descs| <= t.servers[a]
            && At(t, a) == Desc(a, if s.descs[id].primary == Some(a) then PossiblePrimary else Unknown,
                                0, 0, None, [], [], [], map[], None, None, None, None, None)
  {
    var d := s.descs[id];
    var n := TakeName(s.(kind := ReplicaSetNoPrimary), d);
    var g := AddServers(n, Listed(d), unusable).0;
    assert n.servers == s.servers && n.descs == s.descs && Keyed(n);
    AddKeyed(n, Listed(d), unusable);
    AddGrows(n, Listed(d), unusable);
    MarkKeepsServers(g, d);
    var t := WithoutPrimary(s, id, unusable).0;
    assert t.servers[a] == g.servers[a] && t.descs == MarkPossiblePrimary(g, d).descs;
    MarkDescs(g, d, g.servers[a]);
    assert Tracked(g, g.servers[a]);
    hide WithoutPrimary, AddServers, MarkPossiblePrimary, TakeName;
  }

  // ----- updates that panic -----

  /** An update that panics where a primary is known has changed nothing. Elsewhere it has done all but judge the
      reporter: the listed servers are tracked, and the one that is taken for primary is marked. */
  lemma PanickedUpdate(s: State, id: ServerId, unusable: set<Address>)
    requires Inv(s) && id < |s.descs| && Update(s, id, unusable).1 == Panicked
    ensures var (d, t) := (s.descs[id], Update(s, id, unusable).0);
            if s.kind == ReplicaSetWithPrimary then t == s.(unsettled := s.unsettled - {id})
            else
              && t.servers.Keys == s.servers.Keys + set a | a in d.hosts + d.passives + d.arbiters
              && t.kind == ReplicaSetNoPrimary && t.setName == d.setName
              && |s.descs| <= |t.descs| && forall i | 0 <= i < |s.descs| :: t.descs[i] == DescAfter(s, d, i)
  {
    var d := s.descs[id];
    EndsExactly(s, id, unusable);
    assert Keyed(s);
    if s.kind != ReplicaSetWithPrimary {
      var (w, o) := WithoutPrimary(s, id, unusable);
      assert Update(s, id, unusable) == (w.(unsettled := w.unsettled - {id}), o);
      PanickedBranch(s, id, unusable);
      hide Update, WithoutPrimary, Inv, DescAfter;
    }
  }

  lemma PanickedBranch(s: State, id: ServerId, unusable: set<Address>)
    requires Keyed(s) && id < |s.descs| && Follower(s.descs[id]) && WithoutPrimary(s, id, unusable).1 == Panicked
    requires s.kind == UnknownType || s.kind == ReplicaSetNoPrimary
    ensures var (d, t) := (s.descs[id], WithoutPrimary(s, id, unusable).0);
            && t.servers.Keys == s.servers.Keys + set a | a in d.hosts + d.passives + d.arbiters
            && t.kind == ReplicaSetNoPrimary && t.setName == d.setName
            && |s.descs| <= |t.descs| && forall i | 0 <= i < |s.descs| :: t.descs[i] == DescAfter(s, d, i)
  {
    var d := s.descs[id];
    var n := TakeName(s.(kind := ReplicaSetNoPrimary), d);
    assert !NameMismatch(s, d);
    var g := AddServers(n, Listed(d), unusable).0;
    assert n.servers == s.servers && n.descs == s.descs && n.setName == d.setName;
    assert Keyed(n);
    GrownAddresses(n, Listed(d), unusable);
    AddGrows(n, Listed(d), unusable);
    AddKeyed(n, Listed(d), unusable);
    MarkKeepsServers(g, d);
    MarkKeepsRest(g, d);
    assert WithoutPrimary(s, id, unusable).0 == MarkPossiblePrimary(g, d);
    hide WithoutPrimary, MarkPossiblePrimary, AddServers, Keyed, TakeName, DescAfter, Listed, NameMismatch;
    forall i | 0 <= i < |s.descs| ensures MarkPossiblePrimary(g, d).descs[i] == DescAfter(s, d, i) {
      MarkedAfter(s, n, d, unusable, i);
    }
  }

  lemma MarkedAfter(s: State, n: State, d: Desc, unusable: set<Address>, i: ServerId)
    requires Keyed(n) && i < |s.descs| && n.servers == s.servers && n.descs == s.descs && Marks(s, d)
    ensures var g := AddServers(n, Listed(d), unusable).0;
            && Keyed(g) && i < |MarkPossiblePrimary(g, d).descs|
            && MarkPossiblePrimary(g, d).descs[i] == DescAfter(s, d, i)
  {
    GrownDescs(n, Listed(d), unusable, i);
    MarkDescs(AddServers(n, Listed(d), unusable).0, d, i);
    assert Tracked(n, i) <==> Tracked(s, i);
    hide AddServers, MarkPossiblePrimary, Marks, Keyed;
  }

  lemma MarkKeepsRest(s: State, d: Desc)
    requires Keyed(s)
    ensures var t := MarkPossiblePrimary(s, d); t == s.(descs := t.descs) && |t.descs| == |s.descs|
  {
  }

  // ----- the first reply -----

  /** The servers a reply lists. */
  function ListedBy(r: Reply): seq<Address> {
    Or(r.hosts, []) + Or(r.passives, []) + Or(r.arbiters, [])
  }

  /** What the first reply and its report make of a topology of one host, by the fields of the reply. A primary that
      does not list its own address leaves no primary, unless a server it lists cannot be created. */
  lemma FirstContact(a: Address, r: Reply, unusable: set<Address>)
    ensures var s := Init([a], UnknownType, None);
            Inv(s) &&
            var k := Run(s, [Replied(0, r), Report(0, unusable)]).kind;
            if r.msg == Some("isdbgrid") then k == Sharded
            else if r.setName.None? then k == if r.isReplicaSet == Some(true) then UnknownType else Single
            else if !r.isMaster then k == ReplicaSetNoPrimary
            else
              && (k == ReplicaSetWithPrimary <==>
                    a in ListedBy(r) || exists b :: b in ListedBy(r) && b in unusable)
              && (k == ReplicaSetNoPrimary <==> k != ReplicaSetWithPrimary)
  {
    var s := Init([a], UnknownType, None);
    InitInv([a], UnknownType, None);
    InitExactly([a], UnknownType, None);
    OneHost(a);
    var u := TakeReply(s, 0, r);
    var d := AfterReply(DefaultDesc(a), r);
    KindsExactly(DefaultDesc(a), r);
    ReplyFields(DefaultDesc(a), r);
    ReplyInv(s, 0, r);
    assert u.descs == [d] && u.servers == map[a := 0] && u.kind == UnknownType && u.setName == None;
    TwoSteps(s, Replied(0, r), Report(0, unusable));
    assert Step(s, Replied(0, r)) == u && Step(u, Report(0, unusable)) == Update(u, 0, unusable).0;
    hide Run, Inv, Init, TakeReply, AfterReply, Step, Update;
    FirstReport(u, unusable);
  }

  lemma OneHost(a: Address)
    ensures Init([a], UnknownType, None) == State(map[a := 0], [DefaultDesc(a)], UnknownType, None, None, None, {})
  {
    var none: seq<Address> := [];
    assert [a][..0] == none;
    assert Init(none, UnknownType, None) == State(map[], [], UnknownType, None, None, None, {});
  }

  lemma FirstReport(u: State, unusable: set<Address>)
    requires Inv(u) && |u.descs| == 1 && u.kind == UnknownType && u.setName == None && u.maxElectionId == None
    requires u.servers == map[u.descs[0].address := 0]
    ensures var (d, k) := (u.descs[0], Update(u, 0, unusable).0.kind);
            var listed := d.hosts + d.passives + d.arbiters;
            match d.kind
            case Mongos => k == Sharded
            case Standalone => k == Single
            case RSSecondary | RSArbiter | RSOther => k == ReplicaSetNoPrimary
            case RSPrimary =>
              && (k == ReplicaSetWithPrimary <==> d.address in listed || exists b :: b in listed && b in unusable)
              && (k == ReplicaSetNoPrimary <==> k != ReplicaSetWithPrimary)
            case _ => k == UnknownType
  {
    var d := u.descs[0];
    assert Keyed(u);
    if d.kind == RSPrimary {
      FirstClaim(u, unusable);
    } else if Follower(d) {
      assert Update(u, 0, unusable).0.kind == WithoutPrimary(u, 0, unusable).0.kind;
      WithoutPrimaryKeeps(u, 0, unusable);
      hide Inv, WithoutPrimary;
    } else {
      hide Inv, WithoutPrimary, FromPrimary, FromMember;
    }
  }

  lemma FirstClaim(u: State, unusable: set<Address>)
    requires Inv(u) && |u.descs| == 1 && u.kind == UnknownType && u.setName == None && u.maxElectionId == None
    requires u.servers == map[u.descs[0].address := 0] && u.descs[0].kind == RSPrimary
    ensures var (d, k) := (u.descs[0], Update(u, 0, unusable).0.kind);
            var listed := d.hosts + d.passives + d.arbiters;
            && (k == ReplicaSetWithPrimary <==> d.address in listed || exists b :: b in listed && b in unusable)
            && (k == ReplicaSetNoPrimary <==> k != ReplicaSetWithPrimary)
  {
    var d := u.descs[0];
    var (t, o) := Update(u, 0, unusable);
    assert Accepted(u, d) && Tracked(u, 0);
    AcceptedClaim(u, 0, unusable);
    AcceptedParts(u, 0, unusable);
    assert AcceptPrimary(u.(kind := ReplicaSetWithPrimary), d).kind == ReplicaSetWithPrimary;
    EndsExactly(u, 0, unusable);
    if o == Done { KindAfter(u, 0, unusable); }
    assert forall i | 0 <= i < |Listed(d)| :: Listed(d)[i] in Listed(d);
    assert PrimaryAt(t, d.address) <==> Tracked(t, 0);
    hide Inv, Update, AcceptPrimary, AddServers, Stale, Record, Accepted, NameMismatch;
    if o == Failed && d.address !in Listed(d) {
      var i :| 0 <= i < |Listed(d)| && !Reachable(u, unusable, Listed(d)[i]);
      assert Listed(d)[i] in unusable;
    }
  }
}
