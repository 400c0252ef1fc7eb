/** Runs that reach what the laws except: each starts from an initial topology and ends where a property fails. */
module TopologyWitnesses {
  import opened Wrappers
  import opened Sdam
  import opened Topology
  import opened TopologyInvariant
  import opened TopologyRuns
  import opened TopologyLaws
  import opened TopologyEffects

  lemma {:induction false} RunSnoc(s: State, events: seq<Event>, e: Event)
    requires Inv(s)
    ensures Inv(Run(s, events)) && Run(s, events + [e]) == Step(Run(s, events), e)
    decreases |events|
  {
    RunLater(s, events);
    if events == [] {
      assert ([] + [e])[1..] == [];
      StepInv(s, e);
      assert Run(s, [] + [e]) == Step(s, e);
    } else {
      StepInv(s, events[0]);
      assert (events + [e])[1..] == events[1..] + [e];
      RunSnoc(Step(s, events[0]), events[1..], e);
    }
  }

  /** One more event of a run. */
  lemma RunTo(s: State, events: seq<Event>, k: nat)
    requires Inv(s) && k < |events|
    ensures Inv(Run(s, events[..k])) && Run(s, events[..k + 1]) == Step(Run(s, events[..k]), events[k])
  {
    assert events[..k + 1] == events[..k] + [events[k]];
    RunSnoc(s, events[..k], events[k]);
  }

  /** A reply of a member of set `rs` about itself. */
  function MemberReplies(
    me: Address, primary: bool, hosts: seq<Address>, setVersion: Option<int>, electionId: Option<nat>,
        points: Option<Address>): Reply
  {
    Reply.Reply(None, primary, Some(!primary), None, None, 0, 8, Some(me), Some(hosts), None, None, None,
               Some("rs"), setVersion, electionId, points, 30)
  }

  function Claim(a: Address, hosts: seq<Address>, setVersion: Option<int>, electionId: Option<nat>): Reply {
    MemberReplies(a, true, hosts, setVersion, electionId, None)
  }

  /** What such a reply makes of a description it changes. */
  lemma Heard(s: State, id: ServerId, r: Reply)
    requires Keyed(s) && id < |s.descs| && !Unchanged(s.descs[id], r)
    ensures Step(s, Replied(id, r))
              == s.(descs := s.descs[id := Described(s.descs[id].address, r)], unsettled := s.unsettled + {id})
  {
  }

  lemma {:induction false} AllUsable(s: State, addrs: seq<Address>)
    ensures AddServers(s, addrs, {}).1
    decreases |addrs|
  {
    if addrs != [] {
      AllUsable(
        if addrs[0] in s.servers then s
        else s.(servers := s.servers[addrs[0] := |s.descs|], descs := s.descs + [DefaultDesc(addrs[0])]), addrs[1..]);
    }
  }

  /** An accepted claim where all servers can be created. */
  lemma ClaimReported(s: State, id: ServerId)
    requires Inv(s) && id < |s.descs| && Accepted(s, s.descs[id])
    ensures var t := Step(s, Report(id, {}));
            var d := s.descs[id];
            && Keyed(t) && t.kind == (if HasPrimary(t) then ReplicaSetWithPrimary else ReplicaSetNoPrimary)
            && t.setName == FirstOf(s.setName, d.setName) && t.unsettled == s.unsettled - {id}
            && t.maxSetVersion == Record(s, d).maxSetVersion && t.maxElectionId == Record(s, d).maxElectionId
            && t.servers.Keys == (set a | a in Listed(d))
            && (forall a | a in t.servers && a in s.servers :: t.servers[a] == s.servers[a])
            && |s.descs| <= |t.descs|
            && (forall i | 0 <= i < |s.descs| && (s.descs[i].kind != RSPrimary || s.descs[i].address == d.address) ::
                  t.descs[i] == s.descs[i])
  {
    ClaimDone(s, id);
    AcceptedAddresses(s, id, {});
    AcceptedHolder(s, id, {});
    KindAfter(s, id, {});
    SetNameAfter(s, id, {});
    assert Step(s, Report(id, {})) == Update(s, id, {}).0;
    hide Update, Step, Inv, Record, HasPrimary, Keyed;
    assert forall x :: Stale(Step(s, Report(id, {})), x) == Stale(Record(s, s.descs[id]), x);
  }

  lemma ClaimDone(s: State, id: ServerId)
    requires Inv(s) && id < |s.descs| && Accepted(s, s.descs[id])
    ensures var (t, o) := Update(s, id, {});
            var d := s.descs[id];
            && o == Done && |s.descs| <= |t.descs|
            && t.maxSetVersion == Record(s, d).maxSetVersion && t.maxElectionId == Record(s, d).maxElectionId
            && (forall i | 0 <= i < |s.descs| && (s.descs[i].kind != RSPrimary || s.descs[i].address == d.address) ::
                  t.descs[i] == s.descs[i])
  {
    var d := s.descs[id];
    var s1 := s.(kind := ReplicaSetWithPrimary);
    assert Keyed(s1);
    assert Record(s1, d).maxSetVersion == Record(s, d).maxSetVersion
        && Record(s1, d).maxElectionId == Record(s, d).maxElectionId;
    hide Update, AcceptPrimary, AddServers, Inv, Listed, Keyed, Record, Accepted;
    var r := AcceptPrimary(s1, d);
    AllUsable(r, Listed(d));
    AcceptedParts(s, id, {});
    AcceptFrame(s1, id);
    GrownPrefix(r, AddServers(r, Listed(d), {}).0);
    hide Grows, NoPromotion;
  }

  lemma GrownPrefix(s: State, t: State)
    requires Grows(s, t)
    ensures |s.descs| <= |t.descs| && (forall i | 0 <= i < |s.descs| :: t.descs[i] == s.descs[i])
    ensures t.maxSetVersion == s.maxSetVersion && t.maxElectionId == s.maxElectionId
  {
  }

  /** Which servers a claim creates that lists a single host. */
  lemma ClaimCreates(s: State, id: ServerId, a: Address)
    requires Inv(s) && id < |s.descs| && Accepted(s, s.descs[id]) && Listed(s.descs[id]) == [a]
    ensures var t := Update(s, id, {}).0;
            if a in s.servers then t.servers == map[a := s.servers[a]] && |t.descs| == |s.descs|
            else t.servers == map[a := |s.descs|] && |t.descs| == |s.descs| + 1 && t.descs[|s.descs|] == DefaultDesc(a)
  {
    var d := s.descs[id];
    var s1 := s.(kind := ReplicaSetWithPrimary);
    assert Keyed(s1);
    hide Update, AcceptPrimary, AddServers, Inv, Listed, Keyed;
    var r := AcceptPrimary(s1, d);
    AcceptedParts(s, id, {});
    OneRetained(s1, id, a);
    AddOne(r, a);
    hide Grows, Accepted, Record;
  }

  lemma OneRetained(s: State, id: ServerId, a: Address)
    requires Keyed(s) && id < |s.descs| && s.descs[id].kind == RSPrimary && Listed(s.descs[id]) == [a]
    ensures var r := AcceptPrimary(s, s.descs[id]);
            r.servers == (if a in s.servers then map[a := s.servers[a]] else map[]) && |r.descs| == |s.descs|
  {
    AcceptFrame(s, id);
    hide AcceptPrimary, Listed, Keyed;
    assert forall b :: b in [a] <==> b == a;
  }

  lemma AddOne(s: State, a: Address)
    ensures AddServers(s, [a], {}).1
    ensures AddServers(s, [a], {}).0
         == if a in s.servers then s else s.(servers := s.servers[a := |s.descs|], descs := s.descs + [DefaultDesc(a)])
  {
    assert [a][1..] == [];
  }

  /** The topology before any server has been heard of. */
  function Silent(servers: map<Address, ServerId>, hosts: seq<Address>): State {
    State(servers, seq(|hosts|, i requires 0 <= i < |hosts| => DefaultDesc(hosts[i])), UnknownType, None, None, None,
        {})
  }

  lemma SilentStart()
    ensures Init(["a"], UnknownType, None) == Silent(map["a" := 0], ["a"])
    ensures Init(["a", "b"], UnknownType, None) == Silent(map["a" := 0, "b" := 1], ["a", "b"])
    ensures Init(["a", "b", "c"], UnknownType, None) == Silent(map["a" := 0, "b" := 1, "c" := 2], ["a", "b", "c"])
  {
    var none: seq<Address> := [];
    assert ["a"][..0] == none && ["a", "b"][..1] == ["a"] && ["a", "b", "c"][..2] == ["a", "b"];
    assert Init(none, UnknownType, None) == State(map[], [], UnknownType, None, None, None, {});
    assert Init(["a"], UnknownType, None).descs == [DefaultDesc("a")];
    assert Init(["a", "b"], UnknownType, None).descs == [DefaultDesc("a"), DefaultDesc("b")];
    assert Init(["a", "b", "c"], UnknownType, None).descs == [DefaultDesc("a"), DefaultDesc("b"), DefaultDesc("c")];
  }

  // ----- two primaries, until the second one is reported -----

  const SECOND_PRIMARY := [
    Replied(0, Claim("a", ["a", "b"], None, None)), Report(0, {}),
    Replied(1, Claim("b", ["a", "b"], None, None))]

  /** An accepted claim of a tracked server that lists exactly the tracked addresses. */
  lemma PrimaryStands(s: State, id: ServerId)
    requires Inv(s) && id < |s.descs| && Accepted(s, s.descs[id]) && Tracked(s, id)
    requires s.servers.Keys == set a | a in Listed(s.descs[id])
    ensures var t := Step(s, Report(id, {}));
            var d := s.descs[id];
            && t.servers == s.servers && t.kind == ReplicaSetWithPrimary && t.unsettled == s.unsettled - {id}
            && t.setName == FirstOf(s.setName, d.setName)
            && t.maxSetVersion == Record(s, d).maxSetVersion && t.maxElectionId == Record(s, d).maxElectionId
            && |s.descs| <= |t.descs|
            && (forall i | 0 <= i < |s.descs| && (s.descs[i].kind != RSPrimary || s.descs[i].address == d.address) ::
                  t.descs[i] == s.descs[i])
  {
    ClaimReported(s, id);
    var t := Step(s, Report(id, {}));
    hide Step, Inv, Accepted;
    assert PrimaryAt(t, s.descs[id].address);
  }

  /** A second primary is tracked as long as its reply waits for its report. */
  lemma TwoPrimariesReached()
    ensures var s := Init(["a", "b"], UnknownType, None);
            Inv(s) && var t := Run(s, SECOND_PRIMARY); Inv(t) && Keyed(t) && !Visible(t)
  {
    hide Step, Run, Inv, Init, Silent, Accepted, Tracked, Visible, Claim, Described, Listed;
    var s := Init(["a", "b"], UnknownType, None);
    InitInv(["a", "b"], UnknownType, None);
    SilentStart();
    RunKeyed(s, SECOND_PRIMARY);
    ThreeSteps(s, SECOND_PRIMARY);
    FirstClaim(s);
    var s1 := Step(s, SECOND_PRIMARY[0]);
    PrimaryStands(s1, 0);
    SecondClaim(Step(s1, SECOND_PRIMARY[1]));
  }

  lemma RunKeyed(s: State, events: seq<Event>)
    requires Inv(s)
    ensures Inv(Run(s, events)) && Keyed(Run(s, events))
  {
    RunLater(s, events);
    hide Run, Later;
  }

  lemma ThreeSteps(s: State, events: seq<Event>)
    requires Inv(s) && |events| == 3
    ensures Keyed(s) && Inv(Step(s, events[0])) && Keyed(Step(s, events[0]))
    ensures Inv(Step(Step(s, events[0]), events[1])) && Keyed(Step(Step(s, events[0]), events[1]))
    ensures Run(s, events) == Step(Step(Step(s, events[0]), events[1]), events[2])
  {
    RunTo(s, events, 0);
    RunTo(s, events, 1);
    RunTo(s, events, 2);
    assert events[..0] == [] && events[..3] == events;
    hide Step, DescsOk, ConsistentBut, OnePrimary;
    assert Run(s, []) == s;
  }

  lemma FirstClaim(s: State)
    requires s == Silent(map["a" := 0, "b" := 1], ["a", "b"])
    ensures Keyed(s)
    ensures var t := Step(s, SECOND_PRIMARY[0]);
            && t.servers == map["a" := 0, "b" := 1] && |t.descs| == 2
            && t.descs[0].kind == RSPrimary && t.descs[0].address == "a" && t.descs[1] == DefaultDesc("b")
            && Accepted(t, t.descs[0]) && Tracked(t, 0) && t.servers.Keys == set a | a in Listed(t.descs[0])
  {
    Heard(s, 0, Claim("a", ["a", "b"], None, None));
    hide Step;
    assert Listed(Described("a", Claim("a", ["a", "b"], None, None))) == ["a", "b"];
  }

  lemma SecondClaim(s: State)
    requires Keyed(s) && s.servers == map["a" := 0, "b" := 1] && s.kind == ReplicaSetWithPrimary && |s.descs| >= 2
    requires s.descs[0].kind == RSPrimary && s.descs[1] == DefaultDesc("b")
    ensures var t := Step(s, SECOND_PRIMARY[2]); Keyed(t) ==> !Visible(t)
  {
    Heard(s, 1, Claim("b", ["a", "b"], None, None));
    var t := Step(s, SECOND_PRIMARY[2]);
    hide Step;
    if Keyed(t) {
      assert PrimaryAt(t, "a") && PrimaryAt(t, "b");
    }
  }

  // ----- a topology with primary that has none -----

  const LOST := [
    Replied(0, Claim("a", ["a", "b", "c"], None, None)), Report(0, {}),
    Replied(1, Follow("b")), Failure(1),
    Replied(2, Follow("c")), Report(2, {}),
    Failure(0), Report(1, {})]

  /** A secondary that takes `b` for the primary. */
  function Follow(me: Address): Reply {
    MemberReplies(me, false, ["a", "b", "c"], None, None, Some("b"))
  }

  lemma EightSteps(s: State, events: seq<Event>)
    requires Inv(s) && |events| == 8
    ensures forall k | 0 <= k < 8 :: Inv(Run(s, events[..k])) && Keyed(Run(s, events[..k]))
    ensures forall k | 0 <= k < 8 :: Run(s, events[..k + 1]) == Step(Run(s, events[..k]), events[k])
    ensures Run(s, events[..0]) == s && Run(s, events[..8]) == Run(s, events)
  {
    assert events[..8] == events;
    forall k | 0 <= k < 8
      ensures Inv(Run(s, events[..k])) && Keyed(Run(s, events[..k]))
      ensures Run(s, events[..k + 1]) == Step(Run(s, events[..k]), events[k])
    {
      RunTo(s, events, k);
      RunKeyed(s, events[..k]);
    }
  }

  /** The primary stands, and a server that replied in between has failed. */
  lemma LostFirst(s: State)
    requires Inv(s) && s == Silent(map["a" := 0, "b" := 1, "c" := 2], ["a", "b", "c"])
    ensures Keyed(s) && var t := Step(s, LOST[0]);
            && Inv(t) && Keyed(t) && |t.descs| == 3 && Accepted(t, t.descs[0]) && Tracked(t, 0)
            && t.servers == map["a" := 0, "b" := 1, "c" := 2]
            && t.servers.Keys == (set a | a in Listed(t.descs[0])) && t.unsettled == {0}
            && t.descs[0].kind == RSPrimary && t.descs[0].address == "a" && t.descs[0].setName == Some("rs")
            && t.setName == None && t.descs[1] == DefaultDesc("b") && t.descs[2] == DefaultDesc("c")
  {
    Heard(s, 0, Claim("a", ["a", "b", "c"], None, None));
    StepInv(s, LOST[0]);
    hide Step, DescsOk, ConsistentBut, OnePrimary;
    assert Listed(Described("a", Claim("a", ["a", "b", "c"], None, None))) == ["a", "b", "c"];
  }

  /** A replica set of three with a primary, as far as its type goes. */
  predicate Three(s: State) {
    && Keyed(s) && s.servers == map["a" := 0, "b" := 1, "c" := 2]
    && s.kind == ReplicaSetWithPrimary && s.setName == Some("rs")
    && |s.descs| >= 3 && s.descs[0].address == "a" && s.descs[1].address == "b" && s.descs[2].address == "c"
  }

  lemma LostMiddle(s: State)
    requires Three(s) && s.unsettled == {} && s.descs[0].kind == RSPrimary
    requires s.descs[1] == DefaultDesc("b") && s.descs[2] == DefaultDesc("c")
    ensures var s1 := Step(s, LOST[2]);
            Keyed(s1) && var s2 := Step(s1, LOST[3]);
            Keyed(s2) && var t := Step(s2, LOST[4]);
            && Three(t) && t.unsettled == {1, 2} && t.descs[0].kind == RSPrimary && t.descs[1].kind == Unknown
            && t.descs[2] == Described("c", Follow("c"))
  {
    Heard(s, 1, Follow("b"));
    var s1 := Step(s, LOST[2]);
    assert Keyed(s1) && s1.servers == s.servers;
    var s2 := Step(s1, LOST[3]);
    assert Keyed(s2) && s2 == SetKind(s1, 1, Unknown);
    Heard(s2, 2, Follow("c"));
    hide Step;
  }

  lemma LostMark(s: State)
    requires Three(s) && s.unsettled == {1, 2} && s.descs[0].kind == RSPrimary && s.descs[1].kind == Unknown
    requires s.descs[2] == Described("c", Follow("c"))
    ensures var t := Step(s, LOST[5]);
            && Three(t) && t.unsettled == {1} && t.descs[0].kind == RSPrimary && t.descs[1].kind == PossiblePrimary
            && t.descs[2].kind == RSSecondary
  {
    assert PrimaryAt(s, "a");
    assert CheckIfHasPrimary(s) == s;
    var d := s.descs[2];
    assert UpdateTable(s, 2, {}) == FromMember(s, 2);
    assert FromMember(s, 2) == (MarkPossiblePrimary(s, d), Done);
    assert MarkPossiblePrimary(s, d) == SetKind(s, 1, PossiblePrimary);
    hide UpdateTable, FromMember, MarkPossiblePrimary, CheckIfHasPrimary, Described, Follow;
  }

  lemma LostEnd(s: State)
    requires Three(s) && s.unsettled == {1} && s.descs[1].kind == PossiblePrimary && s.descs[2].kind == RSSecondary
    ensures var s1 := Step(s, LOST[6]);
            Keyed(s1) && var t := Step(s1, LOST[7]);
            Keyed(t) && t.unsettled == {} && t.kind == ReplicaSetWithPrimary && !HasPrimary(t)
  {
    var s1 := Step(s, LOST[6]);
    assert Keyed(s1) && s1 == SetKind(s, 0, Unknown);
    assert UpdateTable(s1, 1, {}) == (s1, Done);
    var t := Step(s1, LOST[7]);
    assert t == s1.(unsettled := {});
    hide UpdateTable, Step;
    assert forall a | a in t.servers :: !PrimaryAt(t, a);
  }

  /** The primary has failed, and the server set aside as possible primary reports: everything is settled, and the
      topology says that it has a primary. */
  lemma LostReached()
    ensures var s := Init(["a", "b", "c"], UnknownType, None);
            Inv(s) && var t := Run(s, LOST);
            Inv(t) && Keyed(t) && t.unsettled == {} && t.kind == ReplicaSetWithPrimary && !HasPrimary(t)
  {
    hide Step, Run, Inv, Init, Silent, Accepted, Tracked, Claim, Follow, Described, Listed, HasPrimary, Keyed;
    var s := Init(["a", "b", "c"], UnknownType, None);
    InitInv(["a", "b", "c"], UnknownType, None);
    SilentStart();
    RunKeyed(s, LOST);
    EightSteps(s, LOST);
    LostFirst(s);
    PrimaryStands(Run(s, LOST[..1]), 0);
    assert Three(Run(s, LOST[..2]));
    LostMiddle(Run(s, LOST[..2]));
    LostMark(Run(s, LOST[..5]));
    LostEnd(Run(s, LOST[..6]));
  }

  // ----- a settled primary below the record -----

  /** The set's version falls from 5 to 3 while election ids come up for the first time. */
  const FALLING := [
    Replied(0, Claim("a", ["a"], Some(5), None)), Report(0, {}),
    Replied(0, Claim("a", ["a"], Some(3), Some(7))), Report(0, {})]

  lemma FourSteps(s: State, events: seq<Event>)
    requires Inv(s) && |events| == 4
    ensures forall k | 0 <= k < 4 :: Inv(Run(s, events[..k])) && Keyed(Run(s, events[..k]))
    ensures forall k | 0 <= k < 4 :: Run(s, events[..k + 1]) == Step(Run(s, events[..k]), events[k])
    ensures Run(s, events[..0]) == s && Run(s, events[..4]) == Run(s, events)
  {
    assert events[..4] == events;
    forall k | 0 <= k < 4
      ensures Inv(Run(s, events[..k])) && Keyed(Run(s, events[..k]))
      ensures Run(s, events[..k + 1]) == Step(Run(s, events[..k]), events[k])
    {
      RunTo(s, events, k);
      RunKeyed(s, events[..k]);
    }
  }

  /** A set whose only member is `a`, after a claim of that member. */
  predicate Alone(s: State, id: ServerId, setVersion: Option<int>, electionId: Option<nat>) {
    && Keyed(s) && s.servers == map["a" := id] && id < |s.descs|
    && s.descs[id] == Described("a", Claim("a", ["a"], setVersion, electionId))
    && Open(s.kind) && (s.setName == None || s.setName == Some("rs"))
  }

  lemma AloneAccepted(s: State, id: ServerId, setVersion: Option<int>, electionId: Option<nat>)
    requires Alone(s, id, setVersion, electionId)
    ensures Tracked(s, id) && Listed(s.descs[id]) == ["a"] && s.servers.Keys == set a | a in Listed(s.descs[id])
    ensures s.descs[id].kind == RSPrimary && s.descs[id].address == "a" && s.descs[id].setName == Some("rs")
    ensures s.descs[id].setVersion == setVersion && s.descs[id].electionId == electionId
    ensures Accepted(s, s.descs[id]) <==> !Stale(s, s.descs[id])
  {
    assert Described("a", Claim("a", ["a"], setVersion, electionId)).hosts == ["a"];
  }

  lemma AloneHeard(s: State, id: ServerId, setVersion: Option<int>, electionId: Option<nat>)
    requires Keyed(s) && s.servers == map["a" := id] && id < |s.descs| && Open(s.kind)
    requires s.setName == None || s.setName == Some("rs")
    requires s.descs[id].setVersion != setVersion || s.descs[id].kind == Unknown
    ensures var t := Step(s, Replied(id, Claim("a", ["a"], setVersion, electionId)));
            Alone(t, id, setVersion, electionId) && t == s.(descs := t.descs, unsettled := s.unsettled + {id})
  {
    assert "a" in s.servers && s.descs[id].address == "a";
    Heard(s, id, Claim("a", ["a"], setVersion, electionId));
  }

  lemma HoleReached()
    ensures var s := Init(["a"], UnknownType, None);
            Inv(s) && var t := Run(s, FALLING); Inv(t) && Keyed(s) && Keyed(t) && Current(s) && !Current(t)
  {
    var s := Init(["a"], UnknownType, None);
    SilentStart();
    assert Keyed(s) && Current(s) && s.servers == map["a" := 0] && s.descs == [DefaultDesc("a")];
    InitInv(["a"], UnknownType, None);
    hide Step, Run, Inv, Init, Keyed, Current, Claim;
    RunKeyed(s, FALLING);
    FourSteps(s, FALLING);
    HoleFirst(s);
    HoleEnd(Run(s, FALLING[..2]));
  }

  /** The first claim is accepted without an election id. */
  lemma HoleFirst(s: State)
    requires Inv(s) && s == Silent(map["a" := 0], ["a"])
    requires Keyed(s) && Inv(Step(s, FALLING[0])) && Keyed(Step(s, FALLING[0]))
    ensures var t := Step(Step(s, FALLING[0]), FALLING[1]);
            && t.servers == map["a" := 0] && 0 < |t.descs| && t.descs[0].setVersion == Some(5)
            && t.kind == ReplicaSetWithPrimary && t.setName == Some("rs")
            && t.maxSetVersion == Some(5) && t.maxElectionId == None
  {
    assert s.descs[0].kind == Unknown;
    hide Step, Inv, Tracked, Claim, Described, Keyed, Accepted;
    AloneHeard(s, 0, Some(5), None);
    AloneAccepted(Step(s, FALLING[0]), 0, Some(5), None);
    PrimaryStands(Step(s, FALLING[0]), 0);
  }

  /** The second claim is accepted and stays below the record. */
  lemma HoleEnd(r: State)
    requires Keyed(r) && r.servers == map["a" := 0] && 0 < |r.descs| && r.descs[0].setVersion == Some(5)
    requires r.kind == ReplicaSetWithPrimary && r.setName == Some("rs")
    requires r.maxSetVersion == Some(5) && r.maxElectionId == None && Inv(Step(r, FALLING[2]))
    ensures var t := Step(Step(r, FALLING[2]), FALLING[3]); Keyed(t) && !Current(t)
  {
    AloneHeard(r, 0, Some(3), Some(7));
    var s := Step(r, FALLING[2]);
    AloneAccepted(s, 0, Some(3), Some(7));
    assert Hole(s, s.descs[0]) && !Stale(s, s.descs[0]);
    HoleOvertakes(s, 0);
    AcceptedCurrent(s, 0, {});
    ReportIs(s, 0);
    hide Step, Inv, Alone, Accepted, Tracked, Keyed, Current, Update, Overtakes;
  }

  lemma ReportIs(s: State, id: ServerId)
    requires Keyed(s) && id < |s.descs|
    ensures Step(s, Report(id, {})) == Update(s, id, {}).0
  {
  }

  /** Server 0 is removed and its address taken by server 2, whose claim is recorded; then server 0's monitor reports a
      higher one. */
  const REPLACED := [
    Replied(1, Claim("b", ["b"], None, None)), Report(1, {}),
    Replied(1, Claim("b", ["a"], None, None)), Report(1, {}),
    Replied(2, Claim("a", ["a"], Some(5), Some(9))), Report(2, {}),
    Replied(0, Claim("a", ["a"], Some(5), Some(10))), Report(0, {})]

  /** `b` has claimed and listed a single host. */
  lemma SingleHost(s: State, host: Address)
    requires Inv(s) && Open(s.kind) && "b" in s.servers && s.servers["b"] == 1 && |s.descs| == 2
              && s.descs[0] == DefaultDesc("a")
    requires s.maxSetVersion == None && s.maxElectionId == None && (s.setName == None || s.setName == Some("rs"))
    requires s.unsettled == {} && (s.descs[1].kind == Unknown
              || (s.descs[1].hosts != [host] && s.descs[1].passives == [] && s.descs[1].arbiters == []))
    ensures Keyed(s) && var t := Step(s, Replied(1, Claim("b", [host], None, None)));
            && Inv(t) && Keyed(t) && t == s.(descs := t.descs, unsettled := {1}) && |t.descs| == 2
            && t.descs[0] == s.descs[0] && t.descs[1] == Described("b", Claim("b", [host], None, None))
            && Accepted(t, t.descs[1]) && Listed(t.descs[1]) == [host]
  {
    assert s.descs[1].address == "b";
    Heard(s, 1, Claim("b", [host], None, None));
    StepInv(s, Replied(1, Claim("b", [host], None, None)));
    hide Step, DescsOk, ConsistentBut, OnePrimary;
    assert Described("b", Claim("b", [host], None, None)).hosts == [host];
  }

  lemma HostListed(s: State, host: Address)
    requires Inv(s) && Open(s.kind) && "b" in s.servers && s.servers["b"] == 1 && |s.descs| == 2
              && s.descs[0] == DefaultDesc("a")
    requires s.maxSetVersion == None && s.maxElectionId == None && (s.setName == None || s.setName == Some("rs"))
    requires s.unsettled == {} && (s.descs[1].kind == Unknown
              || (s.descs[1].hosts != [host] && s.descs[1].passives == [] && s.descs[1].arbiters == []))
    ensures Keyed(s) && var s1 := Step(s, Replied(1, Claim("b", [host], None, None)));
            Inv(s1) && Keyed(s1) && var t := Step(s1, Report(1, {}));
            && Inv(t) && Keyed(t) && Open(t.kind) && t.setName == Some("rs") && t.unsettled == {}
            && t.maxSetVersion == None && t.maxElectionId == None
            && t.servers == (if host in s.servers then map[host := s.servers[host]] else map[host := 2])
            && |t.descs| == (if host in s.servers then 2 else 3)
                && (host !in s.servers ==> t.descs[2] == DefaultDesc(host))
            && t.descs[0] == DefaultDesc("a") && t.descs[1] == Described("b", Claim("b", [host], None, None))
  {
    SingleHost(s, host);
    var s1 := Step(s, Replied(1, Claim("b", [host], None, None)));
    ClaimReported(s1, 1);
    ClaimCreates(s1, 1, host);
    ReportIs(s1, 1);
    StepInv(s1, Report(1, {}));
    hide Step, DescsOk, ConsistentBut, OnePrimary, Update, Listed, Accepted, Keyed, HasPrimary;
  }

  /** The new server at `a` has claimed. */
  lemma NewClaims(s: State)
    requires Inv(s) && Open(s.kind) && s.servers == map["a" := 2] && |s.descs| == 3 && s.descs[0] == DefaultDesc("a")
    requires s.descs[2] == DefaultDesc("a") && s.unsettled == {} && s.setName == Some("rs")
    requires s.maxSetVersion == None && s.maxElectionId == None
    ensures Keyed(s) && var s1 := Step(s, REPLACED[4]);
            Inv(s1) && Keyed(s1) && var t := Step(s1, REPLACED[5]);
            && Inv(t) && Keyed(t) && Open(t.kind) && t.servers == s.servers && |t.descs| >= 3 && t.unsettled == {}
            && t.setName == Some("rs") && t.maxSetVersion == Some(5) && t.maxElectionId == Some(9)
            && t.descs[0] == DefaultDesc("a") && t.descs[2] == Described("a", Claim("a", ["a"], Some(5), Some(9)))
  {
    AloneHeard(s, 2, Some(5), Some(9));
    var s1 := Step(s, REPLACED[4]);
    StepInv(s, REPLACED[4]);
    assert s1.descs[0] == DefaultDesc("a") && s1.descs[2] == Described("a", Claim("a", ["a"], Some(5), Some(9)));
    hide Step, DescsOk, ConsistentBut, OnePrimary, Accepted, Listed, Claim, Described;
    AloneAccepted(s1, 2, Some(5), Some(9));
    PrimaryStands(s1, 2);
    StepInv(s1, REPLACED[5]);
  }

  lemma OldReplies(s: State)
    requires Inv(s) && |s.descs| >= 3 && s.descs[0] == DefaultDesc("a")
    ensures Keyed(s) && var t := Step(s, REPLACED[6]);
            Inv(t) && t == s.(descs := s.descs[0 := Described("a", Claim("a", ["a"], Some(5), Some(10)))],
                unsettled := s.unsettled + {0})
  {
    Heard(s, 0, Claim("a", ["a"], Some(5), Some(10)));
    StepInv(s, REPLACED[6]);
  }

  lemma OldOvertakes(s: State)
    requires Inv(s) && Open(s.kind) && s.servers == map["a" := 2] && |s.descs| >= 3 && s.unsettled == {0}
    requires s.setName == Some("rs") && s.maxSetVersion == Some(5) && s.maxElectionId == Some(9)
    requires s.descs[0] == Described("a", Claim("a", ["a"], Some(5), Some(10)))
    requires s.descs[2] == Described("a", Claim("a", ["a"], Some(5), Some(9)))
    ensures Keyed(s) && var t := Step(s, REPLACED[7]); Keyed(t) && !Current(t)
  {
    var d := s.descs[0];
    assert Listed(d) == ["a"] && Accepted(s, d);
    assert Overtakes(s, 0);
    AcceptedCurrent(s, 0, {});
    ReportIs(s, 0);
    hide Step, Inv, Current;
  }

  lemma TwoHosts()
    ensures var s := Init(["a", "b"], UnknownType, None);
            && Inv(s) && Keyed(s) && Current(s) && Open(s.kind) && "b" in s.servers && s.servers["b"] == 1
                && "a" in s.servers
            && s.descs == [DefaultDesc("a"), DefaultDesc("b")] && s.unsettled == {}
            && s.setName == None && s.maxSetVersion == None && s.maxElectionId == None
  {
    SilentStart();
    InitInv(["a", "b"], UnknownType, None);
  }

  /** A removed server's monitor reports a claim above that of the server that took its address. */
  lemma OvertakenReached()
    ensures var s := Init(["a", "b"], UnknownType, None);
            Inv(s) && var t := Run(s, REPLACED); Inv(t) && Keyed(s) && Keyed(t) && Current(s) && !Current(t)
  {
    hide Step, Run, Inv, Init, Silent, Claim, Keyed, Current, Described, Open;
    var s := Init(["a", "b"], UnknownType, None);
    TwoHosts();
    RunKeyed(s, REPLACED);
    EightSteps(s, REPLACED);
    HostListed(s, "b");
    var s2 := Run(s, REPLACED[..2]);
    assert s2 == Step(Run(s, REPLACED[..1]), REPLACED[1]);
    DescribedHosts("b");
    HostListed(s2, "a");
    var s4 := Run(s, REPLACED[..4]);
    assert s4 == Step(Run(s, REPLACED[..3]), REPLACED[3]);
    NewClaims(s4);
    OldReplies(Run(s, REPLACED[..6]));
    OldOvertakes(Run(s, REPLACED[..7]));
  }

  lemma DescribedHosts(host: Address)
    ensures var d := Described("b", Claim("b", [host], None, None));
            d.hosts == [host] && d.passives == [] && d.arbiters == []
  {
  }
}
