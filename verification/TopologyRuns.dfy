/** Whole runs: any sequence of replies, failures and topology updates, of tracked and of removed servers, from any
    initial topology. */
module TopologyRuns {
  import opened Wrappers
  import opened Sdam
  import opened Topology
  import opened TopologyInvariant

  /** `Report` is a topology update; the hosts in `unusable` cannot be made servers of. */
  datatype Event =
    | Replied(id: ServerId, reply: Reply)
    | Failure(id: ServerId)
    | Report(id: ServerId, unusable: set<Address>)

  /** An event of a server that does not exist does not happen. */
  function Step(s: State, e: Event): State
    requires Keyed(s)
  {
    if e.id >= |s.descs| then s
    else match e
      case Replied(id, r) => TakeReply(s, id, r)
      case Failure(id) => TakeFailure(s, id)
      case Report(id, unusable) => Update(s, id, unusable).0
  }

  lemma StepInv(s: State, e: Event)
    requires Inv(s)
    ensures Inv(Step(s, e))
  {
    if e.id < |s.descs| {
      match e
      case Replied(id, r) => ReplyInv(s, id, r);
      case Failure(id) => FailureInv(s, id);
      case Report(id, unusable) => UpdateInv(s, id, unusable);
    }
    hide Inv, TakeReply, TakeFailure, Update;
  }

  ghost function Run(s: State, events: seq<Event>): State
    requires Inv(s)
    decreases |events|
  {
    if events == [] then s else StepInv(s, events[0]); Run(Step(s, events[0]), events[1..])
  }

  // ----- what never goes back -----

  function Leq(a: Option<int>, b: Option<int>): bool {
    a.None? || (b.Some? && a.value <= b.value)
  }

  /** The recorded set version and election id, ordered lexicographically with `None` least. */
  predicate RecordsLeq(s: State, t: State) {
    if s.maxSetVersion == t.maxSetVersion
    then s.maxElectionId.None? || (t.maxElectionId.Some? && s.maxElectionId.value <= t.maxElectionId.value)
    else Leq(s.maxSetVersion, t.maxSetVersion)
  }

  predicate KindLater(k: TopologyType, l: TopologyType) {
    || l == k
    || k == UnknownType
    || (ReplicaSet(k) && ReplicaSet(l))
  }

  /** A server once removed is never tracked again, and no server changes its address. */
  predicate HandlesLater(s: State, t: State) {
    && |s.descs| <= |t.descs|
    && forall i | 0 <= i < |s.descs| :: t.descs[i].address == s.descs[i].address && (Tracked(t, i) ==> Tracked(s, i))
  }

  predicate Keeps(s: State, t: State) {
    && RecordsLeq(s, t)
    && (s.setName.Some? ==> t.setName == s.setName)
    && HandlesLater(s, t)
  }

  predicate Later(s: State, t: State) {
    Keeps(s, t) && KindLater(s.kind, t.kind)
  }

  lemma KeepsTwice(s: State, t: State, u: State)
    requires Keeps(s, t) && Keeps(t, u)
    ensures Keeps(s, u)
  {
    assert HandlesLater(s, u) by {
      forall i | 0 <= i < |s.descs|
        ensures u.descs[i].address == s.descs[i].address && (Tracked(u, i) ==> Tracked(s, i))
      {
        assert t.descs[i].address == s.descs[i].address;
        hide Tracked;
      }
    }
    hide HandlesLater;
  }

  lemma SameKeeps(s: State, t: State)
    requires t == s.(kind := t.kind, unsettled := t.unsettled)
    ensures Keeps(s, t)
  {
    assert forall i :: Tracked(t, i) == Tracked(s, i);
  }

  lemma RemoveKeeps(s: State, a: Address)
    ensures Keeps(s, Remove(s, a))
  {
    assert forall i :: Tracked(Remove(s, a), i) ==> Tracked(s, i);
  }

  lemma AddKeeps(s: State, addrs: seq<Address>, unusable: set<Address>)
    requires Keyed(s)
    ensures Keeps(s, AddServers(s, addrs, unusable).0)
  {
    AddGrows(s, addrs, unusable);
    var t := AddServers(s, addrs, unusable).0;
    forall i | 0 <= i < |s.descs|
      ensures t.descs[i].address == s.descs[i].address && (Tracked(t, i) ==> Tracked(s, i))
    {
      assert t.descs[i] == s.descs[i];
    }
  }

  lemma MarkKeeps(s: State, d: Desc)
    requires Keyed(s)
    ensures Keeps(s, MarkPossiblePrimary(s, d)) && Keyed(MarkPossiblePrimary(s, d))
  {
  }

  lemma RecordLater(s: State, d: Desc)
    requires !Stale(s, d) && (s.maxElectionId.Some? ==> s.maxSetVersion.Some?)
    ensures var t := Record(s, d);
            RecordsLeq(s, t) && t == s.(maxSetVersion := t.maxSetVersion, maxElectionId := t.maxElectionId)
  {
  }

  /** Only a claim that is not stale is recorded, so the record grows. */
  lemma AcceptKeeps(s: State, d: Desc)
    requires Keyed(s) && !Stale(s, d) && !NameMismatch(s, d) && (s.maxElectionId.Some? ==> s.maxSetVersion.Some?)
    ensures Keyed(AcceptPrimary(s, d)) && Keeps(s, AcceptPrimary(s, d))
  {
    var r := TakeName(s, d);
    RecordLater(r, d);
    var t := Record(r, d);
    var u := InvalidateOthers(t, d.address);
    assert u == t.(descs := u.descs);
    assert forall i | 0 <= i < |s.descs| :: u.descs[i].address == s.descs[i].address;
    hide InvalidateOthers, Record, RecordsLeq, Stale;
    var v := Retain(u, d);
    assert forall i | 0 <= i < |s.descs| :: Tracked(v, i) ==> Tracked(s, i);
  }

  lemma ResetKeeps(s: State, id: ServerId)
    requires Keyed(s) && id < |s.descs| && !NameMismatch(s, s.descs[id])
    ensures var t := Reset(TakeName(s, s.descs[id]), id); Keyed(t) && Keeps(s, t)
  {
  }

  lemma FromPrimaryKeeps(s: State, id: ServerId, unusable: set<Address>)
    requires Inv(s) && id < |s.descs|
    ensures Keeps(s, FromPrimary(s, id, unusable).0) && ReplicaSet(FromPrimary(s, id, unusable).0.kind)
  {
    var d := s.descs[id];
    var s1 := s.(kind := ReplicaSetWithPrimary);
    var t := FromPrimary(s, id, unusable).0;
    assert Keyed(s1);
    SameKeeps(s, s1);
    if NameMismatch(s1, d) {
      var r := Remove(s1, d.address);
      RemoveKeeps(s1, d.address);
      SameKeeps(r, t);
      hide Keeps, Inv, Remove, NameMismatch;
      KeepsTwice(s, s1, r);
      KeepsTwice(s, r, t);
    } else if Stale(s1, d) {
      var r := Reset(TakeName(s1, d), id);
      ResetKeeps(s1, id);
      SameKeeps(r, t);
      hide Keeps, Inv, Reset, TakeName, NameMismatch;
      KeepsTwice(s, s1, r);
      KeepsTwice(s, r, t);
    } else {
      var r := AcceptPrimary(s1, d);
      AcceptKeeps(s1, d);
      var u := AddServers(r, Listed(d), unusable).0;
      AddKeyed(r, Listed(d), unusable);
      AddKeeps(r, Listed(d), unusable);
      AddGrows(r, Listed(d), unusable);
      assert r.kind == ReplicaSetWithPrimary && u.kind == r.kind;
      SameKeeps(u, t);
      hide Keeps, Inv, AcceptPrimary, AddServers, NameMismatch, Stale;
      KeepsTwice(s, s1, r);
      KeepsTwice(s, r, u);
      KeepsTwice(s, u, t);
    }
  }

  lemma WithoutPrimaryKeeps(s: State, id: ServerId, unusable: set<Address>)
    requires Inv(s) && id < |s.descs|
    ensures Keeps(s, WithoutPrimary(s, id, unusable).0) && WithoutPrimary(s, id, unusable).0.kind == ReplicaSetNoPrimary
  {
    var d := s.descs[id];
    var s1 := s.(kind := ReplicaSetNoPrimary);
    var t := WithoutPrimary(s, id, unusable).0;
    assert Keyed(s1);
    SameKeeps(s, s1);
    if NameMismatch(s1, d) {
      RemoveKeeps(s1, d.address);
      hide Keeps, Inv, Remove, NameMismatch;
      KeepsTwice(s, s1, t);
    } else {
      var s2 := TakeName(s1, d);
      var s3 := AddServers(s2, Listed(d), unusable).0;
      WithoutPrimaryCases(s, id, unusable);
      var s4 := MarkPossiblePrimary(s3, d);
      var s5 := Remove(s4, d.address);
      assert Keeps(s1, s2);
      AddKeeps(s2, Listed(d), unusable);
      AddGrows(s2, Listed(d), unusable);
      MarkKeeps(s3, d);
      RemoveKeeps(s4, d.address);
      assert s3.kind == s4.kind == s5.kind == ReplicaSetNoPrimary;
      hide *;
      KeepsTwice(s, s1, s2);
      KeepsTwice(s, s2, s3);
      KeepsTwice(s, s3, s4);
      KeepsTwice(s, s4, s5);
    }
  }

  lemma CheckedRemoveKeeps(s: State, a: Address)
    requires Keyed(s)
    ensures Keeps(s, Remove(s, a)) && Keeps(s, CheckIfHasPrimary(Remove(s, a)))
  {
    RemoveKeeps(s, a);
    SameKeeps(Remove(s, a), CheckIfHasPrimary(Remove(s, a)));
    hide Keeps;
    KeepsTwice(s, Remove(s, a), CheckIfHasPrimary(Remove(s, a)));
  }

  lemma FromMemberKeeps(s: State, id: ServerId)
    requires Keyed(s) && id < |s.descs| && ReplicaSet(s.kind)
    ensures Keeps(s, FromMember(s, id).0) && ReplicaSet(FromMember(s, id).0.kind)
  {
    var d := s.descs[id];
    var c := CheckIfHasPrimary(s);
    CheckedRemoveKeeps(s, d.address);
    SameKeeps(s, s);
    SameKeeps(s, c);
    MarkKeeps(c, d);
    assert MarkPossiblePrimary(c, d).kind == c.kind;
    hide Keeps, MarkPossiblePrimary;
    KeepsTwice(s, c, MarkPossiblePrimary(c, d));
  }

  lemma TableLater(s: State, id: ServerId, unusable: set<Address>)
    requires Inv(s) && id < |s.descs|
    ensures Later(s, UpdateTable(s, id, unusable).0)
  {
    var d := s.descs[id];
    var t := UpdateTable(s, id, unusable).0;
    assert Keyed(s);
    CheckedRemoveKeeps(s, d.address);
    SameKeeps(s, s.(kind := Single));
    SameKeeps(s, s.(kind := Sharded));
    SameKeeps(s, CheckIfHasPrimary(s));
    SameKeeps(s, s);
    if s.kind != Single && s.kind != Sharded {
      FromPrimaryKeeps(s, id, unusable);
      WithoutPrimaryKeeps(s, id, unusable);
    }
    if s.kind == ReplicaSetWithPrimary { FromMemberKeeps(s, id); }
    hide Keeps, Inv, Keyed, FromPrimary, WithoutPrimary, FromMember;
  }

  lemma UpdateLater(s: State, id: ServerId, unusable: set<Address>)
    requires Inv(s) && id < |s.descs|
    ensures Later(s, Update(s, id, unusable).0)
  {
    TableLater(s, id, unusable);
    var t := UpdateTable(s, id, unusable).0;
    SameKeeps(t, Update(s, id, unusable).0);
    hide UpdateTable, Keeps, Inv, Keyed;
    KeepsTwice(s, t, Update(s, id, unusable).0);
  }

  lemma StepLater(s: State, e: Event)
    requires Inv(s)
    ensures Later(s, Step(s, e))
  {
    if e.id < |s.descs| && e.Report? {
      UpdateLater(s, e.id, e.unusable);
    } else {
      var t := Step(s, e);
      assert t == s.(descs := t.descs, unsettled := t.unsettled);
      assert forall i | 0 <= i < |s.descs| :: t.descs[i].address == s.descs[i].address;
    }
  }

  /** Over any run: the record never decreases, the set name is written at most once, `Single` and `Sharded` are never
      left, a replica set stays one, and no server that was removed comes back. */
  lemma {:induction false} RunLater(s: State, events: seq<Event>)
    requires Inv(s)
    ensures Inv(Run(s, events)) && Later(s, Run(s, events))
    decreases |events|
  {
    if events == [] {
      SameKeeps(s, s);
    } else {
      var t := Step(s, events[0]);
      StepInv(s, events[0]);
      StepLater(s, events[0]);
      RunLater(t, events[1..]);
      hide Step, Keeps, Inv;
      KeepsTwice(s, t, Run(t, events[1..]));
    }
  }

  lemma AllRuns(hosts: seq<Address>, kind: TopologyType, setName: Option<string>, events: seq<Event>)
    ensures var s := Init(hosts, kind, setName);
            Inv(s) && Inv(Run(s, events)) && Later(s, Run(s, events))
  {
    InitInv(hosts, kind, setName);
    RunLater(Init(hosts, kind, setName), events);
  }
}
