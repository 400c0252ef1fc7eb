/** What a reply, a failure and a topology update each keep, in whatever order the servers' monitors and the pools'
    handshakes interleave. */
module TopologyInvariant {
  import opened Wrappers
  import opened Sdam
  import opened Topology

  predicate ReplicaSet(k: TopologyType) {
    k == ReplicaSetNoPrimary || k == ReplicaSetWithPrimary
  }

  function At(s: State, a: Address): Desc
    requires Keyed(s) && a in s.servers
  {
    s.descs[s.servers[a]]
  }

  /** A tracked server whose replies the topology has seen, and which is not `but`. */
  predicate SettledBut(s: State, a: Address, but: set<ServerId>) {
    a in s.servers && s.servers[a] !in s.unsettled && s.servers[a] !in but
  }

  predicate Settled(s: State, a: Address) {
    SettledBut(s, a, {})
  }

  predicate SettledPrimary(s: State, a: Address)
    requires Keyed(s)
  {
    Settled(s, a) && At(s, a).kind == RSPrimary
  }

  /** What a topology of some type allows its settled servers to be. */
  predicate Fits(k: TopologyType, setName: Option<string>, d: Desc) {
    match k
    case Single => true
    case UnknownType => d.kind == Unknown || d.kind == RSGhost
    case Sharded => d.kind == Unknown || d.kind == RSGhost || d.kind == Mongos
    case _ => d.kind != Standalone && d.kind != Mongos && (Member(d.kind) ==> setName.Some? && d.setName == setName)
  }

  predicate ConsistentBut(s: State, but: set<ServerId>)
    requires Keyed(s)
  {
    forall a | a in s.servers :: SettledBut(s, a, but) ==> Fits(s.kind, s.setName, At(s, a))
  }

  /** Outside `Single` there is at most one settled primary, and only in a topology with primary. */
  predicate OnePrimary(s: State)
    requires Keyed(s)
  {
    && (forall a | a in s.servers :: SettledPrimary(s, a) ==> s.kind == Single || s.kind == ReplicaSetWithPrimary)
    && (forall a, b | a in s.servers && b in s.servers ::
          SettledPrimary(s, a) && SettledPrimary(s, b) ==> s.kind == Single || a == b)
  }

  predicate DescOk(k: TopologyType, d: Desc) {
    && (Member(d.kind) ==> d.setName.Some?)
    && (d.kind == PossiblePrimary ==> ReplicaSet(k))
  }

  predicate DescsOk(s: State) {
    forall i | 0 <= i < |s.descs| :: DescOk(s.kind, s.descs[i])
  }

  /** The part of the invariant that looks neither at primaries nor at the server reporting. */
  predicate InvBut(s: State, but: set<ServerId>) {
    && Keyed(s)
    && DescsOk(s)
    && ConsistentBut(s, but)
    && (s.maxElectionId.Some? ==> s.maxSetVersion.Some?)
  }

  predicate Inv(s: State) {
    InvBut(s, {}) && OnePrimary(s)
  }

  // ----- what the single changes keep -----

  lemma InitFrame(hosts: seq<Address>, kind: TopologyType, setName: Option<string>)
    ensures var s := Init(hosts, kind, setName);
            && Keyed(s) && s.unsettled == {} && s.kind == kind && s.maxElectionId == None
            && forall i | 0 <= i < |s.descs| :: s.descs[i].kind == Unknown
    decreases |hosts|
  {
    if hosts != [] {
      InitFrame(hosts[..|hosts| - 1], kind, setName);
    }
  }

  /** A topology that has heard of no server yet, whatever type and set name it is configured with. */
  lemma InitInv(hosts: seq<Address>, kind: TopologyType, setName: Option<string>)
    ensures Inv(Init(hosts, kind, setName))
    ensures Init(hosts, kind, setName).unsettled == {}
  {
    InitFrame(hosts, kind, setName);
    hide Init;
    var s := Init(hosts, kind, setName);
    assert forall a | a in s.servers :: At(s, a).kind == Unknown;
  }

  /** The initial topology: the configured type and set name, one tracked server for each host, and nothing known of
      any of them nor on record. */
  lemma {:induction false} InitExactly(hosts: seq<Address>, kind: TopologyType, setName: Option<string>)
    ensures var s := Init(hosts, kind, setName);
            && Keyed(s) && s.kind == kind && s.setName == setName
            && s.maxSetVersion == None && s.maxElectionId == None && s.unsettled == {}
            && s.servers.Keys == (set a | a in hosts)
            && forall a | a in hosts ::
                 At(s, a) == Desc(a, Unknown, 0, 0, None, [], [], [], map[], None, None, None, None, None)
    decreases |hosts|
  {
    if hosts != [] {
      var front := hosts[..|hosts| - 1];
      InitExactly(front, kind, setName);
      assert hosts == front + [hosts[|hosts| - 1]];
    }
  }

  lemma ReplyInv(s: State, id: ServerId, r: Reply)
    requires Inv(s) && id < |s.descs|
    ensures Inv(TakeReply(s, id, r))
  {
    var t := TakeReply(s, id, r);
    ReplyFrame(s, id, r);
    hide TakeReply, Fits, DescOk;
    assert OnePrimary(t);
    assert ConsistentBut(t, {});
  }

  /** The server that replied waits for its report, or is as it was; so are the others. */
  lemma ReplyFrame(s: State, id: ServerId, r: Reply)
    requires Inv(s) && id < |s.descs|
    ensures var t := TakeReply(s, id, r);
            && Keyed(t) && DescsOk(t)
            && t == s.(descs := t.descs, unsettled := t.unsettled)
            && (forall a | a in t.servers :: Settled(t, a) ==> Settled(s, a) && At(t, a) == At(s, a))
  {
    MemberReply(s.descs[id], r);
    hide KindOf, Described, Unchanged, Fits, ConsistentBut, OnePrimary;
    var t := TakeReply(s, id, r);
    assert Unchanged(s.descs[id], r) ==> t.descs == s.descs;
    assert forall i | 0 <= i < |s.descs| && i != id :: t.descs[i] == s.descs[i];
  }

  lemma FailureInv(s: State, id: ServerId)
    requires Inv(s) && id < |s.descs|
    ensures Inv(TakeFailure(s, id))
  {
    var t := TakeFailure(s, id);
    FailureFrame(s, id);
    hide TakeFailure, Fits, DescOk;
    assert OnePrimary(t);
    assert ConsistentBut(t, {}) by {
      assert forall a | a in t.servers && Settled(t, a) :: Fits(t.kind, t.setName, At(t, a));
    }
  }

  /** A failed server counts for nothing; the others are as they were. */
  lemma FailureFrame(s: State, id: ServerId)
    requires Inv(s) && id < |s.descs|
    ensures var t := TakeFailure(s, id);
            && Keyed(t) && DescsOk(t)
            && t == s.(descs := t.descs)
            && (forall a | a in t.servers :: SettledPrimary(t, a) ==> SettledPrimary(s, a))
            && (forall a | a in t.servers && Settled(t, a) :: Fits(t.kind, t.setName, At(t, a)))
  {
    var t := TakeFailure(s, id);
    assert forall a | a in t.servers :: At(t, a) == At(s, a) || At(t, a) == At(s, a).(kind := Unknown);
    hide TakeFailure, SetKind;
    assert forall a | a in t.servers :: Settled(t, a) <==> Settled(s, a);
  }

  lemma EnterInv(s: State, k: TopologyType, but: set<ServerId>)
    requires InvBut(s, but) && ReplicaSet(k)
    requires s.kind == UnknownType || ReplicaSet(s.kind)
    ensures InvBut(s.(kind := k), but)
  {
    var t := s.(kind := k);
    assert forall a | a in t.servers :: At(t, a) == At(s, a) && (SettledBut(t, a, but) <==> SettledBut(s, a, but));
  }

  lemma RemoveInv(s: State, a: Address, but: set<ServerId>)
    requires InvBut(s, but)
    ensures InvBut(Remove(s, a), but)
  {
    var t := Remove(s, a);
    assert forall b | b in t.servers ::
          b in s.servers && At(t, b) == At(s, b) && (SettledBut(t, b, but) <==> SettledBut(s, b, but));
  }

  lemma CheckInv(s: State, but: set<ServerId>)
    requires InvBut(s, but) && ReplicaSet(s.kind)
    ensures InvBut(CheckIfHasPrimary(s), but)
    ensures var k := CheckIfHasPrimary(s).kind;
            ReplicaSet(k) && (HasPrimary(s) ==> k == s.kind) && (!HasPrimary(s) ==> k == ReplicaSetNoPrimary)
  {
    EnterInv(s, ReplicaSetNoPrimary, but);
  }

  lemma TakeNameInv(s: State, d: Desc, but: set<ServerId>)
    requires InvBut(s, but) && ReplicaSet(s.kind)
    ensures InvBut(TakeName(s, d), but)
  {
    var t := TakeName(s, d);
    assert forall a | a in t.servers :: At(t, a) == At(s, a) && (SettledBut(t, a, but) <==> SettledBut(s, a, but));
  }

  lemma RecordInv(s: State, d: Desc, but: set<ServerId>)
    requires InvBut(s, but)
    ensures InvBut(Record(s, d), but)
  {
    var t := Record(s, d);
    assert forall a | a in t.servers :: At(t, a) == At(s, a) && (SettledBut(t, a, but) <==> SettledBut(s, a, but));
  }

  /** A description keeps its address and what it is, or says nothing any more about what the server is. */
  predicate Demoted(d: Desc, e: Desc) {
    e == d || (e.address == d.address && (e.kind == Unknown || e.kind == PossiblePrimary))
  }

  lemma DemotedInv(s: State, t: State, but: set<ServerId>)
    requires InvBut(s, but) && ReplicaSet(s.kind)
    requires t == s.(descs := t.descs) && |t.descs| == |s.descs|
    requires forall i | 0 <= i < |s.descs| :: Demoted(s.descs[i], t.descs[i])
    ensures InvBut(t, but)
  {
    assert Keyed(t) && DescsOk(t);
    assert forall a | a in t.servers :: Demoted(At(s, a), At(t, a));
    hide DescsOk, Keyed;
    assert forall a | a in t.servers :: SettledBut(t, a, but) <==> SettledBut(s, a, but);
  }

  /** Taking the type from a server, or setting it aside for a possible primary. */
  lemma SetKindInv(s: State, id: ServerId, k: ServerType, but: set<ServerId>)
    requires InvBut(s, but) && ReplicaSet(s.kind) && id < |s.descs|
    requires k == Unknown || k == PossiblePrimary
    ensures InvBut(SetKind(s, id, k), but)
  {
    assert forall i | 0 <= i < |s.descs| :: Demoted(s.descs[i], SetKind(s, id, k).descs[i]);
    hide InvBut, Demoted;
    DemotedInv(s, SetKind(s, id, k), but);
  }

  lemma MarkInv(s: State, d: Desc, but: set<ServerId>)
    requires InvBut(s, but) && ReplicaSet(s.kind)
    ensures InvBut(MarkPossiblePrimary(s, d), but)
    ensures NoNewPrimaries(s, MarkPossiblePrimary(s, d))
    ensures MarkPossiblePrimary(s, d).(descs := s.descs) == s && |MarkPossiblePrimary(s, d).descs| == |s.descs|
    ensures forall i | 0 <= i < |s.descs| :: s.descs[i].kind != Unknown
              ==> MarkPossiblePrimary(s, d).descs[i] == s.descs[i]
  {
    if d.primary.Some? && d.primary.value in s.servers {
      SetKindInv(s, s.servers[d.primary.value], PossiblePrimary, but);
    }
  }

  lemma ResetInv(s: State, id: ServerId, but: set<ServerId>)
    requires InvBut(s, but) && ReplicaSet(s.kind) && id < |s.descs|
    ensures InvBut(Reset(s, id), but)
  {
    assert forall i | 0 <= i < |s.descs| :: Demoted(s.descs[i], Reset(s, id).descs[i]);
    hide InvBut, Demoted;
    DemotedInv(s, Reset(s, id), but);
  }

  lemma InvalidateInv(s: State, a: Address, but: set<ServerId>)
    requires InvBut(s, but) && ReplicaSet(s.kind)
    ensures InvBut(InvalidateOthers(s, a), but)
    ensures forall b | b in s.servers :: PrimaryAt(InvalidateOthers(s, a), b) ==> b == a
  {
    assert forall i | 0 <= i < |s.descs| :: Demoted(s.descs[i], InvalidateOthers(s, a).descs[i]);
    assert forall b | b in s.servers :: At(InvalidateOthers(s, a), b).kind == RSPrimary ==> b == a;
    hide InvBut, Demoted, InvalidateOthers;
    DemotedInv(s, InvalidateOthers(s, a), but);
  }

  lemma RetainInv(s: State, d: Desc, but: set<ServerId>)
    requires InvBut(s, but)
    ensures InvBut(Retain(s, d), but)
  {
    var t := Retain(s, d);
    assert forall b | b in t.servers ::
          b in s.servers && At(t, b) == At(s, b) && (SettledBut(t, b, but) <==> SettledBut(s, b, but));
  }

  /** How creating servers extends a state: nothing tracked changes, and what is added is fresh. */
  predicate Grows(s: State, t: State) {
    && s.descs <= t.descs
    && (forall a | a in s.servers :: a in t.servers && t.servers[a] == s.servers[a])
    && (forall a | a in t.servers && a !in s.servers ::
          |s.descs| <= t.servers[a] < |t.descs| && t.descs[t.servers[a]] == DefaultDesc(a))
    && (forall i | |s.descs| <= i < |t.descs| :: t.descs[i].kind == Unknown)
    && t == s.(servers := t.servers, descs := t.descs)
  }

  lemma {:induction false} AddGrows(s: State, addrs: seq<Address>, unusable: set<Address>)
    ensures var (t, ok) := AddServers(s, addrs, unusable);
            && Grows(s, t)
            && (forall a | a in t.servers :: a in s.servers || a in addrs)
            && (ok ==> forall a | a in addrs :: a in t.servers)
    decreases |addrs|
  {
    if addrs != [] && (addrs[0] in s.servers || addrs[0] !in unusable) {
      var a := addrs[0];
      var s' := if a in s.servers then s
                else s.(servers := s.servers[a := |s.descs|], descs := s.descs + [DefaultDesc(a)]);
      AddGrows(s', addrs[1..], unusable);
      var t := AddServers(s', addrs[1..], unusable).0;
      assert addrs == [a] + addrs[1..];
      GrowsTwice(s, s', t);
    }
  }

  lemma GrowsTwice(s: State, s': State, t: State)
    requires Grows(s, s') && Grows(s', t)
    ensures Grows(s, t)
  {
    assert forall i | |s.descs| <= i < |s'.descs| :: t.descs[i] == s'.descs[i];
    assert forall a | a in s'.servers && a !in s.servers :: t.descs[t.servers[a]] == s'.descs[s'.servers[a]];
  }

  /** No primary appears, and the replies that wait still wait. */
  predicate NoNewPrimaries(s: State, t: State)
    requires Keyed(s) && Keyed(t)
  {
    && t.unsettled == s.unsettled
    && forall a | a in t.servers && PrimaryAt(t, a) :: a in s.servers && t.servers[a] == s.servers[a] && PrimaryAt(s, a)
  }

  lemma GrowsInv(s: State, t: State, but: set<ServerId>)
    requires InvBut(s, but) && Grows(s, t)
    ensures InvBut(t, but)
    ensures NoNewPrimaries(s, t)
  {
    GrowsFrame(s, t);
    assert DescsOk(t) by {
      assert forall i | 0 <= i < |s.descs| :: t.descs[i] == s.descs[i];
    }
    assert ConsistentBut(t, but) by {
      hide Grows, DescsOk;
      assert forall a | a in s.servers :: SettledBut(t, a, but) <==> SettledBut(s, a, but);
    }
  }

  lemma GrowsFrame(s: State, t: State)
    requires Keyed(s) && Grows(s, t)
    ensures Keyed(t)
    ensures t.kind == s.kind && t.setName == s.setName && t.unsettled == s.unsettled
    ensures forall a | a in t.servers ::
              (a in s.servers && t.servers[a] == s.servers[a] && At(t, a) == At(s, a)) || At(t, a) == DefaultDesc(a)
    ensures forall a | a in s.servers :: a in t.servers && t.servers[a] == s.servers[a]
  {
    assert forall i | 0 <= i < |s.descs| :: t.descs[i] == s.descs[i];
  }

  // ----- what the branches of the table keep -----

  /** A tracked primary that counts once the reporter is settled. */
  predicate Counts(t: State, a: Address, id: ServerId)
    requires Keyed(t)
  {
    a in t.servers && (t.servers[a] !in t.unsettled || t.servers[a] == id) && At(t, a).kind == RSPrimary
  }

  /** What a branch has to establish for the reporter and for the primaries. */
  predicate Reported(t: State, id: ServerId)
    requires Keyed(t)
  {
    && (forall a | a in t.servers :: t.servers[a] == id ==> Fits(t.kind, t.setName, At(t, a)))
    && (forall a | a in t.servers :: Counts(t, a, id) ==> t.kind == Single || t.kind == ReplicaSetWithPrimary)
    && (forall a, b | a in t.servers && b in t.servers ::
          Counts(t, a, id) && Counts(t, b, id) ==> t.kind == Single || a == b)
  }

  lemma SettleInv(t: State, id: ServerId)
    requires InvBut(t, {id}) && Reported(t, id)
    ensures Inv(t.(unsettled := t.unsettled - {id}))
  {
    var u := t.(unsettled := t.unsettled - {id});
    assert forall a | a in u.servers :: At(u, a) == At(t, a);
    assert forall a | a in u.servers :: Settled(u, a) ==> SettledBut(t, a, {id}) || t.servers[a] == id;
    assert forall a | a in u.servers :: SettledPrimary(u, a) ==> Counts(t, a, id);
  }

  lemma ButInv(s: State, but: set<ServerId>)
    requires InvBut(s, {})
    ensures InvBut(s, but)
  {
    assert forall a | a in s.servers :: SettledBut(s, a, but) ==> SettledBut(s, a, {});
  }

  /** When the primaries that count are settled primaries of before, and no topology without primary has any. */
  lemma FewerPrimaries(s: State, t: State, id: ServerId)
    requires Keyed(s) && OnePrimary(s) && s.kind != Single && Keyed(t)
    requires forall a | a in t.servers :: t.servers[a] == id ==> Fits(t.kind, t.setName, At(t, a))
    requires forall a | a in t.servers :: Counts(t, a, id) ==> a in s.servers && SettledPrimary(s, a)
    requires HasPrimary(t) && s.kind == ReplicaSetWithPrimary ==> t.kind == ReplicaSetWithPrimary
    ensures Reported(t, id)
  {
    forall a | a in t.servers && Counts(t, a, id)
      ensures t.kind == ReplicaSetWithPrimary
    {
      assert SettledPrimary(s, a) && PrimaryAt(t, a);
    }
  }

  /** Removing the reporter's address, and checking for a primary where the table says so. */
  lemma RemoveReporter(s: State, id: ServerId, check: bool)
    requires InvBut(s, {id}) && OnePrimary(s) && id < |s.descs| && s.kind != Single
    requires check ==> ReplicaSet(s.kind)
    ensures var r := Remove(s, s.descs[id].address);
            var t := if check then CheckIfHasPrimary(r) else r;
            InvBut(t, {id}) && Reported(t, id)
  {
    var r := Remove(s, s.descs[id].address);
    var t := if check then CheckIfHasPrimary(r) else r;
    RemoveInv(s, s.descs[id].address, {id});
    if check { CheckInv(r, {id}); }
    assert forall a | a in t.servers :: a in s.servers && At(t, a) == At(s, a) && t.servers[a] == s.servers[a] != id;
    assert forall a | a in t.servers :: Counts(t, a, id) ==> SettledPrimary(s, a);
    assert HasPrimary(t) ==> HasPrimary(r);
    FewerPrimaries(s, t, id);
  }

  lemma MismatchInv(s: State, id: ServerId, k: TopologyType)
    requires Inv(s) && id < |s.descs| && ReplicaSet(k)
    requires s.kind == UnknownType || s.kind == ReplicaSetNoPrimary || s.kind == k == ReplicaSetWithPrimary
    ensures var r := Remove(s.(kind := k), s.descs[id].address);
            var t := if k == ReplicaSetWithPrimary then CheckIfHasPrimary(r) else r;
            InvBut(t, {id}) && Reported(t, id)
  {
    ButInv(s, {id});
    EnterInv(s, k, {id});
    EnterOnePrimary(s, k);
    RemoveReporter(s.(kind := k), id, k == ReplicaSetWithPrimary);
  }

  lemma EnterOnePrimary(s: State, k: TopologyType)
    requires Inv(s) && ReplicaSet(k)
    requires s.kind == UnknownType || s.kind == ReplicaSetNoPrimary || s.kind == k == ReplicaSetWithPrimary
    ensures Keyed(s.(kind := k)) && OnePrimary(s.(kind := k))
  {
    var t := s.(kind := k);
    assert forall a | a in t.servers :: SettledPrimary(t, a) <==> SettledPrimary(s, a);
  }

  /** A stale claim: the reporter is reset, and nothing else changes but the name and the type. */
  lemma StaleInv(s: State, id: ServerId)
    requires Inv(s) && id < |s.descs| && s.kind != Single && s.kind != Sharded
    ensures var t := CheckIfHasPrimary(Reset(TakeName(s.(kind := ReplicaSetWithPrimary), s.descs[id]), id));
            InvBut(t, {id}) && Reported(t, id)
  {
    var d := s.descs[id];
    var s1 := s.(kind := ReplicaSetWithPrimary);
    ButInv(s, {id});
    EnterInv(s, ReplicaSetWithPrimary, {id});
    EnterOnePrimary(s, ReplicaSetWithPrimary);
    TakeNameInv(s1, d, {id});
    var s2 := TakeName(s1, d);
    ResetInv(s2, id, {id});
    var s3 := Reset(s2, id);
    CheckInv(s3, {id});
    var t := CheckIfHasPrimary(s3);
    StaleFrame(s1, s3, t, id);
    hide *;
    FewerPrimaries(s1, t, id);
  }

  lemma StaleFrame(s: State, r: State, t: State, id: ServerId)
    requires Keyed(s) && id < |s.descs| && s.kind == ReplicaSetWithPrimary
    requires r == Reset(TakeName(s, s.descs[id]), id) && Keyed(r) && t == CheckIfHasPrimary(r) && Keyed(t)
    requires OnePrimary(s)
    ensures forall a | a in t.servers :: t.servers[a] == id ==> Fits(t.kind, t.setName, At(t, a))
    ensures forall a | a in t.servers :: Counts(t, a, id) ==> a in s.servers && SettledPrimary(s, a)
    ensures HasPrimary(t) ==> t.kind == ReplicaSetWithPrimary
    ensures s.kind != Single && OnePrimary(s)
  {
    assert t.servers == s.servers && t.unsettled == s.unsettled && t.descs == r.descs;
    assert forall a | a in t.servers :: At(t, a) == if s.servers[a] == id then DefaultDesc(s.descs[id].address)
        else At(s, a);
    assert HasPrimary(t) ==> HasPrimary(r);
    hide Keyed, Reset, TakeName, CheckIfHasPrimary, OnePrimary;
  }

  /** An accepted claim: afterwards the only tracked primary, if any, is at the reporter's address. */
  lemma AcceptInv(s: State, id: ServerId)
    requires Inv(s) && id < |s.descs| && s.kind != Single && s.kind != Sharded
    requires s.descs[id].kind == RSPrimary && !NameMismatch(s, s.descs[id])
    ensures var t := AcceptPrimary(s.(kind := ReplicaSetWithPrimary), s.descs[id]);
            && InvBut(t, {id})
            && (forall a | a in t.servers :: PrimaryAt(t, a) ==> a == s.descs[id].address)
            && t.setName == s.descs[id].setName && id < |t.descs| && t.descs[id] == s.descs[id]
            && t.kind == ReplicaSetWithPrimary
  {
    var d := s.descs[id];
    var s1 := s.(kind := ReplicaSetWithPrimary);
    ButInv(s, {id});
    EnterInv(s, ReplicaSetWithPrimary, {id});
    TakeNameInv(s1, d, {id});
    var s2 := TakeName(s1, d);
    RecordInv(s2, d, {id});
    var s3 := Record(s2, d);
    InvalidateInv(s3, d.address, {id});
    var s4 := InvalidateOthers(s3, d.address);
    RetainInv(s4, d, {id});
    assert s4.descs[id] == d;
  }

  lemma FromPrimaryInv(s: State, id: ServerId, unusable: set<Address>)
    requires Inv(s) && id < |s.descs| && s.kind != Single && s.kind != Sharded
    requires s.descs[id].kind == RSPrimary
    ensures var t := FromPrimary(s, id, unusable).0; InvBut(t, {id}) && Reported(t, id)
  {
    var d := s.descs[id];
    var s1 := s.(kind := ReplicaSetWithPrimary);
    if NameMismatch(s1, d) {
      MismatchInv(s, id, ReplicaSetWithPrimary);
    } else if Stale(s1, d) {
      StaleInv(s, id);
    } else {
      AcceptInv(s, id);
      var s2 := AcceptPrimary(s1, d);
      var (s3, ok) := AddServers(s2, Listed(d), unusable);
      AddGrows(s2, Listed(d), unusable);
      GrowsInv(s2, s3, {id});
      assert forall a | a in s3.servers :: PrimaryAt(s3, a) ==> a == d.address;
      assert d.setName.Some? && s3.setName == d.setName && s3.descs[id] == d;
      CheckInv(s3, {id});
      AcceptedReported(s3, id, d);
    }
  }

  lemma AcceptedReported(s: State, id: ServerId, d: Desc)
    requires Keyed(s) && s.kind == ReplicaSetWithPrimary && id < |s.descs|
    requires s.descs[id] == d && d.kind == RSPrimary && d.setName.Some? && s.setName == d.setName
    requires forall a | a in s.servers :: PrimaryAt(s, a) ==> a == d.address
    ensures Reported(s, id)
    ensures Keyed(CheckIfHasPrimary(s)) && Reported(CheckIfHasPrimary(s), id)
  {
    assert forall a | a in s.servers :: Counts(s, a, id) ==> PrimaryAt(s, a);
    var t := CheckIfHasPrimary(s);
    assert forall a | a in t.servers :: At(t, a) == At(s, a);
    assert forall a | a in t.servers :: Counts(t, a, id) ==> PrimaryAt(s, a) && HasPrimary(s);
  }

  /** The states that updateRSWithoutPrimary goes through once the name is accepted. */
  lemma WithoutPrimaryStates(s: State, id: ServerId, unusable: set<Address>) returns (s3: State, s4: State, s5: State)
    requires Inv(s) && id < |s.descs|
    requires s.kind == UnknownType || s.kind == ReplicaSetNoPrimary
    requires Member(s.descs[id].kind) && s.descs[id].kind != RSPrimary && !NameMismatch(s, s.descs[id])
    ensures s3 == AddServers(TakeName(s.(kind := ReplicaSetNoPrimary), s.descs[id]), Listed(s.descs[id]), unusable).0
    ensures Keyed(s3) && s4 == MarkPossiblePrimary(s3, s.descs[id]) && s5 == Remove(s4, s.descs[id].address)
    ensures InvBut(s3, {id}) && Reported(s3, id)
    ensures InvBut(s4, {id}) && Reported(s4, id)
    ensures InvBut(s5, {id}) && Reported(s5, id)
  {
    var d, s1 := s.descs[id], s.(kind := ReplicaSetNoPrimary);
    ButInv(s, {id});
    EnterInv(s, ReplicaSetNoPrimary, {id});
    TakeNameInv(s1, d, {id});
    var s2 := TakeName(s1, d);
    s3 := AddServers(s2, Listed(d), unusable).0;
    AddGrows(s2, Listed(d), unusable);
    GrowsInv(s2, s3, {id});
    MarkInv(s3, d, {id});
    s4 := MarkPossiblePrimary(s3, d);
    RemoveInv(s4, d.address, {id});
    s5 := Remove(s4, d.address);
    assert s3.descs[id] == d && s4.descs[id] == d;
    assert d.setName.Some? && s2.setName == d.setName;
    hide ConsistentBut, DescsOk, OnePrimary, Grows, AddServers, MarkPossiblePrimary, TakeName, Reported;
    NoPrimariesReported(s, s3, id, d);
    NoPrimariesReported(s, s4, id, d);
    NoPrimariesReported(s, s5, id, d);
  }

  lemma WithoutPrimaryCases(s: State, id: ServerId, unusable: set<Address>)
    requires Keyed(s) && id < |s.descs| && !NameMismatch(s, s.descs[id])
    ensures var s3 := AddServers(TakeName(s.(kind := ReplicaSetNoPrimary), s.descs[id]), Listed(s.descs[id]),
              unusable).0;
            && Keyed(s3)
            && var s4 := MarkPossiblePrimary(s3, s.descs[id]);
               WithoutPrimary(s, id, unusable).0 in {s3, s4, Remove(s4, s.descs[id].address)}
  {
    AddKeyed(TakeName(s.(kind := ReplicaSetNoPrimary), s.descs[id]), Listed(s.descs[id]), unusable);
    hide AddServers, MarkPossiblePrimary, TakeName, Keyed, Remove, Listed;
  }

  lemma WithoutPrimaryInv(s: State, id: ServerId, unusable: set<Address>)
    requires Inv(s) && id < |s.descs|
    requires s.kind == UnknownType || s.kind == ReplicaSetNoPrimary
    requires Member(s.descs[id].kind) && s.descs[id].kind != RSPrimary
    ensures var t := WithoutPrimary(s, id, unusable).0; InvBut(t, {id}) && Reported(t, id)
  {
    assert Keyed(s);
    if NameMismatch(s, s.descs[id]) {
      MismatchInv(s, id, ReplicaSetNoPrimary);
      hide InvBut, Reported, Keyed;
    } else {
      WithoutPrimaryCases(s, id, unusable);
      var s3, s4, s5 := WithoutPrimaryStates(s, id, unusable);
      hide *;
    }
  }

  /** In the branch without primary no primary counts, before and after. */
  lemma NoPrimariesReported(s: State, t: State, id: ServerId, d: Desc)
    requires Inv(s) && (s.kind == UnknownType || s.kind == ReplicaSetNoPrimary) && Keyed(t)
    requires t.kind == ReplicaSetNoPrimary && t.setName == d.setName && d.setName.Some?
    requires Member(d.kind) && d.kind != RSPrimary && id < |t.descs| && t.descs[id] == d
    requires NoNewPrimaries(s, t)
    ensures Reported(t, id)
  {
    assert forall a | a in t.servers :: Counts(t, a, id) ==> SettledPrimary(s, a);
  }

  /** When the reporter is no primary and fits, checking changes nothing that matters; nor does not checking. */
  lemma UnchangedInv(s: State, id: ServerId)
    requires Inv(s) && id < |s.descs| && ReplicaSet(s.kind)
    requires s.descs[id].kind != RSPrimary && Fits(s.kind, s.setName, s.descs[id])
    ensures InvBut(s, {id}) && Reported(s, id)
    ensures var t := CheckIfHasPrimary(s); InvBut(t, {id}) && Reported(t, id)
  {
    var t := CheckIfHasPrimary(s);
    ButInv(s, {id});
    CheckInv(s, {id});
    assert forall a | a in s.servers :: At(t, a) == At(s, a) && t.servers[a] == s.servers[a];
    assert forall a | a in s.servers :: Counts(s, a, id) ==> SettledPrimary(s, a);
    assert forall a | a in s.servers :: Counts(t, a, id) ==> SettledPrimary(s, a) && HasPrimary(s);
    FitsEitherWay(s, t, id);
  }

  lemma FitsEitherWay(s: State, t: State, id: ServerId)
    requires Keyed(s) && OnePrimary(s) && id < |s.descs| && ReplicaSet(s.kind) && t == CheckIfHasPrimary(s)
    requires Fits(s.kind, s.setName, s.descs[id])
    requires forall a | a in s.servers :: Counts(s, a, id) ==> SettledPrimary(s, a)
    ensures Reported(s, id) && Keyed(t) && Reported(t, id)
  {
    assert forall a | a in s.servers :: At(t, a) == At(s, a) && (Counts(t, a, id) <==> Counts(s, a, id));
    assert forall a | a in s.servers :: SettledPrimary(s, a) ==> HasPrimary(s);
  }

  lemma MarkReported(s: State, id: ServerId, d: Desc)
    requires InvBut(s, {id}) && ReplicaSet(s.kind) && Reported(s, id)
    ensures var t := MarkPossiblePrimary(s, d); InvBut(t, {id}) && Reported(t, id)
  {
    MarkInv(s, d, {id});
    MarkFrame(s, d);
    hide *;
    DemotedReported(s, MarkPossiblePrimary(s, d), id);
  }

  lemma MarkFrame(s: State, d: Desc)
    requires Keyed(s)
    ensures var t := MarkPossiblePrimary(s, d);
            && Keyed(t) && t == s.(descs := t.descs)
            && forall a | a in s.servers :: At(t, a) == At(s, a) || At(t, a).kind == PossiblePrimary
  {
  }

  lemma DemotedReported(s: State, t: State, id: ServerId)
    requires Keyed(s) && Keyed(t) && t == s.(descs := t.descs) && ReplicaSet(s.kind) && Reported(s, id)
    requires forall a | a in s.servers :: At(t, a) == At(s, a) || At(t, a).kind == PossiblePrimary
    ensures Reported(t, id)
  {
    assert forall a | a in t.servers :: Counts(t, a, id) ==> Counts(s, a, id);
  }

  lemma FromMemberInv(s: State, id: ServerId)
    requires Inv(s) && id < |s.descs| && s.kind == ReplicaSetWithPrimary
    requires Member(s.descs[id].kind) && s.descs[id].kind != RSPrimary
    ensures var t := FromMember(s, id).0; InvBut(t, {id}) && Reported(t, id)
  {
    var d := s.descs[id];
    ButInv(s, {id});
    RemoveReporter(s, id, true);
    if s.setName == d.setName {
      UnchangedInv(s, id);
      MarkReported(CheckIfHasPrimary(s), id, d);
    }
    hide InvBut, Reported, Inv, MarkPossiblePrimary, CheckIfHasPrimary;
  }

  /** The first standalone server or router decides what an unknown topology is. */
  lemma DecideInv(s: State, id: ServerId)
    requires Inv(s) && id < |s.descs| && s.kind == UnknownType
    ensures s.descs[id].kind == Standalone ==> InvBut(s.(kind := Single), {id}) && Reported(s.(kind := Single), id)
    ensures s.descs[id].kind == Mongos ==> InvBut(s.(kind := Sharded), {id}) && Reported(s.(kind := Sharded), id)
  {
    var t, u := s.(kind := Single), s.(kind := Sharded);
    assert forall a | a in s.servers :: At(t, a) == At(s, a) && At(u, a) == At(s, a);
    assert forall a | a in s.servers :: SettledBut(s, a, {id}) ==> Settled(s, a);
    assert s.descs[id].kind == Mongos ==> forall a | a in s.servers :: Counts(u, a, id) ==> SettledPrimary(s, a);
  }

  /** Nothing changes where the reporter fits the topology's type already. */
  lemma NoOpInv(s: State, id: ServerId)
    requires Inv(s) && id < |s.descs|
    requires s.kind == Single || (s.descs[id].kind != RSPrimary && Fits(s.kind, s.setName, s.descs[id]))
    ensures InvBut(s, {id}) && Reported(s, id)
  {
    ButInv(s, {id});
    assert s.kind != Single ==> forall a | a in s.servers :: Counts(s, a, id) ==> SettledPrimary(s, a);
  }

  lemma DecidedTableInv(s: State, id: ServerId, unusable: set<Address>)
    requires Inv(s) && id < |s.descs| && (s.kind == Single || s.kind == Sharded)
    ensures var t := UpdateTable(s, id, unusable).0; InvBut(t, {id}) && Reported(t, id)
  {
    var d := s.descs[id];
    assert DescOk(s.kind, d) && Keyed(s);
    ButInv(s, {id});
    if s.kind == Single || (d.kind != RSPrimary && Fits(s.kind, s.setName, d)) { NoOpInv(s, id); }
    if s.kind != Single { RemoveReporter(s, id, false); }
    hide Inv, InvBut, Reported, Keyed;
  }

  lemma UnknownTableInv(s: State, id: ServerId, unusable: set<Address>)
    requires Inv(s) && id < |s.descs| && s.kind == UnknownType
    ensures var t := UpdateTable(s, id, unusable).0; InvBut(t, {id}) && Reported(t, id)
  {
    var d := s.descs[id];
    assert DescOk(s.kind, d) && Keyed(s);
    DecideInv(s, id);
    if Fits(s.kind, s.setName, d) { NoOpInv(s, id); }
    if d.kind == RSPrimary { FromPrimaryInv(s, id, unusable); }
    if Member(d.kind) && d.kind != RSPrimary { WithoutPrimaryInv(s, id, unusable); }
    hide Inv, InvBut, Reported, Keyed, FromPrimary, WithoutPrimary;
  }

  lemma NoPrimaryTableInv(s: State, id: ServerId, unusable: set<Address>)
    requires Inv(s) && id < |s.descs| && s.kind == ReplicaSetNoPrimary
    ensures var t := UpdateTable(s, id, unusable).0; InvBut(t, {id}) && Reported(t, id)
  {
    var d := s.descs[id];
    assert Keyed(s);
    ButInv(s, {id});
    RemoveReporter(s, id, false);
    if d.kind != RSPrimary && Fits(s.kind, s.setName, d) { NoOpInv(s, id); }
    if d.kind == RSPrimary { FromPrimaryInv(s, id, unusable); }
    if Member(d.kind) && d.kind != RSPrimary { WithoutPrimaryInv(s, id, unusable); }
    hide Inv, InvBut, Reported, Keyed, FromPrimary, WithoutPrimary, Remove;
  }

  lemma WithPrimaryTableInv(s: State, id: ServerId, unusable: set<Address>)
    requires Inv(s) && id < |s.descs| && s.kind == ReplicaSetWithPrimary
    ensures var t := UpdateTable(s, id, unusable).0; InvBut(t, {id}) && Reported(t, id)
  {
    var d := s.descs[id];
    assert Keyed(s);
    ButInv(s, {id});
    RemoveReporter(s, id, true);
    if d.kind != RSPrimary && Fits(s.kind, s.setName, d) { UnchangedInv(s, id); }
    if d.kind == RSPrimary { FromPrimaryInv(s, id, unusable); }
    if Member(d.kind) && d.kind != RSPrimary { FromMemberInv(s, id); }
    hide Inv, InvBut, Reported, Keyed, CheckIfHasPrimary, FromPrimary, FromMember, Remove;
  }

  lemma TableInv(s: State, id: ServerId, unusable: set<Address>)
    requires Inv(s) && id < |s.descs|
    ensures var t := UpdateTable(s, id, unusable).0; InvBut(t, {id}) && Reported(t, id)
  {
    hide *;
    match s.kind
    case Single | Sharded => DecidedTableInv(s, id, unusable);
    case UnknownType => UnknownTableInv(s, id, unusable);
    case ReplicaSetNoPrimary => NoPrimaryTableInv(s, id, unusable);
    case ReplicaSetWithPrimary => WithPrimaryTableInv(s, id, unusable);
  }

  /** Every topology update keeps the invariant, whoever reports and however it ends. */
  lemma UpdateInv(s: State, id: ServerId, unusable: set<Address>)
    requires Inv(s) && id < |s.descs|
    ensures Inv(Update(s, id, unusable).0)
  {
    TableInv(s, id, unusable);
    hide UpdateTable, InvBut, Reported;
    SettleInv(UpdateTable(s, id, unusable).0, id);
  }
}
