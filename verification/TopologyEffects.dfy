/** What a completed topology update does, seen from outside: which addresses are tracked afterwards, what the
    topology's type is, and which descriptions change. */
module TopologyEffects {
  import opened Wrappers
  import opened Sdam
  import opened Topology
  import opened TopologyInvariant
  import opened TopologyRuns
  import opened TopologyLaws

  /** A set member that is not primary. */
  predicate Follower(d: Desc) {
    Member(d.kind) && d.kind != RSPrimary
  }

  /** The topology belongs to another set. */
  predicate OtherSet(s: State, d: Desc) {
    s.setName.Some? && d.setName != s.setName
  }

  /** The reporter's address does not stay tracked. */
  predicate Expelled(s: State, d: Desc) {
    match s.kind
    case Single => false
    case Sharded => d.kind != Mongos && d.kind != Unknown && d.kind != PossiblePrimary
    case UnknownType => Member(d.kind) && (OtherSet(s, d) || (Follower(d) && d.me != Some(d.address)))
    case ReplicaSetNoPrimary =>
      || d.kind == Standalone || d.kind == Mongos
      || (Member(d.kind) && (OtherSet(s, d) || (Follower(d) && d.me != Some(d.address))))
    case ReplicaSetWithPrimary =>
      || d.kind == Standalone || d.kind == Mongos
      || (d.kind == RSPrimary && OtherSet(s, d))
      || (Follower(d) && (s.setName != d.setName || d.me != Some(d.address)))
  }

  /** The addresses that a member makes known where no primary is. */
  function Announced(s: State, d: Desc): set<Address> {
    if Follower(d) && (s.kind == UnknownType || s.kind == ReplicaSetNoPrimary) && !OtherSet(s, d)
    then set a | a in d.hosts + d.passives + d.arbiters
    else {}
  }

  function TrackedAfter(s: State, d: Desc): set<Address> {
    (s.servers.Keys + Announced(s, d)) - if Expelled(s, d) then {d.address} else {}
  }

  /** After a completed report that is no accepted claim, the addresses tracked are those of before, with the announced
      ones and without an expelled reporter's. */
  lemma AddressesAfter(s: State, id: ServerId, unusable: set<Address>)
    requires Inv(s) && id < |s.descs| && !Accepted(s, s.descs[id]) && Update(s, id, unusable).1 == Done
    ensures Update(s, id, unusable).0.servers.Keys == TrackedAfter(s, s.descs[id])
  {
    var d := s.descs[id];
    assert Keyed(s);
    if d.kind == RSPrimary && Open(s.kind) {
      if NameMismatch(s, d) { MismatchedClaim(s, id, unusable); } else { StaleClaim(s, id, unusable); }
      hide Update, Inv;
    } else if Follower(d) && (s.kind == UnknownType || s.kind == ReplicaSetNoPrimary) {
      WithoutPrimaryAddresses(s, id, unusable);
      hide Inv, Keyed, WithoutPrimary, TrackedAfter, Accepted;
    } else {
      OtherAddresses(s, id, unusable);
      hide Update, Inv, Keyed, Announced, Expelled, Accepted;
    }
  }

  lemma OtherAddresses(s: State, id: ServerId, unusable: set<Address>)
    requires Keyed(s) && id < |s.descs| && Update(s, id, unusable).1 == Done
    requires !(s.descs[id].kind == RSPrimary && Open(s.kind))
    requires !(Follower(s.descs[id]) && (s.kind == UnknownType || s.kind == ReplicaSetNoPrimary))
    ensures Update(s, id, unusable).0.servers.Keys == TrackedAfter(s, s.descs[id])
  {
    TableServers(s, id, unusable);
    FromMemberAddresses(s, id);
    assert Announced(s, s.descs[id]) == {};
    TableEnds(s, id, unusable);
    assert Update(s, id, unusable).0.servers == UpdateTable(s, id, unusable).0.servers;
    hide Update, UpdateTable, Keyed, FromMember, WithoutPrimary, FromPrimary, Announced;
  }

  lemma TableServers(s: State, id: ServerId, unusable: set<Address>)
    requires Keyed(s) && id < |s.descs|
    requires !(s.descs[id].kind == RSPrimary && Open(s.kind))
    requires !(Follower(s.descs[id]) && (s.kind == UnknownType || s.kind == ReplicaSetNoPrimary))
    ensures var d := s.descs[id];
            UpdateTable(s, id, unusable).0.servers ==
              if Follower(d) && s.kind == ReplicaSetWithPrimary then FromMember(s, id).0.servers
              else if Expelled(s, d) then s.servers - {d.address} else s.servers
  {
    CheckAddresses(s);
    hide Keyed, CheckIfHasPrimary, FromMember, WithoutPrimary, FromPrimary;
  }

  lemma CheckAddresses(s: State)
    requires Keyed(s)
    ensures CheckIfHasPrimary(s).servers == s.servers
    ensures forall a: Address :: CheckIfHasPrimary(Remove(s, a)).servers == s.servers - {a}
  {
  }

  lemma WithoutPrimaryAddresses(s: State, id: ServerId, unusable: set<Address>)
    requires Keyed(s) && id < |s.descs| && (s.kind == UnknownType || s.kind == ReplicaSetNoPrimary)
              && Follower(s.descs[id])
    ensures var (t, o) := WithoutPrimary(s, id, unusable);
            o == Done ==> t.servers.Keys == TrackedAfter(s, s.descs[id])
  {
    var d := s.descs[id];
    var s1 := s.(kind := ReplicaSetNoPrimary);
    if !NameMismatch(s, d) {
      var s2 := TakeName(s1, d);
      assert s2.servers == s.servers;
      assert Keyed(s2);
      assert Announced(s, d) == set a | a in Listed(d);
      AddKeyed(s2, Listed(d), unusable);
      var (s3, ok) := AddServers(s2, Listed(d), unusable);
      var m := MarkPossiblePrimary(s3, d);
      assert WithoutPrimary(s, id, unusable)
          == if !ok then (s3, Failed) else if d.me.None? then (m, Panicked)
             else if d.me.value != d.address then (Remove(m, d.address), Done) else (m, Done);
      hide WithoutPrimary, AddServers, TakeName, MarkPossiblePrimary, Keyed, Listed, Announced;
      GrownAddresses(s2, Listed(d), unusable);
      MarkKeepsServers(s3, d);
    }
  }

  lemma GrownAddresses(s: State, addrs: seq<Address>, unusable: set<Address>)
    ensures var (t, ok) := AddServers(s, addrs, unusable);
            ok ==> t.servers.Keys == s.servers.Keys + set a | a in addrs
  {
    AddGrows(s, addrs, unusable);
    var t := AddServers(s, addrs, unusable).0;
    hide AddServers;
    assert forall a :: a in t.servers.Keys <==> a in t.servers;
  }

  lemma MarkKeepsServers(s: State, d: Desc)
    requires Keyed(s)
    ensures MarkPossiblePrimary(s, d).servers == s.servers
  {
  }

  lemma FromMemberAddresses(s: State, id: ServerId)
    requires Keyed(s) && id < |s.descs|
    ensures var (t, o) := FromMember(s, id);
            var d := s.descs[id];
            o == Done ==> t.servers.Keys == s.servers.Keys - if s.setName != d.setName
                || d.me != Some(d.address) then {d.address} else {}
  {
    var c := CheckIfHasPrimary(s);
    CheckAddresses(s);
    assert Keyed(c);
    MarkKeepsServers(c, s.descs[id]);
    hide CheckIfHasPrimary, MarkPossiblePrimary, Keyed;
  }

  // ----- the topology's type -----

  /** A topology's type after a completed report. Where it looks for a primary, it is with-primary exactly when one is
      tracked, settled or not. */
  function TypeAfter(s: State, d: Desc, hasPrimary: bool): TopologyType {
    var looked := if hasPrimary then ReplicaSetWithPrimary else ReplicaSetNoPrimary;
    match s.kind
    case Single | Sharded => s.kind
    case UnknownType =>
      (match d.kind
       case Standalone => Single
       case Mongos => Sharded
       case RSPrimary => looked
       case RSSecondary | RSArbiter | RSOther => ReplicaSetNoPrimary
       case _ => UnknownType)
    case ReplicaSetNoPrimary => if d.kind == RSPrimary then looked else ReplicaSetNoPrimary
    case ReplicaSetWithPrimary => if d.kind == PossiblePrimary then ReplicaSetWithPrimary else looked
  }

  lemma KindAfter(s: State, id: ServerId, unusable: set<Address>)
    requires Inv(s) && id < |s.descs| && Update(s, id, unusable).1 == Done
    ensures var t := Update(s, id, unusable).0;
            Keyed(t) && t.kind == TypeAfter(s, s.descs[id], HasPrimary(t))
  {
    UpdateInv(s, id, unusable);
    TableInv(s, id, unusable);
    var u, t := UpdateTable(s, id, unusable).0, Update(s, id, unusable).0;
    SameServers(u, t);
    TableKind(s, id, unusable);
    hide UpdateTable, Inv, HasPrimary, Keyed;
  }

  lemma TableKind(s: State, id: ServerId, unusable: set<Address>)
    requires Inv(s) && id < |s.descs| && UpdateTable(s, id, unusable).1 == Done && Keyed(UpdateTable(s, id, unusable).0)
    ensures var t := UpdateTable(s, id, unusable).0; t.kind == TypeAfter(s, s.descs[id], HasPrimary(t))
  {
    var d := s.descs[id];
    assert Keyed(s);
    if d.kind == RSPrimary && Open(s.kind) {
      FromPrimaryKind(s, id, unusable);
      hide Inv, Keyed, HasPrimary, FromPrimary;
    } else if s.kind == ReplicaSetWithPrimary {
      CheckedKind(s);
      CheckedKind(Remove(s, d.address));
      FromMemberKind(s, id);
      hide Inv, Keyed, HasPrimary, CheckIfHasPrimary, FromMember, Remove;
    } else {
      WithoutPrimaryKeeps(s, id, unusable);
      hide Inv, Keyed, HasPrimary, WithoutPrimary, Keeps;
    }
  }

  lemma CheckedKind(s: State)
    requires Keyed(s)
    ensures var t := CheckIfHasPrimary(s);
            Keyed(t) && (s.kind == ReplicaSetWithPrimary
                ==> t.kind == if HasPrimary(t) then ReplicaSetWithPrimary else ReplicaSetNoPrimary)
  {
    SameServers(s, CheckIfHasPrimary(s));
  }

  lemma FromPrimaryKind(s: State, id: ServerId, unusable: set<Address>)
    requires Keyed(s) && id < |s.descs|
    ensures var (t, o) := FromPrimary(s, id, unusable);
            Keyed(t) && (o == Done ==> t.kind == if HasPrimary(t) then ReplicaSetWithPrimary else ReplicaSetNoPrimary)
  {
    var d := s.descs[id];
    var s1 := s.(kind := ReplicaSetWithPrimary);
    var r := Reset(TakeName(s1, d), id);
    var u := AddServers(AcceptPrimary(s1, d), Listed(d), unusable).0;
    FromPrimaryStates(s, id, unusable);
    CheckedKind(Remove(s1, d.address));
    CheckedKind(r);
    CheckedKind(u);
    hide HasPrimary, Keyed, AcceptPrimary, CheckIfHasPrimary, Reset, TakeName, Stale, NameMismatch, AddServers, Remove;
  }

  lemma FromPrimaryStates(s: State, id: ServerId, unusable: set<Address>)
    requires Keyed(s) && id < |s.descs|
    ensures var s1, d := s.(kind := ReplicaSetWithPrimary), s.descs[id];
            var r, u := Reset(TakeName(s1, d), id), AddServers(AcceptPrimary(s1, d), Listed(d), unusable).0;
            && Keyed(Remove(s1, d.address)) && Keyed(r) && r.kind == ReplicaSetWithPrimary
                && Keyed(AcceptPrimary(s1, d))
            && r.setName == u.setName == FirstOf(s.setName, d.setName)
            && Keyed(u) && u.kind == ReplicaSetWithPrimary && Remove(s1, d.address).kind == ReplicaSetWithPrimary
  {
    var s1, d := s.(kind := ReplicaSetWithPrimary), s.descs[id];
    assert Keyed(Reset(TakeName(s1, d), id));
    AcceptKeyed(s1, d);
    assert AcceptPrimary(s1, d).kind == ReplicaSetWithPrimary
        && AcceptPrimary(s1, d).setName == FirstOf(s.setName, d.setName);
    hide AcceptPrimary;
    AddKeyed(AcceptPrimary(s1, d), Listed(d), unusable);
    AddGrows(AcceptPrimary(s1, d), Listed(d), unusable);
    hide AddServers, Keyed;
  }

  lemma FromMemberKind(s: State, id: ServerId)
    requires Keyed(s) && id < |s.descs| && s.kind == ReplicaSetWithPrimary
    ensures var (t, o) := FromMember(s, id);
            Keyed(t) && (o == Done ==> t.kind == if HasPrimary(t) then ReplicaSetWithPrimary else ReplicaSetNoPrimary)
  {
    var d := s.descs[id];
    CheckedKind(Remove(s, d.address));
    CheckedKind(s);
    var c := CheckIfHasPrimary(s);
    MarkSamePrimaries(c, d);
    hide HasPrimary, MarkPossiblePrimary, CheckIfHasPrimary, Keyed;
  }

  lemma MarkSamePrimaries(s: State, d: Desc)
    requires Keyed(s)
    ensures var m := MarkPossiblePrimary(s, d);
            Keyed(m) && m.kind == s.kind && (HasPrimary(s) <==> HasPrimary(m))
  {
    var m := MarkPossiblePrimary(s, d);
    assert forall a | a in s.servers :: PrimaryAt(s, a) <==> PrimaryAt(m, a);
  }

  // ----- the set name -----

  /** A set name is taken only where there is none, from a primary or where no primary is known. */
  function NameAfter(s: State, d: Desc): Option<string> {
    if s.setName.None? && ((Open(s.kind) && d.kind == RSPrimary)
        || (Follower(d) && (s.kind == UnknownType || s.kind == ReplicaSetNoPrimary)))
    then d.setName else s.setName
  }

  lemma SetNameAfter(s: State, id: ServerId, unusable: set<Address>)
    requires Inv(s) && id < |s.descs|
    ensures Update(s, id, unusable).0.setName == NameAfter(s, s.descs[id])
  {
    var d := s.descs[id];
    assert Keyed(s);
    if d.kind == RSPrimary && Open(s.kind) {
      FromPrimaryName(s, id, unusable);
      hide Inv, Keyed, FromPrimary;
    } else if Follower(d) && (s.kind == UnknownType || s.kind == ReplicaSetNoPrimary) {
      WithoutPrimaryName(s, id, unusable);
      hide Inv, Keyed, WithoutPrimary;
    } else {
      MemberName(s, id);
      hide Inv, Keyed, FromMember;
    }
  }

  lemma FromPrimaryName(s: State, id: ServerId, unusable: set<Address>)
    requires Keyed(s) && id < |s.descs|
    ensures FromPrimary(s, id, unusable).0.setName == FirstOf(s.setName, s.descs[id].setName)
  {
    var s1, d := s.(kind := ReplicaSetWithPrimary), s.descs[id];
    FromPrimaryStates(s, id, unusable);
    hide AcceptPrimary, AddServers, Keyed, Reset, TakeName, Stale;
  }

  lemma WithoutPrimaryName(s: State, id: ServerId, unusable: set<Address>)
    requires Keyed(s) && id < |s.descs|
    ensures WithoutPrimary(s, id, unusable).0.setName == FirstOf(s.setName, s.descs[id].setName)
  {
    var s1, d := s.(kind := ReplicaSetNoPrimary), s.descs[id];
    if !NameMismatch(s1, d) {
      WithoutPrimaryCases(s, id, unusable);
      AddGrows(TakeName(s1, d), Listed(d), unusable);
      hide AddServers, WithoutPrimary, Listed;
    }
  }

  lemma MemberName(s: State, id: ServerId)
    requires Keyed(s) && id < |s.descs|
    ensures FromMember(s, id).0.setName == s.setName
  {
  }

  function FirstOf(a: Option<string>, b: Option<string>): Option<string> {
    if a.Some? then a else b
  }

  // ----- descriptions -----

  /** A follower that is believed marks the server it takes for primary, if nothing is known of that server. */
  predicate Marks(s: State, d: Desc) {
    && Follower(d)
    && (match s.kind
        case UnknownType | ReplicaSetNoPrimary => !NameMismatch(s, d)
        case ReplicaSetWithPrimary => s.setName == d.setName && d.me == Some(d.address)
        case _ => false)
  }

  /** The descriptions of the servers there were, after a report that is no accepted claim. */
  function DescAfter(s: State, d: Desc, i: ServerId): Desc
    requires i < |s.descs|
  {
    if Marks(s, d) && d.primary == Some(s.descs[i].address) && Tracked(s, i) && s.descs[i].kind == Unknown
    then s.descs[i].(kind := PossiblePrimary)
    else s.descs[i]
  }

  lemma MarkDescs(s: State, d: Desc, i: ServerId)
    requires Keyed(s) && i < |s.descs|
    ensures |MarkPossiblePrimary(s, d).descs| == |s.descs|
    ensures MarkPossiblePrimary(s, d).descs[i] ==
              if d.primary == Some(s.descs[i].address) && Tracked(s, i) && s.descs[i].kind == Unknown
              then s.descs[i].(kind := PossiblePrimary) else s.descs[i]
  {
  }

  /** After any report but a claim, a server's description is as before, unless a believed follower names it primary. */
  lemma DescriptionsAfter(s: State, id: ServerId, unusable: set<Address>, i: ServerId)
    requires Inv(s) && id < |s.descs| && i < |s.descs| && Update(s, id, unusable).1 == Done
    requires !(Open(s.kind) && s.descs[id].kind == RSPrimary)
    ensures var t := Update(s, id, unusable).0; i < |t.descs| && t.descs[i] == DescAfter(s, s.descs[id], i)
  {
    var d := s.descs[id];
    assert Keyed(s);
    if Follower(d) && (s.kind == UnknownType || s.kind == ReplicaSetNoPrimary) {
      WithoutPrimaryDescs(s, id, unusable, i);
      hide Inv, Keyed, WithoutPrimary, DescAfter;
    } else if Follower(d) && s.kind == ReplicaSetWithPrimary {
      FromMemberDescs(s, id, i);
      hide Inv, Keyed, FromMember, DescAfter;
    } else {
      CheckDescs(s, d.address);
      hide Inv, Keyed, CheckIfHasPrimary;
    }
  }

  lemma CheckDescs(s: State, a: Address)
    requires Keyed(s)
    ensures CheckIfHasPrimary(s).descs == s.descs && Remove(s, a).descs == s.descs
    ensures CheckIfHasPrimary(Remove(s, a)).descs == s.descs
  {
  }

  lemma WithoutPrimaryDescs(s: State, id: ServerId, unusable: set<Address>, i: ServerId)
    requires Keyed(s) && id < |s.descs| && i < |s.descs| && Follower(s.descs[id])
    requires s.kind == UnknownType || s.kind == ReplicaSetNoPrimary
    ensures var (t, o) := WithoutPrimary(s, id, unusable);
            o == Done ==> i < |t.descs| && t.descs[i] == DescAfter(s, s.descs[id], i)
  {
    var d := s.descs[id];
    if !NameMismatch(s, d) {
      var s2 := TakeName(s.(kind := ReplicaSetNoPrimary), d);
      var s3 := AddServers(s2, Listed(d), unusable).0;
      GrownDescs(s2, Listed(d), unusable, i);
      assert Tracked(s2, i) <==> Tracked(s, i);
      assert s2.descs == s.descs && Keyed(s2);
      hide AddServers, TakeName, MarkPossiblePrimary, Keyed, Tracked, Listed;
      MarkDescs(s3, d, i);
    }
  }

  lemma GrownDescs(s: State, addrs: seq<Address>, unusable: set<Address>, i: ServerId)
    requires Keyed(s) && i < |s.descs|
    ensures var t := AddServers(s, addrs, unusable).0;
            Keyed(t) && i < |t.descs| && t.descs[i] == s.descs[i] && (Tracked(t, i) <==> Tracked(s, i))
  {
    AddKeyed(s, addrs, unusable);
    AddGrows(s, addrs, unusable);
    hide AddServers;
    assert AddServers(s, addrs, unusable).0.descs[i] == s.descs[i];
  }

  lemma FromMemberDescs(s: State, id: ServerId, i: ServerId)
    requires Keyed(s) && id < |s.descs| && i < |s.descs| && Follower(s.descs[id]) && s.kind == ReplicaSetWithPrimary
    ensures var (t, o) := FromMember(s, id);
            o == Done ==> i < |t.descs| && t.descs[i] == DescAfter(s, s.descs[id], i)
  {
    var d := s.descs[id];
    var c := CheckIfHasPrimary(s);
    CheckDescs(s, d.address);
    CheckAddresses(s);
    assert Keyed(c) && (Tracked(c, i) <==> Tracked(s, i));
    MarkDescs(c, d, i);
    hide CheckIfHasPrimary, MarkPossiblePrimary, Keyed, Tracked;
  }

  // ----- heartbeats that say the same again -----

  lemma WithoutPrimaryOwn(s: State, id: ServerId, unusable: set<Address>)
    requires Keyed(s) && id < |s.descs| && s.descs[id].kind != Unknown
    ensures var t := WithoutPrimary(s, id, unusable).0; id < |t.descs| && t.descs[id] == s.descs[id]
  {
    var d := s.descs[id];
    if !NameMismatch(s.(kind := ReplicaSetNoPrimary), d) {
      var s2 := TakeName(s.(kind := ReplicaSetNoPrimary), d);
      assert Keyed(s2) && s2.descs == s.descs;
      WithoutPrimaryCases(s, id, unusable);
      hide AddServers, TakeName, MarkPossiblePrimary, Keyed, Listed, WithoutPrimary;
      GrownDescs(s2, Listed(d), unusable, id);
      MarkDescs(AddServers(s2, Listed(d), unusable).0, d, id);
    }
  }

  lemma FromMemberOwn(s: State, id: ServerId)
    requires Keyed(s) && id < |s.descs| && s.descs[id].kind != Unknown
    ensures var t := FromMember(s, id).0; id < |t.descs| && t.descs[id] == s.descs[id]
  {
    CheckDescs(s, s.descs[id].address);
    assert Keyed(CheckIfHasPrimary(s));
    MarkDescs(CheckIfHasPrimary(s), s.descs[id], id);
    hide CheckIfHasPrimary, MarkPossiblePrimary, Keyed;
  }

  /** An update leaves the reporter's own description as it is, or resets it. */
  lemma OwnDescription(s: State, id: ServerId, unusable: set<Address>)
    requires Inv(s) && id < |s.descs| && s.descs[id].kind != Unknown
    ensures var t := Update(s, id, unusable).0;
            id < |t.descs| && (t.descs[id] == s.descs[id] || t.descs[id] == DefaultDesc(s.descs[id].address))
  {
    var d := s.descs[id];
    assert Keyed(s);
    if Open(s.kind) && d.kind == RSPrimary {
      if NameMismatch(s, d) {
        MismatchedClaim(s, id, unusable);
      } else if Stale(s, d) {
        StaleClaim(s, id, unusable);
      } else {
        AcceptedClaim(s, id, unusable);
      }
      hide Update, Inv;
    } else {
      TableCases(s, id, unusable);
      CheckDescs(s, d.address);
      WithoutPrimaryOwn(s, id, unusable);
      FromMemberOwn(s, id);
      hide UpdateTable, Inv, Keyed, WithoutPrimary, FromMember, CheckIfHasPrimary;
    }
  }

  function Again(b: Beat, n: nat): seq<Beat> {
    if n == 0 then [] else [b] + Again(b, n - 1)
  }

  /** A heartbeat whose two wire versions differ triggers a topology update again however often it says the same,
      once it has triggered one. */
  lemma {:induction false} RepeatsAreReported(s: State, b: Beat, n: nat)
    requires Inv(s) && b.Answer? && b.id < |s.descs| && b.reply.minWire != b.reply.maxWire
    requires !Unchanged(s.descs[b.id], b.reply)
    ensures var t := RunBeats(s, Again(b, n));
            && Inv(t) && b.id < |t.descs| && !Unchanged(t.descs[b.id], b.reply)
            && Events(t, b) == [Replied(b.id, b.reply), Report(b.id, b.unusable)]
    decreases n
  {
    if n > 0 {
      RepeatReported(s, b);
      var t := Run(s, Events(s, b));
      assert Again(b, n)[0] == b && Again(b, n)[1..] == Again(b, n - 1);
      hide Run, Events, Inv, Unchanged;
      RepeatsAreReported(t, b, n - 1);
    }
  }

  lemma RepeatReported(s: State, b: Beat)
    requires Inv(s) && b.Answer? && b.id < |s.descs| && b.reply.minWire != b.reply.maxWire
    requires !Unchanged(s.descs[b.id], b.reply)
    ensures var t := Run(s, Events(s, b)); Inv(t) && b.id < |t.descs| && !Unchanged(t.descs[b.id], b.reply)
  {
    var (id, r) := (b.id, b.reply);
    RunLater(s, Events(s, b));
    TwoSteps(s, Replied(id, r), Report(id, b.unusable));
    MemberReply(s.descs[id], r);
    RepeatedReply(s.descs[id], r);
    var u := TakeReply(s, id, r);
    assert u.descs[id] == AfterReply(s.descs[id], r) && u.descs[id].kind == KindOf(r);
    assert !Unchanged(DefaultDesc(u.descs[id].address), r);
    OwnDescription(u, id, b.unusable);
    hide Run, Inv, Update, TakeReply, Unchanged;
  }

  // ----- how an update ends -----

  /** A server for the address is tracked, or one can be created. */
  predicate Reachable(s: State, unusable: set<Address>, a: Address) {
    a in s.servers || a !in unusable
  }

  /** Every listed server is created exactly when all missing ones can be, however often an address is listed. */
  lemma {:induction false} CreatesAll(s: State, addrs: seq<Address>, unusable: set<Address>)
    ensures AddServers(s, addrs, unusable).1 <==> forall i | 0 <= i < |addrs| :: Reachable(s, unusable, addrs[i])
    decreases |addrs|
  {
    if addrs != [] {
      var a, more := addrs[0], addrs[1..];
      var t := if a in s.servers then s
               else s.(servers := s.servers[a := |s.descs|], descs := s.descs + [DefaultDesc(a)]);
      if Reachable(s, unusable, a) {
        CreatesAll(t, more, unusable);
        assert forall i | 0 <= i < |more| :: more[i] == addrs[i + 1];
        assert forall i | 0 < i < |addrs| :: addrs[i] == more[i - 1];
        forall b ensures Reachable(t, unusable, b) <==> Reachable(s, unusable, b) { }
      }
    }
  }

  predicate AllReachable(s: State, unusable: set<Address>, addrs: seq<Address>) {
    forall i | 0 <= i < |addrs| :: Reachable(s, unusable, addrs[i])
  }

  /** A follower's report that gets as far as the servers it lists. */
  predicate ListsServers(s: State, d: Desc) {
    Follower(d) && (s.kind == UnknownType || s.kind == ReplicaSetNoPrimary) && !NameMismatch(s, d)
  }

  /** An update fails exactly when it comes to creating the listed servers and one cannot be created. It panics exactly
      when it comes to comparing a follower's missing `me` with its address. */
  lemma EndsExactly(s: State, id: ServerId, unusable: set<Address>)
    requires Keyed(s) && id < |s.descs|
    ensures var d, o := s.descs[id], Update(s, id, unusable).1;
            && (o == Failed <==> (Accepted(s, d) || ListsServers(s, d)) && !AllReachable(s, unusable, Listed(d)))
            && (o == Panicked <==>
                  && Follower(d) && d.me.None?
                  && ((ListsServers(s, d) && AllReachable(s, unusable, Listed(d)))
                      || (s.kind == ReplicaSetWithPrimary && s.setName == d.setName)))
  {
    BranchesEnd(s, id, unusable);
    TableEnds(s, id, unusable);
    hide UpdateTable, FromPrimary, WithoutPrimary, FromMember, Keyed, AllReachable, NameMismatch, Stale, Listed;
  }

  lemma TableEnds(s: State, id: ServerId, unusable: set<Address>)
    requires Keyed(s) && id < |s.descs|
    ensures var k, o := s.descs[id].kind, UpdateTable(s, id, unusable).1;
            o == if Open(s.kind) && k == RSPrimary then FromPrimary(s, id, unusable).1
                 else if Follower(s.descs[id]) && s.kind == ReplicaSetWithPrimary then FromMember(s, id).1
                 else if Follower(s.descs[id]) && Open(s.kind) then WithoutPrimary(s, id, unusable).1
                 else Done
  {
    hide FromPrimary, WithoutPrimary, FromMember, CheckIfHasPrimary, Keyed;
  }

  /** The same for the three branches that can end early. */
  lemma BranchesEnd(s: State, id: ServerId, unusable: set<Address>)
    requires Keyed(s) && id < |s.descs|
    ensures var d, all := s.descs[id], AllReachable(s, unusable, Listed(s.descs[id]));
            && FromPrimary(s, id, unusable).1
                == (if !NameMismatch(s, d) && !Stale(s, d) && !all then Failed else Done)
            && WithoutPrimary(s, id, unusable).1
                == (if NameMismatch(s, d) then Done else if !all then Failed else if d.me.None? then Panicked else Done)
            && FromMember(s, id).1 == (if s.setName == d.setName && d.me.None? then Panicked else Done)
  {
    var d := s.descs[id];
    var r, n := s.(kind := ReplicaSetWithPrimary), s.(kind := ReplicaSetNoPrimary);
    CreatesAll(AcceptPrimary(r, d), Listed(d), unusable);
    CreatesAll(TakeName(n, d), Listed(d), unusable);
    RetainedReachable(s, AcceptPrimary(r, d), unusable, d);
    assert TakeName(n, d).servers == s.servers;
    hide Listed, AcceptPrimary, AddServers, CheckIfHasPrimary, MarkPossiblePrimary, Keyed, TakeName;
  }

  /** Only addresses that are not listed are let go. */
  lemma RetainedReachable(s: State, t: State, unusable: set<Address>, d: Desc)
    requires t == AcceptPrimary(s.(kind := ReplicaSetWithPrimary), d)
    ensures AllReachable(t, unusable, Listed(d)) <==> AllReachable(s, unusable, Listed(d))
  {
    forall i | 0 <= i < |Listed(d)|
      ensures Reachable(t, unusable, Listed(d)[i]) <==> Reachable(s, unusable, Listed(d)[i]) {
      assert Listed(d)[i] in Listed(d);
    }
  }
}
