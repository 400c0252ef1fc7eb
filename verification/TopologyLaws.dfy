/** What single topology updates mean: who may claim to be primary, which servers are tracked afterwards, and when the
    topology's type tells the truth. */
module TopologyLaws {
  import opened Sdam
  import opened Topology
  import opened TopologyInvariant
  import opened TopologyRuns

  /** Whether a topology of this type looks at primaries at all. */
  predicate Open(k: TopologyType) {
    k == UnknownType || ReplicaSet(k)
  }

  predicate Accepted(s: State, d: Desc) {
    Open(s.kind) && d.kind == RSPrimary && !NameMismatch(s, d) && !Stale(s, d)
  }

  /** Set versions only rise: a claim accepted while no election id is recorded can stay below the record. */
  predicate Hole(s: State, d: Desc) {
    && d.setVersion.Some? && d.electionId.Some?
    && s.maxSetVersion.Some? && s.maxElectionId.None? && d.setVersion.value < s.maxSetVersion.value
  }

  /** No description turns into a primary's, and a primary's stays as it is. */
  predicate NoPromotion(s: State, t: State) {
    forall i | 0 <= i < |t.descs| && t.descs[i].kind == RSPrimary :: i < |s.descs| && t.descs[i] == s.descs[i]
  }

  // ----- claims -----

  /** A reporter of another set is no longer tracked. */
  lemma MismatchedClaim(s: State, id: ServerId, unusable: set<Address>)
    requires Inv(s) && id < |s.descs| && Open(s.kind) && s.descs[id].kind == RSPrimary && NameMismatch(s, s.descs[id])
    ensures var (t, o) := Update(s, id, unusable);
            && o == Done && Keyed(t) && t.descs == s.descs
            && t.servers.Keys == s.servers.Keys - {s.descs[id].address}
            && t.maxSetVersion == s.maxSetVersion && t.maxElectionId == s.maxElectionId
            && t.unsettled == s.unsettled - {id}
  {
    assert Keyed(s);
    hide Inv;
  }

  /** A stale claimant is forgotten but for its address, and nothing else changes. */
  lemma StaleClaim(s: State, id: ServerId, unusable: set<Address>)
    requires Inv(s) && id < |s.descs| && Open(s.kind) && s.descs[id].kind == RSPrimary
    requires !NameMismatch(s, s.descs[id]) && Stale(s, s.descs[id])
    ensures var (t, o) := Update(s, id, unusable);
            && o == Done && Keyed(t) && t.servers == s.servers
                && t.descs == s.descs[id := DefaultDesc(s.descs[id].address)]
            && t.maxSetVersion == s.maxSetVersion && t.maxElectionId == s.maxElectionId
            && t.unsettled == s.unsettled - {id}
  {
    var s1 := s.(kind := ReplicaSetWithPrimary);
    assert Keyed(s) && Keyed(s1) && Stale(s1, s.descs[id]) && !NameMismatch(s1, s.descs[id]);
    assert Update(s, id, unusable).0
        == FromPrimary(s, id, unusable).0.(unsettled := s.unsettled - {id}) by { hide FromPrimary, Inv; }
    hide Inv, Stale, NameMismatch, Update;
  }

  /** What an accepted claim leaves: the creation of servers may fail halfway. */
  lemma AcceptedParts(s: State, id: ServerId, unusable: set<Address>)
    requires Inv(s) && id < |s.descs| && Accepted(s, s.descs[id])
    ensures var (t, o) := Update(s, id, unusable);
            var r := AcceptPrimary(s.(kind := ReplicaSetWithPrimary), s.descs[id]);
            var (u, ok) := AddServers(r, Listed(s.descs[id]), unusable);
            && Keyed(r) && Keyed(u) && Grows(r, u)
            && o == (if ok then Done else Failed)
            && t == (if ok then CheckIfHasPrimary(u) else u).(unsettled := s.unsettled - {id})
  {
    assert Keyed(s);
    var d := s.descs[id];
    var s1 := s.(kind := ReplicaSetWithPrimary);
    var r := AcceptPrimary(s1, d);
    assert !Stale(s1, d) && !NameMismatch(s1, d);
    AcceptKeyed(s1, d);
    AddKeyed(r, Listed(d), unusable);
    AddGrows(r, Listed(d), unusable);
    assert r.unsettled == s.unsettled;
    hide Inv, Stale, AcceptPrimary, AddServers, NameMismatch;
  }

  /** The reporter's claim is on record exactly when it fills no hole; a reporter that is tracked and names itself stays
      the only tracked primary. */
  lemma AcceptedClaim(s: State, id: ServerId, unusable: set<Address>)
    requires Inv(s) && id < |s.descs| && Accepted(s, s.descs[id])
    ensures var (t, o) := Update(s, id, unusable);
            var d := s.descs[id];
            && Keyed(t) && id < |t.descs| && t.descs[id] == d
            && (d.setVersion.Some? && d.electionId.Some? ==>
                  ((t.maxSetVersion, t.maxElectionId) == (d.setVersion, d.electionId) <==> !Hole(s, d)))
            && (Stale(t, d) <==> Hole(s, d))
            && Leq(s.maxSetVersion, t.maxSetVersion) && Leq(d.setVersion, t.maxSetVersion)
            && (t.maxSetVersion == s.maxSetVersion || t.maxSetVersion == d.setVersion)
            && t.maxElectionId == (if d.setVersion.Some? && d.electionId.Some? then d.electionId else s.maxElectionId)
            && (forall a | a in t.servers && PrimaryAt(t, a) ::
                  a == d.address && a in s.servers && t.servers[a] == s.servers[a])
            && (Tracked(t, id) <==> Tracked(s, id) && d.address in Listed(d))
  {
    AcceptedParts(s, id, unusable);
    var d := s.descs[id];
    var s1 := s.(kind := ReplicaSetWithPrimary);
    var r := AcceptPrimary(s1, d);
    AcceptFrame(s1, id);
    var (t, o) := Update(s, id, unusable);
    assert t.maxSetVersion == r.maxSetVersion && t.maxElectionId == r.maxElectionId;
    assert t.descs[id] == r.descs[id];
    hide Update, AcceptPrimary, AddServers, Inv;
  }

  lemma AcceptFrame(s: State, id: ServerId)
    requires Keyed(s) && id < |s.descs| && s.descs[id].kind == RSPrimary
    ensures var d := s.descs[id];
            var r := AcceptPrimary(s, d);
            && Keyed(r)
            && r.descs[id] == d
            && |r.descs| == |s.descs|
            && (forall i | 0 <= i < |s.descs| && (s.descs[i].address == d.address || s.descs[i].kind != RSPrimary) ::
                  r.descs[i] == s.descs[i])
            && r.servers.Keys == (set a | a in s.servers && a in Listed(d))
            && (forall a | a in r.servers :: r.servers[a] == s.servers[a])
            && (forall a | a in r.servers && PrimaryAt(r, a) :: a == d.address)
            && NoPromotion(s, r)
            && Record(s, d).maxSetVersion == r.maxSetVersion && Record(s, d).maxElectionId == r.maxElectionId
  {
    var d := s.descs[id];
    var p := Record(TakeName(s, d), d);
    assert p == s.(setName := p.setName, maxSetVersion := p.maxSetVersion, maxElectionId := p.maxElectionId);
    assert Record(s, d).maxSetVersion == p.maxSetVersion && Record(s, d).maxElectionId == p.maxElectionId;
    InvalidateFrame(p, d.address);
    hide InvalidateOthers, Record, TakeName;
  }

  lemma InvalidateFrame(s: State, a: Address)
    requires Keyed(s)
    ensures var t := InvalidateOthers(s, a);
            && t == s.(descs := t.descs) && |t.descs| == |s.descs|
            && (forall i | 0 <= i < |s.descs| :: t.descs[i].address == s.descs[i].address)
            && (forall i | 0 <= i < |s.descs| && (s.descs[i].address == a || s.descs[i].kind != RSPrimary) ::
                  t.descs[i] == s.descs[i])
            && (forall i | 0 <= i < |s.descs| && t.descs[i].kind == RSPrimary :: t.descs[i] == s.descs[i])
            && (forall b | b in s.servers && t.descs[s.servers[b]].kind == RSPrimary :: b == a)
  {
  }

  // ----- tracked servers -----

  /** After an accepted report that could create its servers exactly the hosts, passives and arbiters it lists are
      tracked; servers that were tracked already are the same ones, and the others start afresh. */
  lemma AcceptedAddresses(s: State, id: ServerId, unusable: set<Address>)
    requires Inv(s) && id < |s.descs| && Accepted(s, s.descs[id])
    requires Update(s, id, unusable).1 == Done
    ensures var t := Update(s, id, unusable).0;
            && Keyed(t)
            && t.servers.Keys == (set a | a in Listed(s.descs[id]))
            && (forall a | a in t.servers && a in s.servers :: t.servers[a] == s.servers[a])
            && (forall a | a in t.servers && a !in s.servers :: t.servers[a] >= |s.descs| && At(t, a) == DefaultDesc(a))
  {
    var d := s.descs[id];
    var s1 := s.(kind := ReplicaSetWithPrimary);
    var r := AcceptPrimary(s1, d);
    AcceptedParts(s, id, unusable);
    AddGrows(r, Listed(d), unusable);
    AcceptFrame(s1, id);
    var t := Update(s, id, unusable).0;
    assert t.servers == AddServers(r, Listed(d), unusable).0.servers
        && t.descs == AddServers(r, Listed(d), unusable).0.descs;
    assert |r.descs| == |s.descs|;
    hide Update, AcceptPrimary, AddServers, Inv;
    assert forall a | a in t.servers && a !in s.servers :: a !in r.servers;
    assert forall a | a in t.servers && a in s.servers :: a in r.servers;
  }

  /** At most the server at one address is removed, no primary appears, and the record stays. */
  predicate Quiet(s: State, t: State, gone: Address) {
    && (forall a | a in s.servers && a != gone :: a in t.servers && t.servers[a] == s.servers[a])
    && NoPromotion(s, t)
    && t.maxSetVersion == s.maxSetVersion && t.maxElectionId == s.maxElectionId && t.unsettled == s.unsettled
  }

  lemma QuietTwice(s: State, t: State, u: State, gone: Address)
    requires Quiet(s, t, gone) && Quiet(t, u, gone)
    ensures Quiet(s, u, gone)
  {
  }

  lemma RemoveQuiet(s: State, gone: Address)
    requires Keyed(s)
    ensures Quiet(s, Remove(s, gone), gone)
    ensures Quiet(s, CheckIfHasPrimary(Remove(s, gone)), gone)
  {
  }

  lemma GrownQuiet(s: State, addrs: seq<Address>, unusable: set<Address>, gone: Address)
    ensures Quiet(s, AddServers(s, addrs, unusable).0, gone)
  {
    AddGrows(s, addrs, unusable);
    var t := AddServers(s, addrs, unusable).0;
    assert forall i | 0 <= i < |s.descs| :: t.descs[i] == s.descs[i];
  }

  lemma MarkQuiet(s: State, d: Desc, gone: Address)
    requires Keyed(s)
    ensures Quiet(s, MarkPossiblePrimary(s, d), gone)
  {
  }

  lemma WithoutPrimaryQuiet(s: State, id: ServerId, unusable: set<Address>)
    requires Keyed(s) && id < |s.descs|
    ensures Quiet(s, WithoutPrimary(s, id, unusable).0, s.descs[id].address)
  {
    var d := s.descs[id];
    var gone := d.address;
    var s1 := s.(kind := ReplicaSetNoPrimary);
    RemoveQuiet(s1, gone);
    assert Quiet(s, s1, gone);
    if NameMismatch(s1, d) {
      hide Quiet, Keyed, Remove;
      QuietTwice(s, s1, Remove(s1, gone), gone);
    } else {
      var s2 := TakeName(s1, d);
      var s3 := AddServers(s2, Listed(d), unusable).0;
      WithoutPrimaryCases(s, id, unusable);
      var s4 := MarkPossiblePrimary(s3, d);
      assert Quiet(s1, s2, gone);
      GrownQuiet(s2, Listed(d), unusable, gone);
      MarkQuiet(s3, d, gone);
      MarkKeeps(s3, d);
      RemoveQuiet(s4, gone);
      hide *;
      QuietTwice(s, s1, s2, gone);
      QuietTwice(s, s2, s3, gone);
      QuietTwice(s, s3, s4, gone);
      QuietTwice(s, s4, Remove(s4, gone), gone);
    }
  }

  lemma FromMemberQuiet(s: State, id: ServerId)
    requires Keyed(s) && id < |s.descs|
    ensures Quiet(s, FromMember(s, id).0, s.descs[id].address)
  {
    var d := s.descs[id];
    RemoveQuiet(s, d.address);
    var c := CheckIfHasPrimary(s);
    assert Quiet(s, s, d.address) && Quiet(s, c, d.address);
    MarkQuiet(c, d, d.address);
    assert Keyed(c);
    hide Quiet, MarkPossiblePrimary, Remove, CheckIfHasPrimary, Keyed;
    QuietTwice(s, c, MarkPossiblePrimary(c, d), d.address);
  }

  /** What a report that claims nothing comes to. */
  lemma TableCases(s: State, id: ServerId, unusable: set<Address>)
    requires Keyed(s) && id < |s.descs| && !(Open(s.kind) && s.descs[id].kind == RSPrimary)
    ensures var (t, r) := (UpdateTable(s, id, unusable).0, Remove(s, s.descs[id].address));
            || t == s || t == s.(kind := Single) || t == s.(kind := Sharded)
            || t == CheckIfHasPrimary(s) || t == r || t == CheckIfHasPrimary(r)
            || t == WithoutPrimary(s, id, unusable).0 || t == FromMember(s, id).0
  {
    hide CheckIfHasPrimary, Remove, WithoutPrimary, FromMember, Keyed;
  }

  lemma TableQuiet(s: State, id: ServerId, unusable: set<Address>)
    requires Keyed(s) && id < |s.descs| && !(Open(s.kind) && s.descs[id].kind == RSPrimary)
    ensures Quiet(s, UpdateTable(s, id, unusable).0, s.descs[id].address)
  {
    hide *;
    TableCases(s, id, unusable);
    KindQuiet(s, s.descs[id].address);
    RemoveQuiet(s, s.descs[id].address);
    WithoutPrimaryQuiet(s, id, unusable);
    FromMemberQuiet(s, id);
  }

  lemma KindQuiet(s: State, gone: Address)
    requires Keyed(s)
    ensures Quiet(s, s, gone) && Quiet(s, s.(kind := Single), gone) && Quiet(s, s.(kind := Sharded), gone)
    ensures Quiet(s, CheckIfHasPrimary(s), gone)
  {
  }

  /** A report that is no accepted claim removes at most the server at the reporter's address, makes no primary and
      leaves the record alone. */
  lemma OtherReports(s: State, id: ServerId, unusable: set<Address>)
    requires Inv(s) && id < |s.descs| && !Accepted(s, s.descs[id])
    ensures Quiet(s, Update(s, id, unusable).0.(unsettled := s.unsettled), s.descs[id].address)
    ensures Update(s, id, unusable).0.unsettled == s.unsettled - {id}
    ensures var t := Update(s, id, unusable).0; Open(s.kind) && Tracked(t, id) ==> t.descs[id].kind != RSPrimary
  {
    var d := s.descs[id];
    assert Keyed(s);
    if Open(s.kind) && d.kind == RSPrimary {
      if NameMismatch(s, d) { MismatchedClaim(s, id, unusable); } else { StaleClaim(s, id, unusable); }
      hide Update, Inv, Keyed;
    } else {
      TableQuiet(s, id, unusable);
      hide UpdateTable, Keyed, Inv;
    }
  }

  // ----- when the topology's type tells the truth -----

  /** After a completed update outside `Single`, once every reply has been reported, the topology is one with primary
      exactly when a tracked server is a primary. The one exception: a server set aside as possible primary reports
      after the last primary has failed, which the table does not look at. */
  lemma TypeTellsTruth(s: State, id: ServerId, unusable: set<Address>)
    requires Inv(s) && id < |s.descs|
    requires var (t, o) := Update(s, id, unusable); o == Done && t.unsettled == {} && t.kind != Single
    ensures var t := Update(s, id, unusable).0;
            && Keyed(t)
            && ((t.kind == ReplicaSetWithPrimary <==> HasPrimary(t))
                <==> !(s.kind == ReplicaSetWithPrimary && s.descs[id].kind == PossiblePrimary && !HasPrimary(s)))
  {
    UpdateInv(s, id, unusable);
    var t := Update(s, id, unusable).0;
    assert HasPrimary(t) ==> t.kind == ReplicaSetWithPrimary by {
      if HasPrimary(t) {
        var a :| a in t.servers && PrimaryAt(t, a);
        assert SettledPrimary(t, a);
      }
    }
    if t.kind == ReplicaSetWithPrimary { WithPrimaryHasOne(s, id, unusable); }
    assert s.kind == ReplicaSetWithPrimary && s.descs[id].kind == PossiblePrimary ==>
        t == s.(unsettled := t.unsettled) && (HasPrimary(t) <==> HasPrimary(s)) by {
      if s.kind == ReplicaSetWithPrimary && s.descs[id].kind == PossiblePrimary { SameServers(s, t); }
    }
    hide Update, Inv;
  }

  lemma SameServers(s: State, t: State)
    requires Keyed(s) && t == s.(kind := t.kind, unsettled := t.unsettled)
    ensures Keyed(t) && (HasPrimary(t) <==> HasPrimary(s))
  {
    assert forall a | a in s.servers :: PrimaryAt(t, a) <==> PrimaryAt(s, a);
  }

  /** After any other completed update a topology with primary has one, settled or not. */
  lemma WithPrimaryHasOne(s: State, id: ServerId, unusable: set<Address>)
    requires Inv(s) && id < |s.descs|
    requires var (t, o) := Update(s, id, unusable); o == Done && t.kind == ReplicaSetWithPrimary
    ensures Keyed(Update(s, id, unusable).0)
    ensures s.descs[id].kind != PossiblePrimary ==> HasPrimary(Update(s, id, unusable).0)
  {
    UpdateInv(s, id, unusable);
    var (u, o) := UpdateTable(s, id, unusable);
    TableInv(s, id, unusable);
    SameServers(u, Update(s, id, unusable).0);
    if s.descs[id].kind != PossiblePrimary { TableHasOne(s, id, unusable); }
    hide UpdateTable, Inv;
  }

  lemma CheckedHasOne(s: State)
    requires Keyed(s)
    ensures var t := CheckIfHasPrimary(s); Keyed(t) && (t.kind == ReplicaSetWithPrimary ==> HasPrimary(t))
  {
    SameServers(s, CheckIfHasPrimary(s));
  }

  lemma TableHasOne(s: State, id: ServerId, unusable: set<Address>)
    requires Inv(s) && id < |s.descs| && s.descs[id].kind != PossiblePrimary
    requires var (t, o) := UpdateTable(s, id, unusable); o == Done && t.kind == ReplicaSetWithPrimary && Keyed(t)
    ensures HasPrimary(UpdateTable(s, id, unusable).0)
  {
    assert Keyed(s);
    if Open(s.kind) && s.descs[id].kind == RSPrimary {
      FromPrimaryHasOne(s, id, unusable);
      hide Inv, Keyed, HasPrimary, FromPrimary;
    } else {
      OtherHasOne(s, id, unusable);
      hide *;
    }
  }

  lemma OtherHasOne(s: State, id: ServerId, unusable: set<Address>)
    requires Inv(s) && id < |s.descs| && s.descs[id].kind != PossiblePrimary
              && !(Open(s.kind) && s.descs[id].kind == RSPrimary)
    requires var (t, o) := UpdateTable(s, id, unusable); o == Done && t.kind == ReplicaSetWithPrimary && Keyed(t)
    ensures HasPrimary(UpdateTable(s, id, unusable).0)
  {
    var d := s.descs[id];
    assert Keyed(s);
    if s.kind == ReplicaSetWithPrimary {
      CheckedHasOne(s);
      CheckedHasOne(Remove(s, d.address));
      MemberHasOne(s, id);
      hide Inv, Keyed, CheckIfHasPrimary, HasPrimary, FromMember, Remove;
    } else {
      WithoutPrimaryKeeps(s, id, unusable);
      hide Inv, Keyed, HasPrimary, WithoutPrimary, Keeps;
    }
  }

  lemma FromPrimaryHasOne(s: State, id: ServerId, unusable: set<Address>)
    requires Keyed(s) && id < |s.descs|
    ensures var (t, o) := FromPrimary(s, id, unusable);
            Keyed(t) && (o == Done && t.kind == ReplicaSetWithPrimary ==> HasPrimary(t))
  {
    var d := s.descs[id];
    var s1 := s.(kind := ReplicaSetWithPrimary);
    CheckedHasOne(Remove(s1, d.address));
    var r := Reset(TakeName(s1, d), id);
    assert Keyed(r);
    CheckedHasOne(r);
    AcceptKeyed(s1, d);
    AddKeyed(AcceptPrimary(s1, d), Listed(d), unusable);
    var u := AddServers(AcceptPrimary(s1, d), Listed(d), unusable).0;
    CheckedHasOne(u);
    hide HasPrimary, Keyed, AcceptPrimary, CheckIfHasPrimary, Reset, TakeName, Remove, Stale, NameMismatch, AddServers;
  }

  lemma MemberHasOne(s: State, id: ServerId)
    requires Keyed(s) && id < |s.descs|
    ensures var (t, o) := FromMember(s, id);
            Keyed(t) && (o == Done && t.kind == ReplicaSetWithPrimary ==> HasPrimary(t))
  {
    var d := s.descs[id];
    CheckedHasOne(Remove(s, d.address));
    CheckedHasOne(s);
    MarkHasOne(CheckIfHasPrimary(s), d);
    hide HasPrimary, MarkPossiblePrimary, CheckIfHasPrimary, Keyed, Remove;
  }

  lemma MarkHasOne(s: State, d: Desc)
    requires Keyed(s)
    ensures var m := MarkPossiblePrimary(s, d);
            Keyed(m) && m.kind == s.kind && (HasPrimary(s) ==> HasPrimary(m))
  {
    var m := MarkPossiblePrimary(s, d);
    assert forall a | a in s.servers && PrimaryAt(s, a) :: a in m.servers && PrimaryAt(m, a);
  }

  // ----- heartbeats that nothing comes between -----

  /** A heartbeat: the reply, and at once the topology update if it changes the description; or a failure. */
  datatype Beat = Answer(id: ServerId, reply: Reply, unusable: set<Address>) | NoAnswer(id: ServerId)

  function Events(s: State, b: Beat): seq<Event> {
    match b
    case NoAnswer(id) => [Failure(id)]
    case Answer(id, r, unusable) =>
      if id < |s.descs| && Unchanged(s.descs[id], r) then [Replied(id, r)] else [Replied(id, r), Report(id, unusable)]
  }

  /** What clients see of a topology: outside `Single` at most one tracked primary, none unless the type says so. */
  predicate Visible(s: State)
    requires Keyed(s)
  {
    && (forall a | a in s.servers :: PrimaryAt(s, a) ==> s.kind == Single || s.kind == ReplicaSetWithPrimary)
    && (forall a, b | a in s.servers && b in s.servers ::
          PrimaryAt(s, a) && PrimaryAt(s, b) ==> s.kind == Single || a == b)
  }

  lemma TwoSteps(s: State, a: Event, b: Event)
    requires Inv(s)
    ensures Inv(Step(s, a)) && Inv(Step(Step(s, a), b))
    ensures Run(s, [a]) == Step(s, a) && Run(s, [a, b]) == Step(Step(s, a), b)
  {
    StepInv(s, a);
    StepInv(Step(s, a), b);
    assert [a][1..] == [] && [b][1..] == [] && [a, b][1..] == [b];
    hide Step, DescsOk, ConsistentBut, OnePrimary;
    assert Run(Step(s, a), [b]) == Step(Step(s, a), b);
  }

  /** After a heartbeat everything is settled; when it was reported in full, the type tells whether there is a
      primary. */
  lemma BeatSettles(s: State, b: Beat)
    requires Inv(s) && s.unsettled == {}
    ensures var t := Run(s, Events(s, b)); Inv(t) && t.unsettled == {} && Visible(t)
    ensures b.Answer? && b.id < |s.descs| && !Unchanged(s.descs[b.id], b.reply) ==>
              var (t, o) := Update(TakeReply(s, b.id, b.reply), b.id, b.unusable);
              && t == Run(s, Events(s, b))
              && (o == Done && t.kind != Single ==> (t.kind == ReplicaSetWithPrimary <==> HasPrimary(t)))
  {
    if b.id >= |s.descs| {
      TwoSteps(s, Failure(b.id), Failure(b.id));
      if b.Answer? { TwoSteps(s, Replied(b.id, b.reply), Report(b.id, b.unusable)); }
      SettledVisible(s);
      return;
    }
    match b
    case NoAnswer(id) =>
      TwoSteps(s, Failure(id), Failure(id));
      SettledVisible(TakeFailure(s, id));
      hide Inv, Update;
    case Answer(id, r, unusable) =>
      var t := TakeReply(s, id, r);
      TwoSteps(s, Replied(id, r), Report(id, unusable));
      MemberReply(s.descs[id], r);
      assert t.descs[id].kind != PossiblePrimary && |t.descs| == |s.descs|;
      if Unchanged(s.descs[id], r) {
        assert t.unsettled == {};
        SettledVisible(t);
        hide Inv, Update, Unchanged, TakeReply;
      } else {
        assert t.unsettled == {id};
        var (u, o) := Update(t, id, unusable);
        AllSettled(t, id, unusable);
        SettledVisible(u);
        hide Inv, Update, Unchanged, TakeReply;
        if o == Done && u.kind != Single { TypeTellsTruth(t, id, unusable); }
      }
  }

  lemma AllSettled(s: State, id: ServerId, unusable: set<Address>)
    requires Inv(s) && id < |s.descs| && s.unsettled == {id}
    ensures var t := Update(s, id, unusable).0; Inv(t) && t.unsettled == {}
  {
    UpdateInv(s, id, unusable);
    TableUnsettled(s, id, unusable);
    hide UpdateTable, Inv;
  }

  lemma TableUnsettled(s: State, id: ServerId, unusable: set<Address>)
    requires Inv(s) && id < |s.descs|
    ensures Update(s, id, unusable).0.unsettled == s.unsettled - {id}
  {
    if Accepted(s, s.descs[id]) {
      AcceptedParts(s, id, unusable);
      hide Update, Inv, AddServers;
    } else {
      OtherReports(s, id, unusable);
    }
  }

  lemma SettledVisible(s: State)
    requires Inv(s) && s.unsettled == {}
    ensures Visible(s)
  {
    assert forall a | a in s.servers && PrimaryAt(s, a) :: SettledPrimary(s, a);
  }

  ghost function RunBeats(s: State, beats: seq<Beat>): State
    requires Inv(s)
    decreases |beats|
  {
    if beats == [] then s else RunLater(s, Events(s, beats[0])); RunBeats(Run(s, Events(s, beats[0])), beats[1..])
  }

  /** Heartbeats one after the other, of servers known from the start or found on the way: what clients see is always
      consistent. */
  lemma {:induction false} BeatsVisible(s: State, beats: seq<Beat>)
    requires Inv(s) && s.unsettled == {}
    ensures var t := RunBeats(s, beats); Inv(t) && t.unsettled == {} && Visible(t)
    decreases |beats|
  {
    SettledVisible(s);
    if beats != [] {
      BeatSettles(s, beats[0]);
      RunLater(s, Events(s, beats[0]));
      hide Inv, Visible, Events, Run;
      BeatsVisible(Run(s, Events(s, beats[0])), beats[1..]);
    }
  }

  // ----- stale primaries -----

  /** Outside `Single` no settled primary's claim is below the record. */
  predicate Current(s: State)
    requires Keyed(s)
  {
    s.kind != Single ==> forall a | a in s.servers && SettledPrimary(s, a) :: !Stale(s, At(s, a))
  }

  /** The server tracked at the reporter's address stays a settled primary, with a claim below the new record. It may
      be the reporter itself, or the server that took the place of a removed one whose monitor still reports. */
  predicate Overtakes(s: State, id: ServerId)
    requires Keyed(s) && id < |s.descs|
  {
    var d := s.descs[id];
    && d.address in s.servers && d.address in Listed(d)
    && (s.servers[d.address] == id || s.servers[d.address] !in s.unsettled)
    && At(s, d.address).kind == RSPrimary
    && Stale(Record(s, d), At(s, d.address))
  }

  /** No accepted claim overtakes the server at its own address. */
  predicate Orderly(s: State, e: Event)
    requires Keyed(s)
  {
    e.Report? && e.id < |s.descs| && Accepted(s, s.descs[e.id]) ==> !Overtakes(s, e.id)
  }

  /** An accepted claim, of whatever reporter, leaves no stale primary exactly when it does not overtake the server at
      its own address. */
  lemma AcceptedCurrent(s: State, id: ServerId, unusable: set<Address>)
    requires Inv(s) && id < |s.descs| && Accepted(s, s.descs[id])
    ensures var t := Update(s, id, unusable).0; Keyed(t) && (Current(t) <==> !Overtakes(s, id))
  {
    var (t, o) := Update(s, id, unusable);
    var d := s.descs[id];
    AcceptedClaim(s, id, unusable);
    AcceptedHolder(s, id, unusable);
    hide Update, Inv, Stale, Record, Accepted, Listed;
    if d.address in t.servers && SettledPrimary(t, d.address) {
      assert PrimaryAt(t, d.address);
    }
  }

  /** What becomes of the server at the address of an accepted reporter. */
  lemma AcceptedHolder(s: State, id: ServerId, unusable: set<Address>)
    requires Inv(s) && id < |s.descs| && Accepted(s, s.descs[id])
    ensures var t := Update(s, id, unusable).0;
            var d := s.descs[id];
            && Keyed(t) && t.kind != Single && t.unsettled == s.unsettled - {id}
            && (forall x :: Stale(t, x) == Stale(Record(s, d), x))
            && (d.address in s.servers ==> (d.address in t.servers <==> d.address in Listed(d)))
            && (d.address in s.servers && d.address in t.servers ==>
                  t.servers[d.address] == s.servers[d.address] && At(t, d.address) == At(s, d.address))
  {
    AcceptedParts(s, id, unusable);
    var d := s.descs[id];
    var s1 := s.(kind := ReplicaSetWithPrimary);
    var r := AcceptPrimary(s1, d);
    var u := AddServers(r, Listed(d), unusable).0;
    AcceptFrame(s1, id);
    AddGrows(r, Listed(d), unusable);
    var t := Update(s, id, unusable).0;
    assert r.kind == ReplicaSetWithPrimary && t.kind != Single;
    assert t.servers == u.servers && t.descs == u.descs;
    assert t.maxSetVersion == Record(s1, d).maxSetVersion && t.maxElectionId == Record(s1, d).maxElectionId;
    assert Record(s1, d).maxSetVersion == Record(s, d).maxSetVersion
        && Record(s1, d).maxElectionId == Record(s, d).maxElectionId;
    assert forall i | 0 <= i < |r.descs| :: u.descs[i] == r.descs[i];
    hide Update, AcceptPrimary, AddServers, Inv, Record;
  }

  /** Of a tracked reporter that lists itself, exactly a claim that fills a hole overtakes. */
  lemma HoleOvertakes(s: State, id: ServerId)
    requires Inv(s) && id < |s.descs| && Accepted(s, s.descs[id]) && Tracked(s, id)
    ensures Overtakes(s, id) <==> s.descs[id].address in Listed(s.descs[id]) && Hole(s, s.descs[id])
  {
    hide Inv;
  }

  lemma OtherCurrent(s: State, t: State, id: ServerId)
    requires Inv(s) && Current(s) && id < |s.descs| && !Accepted(s, s.descs[id])
    requires Inv(t) && t.unsettled == s.unsettled - {id} && Later(s, t)
    requires Quiet(s, t.(unsettled := s.unsettled), s.descs[id].address)
    requires Open(s.kind) && Tracked(t, id) ==> t.descs[id].kind != RSPrimary
    ensures Current(t)
  {
    if t.kind != Single {
      forall a | a in t.servers && SettledPrimary(t, a)
        ensures !Stale(t, At(t, a))
      {
        var i := t.servers[a];
        assert Tracked(t, i) && t.descs[i] == s.descs[i] && Tracked(s, i);
        assert s.servers[a] == i && t.kind == ReplicaSetWithPrimary && i != id;
        assert SettledPrimary(s, a);
      }
    }
  }

  lemma ReportCurrent(s: State, id: ServerId, unusable: set<Address>)
    requires Inv(s) && Current(s) && Orderly(s, Report(id, unusable)) && id < |s.descs|
    ensures var t := Update(s, id, unusable).0; Keyed(t) && Current(t)
  {
    var t := Update(s, id, unusable).0;
    if Accepted(s, s.descs[id]) {
      AcceptedCurrent(s, id, unusable);
      hide *;
    } else {
      UpdateInv(s, id, unusable);
      UpdateLater(s, id, unusable);
      OtherReports(s, id, unusable);
      assert Keyed(t);
      hide *;
      OtherCurrent(s, t, id);
    }
  }

  lemma FailureCurrent(s: State, id: ServerId)
    requires Inv(s) && Current(s) && id < |s.descs|
    ensures var t := TakeFailure(s, id); Keyed(t) && Current(t)
  {
    var t := TakeFailure(s, id);
    FailureFrame(s, id);
    assert forall a | a in t.servers && SettledPrimary(t, a) :: At(t, a) == At(s, a);
    hide TakeFailure, Inv;
  }

  lemma ReplyCurrent(s: State, id: ServerId, r: Reply)
    requires Inv(s) && Current(s) && id < |s.descs|
    ensures var t := TakeReply(s, id, r); Keyed(t) && Current(t)
  {
    ReplyFrame(s, id, r);
    hide TakeReply, Inv;
  }

  predicate OrderlyRun(s: State, events: seq<Event>)
    requires Inv(s)
    decreases |events|
  {
    events != [] ==> Orderly(s, events[0]) && (StepInv(s, events[0]); OrderlyRun(Step(s, events[0]), events[1..]))
  }

  /** In an orderly run no settled primary is ever below the record. */
  lemma {:induction false} OrderlyRunsStayCurrent(s: State, events: seq<Event>)
    requires Inv(s) && Current(s) && OrderlyRun(s, events)
    ensures Inv(Run(s, events)) && Current(Run(s, events))
    decreases |events|
  {
    if events != [] {
      var e := events[0];
      StepInv(s, e);
      if e.id < |s.descs| {
        match e
        case Replied(id, r) => ReplyCurrent(s, id, r);
        case Failure(id) => FailureCurrent(s, id);
        case Report(id, unusable) => ReportCurrent(s, id, unusable);
      }
      hide Inv, Current, TakeReply, TakeFailure, Update, Orderly;
      OrderlyRunsStayCurrent(Step(s, e), events[1..]);
    }
  }
}
