/** Server descriptions and what a handshake reply makes of them: `ServerDescription::update`. */
module Sdam {
  import opened Wrappers

  type Address = string

  datatype ServerType =
    | Standalone | Mongos | PossiblePrimary | RSPrimary | RSSecondary | RSArbiter | RSOther | RSGhost | Unknown

  /** Election ids are compared like the big-endian numbers their twelve bytes are. Times, round-trip times and
      compressors, which nothing here depends on, are left out. */
  datatype Desc = Desc(
    address: Address, kind: ServerType, minWire: int, maxWire: int, me: Option<Address>,
    hosts: seq<Address>, passives: seq<Address>, arbiters: seq<Address>, tags: map<string, string>,
    setName: Option<string>, setVersion: Option<int>, electionId: Option<nat>, primary: Option<Address>,
    sessionTimeout: Option<int>)

  function DefaultDesc(address: Address): Desc {
    Desc(address, Unknown, 0, 0, None, [], [], [], map[], None, None, None, None, None)
  }

  datatype Reply = Reply(
    msg: Option<string>, isMaster: bool, secondary: Option<bool>, arbiterOnly: Option<bool>, isReplicaSet: Option<bool>,
    minWire: int, maxWire: int, me: Option<Address>,
    hosts: Option<seq<Address>>, passives: Option<seq<Address>>, arbiters: Option<seq<Address>>,
        tags: Option<map<string, string>>,
    setName: Option<string>, setVersion: Option<int>, electionId: Option<nat>, primary: Option<Address>,
    sessionTimeout: int)

  function KindOf(r: Reply): ServerType {
    if r.msg == Some("isdbgrid") then Mongos
    else if r.setName.Some? && r.isMaster then RSPrimary
    else if r.setName.Some? && r.secondary == Some(true) then RSSecondary
    else if r.setName.Some? && r.arbiterOnly == Some(true) then RSArbiter
    else if r.setName.Some? then RSOther
    else if r.isReplicaSet == Some(true) then RSGhost
    else Standalone
  }

  /** The members of a replica set. */
  predicate Member(k: ServerType) {
    k == RSPrimary || k == RSSecondary || k == RSArbiter || k == RSOther
  }

  function Or<T>(o: Option<T>, default: T): T {
    match o case Some(v) => v case None => default
  }

  /** The description a reply spells out. */
  function Described(address: Address, r: Reply): Desc {
    Desc(address, KindOf(r), r.minWire, r.maxWire, r.me, Or(r.hosts, []), Or(r.passives, []), Or(r.arbiters, []),
         Or(r.tags, map[]), r.setName, r.setVersion, r.electionId, r.primary, Some(r.sessionTimeout))
  }

  /** When `update` takes a reply for nothing new. The largest wire version is compared with the reply's smallest. */
  predicate Unchanged(d: Desc, r: Reply) {
    && d.kind == KindOf(r)
    && d.minWire == r.minWire && d.maxWire == r.minWire
    && d.me == r.me
    && d.hosts == Or(r.hosts, []) && d.passives == Or(r.passives, []) && d.arbiters == Or(r.arbiters, [])
    && d.tags == Or(r.tags, map[])
    && d.setName == r.setName && d.setVersion == r.setVersion && d.electionId == r.electionId
    && d.primary == r.primary && d.sessionTimeout == Some(r.sessionTimeout)
  }

  function AfterReply(d: Desc, r: Reply): Desc {
    if Unchanged(d, r) then d else Described(d.address, r)
  }

  /** All that a reply spells out agrees with the description, except perhaps the largest wire version. */
  predicate AgreesElsewhere(d: Desc, r: Reply) {
    Described(d.address, r).(maxWire := d.maxWire) == d
  }

  /** A reply is reported wrongly, as a change that is none or not as the change it is, exactly when all other fields
      agree, its two wire versions differ and the description's largest one is either of them. */
  lemma WronglyReported(d: Desc, r: Reply)
    ensures (Unchanged(d, r) != (Described(d.address, r) == d))
            <==> AgreesElsewhere(d, r) && r.minWire != r.maxWire && (d.maxWire == r.minWire || d.maxWire == r.maxWire)
  {
    assert AgreesElsewhere(d, r) <==> Unchanged(d.(maxWire := r.minWire), r);
    assert d.(maxWire := d.maxWire) == d;
  }

  /** The same reply again counts as nothing new exactly when it counted as that the first time, or its wire versions
      are the same. */
  lemma RepeatedReply(d: Desc, r: Reply)
    ensures Unchanged(AfterReply(d, r), r) <==> Unchanged(d, r) || r.minWire == r.maxWire
    ensures Unchanged(Described(d.address, r), r) <==> r.minWire == r.maxWire
  {
  }

  /** A reply's description is that of a set member exactly when it names a set and no router answered. */
  lemma MemberReply(d: Desc, r: Reply)
    ensures Member(KindOf(r)) <==> r.setName.Some? && r.msg != Some("isdbgrid")
    ensures KindOf(r) != Unknown && KindOf(r) != PossiblePrimary
    ensures AfterReply(d, r).kind == KindOf(r) && AfterReply(d, r).address == d.address
    ensures AfterReply(d, r).setName == r.setName
  {
  }

  /** Which reply makes a server what. */
  lemma KindsExactly(d: Desc, r: Reply)
    ensures var k, router, named := AfterReply(d, r).kind, r.msg == Some("isdbgrid"), r.setName.Some?;
            && (k == Mongos <==> router)
            && (k == RSPrimary <==> !router && named && r.isMaster)
            && (k == RSSecondary <==> !router && named && !r.isMaster && r.secondary == Some(true))
            && (k == RSArbiter <==>
                  !router && named && !r.isMaster && r.secondary != Some(true) && r.arbiterOnly == Some(true))
            && (k == RSOther <==>
                  !router && named && !r.isMaster && r.secondary != Some(true) && r.arbiterOnly != Some(true))
            && (k == RSGhost <==> !router && !named && r.isReplicaSet == Some(true))
            && (k == Standalone <==> !router && !named && r.isReplicaSet != Some(true))
  {
  }

  /** After a reply, reported or not, the description says what the reply said, absent lists being empty; only the
      largest wire version can be left as it was. */
  lemma ReplyFields(d: Desc, r: Reply)
    ensures var t := AfterReply(d, r);
            && t.address == d.address && t.minWire == r.minWire && t.me == r.me
            && t.hosts == (match r.hosts case Some(x) => x case None => [])
            && t.passives == (match r.passives case Some(x) => x case None => [])
            && t.arbiters == (match r.arbiters case Some(x) => x case None => [])
            && t.tags == (match r.tags case Some(x) => x case None => map[])
            && t.setName == r.setName && t.setVersion == r.setVersion && t.electionId == r.electionId
            && t.primary == r.primary && t.sessionTimeout == Some(r.sessionTimeout)
            && t.maxWire == if t == d && d.maxWire == r.minWire then r.minWire else r.maxWire
  {
  }
}
