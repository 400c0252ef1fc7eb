/** What a topology update does to the topology description, as a function: the SDAM rules as the source has them. */
module Topology {
  import opened Wrappers
  import opened Sdam

  datatype TopologyType = Single | ReplicaSetNoPrimary | ReplicaSetWithPrimary | Sharded | UnknownType

  /** A server handle: the position of the server's description among all ever created. A handle outlives the
      server's removal from the topology. */
  type ServerId = nat

  /** `unsettled` are the servers whose description took in a reply that no topology update has seen yet. */
  datatype State = State(
    servers: map<Address, ServerId>, descs: seq<Desc>, kind: TopologyType,
    setName: Option<string>, maxSetVersion: Option<int>, maxElectionId: Option<nat>, unsettled: set<ServerId>)

  /** A panic poisons the lock; a failure is a server that could not be created. */
  datatype Outcome = Done | Failed | Panicked

  /** Every address leads to a server of that address. */
  predicate Keyed(s: State) {
    forall a | a in s.servers :: s.servers[a] < |s.descs| && s.descs[s.servers[a]].address == a
  }

  predicate Tracked(s: State, id: ServerId) {
    id < |s.descs| && s.descs[id].address in s.servers && s.servers[s.descs[id].address] == id
  }

  predicate PrimaryAt(s: State, a: Address)
    requires Keyed(s)
  {
    a in s.servers && s.descs[s.servers[a]].kind == RSPrimary
  }

  predicate HasPrimary(s: State)
    requires Keyed(s)
  {
    exists a | a in s.servers :: PrimaryAt(s, a)
  }

  function CheckIfHasPrimary(s: State): State
    requires Keyed(s)
  {
    if HasPrimary(s) then s else s.(kind := ReplicaSetNoPrimary)
  }

  function Remove(s: State, a: Address): State {
    s.(servers := s.servers - {a})
  }

  function SetKind(s: State, id: ServerId, k: ServerType): State
    requires id < |s.descs|
  {
    s.(descs := s.descs[id := s.descs[id].(kind := k)])
  }

  function Reset(s: State, id: ServerId): State
    requires id < |s.descs|
  {
    s.(descs := s.descs[id := DefaultDesc(s.descs[id].address)])
  }

  /** Creating the servers that are not tracked yet, up to the first that cannot be created. */
  function AddServers(s: State, addrs: seq<Address>, unusable: set<Address>): (State, bool)
    decreases |addrs|
  {
    if addrs == [] then (s, true)
    else if addrs[0] in s.servers then AddServers(s, addrs[1..], unusable)
    else if addrs[0] in unusable then (s, false)
    else AddServers(
      s.(servers := s.servers[addrs[0] := |s.descs|], descs := s.descs + [DefaultDesc(addrs[0])]), addrs[1..], unusable)
  }

  function Listed(d: Desc): seq<Address> {
    d.hosts + d.passives + d.arbiters
  }

  function Retain(s: State, d: Desc): State {
    s.(servers := map a | a in s.servers && a in Listed(d) :: s.servers[a])
  }

  /** Every tracked primary at another address loses its type. */
  function InvalidateOthers(s: State, address: Address): State {
    s.(descs := seq(|s.descs|, i requires 0 <= i < |s.descs| =>
                      var d := s.descs[i];
                      if Tracked(s, i) && d.kind == RSPrimary && d.address != address then d.(kind := Unknown) else d))
  }

  /** A claim is stale when it is below the recorded set version and election id. */
  predicate Stale(s: State, d: Desc) {
    && d.setVersion.Some? && d.electionId.Some? && s.maxSetVersion.Some? && s.maxElectionId.Some?
    && (s.maxSetVersion.value > d.setVersion.value
        || (s.maxSetVersion.value == d.setVersion.value && s.maxElectionId.value > d.electionId.value))
  }

  function Record(s: State, d: Desc): State {
    var t := if d.setVersion.Some? && d.electionId.Some? then s.(maxElectionId := d.electionId) else s;
    if d.setVersion.Some? && (t.maxSetVersion.None? || d.setVersion.value > t.maxSetVersion.value)
    then t.(maxSetVersion := d.setVersion)
    else t
  }

  function MarkPossiblePrimary(s: State, d: Desc): State
    requires Keyed(s)
  {
    if d.primary.Some? && d.primary.value in s.servers && s.descs[s.servers[d.primary.value]].kind == Unknown
    then SetKind(s, s.servers[d.primary.value], PossiblePrimary)
    else s
  }

  predicate NameMismatch(s: State, d: Desc) {
    s.setName.Some? && s.setName != d.setName
  }

  function TakeName(s: State, d: Desc): State {
    if s.setName.None? then s.(setName := d.setName) else s
  }

  /** The part of updateRSFromPrimary after the claim is accepted, up to the creation of servers. */
  function AcceptPrimary(s: State, d: Desc): State {
    Retain(InvalidateOthers(Record(TakeName(s, d), d), d.address), d)
  }

  lemma AcceptKeyed(s: State, d: Desc)
    requires Keyed(s)
    ensures Keyed(AcceptPrimary(s, d))
  {
  }

  lemma {:induction false} AddKeyed(s: State, addrs: seq<Address>, unusable: set<Address>)
    requires Keyed(s)
    ensures Keyed(AddServers(s, addrs, unusable).0)
    decreases |addrs|
  {
    if addrs != [] {
      if addrs[0] in s.servers {
        AddKeyed(s, addrs[1..], unusable);
      } else if addrs[0] !in unusable {
        AddKeyed(s.(servers := s.servers[addrs[0] := |s.descs|], descs := s.descs + [DefaultDesc(addrs[0])]),
            addrs[1..], unusable);
      }
    }
  }

  /** updateRSFromPrimary. */
  function FromPrimary(s: State, id: ServerId, unusable: set<Address>): (State, Outcome)
    requires Keyed(s) && id < |s.descs|
  {
    var d := s.descs[id];
    var s1 := s.(kind := ReplicaSetWithPrimary);
    if NameMismatch(s1, d) then (CheckIfHasPrimary(Remove(s1, d.address)), Done)
    else if Stale(s1, d) then (CheckIfHasPrimary(Reset(TakeName(s1, d), id)), Done)
    else
      AcceptKeyed(s1, d);
      AddKeyed(AcceptPrimary(s1, d), Listed(d), unusable);
      var (s2, created) := AddServers(AcceptPrimary(s1, d), Listed(d), unusable);
      if created then (CheckIfHasPrimary(s2), Done) else (s2, Failed)
  }

  /** updateRSWithoutPrimary. */
  function WithoutPrimary(s: State, id: ServerId, unusable: set<Address>): (State, Outcome)
    requires Keyed(s) && id < |s.descs|
  {
    var d := s.descs[id];
    var s1 := s.(kind := ReplicaSetNoPrimary);
    if NameMismatch(s1, d) then (Remove(s1, d.address), Done)
    else
      AddKeyed(TakeName(s1, d), Listed(d), unusable);
      var (s2, created) := AddServers(TakeName(s1, d), Listed(d), unusable);
      if !created then (s2, Failed)
      else
        var s3 := MarkPossiblePrimary(s2, d);
        if d.me.None? then (s3, Panicked)
        else if d.me.value != d.address then (Remove(s3, d.address), Done)
        else (s3, Done)
  }

  /** updateRSWithPrimaryFromMember. */
  function FromMember(s: State, id: ServerId): (State, Outcome)
    requires Keyed(s) && id < |s.descs|
  {
    var d := s.descs[id];
    if s.setName != d.setName then (CheckIfHasPrimary(Remove(s, d.address)), Done)
    else if d.me.None? then (s, Panicked)
    else if d.address != d.me.value then (CheckIfHasPrimary(Remove(s, d.address)), Done)
    else (MarkPossiblePrimary(CheckIfHasPrimary(s), d), Done)
  }

  /** The table of topology and server types. */
  function UpdateTable(s: State, id: ServerId, unusable: set<Address>): (State, Outcome)
    requires Keyed(s) && id < |s.descs|
  {
    var d := s.descs[id];
    match s.kind
    case Single => (s, Done)
    case UnknownType =>
      (match d.kind
       case Standalone => (s.(kind := Single), Done)
       case Mongos => (s.(kind := Sharded), Done)
       case RSPrimary => FromPrimary(s, id, unusable)
       case RSSecondary | RSArbiter | RSOther => WithoutPrimary(s, id, unusable)
       case _ => (s, Done))
    case Sharded =>
      (match d.kind
       case PossiblePrimary | Unknown | Mongos => (s, Done)
       case _ => (Remove(s, d.address), Done))
    case ReplicaSetNoPrimary =>
      (match d.kind
       case Standalone | Mongos => (Remove(s, d.address), Done)
       case RSPrimary => FromPrimary(s, id, unusable)
       case RSSecondary | RSArbiter | RSOther => WithoutPrimary(s, id, unusable)
       case _ => (s, Done))
    case ReplicaSetWithPrimary =>
      (match d.kind
       case Standalone | Mongos => (CheckIfHasPrimary(Remove(s, d.address)), Done)
       case RSPrimary => FromPrimary(s, id, unusable)
       case RSSecondary | RSArbiter | RSOther => FromMember(s, id)
       case PossiblePrimary => (s, Done)
       case Unknown | RSGhost => (CheckIfHasPrimary(s), Done))
  }

  function Update(s: State, id: ServerId, unusable: set<Address>): (State, Outcome)
    requires Keyed(s) && id < |s.descs|
  {
    var (t, o) := UpdateTable(s, id, unusable);
    (t.(unsettled := t.unsettled - {id}), o)
  }

  /** A reply is applied to a server's description. */
  function TakeReply(s: State, id: ServerId, r: Reply): State
    requires id < |s.descs|
  {
    s.(descs := s.descs[id := AfterReply(s.descs[id], r)],
       unsettled := if Unchanged(s.descs[id], r) then s.unsettled else s.unsettled + {id})
  }

  /** A heartbeat or a pooled connection fails: only the description learns of it. */
  function TakeFailure(s: State, id: ServerId): State
    requires id < |s.descs|
  {
    SetKind(s, id, Unknown)
  }

  /** `init`: one server for each configured host. */
  function Init(hosts: seq<Address>, kind: TopologyType, setName: Option<string>): State {
    if hosts == [] then State(map[], [], kind, setName, None, None, {})
    else
      var s := Init(hosts[..|hosts| - 1], kind, setName);
      var a := hosts[|hosts| - 1];
      s.(servers := s.servers[a := |s.descs|], descs := s.descs + [DefaultDesc(a)])
  }
}
