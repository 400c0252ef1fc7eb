/** The connection pool of a server: what one section under its lock does, and what all interleavings of sections
    keep. */
module Pool {

  datatype Options = Options(min: nat, max: nat, maxIdle: nat)

  /** What becomes of an attempt to open a connection: no answer at all, a failed handshake, or a stream. */
  datatype Answer = Unreachable | Rejected | Opened

  /** The network and the clock, asked by a counter that goes up with every question. */
  datatype World = World(net: nat -> Answer, clock: nat -> nat)

  /** A stream is known by the iteration and the id that it was opened under. */
  datatype Stream = Stream(iteration: nat, id: nat)

  datatype Idle = Idle(stream: Stream, id: nat, since: nat)

  datatype Connection = Connection(id: nat, stream: Stream, iteration: nat)

  /** `out` are the connections in use, `history` lists all streams ever opened, `retired` are those closed since. */
  datatype State = State(
    len: nat, idle: seq<Idle>, iteration: nat, out: set<Connection>, retired: set<Stream>, history: seq<Stream>)

  datatype Outcome = CheckedOut(connection: Connection) | Waiting | Error

  const EMPTY := State(0, [], 0, {}, {}, [])

  /** The streams of idle entries. */
  function Streams(idle: seq<Idle>): set<Stream> {
    set i | 0 <= i < |idle| :: idle[i].stream
  }

  function Lent(out: set<Connection>): set<Stream> {
    set c | c in out :: c.stream
  }

  function Next(s: State): Stream {
    Stream(s.iteration, s.len + 1)
  }

  /** A connection opened to fill the pool. */
  function FillOne(s: State, since: nat): State {
    s.(len := s.len + 1, idle := s.idle + [Idle(Next(s), s.len + 1, since)], history := s.history + [Next(s)])
  }

  function Fill(s: State, o: Options, w: World, k: nat): (State, nat, bool)
    decreases o.min - s.len
  {
    if s.len >= o.min then (s, k, true)
    else if w.net(k) != Opened then (s, k + 1, false)
    else Fill(FillOne(s, w.clock(k)), o, w, k + 1)
  }

  lemma {:induction false} FillFills(s: State, o: Options, w: World, k: nat)
    ensures var (t, _, ok) := Fill(s, o, w, k);
            && s.len <= t.len && (ok ==> t.len >= o.min) && (s.len >= o.min ==> t == s && ok)
    decreases o.min - s.len
  {
    if s.len < o.min && w.net(k) == Opened { FillFills(FillOne(s, w.clock(k)), o, w, k + 1); }
  }

  function Last(s: State): Idle
    requires s.idle != []
  {
    s.idle[|s.idle| - 1]
  }

  function Expire(s: State): State
    requires s.idle != []
  {
    s.(idle := s.idle[..|s.idle| - 1], retired := s.retired + {Last(s).stream})
  }

  function Reuse(s: State): (State, Connection)
    requires s.idle != []
  {
    var c := Connection(Last(s).id, Last(s).stream, s.iteration);
    (s.(idle := s.idle[..|s.idle| - 1], out := s.out + {c}), c)
  }

  function Open(s: State): (State, Connection) {
    var c := Connection(s.len + 1, Next(s), s.iteration);
    (s.(len := s.len + 1, out := s.out + {c}, history := s.history + [Next(s)]), c)
  }

  function Clear(s: State): State {
    s.(len := 0, idle := [], iteration := s.iteration + 1, retired := s.retired + Streams(s.idle))
  }

  /** A section of `acquire_stream`, from taking the lock to giving it up. */
  function Acquire(s: State, o: Options, w: World, k: nat): (State, Outcome)
    decreases if s.len < o.min then 1 else 0, |s.idle|
  {
    FillFills(s, o, w, k);
    var (t, k', filled) := Fill(s, o, w, k);
    if !filled then (t, Error)
    else if t.idle != [] then
      if o.maxIdle != 0 && w.clock(k') - Last(t).since > o.maxIdle then Acquire(Expire(t), o, w, k' + 1)
      else (Reuse(t).0, CheckedOut(Reuse(t).1))
    else if o.max != 0 && t.len == o.max then (t, Waiting)
    else
      match w.net(k')
      case Unreachable => (t, Error)
      case Rejected => (Clear(t), Error)
      case Opened => (Open(t).0, CheckedOut(Open(t).1))
  }

  /** `Drop for Connection`. */
  function Drop(s: State, c: Connection, hasError: bool, now: nat): State {
    var t := s.(out := s.out - {c});
    if !hasError && c.iteration == s.iteration then t.(idle := s.idle + [Idle(c.stream, c.id, now)])
    else t.(retired := s.retired + {c.stream})
  }

  // ----- what every section keeps -----

  predicate Distinct(xs: seq<Stream>) {
    forall i, j | 0 <= i < j < |xs| :: xs[i] != xs[j]
  }

  predicate IdlesOk(s: State) {
    && (forall i | 0 <= i < |s.idle| :: s.idle[i].stream == Stream(s.iteration, s.idle[i].id))
    && (forall i, j | 0 <= i < j < |s.idle| :: s.idle[i].stream != s.idle[j].stream)
  }

  /** Every stream ever opened is in exactly one place. */
  predicate Placed(s: State) {
    && (set x | x in s.history) == Streams(s.idle) + Lent(s.out) + s.retired
    && Streams(s.idle) !! Lent(s.out) && Streams(s.idle) !! s.retired && Lent(s.out) !! s.retired
  }

  /** Those of the current iteration are numbered from 1 to `len`. */
  ghost predicate Numbered(s: State) {
    && (forall x | x in s.history :: x.iteration <= s.iteration)
    && (forall k: nat :: 1 <= k <= s.len <==> Stream(s.iteration, k) in s.history)
  }

  ghost predicate Inv(s: State) {
    && IdlesOk(s)
    && (forall c | c in s.out :: c.stream == Stream(c.iteration, c.id))
    && Distinct(s.history)
    && Placed(s)
    && Numbered(s)
  }

  lemma FillOneInv(s: State, since: nat)
    requires Inv(s)
    ensures Inv(FillOne(s, since))
  {
    var t := FillOne(s, since);
    assert Next(s) !in s.history;
    assert Streams(t.idle) == Streams(s.idle) + {Next(s)} by {
      assert t.idle[|s.idle|].stream == Next(s);
      assert forall i | 0 <= i < |s.idle| :: t.idle[i] == s.idle[i];
    }
    assert IdlesOk(t);
    hide Streams, IdlesOk;
  }

  lemma PopStreams(s: State)
    requires s.idle != [] && IdlesOk(s)
    ensures Streams(s.idle) == Streams(s.idle[..|s.idle| - 1]) + {Last(s).stream}
    ensures Last(s).stream !in Streams(s.idle[..|s.idle| - 1])
  {
  }

  lemma ExpireInv(s: State)
    requires Inv(s) && s.idle != []
    ensures Inv(Expire(s))
  {
    PopStreams(s);
    assert IdlesOk(Expire(s));
    hide Streams, IdlesOk;
  }

  lemma ReuseInv(s: State)
    requires Inv(s) && s.idle != []
    ensures var (t, c) := Reuse(s);
            Inv(t) && c !in s.out && c.stream in s.history && c.iteration == s.iteration && 1 <= c.id <= s.len
  {
    var (t, c) := Reuse(s);
    PopStreams(s);
    assert IdlesOk(t);
    assert Lent(t.out) == Lent(s.out) + {c.stream};
    assert c.stream == Stream(s.iteration, c.id) && c.stream in Streams(s.idle);
    hide Streams, IdlesOk;
  }

  lemma OpenInv(s: State)
    requires Inv(s)
    ensures var (t, c) := Open(s); Inv(t) && c !in s.out && c.stream !in s.history && c.iteration == s.iteration
  {
    var (t, c) := Open(s);
    assert Next(s) !in s.history;
    assert Lent(t.out) == Lent(s.out) + {c.stream};
    assert IdlesOk(t);
    hide Streams, IdlesOk;
  }

  lemma ClearInv(s: State)
    requires Inv(s)
    ensures Inv(Clear(s))
  {
    var t := Clear(s);
    assert Streams([]) == {};
    assert forall x | x in s.history :: x.iteration <= s.iteration;
    hide Streams;
  }

  lemma DropInv(s: State, c: Connection, hasError: bool, now: nat)
    requires Inv(s) && c in s.out
    ensures Inv(Drop(s, c, hasError, now))
  {
    var t := Drop(s, c, hasError, now);
    assert Lent(t.out) == Lent(s.out) - {c.stream} by {
      assert forall d | d in s.out && d != c :: d.stream != c.stream;
    }
    if !hasError && c.iteration == s.iteration {
      assert c.stream !in Streams(s.idle);
      assert Streams(t.idle) == Streams(s.idle) + {c.stream} by {
        assert t.idle[|s.idle|].stream == c.stream;
        assert forall i | 0 <= i < |s.idle| :: t.idle[i] == s.idle[i];
      }
      assert IdlesOk(t);
      hide Streams, IdlesOk;
    } else {
      assert IdlesOk(t);
      hide Streams, IdlesOk;
    }
  }
}
