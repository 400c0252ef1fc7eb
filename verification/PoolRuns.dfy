/** Runs of the pool: any interleaving of sections, whatever the network and the clock do. */
module PoolRuns {
  import opened Pool

  /** How one section relates the states before and after it. */
  ghost predicate Later(s: State, t: State) {
    && Inv(t)
    && s.history <= t.history && s.retired <= t.retired
    && s.iteration <= t.iteration && (s.iteration == t.iteration ==> s.len <= t.len)
  }

  lemma LaterTwice(s: State, t: State, u: State)
    requires Later(s, t) && Later(t, u)
    ensures Later(s, u)
  {
    hide Inv;
  }

  lemma {:induction false} FillLater(s: State, o: Options, w: World, k: nat)
    requires Inv(s)
    ensures var t := Fill(s, o, w, k).0;
            Inv(t) && Later(s, t) && t.out == s.out && t.iteration == s.iteration && t.retired == s.retired
            && (t.len == s.len || t.len <= o.min)
    decreases o.min - s.len
  {
    if s.len < o.min && w.net(k) == Opened {
      FillOneInv(s, w.clock(k));
      hide Inv;
      FillLater(FillOne(s, w.clock(k)), o, w, k + 1);
    }
  }

  /** A section hands out a connection whose number is not in use, or none. */
  ghost predicate Handed(s: State, t: State, r: Outcome) {
    match r
    case CheckedOut(c) => t.out == s.out + {c} && c.stream !in Lent(s.out) && c.iteration == t.iteration
        && 1 <= c.id <= t.len
    case _ => t.out == s.out
  }

  lemma PopLater(s: State)
    requires Inv(s) && s.idle != []
    ensures Inv(Expire(s)) && Later(s, Expire(s)) && Expire(s).out == s.out
    ensures Expire(s).len == s.len && |Expire(s).idle| == |s.idle| - 1
    ensures Later(s, Reuse(s).0) && Handed(s, Reuse(s).0, CheckedOut(Reuse(s).1))
  {
    ExpireInv(s);
    ReuseInv(s);
    assert Last(s).stream in Streams(s.idle);
    assert Placed(s);
    hide Inv, Placed, Streams, Lent;
  }

  lemma OpenLater(s: State)
    requires Inv(s)
    ensures Later(s, Open(s).0) && Handed(s, Open(s).0, CheckedOut(Open(s).1))
    ensures Later(s, Clear(s)) && Clear(s).out == s.out
  {
    OpenInv(s);
    ClearInv(s);
    assert Placed(s);
    hide Inv, Streams, Lent;
  }

  /** What a section comes to once the pool is filled. */
  lemma AcquireCases(s: State, o: Options, w: World, k: nat)
    ensures var (t, k', filled) := Fill(s, o, w, k);
            var u := Acquire(s, o, w, k);
            || u == (t, Error) || u == (t, Waiting)
            || u == (Clear(t), Error)
            || (!(o.max != 0 && t.len == o.max) && u == (Open(t).0, CheckedOut(Open(t).1)))
            || (t.idle != [] && u == (Reuse(t).0, CheckedOut(Reuse(t).1)))
            || (t.idle != [] && (s.len < o.min || t == s) && t.len >= o.min && u == Acquire(Expire(t), o, w, k' + 1))
  {
    FillFills(s, o, w, k);
    hide Fill, Reuse, Clear, Open, Expire;
  }

  lemma {:induction false} AcquireLater(s: State, o: Options, w: World, k: nat)
    requires Inv(s)
    ensures var (t, r) := Acquire(s, o, w, k); Later(s, t) && Handed(s, t, r)
    decreases if s.len < o.min then 1 else 0, |s.idle|
  {
    hide *;
    var (t, k', filled) := Fill(s, o, w, k);
    var (u, r) := Acquire(s, o, w, k);
    AcquireCases(s, o, w, k);
    FillLater(s, o, w, k);
    OpenLater(t);
    if t.idle != [] {
      PopLater(t);
      if t.len >= o.min && (s.len < o.min || t == s) {
        AcquireLater(Expire(t), o, w, k' + 1);
        HandedOn(t, Expire(t), o, w, k' + 1);
      }
    }
    HandedNone(t);
    assert Later(t, u) && Handed(t, u, r);
    LaterTwice(s, t, u);
    HandedFrom(s, t, u, r);
  }

  lemma HandedNone(t: State)
    requires Inv(t)
    ensures Later(t, t) && Handed(t, t, Error) && Handed(t, t, Waiting)
    ensures Handed(t, Clear(t), Error)
  {
    hide Inv;
  }

  lemma HandedOn(t: State, e: State, o: Options, w: World, k: nat)
    requires Later(t, e) && e.out == t.out
    requires var (u, r) := Acquire(e, o, w, k); Later(e, u) && Handed(e, u, r)
    ensures var (u, r) := Acquire(e, o, w, k); Later(t, u) && Handed(t, u, r)
  {
    hide Acquire;
    var (u, r) := Acquire(e, o, w, k);
    LaterTwice(t, e, u);
  }

  lemma HandedFrom(s: State, t: State, u: State, r: Outcome)
    requires t.out == s.out && Handed(t, u, r)
    ensures Handed(s, u, r)
  {
  }

  // ----- which connection is handed out -----

  /** The connections that filling adds to the idle ones when `f` attempts succeed. */
  function Fresh(s: State, w: World, k: nat, f: nat): (r: seq<Idle>)
    ensures |r| == f
    ensures forall i | 0 <= i < f :: r[i] == Idle(Stream(s.iteration, s.len + 1 + i), s.len + 1 + i, w.clock(k + i))
    decreases f
  {
    if f == 0 then [] else [Idle(Next(s), s.len + 1, w.clock(k))] + Fresh(FillOne(s, w.clock(k)), w, k + 1, f - 1)
  }

  /** Their streams. */
  function Added(s: State, f: nat): seq<Stream> {
    seq(f, i requires 0 <= i < f => Stream(s.iteration, s.len + 1 + i))
  }

  lemma {:induction false} FillsInOrder(s: State, o: Options, w: World, k: nat, f: nat)
    requires s.len + f <= o.min && (s.len + f == o.min || w.net(k + f) != Opened)
    requires forall i | k <= i < k + f :: w.net(i) == Opened
    ensures var (t, n, ok) := Fill(s, o, w, k);
            && t == State(s.len + f, s.idle + Fresh(s, w, k, f), s.iteration, s.out, s.retired, s.history + Added(s, f))
            && (ok <==> t.len == o.min) && n == if ok then k + f else k + f + 1
    decreases f
  {
    if f > 0 {
      assert w.net(k) == Opened;
      FillsInOrder(FillOne(s, w.clock(k)), o, w, k + 1, f - 1);
      assert Added(s, f) == [Next(s)] + Added(FillOne(s, w.clock(k)), f - 1);
    } else {
      assert s.idle + [] == s.idle && s.history + [] == s.history;
    }
  }

  /** Whether the idle entry at `i` is too old by the time the section comes to it, from the newest backwards. */
  predicate TooOld(s: State, o: Options, w: World, k: nat, i: nat)
    requires i < |s.idle|
  {
    o.maxIdle != 0 && w.clock(k + (|s.idle| - 1 - i)) - s.idle[i].since > o.maxIdle
  }

  /** The state after the idle entries from `j` on are closed. */
  function ExpireFrom(s: State, j: nat): State
    requires j <= |s.idle|
  {
    s.(idle := s.idle[..j], retired := s.retired + Streams(s.idle[j..]))
  }

  lemma ExpireOne(s: State, o: Options, w: World, k: nat, j: nat)
    requires s.idle != [] && s.len >= o.min && j < |s.idle|
    requires TooOld(s, o, w, k, |s.idle| - 1)
    ensures Acquire(s, o, w, k) == Acquire(Expire(s), o, w, k + 1)
    ensures ExpireFrom(Expire(s), j) == ExpireFrom(s, j)
    ensures forall i | 0 <= i < |s.idle| - 1 :: TooOld(Expire(s), o, w, k + 1, i) <==> TooOld(s, o, w, k, i)
  {
    var n := |s.idle| - 1;
    assert s.idle[j..] == s.idle[..n][j..] + [s.idle[n]];
    assert Streams(s.idle[j..]) == Streams(s.idle[..n][j..]) + {s.idle[n].stream} by {
      assert s.idle[j..][n - j] == s.idle[n];
      assert forall i | 0 <= i < n - j :: s.idle[j..][i] == s.idle[..n][j..][i];
    }
  }

  /** In a filled pool the newest idle connection that is not too old is handed out, and exactly the newer ones are
      closed. */
  lemma {:induction false} NewestIsReused(s: State, o: Options, w: World, k: nat, j: nat)
    requires s.len >= o.min && j < |s.idle|
    requires !TooOld(s, o, w, k, j) && forall i | j < i < |s.idle| :: TooOld(s, o, w, k, i)
    ensures var c := Connection(s.idle[j].id, s.idle[j].stream, s.iteration);
            Acquire(s, o, w, k) == (ExpireFrom(s, j + 1).(idle := s.idle[..j], out := s.out + {c}), CheckedOut(c))
    decreases |s.idle|
  {
    if j == |s.idle| - 1 {
      assert ExpireFrom(s, j + 1) == s by {
        assert s.idle[j + 1..] == [] && s.idle[..j + 1] == s.idle;
      }
    } else {
      ExpireOne(s, o, w, k, j + 1);
      assert s.idle[..|s.idle| - 1][..j] == s.idle[..j];
      hide Acquire, TooOld, ExpireFrom;
      var e, n := Expire(s), k + 1;
      forall i | j < i < |e.idle| ensures TooOld(e, o, w, n, i) {
        assert TooOld(s, o, w, k, i);
      }
      assert !TooOld(s, o, w, k, j);
      NewestIsReused(e, o, w, n, j);
    }
  }

  /** When all idle connections are too old they are all closed; the section waits exactly when as many connections as
      allowed were opened in this iteration, and else asks the network. A failed handshake ends the iteration. */
  lemma {:induction false} NoneIsFresh(s: State, o: Options, w: World, k: nat)
    requires s.len >= o.min && forall i | 0 <= i < |s.idle| :: TooOld(s, o, w, k, i)
    ensures var (gone, x) := (s.retired + Streams(s.idle), Stream(s.iteration, s.len + 1));
            var c := Connection(s.len + 1, x, s.iteration);
            Acquire(s, o, w, k) ==
              if o.max != 0 && s.len == o.max then (State(s.len, [], s.iteration, s.out, gone, s.history), Waiting)
              else match w.net(k + |s.idle|)
                case Unreachable => (State(s.len, [], s.iteration, s.out, gone, s.history), Error)
                case Rejected => (State(0, [], s.iteration + 1, s.out, gone, s.history), Error)
                case Opened =>
                  (State(s.len + 1, [], s.iteration, s.out + {c}, gone, s.history + [x]), CheckedOut(c))
    decreases |s.idle|
  {
    if s.idle == [] {
      assert s.retired + Streams([]) == s.retired;
      assert ExpireFrom(s, 0) == s;
    } else {
      ExpireOne(s, o, w, k, 0);
      hide Acquire, TooOld, ExpireFrom;
      var e, n := Expire(s), k + 1;
      forall i | 0 <= i < |e.idle| ensures TooOld(e, o, w, n, i) {
        assert TooOld(s, o, w, k, i);
      }
      NoneIsFresh(e, o, w, n);
    }
  }

  // ----- runs -----

  datatype Event = Acquires(world: World) | Drops(connection: Connection, hasError: bool, now: nat)

  /** A connection that is not in use cannot be dropped. */
  function Step(s: State, o: Options, e: Event): State {
    match e
    case Acquires(w) => Acquire(s, o, w, 0).0
    case Drops(c, hasError, now) => if c in s.out then Drop(s, c, hasError, now) else s
  }

  function Run(s: State, o: Options, events: seq<Event>): State
    decreases |events|
  {
    if events == [] then s else Run(Step(s, o, events[0]), o, events[1..])
  }

  lemma StepLater(s: State, o: Options, e: Event)
    requires Inv(s)
    ensures Inv(Step(s, o, e)) && Later(s, Step(s, o, e))
  {
    match e
    case Acquires(w) => AcquireLater(s, o, w, 0); hide Acquire, Inv;
    case Drops(c, hasError, now) => if c in s.out { DropInv(s, c, hasError, now); } hide Inv;
  }

  lemma EmptyInv()
    ensures Inv(EMPTY)
  {
  }

  /** Every interleaving keeps the invariant; nothing that was opened is forgotten and nothing closed opens again. */
  lemma {:induction false} RunLater(s: State, o: Options, events: seq<Event>)
    requires Inv(s)
    ensures Inv(Run(s, o, events)) && Later(s, Run(s, o, events))
    decreases |events|
  {
    HandedNone(s);
    if events != [] {
      StepLater(s, o, events[0]);
      RunLater(Step(s, o, events[0]), o, events[1..]);
      hide Later, Inv, Step;
      LaterTwice(s, Step(s, o, events[0]), Run(s, o, events));
    }
  }

  /** A connection from before a clear never comes back: it is idle in no later state, and no later section hands out
      its number again. */
  lemma StaleNeverReturns(s: State, o: Options, events: seq<Event>, x: Stream, w: World)
    requires Inv(s) && x in s.history && x.iteration < s.iteration
    ensures var t := Run(s, o, events);
            && x !in Streams(t.idle)
            && (Acquire(t, o, w, 0).1.CheckedOut? ==> Acquire(t, o, w, 0).1.connection.stream != x)
  {
    RunLater(s, o, events);
    var t := Run(s, o, events);
    AcquireLater(t, o, w, 0);
    hide Run, Acquire;
    assert IdlesOk(t);
    var (u, r) := Acquire(t, o, w, 0);
    if r.CheckedOut? {
      assert r.connection in u.out && r.connection.stream == Stream(r.connection.iteration, r.connection.id);
    }
  }

  // ----- conservation -----

  function InUse(s: State): set<Connection> {
    set c | c in s.out && c.iteration == s.iteration
  }

  function Closed(s: State): set<Stream> {
    set x | x in s.retired && x.iteration == s.iteration
  }

  function Numbers(iteration: nat, n: nat): set<Stream> {
    set k: nat | 1 <= k <= n :: Stream(iteration, k)
  }

  lemma {:induction false} NumbersCount(iteration: nat, n: nat)
    ensures |Numbers(iteration, n)| == n
  {
    if n > 0 {
      NumbersCount(iteration, n - 1);
      assert Numbers(iteration, n) == Numbers(iteration, n - 1) + {Stream(iteration, n)};
    }
  }

  lemma {:induction false} StreamsCount(idle: seq<Idle>)
    requires forall i, j | 0 <= i < j < |idle| :: idle[i].stream != idle[j].stream
    ensures |Streams(idle)| == |idle|
  {
    if idle != [] {
      var rest, x := idle[..|idle| - 1], idle[|idle| - 1].stream;
      StreamsCount(rest);
      assert Streams(idle) == Streams(rest) + {x};
      assert x !in Streams(rest);
    }
  }

  lemma {:induction false} LentCount(out: set<Connection>)
    requires forall c | c in out :: c.stream == Stream(c.iteration, c.id)
    ensures |Lent(out)| == |out|
  {
    if out != {} {
      var c :| c in out;
      LentCount(out - {c});
      assert Lent(out) == Lent(out - {c}) + {c.stream};
      assert c.stream !in Lent(out - {c});
    }
  }

  lemma {:induction false} HistoryCount(history: seq<Stream>)
    requires Distinct(history)
    ensures |set x | x in history| == |history|
  {
    if history != [] {
      var rest, x := history[..|history| - 1], history[|history| - 1];
      HistoryCount(rest);
      assert (set y | y in history) == (set y | y in rest) + {x};
      assert x !in rest;
    }
  }

  lemma NumbersAreCurrent(s: State)
    requires Numbered(s)
    ensures Numbers(s.iteration, s.len) == set x | x in s.history && x.iteration == s.iteration
  {
    var now := Numbers(s.iteration, s.len);
    assert forall x | x in now :: x == Stream(s.iteration, x.id) && 1 <= x.id <= s.len;
    assert forall x | x in s.history && x.iteration == s.iteration :: x == Stream(s.iteration, x.id);
  }

  lemma LentNow(s: State)
    requires forall c | c in s.out :: c.stream == Stream(c.iteration, c.id)
    ensures Lent(InUse(s)) == set x | x in Lent(s.out) && x.iteration == s.iteration
  {
    assert forall c | c in s.out :: c.stream.iteration == c.iteration;
  }

  lemma CurrentStreams(s: State)
    requires Inv(s)
    ensures Numbers(s.iteration, s.len) == Streams(s.idle) + Lent(InUse(s)) + Closed(s)
    ensures Streams(s.idle) !! Lent(InUse(s)) && Streams(s.idle) !! Closed(s) && Lent(InUse(s)) !! Closed(s)
  {
    NumbersAreCurrent(s);
    LentNow(s);
    assert forall x | x in Streams(s.idle) :: x.iteration == s.iteration;
    assert forall x :: x in s.history <==> x in (set y | y in s.history);
    hide Numbers, Streams, Lent, InUse, Numbered, Distinct, IdlesOk;
  }

  /** `len` counts the connections opened in this iteration: those idle, those in use and those closed since. Over all
      iterations nothing is lost either. */
  lemma Conservation(s: State)
    requires Inv(s)
    ensures s.len == |s.idle| + |InUse(s)| + |Closed(s)|
    ensures |s.history| == |s.idle| + |s.out| + |s.retired|
  {
    NumbersCount(s.iteration, s.len);
    StreamsCount(s.idle);
    LentCount(InUse(s));
    LentCount(s.out);
    HistoryCount(s.history);
    CurrentStreams(s);
    assert Placed(s);
    hide Inv, Numbers, Streams, Lent, InUse, Closed;
    Cardinalities(Streams(s.idle), Lent(InUse(s)), Closed(s));
    Cardinalities(Streams(s.idle), Lent(s.out), s.retired);
  }

  lemma Cardinalities(a: set<Stream>, b: set<Stream>, c: set<Stream>)
    requires a !! b && a !! c && b !! c
    ensures |a + b + c| == |a| + |b| + |c|
  {
  }

  // ----- the size limit -----

  function Live(s: State): nat {
    |s.idle| + |InUse(s)|
  }

  lemma {:induction false} AcquireBound(s: State, o: Options, w: World, k: nat)
    requires Inv(s) && o.max != 0 && o.min <= o.max && s.len <= o.max
    ensures Acquire(s, o, w, k).0.len <= o.max
    decreases if s.len < o.min then 1 else 0, |s.idle|
  {
    hide Acquire, Fill, Inv, Expire, Later, Handed;
    AcquireCases(s, o, w, k);
    FillLater(s, o, w, k);
    var (t, k', filled) := Fill(s, o, w, k);
    if t.idle != [] {
      PopLater(t);
      if t.len >= o.min && (s.len < o.min || t == s) { AcquireBound(Expire(t), o, w, k' + 1); }
    }
  }

  lemma {:induction false} RunBound(s: State, o: Options, events: seq<Event>)
    requires Inv(s) && o.max != 0 && o.min <= o.max && s.len <= o.max
    ensures Inv(Run(s, o, events)) && Run(s, o, events).len <= o.max
    decreases |events|
  {
    if events != [] {
      var e := events[0];
      StepLater(s, o, e);
      if e.Acquires? { AcquireBound(s, o, e.world, 0); }
      hide Inv, Acquire, Later;
      RunBound(Step(s, o, e), o, events[1..]);
    }
  }

  /** A network without faults and a clock that stands still. */
  const GOOD := World((k: nat) => Opened, (k: nat) => 0)

  lemma {:induction false} GoodFill(s: State, o: Options, k: nat)
    ensures var (t, _, ok) := Fill(s, o, GOOD, k);
            && ok && t.len == (if s.len < o.min then o.min else s.len)
            && t == s.(len := t.len, idle := t.idle, history := t.history)
            && |t.idle| == |s.idle| + t.len - s.len
    decreases o.min - s.len
  {
    if s.len < o.min { GoodFill(FillOne(s, 0), o, k + 1); }
  }

  /** With a good network a section hands out a connection, unless it has to wait. */
  lemma GoodAcquire(s: State, o: Options)
    ensures var (t, _, _) := Fill(s, o, GOOD, 0);
            Acquire(s, o, GOOD, 0) ==
              if t.idle != [] then (Reuse(t).0, CheckedOut(Reuse(t).1))
              else if o.max != 0 && t.len == o.max then (t, Waiting)
              else (Open(t).0, CheckedOut(Open(t).1))
  {
    GoodFill(s, o, 0);
    hide Fill, Reuse, Open;
  }

  /** Live connections never exceed the maximum, in any run, exactly when the minimum does not. */
  lemma MaximumRespected(o: Options)
    requires o.max != 0
    ensures (forall events :: Live(Run(EMPTY, o, events)) <= o.max) <==> o.min <= o.max
  {
    EmptyInv();
    if o.min <= o.max {
      forall events
        ensures Live(Run(EMPTY, o, events)) <= o.max
      {
        RunBound(EMPTY, o, events);
        Conservation(Run(EMPTY, o, events));
      }
    } else {
      var events := [Acquires(GOOD)];
      GoodFill(EMPTY, o, 0);
      GoodAcquire(EMPTY, o);
      AcquireLater(EMPTY, o, GOOD, 0);
      var t := Acquire(EMPTY, o, GOOD, 0).0;
      assert t.len == o.min && t.retired == {};
      assert Run(EMPTY, o, events) == t by {
        assert events[1..] == [] && Step(EMPTY, o, events[0]) == t;
      }
      Conservation(t);
      assert Closed(t) == {};
      assert Live(Run(EMPTY, o, events)) > o.max;
    }
  }

  // ----- the pool that is used up -----

  /** All connections of the iteration are opened, and all are closed: `len` never goes down within an iteration. */
  predicate Stuck(s: State, o: Options) {
    && o.max != 0 && o.min <= s.len == o.max
    && s.idle == [] && InUse(s) == {}
  }

  lemma {:induction false} StuckForever(s: State, o: Options, events: seq<Event>, w: World)
    requires Stuck(s, o)
    ensures Stuck(Run(s, o, events), o) && Acquire(Run(s, o, events), o, w, 0).1 == Waiting
    decreases |events|
  {
    if events != [] {
      var t := Step(s, o, events[0]);
      match events[0] {
        case Acquires(v) => assert t == s;
        case Drops(c, hasError, now) =>
          assert c in s.out && c.iteration == s.iteration ==> c in InUse(s);
          assert InUse(t) <= InUse(s);
      }
      StuckForever(t, o, events[1..], w);
    }
  }

  /** A pool can ever hand out a connection again exactly when it is not used up. */
  lemma StuckExactly(s: State, o: Options)
    requires Inv(s)
    ensures (exists events, w :: Acquire(Run(s, o, events), o, w, 0).1.CheckedOut?) <==> !Stuck(s, o)
  {
    if Stuck(s, o) {
      forall events, w
        ensures !Acquire(Run(s, o, events), o, w, 0).1.CheckedOut?
      {
        StuckForever(s, o, events, w);
      }
    } else {
      GoodFill(s, o, 0);
      GoodAcquire(s, o);
      assert Run(s, o, []) == s;
      if !Acquire(Run(s, o, []), o, GOOD, 0).1.CheckedOut? {
        assert s.idle == [] && s.len >= o.min;
        var c :| c in InUse(s);
        var t := Drop(s, c, false, 0);
        var events := [Drops(c, false, 0)];
        assert events[1..] == [] && Step(s, o, events[0]) == t;
        assert Run(s, o, events) == t;
        GoodFill(t, o, 0);
        GoodAcquire(t, o);
        assert Acquire(Run(s, o, events), o, GOOD, 0).1.CheckedOut?;
      } else {
        assert Acquire(Run(s, o, []), o, GOOD, 0).1.CheckedOut?;
      }
    }
  }

  const LATE := World((k: nat) => Opened, (k: nat) => 5)

  lemma StuckSteps()
    ensures var o, c := Options(0, 1, 1), Connection(1, Stream(0, 1), 0);
            && Step(EMPTY, o, Acquires(GOOD)) == State(1, [], 0, {c}, {}, [Stream(0, 1)])
            && Step(State(1, [], 0, {c}, {}, [Stream(0, 1)]), o, Drops(c, false, 0))
               == State(1, [Idle(Stream(0, 1), 1, 0)], 0, {}, {}, [Stream(0, 1)])
  {
  }

  lemma LateStep()
    ensures Step(State(1, [Idle(Stream(0, 1), 1, 0)], 0, {}, {}, [Stream(0, 1)]), Options(0, 1, 1), Acquires(LATE))
            == State(1, [], 0, {}, {Stream(0, 1)}, [Stream(0, 1)])
  {
    var s := State(1, [Idle(Stream(0, 1), 1, 0)], 0, {}, {}, [Stream(0, 1)]);
    var t := State(1, [], 0, {}, {Stream(0, 1)}, [Stream(0, 1)]);
    assert Expire(s) == t;
    assert Acquire(t, Options(0, 1, 1), LATE, 1) == (t, Waiting);
  }

  /** One connection, taken, given back, and too old when it is needed again: from then on everyone waits. */
  lemma StuckReached()
    ensures Stuck(Run(EMPTY, Options(0, 1, 1),
                      [Acquires(GOOD), Drops(Connection(1, Stream(0, 1), 0), false, 0), Acquires(LATE)]),
                          Options(0, 1, 1))
  {
    var o, c := Options(0, 1, 1), Connection(1, Stream(0, 1), 0);
    StuckSteps();
    LateStep();
    hide Step;
    var events := [Acquires(GOOD), Drops(c, false, 0), Acquires(LATE)];
    assert events[1..] == [events[1], events[2]] && events[1..][1..] == [events[2]] && events[1..][1..][1..] == [];
    var s1 := Step(EMPTY, o, events[0]);
    var s2 := Step(s1, o, events[1]);
    assert Run(EMPTY, o, events) == Run(s1, o, events[1..]) == Run(s2, o, events[1..][1..]) == Step(s2, o, events[2]);
  }
}
