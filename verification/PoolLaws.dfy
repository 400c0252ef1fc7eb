/** What single sections of the pool do, state by state, and what comes of that in all later runs. */
module PoolLaws {
  import opened Pool
  import opened PoolRuns

  /** A pool below its minimum is filled first. When an attempt fails the section ends there, with the connections
      opened so far; else it goes on as in the filled pool. */
  lemma AcquireFills(s: State, o: Options, w: World, k: nat, f: nat)
    requires s.len < o.min && s.len + f <= o.min && (s.len + f == o.min || w.net(k + f) != Opened)
    requires forall i | k <= i < k + f :: w.net(i) == Opened
    ensures var t := State(
                s.len + f, s.idle + Fresh(s, w, k, f), s.iteration, s.out, s.retired, s.history + Added(s, f));
            Acquire(s, o, w, k) == if s.len + f < o.min then (t, Error) else Acquire(t, o, w, k + f)
  {
    FillsInOrder(s, o, w, k, f);
    hide Fresh, Added;
  }

  /** A connection given back is idle again exactly when it met no error and is of this iteration; otherwise it is
      closed. */
  lemma DropExactly(s: State, c: Connection, hasError: bool, now: nat)
    requires Inv(s) && c in s.out
    ensures var t := Drop(s, c, hasError, now);
            && (c.stream in Streams(t.idle) <==> !hasError && c.iteration == s.iteration)
            && (c.stream in t.retired <==> hasError || c.iteration != s.iteration)
            && t.idle == (if !hasError && c.iteration == s.iteration
                          then s.idle + [Idle(c.stream, c.id, now)] else s.idle)
            && t.retired == (if !hasError && c.iteration == s.iteration then s.retired else s.retired + {c.stream})
            && t.out == s.out - {c} && t.len == s.len && t.iteration == s.iteration && t.history == s.history
  {
    var t := Drop(s, c, hasError, now);
    assert c.stream in Lent(s.out);
    if !hasError && c.iteration == s.iteration { assert t.idle[|s.idle|].stream == c.stream; }
  }

  /** A connection given back intact is the next to be handed out, and taking it undoes giving it back. */
  lemma GivenBackIsNext(s: State, o: Options, c: Connection, w: World, now: nat)
    requires Inv(s) && c in s.out && c.iteration == s.iteration && s.len >= o.min
    requires o.maxIdle == 0 || w.clock(0) - now <= o.maxIdle
    ensures Acquire(Drop(s, c, false, now), o, w, 0) == (s, CheckedOut(c))
  {
    var t := Drop(s, c, false, now);
    assert t.idle[..|t.idle| - 1] == s.idle;
    assert t.out + {c} == s.out;
  }

  /** What is closed stays closed: it is idle in no later state and never handed out again. */
  lemma ClosedForGood(s: State, o: Options, events: seq<Event>, x: Stream, w: World)
    requires Inv(s) && x in s.retired
    ensures var t := Run(s, o, events);
            && x !in Streams(t.idle)
            && (Acquire(t, o, w, 0).1.CheckedOut? ==> Acquire(t, o, w, 0).1.connection.stream != x)
  {
    RunLater(s, o, events);
    var t := Run(s, o, events);
    AcquireLater(t, o, w, 0);
    var (u, r) := Acquire(t, o, w, 0);
    hide Run, Acquire;
    assert Placed(t) && Placed(u) && x in t.retired && x in u.retired;
    if r.CheckedOut? { assert r.connection in u.out && r.connection.stream in Lent(u.out); }
  }

  /** A connection that met an error never comes back. */
  lemma BrokenNeverReturns(s: State, o: Options, c: Connection, now: nat, events: seq<Event>, w: World)
    requires Inv(s) && c in s.out
    ensures var t := Run(Drop(s, c, true, now), o, events);
            && c.stream !in Streams(t.idle)
            && (Acquire(t, o, w, 0).1.CheckedOut? ==> Acquire(t, o, w, 0).1.connection.stream != c.stream)
  {
    DropInv(s, c, true, now);
    DropExactly(s, c, true, now);
    ClosedForGood(Drop(s, c, true, now), o, events, c.stream, w);
  }

  /** After a failed handshake no connection opened before comes back, not even one that is in use. */
  lemma ClearedForGood(s: State, o: Options, v: World, events: seq<Event>, x: Stream, w: World)
    requires Inv(s) && s.len >= o.min && forall i | 0 <= i < |s.idle| :: TooOld(s, o, v, 0, i)
    requires !(o.max != 0 && s.len == o.max) && v.net(|s.idle|) == Rejected && x in s.history
    ensures var t := Run(Step(s, o, Acquires(v)), o, events);
            && x !in Streams(t.idle)
            && (Acquire(t, o, w, 0).1.CheckedOut? ==> Acquire(t, o, w, 0).1.connection.stream != x)
  {
    NoneIsFresh(s, o, v, 0);
    AcquireLater(s, o, v, 0);
    var u := Step(s, o, Acquires(v));
    assert x.iteration <= s.iteration;
    assert u.iteration == s.iteration + 1 && x in u.history;
    hide Inv, Acquire, Run;
    StaleNeverReturns(u, o, events, x, w);
  }
}
