/** The pool as the lock-protected object it is. Each method is one section under the lock; `wait` ends a section, and
    the section that follows it begins like a new call. */
module ServerPool {
  import opened Pool

  class ServerPool {
    var len: nat
    var streams: seq<Idle>
    var iteration: nat
    ghost var out: set<Connection>
    ghost var retired: set<Stream>
    ghost var history: seq<Stream>

    ghost function Abs(): State
      reads this
    {
      State(len, streams, iteration, out, retired, history)
    }

    constructor ()
      ensures Abs() == EMPTY
    {
      len, streams, iteration := 0, [], 0;
      out, retired, history := {}, {}, [];
    }

    /** `fill pool`: whether no connection failed, and the questions asked so far. */
    method FillPool(o: Options, w: World, k: nat) returns (k': nat, ok: bool)
      modifies this
      ensures (Abs(), k', ok) == Fill(old(Abs()), o, w, k)
    {
      k' := k;
      while len < o.min
        invariant Fill(Abs(), o, w, k') == Fill(old(Abs()), o, w, k)
        decreases o.min - len
      {
        if w.net(k') != Opened { return k' + 1, false; }
        len := len + 1;
        history := history + [Stream(iteration, len)];
        streams := streams + [Idle(Stream(iteration, len), len, w.clock(k'))];
        k' := k' + 1;
      }
      return k', true;
    }

    /** `open new connection`. A failed handshake clears the pool. */
    method OpenNew(answer: Answer) returns (r: Outcome)
      modifies this
      ensures var s := old(Abs());
              match answer
              case Unreachable => Abs() == s && r == Error
              case Rejected => Abs() == Clear(s) && r == Error
              case Opened => (Abs(), r) == (Open(s).0, CheckedOut(Open(s).1))
    {
      match answer {
        case Unreachable =>
          return Error;
        case Rejected =>
          iteration := iteration + 1;
          retired := retired + Streams(streams);
          streams := [];
          len := 0;
          return Error;
        case Opened =>
          len := len + 1;
          history := history + [Stream(iteration, len)];
          var c := Connection(len, Stream(iteration, len), iteration);
          out := out + {c};
          return CheckedOut(c);
      }
    }

    /** `acquire_stream`. */
    method AcquireStream(o: Options, w: World) returns (r: Outcome)
      modifies this
      ensures (Abs(), r) == Acquire(old(Abs()), o, w, 0)
    {
      var k := 0;
      while true
        invariant Acquire(Abs(), o, w, k) == Acquire(old(Abs()), o, w, 0)
        decreases if len < o.min then 1 else 0, |streams|
      {
        FillFills(Abs(), o, w, k);
        var filled;
        k, filled := FillPool(o, w, k);
        if !filled { return Error; }
        // retrieve open connection from pool
        if streams != [] {
          var last := streams[|streams| - 1];
          streams := streams[..|streams| - 1];
          if o.maxIdle != 0 && w.clock(k) - last.since > o.maxIdle {
            retired := retired + {last.stream};
            k := k + 1;
            continue;
          }
          var c := Connection(last.id, last.stream, iteration);
          out := out + {c};
          return CheckedOut(c);
        }
        if o.max != 0 && len == o.max { return Waiting; }
        r := OpenNew(w.net(k));
        return;
      }
    }

    /** `Drop for Connection`. */
    method Drop(c: Connection, hasError: bool, now: nat)
      requires c in out
      modifies this
      ensures Abs() == Pool.Drop(old(Abs()), c, hasError, now)
    {
      out := out - {c};
      if !hasError && iteration == c.iteration {
        streams := streams + [Idle(c.stream, c.id, now)];
      } else {
        retired := retired + {c.stream};
      }
    }
  }
}
