/** Visitors that take some keys of a map and ignore others, at every depth, and what they come across. */
module Visitors {
  import opened Bytes
  import opened Bson
  import opened Wrappers
  import opened Scan
  import opened Contents

  /** What a type that is deserialized asks for: the keys it has no field for, and the visitors of the others. The
      elements of an array are visited like the array. */
  datatype Visitor = Visitor(ignored: set<NulFree>, within: map<NulFree, Visitor>)

  const EVERYTHING := Visitor({}, map[])

  function Sub(vis: Visitor, key: NulFree): Visitor {
    if key in vis.within then vis.within[key] else EVERYTHING
  }

  /** What the visitor wants of a value. */
  function Wanted(vis: Visitor, v: Value): Option<Content>
    decreases v, 0
  {
    match v
    case Doc(entries) => (match WantedFields(vis, entries) case Some(fs) => Some(CMap(fs)) case None => None)
    case Arr(elements) => (match WantedElems(vis, elements) case Some(cs) => Some(CSeq(cs)) case None => None)
    case _ => View(v)
  }

  function WantedFields(vis: Visitor, es: seq<Entry>): Option<seq<Field>>
    decreases es, 1
  {
    if es == [] then Some([])
    else if es[0].key in vis.ignored then WantedFields(vis, es[1..])
    else
      match (Wanted(Sub(vis, es[0].key), es[0].val), WantedFields(vis, es[1..]))
      case (Some(c), Some(fs)) => Some([Field(es[0].key, c)] + fs)
      case _ => None
  }

  function WantedElems(vis: Visitor, es: seq<Entry>): Option<seq<Content>>
    decreases es, 1
  {
    if es == [] then Some([])
    else
      match (Wanted(vis, es[0].val), WantedElems(vis, es[1..]))
      case (Some(c), Some(cs)) => Some([c] + cs)
      case _ => None
  }

  // ----- what is still to be read -----

  /** The rest of the document that is being read, of the one around it, and so on outwards. */
  type Stack = seq<seq<Entry>>

  function Remains(stack: Stack, rest: seq<byte>): seq<byte> {
    if stack == [] then rest else Tail(stack[0], Remains(stack[1..], rest))
  }

  function Weight(v: Value): nat
    decreases v, 0
  {
    match v
    case Doc(entries) => 1 + WeightAll(entries)
    case Arr(elements) => 1 + WeightAll(elements)
    case _ => 1
  }

  function WeightAll(es: seq<Entry>): nat
    decreases es, 1
  {
    if es == [] then 0 else 1 + Weight(es[0].val) + WeightAll(es[1..])
  }

  function StackWeight(stack: Stack): nat {
    if stack == [] then 0 else WeightAll(stack[0]) + StackWeight(stack[1..])
  }

  function Popped(stack: Stack): Stack
    requires stack != [] && stack[0] != []
  {
    [stack[0][1..]] + stack[1..]
  }

  lemma PoppedWeight(stack: Stack)
    requires stack != [] && stack[0] != []
    ensures Weight(stack[0][0].val) + StackWeight(Popped(stack)) < StackWeight(stack)
  {
    assert Popped(stack)[1..] == stack[1..];
  }

  lemma PushedWeight(es: seq<Entry>, stack: Stack)
    ensures StackWeight([es] + stack) == WeightAll(es) + StackWeight(stack)
  {
    assert ([es] + stack)[1..] == stack;
  }

  // ----- what is come across -----

  /** A visitor's `visit_map` over what is still to be read: the fields it collects, and what it leaves. A regular
      expression that it ignores ends the map, whose other entries are then left to whoever reads on. */
  function MapVisit(vis: Visitor, stack: Stack): (r: (Option<seq<Field>>, Stack))
    requires stack != []
    ensures StackWeight(r.1) <= StackWeight(stack) && |r.1| >= |stack| - 1
    decreases StackWeight(stack), 1
  {
    if stack[0] == [] then (Some([]), stack[1..])
    else
      var (e, more) := (stack[0][0], Popped(stack));
      PoppedWeight(stack);
      if e.key in vis.ignored then
        if e.val.Regex? then (Some([]), more) else MapVisit(vis, more)
      else
        var (c, left) := ValueVisit(Sub(vis, e.key), e.val, more);
        if c.None? then (None, left)
        else
          var (fs, end) := MapVisit(vis, left);
          (if fs.None? then None else Some([Field(e.key, c.value)] + fs.value), end)
  }

  function ValueVisit(vis: Visitor, v: Value, stack: Stack): (r: (Option<Content>, Stack))
    ensures StackWeight(r.1) <= Weight(v) + StackWeight(stack) && |r.1| >= |stack|
    decreases Weight(v) + StackWeight(stack), 2
  {
    match v
    case Doc(entries) =>
      PushedWeight(entries, stack);
      var (fs, left) := MapVisit(vis, [entries] + stack);
      (if fs.None? then None else Some(CMap(fs.value)), left)
    case Arr(elements) =>
      PushedWeight(elements, stack);
      var (cs, left) := SeqVisit(vis, [elements] + stack);
      (if cs.None? then None else Some(CSeq(cs.value)), left)
    case _ => (View(v), stack)
  }

  function SeqVisit(vis: Visitor, stack: Stack): (r: (Option<seq<Content>>, Stack))
    requires stack != []
    ensures StackWeight(r.1) <= StackWeight(stack) && |r.1| >= |stack| - 1
    decreases StackWeight(stack), 1
  {
    if stack[0] == [] then (Some([]), stack[1..])
    else
      PoppedWeight(stack);
      var (c, left) := ValueVisit(vis, stack[0][0].val, Popped(stack));
      if c.None? then (None, left)
      else
        var (cs, end) := SeqVisit(vis, left);
        (if cs.None? then None else Some([c.value] + cs.value), end)
  }

  /** No map that is visited ignores a regular expression. */
  predicate Smooth(vis: Visitor, v: Value)
    decreases v, 0
  {
    match v
    case Doc(entries) => SmoothFields(vis, entries)
    case Arr(elements) => SmoothElems(vis, elements)
    case _ => true
  }

  predicate SmoothFields(vis: Visitor, es: seq<Entry>)
    decreases es, 1
  {
    forall i | 0 <= i < |es| ::
      if es[i].key in vis.ignored then !es[i].val.Regex? else Smooth(Sub(vis, es[i].key), es[i].val)
  }

  predicate SmoothElems(vis: Visitor, es: seq<Entry>)
    decreases es, 1
  {
    forall i | 0 <= i < |es| :: Smooth(vis, es[i].val)
  }

  /** Where no regular expression is ignored a visitor gets what it wants and leaves what follows. */
  lemma {:induction false} SmoothVisit(vis: Visitor, v: Value, stack: Stack)
    requires Smooth(vis, v)
    ensures var (c, left) := ValueVisit(vis, v, stack); c == Wanted(vis, v) && (c.Some? ==> left == stack)
    decreases v, 0, 0
  {
    match v
    case Doc(entries) => SmoothMapVisit(vis, entries, stack);
    case Arr(elements) => SmoothSeqVisit(vis, elements, stack);
    case _ =>
  }

  lemma {:induction false} SmoothMapVisit(vis: Visitor, es: seq<Entry>, stack: Stack)
    requires SmoothFields(vis, es)
    ensures var (fs, left) := MapVisit(vis, [es] + stack); fs == WantedFields(vis, es) && (fs.Some? ==> left == stack)
    decreases es, 1, 0
  {
    var all := [es] + stack;
    assert all[1..] == stack && (es != [] ==> Popped(all) == [es[1..]] + stack);
    if es != [] {
      var e := es[0];
      assert if e.key in vis.ignored then !e.val.Regex? else Smooth(Sub(vis, e.key), e.val);
      if e.key !in vis.ignored { SmoothVisit(Sub(vis, e.key), e.val, [es[1..]] + stack); }
      SmoothMapVisit(vis, es[1..], stack);
    }
  }

  lemma {:induction false} SmoothSeqVisit(vis: Visitor, es: seq<Entry>, stack: Stack)
    requires SmoothElems(vis, es)
    ensures var (cs, left) := SeqVisit(vis, [es] + stack); cs == WantedElems(vis, es) && (cs.Some? ==> left == stack)
    decreases es, 1, 0
  {
    var all := [es] + stack;
    assert all[1..] == stack && (es != [] ==> Popped(all) == [es[1..]] + stack);
    if es != [] {
      SmoothVisit(vis, es[0].val, [es[1..]] + stack);
      SmoothSeqVisit(vis, es[1..], stack);
    }
  }

  /** Where one is ignored, at whatever depth, the visitor leaves more than what follows. */
  lemma {:induction false} RoughVisit(vis: Visitor, v: Value, stack: Stack)
    requires !Smooth(vis, v) && ValueVisit(vis, v, stack).0.Some?
    ensures |ValueVisit(vis, v, stack).1| > |stack|
    decreases v, 0, 0
  {
    match v
    case Doc(entries) => RoughMapVisit(vis, entries, stack);
    case Arr(elements) => RoughSeqVisit(vis, elements, stack);
    case _ =>
  }

  lemma {:induction false} RoughMapVisit(vis: Visitor, es: seq<Entry>, stack: Stack)
    requires !SmoothFields(vis, es) && MapVisit(vis, [es] + stack).0.Some?
    ensures |MapVisit(vis, [es] + stack).1| > |stack|
    decreases es, 1, 0
  {
    var all, e := [es] + stack, es[0];
    assert Popped(all) == [es[1..]] + stack;
    if e.key !in vis.ignored {
      if Smooth(Sub(vis, e.key), e.val) {
        SmoothVisit(Sub(vis, e.key), e.val, [es[1..]] + stack);
        RoughMapVisit(vis, es[1..], stack);
      } else {
        RoughVisit(Sub(vis, e.key), e.val, [es[1..]] + stack);
      }
    } else if !e.val.Regex? {
      RoughMapVisit(vis, es[1..], stack);
    }
  }

  lemma {:induction false} RoughSeqVisit(vis: Visitor, es: seq<Entry>, stack: Stack)
    requires !SmoothElems(vis, es) && SeqVisit(vis, [es] + stack).0.Some?
    ensures |SeqVisit(vis, [es] + stack).1| > |stack|
    decreases es, 1, 0
  {
    var all := [es] + stack;
    assert Popped(all) == [es[1..]] + stack;
    if Smooth(vis, es[0].val) {
      SmoothVisit(vis, es[0].val, [es[1..]] + stack);
      RoughSeqVisit(vis, es[1..], stack);
    } else {
      RoughVisit(vis, es[0].val, [es[1..]] + stack);
    }
  }

  /** A visit without an error yields what is wanted and leaves what follows if and only if no map that it visits, at
      whatever depth, ignores a regular expression. */
  lemma VisitsExactly(vis: Visitor, v: Value, stack: Stack)
    requires ValueVisit(vis, v, stack).0.Some?
    ensures ValueVisit(vis, v, stack) == (Wanted(vis, v), stack) <==> Smooth(vis, v)
  {
    if Smooth(vis, v) { SmoothVisit(vis, v, stack); } else { RoughVisit(vis, v, stack); }
  }

  // ----- visitors that want everything -----

  lemma {:induction false} EverythingWanted(v: Value)
    ensures Smooth(EVERYTHING, v) && Wanted(EVERYTHING, v) == View(v)
    decreases v, 0, 0
  {
    match v
    case Doc(entries) => EveryField(entries);
    case Arr(elements) => EveryElem(elements);
    case _ =>
  }

  lemma {:induction false} EveryField(es: seq<Entry>)
    ensures SmoothFields(EVERYTHING, es) && WantedFields(EVERYTHING, es) == ViewFields(es)
    decreases es, 1, |es|
  {
    forall i | 0 <= i < |es| ensures Smooth(EVERYTHING, es[i].val) {
      EverythingWanted(es[i].val);
    }
    if es != [] {
      EverythingWanted(es[0].val);
      EveryField(es[1..]);
      FirstField(es);
    }
  }

  lemma Ends(es: seq<Entry>)
    requires |es| > 1
    ensures var tl, front := es[1..], es[..|es| - 1];
            tl[..|tl| - 1] == front[1..] && tl[|tl| - 1] == es[|es| - 1] && front[0] == es[0]
  {
    assert es[1..][..|es| - 2] == es[1..|es| - 1];
  }

  lemma {:induction false} FirstField(es: seq<Entry>)
    requires es != []
    ensures ViewFields(es) == match (View(es[0].val), ViewFields(es[1..]))
                              case (Some(c), Some(fs)) => Some([Field(es[0].key, c)] + fs)
                              case _ => None
    decreases |es|
  {
    if |es| == 1 {
      assert es[..|es| - 1] == [] && es[1..] == [];
      if View(es[0].val).Some? {
        var none: seq<Field>, first := [], Field(es[0].key, View(es[0].val).value);
        assert none + [first] == [first] + none;
      }
    } else {
      var front := es[..|es| - 1];
      FirstField(front);
      var tl, last := es[1..], es[|es| - 1];
      Ends(es);
      if ViewFields(front[1..]).Some? && View(last.val).Some? && View(es[0].val).Some? {
        var first, fs, end := Field(es[0].key, View(es[0].val).value), ViewFields(front[1..]).value,
            Field(last.key, View(last.val).value);
        assert ([first] + fs) + [end] == [first] + (fs + [end]);
      }
    }
  }

  lemma {:induction false} EveryElem(es: seq<Entry>)
    ensures SmoothElems(EVERYTHING, es) && WantedElems(EVERYTHING, es) == ViewElems(es)
    decreases es, 1, |es|
  {
    forall i | 0 <= i < |es| ensures Smooth(EVERYTHING, es[i].val) {
      EverythingWanted(es[i].val);
    }
    if es != [] {
      EverythingWanted(es[0].val);
      EveryElem(es[1..]);
      FirstElem(es);
    }
  }

  lemma {:induction false} FirstElem(es: seq<Entry>)
    requires es != []
    ensures ViewElems(es) == match (View(es[0].val), ViewElems(es[1..]))
                             case (Some(c), Some(cs)) => Some([c] + cs)
                             case _ => None
    decreases |es|
  {
    if |es| == 1 {
      assert es[..|es| - 1] == [] && es[1..] == [];
      if View(es[0].val).Some? {
        var none: seq<Content>, first := [], View(es[0].val).value;
        assert none + [first] == [first] + none;
      }
    } else {
      var front := es[..|es| - 1];
      FirstElem(front);
      var tl, last := es[1..], es[|es| - 1];
      Ends(es);
      if ViewElems(front[1..]).Some? && View(last.val).Some? && View(es[0].val).Some? {
        var first, cs, end := View(es[0].val).value, ViewElems(front[1..]).value, View(last.val).value;
        assert ([first] + cs) + [end] == [first] + (cs + [end]);
      }
    }
  }
}
