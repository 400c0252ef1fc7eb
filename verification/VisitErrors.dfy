/** Which error ends a visit: that of the first wanted value, in the order of the document, that cannot be shown. */
module VisitErrors {
  import opened Bytes
  import opened Bson
  import opened Wrappers
  import opened Contents
  import opened Visitors

  /** `Panicked` is a second mutable borrow. */
  datatype Error = InvalidState | F128Unsupported | InvalidBsonType(id: byte) | Panicked

  /** What a value that has no view ends in. */
  function Refusal(v: Value): Error {
    match v
    case F128(_) => F128Unsupported
    case Binary(_, _) => Panicked
    case _ => InvalidState
  }

  function ValueFails(vis: Visitor, v: Value, stack: Stack): Error
    requires ValueVisit(vis, v, stack).0.None?
    decreases Weight(v) + StackWeight(stack), 2
  {
    match v
    case Doc(entries) => PushedWeight(entries, stack); MapFails(vis, [entries] + stack)
    case Arr(elements) => PushedWeight(elements, stack); SeqFails(vis, [elements] + stack)
    case _ => Refusal(v)
  }

  function MapFails(vis: Visitor, stack: Stack): Error
    requires stack != [] && MapVisit(vis, stack).0.None?
    decreases StackWeight(stack), 1
  {
    PoppedWeight(stack);
    var (e, more) := (stack[0][0], Popped(stack));
    if e.key in vis.ignored then MapFails(vis, more)
    else
      var (c, left) := ValueVisit(Sub(vis, e.key), e.val, more);
      if c.None? then ValueFails(Sub(vis, e.key), e.val, more) else MapFails(vis, left)
  }

  function SeqFails(vis: Visitor, stack: Stack): Error
    requires stack != [] && SeqVisit(vis, stack).0.None?
    decreases StackWeight(stack), 1
  {
    PoppedWeight(stack);
    var (c, left) := ValueVisit(vis, stack[0][0].val, Popped(stack));
    if c.None? then ValueFails(vis, stack[0][0].val, Popped(stack)) else SeqFails(vis, left)
  }

  // ----- one step of a visit -----

  /** When the visit of `stack` fails so does that of `cur`, for the same reason. */
  predicate SameMapFailure(vis: Visitor, stack: Stack, cur: Stack)
    requires stack != [] && cur != []
  {
    MapVisit(vis, stack).0.None? ==> MapVisit(vis, cur).0.None? && MapFails(vis, stack) == MapFails(vis, cur)
  }

  predicate SameSeqFailure(vis: Visitor, stack: Stack, cur: Stack)
    requires stack != [] && cur != []
  {
    SeqVisit(vis, stack).0.None? ==> SeqVisit(vis, cur).0.None? && SeqFails(vis, stack) == SeqFails(vis, cur)
  }

  lemma SameFailures(vis: Visitor, stack: Stack)
    requires stack != []
    ensures SameMapFailure(vis, stack, stack) && SameSeqFailure(vis, stack, stack)
  {
  }

  lemma FieldFails(vis: Visitor, stack: Stack, cur: Stack)
    requires stack != [] && cur != [] && cur[0] != [] && SameMapFailure(vis, stack, cur)
    requires cur[0][0].key !in vis.ignored
    ensures var e := cur[0][0];
            var (c, left) := ValueVisit(Sub(vis, e.key), e.val, Popped(cur));
            && (c.Some? && left != [] ==> SameMapFailure(vis, stack, left))
            && (c.None? && MapVisit(vis, stack).0.None? ==>
                  MapFails(vis, stack) == ValueFails(Sub(vis, e.key), e.val, Popped(cur)))
  {
    PoppedWeight(cur);
  }

  lemma IgnoredFails(vis: Visitor, stack: Stack, cur: Stack)
    requires stack != [] && cur != [] && cur[0] != [] && SameMapFailure(vis, stack, cur)
    requires cur[0][0].key in vis.ignored
    ensures SameMapFailure(vis, stack, if cur[0][0].val.Regex? then [[]] + Popped(cur) else Popped(cur))
  {
    PoppedWeight(cur);
  }

  lemma ElemFails(vis: Visitor, stack: Stack, cur: Stack)
    requires stack != [] && cur != [] && cur[0] != [] && SameSeqFailure(vis, stack, cur)
    ensures var (c, left) := ValueVisit(vis, cur[0][0].val, Popped(cur));
            && (c.Some? && left != [] ==> SameSeqFailure(vis, stack, left))
            && (c.None? && SeqVisit(vis, stack).0.None? ==>
                  SeqFails(vis, stack) == ValueFails(vis, cur[0][0].val, Popped(cur)))
  {
    PoppedWeight(cur);
  }

  // ----- the first value that is refused -----

  /** The first value that the visitor wants and that cannot be shown. */
  function FirstRefused(vis: Visitor, v: Value): Option<Value>
    decreases v, 0
  {
    match v
    case Doc(entries) => FirstRefusedField(vis, entries)
    case Arr(elements) => FirstRefusedElem(vis, elements)
    case Binary(_, _) | Regex(_, _) | F128(_) => Some(v)
    case _ => None
  }

  function FirstRefusedField(vis: Visitor, es: seq<Entry>): Option<Value>
    decreases es, 1
  {
    if es == [] then None
    else if es[0].key in vis.ignored then FirstRefusedField(vis, es[1..])
    else
      match FirstRefused(Sub(vis, es[0].key), es[0].val)
      case Some(v) => Some(v)
      case None => FirstRefusedField(vis, es[1..])
  }

  function FirstRefusedElem(vis: Visitor, es: seq<Entry>): Option<Value>
    decreases es, 1
  {
    if es == [] then None
    else
      match FirstRefused(vis, es[0].val)
      case Some(v) => Some(v)
      case None => FirstRefusedElem(vis, es[1..])
  }

  /** A visit that ignores no regular expression fails exactly when it comes across a value that cannot be shown, and
      with the error of the first one. */
  lemma {:induction false} FailsAtFirst(vis: Visitor, v: Value, stack: Stack)
    requires Smooth(vis, v)
    ensures match FirstRefused(vis, v)
            case Some(w) => ValueVisit(vis, v, stack).0.None? && ValueFails(vis, v, stack) == Refusal(w)
            case None => ValueVisit(vis, v, stack).0.Some?
    decreases v, 0, 0
  {
    match v
    case Doc(entries) => MapFailsAtFirst(vis, entries, stack);
    case Arr(elements) => SeqFailsAtFirst(vis, elements, stack);
    case _ =>
  }

  lemma {:induction false} MapFailsAtFirst(vis: Visitor, es: seq<Entry>, stack: Stack)
    requires SmoothFields(vis, es)
    ensures match FirstRefusedField(vis, es)
            case Some(w) => MapVisit(vis, [es] + stack).0.None? && MapFails(vis, [es] + stack) == Refusal(w)
            case None => MapVisit(vis, [es] + stack).0.Some?
    decreases es, 1, 0
  {
    var all := [es] + stack;
    assert all[1..] == stack && (es != [] ==> Popped(all) == [es[1..]] + stack);
    if es != [] {
      var e := es[0];
      assert if e.key in vis.ignored then !e.val.Regex? else Smooth(Sub(vis, e.key), e.val);
      if e.key !in vis.ignored {
        FailsAtFirst(Sub(vis, e.key), e.val, [es[1..]] + stack);
        SmoothVisit(Sub(vis, e.key), e.val, [es[1..]] + stack);
      }
      MapFailsAtFirst(vis, es[1..], stack);
    }
  }

  lemma {:induction false} SeqFailsAtFirst(vis: Visitor, es: seq<Entry>, stack: Stack)
    requires SmoothElems(vis, es)
    ensures match FirstRefusedElem(vis, es)
            case Some(w) => SeqVisit(vis, [es] + stack).0.None? && SeqFails(vis, [es] + stack) == Refusal(w)
            case None => SeqVisit(vis, [es] + stack).0.Some?
    decreases es, 1, 0
  {
    var all := [es] + stack;
    assert all[1..] == stack && (es != [] ==> Popped(all) == [es[1..]] + stack);
    if es != [] {
      FailsAtFirst(vis, es[0].val, [es[1..]] + stack);
      SmoothVisit(vis, es[0].val, [es[1..]] + stack);
      SeqFailsAtFirst(vis, es[1..], stack);
    }
  }
}
