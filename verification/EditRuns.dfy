/** Lookups and runs of edits on one buffer: the scanners agree, and any run refines the list it stands for. */
module EditRuns {
  import opened Bytes
  import opened Bson
  import opened Wrappers
  import opened Scan
  import opened DocRefs
  import opened DocMuts
  import opened EditLaws

  /** `find` and the iterator on the same document: whether each finds the key, and the values they read there. The
      iterator of `DocMut` is bounded by the declared length, that of `Document` only by the buffer's. */
  method FindAgrees(doc: DocMut, key: seq<byte>, ghost p: Place, ghost es: seq<Entry>, ghost stale: seq<byte>)
    returns (found: bool, listed: bool, contained: bool, here: Option<Item>, there: Option<Item>, ghost last: nat)
    requires doc.Holds(p, es, stale)
    ensures found == listed == contained == Present(es, key)
    ensures here == there && (here.Some? <==> found)
    ensures doc.off + 4 <= |doc.vec.data| && last < doc.off + doc.Size()
  {
    hide *;
    doc.Parts(p, es, stale);
    Declared(doc, p, es, stale);
    PresentVisible(es, key);
    SameTail(p, es, stale, key);
    found, here, last := FindAny(doc, key, p, es, stale);
    listed := ContainsAny(doc.vec.data[doc.off + 4..doc.off + doc.Size()], key, es, []);
    contained := ContainsAny(doc.vec.data[doc.off + 4..], key, es, After(p, stale));
    there := DocRefs.GetAny(doc.vec.data[doc.off + 4..], key, es, After(p, stale));
  }

  /** `find`, and `get_any` of what it finds. */
  method FindAny(doc: DocMut, key: seq<byte>, ghost p: Place, ghost es: seq<Entry>, ghost stale: seq<byte>)
    returns (found: bool, here: Option<Item>, ghost last: nat)
    requires doc.Holds(p, es, stale)
    ensures found == Present(es, key) && last < doc.off + |EncDoc(es)|
    ensures here == if !found then None else
              var i := Found(es, key); Some(ItemOf(es[i].val, EncEntries(es[i + 1..]) + Close(p, stale)))
  {
    hide *;
    var e;
    e, last := doc.Find(key, p, es, stale);
    found, here := e.Some?, None;
    if found {
      var item := e.value.GetAny(p, es, stale, Found(es, key));
      here := Some(item);
    }
  }

  /** Both scanners stop at the same entry, and the same bytes follow it. */
  lemma SameTail(p: Place, es: seq<Entry>, stale: seq<byte>, key: seq<byte>)
    ensures Present(es, key) <==> IndexOf(Visible(es), key) < |Visible(es)|
    ensures Present(es, key) ==>
              && Found(es, key) == IndexOf(Visible(es), key) < |es|
              && EncEntries(es[Found(es, key) + 1..]) + Close(p, stale)
                  == Tail(es[Found(es, key) + 1..], After(p, stale))
  {
    if Present(es, key) { Assoc(EncEntries(es[Found(es, key) + 1..]), [0], After(p, stale)); }
  }

  lemma Declared(doc: DocMut, p: Place, es: seq<Entry>, stale: seq<byte>)
    requires doc.Holds(p, es, stale)
    ensures doc.off + 4 <= |doc.vec.data| && doc.Size() == |EncDoc(es)| >= 4
    ensures doc.off + doc.Size() <= |doc.vec.data|
    ensures doc.vec.data[doc.off + 4..doc.off + doc.Size()] == Tail(es, [])
  {
    hide *;
    var n, close := |EncDoc(es)|, Close(p, stale);
    doc.Parts(p, es, stale);
    Standing(doc, p, es, stale);
    TailEnds(es, After(p, stale));
    Assoc(Before(p, n) + LE32(n), EncEntries(es), close);
    doc.SizeIs(p, n, EncEntries(es) + close);
    assert doc.vec.data[doc.off + 4..doc.off + n] == doc.vec.data[doc.off + 4..][..n - 4];
  }

  lemma Standing(doc: DocMut, p: Place, es: seq<Entry>, stale: seq<byte>)
    requires doc.Holds(p, es, stale)
    ensures var n := |EncDoc(es)|;
            && n == 5 + |EncEntries(es)| && n < TWO_31 && doc.At(p)
            && doc.vec.data == Before(p, n) + LE32(n) + EncEntries(es) + Close(p, stale)
  {
    hide EncEntries, Before, Close, RootLen, LE32;
    assert |EncDoc(es)| <= RootLen(p, |EncDoc(es)|);
  }

  lemma TailEnds(es: seq<Entry>, rest: seq<byte>)
    ensures Tail(es, rest) == Tail(es, []) + rest && |Tail(es, [])| == |EncDoc(es)| - 4
  {
    hide EncEntries;
  }

  lemma PresentVisible(es: seq<Entry>, key: seq<byte>)
    ensures Present(es, key) <==> exists e :: e in Visible(es) && e.key == key
  {
    if Present(es, key) {
      assert Visible(es)[Found(es, key)] in Visible(es);
    }
  }

  // ----- runs of edits -----

  predicate Hits(es: seq<Entry>, e: Edit) {
    !e.Append? && HitsRegex(es, e.key)
  }

  /** The edit at `i` of a run overwrites or removes a regular expression. */
  predicate HitAt(es: seq<Entry>, edits: seq<Edit>, i: nat)
    requires i < |edits|
  {
    Hits(RunEdits(es, edits[..i]), edits[i])
  }

  /** The edit writes no date and keeps the root's length below 2^31. */
  predicate Fits(p: Place, es: seq<Entry>, e: Edit) {
    match e
    case Append(key, v) => !v.Datetime? && RootLen(p, |EncDoc(es)| + 2 + |key| + Bson.Size(v)) < TWO_31
    case Insert(key, v) => !v.Datetime? && RootLen(p, |PutBody(es, key, v)| + 5) < TWO_31
    case Remove(_) => true
  }

  predicate Answer(es: seq<Entry>, e: Edit) {
    !e.Append? && Present(es, e.key)
  }

  lemma {:induction false} RunSnoc(es: seq<Entry>, edits: seq<Edit>, i: nat)
    requires i < |edits|
    ensures RunEdits(es, edits[..i + 1]) == Edited(RunEdits(es, edits[..i]), edits[i])
    decreases i
  {
    if i == 0 {
      assert edits[..1][1..] == [] && edits[..0] == [];
    } else {
      assert edits[..i + 1][1..] == edits[1..][..i] && edits[..i][1..] == edits[1..][..i - 1];
      RunSnoc(Edited(es, edits[0]), edits[1..], i - 1);
    }
  }

  method Apply(doc: DocMut, e: Edit, ghost p: Place, ghost es: seq<Entry>, ghost stale: seq<byte>)
    returns (r: bool, ghost stale': seq<byte>)
    requires doc.Holds(p, es, stale) && Fits(p, es, e)
    modifies doc.vec
    ensures r == Answer(es, e) && stale <= stale'
    ensures !Hits(es, e) ==> doc.Holds(p, Edited(es, e), stale')
    ensures Hits(es, e) ==> forall fs, t :: !doc.Holds(p, fs, t)
  {
    match e
    case Append(key, v) =>
      doc.Append(key, v, p, es, stale);
      r, stale' := false, stale;
    case Insert(key, v) =>
      r, stale' := doc.Insert(key, v, p, es, stale);
    case Remove(key) =>
      r := doc.Remove(key, p, es, stale);
      stale' := stale;
  }

  /** Any run of edits, at any depth, up to the first that overwrites or removes a regular expression: every call
      answers whether the key was there, and the buffer holds what the run makes of the list, or after such an edit no
      list at all. */
  method ApplyAll(doc: DocMut, edits: seq<Edit>, ghost p: Place, ghost es: seq<Entry>, ghost stale: seq<byte>)
    returns (answers: seq<bool>, ghost stale': seq<byte>)
    requires doc.Holds(p, es, stale)
    requires forall i | 0 <= i < |edits| :: Fits(p, RunEdits(es, edits[..i]), edits[i])
    requires forall i | 0 <= i < |edits| - 1 :: !HitAt(es, edits, i)
    modifies doc.vec
    ensures |answers| == |edits| && stale <= stale'
    ensures forall i | 0 <= i < |edits| :: answers[i] == Answer(RunEdits(es, edits[..i]), edits[i])
    ensures if edits != [] && HitAt(es, edits, |edits| - 1) then forall fs, t :: !doc.Holds(p, fs, t)
            else doc.Holds(p, RunEdits(es, edits), stale')
  {
    hide Fits, Answer, Edited, RunEdits, Hits, Layout, RootLen, DocMut.Holds;
    answers, stale' := [], stale;
    RunNothing(es, edits);
    for i := 0 to |edits|
      invariant |answers| == i && stale <= stale'
      invariant if i > 0 && HitAt(es, edits, i - 1) then i == |edits| && forall fs, t :: !doc.Holds(p, fs, t)
                else doc.Holds(p, RunEdits(es, edits[..i]), stale')
      invariant forall j | 0 <= j < i :: answers[j] == Answer(RunEdits(es, edits[..j]), edits[j])
    {
      RunSnoc(es, edits, i);
      var r;
      r, stale' := Apply(doc, edits[i], p, RunEdits(es, edits[..i]), stale');
      answers := answers + [r];
    }
    assert edits[..|edits|] == edits;
  }

  lemma RunNothing(es: seq<Entry>, edits: seq<Edit>)
    ensures RunEdits(es, edits[..0]) == es
  {
  }
}
