/** Laws of the list edits that in-place editing refines. */
module EditLaws {
  import opened Bytes
  import opened Bson
  import opened Wrappers
  import opened Scan
  import opened DocMuts

  predicate NoRegex(es: seq<Entry>) {
    forall i | 0 <= i < |es| :: !es[i].val.Regex?
  }

  lemma {:induction false} FoundPlain(es: seq<Entry>, key: seq<byte>)
    requires NoRegex(es)
    ensures Visible(es) == es && Found(es, key) == IndexOf(es, key)
  {
    VisibleIsAll(es);
  }

  /** What `find` depends on: the keys and the regular expressions up to where it stops. */
  lemma {:induction false} FoundIs(es: seq<Entry>, key: seq<byte>, i: nat)
    requires i < |es| && es[i].key == key
    requires forall j | 0 <= j < i :: es[j].key != key && !es[j].val.Regex?
    ensures Present(es, key) && Found(es, key) == i
  {
    if i > 0 {
      var tl := es[1..];
      FoundIs(tl, key, i - 1);
      assert Visible(es) == [es[0]] + Visible(tl);
      assert Visible(es)[1..] == Visible(tl);
    }
  }

  /** Before the place where `find` stops there is neither the key nor a regular expression. */
  lemma FoundFirst(es: seq<Entry>, key: seq<byte>)
    requires Present(es, key)
    ensures forall j | 0 <= j < Found(es, key) :: es[j].key != key && !es[j].val.Regex?
  {
    forall j | 0 <= j < Found(es, key) ensures es[j].key != key && !es[j].val.Regex? {
      assert es[j] == Visible(es)[j];
      VisiblePlain(es, j);
    }
  }

  lemma {:induction false} AbsentIs(es: seq<Entry>, key: seq<byte>, i: nat)
    requires i < |es| && es[i].val.Regex?
    requires forall j | 0 <= j <= i :: es[j].key != key
    ensures !Present(es, key)
  {
    if es[0].val.Regex? {
      assert IndexOf([es[0]], key) == 1;
    } else {
      AbsentIs(es[1..], key, i - 1);
      assert Visible(es)[1..] == Visible(es[1..]);
    }
  }

  /** After `insert` a scan finds the value under its key, at the place of the old one or at the end, exactly when the
      key was found before or no regular expression hides the end. */
  lemma PutThenFind(es: seq<Entry>, key: NulFree, v: Value)
    ensures Present(Put(es, key, v), key) <==> Present(es, key) || NoRegex(es)
    ensures Present(Put(es, key, v), key) ==>
              var i := Found(Put(es, key, v), key);
              Put(es, key, v)[i] == Entry(key, v) && i == if Present(es, key) then Found(es, key) else |es|
  {
    var put := Put(es, key, v);
    if Present(es, key) {
      FoundFirst(es, key);
      FoundIs(put, key, Found(es, key));
    } else if NoRegex(es) {
      FoundPlain(es, key);
      assert forall j | 0 <= j < |es| :: put[j] == es[j] && es[j].key != key;
      FoundIs(put, key, |es|);
    } else {
      var i := FirstRegex(es);
      assert forall j | 0 <= j <= i :: put[j] == es[j];
      if exists j :: 0 <= j <= i && es[j].key == key {
        var j := IndexOf(es, key);
        FoundIs(es, key, j);
      } else {
        AbsentIs(put, key, i);
      }
    }
  }

  lemma {:induction false} FirstRegex(es: seq<Entry>) returns (i: nat)
    requires !NoRegex(es)
    ensures i < |es| && es[i].val.Regex? && forall j | 0 <= j < i :: !es[j].val.Regex?
  {
    if es[0].val.Regex? {
      i := 0;
    } else {
      var k :| 0 <= k < |es| && es[k].val.Regex?;
      assert es[1..][k - 1].val.Regex?;
      i := FirstRegex(es[1..]);
      i := i + 1;
    }
  }

  /** `remove` undoes an `insert` of a new key. */
  lemma DeleteUndoesPut(es: seq<Entry>, key: NulFree, v: Value)
    requires !Present(es, key) && NoRegex(es)
    ensures Delete(Put(es, key, v), key) == es
  {
    PutThenFind(es, key, v);
  }

  /** A second `insert` under the same key overwrites the first. */
  lemma PutTwice(es: seq<Entry>, key: NulFree, v: Value, w: Value)
    requires Present(es, key) || NoRegex(es)
    ensures Put(Put(es, key, v), key, w) == Put(es, key, w)
  {
    PutThenFind(es, key, v);
  }

  // ----- runs of edits -----

  predicate DistinctKeys(es: seq<Entry>) {
    forall i, j | 0 <= i < j < |es| :: es[i].key != es[j].key
  }

  /** What `get_any` finds under a key. */
  function Lookup(es: seq<Entry>, key: seq<byte>): Option<Value> {
    if Present(es, key) then Some(es[Found(es, key)].val) else None
  }

  lemma LookupIs(es: seq<Entry>, i: nat)
    requires NoRegex(es) && DistinctKeys(es) && i < |es|
    ensures Lookup(es, es[i].key) == Some(es[i].val)
  {
    FoundIs(es, es[i].key, i);
  }

  lemma LookupNone(es: seq<Entry>, key: seq<byte>)
    requires NoRegex(es)
    ensures Lookup(es, key) == None <==> forall i | 0 <= i < |es| :: es[i].key != key
  {
    FoundPlain(es, key);
  }

  datatype Edit = Append(key: NulFree, val: Value) | Insert(key: NulFree, val: Value) | Remove(key: NulFree)

  function Edited(es: seq<Entry>, e: Edit): seq<Entry> {
    match e
    case Append(key, v) => es + [Entry(key, v)]
    case Insert(key, v) => Put(es, key, v)
    case Remove(key) => Delete(es, key)
  }

  function EditedMap(m: map<NulFree, Value>, e: Edit): map<NulFree, Value> {
    match e
    case Append(key, v) => m[key := v]
    case Insert(key, v) => m[key := v]
    case Remove(key) => m - {key}
  }

  function RunEdits(es: seq<Entry>, edits: seq<Edit>): seq<Entry>
    decreases |edits|
  {
    if edits == [] then es else RunEdits(Edited(es, edits[0]), edits[1..])
  }

  function RunMap(m: map<NulFree, Value>, edits: seq<Edit>): map<NulFree, Value>
    decreases |edits|
  {
    if edits == [] then m else RunMap(EditedMap(m, edits[0]), edits[1..])
  }

  function Keys(es: seq<Entry>): set<NulFree> {
    set i | 0 <= i < |es| :: es[i].key
  }

  /** An entry list that holds what a map holds, each key once. */
  predicate Represents(es: seq<Entry>, m: map<NulFree, Value>) {
    && NoRegex(es) && DistinctKeys(es)
    && m.Keys == Keys(es)
    && (forall i | 0 <= i < |es| :: es[i].key in m && m[es[i].key] == es[i].val)
  }

  /** No regular expression is written, and only new keys are appended. */
  predicate MapLike(m: map<NulFree, Value>, edits: seq<Edit>)
    decreases |edits|
  {
    edits != [] ==>
      var e := edits[0];
      && (e.Remove? || !e.val.Regex?) && (e.Append? ==> e.key !in m)
      && MapLike(EditedMap(m, e), edits[1..])
  }

  lemma ReplaceRepresents(es: seq<Entry>, m: map<NulFree, Value>, at: nat, v: Value)
    requires Represents(es, m) && at < |es| && !v.Regex?
    ensures Represents(es[at := Entry(es[at].key, v)], m[es[at].key := v])
  {
    var fs := es[at := Entry(es[at].key, v)];
    assert forall i | 0 <= i < |es| ::
          fs[i].key == es[i].key && (i != at ==> fs[i] == es[i] && es[i].key != es[at].key);
  }

  lemma AppendRepresents(es: seq<Entry>, m: map<NulFree, Value>, e: Entry)
    requires Represents(es, m) && !e.val.Regex? && forall i | 0 <= i < |es| :: es[i].key != e.key
    ensures Represents(es + [e], m[e.key := e.val])
  {
    var fs := es + [e];
    assert fs[|es|] == e;
    assert forall i | 0 <= i < |es| :: fs[i] == es[i];
  }

  lemma CutKeys(es: seq<Entry>, at: nat)
    requires DistinctKeys(es) && at < |es|
    ensures Keys(es[..at] + es[at + 1..]) == Keys(es) - {es[at].key}
  {
    var a, b := es[..at], es[at + 1..];
    assert es == a + [es[at]] + b;
    assert Keys(es) == Keys(a) + {es[at].key} + Keys(b) by {
      KeysOfSum(a, [es[at]]);
      KeysOfSum(a + [es[at]], b);
      assert Keys([es[at]]) == {es[at].key};
    }
    KeysOfSum(a, b);
    assert es[at].key !in Keys(a) && es[at].key !in Keys(b);
  }

  lemma KeysOfSum(a: seq<Entry>, b: seq<Entry>)
    ensures Keys(a + b) == Keys(a) + Keys(b)
  {
    assert forall i | 0 <= i < |a| :: (a + b)[i] == a[i];
    assert forall i | 0 <= i < |b| :: (a + b)[|a| + i] == b[i];
  }

  lemma CutKeeps(es: seq<Entry>, at: nat)
    requires DistinctKeys(es) && NoRegex(es) && at < |es|
    ensures var fs := es[..at] + es[at + 1..];
            DistinctKeys(fs) && NoRegex(fs) && forall i | 0 <= i < |fs| :: fs[i] in es && fs[i].key != es[at].key
  {
    var fs := es[..at] + es[at + 1..];
    assert forall i | 0 <= i < |fs| :: fs[i] == if i < at then es[i] else es[i + 1];
  }

  lemma CutRepresents(es: seq<Entry>, m: map<NulFree, Value>, at: nat)
    requires Represents(es, m) && at < |es|
    ensures Represents(es[..at] + es[at + 1..], m - {es[at].key})
  {
    CutKeys(es, at);
    CutKeeps(es, at);
    var fs := es[..at] + es[at + 1..];
    hide Keys, DistinctKeys, NoRegex;
    assert forall e | e in es :: e.key in m && m[e.key] == e.val;
  }

  lemma Untouched(es: seq<Entry>, key: seq<byte>)
    requires !Present(es, key)
    ensures Delete(es, key) == es
  {
  }

  lemma RemoveRepresents(es: seq<Entry>, m: map<NulFree, Value>, key: NulFree)
    requires Represents(es, m)
    ensures Represents(Delete(es, key), m - {key})
  {
    FoundPlain(es, key);
    if Present(es, key) {
      var i := Found(es, key);
      assert es[i].key == key && Delete(es, key) == es[..i] + es[i + 1..];
      hide *;
      CutRepresents(es, m, i);
    } else {
      assert m.Keys == Keys(es) && key !in Keys(es);
      hide *;
      assert m - {key} == m;
      assert Delete(es, key) == es by { Untouched(es, key); }
    }
  }

  lemma InsertRepresents(es: seq<Entry>, m: map<NulFree, Value>, key: NulFree, v: Value)
    requires Represents(es, m) && !v.Regex?
    ensures Represents(Put(es, key, v), m[key := v])
  {
    FoundPlain(es, key);
    if Present(es, key) {
      ReplaceRepresents(es, m, Found(es, key), v);
    } else {
      assert forall i | 0 <= i < |es| :: es[i].key != key;
      AppendRepresents(es, m, Entry(key, v));
    }
    hide Represents;
  }

  lemma EditRepresents(es: seq<Entry>, m: map<NulFree, Value>, e: Edit)
    requires Represents(es, m) && (e.Remove? || !e.val.Regex?) && (e.Append? ==> e.key !in m)
    ensures Represents(Edited(es, e), EditedMap(m, e))
  {
    match e
    case Append(key, v) =>
      assert key !in Keys(es);
      AppendRepresents(es, m, Entry(key, v));
    case Insert(key, v) => InsertRepresents(es, m, key, v);
    case Remove(key) => RemoveRepresents(es, m, key);
  }

  /** Any such run acts on a document as it would on a map: each key once, with the value last written for it. */
  lemma {:induction false} RunsAsMap(es: seq<Entry>, m: map<NulFree, Value>, edits: seq<Edit>)
    requires Represents(es, m) && MapLike(m, edits)
    ensures Represents(RunEdits(es, edits), RunMap(m, edits))
    decreases |edits|
  {
    if edits != [] {
      EditRepresents(es, m, edits[0]);
      hide Represents;
      RunsAsMap(Edited(es, edits[0]), EditedMap(m, edits[0]), edits[1..]);
    }
  }

  /** In a document that holds a map, looking up a key is looking it up in the map. */
  lemma LookupInMap(es: seq<Entry>, m: map<NulFree, Value>, key: NulFree)
    requires Represents(es, m)
    ensures Lookup(es, key) == if key in m then Some(m[key]) else None
  {
    LookupNone(es, key);
    if key in m {
      var i :| 0 <= i < |es| && es[i].key == key;
      LookupIs(es, i);
    }
  }

  /** Editing a nested document leaves every other entry of the root document as it was. */
  lemma {:induction false} EditIsLocal(p: Place, es: seq<Entry>, fs: seq<Entry>) returns (at: nat)
    requires p.In?
    ensures var a, b := Plug(p, es), Plug(p, fs);
            |a| == |b| && at < |a| && a[at].key == b[at].key && a == b[at := a[at]]
    decreases p
  {
    if p.outer.Root? {
      at := |p.before|;
      var a, b := p.before + [Nested(p, es)] + p.after, p.before + [Nested(p, fs)] + p.after;
      assert a == b[at := a[at]];
    } else {
      at := EditIsLocal(p.outer, p.before + [Nested(p, es)] + p.after, p.before + [Nested(p, fs)] + p.after);
    }
  }
}
