/** In-place editing of a document at any depth of a larger one: `DocMut` and `OccupiedEntry`. */
module DocMuts {
  import opened Bytes
  import opened Bson
  import opened Vecs
  import opened Wrappers
  import opened Scan
  import opened Write
  import opened DocRefs

  /** Where a document sits: it is the one the buffer starts with, or the value of an entry of an enclosing document,
      between that document's other entries. */
  datatype Place =
    | Root
    | In(outer: Place, before: seq<Entry>, key: NulFree, isArray: bool, after: seq<Entry>)

  /** What precedes a nested document among the enclosing one's entries. */
  function Lead(p: Place): seq<byte>
    requires p.In?
  {
    EncEntries(p.before) + Head(if p.isArray then 0x04 else 0x03, p.key)
  }

  /** The length of the directly enclosing document when the one at `p` is `n` bytes long. */
  function OuterLen(p: Place, n: nat): nat
    requires p.In?
  {
    4 + |Lead(p)| + n + |EncEntries(p.after)| + 1
  }

  function RootLen(p: Place, n: nat): (r: nat)
    ensures r >= n
  {
    if p.Root? then n else RootLen(p.outer, OuterLen(p, n))
  }

  function Offset(p: Place): nat {
    if p.Root? then 0 else Offset(p.outer) + 4 + |Lead(p)|
  }

  /** The bytes before a document of length `n`; only the length fields in them depend on `n`. */
  function Before(p: Place, n: nat): (s: seq<byte>)
    ensures |s| == Offset(p)
  {
    if p.Root? then [] else Before(p.outer, OuterLen(p, n)) + LE32(OuterLen(p, n)) + Lead(p)
  }

  /** The bytes after a document: the rest of the enclosing ones, then what lies outside the root's declared length. */
  function After(p: Place, stale: seq<byte>): seq<byte> {
    if p.Root? then stale else EncEntries(p.after) + [0] + After(p.outer, stale)
  }

  /** Everything up to and with a document's length field. */
  function Open(p: Place, n: nat): (s: seq<byte>)
    ensures |s| == Offset(p) + 4
  {
    Before(p, n) + LE32(n)
  }

  /** Everything from a document's terminator on. */
  function Close(p: Place, stale: seq<byte>): seq<byte> {
    [0] + After(p, stale)
  }

  /** The whole buffer when the document at `p` has the given bytes between length and terminator. */
  function Layout(p: Place, body: seq<byte>, stale: seq<byte>): seq<byte> {
    Open(p, |body| + 5) + body + Close(p, stale)
  }

  function Nested(p: Place, es: seq<Entry>): Entry
    requires p.In?
  {
    Entry(p.key, if p.isArray then Arr(es) else Doc(es))
  }

  /** The root document's entries when the document at `p` has the entries `es`. */
  function Plug(p: Place, es: seq<Entry>): seq<Entry> {
    if p.Root? then es else Plug(p.outer, p.before + [Nested(p, es)] + p.after)
  }

  lemma Assoc(a: seq<byte>, b: seq<byte>, c: seq<byte>)
    ensures (a + b) + c == a + (b + c)
  {
  }

  lemma Regroup(a: seq<byte>, lead: seq<byte>, len: seq<byte>, body: seq<byte>, after: seq<byte>, rest: seq<byte>)
    ensures a + lead + len + body + ([0] + (after + [0] + rest))
              == a + (lead + (len + body + [0]) + after) + ([0] + rest)
  {
  }

  /** The enclosing document's entries around a nested document. */
  lemma OuterBody(p: Place, es: seq<Entry>)
    requires p.In?
    ensures EncEntries(p.before + [Nested(p, es)] + p.after) == Lead(p) + EncDoc(es) + EncEntries(p.after)
  {
    var e := Nested(p, es);
    EncConcat(p.before + [e], p.after);
    EncAppend(p.before, e);
    assert EncEntry(e) == Head(Id(e.val), e.key) + EncDoc(es);
    hide EncEntries, EncEntry, EncDoc;
    Assoc(EncEntries(p.before), Head(Id(e.val), e.key), EncDoc(es));
  }

  /** A nested document's layout is its enclosing document's. */
  lemma NestedLayout(p: Place, es: seq<Entry>, stale: seq<byte>)
    requires p.In?
    ensures Layout(p, EncEntries(es), stale) == Layout(p.outer, Lead(p) + EncDoc(es) + EncEntries(p.after), stale)
  {
    hide EncEntries;
    var body, n, m := EncEntries(es), |EncDoc(es)|, OuterLen(p, |EncDoc(es)|);
    var outerBody := Lead(p) + EncDoc(es) + EncEntries(p.after);
    assert |outerBody| + 5 == m;
    assert Open(p, n) == Open(p.outer, m) + Lead(p) + LE32(n);
    assert Close(p, stale) == [0] + (EncEntries(p.after) + [0] + After(p.outer, stale));
    assert Layout(p, body, stale) == Open(p, n) + body + Close(p, stale);
    assert Layout(p.outer, outerBody, stale) == Open(p.outer, m) + outerBody + Close(p.outer, stale);
    assert EncDoc(es) == LE32(n) + body + [0];
    assert Close(p.outer, stale) == [0] + After(p.outer, stale);
    hide *;
    Regroup(Open(p.outer, m), Lead(p), LE32(n), body, EncEntries(p.after), After(p.outer, stale));
  }

  /** The buffer is the root document's encoding, followed by bytes outside its declared length. */
  lemma {:induction false} LayoutIsEncoding(p: Place, es: seq<Entry>, stale: seq<byte>)
    ensures Layout(p, EncEntries(es), stale) == EncDoc(Plug(p, es)) + stale
    ensures RootLen(p, |EncDoc(es)|) == |EncDoc(Plug(p, es))|
    decreases p
  {
    hide EncEntries;
    if p.Root? {
      assert [] + LE32(|EncDoc(es)|) + EncEntries(es) + ([0] + stale) == EncDoc(es) + stale;
    } else {
      OuterBody(p, es);
      NestedLayout(p, es, stale);
      hide Layout;
      LayoutIsEncoding(p.outer, p.before + [Nested(p, es)] + p.after, stale);
    }
  }

  /** Where a scan finds the key, counting entries; their number when it does not. */
  function Found(es: seq<Entry>, key: seq<byte>): (i: nat)
    ensures i <= |Visible(es)| <= |es|
    ensures i < |Visible(es)| ==> es[i].key == key
  {
    IndexOf(Visible(es), key)
  }

  predicate Present(es: seq<Entry>, key: seq<byte>) {
    Found(es, key) < |Visible(es)|
  }

  /** An edit that has to pass over a regular expression leaves its last NUL behind. */
  predicate HitsRegex(es: seq<Entry>, key: seq<byte>) {
    Present(es, key) && es[Found(es, key)].val.Regex?
  }

  function Put(es: seq<Entry>, key: NulFree, v: Value): seq<Entry> {
    if Present(es, key) then es[Found(es, key) := Entry(key, v)] else es + [Entry(key, v)]
  }

  function Delete(es: seq<Entry>, key: seq<byte>): seq<Entry> {
    var i := Found(es, key);
    if Present(es, key) then es[..i] + es[i + 1..] else es
  }

  /** The bytes between length and terminator once the value of entry `i` is overwritten by `v`. */
  function ReplacedBody(es: seq<Entry>, i: nat, v: Value): seq<byte>
    requires i < |es|
  {
    EncEntries(es[..i]) + Head(Id(v), es[i].key) + EncVal(v) + Stray(es[i].val) + EncEntries(es[i + 1..])
  }

  /** The bytes between length and terminator once entry `i` is cut out. */
  function RemovedBody(es: seq<Entry>, i: nat): seq<byte>
    requires i < |es|
  {
    EncEntries(es[..i]) + Stray(es[i].val) + EncEntries(es[i + 1..])
  }

  /** Bytes with a stray NUL after some entries encode no entry list at all. */
  lemma StrayNeverEncodes(es: seq<Entry>, more: seq<byte>, fs: seq<Entry>)
    requires |EncEntries(es) + [0] + more| < TWO_31
    ensures EncEntries(es) + [0] + more != EncEntries(fs)
  {
    if EncEntries(es) + [0] + more == EncEntries(fs) {
      assert EncEntries(fs) + [0] + [] == EncEntries(es) + [0] + (more + [0]);
      EntriesInjective(fs, es, [], more + [0]);
      assert false;
    }
  }

  /** Overwriting a value is a replacement in the list exactly when the old value is no regular expression; otherwise
      the bytes encode no list. */
  lemma ReplacedBodyEncodes(es: seq<Entry>, i: nat, v: Value)
    requires i < |es| && |ReplacedBody(es, i, v)| < TWO_31
    ensures !es[i].val.Regex? ==> ReplacedBody(es, i, v) == EncEntries(es[i := Entry(es[i].key, v)])
    ensures es[i].val.Regex? ==> forall fs :: ReplacedBody(es, i, v) != EncEntries(fs)
  {
    var e, pre, post := Entry(es[i].key, v), EncEntries(es[..i]), EncEntries(es[i + 1..]);
    EncAppend(es[..i], e);
    Assoc(pre, Head(Id(v), e.key), EncVal(v));
    assert ReplacedBody(es, i, v) == pre + EncEntry(e) + Stray(es[i].val) + post;
    if es[i].val.Regex? {
      hide EncEntries, EncEntry, ReplacedBody;
      forall fs ensures ReplacedBody(es, i, v) != EncEntries(fs) {
        StrayNeverEncodes(es[..i] + [e], post, fs);
      }
    } else {
      EncConcat(es[..i] + [e], es[i + 1..]);
      hide EncEntries, EncEntry, ReplacedBody;
      assert es[i := e] == es[..i] + [e] + es[i + 1..];
      assert pre + EncEntry(e) + [] + post == pre + EncEntry(e) + post;
    }
  }

  /** The same for cutting an entry out. */
  lemma RemovedBodyEncodes(es: seq<Entry>, i: nat)
    requires i < |es| && |RemovedBody(es, i)| < TWO_31
    ensures !es[i].val.Regex? ==> RemovedBody(es, i) == EncEntries(es[..i] + es[i + 1..])
    ensures es[i].val.Regex? ==> forall fs :: RemovedBody(es, i) != EncEntries(fs)
  {
    if es[i].val.Regex? {
      forall fs ensures RemovedBody(es, i) != EncEntries(fs) {
        StrayNeverEncodes(es[..i], EncEntries(es[i + 1..]), fs);
      }
    } else {
      EncConcat(es[..i], es[i + 1..]);
    }
  }

  lemma SpliceBetween(a: seq<byte>, b: seq<byte>, c: seq<byte>, x: seq<byte>)
    requires |x| == |b|
    ensures Splice(a + b + c, |a|, x) == a + x + c
  {
  }

  lemma BeforeOuter(p: Place, n: nat, x: seq<byte>, y: seq<byte>)
    requires p.In?
    ensures var m := OuterLen(p, n);
            Before(p, n) + x + y == Before(p.outer, m) + LE32(m) + (Lead(p) + x + y)
  {
    hide Lead, LE32;
  }

  /** `resize` and `copy_within`: everything from `at` on moves up by `len` bytes. */
  method OpenGap(vec: Vec, at: nat, len: nat, ghost pre: seq<byte>, ghost post: seq<byte>)
    returns (ghost gap: seq<byte>)
    requires vec.data == pre + post && at == |pre|
    modifies vec
    ensures |gap| == len && vec.data == pre + gap + post
  {
    var bufLen := |vec.data|;
    vec.Resize(bufLen + len);
    gap := ShiftedUp(pre, post, len);
    vec.CopyWithin(at, bufLen, at + len);
  }

  lemma ShiftedUp(pre: seq<byte>, post: seq<byte>, len: nat) returns (gap: seq<byte>)
    ensures var s, at, end := pre + post + Zeros(len), |pre|, |pre| + |post|;
            s[..at + len] + s[at..end] + s[at + len + (end - at)..] == pre + gap + post
    ensures |gap| == len
  {
    var s, tail := pre + post + Zeros(len), post + Zeros(len);
    gap := tail[..len];
    assert s == pre + tail;
    assert s[..|pre| + len] == pre + gap;
    assert s[|pre|..|pre| + |post|] == post;
  }

  lemma ShiftedDown(pre: seq<byte>, hole: seq<byte>, post: seq<byte>, now: nat)
    returns (gap: seq<byte>, stale: seq<byte>)
    requires now < |hole|
    ensures var s, at, was := pre + hole + post, |pre|, |hole|;
            s[..at + now] + s[at + was..|s|] + s[at + now + (|s| - (at + was))..] == pre + gap + post + stale
    ensures |gap| == now && |stale| == |hole| - now
  {
    var s, was := pre + hole + post, |pre| + |hole|;
    gap, stale := hole[..now], s[|pre| + now + (|s| - was)..];
    assert s == pre + gap + (hole[now..] + post) && |pre + gap| == |pre| + now;
    assert s[..|pre| + now] == pre + gap;
    assert s[was..|s|] == post;
  }

  /** The surgery for a smaller value. The buffer keeps its length, because `truncate` is asked for a longer one. */
  method ShiftDown(vec: Vec, at: nat, was: nat, now: nat, ghost pre: seq<byte>, ghost hole: seq<byte>,
      ghost post: seq<byte>)
    returns (ghost gap: seq<byte>, ghost stale: seq<byte>)
    requires vec.data == pre + hole + post && at == |pre| && was == |hole| && now < was
    modifies vec
    ensures |gap| == now && vec.data == pre + gap + post + stale
    ensures |stale| == was - now
  {
    var len := |vec.data|;
    gap, stale := ShiftedDown(pre, hole, post, now);
    assert len - (at + was) == |post|;
    vec.CopyWithin(at + was, len, at + now);
    assert vec.data == pre + gap + post + stale;
    vec.Truncate(len + was - now);
  }

  /** The buffer surgery of `OccupiedEntry::insert`: the `was` bytes between `pre` and `post` give way to `now` ones. */
  method ResizeHole(vec: Vec, at: nat, was: nat, now: nat, ghost pre: seq<byte>, ghost hole: seq<byte>,
      ghost post: seq<byte>)
    returns (ghost gap: seq<byte>, ghost stale: seq<byte>)
    requires vec.data == pre + hole + post && at == |pre| && was == |hole|
    modifies vec
    ensures |gap| == now && vec.data == pre + gap + post + stale
    ensures |stale| == if now < was then was - now else 0
  {
    gap, stale := hole, [];
    if now < was {
      gap, stale := ShiftDown(vec, at, was, now, pre, hole, post);
    } else if now > was {
      ghost var more := OpenGap(vec, at + was, now - was, pre + hole, post);
      gap := hole + more;
      Assoc(pre, hole, more);
    }
    assert stale == [] ==> pre + gap + post == pre + gap + post + stale;
  }

  /** The four writes of an entry into a gap of its size. */
  method WriteEntry(vec: Vec, at: nat, key: NulFree, v: Value, ghost pre: seq<byte>, ghost gap: seq<byte>,
      ghost post: seq<byte>)
    requires vec.data == pre + gap + post && at == |pre| && |gap| == 2 + |key| + Size(v)
    requires !v.Datetime?
    modifies vec
    ensures vec.data == pre + EncEntry(Entry(key, v)) + post
  {
    ghost var head, val := Head(Id(v), key), EncVal(v);
    ghost var g1, g2 := gap[..|head|], gap[|head|..];
    assert EncEntry(Entry(key, v)) == head + val && head == [Id(v)] + key + [0];
    hide *;
    CutGap(pre, gap, g1, g2, post);
    WriteParts(vec, at, [Id(v)], key, [0]);
    SpliceBetween(pre, g1, g2 + post, head);
    Assoc(pre + head, g2, post);
    WriteBson(v, vec, at + 2 + |key|);
    SpliceBetween(pre + head, g2, post, val);
    Assoc(pre, head, val);
  }

  lemma CutGap(pre: seq<byte>, gap: seq<byte>, g1: seq<byte>, g2: seq<byte>, post: seq<byte>)
    requires gap == g1 + g2
    ensures pre + gap + post == pre + g1 + (g2 + post)
  {
  }

  class DocMut {
    const vec: Vec
    const out: DocMut?
    const off: nat

    constructor (vec: Vec, out: DocMut?, off: nat)
      ensures this.vec == vec && this.out == out && this.off == off
    {
      this.vec := vec;
      this.out := out;
      this.off := off;
    }

    /** This object and its chain of enclosing documents describe the place `p`. */
    ghost predicate At(p: Place)
      decreases p
    {
      && off == Offset(p)
      && match p
         case Root => out == null
         case In(outer, _, _, _, _) => out != null && out.vec == vec && out.At(outer)
    }

    /** The buffer is laid out for this document with the entries `es`, in an encoding that fits the length fields. */
    ghost predicate Holds(p: Place, es: seq<Entry>, stale: seq<byte>)
      reads vec
    {
      && At(p)
      && vec.data == Layout(p, EncEntries(es), stale)
      && RootLen(p, |EncDoc(es)|) < TWO_31
    }

    function Size(): int
      requires off + 4 <= |vec.data|
      reads vec
    {
      ReadI32(vec.data[off..off + 4])
    }

    lemma SizeIs(p: Place, n: nat, rest: seq<byte>)
      requires At(p) && vec.data == Before(p, n) + LE32(n) + rest && n < TWO_31
      ensures off + 4 <= |vec.data| && Size() == n
    {
      Read32(n, []);
      assert vec.data[off..off + 4] == LE32(n) + [];
    }

    /** `set_len`: this document's length field and that of every enclosing one move by the same difference. */
    method SetLen(len: nat, ghost p: Place, ghost n: nat, ghost rest: seq<byte>)
      requires At(p)
      requires vec.data == Before(p, n) + LE32(n) + rest
      requires RootLen(p, n) < TWO_31 && RootLen(p, len) < TWO_31
      modifies vec
      ensures vec.data == Before(p, len) + LE32(len) + rest
    {
      hide LE32, Lead, OuterLen, RootLen, Size;
      SizeIs(p, n, rest);
      var diff := Size() - len;
      vec.CopyFromSlice(off, LE32(len));
      SpliceBetween(Before(p, n), LE32(n), rest, LE32(len));
      var doc := this;
      ghost var at, more := p, rest;
      ghost var was: nat, now: nat := n, len;
      while doc.out != null
        invariant doc.vec == vec && doc.At(at)
        invariant RootLen(at, was) < TWO_31 && RootLen(at, now) < TWO_31
        invariant 0 <= now && now + diff == was
        invariant vec.data == Before(at, was) + LE32(now) + more
        invariant Before(p, len) + LE32(len) + rest == Before(at, now) + LE32(now) + more
        decreases at
      {
        doc, at, was, now, more := doc.PatchOuter(diff, at, was, now, more);
      }
    }

    /** `set_len` to the present length plus `grown`. */
    method Redeclare(grown: int, ghost p: Place, ghost n: nat, ghost rest: seq<byte>)
      requires At(p) && vec.data == Open(p, n) + rest
      requires n + grown >= 0 && RootLen(p, n) < TWO_31 && RootLen(p, n + grown) < TWO_31
      modifies vec
      ensures vec.data == Open(p, n + grown) + rest
    {
      assert Open(p, n) == Before(p, n) + LE32(n) && Open(p, n + grown) == Before(p, n + grown) + LE32(n + grown);
      hide *;
      SizeIs(p, n, rest);
      SetLen(Size() + grown, p, n, rest);
    }

    /** One step of the loop in `set_len`: the next enclosing length field is patched. */
    method PatchOuter(diff: int, ghost p: Place, ghost was: nat, ghost now: nat, ghost more: seq<byte>)
      returns (outer: DocMut, ghost p': Place, ghost was': nat, ghost now': nat, ghost more': seq<byte>)
      requires At(p) && out != null
      requires RootLen(p, was) < TWO_31 && RootLen(p, now) < TWO_31
      requires now + diff == was
      requires vec.data == Before(p, was) + LE32(now) + more
      modifies vec
      ensures outer == out && p' == p.outer
      ensures was' == OuterLen(p, was) && now' == OuterLen(p, now) && now' + diff == was'
      ensures RootLen(p', was') == RootLen(p, was) && RootLen(p', now') == RootLen(p, now)
      ensures vec.data == Before(p', was') + LE32(now') + more'
      ensures Before(p, now) + LE32(now) + more == Before(p', now') + LE32(now') + more'
    {
      hide Lead, LE32, Before;
      outer, p', was', now' := out, p.outer, OuterLen(p, was), OuterLen(p, now);
      more' := Lead(p) + LE32(now) + more;
      BeforeOuter(p, was, LE32(now), more);
      BeforeOuter(p, now, LE32(now), more);
      outer.SizeIs(p', was', more');
      var len := outer.Size();
      vec.CopyFromSlice(outer.off, LE32(len - diff));
      SpliceBetween(Before(p', was'), LE32(was'), more', LE32(now'));
    }

    /** The layout seen from this document: everything before its entries, the entries, everything after. */
    lemma Parts(p: Place, es: seq<Entry>, stale: seq<byte>)
      requires Holds(p, es, stale)
      ensures |vec.data| == off + 4 + |Tail(es, After(p, stale))|
      ensures vec.data[off + 4..] == Tail(es, After(p, stale))
      ensures |EncEntries(es)| < TWO_31
    {
      hide EncEntries, Before, After;
      Assoc(Open(p, |EncDoc(es)|), EncEntries(es), Close(p, stale));
      Assoc(EncEntries(es), [0], After(p, stale));
    }

    /** The inner loop of `find`: from an entry's type byte to the NUL after its key. */
    method KeyEnd(from: nat, ghost e: Entry, ghost rest: seq<byte>) returns (end: nat)
      requires from <= |vec.data| && vec.data[from..] == Head(Id(e.val), e.key) + rest
      ensures end == from + 1 + |e.key| < |vec.data|
      ensures vec.data[from + 1..end] == e.key && vec.data[end + 1..] == rest
    {
      ghost var left := vec.data[from..];
      assert forall j | 0 <= j <= |e.key| :: vec.data[from + j] == left[j] != 0;
      assert vec.data[from + 1 + |e.key|] == left[1 + |e.key|] == 0;
      end := from;
      while vec.data[end] != 0
        invariant from <= end <= from + 1 + |e.key| < |vec.data|
        decreases |vec.data| - end
      {
        end := end + 1;
      }
      assert vec.data[from + 1..end] == left[1..1 + |e.key|];
      assert vec.data[end + 1..] == left[2 + |e.key|..];
    }

    /** One round of the loop in `find`: the entry at `at` is compared, and passed when its key differs. */
    method ScanEntry(key: seq<byte>, at: nat, ghost es: seq<Entry>, ghost n: nat, ghost tail: seq<byte>)
      returns (matched: bool, next: nat)
      requires n < |Visible(es)| && |EncEntries(es)| < TWO_31
      requires at <= |vec.data| && vec.data[at..] == Remaining(es, n, tail)
      ensures matched <==> es[n].key == key
      ensures at <= next <= |vec.data|
      ensures matched ==> next + |tail| < |vec.data|
      ensures matched ==> next == at + 2 + |key|
      ensures !matched ==> vec.data[next..] == Remaining(es, n + 1, tail)
    {
      assert |Tail(es[n + 1..], tail)| > |tail| && |Head(Id(es[n].val), es[n].key)| == 2 + |es[n].key|;
      hide *;
      ScanHere(es, n, tail);
      ghost var v, more := es[n].val, Tail(es[n + 1..], tail);
      SkipLeaves(v, more);
      VisibleStep(es, n, tail);
      var id := vec.data[at];
      assert id == vec.data[at..][0];
      var end := KeyEnd(at, es[n], EncVal(v) + more);
      matched, next := vec.data[at + 1..end] == key, end + 1;
      if !matched {
        var size := GetValueSize(id, vec.data[next..], v, more);
        assert vec.data[next + size..] == vec.data[next..][size..];
        next := next + size;
      }
    }

    /** The loop in `find`. It reads no type byte beyond `last`, where it stops. */
    method Scan(key: seq<byte>, from: nat, ghost es: seq<Entry>, ghost tail: seq<byte>)
      returns (found: bool, keyOff: nat, valOff: nat, ghost last: nat)
      requires |EncEntries(es)| < TWO_31
      requires from <= |vec.data| && vec.data[from..] == Tail(es, tail)
      ensures found <==> Present(es, key)
      ensures found ==> keyOff <= |vec.data| && vec.data[keyOff..] == Tail(es[Found(es, key)..], tail)
      ensures found ==> valOff == keyOff + 2 + |key|
      ensures from <= last <= from + |EncEntries(es)|
      ensures found ==> last == keyOff && valOff <= from + |EncEntries(es)|
    {
      keyOff, last := from, from;
      assert |vec.data[from..]| == |EncEntries(es)| + 1 + |tail|;
      ghost var n: nat := 0;
      assert es[0..] == es;
      while true
        invariant n <= |Visible(es)|
        invariant from <= keyOff <= |vec.data| && vec.data[keyOff..] == Remaining(es, n, tail)
        invariant last == keyOff
        invariant forall j | 0 <= j < n :: es[j].key != key
        decreases |Visible(es)| - n
      {
        ScanHere(es, n, tail);
        assert |Remaining(es, n, tail)| > |tail|;
        assert vec.data[keyOff] == vec.data[keyOff..][0];
        if vec.data[keyOff] == 0 {
          return false, 0, 0, last;
        }
        var matched, next := ScanEntry(key, keyOff, es, n, tail);
        if matched {
          return true, keyOff, next, last;
        }
        keyOff, n, last := next, n + 1, next;
      }
    }

    /** `find`: the first entry with the key that the scan comes across, by its offsets. */
    method Find(key: seq<byte>, ghost p: Place, ghost es: seq<Entry>, ghost stale: seq<byte>)
      returns (r: Option<OccupiedEntry>, ghost last: nat)
      requires Holds(p, es, stale)
      ensures r.Some? <==> Present(es, key)
      ensures r.Some? ==> r.value.doc == this && r.value.At(es, Found(es, key))
      ensures off + 4 <= last < off + |EncDoc(es)|
      ensures r.Some? ==> last == r.value.keyOff && r.value.valOff < off + |EncDoc(es)|
    {
      Parts(p, es, stale);
      var found, keyOff, valOff;
      found, keyOff, valOff, last := Scan(key, off + 4, es, After(p, stale));
      if !found {
        return None, last;
      }
      EncSplitLength(es, Found(es, key));
      return Some(OccupiedEntry(this, keyOff, valOff)), last;
    }

    /** The first half of `append`: the length fields grow and a gap opens before the terminator. */
    method GrowAtEnd(len: nat, ghost p: Place, ghost body: seq<byte>, ghost stale: seq<byte>)
      returns (at: nat, ghost gap: seq<byte>)
      requires At(p) && vec.data == Layout(p, body, stale)
      requires RootLen(p, |body| + 5) < TWO_31 && RootLen(p, |body| + 5 + len) < TWO_31
      modifies vec
      ensures at == off + 4 + |body| && |gap| == len
      ensures vec.data == (Open(p, |body| + 5 + len) + body) + gap + Close(p, stale)
    {
      ghost var n, close := |body| + 5, Close(p, stale);
      Assoc(Open(p, n), body, close);
      assert vec.data == Before(p, n) + LE32(n) + (body + close) && off == Offset(p);
      hide *;
      SizeIs(p, n, body + close);
      at := off + Size() - 1;
      Redeclare(len, p, n, body + close);
      Assoc(Open(p, n + len), body, close);
      gap := OpenGap(vec, at, len, Open(p, n + len) + body, close);
    }

    /** `append`. A date cannot be appended: its `write_bson` panics on any longer slice. */
    method Append(key: NulFree, v: Value, ghost p: Place, ghost es: seq<Entry>, ghost stale: seq<byte>)
      requires Holds(p, es, stale) && !v.Datetime?
      requires RootLen(p, |EncDoc(es)| + 2 + |key| + Bson.Size(v)) < TWO_31
      modifies vec
      ensures Holds(p, es + [Entry(key, v)], stale)
    {
      hide EncEntries, EncVal, Open, Close, RootLen;
      ghost var body, e := EncEntries(es), Entry(key, v);
      var at, gap := GrowAtEnd(2 + |key| + Bson.Size(v), p, body, stale);
      ghost var n: nat := |body| + 5 + |gap|;
      WriteEntry(vec, at, key, v, Open(p, n) + body, gap, Close(p, stale));
      EncAppend(es, e);
      SizeIsEncodedLength(v);
      Assoc(Open(p, n), body, EncEntry(e));
    }

    /** Once the buffer has grown for a date at its end, the slice behind the key is longer than the date. */
    lemma DateNeverAppends(key: NulFree, v: Value, p: Place, es: seq<Entry>, stale: seq<byte>)
      requires Holds(p, es, stale) && v.Datetime?
      ensures var grown, valOff := 2 + |key| + Bson.Size(v), off + 4 + |EncEntries(es)| + 2 + |key|;
              valOff + Bson.Size(v) < |vec.data| + grown
    {
    }

    /** Entry bytes that encode no list leave a buffer that holds none. */
    lemma NeverHolds(p: Place, body: seq<byte>, stale: seq<byte>)
      requires vec.data == Layout(p, body, stale) && RootLen(p, |body| + 5) < TWO_31
      requires forall fs :: body != EncEntries(fs)
      ensures forall fs, t :: !Holds(p, fs, t)
    {
      forall fs, t ensures !Holds(p, fs, t) {
        if Holds(p, fs, t) {
          LayoutInjective(p, body, EncEntries(fs), stale, t);
        }
      }
    }

    /** `insert`: replaces the value of the first entry with the key, or appends; tells whether the key was there. */
    method Insert(key: NulFree, v: Value, ghost p: Place, ghost es: seq<Entry>, ghost stale: seq<byte>)
      returns (replaced: bool, ghost stale': seq<byte>)
      requires Holds(p, es, stale) && !v.Datetime?
      requires RootLen(p, |PutBody(es, key, v)| + 5) < TWO_31
      modifies vec
      ensures replaced <==> Present(es, key)
      ensures stale <= stale'
      ensures !HitsRegex(es, key) ==> Holds(p, Put(es, key, v), stale')
      ensures HitsRegex(es, key) ==> forall fs, t :: !Holds(p, fs, t)
    {
      hide EncEntries, Layout, Open, Close, ReplacedBody, RootLen;
      stale' := stale;
      var e, last := Find(key, p, es, stale);
      if e.None? {
        AppendLength(es, Entry(key, v));
        Append(key, v, p, es, stale);
        return false, stale;
      }
      ghost var i := Found(es, key);
      ghost var more := e.value.Insert(v, p, es, stale, i);
      if HitsRegex(es, key) {
        ReplacedBodyEncodes(es, i, v);
        NeverHolds(p, ReplacedBody(es, i, v), stale + more);
      }
      return true, stale + more;
    }

    /** `remove`: cuts out the first entry with the key; tells whether there was one. */
    method Remove(key: seq<byte>, ghost p: Place, ghost es: seq<Entry>, ghost stale: seq<byte>)
      returns (removed: bool)
      requires Holds(p, es, stale)
      modifies vec
      ensures removed <==> Present(es, key)
      ensures !HitsRegex(es, key) ==> Holds(p, Delete(es, key), stale)
      ensures HitsRegex(es, key) ==> forall fs, t :: !Holds(p, fs, t)
    {
      hide EncEntries, Layout, Open, Close, RemovedBody, RootLen;
      var e, last := Find(key, p, es, stale);
      if e.None? {
        return false;
      }
      ghost var i := Found(es, key);
      RemovedLength(p, es, i);
      e.value.Remove(p, es, stale, i);
      if HitsRegex(es, key) {
        RemovedBodyEncodes(es, i);
        NeverHolds(p, RemovedBody(es, i), stale);
      }
      return true;
    }
  }

  /** A document's length field and bytes determine each other. */
  lemma LayoutInjective(p: Place, b: seq<byte>, c: seq<byte>, s: seq<byte>, t: seq<byte>)
    requires Layout(p, b, s) == Layout(p, c, t)
    requires RootLen(p, |b| + 5) < TWO_31 && RootLen(p, |c| + 5) < TWO_31
    ensures b == c
  {
    var m, n := |b| + 5, |c| + 5;
    assert m <= RootLen(p, m) && n <= RootLen(p, n);
    assert Layout(p, b, s) == Before(p, m) + LE32(m) + b + Close(p, s);
    assert Layout(p, c, t) == Before(p, n) + LE32(n) + c + Close(p, t);
    hide *;
    Assoc(Before(p, m) + LE32(m), b, Close(p, s));
    Assoc(Before(p, m), LE32(m), b + Close(p, s));
    Assoc(Before(p, n) + LE32(n), c, Close(p, t));
    Assoc(Before(p, n), LE32(n), c + Close(p, t));
    TakeEqual(Before(p, m), Before(p, n), LE32(m) + (b + Close(p, s)), LE32(n) + (c + Close(p, t)));
    Prefixed32Injective(m, n, b + Close(p, s), c + Close(p, t));
    TakeEqual(b, c, Close(p, s), Close(p, t));
  }

  lemma AppendLength(es: seq<Entry>, e: Entry)
    ensures |EncEntries(es + [e])| == |EncEntries(es)| + 2 + |e.key| + Size(e.val)
  {
    EncAppend(es, e);
    SizeIsEncodedLength(e.val);
  }

  /** The bytes of the entry list after `insert(key, v)`. */
  function PutBody(es: seq<Entry>, key: NulFree, v: Value): seq<byte> {
    if Present(es, key) then ReplacedBody(es, Found(es, key), v) else EncEntries(es + [Entry(key, v)])
  }

  datatype OccupiedEntry = OccupiedEntry(doc: DocMut, keyOff: nat, valOff: nat) {

    /** These are the offsets of entry `i`. */
    ghost predicate At(es: seq<Entry>, i: nat) {
      && i < |es|
      && keyOff == doc.off + 4 + |EncEntries(es[..i])|
      && valOff == keyOff + 2 + |es[i].key|
    }

    /** What stands at an entry's offsets. */
    lemma Standing(p: Place, es: seq<Entry>, stale: seq<byte>, i: nat)
      requires doc.Holds(p, es, stale) && At(es, i)
      ensures var pre, post := Open(p, |EncDoc(es)|) + EncEntries(es[..i]), EncEntries(es[i + 1..]) + Close(p, stale);
              && |pre| == keyOff
              && doc.vec.data == pre + Head(Id(es[i].val), es[i].key) + (EncVal(es[i].val) + post)
      ensures |EncVal(es[i].val)| < |EncEntries(es)| < |EncDoc(es)| < TWO_31
    {
      var body, e, a, b := EncEntries(es), es[i], EncEntries(es[..i]), EncEntries(es[i + 1..]);
      EncSplit(es, i);
      assert EncEntry(e) == Head(Id(e.val), e.key) + EncVal(e.val);
      assert doc.vec.data == Open(p, |EncDoc(es)|) + body + Close(p, stale);
      assert keyOff == |Open(p, |EncDoc(es)|) + a|;
      assert |body| < |EncDoc(es)| <= RootLen(p, |EncDoc(es)|);
      hide *;
      AssocFive(Open(p, |EncDoc(es)|), a, Head(Id(e.val), e.key), EncVal(e.val), b, Close(p, stale));
    }

    /** The value's bytes from its offset on, and its type. */
    lemma ValueHere(p: Place, es: seq<Entry>, stale: seq<byte>, i: nat)
      requires doc.Holds(p, es, stale) && At(es, i)
      ensures keyOff < valOff <= |doc.vec.data| && doc.vec.data[keyOff] == Id(es[i].val)
      ensures doc.vec.data[valOff..] == EncVal(es[i].val) + (EncEntries(es[i + 1..]) + Close(p, stale))
      ensures |EncVal(es[i].val)| < TWO_31
    {
      Standing(p, es, stale, i);
      var head := Head(Id(es[i].val), es[i].key);
      assert valOff == keyOff + |head| && head[0] == Id(es[i].val);
      hide *;
    }

    /** `val_size`. */
    method ValSize(ghost p: Place, ghost es: seq<Entry>, ghost stale: seq<byte>, ghost i: nat) returns (n: nat)
      requires doc.Holds(p, es, stale) && At(es, i)
      ensures n == Skipped(es[i].val)
    {
      ValueHere(p, es, stale, i);
      n := GetValueSize(doc.vec.data[keyOff], doc.vec.data[valOff..], es[i].val,
          EncEntries(es[i + 1..]) + Close(p, stale));
    }

    /** `OccupiedEntry::get_any`. */
    method GetAny(ghost p: Place, ghost es: seq<Entry>, ghost stale: seq<byte>, ghost i: nat) returns (item: Item)
      requires doc.Holds(p, es, stale) && At(es, i)
      ensures item == ItemOf(es[i].val, EncEntries(es[i + 1..]) + Close(p, stale))
    {
      ValueHere(p, es, stale, i);
      item := ReadBson(doc.vec.data[keyOff], doc.vec.data[valOff..], es[i].val,
          EncEntries(es[i + 1..]) + Close(p, stale));
    }

    /** The first writes of `insert`: the new type, and the length fields. */
    method Retype(id: byte, grown: int, ghost p: Place, ghost n: nat, ghost a: seq<byte>, ghost was: byte,
                  ghost key: seq<byte>, ghost more: seq<byte>)
      requires doc.At(p) && doc.vec.data == (Open(p, n) + a) + Head(was, key) + more
      requires keyOff == |Open(p, n) + a|
      requires n + grown >= 0 && RootLen(p, n) < TWO_31 && RootLen(p, n + grown) < TWO_31
      modifies doc.vec
      ensures doc.vec.data == (Open(p, n + grown) + a) + Head(id, key) + more
    {
      hide *;
      doc.vec.Set(keyOff, id);
      SpliceHead(Open(p, n) + a, was, key, more, id);
      Regather(Open(p, n), a, Head(id, key), more);
      doc.Redeclare(grown, p, n, a + Head(id, key) + more);
      Regather(Open(p, n + grown), a, Head(id, key), more);
    }

    /** The last writes of `insert`: the new value takes the place of what was measured of the old one. */
    method Refill(v: Value, valLen: nat, ghost pre: seq<byte>, ghost hole: seq<byte>, ghost post: seq<byte>)
      returns (ghost more: seq<byte>)
      requires !v.Datetime? && doc.vec.data == pre + hole + post && valOff == |pre| && valLen == |hole|
      modifies doc.vec
      ensures doc.vec.data == pre + EncVal(v) + post + more
      ensures |more| == if Bson.Size(v) < valLen then valLen - Bson.Size(v) else 0
    {
      hide *;
      ghost var gap;
      gap, more := ResizeHole(doc.vec, valOff, valLen, Bson.Size(v), pre, hole, post);
      Assoc(pre + gap, post, more);
      WriteBson(v, doc.vec, valOff);
      SpliceBetween(pre, gap, post + more, EncVal(v));
      Assoc(pre + EncVal(v), post, more);
    }

    /** `OccupiedEntry::insert`: the entry keeps its place and key and takes the new type and value. Bytes that a
        smaller value frees stay in the buffer, behind the root's declared end. */
    method Insert(v: Value, ghost p: Place, ghost es: seq<Entry>, ghost stale: seq<byte>, ghost i: nat)
      returns (ghost more: seq<byte>)
      requires doc.Holds(p, es, stale) && At(es, i) && !v.Datetime?
      requires RootLen(p, |ReplacedBody(es, i, v)| + 5) < TWO_31
      modifies doc.vec
      ensures doc.vec.data == Layout(p, ReplacedBody(es, i, v), stale + more)
      ensures |more| == if Bson.Size(v) < Skipped(es[i].val) then Skipped(es[i].val) - Bson.Size(v) else 0
      ensures !es[i].val.Regex? ==> doc.Holds(p, es[i := Entry(es[i].key, v)], stale + more)
    {
      hide *;
      Standing(p, es, stale, i);
      InsertLengths(v, p, es, stale, i);
      var valLen := ValSize(p, es, stale, i);
      ghost var n: nat, was, a := |EncDoc(es)|, es[i].val, EncEntries(es[..i]);
      ghost var post := EncEntries(es[i + 1..]) + Close(p, stale);
      ghost var n': nat := n + Bson.Size(v) - valLen;
      Retype(Id(v), Bson.Size(v) - valLen, p, n, a, Id(was), es[i].key, EncVal(was) + post);
      ghost var pre := Open(p, n') + a + Head(Id(v), es[i].key);
      CutHole(pre, EncVal(was), EncVal(was)[..valLen], Stray(was), post);
      more := Refill(v, valLen, pre, EncVal(was)[..valLen], Stray(was) + post);
      LayoutReplaced(p, es, stale, more, i, v, n');
      Replaced(p, es, stale + more, i, v);
    }

    /** After the surgery for a date the slice at the value's offset is longer than the date, whatever stood there. */
    lemma DateNeverInserts(v: Value, p: Place, es: seq<Entry>, stale: seq<byte>, i: nat)
      requires doc.Holds(p, es, stale) && At(es, i) && v.Datetime?
      ensures var was, now := Skipped(es[i].val), Bson.Size(v);
              valOff + now < |doc.vec.data| + if now > was then now - was else 0
    {
      ValueHere(p, es, stale, i);
      SkipAgrees(es[i].val);
      assert |Close(p, stale)| > 0;
      hide *;
    }

    lemma InsertLengths(v: Value, p: Place, es: seq<Entry>, stale: seq<byte>, i: nat)
      requires doc.Holds(p, es, stale) && At(es, i)
      ensures doc.At(p) && RootLen(p, |EncDoc(es)|) < TWO_31
      ensures i < |es| && valOff == keyOff + 2 + |es[i].key|
      ensures |ReplacedBody(es, i, v)| + 5 == |EncDoc(es)| + Bson.Size(v) - Skipped(es[i].val)
      ensures |EncDoc(es)| >= Skipped(es[i].val) && |EncVal(es[i].val)| >= Skipped(es[i].val)
      ensures EncVal(es[i].val) == EncVal(es[i].val)[..Skipped(es[i].val)] + Stray(es[i].val)
    {
      ReplacedLength(es, i, v);
      SkipAgrees(es[i].val);
    }

    /** `OccupiedEntry::remove`: the entry is cut out, and the length fields shrink by what was cut. */
    method Remove(ghost p: Place, ghost es: seq<Entry>, ghost stale: seq<byte>, ghost i: nat)
      requires doc.Holds(p, es, stale) && At(es, i)
      modifies doc.vec
      ensures doc.vec.data == Layout(p, RemovedBody(es, i), stale)
      ensures !es[i].val.Regex? ==> doc.Holds(p, es[..i] + es[i + 1..], stale)
    {
      hide *;
      Standing(p, es, stale, i);
      InsertLengths(Null, p, es, stale, i);
      RemovedLength(p, es, i);
      var valLen := ValSize(p, es, stale, i);
      var len := valOff + valLen - keyOff;
      ghost var n, a, head, val := |EncDoc(es)|, EncEntries(es[..i]), Head(Id(es[i].val), es[i].key), EncVal(es[i].val);
      ghost var n': nat, post := n - len, Stray(es[i].val) + (EncEntries(es[i + 1..]) + Close(p, stale));
      CutHole(Open(p, n) + a + head, val, val[..valLen], Stray(es[i].val), EncEntries(es[i + 1..]) + Close(p, stale));
      Assoc(Open(p, n) + a, head, val + (EncEntries(es[i + 1..]) + Close(p, stale)));
      Assoc(Open(p, n) + a, head, val[..valLen]);
      CutOut(doc.vec, keyOff, len, Open(p, n) + a, head + val[..valLen], post);
      Assoc(Open(p, n), a, post);
      doc.Redeclare(-len, p, n, a + post);
      Assoc(Open(p, n'), a, post);
      LayoutRemoved(p, es, stale, i, n');
      Removed(p, es, stale, i);
    }

    lemma Removed(p: Place, es: seq<Entry>, stale: seq<byte>, i: nat)
      requires doc.At(p) && i < |es| && RootLen(p, |RemovedBody(es, i)| + 5) < TWO_31
      requires doc.vec.data == Layout(p, RemovedBody(es, i), stale)
      ensures !es[i].val.Regex? ==> doc.Holds(p, es[..i] + es[i + 1..], stale)
    {
      RemovedBodyEncodes(es, i);
      hide RemovedBody, EncEntries, Layout, Open, Close, RootLen;
    }

    lemma Replaced(p: Place, es: seq<Entry>, stale: seq<byte>, i: nat, v: Value)
      requires doc.At(p) && i < |es| && RootLen(p, |ReplacedBody(es, i, v)| + 5) < TWO_31
      requires doc.vec.data == Layout(p, ReplacedBody(es, i, v), stale)
      ensures !es[i].val.Regex? ==> doc.Holds(p, es[i := Entry(es[i].key, v)], stale)
    {
      ReplacedBodyEncodes(es, i, v);
      hide ReplacedBody, EncEntries, Layout, Open, Close, RootLen;
    }
  }

  lemma CutHole(pre: seq<byte>, val: seq<byte>, hole: seq<byte>, stray: seq<byte>, post: seq<byte>)
    requires val == hole + stray
    ensures pre + (val + post) == pre + hole + (stray + post)
  {
  }

  lemma ReplacedLength(es: seq<Entry>, i: nat, v: Value)
    requires i < |es|
    ensures |ReplacedBody(es, i, v)| + 5 == |EncDoc(es)| + Size(v) - Skipped(es[i].val)
    ensures |EncDoc(es)| >= Skipped(es[i].val)
  {
    EncSplit(es, i);
    SizeIsEncodedLength(v);
    SizeIsEncodedLength(es[i].val);
  }

  /** The buffer after an overwrite, cut as the writes left it, is a layout. */
  lemma LayoutReplaced(p: Place, es: seq<Entry>, stale: seq<byte>, more: seq<byte>, i: nat, v: Value, n: nat)
    requires i < |es| && n == |ReplacedBody(es, i, v)| + 5
    ensures Open(p, n) + EncEntries(es[..i]) + Head(Id(v), es[i].key) + EncVal(v)
              + (Stray(es[i].val) + (EncEntries(es[i + 1..]) + Close(p, stale))) + more
         == Layout(p, ReplacedBody(es, i, v), stale + more)
  {
    CloseMore(p, stale, more);
    var a, h, x, t, b := EncEntries(es[..i]), Head(Id(v), es[i].key), EncVal(v), Stray(es[i].val),
        EncEntries(es[i + 1..]);
    assert ReplacedBody(es, i, v) == a + h + x + t + b;
    assert Layout(p, ReplacedBody(es, i, v), stale + more)
        == Open(p, n) + ReplacedBody(es, i, v) + Close(p, stale + more);
    hide *;
    AssocSeven(Open(p, n), a, h, x, t, b, Close(p, stale), more);
  }

  lemma AssocSeven(o: seq<byte>, a: seq<byte>, h: seq<byte>, x: seq<byte>, t: seq<byte>, b: seq<byte>, c: seq<byte>,
      m: seq<byte>)
    ensures o + a + h + x + (t + (b + c)) + m == o + (a + h + x + t + b) + (c + m)
  {
  }

  /** Stale bytes are the last of all. */
  lemma {:induction false} CloseMore(p: Place, stale: seq<byte>, more: seq<byte>)
    ensures Close(p, stale + more) == Close(p, stale) + more
    decreases p
  {
    hide EncEntries;
    if p.In? {
      CloseMore(p.outer, stale, more);
      assert After(p.outer, stale + more) == Close(p.outer, stale + more)[1..];
      assert After(p.outer, stale) + more == (Close(p.outer, stale) + more)[1..];
      Assoc(EncEntries(p.after) + [0], After(p.outer, stale), more);
    }
    Assoc([0], After(p, stale), more);
  }

  lemma Regather(open: seq<byte>, a: seq<byte>, head: seq<byte>, more: seq<byte>)
    ensures open + (a + head + more) == (open + a) + head + more
  {
  }

  lemma AssocFive(a: seq<byte>, b: seq<byte>, c: seq<byte>, d: seq<byte>, e: seq<byte>, f: seq<byte>)
    ensures a + (b + (c + d) + e) + f == (a + b) + c + (d + (e + f))
  {
  }

  lemma SpliceHead(a: seq<byte>, was: byte, key: seq<byte>, c: seq<byte>, now: byte)
    ensures Splice(a + Head(was, key) + c, |a|, [now]) == a + Head(now, key) + c
  {
  }

  lemma RemovedLength(p: Place, es: seq<Entry>, i: nat)
    requires i < |es|
    ensures |RemovedBody(es, i)| + 5 == |EncDoc(es)| - (2 + |es[i].key| + Skipped(es[i].val))
    ensures 0 <= |EncDoc(es)| - (2 + |es[i].key| + Skipped(es[i].val))
    ensures RootLen(p, |RemovedBody(es, i)| + 5) <= RootLen(p, |EncDoc(es)|)
  {
    EncSplit(es, i);
    SizeIsEncodedLength(es[i].val);
    RootLenMonotone(p, |RemovedBody(es, i)| + 5, |EncDoc(es)|);
  }

  lemma {:induction false} RootLenMonotone(p: Place, m: nat, n: nat)
    requires m <= n
    ensures RootLen(p, m) <= RootLen(p, n)
    decreases p
  {
    if p.In? {
      RootLenMonotone(p.outer, OuterLen(p, m), OuterLen(p, n));
    }
  }

  /** The surgery of `remove`. */
  method CutOut(vec: Vec, at: nat, len: nat, ghost pre: seq<byte>, ghost hole: seq<byte>, ghost post: seq<byte>)
    requires vec.data == pre + hole + post && at == |pre| && len == |hole|
    modifies vec
    ensures vec.data == pre + post
  {
    var bufLen := |vec.data|;
    assert vec.data[..at] == pre && vec.data[at + len..bufLen] == post;
    vec.CopyWithin(at + len, bufLen, at);
    assert (pre + post)[..bufLen - len] == pre + post;
    vec.Truncate(bufLen - len);
  }

  lemma LayoutRemoved(p: Place, es: seq<Entry>, stale: seq<byte>, i: nat, n: nat)
    requires i < |es| && n == |RemovedBody(es, i)| + 5
    ensures (Open(p, n) + EncEntries(es[..i])) + (Stray(es[i].val) + (EncEntries(es[i + 1..]) + Close(p, stale)))
         == Layout(p, RemovedBody(es, i), stale)
  {
    var a, t, b := EncEntries(es[..i]), Stray(es[i].val), EncEntries(es[i + 1..]);
    assert RemovedBody(es, i) == a + t + b;
    assert Layout(p, RemovedBody(es, i), stale) == Open(p, n) + RemovedBody(es, i) + Close(p, stale);
    hide *;
    AssocFour(Open(p, n), a, t, b, Close(p, stale));
  }

  lemma AssocFour(o: seq<byte>, a: seq<byte>, t: seq<byte>, b: seq<byte>, c: seq<byte>)
    ensures (o + a) + (t + (b + c)) == o + (a + t + b) + c
  {
  }
}
