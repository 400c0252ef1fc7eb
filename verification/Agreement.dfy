/** The two ways to a document's bytes and the way back, on the same entries. */
module Agreement {
  import opened Bytes
  import opened Bson
  import opened Wrappers
  import opened Scan
  import opened Contents
  import opened Write
  import opened DocRefs
  import SerialLaws
  import Serialize

  /** `DocBuilder` on a list of entries. */
  method Build(es: seq<Entry>) returns (doc: seq<byte>)
    ensures doc == EncDoc(es)
  {
    var builder := new DocBuilder();
    for i := 0 to |es|
      invariant fresh(builder.vec) && builder.Holds(es[..i])
    {
      builder.Append(es[i].key, es[i].val, es[..i]);
      assert es[..i] + [Entry(es[i].key, es[i].val)] == es[..i + 1];
    }
    assert es[..|es|] == es;
    doc := builder.Finish(es);
  }

  lemma BodyTail(es: seq<Entry>)
    ensures |EncDoc(es)| >= 4 && EncDoc(es)[4..] == Tail(es, []) && |EncEntries(es)| < |EncDoc(es)|
  {
    assert EncDoc(es) == LE32(|EncEntries(es)| + 5) + Tail(es, []);
  }

  /** The serializer and the builder make the same bytes of the same entries, and iterating over them gives the entries
      back exactly when no regular expression stands before the last entry of any document in them. */
  method EncodersAgree(c: Content, es: seq<Entry>)
    returns (serialized: seq<byte>, built: seq<byte>, collected: seq<Entry>)
    requires Domain(c) && Meaning(c) == Some(Doc(es)) && |EncDoc(es)| < TWO_31
    ensures serialized == built == EncDoc(es)
    ensures collected == Seen(es)
    ensures collected == es <==> Whole(es)
  {
    SerialLaws.DomainModelled(c);
    BodyTail(es);
    assert EncVal(Doc(es)) == EncDoc(es);
    hide *;
    var r := Serialize.DocumentFrom(c);
    serialized := r.value;
    built := Build(es);
    collected := Collect(built[4..], es, []);
    SeenIsAll(es);
  }
}
