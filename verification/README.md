# mongodb driver: a verified model

Dafny models of three parts of the driver, and proofs of what they are relied on for.

**The BSON buffer engine** (`src/bson`). `Bson` defines one recursive encoding of value trees. Every encoder and every
scanner of the source is modelled as the imperative code it is, over a growable byte vector (`Vec`), and proved against
that encoding: `DocBuilder` and `write_bson` (`Write`), the array writer (`ArrayWriter`), the back-patching serde serializer (`Serialize`, `SerialForm`),
the iterator (`DocRefs`, `Scan`), the deserializer (`Deserialize`, `Visitors`, `VisitErrors`), and in-place editing of a document at any nesting
depth (`DocMuts`, `EditRuns`, `DocEmbeds`). A nested document is described by a `Place`, the path of enclosing documents with the entries
around it; `LayoutIsEncoding` says that the buffer is the encoding of the root document at all times. `EditLaws` and
`CodecLaws` are about the list edits and the value trees that this code refines; `SerialLaws`, `SerialMixes`,
`SerialEmbeds` (with `Zeroing`), `SerialSizes` and `SerialFailures` are about what the serializer's bytes are worth; `Agreement` runs both encoders
and the iterator on the same entries. `Wire` and `WireStream` frame documents as messages.
`Samples` has known bytes of every format.

**The topology state machine** (`src/topology.rs`). `Topology` states the update rules as functions over a state that
holds every server ever created, tracked or not; `TopologyDescription` has the same rules as methods that update
shared server objects in place, and proves that they refine the functions. `TopologyLaws`, `TopologyEffects` and `TopologyClaims` say what single updates do;
`TopologyInvariant`, `TopologyRuns` and `TopologyLaws` are about all runs: a reply, a failure and a topology update are separate steps that interleave in any
order, as the monitors and the pools' handshakes make them. A server whose reply no update has seen yet is *unsettled*.
`TopologyWitnesses` has the runs that reach what the laws except.

**The connection pool** (`src/topology.rs`). Each section under the lock is one step (`Pool`), written as the
method it is in `ServerPool`; network answers and clock readings are arbitrary. `PoolRuns` and `PoolLaws` are about single sections and all interleavings.

Ghost parameters of the scanning and editing methods name the entries that the bytes encode. Strings and keys are byte
sequences, doubles are eight opaque bytes, and sizes stay below 2^31.

## Where the code departs from its intent

The model follows the code, and lemmas say exactly when a departure matters.

- Skipping a regular expression stops one byte short, at its last NUL (`src/bson/mod.rs:248-254`). Iteration, `find`,
  `get_any` and a visitor that ignores fields then take that NUL for the end of the document: `SkipAgrees`, `SeenIsAll`,
  `VisitsExactly`. Overwriting
  or removing one leaves the NUL between the entries: `ReplacedBodyEncodes`, `RemovedBodyEncodes`.
- A replacement by a smaller value leaves stale bytes behind the declared end (`src/bson/doc.rs:678`), and writing such a document as a value
  writes them too, even as entries that nobody wrote: `EmbedIsAsked`, `PhantomEntry`. A nested document that the iterator hands out has no end, and cannot be written
  elsewhere while anything follows it: `TailHoldsList`.
- `Bson::id` of a null is 0 (`src/bson/mod.rs:72`), so the array writer writes a terminator instead of a null: `ElementsAgree`,
  `NullEnds`.
- `UtcDateTime::write_bson` panics on a slice longer than eight bytes (`src/bson/mod.rs:649-651`); the editing
  methods and the array writer always pass a longer one, and so require another type: `DateNeverAppends`, `DateNeverInserts`, `DateNeverWrites`.
- A special key retracts four bytes even when they are not its map's placeholder (`src/bson/se.rs:412-416`). A map with
  such a key behind others can serialize to no value (`MixedExactly`), to a wrong value (`IntegerLost`), or cut what stood
  before it (`CutsEarlier`), all without an error. That no special key follows another entry is enough (`SerMeaning`) but not
  necessary: `EmbeddedRightly`, `DocumentAfterZeros`, `DateAfterRegex`.
- `recv` reads sixteen bytes of compression data where `send` writes the twelve that the structure takes in memory
  (`src/wire.rs:101`, `378`), so that a message sent through the compressor that does nothing is not received: `NoopNeverReceived`.
- The change test compares the largest wire version with the reply's smallest (`src/topology.rs:412`): `WronglyReported`,
  `RepeatsAreReported`.
- A settled primary's claim can end up below the record in two ways (`src/topology.rs:213-235`): while no election id is on record, a claim
  with a lower set version is accepted and its election id recorded beside the higher version (`HoleReached`); and a
  removed server's monitor still reports, and its claim does not invalidate the server that took its address
  (`src/topology.rs:241`, `OvertakenReached`). `AcceptedCurrent` says exactly when.
- A possible primary's report is ignored in every topology (`src/topology.rs:172`), also when the primary is gone: `TypeTellsTruth`,
  `LostReached`.
- `Pool.len` never goes down within an iteration, although connections are closed (`src/topology.rs:591-603`, `738-747`):
  `StuckExactly`, `StuckReached`.
- The pool is filled to the minimum without regard to the maximum (`src/topology.rs:561`): `MaximumRespected`.

## Model

| member | source | states |
|---|---|---|
| `Bson.SizeIsEncodedLength` | src/bson/mod.rs:92-112 | `size()` of every value, as each `BsonValue` implementation computes it, is the length of its recursive encoding |
| `Bson.ValueInjective` | src/bson/mod.rs:262-535 | values of the same type are uniquely decodable: equal encodings followed by anything mean equal values and equal rests |
| `Bson.EntriesInjective` | src/bson/doc.rs:342-356 | so are entry lists up to their terminator, by mutual induction with values and documents |
| `Bson.FrameInjective` | src/bson/doc.rs:120-122 | so are whole documents with their length field, whatever follows them |
| `Samples.Numbers32` | src/bson/mod.rs:262-535 | numbers are little-endian and negative ones in two's complement, byte by byte |
| `Samples.ShortEntries` | src/bson/mod.rs:262-535 | the bytes of an entry with a double, object id, flag, null, regular expression and 128-bit decimal |
| `Samples.SignedEntries` | src/bson/mod.rs:262-535 | with a date and a 64-bit integer |
| `Samples.NumberEntries` | src/bson/mod.rs:262-535 | with a 32-bit integer and a timestamp |
| `Samples.LongEntries` | src/bson/mod.rs:262-535 | with a string, document, array and binary data |
| `Samples.HelloWorld` | src/bson/doc.rs:69-75 | the sample document of the BSON specification |
| `Samples.KeyNames` | src/bson/se.rs:202-231 | the special keys, character by character |
| `Scan.ReadStrNt` | src/bson/de.rs:42-46 | returns exactly the bytes up to the first NUL |
| `Scan.GetValueSize` | src/bson/mod.rs:240-260 | on the encoding of a value followed by anything, returns the value's size, one less for a regular expression |
| `Scan.SkipAgrees` | src/bson/mod.rs:248-254 | skipping a value moves over exactly its encoding if and only if it is no regular expression; otherwise one NUL is left |
| `Scan.VisibleIsAll` | src/bson/doc.rs:342-356 | a scan comes across every entry exactly when no regular expression stands before the last one |
| `DocRefs.ReadBson` | src/bson/mod.rs:137-157 | reads every value back from its encoding followed by anything; nested documents come with everything behind them |
| `DocRefs.DocRefIter.Next` | src/bson/doc.rs:346-354 | yields the next entry's key and value and leaves exactly the following entries, or a stray NUL before them |
| `DocRefs.ScanHere` | src/bson/doc.rs:347-349 | what a scan reads after any number of visible entries, and that the next byte is zero exactly at the end |
| `DocRefs.Len` | src/bson/doc.rs:289-291 | counts the visible entries |
| `DocRefs.GetAny` | src/bson/doc.rs:309-311 | finds the first visible entry with the key, or none exactly when there is none |
| `DocRefs.ContainsAny` | src/bson/doc.rs:301-303 | true exactly when a visible entry has the key |
| `DocRefs.Collect` | src/bson/doc.rs:346-354 | iterating over a document and over every nested one by the bytes it was handed out with yields the visible entries in order, at every depth |
| `DocRefs.SeenIsAll` | src/bson/doc.rs:346-354 | that is the whole document if and only if no regular expression stands before the last entry of any document in it |
| `Write.WriteBson` | src/bson/mod.rs:262-470 | `write_bson` puts exactly the encoding at its place and touches no other byte; a date needs an exact slice |
| `Write.DocBuilder.Append` | src/bson/doc.rs:38-46 | keeps the builder at the encoding of the entries so far, for every value |
| `Write.DocBuilder.Finish` | src/bson/doc.rs:69-75 | yields exactly the recursive encoding of the appended entries |
| `ArrayWriter.DecimalRoundTrip` | src/bson/mod.rs:512-513 | the decimal key of an index reads back as the index |
| `ArrayWriter.OnlyNumeral` | src/bson/mod.rs:512-513 | that key is the only string of digits without a leading zero that stands for the index, and as wide as the powers of ten around the index say |
| `ArrayWriter.IndexedAt` | src/bson/mod.rs:508-524 | an array's entries are its elements in order, each under the numeral of its index |
| `ArrayWriter.SizesAgree` | src/bson/mod.rs:502-506 | the precomputed size of a slice, with its index-key widths, is the length of the index-keyed document |
| `ArrayWriter.ElementsAgree` | src/bson/mod.rs:508-524 | the written elements are those of the index-keyed document exactly when no element is null |
| `ArrayWriter.NullEnds` | src/bson/mod.rs:70-72 | with a null among them a reader takes the elements before the first one for the whole array |
| `ArrayWriter.WriteArray` | src/bson/mod.rs:508-524 | the write loop fills exactly the precomputed size with length, elements and terminator, and touches nothing else |
| `Samples.OneElement` | src/bson/mod.rs:508-524 | the twelve bytes of the array of one integer |
| `ArrayWriter.DateNeverWrites` | src/bson/mod.rs:649-651 | the slice for a date among the elements is always longer than the date, so that it panics |
| `DocMuts.LayoutIsEncoding` | src/bson/doc.rs:456-467 | at any nesting depth a buffer laid out around the edited document is the encoding of the root with that document plugged in, then the stale bytes |
| `DocMuts.LayoutInjective` | src/bson/doc.rs:462-478 | length fields and bytes determine a document's entry bytes, at any depth |
| `DocMuts.DocMut.SetLen` | src/bson/doc.rs:469-478 | changes this document's length field and by the same difference that of every enclosing one, and no other byte |
| `DocMuts.DocMut.PatchOuter` | src/bson/doc.rs:469-478 | the recursion through the enclosing documents |
| `DocMuts.DocMut.Find` | src/bson/doc.rs:480-506 | finds an entry exactly when a visible one has the key, at that entry's offsets |
| `DocMuts.DocMut.Append` | src/bson/doc.rs:550-566 | at any depth the buffer then holds the entries with the new one at the end; siblings and outer documents are as before |
| `DocMuts.DocMut.DateNeverAppends` | src/bson/mod.rs:649-651 | at any depth the slice for a date to append is longer than the date |
| `DocMuts.DocMut.Insert` | src/bson/doc.rs:568-573 | replaces the first entry with the key in place or appends, whatever the sizes, and reports which; after overwriting a regular expression the buffer holds no entry list at all |
| `DocMuts.DocMut.Remove` | src/bson/doc.rs:575-579 | cuts out the first entry with the key and reports whether there was one; with the same exception |
| `DocMuts.OccupiedEntry.ValSize` | src/bson/doc.rs:720-722 | measures the value as skipping does |
| `DocMuts.OccupiedEntry.GetAny` | src/bson/doc.rs:664-667 | reads the value at the entry's offsets |
| `DocMuts.OccupiedEntry.Insert` | src/bson/doc.rs:669-686 | the exact bytes after an overwrite by a smaller, equal or larger value of any type: lengths patched outwards, the tail moved, freed bytes left at the very end |
| `DocMuts.OccupiedEntry.DateNeverInserts` | src/bson/mod.rs:649-651 | so is the slice for a date that replaces any value |
| `DocMuts.OccupiedEntry.Remove` | src/bson/doc.rs:709-714 | the exact bytes after a removal |
| `DocMuts.ReplacedBodyEncodes` | src/bson/doc.rs:669-686 | the overwritten entry bytes encode the edited list if and only if the old value was no regular expression; otherwise they encode no list |
| `DocMuts.RemovedBodyEncodes` | src/bson/doc.rs:709-714 | the same for removal |
| `EditRuns.FindAgrees` | src/bson/doc.rs:480-506 | on one buffer `find`, the bounded iterator of `DocMut` and the unbounded one of `Document` find the key together or not at all, read the same item there, and `find` stops before the declared end either way |
| `EditLaws.PutThenFind` | src/bson/doc.rs:568-573 | an inserted key is found again, with the inserted value and in the old place, exactly when it was found before or no regular expression hides the end |
| `EditLaws.DeleteUndoesPut` | src/bson/doc.rs:575-579 | removing undoes inserting a new key |
| `EditLaws.PutTwice` | src/bson/doc.rs:568-573 | the second insert under a key overwrites the first |
| `EditRuns.Apply` | src/bson/doc.rs:550-579 | one append, insert or remove on a buffer: the list edit, the answer, and no list left when it hits a regular expression |
| `EditRuns.ApplyAll` | src/bson/doc.rs:550-579 | any run of appends, inserts and removes at any depth, repeated keys included: the buffer holds what the run makes of the list and every call answers whether the key was there, up to the first edit that hits a regular expression, which leaves no list |
| `EditLaws.RunsAsMap` | src/bson/doc.rs:568-579 | a run that appends only new keys and writes no regular expression acts on the entries as it would on a map, each key once |
| `EditLaws.LookupInMap` | src/bson/doc.rs:309-311 | looking up a key in such a document is looking it up in the map |
| `EditLaws.EditIsLocal` | src/bson/doc.rs:469-478 | editing a nested document changes one entry of the root and leaves its key and all other entries as they were |
| `Bson.EntriesPrefix` | src/bson/doc.rs:342-356 | bytes behind whole entries never join or split them |
| `DocEmbeds.EmbedHoldsList` | src/bson/mod.rs:285-299 | around a document written as a value with stale bytes, the enclosing bytes are an entry list if and only if the stale bytes and the entries behind them are one |
| `DocEmbeds.EmbedIsAsked` | src/bson/mod.rs:285-299 | they are the list that was asked for if and only if there are no stale bytes |
| `DocEmbeds.PhantomEntry` | src/bson/mod.rs:285-299 | four stale bytes that read as an entry: the enclosing document gains a flag that nobody wrote |
| `DocEmbeds.TailHoldsList` | src/bson/mod.rs:301-316 | around a nested document written as it was handed out, if and only if nothing followed it where it was read |
| `DocEmbeds.AppendDocument` | src/bson/doc.rs:550-566 | appending such a document at any depth leaves a buffer that holds the list that was asked for exactly when there are no stale bytes, and some list exactly when they are one, which then follows as phantom entries |
| `DocEmbeds.AppendDocRef` | src/bson/doc.rs:550-566 | appending a nested document from the iterator leaves a list exactly when nothing followed it, and then the one that was asked for |
| `Serialize.Serializer.Serialize` | src/bson/se.rs:59-158 | leaves exactly the bytes of the form, for any content; one with a meaning appends exactly its encoding, returns its type, and fails exactly when it denotes nothing |
| `SerialLaws.SerMeaning` | src/bson/se.rs:195-261 | the form of a content with a meaning is the recursive encoding of what it denotes, all placeholders patched, whatever was written before; of one without, the error `InvalidType` |
| `SerialLaws.BareUnsigned` | src/bson/se.rs:90 | a bare `u64` is written by its own eight bytes, and read back as the same number below 2^63 and 2^64 less from there on |
| `SerialLaws.BareBytes` | src/bson/se.rs:109-114 | bare bytes are written with their length and the generic subtype |
| `SerialFailures.EntryRefused` | src/bson/se.rs:237-239 | an ordinary field behind a special one that embeds no document ends in `InvalidIdentifier` |
| `SerialFailures.RegexKeyRefused` | src/bson/se.rs:518-527 | so does a regular expression under another name than pattern and options |
| `SerialFailures.NothingToRetract` | src/bson/se.rs:412-416 | a second special key panics when fewer than four bytes are left |
| `SerialFailures.EmptyBody` | src/bson/se.rs:597-601 | an embedded document without a terminator panics |
| `SerialFailures.EndPanics` | src/bson/se.rs:250-261 | a nested document that retracted bytes before its start panics at its end exactly when its length no longer fits |
| `SerialMixes.SerFrame` | src/bson/se.rs:412-417 | what serializes behind some bytes serializes alike behind any longer ones and leaves what was put in front alone |
| `SerialSizes.RoomSuffices` | src/bson/se.rs:412-417 | where, counting sizes alone, every special key at whatever depth finds four bytes of its own map, nothing panics, the bytes before stay and exactly the counted number is added |
| `SerialSizes.FrameByRoom` | src/bson/se.rs:412-417 | such a content serializes alike behind anything, errors included, and leaves that alone |
| `SerialMixes.MixedExactly` | src/bson/se.rs:195-248 | a map with special keys anywhere that serializes without an error is the encoding of some value if and only if the last one finds what it can retract: the placeholder alone for a date or timestamp, what makes twelve bytes for an object id, no NUL before it for a regular expression, bytes that are an entry list once zeros replace the last four for an embedded document |
| `SerialEmbeds.EmbeddedRightly` | src/bson/se.rs:597-601 | a map with an embedded document anywhere is written as all its entries in order if and only if the document comes first or the four bytes before it are zeros |
| `SerialEmbeds.EmbeddedIsValue` | src/bson/se.rs:597-601 | it is written as some value, right or wrong, if and only if the value of the last entry before the document keeps its shape under four zeros: a flag, a null or a regular expression does not, a nested document as its own last entry does |
| `Zeroing.ListZeroed` | src/bson/se.rs:412-417 | entry bytes whose last few are overwritten by zeros are an entry list, whatever follows, exactly under that condition on the last value, at every depth |
| `SerialEmbeds.IntegerLost` | src/bson/se.rs:597-601 | an integer before an embedded document is written as zero, whatever it was, without an error |
| `SerialMixes.OneSpecialKey` | src/bson/se.rs:412-417 | with one special key that embeds no document: exactly when it comes first |
| `SerialMixes.SpoiledByEntry` | src/bson/se.rs:412-417 | never when such a key comes right behind an ordinary entry |
| `SerialMixes.DateAfterEntry` | src/bson/se.rs:209-211 | a map that serializes to twelve bytes of type date |
| `SerialMixes.CutsEarlier` | src/bson/se.rs:412-417 | a map that overwrites the four bytes before it |
| `SerialMixes.DocumentAfterZeros` | src/bson/se.rs:597-601 | a document embedded behind an integer that ends in zeros is well encoded all the same |
| `SerialMixes.DateAfterRegex` | src/bson/se.rs:209-211 | a date behind a four-byte regular expression is well encoded too |
| `Serialize.Serializer.SerializeSeq` | src/bson/se.rs:292-307 | the loop over the elements does what the form says: index keys, types and length patched |
| `Serialize.Serializer.SerializeMap` | src/bson/se.rs:181-262 | the loop over the fields does what the form says, special keys included |
| `Serialize.DocSerializer.SerializeEntry` | src/bson/se.rs:195-248 | one entry under any key in any state of its map: bytes, type and error |
| `Serialize.DocSerializer.SerializeSpecial` | src/bson/se.rs:412-601 | the last four bytes are retracted, whatever they are, and the value written in its own form |
| `Serialize.DocSerializer.SerializeRegex` | src/bson/se.rs:518-554 | each string is written with a NUL, however they are nested |
| `Serialize.DocSerializer.End` | src/bson/se.rs:250-261 | a document or array gets terminator and length, unless its start is gone; other types stay as written |
| `Serialize.DocumentFrom` | src/bson/doc.rs:110-114 | the document is the form of any content; of one with a meaning the recursive encoding |
| `Agreement.EncodersAgree` | src/bson/doc.rs:110-114 | run on the same entries, the serializer and `DocBuilder` make the same bytes, and iterating over those gives the entries back exactly when no regular expression hides one |
| `Deserialize.Deserializer.DeserializeAny` | src/bson/de.rs:126-184 | on a value's encoding before what is still to be read: succeeds exactly when the visit does, yields what the visitor comes across and leaves what the visit leaves, or ends in the error of the visit |
| `Deserialize.Deserializer.DeserializeBytes` | src/bson/de.rs:203-226 | yields binary data, or a document's bytes, and leaves what follows |
| `Deserialize.Deserializer.DeserializeIgnoredAny` | src/bson/de.rs:261-266 | moves past the value, or past all but the last byte of a regular expression |
| `Deserialize.Deserializer.NextKey` | src/bson/de.rs:281-287 | yields the next key and stands on its value, or past the terminator |
| `Deserialize.Deserializer.NextElement` | src/bson/de.rs:298-306 | the same for an array, passing over the key |
| `Deserialize.Deserializer.VisitMap` | src/bson/de.rs:278-295 | the loop over keys and values of a visitor that takes some keys and ignores others refines the visit over the stack of enclosing documents |
| `Visitors.VisitsExactly` | src/bson/de.rs:261-295 | a visit without an error yields exactly what is wanted and ends exactly behind the value if and only if no map it visits, at any depth, ignores a regular expression |
| `Visitors.SmoothVisit` | src/bson/de.rs:261-295 | without one it also fails exactly when something wanted cannot be shown |
| `VisitErrors.FailsAtFirst` | src/bson/de.rs:126-184 | such a visit fails exactly when it comes across binary data, a regular expression or a 128-bit decimal, and with the error of the first one in the order of the document |
| `Visitors.EverythingWanted` | src/bson/de.rs:126-184 | a visitor that ignores nothing comes across the whole view of a value |
| `Deserialize.Deserializer.VisitSeq` | src/bson/de.rs:297-308 | the same for the elements of an array |
| `Deserialize.SpecialDeserializer.Visit` | src/bson/de.rs:349-582 | object ids, dates and timestamps show themselves under their special keys; the state ends at zero |
| `Deserialize.DocumentDeserialize` | src/bson/doc.rs:124-126 | deserializing a document, with stale bytes or not, yields what its visitor wants, or the error of the first wanted value that cannot be shown; and the whole view to a visitor that wants everything |
| `CodecLaws.ViewDefined` | src/bson/de.rs:126-184 | exactly the values without binary data, regular expressions and 128-bit decimals at any depth can be read back |
| `CodecLaws.RoundTrip` | src/bson/de.rs:126-184 | decoding what was encoded gives the content back if and only if it holds no bare `u64`, bare bytes, embedded raw document or regular expression |
| `CodecLaws.Reencode` | src/bson/se.rs:195-261 | encoding what was decoded gives the value back, hence the bytes |
| `CodecLaws.RawDocument` | src/bson/se.rs:597-601 | embedding a finished document by its raw body means embedding its entries |
| `Wire.HeaderRoundTrip` | src/wire.rs:71-90 | a header is read from sixteen bytes if and only if they are what it is written as |
| `Wire.ConsumesItsLength` | src/wire.rs:413-434 | whatever comes of it, a complete uncompressed message consumes exactly its declared length |
| `Wire.RecvFrame` | src/wire.rs:413-447 | a frame yields its document exactly when the response id matches and its payload type is zero, else the error, and leaves exactly what follows |
| `Wire.MessageJudged` | src/wire.rs:427-447 | what comes of any complete uncompressed message, well-formed or not: when it panics, which error it is, and which bytes are the document |
| `Wire.UnknownOpCode` | src/wire.rs:83-88 | a header with another operation code is an error that consumes sixteen bytes |
| `Wire.WrappedLength` | src/wire.rs:430 | a length below sixteen wraps and ends in an I/O error |
| `Wire.CompressedFrame` | src/wire.rs:417-426 | a message in the sixteen-byte layout that `recv` reads is received like an uncompressed one, whatever length its header declares; other compressors and operation codes are the errors they are |
| `Wire.ShortFrame` | src/wire.rs:64-68 | a frame cut short anywhere is an I/O error |
| `Wire.Framing` | src/wire.rs:413-447 | over any concatenation of frames and any requested ids, repeated calls return the documents in order and leave what follows the last frame |
| `Wire.SentIsReceived` | src/wire.rs:341-375 | what `send` writes, the peer receives as the document that was sent |
| `Wire.NoopNeverReceived` | src/wire.rs:376-405 | what `send` writes with the compressor that does nothing is never received unless other bytes follow it |
| `Samples.EmptyMessage` | src/wire.rs:341-375 | the bytes of a request with an empty document |
| `Samples.EmptyNoop` | src/wire.rs:376-405 | the same through the compressor that does nothing |
| `WireStream.CopyToSlice` | src/wire.rs:71-76 | overwrites exactly the first sixteen bytes with the header |
| `WireStream.Stream.Recv` | src/wire.rs:413-447 | the method does what the receiving function says, error by error |
| `WireStream.Stream.Send` | src/wire.rs:341-375 | writes header, five zero bytes and the document |
| `WireStream.Stream.SendNoop` | src/wire.rs:376-405 | writes header, twelve bytes of data, and the message as it is |
| `WireStream.DataToSlice` | src/wire.rs:122-126 | overwrites nine bytes with operation code, size and compressor |
| `Sdam.WronglyReported` | src/topology.rs:410-449 | a reply is reported wrongly exactly when all other fields agree, its two wire versions differ and the description's largest one is either of them |
| `Sdam.RepeatedReply` | src/topology.rs:410-422 | the same reply again counts as nothing new exactly when it did the first time or its wire versions are the same |
| `TopologyEffects.RepeatsAreReported` | src/topology.rs:703-714 | a heartbeat with two different wire versions triggers a topology update again however often it is repeated |
| `Sdam.MemberReply` | src/topology.rs:400-408 | which replies come from set members; a reply never makes a server unknown or a possible primary, and keeps the address |
| `Sdam.KindsExactly` | src/topology.rs:400-408 | by the fields of the reply, exactly when a server is a router, a primary, secondary, arbiter or other member, a ghost, or standalone |
| `Sdam.ReplyFields` | src/topology.rs:424-449 | after a reply, reported or not, every field of the description is the reply's, except perhaps the largest wire version |
| `TopologyInvariant.InitInv` | src/topology.rs:77-84 | every initial topology, of any type and set name, satisfies the invariant |
| `TopologyInvariant.InitExactly` | src/topology.rs:77-84 | the configured type and set name, exactly the configured hosts, and nothing known of any of them |
| `TopologyInvariant.ReplyInv` | src/topology.rs:390-455 | a reply applied to any server keeps the invariant |
| `TopologyInvariant.FailureInv` | src/topology.rs:391-398 | so does a failure |
| `TopologyInvariant.FromPrimaryInv` | src/topology.rs:196-263 | a primary's report, accepted or not, complete or not, leaves at most one primary and only consistent members |
| `TopologyInvariant.WithoutPrimaryInv` | src/topology.rs:267-308 | the same for a member's report without a known primary |
| `TopologyInvariant.FromMemberInv` | src/topology.rs:312-331 | the same for a member's report with one |
| `TopologyInvariant.UpdateInv` | src/topology.rs:153-338 | every topology update keeps: addresses lead to their servers, at most one settled primary outside `Single` and only in a topology with primary, every settled server fits the type and set name, no election id without set version |
| `TopologyRuns.RunLater` | src/topology.rs:153-338 | over every interleaving of replies, failures and updates, of tracked and removed servers: the invariant; the record never decreases lexicographically; the set name is written at most once; `Single` and `Sharded` are never left; no removed server comes back |
| `TopologyRuns.AllRuns` | src/topology.rs:77-84 | the same from every initial topology |
| `TopologyLaws.MismatchedClaim` | src/topology.rs:203-209 | a primary of another set is no longer tracked and nothing else is lost or recorded |
| `TopologyLaws.StaleClaim` | src/topology.rs:213-225 | a claim below the record resets the claimant and changes no other server and not the record |
| `TopologyLaws.AcceptedClaim` | src/topology.rs:213-262 | after an accepted claim only the reporter's server can be a tracked primary, and the claim is the one on record if and only if it fills no hole |
| `TopologyLaws.AcceptedAddresses` | src/topology.rs:246-260 | after an accepted report exactly the hosts, passives and arbiters are tracked, surviving servers keep their identity and new ones start afresh |
| `TopologyLaws.OtherReports` | src/topology.rs:265-336 | any other report removes at most the server at the reporter's address, makes no primary and leaves the record alone |
| `TopologyLaws.TypeTellsTruth` | src/topology.rs:333-347 | after a completed update the type is with-primary exactly when a tracked primary exists, if and only if the reporter was not a possible primary in a topology that had just lost its primary |
| `TopologyLaws.BeatSettles` | src/topology.rs:703-714 | after a heartbeat that nothing comes between, everything is settled and the type tells the truth |
| `TopologyLaws.BeatsVisible` | src/topology.rs:703-714 | over any run of such heartbeats at most one tracked server is primary outside `Single`, and none unless the type says so |
| `TopologyLaws.AcceptedCurrent` | src/topology.rs:213-235 | an accepted claim of any reporter, tracked or removed, leaves no stale primary if and only if it does not overtake the server at its own address |
| `TopologyLaws.HoleOvertakes` | src/topology.rs:213-235 | of a tracked reporter that lists itself exactly a claim that fills a hole overtakes |
| `TopologyLaws.OrderlyRunsStayCurrent` | src/topology.rs:213-235 | in runs in which no accepted claim overtakes no settled primary is ever below the record |
| `TopologyWitnesses.HoleReached` | src/topology.rs:213-235 | a four-step run from the start that leaves a settled primary below the record |
| `TopologyWitnesses.OvertakenReached` | src/topology.rs:213-262 | an eight-step run in which a removed server's monitor overtakes the server that took its address |
| `TopologyWitnesses.LostReached` | src/topology.rs:172-172 | an eight-step run that ends with everything settled, type with-primary and no primary |
| `TopologyWitnesses.TwoPrimariesReached` | src/topology.rs:703-714 | a three-step run that ends with two tracked primaries, the second one not yet reported |
| `TopologyEffects.AddressesAfter` | src/topology.rs:180-189 | after a completed report that is no accepted claim, the tracked addresses are those of before with the announced ones and without an expelled reporter's |
| `TopologyEffects.KindAfter` | src/topology.rs:169-192 | the type after a completed report; where the table looks for a primary it is with-primary exactly when one is tracked, settled or not |
| `TopologyEffects.SetNameAfter` | src/topology.rs:203-204 | a set name is taken only where there is none, and only from a primary or where no primary is known |
| `TopologyEffects.DescriptionsAfter` | src/topology.rs:296-303 | after a report other than a claim every description is as before, except that a believed follower turns the unknown server it names into a possible primary |
| `TopologyEffects.EndsExactly` | src/topology.rs:196-331 | an update fails exactly when it comes to creating the listed servers and a missing one cannot be created; it panics exactly when a follower without `me` gets to the comparison with its address |
| `TopologyClaims.ClaimJudged` | src/topology.rs:196-263 | a primary's report field by field: of another set it only loses its place, below the record everything known of it, and otherwise its claim is recorded, the other tracked primaries are deposed, and exactly what it lists is tracked |
| `TopologyClaims.FailedUpdate` | src/topology.rs:196-294 | a failed update has created what is listed up to the first server that cannot be; a claim has let go of everything else and leaves the type with-primary |
| `TopologyClaims.PanickedUpdate` | src/topology.rs:284-319 | an update that panics with a primary known has changed nothing; without one it has done all but judge the reporter |
| `TopologyClaims.NewcomersAfter` | src/topology.rs:284-303 | a server that a follower makes known starts with nothing known, but for being taken for primary |
| `TopologyClaims.FirstContact` | src/topology.rs:172-308 | what the first reply and its report make of an unknown topology, for every reply: a router's `Sharded`, a standalone's `Single`, a ghost's nothing, a follower's no-primary, and when a primary's is with-primary |
| `TopologyDescription.Server.Update` | src/topology.rs:390-455 | the description after a reply or failure, and what is returned |
| `TopologyDescription.TopologyDescription.Init` | src/topology.rs:77-84 | one server for each configured host, or a failure exactly when one cannot be created |
| `TopologyDescription.TopologyDescription.CheckIfHasPrimary` | src/topology.rs:341-347 | the search loop refines the existence of a tracked primary |
| `TopologyDescription.TopologyDescription.InvalidateOthers` | src/topology.rs:237-244 | the loop over the shared servers, in any order, takes the type from every other primary and from no one else |
| `TopologyDescription.TopologyDescription.AddServers` | src/topology.rs:252-260 | creates the missing servers in order, up to the first failure |
| `TopologyDescription.TopologyDescription.RecordClaim` | src/topology.rs:213-235 | the nested tests and assignments refine staleness and the new record |
| `TopologyDescription.TopologyDescription.UpdateFromPrimary` | src/topology.rs:196-263 | the in-place method refines the function that the invariants are about |
| `TopologyDescription.TopologyDescription.UpdateWithoutPrimary` | src/topology.rs:267-308 | the same |
| `TopologyDescription.TopologyDescription.UpdateFromMember` | src/topology.rs:312-331 | the same |
| `TopologyDescription.TopologyDescription.Update` | src/topology.rs:153-338 | the whole update on the object graph refines the update function |
| `TopologyDescription.TopologyDescription.Heartbeat` | src/topology.rs:703-714 | one monitor round: a failed heartbeat changes the description only and ends the round before the topology update |
| `Pool.FillOneInv` | src/topology.rs:561-587 | opening a connection to fill the pool keeps every connection in exactly one place under a number of its own |
| `Pool.ReuseInv` | src/topology.rs:590-615 | a pooled connection handed out is of the current iteration and was not in use |
| `Pool.OpenInv` | src/topology.rs:625-680 | a new connection gets a number never used before |
| `Pool.ClearInv` | src/topology.rs:647-658 | clearing starts a new iteration and keeps no idle stream |
| `Pool.DropInv` | src/topology.rs:738-766 | a connection given back, with an error or not, of this iteration or an older one, keeps the invariant |
| `PoolRuns.FillsInOrder` | src/topology.rs:560-587 | filling adds exactly the connections whose attempts succeed, numbered on from `len`, and stops at the minimum or the first failure |
| `PoolRuns.NewestIsReused` | src/topology.rs:589-615 | a filled pool hands out the newest idle connection that is not too old and closes exactly the newer ones |
| `PoolRuns.NoneIsFresh` | src/topology.rs:589-680 | when all idle ones are too old they are closed, and the section waits exactly at the maximum, else asks the network; the state after each answer field by field, a failed handshake ending the iteration with `len` 0 |
| `PoolLaws.AcquireFills` | src/topology.rs:560-587 | a section that begins below the minimum ends at the first failed attempt with what was opened so far, and else goes on as in the filled pool |
| `PoolLaws.DropExactly` | src/topology.rs:738-766 | a connection given back is idle exactly when it met no error and is of this iteration, else closed |
| `PoolLaws.GivenBackIsNext` | src/topology.rs:589-615 | taking a connection undoes giving it back intact |
| `PoolLaws.ClosedForGood` | src/topology.rs:738-766 | in every later run, what is closed is never idle or handed out again |
| `PoolLaws.BrokenNeverReturns` | src/topology.rs:740-747 | so a connection that met an error never comes back |
| `PoolLaws.ClearedForGood` | src/topology.rs:651-653 | nor does any opened before a failed handshake, in use or not |
| `PoolRuns.AcquireLater` | src/topology.rs:553-680 | a section of `acquire_stream`, whatever network and clock do, keeps the invariant and hands out a connection whose (iteration, id) is not in use |
| `PoolRuns.RunLater` | src/topology.rs:553-766 | over every interleaving of sections the invariant holds, no (iteration, id) is used twice, nothing closed opens again |
| `PoolRuns.StaleNeverReturns` | src/topology.rs:749-763 | a connection from before a clear is never idle or handed out again |
| `PoolRuns.Conservation` | src/topology.rs:459-463 | `len` is the number of idle connections, of those in use and of those closed, all in this iteration; over all iterations nothing is lost |
| `PoolRuns.MaximumRespected` | src/topology.rs:617-623 | live connections of the iteration never exceed the maximum, in all runs, if and only if the minimum does not exceed it |
| `PoolRuns.StuckForever` | src/topology.rs:617-623 | a pool whose connections of the iteration are all opened and all closed makes every later call wait |
| `PoolRuns.StuckExactly` | src/topology.rs:617-623 | a pool can ever hand out a connection again if and only if it is not in that state |
| `PoolRuns.StuckReached` | src/topology.rs:589-603 | a three-step run into that state, by idle expiry alone |
| `ServerPool.ServerPool.AcquireStream` | src/topology.rs:553-680 | the loop with its early returns and `continue` refines the section function |
| `ServerPool.ServerPool.Drop` | src/topology.rs:738-766 | the method refines the drop function |

## Left out

- JavaScript types, `$code`, `$scope`, and `BinaryData` through serde (`src/bson/mod.rs:762-801`, `src/bson/se.rs:203-223`): unfinished in the source.
- Narrower integers, floats, tuples, newtypes, options and enum variants of serde, which forward to the modelled calls; conversion of document bytes to UTF-8 strings, which only adds an error.
- Regular expressions, binary data and 128-bit decimals read through `deserialize_any`: modelled as the error or panic they end in.
- `clear`, `is_empty`, `EntryIter` and the offsets of `VacantEntry::insert` (`src/bson/doc.rs:512-524`, `581-586`, `631-638`).
- DocMuts.DocMut.Append: requires a value that is no date, because writing one panics there (`src/bson/mod.rs:649-651`).
- DocMuts.DocMut.Insert: the same.
- ArrayWriter.WriteArray: requires elements that are no dates, for the same reason.
- Scan.GetValueSize: assumes well-formed bytes of the type it is told; on others the source panics or reads on.
- Documents, values and messages of 2^31 bytes or more, whose length fields wrap.
- The `compress` feature and its one compressor, and document sequences in `send`.
- Wire.Recv: a length below sixteen wraps, as in release builds; in debug builds it panics.
- Server selection (`src/topology.rs:86-149`), wire version compatibility (`src/topology.rs:156-167`), times, compressors and session data that nothing modelled reads.
- Lock poisoning, event listeners, wake-ups and the liveness of waiting threads; a wait ends a section, and the woken thread begins one like a new call.
- Topology.WithoutPrimary: a member's reply without `me` panics there and poisons the lock; the model ends the update with `Panicked` and lets other steps go on. The same holds for `FromMember`.
- TopologyLaws.BeatsVisible: is about heartbeats that nothing comes between; for other interleavings an unsettled server may be a second primary until its update (`TwoPrimariesReached`), and `UpdateInv` says what holds.
- SerialForm.Ser: a struct is a map, so a `HashMap` under `$regularExpression`, which the source refuses, is written like a struct; object ids of another length than twelve are written as in release builds.
- Visitors.Visitor: ignores whole values under keys; visitors that stop before the end of a map, or ignore single elements of an array, are left out.
- Cursor paging, retries, URI parsing, error codes, authentication, TLS: no part of these properties.
