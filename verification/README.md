# A model of the Oracle driver's codecs and state machines

This project models, in Dafny 4.11, the parts of a pure-Go Oracle client that turn bytes into rows and back, and
proves what they are for. `dafny verify dfyconfig.toml` checks all of it.

* **Values on the wire.** `NumberText`, `NumberWire`, `NumberOrder` and `NumberCodec` are the base-100 NUMBER
  format: its meaning over the reals, its round trip and sort order, and the two in-place algorithms. `TtcValues`
  is the encoding of integers and byte strings inside messages.
* **Packets.** `Security` and `Tns` (in `Transport.dfy`) protect packets, `RequestWriter` (`WriteBuffer.dfy`) cuts
  a request into them, `ResponseReader` (`ReadBuffer.dfy`) glues a response together, and `Session` composes both
  ends and models the marker reset. The abstract value of a buffer is one byte stream; no split, padding or
  keystream step shows in it.
* **Self-describing values.** `JsonText`, `Oson`, `OsonPaths`, `OsonHeader` and `OsonDecoder` are binary JSON.
  `OsonEncoding` and `OsonLayout` say in bytes how documents are laid out, and `OsonJson` says, by the reader of JSON
  texts in `JsonReader`, what the decoder's text means. `ObjectImage` and `ImageEncoding` are object images read
  under a type; `TypeResolver` finds those types in the dictionary.
* **Rows.** `Rows` says which messages stand for which table, `RowPacking` how senders compress rows, `RowFetch`
  expands them into the `ArrowSink`, and `RecordReader` cuts what the sink holds into batches.
* **Transformations.** `SqlText`, `SqlScan` and `SqlAgreement` are the two SQL scanners, and `SqlPieces` says what a
  text is made of that they scan. `Wkb`, `SdoGeometry` and `WkbWriter` turn SDO_GEOMETRY into well-known binary;
  `GeometryLaws` says what that must keep.
* **Cursors.** `Cursors` follows server cursors through every run of a connection.

Code that works by changing state is modelled as classes and loops. Each such method is proved equal to a
function of its inputs, and the lemmas are about that function. What such a function must mean is stated apart from
it: by spellings, pieces, layouts and descriptions written out in characters and bytes, by readers of the target
format, and by values over the reals. Ciphers and hashes are parameters of which only
"decrypting undoes encrypting on whole blocks" is assumed (`Security.Sound`). Character classes are parameters of
which only the ASCII part is used (`SqlScan.Ascii`), for `SqlPieces` also that no character is in two classes and
that upper-casing loses no word (`SqlPieces.Tables`). Integers are unbounded where the source's cannot overflow and
written with their wrap-around where they can. An index or slice out of bounds in the source is an outcome of the
model (`IndexOutOfRange`, `Panic`), not a precondition, where the source does not rule it out.

Where the code and its own words differ, the model follows the code:

* `DecodeOSONToJSON` is documented to append to its second argument but starts from an empty slice of it.
* The encoder accepts 40-digit numbers at an odd decimal point, which take 22 bytes and which the decoder refuses.
* The comment of the reset re-initialisation says a fresh keystream; the AES generator is re-keyed, but the running
  state of the lane is kept (`Security.ResetRealignsIff`).
* `rewriteQmark` takes three characters for a whole block comment that `parseSQL` takes for the start of one.

## Model

| member | source | states |
|---|---|---|
| `NumberText.ParseSpells` | internal/oratype/number.go:132-203 | Every number as it may be spelled — a sign or none, digits, a point or none with digits behind it, an exponent or none with its letter, its sign or none and its digits — is read as exactly those parts; a minus sign counts, before the digits and behind the letter, a plus sign does not. |
| `NumberText.ParsedIsSpelled` | internal/oratype/number.go:132-203 | And nothing else is read: what parses is such a spelling of what it is read as. |
| `NumberText.ValueOfSpelling` | internal/oratype/number.go:174-200 | A spelling is worth the schoolbook value of its digits, times ten to the exponent or, behind a minus sign, divided by it. |
| `NumberText.NormalizeKeepsValue` | internal/oratype/number.go:137-206 | Trimming leading and trailing zeros and moving the decimal point, as the encoder does while scanning, keeps the value of every decimal text. |
| `NumberText.PlainParsesBack` | internal/oratype/number.go:91-113 | The decoder's plain text of a canonical number parses, and normalises back to that very number. |
| `NumberText.PlainHasNoRedundantZeros` | internal/oratype/number.go:91-113 | Plain text has no leading zero before another whole digit, no trailing zero behind the point, and no fraction exactly for integers. |
| `NumberText.IntegerIff` | internal/oratype/number.go:94-107 | A number is flagged an integer exactly when its value is whole. |
| `NumberWire.WireMeans` | internal/oratype/number.go:207-251 | The wire form is the number: its digits in base 100, one more than their value or 101 less it, from the power that the first byte says, 193 less or 62 less it, with a closing 102 below zero that is no digit. |
| `NumberWire.MachinePointIsExact` | internal/oratype/number.go:153-209 | The saturating exponent arithmetic accepts exactly the numbers whose true decimal point is in range, and is exact on them. |
| `NumberWire.WireSize` | internal/oratype/number.go:207-251 | Every accepted number takes at most 22 bytes, and at most the 21 the decoder allows exactly unless it has 40 significant digits at an odd point. |
| `NumberWire.WireSignBit` | internal/oratype/number.go:224-231 | The high bit of the first byte is set exactly for numbers not below zero. |
| `NumberWire.UnpackWire` | internal/oratype/number.go:41-90 | The decoder finds exactly the digits and the decimal point that were encoded. |
| `NumberWire.DecodeWire` | internal/oratype/number.go:32-115 | The encoding of a canonical number that fits decodes to its plain text and integer flag. |
| `NumberWire.RoundTrip` | internal/oratype/number.go:32-253 | For every accepted text: decoding its encoding gives the plain text of its number, or the too-large error exactly in the 40-digit odd-point case. |
| `NumberWire.RoundTripMeaning` | internal/oratype/number.go:32-253 | The decoded text has the value of the original text, is the plain text of its own normal form, and the integer flag tells whether the value is whole. |
| `NumberWire.PlainEncodes` | internal/oratype/number.go:120-253 | Every canonical number in range has a text that is accepted, its plain one, and it is encoded as exactly that number's wire form. |
| `NumberWire.SpellingEncodes` | internal/oratype/number.go:120-253 | Every spelling of at most 172 characters is encoded as the wire form of its normal form if that is in range, and refused as not representable if not. |
| `NumberWire.KnownEncodings` | internal/oratype/number_test.go:34-45 | Encodings the tests pin, and that of 1e-2. |
| `NumberWire.NoIndexPanicOnEncoderOutput` | internal/oratype/number.go:64-90 | No encoder output makes the decoder index beyond its digit slots. |
| `NumberWire.OverrunsIff` | internal/oratype/number.go:64-90 | Of all byte strings, the decoder indexes beyond its 42 digit slots on exactly those whose digit bytes ask for more: two slots each, one more for every byte that carries, one less for a zero digit at either end. |
| `NumberWire.DigitBytesFit` | internal/oratype/number.go:64-90 | Bytes in the digit range never overrun, whoever encoded them. |
| `NumberWire.FifteenCarriesOverrun` | internal/oratype/number.go:80-83 | Fourteen bytes that carry fit, fifteen do not. |
| `NumberOrder.ByteOrderIsNumericOrderIff` | internal/oratype/number.go:207-251 | For any two accepted texts, unsigned byte order of the encodings is numeric order of the values exactly unless one is a 22-byte encoding below zero and the other is all of it but its last byte; equal bytes mean equal values without exception. |
| `NumberOrder.ByteOrderIsNumericOrder` | internal/oratype/number.go:207-251 | So within the 21 bytes the decoder takes, byte order and numeric order are the same. |
| `NumberOrder.WideNumbersBreakTheOrder` | internal/oratype/number.go:249-251 | A concrete pair on which the order fails: a 40-digit negative number and its 39-digit prefix. |
| `NumberCodec.ScanDigits` | internal/oratype/number.go:137-173 | The digit loop fills the array with the significant digits read so far, and stops at the exponent, the point, or a bad character. |
| `NumberCodec.ScanExponent` | internal/oratype/number.go:174-200 | The exponent loop reads a sign and digits, or reports an error exactly where the grammar does. |
| `NumberCodec.TrimTrailing` | internal/oratype/number.go:204-206 | The shrinking loop drops exactly the trailing zeros. |
| `NumberCodec.Align` | internal/oratype/number.go:210-222 | Digits are completed in place to whole pairs aligned at the decimal point. |
| `NumberCodec.EmitPairs` | internal/oratype/number.go:232-248 | The pair loop emits the base-100 digits, complemented below zero. |
| `NumberCodec.Pack` | internal/oratype/number.go:207-251 | In place on the digit array: exponent byte, pairs and trailer are the wire form of the number. |
| `NumberCodec.EncodeNumber` | internal/oratype/number.go:120-253 | The whole encoder equals the specification that the round trip and the order are proved of, errors included. |
| `NumberCodec.EmitText` | internal/oratype/number.go:91-114 | The output loop emits sign, leading zeros, digits and point of the decoded number. |
| `NumberCodec.DecodeNumber` | internal/oratype/number.go:32-115 | The whole decoder, in place on its digit array, equals the specification, errors and index overruns included. |
| `TtcValues.SB4Mirrors` | internal/tns/writebuf.go:210-229 | Reading a signed 32-bit integer undoes writing it, except that the smallest one reads back as 0. |
| `TtcValues.UnsignedForm` | internal/tns/writebuf.go:159-207 | The bytes of every unsigned integer: how many follow, 0, 1, 2, 4 or 8, and the digits in base 256, highest first. |
| `TtcValues.SignedForm` | internal/tns/writebuf.go:210-229 | Signed ones: those of the magnitude, with 128 more in the first byte below zero; the smallest is 129 0. |
| `TtcValues.BytesForm` | internal/tns/writebuf.go:257-279 | Byte strings: a length byte up to 252, else 254, chunks of 32767 bytes and a last one with their lengths, and 0. |
| `TtcValues.ShortReads` | internal/tns/readbuf.go:405-415 | Length bytes 0 and 255 read as nothing, others but 254 as that many bytes. |
| `TtcValues.ReadUndoesWrite` | internal/tns/writebuf.go:114-295 | Each typed read undoes its typed write and stops right behind it, whatever follows in the stream. |
| `TtcValues.ReadsUndoWrites` | internal/tns/writebuf.go:114-295 | Any sequence of typed writes is read back value by value by the mirrored reads. |
| `TtcValues.SkipLikeRead` | internal/tns/readbuf.go:375-490 | On every stream, skipping a value and reading it end at the same place exactly when the length byte is not 255. |
| `TtcValues.SkipUndoesWrite` | internal/tns/readbuf.go:466-490 | Skipping lands right behind every value the writer can emit. |
| `Security.DecryptUndoesEncrypt` | internal/tns/security.go:215-247 | Padding is undone exactly for every length, given only that the block cipher inverts on whole blocks. |
| `Security.EncryptedForm` | internal/tns/security.go:215-226 | What is encrypted is the plain text and up to fifteen zero bytes, in whole blocks; the byte behind tells one more than their number. |
| `Security.ValidateUndoesCompute` | internal/tns/security.go:293-315 | A checksum computed on one lane validates on an equal lane, and both lanes end equal. |
| `Security.UnwrapUndoesWrap` | internal/tns/security.go:128-163 | A wrapped payload unwraps at any endpoint whose receiving lane is where the sending lane is, and moves it where the sending lane went. |
| `Security.UnwrapsIff` | internal/tns/security.go:143-163 | A packet is accepted exactly if its trailer is the digest of its payload and the keystream drawn for it. |
| `Security.TamperedIsRefused` | internal/tns/security_test.go:116-122 | Where payloads travel in the clear, any other trailer is refused. |
| `Security.NthAesTrailer` | internal/tns/security.go:293-299 | The trailer of packet n is a digest with block n of the keystream, each block being the one before encrypted once more under its own last sixteen bytes. |
| `Security.NthRc4Trailer` | internal/tns/security.go:351-358 | Under RC4 with the piece of keystream behind all those drawn before. |
| `Security.WrapSize` | internal/tns/security.go:106-141 | Protection adds at least two bytes and at most the declared overhead. |
| `Security.StepKeepsInvariant` | internal/tns/security.go:120-163 | Every send, receive and joint reset of two endpoints keeps both directions in step, and no packet is refused. |
| `Security.RunsDeliver` | internal/tns/security.go:120-163 | Over every run, each side has received an initial part of exactly what the other sent, in order. |
| `Security.SetupMirrors` | internal/tns/security.go:167-205 | The two ends set up from one shared key and IV have the same generator and lanes tagged the other way round, and both fail on the same short keys. |
| `Security.DirectionsAreTagged` | internal/tns/security.go:272-290 | At either end, byte five of the lane keys is 90 from client to server and 180 from server to client, and the bytes before it are the same. |
| `Security.MirroredEndpointsDeliver` | internal/tns/security.go:167-205 | This holds from two endpoints set up from one shared key and IV, for every algorithm mix. |
| `Security.ResetRealignsIff` | internal/tns/security.go:272-290 | Resetting both ends realigns a direction exactly when it is RC4 or the AES running states already agree. |
| `Tns.ProtectSize` | internal/tns/transport.go:168-182 | A protected packet is at most the overhead longer, and long enough for ReadPacket to unwrap. |
| `Tns.ProtectedPacketFits` | internal/tns/transport.go:161-192 | A packet within the buffer limit stays within the SDU once protected, and its rewritten length field is its real length. |
| `Tns.AllProtectedFit` | internal/tns/transport.go:161-192 | The same for any number of packets protected one after the other. |
| `Tns.PacketTravels` | internal/tns/transport.go:113-192 | One protected packet is cut out of the stream by its length field and unwraps to what was sent. |
| `Tns.PacketsTravel` | internal/tns/transport.go:113-192 | The byte stream of any sendable packets is cut back into exactly those packets. |
| `Tns.Transport.WritePacket` | internal/tns/transport.go:161-192 | The object sends the packet protected as the specification says and advances the sending lane, or closes on a failed write. |
| `Tns.Transport.ReadPacket` | internal/tns/transport.go:113-160 | The object returns the next packet of the stream, unprotected, and advances the receiving lane. |
| `RequestWriter.WriteBuffer.SizeForSDU` | internal/tns/writebuf.go:43-50 | The buffer shrinks so that a full packet plus the protection overhead is the SDU. |
| `RequestWriter.WriteBuffer.InstallSecurity` | internal/ttc/conn.go:487-489 | Installing protection and resizing keeps the buffer invariant at the new overhead. |
| `RequestWriter.WriteBuffer.SendPacket` | internal/tns/writebuf.go:67-94 | The pending packet goes out with a header length equal to its real length, its type, packet flags and data flags in their places and zeros in between, and its payload unchanged. |
| `RequestWriter.WriteBuffer.WriteRaw` | internal/tns/writebuf.go:232-247 | Raw bytes are appended to the request's stream, however many packets they span; no flushed packet is empty. |
| `RequestWriter.WriteBuffer.WriteUB` | internal/tns/writebuf.go:159-207 | The 16, 32 and 64-bit universal integers append the shortest form. |
| `RequestWriter.WriteBuffer.WriteSB4` | internal/tns/writebuf.go:210-229 | The signed form, for every 32-bit value. |
| `RequestWriter.WriteBuffer.WriteBytesWithLength` | internal/tns/writebuf.go:257-279 | Short values behind one length byte, long ones in chunks of 32767 bytes behind 254, closed by 0. |
| `RequestWriter.WriteBuffer.WriteBytesWithTwoLengths` | internal/tns/writebuf.go:281-291 | An absent value as a zero length, others behind both lengths. |
| `RequestWriter.WriteBuffer.WriteSeqNum` | internal/tns/writebuf.go:298-304 | Sequence numbers run from 1 to 255 and skip 0. |
| `RequestWriter.WriteBuffer.EndRequest` | internal/tns/writebuf.go:96-101 | All packets of the request are well formed, within the limit and not empty unless nothing was written; their payloads are exactly what was written. |
| `RequestWriter.WriteBuffer.Request` | internal/tns/writebuf.go:52-101 | The same for a whole request of any typed writes; the limit and the receiving side are untouched, and every packet the request put on the wire is, as protected and relabelled, at most the SDU long and says so. |
| `ResponseReader.WaitLosesNothing` | internal/tns/readbuf.go:132-158 | A wait drops nothing but control packets, with or without a request boundary. |
| `ResponseReader.WaitFindsNext` | internal/tns/readbuf.go:132-158 | Without a request boundary a wait finds just the next packet. |
| `ResponseReader.ReadableIsPayloads` | internal/tns/readbuf.go:105-117 | The readable bytes of received DATA packets are the payloads sent. |
| `ResponseReader.ValuesTravel` | internal/tns/readbuf.go:173-284 | Whatever DATA packets carry typed values, wherever split and however protected, the mirrored reads at the other end return exactly those values. |
| `ResponseReader.ReadBuffer.WaitForPackets` | internal/tns/readbuf.go:132-158 | The object starts the next packet saved; if none is left it first saves what the wait specification saves, up to the response boundary where one is awaited, or reports the lost connection. |
| `ResponseReader.ReadBuffer.GetRaw` | internal/tns/readbuf.go:173-209 | n bytes are taken off the stream, glued over packet boundaries. |
| `ResponseReader.ReadBuffer.SkipRawBytes` | internal/tns/readbuf.go:211-228 | n bytes are dropped off the stream, over packet boundaries. |
| `ResponseReader.ReadBuffer.ReadInteger` | internal/tns/readbuf.go:232-301 | The universal integers are read as the specification parser reads them; a 32-bit signed read then keeps the low 32 bits (`TtcValues.ParseSB4`). |
| `ResponseReader.ReadBuffer.ReadBytes` | internal/tns/readbuf.go:375-415 | A length-prefixed value, chunked or not, is read as the specification parser reads it. |
| `ResponseReader.ReadBuffer.SkipBytes` | internal/tns/readbuf.go:466-483 | A length-prefixed value is skipped as the specification parser skips it. |
| `ResponseReader.ReadBuffer.ReadAll` | internal/tns/readbuf.go:263-425 | Any sequence of typed reads returns what parsing the readable stream returns. |
| `Session.Exchange` | internal/tns/writebuf.go:52-101 | A writer, a transport and a mirrored reader composed: unless the socket broke, the values read are the values written. |
| `Session.ResetLands` | internal/ttc/conn.go:635-653 | Whatever data, other markers and notifications precede the reset marker, the hunt ends on the first packet after it that is no marker. |
| `Session.LandedMeansReset` | internal/ttc/conn.go:635-653 | The hunt lands nowhere else: before the landing there is a reset marker, and only markers and control packets between. |
| `Session.HuntForReset` | internal/ttc/conn.go:635-653 | The packet-discarding loops end exactly where the hunt says, and terminate on every stream. |
| `Session.ResetConnection` | internal/ttc/conn.go:623-656 | The whole reset: keystreams are re-initialised before anything more is read, then the hunt runs over the packets saved before and, unless the reset marker could not be sent, those still to come. |
| `JsonText.AppendStringBytes` | internal/oratype/oson.go:646-678 | The run-copying writer appends the JSON literal of any byte string. |
| `JsonText.StrBytes` | driver/oracle/objects.go:337-356 | The per-byte writer appends the same literal. |
| `JsonText.BothWriters` | internal/oratype/oson.go:646-678 | The two writers agree on every byte string, valid UTF-8 or not. |
| `JsonText.LiteralReadsBack` | internal/oratype/oson.go:646-678 | A string reader following section 7 of RFC 8259 recovers every byte string from its literal and reads not a byte more. |
| `Oson.ReadFinds` | internal/oratype/oson.go:302-391 | Reading bytes that represent a document finds that document, at any depth bound not below its nesting. |
| `Oson.ReadIsRepresented` | internal/oratype/oson.go:302-391 | Whatever is read is represented by the bytes: names, positions and every node below. |
| `Oson.OneDocument` | internal/oratype/oson.go:302-391 | The same bytes never represent two documents. |
| `Oson.ReadStable` | internal/oratype/oson.go:302-391 | Once a depth bound suffices, a larger one changes nothing. |
| `OsonPaths.DeepIffLoops` | internal/oratype/oson.go:302-391 | As many levels as there are bytes are enough: what nests deeper nests without end, exactly if reading comes back to a container it is still inside of. |
| `OsonPaths.PanicIffReachesOverrun` | internal/oratype/oson.go:393-405 | Reading that ends indexes out of range exactly when it gets to a NUMBER that overruns the digit slots, every sibling before it on the way being a document. |
| `OsonPaths.DocIffRepresented` | internal/oratype/oson.go:302-391 | Reading ends with a document exactly when the bytes represent it. |
| `OsonHeader.DictionaryReadsBack` | internal/oratype/oson.go:232-275 | Reading a name dictionary undoes laying it out, short or long, wherever it stands and whatever its hash ids. |
| `OsonDecoder.Decoder.ReadFieldNames` | internal/oratype/oson.go:232-275 | The loop appends exactly the dictionary's names and ends behind it, or fails exactly where an entry is out of bounds. |
| `OsonDecoder.Decoder.ReadHeader` | internal/oratype/oson.go:127-229 | Flags, sizes and dictionaries are read as the header specification says; short names come before long ones. |
| `OsonDecoder.Decoder.DecodeScalar` | internal/oratype/oson.go:434-625 | Every scalar branch appends the text of the scalar at that position, or fails or indexes out of range exactly where the specification does; which bytes are which scalar is `OsonLayout.ScalarIff`, and what the text means `OsonJson.DocReads`. |
| `OsonDecoder.Decoder.ReadBox` | internal/oratype/oson.go:302-331 | The directory of a container, with own or shared field ids. |
| `OsonDecoder.Decoder.ReadChildPos` | internal/oratype/oson.go:371-380 | Absolute or container-relative child offsets, wrapping at 32 bits. |
| `OsonDecoder.Decoder.DecodeMembers` | internal/oratype/oson.go:332-391 | The children are appended in stored order, with their names and separators, up to the first that fails or indexes out of range. |
| `OsonDecoder.Decoder.DecodeNode` | internal/oratype/oson.go:426-625 | A node appends exactly the text of the document read at its position, or ends as that reading ends. |
| `OsonDecoder.DecodeOson` | internal/oratype/oson.go:119-391 | On every byte string on which it ends at all, the decoder ends with the text, the error or the index out of range that the specification gives; for what the text means see `OsonJson.DecodedReads`. |
| `OsonDecoder.OutcomeOf` | internal/oratype/oson.go:119-391 | Which one: the decoder does not end exactly on bytes that loop; it indexes out of range exactly on others on which it gets to an overrunning NUMBER; it yields a text exactly on those that represent a document, and then that document's; on all others it reports an error. |
| `OsonDecoder.DecodesIffDocument` | internal/oratype/oson.go:119-391 | Bytes decode to a document exactly if they represent it, and such a document prints. |
| `OsonDecoder.SelfLoopNeverEnds` | internal/oratype/oson.go:371-384 | Seventeen bytes on which the decoder does not end: an array that holds itself. |
| `OsonDecoder.OverrunPanics` | internal/oratype/oson.go:393-405 | Twenty-five bytes on which it indexes out of range: a document that is one NUMBER of fifteen bytes that carry. |
| `OsonEncoding.EncodedIsDocument` | internal/oratype/oson.go:127-391 | Every printable document has a layout, with absolute or relative offsets and any hash ids, that the decoder reads back as exactly that document. |
| `OsonEncoding.NodeStands` | internal/oratype/oson.go:302-391 | A tree laid out node by node is represented where it stands. |
| `OsonLayout.ScalarIff` | internal/oratype/oson.go:434-625 | A node is read as a scalar exactly if it is written as that scalar in one of its forms: the literals, strings and numbers with their length in the type byte or behind it, binary values and fixed-size leaves. |
| `OsonLayout.DirectoryIff` | internal/oratype/oson.go:277-331 | A container's directory is found exactly where some writer put it: own ids behind a count of one, two or four bytes, or those of another container; offsets of two or four bytes. |
| `OsonLayout.LaidIff` | internal/oratype/oson.go:302-391 | Bytes represent a document exactly if they lay it out: scalars in any forms, members named by any ids, and children anywhere, in any order, overlapping or shared. |
| `OsonLayout.HeaderStands` | internal/oratype/oson.go:127-229 | Whatever widths a header chooses, and with a second dictionary in version 3, the decoder gets to the tree behind it with the right names, widths and base of offsets. |
| `OsonLayout.ScalarHeaderStands` | internal/oratype/oson.go:127-229 | And to the one node of a document that is a scalar. |
| `OsonLayout.LayoutDecodes` | internal/oratype/oson.go:119-391 | A document laid out in any forms behind any header decodes to its own text. |
| `OsonLayout.TrueDocument` | internal/oratype/oson.go:438-440 | The nine bytes of the smallest such document, and the four of its text. |
| `OsonJson.DocReads` | internal/oratype/oson.go:302-678 | The text written for a document is JSON for it: a reader following RFC 8259 gets the document's value — literals, strings, numbers by value, lower-case hexadecimal digits, members in their order under their names — and everything behind the text. |
| `OsonJson.HasValue` | internal/oratype/oson.go:302-678 | Every document whose numbers and leaves print as JSON values has such a value. |
| `OsonJson.OneValue` | internal/oratype/oson.go:302-678 | And only one. |
| `OsonJson.DecodedReads` | internal/oratype/oson.go:119-391 | So decoding the bytes of a document writes a text whose value is the document's. |
| `ObjectImage.ImageReader.ReadLength` | internal/ttc/objimage.go:98-109 | A length is one byte, or four behind 254. |
| `ObjectImage.ImageReader.BytesWithLength` | internal/ttc/objimage.go:111-129 | A length-prefixed value, absent for the lengths 0 and 255. |
| `ObjectImage.ImageReader.Header` | internal/ttc/objimage.go:131-154 | The header ends where the specification says; degenerate images and truncation fail. |
| `ObjectImage.ImageReader.DecodeXml` | internal/ttc/objimage.go:253-279 | XML images hold text or a locator by their flag; others fail. |
| `ObjectImage.ImageReader.DecodeCollection` | internal/ttc/objimage.go:166-190 | The element loop reads as many indexes and elements as the count says. |
| `ObjectImage.ImageReader.DecodeObject` | internal/ttc/objimage.go:191-200 | The attribute loop reads the attributes in order. |
| `ObjectImage.ImageReader.DecodeTyped` | internal/ttc/objimage.go:210-242 | The byte read ahead tells null, packed and inline objects apart, and is put back. |
| `ObjectImage.DecodeObjectImage` | internal/ttc/objimage.go:156-163 | The decoder equals the specification reader, and terminates on arbitrary bytes by the height of the type. |
| `ImageEncoding.ImageReadsBack` | internal/ttc/objimage.go:99-251 | For every type tree and every value of it laid out as an image: the decoder recovers the value to the last byte exactly when no inline object starts with a null inline object. |
| `ImageEncoding.LengthForm` | internal/ttc/objimage.go:98-109 | Lengths up to 245 take one byte, others 254 and four. |
| `ImageEncoding.KnownObjectImage` | internal/ttc/objimage.go:131-242 | The bytes of an object of a scalar and a null object. |
| `ImageEncoding.KnownTableImage` | internal/ttc/objimage.go:131-242 | The bytes of an index table of one null element at index -1. |
| `ImageEncoding.KnownXmlImages` | internal/ttc/objimage.go:253-279 | The bytes of XML images of text, of a locator, with a flag that skips four bytes, and with one that says neither. |
| `ImageEncoding.FirstByte` | internal/ttc/objimage.go:219-226 | The layout of an object starts with the null byte exactly when its first attribute is, or starts with, a null inline object. |
| `ImageEncoding.AmbiguousReadsAsNull` | internal/ttc/objimage.go:219-226 | Exactly those objects are read as a null one, a single byte long. |
| `ImageEncoding.NullInsideReadsAsNull` | internal/ttc/objimage.go:219-226 | A concrete value that does not survive. |
| `TypeResolver.Resolver.ObjectType` | internal/ttc/objtype.go:61-84 | A call leaves nothing unresolved in the cache, whether it succeeds or fails, and loses nothing cached. With dot-free schema names it succeeds exactly on types that unfold to base types in finitely many levels. |
| `TypeResolver.Resolver.Resolve` | internal/ttc/objtype.go:61-84 | The same with resolutions in progress: it terminates on every finite dictionary, and a type with a finite description fails only behind one still being resolved. |
| `TypeResolver.Resolver.FillIn` | internal/ttc/objtype.go:156-201 | A type is filled in as its dictionary entry says, all its references resolved and of lesser height. |
| `TypeResolver.Resolver.Meta` | internal/ttc/objtype.go:203-213 | An attribute or element row becomes a base type or a resolved reference. |
| `TypeResolver.Resolver.ReferencesDescend` | internal/ttc/objtype.go:61-84 | Following references from a resolved type meets only cached, resolved types of ever lesser height: never the first again. |
| `TypeResolver.CyclesDoNotFit` | internal/ttc/objtype.go:66-69 | A type that refers back to itself, over however many steps, has no finite description. |
| `TypeResolver.KeysAreNamesIff` | internal/ttc/objtype.go:65-65 | Two types share a cache key exactly when they are the same, or a dot moves from the name of one into the schema of the other. |
| `TypeResolver.KeysAreNames` | internal/ttc/objtype.go:65-65 | So cache keys tell types apart when schema names contain no dot. |
| `TypeResolver.DottedNamesClash` | internal/ttc/objtype.go:65-71 | With a dot in a schema name a type that does not exist resolves, to another one. |
| `Rows.OneTable` | internal/ttc/execute.go:446-474 | A stream of row messages stands for one table only. |
| `Rows.PlainStream` | internal/ttc/execute.go:620-650 | Every table has a stream: the uncompressed one. |
| `RowPacking.BitIsDigit` | internal/ttc/execute.go:469-474 | A column has its bit at two to its number in the vector's little-endian number. |
| `RowPacking.VectorMarks` | internal/ttc/execute.go:451-474 | Every choice of columns has its vector, one bit a column, which marks exactly those sent. |
| `RowPacking.PackedStream` | internal/ttc/execute.go:431-474 | Whatever columns a sender leaves out because they repeat the row before, and whether a vector, a row header or nothing says so, the messages stand for exactly the table packed. |
| `ArrowSink.Sink.AppendValue` | driver/oracle/arrow_conv.go:215-231 | A value goes to the builder or the image buffer of its column and is remembered; a value that does not convert is a sticky error. |
| `ArrowSink.Sink.AppendNull` | driver/oracle/arrow_conv.go:233-248 | A null goes to its column and is remembered. |
| `ArrowSink.Sink.AppendDuplicate` | driver/oracle/arrow_conv.go:250-267 | The column's previous cell once more, null or not. |
| `ArrowSink.Sink.FinishRow` | driver/oracle/arrow_conv.go:269-272 | The cells appended become the next row. |
| `ArrowSink.Sink.EveryColumnIsComplete` | driver/oracle/arrow_conv.go:208-272 | At a row boundary every column holds, built plus buffered, the table's column, as many cells as rows, and remembers the previous row's. |
| `ArrowSink.Sink.FlushObjects` | driver/oracle/objects.go:85-113 | Buffered images move to their builders; false exactly if one does not decode. |
| `ArrowSink.Sink.NewRecord` | driver/oracle/arrow_conv.go:208-213 | The record holds each column of the finished rows; what columns remember survives. |
| `RowFetch.FetchMessage.IsDuplicate` | internal/ttc/execute.go:469-474 | A column repeats exactly when a vector is in force and two to the column's number is missing from its little-endian number. |
| `RowFetch.FetchMessage.ProcessRowData` | internal/ttc/execute.go:620-650 | The row a message stands for becomes the sink's next row, and the vector is used up. |
| `RowFetch.FetchMessage.Process` | internal/ttc/execute.go:620-650 | A whole response appends exactly its table; an error exactly if a value does not convert. |
| `RecordReader.PiecesPartition` | driver/oracle/record_reader.go:150-168 | Pieces of `per` rows partition the rows in order, none empty or longer than asked. |
| `RecordReader.Slices` | driver/oracle/record_reader.go:150-168 | The slices are the records of exactly those pieces. |
| `RecordReader.Statement.Fetch` | internal/ttc/execute.go:279-324 | One fetch appends the next reply's rows to the sink. |
| `RecordReader.Reader.Next` | driver/oracle/record_reader.go:104-171 | A batch continues exactly where the last one ended, is never empty, and is within the batch size if the server obeys and prefetch does not exceed it; while rows may still come it is cut from enough rows or enough bytes, so that without a byte bound a batch below the batch size is the last; the end comes only when everything delivered has been handed out. |
| `RecordReader.Reader.ReadAll` | driver/oracle/record_reader.go:104-171 | The batches concatenate to exactly the rows of the result, all but the last of at least the batch size where no byte bound is set; reading terminates on every finite result. |
| `RecordReader.PrefetchOverBatchSize` | driver/oracle/record_reader.go:117-131 | For every prefetch above the batch size there is an obedient server that makes a batch as large as the prefetch: the condition is exact. |
| `SqlText.RewriteQmark` | driver/oracle/driver.go:656-710 | The mode-flag loop equals the one-character-at-a-time specification. |
| `SqlText.RewriteNumbersQuestions` | driver/oracle/driver.go:656-710 | Exactly the question marks outside strings, quoted names and comments become :1, :2, ... in order; nothing else changes. |
| `SqlText.EveryTextHasPieces` | driver/oracle/driver.go:656-710 | Every text is such a list of pieces. |
| `SqlScan.SkipQuoted` | internal/ttc/sqlparse.go:140-154 | The index of the closing quote, doubled quotes skipped. |
| `SqlScan.SkipQString` | internal/ttc/sqlparse.go:156-181 | The index of the quote that closes a q-quoted literal. |
| `SqlScan.ParseBindName` | internal/ttc/sqlparse.go:183-215 | Quoted, numeric and plain bind names, as the recursive specification has them (`SqlPieces.PiecesParse` says what those are). |
| `SqlScan.ParseSQL` | internal/ttc/sqlparse.go:44-138 | The scanning loop equals the recursive specification: kind, bind names in order, RETURNING INTO. |
| `SqlPieces.PiecesParse` | internal/ttc/sqlparse.go:44-138 | Of a text cut into plain characters, quoted, q-quoted and commented pieces and binds, the scan finds the kind its leading word stands for, the names of exactly its binds in order — none behind a leading DDL word, each once in PL/SQL — and a returning clause exactly if RETURNING and, later, INTO end as words of a DML text. |
| `SqlPieces.EveryTextHasPieces` | internal/ttc/sqlparse.go:44-215 | Every text can be cut like that, unclosed quotations and comments included. |
| `SqlPieces.EveryTextParses` | internal/ttc/sqlparse.go:44-138 | So this is what the scan of every text finds. |
| `SqlPieces.OnceEachIs` | internal/ttc/sqlparse.go:60-66 | Each once: the same names, none twice. |
| `SqlAgreement.PlaceholdersBecomeBindsIff` | internal/ttc/sqlparse.go:44-138 | On text with no colon in code, no q-quoted literal and no three-character comment, and that is not DDL: scanning the rewritten text lists exactly the names 1 to n if and only if no placeholder stands directly before a digit or behind a string and blanks only. |
| `SqlAgreement.AtMostMarks` | internal/ttc/sqlparse.go:183-215 | However placeholders stand, the scan of the rewritten text never lists more binds than there are placeholders. |
| `SqlAgreement.PlaceholdersBecomeBinds` | internal/ttc/sqlparse.go:44-138 | Where that holds, the scan of the rewritten text is in everything else the scan of the text itself. |
| `SqlAgreement.RewriteAndParse` | driver/oracle/driver.go:656-710 | The two loops, one after the other. |
| `SqlAgreement.DigitRunsOn` | internal/ttc/sqlparse.go:201-206 | A text with a placeholder before a digit: it becomes another bind. |
| `SqlAgreement.StringHidesPlaceholder` | internal/ttc/sqlparse.go:112-125 | A text with a placeholder behind a string: it is not seen. |
| `SqlAgreement.ShortCommentHidesPlaceholder` | internal/ttc/sqlparse.go:101-109 | A text with the three-character comment: it hides a placeholder. |
| `Wkb.GeoReadsBack` | driver/oracle/objects.go:413-439 | A WKB parser (clause 8 of OGC 06-103r4) consumes exactly what is written and recovers the geometry and its dimension: every count is what follows. |
| `Wkb.RingReadsBack` | driver/oracle/objects.go:556-559 | Of a ring's ordinates the parser reads the whole points; all of them exactly when there is no remainder. |
| `Wkb.ParsedIsWhole` | driver/oracle/objects.go:413-439 | Whatever bytes the parser is given, the geometry it finds is made of whole points. |
| `Wkb.GeoReadsBackIff` | driver/oracle/objects.go:413-439 | So a geometry is read back to its end exactly when it is made of whole points, with counts that fit 32 bits. |
| `GeometryLaws.HeaderBytes` | driver/oracle/objects.go:417-434 | The five bytes in front of every kind of geometry in every dimension. |
| `GeometryLaws.TestedPoint` | driver/oracle/objects_test.go:160-161 | The bytes of the point the repository tests. |
| `SdoGeometry.RectangleCloses` | driver/oracle/objects.go:528-552 | A rectangle becomes a ring of five points, the last the first again. |
| `SdoGeometry.RectangleTurns` | driver/oracle/objects.go:539-551 | Exterior rectangles turn counter-clockwise, interior ones clockwise. |
| `GeometryLaws.RectangleRing` | driver/oracle/objects.go:528-552 | In any dimension: a ring through both given corners, along the axes, counter-clockwise for an outer ring and clockwise for a hole. |
| `GeometryLaws.PolygonTakesAllRings` | driver/oracle/objects.go:569-598 | A polygon has one ring for its outer element and one, in element order, for every interior element that follows, up to another kind or the end. |
| `GeometryLaws.OrdinatesSurvive` | driver/oracle/objects.go:446-711 | For every shape: the ordinates of straight elements that cut the list into consecutive pieces are, read in order, exactly the object's. |
| `GeometryLaws.PointSurvives` | driver/oracle/objects.go:474-494 | A point given without elements: its x and y, and z in more than two dimensions, absent ones as zero and an absent z as no number. |
| `GeometryLaws.DescriptionConverts` | driver/oracle/objects.go:446-711 | Every geometry can be described as an object, and the description converts to exactly that geometry: every kind, ring, part, cluster and ordinate, in two to four dimensions. |
| `SdoGeometry.TallyIsMembers` | driver/oracle/objects.go:653-674 | The member count written ahead is the number of members written. |
| `SdoGeometry.PointsCount` | driver/oracle/objects.go:681-687 | The point count of a cluster is the number of points written. |
| `SdoGeometry.PanicsIffShortPoint` | driver/oracle/objects.go:599-602 | The conversion slices out of bounds exactly when it is a collection that reaches a single point whose offset is out of range or leaves fewer ordinates to the end of the list than the dimension; slicing reaches to the capacity, past the element's own end. |
| `SdoGeometry.ShortPoints` | driver/oracle/objects.go:599-602 | A point cut short by its neighbour takes the neighbour's ordinates; one at the end of the list panics. |
| `SdoGeometry.ConversionParsesIff` | driver/oracle/objects.go:446-711 | A WKB parser consumes all of what a conversion writes and recovers the geometry exactly when every line and straight ring in it has whole points, with counts that fit. |
| `SdoGeometry.ConversionParses` | driver/oracle/objects.go:446-711 | In particular on elements in range of whole points, at least one each, where the conversion does not panic either. |
| `WkbWriter.Writer.Ring` | driver/oracle/objects.go:523-555 | A ring's ordinates, rectangles expanded corner by corner. |
| `WkbWriter.Writer.WritePolygon` | driver/oracle/objects.go:569-598 | An exterior ring and all interior rings that follow it (`GeometryLaws.PolygonTakesAllRings`), with their number. |
| `WkbWriter.Writer.WriteMultiPoint` | driver/oracle/objects.go:628-643 | Points of all elements behind their number. |
| `WkbWriter.Writer.WriteMulti` | driver/oracle/objects.go:644-706 | Multi-lines, multi-polygons and collections behind a count taken from the element types. |
| `WkbWriter.ToWkb` | driver/oracle/objects.go:446-711 | The conversion returns the bytes of exactly the geometry described, or fails or panics exactly where the description says (`SdoGeometry.PanicsIffShortPoint`). |
| `Cursors.Conn.CloseStatement` | internal/ttc/execute.go:150-159 | Closing is idempotent and queues the cursor once. |
| `Cursors.Conn.ProcessError` | internal/ttc/execute.go:389-429 | The statement's cursor after each error code: kept, or queued and forgotten; another cursor named by the server takes the place of the one before. ORA-01403 while fetching is no error and ends the rows; a query is retried exactly on ORA-01007 and ORA-00932. |
| `Cursors.Conn.TakeAllImplicit` | internal/ttc/execute.go:513-530 | The first implicit result is kept, all others are closed. |
| `Cursors.Conn.Forget` | internal/ttc/message.go:111-127 | A request of which nothing was sent, given up after its piggybacks were written, loses exactly the queued cursors. |
| `Cursors.Conn.Execute` | internal/ttc/execute.go:214-271 | The cursor invariant survives an execution with its retries and define pass; cursors are lost exactly if a bind value fails to encode while something is queued. |
| `Cursors.Conn.Fetch` | internal/ttc/execute.go:279-324 | A fetch makes its round trip exactly if the statement is open, may have more rows and has a cursor, and otherwise changes nothing; behind a plain answer or ORA-01403 it has made one, succeeds, and may have more rows exactly in the first case (unless an implicit result asks for a define pass, which makes another). The cursor invariant survives. |
| `Cursors.Conn.RoundTrip` | internal/ttc/message.go:111-127 | After any round trip the queue is empty and the server holds only what statements hold. |
| `Cursors.Run` | internal/ttc/execute.go:150-429 | After every run without a failing bind, against a server that answers by any script, the open cursors are exactly those held and those queued, none twice, exactly unless the server named another cursor for a statement that had one; and the server was never asked to close or use a cursor that was not open. |
| `Cursors.CloseAll` | internal/ttc/execute.go:150-159 | After every statement the user has is closed, and one more round trip, nothing is open at the server exactly if no cursor was lost or replaced and no closed statement still has an implicit result that holds a cursor. |
| `Cursors.OrphanedImplicitResult` | internal/ttc/execute.go:510-530 | A run in which one has: a block returns an implicit result, nobody takes it, and closing the statement leaves its cursor open for good. |

## Left out

- OsonJson.DocReads: what a NUMBER that is no encoding of a number in range prints as is taken as it is, as for leaves, and may be no JSON.
- Oson: dates, floats and intervals are leaves rendered by a parameter; their formatting is not modelled, and a VECTOR node is an error as in the source.
- ResponseReader.ReadBuffer.ReadBytes: an absent value and an empty one are one value of the model, as both read back the same for every written value.
- ResponseReader.ReadBuffer.GetRaw: asks for at least one byte; a zero-length request at the end of a packet waits for another packet in the source.
- RequestWriter.WriteBuffer.WriteUB: the three unsigned widths share one method, and the three big-endian fixed widths another.
- RequestWriter.WriteBuffer.InstallSecurity: the negotiation before it is not modelled.
- ObjectImage.DecodeObjectImage: values do not carry their attribute's metadata, which the type already tells.
- TypeResolver.Resolver.Meta: the table from base type names to type numbers is data of the dictionary model; collection elements and attributes share one list; a failing dictionary query is a missing entry.
- RowFetch.FetchMessage.Process: column bytes arrive already cut out of the response; passes whose rows are discarded and PL/SQL out binds are not modelled.
- ArrowSink.Sink.AppendValue: a column is a sequence of optional byte strings and conversion to its Arrow type is a yes or no, although a NUMBER that overruns the digit slots (`NumberWire.OverrunsIff`) panics there; the four per-column slices of the source are one record.
- RecordReader.Reader.Next: the slice size is integer division; slices are near the byte bound but nothing is claimed about their bytes; releasing records is not modelled.
- SqlText.RewriteQmark: works on characters where the source works on bytes; all characters it looks at are ASCII, and no byte of another character's UTF-8 form is.
- WkbWriter.ToWkb: the attributes of the object arrive as numbers, so that a NUMBER among them that overruns the digit slots is out of sight; doubles are bit patterns; lookup by attribute name is not modelled.
- Wkb.GeoReadsBack: the parser reads the little-endian form, the only one written.
- Cursors.Run: the server gives fresh cursors and does not release the session; transport errors are not modelled; a bind that fails to encode is.
- Cursors.Conn.Forget: takes a request that is given up as wholly unsent; one that had outgrown a packet by then has its piggyback on the wire already, and what a server makes of the torn request is not modelled.
- Cursors.Conn.Execute: gives up a request with a bind that fails to encode as `Cursors.Conn.Forget` does, unsent.
- Cursors.Conn.ProcessMessage: ends because the script of the model's server ends some day; the source sets no bound on retries.
- Cursors.Conn.CloseStatement: the connection's lock is not modelled; the source takes it here even where the caller already holds it.
- Sockets, TLS, deadlines, out-of-band bytes, tracing, redirects, wallets, connection strings, logon and key exchange: input and output, or cryptography.
- Dates and timestamps to Arrow, rowids, intervals, binary floats, capability negotiation, bulk ingest, metadata queries and the C and Python wrappers: not part of this model.
