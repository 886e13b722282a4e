# Verified model of the multicast publish/subscribe protocol

The repository defines one wire protocol and implements it three times: C++ firmware (`components/mpubsub`), a Go
bridge to MQTT (`bridges/mqtt-go`) and a Python reference (`tests/unit`). This project models the parts on which the
three must agree and the parts that keep state over time, and proves what their code and documents promise of them.
`dafny verify dfyconfig.toml` checks everything.

| part | modules |
|---|---|
| Encryption and datagrams | `Octets`, `Xxtea`, `WireFormat`, `PacketCodec`, `ReferenceWire` |
| CRC-32 as polynomial division | `Gf2`, `BytePatterns`, `CrcRegister`, `Crc32` |
| Streaming SHA-256 and topic groups | `Fips180Words`, `Fips180`, `Fips180Constants`, `Sha256Words`, `Sha256Stream`, `TopicHash` |
| Protobuf codec | `Varint`, `BitIdentities`, `ZigzagWords`, `ProtoWire`, `Schemas`, `ProtoValues`, `ProtoCodec`, `ProtoTheorems`, `ProtoRoundTrip` |
| Schema-less messages, Python cross-check | `DynamicMessages`, `WireAgreement`, `ReferenceProtobuf` |
| Canonical schema string | `CanonicalSchema`, `SchemaOrder` |
| Node state machine | `Subscriptions`, `Retransmits`, `Accounting`, `Node`, `NodeRuns` |
| Concurrency of the bridge's jobs | `BridgeJobs` |
| Known answers, computed step by step | `Sha256Trace`, `Sha256OfPassphrase`, `Sha256OfTopic`, `XxteaTrace`, `CrcExamples`, `KnownAnswer`, `ProtoExamples`, `SchemaExample` |

How the model is built:

* Bytes and machine words are integers with their width in the type, and every wrap-around is written out. Bit
  operations are on bit-vectors; `BitIdentities` and `ZigzagWords` tie the arithmetic forms of the varint and zigzag
  code to the bit tricks. A float is its 32-bit pattern, a string its UTF-8 bytes.
* Code that works in place or by loops is a method over arrays or a class with the source's fields, proved against a
  function; the theorems are about the functions. `hide` statements keep definitions that a proof does not need out of it.
* The outside world is a parameter: whether `sendto` succeeded, which timer fires, which datagram arrives, in which
  order handlers and goroutines step. Sends and callback invocations are recorded in a log. A callback is a number.
* Definitions that code and specification share are pinned from outside: by known answers that the repository's tests
  and standards give, and by statements about runs, bytes and numbers that do not mention them.
* A timeout set with an id replaces the pending one with that id; timeouts without an id are independent of each other.
* The Go bridge takes its locks around single map operations; those critical sections and the actions between them are
  the steps that interleave.

Where the code and its documents differ, the model follows the code:

* `docs/PROTOCOL.md` (line 128), `docs/TYPED_MESSAGES_PLAN.md` (line 80) and the docstring in `proto_emitter.py` sort
  the fields by tag; both programs sort the rendered lines as text. `SchemaOrder.CanonicalIsDocumentedIff` says for
  which tags that is the same.
* `docs/PROTOCOL.md` (lines 131-132) has every change of a schema change its id; `CanonicalSchema.OnlyTheCrcMerges` and
  `CanonicalSchema.DeterminesFieldsIffSingle` say when two schemas share one.
* `docs/PROTOCOL.md` (lines 68-72) prints e7e87b62a3d2a7c2 as the beginning of a digest that begins with 020efffbcadf8ecb
  (`KnownAnswer.KnownGroup`).
* `docs/PROTOCOL.md` (line 270) has senders set bytes 10 and 11 to zero; byte 10 is the encryption mode.
* `multicast_pubsub.h` (lines 210-213) says that publish always cancels the topic's old chain first; the code cancels
  only after a successful first send (`Retransmits.PublishJobTable`), while the bridge cancels before it sends
  (`BridgeJobs.FailedSendEndsChain`).
* `tests/unit/test_fuzz.py` (lines 372-404) expects every accepted datagram to re-encode to itself; this holds exactly
  under the condition of `WireFormat.ReencodeIffCanonical`.
* `protobuf.py` calls itself a cross-check of the firmware's codec; it reads eleven-byte varints that the others reject
  and keeps bits above 64 (`ReferenceProtobuf.ParsersAgreeIff`, `ReferenceProtobuf.DecodersAgreeIff`).
* `bridge.go` (lines 171-172) tells all resend goroutines to exit at shutdown; `BridgeJobs.ShutdownIsFinalIff` says when
  that is all of them.

## Model

| member | source | states |
|---|---|---|
| `Xxtea.Encrypt` | bridges/mqtt-go/wire.go:58-79 | the in-place loops leave the array as Encrypted of its old contents, for every length (fewer than two words: unchanged) |
| `Xxtea.Decrypt` | bridges/mqtt-go/wire.go:82-103 | the in-place loops, running backwards from the product of rounds and delta, leave Decrypted of the old contents |
| `Xxtea.DecryptedEncrypted` | bridges/mqtt-go/wire.go:58-103 | decryption undoes encryption for every word sequence and key |
| `Xxtea.EncryptedDecrypted` | tests/unit/reference.py:83-120 | encryption undoes decryption |
| `Xxtea.EncryptionIsBijection` | bridges/mqtt-go/wire.go:58-103 | at each length and key encryption is injective and onto |
| `Xxtea.BackwardForward` | bridges/mqtt-go/wire.go:82-103 | undoing positions n-1 down to m after a forward pass leaves exactly positions below m done |
| `Xxtea.MxIsReference` | tests/unit/reference.py:79-80 | the mixing is the reference's expression on unbounded integers cut to 32 bits, with the key word of (p and 3) xor (sum over 4 and 3), for all arguments |
| `Xxtea.KeyIndexIsXor` | bridges/mqtt-go/wire.go:54 | the key index, bit by bit |
| `Xxtea.DeltaIsGolden` | bridges/mqtt-go/wire.go:30 | the constant is the integer part of (sqrt 5 - 1) times 2^31 |
| `Xxtea.RoundCountIs` | bridges/mqtt-go/wire.go:63 | the rounds beyond six are the integer part of 52 over n |
| `XxteaTrace.KnownCipher` | bridges/mqtt-go/wire_test.go:109-124 | the three plain words of the known answer encrypt to its cipher words, round by round |
| `KnownAnswer.KnownDatagram` | bridges/mqtt-go/wire_test.go:109-124 | encoding hello on home/x under the passphrase hunter2 gives exactly the 24 locked bytes: hash, cipher, checksum and layout together |
| `KnownAnswer.KnownGroup` | docs/PROTOCOL.md:65-80 | the groups of the worked example's topic in the three scopes, in full; the digits printed there are not this topic's |
| `WireFormat.EncryptedCapsAgree` | components/mpubsub/multicast_pubsub.cpp:623-633 | the firmware's cap on encrypted payloads accepts exactly the sizes that the bridge's ciphertext-length test accepts |
| `WireFormat.CiphertextIsLeast` | components/mpubsub/wire_format.h:73-78 | the ciphertext length is the least multiple of four that holds the CRC and the payload, and at least eight |
| `WireFormat.HeaderInNumbers` | components/mpubsub/wire_format.cpp:5-24 | the twelve header bytes as numbers |
| `WireFormat.DatagramInNumbers` | bridges/mqtt-go/wire.go:180-216 | header and payload, or header and the enciphered block of CRC, payload and zeros |
| `WireFormat.AcceptedInNumbers` | components/mpubsub/wire_format.cpp:26-56 | decode accepts exactly under these numeric conditions, and reads these fields |
| `WireFormat.RejectedInNumbers` | docs/PROTOCOL.md:234-240 | the reason given is that of the first rule that fails |
| `WireFormat.KeyRules` | bridges/mqtt-go/wire.go:268-273 | when an accepted datagram is rejected for want of a key |
| `WireFormat.DatagramDecodes` | bridges/mqtt-go/wire.go:168-296 | a datagram built for a payload that fits the length field decodes, under the same key, to the same CRC, encoding and payload |
| `WireFormat.EncodeThenDecode` | bridges/mqtt-go/wire.go:168-296 | whatever EncodePacket accepts is at most 1232 bytes and DecodePacket under the same key returns its topic CRC, encoding and payload |
| `WireFormat.ReencodeIffCanonical` | tests/unit/test_fuzz.py:372-404 | an accepted datagram is rebuilt byte for byte if and only if byte 11 is zero and, when encrypted, bytes 4-7 and the decrypted padding are zero |
| `WireFormat.ReservedByteIsLost` | tests/unit/test_fuzz.py:372-404 | a concrete accepted plaintext datagram that re-encoding changes |
| `PacketCodec.EncodeHeader` | components/mpubsub/wire_format.cpp:5-24 | writes exactly the 12 header bytes and leaves the rest of the buffer as it was |
| `PacketCodec.Decode` | components/mpubsub/wire_format.cpp:26-56 | every guard in order; accepts exactly the datagrams of DecodeFrame, whose contract is the six validation rules |
| `PacketCodec.EncodePacket` | bridges/mqtt-go/wire.go:168-216 | the buffer-filling encoder returns the datagram or the error of EncodePacketSpec, which EncodeThenDecode is about |
| `PacketCodec.DecodePacket` | bridges/mqtt-go/wire.go:242-296 | the decoder with in-place decryption returns the packet or the error of DecodePacketSpec |
| `PacketCodec.BytesToWordsLE` | bridges/mqtt-go/wire.go:105-114 | nil exactly for lengths that are not a multiple of four, otherwise the little-endian words |
| `PacketCodec.WordsToBytesLE` | bridges/mqtt-go/wire.go:116-122 | the loop gives the bytes whose words are the given ones (Octets proves the two conversions inverse) |
| `ReferenceWire.Encode` | tests/unit/reference.py:161-210 | the reference accepts exactly under its own four conditions, and then gives the bytes of the bridge |
| `ReferenceWire.EncodersAgree` | tests/unit/reference.py:161-210 | reference, bridge and firmware accept the same payloads under a configuration and give the same bytes |
| `Crc32.TopicCrc32` | components/mpubsub/topic_hash.cpp:22-32 | the masked shift loop computes Crc for every byte string |
| `Crc32.CrcIsRemainder` | components/mpubsub/topic_hash.cpp:22-32 | Crc is the complemented GF(2) remainder of the message times x^32 with its first 32 bits complemented, as section 3.2.9 of IEEE 802.3 defines it |
| `Crc32.CollisionIffDivisible` | components/mpubsub/topic_hash.cpp:22-32 | two equal-length strings share a CRC if and only if the generator divides their difference |
| `Crc32.BitBurstDetected` | components/mpubsub/topic_hash.cpp:22-32 | equal-length strings that differ only within 32 consecutive bits have different CRCs |
| `Crc32.ByteBurstDetected` | components/mpubsub/topic_hash.cpp:22-32 | two different equal-length topics that differ only within 4 consecutive bytes have different CRCs |
| `CrcRegister.BitStepIsTurn` | components/mpubsub/topic_hash.cpp:27-28 | one masked shift is one turn of polynomial division on the reflected register |
| `Gf2.Division` | components/mpubsub/topic_hash.cpp:20-32 | the remainder used above really is one: dividend equals quotient times divisor plus remainder, of lower degree |
| `Gf2.DivisionUnique` | components/mpubsub/topic_hash.cpp:20-32 | quotient and remainder are the only such pair |
| `CrcExamples.TopicsCollide` | components/mpubsub/topic_hash.cpp:22-32 | two five-byte topics with one CRC, so the four-byte bound is sharp |
| `CrcRegister.PolyIsGenerator` | components/mpubsub/topic_hash.cpp:28 | the constant is the generator of IEEE 802.3, exponent by exponent |
| `CrcExamples.CheckValue` | components/mpubsub/topic_hash.cpp:20-32 | the check value 0xCBF43926 of zlib's CRC-32 for the digits 1 to 9 |
| `CrcExamples.EmptyTopic` | tests/unit/test_topic_hash.py:84-85 | the golden CRC of the empty topic |
| `Sha256Stream.Sha256.constructor` | components/mpubsub/sha256.cpp:28-37 | the initial hash value, nothing buffered, no message yet |
| `Sha256Stream.Sha256.ProcessBlock` | components/mpubsub/sha256.cpp:39-76 | the state becomes the compression, section 6.2.2 of FIPS 180-4, of the old state and the buffered block |
| `Sha256Stream.Sha256.Update` | components/mpubsub/sha256.cpp:78-93 | the represented message grows by the data, fewer than 64 bytes stay buffered, the rest is folded into the state |
| `Sha256Stream.Sha256.Finalize` | components/mpubsub/sha256.cpp:95-116 | whatever the split into updates, the output is the digest of the whole message; the length field wraps at 2^64 bits as the code's does |
| `Fips180.ZeroCountIsSmallest` | components/mpubsub/sha256.cpp:98-106 | the padding used is the smallest solution of the congruence in section 5.1.1 of FIPS 180-4 |
| `Fips180Constants.RoundConstantsAreCubeRoots` | components/mpubsub/sha256.cpp:13-22 | the 64 constants are the first 32 bits of the fractional parts of the cube roots of the first 64 primes, section 4.2.2 of FIPS 180-4 |
| `Fips180Constants.InitialHashIsSquareRoots` | components/mpubsub/sha256.cpp:29-36 | the initial words are the same for the square roots of the first eight primes, section 5.3.3 |
| `Sha256OfPassphrase.HashBytes` | components/mpubsub/sha256.cpp:39-122 | the digest of hunter2, byte by byte, through all 64 rounds |
| `Sha256OfTopic.HashBytes` | components/mpubsub/sha256.cpp:39-122 | the digest of home/livingroom/temp, byte by byte |
| `TopicHash.HashOnce` | components/mpubsub/sha256.cpp:118-122 | one-shot hashing through the streaming class |
| `TopicHash.HashIsDigest` | components/mpubsub/sha256.cpp:118-122 | below 2^61 bytes its result is the digest of FIPS 180-4 |
| `TopicHash.TopicToGroup` | components/mpubsub/topic_hash.cpp:9-18 | the loop fills a 16-byte address: prefix, flag and scope, and the first 14 bytes of the topic's digest |
| `Varint.AppendVarint` | bridges/mqtt-go/proto.go:40-46 | appends the base-128 encoding of the value |
| `Varint.ReadVarint` | bridges/mqtt-go/proto.go:63-76 | the loop succeeds exactly when a terminating byte comes within ten, and gives the value modulo 2^64 and the length |
| `Varint.ReadEncoded` | bridges/mqtt-go/proto.go:40-76 | a written 64-bit value is read back, with the right length, whatever follows it |
| `Varint.ReadStable` | bridges/mqtt-go/proto.go:63-76 | a varint that was read is not changed by appended bytes |
| `Varint.EncodedLength` | components/mpubsub/dynamic_message.cpp:18-24 | a varint has at most k bytes if and only if its value is below 128^k |
| `BitIdentities.OrIsPlus` | bridges/mqtt-go/proto.go:69 | or-ing a group in above all earlier bits adds it |
| `ZigzagWords.Zigzag32IsShift` | bridges/mqtt-go/proto.go:52 | shift and xor on the word of an integer give the word of its arithmetic zigzag |
| `ZigzagWords.Unzigzag32IsShift` | bridges/mqtt-go/proto.go:54-56 | halving and xor with the negated low bit give the word of the arithmetic inverse, for every 32-bit number |
| `ZigzagWords.Zigzag64IsShift` | bridges/mqtt-go/proto.go:53 | the same for 64 bits |
| `ZigzagWords.Unzigzag64IsShift` | bridges/mqtt-go/proto.go:57-59 | the same for every 64-bit number |
| `ProtoValues.ZigzagInverse` | bridges/mqtt-go/proto.go:52-59 | the two zigzag maps are inverse, and a result fits 32 or 64 bits exactly if the value did |
| `ProtoValues.AppendValue` | bridges/mqtt-go/proto.go:81-154 | appends the payload of the value for its type, or refuses a value of the wrong kind |
| `ProtoValues.SkipIsRead` | bridges/mqtt-go/proto.go:242-270 | skipField consumes exactly the bytes that reading the payload would, and fails exactly when that fails |
| `ProtoValues.DecodeIsRead` | bridges/mqtt-go/proto.go:272-355 | for each of the ten types decodeValue is a payload read of the declared wire type followed by a conversion |
| `ProtoValues.PayloadRoundTrip` | bridges/mqtt-go/proto.go:81-355 | decoding an encoded value gives its normal form in the type |
| `ProtoValues.NormalIffInRange` | bridges/mqtt-go/proto.go:81-355 | an encodable value is its own normal form if and only if it is in the type's range |
| `ProtoValues.WiderTypeReads` | bridges/mqtt-go/proto.go:92-128 | an int32 is written as the int64 of the same value, so a reader of the wider type gets it; likewise uint32 and sint32 |
| `ProtoValues.NegativeTakesTenBytes` | tests/unit/test_protobuf_reference.py:59-64 | a negative int32 or int64 takes ten bytes |
| `ProtoValues.FirstByte` | bridges/mqtt-go/proto.go:48-50 | the first byte of a field with a tag below 16, for each type |
| `ProtoValues.NumberMeans` | bridges/mqtt-go/proto.go:272-322 | what each varint type makes of any 64-bit number, as congruences |
| `ProtoExamples.Varints` | tests/unit/test_protobuf_reference.py:36-48 | the golden varints |
| `ProtoExamples.Numbers` | tests/unit/test_protobuf_reference.py:72-100 | the golden fields of uint32, bool and sint32 |
| `ProtoExamples.Others` | tests/unit/test_protobuf_reference.py:77-93 | the golden fields of string, float and bytes |
| `ProtoExamples.MinusOne` | tests/unit/test_protobuf_reference.py:59-69 | the eleven bytes of an int32 of -1 |
| `Schemas.TagLimits` | bridges/mqtt-go/schema.go:52-57 | the valid tags are those whose key fits 32 bits, without the reserved thousand |
| `ProtoWire.ReadFieldsEncoded` | bridges/mqtt-go/proto.go:205-355 | any sequence of written fields is read back as that sequence |
| `ProtoWire.ReadFieldsConcat` | bridges/mqtt-go/proto.go:205-355 | after a well-formed body, the fields of what follows are read as if it stood alone |
| `CanonicalSchema.NewSchema` | bridges/mqtt-go/schema.go:38-72 | a schema exactly for a non-empty id and valid fields, with lookup tables that find every field and nothing else, and the SCHEMA_ID of the fields |
| `Schemas.Validate` | components/mpubsub/proto_emitter.py:112-142 | for tags that are any integers, accepts exactly when the tags have 32 bits and NewSchema accepts the fields |
| `ProtoCodec.DecodeProto` | bridges/mqtt-go/proto.go:205-240 | the loop over arbitrary bytes returns Decoded, the subject of the theorems below |
| `ProtoTheorems.DecodeFactors` | bridges/mqtt-go/proto.go:205-240 | decoding succeeds exactly when the body reads as fields that fit the schema, and stores those in order |
| `ProtoTheorems.DecodeUnderSubSchema` | bridges/mqtt-go/proto.go:205-355 | any body accepted under a schema is accepted under every sub-schema, with exactly the restricted map |
| `ProtoTheorems.DecodeConcatMerges` | bridges/mqtt-go/proto.go:205-240 | after a body that decodes, a concatenation decodes exactly when the second body does, to the merge: last singular value wins, lists append |
| `ProtoRoundTrip.EncodeProto` | bridges/mqtt-go/proto.go:166-198 | the loop writes the fields of the present values in schema order, or returns the first error |
| `ProtoRoundTrip.WrittenInOrder` | bridges/mqtt-go/proto.go:166-198 | the fields stand in the order of the schema |
| `ProtoRoundTrip.DecodeOfEncode` | bridges/mqtt-go/proto.go:166-240 | decoding any encoding gives the values normalised: unknown names and empty lists dropped, numbers brought into range |
| `ProtoRoundTrip.RoundTripIffTyped` | bridges/mqtt-go/proto.go:166-240 | the round trip is the identity if and only if every value is known, in its type's range and not an empty list |
| `ProtoRoundTrip.TypedEncodes` | bridges/mqtt-go/proto.go:166-198 | every such value map is encodable |
| `DynamicMessages.DynamicMessage.EncodeInto` | components/mpubsub/dynamic_message.cpp:30-37 | with a sufficient reservation no write leaves the buffer, and one item is appended |
| `DynamicMessages.ReserveSuffices` | components/mpubsub/dynamic_message.cpp:22-24 | for every 32-bit tag no field is longer than the bytes reserved for it, data below 2^35 bytes |
| `DynamicMessages.LengthFits` | components/mpubsub/dynamic_message.cpp:22-24 | the five bytes reserved for a length prefix are enough exactly below 2^35 |
| `DynamicMessages.ReservesAreTight` | components/mpubsub/dynamic_message.cpp:18-24 | the reservations of 5, 10 and 5 bytes are all reached |
| `DynamicMessages.DynamicMessage.AddBool` | components/mpubsub/dynamic_message.cpp:41-46 | appends a bool, within one byte after the tag |
| `DynamicMessages.DynamicMessage.AddInt32` | components/mpubsub/dynamic_message.cpp:48-53 | appends an int32 |
| `DynamicMessages.DynamicMessage.AddInt64` | components/mpubsub/dynamic_message.cpp:55-60 | appends an int64 |
| `DynamicMessages.DynamicMessage.AddUint32` | components/mpubsub/dynamic_message.cpp:62-67 | appends a uint32 |
| `DynamicMessages.DynamicMessage.AddUint64` | components/mpubsub/dynamic_message.cpp:69-74 | appends a uint64 |
| `DynamicMessages.DynamicMessage.AddSint32` | components/mpubsub/dynamic_message.cpp:76-81 | appends a sint32 |
| `DynamicMessages.DynamicMessage.AddSint64` | components/mpubsub/dynamic_message.cpp:83-88 | appends a sint64 |
| `DynamicMessages.DynamicMessage.AddFloat` | components/mpubsub/dynamic_message.cpp:90-95 | appends a float's bits |
| `DynamicMessages.DynamicMessage.AddString` | components/mpubsub/dynamic_message.cpp:97-102 | appends a string |
| `DynamicMessages.DynamicMessage.AddBytes` | components/mpubsub/dynamic_message.cpp:108-113 | appends bytes |
| `DynamicMessages.DynamicMessage.AddMessage` | components/mpubsub/dynamic_message.cpp:119-124 | appends a nested message with everything that was added to it |
| `DynamicMessages.EncodedReadsBack` | components/mpubsub/dynamic_message.cpp:119-202 | any sequence of items with any 32-bit tags, nested to any depth, is read back exactly, in order and without error |
| `DynamicMessages.DynamicReader.Next` | components/mpubsub/dynamic_message.cpp:130-202 | returns exactly the field at the position and moves past it; none at the end; sets the error flag exactly if the field is malformed or one of its varints does not end within the remaining size modulo 2^32 |
| `DynamicMessages.DynamicReader.ReadToEnd` | components/mpubsub/dynamic_message.h:70-75 | calling next to the end without an error gives all fields of a body of any size; below 4 GiB an error means that the body is malformed |
| `DynamicMessages.AsMessage` | components/mpubsub/dynamic_message.cpp:274-279 | a fresh reader over the field's bytes, for length-delimited fields only |
| `DynamicMessages.DynamicMessage.Clear` | components/mpubsub/dynamic_message.h:59 | nothing added any more |
| `WireAgreement.DynamicMessageDecodes` | bridges/mqtt-go/proto.go:205-240 | the bridge's DecodeProto accepts every message built in the firmware whose items for known fields have the declared types, and returns their values |
| `WireAgreement.LastOneWins` | bridges/mqtt-go/proto.go:232-237 | of a field that is there twice, a singular one has the last value and a repeated one both in order |
| `WireAgreement.EncodedProtoReadsBack` | components/mpubsub/dynamic_message.cpp:130-202 | the bridge's EncodeProto body is byte for byte the firmware's message with the same values added, and the firmware's reader finds exactly those |
| `DynamicMessages.NarrowReadIsRead` | components/mpubsub/dynamic_message.cpp:135 | casting the remaining size to 32 bits rejects exactly the varints that do not end within it, and changes nothing else |
| `ReferenceProtobuf.EncodeVarint` | tests/unit/protobuf.py:25-36 | the same encoding as the bridge, negative values as 64-bit two's complement |
| `ReferenceProtobuf.ParseVarint` | tests/unit/protobuf.py:111-124 | succeeds exactly when a terminating byte comes within eleven, and gives the whole value |
| `ReferenceProtobuf.Decode` | tests/unit/protobuf.py:127-152 | the loop returns all fields in order, or fails where one is malformed |
| `ReferenceProtobuf.ParsersAgreeIff` | tests/unit/protobuf.py:111-124 | the reference and readVarint give the same result if and only if the varint, when a byte below 128 ends it within eleven, has at most ten bytes and a tenth of at most 1 |
| `ReferenceProtobuf.ElevenBytes` | tests/unit/protobuf.py:111-124 | an input on which they differ |
| `ReferenceProtobuf.DecodersAgree` | tests/unit/protobuf.py:127-152 | on every body whose tags have 32 bits and whose other varints 64, in at most ten bytes, well formed or not, the reference reads the fields that bridge and firmware read, or rejects as they do |
| `ReferenceProtobuf.DecodersAgreeIff` | tests/unit/protobuf.py:127-152 | on a body that the bridge accepts the two agree if and only if all its varints are of that kind; on one that it rejects, if and only if the reference rejects it too |
| `CanonicalSchema.CanonicalSchemaString` | bridges/mqtt-go/schema.go:77-88 | fill, sort and join give Canonical |
| `CanonicalSchema.SortedUnique` | bridges/mqtt-go/schema.go:86-87 | a sorted arrangement of given lines is unique, so any correct sort gives this one |
| `CanonicalSchema.CanonicalOfPermutation` | components/mpubsub/proto_emitter.py:79-98 | every permutation of the fields has the same canonical string |
| `CanonicalSchema.LineInjective` | components/mpubsub/proto_emitter.py:93-97 | a rendered line determines its field, whatever the name contains |
| `CanonicalSchema.CanonicalDeterminesFields` | components/mpubsub/proto_emitter.py:79-98 | for valid fields whose names have no newline, equal canonical strings mean equal sets of fields |
| `CanonicalSchema.CanonicalIffPermutation` | bridges/mqtt-go/schema.go:77-93 | for such fields the strings are equal if and only if one list is a permutation of the other |
| `CanonicalSchema.OneFieldSwallowsAll` | bridges/mqtt-go/schema.go:38-72 | validation allows a newline in a name, so every valid schema of two or more fields shares its string with a valid schema of one |
| `CanonicalSchema.DeterminesFieldsIffSingle` | bridges/mqtt-go/schema.go:77-88 | the string of a valid schema with plain names determines its fields among all valid schemas if and only if it has one field |
| `SchemaOrder.LineOrderIff` | components/mpubsub/proto_emitter.py:95-98 | of two fields the one with the smaller tag is rendered first if and only if its tag is below the leading digits of the other, as many as it has itself |
| `SchemaOrder.TagOrderIsLineOrderIff` | bridges/mqtt-go/schema.go:77-88 | sorting the lines leaves fields in tag order as they are if and only if every two tags are in that text order |
| `SchemaOrder.CanonicalIsDocumentedIff` | docs/TYPED_MESSAGES_PLAN.md:80-85 | for a valid schema without newlines in its names, declared in any order, the code's string is the documented one, sorted by tag, if and only if every two tags are in text order |
| `SchemaOrder.TagsOneAndTenDiffer` | docs/PROTOCOL.md:127-131 | a schema with the tags 1 and 10 never has the documented string |
| `CanonicalSchema.ComputeSchemaId` | bridges/mqtt-go/schema.go:92-94 | the SCHEMA_ID of the fields |
| `SchemaExample.KnownSchemaId` | bridges/mqtt-go/schema_test.go:45-57 | the locked schema has the SCHEMA_ID 0x2ce0 |
| `SchemaExample.KnownCanonical` | bridges/mqtt-go/schema_test.go:45-57 | its canonical string |
| `SchemaExample.Spellings` | bridges/mqtt-go/schema.go:30-33 | the line of each of the ten types spells it as the vocabulary does |
| `CanonicalSchema.SchemaIdOfPermutation` | components/mpubsub/proto_emitter.py:101-109 | the SCHEMA_ID does not depend on the order of declaration |
| `CanonicalSchema.OnlyTheCrcMerges` | components/mpubsub/proto_emitter.py:101-109 | two valid schemas with plain names share a SCHEMA_ID if and only if their fields are the same or their different canonical strings agree in the low 16 bits of the CRC |
| `Subscriptions.RegisterTabulates` | components/mpubsub/multicast_pubsub.cpp:583-612 | a subscribe keeps the table what the requests ask for: one entry per topic, callbacks in order, encryption required if any request required it |
| `Subscriptions.DeliveredAsRequested` | components/mpubsub/multicast_pubsub.cpp:696-728 | a packet makes exactly the calls that the requests for the topics with its CRC ask for, in order |
| `Subscriptions.DeliveredToTopic` | components/mpubsub/multicast_pubsub.cpp:696-728 | if no other requested topic has the CRC, these are the topic's own calls |
| `Subscriptions.PlaintextBlocked` | components/mpubsub/multicast_pubsub.cpp:696-703 | a plaintext packet calls nothing on a topic for which encryption was requested |
| `Subscriptions.RequestsInOrder` | components/mpubsub/multicast_pubsub.cpp:609-612 | callbacks stand in the order of their requests |
| `Subscriptions.TopicsInOrder` | components/mpubsub/multicast_pubsub.cpp:591-596 | a topic keeps its place in the table whatever is requested later |
| `Subscriptions.MatchingInOrder` | components/mpubsub/multicast_pubsub.cpp:714-719 | the callbacks of a schema keep their order |
| `Subscriptions.ExpectedInOrder` | components/mpubsub/multicast_pubsub.cpp:696-697 | the calls for several topics keep the order of the topics |
| `Retransmits.PublishJobTable` | components/mpubsub/multicast_pubsub.cpp:651-656 | a failed first send keeps the old chain; a successful publish replaces it or ends it |
| `Retransmits.FiringSends` | components/mpubsub/multicast_pubsub.cpp:747-753 | after every run, firing a pending chain timer is one more attempt with the chain's datagram, counted exactly if it got out |
| `Retransmits.RepeatSends` | components/mpubsub/multicast_pubsub.cpp:758-762 | firing a pending repeat is one more attempt with its datagram, and it is no longer pending |
| `Retransmits.PublishSends` | components/mpubsub/multicast_pubsub.cpp:651-658 | after every run, what a publish sends, counts and sets, with the datagram, group and delay of each timeout |
| `Retransmits.ReadyIsLastSetup` | components/mpubsub/multicast_pubsub.cpp:439-445 | there is a socket exactly if the last setup made one |
| `Retransmits.RunJobs` | components/mpubsub/multicast_pubsub.cpp:730-756 | over every run there is a job for exactly the topics whose latest successful publish was indefinite, with that publish's datagram, group and delay |
| `Retransmits.RunPaired` | components/mpubsub/multicast_pubsub.cpp:730-756 | over every run on topics with pairwise different CRCs, jobs and pending chain timers match one to one |
| `Retransmits.SharedCrcBreaksPairing` | components/mpubsub/multicast_pubsub.cpp:743-755 | a run of two publishes that breaks it for any two topics with one CRC |
| `Retransmits.AlwaysPairedIffDistinguished` | components/mpubsub/multicast_pubsub.cpp:730-756 | for a set of topics, jobs and timers match in all runs if and only if no two topics share a CRC |
| `Retransmits.ChainsAreCurrent` | components/mpubsub/multicast_pubsub.cpp:730-756 | on such topics a topic has a pending chain timer exactly if its latest successful publish was indefinite, only one, and it sends that datagram |
| `CrcExamples.SomeRunUnpaired` | components/mpubsub/multicast_pubsub.cpp:745 | so on all topics the invariant does fail |
| `Accounting.PacketsConserved` | components/mpubsub/multicast_pubsub.cpp:660-677 | over every run packets_sent plus pending repeats plus failed sends equals, modulo 2^32, the copies of all publishes plus the firings of pending chain timers among the events |
| `Accounting.FiringsAreEvents` | components/mpubsub/multicast_pubsub.cpp:747-753 | the attempts logged as chain firings are as many as the events that fired a pending chain timer |
| `Accounting.CopiesSentExactly` | components/mpubsub/multicast_pubsub.cpp:758-762 | a publish of count n whose repeats have all fired sent its unchanged datagram to its group exactly n times; one with a failed first send once |
| `Accounting.RepeatsSpacedIffNoWrap` | components/mpubsub/multicast_pubsub.cpp:758-762 | the timeouts are successive multiples of the delay if and only if delay times count-1 fits 32 bits |
| `Node.MulticastPubSub.constructor` | components/mpubsub/multicast_pubsub.h:230-267 | the defaults: no socket, no subscription, count 1, delay 100, no key |
| `Node.MulticastPubSub.SetEncryptionKey` | components/mpubsub/multicast_pubsub.h:91-97 | 32 bytes enable encryption with that key, any other length disables it; nothing else changes |
| `Node.MulticastPubSub.SetScope` | components/mpubsub/multicast_pubsub.h:72 | changes the scope and nothing else |
| `Node.MulticastPubSub.SetRetransmit` | components/mpubsub/multicast_pubsub.h:82-84 | changes count and delay and nothing else |
| `Node.MulticastPubSub.FindSubscription` | components/mpubsub/multicast_pubsub.cpp:575-581 | the first entry for the topic, or none if there is none |
| `Node.MulticastPubSub.FindOrCreateSubscription` | components/mpubsub/multicast_pubsub.cpp:583-607 | finds and flags, or appends an entry with the topic's CRC and group |
| `Node.MulticastPubSub.Subscribe` | components/mpubsub/multicast_pubsub.cpp:609-612 | refines the Subscribed step |
| `Node.MulticastPubSub.SubscribeTyped` | components/mpubsub/multicast_pubsub.h:117-128 | refines the Subscribed step for a typed callback |
| `Node.MulticastPubSub.SendDatagram` | components/mpubsub/multicast_pubsub.cpp:660-677 | one attempt, counted if and only if it was sent |
| `Node.MulticastPubSub.CancelIndefiniteRetransmit` | components/mpubsub/multicast_pubsub.cpp:730-736 | removes the topic's job and the timer with the topic's CRC, if there is a job |
| `Node.MulticastPubSub.ScheduleRetransmits` | components/mpubsub/multicast_pubsub.cpp:738-763 | ends the old chain, then starts a chain or sets the finite repeats |
| `Node.MulticastPubSub.BuildDatagram` | components/mpubsub/multicast_pubsub.cpp:631-649 | the filled and, with a key, encrypted buffer is the datagram that WireFormat proves decodable |
| `Node.MulticastPubSub.Publish` | components/mpubsub/multicast_pubsub.cpp:614-658 | true exactly with a socket, a payload within the cap and a successful send; refines the Published step |
| `Node.MulticastPubSub.PublishDynamic` | components/mpubsub/multicast_pubsub.cpp:679-694 | the SCHEMA_ID in front, as a PROTOBUF publish |
| `Node.MulticastPubSub.FireNamed` | components/mpubsub/multicast_pubsub.cpp:747-753 | the chain's closure sends and sets the timer again from the job table |
| `Node.MulticastPubSub.FireRepeat` | components/mpubsub/multicast_pubsub.cpp:759-761 | one repeat sends and is gone |
| `Node.MulticastPubSub.OnPacket` | components/mpubsub/multicast_pubsub.cpp:493-523 | counts every datagram, and dispatches exactly what the bridge's DecodePacket would return (up to the work buffer's size) |
| `Node.MulticastPubSub.Deliver` | components/mpubsub/multicast_pubsub.cpp:696-728 | the nested loops make exactly the calls of Delivered, in order |
| `NodeRuns.TableFollowsRequests` | components/mpubsub/multicast_pubsub.cpp:583-612 | over every run the subscription table is what the requests so far ask for |
| `NodeRuns.PlaintextNeverReaches` | components/mpubsub/multicast_pubsub.cpp:696-703 | after any run, no datagram that is not encrypted reaches a callback of a topic for which encryption was ever requested |
| `NodeRuns.DemandIsSticky` | components/mpubsub/multicast_pubsub.h:61-66 | an encryption demand survives any continuation of a run |
| `NodeRuns.GroupsFollowScope` | components/mpubsub/multicast_pubsub.cpp:590-596 | over every run each subscription's group is its topic's under the scope in force at the first request for it |
| `NodeRuns.PublishSends` | components/mpubsub/multicast_pubsub.cpp:614-658 | after every run, publish sends this datagram to this group with a socket and up to 1220 or 1216 bytes, and otherwise changes nothing |
| `NodeRuns.PublishDynamicSends` | components/mpubsub/multicast_pubsub.cpp:679-694 | it is the publish of the SCHEMA_ID, low byte first, and up to 1218 bytes |
| `NodeRuns.TimersSend` | components/mpubsub/multicast_pubsub.cpp:747-761 | firing a pending timer of a node sends what it holds |
| `NodeRuns.SocketAndCount` | components/mpubsub/multicast_pubsub.cpp:493-496 | over every run packets_received counts every datagram, and socket and settings are the last ones made |
| `NodeRuns.PublishedReaches` | components/mpubsub/multicast_pubsub.cpp:493-523 | a published datagram, received after any run of a node with the same key, makes exactly the calls requested for the topics with its CRC |
| `NodeRuns.PublishedReachesTopic` | components/mpubsub/multicast_pubsub.cpp:696-728 | without another requested topic of the same CRC, exactly the topic's own calls |
| `NodeRuns.RawReachesTopic` | components/mpubsub/multicast_pubsub.cpp:704-706 | a RAW publish calls exactly the topic's raw callbacks, in order, with the payload unchanged |
| `NodeRuns.DynamicReachesTopic` | components/mpubsub/multicast_pubsub.cpp:679-694 | a dynamic publish calls exactly the typed callbacks with its SCHEMA_ID, in order, each with the body and without the prefix |
| `NodeRuns.NodeSends` | components/mpubsub/multicast_pubsub.cpp:614-763 | a node's sending is a run of the sending half, so the results about chains and packets hold of whole nodes |
| `NodeRuns.NodeChainsAreCurrent` | components/mpubsub/multicast_pubsub.cpp:730-756 | the chain result for node runs with any calls and packets in between |
| `NodeRuns.SentReaches` | components/mpubsub/multicast_pubsub.cpp:614-677 | whatever one node ever sends, first or again, was published by a call of its run, goes to that topic's group, is at most 1232 bytes, and received by any node after any run, with the key in force at the call if there was one, makes exactly the calls requested there for that topic's CRC with that call's payload |
| `NodeRuns.RunTraced` | components/mpubsub/multicast_pubsub.cpp:614-658 | every publish on record is a call of the run with the settings in force then |
| `BridgeJobs.NeverClosedTwice` | bridges/mqtt-go/bridge.go:312-319 | in every interleaving of handlers, goroutines and shutdown no channel is closed twice, and every map entry has an open channel of its own |
| `BridgeJobs.UncancelledAreJobsAndLost` | bridges/mqtt-go/bridge.go:285-319 | in every interleaving the uncancelled resend goroutines are those of the map's entries and of overwritten entries |
| `BridgeJobs.LostIffOverwritten` | bridges/mqtt-go/bridge.go:288-290 | there is one of the second kind if and only if some install found an entry for its topic |
| `BridgeJobs.UncancelledAreJobsIff` | bridges/mqtt-go/bridge.go:285-319 | the uncancelled goroutines are exactly the map's entries if and only if no install has found an entry |
| `BridgeJobs.LostForever` | bridges/mqtt-go/bridge.go:285-310 | a goroutine whose entry was overwritten is never cancelled later |
| `BridgeJobs.UncancelledAreJobs` | bridges/mqtt-go/bridge.go:285-319 | if handlers of one topic do not overlap, uncancelled goroutines are exactly the map's entries |
| `BridgeJobs.ShutdownCancelsAll` | bridges/mqtt-go/bridge.go:173-178 | then nothing is uncancelled right after the closing loop |
| `BridgeJobs.ShutdownIsFinalIff` | bridges/mqtt-go/bridge.go:173-178 | without new messages no goroutine is uncancelled at any time after shutdown, whatever the handlers at work do, if and only if no entry was overwritten before and each of those handlers is of a finite message or has installed its job |
| `BridgeJobs.OverlapLeaks` | bridges/mqtt-go/bridge.go:216-231 | two handlers of one topic that have both made their channels lose one goroutine, whatever follows |
| `BridgeJobs.OverlapHappens` | bridges/mqtt-go/bridge.go:216-231 | a run of two messages that gets there |
| `BridgeJobs.LateInstallSurvives` | bridges/mqtt-go/bridge.go:173-178 | a handler that installs its job after shutdown leaves it uncancelled |
| `BridgeJobs.LateInstallHappens` | bridges/mqtt-go/bridge.go:216-231 | a run of one message that gets there |
| `BridgeJobs.FailedSendEndsChain` | bridges/mqtt-go/bridge.go:216-222 | the bridge cancels before it sends, so a failed send leaves the topic without its chain |
| `BridgeJobs.FailedSendIsOver` | bridges/mqtt-go/bridge.go:218-222 | in every interleaving a handler whose send failed is gone for good |
| `BridgeJobs.RunAccountable` | bridges/mqtt-go/bridge.go:216-231 | in every interleaving each handler past its send arrived with an indefinite message and its send succeeded after that |
| `BridgeJobs.JobsAreEarned` | bridges/mqtt-go/bridge.go:227-228 | in every interleaving each job stems from an indefinite message on its topic whose send succeeded |
| `BridgeJobs.MessageHandled` | bridges/mqtt-go/bridge.go:185-232 | the whole effect of one message on jobs, channels and goroutines |
| `BridgeJobs.ExitsWhenClosed` | bridges/mqtt-go/bridge.go:295-297 | a goroutine exits once its channel is closed, and not before |
| `BridgeJobs.Jobs.CancelIndefinite` | bridges/mqtt-go/bridge.go:312-319 | refines the cancel step on the map and the channels |
| `BridgeJobs.Jobs.Install` | bridges/mqtt-go/bridge.go:288-290 | refines the install step |
| `BridgeJobs.Jobs.CloseJobs` | bridges/mqtt-go/bridge.go:173-178 | the closing loop, in any order of the map, refines the shutdown step and panics only where two entries clash |

## Left out

- Sockets, lwIP, multicast joins, MQTT, logging, sensors and metrics: input and output only; a send is a step with a verdict.
- JSON and base64 translation, YAML parsing and the message routing of `mcastReceiveLoop`: they rest on libraries that are not part of this model.
- ProtoValues.AppendValue: does not model the coercions of `toInt64`, `toUint64` and `toFloat64` from other numeric kinds, nor integers given to float fields; values start as booleans, 64-bit integers, 32-bit float patterns, strings and bytes. The conversion of a float32 to a float64 and back is taken as the identity on its bits.
- The text of errors: only which kind of error it is.
- Moving a whole varint between integers and bit-vectors: groups are added where the code uses a bitwise or. BitIdentities.OrIsPlus is the reason, on bit-vectors.
- ESPHome's own `xxtea`, which the firmware calls, is not part of this model; the bridge's is used for it.
- ESPHome's `ProtoEncode` and `ProtoVarInt` are not part of this model; their writes and reads are the standard ones that `protobuf.py` states.
- DynamicMessages.DynamicMessage.AddMessage: a message added to itself is excluded, as the source passes a pointer into the buffer that grows, and so is one of 2^35 bytes or more, for which the source reserves too little (DynamicMessages.LengthFits).
- DynamicMessages.DynamicMessage.AddString: strings of 2^35 bytes or more are excluded for the same reason.
- DynamicMessages.DynamicMessage.AddBytes: data of 2^35 bytes or more is excluded for the same reason.
- DynamicMessages.DynamicReader.Next: after an error the position is only known to lie between the old one and the end.
- The algorithm of the library's sort: it is the function Sort, whose result is the only sorted arrangement.
- `setup` beyond whether a socket exists: port, hops and joins are input and output.
- Node.MulticastPubSub.SubscribeTyped: the callback gets the body bytes; decoding them into a generated struct is not part of this model.
- Real time: any pending timer may fire at any step, so nothing is said about when.
- Finite retransmit goroutines and the receive loop of the bridge, and whether a goroutine that is told to stop sends once more.
- The ESP8266 branch of `multicast_pubsub.cpp`: it repeats the logic of the socket branch.
- Callbacks that call publish or subscribe themselves.
- `group_to_string`, `effectiveRetransmitCount`, config validators and the generation of C++ text: formatting and single-branch facts.
- Collision resistance of SHA-256 and uniqueness of the 16-bit SCHEMA_ID: not consequences of the code.
