# KhepriEngine core in Dafny

This project models the deterministic core of KhepriEngine, a C++17 game engine packaged with a Conan recipe. It covers the engine's own logic. The graphics APIs, FreeType, the windowing system and the operating system are not modelled.

- **I/O and serialization.** The model includes the `io::Stream` primitives: checked reads and writes, fixed-width little-endian integers, floats and 16-bit length-prefixed strings. It includes the `Serializer`/`Deserializer` codec and its traits for vectors, colours, vertices, meshes and models. It also includes the "KCF" `ContainerStream`, with its header, back-patched size and clamped read/write/seek, and the KMF (model) and KSF (shader) file loaders and writers built on it.
- **Textures.** For TGA, it covers header validation, reading and writing, and the row-flipping BGR(A) to RGBA pixel repacking. For DDS, it covers FourCC and pixel-format dispatch and the mip-chain subresource layout. It also includes the `load_texture` format table, `TextureDesc` index arithmetic and the in-memory shader stream of the Diligent back-end.
- **Utilities.** `ceil_power_of_two` and `bitcount`, the enum flag operators, string trimming and case handling, `Tokenizer`, `OwningCache`, `FontCache`, `Signal`/`Connection`/`ScopedConnection`, `pluck`, `SceneObject` and `Scene`.
- **Math over exact reals.** `clamp`/`saturate`, angle conversions, `Rect` containment, polynomial sampling and differentiation, and the step and linear interpolators. Matrices cover storage layout, product, transpose, translation and scale-rotate-translate composition. The collision-mesh distance and intersection rules and the bounding sphere are also included.
- **Renderer rules.** For Diligent: material-variable validation, the 16-byte parameter layout, the format, cull-mode and dimension mappings, and sprite index generation and batching. For Vulkan: swapchain format, mode, extent and image-count selection, queue-family and device compatibility selection, and the `UniqueVkHandle` destroy-exactly-once ownership.
- **Fonts.** Alpha blending of glyph bitmaps, the emboss neighbourhood search, the FreeType library reference count and render-texture sizing.
- **Versioning.** `to_string(VersionInfo)` and the Conan recipe's `_parse_version` and `set_version`.

Each source file keeps its own form. Code that changes state in place is modelled as classes whose methods carry `modifies` clauses: streams, containers, caches, signals, scene objects, handles and in-place array loops. Each such method is proved against a pure specification function over the state, and the round trips, invariants and error cases the source promises are proved about those functions as lemmas. Exceptions become a `Result` datatype with the engine's error kinds.

## Model

| member | source | states |
|---|---|---|
| Streams.Overwrite | include/khepri/io/stream.hpp:44-52 | a write replaces the bytes at the position, keeps every byte before it and after it, and grows the file only when it runs past the end |
| Streams.ReadSpec | include/khepri/io/stream.hpp:34-42 | a read delivers at most `count` bytes, exactly `count` on a readable stream iff that many are left, taken from the position, and moves the position past them only |
| Streams.WriteSpec | include/khepri/io/stream.hpp:44-52 | a writable stream reports every byte written, holds them at the old position and moves past them; an unwritable stream reports 0 and is unchanged |
| Streams.SeekSpec | include/khepri/io/stream.hpp:54-62 | a seek succeeds iff the stream is seekable and origin + offset lies inside the file, and then returns the new position from the start; otherwise an I/O error leaves the stream unchanged |
| Streams.ByteStream.constructor | include/khepri/io/stream.hpp:14-32 | a new stream starts at position 0 over its contents with the given read/write/seek capabilities |
| Streams.ByteStream.Read | include/khepri/io/stream.hpp:34-42 | the object's read moves its state and returns the bytes exactly as the value-level read does |
| Streams.ByteStream.Write | include/khepri/io/stream.hpp:44-52 | the object's write moves its state and returns the count exactly as the value-level write does |
| Streams.ByteStream.Seek | include/khepri/io/stream.hpp:54-62 | the object's seek moves its state and returns the position or error exactly as the value-level seek does |
| Streams.ReadAfterWrite | include/khepri/io/stream.hpp:34-52 | bytes written and then read back from the same position come back unchanged |
| Bytes.LeBytes | include/khepri/io/serialize.hpp:98-104 | little-endian encoding of a value into exactly `width` bytes |
| Bytes.LeValueBound | include/khepri/io/serialize.hpp:106-113 | decoding `n` little-endian bytes gives a value below 256^n |
| Bytes.LeRoundTrip | include/khepri/io/serialize.hpp:98-113 | decoding the encoding of any value gives the value reduced modulo 256^width, the truncation of an unsigned cast |
| Bytes.LeRoundTripExact | include/khepri/io/serialize.hpp:98-113 | a value that fits in `width` bytes survives encoding then decoding |
| Bytes.LeBytesOfValue | include/khepri/io/serialize.hpp:98-113 | encoding the decoded value of any byte string gives the same bytes back: the encoding is onto |
| Serialize.DecFixed | include/khepri/io/serialize.hpp:106-113 | decoding a fixed-width unsigned value gives a value below 256^width, or an I/O error when the data runs out |
| Serialize.FixedRoundTrip | include/khepri/io/serialize.hpp:98-113 | the bytes a fixed-width value is serialized to decode back to that value and advance past exactly `width` bytes |
| Serialize.U16Inverts | include/khepri/io/serialize.hpp:160-162 | `uint16_t` deserialization inverts its serialization at every position |
| Serialize.U32Inverts | include/khepri/io/serialize.hpp:164-166 | `uint32_t` deserialization inverts its serialization at every position |
| Serialize.FloatInverts | include/khepri/io/serialize.hpp:168-186 | a float's 32-bit pattern deserializes back to the same pattern |
| Serialize.FixedMonotone | include/khepri/io/serialize.hpp:106-113 | bytes appended after a decodable value do not change what is decoded |
| Serialize.U16Monotone | include/khepri/io/serialize.hpp:160-162 | `uint16_t` decoding depends only on the bytes it consumes |
| Serialize.U32Monotone | include/khepri/io/serialize.hpp:164-166 | `uint32_t` decoding depends only on the bytes it consumes |
| Serialize.FloatMonotone | include/khepri/io/serialize.hpp:168-186 | float decoding depends only on the bytes it consumes |
| Serialize.InvertsEvery | include/khepri/io/serialize.hpp:204-225 | an element decoder that inverts its encoder inverts it on every element of a vector |
| Serialize.ElemsRoundTrip | include/khepri/io/serialize.hpp:209-224 | the concatenated encodings of the elements decode back to the same elements and end just after them |
| Serialize.ElemsFail | include/khepri/io/serialize.hpp:218-224 | one element that fails to decode fails the whole vector |
| Serialize.ElemsMonotone | include/khepri/io/serialize.hpp:218-224 | decoding the elements ignores trailing bytes and ends inside the data |
| Serialize.VectorRoundTrip | include/khepri/io/serialize.hpp:204-225 | a vector of fewer than 2^32 elements serialized as its 32-bit count plus elements deserializes to the same vector |
| Serialize.VectorMonotone | include/khepri/io/serialize.hpp:204-225 | vector decoding ignores trailing bytes, so a vector can be followed by further values |
| Serialize.FixedFailAtEnd | include/khepri/io/serialize.hpp:106-113 | the fixed-width decoders either succeed or fail with the I/O error of running out of data |
| Serialize.VectorFailsAtEnd | include/khepri/io/serialize.hpp:218-225 | a vector whose elements can fail only by running out of data can itself fail only that way |
| Serialize.ElemsFailAtEnd | include/khepri/io/serialize.hpp:221-224 | decoding n elements whose decoder fails only by running out of data fails, if at all, with that I/O error |
| Serialize.Truncated | include/khepri/io/serialize.hpp:56-83 | for a decoder that only ever fails by running out of data, every strict prefix of a complete encoding fails with the I/O error "unexpected end of data" instead of yielding a value |
| Serialize.Serializer.constructor | include/khepri/io/serialize.hpp:27-33 | a new serializer's buffer is empty |
| Serialize.Serializer.WriteByte | include/khepri/io/serialize.hpp:39-44 | writing a byte appends exactly that byte to the buffer |
| Serialize.Serializer.WriteFixed | include/khepri/io/serialize.hpp:98-104 | writing a fixed-width value appends its little-endian bytes and nothing else |
| Serialize.Serializer.WriteU16 | include/khepri/io/serialize.hpp:160-162 | writing a `uint16_t` appends its two-byte encoding |
| Serialize.Serializer.WriteU32 | include/khepri/io/serialize.hpp:164-166 | writing a `uint32_t` appends its four-byte encoding |
| Serialize.Serializer.WriteFloat | include/khepri/io/serialize.hpp:172-177 | writing a float appends the encoding of its 32-bit pattern |
| Serialize.Deserializer.constructor | include/khepri/io/serialize.hpp:65-69 | a new deserializer reads the given data from position 0 |
| Serialize.Deserializer.ReadByte | include/khepri/io/serialize.hpp:75-83 | reading a byte fails with an I/O error iff the position is at the end, and otherwise returns the byte at the position and advances by one |
| Serialize.Deserializer.ReadFixed | include/khepri/io/serialize.hpp:106-113 | the byte-by-byte read loop fails iff the value-level decoder fails and otherwise returns its value and advances by `width` |
| Serialize.Deserializer.ReadU16 | include/khepri/io/serialize.hpp:160-162 | reading a `uint16_t` agrees with its value-level decoder, result and new position |
| Serialize.Deserializer.ReadU32 | include/khepri/io/serialize.hpp:164-166 | reading a `uint32_t` agrees with its value-level decoder, result and new position |
| Serialize.Deserializer.ReadFloat | include/khepri/io/serialize.hpp:179-185 | reading a float agrees with its value-level decoder, result and new position |
| StreamIO.ReadCheckedSpec | src/io/stream.cpp:11-16 | a checked read succeeds iff the stream is readable and holds `count` more bytes (or nothing is asked), then returns those bytes and advances past them; any shortfall is the I/O error "Unable to read from stream" |
| StreamIO.WriteCheckedSpec | src/io/stream.cpp:18-23 | a checked write succeeds iff the stream is writable (or nothing is written); a failed write is an I/O error that leaves the stream unchanged |
| StreamIO.ReadUnsignedSpec | src/io/stream.cpp:47-59 | an unsigned little-endian read of `width` bytes yields a value below 256^width |
| StreamIO.ReadChecked | src/io/stream.cpp:11-16 | the method on a stream object changes its state and returns exactly what the checked-read specification says |
| StreamIO.WriteChecked | src/io/stream.cpp:18-23 | the method on a stream object changes its state and returns exactly what the checked-write specification says |
| StreamIO.ReadUnsigned | src/io/stream.cpp:47-59 | the method reads `width` bytes and combines them little-endian, as the specification says |
| StreamIO.ReadShort | src/io/stream.cpp:26-31 | `read_short` reads two bytes and returns them as a signed 16-bit value |
| StreamIO.ReadInt | src/io/stream.cpp:33-38 | `read_int` reads four bytes and returns them as a signed 32-bit value |
| StreamIO.ReadByte | src/io/stream.cpp:40-45 | `read_byte` reads one byte and returns its unsigned value |
| StreamIO.ReadUShort | src/io/stream.cpp:47-52 | the corrected `read_ushort` returns the stored 16-bit value itself |
| StreamIO.ReadUint | src/io/stream.cpp:54-59 | the corrected `read_uint` returns the stored 32-bit value itself |
| StreamIO.ReadUShortAsWritten | src/io/stream.cpp:47-52 | `read_ushort` as written: the bytes are read as `int16_t` and sign-extended into a 32-bit `unsigned int` |
| StreamIO.ReadUintAsWritten | src/io/stream.cpp:54-59 | `read_uint` as written: the bytes are read as `int32_t` and sign-extended into a 64-bit `unsigned long` |
| StreamIO.ReadFloat | src/io/stream.cpp:61-66 | `read_float` returns the 32-bit pattern of the four bytes read |
| StreamIO.ReadBool | include/khepri/io/stream.hpp:64-68 | `read_bool` is true iff the byte read is non-zero |
| StreamIO.ReadString | src/io/stream.cpp:68-76 | `read_string` reads a 16-bit length and then that many bytes; a zero length reads nothing more; intended behaviour, as written see Findings row 1 |
| StreamIO.WriteShort | src/io/stream.cpp:78-82 | `write_short` writes the low 16 bits of its argument, little-endian |
| StreamIO.WriteInt | src/io/stream.cpp:84-88 | `write_int` writes the low 32 bits of its argument, little-endian |
| StreamIO.WriteByte | src/io/stream.cpp:90-94 | `write_byte` writes one byte |
| StreamIO.WriteUShort | src/io/stream.cpp:96-100 | `write_ushort` writes its argument truncated to 16 bits |
| StreamIO.WriteUint | src/io/stream.cpp:102-106 | `write_uint` writes its argument truncated to 32 bits |
| StreamIO.WriteFloat | src/io/stream.cpp:108-111 | `write_float` writes the float's four-byte pattern |
| StreamIO.WriteBool | include/khepri/io/stream.hpp:96-100 | `write_bool` writes the byte 1 for true and 0 for false |
| StreamIO.WriteString | src/io/stream.cpp:113-118 | `write_string` requires at most 65535 bytes, as its assertion does, and writes the 16-bit length then the bytes |
| StreamIO.UnsignedRoundTrip | src/io/stream.cpp:47-106 | writing `width` little-endian bytes and reading them back from the same position gives the value modulo 256^width and leaves the stream after the value |
| StreamIO.ShortRoundTrip | src/io/stream.cpp:26-31 | `write_short` then `read_short` gives the argument reinterpreted as signed 16-bit, which is the argument itself for every value in the `int16_t` range |
| StreamIO.SignedWrap16 | src/io/stream.cpp:78-82 | a value in the `int16_t` range survives the cast to 16 unsigned bits and back |
| StreamIO.IntRoundTrip | src/io/stream.cpp:33-38 | `write_int` then `read_int` gives the argument reinterpreted as signed 32-bit, which is the argument itself in the `int32_t` range |
| StreamIO.SignedWrap32 | src/io/stream.cpp:84-88 | a value in the `int32_t` range survives the cast to 32 unsigned bits and back |
| StreamIO.ByteRoundTrip | src/io/stream.cpp:40-45 | a byte written and read back is the same byte, despite the `int8_t` buffer |
| StreamIO.BoolRoundTrip | include/khepri/io/stream.hpp:64-100 | a bool written and read back is the same bool |
| StreamIO.UShortRoundTrip | src/io/stream.cpp:47-52 | `write_ushort` then the corrected `read_ushort` returns the argument modulo 2^16 and stops after the two bytes |
| StreamIO.UintRoundTrip | src/io/stream.cpp:54-59 | `write_uint` then the corrected `read_uint` returns the argument modulo 2^32 and stops after the four bytes |
| StreamIO.FloatRoundTrip | src/io/stream.cpp:61-66 | a float's bit pattern written and read back is unchanged |
| StreamIO.StringLayout | src/io/stream.cpp:113-118 | a written string is its 16-bit length followed by its bytes, and the position ends after them |
| StreamIO.StringRoundTrip | src/io/stream.cpp:68-76 | a string of at most 65535 bytes written and read back with the corrected reads is the same string, ending after it |
| StreamIO.UnsignedReadBytes | src/io/stream.cpp:47-59 | a successful unsigned read consumed exactly `width` bytes, whose encoding is the value returned |
| StreamIO.UShortAt | src/io/stream.cpp:47-52 | two bytes encoding `x` read as `x` by the corrected read and as the sign-extended `x` by the read as written |
| StreamIO.ShortAt | src/io/stream.cpp:26-31 | two bytes encoding `x` read as signed 16-bit, whose low 16 bits are `x` again |
| StreamIO.UintRead | src/io/stream.cpp:54-59 | the corrected `read_uint` succeeds iff four bytes are left on a readable stream, and then returns their little-endian value |
| StreamIO.UintAt | src/io/stream.cpp:54-59 | four bytes encoding `x` read as `x` by the corrected read and as the sign-extended `x` by the read as written |
| StreamIO.ByteAt | src/io/stream.cpp:40-45 | a byte at the position is read back unchanged |
| StreamIO.UShortAsWrittenWraps | src/io/stream.cpp:47-52 | every 16-bit value from 0x8000 up, written with `write_ushort`, reads back through `read_ushort` as written as that value plus 2^32 - 2^16 |
| StreamIO.UintAsWrittenWraps | src/io/stream.cpp:54-59 | every 32-bit value from 0x80000000 up, written with `write_uint`, reads back through `read_uint` as written as that value plus 2^64 - 2^32 |
| StreamIO.StringAsWrittenFails | src/io/stream.cpp:68-76 | a string of 32768 to 65535 bytes written at the end of a stream cannot be read back by `read_string` as written: the sign-extended length exceeds what is there |
| StreamIO.AppendChecked | src/io/stream.cpp:18-23 | a checked write at the end of a writable stream appends the bytes |
| StreamIO.OverwriteChecked | src/io/stream.cpp:18-23 | a checked write on a writable stream overwrites at the position and advances past the bytes |
| Container.Header | src/io/container_stream.cpp:60-65 | the container header is 16 bytes: "KCF", version 1, the type id, zero flags and the content size |
| Container.OpenReadSpec | src/io/container_stream.cpp:29-52 | opening for reading an unreadable stream is an argument error that touches nothing; a successful open is a readable container at content position 0; intended behaviour over the zero-extending `read_uint`, as written on 64-bit `unsigned long` see Findings row 2 |
| Container.OpenWriteSpec | src/io/container_stream.cpp:53-68 | opening for writing succeeds iff the underlying stream is seekable and writable (otherwise an argument error, stream unchanged), giving an empty writable container at position 0 |
| Container.ContainerStream.Open | src/io/container_stream.cpp:25-69 | the constructor opens for reading or for writing as asked, with the state, container fields and error of the matching value-level open |
| Container.ContainerStream.OpenRead | src/io/container_stream.cpp:29-52 | opening for reading agrees with the value-level open in stream state, container fields and error |
| Container.ContainerStream.OpenWrite | src/io/container_stream.cpp:53-68 | opening for writing agrees with the value-level open in stream state, container fields and error |
| Container.CloseSpec | src/io/container_stream.cpp:71-82 | closing a container that is not open for writing changes nothing; closing a writable one detaches it |
| Container.ContentReadSpec | src/io/container_stream.cpp:84-94 | reading a container not opened for reading is an error; otherwise at most min(count, size - position) bytes come back and the content position advances by as many |
| Container.ContentWriteSpec | src/io/container_stream.cpp:96-106 | writing a container not opened for writing is an error; otherwise the position advances by the bytes written and the content size becomes the larger of the old size and the new position |
| Container.ContentSeekAsWrittenSpec | src/io/container_stream.cpp:108-143 | `seek` as written moves the underlying stream but never updates the container's own content position |
| Container.ContentSeekSpec | src/io/container_stream.cpp:108-143 | the corrected seek also sets the content position to the value it returns; the underlying position is content start plus that value; a seek from the beginning is clamped into [0, size] and a seek from the end in read mode lands on the content size |
| Container.ContainerStream.Attach | src/io/container_stream.cpp:25-28 | a container stream is attached to its underlying stream with its mode, content start and size, at position 0 |
| Container.ContainerStream.Close | src/io/container_stream.cpp:71-82 | the object's close changes the container and the underlying stream as the value-level close does |
| Container.ContainerStream.Read | src/io/container_stream.cpp:84-94 | the object's read agrees with the value-level content read |
| Container.ContainerStream.Write | src/io/container_stream.cpp:96-106 | the object's write agrees with the value-level content write |
| Container.ContainerStream.SeekAsWritten | src/io/container_stream.cpp:108-143 | the object's seek as written agrees with the as-written specification and leaves the container fields unchanged |
| Container.ContainerStream.Seek | src/io/container_stream.cpp:108-143 | the object's corrected seek agrees with the corrected specification |
| Container.PatchUint | src/io/container_stream.cpp:75-78 | writing a 32-bit value over four existing bytes replaces exactly those four bytes |
| Container.OpenWriteLayout | src/io/container_stream.cpp:53-68 | opening for writing at the end of a stream appends the header with size 0 and starts the content right after it |
| Container.ClosePatch | src/io/container_stream.cpp:71-82 | closing a written container patches the size field of the header with the content size and leaves everything else in place |
| Container.WriteCloseLayout | src/io/container_stream.cpp:53-106 | open for writing, write the data, close: the stream then holds the header with the real size followed by the data |
| Container.OpenReadAt | src/io/container_stream.cpp:29-52 | a stream whose bytes at the position are a header with the expected type id opens for reading with content start after the header and the recorded size |
| Container.OpenReadFields | src/io/container_stream.cpp:34-52 | the header read field by field (magic, version, type, flags, size) gives a readable container |
| Container.OtherTypeRejected | src/io/container_stream.cpp:42-43 | a header carrying another type id is rejected as an invalid format after 8 bytes are consumed |
| Container.OpenReadHeader | src/io/container_stream.cpp:34-48 | whenever opening for reading succeeds, the 16 bytes at the old position are exactly a header with the expected type id and the size read |
| Container.ReadBackLayout | src/io/container_stream.cpp:29-52 | a header followed by its data opens in sync with the data: content position 0, underlying position at content start |
| Container.ReadContent | src/io/container_stream.cpp:84-94 | reading from an in-sync container returns the next min(count, size - position) bytes of the content and stays in sync |
| Container.SeekKeepsSync | src/io/container_stream.cpp:108-143 | every corrected seek returns its clamped target and keeps the content position and the underlying stream in sync |
| Container.RereadAfterSeek | src/io/container_stream.cpp:116-118 | after a corrected seek to the beginning the whole content can be read again |
| Container.SeekBeginAsWrittenRereadsShort | src/io/container_stream.cpp:116-118 | after some content has been read, `seek(0, begin)` as written loses sync and a read of the whole content returns it short by the bytes already read |
| Container.SeekCurrentAsWrittenStays | src/io/container_stream.cpp:121-127 | `seek(1, current)` as written reports a move but changes neither stream, so the next read returns the byte it claimed to skip |
| Container.ReadBackAll | src/io/container_stream.cpp:29-94 | a header followed by its data opens for reading and reads back exactly the data; intended behaviour over the zero-extending `read_uint`, as written on 64-bit `unsigned long` see Findings row 2 |
| Container.ContainerRoundTrip | src/io/container_stream.cpp:25-106 | content written through a container and closed is read back unchanged through a container opened for reading on the same bytes; intended behaviour over the zero-extending `read_uint`, as written on 64-bit `unsigned long` see Findings row 2 |
| ContainerFile.Decoded | src/renderer/io/ksf.cpp:43-48 | every `io::Error` of the payload's deserializer is reported as an invalid format |
| ContainerFile.LoadSpec | src/renderer/io/ksf.cpp:27-49 | loading from a stream that is not both readable and seekable is an argument error that touches nothing |
| ContainerFile.WriteFileSpec | src/renderer/io/ksf.cpp:51-67 | writing to a stream that is not both writable and seekable is an argument error that touches nothing |
| ContainerFile.WriteLayout | src/renderer/io/ksf.cpp:51-67 | writing a payload at the end of a stream appends a container header carrying the payload's size, then the payload |
| ContainerFile.LoadFromSync | src/renderer/io/ksf.cpp:36-41 | seeking to the end gives the content size, seeking back to the beginning gives 0, and a read of that size returns the whole payload |
| ContainerFile.LoadContent | src/renderer/io/ksf.cpp:27-49 | loading a header plus payload yields exactly the payload's decoding, with deserialization errors turned into an invalid format; intended behaviour over the zero-extending `read_uint`, as written on 64-bit `unsigned long` see Findings row 2 and the corrected seek of row 3 |
| ContainerFile.FileRoundTrip | src/renderer/io/ksf.cpp:27-67 | a payload written as a container file loads back as the decoding of that same payload; intended behaviour over the zero-extending `read_uint`, as written on 64-bit `unsigned long` see Findings row 2 and the corrected seek of row 3 |
| ContainerFile.LoadOtherType | src/renderer/io/ksf.cpp:33-34 | a container file of another content type fails to load with an invalid format |
| ContainerFile.LoadTruncated | src/renderer/io/ksf.cpp:36-41 | a file whose content is shorter than its header's size fails with an I/O error, from the content seek or the short read |
| Ksf.ShaderRoundTrip | src/renderer/io/ksf.cpp:43-62 | a shader's serialization deserializes back to the same shader and ends right after it |
| Ksf.SerializeWords | src/renderer/io/ksf.cpp:60-62 | the serializer loop over the shader's words appends each word's four-byte encoding, in order |
| Ksf.SerializeShader | src/renderer/io/ksf.cpp:60-62 | serializing a shader appends exactly its encoding |
| Ksf.DeserializeWords | src/renderer/io/ksf.cpp:43-45 | the deserializer loop over `count` words fails iff the value-level decoder fails and otherwise returns its words and position |
| Ksf.DeserializeShader | src/renderer/io/ksf.cpp:43-45 | deserializing a shader agrees with the value-level shader decoder, failure and success alike |
| Ksf.LoadKsf | src/renderer/io/ksf.cpp:27-49 | `load_ksf` opens a container with the KSF id 0xd086def7, reads its whole content and decodes a shader from it; intended behaviour over the zero-extending `read_uint`: as written on 64-bit `unsigned long` no KSF file loads (Ksf.KsfIdAsWrittenRejected, Findings row 2) |
| Ksf.WriteKsf | src/renderer/io/ksf.cpp:51-67 | `write_ksf` writes the shader's encoding in a container with the KSF id and closes it, as the file-level specification says |
| Ksf.KsfRoundTrip | src/renderer/io/ksf.cpp:27-67 | a shader written with `write_ksf` loads back unchanged with `load_ksf`; intended behaviour over the zero-extending `read_uint`, as written on 64-bit `unsigned long` see Findings row 2 |
| Ksf.KmfNotKsf | src/renderer/io/ksf.cpp:17 | a model file (KMF id 0x3ea69ae9) is rejected by `load_ksf` as an invalid format |
| Ksf.KsfIdAsWrittenRejected | src/renderer/io/ksf.cpp:17 | the stored KSF id reads back as 0xd086def7 through the corrected `read_uint` but, with its top bit set, as a different value through `read_uint` as written, so the type check rejects every KSF file |
| Kmf.LoadKmf | src/renderer/io/kmf.cpp:27-49 | `load_kmf` opens a container with the KMF id 0x3ea69ae9, reads its whole content and decodes a model from it, as the file-level specification says; intended behaviour over the zero-extending `read_uint`, as written on 64-bit `unsigned long` see Findings row 2 |
| Kmf.WriteKmf | src/renderer/io/kmf.cpp:51-66 | `write_kmf` writes the model's encoding in a container with the KMF id and closes it |
| Kmf.KmfRoundTrip | src/renderer/io/kmf.cpp:27-66 | a model written with `write_kmf` loads back unchanged with `load_kmf`; intended behaviour over the zero-extending `read_uint`, as written on 64-bit `unsigned long` see Findings row 2 |
| MathSerialize.FloatAt | include/khepri/math/serialize.hpp:17-28 | a float component followed by more data decodes to that float and leaves the rest at the next position |
| MathSerialize.Vector2Inverts | include/khepri/math/serialize.hpp:12-31 | a 2-vector serializes as x then y in 8 bytes and deserializes back to the same vector |
| MathSerialize.Vector3Inverts | include/khepri/math/serialize.hpp:33-54 | a 3-vector serializes as x, y, z in 12 bytes and deserializes back to the same vector |
| MathSerialize.Vector4Inverts | include/khepri/math/serialize.hpp:56-79 | a 4-vector serializes as x, y, z, w in 16 bytes and deserializes back to the same vector |
| MathSerialize.ColorInverts | include/khepri/math/serialize.hpp:81-104 | an RGBA colour serializes as r, g, b, a in 16 bytes and deserializes back to the same colour |
| MathSerialize.Vector3Monotone | include/khepri/math/serialize.hpp:46-53 | decoding a 3-vector depends only on the 12 bytes it consumes |
| MathSerialize.Vector3FailsAtEnd | include/khepri/math/serialize.hpp:46-53 | a 3-vector fails to decode only by running out of data |
| MathSerialize.SerializeVector2 | include/khepri/math/serialize.hpp:17-21 | serializing a 2-vector appends exactly its encoding |
| MathSerialize.SerializeVector3 | include/khepri/math/serialize.hpp:38-43 | serializing a 3-vector appends exactly its encoding |
| MathSerialize.SerializeVector4 | include/khepri/math/serialize.hpp:61-67 | serializing a 4-vector appends exactly its encoding |
| MathSerialize.SerializeColor | include/khepri/math/serialize.hpp:86-92 | serializing a colour appends exactly its encoding |
| MathSerialize.DeserializeVector2 | include/khepri/math/serialize.hpp:24-30 | deserializing a 2-vector agrees with the value-level decoder, failure and success alike |
| MathSerialize.DeserializeVector3 | include/khepri/math/serialize.hpp:46-53 | deserializing a 3-vector agrees with the value-level decoder |
| MathSerialize.DeserializeVector4 | include/khepri/math/serialize.hpp:70-78 | deserializing a 4-vector agrees with the value-level decoder |
| MathSerialize.DeserializeColor | include/khepri/math/serialize.hpp:95-103 | deserializing a colour agrees with the value-level decoder |
| ModelSerialize.VertexInverts | include/khepri/renderer/io/serialize.hpp:8-27 | a vertex serializes as position then normal in 24 bytes and deserializes back to the same vertex |
| ModelSerialize.MeshRoundTrip | include/khepri/renderer/io/serialize.hpp:29-47 | a mesh (vertex vector, then 16-bit index vector) deserializes back to the same mesh and ends right after it |
| ModelSerialize.MeshesInvertAll | include/khepri/renderer/io/serialize.hpp:29-47 | the mesh decoder inverts the mesh encoder on every mesh of a model |
| ModelSerialize.ModelRoundTrip | include/khepri/renderer/io/serialize.hpp:49-65 | a model (its vector of meshes) deserializes back to the same model and ends right after it |
| ModelSerialize.VertexMonotone | include/khepri/renderer/io/serialize.hpp:20-26 | vertex decoding ignores trailing bytes |
| ModelSerialize.MeshMonotone | include/khepri/renderer/io/serialize.hpp:41-46 | mesh decoding ignores trailing bytes, so the index vector can follow the vertex vector |
| ModelSerialize.ModelMonotone | include/khepri/renderer/io/serialize.hpp:60-64 | model decoding ignores trailing bytes |
| ModelSerialize.ModelTruncated | include/khepri/renderer/io/serialize.hpp:60-64 | every strict prefix of a model's encoding fails to decode, with the I/O error "unexpected end of data" |
| ModelSerialize.MeshIndicesTruncated | include/khepri/renderer/io/serialize.hpp:41-46 | a mesh cut off inside its index vector fails to decode, with the I/O error "unexpected end of data" |
| ModelSerialize.MeshFailsAtEnd | include/khepri/renderer/io/serialize.hpp:41-46 | a mesh fails to decode only by running out of data |
| ModelSerialize.VertexFailsAtEnd | include/khepri/renderer/io/serialize.hpp:20-26 | a vertex fails to decode only by running out of data |
| ModelSerialize.ModelFailsAtEnd | include/khepri/renderer/io/serialize.hpp:60-64 | a model fails to decode only by running out of data |
| ModelSerialize.SerializeVertex | include/khepri/renderer/io/serialize.hpp:13-17 | serializing a vertex appends exactly its encoding |
| ModelSerialize.SerializeVerticesElems | include/khepri/io/serialize.hpp:209-215 | the loop over the vertices appends their encodings in order |
| ModelSerialize.SerializeVertices | include/khepri/io/serialize.hpp:209-215 | serializing the vertex vector appends its 32-bit count and the vertices |
| ModelSerialize.SerializeIndicesElems | include/khepri/io/serialize.hpp:209-215 | the loop over the indices appends their 16-bit encodings in order |
| ModelSerialize.SerializeIndices | include/khepri/io/serialize.hpp:209-215 | serializing the index vector appends its 32-bit count and the indices |
| ModelSerialize.SerializeMesh | include/khepri/renderer/io/serialize.hpp:34-38 | serializing a mesh appends exactly its encoding |
| ModelSerialize.SerializeModelElems | include/khepri/io/serialize.hpp:209-215 | the loop over the meshes appends their encodings in order |
| ModelSerialize.SerializeModel | include/khepri/renderer/io/serialize.hpp:54-57 | serializing a model appends exactly its encoding |
| ModelSerialize.DeserializeVertex | include/khepri/renderer/io/serialize.hpp:20-26 | deserializing a vertex agrees with the value-level decoder |
| ModelSerialize.DeserializeVerticesElems | include/khepri/io/serialize.hpp:218-225 | the element loop for `count` vertices agrees with the value-level element decoder |
| ModelSerialize.DeserializeVertices | include/khepri/io/serialize.hpp:218-225 | deserializing the vertex vector agrees with the value-level vector decoder |
| ModelSerialize.DeserializeIndicesElems | include/khepri/io/serialize.hpp:218-225 | the element loop for `count` indices agrees with the value-level element decoder |
| ModelSerialize.DeserializeIndices | include/khepri/io/serialize.hpp:218-225 | deserializing the index vector agrees with the value-level vector decoder |
| ModelSerialize.DeserializeMesh | include/khepri/renderer/io/serialize.hpp:41-46 | deserializing a mesh agrees with the value-level decoder |
| ModelSerialize.DeserializeModelElems | include/khepri/io/serialize.hpp:218-225 | the element loop for `count` meshes agrees with the value-level element decoder |
| ModelSerialize.DeserializeModel | include/khepri/renderer/io/serialize.hpp:60-64 | deserializing a model agrees with the value-level decoder |
| Dds.FourCC | src/renderer/io/texture_dds.cpp:83-89 | a four-character code is the little-endian 32-bit value of its four bytes, and those bytes are its little-endian encoding |
| Dds.MagicIsFourCC | src/renderer/io/texture_dds.cpp:63 | the DDS magic 0x20534444 is the four-character code "DDS " |
| Dds.PixelFormatOf | src/renderer/io/texture_dds.cpp:91-133 | each supported pixel format is chosen exactly when its conditions hold: 32-bit RGB with RGBA masks, 32-bit RGB with BGRA masks, and (without the RGB flag) the four-character codes DXT1, DXT2/DXT3 and DXT4/DXT5 |
| Dds.PixelFormatRoundTrip | src/renderer/io/texture_dds.cpp:91-133 | every supported pixel format has a descriptor that is recognised as that format |
| Dds.Dx10Unsupported | src/renderer/io/texture_dds.cpp:259-264 | a DX10 extension header maps to no pixel format |
| Dds.RoundUp | src/renderer/io/texture_dds.cpp:76-81 | `round_up` is the ceiling of the division: the least multiple count that covers the value |
| Dds.Blocks | src/renderer/io/texture_dds.cpp:167-168 | the number of 4-pixel compression blocks is 0 for an empty dimension and otherwise the least count covering it, at least 1 |
| Dds.Half | src/renderer/io/texture_dds.cpp:193-195 | the next mip dimension is at least 1 and at most half the current one |
| Dds.LevelLayout | src/renderer/io/texture_dds.cpp:160-190 | a level's size is its depth stride times its depth; compressed formats use blocks times 8 or 16 bytes per row of blocks, uncompressed ones 4 bytes per pixel times the level's rows |
| Dds.MipChain | src/renderer/io/texture_dds.cpp:148-198 | the corrected chain has one layout per mip level, using each level's own height for its depth stride |
| Dds.MipChainAsWritten | src/renderer/io/texture_dds.cpp:148-198 | the chain as written has one layout per level, using the base height for every uncompressed level's depth stride |
| Dds.MipDim | src/renderer/io/texture_dds.cpp:193-195 | a dimension after k halvings is still at least 1 |
| Dds.MipChainOffset | src/renderer/io/texture_dds.cpp:189-192 | each level starts where the levels before it end: its offset is the start plus the sizes of all earlier levels |
| Dds.MipChainLevel | src/renderer/io/texture_dds.cpp:157-196 | level k is laid out from the dimensions halved k times |
| Dds.MipChainHead | src/renderer/io/texture_dds.cpp:157-190 | level 0 is laid out from the full dimensions at the start offset |
| Dds.MipChainEnd | src/renderer/io/texture_dds.cpp:189-192 | the last level ends exactly at the start plus the total size, so the levels tile the data without gaps |
| Dds.MipChainNonEmpty | src/renderer/io/texture_dds.cpp:160-190 | every level of a texture with non-zero dimensions has a non-zero size |
| Dds.UncompressedLevelSize | src/renderer/io/texture_dds.cpp:175-182 | in the corrected chain an uncompressed level holds 4 bytes for every pixel of that level: width times height times depth |
| Dds.MipChainAsWrittenOversized | src/renderer/io/texture_dds.cpp:179-180 | for a 2x2 RGBA texture with two levels, the second level as written takes 8 bytes where its single pixel needs 4 |
| Dds.CreateSubresources | src/renderer/io/texture_dds.cpp:148-198 | the array loop that fills the levels produces exactly the corrected mip chain |
| Dds.ReadUintsSpec | src/renderer/io/texture_dds.cpp:205-253 | reading n 32-bit fields in a row yields n values or an I/O error |
| Dds.ReadUintsAt | src/renderer/io/texture_dds.cpp:205-253 | n field reads succeed iff 4n bytes are left on a readable stream, and then return the n little-endian words there and advance by 4n |
| Dds.ReadUintsFail | src/renderer/io/texture_dds.cpp:205-253 | once a field read fails, reading further fields reports the same failure |
| Dds.ReadUints | src/renderer/io/texture_dds.cpp:233-236 | the loop of `read_uint` calls agrees with the value-level field reader |
| Dds.ReadDdsHeaderSpec | src/renderer/io/texture_dds.cpp:205-206 | reading the header fails with an invalid format exactly when the first word is read and is not the DDS magic; every other failure is an I/O error |
| Dds.DepthOf | src/renderer/io/texture_dds.cpp:216-223 | the depth is max(1, depth) when the depth flag is set and 1 otherwise |
| Dds.MipLevelsOf | src/renderer/io/texture_dds.cpp:225-230 | the mip level count is max(1, count) when the mip-map-count flag is set and 1 otherwise |
| Dds.SubresourcesOf | src/renderer/io/texture_dds.cpp:282 | a supported header yields one subresource per mip level |
| Dds.LoadDdsSpec | src/renderer/io/texture_dds.cpp:200-298 | loading succeeds iff the header reads, is supported (sizes 124 and 32, required flags, no DX10, no cube map, a known format, non-zero width and height) and the stream holds all level data; the result is a valid texture with one subresource per level and exactly the total size of data; intended behaviour over the zero-extending `read_uint` and the corrected mip chain, as written see Findings rows 2 and 9 |
| Dds.DataNonEmpty | src/renderer/io/texture_dds.cpp:282-292 | a supported texture always has some pixel data |
| Dds.IsTextureDdsSpec | src/renderer/io/texture_dds.cpp:137-146 | the format probe never fails and is true iff the first 32-bit word reads as the DDS magic |
| Dds.IsTextureDds | src/renderer/io/texture_dds.cpp:137-146 | the method agrees with the value-level check, including catching a short read as false |
| Dds.LoadTextureDds | src/renderer/io/texture_dds.cpp:200-298 | `load_texture_dds` agrees with the value-level loader; intended behaviour, as written see Findings rows 2 and 9 |
| Dds.CheckHeader | src/renderer/io/texture_dds.cpp:255-280 | the sequence of header checks accepts exactly the supported headers |
| Dds.Supported | src/renderer/io/texture_dds.cpp:255-280 | a header that passes the loader's checks describes a texture of non-zero width and height in a known pixel format without a DX10 extension |
| Dds.SumSizes | src/renderer/io/texture_dds.cpp:284-287 | the summing loop returns the total size of the subresources |
| Dds.AlphaMaskAsWrittenRejected | src/renderer/io/texture_dds.cpp:96-108 | the alpha mask 0xff000000 reads back correctly through the corrected `read_uint`, which recognises RGBA, but sign-extended through `read_uint` as written, which makes every 32-bit RGBA texture unsupported |
| Dds.ComputeLevel | src/renderer/io/texture_dds.cpp:159-188 | the switch on the pixel format computes the layout of one level at the current data offset |
| Textures.TextureDesc.Depth | include/khepri/renderer/texture_desc.hpp:156-159 | the depth is 1 for every texture that is not 3D, and at least 1 for a valid texture |
| Textures.TextureDesc.ArraySize | include/khepri/renderer/texture_desc.hpp:178-181 | a 3D texture has array size 0 |
| Textures.TextureDesc.GetSubresource | include/khepri/renderer/texture_desc.hpp:197-201 | an in-range index returns one of the texture's subresources |
| Textures.TextureDesc.SubresourceIndex | include/khepri/renderer/texture_desc.hpp:218-222 | for a mip level below the level count, the index's remainder is the mip level and its quotient the array index |
| Textures.VolumeOrArray | include/khepri/renderer/texture_desc.hpp:156-181 | a texture never has both a depth above 1 and a non-zero array size: the shared field is one or the other |
| Textures.SubresourceIndexInjective | include/khepri/renderer/texture_desc.hpp:218-222 | distinct (mip level, array index) pairs give distinct subresource indices |
| Textures.SubresourceIndexRange | include/khepri/renderer/texture_desc.hpp:218-222 | array slice a occupies exactly the indices from a times the level count up to the next slice |
| TextureLoad.CheckSpec | src/renderer/io/texture.cpp:16-23 | a format's check always answers, never fails |
| TextureLoad.LoadSpec | src/renderer/io/texture.cpp:16-23 | a format's loader leaves the stream in a valid state whatever it returns |
| TextureLoad.TryFormatsSpec | src/renderer/io/texture.cpp:35-43 | with no formats left to try, loading fails with an invalid format and leaves the stream as it is |
| TextureLoad.LoadTextureSpec | src/renderer/io/texture.cpp:27-44 | loading from a stream that is not both readable and seekable is an argument error that touches nothing |
| TextureLoad.Check | src/renderer/io/texture.cpp:36-38 | the dispatching check agrees with the value-level check of the chosen format |
| TextureLoad.Load | src/renderer/io/texture.cpp:39-40 | the dispatching load agrees with the value-level load of the chosen format |
| TextureLoad.LoadTexture | src/renderer/io/texture.cpp:27-44 | the loop over the format table agrees with the value-level loader |
| TextureLoad.DdsFirst | src/renderer/io/texture.cpp:33-41 | a stream that starts with the DDS magic is loaded as DDS from position 0 |
| TextureLoad.TgaSecond | src/renderer/io/texture.cpp:33-41 | a stream that is not DDS but passes the TGA check is loaded as TGA from position 0 |
| TextureLoad.NeitherFormat | src/renderer/io/texture.cpp:43 | a stream that is neither DDS nor TGA fails with an invalid format |
| TextureLoad.RewindSeekable | src/renderer/io/texture.cpp:37-39 | rewinding a seekable stream before each check and load always succeeds and only moves the position to 0 |
| Tga.ToFields | src/renderer/io/texture_tga.cpp:25-39 | a header's twelve fields each fit the width they are stored in (one byte or two) |
| Tga.FromFields | src/renderer/io/texture_tga.cpp:25-39 | any twelve values that fit their widths form a header whose fields are those values |
| Tga.ReadFieldSpec | src/renderer/io/texture_tga.cpp:48-63 | reading one field of width 1 or 2 gives a value that fits in it |
| Tga.ReadFieldsSpec | src/renderer/io/texture_tga.cpp:48-63 | reading the fields yields one value per field, or an I/O error |
| Tga.ReadHeaderSpec | src/renderer/io/texture_tga.cpp:48-64 | reading the header fails only with an I/O error |
| Tga.BaseImageType | src/renderer/io/texture_tga.cpp:89 | masking off the RLE bit gives the type itself or the type minus 8, differing from it only in that bit |
| Tga.IsValidHeader | src/renderer/io/texture_tga.cpp:82-115 | a header is valid iff the colour map type is below 2, the base image type is at most grayscale, a colour map has 16, 24 or 32 bits per entry, a colour-mapped image has a colour map, the pixel depth is 8, 16, 24 or 32 and the descriptor is 0 |
| Tga.IsTextureTgaSpec | src/renderer/io/texture_tga.cpp:119-128 | the format probe never fails and is true iff a header reads and is valid |
| Tga.ReadField | src/renderer/io/texture_tga.cpp:51-62 | one `read_byte` or `read_short` into a header field agrees with the value-level field read |
| Tga.ReadFields | src/renderer/io/texture_tga.cpp:48-64 | the loop over the field widths agrees with the value-level reader |
| Tga.ReadHeader | src/renderer/io/texture_tga.cpp:48-64 | `read_header` agrees with the value-level header reader |
| Tga.WriteField | src/renderer/io/texture_tga.cpp:68-79 | one `write_byte` or `write_short` of a header field agrees with the value-level field write |
| Tga.WriteFields | src/renderer/io/texture_tga.cpp:66-80 | the loop over the field widths agrees with the value-level writer |
| Tga.WriteHeader | src/renderer/io/texture_tga.cpp:66-80 | `write_header` agrees with the value-level header writer |
| Tga.IsTextureTga | src/renderer/io/texture_tga.cpp:119-128 | `is_texture_tga` agrees with the value-level check, catching a short read as false |
| Tga.ShortAsUnsigned | src/renderer/io/texture_tga.cpp:54-60 | a `read_short` stored into a 16-bit unsigned field is the unsigned 16-bit read: same failure, same stream, value modulo 2^16 |
| Tga.CheckedFailure | src/io/stream.cpp:11-16 | a failed checked read leaves the position at the end of a readable stream, and unchanged on an unreadable one |
| Tga.ReadFieldsFail | src/renderer/io/texture_tga.cpp:48-64 | when one field read fails, the header read fails with that error and that stream |
| Tga.DecEncFields | src/renderer/io/texture_tga.cpp:48-80 | decoding the encoded field values gives the same values back |
| Tga.HeaderRoundTrip | src/renderer/io/texture_tga.cpp:48-80 | a header written with `write_header` at the end of a stream reads back unchanged with `read_header` and ends after 18 bytes |
| Tga.EncHeader | src/renderer/io/texture_tga.cpp:66-80 | an encoded header has the total width of its fields |
| Tga.HeaderAt | src/renderer/io/texture_tga.cpp:48-64 | the bytes of an encoded header at the position read back as that header, 18 bytes on |
| Tga.HeaderSize | src/renderer/io/texture_tga.cpp:25-39 | the header's field widths add up to 18 bytes |
| TgaPixels.LoadRow | src/renderer/io/texture_tga.cpp:167-187 | repacking n file pixels of 24 or 32 bits gives 4 output bytes per pixel |
| TgaPixels.LoadRowPixel | src/renderer/io/texture_tga.cpp:168-183 | output pixel x of a row is the repacked file pixel x: red, green, blue from the file's blue-green-red order, and alpha from the file or 255 for 24-bit pixels |
| TgaPixels.OutRow | src/renderer/io/texture_tga.cpp:162-188 | one output row holds 4 bytes for each of the w pixels |
| TgaPixels.LoadedRows | src/renderer/io/texture_tga.cpp:153-188 | k scanlines repack into k rows of 4w bytes |
| TgaPixels.Loaded | src/renderer/io/texture_tga.cpp:153-188 | the corrected loader turns h scanlines into h rows of 4w bytes, row r from scanline h-1-r (see LoadedFlipsRows) |
| TgaPixels.LoadedAsWritten | src/renderer/io/texture_tga.cpp:161-188 | the loader as written, whose source span never moves past the first scanline, still produces h rows of 4w bytes |
| TgaPixels.RawSizeRows | src/renderer/io/texture_tga.cpp:156-158 | the raw buffer of w times h pixels at bpp bits is h scanlines of w times bpp/8 bytes |
| TgaPixels.LoadedFlipsRows | src/renderer/io/texture_tga.cpp:162-166 | in the corrected loader texture row r is the repacked file scanline h-1-r: the file stores the bottom scanline first |
| TgaPixels.LoadAsWrittenRepeatsScanline | src/renderer/io/texture_tga.cpp:161-174 | for a 1x2 image the loader as written repeats the first file scanline in both rows, while the corrected loader gives each row its own scanline, flipped |
| TgaPixels.SaveRow | src/renderer/io/texture_tga.cpp:246-264 | saving n pixels gives 4 file bytes per pixel |
| TgaPixels.RowStart | src/renderer/io/texture_tga.cpp:241-243 | a row of the subresource starts at or after the data offset |
| TgaPixels.RowStartWithin | src/renderer/io/texture_tga.cpp:241-243 | when the rows fit the data, every row's 4w bytes lie inside it |
| TgaPixels.SavedRows | src/renderer/io/texture_tga.cpp:239-265 | k saved scanlines are k rows of 4w file bytes |
| TgaPixels.Saved | src/renderer/io/texture_tga.cpp:236-265 | the corrected saver writes h scanlines of 4w bytes, scanline j from texture row h-1-j (see SavedRowAt) |
| TgaPixels.SaveRowChecked | src/renderer/io/texture_tga.cpp:241-263 | copying a row out of a bounds-checked span succeeds iff the span holds the row's 4n bytes, and then gives the saved row |
| TgaPixels.SaveSpanAsWrittenOverruns | src/renderer/io/texture_tga.cpp:241-243 | the span as written, `image_width` bytes long, is too short for the 4 bytes per pixel the copy reads, for every width from 1 |
| TgaPixels.SaveSpanCorrectedFits | src/renderer/io/texture_tga.cpp:241-243 | a span of 4w bytes holds the whole row and yields the saved row |
| TgaPixels.SaveAsWrittenLosesRows | src/renderer/io/texture_tga.cpp:236-265 | for a 1x2 texture the saver as written, which never advances its destination, keeps only the top texture row at the start and leaves the rest zero, while the corrected saver writes both rows bottom first |
| TgaPixels.LoadSavedPixel | src/renderer/io/texture_tga.cpp:168-174 | a pixel saved from RGBA and loaded back as a 32-bit file pixel is the original 4 bytes |
| TgaPixels.LoadSavedPixels | src/renderer/io/texture_tga.cpp:168-174 | a row saved from RGBA and loaded back is the original row |
| TgaPixels.SavedRowAt | src/renderer/io/texture_tga.cpp:239-243 | saved scanline j is the texture row h-1-j, read from the data offset plus that row times the stride |
| TgaPixels.LoadSavedRow | src/renderer/io/texture_tga.cpp:162-166 | loading back the saved file at scanline h-1-j gives texture row j |
| TgaPixels.LoadSavedRows | src/renderer/io/texture_tga.cpp:153-188 | loading the first k saved scanlines gives the last k rows of the texture |
| TgaPixels.SaveLoadRoundTrip | src/renderer/io/texture_tga.cpp:130-270 | a tightly packed RGBA texture saved as a 32-bit TGA and loaded back with the corrected loops is the original pixel data |
| TgaPixels.Spliced | src/renderer/io/texture_tga.cpp:164-165 | writing a piece into a buffer at an offset leaves everything before and after it unchanged |
| TgaPixels.PutPixel | src/renderer/io/texture_tga.cpp:170-173 | storing the 4 bytes of one pixel changes exactly those 4 bytes of the array |
| TgaPixels.StorePixel | src/renderer/io/texture_tga.cpp:169-183 | one pass of the pixel loop extends the repacked part of the destination row by one pixel |
| TgaPixels.RepackRow32 | src/renderer/io/texture_tga.cpp:168-175 | the 32-bit pixel loop writes exactly the repacked row into the destination span and nothing else |
| TgaPixels.RepackRow24 | src/renderer/io/texture_tga.cpp:176-183 | the 24-bit pixel loop writes exactly the repacked row with alpha 255 and nothing else |
| TgaPixels.RepackScanline | src/renderer/io/texture_tga.cpp:162-188 | one pass of the scanline loop writes file scanline y-1 into texture row h-y |
| TgaPixels.LoadedNext | src/renderer/io/texture_tga.cpp:162-188 | after scanline y the rows from h-y down hold their repacked scanlines and the rows above are still zero |
| TgaPixels.RepackLoaded | src/renderer/io/texture_tga.cpp:153-188 | the corrected in-place repacking loop fills a fresh array with exactly the loaded texture data |
| TgaPixels.StoreSavedPixel | src/renderer/io/texture_tga.cpp:248-262 | one pass of the save pixel loop extends the saved part of the scanline by one pixel |
| TgaPixels.SaveRowInto | src/renderer/io/texture_tga.cpp:246-264 | the save pixel loop writes exactly the saved row at the destination offset and nothing else |
| TgaPixels.SaveScanline | src/renderer/io/texture_tga.cpp:239-265 | one pass of the corrected row loop appends the next saved scanline and leaves the rest zero |
| TgaPixels.RepackSaved | src/renderer/io/texture_tga.cpp:236-265 | the corrected in-place save loop fills a fresh array with exactly the saved file data |
| TgaTexture.LoadableDepth | src/renderer/io/texture_tga.cpp:134-141 | a header the loader accepts has 8, 24 or 32 bits per pixel, a whole number of bytes |
| TgaTexture.LoadedDesc | src/renderer/io/texture_tga.cpp:190-194 | the loaded texture is 2D, of the header's width and height, one mip level, RGBA sRGB, with 4 bytes per pixel and one subresource covering all data with stride 4w |
| TgaTexture.LoadedFlipsRowsSize | src/renderer/io/texture_tga.cpp:153-158 | the raw pixel buffer holds all h scanlines, and the loaded data is h rows of 4w bytes |
| TgaTexture.LoadTgaSpec | src/renderer/io/texture_tga.cpp:130-195 | loading fails with an invalid format exactly when the header reads but is not a valid uncompressed RGB image of other than 16 bits per pixel, so 8, 24 and 32 bits load; an 8-bit image loads as all-zero rows, since the repacking switch has no case for it; on success the texture is 2D of the header's size, RGBA, one mip level and one subresource whose stride times height is the data size; intended row order, as written see Findings rows 4 and 7 |
| TgaTexture.LoadTextureTga | src/renderer/io/texture_tga.cpp:130-195 | `load_texture_tga` agrees with the value-level loader; intended behaviour, as written see Findings rows 4 and 7 |
| TgaTexture.SaveHeader | src/renderer/io/texture_tga.cpp:220-234 | the saved header is a 32-bit uncompressed RGB image of the texture's size without image id or colour map, which the loader accepts |
| TgaTexture.SavedData | src/renderer/io/texture_tga.cpp:236-265 | the saved pixel data is h rows of 4w bytes |
| TgaTexture.SavedSize | src/renderer/io/texture_tga.cpp:236-265 | the saved pixel data is h rows of 4w bytes for any row layout that fits the data |
| TgaTexture.SaveTgaSpec | src/renderer/io/texture_tga.cpp:197-270 | saving fails with an argument error, writing nothing, iff the texture is not 2D, has an array size, is not RGBA or BGRA, or exceeds 65535 in a dimension; an accepted texture saves iff the stream is writable; the saved pixel data is the intended one, as written see Findings rows 5 and 6 |
| TgaTexture.SaveTextureTga | src/renderer/io/texture_tga.cpp:197-270 | `save_texture_tga` agrees with the value-level saver; intended behaviour, as written see Findings rows 5 and 6 |
| TgaTexture.SaveAppends | src/renderer/io/texture_tga.cpp:220-270 | saving at the end of a stream appends the header and then the saved pixel data; intended behaviour, as written see Findings rows 5 and 6 |
| TgaTexture.LoadAt | src/renderer/io/texture_tga.cpp:130-195 | a header followed by its raw pixels loads as the texture those pixels describe and reads to the end; intended behaviour, as written see Findings rows 4 and 7 |
| TgaTexture.TgaRoundTrip | src/renderer/io/texture_tga.cpp:130-270 | a tightly packed 2D RGBA texture saved with the corrected loops and loaded back has the same data, size, format, dimension and stride; intended behaviour, as written see Findings rows 4 to 7 |
| TgaTexture.SaveRefusedWritesNothing | src/renderer/io/texture_tga.cpp:202-218 | a texture the saver refuses leaves the stream untouched |
| TgaTexture.LoadStrideAsWritten | src/renderer/io/texture_tga.cpp:190-191 | the stride as written is the file's bytes per scanline, which agrees with the repacked 4 bytes per pixel only for 32-bit images |
| TgaTexture.LoadStrideAsWrittenMismatch | src/renderer/io/texture_tga.cpp:190-191 | for a 1x1 24-bit image the stride as written is 3 while each row of loaded data is 4 bytes |
| ConanRecipe.DigitRunMeaning | conanfile.py:18 | the digit run at a position covers only digits and stops at the first non-digit or the end: the greedy `\d+` |
| ConanRecipe.HexRunMeaning | conanfile.py:78 | the hex run at a position covers only hex digits and stops at the first other character or the end: the greedy `[a-fA-F0-9]+` |
| ConanRecipe.TailEnd | conanfile.py:78 | the hash group, when it matches, is non-empty and ends inside the text |
| ConanRecipe.SecondRun | conanfile.py:18 | backtracking over the second digit group picks the longest length for which the rest of the pattern matches, and reports none exactly when no length fits |
| ConanRecipe.FirstRun | conanfile.py:18 | backtracking over the first two digit groups returns the greedy regex choice: the longest first group for which some second group fits, then the longest such second group, and none exactly when no split matches |
| ConanRecipe.TagStart | conanfile.py:18 | the optional `v` is consumed exactly when the tag starts with `v` |
| ConanRecipe.MatchTag | conanfile.py:18 | `re.match(r"v?(\d+.\d+.\d+)")` fails iff no split of the text after the optional `v` matches; a match is the group text right after it, at least 5 characters |
| ConanRecipe.ParseVersion | conanfile.py:76-86 | `_parse_version` returns nothing iff no split of the text matches `(\d+).(\d+).(\d+)\+([a-fA-F0-9]+)(\.dirty)?` at its start |
| ConanRecipe.ParsedCommitIsHex | conanfile.py:78-84 | the parsed commit is a non-empty string of hex digits |
| ConanRecipe.ShortHash | conanfile.py:16-26 | the short revision is the first 12 characters of the revision, or all of it when it is shorter |
| ConanRecipe.Recipe.constructor | conanfile.py:4-9 | a new recipe has no version yet |
| ConanRecipe.Recipe.SetVersion | conanfile.py:11-30 | `set_version` sets the version to the composed text: the tag's version or "0.0.0", then `+` and the short revision when the revision is known, then `.dirty` when the tree is known not to be pristine |
| ConanRecipe.BuildDefinitions | conanfile.py:53-67 | the build defines nothing when the version does not parse, and otherwise exactly the five KHEPRI_VERSION_* keys: MAJOR, MINOR and PATCH carry the parsed numbers, COMMIT the parsed commit text, and CLEAN is "true" iff the parsed version is clean and "false" otherwise |
| ConanRecipe.ComposeVersion | conanfile.py:11-30 | the version starts with the placeholder 0.0.0 when the tag lookup fails or the tag does not match, and ends with ".dirty" when a revision is known and the tree is not pristine |
| ConanRecipe.DigitRunExact | conanfile.py:18 | a run of n digits followed by a non-digit or the end has digit run n |
| ConanRecipe.HexRunExact | conanfile.py:78 | a run of n hex digits followed by another character or the end has hex run n |
| ConanRecipe.FirstSplit | conanfile.py:18 | when the longest digit runs already fit, backtracking picks them |
| ConanRecipe.TagAt | conanfile.py:18-20 | when the digit groups of a tag are maximal runs, the matched version is exactly those groups with their separators |
| ConanRecipe.VersionAt | conanfile.py:78-86 | when the digit groups and the hash of a version text are maximal runs, parsing returns exactly their values, and clean iff no `.dirty` follows |
| ConanRecipe.TagOfJoined | conanfile.py:17-20 | any tag made of an optional `v`, three digit groups joined by two non-digit separators and a tail not starting with a digit yields the joined groups as version |
| ConanRecipe.ParseVersionOf | conanfile.py:76-86 | any version text made of three digit groups, `+`, a hex hash, an optional `.dirty` and a tail that does not extend the hash parses to the groups' values, the hash and clean iff not dirty |
| ConanRecipe.SetVersionThenParse | conanfile.py:11-86 | a version composed by `set_version` from a tag `v?d1.d2.d3…` and a hex revision parses back to d1, d2, d3, the 12-character short revision and the pristine flag |
| ConanRecipe.BuildAfterSetVersion | conanfile.py:11-63 | `build` after `set_version` from a tag `v?d1.d2.d3…` and a hex revision defines exactly MAJOR d1, MINOR d2, PATCH d3, COMMIT the 12-character short revision and CLEAN "true" iff the tree was pristine |
| ConanRecipe.ComposeOfTag | conanfile.py:14-28 | with a matching tag, a revision and a pristine answer, the version is the tag's version, `+`, the short revision and `.dirty` iff not pristine |
| ConanRecipe.DefaultVersionParses | conanfile.py:14-28 | without a usable tag the default "0.0.0" with a hex revision parses as version 0.0.0 with that short revision |
| ConanRecipe.TagSeparatorsLoose | conanfile.py:18 | the tag pattern's unescaped dots accept any separator: "v1-2_3" gives version "1-2_3" |
| ConanRecipe.TagAnchoredAtStart | conanfile.py:18 | `re.match` anchors at the start: "release-1.2.3" gives no version |
| ConanRecipe.VersionPatternLoose | conanfile.py:78 | the version pattern is not anchored at the end and its dots accept any separator: "1-2-3+abcXYZ" parses as 1.2.3 with commit "abc", clean |
| VersionInfos.CommitId | src/version_info.cpp:7-10 | the commit id is the build commit followed by "-dirty" exactly when the version is not clean |
| VersionInfos.ToString | src/version_info.cpp:5-13 | the text is the version string, " (commit ", the build commit (and its dirty suffix) and a closing parenthesis |
| VersionInfos.DirtyOnlyAddsSuffix | src/version_info.cpp:8-12 | a dirty version's text is the clean text with "-dirty" inserted before the closing parenthesis |
| VersionInfos.ToStringDeterminesParts | src/version_info.cpp:5-13 | two infos whose version strings have the same length and whose texts agree have the same version string and commit id |
| VersionInfos.ToStringExample | src/version_info.cpp:5-13 | version 1.2.3 at commit abc reads "1.2.3 (commit abc)", and "1.2.3 (commit abc-dirty)" when not clean |
| Bits.CeilIsPowerOfTwo | include/khepri/math/bits.hpp:47-65 | for every value from 1 to 2^31 the bit-smearing result is a power of two at least the value, and half of it is below the value |
| Bits.CeilPowerOfTwo | include/khepri/math/bits.hpp:47-65 | the 32-bit result is 0 exactly for 0 and for values above 2^31, and otherwise a power of two at least the value |
| Bits.CeilIsLeast | include/khepri/math/bits.hpp:47-65 | the result is the least power of two at or above the value |
| Bits.CeilOfPowerOfTwo | include/khepri/math/bits.hpp:47-65 | a power of two is returned unchanged |
| Bits.CeilMonotone | include/khepri/math/bits.hpp:47-65 | rounding up to a power of two preserves order |
| Bits.CeilWraps | include/khepri/math/bits.hpp:47-65 | 0 and every value above 2^31 wrap around to 0, which is not a power of two |
| Bits.PopCount | include/khepri/math/bits.hpp:11-45 | a value of `width` bits has at most `width` set bits |
| Bits.Bitcount16 | include/khepri/math/bits.hpp:11-21 | the 16-bit bit count is the number of set bits, at most 16 |
| Bits.Bitcount32 | include/khepri/math/bits.hpp:23-33 | the 32-bit bit count is the number of set bits, at most 32 |
| Bits.Bitcount64 | include/khepri/math/bits.hpp:35-45 | the 64-bit bit count is the number of set bits, at most 64 |
| Bits.PopCountComplement | include/khepri/math/bits.hpp:11-45 | a value and its complement have `width` set bits between them |
| Bits.PopCountPow2 | include/khepri/math/bits.hpp:11-45 | a power of two has exactly one set bit |
| Bits.PopCountZero | include/khepri/math/bits.hpp:11-45 | zero has no set bits |
| Bits.PopCountLowBits | include/khepri/math/bits.hpp:11-45 | only the low `width` bits are counted |
| MathUtil.Clamp | include/khepri/math/math.hpp:22-27 | `clamp` returns min when val <= min, otherwise max when val >= max, otherwise val |
| MathUtil.Saturate | include/khepri/math/math.hpp:40-45 | `saturate` lies in [0, 1], returning values inside unchanged and 0 or 1 for values outside |
| MathUtil.ToRadians | include/khepri/math/math.hpp:48-54 | 180 degrees is PI radians |
| MathUtil.ToDegrees | include/khepri/math/math.hpp:57-63 | PI radians is 180 degrees |
| MathUtil.ClampInRange | include/khepri/math/math.hpp:22-27 | for min <= max the result lies in [min, max] and a value inside is returned unchanged |
| MathUtil.ClampIdempotent | include/khepri/math/math.hpp:22-27 | clamping twice is clamping once |
| MathUtil.ClampMonotone | include/khepri/math/math.hpp:22-27 | clamping preserves order |
| MathUtil.DegreesRoundTrip | include/khepri/math/math.hpp:48-63 | converting degrees to radians and back gives the degrees again, in exact arithmetic |
| MathUtil.RadiansRoundTrip | include/khepri/math/math.hpp:48-63 | converting radians to degrees and back gives the radians again, in exact arithmetic |
| EnumFlags.FlagsVar.constructor | include/khepri/utility/enum.hpp:32-48 | a flags variable holds the value it was given |
| EnumFlags.UnionAssign | include/khepri/utility/enum.hpp:32-36 | `|=` stores the union in its left operand and returns that same variable |
| EnumFlags.IntersectionAssign | include/khepri/utility/enum.hpp:38-42 | `&=` stores the intersection in its left operand and returns that same variable |
| EnumFlags.SymmetricDifferenceAssign | include/khepri/utility/enum.hpp:44-48 | `^=` stores the symmetric difference in its left operand and returns that same variable |
| EnumFlags.BitsDetermine | include/khepri/utility/enum.hpp:5-30 | two flag values with the same single bits set are equal |
| EnumFlags.LowestDifferingBit | include/khepri/utility/enum.hpp:5-30 | two different flag values differ in some single bit |
| EnumFlags.ComplementBits | include/khepri/utility/enum.hpp:5-9 | `~` sets exactly the bits that were clear |
| EnumFlags.UnionBits | include/khepri/utility/enum.hpp:11-16 | `|` sets a bit iff either operand has it |
| EnumFlags.IntersectionBits | include/khepri/utility/enum.hpp:18-23 | `&` sets a bit iff both operands have it |
| EnumFlags.SymmetricDifferenceBits | include/khepri/utility/enum.hpp:25-30 | `^` sets a bit iff exactly one operand has it |
| EnumFlags.Idempotent | include/khepri/utility/enum.hpp:11-23 | a value united or intersected with itself is unchanged |
| EnumFlags.SymmetricDifferenceInvolutive | include/khepri/utility/enum.hpp:25-30 | applying `^` with the same value twice restores the original |
| EnumFlags.ComplementInvolutive | include/khepri/utility/enum.hpp:5-9 | complementing twice restores the original |
| EnumFlags.Complement | include/khepri/utility/enum.hpp:5-9 | `~a` shares no bit with a, and together they set every bit of the 32-bit underlying value |
| EnumFlags.Union | include/khepri/utility/enum.hpp:11-16 | `a \| b` contains every bit of a and every bit of b |
| EnumFlags.Intersection | include/khepri/utility/enum.hpp:18-23 | `a & b` contains only bits of a and only bits of b |
| EnumFlags.SymmetricDifference | include/khepri/utility/enum.hpp:25-30 | `a ^ b` combined again with b gives a, and with a gives b |
| Functional.Pluck | include/khepri/utility/functional.hpp:19-28 | the result has one element per item of the collection, the chosen member of that item, in order |
| Strings.ToUpper | src/utility/string.cpp:15-21 | `toupper` in the classic locale moves exactly the letters a to z down by 32 and leaves every other character unchanged |
| Strings.ToLower | src/utility/string.cpp:39-41 | `tolower` in the classic locale moves exactly the letters A to Z up by 32 and leaves every other character unchanged |
| Strings.Uppercase | src/utility/string.cpp:15-21 | `uppercase` has the input's length and upper-cases each character in place |
| Strings.FindFirstNotOf | src/utility/string.cpp:27 | the first position from `from` whose character is not in the set, with every character before it in the set; none when all are |
| Strings.FindFirstOf | src/utility/string.cpp:55 | the first position from `from` whose character is in the set, with no character before it in the set; none when there is none |
| Strings.FindLastNotOf | src/utility/string.cpp:31 | the last position before `upto` whose character is not in the set, with every character after it in the set |
| Strings.Trim | src/utility/string.cpp:23-34 | `trim` of an all-whitespace string is empty; otherwise it is the slice left after removing only whitespace from both ends, and it starts and ends with non-whitespace |
| Strings.CaseInsensitiveEquals | src/utility/string.cpp:36-42 | the strings are equal ignoring case iff they have the same length and their lower-cased characters agree at every position |
| Strings.CaseInsensitiveLess | include/khepri/utility/string.hpp:52-72 | a string ordered before another is not equal to it ignoring case, and the other is not empty |
| Strings.Fold | include/khepri/utility/string.hpp:64-68 | the lower-cased string has the same length and lower-cases each character |
| Strings.Tokenizer.constructor | src/utility/string.cpp:44-46 | a new tokenizer starts at the first character that is not a delimiter |
| Strings.Tokenizer.Next | src/utility/string.cpp:48-60 | with no next position `next` returns nothing and stays exhausted; otherwise it returns the maximal run of non-delimiters from the next position and moves on to the first non-delimiter after it |
| Strings.UppercaseIdempotent | src/utility/string.cpp:15-21 | upper-casing twice is upper-casing once |
| Strings.TrimIdempotent | src/utility/string.cpp:23-34 | trimming twice is trimming once |
| Strings.CaseInsensitiveEqualsIsEquivalence | src/utility/string.cpp:36-42 | equality ignoring case is reflexive, symmetric and transitive |
| Strings.UppercaseEqualsIgnoringCase | src/utility/string.cpp:15-42 | a string and its upper-cased form are equal ignoring case |
| Strings.LessIrreflexive | include/khepri/utility/string.hpp:52-72 | no string is case-insensitively less than itself |
| Strings.LessTransitive | include/khepri/utility/string.hpp:52-72 | the case-insensitive order is transitive, as a map comparator must be |
| Strings.LessEquivalence | include/khepri/utility/string.hpp:47-76 | two strings are equivalent under the case-insensitive order iff they are equal ignoring case, so the cache map and `case_insensitive_equals` agree on keys |
| Strings.PrefixLess | include/khepri/utility/string.hpp:70-71 | a proper prefix is less than the longer string |
| Strings.EquivalentIffSameFold | include/khepri/utility/string.hpp:47-76 | two strings are equivalent under the case-insensitive order iff their lower-cased forms are equal |
| Cache.GetSpec | include/khepri/utility/cache.hpp:59-70 | a cached id (ignoring case) returns its item and changes nothing; an uncached id whose load fails returns nothing and caches nothing; otherwise the loaded item is returned and cached under the id |
| Cache.OwningCache.constructor | include/khepri/utility/cache.hpp:37 | a new cache holds the loader and no items |
| Cache.OwningCache.Get | include/khepri/utility/cache.hpp:59-70 | `get` changes the items and returns as the specification says, and calls the loader exactly when the id is not cached |
| Cache.OwningCache.AsLoader | include/khepri/utility/cache.hpp:42-45 | the loader view of a cache behaves exactly like `get` |
| Cache.OwningCache.Clear | include/khepri/utility/cache.hpp:77-80 | `clear` empties the cache |
| Cache.GetAgainHits | include/khepri/utility/cache.hpp:59-70 | after a successful get, getting any id equal to it ignoring case returns the same item without loading |
| Cache.FailedLoadCachesNothing | include/khepri/utility/cache.hpp:63-66 | a failed load leaves the id uncached and returns nothing |
| Cache.GetKeepsItems | include/khepri/utility/cache.hpp:59-70 | `get` never drops or replaces a cached item |
| FontCache.Font.constructor | src/font/font_cache.cpp:38 | a font created by a face carries the options it was created for |
| FontCache.FaceCache.constructor | src/font/font_cache.cpp:30 | a new face cache holds its face and no fonts |
| FontCache.FaceCache.Get | src/font/font_cache.cpp:32-41 | fonts for options already seen are returned as cached and nothing changes; for new options a fresh font with those options is created, returned and cached, and no other entry changes |
| FontCache.FaceCache.Clear | src/font/font_cache.cpp:43-46 | `clear` forgets every font |
| FontCache.FontCache.constructor | src/font/font_cache.cpp:54 | a new font cache has no faces |
| FontCache.FontCache.AddFace | src/font/font_cache.cpp:57-64 | adding a face whose name is already taken, ignoring case, is an argument error and changes nothing; otherwise a fresh face cache with no fonts is added under the name and no other face changes |
| FontCache.FontCache.Get | src/font/font_cache.cpp:66-73 | an unknown face name gives no font; a known one gives the face cache's cached font for the options, or a fresh font with those options that is then cached |
| FontCache.FontCache.Clear | src/font/font_cache.cpp:75-80 | `clear` keeps every face and empties every face's fonts |
| FontCache.FontCache.ClearAsDocumented | include/khepri/font/font_cache.hpp:57-63 | `clear` as documented: no face is left, so no font of the cache stays reachable |
| FontCache.ReAddAfterClear | include/khepri/font/font_cache.hpp:57-63 | after `clear` as written, adding a face under the same name is an argument error; after the documented `clear` it succeeds |
| FontCache.ColorLessStrictTotal | src/font/font_cache.cpp:10-13 | the colour order is irreflexive, transitive and total, so colours neither of which is less are equal |
| FontCache.OptionsLessStrictTotal | src/font/font_cache.cpp:17-25 | the options order is irreflexive, transitive and total, so the font map keeps exactly one font per distinct options |
| Signals.ConnectionImpl.constructor | include/khepri/utility/signal.hpp:53-66 | a new connection holds its slot and starts connected |
| Signals.ConnectionImpl.InvokeSlot | include/khepri/utility/signal.hpp:68-75 | the slot is invoked exactly when the connection is connected, and the result says whether it was |
| Signals.Live | include/khepri/utility/signal.hpp:250-254 | the surviving connections are never more than the connections |
| Signals.Slots | include/khepri/utility/signal.hpp:253 | the invoked slots are the connections' slots, one per connection, in order |
| Signals.Emitted | include/khepri/utility/signal.hpp:68-75 | the outcome of `remove_if` with `invoke_slot` as its test: only connections among those reached are kept, one invoked slot per kept connection and in the same order, and the connected set only shrinks |
| Signals.Signal.constructor | include/khepri/utility/signal.hpp:258 | a new signal has no connections |
| Signals.Signal.Connect | include/khepri/utility/signal.hpp:237-242 | `connect` appends a fresh connected connection for the slot and returns a handle that refers to it |
| Signals.Signal.Emit | include/khepri/utility/signal.hpp:247-255 | emitting reaches every connection once, in order, invokes its slot iff it is connected at that moment, keeps exactly the connections whose slot was invoked, and leaves connected exactly those not cut before or during the emission; without cuts during the emission it invokes and keeps exactly the connections connected when it began |
| Signals.Signal.Destroy | include/khepri/utility/signal.hpp:257-259 | destroying a signal releases all its connections, so every one of them reads as cut from then on |
| Signals.Connection.constructor | include/khepri/utility/signal.hpp:98 | a default handle refers to no connection |
| Signals.Connection.Of | include/khepri/utility/signal.hpp:129 | a handle made by a signal refers to its connection |
| Signals.Connection.Connected | include/khepri/utility/signal.hpp:120-126 | a handle is connected iff it refers to a connection that is still connected |
| Signals.Connection.Disconnect | include/khepri/utility/signal.hpp:108-114 | `disconnect` cuts the referenced connection, if any, and leaves the handle empty |
| Signals.ScopedConnection.constructor | include/khepri/utility/signal.hpp:141 | a default scoped handle refers to no connection |
| Signals.ScopedConnection.FromConnection | include/khepri/utility/signal.hpp:144 | a scoped handle built from a handle refers to the same connection |
| Signals.ScopedConnection.MoveFrom | include/khepri/utility/signal.hpp:153-159 | moving a handle into a scoped handle takes its connection and leaves the source empty |
| Signals.ScopedConnection.Destroy | include/khepri/utility/signal.hpp:165-168 | destroying a scoped handle cuts its connection, if any |
| Signals.ScopedConnection.AssignAsWritten | include/khepri/utility/signal.hpp:176-180 | as written, copy assignment cuts the old connection and refers to the new one, but returns no reference |
| Signals.ScopedConnection.Assign | include/khepri/utility/signal.hpp:176-180 | copy assignment always cuts the old connection first, refers to the handle's connection and returns a reference to itself |
| Signals.ScopedConnection.MoveAssignAsWritten | include/khepri/utility/signal.hpp:200-204 | as written, move assignment from a handle always cuts the old connection first, even when it is the one taken over, takes the handle's connection and leaves the handle empty, but returns no reference |
| Signals.ScopedConnection.MoveAssign | include/khepri/utility/signal.hpp:200-204 | move assignment from a handle always cuts the old connection first, takes the handle's connection, leaves the handle empty and returns a reference to itself |
| Signals.ScopedConnection.MoveAssignScopedAsWritten | include/khepri/utility/signal.hpp:188-192 | as written, move assignment from a scoped handle always cuts the old connection and leaves the source empty; another handle's connection is taken over, while a handle moved into itself ends up empty with its connection cut; no reference is returned |
| Signals.ScopedConnection.MoveAssignScoped | include/khepri/utility/signal.hpp:188-192 | the same move assignment from a scoped handle, self-move included, returning a reference to itself |
| Signals.ScopedConnection.Release | include/khepri/utility/signal.hpp:207-212 | `release` hands the connection to a fresh plain handle and leaves the scoped handle empty, so destroying it cuts nothing |
| Signals.LiveAppend | include/khepri/utility/signal.hpp:237-255 | a connection appended by `connect` survives the next emission exactly when it is still connected then |
| Signals.LiveMembers | include/khepri/utility/signal.hpp:250-254 | the connections an emission keeps are exactly the connected ones among them |
| Signals.CutNotInvoked | include/khepri/utility/signal.hpp:100-114 | a connection cut before an emission does not survive it, so its slot no longer receives events |
| Signals.LiveIdempotent | include/khepri/utility/signal.hpp:247-255 | a second emission with no disconnection in between keeps every connection the first kept |
| Signals.LiveIsSubsequence | include/khepri/utility/signal.hpp:250-254 | the surviving connections keep their relative order |
| Signals.EmittedWithoutCuts | include/khepri/utility/signal.hpp:247-255 | when no slot disconnects anything, an emission keeps and invokes exactly the connections that were connected |
| Signals.EmittedLiveShrinks | include/khepri/utility/signal.hpp:68-75 | as an emission proceeds, the set of connected connections never grows |
| Signals.CutEarlierSkipped | include/khepri/utility/signal.hpp:68-75 | a connection cut by a slot invoked earlier in the same emission is skipped when reached: its slot is not invoked and it is not kept |
| Signals.SelfCutKeptOnce | include/khepri/utility/signal.hpp:68-75 | a connection whose own slot cuts it is still kept by that emission, because it passed the test before its slot ran, and is no longer connected afterwards |
| Signals.AssignAsWrittenReturnsNothing | include/khepri/utility/signal.hpp:176-204 | none of the three assignment operators as written returns the reference to itself it promises |
| Signals.HandleExpiresWithSignal | include/khepri/utility/signal.hpp:82-126 | a handle on a connection reports it connected until the signal is destroyed, and not connected afterwards |
| FontFace.AddAlpha | src/font/font_face_state.cpp:74-75 | adding alphas gives at least the destination and at most the sum, and exactly the sum unless that saturates at 255 |
| FontFace.FindDarkestAbove | src/font/font_face_state.cpp:114-127 | near the top edge the answer is dark (0); otherwise it is the darkest of the `distance` pixels directly above |
| FontFace.FindDarkestBelowAsWritten | src/font/font_face_state.cpp:129-143 | as written, the guard `y >= height - distance` is taken modulo 2^32: when it holds the answer is 0, and when it fails for a row near the bottom of a bitmap lower than the distance, the search reads past the bitmap |
| FontFace.FindDarkestBelow | src/font/font_face_state.cpp:129-143 | with the guard written as `y + distance >= height`, near the bottom edge the answer is dark (0), otherwise the darkest of the `distance` pixels directly below |
| FontFace.DarkestBelowLoop | src/font/font_face_state.cpp:138-142 | the search loop finds the darkest of the pixels in rows y + 1 to y + distance |
| FontFace.MinAboveIsMinimum | src/font/font_face_state.cpp:122-126 | the darkest pixel above is no brighter than any of them and is one of them |
| FontFace.MinBelowIsMinimum | src/font/font_face_state.cpp:138-142 | the darkest pixel below is no brighter than any of them and is one of them |
| FontFace.DarkestBelowAsWrittenOverruns | src/font/font_face_state.cpp:133 | for a one-row bitmap and the emboss radius 2, the guard as written lets row 0 through to an out-of-range read, where the intended guard answers dark |
| FontFace.BlendBitmapAlpha | src/font/font_face_state.cpp:64-78 | every pixel of the area gets the source value added to its alpha, saturating at 255; its colour bytes and every byte outside the area are unchanged |
| FontFace.BlendAlphaRow | src/font/font_face_state.cpp:69-76 | one row of `blend_bitmap_alpha` moves the buffer from "rows above y done" to "rows up to y done" |
| FontFace.AlphaStep | src/font/font_face_state.cpp:70-75 | one step of the inner loop changes only that pixel's alpha byte, to the saturated sum |
| FontFace.BlendBitmap | src/font/font_face_state.cpp:148-210 | every pixel whose source value is 0 is unchanged; every other pixel of the area gets the shaded colour, computed from its row, the source value, its alpha and the emboss edges, and its alpha plus the source value, saturating; bytes outside the area are unchanged; intended behaviour over the corrected `find_darkest_below`, as written see Findings row 11 |
| FontFace.BlendRow | src/font/font_face_state.cpp:159-209 | one row of `blend_bitmap`, with its running destination and source offsets, moves the buffer from "rows above y done" to "rows up to y done" |
| FontFace.BlendPixel | src/font/font_face_state.cpp:169-207 | the inner-loop body for one pixel moves the buffer from "reached pixel x" to "reached pixel x + 1" |
| FontFace.Painted | src/font/font_face_state.cpp:201-206 | storing a pixel writes its colour and alpha into its four bytes and leaves every other byte as it was |
| FontFace.PixelWritten | src/font/font_face_state.cpp:170-207 | storing pixel (x, y) as the inner loop does is exactly the step from "reached (x, y)" to "reached (x + 1, y)" |
| FontFace.EdgeBounds | src/font/font_face_state.cpp:173-185 | whenever the emboss searches above or below a pixel of a fitting bitmap, every row it reads lies inside the bitmap |
| FontFace.LibraryState.constructor | src/font/font_face_state.cpp:316-318 | the shared library starts with no holders and uninitialised |
| FontFace.LibraryState.Acquire | src/font/font_face_state.cpp:288-299 | the first holder initialises the library, and a failed initialisation is a font error that changes nothing; otherwise the count goes up by one (modulo 2^32) and the library stays initialised |
| FontFace.LibraryState.Release | src/font/font_face_state.cpp:301-307 | the count goes down by one (modulo 2^32) and the library is finalised exactly when it reaches 0 |
| FontFace.TwoFacesShareLibrary | src/font/font_face_state.cpp:288-307 | with two faces the library stays initialised after the first is released and is finalised, with no holders left, after the second |
| FontFace.TextureExtentFits | src/font/font_face_state.cpp:381-382 | the texture extent is a power of two, leaves one pixel of border on each side of the text, and is less than twice the text extent plus the border |
| FontFace.TextureExtentExact | src/font/font_face_state.cpp:381-382 | text whose extent plus the border is already a power of two gets exactly that extent |
| FontFace.TextureExtent | src/font/font_face_state.cpp:381-383 | for text up to 2^31 - 2 pixels the extent is a power of two that leaves a pixel of border on each side |
| Interpolators.CheckSorted | src/math/interpolator.cpp:12-23 | `check_sorted` accepts exactly the non-empty point lists whose x values each exceed their predecessor's, and rejects all others with an argument error |
| Interpolators.UpperBound | src/math/interpolator.cpp:38-39 | the upper bound splits sorted points into those at or left of x and those right of x |
| Interpolators.FindIndex | src/math/interpolator.cpp:32-50 | for x at or right of the first point the index is the point that brackets x (at or left of it, with the next point right of it); left of the range it is the first point |
| Interpolators.ClampToRange | src/math/interpolator.cpp:61 | the clamped input lies in the x range of the points, equals the input inside it and the nearer end outside it |
| Interpolators.StepInterpolator.Interpolate | src/math/interpolator.cpp:59-65 | the step interpolator returns the y of the point that brackets the clamped input, so the first y left of the range and the last y right of it |
| Interpolators.NewStepInterpolator | src/math/interpolator.cpp:53-57 | construction succeeds with the given points exactly when `check_sorted` accepts them, and is an argument error otherwise |
| Interpolators.LinearInterpolator.Interpolate | src/math/interpolator.cpp:73-92 | with i the point bracketing the clamped input, the result is point i's y when i is the last point or the input is within 10^-8 of it, and otherwise the straight line from point i to point i + 1, lying between their y values; at every control point it returns that point's y, and the end values outside the range |
| Interpolators.NewLinearInterpolator | src/math/interpolator.cpp:67-71 | construction succeeds with the given points exactly when `check_sorted` accepts them, and is an argument error otherwise |
| Interpolators.AdjacentIffIncreasing | src/math/interpolator.cpp:18-22 | checking neighbouring points is the same as the x values strictly increasing throughout |
| Interpolators.AdjacentChain | src/math/interpolator.cpp:18-22 | points that pass the neighbour check have every earlier x below every later x |
| Interpolators.BracketUnique | src/math/interpolator.cpp:47-49 | at most one point brackets any given x |
| Interpolators.LerpBetween | src/math/interpolator.cpp:86-91 | the line passes through both points and stays between their y values in between |
| Interpolators.Lerp | src/math/interpolator.cpp:86-91 | the line from point a to point b gives a's y at a's x and b's y at b's x |
| Interpolators.ScaleBetween | src/math/interpolator.cpp:90-91 | a fraction in [0, 1] of a difference lies between 0 and that difference |
| Interpolators.SinglePointConstant | src/math/interpolator.cpp:59-92 | with one point every input clamps to it and is bracketed by it, so both interpolators return its y everywhere |
| Polynomials.Sample | include/khepri/math/polynomial.hpp:30-38 | Horner's loop returns the value of the polynomial at x, the sum of its coefficients times the powers of x |
| Polynomials.Derivative | include/khepri/math/polynomial.hpp:47-59 | the derivative method computes the derived coefficients |
| Polynomials.Derived | include/khepri/math/polynomial.hpp:47-59 | a constant's derivative is the zero constant; otherwise the derivative is one degree lower and its coefficient i - 1 is i times coefficient i |
| Polynomials.TailSum | include/khepri/math/polynomial.hpp:30-38 | the terms from i on complete the partial sum below i to the polynomial's value |
| Polynomials.HornerTail | include/khepri/math/polynomial.hpp:33-36 | Horner's nesting from coefficient i on, times x^i, is the sum of the terms from i on |
| Polynomials.HornerIsValue | include/khepri/math/polynomial.hpp:30-38 | Horner's rule computes the polynomial's value |
| Polynomials.ConstantSample | include/khepri/math/polynomial.hpp:30-38 | a degree-0 polynomial takes its constant coefficient at every x |
| Polynomials.DerivedDegree | include/khepri/math/polynomial.hpp:47 | each derivation lowers the degree by one, down to the zero constant |
| Polynomials.ZeroStaysZero | include/khepri/math/polynomial.hpp:49-51 | the zero constant derives to itself |
| Polynomials.CubicExample | include/khepri/math/polynomial.hpp:30-59 | the cubic 1 + 2x + 3x^2 + 4x^3 samples 1, 10 and 4321 at 0, 1 and 10, its derivative is 2 + 6x + 12x^2, and its fourth derivative is zero |
| Matrices.WithComponent | include/khepri/math/matrix.hpp:89-92 | assigning a vector component changes that component and no other |
| Matrices.SetAt | include/khepri/math/matrix.hpp:89-92 | assigning entry (row, col) through `operator()` changes that entry and no other |
| Matrices.FromRows | include/khepri/math/matrix.hpp:36-45 | the sixteen-argument constructor is row-major: entry (r, c) is argument 4r + c, although the storage is by columns |
| Matrices.Get | include/khepri/math/matrix.hpp:80-92 | `operator()` is an out-of-range error exactly when the column is past 3, and otherwise reads entry (row, col) |
| Matrices.Transposed | include/khepri/math/matrix.hpp:117-125 | the transpose has entry (c, r) of the matrix at (r, c) |
| Matrices.Mul | src/math/matrix.cpp:10-32 | entry (i, j) of a product is the sum over k of entry (i, k) of the left matrix times entry (k, j) of the right, that is row i dotted with column j |
| Matrices.CreateTranslation | include/khepri/math/matrix.hpp:278-281 | `create_translation` puts the translation in the first three entries of row 3 and is the identity elsewhere |
| Matrices.GetTranslation | include/khepri/math/matrix.hpp:208-212 | the translation is the first three entries of row 3 |
| Matrices.RotationBlock | include/khepri/math/matrix.hpp:245-263 | the rotation of a quaternion has a nine-entry 3x3 block |
| Matrices.RotationMatrix | include/khepri/math/matrix.hpp:245-263 | the rotation matrix carries the block row by row, zeros in row 3 and column 3 off the corner, and 1 in the corner |
| Matrices.CreateRotation | src/math/matrix.cpp:71-78 | a rotation matrix has no translation, zeros in column 3 above a corner of 1, and the identity quaternion gives the identity matrix |
| Matrices.Transpose | include/khepri/math/matrix.hpp:117-125 | the member `transpose` swaps every off-diagonal pair in place, so the matrix becomes its transpose |
| Matrices.TransposeCopyAsWritten | include/khepri/math/matrix.hpp:417-428 | as written, the free `transpose` gives the transposed entry off the diagonal and zero on the diagonal |
| Matrices.TransposeCopy | include/khepri/math/matrix.hpp:417-428 | the free `transpose` with the diagonal copied as well returns the transpose |
| Matrices.TransposeCopyAsWrittenLosesDiagonal | src/math/matrix.cpp:107-117 | the free `transpose` as written does not return the transpose of the identity |
| Matrices.SetTranslation | include/khepri/math/matrix.hpp:215-220 | after `set_translation(v)` the translation is v and the other thirteen entries are unchanged |
| Matrices.MulAssign | include/khepri/math/matrix.hpp:59-62 | `*=` replaces the matrix by its product with the argument |
| Matrices.Product | include/khepri/math/matrix.hpp:374-383 | the loop that sets one entry at a time computes the product |
| Matrices.ScaleRow | include/khepri/math/matrix.hpp:237-239 | scaling row i multiplies its first three entries by the factor and changes nothing else |
| Matrices.BuildSrt | include/khepri/math/matrix.hpp:226-242 | building from a positive scale, a rotation and a translation gives the scale-rotation-translation matrix |
| Matrices.ScaleRotation | include/khepri/math/matrix.hpp:236-240 | the scaling loop turns the rotation with the translation set into the scale-rotation-translation matrix |
| Matrices.ScaleRowStep | include/khepri/math/matrix.hpp:236-240 | one pass of the scaling loop extends the rows scaled so far by one |
| Matrices.ScaledAll | include/khepri/math/matrix.hpp:236-241 | with all three rows scaled the matrix is the scale-rotation-translation matrix |
| Matrices.Ext | include/khepri/math/matrix.hpp:82-92 | two matrices with the same sixteen entries are equal |
| Matrices.SrtEntry | src/math/matrix.cpp:80-94 | entry (r, c) with r < 3 of the scale-rotation-translation matrix is the rotation's entry scaled by scale component r in the 3x3 block, and unscaled in column 3 |
| Matrices.SrtRow3 | src/math/matrix.cpp:80-94 | row 3 of the scale-rotation-translation matrix is the translation followed by 1 |
| Matrices.CreateSrt | src/math/matrix.cpp:80-94 | for a positive scale, row i of the 3x3 block is row i of the rotation scaled by scale component i, the translation is t, and column 3 is zero above a corner of 1 |
| Matrices.RowColLayout | include/khepri/math/matrix.hpp:96-106 | `row(r)[c] == m(r, c) == col(c)[r]` |
| Matrices.TransposeInvolution | include/khepri/math/matrix.hpp:117-125 | transposing twice gives the original matrix |
| Matrices.IdentityEntries | include/khepri/math/matrix.hpp:347 | the identity has 1 on the diagonal and 0 elsewhere |
| Matrices.IdentityLeftUnit | include/khepri/math/matrix.hpp:374-383 | the identity is a left unit of the product |
| Matrices.IdentityRightUnit | include/khepri/math/matrix.hpp:374-383 | the identity is a right unit of the product |
| Matrices.TranslationRoundTrip | include/khepri/math/matrix.hpp:209-212 | the translation read back from `create_translation(t)` is t |
| Matrices.TransformIgnoresRow3AndCol3 | src/math/matrix.cpp:58-63 | transforming a three-vector depends only on the 3x3 block of the matrix |
| Matrices.TransformVector | src/math/matrix.cpp:58-63 | component j of the transformed vector is the vector, extended with 0, dotted with column j |
| Matrices.TranslationKeepsDirections | src/math/matrix.cpp:58-63 | a translation matrix leaves every three-vector unchanged |
| Rects.Truncate | include/khepri/math/rect.hpp:36-37 | the conversion to `unsigned long` of a non-negative value is the integer at or below it, within 1 |
| Rects.InsideIsHalfOpenBox | include/khepri/math/rect.hpp:34-38 | a point is inside iff it lies in the half-open box from (x, y) to (x + width, y + height) |
| Rects.Inside | include/khepri/math/rect.hpp:34-38 | a point inside the rectangle lies at or right of and below its top-left corner, and left of and above its far edges |
| Rects.TruncateBelow | include/khepri/math/rect.hpp:36-37 | the truncated offset is below a bound iff the offset itself is |
| Rects.EdgesExclusive | include/khepri/math/rect.hpp:31-32 | the right and bottom edges are outside the rectangle |
| Rects.EmptyContainsNothing | include/khepri/math/rect.hpp:34-38 | a rectangle with no width or no height contains no point |
| Rects.CornerInside | include/khepri/math/rect.hpp:34-38 | the top-left corner is inside whenever the rectangle is not empty |
| Collision.TriangleDistance | src/physics/collision_mesh.cpp:12-54 | the per-triangle test answers -1 or a distance that is not negative, and answers -1 whenever the determinant is below 10^-5 (a back-facing or parallel triangle) |
| Collision.IntersectDistance | src/physics/collision_mesh.cpp:63-82 | the result is -1 iff no triangle is hit; otherwise it is not negative, no larger than any hit distance, and is one of them unless capped at the largest double |
| Collision.Intersect | src/physics/collision_mesh.cpp:84-89 | a mesh intersects a frustum iff every vertex is inside it, so a mesh without vertices always does |
| Collision.ComputeBoundingSphere | src/renderer/model.cpp:8-26 | the bounding sphere is centred at the origin with a non-negative radius that every vertex of every mesh lies within, and that some vertex reaches unless it is 0 |
| Collision.CreateCollisionMesh | src/renderer/model.cpp:107-121 | a model without meshes gets an empty collision mesh; otherwise the collision mesh holds the positions of the first mesh's vertices, in order, and its indices, and is a valid mesh when those indices form whole triangles and name its vertices |
| Collision.PartlyInsideIsNoIntersection | src/physics/collision_mesh.cpp:84-89 | a mesh with one vertex inside the frustum and one outside does not intersect it |
| Collision.TriangleDistanceIsDistanceTest | src/physics/collision_mesh.cpp:12-27 | Möller-Trumbore is a valid per-triangle test, and the mesh test misses every triangle whose determinant is too small |
| Scenes.SceneObject.constructor | include/khepri/scene/scene_object.hpp:164-167 | a new object sits at the origin with unit scale, the identity rotation and the identity transform, with no behaviours and no user data, and its transform agrees with its fields |
| Scenes.SceneObject.SetPosition | include/khepri/scene/scene_object.hpp:61-65 | setting the position changes only the position and the transform, which is rebuilt from the fields |
| Scenes.SceneObject.SetScale | include/khepri/scene/scene_object.hpp:69-73 | setting a positive scale changes only the scale and the transform, which is rebuilt from the fields |
| Scenes.SceneObject.SetRotation | include/khepri/scene/scene_object.hpp:77-81 | setting the rotation changes only the rotation and the transform, which is rebuilt from the fields |
| Scenes.SceneObject.UpdateTransform | include/khepri/scene/scene_object.hpp:149-153 | the transform becomes the scale-rotation-translation matrix of the scale, rotation and position, and nothing else changes |
| Scenes.SceneObject.GetBehavior | src/scene/scene_object.cpp:5-15 | the lookup is null iff no behaviour is registered for the type, and otherwise the registered one |
| Scenes.SceneObject.AddBehavior | src/scene/scene_object.cpp:17-20 | the behaviour is stored under its type, replacing any previous one, and returned; no other type and no other field changes |
| Scenes.SceneObject.CreateBehavior | include/khepri/scene/scene_object.hpp:104-109 | a fresh behaviour is stored under the type, replacing any previous one; nothing else changes |
| Scenes.SceneObject.RemoveBehavior | src/scene/scene_object.cpp:22-25 | the result is true iff a behaviour was registered for the type; afterwards there is none and the other types are untouched |
| Scenes.SceneObject.GetUserData | src/scene/scene_object.cpp:27-37 | the user data for a type is absent iff none is stored, and otherwise the stored value |
| Scenes.SceneObject.SetUserData | src/scene/scene_object.cpp:39-42 | storing user data for a type replaces only that type's value, so reading it back gives the value stored |
| Scenes.Scene.constructor | include/khepri/scene/scene.hpp:53 | a new scene has no objects |
| Scenes.Scene.AddObject | include/khepri/scene/scene.hpp:32-40 | after `add_object` the object is in the scene and the other objects are as before |
| Scenes.Scene.RemoveObject | include/khepri/scene/scene.hpp:42-50 | after `remove_object` the object is absent and the other objects are as before |
| Scenes.DefaultTransformIsSrt | include/khepri/scene/scene_object.hpp:149-153 | the default transform, the identity, is the scale-rotation-translation matrix of the default position, scale and rotation |
| Scenes.AddObjectMembership | include/khepri/scene/scene.hpp:33-40 | adding puts the object in the scene, leaves every other object's membership alone, and adding one already there changes nothing |
| Scenes.RemoveObjectMembership | include/khepri/scene/scene.hpp:42-50 | removing takes the object out, leaves every other object's membership alone, and removing an absent one changes nothing |
| ShaderStream.ReadCount | src/renderer/diligent/shader_stream_factory.hpp:38 | a read delivers at most the bytes asked for and never passes the end; it delivers all of them exactly when they are there, and otherwise stops at the end |
| ShaderStream.ReadSpec | src/renderer/diligent/shader_stream_factory.hpp:35-42 | a read moves the cursor forward within the source and delivers exactly the bytes it passed over, no more than asked for |
| ShaderStream.MemoryStream.constructor | src/renderer/diligent/shader_stream_factory.hpp:21-23 | a new stream holds the shader with its cursor at 0 |
| ShaderStream.MemoryStream.ReadBlob | src/renderer/diligent/shader_stream_factory.hpp:25-33 | `ReadBlob` delivers the whole shader source and leaves the cursor where it is |
| ShaderStream.MemoryStream.Read | src/renderer/diligent/shader_stream_factory.hpp:35-42 | `Read` copies what the read delivers into the front of the caller's buffer, leaves the rest of the buffer alone, moves the cursor past it, and reports success exactly when all bytes asked for were delivered |
| ShaderStream.MemoryStream.Write | src/renderer/diligent/shader_stream_factory.hpp:44-48 | writing is not supported and always fails |
| ShaderStream.MemoryStream.GetSize | src/renderer/diligent/shader_stream_factory.hpp:50-53 | the size is that of the whole source, wherever the cursor is |
| ShaderStream.CreateInputStream2 | src/renderer/diligent/shader_stream_factory.hpp:81-88 | there is no stream exactly when the loader finds no shader for the name; otherwise a fresh stream over that shader with its cursor at 0 |
| ShaderStream.ReadsConcatenate | src/renderer/diligent/shader_stream_factory.hpp:35-42 | two successive reads deliver what one read of their combined size delivers |
| ShaderStream.ReadAllIsBlob | src/renderer/diligent/shader_stream_factory.hpp:25-53 | reading the reported size from a fresh stream delivers the whole source, as `ReadBlob` does |
| ShaderStream.ReadAtEnd | src/renderer/diligent/shader_stream_factory.hpp:38-41 | at the end of the source every read delivers nothing and fails unless it asks for nothing |
| DiligentMaterial.ToCullMode | src/renderer/diligent/renderer.cpp:37-51 | none, back and front each map to their Diligent namesake and to no other |
| DiligentMaterial.ToResourceDimension | src/renderer/diligent/renderer.cpp:53-69 | the resource dimension describes the same texture dimension, and is an array variant exactly when an array is asked for and the dimension is not 3D |
| DiligentMaterial.ToTextureFormat | src/renderer/diligent/renderer.cpp:71-87 | each pixel format maps to its sRGB Diligent namesake and to no other |
| DiligentMaterial.DetermineDynamicVariables | src/renderer/diligent/renderer.cpp:307-376 | the method computes the dynamic variables of the shaders and properties, errors included |
| DiligentMaterial.CollectShaderVariables | src/renderer/diligent/renderer.cpp:319-337 | collecting fails with an argument error exactly when some resource has a predefined name but not the predefined type, and otherwise yields the non-predefined resources |
| DiligentMaterial.MatchTextureProperties | src/renderer/diligent/renderer.cpp:339-366 | the property loop computes the matching of the texture properties against the shader variables |
| DiligentMaterial.PropertySize | src/renderer/diligent/renderer.cpp:468-474 | a property takes no space in the constants buffer exactly when it is a texture |
| DiligentMaterial.AlignUp | src/renderer/diligent/renderer.cpp:481-483 | aligning gives the least multiple of 16 at or above the size |
| DiligentMaterial.LayoutEnd | src/renderer/diligent/renderer.cpp:476-484 | the buffer size after the layout is a multiple of 16 |
| DiligentMaterial.ParamsOf | src/renderer/diligent/renderer.cpp:476-484 | there is one parameter per property, with its name and default, placed at the size the properties before it leave |
| DiligentMaterial.LayoutParams | src/renderer/diligent/renderer.cpp:476-484 | the layout loop produces those parameters and that buffer size |
| DiligentMaterial.ParamValue | src/renderer/diligent/renderer.cpp:619-623 | the value used for a parameter is the value of the first provided parameter with its name, or its default when none has the name |
| DiligentMaterial.ApplyMaterialParams | src/renderer/diligent/renderer.cpp:600-647 | applying takes each parameter's provided value or default in order, binds textures, writes constants when there is a buffer, and binds the buffer as "Material" exactly when there is one |
| DiligentMaterial.MatchPropertiesMeaning | src/renderer/diligent/renderer.cpp:339-366 | matching succeeds exactly when the texture property names are distinct and each names a texture variable of the shaders that is not predefined; it then yields those names in order and leaves the variables no property named |
| DiligentMaterial.MatchStepMeaning | src/renderer/diligent/renderer.cpp:341-366 | matching one more texture property succeeds exactly when its name is admissible and new |
| DiligentMaterial.ShaderVariablesMeaning | src/renderer/diligent/renderer.cpp:319-337 | the shader variables are exactly the names of resources with a non-predefined name |
| DiligentMaterial.DynamicVariablesMeaning | src/renderer/diligent/renderer.cpp:307-376 | the variables are accepted exactly when no resource clashes with a predefined type, the texture property names are distinct and each names a non-predefined texture variable, and every shader variable is named by a property; the result is then those names followed by "Material" |
| DiligentMaterial.LayoutMonotone | src/renderer/diligent/renderer.cpp:476-484 | parameters do not overlap: a later parameter starts no earlier than an earlier one ends |
| DiligentMaterial.LayoutEmptyIffTextures | src/renderer/diligent/renderer.cpp:476-495 | the buffer is empty, and so not created, exactly when every property is a texture |
| DiligentMaterial.WriteWithinSlot | src/renderer/diligent/renderer.cpp:631-639 | a constant of its default's kind written at its parameter's offset stays inside the buffer and clear of every later parameter |
| DiligentMaterial.CreateTextureNeverArray3D | src/renderer/diligent/renderer.cpp:499-502 | for a valid 3D texture description `create_texture` asks for a plain 3D texture, so the 3D array assertion cannot fire |
| DiligentMaterial.TranslationsInjective | src/renderer/diligent/renderer.cpp:37-87 | distinct engine values translate to distinct Diligent values |
| DiligentSprites.QuadIndex | src/renderer/diligent/renderer.cpp:248-256 | every index of a quad names one of its own four vertices |
| DiligentSprites.FillSpriteIndicesAsWritten | src/renderer/diligent/renderer.cpp:244-257 | as written, the index loop stops once the vertex offset reaches the sprite count, so only quads q with 4q below the count get their indices and the rest stay zero |
| DiligentSprites.FillSpriteIndices | src/renderer/diligent/renderer.cpp:244-257 | with the loop running over every sprite of a full batch, every quad gets the indices of its two triangles |
| DiligentSprites.StoreQuad | src/renderer/diligent/renderer.cpp:248-256 | one pass of the index loop writes the six indices of one quad and nothing after them |
| DiligentSprites.Corners | src/renderer/diligent/renderer.cpp:726-738 | a sprite's four vertices are the corners of an axis-aligned rectangle at z = 0, top-left first, with texture coordinates following the same corners |
| DiligentSprites.AllCorners | src/renderer/diligent/renderer.cpp:724-739 | there are four vertices per sprite |
| DiligentSprites.RenderSprites | src/renderer/diligent/renderer.cpp:711-758 | the batches follow each other from the first sprite to the last without gap or overlap, each takes as many remaining sprites as fit and draws six indices per sprite, and together they copy every sprite's corners exactly once, in order |
| DiligentSprites.DrawBatch | src/renderer/diligent/renderer.cpp:713-757 | one batch starts at the next sprite, takes the remaining sprites or as many as the buffer holds, whichever is fewer, copies their corners and draws six indices per sprite |
| DiligentSprites.CopyBatch | src/renderer/diligent/renderer.cpp:716-740 | the copy loop writes exactly the corners of the batch's sprites, in order |
| DiligentSprites.StoreCorners | src/renderer/diligent/renderer.cpp:726-738 | one pass of the copy loop appends the sprite's corners to what was written before |
| DiligentSprites.EachSpriteOnce | src/renderer/diligent/renderer.cpp:711-758 | every sprite lies in exactly one batch |
| DiligentSprites.BatchesIncrease | src/renderer/diligent/renderer.cpp:711-758 | a later batch starts after an earlier one ends |
| DiligentSprites.SpriteIndicesAsWrittenDropsQuad | src/renderer/diligent/renderer.cpp:246-247 | with the loop as written, the second quad of a two-sprite batch is all zero indices, while its vertices are 4 and up, so that sprite is not drawn |
| VulkanHandles.DestroyLog.constructor | include/khepri/renderer/vulkan/detail/memory.hpp:106-111 | the log of destroy calls starts empty |
| VulkanHandles.UniqueVkHandle.DestroyCalls | include/khepri/renderer/vulkan/detail/memory.hpp:106-111 | `destroy` calls the destroy function once, with the owner, handle and allocator, exactly when both the handle and the function are set, and otherwise makes no call |
| VulkanHandles.UniqueVkHandle.Default | include/khepri/renderer/vulkan/detail/memory.hpp:65 | a default handle has every member null |
| VulkanHandles.UniqueVkHandle.constructor | include/khepri/renderer/vulkan/detail/memory.hpp:67-70 | a handle built from its parts holds them |
| VulkanHandles.UniqueVkHandle.MoveFrom | include/khepri/renderer/vulkan/detail/memory.hpp:80-87 | move construction takes the other's handle and leaves it null, and copies the owner, allocator and function |
| VulkanHandles.UniqueVkHandle.Destroy | include/khepri/renderer/vulkan/detail/memory.hpp:72-75 | the destructor makes exactly the calls `destroy` makes |
| VulkanHandles.UniqueVkHandle.MoveAssign | include/khepri/renderer/vulkan/detail/memory.hpp:89-98 | move assignment first destroys the current handle, then takes the other's members and leaves the other's handle null; a handle moved into itself ends up null |
| VulkanHandles.UniqueVkHandle.Get | include/khepri/renderer/vulkan/detail/memory.hpp:100-103 | the conversion yields the handle currently owned |
| VulkanHandles.UniqueVkInstance.DestroyCalls | include/khepri/renderer/vulkan/detail/memory.hpp:22-27 | the instance destructor calls the destroy function once whenever it is set, even for a null handle |
| VulkanHandles.UniqueVkInstance.Default | include/khepri/renderer/vulkan/detail/memory.hpp:15 | a default instance has every member null |
| VulkanHandles.UniqueVkInstance.constructor | include/khepri/renderer/vulkan/detail/memory.hpp:17-20 | an instance built from its parts holds them |
| VulkanHandles.UniqueVkInstance.MoveFrom | include/khepri/renderer/vulkan/detail/memory.hpp:32-38 | move construction takes the other's handle and leaves it null, and copies the allocator and function |
| VulkanHandles.UniqueVkInstance.Destroy | include/khepri/renderer/vulkan/detail/memory.hpp:22-27 | the destructor makes exactly the calls the instance's destroy rule gives |
| VulkanHandles.UniqueVkInstance.MoveAssign | include/khepri/renderer/vulkan/detail/memory.hpp:40-46 | move assignment copies the other's allocator and function and swaps the handles, destroying nothing |
| VulkanHandles.UniqueVkInstance.Get | include/khepri/renderer/vulkan/detail/memory.hpp:48-51 | the conversion yields the handle currently owned |
| VulkanHandles.DefaultDestroysNothing | include/khepri/renderer/vulkan/detail/memory.hpp:65-111 | destroying a default handle makes no call |
| VulkanHandles.MoveConstructDestroysOnce | include/khepri/renderer/vulkan/detail/memory.hpp:72-111 | a handle moved into a second one, with both then destroyed, is destroyed exactly once |
| VulkanHandles.MoveAssignDestroysEachOnce | include/khepri/renderer/vulkan/detail/memory.hpp:72-111 | after a move assignment between two live handles and the destruction of both, each handle is destroyed exactly once, the target's old one first |
| VulkanHandles.InstanceDestroysNullHandle | include/khepri/renderer/vulkan/detail/memory.hpp:22-27 | an instance with a destroy function calls it even when its handle is null |
| VulkanHandles.InstanceMoveAssignSwaps | include/khepri/renderer/vulkan/detail/memory.hpp:22-46 | after a move assignment between two instances and the destruction of both, each handle is destroyed exactly once |
| VulkanSelection.QueueFamilyType | src/renderer/vulkan/renderer.cpp:69-87 | a family is reported as "graphics & compute", "graphics", "compute", "transfer" or nothing, each exactly for its combination of capability bits, graphics taking precedence over compute over transfer |
| VulkanSelection.SupportsExtension | src/renderer/vulkan/renderer.cpp:107-112 | an extension is supported iff its name is among the available ones |
| VulkanSelection.DeviceSupportsExtensions | src/renderer/vulkan/renderer.cpp:99-116 | a device supports the required extensions iff it supports each of them |
| VulkanSelection.LastWith | src/renderer/vulkan/renderer.cpp:388-411 | the family the loop leaves recorded is the last one with the property, and none is recorded when no family has it |
| VulkanSelection.CompatibleDeviceInfo | src/renderer/vulkan/renderer.cpp:356-418 | the family loop computes the device's compatibility information |
| VulkanSelection.Infos | src/renderer/vulkan/renderer.cpp:440-447 | there is one compatibility answer per device, in order |
| VulkanSelection.FirstCompatible | src/renderer/vulkan/renderer.cpp:450-453 | there is no answer iff no device is compatible, and otherwise the answer is that of the first compatible device |
| VulkanSelection.FindGraphicsDevice | src/renderer/vulkan/renderer.cpp:423-454 | the device found is the first compatible device over all groups in enumeration order, or none when there is none |
| VulkanSelection.CollectCompatible | src/renderer/vulkan/renderer.cpp:440-448 | the inner loop over one group's devices appends the information of each compatible device, in order, to what the earlier devices gave |
| VulkanSelection.PickSurfaceFormat | src/renderer/vulkan/renderer.cpp:145-160 | the 32-bit sRGB format is picked when offered, otherwise the first format offered |
| VulkanSelection.Find | src/renderer/vulkan/renderer.cpp:166-167 | `std::find` gives the first position holding the mode, or the length when none does |
| VulkanSelection.PickPresentMode | src/renderer/vulkan/renderer.cpp:162-173 | mailbox is picked exactly when it is offered, otherwise FIFO, so the mode is one the surface offers whenever it offers FIFO |
| VulkanSelection.ClampDimension | src/renderer/vulkan/renderer.cpp:185-188 | clamping leaves a value in the range unchanged, moves one outside it to the nearer end, and gives the minimum when the range is empty |
| VulkanSelection.PickSwapchainExtent | src/renderer/vulkan/renderer.cpp:175-190 | the surface's current extent is used unless its width is UINT32_MAX; otherwise each dimension of the desired extent is clamped into the surface's range, so a desired extent that fits is kept and the result fits whenever the range is not empty |
| VulkanSelection.ImageCount | src/renderer/vulkan/renderer.cpp:470-474 | the image count is one more than the minimum when that is allowed, never above a non-zero maximum, at least the minimum when the maximum allows it, and wraps to 0 for a minimum of UINT32_MAX |
| VulkanSelection.ImageSharing | src/renderer/vulkan/renderer.cpp:492-502 | the swapchain images are shared concurrently between the two families exactly when they differ, and exclusive otherwise |
| VulkanSelection.CreateSwapchainInfo | src/renderer/vulkan/renderer.cpp:456-502 | the swapchain takes the picked surface format (the 32-bit sRGB one when offered, else the first) and the picked present mode, the image count, the extent picked for the window size truncated to 32 bits, and the sharing mode |
| VulkanSelection.CompatibleInfoMeaning | src/renderer/vulkan/renderer.cpp:356-418 | a device is compatible exactly when it has a graphics family, a family that can present, every required extension, some surface format and some present mode; then the families recorded are the last graphics family and the last presenting family, with their queue counts |
| VulkanSelection.CompatibleInfo | src/renderer/vulkan/renderer.cpp:356-418 | compatibility information names the device and its formats and modes, both non-empty, a graphics family and a family that can present |
| VulkanSelection.LastWithStep | src/renderer/vulkan/renderer.cpp:388-411 | one more family is the last match when it matches, and otherwise the last match stays |
| VulkanSelection.SomesFirst | src/renderer/vulkan/renderer.cpp:444-453 | there are no collected devices exactly when none is compatible, and the first collected is the first compatible one |
| VulkanSelection.GraphicsFamilyIsGraphicsType | src/renderer/vulkan/renderer.cpp:69-87 | the family recorded for graphics is one whose type is reported as a graphics queue |

## Left out

- GPU API plumbing: Diligent and Vulkan instance, device, surface, swapchain, image-view, buffer, shader and texture creation, buffer mapping and draw calls, and all of `src/renderer/vulkan/render.cpp`. These are foreign calls. The device, surface and format data they enumerate are plain inputs to the selection rules.
- The value of `SPRITE_BUFFER_COUNT` is not in the source files modelled, so it is a parameter of the sprite functions. The header that defines `VERTICES_PER_SPRITE` is not part of this model.
- DiligentMaterial.ApplyMaterialParams: when a provided parameter's type does not match the default's, the model keeps the value without checking its type, because variant type comparisons over unseen Diligent types are not modelled.
- DiligentMaterial.ToResourceDimension: the debug `assert` for unsupported dimensions is modelled only as the fallback value.
- DiligentMaterial.LayoutParams: the 32-bit wrap-around of the running offset is not modelled. Offsets are unbounded naturals.
- FreeType: `calculate_string_info`, the `FontFaceState` constructor, glyph loading, kerning, stroking and rasterisation, and `render` beyond the texture sizing.
- The float colour math of `blend_bitmap` and `linear_to_srgb` is a `Shade` parameter. Only the integer alpha arithmetic is modelled.
- FontFace.BlendBitmapAlpha: requires destination rows of at least four bytes per source pixel, so the rows do not overlap. The source assumes this of its callers without checking.
- FontFace.BlendBitmap: requires destination rows of at least four bytes per source pixel, the same assumption as `BlendBitmapAlpha`.
- FontFace.FindDarkestAbove: the 32-bit wrap-around of the row index computation is not modelled. Indices are unbounded naturals.
- FontFace.TextureExtentFits: holds only for extents up to 2^31 - 2, because above that `ceil_power_of_two` wraps to 0 in 32 bits.
- The mutexes of `LibraryState` and `FontFaceState` are left out. The reference count is modelled sequentially.
- `CosineInterpolator` and `CubicInterpolator::create_segments` are left out because they rely on floating-point cosine and spline solving.
- Matrix inverse, scalar multiply and divide, look-at, perspective and orthographic projection, `transform_coord`, `create_scaling` and `get_rotation_scale` are floating-point numerics. They are left out. The matrices modelled are over exact reals, with the rotation block of `create_srt` as an input.
- The Möller–Trumbore per-triangle test is modelled over exact reals. The vector length that `compute_bounding_sphere` takes (a float square root) is a parameter of Collision.ComputeBoundingSphere.
- Floats inside the codecs are opaque 32-bit patterns. Vectors and colours round-trip bit for bit.
- `io::Stream` is an interface. The model uses one concrete in-memory stream with read, write and seek capabilities. File streams (`src/io/file.cpp`) are not part of this model.
- The shader `SerializeTraits` are not part of this model. A KSF shader's payload is modelled as a vector of 32-bit words.
- The KMF loader's model traits are taken from `include/khepri/renderer/io/serialize.hpp`.
- The capacity hint that `Serializer` reserves has no observable effect and is left out.
- Logging, windowing, the application loop, the exception handlers, the tools and `test_package` are left out. None of them has state the core depends on.
- Scenes.SceneObject.SetScale: requires a positive scale, as the assertion in `create_srt` does. A zero or negative scale is not modelled.
- Conan recipe: the `git` invocations are parameters (the tag description, the dirty flag and the commit hash). The `strip` of their output is assumed to have been done.
- ConanRecipe.DigitRun: Python's `\d` also matches non-ASCII Unicode digits. The model accepts only the ASCII digits `0`-`9`.
- The loaders are modelled over the corrected primitives listed under Findings, and the as-written primitives are modelled alongside them. `read_string` uses the zero-extending `read_ushort` (row 1). The container, KSF, KMF and DDS loaders use the zero-extending `read_uint` (row 2) and the synchronised container seek (row 3). The DDS loader uses the corrected mip chain (row 9). The TGA loader and saver use the advancing row offsets (rows 4 to 7). `blend_bitmap` uses the corrected `find_darkest_below` (row 11). The `read_uint` defect appears only where `unsigned long` is 64 bits. Where it is 32 bits, the as-written `read_uint` is already correct.
- TgaTexture.LoadTgaSpec: follows the build in which `assert(false)` is compiled out (NDEBUG). An 8-bit image then loads as all-zero rows. A debug build aborts on it instead.
- TgaTexture.LoadTgaSpec: buffer sizes are exact. The source computes `image_width * image_height * 4` in `int`, which overflows, as undefined behaviour, once width times height exceeds 2^29 (for example 23171 by 23171). That case is not modelled.
- TgaTexture.SaveTgaSpec: buffer sizes are exact. The source computes the size of the saved data in `int` from the 16-bit header fields, which overflows once width times height exceeds 2^29. That case is not modelled.
- Dds.LoadDdsSpec: level sizes, offsets and the total data size are exact. The source computes them in `size_t` arithmetic, which wraps for headers whose width, height and depth multiply past 2^64. The model also has no allocation failure for the subresource vector and the data buffer, so a huge header fails only when the stream runs short.
- ContainerFile.Decoded: every decoding failure is an I/O error, mapped to an invalid format. In the source, a vector's element count from the file sizes a `std::vector` before any element is read. A count too large to allocate throws `std::bad_alloc` or `std::length_error`, which are not `io::Error`. Those escape the `catch` in `load_ksf` and `load_kmf` instead of becoming an invalid format. The model treats every count as allocatable. Serialize.DecVector and the KSF and KMF loaders are affected the same way.
- Signals.Signal.Destroy: the expiry of a handle's weak reference is modelled as cutting the connection. `disconnect` on an expired handle leaves the handle's expired reference in place, where the model clears it. Both read as not connected.
- Signals.Signal.Emit: the only effect of a slot that the model sees is the set of connections it disconnects. A slot that connects a new slot during an emission appends to the list that `remove_if` is walking, which is undefined behaviour in the source; that case is not modelled. The arguments forwarded to every slot are left out.
- Strings.CaseInsensitiveLess: characters are compared as unsigned code points. On platforms where `char` is signed, such as x86-64, bytes from 0x80 up order below the ASCII characters in the source. That ordering is not modelled.
- ShaderStream.MemoryStream.ReadBlob: follows the release build, in which the assertion that nothing has been read yet is compiled out. A debug build aborts when the cursor has moved.
- Collision.CreateCollisionMesh: follows the release build, in which the collision mesh constructor's assertion of whole triangles is compiled out. A debug build aborts on a first mesh whose index count is not a multiple of 3.
- VulkanSelection.CreateSwapchainInfo: the window size is taken as naturals and truncated to 32 bits, as the cast from `unsigned long` does. How the window reports its size is not modelled.

## Findings

| source | as written | input that shows it | evidently intended | confidence | as-written member | corrected member |
|---|---|---|---|---|---|---|
| src/io/stream.cpp:47-52 | `read_ushort` reads an `int16_t` and widens it to `unsigned int`, so values with the top bit set are sign-extended; `read_string` reads its length this way, so strings of 0x8000 bytes or more do not read back (StreamIO.StringAsWrittenFails) | any stored value x from 0x8000 up, such as 0xFFFF, reads back as 2^32 - 2^16 + x | zero-extended unsigned reads | not executed | StreamIO.UShortAsWrittenWraps | StreamIO.UShortRoundTrip |
| src/io/stream.cpp:54-59 | `read_uint` reads an `int32_t` and widens it to `unsigned long`; where `unsigned long` is 64 bits (LP64) values with the top bit set are sign-extended, which rejects the KSF id 0xd086def7 and the DDS alpha mask 0xFF000000 | any value x from 2^31 up reads back as 2^64 - 2^32 + x | zero-extended unsigned reads | not executed | StreamIO.UintAsWrittenWraps | StreamIO.UintRoundTrip |
| src/io/container_stream.cpp:108-143 | `seek` moves the underlying stream but never updates `m_position`, which `read` uses to clamp | after reading k > 0 bytes, seek(0, begin) then a read of the whole content returns only its first length - k bytes | `seek` keeps `m_position` in step | not executed | Container.SeekBeginAsWrittenRereadsShort | Container.SeekKeepsSync |
| src/renderer/io/texture_tga.cpp:161-174 | the source span is not offset per row on load | a 32-bit image one pixel wide and two rows high loads the same scanline into both rows | each row read from its own offset | not executed | TgaPixels.LoadAsWrittenRepeatsScanline | TgaPixels.LoadedFlipsRows |
| src/renderer/io/texture_tga.cpp:236-265 | the destination span is not offset per row on save | with the span of the next row corrected to `4 * image_width` bytes, a texture one pixel wide and two rows high saves one row followed by zeros | each row written at its own offset | not executed | TgaPixels.SaveAsWrittenLosesRows | TgaPixels.SaveLoadRoundTrip |
| src/renderer/io/texture_tga.cpp:241-243 | the row subspan is `image_width` bytes long but indexed up to `4 * image_width - 1` | any image of width 1 | a subspan of `4 * image_width` bytes | not executed | TgaPixels.SaveSpanAsWrittenOverruns | TgaPixels.SaveSpanCorrectedFits |
| src/renderer/io/texture_tga.cpp:190-191 | the stride is computed from the file's bits per pixel, but the data is repacked to 4 bytes per pixel | a 24-bit image of width 1: stride 3 for rows of 4 bytes | stride `4 * width` | not executed | TgaTexture.LoadStrideAsWrittenMismatch | TgaTexture.LoadedDesc |
| src/math/matrix.cpp:107-117 | the free `transpose` writes only the off-diagonal entries into a zero-initialised matrix | the identity transposes to the zero matrix | all 16 entries copied | not executed | Matrices.TransposeCopyAsWrittenLosesDiagonal | Matrices.TransposeCopy |
| src/renderer/io/texture_dds.cpp:179-180 | an uncompressed level's `depth_stride` uses the base height, not the mip height | a 2×2 RGBA texture with 2 mips: level 1 is sized 8 bytes instead of 4 | row stride times the level's own height | not executed | Dds.MipChainAsWrittenOversized | Dds.CreateSubresources |
| src/renderer/diligent/renderer.cpp:244-257 | the index loop runs `i` up to the sprite count in steps of 4 but uses it as a vertex index | two sprites: the six indices of the second quad stay 0 | one quad of six indices per sprite | not executed | DiligentSprites.SpriteIndicesAsWrittenDropsQuad | DiligentSprites.FillSpriteIndices |
| src/font/font_face_state.cpp:124-143 | `height - distance` underflows when the bitmap is shorter than the distance | height 1, distance 2, y 0: the guard passes and the read leaves the one-byte bitmap | treat rows below the bitmap as dark | not executed | FontFace.DarkestBelowAsWrittenOverruns | FontFace.FindDarkestBelow |
| include/khepri/utility/signal.hpp:176-204 | none of the three `ScopedConnection::operator=` overloads (copy from a connection, move from a scoped connection, move from a connection) has a `return *this` | any assignment: no reference to the assigned object is returned | return `*this` | not executed | Signals.AssignAsWrittenReturnsNothing | Signals.ScopedConnection.MoveAssignScoped |
| include/khepri/font/font_cache.hpp:57-63 | the declaration of `clear` says it removes all font faces, but the definition (src/font/font_cache.cpp:75-80) only clears each face's fonts and keeps the faces | add face "Arial", `clear`, add "Arial" again: refused as a duplicate | either the comment or the code; the model follows the code and keeps the documented behaviour beside it | not executed; the documentation and the code disagree and either may be the intent | FontCache.ReAddAfterClear | FontCache.FontCache.ClearAsDocumented |
