# Core logic of the Edgegate core, modelled and proved

The project covers three parts of the repository.

- **The wire code bundled in `extension/html/rpc.js`**: base-128 varints and zigzag numbers, 64-bit numbers
  in two 32-bit halves (long division, 32 by 32 multiplication, two decimal printers, two decimal parsers),
  UTF-8, the writer that puts length prefixes in front of nested bodies after the fact, the reader, the
  generated outbound group messages, base64, and the byte-at-a-time gRPC-Web frame parser.  Modules `UInt64`,
  `Decimal`, `DecimalJoin`, `Varint`, `Utf8`, `Coder`, `Wire`, `Writer`, `Reader`, `Messages`, `Base64`, `GrpcWeb`.
- **The configuration transformers in `v2/config`**: the group resolver (`OutboundResolver`), the
  down-conversion to the older core's fields (`Text`, `Compat`, `CompatActions`, `CompatMeaning`,
  `CompatUpdate`), rewrites of rule trees (`RouteRules`, `ResolveInsertion`, `WindowsDns`, `Region`), the
  generator and its forced direct DNS rules (`ForceDirect`, `Generate`, `References`, `Decisions`), and the
  nesting of dotted keys (`FlatToNested`).
- **The snapshot cache in `v2/hcore/ffi_snapshot.go`** (`FfiCache`): its mutex-protected methods, and all
  interleavings of the background updater, readers, selections, tests, stops and starts.

Code that changes things in place is a class or a method with loops, proved against a specification function;
the lemmas say what that function achieves.  JavaScript numbers are integers with the bounds the code keeps;
`>>>`, `&` and `<<` are division, remainder and multiplication, and 32-bit truncation is written out.  Go maps
are walked in an order that is left open or is a parameter.  The operating system, clocks, IP address tests
and the address derivation of typed DNS servers are parameters.

The following properties fail for some inputs.  The code is kept as it is; for each property one lemma gives an
input that fails and another proves for all inputs exactly when the property holds.

- Stepping back over a field's header stops at its first byte: `Varint.UnskipShort`, `Varint.UnskipNegative`,
  `Varint.UnskipHeaderExact`, and `Reader.BinaryReader.NextAndBack` for the reader.
- A second `getResultBuffer` gives the bytes written: `Writer.FlattenFails`, `Writer.FlattenTwice`.
- Reading a string back gives the string written: `Utf8.LoneHighLost`, `Utf8.RoundTripExact`.
- Every call after a bad frame flag throws: an empty chunk does not (`GrpcWeb.BrokenForGood`);
  `GrpcWeb.BreaksExactly` says which streams have such a flag.
- Decoding a response in parts gives the bytes of the whole text: `Base64.LayoutExact`, in both directions.
- Resolving the result of resolving a group gives the same tag: `OutboundResolver.MutualSelectors`,
  `OutboundResolver.ResolveTwice`.
- A stale cache has its dirty flag up or a goroutine between its mark and its refresh: `FfiCache.StaleIsWarned`,
  call by call in both directions; the flag alone can be down even then (`FfiCache.LostMark`).
- A rule that answers with a code names a server that has literally that tag: `Compat.PaddedTag`,
  `Compat.LiteralTag`.
- After the pass for Windows nothing refers to a remote DNS server: `WindowsDns.RemoteNamedLocal`,
  `WindowsDns.CleanAfter`.
- A generated configuration refers only to what it holds: `References.UnknownDetour`, `References.MarkInTag`,
  `References.WarpGone`, `References.NothingDangles`.
- Every chain of DNS resolvers ends at the local server: `References.DetourNamedDirect`,
  `References.ResolversEndLocal`.
- The resolve rules put in for several inbounds spare DNS traffic: `ResolveInsertion.OtherInboundsDns`,
  `ResolveInsertion.DnsIsSpared`.
- Generated outbounds have distinct tags: `Decisions.GivenTwice`, `Decisions.TagsAreUnique`.
- Nesting dotted keys goes through in every iteration order: `FlatToNested.OrderMatters`,
  `FlatToNested.GoesThrough`.

`dafny verify dfyconfig.toml` checks the whole project.

## Model

| member | source | states |
|---|---|---|
| UInt64.U64.Cmp | extension/html/rpc.js:9935 | comparing halves orders the numbers they stand for, all three ways |
| UInt64.U64.RightShift | extension/html/rpc.js:9935 | the shifted halves are the number halved |
| UInt64.U64.LeftShift | extension/html/rpc.js:9935 | the shifted halves are the double modulo 2^64 |
| UInt64.U64.Msb | extension/html/rpc.js:9936 | the top-bit test holds exactly when doubling overflows |
| UInt64.U64.Add | extension/html/rpc.js:9936 | halves with a hand-made carry give the sum modulo 2^64 |
| UInt64.U64.Sub | extension/html/rpc.js:9937 | halves with a hand-made borrow give the difference modulo 2^64 |
| UInt64.Mul32x32 | extension/html/rpc.js:9937 | four 16-bit products and a carry loop give the exact 64-bit product |
| UInt64.U64.Mul | extension/html/rpc.js:9937 | the product with a 32-bit number, modulo 2^64 |
| UInt64.U64.Div | extension/html/rpc.js:9938 | for every nonzero 32-bit divisor shift-subtract division gives the exact quotient and the remainder |
| UInt64.U64.ToString | extension/html/rpc.js:9938 | repeated division by ten prints the decimal notation, `0` for zero |
| UInt64.FromString | extension/html/rpc.js:9939 | parsing fails exactly when some character is no digit, and otherwise gives the number modulo 2^64 |
| UInt64.I64.ToString | extension/html/rpc.js:9940 | prints two's complement halves as a signed decimal, the most negative number included |
| UInt64.I64FromString | extension/html/rpc.js:9941 | one leading minus negates modulo 2^64; anything else that is no digit fails |
| UInt64.RoundTripUnsigned | extension/html/rpc.js:9938-9939 | parsing what was printed gives the number back, for every UInt64 |
| UInt64.RoundTripSigned | extension/html/rpc.js:9940-9941 | the same for every Int64 |
| Decimal.ParsePrint | extension/html/rpc.js:9938-9939 | decimal notation has digits only, no leading zero, and parses back to the number |
| DecimalJoin.LimbsExact | extension/html/rpc.js:9859 | the three limbs of base 10^7 lose nothing, every intermediate value stays below 2^53, and carrying leaves each below 10^7 |
| DecimalJoin.JoinUnsignedIsDecimal | extension/html/rpc.js:9859 | the fast join prints exactly what repeated long division by ten prints, for every pair of halves |
| DecimalJoin.JoinSignedIsDecimal | extension/html/rpc.js:9859-9860 | the signed join prints the signed decimal of every pair of halves |
| DecimalJoin.MulAdd | extension/html/rpc.js:9861 | the multiply-and-add loop over eight bytes, left early once nothing is carried, computes modulo 2^64; an addend below zero that a first byte cannot cover adds 2^32 too much, and with factor 1 does nothing |
| DecimalJoin.DecimalStringToHash64 | extension/html/rpc.js:9861 | a decimal text with an optional minus becomes its eight little-endian bytes in two's complement |
| DecimalJoin.SplitHash64 | extension/html/rpc.js:9856 | the two halves of eight bytes are their little-endian value |
| DecimalJoin.RoundTrip | extension/html/rpc.js:9856-9861 | joining to decimal and parsing back returns the two halves, read as unsigned or signed |
| Varint.EncodeShape | extension/html/rpc.js:9925-9926 | a varint is one to ten bytes (five for 32 bits), only its last byte has a clear top bit, and its seven-bit groups are the number |
| Varint.UniqueEnd | extension/html/rpc.js:9872-9874 | a varint ends at one place only |
| Varint.HalvesMiddleStep | extension/html/rpc.js:9872 | the fifth byte is shared between the two words as the reader shares it |
| Varint.HalvesHighStep | extension/html/rpc.js:9872 | bytes six to ten go to the high word, and bits past the 64th fall off |
| Varint.UnskipExact | extension/html/rpc.js:9873 | over the varint of a number that comes unsigned `unskipVarint` lands on the first byte exactly when the two leading base-128 digits are not 1 and 0; otherwise it stops one byte late |
| Varint.UnskipShort | extension/html/rpc.js:9873 | the header of field 16 with wire type 0 takes two bytes, and `unskipVarint` goes back one |
| Varint.UnskipHeaderExact | extension/html/rpc.js:9887 | over a header below 2^32, which comes as a signed number, it lands on the first byte exactly when the header is below 2^31 and does not lead with the digits 1 and 0; from 2^31 on it stops four bytes late, and otherwise one |
| Varint.UnskipNegative | extension/html/rpc.js:9887 | the header of field 2^28 with wire type 0 takes five bytes, and the step back is one |
| Varint.ZigZag32Inverse | extension/html/rpc.js:9875 | the 32-bit shifts and masks compute zigzag order, and both directions are mutual inverses |
| Varint.ZigZag64Meaning | extension/html/rpc.js:9857 | the 64-bit pair on split halves computes zigzag order and its inverse |
| Varint.ZigZag64Inverse | extension/html/rpc.js:9857 | both 64-bit directions are mutual inverses on every pair of halves |
| Varint.SplitInt64Exact | extension/html/rpc.js:9853-9856 | splitting a signed integer by magnitude and hand-made complement gives its two's complement halves |
| Coder.Encoder.WriteSplitVarint64 | extension/html/rpc.js:9925 | the shifting loop over two halves appends the varint of the joined number |
| Coder.Encoder.WriteUnsignedVarint32 | extension/html/rpc.js:9926 | the loop appends the varint of the number |
| Coder.Encoder.WriteSignedVarint32 | extension/html/rpc.js:9926-9927 | a negative number is appended as the varint of its 64-bit two's complement |
| Coder.Encoder.WriteZigZagVarint32 | extension/html/rpc.js:9927 | appends the varint of the zigzag image |
| Coder.Encoder.WriteSplitZigZagVarint64 | extension/html/rpc.js:9928 | appends the varint of the 64-bit zigzag image |
| Coder.Encoder.WriteString | extension/html/rpc.js:9934-9935 | appends the string's UTF-8 form and reports its exact byte count |
| Coder.Decoder.ReadSplitVarint64 | extension/html/rpc.js:9872 | from any place in any buffer, reads exactly the varint there when it has at most ten bytes, and nothing otherwise |
| Coder.Decoder.ReadUnsignedVarint32 | extension/html/rpc.js:9874-9875 | the same for the unrolled 32-bit reader, which takes six bytes and more as signed |
| Coder.Decoder.ReadSignedVarint32 | extension/html/rpc.js:9875 | returns the low 32 bits as signed |
| Coder.Decoder.SkipVarint | extension/html/rpc.js:9873 | passes exactly the varint that starts at the cursor |
| Coder.Decoder.UnskipVarint | extension/html/rpc.js:9873 | the loop moves back by the stated distance, for signed and for unsigned words |
| Coder.Decoder.ReadString | extension/html/rpc.js:9882 | reads the units and stops where the byte-wise decoder does |
| Coder.RoundTripSplit64 | extension/html/rpc.js:9872-9928 | reading back before any suffix returns the halves and uses exactly the bytes written, at most ten |
| Coder.RoundTripSigned32 | extension/html/rpc.js:9874-9927 | reading back before any suffix returns the number; negative ones come from ten bytes |
| Utf8.DecodeEncode | extension/html/rpc.js:9882-9935 | anywhere in a buffer, reading what was written returns the string without lone high surrogates that something follows, and stops at its end |
| Utf8.RoundTripExact | extension/html/rpc.js:9882-9935 | `readString` undoes `writeString` exactly for strings in which no high surrogate is followed by anything but a low one |
| Utf8.LoneHighLost | extension/html/rpc.js:9882 | a high surrogate before a letter is lost on the way |
| Utf8.Samples | extension/html/rpc.js:9934-9935 | two of the examples in section 7 of RFC 3629, one of them beyond the basic plane |
| Wire.SmallFits | extension/html/rpc.js:9941-9943 | a message of less than 2^32 bytes has no length prefix that the writer's 32-bit loop would cut |
| Writer.BinaryWriter.BeginDelimited | extension/html/rpc.js:9941 | opens a field: header flushed, bookmark set, nothing closed |
| Writer.BinaryWriter.EndDelimited | extension/html/rpc.js:9941 | puts the varint of the bytes emitted since the bookmark in front of them, at any nesting depth |
| Writer.BinaryWriter.BeginSubMessage | extension/html/rpc.js:9943 | remembers the opened field last |
| Writer.BinaryWriter.EndSubMessage | extension/html/rpc.js:9943 | closes the field opened last, with its exact length |
| Writer.BinaryWriter.Write | extension/html/rpc.js:9944-9953 | appends the complete encoding of a field with arbitrarily nested bodies |
| Writer.BinaryWriter.WriteAll | extension/html/rpc.js:9944-9953 | the same for a list of fields |
| Writer.BinaryWriter.GetResultBuffer | extension/html/rpc.js:9942 | succeeds exactly at depth 0 with a sound byte count, and then returns all bytes written, none twice |
| Writer.FlattenTwice | extension/html/rpc.js:9942 | when the first `getResultBuffer` finds the encoder empty, a second one gives all bytes, those written in between included; otherwise it fails whatever was written in between |
| Writer.FlattenFails | extension/html/rpc.js:9942 | after one number is written and flattened, a second `getResultBuffer` fails |
| Reader.BinaryReader.NextField | extension/html/rpc.js:9887 | reads the header that stands there; at the end of the bounds it reports the end and moves nowhere |
| Reader.BinaryReader.UnskipHeader | extension/html/rpc.js:9887 | puts the header together as a signed word and moves back by its distance |
| Reader.BinaryReader.NextAndBack | extension/html/rpc.js:9887 | reading a header and stepping back comes to where it began exactly for the headers below 2^31 that do not lead with 1 and 0, and otherwise four bytes or one byte later |
| Reader.BinaryReader.SkipField | extension/html/rpc.js:9888-9890 | skips the whole of any field, groups in groups included |
| Reader.BinaryReader.SkipGroup | extension/html/rpc.js:9889 | skips to the matching end of the group |
| Messages.EnterMessage | extension/html/rpc.js:9891 | narrows the bounds to exactly the body of the message field |
| Messages.DeserializeItem | extension/html/rpc.js:6263-6292 | yields the fold of the fields, unknown ones skipped |
| Messages.DeserializeGroup | extension/html/rpc.js:6491-6525 | the same with nested items read within bounds of their own |
| Messages.DeserializeList | extension/html/rpc.js:6738-6760 | the same for the whole list of groups |
| Messages.SerializeItem | extension/html/rpc.js:6313-6343 | appends the fields that are not at their defaults |
| Messages.SerializeGroup | extension/html/rpc.js:6542-6573 | the same with nested items |
| Messages.SerializeList | extension/html/rpc.js:6777-6787 | the same for the whole list |
| Messages.RoundTrip | extension/html/rpc.js:6491-6787 | serializing and deserializing a list of groups gives it back, each string without its lone high surrogates |
| Messages.UnknownFieldsIgnored | extension/html/rpc.js:6738-6760 | unknown fields put anywhere, at any level, change nothing that is read |
| Messages.ItemOnWire | extension/html/rpc.js:6313-6343 | the bytes of an item: each field that is not its default behind its header, in order |
| Messages.GroupOnWire | extension/html/rpc.js:6542-6573 | the bytes of a group, nested items behind their lengths |
| Messages.ListOnWire | extension/html/rpc.js:6777-6787 | the bytes of a list |
| GrpcWeb.Parser.Take | extension/html/rpc.js:10001-10002 | one byte takes the mutable parser and its arrays where the state machine goes, and throws when it does, after any stream |
| GrpcWeb.Parser.Parse | extension/html/rpc.js:10001-10002 | one call hands out the arrays of the frames completed so far, and none when it throws, after any stream |
| GrpcWeb.ChunkInvariance | extension/html/rpc.js:10001-10002 | feeding a stream in any chunks yields the frames and the state of feeding it whole, up to a throw |
| GrpcWeb.AcceptedStream | extension/html/rpc.js:10001-10002 | an accepted stream is the encoding of the frames found followed by the bytes of the frame under way: no byte is lost or made up |
| GrpcWeb.ParseEncoded | extension/html/rpc.js:10001-10041 | framing and then parsing gives the frames back, for lengths below 2^31 |
| GrpcWeb.RoundTripInChunks | extension/html/rpc.js:10001-10041 | the same however the bytes are cut |
| GrpcWeb.BreaksExactly | extension/html/rpc.js:10001-10002 | the parser throws at exactly the streams in which whole frames are followed by a byte that is no flag, and then it is broken, or by a header with a length of 2^31 or more |
| GrpcWeb.BrokenForGood | extension/html/rpc.js:10001-10002 | however a stream with a bad flag is cut, a call throws at it; of all later calls exactly those that bring a byte throw, the first empty one hands out the frames still missing and the other empty ones none |
| GrpcWeb.TooLongForGood | extension/html/rpc.js:10001-10002 | after a length of 2^31 or more no call hands out a new frame: later bytes go over the last frame's array from its start on, or make their call throw when there was no frame |
| GrpcWeb.FrameRequest | extension/html/rpc.js:10041 | the request is one length-prefixed message with flag 0 |
| Base64.DecodeText | extension/html/rpc.js:10028-10029 | the decoder writes into a buffer sized beforehand what decoding gives, and fails exactly on unknown characters |
| Base64.EmitSize | extension/html/rpc.js:10028 | for a text of whole groups of characters the buffer size is never too small, white space and padding included |
| Base64.CutAligned | extension/html/rpc.js:10031 | a cut after whole groups of symbols, or before a rest without symbols, does not change what a text decodes to |
| Base64.IncrementalAgrees | extension/html/rpc.js:10031 | however a response grows, the bytes delivered are the decoding of the text received, up to whole groups, for every text whose white space keeps the groups aligned |
| Base64.LayoutExact | extension/html/rpc.js:10031 | for any other placing of white space there are symbols and an arrival in two parts for which the bytes delivered differ from those of the whole text |
| Base64.SolidLaidOut | extension/html/rpc.js:10031 | text of whole groups without white space, with or without white space behind it, keeps the groups aligned |
| Base64.EncodeBytes | extension/html/rpc.js:10041-10042 | the loop writes groups of four with padding at the end |
| Base64.Alphabet | extension/html/rpc.js:10029 | landmarks of the alphabet, and the letters of its URL-safe variants |
| Base64.RoundTrip | extension/html/rpc.js:10028-10042 | decoding undoes encoding for every byte string |
| OutboundResolver.Resolver.constructor | v2/config/official_runtime.go:823-832 | the last outbound of a tag wins and untagged ones cannot be found |
| OutboundResolver.Resolver.Resolve | v2/config/official_runtime.go:834-843 | the visited-set recursion picks from the ends of all simple paths, left to right |
| OutboundResolver.Resolver.ResolveFrom | v2/config/official_runtime.go:845-898 | the same for a path already begun; it terminates on every graph |
| OutboundResolver.Resolver.ResolveCandidates | v2/config/official_runtime.go:900-918 | the loop returns the first proxy among the candidates' ends, or else the first end |
| OutboundResolver.ResolveComplete | v2/config/official_runtime.go:834-939 | a proxy is returned exactly when one can be reached along defaults and members, over any cycles, and it is then the end of the leftmost repetition-free path to a proxy |
| OutboundResolver.DefaultFirst | v2/config/official_runtime.go:867-918 | a selector's default has the first turn: the end of the leftmost path to a proxy from it comes out, the default itself when it is one; only when there is none do the members decide, in their order |
| OutboundResolver.TestMembersDecide | v2/config/official_runtime.go:886-918 | for a url test the first member from which a proxy can be reached decides, or else the first member not on the path |
| OutboundResolver.ProxiesGoFirst | v2/config/official_runtime.go:920-931 | a url test of a direct, a blocking and a proxy outbound resolves to the proxy |
| OutboundResolver.IndexIsLast | v2/config/official_runtime.go:823-832 | the index holds exactly the last outbound of each tag that is not empty |
| OutboundResolver.ResolveTwice | v2/config/official_runtime.go:834-939 | resolving the result again gives the same tag exactly when a proxy can be reached or the walk along the first open members does not stop at a group that names an earlier tag of the walk |
| OutboundResolver.MutualSelectors | v2/config/official_runtime.go:834-939 | two selectors naming each other resolve to one another, so resolving the result again gives another tag |
| FfiCache.Cache.RefreshAllLocked | v2/hcore/ffi_snapshot.go:150-182 | both caches take the state of one reading and the refresh is recorded |
| FfiCache.Cache.RefreshAllIfNeeded | v2/hcore/ffi_snapshot.go:140-148 | refreshes exactly when the cache is not young: marked, never refreshed, or 30 seconds old, 15 if read less than 30 ago, 5 if read less than 5 ago |
| FfiCache.Cache.RefreshSnapshotCaches | v2/hcore/ffi_snapshot.go:332-336 | a start or a stop leaves nothing of the earlier lists or of the mark |
| FfiCache.Cache.SnapshotJson | v2/hcore/ffi_snapshot.go:93-113 | a reader of a marked or never refreshed cache gets the envelope of the state read now, any other the cached text |
| FfiCache.StoresRefresh | v2/hcore/ffi_snapshot.go:150-182 | the two stores and the recording, one after the other under the lock, are the whole refresh from the version that was read |
| FfiCache.Reachable | v2/hcore/ffi_snapshot.go:134-217 | the invariant on lock, versions, caches and flag holds after every interleaving |
| FfiCache.Monotone | v2/hcore/ffi_snapshot.go:134-198 | cached versions never go back, and each cached pair is the list and the JSON of its version |
| FfiCache.StaleIsOwned | v2/hcore/ffi_snapshot.go:134-217 | a cache is stale only while the call that made the newest change is still to finish its refresh |
| FfiCache.ReturnedIsFresh | v2/hcore/commands.go:166-187 | once a call has returned, both caches hold for good a state at least as new as its change |
| FfiCache.ReadersSeeReturned | v2/hcore/ffi_snapshot.go:72-90 | a reader that starts after a call has returned sees that call's change |
| FfiCache.Quiescent | v2/hcore/ffi_snapshot.go:134-217 | when all calls have returned, the caches are the newest state and no mark is left |
| FfiCache.JsonAgrees | v2/hcore/ffi_snapshot.go:93-113 | a JSON reader always gets the envelope of the list another reader gets |
| FfiCache.NoDeadlock | v2/hcore/ffi_snapshot.go:134-148 | while some goroutine is not done, one of them can go on |
| FfiCache.StaleIsWarned | v2/hcore/commands.go:166-276 | that a stale cache has its flag up or a goroutine between its mark and its refresh holds in every run for changes by group tests and member tests that mark first, and fails in some run for changes by a start, a stop, a selection, its prober and other member tests |
| FfiCache.LostMark | v2/hcore/ffi_snapshot.go:206-217 | a refresh under way clears the mark of a newer change: flag down, caches stale, and the caller between its mark and its refresh |
| FfiCache.SkippedIsYoung | v2/hcore/ffi_snapshot.go:243-265 | in every run the updater lets the cache be exactly when it is unmarked and younger than 30 seconds, than 15 if read less than 30 ago and than 5 if read less than 5 ago; both lists are then of one version, and only goroutines still to refresh have made newer ones |
| FfiCache.SleepIsShort | v2/hcore/ffi_snapshot.go:121-132 | in every run the updater's timer ends before the cache is 35 seconds old, plus the time since it looked last; it takes half a second after a read less than 5 seconds ago, two seconds after one less than 30 ago, and five otherwise |
| FfiCache.YoungExactly | v2/hcore/ffi_snapshot.go:243-265 | the check of the background updater, in numbers of seconds and in both directions |
| FfiCache.EmptyOnlyAgain | v2/hcore/ffi_snapshot.go:72-90 | in every run a list reader comes back without a list only after it has refreshed a second time |
| Compat.Idempotent | v2/config/singbox_compat.go:85-155 | the result holds only known fields in servers, rules at any depth and route, and converting it again changes nothing |
| Compat.KeptIsNormal | v2/config/singbox_compat.go:208-291 | a kept rule has only known fields, a condition or nested rules, and kept nested rules of the same kind |
| Compat.NormalUnchanged | v2/config/singbox_compat.go:208-291 | converting a converted rule keeps it as it is and asks for no server |
| Compat.KeptField | v2/config/singbox_compat.go:208-342 | a kept rule field by field: which stay, go, or are set |
| Compat.ServerField | v2/config/singbox_compat.go:174-206 | a converted server field by field |
| Compat.ServersArePrefix | v2/config/singbox_compat.go:99-136 | converted servers keep their places; behind them come only servers for codes whose tag no earlier server had |
| Compat.ServersGrow | v2/config/singbox_compat.go:344-367 | adding servers changes the list only, and only at its end |
| Compat.RejectsAreServed | v2/config/singbox_compat.go:328-367 | every kept rejecting or predefined rule, nested ones too, names a server of the final list, up to spaces around that server's tag |
| Compat.LiteralTag | v2/config/singbox_compat.go:344-367 | the named tag is there literally exactly when it was before or no tag was it with spaces around |
| Compat.PaddedTag | v2/config/singbox_compat.go:353-367 | a server tagged with a space in front of a code's tag keeps the one with the literal tag from being added |
| CompatActions.KeptByText | v2/config/singbox_compat.go:208-326 | a rule that is not logical is kept exactly when its action is none, `route` or `evaluate` with a condition, `route-options` with one besides the server, or `reject` or `predefined` |
| CompatActions.LogicalKeptByText | v2/config/singbox_compat.go:211-228 | a logical rule is kept exactly when its action is one of these six and some nested rule is kept, if it lists any |
| CompatActions.ServerByText | v2/config/singbox_compat.go:237-258 | the server stays for no action, `route` and `evaluate`, goes for `route-options`, and is that of the code for the answering ones: `refused`, or what `rcode` names, `success` by default |
| CompatActions.CodesByText | v2/config/singbox_compat.go:249-256 | such a rule needs a server for exactly that code, and others for none |
| CompatActions.RoutedDomain | v2/config/singbox_compat.go:241-243 | a rule that routes a domain to a server is kept with that server |
| CompatActions.OneCondition | v2/config/singbox_compat.go:294-326 | a rule of one condition is dropped exactly when the value is null, false, blank or an empty list |
| CompatActions.RouteField | v2/config/singbox_compat.go:157-172 | known fields of the route stay, the Android override only on Android |
| CompatActions.ServerAddress | v2/config/singbox_compat.go:189-196 | a given address stays; a blank one gives way to the typed server's, if its type has one |
| CompatMeaning.MeaningKept | v2/config/singbox_compat.go:208-367 | for rules whose action texts both cores share, every query hits the corresponding first rule and gets the same server and options, or the code that the texts of action and `rcode` name; the two names of one matcher count as the same |
| CompatMeaning.MatchesKept | v2/config/singbox_compat.go:208-291 | a plain rule matches the same queries after the conversion |
| CompatMeaning.BlockingRuleIsPlain | v2/config/singbox_compat.go:249-250 | a rule that rejects a domain is one of the plain rules |
| CompatUpdate.NormalizeRoute | v2/config/singbox_compat.go:157-172 | deleting in place leaves the known fields, and reports a change exactly when there was one |
| CompatUpdate.NormalizeServer | v2/config/singbox_compat.go:174-206 | converts a server in place, and reports a change exactly when there was one |
| CompatUpdate.EnsureServer | v2/config/singbox_compat.go:344-367 | adds a server unless one has the tag |
| CompatUpdate.NormalizeRule | v2/config/singbox_compat.go:208-291 | converts a rule in place and grows the server list on the way |
| CompatUpdate.NormalizeRules | v2/config/singbox_compat.go:115-134 | rebuilds a list of rules, keeping order and dropping what is not kept |
| CompatUpdate.Normalize | v2/config/singbox_compat.go:85-155 | converts the whole configuration in place; an unreported change is none |
| ResolveInsertion.Append | v2/config/official_runtime.go:170 | Go's append, in place or into a new array, also when what is appended overlaps the room |
| ResolveInsertion.Insert | v2/config/official_runtime.go:170 | the two appends put the new rules at the index, whatever arrays are shared |
| ResolveInsertion.Options.ApplyResolveDestination | v2/config/official_runtime.go:149-171 | the policy in place gives the specified rules, and nothing changes when it is off or nothing is missing |
| ResolveInsertion.CollectTags | v2/config/official_runtime.go:687-701 | the tags, non-empty and each once, in order |
| ResolveInsertion.HasResolveRule | v2/config/official_runtime.go:742-760 | finds a default resolve rule for the inbound exactly when there is one |
| ResolveInsertion.FindInsertIndex | v2/config/official_runtime.go:795-817 | the first rule that does not pass connections on |
| ResolveInsertion.Placement | v2/config/official_runtime.go:149-171 | told by the fields: old rules keep their order; one new rule for exactly the tags that no default resolve rule has in its inbounds or leaves open; before them only rules that sniff, hijack DNS or resolve, behind them one that does not |
| ResolveInsertion.AllCovered | v2/config/official_runtime.go:715-760 | every non-empty inbound tag has a default resolve rule that names it or names no inbound afterwards |
| ResolveInsertion.AgainNothing | v2/config/official_runtime.go:149-171 | a second application inserts nothing, whatever strategy and server |
| ResolveInsertion.NewRuleMatches | v2/config/official_runtime.go:724-728 | a new rule matches every connection but DNS traffic of its own inbound |
| ResolveInsertion.DnsIsSpared | v2/config/official_runtime.go:715-740 | DNS traffic meets none of the new rules exactly when they are all for the inbound it came in by; everything else meets each of them |
| ResolveInsertion.OtherInboundsDns | v2/config/official_runtime.go:724-728 | with rules for two inbounds, DNS traffic of the first meets that of the second |
| WindowsDns.CleanAfter | v2/config/official_runtime.go:210-254 | after one pass no reference is to a remote server exactly when none was before or the local tag is not shadowed |
| WindowsDns.RemoteNamedLocal | v2/config/official_runtime.go:385-408 | a remote server already called `dns-local` hides the added one, and queries still go to it |
| WindowsDns.DistinctNotShadowed | v2/config/official_runtime.go:371-408 | with distinct tags and `dns-local` not naming a non-local server, the local tag is not shadowed |
| WindowsDns.PassTwice | v2/config/official_runtime.go:210-254 | a second pass changes nothing, whatever the options |
| WindowsDns.OnlyReferencesTurn | v2/config/official_runtime.go:419-502 | exactly the references to remote servers are turned, one by one in nested rules too, and nothing else changes |
| WindowsDns.LocalAfter | v2/config/official_runtime.go:210-254 | the clean result by server kinds: after a pass no reference is to a UDP, TCP, TLS, QUIC or HTTPS server exactly when none was before or the local tag is not that of such a server |
| WindowsDns.TurnedByKinds | v2/config/official_runtime.go:385-436 | a reference turns exactly when the last server of its tag is of such a kind, to the first tagged local or DHCP server or else to a new `dns-local` |
| WindowsDns.Runtime.EnsureLocal | v2/config/official_runtime.go:385-408 | finds the first tagged local server or puts one in front |
| WindowsDns.Runtime.SanitizeDns | v2/config/official_runtime.go:210-231 | the pass over DNS in place |
| WindowsDns.Runtime.SanitizeRoute | v2/config/official_runtime.go:233-254 | the pass over the route in place |
| WindowsDns.RewriteRule | v2/config/official_runtime.go:439-502 | the recursive loop over nested rules rewrites the tree as specified |
| WindowsDns.BuildIndex | v2/config/official_runtime.go:371-384 | the last server of a tag stands for it |
| Region.DecisionAfter | v2/config/official_runtime.go:504-606 | every connection hits the same first rule, and its outbound changes as the region demands for Chinese and for foreign sets, fields told in `Region.PolicyExactly` |
| Region.SameMatches | v2/config/official_runtime.go:504-532 | no rule of any depth matches anything else after the rewriting |
| Region.LastRegionWins | v2/config/official_runtime.go:504-606 | applying one region and then another equals applying the last alone |
| Region.SameComplement | v2/config/official_runtime.go:581-606 | whether a logical rule is a complement does not depend on the region its nested rules were turned to |
| Region.PolicyExactly | v2/config/official_runtime.go:504-606 | the outbound of each rule afterwards, told by its fields: Chinese sets, foreign sets, or an and-rule of inverted default rules with a bundled set and `geoip-cn`; everything else stays |
| Region.ForeignOnly | v2/config/official_runtime.go:520-606 | a logical rule whose outbound depends on the region matches no connection that meets what one of its nested rules lists |
| Region.NotInverted | v2/config/official_runtime.go:587-594 | one nested rule that is not inverted keeps a logical rule as it is |
| Region.Router.ApplyRegion | v2/config/official_runtime.go:137-147 | the policy in place; what matches no rule goes directly |
| Region.ResolveTags | v2/config/official_runtime.go:968-1005 | the two loops pick the usual tag, or else the first tagged outbound of the kind |
| Region.TagsExactly | v2/config/official_runtime.go:968-1005 | the usual tag when an outbound has it or no tagged one is of the kind, and otherwise the tag of the first one of the kind that has a tag |
| Region.RewriteRule | v2/config/official_runtime.go:504-547 | the in-place recursion rewrites the tree as specified |
| Region.IsComplement | v2/config/official_runtime.go:581-606 | the early-return loop decides the complement form |
| ForceDirect.CollectDetours | v2/config/config.go:630-653 | the loop's map holds each server name with its detour |
| ForceDirect.DirectOrFirst | v2/config/config.go:647-651 | direct wins if any outbound of the name dials directly, and otherwise the first outbound's detour |
| ForceDirect.DnsOptions.AddForceDirect | v2/config/config.go:630-690 | prepends one rule for each detour and adds its server, in whatever order the maps are walked; fails exactly when a server is needed and the address is not understood |
| ForceDirect.ExactlyOneRule | v2/config/config.go:655-687 | each server name is in exactly one prepended rule, once, with its detour's server |
| ForceDirect.ForcedDecision | v2/config/config.go:655-687 | a server name goes to its detour's DNS server and any other query is decided as before |
| ForceDirect.Confluent | v2/config/config.go:655-687 | whatever the iteration order, every query gets the same decision |
| Generate.GenerateOptions | v2/config/config.go:59-95 | builds exactly the specified configuration, up to the order of maps, and fails exactly on addresses or WARP data that are not valid |
| Generate.Builder.SetDns | v2/config/config.go:383-416 | the four base DNS servers |
| Generate.Builder.SetRouting | v2/config/config.go:712-802 | the routing and DNS rules, branch by branch; what they decide is in `Decisions` |
| Generate.Builder.SetOutbounds | v2/config/config.go:129-250 | WARP switched off by a known key, outbounds kept in order, selector and test group over the shown ones |
| References.TagsExactly | v2/config/config.go:129-250 | the generated tags are the six fixed ones, those of the given outbounds that are kept, and WARP when it is on |
| References.NothingDangles | v2/config/config.go:59-95 | every reference names something emitted exactly when each given detour is a fixed tag, a kept tag or WARP that is on; no shown given tag holds the default mark unless a kept one is the mark; and WARP was not chosen and then switched off without a kept outbound of its tag |
| References.UnknownDetour | v2/config/config.go:159-189 | a given detour that names nothing emitted |
| References.MarkInTag | v2/config/config.go:203-216 | a shown tag with the default mark in it, while no outbound has the mark for its tag |
| References.WarpGone | v2/config/config.go:133-143 | a given outbound with the WARP key switches WARP off after it was chosen |
| References.ResolversEndLocal | v2/config/config.go:383-416 | every resolver chain ends at `dns-local` exactly when the direct address is dialled and no given server name goes over a detour called `direct`, nor over `local` with a dialled remote address |
| References.CollectedOver | v2/config/config.go:630-653 | a detour is collected exactly when the first given outbound of some server name goes over it and none of that name is dialled directly |
| References.DetourNamedDirect | v2/config/config.go:661-670 | a server name reached over a detour called `direct` |
| References.SameDecisions | v2/config/config.go:630-690 | two configurations generated from the same input send every query to the same DNS server |
| References.ShownExactly | v2/config/config.go:183-186 | users are offered exactly the kept outbounds without the hide mark |
| References.RegionsAgree | v2/config/config.go:726-763 | generated routing rules send Chinese and other destinations where the region policy would |
| Decisions.RouteDecision | v2/config/config.go:712-802 | the outbound of every connection: DNS, the test network by WARP mode, ads, the region, the local network, the time server and QUIC, each as switched on, and directly otherwise |
| Decisions.LocalNetwork | v2/config/config.go:765-767 | a connection to the local network that meets nothing else bypasses exactly when asked for |
| Decisions.QueryDecision | v2/config/config.go:630-690 | the DNS server of every query: of a server name the one for its detour, then test host, time server and fake DNS |
| Decisions.WarpDials | v2/config/config.go:144-158 | WARP dials over the selected outbound in front of the proxies, and directly behind them |
| Decisions.KeptDial | v2/config/config.go:159-189 | a kept outbound dials over its own detour, or over WARP when that is behind and none is given |
| Decisions.ServersDial | v2/config/config.go:383-416 | which DNS servers there are and over what each dials, in both directions |
| Decisions.TagsAreUnique | v2/config/config.go:129-250 | generated tags are unique exactly when those of the kept outbounds are and none of these is WARP while WARP goes behind the proxies |
| Decisions.GivenTwice | v2/config/config.go:161-189 | a kept outbound that is given twice |
| Decisions.KeepsExactly | v2/config/config.go:161-189 | which given outbounds are kept, by tag and kind |
| Decisions.WarpOnExactly | v2/config/config.go:133-144 | WARP stays on exactly when it was chosen and no given outbound has its key or that of the placeholder |
| FlatToNested.Convert | v2/config/core_option.go:282-302 | walking and growing the nested maps step by step gives the specified places, and stops the program exactly when the specification does |
| FlatToNested.GoesThrough | v2/config/core_option.go:282-302 | the conversion goes through in every iteration order exactly when no key's segments begin another's and no value list is empty |
| FlatToNested.OrderMatters | v2/config/core_option.go:282-302 | with the keys `a` and `a.b` the conversion stops in one order; in the other it goes through and `a` alone is left |
| FlatToNested.SameInEveryOrder | v2/config/core_option.go:282-302 | it then gives the same maps in every order: each key's first value at its place and nothing besides |
| FlatToNested.FlattenBack | v2/config/core_option.go:282-302 | flattening the maps gives exactly each key's first value |
| FlatToNested.SplitInjective | v2/config/core_option.go:285 | different keys have different segments |

## Left out

- DOM and UI code, XHR, promises, RPC stubs and interceptors of `rpc.js`, and its float and double fields: their meaning is the browser's or floating point.
- `jspb` 64-bit joins to plain numbers: results beyond 2^53 are exact integers here, while JavaScript rounds them.
- `BinaryWriter.writeBytes` keeps the caller's array in its block list; here the bytes are copied.
- Writer.BinaryWriter.Write: covers varint, fixed-width, text, byte, message and group fields; packed and repeated writers only loop over these, and float and double writers compute bit patterns of floating-point numbers.
- Writer.BinaryWriter.WriteAll: covers the same fields.
- Reader.BinaryReader.SkipField: carries a bound on its steps, as the deserializers do, because on bytes that are no message a length read as negative can move the cursor back, and then the original need not stop.
- Reader.BinaryReader.SkipGroup: promises nothing for bytes that are no well-formed group, with the same bound on its steps and for the same reason.
- Messages.RoundTrip: numbers lie within the ranges that the writer asserts and the message is shorter than 2^32 bytes.
- Generated messages other than the outbound groups: the same code with other field numbers.
- `GrpcWeb`: arrays are typed arrays, which ignore writes past their ends; the fallback to plain arrays of old browsers is not modelled.
- Headers, trailers and status handling of gRPC-Web responses: text processing around the frames.
- `OutboundResolver`: normalizing TLS options, rule-set paths and dialler detours of a whole configuration applies the resolver field by field.
- `FfiCache`: `StopAndAlert` clears the core without refreshing and is left out of the freshness claims; reading the proxy state is one step; the status cache has the same form as one of the two list caches.
- `FfiCache`: selections and tests begin on a running core only, since on a stopped one a test returns at once and a selection crashes the process; one that is overtaken by a stop leaves the core stopped instead of crashing.
- `FfiCache`: the lock that keeps starts and stops apart, and starts that fail before the core runs, are not modelled; the runs allowed here are the more.
- `Compat`: letters are folded as ASCII; the printed form of a JSON object is a constant, which matters only where an object stands for a text; text that is no JSON is not modelled.
- `Compat`: the address of a typed DNS server is an arbitrary function of its type and fields, so host and port formatting is not modelled.
- CompatUpdate.NormalizeRule: does not report whether it changed anything, because its callers mark a change in any case; a dropped rule's half-way state is not specified.
- CompatMeaning.MeaningKept: for legacy matchers, the actions route, reject with the method `default` or none, and record-free predefined, and no tags with the reserved prefix; other actions and the method `drop` have no counterpart to compare with, and that a core drops instead of answering when `no_drop` is off and rejections come too fast is not modelled.
- CompatMeaning.MatchesKept: for the same rules.
- `ResolveInsertion`: the choice of the DNS server for the new rules is a parameter.
- `WindowsDns` and `Region`: nested rule lists are values that are written back, so two rules sharing one nested slice are not modelled.
- `WindowsDns`: DNS rules and routing rules share one tree type, since both are rewritten alike.
- Inbound repair for desktop and mobile platforms: single fields set one by one.
- `Generate`: inbounds, logging, NTP and the Clash API name no tags; patches of outbounds are identities in the source.
- `FlatToNested`: setting option fields from the nested maps is driven by reflection.
- LevelDB tables, gRPC servers, commands and platform bindings: input and output.
