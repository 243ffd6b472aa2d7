# Edge AI runtime: models and proofs

This project models the state-changing cores of the TI edge AI runtime and of the
utilities around it, and proves what their callers rely on. To verify:

    dafny verify dfyconfig.toml

## What is modelled

**The ONNX message codec** (`wire`, `messages`, `messagelaws`, `roundtrip`, `mergelaws`, `wirelaws`,
`codec`, `recordbytes`, `parsedmessages`, `soundness`, `recordorder`, `associativity`, `sizes`,
`messageobject`, `onnx`, `onnxarms`, `onnxcodec`). The generated parsers, printers, size passes and
merges differ only in their table of fields, so the theory is written once over such tables, and
`onnx` gives the table, with its tag constants, of each of the twenty generated message types;
`onnxarms` says what each of their arms makes of bytes. A message is a type, one list of elements
for every field, and its unknown bytes; an empty list is an unset field. Bytes are decoded to
actions that do not depend on the message, and the actions are run on it: that is what lets
concatenation, order and merging be compared. `messageobject` has the class whose methods update the
fields in place, with the tag dispatch, the fast loop over repeated fields and the caches that the
size pass leaves for the printer, each proved to do what the theory says. The wire primitives follow
the Protocol Buffers "Encoding" document, sections "Base 128 Varints", "Length-Delimited Records",
"Packed Repeated Fields", "Last One Wins" and "Field Order".

**Tensor reformatting** (`requantisation`, `stridedcopy`, `tensorlayout`, `datamove`). A nest
of copy loops is a list of trip counts and strides; the kernels are proved to do what the nest
does, and injectivity, coverage, frames and round trips are proved about nests. On top stand the
layouts, the same-tensor checks with the memcpy shortcut, and the four variants of the arithmetic.

**The config parser** (`configtokens`, `configparser`, `confignumbers`, `configroundtrip`, `tokentable`,
`tokenprint`): the tokenizer that overwrites its buffer, the second stage that stores through the
token table, and the two sorts that printing the parameters leaves behind.

**The allocator** (`memorypool`), **the BMP transforms** (`bmpcontext`), **the batch slots**
(`batchslots`), **the string splitter** (`stringsplit`) and **the cache loop** (`cacheblock`).

`arithmetic` and `wrappers` hold a few shared facts and the Option type.

## Where the code promises less than one might expect

Each of these has a real input at which it fails and the exact condition under which it holds.

- Printing and merging treat a float as unset when it compares equal to zero, so a negative zero
  in `AttributeProto.f` is lost. `Codec.ParseSerialize` and `Codec.CopyIsExact` say that nothing
  else is; `OnnxCodec.NegativeZeroLost` is the input.
- Merging is associative exactly when no oneof clashes (`MergeAssociativity.MergeAssociative`);
  `OnnxCodec.TypeMergeNotAssociative` is three types that clash.
- The same-tensor checks compare layouts and channel pitches only when there is more than one
  channel, while the copies count channels as numChannels*dim1*dim2.
  `DataMove.ShortcutExactIn` and `DataMove.ShortcutExactOut` say exactly when the memcpy shortcut
  leaves what reformatting would (`DataMove.UnpaddedRight` what that comes to without padding);
  `DataMove.ShortcutExchanges`, `DataMove.ShortcutPacks` and, for the scale of a float,
  `DataMove.ShortcutSkipsScale` are descriptors for which it does not.
- The check on the way in compares the buffer size and the one on the way out does not, so one may
  reformat and the other copy. `DataMove.DispatchRoundTrip` says exactly when tensors come back;
  `DataMove.DispatchLosesTensor` is a descriptor with which they do not.
- For a float internal buffer the way in takes the internal scale to be 1 and the way out takes it as
  it stands, so the distance of a value from the zero point comes back divided by it
  (`DataMove.FloatTransfer`, `DataMove.FloatTransferLost`).
- Printing the parameters sorts the table, and with it the entry that ends it: an entry without a place
  may land behind that and not be found again (`TokenPrint.PrintLeadsTo`, `TokenPrint.StaysLast`,
  `TokenPrint.PrintLosesEntry`).
- Saving an image of two planes takes a third from in front of it (`BmpContexts.RegionInside`,
  `BmpContexts.TwoPlanesOutside`).
- A rank-one TFLite tensor is sliced by its only dimension, so its slices cover it only when it
  has at most one element (`BatchSlots.TfliteCoversTensor`, `BatchSlots.RankOneOverrun`).
- With a delimiter of several characters, splitting a joined list need not return it
  (`StringSplit.SplitJoin`, `StringSplit.ListLost`).
- A sum of padding and size that wraps around at 32 bits grants a chunk outside the pool
  (`MemoryPool.RunSafe`, `MemoryPool.WrapEscapes`).
- The second stage of the config parser reads past its items when it comes to a parameter that is
  followed by its "=" and nothing else, or to a numeric one without a recorded line end behind its
  first value (`ConfigParser.AssignRunsOut`). A closing quote, and a blank before CR LF, leave no
  line end, and a missing value takes the line end for itself; such a line takes what follows it up
  to the next line end for its values, and at the end of the file the items run out
  (`ConfigRoundTrip.FileRunsOut`, and three files after it).

## Model

| member | source | states |
|---|---|---|
| `OnnxCodec.OnnxRoundTrip` | arm-tidl/onnxrt_ep/src/onnx-ml.proto3.pb.cpp:6626-6822 | for every valid message of all twenty types, at any nesting: printed from the caches of the size pass it has exactly the size that pass returns, and parsing it gives the message back if and only if no singular float in it, at any depth, is 00 00 00 80 (or the eight bytes of the like double) |
| `OnnxCodec.ParseConcatenation` | arm-tidl/onnxrt_ep/src/onnx-ml.proto3.pb.cpp:6626-6866 | the serializations of two messages end to end parse to the merge of the second into a copy of the first, and that copy is the first message if and only if it holds no such negative zero |
| `OnnxCodec.TypeMergeNotAssociative` | arm-tidl/onnxrt_ep/src/onnx-ml.proto3.pb.cpp:6830-6866 | merging TypeProto messages is not associative: tensor type, sequence type, tensor type |
| `MergeAssociativity.MergeAssociative` | arm-tidl/onnxrt_ep/src/onnx-ml.proto3.pb.cpp:6830-6866 | for every schema and any three messages of one type, merging gives the same whichever two are merged first if and only if no field clashes: a oneof whose message-valued member the first and third message have set, the second another, where the third does not override all of the first |
| `MergeAssociativity.OverridesExactly` | arm-tidl/onnxrt_ep/src/onnx-ml.proto3.pb.cpp:4553-4589 | merging into a message leaves nothing of it exactly when, field by field, what it has set is set again |
| `MergeAssociativity.MergeCopy` | arm-tidl/onnxrt_ep/src/onnx-ml.proto3.pb.cpp:4591-4596 | a copy merges as the message it was made from |
| `OnnxCodec.NegativeZeroLost` | arm-tidl/onnxrt_ep/src/onnx-ml.proto3.pb.cpp:1108-1112 | an attribute whose float is negative zero is valid, prints as nothing and does not come back |
| `OnnxCodec.MinusOneKept` | arm-tidl/onnxrt_ep/src/onnx-ml.proto3.pb.cpp:1108-1112 | an attribute whose float is -1.0 prints as the bytes 21, 0, 0, 128, 191 and comes back |
| `OnnxCodec.ValidSizable` | arm-tidl/onnxrt_ep/src/onnx-ml.proto3.pb.cpp:4385-4545 | a valid message meets the shape that the exact-size result asks for |
| `Codec.ParseSerialize` | arm-tidl/onnxrt_ep/src/onnx-ml.proto3.pb.cpp:4104-4383 | round trip for any schema of this kind: parsing what a valid message prints returns it, in every byte and every nested field, exactly when nothing with a negative zero is dropped |
| `Codec.ParseMerges` | arm-tidl/onnxrt_ep/src/onnx-ml.proto3.pb.cpp:4553-4589 | parsing the serialization of `b` into a message that holds `a` is `a.MergeFrom(b)`, through submessages, oneofs, repeated, packed and unknown fields, whatever bytes follow |
| `Codec.ParseAppend` | arm-tidl/onnxrt_ep/src/onnx-ml.proto3.pb.cpp:4104-4262 | parsing `x` and then `y` into the same message is parsing `x + y` |
| `Codec.CopyIsExact` | arm-tidl/onnxrt_ep/src/onnx-ml.proto3.pb.cpp:1426-1431 | copying gives back the message copied exactly when no negative zero is lost |
| `RecordBytes.RecordIs` | arm-tidl/onnxrt_ep/src/onnx-ml.proto3.pb.cpp:1092-1227 | what is printed for one value, byte for byte: a singular one is left out if and only if it is zero, empty, or the four or eight bytes of a negative zero, and any other is its tag and its varint, its bytes, or its length and bytes |
| `RecordBytes.SubRecordIs` | arm-tidl/onnxrt_ep/src/onnx-ml.proto3.pb.cpp:1092-1227 | a submessage is printed as its tag, its length and its own serialization |
| `OnnxArms.EveryArmListed` | arm-tidl/onnxrt_ep/src/onnx-ml.proto3.pb.cpp:918-6996 | the lists of arms that the following results go by leave out no field of the twenty types, and sort each by how it is kept, its kind and the type of its submessage |
| `OnnxArms.PackedNumbers` | arm-tidl/onnxrt_ep/src/onnx-ml.proto3.pb.cpp:4111-4117 | read into any message, a packed chunk of varints, or a single one behind its own tag, adds to the list the numbers of the 32- or 64-bit type of the arm that have the same low bits |
| `OnnxArms.DimensionsRead` | arm-tidl/onnxrt_ep/src/onnx-ml.proto3.pb.cpp:4111-4117 | the bytes 0A 02 02 03 give a tensor the dimensions 2 and 3 |
| `OnnxArms.PackedFloats` | arm-tidl/onnxrt_ep/src/onnx-ml.proto3.pb.cpp:4136-4143 | likewise the four bytes of each float and the eight of each double |
| `OnnxArms.StringLists` | arm-tidl/onnxrt_ep/src/onnx-ml.proto3.pb.cpp:1823-1835 | a repeated string is added to the list, and refused unless it is UTF-8 |
| `OnnxArms.ByteLists` | arm-tidl/onnxrt_ep/src/onnx-ml.proto3.pb.cpp:4156-4166 | a repeated byte string is added, whatever it holds |
| `OnnxArms.Strings` | arm-tidl/onnxrt_ep/src/onnx-ml.proto3.pb.cpp:4179-4186 | a singular string replaces what was there, and is refused unless it is UTF-8 |
| `OnnxArms.ByteStrings` | arm-tidl/onnxrt_ep/src/onnx-ml.proto3.pb.cpp:4188-4194 | a singular byte string replaces what was there, whatever it holds |
| `OnnxArms.Numbers` | arm-tidl/onnxrt_ep/src/onnx-ml.proto3.pb.cpp:4122-4127 | a singular number replaces what was there, a zero with nothing |
| `OnnxArms.Floats` | arm-tidl/onnxrt_ep/src/onnx-ml.proto3.pb.cpp:934-941 | a singular float likewise; a negative zero is kept |
| `OnnxArms.Submessages` | arm-tidl/onnxrt_ep/src/onnx-ml.proto3.pb.cpp:4129-4134 | a singular submessage is parsed over the one that is there, as the type of its arm, and refused when that is refused or the nesting budget is used up |
| `OnnxArms.SubmessageTwice` | arm-tidl/onnxrt_ep/src/onnx-ml.proto3.pb.cpp:4129-4134 | so two records of one leave what a single one with both payloads would |
| `OnnxArms.SubmessageLists` | arm-tidl/onnxrt_ep/src/onnx-ml.proto3.pb.cpp:4225-4235 | a repeated submessage is parsed into a new one behind the others |
| `OnnxArms.TypeMembers` | arm-tidl/onnxrt_ep/src/onnx-ml.proto3.pb.cpp:6632-6680 | of a type, a record of one of the five members leaves that one set and the others not, parsed over it if it was the one set |
| `OnnxArms.DimensionValue` | arm-tidl/onnxrt_ep/src/onnx-ml.proto3.pb.cpp:5001-5006 | a dimension value, zero included, clears the name |
| `OnnxArms.DimensionName` | arm-tidl/onnxrt_ep/src/onnx-ml.proto3.pb.cpp:5008-5015 | and a name, the empty one included, the value; it is refused unless it is UTF-8 |
| `RecordBytes.UnknownParsed` | arm-tidl/onnxrt_ep/src/onnx-ml.proto3.pb.cpp:4244-4253 | a record of a number that the type has not, or of a wire type its field does not take, is kept byte for byte behind the unknown bytes, groups included, unless it is nested too deeply |
| `RecordBytes.StrayEnd` | arm-tidl/onnxrt_ep/src/onnx-ml.proto3.pb.cpp:4245-4249 | a stray end of a group and a zero tag end the parse, which the callers refuse |
| `MergeLaws.RunActs` | arm-tidl/onnxrt_ep/src/onnx-ml.proto3.pb.cpp:6830-6866 | the parse actions that a message prints as, run on `a`, are the merge into `a` |
| `MergeLaws.MergeNothing` | arm-tidl/onnxrt_ep/src/onnx-ml.proto3.pb.cpp:4553-4589 | merging a message with nothing set changes nothing |
| `RoundTrip.DecodeSerialize` | arm-tidl/onnxrt_ep/src/onnx-ml.proto3.pb.cpp:6697-6759 | a printed message decodes to exactly its own records, consuming every byte |
| `RoundTrip.DecodeElems` | arm-tidl/onnxrt_ep/src/onnx-ml.proto3.pb.cpp:4225-4235 | the records of a repeated field decode to its elements, whatever follows |
| `RoundTrip.StepOfChunk` | arm-tidl/onnxrt_ep/src/onnx-ml.proto3.pb.cpp:4111-4119 | a packed chunk is taken whole as the list it was printed from |
| `RoundTrip.ReadElemOf` | arm-tidl/onnxrt_ep/src/onnx-ml.proto3.pb.cpp:4122-4126 | every scalar reads back from its wire form, negative 32-bit numbers through their ten-byte form |
| `ParsedMessages.ParseValid` | arm-tidl/onnxrt_ep/src/onnx-ml.proto3.pb.cpp:918-1090 | parsing any bytes into a valid message fails or leaves a valid message: one oneof case, numbers in range, checked strings, whole unknown records |
| `ParsedMessages.ReparseStable` | arm-tidl/onnxrt_ep/src/onnx-ml.proto3.pb.cpp:918-1227 | whatever was parsed, from any encoding, survives being printed and parsed again, up to negative zero |
| `ParsedMessages.DecodeFits` | arm-tidl/onnxrt_ep/src/onnx-ml.proto3.pb.cpp:918-1090 | every action decoded from any bytes fits the field it is for |
| `Soundness.MergeSound` | arm-tidl/onnxrt_ep/src/onnx-ml.proto3.pb.cpp:6830-6866 | merging keeps every field of its kind and at most one case of the oneof set |
| `Soundness.RunSound` | arm-tidl/onnxrt_ep/src/onnx-ml.proto3.pb.cpp:6626-6695 | so does parsing, record by record |
| `RecordOrder.ParseByField` | arm-tidl/onnxrt_ep/src/onnx-ml.proto3.pb.cpp:4104-4262 | parsing depends only on each field's own sequence of records (the members of a oneof, and the unknown fields, counting as one field each) |
| `RecordOrder.SwapRecords` | arm-tidl/onnxrt_ep/src/onnx-ml.proto3.pb.cpp:4104-4262 | swapping adjacent records of different fields changes nothing, whatever follows |
| `RecordOrder.ParseChunks` | arm-tidl/onnxrt_ep/src/onnx-ml.proto3.pb.cpp:4111-4190 | any mix of packed chunks and single elements adds the same list |
| `Sizes.ByteSizeExact` | arm-tidl/onnxrt_ep/src/onnx-ml.proto3.pb.cpp:4385-4545 | the size pass computes the exact length of the serialization |
| `Sizes.PrintCachedExact` | arm-tidl/onnxrt_ep/src/onnx-ml.proto3.pb.cpp:4264-4383 | a printer that takes every nested and packed length from right caches prints the serialization |
| `MessageLaws.DecodeAppend` | arm-tidl/onnxrt_ep/src/onnx-ml.proto3.pb.cpp:4104-4262 | decoding `x + y` is decoding `x` and then `y` |
| `MessageLaws.ValidIsSound` | arm-tidl/onnxrt_ep/src/onnx-ml.proto3.pb.cpp:6584-6613 | a valid message has one oneof case and fields of their kinds |
| `Onnx.OnnxSchema` | arm-tidl/onnxrt_ep/src/onnx-ml.proto3.pb.cpp:918-6996 | all twenty tables of fields are well formed: distinct ascending numbers, packed fields numeric |
| `Onnx.OnnxTables` | arm-tidl/onnxrt_ep/src/onnx-ml.proto3.pb.cpp:918-6996 | and the tag constants of all twenty parsers are field number and wire type of the tables, two-byte ones included |
| `MessageObject.Message.Clear` | arm-tidl/onnxrt_ep/src/onnx-ml.proto3.pb.cpp:6615-6624 | the message becomes the default one |
| `MessageObject.Message.MergeFrom` | arm-tidl/onnxrt_ep/src/onnx-ml.proto3.pb.cpp:6830-6866 | in place: this message becomes the merge, the other is untouched |
| `MessageObject.Message.MergeField` | arm-tidl/onnxrt_ep/src/onnx-ml.proto3.pb.cpp:1377-1424 | what one field of the other message leaves here: appended, replaced unless it counts as unset, merged, or switched to with the other cases cleared |
| `MessageObject.Message.SetSlot` | arm-tidl/onnxrt_ep/src/onnx-ml.proto3.pb.cpp:6584-6613 | writing a member of a oneof clears the others first |
| `MessageObject.Message.CopyFrom` | arm-tidl/onnxrt_ep/src/onnx-ml.proto3.pb.cpp:6868-6873 | a merge into nothing, except that copying onto itself changes nothing |
| `MessageObject.Message.InternalParse` | arm-tidl/onnxrt_ep/src/onnx-ml.proto3.pb.cpp:6626-6695 | the parse loop ends, and ends as decoding does: at the limit, at an end-group or zero tag, or in failure; the message has then done exactly the decoded actions |
| `MessageObject.Message.ParseRepeated` | arm-tidl/onnxrt_ep/src/onnx-ml.proto3.pb.cpp:4225-4235 | the loop that looks for its own tag takes the same records, to the same position, as going back to the dispatch for each |
| `MessageObject.Message.ParseSubmessage` | arm-tidl/onnxrt_ep/src/onnx-ml.proto3.pb.cpp:6634-6639 | a submessage is parsed over the one that is there (or a new one, for a repeated field) and must end at its limit within the nesting budget |
| `MessageObject.Message.ParseChunk` | arm-tidl/onnxrt_ep/src/onnx-ml.proto3.pb.cpp:4111-4119 | a packed chunk is appended, and refused unless its last element ends with it |
| `MessageObject.Message.ParseUnusual` | arm-tidl/onnxrt_ep/src/onnx-ml.proto3.pb.cpp:4244-4253 | a record of an unknown number or wire type is kept byte for byte in its shortest form, or ends the parse |
| `MessageObject.NextOfField` | arm-tidl/onnxrt_ep/src/onnx-ml.proto3.pb.cpp:1061-1071 | when the next bytes are the field's own tag, of one byte or two, the dispatch would come back to the same arm |
| `MessageObject.Message.ByteSizeLong` | arm-tidl/onnxrt_ep/src/onnx-ml.proto3.pb.cpp:4385-4545 | returns the exact size and leaves every cached size right, nested and packed |
| `MessageObject.Message.FieldSize` | arm-tidl/onnxrt_ep/src/onnx-ml.proto3.pb.cpp:1229-1369 | the size a field adds, and the size of its elements that the printer will read |
| `MessageObject.Message.InternalSerialize` | arm-tidl/onnxrt_ep/src/onnx-ml.proto3.pb.cpp:4264-4383 | appends to the target what the caches make of the message |
| `MessageObject.Message.Print` | arm-tidl/onnxrt_ep/src/onnx-ml.proto3.pb.cpp:4264-4545 | size pass and printer in a row write the serialization |
| `Wire.VarintRoundTrip` | arm-tidl/onnxrt_ep/src/onnx-ml.proto3.pb.cpp:4122-4126 | a varint reads back, whatever follows (section "Base 128 Varints" of the Encoding document) |
| `Wire.ReadTagOfTag` | arm-tidl/onnxrt_ep/src/onnx-ml.proto3.pb.cpp:921-924 | a tag reads back as its field number and wire type |
| `Wire.ReadDelimitedOf` | arm-tidl/onnxrt_ep/src/onnx-ml.proto3.pb.cpp:6634-6639 | a length-delimited payload reads back (section "Length-Delimited Records") |
| `Wire.SkipFieldStable` | arm-tidl/onnxrt_ep/src/onnx-ml.proto3.pb.cpp:4250-4251 | an unknown record, once kept, is skipped again to the same bytes |
| `WireLaws.VarintEnds` | arm-tidl/onnxrt_ep/src/onnx-ml.proto3.pb.cpp:4122-4126 | of any bytes, a varint is the groups of seven bits up to the first byte below 128 |
| `WireLaws.VarintRefused` | arm-tidl/onnxrt_ep/src/onnx-ml.proto3.pb.cpp:4122-4126 | and refused when none of the bytes it may have is below 128 |
| `WireLaws.TagBits` | arm-tidl/onnxrt_ep/src/onnx-ml.proto3.pb.cpp:921-924 | a tag is the low 32 bits of its varint, shortest or not |
| `WireLaws.DelimitedSize` | arm-tidl/onnxrt_ep/src/onnx-ml.proto3.pb.cpp:6634-6639 | a payload is taken whole up to 2147483631 bytes and refused beyond |
| `WireLaws.DelimitedShort` | arm-tidl/onnxrt_ep/src/onnx-ml.proto3.pb.cpp:6634-6639 | and refused when cut short |
| `WireLaws.RawSkipped` | arm-tidl/onnxrt_ep/src/onnx-ml.proto3.pb.cpp:4250-4251 | any unknown record, nested groups included, is skipped to its end and kept byte for byte if and only if the budget covers its nesting |
| `WireLaws.RawRefused` | arm-tidl/onnxrt_ep/src/onnx-ml.proto3.pb.cpp:4250-4251 | records numbered 0, of no wire type, or of a group that another number ends are refused |
| `WireLaws.Utf8Is` | arm-tidl/onnxrt_ep/src/onnx-ml.proto3.pb.cpp:4183 | the check of strings accepts exactly the encodings of sequences of Unicode scalar values (RFC 3629) |
| `StridedCopy.CopyTranspose` | arm-tidl/rt/src/tidl_rt_ovx_datamove.cpp:143-181 | the four general loops do to the destination what the nest of loops says: f(src) at every index, in order |
| `StridedCopy.CopyLinear` | arm-tidl/rt/src/tidl_rt_ovx_datamove.cpp:98-134 | the linear loops leave the very same buffer as the general ones at pixel pitch one |
| `StridedCopy.Copy` | arm-tidl/rt/src/tidl_rt_ovx_datamove.cpp:473-555 | the dispatch between them does not change the result |
| `StridedCopy.NestHit` | arm-tidl/rt/src/tidl_rt_ovx_datamove.cpp:236-464 | a cell that one counter value alone reaches holds the converted source element |
| `StridedCopy.NestFrame` | arm-tidl/rt/src/tidl_rt_ovx_datamove.cpp:236-464 | a cell that no counter value reaches is unchanged |
| `StridedCopy.NestLast` | arm-tidl/rt/src/tidl_rt_ovx_datamove.cpp:236-464 | a cell that several counter values reach holds what the last of them wrote |
| `StridedCopy.NestedInjective` | arm-tidl/rt/src/tidl_rt_ovx_datamove.cpp:755-803 | strides that step over the inner loops give an injective index map |
| `StridedCopy.DenseBijective` | arm-tidl/rt/src/tidl_rt_ovx_datamove.cpp:780-803 | dense strides reach every cell of the buffer once |
| `StridedCopy.CopyBack` | arm-tidl/rt/src/tidl_rt_ovx_datamove.cpp:755-811 | copying from a covered buffer to any injective layout and back restores it, whatever the buffers held |
| `TensorLayout.DenseLayouts` | arm-tidl/rt/src/tidl_rt_ovx_datamove.cpp:785-798 | the dense NCHW and NHWC maps are bijections onto [0, b*c*h*w), for every shape including empty ones |
| `TensorLayout.PaddedInjective` | arm-tidl/rt/src/tidl_rt_ovx_datamove.cpp:755-770 | the padded NCHW map is injective when the channel pitch is at least (h-1)*linePitch + w |
| `TensorLayout.CopyMaps` | arm-tidl/rt/src/tidl_rt_ovx_datamove.cpp:755-803 | for all four pairs of layouts the internal map is injective and the user's map a bijection |
| `TensorLayout.PaddingHoldsNothing` | arm-tidl/rt/src/tidl_rt_ovx_datamove.cpp:755-770 | no element stands in the rows and columns of the padding |
| `TensorLayout.PlacesAre` | arm-tidl/rt/src/tidl_rt_ovx_datamove.cpp:755-803 | where the loops put element (n, c, r, q) and take it from, by the fields of the descriptor, for both layouts on either side |
| `DataMove.IsInTensorSame` | arm-tidl/rt/src/tidl_rt_ovx_datamove.cpp:595-657 | the check on the way in, return by return: that of the way out and, when it is known, the size of the buffer |
| `DataMove.IsOutTensorSame` | arm-tidl/rt/src/tidl_rt_ovx_datamove.cpp:665-712 | the check on the way out, return by return |
| `DataMove.MemcpySize` | arm-tidl/rt/src/tidl_rt_ovx_datamove.cpp:729-743 | how many elements the memcpy moves |
| `DataMove.InBranch` | arm-tidl/rt/src/tidl_rt_ovx_datamove.cpp:772-807 | the scales and zero point the way in settles on, and the branch of the arithmetic they select |
| `DataMove.InKernel` | arm-tidl/rt/src/tidl_rt_ovx_datamove.cpp:808-1340 | the pairs of types for which the switches have a kernel |
| `DataMove.SettleUser` | arm-tidl/rt/src/tidl_rt_ovx_datamove.cpp:1400-1409 | how the way out settles the scale and zero point of the user |
| `DataMove.CopyIn` | arm-tidl/rt/src/tidl_rt_ovx_datamove.cpp:721-811 | which of nothing, memcpy, reformatting and failure happens, and the whole internal buffer afterwards |
| `DataMove.CopyOut` | arm-tidl/rt/src/tidl_rt_ovx_datamove.cpp:1352-1444 | the same on the way out, with the scale and zero point settled in the user's descriptor |
| `DataMove.TensorRoundTrip` | arm-tidl/rt/src/tidl_rt_ovx_datamove.cpp:755-811 | with equal scale and zero point, and types of at most 16 bits (or floats of scale 1) that hold the values, a dense user tensor comes back exactly from any internal layout that gives every element a cell of its own |
| `DataMove.TensorRoundTripExact` | arm-tidl/rt/src/tidl_rt_ovx_datamove.cpp:755-811 | and for buffers of given sizes every such tensor comes back if and only if no two elements share a cell |
| `DataMove.RoomyInjective` | arm-tidl/rt/src/tidl_rt_ovx_datamove.cpp:755-803 | as in the dense internal layout, and in the padded one with room for its lines and planes, for all four pairs of layouts |
| `DataMove.PlacedIn` | arm-tidl/rt/src/tidl_rt_ovx_datamove.cpp:755-811 | in every layout that gives each element a cell of its own, reformatting in puts element (n, c, r, q) at n*C*cp + c*cp + (padT + r)*(padL + width + padR) + padL + q for NCHW, at its dense place behind padT*(padL + width + padR) + padL for NHWC, converted |
| `DataMove.ReadOut` | arm-tidl/rt/src/tidl_rt_ovx_datamove.cpp:1386-1444 | and reformatting out reads it from there, for any layout |
| `DataMove.PaddingKept` | arm-tidl/rt/src/tidl_rt_ovx_datamove.cpp:755-811 | reformatting leaves the padding of every plane as it was |
| `DataMove.DispatchRoundTrip` | arm-tidl/rt/src/tidl_rt_ovx_datamove.cpp:721-811 | in and out again by whichever ways the two checks choose: every tensor comes back if and only if both ways reformat and no two elements share a cell, both copy as many elements as there are, or the copy out finds every element where the reformatting put it |
| `DataMove.DispatchLosesTensor` | arm-tidl/rt/src/tidl_rt_ovx_datamove.cpp:641-654 | a real descriptor that reformats in and copies out, and loses tensors |
| `DataMove.LargeEnough` | arm-tidl/rt/src/tidl_rt_ovx_datamove.cpp:755-783 | a buffer that reaches as far as the last element is all that the loops need |
| `DataMove.ShortcutExactIn` | arm-tidl/rt/src/tidl_rt_ovx_datamove.cpp:595-750 | for every descriptor that passes the comparison, padded or not, and buffers that both ways fit in: memcpy leaves the same internal buffer as reformatting, whatever the buffers hold, if and only if it copies as many elements as there are and the internal offset is 0 and every pitch that matters is that of the user |
| `DataMove.ShortcutRefinesIn` | arm-tidl/rt/src/tidl_rt_ovx_datamove.cpp:725-750 | one direction of it, for given contents |
| `DataMove.ShortcutDiffersIn` | arm-tidl/rt/src/tidl_rt_ovx_datamove.cpp:595-657 | the other: for any sizes that both ways fit in, contents that tell the two apart, overlapping planes and padding included |
| `DataMove.ShortcutExactOut` | arm-tidl/rt/src/tidl_rt_ovx_datamove.cpp:665-712 | the same condition on the way out, and for floats that the internal scale is 1 |
| `DataMove.ShortcutRefinesOut` | arm-tidl/rt/src/tidl_rt_ovx_datamove.cpp:1361-1385 | one direction of it |
| `DataMove.ShortcutDiffersOut` | arm-tidl/rt/src/tidl_rt_ovx_datamove.cpp:665-712 | the other |
| `DataMove.UnpaddedRight` | arm-tidl/rt/src/tidl_rt_ovx_datamove.cpp:595-657 | without padding the condition of the way in comes to this: nothing to move, or the channel pitch is a plane, layouts agree or exchange a trivial axis, and the planes follow one another or there is only one |
| `DataMove.ShortcutExchanges` | arm-tidl/rt/src/tidl_rt_ovx_datamove.cpp:595-615 | a real descriptor with one channel and two planes passes the check although the layouts differ, and memcpy is wrong |
| `DataMove.ShortcutPacks` | arm-tidl/rt/src/tidl_rt_ovx_datamove.cpp:602-615 | and one whose internal planes are spaced apart |
| `DataMove.ShortcutSkipsScale` | arm-tidl/rt/src/tidl_rt_ovx_datamove.cpp:1355-1385 | and, on the way out alone, one float whose scale is not 1 |
| `DataMove.TransferError` | arm-tidl/rt/src/tidl_rt_ovx_datamove.cpp:807-811 | the error bound below for the branches that the descriptors select, all types and zero points, when both ways take the same internal scale |
| `DataMove.FloatTransfer` | arm-tidl/rt/src/tidl_rt_ovx_datamove.cpp:777-779 | they do not for a float internal buffer, whose scale the way in resets and the way out does not: what is handed to the last conversion is (x - z) / scale + z, which is x if and only if x is the shift z or the internal scale is 1 |
| `DataMove.FloatTransferLost` | arm-tidl/rt/src/tidl_rt_ovx_datamove.cpp:1355 | a real pair of descriptors for which 200 comes back as 50, against a bound of 1.25 |
| `Requantisation.RequantError` | arm-tidl/rt/src/tidl_rt_ovx_datamove.cpp:378-464 | over the reals with positive scales, a value taken in without saturating and out again moves by less than userScale/internalScale + 1, in every branch, for all zero points and types |
| `Requantisation.ScaledIn` | arm-tidl/rt/src/tidl_rt_ovx_datamove.cpp:948-1083 | all four branches in scale the distance from the same shift: nothing when the zero points agree, the one of the user otherwise |
| `Requantisation.ScaledOut` | arm-tidl/rt/src/tidl_rt_ovx_datamove.cpp:1555-1789 | all four branches out scale it back and add the shift |
| `Requantisation.SaturationHarmless` | arm-tidl/rt/src/tidl_rt_ovx_datamove.cpp:81-89 | saturating never takes a result further from a value the type holds |
| `Requantisation.IntegerConversions` | arm-tidl/rt/src/tidl_rt_ovx_datamove.cpp:81-89 | to an integer type a value beyond the bounds becomes the bound, -128 and 127 and so on, and any other the integer next to it toward zero |
| `Requantisation.HoldsIs` | arm-tidl/rt/src/tidl_rt_ovx_datamove.cpp:81-89 | a buffer of an integer type holds the integers between its bounds |
| `Requantisation.FloatConversions` | arm-tidl/rt/src/tidl_rt_ovx_datamove.cpp:81-89 | to a float it stays as it is within the largest float |
| `ConfigTokens.Tokenize` | tiadalg/common/tiadalg_configparser.c:184-271 | the scan, which overwrites the buffer with NULs as it goes, ends with item pointers whose C strings are the items of the original text |
| `ConfigTokens.ScanComment` | tiadalg/common/tiadalg_configparser.c:198-208 | one arm of the switch: what is already recorded and what is still to come add up to the same items |
| `ConfigTokens.ScanQuote` | tiadalg/common/tiadalg_configparser.c:243-256 | likewise, entering and leaving a string |
| `ConfigParser.StoreValues` | tiadalg/common/tiadalg_configparser.c:316-355 | the do-while loop stores the values of one parameter up to the first line end behind its first value |
| `ConfigParser.AssignItems` | tiadalg/common/tiadalg_configparser.c:284-360 | the second stage: every place filled, or -1 at the first parameter without "=", for all items that do not run out |
| `ConfigParser.ParseContent` | tiadalg/common/tiadalg_configparser.c:141-361 | both stages together end and do what the items of the text say, for every text of fewer than 512 items that do not run out |
| `ConfigParser.AssignRunsOut` | tiadalg/common/tiadalg_configparser.c:284-360 | the second stage runs past the items if and only if it comes to a known name that is followed by "=" and nothing, or is numeric and has no line end behind its first value; it returns -1 if and only if it comes to one without "="; neither depends on what is stored |
| `ConfigRoundTrip.FileRunsOut` | tiadalg/common/tiadalg_configparser.c:141-361 | of a file of such lines, with values left out, quoted or followed by CR LF, the items run out if and only if the file ends while a parameter waits for its first value or its line end |
| `ConfigRoundTrip.ValuelessRunsOut` | tiadalg/common/tiadalg_configparser.c:284-360 | `a =` and a line feed is such a file |
| `ConfigRoundTrip.QuotedRunsOut` | tiadalg/common/tiadalg_configparser.c:243-256 | so is `a = "5"` and a line feed |
| `ConfigRoundTrip.BlankCrRunsOut` | tiadalg/common/tiadalg_configparser.c:191-194 | and `a = 5`, a blank and CR LF |
| `ConfigRoundTrip.ConfigFileStored` | tiadalg/common/tiadalg_configparser.c:141-361 | a file of `name = v1 ... vn` lines, integers, floats or a text, bare or quoted, ended by LF or CR LF, with any blanks, `#` comments and blank lines, stores exactly its values (all for MULTI, the first for SINGLE) and returns 0, when every numeric line records a line end or a line that does comes before the next parameter |
| `ConfigRoundTrip.ValueStored` | tiadalg/common/tiadalg_configparser.c:316-355 | in terms of the file alone: value j of the last line that fills its place ends up j, 2*j or 4*j bytes from there for 8, 16 and 32 bits, a decimal v as v itself for every int, and as far as the smaller types hold it; texts and floats as written |
| `ConfigRoundTrip.IntFileStored` | tiadalg/common/tiadalg_configparser.c:141-361 | the file of the one line a = v stores v and nothing else, for every int |
| `ConfigRoundTrip.RenderIsItems` | tiadalg/common/tiadalg_configparser.c:184-271 | the scan finds exactly the names, values and line ends of such a file |
| `ConfigRoundTrip.ValuesStored` | tiadalg/common/tiadalg_configparser.c:316-355 | the loop over the values stores them at consecutive places of the type's width and stops at the line end |
| `ConfigRoundTrip.DecimalReadsBack` | tiadalg/common/tiadalg_configparser.c:325 | a number in decimal, negative ones included, reads back, also in front of CR |
| `ConfigNumbers.IntegerRead` | tiadalg/common/tiadalg_configparser.c:323 | an integer is read behind white space and a sign up to the first character that is no digit |
| `ConfigNumbers.NoIntegerRead` | tiadalg/common/tiadalg_configparser.c:323 | and not at all without a digit |
| `ConfigRoundTrip.DecimalMeans` | tiadalg/common/tiadalg_configparser.c:323-337 | a number in decimal means itself for an int, the number of -32768..32767 or of 0..255 with the same low bits for 16 and 8 bits, also in front of CR |
| `ConfigRoundTrip.QuotedItem` | tiadalg/common/tiadalg_configparser.c:224-256 | a quoted text is one item, blanks included |
| `ConfigRoundTrip.CrlfEnds` | tiadalg/common/tiadalg_configparser.c:191-222 | CR LF for LF takes the line end away behind a blank and nowhere else |
| `ConfigRoundTrip.CrlfRenders` | tiadalg/common/tiadalg_configparser.c:191-194 | and the lines meant by it differ in nothing but the CR |
| `ConfigRoundTrip.ValueStands` | tiadalg/common/tiadalg_configparser.c:284-360 | the last line that fills a place decides what it holds |
| `ConfigRoundTrip.OthersKept` | tiadalg/common/tiadalg_configparser.c:284-360 | a place that no line fills keeps its content |
| `TokenTable.ParameterNameToMapIndex` | tiadalg/common/tiadalg_configparser.c:103-116 | the first entry of that name before the terminator, or -1 |
| `TokenTable.SortTokenMap` | tiadalg/common/tiadalg_configparser.c:427-461 | the exchange sort, either way, entry for entry what its exchanges make of the table: the first n entries come out sorted by place and a permutation, the rest untouched |
| `TokenTable.PrintParams` | tiadalg/common/tiadalg_configparser.c:463-564 | both sorts in a row, entry for entry; they permute the first n entries only |
| `TokenTable.PrintKeepsLookup` | tiadalg/common/tiadalg_configparser.c:463-564 | with distinct names and the terminator beyond the sorted entries, every name leads to the same entry afterwards |
| `TokenTable.PrintKeepsTerminator` | tiadalg/common/tiadalg_configparser.c:463-564 | so it does with the terminator last among the sorted entries and its place the only null one |
| `TokenPrint.PrintTurns` | tiadalg/common/tiadalg_configparser.c:427-461 | the upward sort keeps the entries with a null place in order, and the downward one puts them last, turned round by as many as there are others |
| `TokenPrint.PrintLeadsTo` | tiadalg/common/tiadalg_configparser.c:463-564 | with distinct names, and entries that end the table anywhere in the range, all with null places: after printing a name leads to its entry if and only if that has a place or lands in front of all that end the table |
| `TokenPrint.PrintKeepsExactly` | tiadalg/common/tiadalg_configparser.c:463-564 | so printing keeps where a name of the range leads if and only if its entry stood in front of all that end the table exactly when it stays in front |
| `TokenPrint.PrintKeepsOthers` | tiadalg/common/tiadalg_configparser.c:463-564 | a name that the range does not hold leads nowhere, before and after |
| `TokenPrint.StaysLast` | tiadalg/common/tiadalg_configparser.c:463-564 | with the one end of the table last in the range, an entry with a null place stays if and only if at least (entries with a place) modulo (entries without) null places stand in front of it |
| `TokenPrint.PrintLosesEntry` | tiadalg/common/tiadalg_configparser.c:463-564 | a table of three entries that loses one by being printed |
| `MemoryPool.Handle.constructor` | tiadalg/common/tiadalg_mem_manager.c:92-100 | creates an empty pool |
| `MemoryPool.Handle.ResetHandle` | tiadalg/common/tiadalg_mem_manager.c:108-113 | the pool becomes empty again |
| `MemoryPool.ResetForgets` | tiadalg/common/tiadalg_mem_manager.c:108-113 | whatever came before a reset, what follows it is as on a new pool |
| `MemoryPool.Handle.GetMemoryChunk` | tiadalg/common/tiadalg_mem_manager.c:123-159 | one request, with its 32-bit sums and the pointer it returns, as the specification of a pool says |
| `MemoryPool.AlignmentIs` | tiadalg/common/tiadalg_mem_manager.c:127-129 | the 32-bit mask on a 64-bit address and the truncation give the distance to the next multiple of a power of two |
| `MemoryPool.AndMask` | tiadalg/common/tiadalg_mem_manager.c:127-129 | masking with the bits from k up to n clears the low k bits |
| `MemoryPool.GetIsExact` | tiadalg/common/tiadalg_mem_manager.c:132-157 | for every size and power-of-two alignment: a chunk that is granted is aligned, and within the pool if and only if the 32-bit sum does not wrap; without wrapping it is granted if and only if an aligned chunk fits; a refusal changes nothing |
| `MemoryPool.NullMeans` | tiadalg/common/tiadalg_mem_manager.c:132-157 | the pointer returned is null if and only if the request is refused or the next free address is 0 |
| `MemoryPool.RunConserves` | tiadalg/common/tiadalg_mem_manager.c:92-159 | over every run, whatever is asked for, used and available bytes add up to the total |
| `MemoryPool.RunSafe` | tiadalg/common/tiadalg_mem_manager.c:92-159 | over every run of power-of-two requests, the chunks the caller got since the last reset are in bounds, aligned and pairwise disjoint if and only if no request since then passed the check by a sum that wrapped |
| `MemoryPool.SmallNeverWraps` | tiadalg/common/tiadalg_mem_manager.c:127-132 | which a caller rules out by keeping size + alignment within 32 bits |
| `MemoryPool.WrapEscapes` | tiadalg/common/tiadalg_mem_manager.c:127-157 | two requests of a pool of sixteen bytes by which a chunk escapes |
| `BmpContexts.SaveToBmpContext` | tiadalg/common/tiadalg_img_proc.c:231-282 | the three loops of saving, flips and plane reversal included, as one nest; the header fields it sets |
| `BmpContexts.LoadFromBmpContext` | tiadalg/common/tiadalg_img_proc.c:190-225 | the three loops of loading |
| `BmpContexts.LoadedRegion` | tiadalg/common/tiadalg_img_proc.c:203-220 | what loading puts at each plane, row and column, for any region of a context of any width and pitches |
| `BmpContexts.SaveWritesEachByteOnce` | tiadalg/common/tiadalg_img_proc.c:262-279 | the index map of saving is a bijection onto the 3*w*h bytes |
| `BmpContexts.RegionInside` | tiadalg/common/tiadalg_img_proc.c:262-279 | with buffers large enough, saving a region inside the image stays inside both if and only if the image has one plane or at least three, or the region is empty |
| `BmpContexts.TwoPlanesOutside` | tiadalg/common/tiadalg_img_proc.c:262-279 | one pixel of an image of two planes: it reads outside, whatever the buffers |
| `BmpContexts.RegionRoundTrip` | tiadalg/common/tiadalg_img_proc.c:190-282 | saving a region and loading the context back gives, plane for plane, the crop at column start_x and row img_height - roi_height - start_y; one plane comes back in all three |
| `BmpContexts.ImageRoundTrip` | tiadalg/common/tiadalg_img_proc.c:190-282 | for a whole three-plane image it is the identity |
| `BatchSlots.SlotBijection` | arm-tidl/common/tidl_onnxrt_common.cpp:174-179 | l*V*N + k*N + j is a bijection onto [0, L*V*N) |
| `BatchSlots.FillSlots` | arm-tidl/common/tidl_onnxrt_common.cpp:174-192 | the loops of one tensor set its slot in every batch, to the start of that batch, and no other slot |
| `BatchSlots.OnnxSlots` | arm-tidl/common/tidl_onnxrt_common.cpp:134-232 | the ONNX driver: all slots of all tensors, and nothing else |
| `BatchSlots.OnnxSlotIs` | arm-tidl/common/tidl_onnxrt_common.cpp:134-232 | each of its slots: the start of its batch in the data, and the fields beside it |
| `BatchSlots.TfliteSlots` | arm-tidl/common/tidl_tflrt_common.cpp:253-294 | the TFLite driver, which skips optional and other tensors and numbers the rest |
| `BatchSlots.TfliteSlotIs` | arm-tidl/common/tidl_tflrt_common.cpp:253-294 | the same for a TFLite tensor of four dimensions |
| `BatchSlots.EverySlotSet` | arm-tidl/common/tidl_onnxrt_common.cpp:222-232 | with as many tensors as slots per core, every slot is set, to its own tensor and batch |
| `BatchSlots.SlicesTile` | arm-tidl/common/tidl_onnxrt_common.cpp:174-192 | the slices of a tensor are equal, contiguous and disjoint: every address of its buffer lies in exactly one |
| `BatchSlots.ElementsPerBatch` | arm-tidl/common/tidl_tflrt_common.cpp:191-195 | the loop multiplies all dimensions but the first; a rank-one tensor keeps its only one |
| `BatchSlots.ShapeProduct` | arm-tidl/common/tidl_tflrt_common.cpp:180-184 | the buffer size is the product of the shape |
| `BatchSlots.TfliteCoversTensor` | arm-tidl/common/tidl_tflrt_common.cpp:191-218 | with the batch as first dimension the slices cover a tensor of rank two or more exactly; one of rank one only when it has at most one element |
| `BatchSlots.RankOneOverrun` | arm-tidl/common/tidl_tflrt_common.cpp:191-195 | two batches of a rank-one tensor of two elements are given four |
| `StringSplit.SplitStringWithDelimiter` | arm-tidl/onnxrt_ep/src/onnxrt_ep.cpp:155-169 | the loop ends and returns the pieces between the first, and then each next, occurrences |
| `StringSplit.JoinSplit` | arm-tidl/onnxrt_ep/src/onnxrt_ep.cpp:155-169 | the pieces joined give back the string |
| `StringSplit.PiecesFree` | arm-tidl/onnxrt_ep/src/onnxrt_ep.cpp:155-169 | no piece contains the delimiter |
| `StringSplit.SplitJoin` | arm-tidl/onnxrt_ep/src/onnxrt_ep.cpp:155-169 | splitting a joined list returns it if and only if no delimiter begins inside a piece, or straddles its end |
| `StringSplit.ListLost` | arm-tidl/onnxrt_ep/src/onnxrt_ep.cpp:155-169 | a list and a two-character delimiter for which it does not come back |
| `StringSplit.SplitJoinOneChar` | arm-tidl/onnxrt_ep/src/onnxrt_ep.cpp:155-169 | which a one-character delimiter and pieces without it always meet |
| `CacheBlock.Block` | tiadalg/common/cache.c:159-195 | the loop ends; the register pairs it writes follow one another without gap or overlap over the word span, 0xFF00 words each but the last |
| `CacheBlock.TilesCover` | tiadalg/common/cache.c:180-195 | a byte is worked on exactly when it lies in the span, and by one operation only |
| `CacheBlock.SmallestSpan` | tiadalg/common/cache.c:173-177 | the span is the smallest one of whole words that holds every byte of a non-empty range |

## Left out

- MessageObject.Message.InternalParse: a submessage is a value owned by its field, not a separately
  reachable object, so aliasing between messages and pointer identity are not captured; what a failed
  parse leaves in the message is not stated.
- MessageObject.Message.Print: arenas, stream buffering and `EnsureSpace`, default instances, swapping,
  reflection and the enum name tables of the generated code; messages and payloads are below 2^31 bytes,
  and the nesting budget is a parameter.
- Wire.SkipFieldStable: varint, tag, fixed-width and length-delimited reading, the UTF-8 check and the
  skipping of unknown fields are modelled from the Encoding document; the protobuf runtime that
  implements them is not part of this model.
- Requantisation.RequantError: the arithmetic is over the reals; the rounding of IEEE floats, and scales
  that are zero or negative, are not modelled.
- DataMove.TensorRoundTrip: limited to types of at most 16 bits because the kernels pass every value
  through a 32-bit float, which holds those exactly.
- DataMove.CopyIn: index arithmetic does not wrap around at 32 bits; a conversion out of the range of
  the target type, which the as-is kernels leave undefined, is not given a meaning; the hundreds of type
  arms are one kernel over a conversion.
- DataMove.CopyOut: the settled descriptor is returned rather than written through a pointer; the
  unused arguments are dropped.
- ConfigParser.ParseContent: cells are typed and addressed by their first byte, so values of different
  widths that overlap are not modelled; a FLOAT is kept as the text its number is read from; at most
  511 items, as the items array demands; the value read before the first number is a parameter.
- ConfigRoundTrip.ConfigFileStored: numbers within the range of int, which is all that `%d` promises; what
  a line stores that takes a later line for its values is stated by `ConfigParser.ParseContent` alone.
- ConfigRoundTrip.FileRunsOut: files whose names are in the table, without places of unknown type and with
  one value for every text.
- TokenTable.PrintParams: the printed text.
- MemoryPool.Handle.GetMemoryChunk: the fill patterns, which are compiled out, and guard bytes of size 0.
- MemoryPool.RunSafe: alignments that are no power of two, for which the mask does not align.
- DataMove.ShortcutExactIn: the reformatting takes the user's buffer for a dense one, padded or not, as the
  code does; where no kernel exists for a pair of types it stands for the loops alone.
- TokenPrint.PrintLeadsTo: an entry that ends the table and has a place all the same.
- BmpContexts.SaveToBmpContext: reading and writing BMP files, and 32-bit overflow of indices.
- BatchSlots.OnnxSlots: type codes, status values and the calls into the runtime library; 32-bit overflow
  of sizes.
- BatchSlots.TfliteSlots: likewise, and tensors without dimensions.
- StringSplit.SplitStringWithDelimiter: an empty delimiter, with which the loop would not end, and strings
  longer than a 32-bit index.
- CacheBlock.Block: the dummy accesses to external memory, waiting for the hardware, and spans that pass
  the end of the address space.
- `tiadalg/common/ti_mem_manager.c` is the same allocator under other names.
- File and console I/O, host messages, dynamic loading, environment lookup and profiling.
