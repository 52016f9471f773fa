# Verified model of the Solana SDK's core

A Dafny 4.11 project that models the parts of the SDK where a mistake is silent: the message
compiler, the wire codecs, the reflective decoder, the WebSocket subscription protocol, Token-2022
extension parsing and wide integers. `dafny verify dfyconfig.toml` checks all of it.

Code that changes state is modelled by classes and methods with loops (`Bincode`, `MessageCode`,
`Transaction`, `Entry`, `StaticEntries`, `MessageBuilder`, `Resolution`, `PlanMachine`, `WsClient`,
`WsUtil`, `Token2022`, `WideInt`); each method is proved equal to a specification function or
predicate, and the theorems are about those specifications.

| part | specification | theorems | code |
|---|---|---|---|
| byte formats | `Wire` | `Wire`, `Layouts` | `Bincode` |
| messages | `Message`, `MessageV1`, `MessageCodec` | `MessageCodec`, `Layouts` | `MessageCode` |
| transactions | `TxCodec`, `Signing` | `TxCodec`, `Signing`, `Layouts` | `Transaction` |
| entries | `Entry` | `Entry` | `Entry` |
| message compiler | `StaticEntries`, `Builder`, `Resolution` | `Compilation`, `CompilerTheorems`, `Privileges`, `ReferenceOrder`, `BuilderLaws`, `Resolution` | `StaticEntries`, `MessageBuilder`, `Resolution` |
| reflective decoder | `GoTypes`, `Reflection`, `DecodePlan` | `ReflectionLaws`, `DecodePlan`, `PlanTheorems`, `PlanExactness` | `PlanMachine` |
| subscriptions | `WsProtocol` | `WsInvariant`, `WsTheorems` | `WsClient` |
| drop-oldest channels | `WsUtil` | `WsUtil` | `WsUtil` |
| Token-2022 extensions | `Token2022` | `Token2022`, `TokenLayout` | `Token2022` |
| wide integers | `WideInt` | `WideInt` | `WideInt` |

`Ordering` holds the facts about sorted selections that the compiler needs; `Examples` holds concrete
inputs.

## Where the code does less than it says

Each of these is stated by a lemma that gives the exact condition, a concrete input, or both.

- **Legacy messages with 128 or more signers** marshal but do not read back: the first byte is taken
  for a version prefix (`Examples.ManyLegacySignersDoNotReadBack`). A configuration on a legacy or v0
  message is silently not written, and a missing v1 configuration reads back as an empty one
  (`MessageCodec.RoundTrip`, an equivalence).
- **A v0 transaction with exactly 129 signatures** is taken for v1, because its count begins with the
  v1 marker byte (`TxCodec.TxRoundTrip`, `Examples.A129thSignatureDoesNotReadBack`).
- **A v1 message behind leading signatures** is accepted by `DecodeTransaction`, and marshals to
  different bytes (`TxCodec.TxReencoding`, an equivalence; `TxCodec.FrontSignedV1IsAccepted`).
- **`Transaction.SerializedSize`** sizes the signature count for at most two bytes; it is wrong from
  16384 signatures on, where the transaction does not marshal anyway
  (`Transaction.Transaction.SerializedSize`).
- **`Transaction.Sign`** documents that a failing call leaves the transaction unchanged, but it grows
  the signature slots before it looks at the signers. A call refused for an unknown signer or an
  unmarshalable message leaves them unchanged if and only if there were enough
  (`Signing.UnknownSignerLeavesSlots`, `Signing.UnmarshalableLeavesSlots`,
  `Examples.ARefusedSignGrowsTheSlots`); one refused by a failing signer, if and only if moreover every
  signer before it produced what its slot already held (`Signing.FailedSignerLeavesSlots`).
- **Lookup slots of 256 and above** are truncated to a byte by `NewMessageV0`; compilation is faithful
  if and only if no supplied slot is that high (`CompilerTheorems.CompilationIsFaithful`,
  `Examples.AHighSlotIsMisrouted`).
- **256 signers** wrap the header's signer count to zero; privileges are exact if and only if there
  are at most 255 (`Privileges.PrivilegesAreExact`, `Examples.A256thSignerWrapsTheHeader`).
- **A program that is also a routed account** stands twice in the index space, once static and once in a
  table. Instructions use the table index; the static one does not carry a write role
  (`CompilerTheorems.SpaceRepeatsExactly`, `Privileges.EveryIndexExactly`, equivalences;
  `Examples.AProgramAccountStandsTwice`).
- **Decode plans** are faithful to the type if and only if it is `PlanTheorems.Exact`
  (`PlanExactness.RefinesExactly`, for every type that compiles). Three kinds of type are not. Arrays of
  elements of kind uint8 that have their own unmarshaler are copied as bytes, and the unmarshaler is
  never called; arrays of 2^32 elements or more are cut to their length modulo 2^32
  (`Examples.InexactArrays`). Slices of elements of kind uint8 other than the predeclared `uint8` panic
  in `reflect.Copy` if and only if they are not empty (`PlanExactness.ByteSlicePanics`,
  `Examples.ADefinedByteSlicePanics`).
- **Slices of zero-width elements** are refused when they have more elements than bytes follow them
  (`ReflectionLaws.ZeroWidthSlices`, an equivalence; `Examples.AnEmptyElementIsRefused`).
- **An error reply with an empty message** makes `subscribe` return success with nothing registered,
  because it tests only whether the error text is empty. That is the only way to succeed without a
  registration (`WsTheorems.SuccessIsRegistered`, `WsTheorems.ReplyDecides`, equivalences;
  `WsTheorems.SilentRefusalSucceeds`). The handle it returns has id zero, and unsubscribing it takes
  whatever entry stands under zero (`WsTheorems.SilentHandleTakesForeignEntry`,
  `WsTheorems.SilentHandleBesideZero`).
- **The shutdown function of a one-shot subscription** is documented to be invoked once. Once everything
  has settled it has been invoked exactly once if and only if the read loop never completed the entry
  after an `Unsubscribe` or `Close` had taken it (`WsTheorems.ShutdownsExact`;
  `WsTheorems.OneShotShutdownMayRunTwice` reaches a state where it has been invoked twice).

## Assumptions

- The signature scheme is a parameter: signers are functions of the message bytes, and verification
  accepts what the scheme signs. `Instruction.Accounts()`, `ProgramID()` and `Data()` return the same
  values each time they are called.
- Lookup tables are handed to `ResolvedAccountKeys` under their own keys, which are pairwise distinct.
- A custom unmarshaler is a function of the buffer, the cursor and the mode. It moves the cursor
  forward inside the buffer, fills its whole receiver and does not switch the mode.
- The server never reuses a subscription id on one connection; a null result reads as the id zero. Ids
  of requests are matched as section 5 of the JSON-RPC 2.0 Specification says.
- Struct layouts are the ones Go's `reflect` reports: fields in order, without overlap, inside the
  struct; `int` and `uint` are 64 bits wide. A Go panic is modelled as the outcome `Panicked`.

## Model

| member | source | states |
|---|---|---|
| `Bincode.EncodeShortvec` | encoding/bincode.go:265-279 | writes exactly the compact-u16 bytes to the front of the buffer and leaves the rest |
| `Wire.GetShortvecExact` | encoding/bincode.go:286-323 | a compact-u16 decodes to v if and only if its one shortest encoding stands at the cursor; overlong and overflowing forms are refused |
| `Wire.GetLEExact` | encoding/bincode.go:172-203 | fixed-width little-endian reads accept exactly the encoding of the value they return |
| `Wire.LawfulPrefixFree` | encoding/bincode.go:286-323 | no encoding of a lawful codec is a proper prefix of another |
| `Wire.GetVecExact` | message.go:503-517 | a counted vector decodes to xs if and only if its encoding stands at the cursor |
| `Bincode.Encoder.WriteUint64` | encoding/bincode.go:67-71 | appends the eight little-endian bytes |
| `Bincode.Encoder.WriteShortvec` | encoding/bincode.go:92-96 | appends the compact-u16 bytes |
| `Bincode.Decoder.ReadUint64` | encoding/bincode.go:194-203 | returns the little-endian number at the cursor, or refuses without moving |
| `Bincode.Decoder.ReadBytes` | encoding/bincode.go:233-243 | returns the n bytes at the cursor; negative or overlong reads are refused without moving |
| `Bincode.Decoder.ReadShortvec` | encoding/bincode.go:248-255 | decodes the compact-u16 at the cursor, or refuses without moving |
| `Bincode.Decoder.UseBorsh` | encoding/borsh.go:32 | switches the mode of the same object |
| `Message.GetBodySound` | message.go:463-606 | an accepted legacy or v0 body is the encoding of the message returned, ending where it says |
| `Message.GetBodyComplete` | message.go:253-325 | every body that the encoder can write is decoded to its message |
| `MessageV1.MaskExact` | message_v1.go:26-44 | a configuration mask determines which fields are present, and undefined bits occur in none |
| `MessageV1.GetBodyV1Sound` | message_v1.go:116-218 | an accepted v1 body is the encoding of the message returned, undefined mask bits included in what is refused |
| `MessageV1.GetBodyV1Complete` | message_v1.go:68-114 | every v1 body that the encoder can write is decoded to its message |
| `MessageCodec.DecodingIsExact` | message.go:463-606 | at any cursor, decoding yields m if and only if m is canonical and its encoding stands there |
| `MessageCodec.NoProperPrefixDecodes` | message.go:463-606 | no proper prefix of the encoding of a canonical message decodes |
| `MessageCodec.MarshalsExactly` | message.go:238-325 | a message marshals if and only if its version has a layout, only v0 carries lookups and every count fits its field; each of the three refusals, as an equivalence |
| `MessageCodec.UnmarshalRefuses` | message.go:440-485 | empty input, a version byte above 0x81, bytes behind a whole message and proper prefixes of one are refused, each with its error |
| `MessageCodec.UnknownMaskRefused` | message_v1.go:132-138 | v1 bytes whose mask has an unknown bit or half of the fee bits are refused as such |
| `Layouts.CompactBytes` | encoding/bincode.go:265-279 | a compact-u16 is seven bits a byte, low group first, continued by the high bit, in as few bytes as hold it |
| `Layouts.BodyLayout` | message.go:253-325 | the offset of every field of a marshalled legacy or v0 message: version byte, the three header counts in order, keys, blockhash, instructions and lookups with their counts, and the total length |
| `Layouts.V1Layout` | message_v1.go:68-114 | the same for v1: mask bits, blockhash, the two counts, keys, the limits present, instruction counts, then payloads |
| `Layouts.TxLayout` | transaction.go:147-181 | signatures stand behind a v1 message, and counted in front of any other, 64 bytes each |
| `MessageCodec.RoundTrip` | message.go:440-454 | a marshalled message reads back equal if and only if it is representable: fewer than 128 legacy signers, no configuration outside v1, one inside |
| `MessageCodec.RoundTripNormal` | message.go:238-249 | otherwise it reads back up to its configuration |
| `MessageCodec.ReencodingIsIdentity` | message.go:440-454 | every accepted byte string is reproduced by marshalling what was read |
| `MessageCode.SerializedSize` | message.go:197-234 | the size computed without encoding is the length of the encoding, all versions and prefix widths |
| `MessageCode.SerializedSizeV1` | message_v1.go:46-66 | the same for v1 |
| `MessageCode.MarshalInto` | message.go:253-325 | appends the encoding or refuses, exactly as specified |
| `MessageCode.MarshalV1Into` | message_v1.go:68-114 | the same for v1 |
| `MessageCode.MarshalMessage` | message.go:238-249 | returns the encoding, or the specified refusal |
| `MessageCode.DecodeMessage` | message.go:463-606 | the imperative decoder returns the specified message and cursor |
| `MessageCode.DecodeMessageV1` | message_v1.go:116-218 | the same for v1 |
| `MessageCode.UnmarshalMessage` | message.go:440-454 | accepts only when the whole input is consumed |
| `TxCodec.DecodingIsExact` | transaction.go:239-277 | at any cursor, decoding yields tx if and only if, by the first byte, a v1 message and its signatures or counted signatures and a message stand there |
| `TxCodec.DecodesBeforeAnySuffix` | transaction.go:239-277 | a transmissible transaction is read from the front of any stream, leaving exactly the suffix |
| `TxCodec.NoProperPrefixDecodes` | transaction.go:239-277 | no proper prefix of its encoding decodes |
| `TxCodec.TxRoundTrip` | transaction.go:216-230 | a marshalled transaction reads back equal if and only if its message is representable and it is not a v0 one with 129 signatures |
| `TxCodec.TxRoundTripNormal` | transaction.go:216-230 | whatever its configuration, it reads back with that normalised |
| `TxCodec.LooksLikeV1Misread` | transaction.go:239-277 | a v0 transaction with 129 signatures is read as v1 if at all |
| `TxCodec.TxReencoding` | transaction.go:147-181 | an accepted transaction that marshals again gives the same bytes if and only if it is not a v1 message behind leading signatures |
| `TxCodec.FrontSignedV1IsAccepted` | transaction.go:239-277 | a concrete accepted input whose transaction marshals differently |
| `TxCodec.MarshalsExactly` | transaction.go:147-181 | a transaction marshals if and only if it has exactly the required number of signatures and its message is well formed and fits; each refusal, as an equivalence |
| `TxCodec.TransmissibleExactly` | transaction.go:147-181 | the transactions a stream can carry are those that marshal, have a representable message and are not a v0 one with 129 signatures |
| `TxCodec.UnmarshalRefuses` | transaction.go:216-230 | empty input, bytes behind a whole transaction and proper prefixes of one are refused |
| `Transaction.DecodeTransaction` | transaction.go:239-277 | the imperative decoder returns the specified transaction and cursor |
| `Transaction.Transaction.SerializedSize` | transaction.go:50-61 | the size is the length of the encoding whenever Marshal succeeds; exactly when there are fewer than 16384 signatures outside v1 |
| `Transaction.Transaction.Marshal` | transaction.go:147-181 | returns the encoding or the first refusal in order |
| `Transaction.Transaction.UnmarshalBinary` | transaction.go:216-230 | becomes the decoded transaction, or stays as it was |
| `Transaction.Transaction.Sign` | transaction.go:95-143 | slots and result after a call, refusals included, are the specified outcome |
| `Transaction.Transaction.VerifySignatures` | transaction.go:344-368 | accepts exactly when every filled required slot verifies |
| `Signing.SignRunSigns` | transaction.go:95-143 | after any sequence of successful calls each slot of a key that signed holds its signature and all others are unchanged |
| `Signing.SigningIsConfluent` | transaction.go:95-143 | order and grouping of the calls do not matter |
| `Signing.SignedVerifies` | transaction.go:344-368 | from slots that are empty or already verify, any successful run of Sign calls gives a transaction that verifies, also after a codec round trip |
| `Signing.VerifiesExactly` | transaction.go:344-368 | a transaction verifies if and only if it has a slot and a key for each required signer, its message marshals and no required slot holds a non-zero signature that does not verify; each refusal, as an equivalence |
| `Signing.SignsExactly` | transaction.go:95-143 | Sign succeeds if and only if the message requires a signature, lists its signers and marshals, and every given signer is required and signs; what fails first decides the refusal |
| `Signing.UnknownSignerLeavesSlots` | transaction.go:104-125 | refused for an unknown signer, the slots are unchanged if and only if there were enough |
| `Signing.UnmarshalableLeavesSlots` | transaction.go:104-132 | the same when the message does not marshal |
| `Signing.UnsignableLeavesSlots` | transaction.go:96-103 | refused for the header or the key count, nothing is touched |
| `Signing.FailedSignerLeavesSlots` | transaction.go:133-142 | refused by a failing signer, the slots are unchanged if and only if there were enough and each earlier signer produced what its slot held |
| `Entry.EntriesRoundTrip` | entry.go:42-61 | decoding inverts the documented layout for every mix of versions within the limits, and refuses any non-empty suffix |
| `Entry.EntriesReencoding` | entry.go:42-61 | accepted bytes are the layout of what was decoded if and only if no v1 message stands behind leading signatures, and otherwise longer |
| `Entry.LimitsExactly` | entry.go:42-107 | the layout of a list of writable entries decodes if and only if there are at most 1,000,000 of them with at most 10,000 transactions each, and is refused for a count otherwise |
| `Entry.EntriesLayout` | entry.go:42-107 | where the count, each entry, its hash count, hash, transaction count and transactions stand |
| `Entry.DecodeEntry` | entry.go:78-107 | the imperative entry decoder returns the specified entry and cursor |
| `Entry.DecodeEntries` | entry.go:42-61 | the nested loops decode what is specified and consume all input |
| `StaticEntries.Collector.AddOrUpdate` | message_builder.go:42-51 | the collector represents the mentions received so far: roles accumulate, first mention is remembered |
| `StaticEntries.Collector.BucketAndOrder` | message_builder.go:58-89 | for every iteration order of the map, the keys and header are those the mentions determine |
| `StaticEntries.StaticKeysOrdered` | message_builder.go:58-89 | the key list ascends by role bucket, then by first mention, without repetition |
| `StaticEntries.StaticKeysContents` | message_builder.go:58-89 | it holds exactly the mentioned keys |
| `StaticEntries.PayerFirst` | message_builder.go:171-172 | the payer opens the list |
| `MessageBuilder.CompileInstructions` | message_builder.go:111-138 | compiles every instruction through the index, or reports the first failure |
| `MessageBuilder.NewMessage` | message_builder.go:166-209 | builds exactly the specified legacy message or refusal |
| `MessageBuilder.IndexTables` | message_builder.go:233-244 | maps each address to its first slot in the first table that has it |
| `MessageBuilder.CollectSigners` | message_builder.go:246-261 | collects exactly the payer and the keys some meta requires to sign |
| `MessageBuilder.Route` | message_builder.go:263-287 | splits the mentions between static entries and table slots, write roles accumulated |
| `MessageBuilder.SplitSlots` | message_builder.go:313-332 | for every iteration order of the map, the slots of each role in ascending order |
| `MessageBuilder.NewMessageV0` | message_builder.go:227-389 | builds exactly the specified v0 message or refusal |
| `Resolution.ResolvedAccountKeys` | message.go:359-393 | static keys, then all writable, then all readonly lookups, or the specified refusal |
| `Resolution.ResolvesExactly` | message.go:359-393 | resolution succeeds if and only if every lookup has its table and every index of both sides stands inside it |
| `Resolution.ResolvedLayout` | message.go:341-353 | where each selected key stands: static keys, the writable side of each lookup in turn, then the readonly sides |
| `Resolution.ResolutionRefusals` | message.go:359-393 | the first lookup whose writable side fails decides between a missing table and an index out of range; readonly indices are checked after all writable sides |
| `Compilation.V0SucceedsExactly` | message_builder.go:227-389 | NewMessageV0 succeeds exactly when there are instructions, no nil, at most 256 accounts and every instruction has data |
| `Compilation.LookupsResolve` | message_builder.go:357-374 | the emitted lookups resolve to the supplied keys when slots fit a byte |
| `BuilderLaws.V0KeysInOrder` | message_builder.go:263-311 | account keys stand by role, and within a role by their first static reference: payer, then instruction by instruction its accounts by position and then its program |
| `BuilderLaws.LegacyKeysInOrder` | message_builder.go:171-187 | the same for a legacy message, where every reference is static |
| `BuilderLaws.StaticKeysExactly` | message_builder.go:263-287 | a key is static if and only if it pays, is a program, or is an account that no table lists or that must sign |
| `BuilderLaws.RolesExactly` | message_builder.go:42-51 | a key must sign, or be written, if and only if it pays or some account meta says so |
| `BuilderLaws.FirstMatchWins` | message_builder.go:233-244 | a key is found at the first slot of the first table that lists it, and only if one does |
| `BuilderLaws.LookupsListed` | message_builder.go:356-374 | one lookup for each table that delivers an account, in the order of the tables, with its own key and the ascending slots it delivers, written and only read |
| `BuilderLaws.V0Outcomes` | message_builder.go:227-389 | each refusal of NewMessageV0 in the order of the checks, and the version, blockhash and configuration of a success |
| `BuilderLaws.LegacyOutcomes` | message_builder.go:166-209 | the same for NewMessage |
| `CompilerTheorems.V0Resolves` | message.go:359-393 | resolving a compiled message over its tables gives the index space the compiler used |
| `CompilerTheorems.CompilationIsFaithful` | message_builder.go:227-389 | every compiled instruction resolves to its source program, account keys in order and data, if and only if every supplied slot is below 256 |
| `Privileges.PrivilegesAreExact` | message_builder.go:58-105 | the payer opens the list, no signer comes from a table, and every program and account index that an instruction uses carries exactly the OR of its key's roles, if and only if there are at most 255 signers |
| `Privileges.EveryIndexExactly` | message_builder.go:276-287 | used or not, every index of the space carries its key's roles if and only if no program is also a routed account that must be written |
| `CompilerTheorems.SpaceRepeatsExactly` | message_builder.go:276-287 | the index space repeats a key if and only if some program is also a routed account of a meta |
| `Privileges.LegacyIsV0WithoutTables` | message_builder.go:166-209 | without tables NewMessageV0 succeeds on the same inputs as NewMessage, with equal keys, header and instructions |
| `GoTypes.LoadStore` | encoding/decode_plan.go:205-383 | a value stored in a well laid-out object reads back equal |
| `GoTypes.StoreFrame` | encoding/decode_plan.go:166-181 | storing changes no padding, unexported or skipped field, nor anything outside the object |
| `Reflection.DecodeExact` | encoding/decode_plan.go:205-383 | the decoder yields v if and only if v's encoding stands at the cursor and no slice has more elements than bytes follow its prefix |
| `ReflectionLaws.EncodingDecodes` | encoding/decode_plan.go:283-353 | when slice elements take at least a byte, the bincode and Borsh encodings of every value decode to it before any suffix |
| `ReflectionLaws.ThickHasRoom` | encoding/decode_plan.go:315-327 | then the length guard refuses no input that holds the whole encoding |
| `ReflectionLaws.ZeroWidthSlices` | encoding/decode_plan.go:315-327 | n elements without width decode if and only if at least n bytes follow |
| `ReflectionLaws.DecodedForms` | encoding/decode_plan.go:205-353 | what bytes a number, in two's complement if signed, a flag and an option are read from |
| `ReflectionLaws.StringBehindCount` | encoding/decode_plan.go:342-355 | a string is the bytes that its prefix counts, behind it; four or eight bytes of prefix by mode |
| `ReflectionLaws.SliceInTurn` | encoding/decode_plan.go:315-345 | a slice has as many elements as its prefix counts, read one behind the other |
| `ReflectionLaws.StructInTurn` | encoding/decode_plan.go:166-181 | the exported fields that are not skipped are read in their order, and no other moves the cursor |
| `ReflectionLaws.DecodeRefusals` | encoding/decode_plan.go:205-353 | short input, a boolean byte and an option tag above one are refused, each with its error |
| `ReflectionLaws.CountRefusals` | encoding/decode_plan.go:283-350 | a slice or string is refused when its prefix is cut short or counts more than what follows |
| `ReflectionLaws.FieldsDecodedExactly` | encoding/decode_plan.go:166-181 | a struct field is decoded if and only if it is exported and not tagged to be skipped |
| `ReflectionLaws.ModesAgree` | encoding/borsh.go:3-13 | both modes decode alike when no slice, string or unmarshaler is involved |
| `PlanTheorems.PlansModesAgree` | encoding/borsh.go:3-13 | so do their compiled plans, exact or not |
| `DecodePlan.CompilesExactly` | encoding/decode_plan.go:83-194 | compilation fails exactly for types with an unsupported decoded part |
| `DecodePlan.SegmentPlanned` | encoding/decode_plan.go:166-181 | the flattened operations of a type, anywhere in a plan, do what the type asks for unflattened |
| `DecodePlan.BytesRefine` | encoding/decode_plan.go:269-275 | copying n bytes is n single-byte decodes |
| `DecodePlan.PlanPlanned` | encoding/decode_plan.go:83-383 | for every type that compiles, executing its flat plan is the unflattened recursion with its three departures: 32-bit lengths, bytes copied for elements of kind uint8, and the panic of copying them into a slice of another element type |
| `PlanTheorems.PlanRefines` | encoding/decode_plan.go:196-383 | for exact types executing the plan accepts the same inputs with the same errors, memory and cursor as the recursive decoder |
| `PlanExactness.RefinesExactly` | encoding/decode_plan.go:83-383 | a plan does what the recursive decoder does on every input and memory if and only if its type is exact |
| `PlanTheorems.DecodedObject` | encoding/decode_plan.go:386-397 | after a successful decode the object reads back as the decoded value and no other cell has changed |
| `PlanTheorems.CustomObject` | encoding/decode_plan.go:374-377 | the plan of a self-decoding type leaves exactly what its unmarshaler read, at the object and nowhere else, in both modes, or passes its error on |
| `PlanTheorems.UndecodedFieldUntouched` | encoding/decode_plan.go:166-181 | an unexported or skipped field keeps every cell |
| `PlanTheorems.EncodedObject` | encoding/codec.go:47-53 | decoding an encoding into memory gives an object that reads back as the value |
| `PlanExactness.InexactDiffers` | encoding/decode_plan.go:109-149 | for every inexact type, one input on which its plan departs in every memory and at every base |
| `PlanExactness.LongArraysExactly` | encoding/decode_plan.go:118-125 | an array of exact elements is decoded whole if and only if its length is below 2^32 or the elements take no bytes |
| `PlanExactness.ByteSlicePanics` | encoding/decode_plan.go:302-312 | a slice of kind-uint8 elements panics if and only if they are not predeclared bytes and there are any |
| `PlanMachine.PlanBuilder.EmitValue` | encoding/decode_plan.go:83-194 | appends exactly the specified operations, or fails |
| `PlanMachine.CompileDecodePlan` | encoding/decode_plan.go:75-81 | returns the specified plan or failure |
| `PlanMachine.PlansAreSafe` | encoding/decode_plan.go:205-206 | plans of well laid-out types write only inside the object, at every level |
| `PlanMachine.ReadGuardedLen` | encoding/codec.go:25-31 | reads a u64 or u32 prefix by mode and refuses lengths beyond the input |
| `PlanMachine.ExecDecodePlan` | encoding/decode_plan.go:196-203 | the executor does to memory and cursor what the specification of plans says |
| `PlanMachine.ExecDecodeOp` | encoding/decode_plan.go:205-383 | the same for each opcode |
| `PlanMachine.ExecByteSlice` | encoding/decode_plan.go:283-314 | reads a byte slice into a fresh block, or panics when the element type differs and there is something to copy |
| `PlanMachine.DecodeTo` | encoding/decode_plan.go:386-397 | decoding into an object is what its plan does, and the recursive decoder when the type is exact; unsupported types change nothing |
| `PlanMachine.BorshDecodeTo` | encoding/borsh.go:26-28 | the same in Borsh mode from a fresh decoder |
| `WsInvariant.RunKeeps` | ws/client.go:137-453 | the protocol invariant holds in every state of every interleaving |
| `WsTheorems.LifecycleSafety` | ws/client.go:137-167 | closed exactly when both maps are nil; every done and subDone channel is closed at most once |
| `WsTheorems.ClosedStays` | ws/client.go:147-152 | once closed, closed for ever |
| `WsTheorems.NeverForgotten` | ws/client.go:236-292 | a registered subscription is in the map, owed a shutdown by some thread, or done |
| `WsTheorems.AllDoneWhenSettled` | ws/client.go:154-165 | once Close has finished and no thread owes anything, all subscriptions are done and all waiting calls answered |
| `WsTheorems.SuccessIsRegistered` | ws/client.go:369-381 | a successful subscribe is registered if and only if its reply was not an error with an empty message |
| `WsTheorems.ReplyDecides` | ws/client.go:378-381 | with its reply in, subscribe succeeds if and only if it is registered or was refused with an empty message |
| `WsTheorems.ReturnedIsNotPending` | ws/client.go:384-388 | a subscribe call that has returned, in either way, leaves nothing in the pending map |
| `WsTheorems.AcknowledgementsAreIgnored` | ws/client.go:420-441 | the number of an unsubscribe request is fresh and never becomes a subscribe call, so its acknowledgement changes nothing, whenever it comes |
| `WsTheorems.SilentRefusalSucceeds` | ws/client.go:247-251 | a reachable state in which subscribe has succeeded and nothing is registered |
| `WsTheorems.SilentHandleTakesForeignEntry` | ws/client.go:414-423 | unsubscribing the handle of such a call takes the entry of another request under id zero |
| `WsTheorems.SilentHandleBesideZero` | ws/client.go:414-423 | a reachable state with such a handle beside an entry under id zero |
| `WsTheorems.NotificationsReachTheirRequest` | ws/client.go:198-229 | a notification looked up before removal is dispatched to exactly the request registered under its id, whatever other threads do before, between and after |
| `WsTheorems.DispatchComesNext` | ws/client.go:171-181 | after a lookup the read loop can only dispatch |
| `WsTheorems.LicencesConserved` | ws/client.go:211-228 | registration creates the one licence to shut an entry down; it is only moved, except that completing a one-shot already removed by another thread adds a second |
| `WsTheorems.LicencesCounted` | ws/client.go:211-228 | over every run: one licence for the registration and one for each late completion |
| `WsTheorems.ShutdownsExact` | ws/client.go:211-228 | when everything has settled, the user's shutdown has been invoked exactly once if and only if no step completed the one-shot after another thread had taken it |
| `WsTheorems.ShutdownsBounded` | ws/client.go:414-427 | a streaming entry's user shutdown runs at most once, a one-shot's at most twice |
| `WsTheorems.OneShotOnce` | ws/client.go:217-228 | a one-shot is dispatched at most once and its entry is gone before the next frame |
| `WsTheorems.OneShotShutdownMayRunTwice` | ws/client.go:218-228 | a reachable state in which a one-shot's user shutdown has run twice |
| `WsClient.Client.BeginSubscribe` | ws/client.go:326-350 | refuses when closed, else takes the next number and becomes pending under it with its one-shot flag |
| `WsClient.Client.CancelPending` | ws/client.go:384-388 | the maps go on saying what the protocol state says once a failed call is withdrawn |
| `WsClient.Client.TakePending` | ws/client.go:237-245 | removes the pending entry and hands it, with the flag subscribe was given, to the caller that will close its channel |
| `WsClient.Client.RegisterEntry` | ws/client.go:273-289 | registers the entry with the pending call's request and one-shot flag unless the client was closed meanwhile |
| `WsClient.Client.LookupEntry` | ws/client.go:211-216 | finds the entry registered under the id, with the one-shot flag that its subscribe call was given |
| `WsClient.Client.DropEntry` | ws/client.go:218-228 | the maps go on saying what the protocol state says once a one-shot is dropped |
| `WsClient.Client.TakeEntry` | ws/client.go:415-423 | removes the entry, so that only the caller shuts it down, and takes the next request number |
| `WsClient.Client.TakeAll` | ws/client.go:147-153 | closes and takes both maps, leaving nil |
| `WsClient.OutsideTheMutex` | ws/client.go:137-453 | the steps outside the mutex keep the two maps saying what the protocol state says of every request |
| `WsClient.FlagStays` | ws/client.go:217-218 | no step of any thread changes a call's one-shot flag, so the entry looked up still tells it after the dispatch |
| `WsUtil.Channel.SendOrDropOldest` | ws/util.go:7-20 | an undisturbed call enqueues its value, dropping the oldest only when the buffer is full |
| `WsUtil.DeliveryInOrder` | ws/util.go:7-20 | with capacity, one producer and any interleaved receives: received then buffered is an in-order subsequence of sent, every call enqueues its own value, only the then-oldest is dropped, nothing else is lost |
| `WsUtil.DeliveryCounts` | ws/util.go:7-20 | sent is received plus buffered plus dropped |
| `WsUtil.OneDropPerCall` | ws/util.go:7-20 | each call drops at most one value, and its own is enqueued when it returns |
| `WsUtil.UndisturbedCall` | ws/util.go:7-20 | the interleaved model without receives is the single call |
| `Token2022.ParseTLV` | programs/token2022/state.go:177-189 | returns the last-wins map of the region's entries |
| `Token2022.ConcatParses` | programs/token2022/state.go:177-189 | any concatenation of nonzero-type entries before a short, type-zero or overrunning tail parses to exactly those entries and that tail |
| `Token2022.RegionSplits` | programs/token2022/state.go:177-189 | every region is such a concatenation |
| `Token2022.LastWinsExact` | programs/token2022/state.go:185 | the map holds, for each type, the value of its last entry |
| `Token2022.MintFieldsPlus` | programs/token2022/state.go:206-266 | decoding an entry of a new type changes exactly the field of that type to what the entry says |
| `Token2022.MintExtsCommute` | programs/token2022/state.go:206-266 | entries of different types commute |
| `Token2022.ApplyMintExts` | programs/token2022/state.go:135-139 | for every iteration order, each field comes from the one entry of its type |
| `Token2022.ApplyAccountExts` | programs/token2022/state.go:166-170 | the same for accounts |
| `Token2022.DecodeMintState` | programs/token2022/state.go:122-141 | base layout, then the extensions of the region from byte 166 on |
| `Token2022.DecodeAccount` | programs/token2022/state.go:150-172 | the same for accounts of at least 165 bytes |
| `TokenLayout.MintExtensionsExactly` | programs/token2022/state.go:177-266 | a region decodes to given mint extensions if and only if the last entries of types 1, 3, 6, 9, 10, 12, 16 and 18 hold their fields at the documented offsets |
| `TokenLayout.AccountExtensionsExactly` | programs/token2022/state.go:177-288 | the same for account extensions and types 2, 7, 8 and 11 |
| `TokenLayout.FeeConfigExactly` | programs/token2022/state.go:223-240 | the fee configuration read from an entry is c if and only if both authorities, the withheld amount and the two fees stand at their offsets |
| `TokenLayout.InterestExactly` | programs/token2022/state.go:241-251 | the same for the interest-bearing configuration, timestamps and rates in two's complement |
| `TokenLayout.EntryBytes` | programs/token2022/state.go:179-186 | an entry is its type and length, two bytes each, low byte first, and its value |
| `WideInt.Reverse` | large_int.go:215-219 | reverses the bytes in place |
| `WideInt.SetUint64` | encoding/u128.go:38-48 | the bytes denote v |
| `WideInt.SetLoHi` | encoding/u128.go:51-68 | the bytes denote lo + 2^64 hi |
| `WideInt.LoHi` | encoding/u128.go:26-35 | the two words denote the value of the bytes |
| `WideInt.SetWord` | encoding/u128.go:153-166 | sets one 64-bit word and keeps the other three |
| `WideInt.FourWords` | encoding/u128.go:143-150 | the words read by Word denote the value of the bytes |
| `WideInt.BigInt` | encoding/u128.go:71-77 | returns the value of the little-endian bytes |
| `WideInt.SetBigInt` | encoding/u128.go:81-95 | accepts exactly the integers in range, denotes them, and changes nothing otherwise |
| `WideInt.SetBigIntInvertsBigInt` | encoding/u128.go:169-193 | setting a value that was read restores the bytes |
| `WideInt.Uint128FromBigInt` | large_int.go:58-70 | the magnitude modulo 2^128, so x mod 2^128 for x >= 0 |
| `WideInt.Uint128BigInt` | large_int.go:39-45 | lo + 2^64 hi |
| `WideInt.Int128BigInt` | large_int.go:95-105 | the two's-complement reading |
| `WideInt.Uint256BigInt` | large_int.go:155-161 | lo + 2^128 hi |
| `WideInt.Int256Value` | large_int.go:193-209 | the two's-complement value that String prints |
| `WideInt.WriteUint128` | large_int.go:32-37 | appends the sixteen bytes of the value |
| `WideInt.ReadUint128` | large_int.go:22-30 | the number whose bytes stand at the cursor |
| `WideInt.ReadInt128` | large_int.go:78-86 | the signed number whose pattern stands at the cursor |
| `WideInt.PatternDetermines` | large_int.go:88-93 | the sixteen bytes written determine the signed number |
| `Examples.ManyLegacySignersDoNotReadBack` | message.go:463-485 | a legacy message with 128 signers marshals and does not read back |
| `Examples.A129thSignatureDoesNotReadBack` | transaction.go:239-250 | a v0 transaction with 129 signatures marshals and does not read back |
| `Examples.ARefusedSignGrowsTheSlots` | transaction.go:95-125 | a call refused for an unknown signer has added an empty slot |
| `Examples.AHighSlotIsMisrouted` | message_builder.go:361-368 | an account that stands only in slot 256 compiles and resolves to another key |
| `Examples.A256thSignerWrapsTheHeader` | message_builder.go:83-87 | with 256 signers the header grants no signature, not even the payer's |
| `Examples.AProgramAccountStandsTwice` | message_builder.go:276-287 | a program that is also a written account of a table stands twice, once with too few roles |
| `Examples.AnEmptyElementIsRefused` | encoding/decode_plan.go:315-327 | the encoding of a slice of one empty struct is refused |
| `Examples.ADefinedByteSlicePanics` | encoding/decode_plan.go:302-312 | one byte decoded into a slice of a defined type of kind uint8 panics |
| `Examples.InexactArrays` | encoding/decode_plan.go:109-125 | one self-decoding byte, and 2^32 bytes, are not decoded as their types say |

## Left out

- MessageBuilder.NewMessageV0: slices and keys are values, so aliasing between the message and the caller's slices is not modelled.
- Transaction.Transaction.Sign: contexts and cancellation are part of the abstract signer's refusal.
- PlanMachine.ExecDecodePlan: the memory left behind by a failed decode is not specified; the block behind a slice or option is stored in its header once its elements are decoded.
- PlanMachine.DecodeTo: the plan cache, unsafe pointer arithmetic below the level of offsets and 32-bit platforms are not modelled; recursive Go types have no finite model (`compileDecodePlan` does not terminate on them).
- Reflection.DecodeExact: types with custom unmarshalers have no reference encoding, so only the decoding side covers them.
- WsTheorems.NotificationsReachTheirRequest: progress (a thread that can move does move) is not modelled, only what every interleaving keeps.
- WsClient.Client.BeginSubscribe: sockets, timers, contexts and the write mutex appear only as steps that succeed or fail at any time.
- WsTheorems.AcknowledgementsAreIgnored: request numbers are unbounded; the 64-bit counter would wrap after 2^64 requests.
- WsUtil.DeliveryInOrder: capacity 0 and several producers on one channel are not covered.
- Token2022.DecodeMintState: the base layouts of the classic token program are a parameter, after the length check.
- Nil versus empty slices, error texts, capacities and allocation counts: values and error kinds only.
- Base58, base64, JSON, SQL and text forms; Ed25519, SHA-256 and curve checks: foreign code.
- `rpc`, `jsonrpc` and HTTP plumbing, priority fees, program-derived addresses: single branches and short loops.
- Instruction builders, anchor helpers and the fixed-offset state decoders of the token and lookup-table programs: straight-line layouts.
- Typed WebSocket subscription wrappers: they only own a bounded channel.
