# KeyMint: a verified model

KeyMint is the Android component that keeps keys in a trusted application (TA) and offers them to the system through a
HAL service. This project models, in Dafny, the parts of it where state, protocols and encodings interact, and proves
what they promise: for every input, every run of calls and every loss of messages on the channel.

- **Operations.** `OperationSpec` is the TA's table of in-flight operations as a state machine over a bounded map;
  `KeyMintTa` is the table itself, an array of optional entries updated in place, proved to refine it. `BeginOutcome` and
  `FinishOutput` say what calls need and return. `OperationRuns` and `PresenceRuns` prove what holds after whole runs:
  authentication, confirmation, user presence, data accounting, slot deletion. `Auth` holds the token checks.
- **HAL.** `HalSpec` sends input in requests that fit the channel and drops the handle at the first failure. `HalRequests`
  bounds the encoded size of a request, `RequestParsing` reads it back, `Chunking` and `HalRefinement` show that cutting
  the input does not matter, `HalRuns` treats HAL objects and TA together over a channel that may lose any request or response, `HalTraces` carries
  the TA's guarantees over to them, `HalPresence` follows claims to presence that are left behind, and `HalOperations` is
  the object with its loops. `StreamingOps` supplies crypto layers that meet the streaming law.
- **Keyblobs.** `Cbor`, `KekInfo`, `KeyMaterials`, `SlotSpec`, `SlotManager` and `Keyblob` cover encryption and decryption
  of keyblobs with secure deletion slots, `KeyDeletion` what deletion achieves over whole runs and `KeyBinding`
  who can open a key. `SlotRuns` joins slots and operations, `SingleUse` and `SingleUseRun` are about keys for a single use. `Versions` and `KeyUpgrade` cover version
  checks and upgrades.
- **Encodings.** `Der`, `AuthzFields`, `AuthzDecode`, `AuthzList`, `AuthzRoundTrip`, `AuthzCanonical` and `AuthzExplicit`
  cover the authorization list of attestation extensions; `CoseSignature`, `Framing` and `Legacy` the other wire formats.
- **Checks and derivations.** `Tags`, `BeginChecks` and `Modes` say what the `begin()` checks let through and relate
  them to the mode constructors, `GcmDecrypt` is streaming GCM decryption, `HmacVerify` the verification of MACs, `UseCounts`, `Kdf` and `Imei` the use counters, key
  derivations and the second IMEI.

Methods with loops and classes are proved against specification functions; the properties are lemmas about those
functions. Cryptographic primitives are function values, and a law they must satisfy (opening what was sealed, streaming)
is a hypothesis of the lemma that uses it. Clocks, random draws, user presence and the device MAC are parameters of each
call. Errors are values; `Panic` stands for an out-of-bounds slice or an arithmetic overflow.

Some properties do not hold of the code without a condition, and the lemmas state the exact one:

- An `update` that is refused before any data was accepted uses up the operation's claim to user presence
  (`RunKeepsPresence`, `PresenceAskedExactly`, and the run of `PresenceNeverShown`); the HAL makes no further call on such
  an operation, so through the HAL presence is always shown (`HalFinishIsProtected`).
- A HAL call that fails drops its handle, but after a refused authorization the TA keeps the operation
  (`FailedChunksLeaveExactly`, `FinishLeavesExactly`, with the call of `RefusedUpdateIsLeftBehind`) or the claim to
  presence of the operation it removed, which blocks all keys that need presence (`OrphansExactly`,
  `OrphanBlocksPresence`, with the call of `RefusedFinishOrphansClaim`).
- The begin checks admit GCM tags below 96 bits if the key does (`AesModeExact`) and any padding for triple DES
  (`DesModeExact`); `ShortGcmTagPassesBegin` and `OddPaddingPassesBegin` show such calls.
- An application ID or application data that is given twice is not bound into the key (`HiddenExact`,
  `RepeatedIsNotHidden`).
- Three flags are read from any CBOR value (`FlagDecodesExactly`).
- HKDF expansion to 256 blocks returns no bytes (`ExpandExact`).
- The length range for HMAC verification ends at the digest length in bits, so that longer signatures than the MAC are
  compared out of bounds (`FinishPanicsExactly`, with the input of `ThirtyThreeBytesPanic`).
- A 64-bit number at or above 2^63 is encoded as negative in an authorization list (`ExponentReadsBackExactly`).
- The decoder of authorization lists compares the explicit length of a field only with the input left, not with the value
  inside (`ExplicitLengthHasNoEffect`, `AcceptedIsOwnExactly`, with the input of `ZeroLengthIsAccepted`), and accepts
  aliases of tags (`TagIsOwnExactly`, with the inputs of `AliasTagsAreAccepted`).
- A single-use key can complete as many operations as were live at its first completion (`CompletionsBounded`,
  `AllLiveComplete`, with the run of `CompletesTwice`), and the later ones can empty the slot of another key
  (`RobsExactly`, with the run of `OtherKeyIsLost`).
- A DER signature whose second integer is longer than a coordinate runs over into the first (`DerSurvivesExactly`).
- Byte strings of 2^32 bytes or more lose their length in legacy messages (`BytesSurviveExactly`).

## Model

| member | source | states |
|---|---|---|
| `KeyMintTa.KeyMintTa.BeginOperation` | ta/src/operation.rs:162-428 | on the table of optional entries, `begin` has the result and the new state of the map-level step with the first drawn handle that is not in use: bounded table, confirmation prefix, slot of a single-use key, presence claim, authentication at begin |
| `KeyMintTa.KeyMintTa.NewOpHandle` | ta/src/operation.rs:753-762 | returns the first drawn handle that no live entry has |
| `KeyMintTa.KeyMintTa.OpIndex` | ta/src/operation.rs:764-775 | finds the index of a handle exactly if the represented map has it |
| `KeyMintTa.KeyMintTa.NewOperationIndex` | ta/src/operation.rs:745-751 | finds a free entry exactly if fewer operations are live than the table has room for |
| `KeyMintTa.KeyMintTa.OpUpdateAad` | ta/src/operation.rs:430-446 | the table after `updateAad` represents the map-level step; an authentication failure keeps the operation, its own failure removes it |
| `KeyMintTa.KeyMintTa.OpUpdate` | ta/src/operation.rs:448-510 | the table after `update` represents the map-level step, presence bookkeeping included |
| `KeyMintTa.KeyMintTa.OpFinish` | ta/src/operation.rs:512-634 | the table after `finish` represents the map-level step: the operation is gone whatever the outcome, and a single-use key's slot is deleted only on success |
| `KeyMintTa.KeyMintTa.OpAbort` | ta/src/operation.rs:636-642 | the table after `abort` represents the map-level step |
| `BeginOutcome.BeginExact` | ta/src/operation.rs:162-428 | `begin` succeeds exactly if there is room, the checks pass, no tag is repeated, no other operation waits for presence, authentication passes and the crypto operation starts; the operation it adds is given field by field, and a failure changes nothing |
| `FinishOutput.FinishReturns` | ta/src/operation.rs:548-617 | what a successful finish returns: emitted and final output for ciphers, the first bytes of the MAC for a signature by HMAC, nothing for a verification, and the final output for the others |
| `FinishOutput.ConcludeReturns` | ta/src/operation.rs:548-617 | whatever the crypto layer produces, the result is such an output if and only if it succeeds |
| `FinishOutput.TagHasAskedLength` | ta/src/operation.rs:563-571 | with checked parameters an HMAC tag is the start of the MAC and has exactly the length asked for |
| `FinishOutput.SignatureVerifies` | ta/src/operation.rs:334-363 | a verification with the same key and digest accepts every tag that signing with checked parameters yields under the same MAC |
| `FinishOutput.ConfirmationExact` | ta/src/operation.rs:723-743 | a confirmation token passes exactly if it has 32 bytes and is the device's MAC of the data; each failure has its code |
| `OperationRuns.RunKeepsInv` | ta/src/operation.rs:82-102 | after every run of calls the table is within its size, and every live operation's byte count, confirmation buffer, crypto state, AAD flag and remaining authentication are those determined by the successful calls since its begin |
| `OperationRuns.FinishIsAuthenticated` | ta/src/operation.rs:816-869 | over every run a successful finish on an authentication-bound key was authenticated: per call, at begin, or by a timestamp token on the first later call, depending on timeout and clock |
| `OperationRuns.NoTimeoutAfterBegin` | ta/src/operation.rs:816-869 | with a clock, no live operation in any run has a timeout left to check, so the error branch for it is unreachable |
| `OperationRuns.FinishIsConfirmed` | ta/src/operation.rs:723-743 | over every run a finished signature on a confirmation key carries a MAC over prefix and whole message, of at most 6144 bytes |
| `OperationRuns.FinishFedWithinLimit` | ta/src/operation.rs:512-634 | over every run the finishing crypto operation was fed exactly the life's additional data and data, in order, within its input limit |
| `OperationRuns.OnlyFinishDeletesSlots` | ta/src/operation.rs:512-634 | in every run of calls, slots are marked for deletion by successful finishes of single-use keys, one each, and by nothing else |
| `PresenceRuns.RunKeepsPresence` | ta/src/operation.rs:448-510 | after every run, a live operation of a presence key without data has its claim to presence if and only if no update was refused on it; with data and no earlier refusal, presence was shown with the first data |
| `PresenceRuns.FinishHadPresence` | ta/src/operation.rs:512-634 | over every run a finish on a presence key, on which no update was refused before its first accepted data, had presence at that data or at the finish |
| `PresenceRuns.PresenceAskedExactly` | ta/src/operation.rs:448-634 | over every run, an authorized finish or update without presence on a presence key without data is turned away if no update was refused before, and otherwise comes out as with presence |
| `PresenceRuns.PresenceNeverShown` | ta/src/operation.rs:448-510 | a concrete run: begin, an update without token, a finish with token succeeds, with presence never available |
| `Auth.NewAuthInfo` | ta/src/operation.rs:119-157 | one pass over the characteristics yields the required authentication: nothing without secure IDs, else one type and at most one timeout, with the conflicts refused |
| `Auth.RequiredAuthExact` | ta/src/operation.rs:119-157 | what a key demands, by what its characteristics contain: nothing without a secure ID, otherwise its one authenticator type, its one timeout if any and all its secure IDs |
| `Auth.SuitableAuthenticators` | ta/src/operation.rs:665-721 | which authenticators suit a type: passwords the lowest bit, fingerprints the next, any authenticator any bit, no authenticator none |
| `Auth.TokenPassesExactly` | ta/src/operation.rs:665-721 | a token is accepted exactly if it is authentic, its authenticator suits the key, its user or authenticator is one of the key's secure IDs, and it meets timeout and challenge where there are such |
| `Auth.AuthTokenLayout` | ta/src/lib.rs:1315-1331 | what is read at each offset of the token's MAC input |
| `Auth.TimeStampLayout` | ta/src/clock.rs:37-49 | what is read at each offset of the timestamp's MAC input |
| `Auth.SubsequentAuthExact` | ta/src/operation.rs:816-869 | the check after begin succeeds exactly if nothing is left to check or the token (and timestamp token, if there is a timeout but no clock) is valid for this operation; it must be repeated exactly if authentication is required and has no timeout |
| `Auth.BeginAuthExact` | ta/src/operation.rs:207-231 | the check at begin succeeds exactly if there is no timeout, or a clock shows a valid token to be in time, or without a clock no invalid token is presented; it leaves nothing to later calls exactly if the clock was consulted |
| `Auth.AuthTokenMacCoversToken` | ta/src/lib.rs:1315-1331 | two authentication tokens with the same MAC input agree in every field but the MAC |
| `Auth.TimeStampMacCoversToken` | ta/src/clock.rs:37-49 | two timestamp tokens with the same MAC input agree in every field but the MAC |
| `Auth.MacPurposesAreDisjoint` | ta/src/operation.rs:723-743 | no MAC input of an authentication token, a timestamp token or a confirmation is an input of another of the three |
| `Chunking.UpdateJoin` | ta/src/operation.rs:448-510 | two updates in a row are one update with the joined data, in state, output and failure |
| `Chunking.AadJoin` | ta/src/operation.rs:430-446 | two `updateAad` calls in a row are one with the joined data |
| `Chunking.FinishJoin` | ta/src/operation.rs:512-634 | an update followed by finish succeeds exactly if one finish with the joined data does, with the same output; authorized, it leaves the same state on failure too |
| `HalRequests.UpdateRequestFits` | hal/src/keymint.rs:33-64 | an encoded update request is at most 350 bytes longer than its input, given the documented token sizes |
| `HalRequests.FinishRequestFits` | hal/src/keymint.rs:33-64 | so is an encoded finish request |
| `RequestParsing.RequestRoundTrip` | wire/src/types.rs:249-285 | the TA reads every operation request exactly as the HAL sent it, and refuses it with anything after it |
| `HalRefinement.ChunkedUpdate` | hal/src/keymint.rs:406-433 | over a reliable channel the chunked `update` of non-empty input leaves the state and gives the output of one TA update, and fails exactly if that fails |
| `HalRefinement.ChunkedUpdateAad` | hal/src/keymint.rs:379-405 | the same for `updateAad` |
| `HalRefinement.ChunkedFinish` | hal/src/keymint.rs:434-491 | the chunked `finish` succeeds exactly if one TA finish with all the input does, with the same output, and with the same state unless it had to be cut and was not authorized |
| `HalOperations.Channel.Transmit` | hal/src/lib.rs:156-242 | a request that encodes above the channel's size is refused unsent; otherwise the TA acts on it unless it is lost on the way |
| `HalOperations.HalOperation.SendInput` | hal/src/keymint.rs:379-433 | the batching loop of `update` and `updateAad` does what the recursive chunk specification says, and drops the handle exactly on failure |
| `HalOperations.HalOperation.Finish` | hal/src/keymint.rs:434-491 | the batching loop of `finish` does what its specification says, and always drops the handle |
| `HalOperations.HalOperation.Abort` | hal/src/keymint.rs:492-499 | nothing is sent without a handle; otherwise abort is sent and the handle dropped |
| `HalRuns.RunKeepsHeld` | hal/src/keymint.rs:303-370 | in every run, whatever messages are lost, each handle a HAL object holds names a live TA operation, and no two objects hold the same one |
| `HalRuns.ObjectsAreIsolated` | hal/src/keymint.rs:303-370 | no call on one HAL object, failed or not, changes the TA operation of another |
| `HalRuns.FailedChunksLeaveExactly` | hal/src/keymint.rs:379-433 | over a reliable channel a failed update leaves its operation behind in the TA exactly if authorization failed |
| `HalRuns.FinishLeavesExactly` | hal/src/keymint.rs:434-491 | over a reliable channel finish leaves its operation behind exactly if the input had to be cut and authorization failed |
| `HalRuns.BeginLeavesExactly` | hal/src/keymint.rs:198-229 | `begin` makes a HAL object exactly if it succeeds and its response arrives, and leaves an operation behind exactly if only the response is lost |
| `HalRuns.OrderlyRunLeavesNothing` | hal/src/keymint.rs:303-370 | in a run with no losses and no refused authorization, the TA's operations are exactly those that HAL objects hold |
| `HalTraces.HalRunFollows` | hal/src/keymint.rs:303-370 | in every run of HAL objects and TA over a lossy channel, the calls that get through are a valid run of the TA, lead to its state, and include no early refusal on a handle still held |
| `HalTraces.DroppedStaysSilent` | hal/src/keymint.rs:303-370 | an object that has dropped its handle never holds one again, and every run goes on, and reaches the TA, as without the calls on it |
| `HalTraces.HalUpdateReaches` | hal/src/keymint.rs:379-433 | a successful update or updateAad reached the TA as chunks that make up its input in order, on the object's own operation and with the tokens of the call |
| `HalTraces.HalFinishIsProtected` | hal/src/keymint.rs:434-491 | through the HAL, over any channel: a successful finish reached the TA as exactly its pieces and its final request, each delivered, which make up the input and carry signature, tokens and confirmation of this call; the operation was authenticated with these tokens as its key demands, had presence if needed, and the confirmation covers all data of the run and of this call if needed |
| `HalTraces.PiecesMakeInput` | hal/src/keymint.rs:434-491 | the pieces sent ahead and the final request make up the input of a finish, and the final request carries everything else that was passed |
| `HalPresence.OrphanBlocksPresence` | ta/src/operation.rs:196-205 | over every HAL run that does not draw the handle again: a claim to presence whose handle no object holds stays, and no operation begins on a key that needs presence |
| `HalPresence.OrphansExactly` | ta/src/operation.rs:512-534 | over a reliable channel a call on the object with the pending claim leaves it so exactly if it is an uncut finish or non-empty additional data and is refused authorization |
| `HalPresence.RefusedFinishOrphansClaim` | ta/src/operation.rs:512-534 | a concrete finish without token: the operation is gone, the handle dropped and the claim left |
| `HalPresence.RefusedUpdateIsLeftBehind` | hal/src/keymint.rs:406-433 | a concrete update without token: the handle is dropped and the operation left in the TA |
| `StreamingOps.CollectingStreams` | common/src/crypto/traits.rs:425-437 | operations that collect their input satisfy the law that chunk boundaries do not matter |
| `StreamingOps.GcmStreams` | boringssl/src/aes.rs:204-286 | so does streaming GCM decryption, for data and additional data |
| `StreamingOps.HalDecryptsLikeOneShot` | hal/src/keymint.rs:434-491 | end to end: ciphertext and tag sent through the HAL in any number of requests decrypt as in one go |
| `StreamingOps.PaddingNeverUnderflows` | boringssl/src/rsa.rs:311-348 | over every run of the table, whatever other operations it holds, zero-padding the collected input of an unpadded RSA signature never underflows |
| `StreamingOps.CollectingSignsRaw` | boringssl/src/rsa.rs:311-340 | the collecting signature operation meets the law assumed of such operations |
| `StreamingOps.PaddingKeepsValue` | boringssl/src/rsa.rs:343-348 | the padded input has the key's length and the same big-endian value |
| `HmacVerify.HmacVerifyExact` | ta/src/operation.rs:352-363 | with the length range that begin sets up from the digest length in bits: verification succeeds exactly for signatures of at least the minimum length that start the MAC, and the comparison is out of bounds exactly for lengths above the MAC's bytes and below its bits |
| `HmacVerify.FinishPanicsExactly` | ta/src/operation.rs:572-592 | `finish` of a verification panics exactly if it passes authorization, presence and size checks with such a signature |
| `HmacVerify.ThirtyThreeBytesPanic` | ta/src/operation.rs:572-592 | a concrete case: SHA-256 and a signature of 33 bytes |
| `GcmDecrypt.Operation.Update` | boringssl/src/aes.rs:210-254 | feeds the cipher exactly what is released by holding back the last tag-length bytes of all input, emits its decryption, keeps the held bytes in the buffer, within all bounds; fails exactly at the cipher's limit |
| `GcmDecrypt.Operation.Finish` | boringssl/src/aes.rs:256-286 | succeeds exactly if a full tag is held and matches ciphertext and additional data |
| `GcmDecrypt.EmittedJoins` | boringssl/src/aes.rs:210-254 | two updates emit together what one update with the joined input emits |
| `GcmDecrypt.DecryptChunks` | boringssl/src/aes.rs:204-286 | however the input is cut into chunks, the outcome is that of decrypting the whole at once |
| `GcmDecrypt.OneShotUndoesEncryption` | boringssl/src/aes.rs:204-286 | decrypting keystream ciphertext followed by its tag gives the plaintext |
| `Cbor.EncodeRoundTrip` | wire/src/lib.rs:318-329 | every encodable CBOR value followed by anything decodes to itself and the rest |
| `Cbor.EncodePrefixFree` | wire/src/lib.rs:318-329 | encodings with different continuations are equal only if values and continuations are: the encoding is prefix-free |
| `Cbor.HeadIsShortest` | wire/src/lib.rs:318-329 | lengths and numbers are encoded in the fewest bytes |
| `KeyParams.MakeParamInverse` | wire/src/keymint.rs:493-716 | tag and payload determine the parameter |
| `KeyParams.TagCodeInverse` | wire/src/keymint.rs:1141-1212 | tag codes are pairwise distinct and decode to their tags |
| `KekInfo.ParamCborRoundTrip` | wire/src/keymint.rs:493-716 | every parameter decodes from its CBOR form |
| `KekInfo.FlagDecodesExactly` | wire/src/keymint.rs:493-634 | a flag is decoded exactly from `true`, except three flags that are decoded from any value |
| `KekInfo.BuildInfo` | common/src/keyblob.rs:292-305 | the buffer built piece by piece is the context specification |
| `KekInfo.InfoInjective` | common/src/keyblob.rs:292-305 | the key derivation context determines derivation input, characteristics, hidden parameters and optional deletion data |
| `KeyMaterials.KeyMaterialRoundTrip` | common/src/crypto.rs:231-417 | well-formed key material survives serialization |
| `KeyMaterials.FromSliceWellFormed` | common/src/crypto.rs:231-331 | whatever deserializes satisfies the key types' promises |
| `KeyMaterials.ReadsExactly` | common/src/crypto.rs:231-331 | which serialized keys are read, by algorithm, curve and size in bits |
| `SlotManager.InMemorySlotManager.NewSecret` | common/src/keyblob/sdd_mem.rs:63-77 | takes the first free slot and fills it with the factory secret and the fresh secret, or fails if none is free |
| `SlotManager.InMemorySlotManager.DeleteSecret` | common/src/keyblob/sdd_mem.rs:90-95 | empties the slot and reports whether it was occupied; a slot outside the table panics and changes nothing |
| `SlotManager.InMemorySlotManager.DeleteAll` | common/src/keyblob/sdd_mem.rs:97-103 | empties all slots and forgets the factory secret |
| `SlotSpec.RunKeepsCoherent` | common/src/keyblob/sdd_mem.rs:39-103 | after every run of slot operations all occupied slots carry the current factory secret |
| `SlotSpec.RunSpares` | common/src/keyblob/sdd_mem.rs:39-103 | a run that neither deletes a slot nor resets leaves its contents and the factory secret alone |
| `Keyblob.Encrypt` | common/src/keyblob.rs:343-418 | the imperative encryption with its slot holder has the result and slot effect of the specification, including which failures give the slot back |
| `Keyblob.FailedEncryptKeepsSlots` | common/src/keyblob.rs:237-268 | a failing encryption leaves the slots as they were |
| `Keyblob.SuccessfulEncryptTakesOneSlot` | common/src/keyblob.rs:343-418 | a successful one takes exactly one free slot if and only if the key is rollback resistant or for a single use, names it in the blob and touches no other |
| `Keyblob.EncryptWithoutSlots` | common/src/keyblob.rs:355-380 | without a slot manager such keys are refused and all others are sealed without deletion secrets |
| `Keyblob.EncryptWithFullSlots` | common/src/keyblob/sdd_mem.rs:63-77 | with all slots taken such keys are refused |
| `Keyblob.EncryptKeepsCoherent` | common/src/keyblob.rs:343-418 | encryption keeps the shared-factory-secret invariant |
| `Keyblob.DecryptUndoesEncrypt` | common/src/keyblob.rs:420-475 | decryption gives back what was encrypted, after every run of slot operations that spares the blob's slot and does not reset |
| `KeyDeletion.DecryptsOnlyIfSpared` | common/src/keyblob.rs:420-475 | with ideal primitives, any blob that carries a key's ciphertext, with any root key, slot, characteristics and hidden parameters, decrypts after a run of slot operations only if the run has neither deleted the key's slot nor reset the device |
| `KeyDeletion.DecryptsExactlyIfSpared` | common/src/keyblob.rs:420-475 | the key's own blob decrypts after a run if and only if the run spared it |
| `KeyDeletion.RollbackResistantKeyIsLost` | common/src/keyblob.rs:355-475 | a rollback resistant key has a slot, and after a run that deletes it no blob with its ciphertext decrypts |
| `KeyBinding.HiddenExact` | common/src/tag.rs:251-265 | hidden parameters are equal exactly if root of trust, application ID and application data are, a repeated parameter counting as none |
| `KeyBinding.HiddenSaysWhatIsGiven` | common/src/tag.rs:251-265 | if nothing is repeated, they are equal exactly if the same values were given |
| `KeyBinding.RepeatedIsNotHidden` | common/src/tag.rs:251-265 | a value given twice has no effect |
| `KeyBinding.OnlyOwnerOpens` | ta/src/lib.rs:387-422 | with ideal primitives, whatever blob carries a key's ciphertext, in any state of the slots: it is parsed only for a caller with the application ID and data it was made for, on a TA with the same root of trust |
| `KeyBinding.OwnerOpensExactly` | ta/src/lib.rs:387-422 | the key's own blob is parsed exactly for them, while its slot is spared |
| `KeyBinding.UpgradeKeepsOwner` | ta/src/keys.rs:692-818 | a blob that an upgrade returns is parsed only for the caller of the upgrade |
| `SlotRuns.LogIsApplied` | ta/src/operation.rs:618-632 | with operations and slot table in one state: without other slot operations, the slots a run empties are exactly those its completed operations delete |
| `SlotRuns.DeletionsInRange` | common/src/keyblob/sdd_mem.rs:90-95 | in no run does a completed operation delete a slot outside the table, where the manager would panic |
| `SlotRuns.HeldUnlessReleased` | ta/src/operation.rs:512-634 | over every run of begins, calls and slot operations, a single-use key's slot holds its secret exactly until an operation on that slot completes, the slot is deleted or the device is reset, and then the secret is in no slot |
| `SingleUse.NoBeginAfterCompletion` | ta/src/operation.rs:162-194 | over every run since a single-use key was made: after its first completion no operation begins on its ciphertext, whatever blob carries it and whoever takes the slot |
| `SingleUse.CompletionsBounded` | ta/src/operation.rs:512-634 | from the first completion on, whatever happens, at most those operations on the key complete that were live just before it |
| `SingleUse.CompletesAgainExactly` | ta/src/operation.rs:512-634 | after one completion another finish completes the key again exactly if it is of another operation and would have completed it before |
| `SingleUse.AllLiveComplete` | ta/src/operation.rs:512-634 | so the bound is reached: operations that could each complete the key all do, one after the other |
| `SingleUse.RobsExactly` | ta/src/operation.rs:618-632 | over every run, finishing an operation on a single-use key empties the slot of another key exactly if it succeeds, the key's slot was released before, and it is in use again |
| `SingleUseRun.CompletesTwice` | ta/src/operation.rs:512-634 | a run with ideal primitives in which a single-use key completes twice |
| `SingleUseRun.OtherKeyIsLost` | ta/src/operation.rs:618-632 | a run in which the second completion empties the slot of a key made in between, whose blob then no longer decrypts |
| `Keyblob.CiphertextIsBound` | common/src/keyblob.rs:292-321 | with ideal primitives a ciphertext opens only with the derivation input, characteristics, hidden parameters and deletion data it was sealed with |
| `Versions.UpgradeList` | ta/src/keys.rs:747-788 | rewriting one list in place yields the upgrade specification |
| `Versions.Upgrade` | ta/src/keys.rs:743-790 | and so does the loop over all lists at the TA's level |
| `Versions.UpgradeMeansUpToDate` | ta/src/keys.rs:724-788 | an upgrade is refused exactly if some version is later than the platform's for its own tag (OS versions not counted on OS version zero); otherwise each of the four versions gets the platform's value for its tag once that is known, everything else stays, and it counts as modified exactly if something was not up to date |
| `Versions.UpgradeParamsExact` | ta/src/keys.rs:724-788 | the same in terms of versions behind and ahead, position by position |
| `Versions.CheckMeansUpToDate` | ta/src/lib.rs:453-502 | the check accepts exactly lists in which each OS version, OS, vendor and boot patchlevel equals the platform's value for that tag, where that is known |
| `Versions.CheckParamsExact` | ta/src/lib.rs:425-503 | the check's outcome is decided by the first version that differs from the platform's: behind needs an upgrade, ahead is invalid |
| `Versions.UpgradePassesChecker` | ta/src/lib.rs:425-503 | whatever is upgraded passes the version check |
| `Versions.CheckedNeedsNoUpgrade` | ta/src/keys.rs:692-818 | whatever passes the check upgrades to itself, unmodified |
| `Versions.UpgradeIsMonotone` | ta/src/keys.rs:724-788 | no version decreases, except the OS version to zero |
| `KeyUpgrade.UpgradeKey` | ta/src/keys.rs:692-818 | the imperative upgrade, of a converted legacy key too, has the specified result and slot effect |
| `KeyUpgrade.UpgradedBlobParses` | ta/src/keys.rs:692-818 | a returned blob passes the version-checking parser with the upgraded characteristics and the same key, as long as its slot is spared |
| `KeyUpgrade.AcceptedBlobNeedsNoUpgrade` | ta/src/keys.rs:692-818 | a blob the parser accepts upgrades to the empty reply and touches no slot |
| `KeyUpgrade.UpgradeTwice` | ta/src/keys.rs:692-818 | upgrading an upgraded key returns the empty reply |
| `KeyUpgrade.EmptyReplyExactly` | ta/src/keys.rs:692-818 | the reply is empty exactly for a key in the current format that decrypts and is up to date; a legacy key always gets a new blob |
| `Tags.ScanForTag` | common/src/tag.rs:66-112 | the counting loop gives both lookups: exactly one value, at most one value |
| `Tags.LookupExact` | common/src/tag.rs:66-112 | lookups by what is in the list: a mandatory tag must occur exactly once, an optional one at most once |
| `BeginChecks.CheckBeginExact` | common/src/tag.rs:945-1060 | the begin checks pass exactly: a suitable purpose that the key lists, no storage key, a nonce for encryption only with CALLER_NONCE, and per algorithm which block mode, padding, digest, MAC length, curve and key size are needed and listed |
| `BeginChecks.RefusalsInOrder` | common/src/tag.rs:945-995 | which refusal the general checks give first |
| `BeginChecks.CheckAesParamsExact` | common/src/tag.rs:740-753 | the key generation check for GCM passes exactly for one minimum of 96 to 128 bits in whole bytes |
| `Modes.NewAesModeExact` | common/src/crypto/aes.rs:137-217 | the AES constructor gives exactly the mode, padding, nonce and tag length asked for, with a random nonce if none is given |
| `Modes.NewDesModeExact` | common/src/crypto/des.rs:81-118 | the same for triple DES |
| `Modes.NewDecryptionModeExact` | common/src/crypto/rsa.rs:157-186 | the same for RSA decryption, with SHA-1 as default for mask generation |
| `Modes.NewSignModeExact` | common/src/crypto/rsa.rs:189-208 | the same for RSA signing |
| `Modes.BeginSignExact` | boringssl/src/rsa.rs:95-119 | which signing operation results: undigested and padded on the left exactly without padding mode, digested with the digest asked for |
| `Modes.BeginNonceExact` | ta/src/operation.rs:241-242 | the nonce passed on is the one that is given exactly once |
| `Modes.AesModeExact` | common/src/crypto/aes.rs:137-217 | for parameters that passed the begin checks, an AES mode exists exactly unless GCM asks for a tag shorter than 96 bits |
| `Modes.CheckedAesKeyHasMode` | common/src/tag.rs:740-753 | with characteristics that passed the key generation check, it always exists |
| `Modes.ShortGcmTagPassesBegin` | common/src/tag.rs:1178-1242 | a concrete key and begin call with a 64-bit GCM tag that pass the begin checks |
| `Modes.ShortGcmTagHasNoMode` | common/src/crypto/aes.rs:137-217 | and for which no AES mode exists |
| `Modes.DesModeExact` | common/src/crypto/des.rs:81-118 | for triple DES the begin checks leave the padding open: a mode exists exactly for no padding and PKCS#7 |
| `Modes.OddPaddingPassesBegin` | common/src/tag.rs:1246-1276 | a concrete triple DES key and begin call with PSS padding that pass the begin checks |
| `Modes.OddPaddingHasNoMode` | common/src/crypto/des.rs:81-118 | and for which no mode exists |
| `Modes.RsaDecryptHasMode` | common/src/crypto/rsa.rs:157-186 | a checked RSA decryption has a mode, and OAEP has both digests |
| `Modes.RsaSignHasMode` | common/src/crypto/rsa.rs:189-208 | a checked RSA signature has a mode and an operation; PSS has a digest, unpadded signing none |
| `Der.LengthRoundTrip` | ta/src/cert.rs:562-587 | a length followed by anything reads back, in short and long form |
| `Der.TagRoundTrip` | ta/src/cert.rs:913-944 | a context-specific tag of one, two or three bytes reads back for every number below 0x4000 |
| `Der.ExplicitLenExact` | ta/src/cert.rs:1250-1263 | the length computed for an explicitly tagged value is that of its encoding |
| `AuthzDecode.DecodeList` | ta/src/cert.rs:591-603 | the loop that threads the unread tag computes the decoder specification |
| `AuthzDecode.ConsumesInOrder` | ta/src/cert.rs:562-687 | the decoder uses up well-formed fields entirely exactly if their tags are a subsequence of the listed order, and then yields their parameters |
| `AuthzDecode.SubsequenceIfEmbeds` | ta/src/cert.rs:562-587 | wherever the fields have places in the order, the greedy search finds some |
| `AuthzDecode.SetsAreRepeatable` | ta/src/cert.rs:629-680 | the set-valued fields are those whose tags have the type of repeatable enumerations |
| `AuthzList.BuildSet` | ta/src/cert.rs:953-985 | the loop with the previous value builds the specified set or refuses |
| `AuthzList.SetOfExact` | ta/src/cert.rs:953-985 | a set is built exactly from values that never decrease, and holds them once each in ascending order |
| `AuthzList.NewFromKeyParams` | ta/src/cert.rs:511-547 | parameters are divided among the parts of the list by their tags, in order |
| `AuthzList.HomesExact` | ta/src/cert.rs:511-547 | which tag numbers belong to which part of the list |
| `AuthzList.ListLenExact` | ta/src/cert.rs:1083-1145 | `value_len`, over its own list of fields, is the number of bytes that `encode_value` writes |
| `AuthzFields.LengthOrderAgrees` | ta/src/cert.rs:1083-1145 | the field list of `value_len` is that of `encode_value` |
| `AuthzRoundTrip.DecodeUndoesEncode` | ta/src/cert.rs:1147-1212 | whatever can be encoded, with 64-bit numbers below 2^63, decodes with nothing left over to its normal form: fields in order, sets without repeats |
| `AuthzRoundTrip.ExponentReadsBackExactly` | ta/src/cert.rs:1002-1015 | a 64-bit number is read back exactly if it is below 2^63 |
| `AuthzRoundTrip.EncodeOrderFits` | ta/src/cert.rs:629-680 | the encoder's field order is a subsequence of the decoder's |
| `AuthzExplicit.ExplicitLengthHasNoEffect` | ta/src/cert.rs:562-587 | a field with any explicit length up to the input left decodes by the length of the value inside, and with a larger one is refused |
| `AuthzExplicit.ZeroLengthIsAccepted` | ta/src/cert.rs:562-587 | a concrete field of explicit length zero that decodes to an algorithm |
| `AuthzExplicit.AcceptedIsOwnExactly` | ta/src/cert.rs:562-587 | an accepted field is what the encoder writes for its parameters exactly if the explicit length is that of the value inside, a set is not empty, a 64-bit number has at most eight bytes, and a root of trust is in the form the encoder gives it |
| `AuthzExplicit.TagIsOwnExactly` | ta/src/cert.rs:912-944 | a tag that is read is the encoder's exactly if it is one byte from 0xa0 to 0xbe, or 0xbf and a byte from 0x1f to 0x7f, or 0xbf, a byte above 0x80 and one below 0x80 |
| `AuthzExplicit.AliasTagsAreAccepted` | ta/src/cert.rs:912-944 | two other forms of the algorithm's tag, with which its field decodes |
| `AuthzCanonical.CanonicalRoundTrip` | ta/src/cert.rs:1083-1212 | a canonical list comes back from its encoding unchanged, with nothing left over |
| `AuthzCanonical.CanonicalEncodes` | ta/src/cert.rs:1147-1212 | a canonical list of sensible size can be encoded |
| `CoseSignature.LayOut` | common/src/crypto/ec.rs:501-525 | the two copies into the zeroed buffer give the specified layout, overrun cases included |
| `CoseSignature.CoordLenExact` | common/src/crypto/ec.rs:501-525 | coordinates have as many bytes as the curve's field needs |
| `CoseSignature.CoseRoundTrip` | common/src/crypto/ec.rs:501-559 | COSE to DER to COSE is the identity for every curve and every signature of the right length |
| `CoseSignature.DerSurvivesExactly` | common/src/crypto/ec.rs:501-559 | DER to COSE to DER gives a canonical signature back exactly if both integers fit their coordinates |
| `UseCounts.UseCountTable.Update` | ta/src/lib.rs:518-551 | the array of optional entries is a prefix of distinct keys and refines the bounded map |
| `UseCountSpec.CountsAreSuccesses` | ta/src/lib.rs:518-551 | after every run each count is the number of successful uses and the table is within its size |
| `UseCountSpec.SuccessesExact` | ta/src/operation.rs:656-660 | under a fixed limit a key is used successfully exactly the smaller of limit and attempts, or never if it found no room |
| `Kdf.Expand` | common/src/crypto.rs:500-525 | the loop computes the specified expansion, the one-byte block count included |
| `Kdf.ExpandExact` | common/src/crypto.rs:500-525 | expansion gives the keying material of RFC 5869 exactly for lengths up to 255*32; one more block gives nothing |
| `Kdf.ExpandedIsChained` | common/src/crypto.rs:500-525 | said of the output bytes: each block is the MAC of the block before it, the context and its number, as RFC 5869 asks |
| `Kdf.OkmPrefix` | common/src/crypto.rs:500-525 | a shorter expansion is the start of a longer one |
| `Kdf.Ckdf` | common/src/crypto.rs:530-575 | counter mode over the concatenated chunks, however they are cut; it always fills the output unless the block count exceeds 32 bits, which is an error |
| `Kdf.CkdfBlocks` | common/src/crypto.rs:530-575 | said of the output bytes: each block is the MAC of its counter from one on, label, zero byte, context and length in bits, in this order |
| `Kdf.BlockInputsDiffer` | common/src/crypto.rs:530-575 | blocks with different counters or lengths have different inputs |
| `Framing.SplitRsp` | ta/src/lib.rs:190-218 | the splitting loop yields the specified fragments or refuses empty data and tiny channels |
| `Framing.FragmentsShape` | ta/src/lib.rs:190-218 | fragments have 2 to max-size bytes, only the last is unflagged, and their number is the computed one |
| `Framing.ReceiveUndoesSplit` | hal/src/lib.rs:77-85 | extracting and joining fragments gives the response back and leaves later fragments alone |
| `Framing.ReadAllUndoesWriteAll` | hal/src/lib.rs:88-131 | any sequence of framed messages reads back as that sequence |
| `Framing.PartialMessageFails` | hal/src/lib.rs:117-131 | a message of which the end is missing is not delivered |
| `Legacy.StructRoundTrip` | derive/src/lib.rs:522-597 | a serialized structure followed by anything reads back as the structure and the rest |
| `Legacy.StructPrefixFails` | wire/src/legacy.rs:295-398 | every strict prefix of a serialized structure is refused as truncated |
| `Legacy.BytesSurviveExactly` | wire/src/legacy.rs:349-368 | a byte string comes back exactly if its length is below 2^32 |
| `Legacy.RequestRoundTrip` | wire/src/legacy.rs:138-146 | a request is understood as sent, and refused with anything after it |
| `Legacy.TruncatedRequestFails` | wire/src/legacy.rs:138-146 | a request of which the end is missing is refused as truncated |
| `Legacy.ResponseIsNoRequest` | wire/src/legacy.rs:188-256 | no serialized response, with a return code or raw, is taken for a request |
| `Legacy.ErrorCodeReadsBack` | wire/src/legacy.rs:258-265 | the return code is recovered from every response that carries one |
| `Imei.LuhnChecksum` | common/src/tag.rs:1386-1398 | the digit loop computes the complement of the weighted digit sum |
| `Imei.ChecksumExact` | common/src/tag.rs:1386-1398 | appending a digit gives a Luhn-valid number exactly if it is the checksum |
| `Imei.IncrementedImei` | common/src/tag.rs:1402-1430 | for every numeric IMEI but the six largest 64-bit numbers the result is the text of a Luhn-valid number whose body is one larger; for those six the arithmetic overflows |

## Left out

- Key generation, import, wrapped import, attestation certificates, shared secrets, provisioning and the request dispatcher
  outside operations: they would mostly add field copying.
- FFI and the internals of the crypto libraries, constant-time comparison and zeroization: primitives are abstract.
- The `ciborium` and `der` crates: the parts used are modelled after RFC 8949 and ITU-T X.690. CBOR text, maps, tags and
  floats are not modelled, DER lengths have at most four bytes, and a decoded set must be in ascending order.
- Parsing and re-encoding of the root of trust: a function value in `AuthzList`.
- KeyMintTa.KeyMintTa.BeginOperation: keyblob parsing, parameter and usage checks and the start of the crypto operation
  enter as their outcomes; the parameter checks are modelled by themselves in `Tags`, decryption in `Keyblob` and joined
  to `begin` in `SlotRuns`.
- KeyUpgrade.UpgradeKey: detection and conversion of legacy keyblobs enter as an already converted key.
- The header of an authorization list's SEQUENCE: decoding starts at its value, with the reader ending where it ends.
- Allocation failures, except the ones in keyblob encryption that decide whether a slot is given back.
- Host byte order is taken as little-endian, where the code uses the host's.
- Timestamps and sizes are unbounded integers: wrap-around at 64 bits is modelled only where a row says so.
- Operation records are values inside the table: Rust moves them in and out, so there is no aliasing to capture.
- HalRefinement.ChunkedUpdate: leaves out empty input, for which the HAL sends nothing and the TA is not asked; which of
  several error codes is reported may differ when both fail.
- HalRefinement.ChunkedFinish: the same freedom in the error code.
- HalRefinement.ChunkedUpdateAad: the same for empty input and error codes.
- HalRuns.RunKeepsHeld: each HAL method is one atomic step and the TA does not restart.
- KeyDeletion.DecryptsOnlyIfSpared: assumes ideal primitives, and that the generator repeats neither the per-key secret nor,
  for keys without a slot, the factory secret.
- SingleUse.NoBeginAfterCompletion: under the same assumptions; a key that was upgraded has a new ciphertext and slot, and
  counts as another key.
- KeyBinding.OnlyOwnerOpens: under the assumption of ideal primitives.
- Keyblob.CiphertextIsBound: assumes ideal primitives (distinct contexts give distinct keys, a ciphertext opens under one
  key), which real ones meet only computationally.
- CoseSignature.DerSurvivesExactly: integers are below 2^28 bytes.
- The list of legacy commands and their structures: the lemmas hold for any table of commands and field types.
- AuthzCanonical.CanonicalEncodes: octet strings are below 2^28 bytes and there are fewer than 2^24 parameters.
