# Verified model of the tronscan-api cores

A Dafny model of four parts of the block explorer's server, with proofs about them:

* **Keccak.** `KeccakCore.processBlock` runs Keccak-f[1600] two rounds at a time, in place, without
  moving lanes after pi and with six lanes stored complemented. `KeccakPermutation` follows those
  statements on an array; `Complement` explains the complemented lanes (theta, rho and pi are linear
  over xor, chi is not); `Fips202`, `Fips202Tables` and `Sponge` are the reference: FIPS 202 sections
  3.2 to 3.4, 4, 5.1 and 5.2; `LaneBits` and `Fips202Bits` tie it to single bits. `KeccakEngine` is the incremental hash object, `EngineTheorems` what its
  users can rely on.
* **Base58 and Base58Check.** `Base58` divides digit arrays in place in both directions; `Positional`
  is the theory of positional numbers it is proved against. `Base58Check` adds the checksum.
* **ECDSA.** `Ecdsa` models public key recovery, low-S signatures, the signing loop and reading a
  signature back, against SEC 1 version 2, sections 4.1.3 and 4.1.4. `ByteUtil` and `SignatureData`
  are the integer and signature encodings.
* **The gRPC balancer.** `ChainSelection` is the selection pipeline of `optimizeNodes`,
  `RoundRobin` the turns of the router, `GrpcBalancer` the two actors, `BalancerRuns` whole runs of the balancer with its clients,
  `BalancerLosses` when they lose requests, `BalancerRoutees` what is routed to, `BalancerFlows` who is
  answered, retried and given work.

## How to read it

Each object whose methods change fields is a class (`KeccakCore`, `Balancer`, `Client`), each in-place
array algorithm a method on an array, and each is tied by its `ensures` to a function on values. The
theorems are lemmas about those functions. The classes carry a ghost history of what they were sent,
and their invariants say what the fields are in terms of it. `KeccakCore` and its base class
`DigestEngine` are one class here, called `KeccakCore`. 64-bit lanes and hash bytes are bit-vectors in
a one-field wrapper (`Lane`, `Byte`), so that only the lemmas about bits have to look at bits. Bytes of
Base58 and of the encodings are numbers from 0 to 255 (`Octet`).

The library pieces are parameters with stated hypotheses: SHA-256 is any function with 32-byte
results; the elliptic curve is a group of prime order whose points are discrete logarithms, with an
x-coordinate, a parity and a decompression function (`Ecdsa.ValidCurve`); the library signer is any
pair (r, s) made as in SEC 1 section 4.1.3; the iteration orders of hash maps are arguments. The actor
library is taken at its documentation: the round-robin logic counts up from a router's creation and
goes on counting when a routee is removed; an actor whose receive throws an exception is restarted, its
children stopped and its mailbox kept, the message at hand being lost; the instance that threw, like a
stopped one, has no context any more, so what its pending futures would send through it is lost; a
message to a stopped actor, or to a router without routees, is lost.

Where code and comments disagree the model follows the code: the client's block window is said to
hold 5 blocks and is configured as 12, and holds 13 (`GrpcBalancer.SlideKeepsLast13`); "the 12
fastest nodes" are `maxClients` nodes.

## Model

| member | source | states |
|---|---|---|
| LaneBits.Rotl64Bit | app/org/tron/common/crypto/cryptohash/KeccakCore.java:179-202 | rotation by any offset of the permutation moves bit z to bit z + n modulo 64 |
| LaneBits.Xor64Bit | app/org/tron/common/crypto/cryptohash/KeccakCore.java:104-178 | the xor of two words, bit by bit |
| LaneBits.And64Bit | app/org/tron/common/crypto/cryptohash/KeccakCore.java:203-282 | their conjunction, bit by bit |
| LaneBits.Or64Bit | app/org/tron/common/crypto/cryptohash/KeccakCore.java:203-282 | their disjunction, bit by bit |
| LaneBits.Not64Bit | app/org/tron/common/crypto/cryptohash/KeccakCore.java:203-282 | the complement of a word, bit by bit |
| Fips202Bits.ThetaBits | app/org/tron/common/crypto/cryptohash/KeccakCore.java:104-178 | each bit of theta as FIPS 202 section 3.2.1 defines it, from the columns to the left and, one bit lower, to the right |
| Fips202Bits.RhoBits | app/org/tron/common/crypto/cryptohash/KeccakCore.java:179-202 | each bit of rho as section 3.2.2 defines it, offsets along the walk |
| Fips202Bits.PiBits | app/org/tron/common/crypto/cryptohash/KeccakCore.java:465-490 | each bit of pi as section 3.2.3 defines it |
| Fips202Bits.ChiBits | app/org/tron/common/crypto/cryptohash/KeccakCore.java:203-282 | each bit of chi as section 3.2.4 defines it |
| Fips202Bits.IotaBits | app/org/tron/common/crypto/cryptohash/KeccakCore.java:283 | iota flips the bits of lane (0, 0) that the round constant has |
| Fips202Bits.StateIsItsBits | app/org/tron/common/crypto/cryptohash/KeccakCore.java:102-491 | a state is determined by its 1600 bits, so the five rows above fix the step mappings |
| Fips202Bits.KeccakFIsKeccakP | app/org/tron/common/crypto/cryptohash/KeccakCore.java:102 | the permutation is all 12 + 2 l rounds of sections 3.3 and 3.4, in order |
| Fips202Bits.StateBytesBits | app/org/tron/common/crypto/cryptohash/KeccakCore.java:52-79 | which bits of which lane each byte of a state carries (section 3.1 and appendix B.1): lanes in order, lowest byte and bit first |
| Fips202Tables.RhoOffsetsFollowTheWalk | app/org/tron/common/crypto/cryptohash/KeccakCore.java:179-202 | the rotation amounts are the triangular numbers along the lane walk of FIPS 202 section 3.2.2 |
| Fips202Tables.WalkVisitsAll | app/org/tron/common/crypto/cryptohash/KeccakCore.java:179-202 | that walk reaches each of the 24 rotated lanes |
| Fips202Tables.RoundConstantsAreGenerated | app/org/tron/common/crypto/cryptohash/KeccakCore.java:23-36 | each of the 24 constants is what the shift register of section 3.2.5 generates |
| Complement.ThetaXor | app/org/tron/common/crypto/cryptohash/KeccakCore.java:104-178 | theta of an xor of states is the xor of the thetas, so complemented lanes pass through it predictably |
| Complement.MaskMoves | app/org/tron/common/crypto/cryptohash/KeccakCore.java:104-202 | which lanes are complemented when chi starts, given lanes 1, 2, 8, 12, 17 and 20 at the start of the round |
| Complement.FastRowsMatch | app/org/tron/common/crypto/cryptohash/KeccakCore.java:203-282 | each of the five mixed and/or rows, fed its complemented lanes, is the textbook row with the stored complements back in place |
| Complement.FastChiIsChi | app/org/tron/common/crypto/cryptohash/KeccakCore.java:203-282 | on the complemented state the program's chi is the chi of FIPS 202, complemented at the stored positions again |
| Complement.FastRoundIsRound | app/org/tron/common/crypto/cryptohash/KeccakCore.java:104-283 | one round on the stored form is one FIPS 202 round, for every state and constant |
| Complement.StoredIsOneToOne | app/org/tron/common/crypto/cryptohash/KeccakCore.java:530-540 | every array content represents exactly one state |
| KeccakPermutation.ThetaFirst | app/org/tron/common/crypto/cryptohash/KeccakCore.java:104-178 | the in-place updates are theta on the array |
| KeccakPermutation.RhoFirst | app/org/tron/common/crypto/cryptohash/KeccakCore.java:179-202 | the 24 rotations are rho on the array |
| KeccakPermutation.ChiFirst | app/org/tron/common/crypto/cryptohash/KeccakCore.java:203-282 | read through pi, the array goes through the program's chi although no lane moved |
| KeccakPermutation.ThetaSecond | app/org/tron/common/crypto/cryptohash/KeccakCore.java:285-359 | theta on the state read through pi: the second half works on the permuted slots |
| KeccakPermutation.RhoSecond | app/org/tron/common/crypto/cryptohash/KeccakCore.java:360-383 | rho on the state read through pi |
| KeccakPermutation.ChiSecond | app/org/tron/common/crypto/cryptohash/KeccakCore.java:384-463 | the program's chi on the state read through pi twice |
| KeccakPermutation.RestoreLayout | app/org/tron/common/crypto/cryptohash/KeccakCore.java:465-490 | the two cycles of twelve lanes undo exactly two applications of pi |
| KeccakPermutation.Pass | app/org/tron/common/crypto/cryptohash/KeccakCore.java:102-491 | one pass of the loop is two rounds of the program's round function with constants j and j + 1 |
| KeccakPermutation.PassIsTwoRounds | app/org/tron/common/crypto/cryptohash/KeccakCore.java:102-491 | those two rounds are exactly two FIPS 202 rounds on the represented state |
| KeccakPermutation.Permute | app/org/tron/common/crypto/cryptohash/KeccakCore.java:102-491 | the twelve passes turn the stored form of s into the stored form of Keccak-f[1600] of s |
| KeccakEngine.ProcessBlock | app/org/tron/common/crypto/cryptohash/KeccakCore.java:85-492 | xoring the block into the complemented lanes and permuting absorbs one block of the sponge |
| Sponge.Decode64Byte64 | app/org/tron/common/crypto/cryptohash/KeccakCore.java:52-79 | decodeLELong undoes encodeLELong for every 64-bit word |
| Sponge.Byte64Decode64 | app/org/tron/common/crypto/cryptohash/KeccakCore.java:52-79 | encodeLELong undoes decodeLELong for every eight bytes |
| Sponge.BlockStateBytes | app/org/tron/common/crypto/cryptohash/KeccakCore.java:87-89 | the lanes xored in spell the block followed by a zero capacity part |
| Sponge.PadIsPad101 | app/org/tron/common/crypto/cryptohash/KeccakCore.java:497-505 | bit by bit the appended bytes are pad10*1 of FIPS 202 section 5.1, with no suffix |
| Sponge.OneBlock | app/org/tron/common/crypto/cryptohash/KeccakCore.java:494-518 | a message shorter than a block is padded to one block, permuted and cut (section 4) |
| Sponge.AbsorbChain | app/org/tron/common/crypto/cryptohash/KeccakCore.java:85-92 | each further block is xored into the state, which is then permuted (section 4) |
| KeccakEngine.HashesAreKeccak | app/org/tron/common/crypto/cryptohash/KeccakCore.java:530-540 | digest lengths 32 and 64 mean rates 136 and 72 |
| KeccakEngine.BlockCloses | app/org/tron/common/crypto/cryptohash/DigestEngine.java:128-132 | completing a block empties the buffer, counts the block and absorbs it |
| KeccakEngine.StaysOpen | app/org/tron/common/crypto/cryptohash/DigestEngine.java:127-128 | short of a block only the buffered tail grows |
| KeccakEngine.LastBlock | app/org/tron/common/crypto/cryptohash/KeccakCore.java:494-506 | buffered tail plus padding is the last block of the padded message |
| KeccakEngine.KeccakCore.constructor | app/org/tron/common/crypto/cryptohash/DigestEngine.java:32-41 | a new engine has absorbed nothing and shares no array |
| KeccakEngine.KeccakCore.Update | app/org/tron/common/crypto/cryptohash/DigestEngine.java:126-133 | the engine then represents the old input followed by the byte |
| KeccakEngine.KeccakCore.UpdateAll | app/org/tron/common/crypto/cryptohash/DigestEngine.java:138-140 | the same for a whole array |
| KeccakEngine.KeccakCore.UpdateSlice | app/org/tron/common/crypto/cryptohash/DigestEngine.java:145-162 | the same for a slice over any number of blocks; nothing for a non-positive length |
| KeccakEngine.KeccakCore.DoPadding | app/org/tron/common/crypto/cryptohash/KeccakCore.java:494-518 | exactly the digest-length bytes at the offset become the sponge's output for everything absorbed |
| KeccakEngine.KeccakCore.DigestInto | app/org/tron/common/crypto/cryptohash/DigestEngine.java:100-112 | writes the first min(len, digestLen) bytes of the hash and nothing else, and leaves the object as after reset |
| KeccakEngine.KeccakCore.Digest | app/org/tron/common/crypto/cryptohash/DigestEngine.java:82-87 | returns Keccak with capacity twice the digest length of all bytes fed, and leaves the object as after reset |
| KeccakEngine.KeccakCore.DigestOf | app/org/tron/common/crypto/cryptohash/DigestEngine.java:92-95 | the hash of what was fed before followed by the argument |
| KeccakEngine.KeccakCore.Reset | app/org/tron/common/crypto/cryptohash/DigestEngine.java:117-121 | the state of an engine that absorbed nothing |
| KeccakEngine.KeccakCore.Copy | app/org/tron/common/crypto/cryptohash/DigestEngine.java:218-228 | a new engine that represents the same input and shares no array with this one |
| EngineTheorems.SameInputSameState | app/org/tron/common/crypto/cryptohash/DigestEngine.java:126-162 | two engines fed the same bytes, however split, hold the same lanes, counters and buffered bytes |
| EngineTheorems.BytesAreAccountedFor | app/org/tron/common/crypto/cryptohash/DigestEngine.java:177-208 | bytes fed are block count times block length plus the fill level, and the buffer holds exactly the unprocessed tail |
| EngineTheorems.CopyIsIndependent | app/org/tron/common/crypto/cryptohash/KeccakCore.java:542-545 | after a copy, under any interleaving of byte and slice updates, each engine hashes the common prefix followed by its own bytes |
| Positional.DigitsDenote | app/org/tron/common/utils/Base58.java:115-130 | repeated division yields digits in range, without leading zero, that denote the number |
| Positional.DigitsUnique | app/org/tron/common/utils/Base58.java:132-147 | a digit string without leading zero is the only one for its value |
| Positional.DivideIsDivision | app/org/tron/common/utils/Base58.java:118-147 | digit-wise division in any base yields in-range digits of the quotient, and the remainder |
| Positional.DivideLeading | app/org/tron/common/utils/Base58.java:42-45 | what happens to the leading digit, and why at most one zero appears in front |
| Base58.DivMod58 | app/org/tron/common/utils/Base58.java:118-130 | the array suffix becomes its quotient by 58, the prefix is untouched, no byte overflows |
| Base58.DivMod256 | app/org/tron/common/utils/Base58.java:135-147 | the same by 256 for base-58 digits |
| Base58.EncodePass | app/org/tron/common/utils/Base58.java:41-47 | one pass strictly decreases the number, produces its next digit from the right and leaves no zero in front |
| Base58.EncodeDigits | app/org/tron/common/utils/Base58.java:36-52 | the conversion loop writes exactly the base-58 digits; two characters per byte suffice with room left for the zeros; the strip loop does not move |
| Base58.Encode | app/org/tron/common/utils/Base58.java:26-64 | one '1' per leading zero byte, then the number in base 58; the caller's array is unchanged |
| Base58.BuildIndexes | app/org/tron/common/utils/Base58.java:10-21 | the table gives each ASCII character its alphabet position or -1 |
| Base58.DecodePass | app/org/tron/common/utils/Base58.java:95-102 | one pass always clears the leading digit, and the remainder in front of the bytes written keeps the value |
| Base58.DecodeDigits | app/org/tron/common/utils/Base58.java:85-108 | the result is one zero byte per leading zero digit and the minimal big-endian bytes of the number; all array accesses and the final slice are in range |
| Base58.Decode | app/org/tron/common/utils/Base58.java:66-109 | the bytes of a string over the alphabet, or the position of the first character outside it |
| Base58.DecodeEncode | app/org/tron/common/utils/Base58.java:26-109 | decode after encode is the identity on all byte strings |
| Base58.EncodeDecode | app/org/tron/common/utils/Base58.java:26-109 | encode after decode is the identity on all strings over the alphabet |
| Base58.DecodesExactly | app/org/tron/common/utils/Base58.java:26-109 | a string decodes to b if and only if it is the encoding of b |
| Base58Check.EncodesPayloadAndChecksum | app/org/tron/common/utils/Base58.java:156-163 | the encoding decodes to the payload followed by the first four bytes of its double hash |
| Base58Check.DecodesByChecksum | app/org/tron/common/utils/Base58.java:165-181 | the payload comes back if and only if more than four bytes decode and the last four are the first four of its double hash; a bad character is reported as by decode |
| Base58Check.Encode58Check | app/org/tron/common/utils/Base58.java:156-163 | the encoding of the payload followed by four bytes of its double hash |
| Base58Check.Decode58Check | app/org/tron/common/utils/Base58.java:165-181 | payload, rejection or bad character |
| Base58Check.AcceptedExactly | app/org/tron/common/utils/Base58.java:156-181 | a string is accepted with payload y if and only if y is not empty and the string is encode58Check of y, for any hash |
| Base58Check.CheckRoundTrip | app/org/tron/common/utils/Base58.java:156-181 | the round trip, failing for the empty payload and for no other |
| Base58Check.PayloadDeterminesString | app/org/tron/common/utils/Base58.java:165-181 | two strings decode to the same payload only if they are equal |
| Base58Check.AddressThrowsIff | app/org/tronscan/Extensions.scala:47-49 | decodeAddress throws exactly for the strings that encode58Check makes of no payload; it runs inside request functions |
| Ecdsa.KeyIsOnLine | app/org/tron/common/crypto/ECKey.java:637-642 | the key computed from eInv, rInv, srInv and eInvrInv is the one solution Q of sR = e + rQ modulo n |
| Ecdsa.RecoverSound | app/org/tron/common/crypto/ECKey.java:575-644 | whatever key is returned, the signature verifies under it by SEC 1 section 4.1.4, with the decoded point as the point of the equation |
| Ecdsa.RecoverYields | app/org/tron/common/crypto/ECKey.java:575-644 | a key under which the signature verifies is returned for exactly one recovery id |
| Ecdsa.RecoveredKeysAreTheVerifyingOnes | app/org/tron/common/crypto/ECKey.java:553-644 | the keys returned for ids 0 to 3 are exactly the keys under which the signature verifies |
| Ecdsa.RecoverOutcome | app/org/tron/common/crypto/ECKey.java:575-644 | for all arguments: when it throws, when it returns null, and otherwise which point and line the key belongs to |
| Ecdsa.CanonicalisedIsEquivalent | app/org/tron/common/crypto/ECKey.java:1157-1172 | the canonical signature has 1 <= s <= n/2 and verifies under the same keys |
| Ecdsa.Sign | app/org/tron/common/crypto/ECKey.java:888-907 | the loop's outcome: first recovery id that gives the own key, or the exception |
| Ecdsa.FindFinds | app/org/tron/common/crypto/ECKey.java:892-904 | the search finds the id of the equation's point, unless that point's x is at least n and r is no x-coordinate, in which case it throws |
| Ecdsa.SignExactly | app/org/tron/common/crypto/ECKey.java:888-907 | the outcome of sign for every key and signature in range and every hash length |
| Ecdsa.SignatureToKeyOutcome | app/org/tron/common/crypto/ECKey.java:417-441 | for any signature: refused for the hash length or for a header outside 27 to 34, otherwise the outcome of recovery under (v - 27) modulo 4 |
| Ecdsa.SignatureToKeyExactly | app/org/tron/common/crypto/ECKey.java:417-441 | for r and s in range, q is returned if and only if length and header are right, the signature verifies under q, and the header names the point of q's equation |
| Ecdsa.SignThenRecover | app/org/tron/common/crypto/ECKey.java:417-441 | for signatures made by the standard: when sign succeeds (if and only if), with which v, that reading back recovers the signing key also under headers 31 to 34, and that v is 27 or 28 if and only if the nonce point's x is below n |
| Ecdsa.SignCanThrow | app/org/tron/common/crypto/ECKey.java:892-904 | the failing case occurs: on an elliptic curve over 11 elements, of order 7, a signature made by the standard, which verifies under its key, makes sign throw |
| ByteUtil.BigIntegerToBytes | app/org/tron/common/utils/ByteUtil.java:42-52 | the fixed-width copy of the two's complement form |
| ByteUtil.FixedBytesExact | app/org/tron/common/utils/ByteUtil.java:42-52 | the fixed-width bytes denote the integer if and only if it is natural and fits |
| ByteUtil.FixedBytesValue | app/org/tron/common/utils/ByteUtil.java:42-52 | what the width holds in every case, negative and too wide numbers included |
| ByteUtil.ToByteArrayDenotes | app/org/tron/common/utils/ByteUtil.java:42-52 | the library form copied from is the shortest two's complement of the number |
| ByteUtil.BigIntegerToMinimalBytes | app/org/tron/common/utils/ByteUtil.java:68-81 | for a natural number its digits without sign byte, a single zero byte for zero |
| ByteUtil.IntToBytesNoLeadZeroes | app/org/tron/common/utils/ByteUtil.java:183-208 | the big-endian digits of the unsigned 32-bit value |
| ByteUtil.IntRoundTrip | app/org/tron/common/utils/ByteUtil.java:162-208 | every 32-bit int, negative ones included, survives in at most four bytes without leading zero |
| ByteUtil.ByteArrayToIntWraps | app/org/tron/common/utils/ByteUtil.java:162-167 | an array of any length is read modulo 2^32 |
| ByteUtil.Merge | app/org/tron/common/utils/ByteUtil.java:87-103 | the contents of all arrays in order |
| ByteUtil.ConcatPlaces | app/org/tron/common/utils/ByteUtil.java:87-103 | each array stands in full right behind those before it, and nothing else is there |
| SignatureData.FillSigData | app/org/tron/common/crypto/ECKey.java:1177-1182 | the 65 bytes: v modulo 256, then r and s in 32 bytes each, each denoting its number if and only if it is natural and fits |
| SignatureData.SigDataRoundTrip | app/org/tron/common/crypto/ECKey.java:393-415 | the 1/32/32 split gives the signature back if and only if r and s are natural and below 2^256 and v is a byte |
| SignatureData.ParseThenWrite | app/org/tron/common/crypto/ECKey.java:393-415 | reading throws exactly below 65 bytes, and writing what was read gives back the first 65 |
| SignatureData.SignWriteReadRecover | app/org/tron/common/crypto/ECKey.java:393-441 | signing, writing out, reading in and recovering gives the signing key |
| ChainSelection.MaxBy | app/org/tronscan/grpc/GrpcBalancer.scala:89 | a listed hash whose count no other exceeds |
| ChainSelection.MaxByIsFirst | app/org/tronscan/grpc/GrpcBalancer.scala:89 | of several such hashes it is the first listed |
| ChainSelection.CountsArePlaces | app/org/tronscan/grpc/GrpcBalancer.scala:84-86 | a hash counts once for every node and position at which it was reported |
| ChainSelection.OnChainAreHolders | app/org/tronscan/grpc/GrpcBalancer.scala:92-95 | the nodes kept are those holding the hash, in their order |
| ChainSelection.SelectionIsRight | app/org/tronscan/grpc/GrpcBalancer.scala:83-104 | the chosen hash is the first that was reported most often; active then backup is a permutation, sorted by response time with ties in their order, of exactly the nodes holding it, split at maxClients, no backup faster than an active node |
| ChainSelection.SortStable | app/org/tronscan/grpc/GrpcBalancer.scala:98 | nodes with equal response times keep their order |
| ChainSelection.SomeActive | app/org/tronscan/grpc/GrpcBalancer.scala:91-99 | with some block reported and a positive limit at least one node is active |
| RoundRobin.TurnsAreFair | app/org/tronscan/grpc/GrpcBalancer.scala:121-124 | over any stretch of routes to the same n routees each slot is used the same number of times, up to one; over n routes exactly once |
| GrpcBalancer.Balancer.Route | app/org/tronscan/grpc/GrpcBalancer.scala:121-124 | a message goes to a routee of the current router that was not reported stopped, and to nobody only if there is none; since the routees last changed each has had its fair share; until one of them stops the k-th message of a router goes to routee k modulo their number |
| GrpcBalancer.LatestExactly | app/org/tronscan/grpc/GrpcBalancer.scala:125-126 | after any reports the map holds a report if and only if it is the last one from its ip |
| GrpcBalancer.Balancer.OnStats | app/org/tronscan/grpc/GrpcBalancer.scala:125-126 | afterwards the map holds, under its own ip, exactly the last of all reports handled from each ip |
| GrpcBalancer.KeepIsWithout | app/org/tronscan/grpc/GrpcBalancer.scala:127-128 | removal keeps exactly the entries not removed, in their order |
| GrpcBalancer.Balancer.OnTerminated | app/org/tronscan/grpc/GrpcBalancer.scala:127-128 | the client is no routee any more, the others stay in their order, and the routees are those of the current router not reported stopped |
| GrpcBalancer.Balancer.OptimizeNodes | app/org/tronscan/grpc/GrpcBalancer.scala:80-107 | new totals and a fresh router, which starts with its first routee, from the selection; throws, with nothing changed, if and only if no block is reported |
| GrpcBalancer.Balancer.Receive | app/org/tronscan/grpc/GrpcBalancer.scala:120-134 | whatever arrives the invariant holds; requests go only to routees of the current router not reported stopped, the totals answered are those of the last selection, empty before the first, and only an optimisation without a reported block fails |
| GrpcBalancer.SlideKeepsLast13 | app/org/tronscan/grpc/GrpcBalancer.scala:171-172 | the window of recent blocks holds the last 13 |
| GrpcBalancer.Client.PingSucceeds | app/org/tronscan/grpc/GrpcBalancer.scala:164-183 | the report carries the last 13 blocks, the newest last, and the counters from before |
| GrpcBalancer.Client.PingFails | app/org/tronscan/grpc/GrpcBalancer.scala:184-193 | the report has no blocks; the window is kept |
| BalancerRuns.ApplyConserves | app/org/tronscan/grpc/GrpcBalancer.scala:120-207 | every event keeps each request in exactly one place (balancer, client, answered, dropped) and with its own sender |
| BalancerRuns.RequestsAreConserved | app/org/tronscan/grpc/GrpcBalancer.scala:196-207 | after any run each submitted request is in exactly one place (balancer, client, answered, dropped), and is answered at most once and to its own sender |
| BalancerFlows.RequestsFlow | app/org/tronscan/grpc/GrpcBalancer.scala:120-207 | after any run: the answers are the requests of the successful calls, in order and to their senders; the lost ones those of the losing events; the balancer holds what was asked and, as retries, what failed, less what was delivered; the clients what was delivered to them in turn less what ended |
| BalancerFlows.FailedCallIsRetried | app/org/tronscan/grpc/GrpcBalancer.scala:200-207 | a failing call is not answered; its request waits at the balancer as a retry for its sender and is delivered to the routee whose turn it is |
| BalancerFlows.CallOutcomes | app/org/tronscan/grpc/GrpcBalancer.scala:196-207 | a call may succeed; its failure is retried exactly while the instance that started it runs |
| BalancerFlows.QueuedOutcomes | app/org/tronscan/grpc/GrpcBalancer.scala:196-215 | a request in a client's mailbox is taken, or throws, exactly while the client lives |
| BalancerFlows.DeliveriesTakeTurns | app/org/tronscan/grpc/GrpcBalancer.scala:121-124 | deliveries in a row go to one routee after the other |
| BalancerFlows.ReportIsNoticed | app/org/tronscan/grpc/GrpcBalancer.scala:125-126 | a report handled becomes the status of its ip and changes no other |
| BalancerFlows.PingsAreReported | app/org/tronscan/grpc/GrpcBalancer.scala:164-193 | every ping that ends sends the window with its block, or an empty report |
| BalancerFlows.StopIsNoticed | app/org/tronscan/grpc/GrpcBalancer.scala:127-128 | a client reported stopped is no routee any more, the others keep their order |
| BalancerLosses.EachLossIsOne | app/org/tronscan/grpc/GrpcBalancer.scala:120-207 | a run loses exactly one request for each delivery that finds no live routee in turn, each request function that throws in a client, and each request given up at a stopped client or through a restarted one |
| BalancerLosses.LosesNothingIff | app/org/tronscan/grpc/GrpcBalancer.scala:120-207 | for every configuration and run: no request is lost if and only if no event of the run is of those kinds |
| BalancerLosses.NothingIsLostUnlessSomethingBreaks | app/org/tronscan/grpc/GrpcBalancer.scala:120-207 | with a seed node, a positive limit, no client stopped by itself or by a restart of the balancer, and no exception in a client, there is a routee and no request is lost |
| BalancerLosses.SafeConfigurations | app/org/tronscan/grpc/GrpcBalancer.scala:49-53 | the configurations under which no such run loses a request are exactly those with a seed node and a positive limit |
| BalancerLosses.StopCanLose | app/org/tronscan/grpc/GrpcBalancer.scala:121-128 | a run in which a stopped client costs a request |
| BalancerLosses.ThrowCanLose | app/org/tronscan/grpc/GrpcBalancer.scala:196-199 | a run without any stop in which a request whose function throws is lost: no future exists yet to be recovered |
| BalancerLosses.ClientRestartCanLose | app/org/tronscan/grpc/GrpcBalancer.scala:200-207 | a run without any stop in which a call of a restarted client fails and is not retried |
| BalancerRoutees.RestartsIff | app/org/tronscan/grpc/GrpcBalancer.scala:83-89 | an optimisation restarts the balancer if and only if the last report of every node since its start is an empty list |
| BalancerLosses.RestartCanLose | app/org/tronscan/grpc/GrpcBalancer.scala:83-89 | a run in which such a restart costs a request |
| BalancerRoutees.StatusesAreWindows | app/org/tronscan/grpc/GrpcBalancer.scala:164-193 | in every reachable state each status was sent by a client under its own ip and lists the last 13 blocks that client's pings had returned since one of its starts, or none; routees and requests under way are at clients the balancer started |
| BalancerRoutees.RequestsCanMove | app/org/tronscan/grpc/GrpcBalancer.scala:196-207 | in every reachable state a request neither answered nor lost has an event that moves it |
| BalancerRoutees.RouteesComeFromLastSelection | app/org/tronscan/grpc/GrpcBalancer.scala:80-134 | after an optimisation active and backup are the selection from the latest reports of that moment; the routees are the active nodes less those reported stopped since, in that order, so fastest first, and at most maxClients; each one's latest report then listed the chosen hash, among the last 13 blocks of its pings |
| BalancerFlows.FirstRequestGoesToFastest | app/org/tronscan/grpc/GrpcBalancer.scala:96-106 | in every reachable state the first request handled after an optimisation goes to the fastest active node |

## Left out

- SHA-256, Base64, nonce generation, DER, point arithmetic and curve decoding: library code, represented by the parameters named above.
- Ecdsa.Recover: a point that does not decode ends in an exception; the decoder itself is not part of this model. The encoding of a recovered key, and comparing keys by their encoding, is the comparison of points.
- Ecdsa.Sign: the branch for private keys of other providers, which goes through DER, and a missing private key.
- KeccakEngine.KeccakCore.UpdateSlice: a range outside the array, for which the library copy throws halfway through, is excluded by the precondition, as is an output range outside the buffer for KeccakEngine.KeccakCore.DigestInto.
- KeccakEngine.KeccakCore: the block counter is unbounded here and a 64-bit integer in the program; digest lengths are multiples of four up to 64, which covers the program's 32 and 64; the lazy allocation for digest length zero never happens for them.
- ByteUtil: null arguments, and the conversions that only format text.
- BalancerRuns.Event: which request functions and pings throw is left open, so any may, each time it is handled; errors that are not exceptions, which end the whole actor system, do not occur.
- Ecdsa.SignExactly: `validateComponents`, which the program itself does not call, and signatures the library signer cannot return.
- GrpcBalancer.Client: a ping is one step here; in the program its callbacks change the block window and the counters outside the actor's thread, where two may interleave.
- BalancerRuns.Apply: mailboxes deliver in any order, which includes the actors' own, and a stopped client may be reported at any time after it stopped, also when a restart stopped it.
- GrpcBalancer: actor creation, timers, gRPC channels and deadlines, and the request counters of handleRequest; the round-robin counter is unbounded here and a 64-bit integer in the actor library.
- Block and database importers, HTTP controllers, caching, queries, node and vote lists: mostly calls into code outside the repository.
