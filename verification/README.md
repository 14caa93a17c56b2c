# A model of the X-Cash DPoPS node

This project models three parts of the repository in Dafny and proves what they are for.

**Ed25519 and the VRF** (`src/functions/VRF_functions`). The ten-limb field code, the scalar code
modulo L, the addition chains, the extended-coordinate point formulas, both digit recodings, the
three scalar multiplications, point decoding and encoding, the Elligator map and the VRF entry
points are methods on limbs, digit arrays and octet strings, as in the source. Machine integers are
subset types, so every intermediate value carries the obligation that it fits. Each layer is proved
against the one above it: limbs stand for residues modulo p, coordinates for affine points of the
curve, digits for scalars, and the VRF methods compute the functions of `VrfSpec`, for which
completeness is proved without exceptions: every derived key is valid and every proof exists and
verifies. `VrfAcceptance` says when a proof is accepted, and `VrfSoundness` what that commits its
owner to. The curve is proved to be a group. `Sha512` and `Sha256` are proved against FIPS 180-4,
whose tables are proved to be the roots the standard takes them from.

**The DPoPS round** (`src/xcash_round`, `src/functions/block_verifiers_*`). Committee selection on
the shared list, the vote preimage on both sides, the vote handlers with their separate critical
sections, the tally with its two, and several nodes exchanging signed votes, from the election on.
Handlers are steps that interleave freely; the methods on the list are proved to be those steps.
`Election`, `TallyAcceptance`, `VoteHistory` and `VoteBinding` restate the results on what the nodes
publish and send: texts, messages and slots.

**Two stateful pieces beside the round**: the statistics update of `start_block_production`, as
attempts of several seeds that interleave freely, and the aggregation and dispatch of payouts in
`run_proof_check`, from the documents to the messages (`PayoutDocuments`).

## Assumptions

These are stated as predicates that the theorems about them require, nothing else is assumed:

- `PrimeField.PIsPrime`: 2^255 - 19 is prime, used as Fermat's little theorem. Everything about the
  curve with d = -121665/121666 (`Edwards.EdwardsCurve`) is proved from it: d is not a square, the
  addition law is complete, closed and associative (`NonSquare`, `Associativity`, `EdwardsGroup`),
  and the Elligator map never aborts (`ElligatorTotal`).
- `GroupOrder.GroupOrders`: the base point is on the curve and has order exactly L. That 8 L kills
  every point of the curve is proved from it by counting points (`GroupOrder.CurveExponent`).
- `VrfSoundness.LIsPrime`: L is prime; only for the uniqueness of outputs.
- `ScalarMult.IsBaseTable` and `ScalarMult.IsOddBase`: the precomputed tables hold
  (j + 1) 256^i B and (2 k + 1) B in tight limbs.
- `VrfSpec.IsHash`: the hash returns 64 octets; `VrfSuite.Sha512IsHash` proves it of SHA-512.
- `Agreement.Possible`: signatures are not forged, no signature verifies under the empty address,
  and a node's own vote finds no vote under its address recorded. The network may delay, reorder,
  replay and redirect messages and change whatever signatures do not cover, which includes the
  producer's address.
- `Rounds.DistinctKeys`, `VoteLedger.Disciplined` and `PayoutDispatch.DistinctAddresses`: no two
  delegates have the same key or address, and a node votes once a round.

## How the code is represented

- A limb vector, a cached point and a table entry are values, returned where the source writes
  through a pointer; `P2`, `P3` and `P1P1` are classes whose coordinates are updated in place.
- Runs of identical statements (rounds, limb rows, conditional moves) are sometimes loops or
  methods of their own.
- Bitwise operations are in `Bits`, on numbers; unsigned shifts are divisions. The 64-bit logical
  functions of SHA-512 go through bit vectors.
- The `abort` inside `ge25519_from_uniform` is an outcome, `Abort`, of everything that calls it;
  `ElligatorTotal.NeverAborts` shows that it is never reached.
- The tally takes the list as its first critical section finds it and the list as its second does;
  in `Agreement` a node enters the two at any two moments of a run, one not before the other.
- `current_block_verifiers_list` is an array of slots, and strings are C strings without their
  terminator. Buffers that hold addresses take 98 characters, so the bounded comparison the tally
  makes is equality.
- `qsort` is the sorted permutation, which `Sorting.SortedUnique` shows to be the only one.
- Signature checks, Base64 decoding and the wallet's proof check are parameters, a database update
  is one step, and the parts of the round are ordered phases.

## Where code and comments differ

- The comment on `fe25519_reduce` allows limbs up to 1.1\*2^26 / 1.1\*2^25. On that range the first
  quotient estimate, which mixes in an unsigned constant, is 128 too large for a negative top limb,
  and the result is wrong exactly for values in [-p - 128, -p) (`FieldBytes.ResidueIsCanonicalIff`).
  Products never get there, and the zero test is right everywhere.
- Section 5.1.3 of RFC 8032 rejects x = 0 with the sign bit set. `ge25519_frombytes` accepts it, so
  such a string does not come back from encoding (`PointEncoding.DecodingEncodes`).
- The vote handler records the selected address before it compares key, proof and output. A vote
  whose address was changed on the way uses up its voter's slot without adding to a total, and the
  tally then ends in the count mismatch rather than in a wrong winner (`VoteTally.HashedAreCounted`, `Agreement.AcceptedVoters`).
- The comment on `crypto_vrf_ietfdraft03_verify` gives a key and a message one possible output. For
  every hash function `VrfSoundness.OutputOrLuck` holds: any other output needs a transcript that
  hashes to the only challenge it can answer.

## Model

| member | source | states |
|---|---|---|
| `FieldLimbs.FeAdd` | src/functions/VRF_functions/ed25519_ref10_fe_25_5.h:61-84 | for limbs within int32 sums, the ten sums, standing for the sum of the residues |
| `FieldLimbs.FeSub` | src/functions/VRF_functions/ed25519_ref10_fe_25_5.h:98-121 | likewise the difference |
| `FieldLimbs.FeNeg` | src/functions/VRF_functions/ed25519_ref10_fe_25_5.h:133-156 | likewise the negation |
| `FieldLimbs.FeCmov` | src/functions/VRF_functions/ed25519_ref10_fe_25_5.h:158-205 | the xor-and-mask move on 32-bit patterns: g when b is 1, f unchanged otherwise, for any int32 limbs |
| `FieldLimbs.FeMul` | src/functions/VRF_functions/ed25519_ref10_fe_25_5.h:385-642 | for all operands within 1.65\*2^26 / 1.65\*2^25, limbs within 1.01\*2^25 / 1.01\*2^24 whose value is the product modulo p; no step leaves its machine width |
| `FieldLimbs.FeSq` | src/functions/VRF_functions/ed25519_ref10_fe_25_5.h:655-814 | on the same range, the square: congruent to what the multiplication gives for equal operands |
| `FieldLimbs.FeSq2` | src/functions/VRF_functions/ed25519_ref10_fe_25_5.h:827-997 | on the same range, twice the square |
| `FieldBytes.FeFromBytes` | src/functions/VRF_functions/fe_25_5/fe.h:28-94 | tight limbs for the 255-bit number in the string, the top bit ignored |
| `FieldBytes.FeReduce` | src/functions/VRF_functions/fe_25_5/fe.h:121-202 | limbs in their exact ranges for the residue the quotient estimate leaves, with the unsigned 32-bit addend |
| `FieldBytes.ResidueIsCanonicalIff` | src/functions/VRF_functions/fe_25_5/fe.h:121-202 | on the documented 1.1\*2^26 / 1.1\*2^25 range the reduction is canonical if and only if the value is not in [-p - 128, -p) |
| `FieldBytes.ResidueCanFail` | src/functions/VRF_functions/fe_25_5/fe.h:146 | a concrete limb vector in that window |
| `FieldBytes.FeToBytes` | src/functions/VRF_functions/fe_25_5/fe.h:212-249 | for anything a multiplication returns, the octets of the unique residue in [0, p); on the wider range, of the residue of FeReduce |
| `FieldBytes.FeIsNegative` | src/functions/VRF_functions/ed25519_ref10_fe_25_5.h:315-322 | the parity of that residue |
| `FieldBytes.FeIsZero` | src/functions/VRF_functions/ed25519_ref10_fe_25_5.h:344-351 | on the whole documented range, true exactly for multiples of p |
| `PointEncoding.FieldRoundTrip` | src/functions/VRF_functions/fe_25_5/fe.h:28-94 | writing out what was loaded gives the string with its top bit cleared, whenever that is below p |
| `PowerChains.FeInvert` | src/functions/VRF_functions/ed25519_ref10.c:75-131 | tight limbs for z^(p-2), for every z: the exponent is followed through every squaring run |
| `PowerChains.FePow22523` | src/functions/VRF_functions/ed25519_ref10.c:133-186 | z^((p-5)/8) for every z |
| `PowerChains.FeChi` | src/functions/VRF_functions/ed25519_ref10.c:1940-1997 | z^((p-1)/2) for every z |
| `NonSquare.NoRootOfD` | src/functions/VRF_functions/ed25519_ref10.c:253-298 | d is no square modulo p: from Fermat alone, an element of order 8 would be needed |
| `EdwardsGroup.SumOnCurve` | src/functions/VRF_functions/ed25519_ref10.c:192-208 | the sum of two curve points is on the curve, and its denominators never vanish |
| `EdwardsGroup.AddAssociates` | src/functions/VRF_functions/ed25519_ref10.c:192-208 | the addition law the formulas compute is associative on the curve |
| `EdwardsGroup.NegUnique` | src/functions/VRF_functions/ed25519_ref10.c:639-655 | inverses are unique |
| `EdwardsGroup.MulAdd` | src/functions/VRF_functions/ed25519_ref10.c:766-869 | (m + n) a = m a + n a for all integers m and n |
| `EdwardsGroup.MulMulNat` | src/functions/VRF_functions/ed25519_ref10.c:766-869 | (m n) a = m (n a) |
| `GroupOrder.CurveExponent` | src/functions/VRF_functions/verify.c:36-52 | with a base point of order L, eight times L kills every point of the curve: all of them are multiples of one point of order 8 L |
| `Points.GeAdd` | src/functions/VRF_functions/ed25519_ref10.c:192-208 | the completed point stands for the sum, for operand limbs wider than the comments of add and sub allow; no multiplication operand leaves its bounds |
| `Points.GeSub` | src/functions/VRF_functions/ed25519_ref10.c:639-655 | likewise the difference |
| `Points.GeMadd` | src/functions/VRF_functions/ed25519_ref10.c:350-365 | likewise adding a precomputed point |
| `Points.GeMsub` | src/functions/VRF_functions/ed25519_ref10.c:371-386 | likewise subtracting one |
| `Points.GeP2Dbl` | src/functions/VRF_functions/ed25519_ref10.c:425-439 | the completed point stands for the double |
| `Points.GeP3Dbl` | src/functions/VRF_functions/ed25519_ref10.c:519-525 | likewise from extended coordinates |
| `Points.GeP1P1ToP3` | src/functions/VRF_functions/ed25519_ref10.c:404-411 | extended coordinates of the same point, with X Y = Z T, Z nonzero and tight limbs |
| `Points.GeP1P1ToP2` | src/functions/VRF_functions/ed25519_ref10.c:392-398 | projective coordinates of the same point |
| `Points.GeP3ToCached` | src/functions/VRF_functions/ed25519_ref10.c:463-470 | the cached form of the same point |
| `Recoding.SignedRadix16` | src/functions/VRF_functions/ed25519_ref10.c:831-846 | 64 digits in [-8, 8] (the last one for a[31] <= 127) with sum e[i] 16^i = a, no signed char overflow |
| `Recoding.SlideVartime` | src/functions/VRF_functions/ed25519_ref10.c:210-251 | 256 digits, each 0 or odd within 15, nonzero ones at least five apart, with sum r[i] 2^i = a minus a multiple of 2^256 that is 0 when a[31] <= 127 |
| `ScalarMult.SelectCached` | src/functions/VRF_functions/ed25519_ref10.c:612-633 | the entry for a digit in [-8, 8], negated for a negative digit |
| `ScalarMult.SelectPrecomp` | src/functions/VRF_functions/ed25519_ref10.c:577-610 | likewise from a row of the base table |
| `ScalarMult.SmallMultiples` | src/functions/VRF_functions/ed25519_ref10.c:801-829 | the table of p, 2p, ..., 8p |
| `ScalarMult.GeScalarmult` | src/functions/VRF_functions/ed25519_ref10.c:776-869 | for every point and every a with a[31] <= 127, the point a p, through recoding, table and Horner loop |
| `ScalarMult.GeScalarmultBase` | src/functions/VRF_functions/ed25519_ref10.c:881-930 | for every a with a[31] <= 127, the point a B, from odd digits, four doublings, even digits |
| `ScalarMult.GeDoubleScalarmultVartime` | src/functions/VRF_functions/ed25519_ref10.c:680-764 | a A + b B for all a, b up to the multiples of 2^256 the recoding drops, which are 0 below 2^255 |
| `ScalarLimbs.ReduceLimbs` | src/functions/VRF_functions/ed25519_ref10.c:1306-1549 | 24 limbs become 12 with the value minus a multiple of L, in [0, L), and no int64 step overflows |
| `Scalars.ScReduce` | src/functions/VRF_functions/ed25519_ref10.c:1594-1916 | for every 64-octet s, exactly s mod L in the first 32 octets |
| `Scalars.ScMuladd` | src/functions/VRF_functions/ed25519_ref10.c:1107-1582 | for all 32-octet a, b, c, exactly (a b + c) mod L |
| `Scalars.ScIsCanonical` | src/functions/VRF_functions/ed25519_ref10.c:1918-1938 | true if and only if the string is below L |
| `PointEncoding.GeFromBytes` | src/functions/VRF_functions/ed25519_ref10.c:253-298 | succeeds if and only if the curve has a point with the named y, and then the point is on the curve with Z = 1, T = X Y and the wanted sign unless x = 0 |
| `PointEncoding.DecodingUnique` | src/functions/VRF_functions/ed25519_ref10.c:253-298 | two points that decode the same string are equal |
| `PointEncoding.DecodingEncodes` | src/functions/VRF_functions/ed25519_ref10.c:253-298 | a decoded point encodes to the same string if and only if the string is canonical and does not put a sign on x = 0 |
| `PointEncoding.EncodingDecodes` | src/functions/VRF_functions/ed25519_ref10.c:501-513 | an encoding is canonical and decodes to its point |
| `PointEncoding.GeP3ToBytes` | src/functions/VRF_functions/ed25519_ref10.c:501-513 | the encoding of the point, whatever its Z |
| `PointEncoding.GeIsCanonical` | src/functions/VRF_functions/ed25519_ref10.c:1022-1037 | 1 if and only if the 255-bit number in the string is below p |
| `PointStrings.PointToString` | src/functions/VRF_functions/convert.c:36-40 | the point string, whose decoding is the point |
| `PointStrings.StringToPoint` | src/functions/VRF_functions/convert.c:50-58 | succeeds exactly on canonical strings of curve points and loads that point |
| `PointStrings.StringRoundTrip` | src/functions/VRF_functions/convert.c:36-58 | decoding the string of a curve point gives the point |
| `PointStrings.PointRoundTrip` | src/functions/VRF_functions/convert.c:36-58 | encoding a decoded string gives the string if and only if x is nonzero or the sign bit is clear |
| `Elligator.GeFromUniform` | src/functions/VRF_functions/ed25519_ref10.c:1999-2074 | aborts exactly where the mapped string is no point; otherwise the string of eight times the mapped point |
| `ElligatorTotal.NeverAborts` | src/functions/VRF_functions/ed25519_ref10.c:2058-2062 | the mapped string is always a point: the abort is never reached |
| `Vrf.HasSmallOrder` | src/functions/VRF_functions/ed25519_ref10.c:1039-1094 | true exactly for the listed strings, the sign bit ignored |
| `SmallOrder.SmallOrderIff` | src/functions/VRF_functions/ed25519_ref10.c:1043-1073 | the curve points killed by 8 are exactly those whose y is 0, 1, -1 or one of the two listed numbers of order 8 |
| `KeyOrder.ListedPoints` | src/functions/VRF_functions/ed25519_ref10.c:1039-1094 | the list refuses a point string if and only if the cofactor kills its point |
| `Vrf.KeypairFromSeed` | src/functions/VRF_functions/keypair.c:43-59 | sk = seed and pk, pk the string of the clamped scalar times B |
| `Vrf.ExpandSk` | src/functions/VRF_functions/prove.c:40-55 | the clamped scalar, the truncated hash, and the decoded public key |
| `Vrf.NonceGeneration` | src/functions/VRF_functions/prove.c:63-81 | a canonical scalar: the nonce of section 5.4.2.2 |
| `Vrf.HashToCurve` | src/functions/VRF_functions/convert.c:65-86 | the point string of the mapped, cofactor-cleared message hash |
| `Vrf.HashPoints` | src/functions/VRF_functions/convert.c:91-108 | the sixteen challenge octets |
| `Vrf.DecodeProof` | src/functions/VRF_functions/convert.c:114-125 | gamma, c and s of the proof; fails exactly when gamma does not decode |
| `Vrf.ProveMessage` | src/functions/VRF_functions/prove.c:144-165 | on the limb level, exactly VrfSpec.Prove; every scalar passed on meets a[31] <= 127 |
| `Vrf.HashOfProof` | src/functions/VRF_functions/verify.c:60-81 | exactly VrfSpec.ProofToHash |
| `Vrf.ValidateKey` | src/functions/VRF_functions/verify.c:93-100 | rejects exactly the listed low-order strings and the strings that do not decode |
| `KeyOrder.ValidKeys` | src/functions/VRF_functions/verify.c:93-100 | that is: accepts exactly the point strings of points the cofactor does not kill |
| `KeyOrder.DerivedKeysAreValid` | src/functions/VRF_functions/keypair.c:43-59 | the key derived from any seed is valid |
| `Vrf.MultiplyByCofactor` | src/functions/VRF_functions/verify.c:38-52 | eight times the point |
| `Vrf.VerifyMessage` | src/functions/VRF_functions/verify.c:184-196 | on the limb level, exactly VrfSpec.Verify, which VrfAcceptance.AcceptanceIs characterises both ways |
| `VrfSpec.ResponseCancels` | src/functions/VRF_functions/verify.c:140-165 | with s = c x + k mod L, s a - c (x a) = k a for every point L kills |
| `VrfSpec.Completeness` | src/functions/VRF_functions/verify.c:118-196 | for any hash and any low-order test, every seed and message: unless the test refuses the public key or the map aborts, the proof verifies and gives the same output as proof_to_hash |
| `VrfSuite.SuiteCompleteness` | src/functions/VRF_functions/prove.c:89-165 | for SHA-512 and the repository's list, without exceptions: for every seed and message the proof exists, verifies, and gives the same output as proof_to_hash |
| `ElligatorMap.NamesIs` | src/functions/VRF_functions/convert.c:50-57 | the decoder finds the curve point whose y below p is the low 255 bits and whose x has the parity of the top bit, anything if x is zero, and fails exactly where there is none |
| `ElligatorMap.MapIs` | src/functions/VRF_functions/ed25519_ref10.c:1999-2060 | the mapped point satisfies the equations of Elligator 2: (1 + 2 r^2) x = -A, x or -A - x as x^3 + A x^2 + x is a square or not, y (w + 1) = w - 1, and the parity of its x is the top bit; and it is the only one |
| `VrfAcceptance.MessagePointIs` | src/functions/VRF_functions/convert.c:65-86 | a message hashes to eight times the mapped point of the first 32 octets of hash(04 01 Y alpha), top bit cleared, and always to some point |
| `VrfAcceptance.AcceptanceIs` | src/functions/VRF_functions/verify.c:118-196 | verification accepts with output beta if and only if the key names a point the cofactor does not kill, the proof names G, the message has the point H, the first 16 octets of hash(04 02 H G sB-cY sH-cG) are the challenge, and beta is hash(04 03 8G); it never aborts |
| `VrfAcceptance.ProofIs` | src/functions/VRF_functions/prove.c:89-165 | proving fails exactly where the stored public key names no point, and otherwise gives the one string with x H, the hash of H, x H, k B and k H, and c x + k modulo L, with k hashed from the second half of the hashed seed and H |
| `VrfAcceptance.KeyIs` | src/functions/VRF_functions/keypair.c:43-59 | the public key names the multiple of B by bits 3 to 253 of the hashed seed under bit 254 |
| `VrfAcceptance.OutputIs` | src/functions/VRF_functions/verify.c:60-81 | the output of a proof is hash(04 03 8G) for the point G it names, and an error exactly if it names none |
| `VrfSoundness.AcceptedTwice` | src/functions/VRF_functions/verify.c:118-171 | two proofs with the same challenge accepted under one key have the same point, the same response modulo L and the same message point, or two different 130-octet transcripts have the same truncated hash |
| `VrfSoundness.ChangedResponse` | src/functions/VRF_functions/verify.c:140-171 | with another response an accepted proof is accepted if the two agree modulo L, and otherwise only if there is such a collision |
| `VrfSoundness.ChangedPoint` | src/functions/VRF_functions/verify.c:132-171 | likewise with octets that name another point |
| `VrfSoundness.ChangedMessage` | src/functions/VRF_functions/verify.c:150-171 | likewise for a message with another point |
| `VrfSoundness.OutputOrLuck` | src/functions/VRF_functions/verify.c:173-196 | if L is prime, an accepted proof yields the one output that belongs to the key and the message, or its transcript hashes to the only one of the 2^128 challenges that any response could have answered |
| `VrfSoundness.OutputIsUnique` | src/functions/VRF_functions/verify.c:177-178 | one output belongs to a key and a message |
| `VrfSoundness.HonestOutputBelongs` | src/functions/VRF_functions/prove.c:89-165 | it is the one the owner of the key computes |
| `VrfSoundness.MessageOctetsInjective` | src/functions/VRF_functions/convert.c:65-86 | the octets hashed for the message point determine the key and the message |
| `VrfSoundness.NonceOctetsInjective` | src/functions/VRF_functions/prove.c:63-81 | the octets hashed for the nonce determine the secret half and the message point |
| `Sha512.Transform` | src/functions/VRF_functions/sha512EL.c:106-154 | the rotating-index rounds and the 16-word schedule compute the compression function of section 6.4.2 of FIPS 180-4 |
| `Sha512.Hasher.Update` | src/functions/VRF_functions/sha512EL.c:202-249 | after any updates state, buffer and 128-bit counter are those of everything fed |
| `Sha512.Hasher.Final` | src/functions/VRF_functions/sha512EL.c:251-262 | the digest of everything fed, both padding cases |
| `Sha512.HashParts` | src/functions/VRF_functions/sha512EL.c:202-262 | any sequence of updates gives the SHA-512 of the concatenation |
| `Sha512.HashAll` | src/functions/VRF_functions/sha512EL.c:264-275 | the SHA-512 of the input, with the constants, layout and example below |
| `Sha512Constants.ConstantsAre` | src/functions/VRF_functions/sha512EL.c:53-81 | each of the eighty constants is the first 64 bits of the fractional part of the cube root of its prime |
| `Sha512Constants.InitialValuesAre` | src/functions/VRF_functions/sha512EL.c:188-196 | each initial word is the first 64 bits of the fractional part of the square root of one of the first eight primes |
| `Primes.FirstEighty` | src/functions/VRF_functions/sha512EL.c:53-81 | the list of primes used for both tables is the first eighty, none left out |
| `Sha512Layout.HashIs` | src/functions/VRF_functions/sha512EL.c:156-275 | for messages of every length: the padded message octet by octet, the blocks chained one after another from the initial words, and the digest, most significant octet first |
| `Sha512Example.Example` | src/functions/VRF_functions/sha512EL.c:106-275 | the one-block example of the standard, round by round: the digest of "abc" |
| `Sha256.Transform` | src/functions/VRF_functions/SHA256EL.c:30-68 | the compression function of section 6.2.2 of FIPS 180-4 |
| `Sha256.Context.Update` | src/functions/VRF_functions/SHA256EL.c:83-93 | octet by octet, state and buffer are those of everything fed |
| `Sha256.Context.Final` | src/functions/VRF_functions/SHA256EL.c:95-132 | the digest of everything fed |
| `Sha256.HashAll` | src/functions/VRF_functions/SHA256EL.c:134-139 | the SHA-256 of the input, with the constants, layout and example below |
| `Sha256Constants.ConstantsAre` | src/functions/VRF_functions/SHA256EL.c:12-21 | each of the sixty-four constants is the first 32 bits of the fractional part of the cube root of its prime |
| `Sha256Constants.InitialValuesAre` | src/functions/VRF_functions/SHA256EL.c:70-81 | each initial word is the first 32 bits of the fractional part of the square root of one of the first eight primes |
| `Sha256Layout.HashIs` | src/functions/VRF_functions/SHA256EL.c:30-139 | for messages of every length: padding, chaining of the blocks and digest, as for SHA-512 |
| `Sha256Example.Example` | src/functions/VRF_functions/SHA256EL.c:30-139 | the digest of "abc", round by round |
| `Committee.CandidateOrder` | src/xcash_round/xcash_round.c:21-28 | the comparator is a total order on (output, index) |
| `Committee.CommitteeIsLowest` | src/xcash_round/xcash_round.c:99-131 | the members are the min(10, eligible) eligible slots with the lowest (output, index), ascending, and everyone left out comes after all of them |
| `Committee.SeedsAreFirst` | src/xcash_round/xcash_round.c:63-79 | the seeds are the first four eligible ones in list order |
| `Committee.MembersDistinct` | src/xcash_round/xcash_round.c:109-157 | all members are slots of the online list, none twice |
| `Committee.BuildCommittee` | src/xcash_round/xcash_round.c:46-165 | an error, and the list untouched, if and only if no non-seed is eligible; otherwise the members in order, votes cleared, and blanks; HexOrder and Election say on the published texts which they are |
| `Committee.OrderDoesNotMatter` | src/xcash_round/xcash_round.c:46-165 | with pairwise distinct outputs every ordering of the online list elects the same members in the same order |
| `Committee.ProducerIsLowest` | src/xcash_round/xcash_round.c:376-398 | the producer is the lowest output, the second lowest on a stuck chain it won last, nobody if there is no second |
| `Committee.SameProducer` | src/xcash_round/xcash_round.c:368-398 | two nodes with the same online set name the same producer |
| `Committee.SelectProducer` | src/xcash_round/xcash_round.c:362-403 | part 6: the bootstrap height, the committee, the producer and the slot skipped on a stuck chain, or the round given up |
| `HexOrder.DecodingIs` | src/functions/string_functions/string_functions.c:29-60 | decoding succeeds exactly on hexadecimal texts of even length that fit, and finds for a text that fills the buffer the octets it spells, the high digit first |
| `HexOrder.FillIs` | src/functions/string_functions/string_functions.c:29-60 | for a text of any length: the octets it spells and zeros after them |
| `HexOrder.OrderIs` | src/xcash_round/xcash_round.c:21-28 | comparing the decoded octets is comparing the texts as in a dictionary, case aside |
| `Election.LowestIsElected` | src/xcash_round/xcash_round.c:63-131 | on the published texts: the list starts with the candidates whose outputs come first in that order, at most ten, everyone left out after them |
| `Election.ElectedList` | src/xcash_round/xcash_round.c:99-165 | each elected slot keeps name, address, key, ip, proof and output of its delegate and no vote; then up to four seeds, then blanks |
| `Election.LeastOutputProduces` | src/xcash_round/xcash_round.c:362-403 | the candidate with the least output text produces, the next one on a stuck chain the first one won last, and the round is given up exactly if there is none |
| `Election.LowerCase` | src/xcash_round/xcash_round.c:21-28 | for lower-case texts, as bytes_to_hex writes them, the order is that of the texts themselves |
| `Election.FirstHeight` | src/xcash_round/xcash_round.c:362-375 | at the first proof-of-stake height the list stays, its first slot produces, and at most fourteen slots are the committee |
| `VotePreimage.KeySetIgnoresOrder` | src/functions/block_verifiers_functions/block_verifiers_functions.c:426-453 | any ordering of the slots gives the same sorted key set, or the same failure |
| `VotePreimage.KeySetBufferInjective` | src/functions/block_verifiers_functions/block_verifiers_functions.c:455-483 | the key set buffer determines height and keys |
| `VotePreimage.PreimageInjective` | src/functions/block_verifiers_functions/block_verifiers_functions.c:489-502 | the vote preimage determines height, output, key and set hash, for heights of every length |
| `VotePreimage.BuffersSuffice` | src/functions/block_verifiers_functions/block_verifiers_functions.c:460-489 | the two buffers hold their contents exactly up to 22 and 32 characters of height |
| `VotePreimage.SigningHash` | src/functions/block_verifiers_functions/block_verifiers_functions.c:396-508 | the hash handed to the wallet, buffers filled by offset, or the error |
| `VotePreimage.CheckingHash` | src/functions/block_verifiers_server_functions/block_verifiers_server_functions.c:244-340 | the hash a received signature is checked against, or the error |
| `VotePreimage.SignerAndVerifierAgree` | src/functions/block_verifiers_server_functions/block_verifiers_server_functions.c:276-338 | signer and verifier hash the same octets whatever order each has its slots in |
| `VoteBinding.SetHashIs` | src/functions/block_verifiers_functions/block_verifiers_functions.c:426-483 | the key set hash is SHA-256 of "PKSET", the height behind its length, the count and the keys of the slots that have one, ascending; there is none exactly if a key is malformed or all are missing |
| `VoteBinding.SignedIs` | src/functions/block_verifiers_functions/block_verifiers_functions.c:413-508 | what is signed: SHA-256 of height, output, key and key set hash, or nothing exactly where a part is missing or malformed |
| `VoteBinding.CheckedIs` | src/functions/block_verifiers_server_functions/block_verifiers_server_functions.c:244-340 | what is checked: the message's height, output and key with the key set at the round's own height |
| `VoteBinding.CheckBinds` | src/functions/block_verifiers_server_functions/block_verifiers_server_functions.c:244-340 | two messages with the same checked hash have the same height, output and key, case aside, and were checked at the same height against the same keys, or SHA-256 collides |
| `VoteTally.MarkVoted` | src/functions/block_verifiers_server_functions/block_verifiers_server_functions.c:152-174 | the first critical section: the vote is admitted exactly when its voter is listed, its signature verifies and the slot has not voted |
| `VoteTally.AddToTotal` | src/functions/block_verifiers_server_functions/block_verifiers_server_functions.c:186-217 | the second: the total grows exactly when key, proof and output match the producer's slot |
| `VoteTally.ReceiveVote` | src/functions/block_verifiers_server_functions/block_verifiers_server_functions.c:152-217 | without interference the handler is exactly its two ledger steps, the height check between them |
| `VoteTally.CastOwnVote` | src/xcash_round/xcash_round.c:409-429 | the node's own vote, if it is among the first count slots |
| `VoteTally.StoreSignature` | src/functions/block_verifiers_functions/block_verifiers_functions.c:524-532 | its signature, in a third critical section |
| `VoteLedger.StepKeeps` | src/functions/block_verifiers_server_functions/block_verifiers_server_functions.c:152-217 | every step of every handler keeps: pending and counted votes are recorded, each total is exactly the number of votes counted for its slot |
| `VoteLedger.RunKeeps` | src/functions/block_verifiers_server_functions/block_verifiers_server_functions.c:152-217 | the same over every interleaving of a round |
| `VoteLedger.CountedOnce` | src/functions/block_verifiers_server_functions/block_verifiers_server_functions.c:152-217 | for every slot, its total plus the handlers in flight for it is at most the number of voters recorded for it |
| `VoteLedger.TotalsWithinVoters` | src/functions/block_verifiers_server_functions/block_verifiers_server_functions.c:152-217 | all totals plus all handlers in flight are at most the number of voters |
| `VoteLedger.RunHasUniqueMaximum` | src/xcash_round/xcash_round.c:478-489 | over every interleaving, a slot with two thirds of the n members' votes has more than any other |
| `VoteLedger.OwnVoteSafeIff` | src/xcash_round/xcash_round.c:418-429 | the own vote keeps the books in order if and only if no vote under the own address was counted or is in flight |
| `VoteLedger.UnvotedIsSafe` | src/xcash_round/xcash_round.c:418-429 | an own slot not marked as voted is enough |
| `VoteLedger.OwnAddressCounterexample` | src/xcash_round/xcash_round.c:418-429 | a round of two slots in which a remote vote under the own address leaves a total without a voter |
| `VoteHistory.VotedIs` | src/functions/block_verifiers_server_functions/block_verifiers_server_functions.c:152-174 | over every run: a slot is marked as voted exactly if some event is a verified vote under its address or the node's own vote for it |
| `VoteHistory.PendingIs` | src/functions/block_verifiers_server_functions/block_verifiers_server_functions.c:152-217 | the handlers in flight are exactly those of the first votes of their slots whose second section has not come |
| `VoteHistory.TotalIs` | src/functions/block_verifiers_server_functions/block_verifiers_server_functions.c:186-217 | a total is exactly the number of votes in the run whose message carried the address, key, proof and output of the slot and the height of the round, and of the node's own votes for it |
| `VoteHistory.RecordsAre` | src/functions/block_verifiers_server_functions/block_verifiers_server_functions.c:159-164 | the producer and the signature a slot records are those of its first vote, the own vote or the stored signature, the latest of them |
| `VoteTally.TallyVotes` | src/xcash_round/xcash_round.c:478-618 | maximum on the list of the first critical section, hashes of the matching votes on that of the second, count comparison, producer comparison and threshold, in the code's order; the fourteen hash slots suffice; TallyAcceptance.AcceptedIff says when it accepts |
| `VoteTally.AcceptanceMeans` | src/xcash_round/xcash_round.c:478-618 | acceptance means at least two thirds of the committee counted at the first section, no slot with more, and as many distinct matching members at the second |
| `VoteTally.HashedAreCounted` | src/xcash_round/xcash_round.c:478-618 | whatever handlers do between the two sections, the votes hashed by an accepting node are exactly those it had counted |
| `VoteTally.FinalHashIgnoresOrder` | src/xcash_round/xcash_round.c:571-590 | the final hash depends on the set of votes only |
| `TallyAcceptance.DecisionIs` | src/xcash_round/xcash_round.c:478-606 | which of the six outcomes, from the slots alone |
| `TallyAcceptance.AcceptedIff` | src/xcash_round/xcash_round.c:478-606 | a slot is accepted if and only if no earlier one has as many votes and no later one more, three times its votes are at least twice the committee, as many voters are recorded for it, and each of their outputs, keys and signatures decodes |
| `TallyAcceptance.AcceptedHash` | src/xcash_round/xcash_round.c:498-590 | the hash is SHA-256 over the ascending SHA-256 hashes of output, key and signature of exactly those voters |
| `Agreement.ActKeeps` | src/functions/block_verifiers_server_functions/block_verifiers_server_functions.c:124-217 | whatever a node, a signer or the network does next, nothing is counted that its voter did not sign for that producer |
| `Agreement.EvolveKeeps` | src/functions/block_verifiers_server_functions/block_verifiers_server_functions.c:124-217 | the same over every run of the network |
| `Agreement.AcceptedVoters` | src/xcash_round/xcash_round.c:478-618 | behind an acceptance stand two thirds of the members, each of whom signed a ballot for the producer's key and output, and the votes hashed are theirs |
| `Agreement.DisagreementNeedsEquivocation` | src/xcash_round/xcash_round.c:478-618 | two nodes accepting different producers, whenever each enters its two critical sections, prove that a third of the members signed two different ballots |
| `Agreement.AgreementHolds` | src/xcash_round/xcash_round.c:478-618 | with fewer than a third of them doing so, any two accepting nodes accept the same producer |
| `Rounds.RoundAgreement` | src/xcash_round/xcash_round.c:354-618 | the same from the election on: for nodes that saw the same delegates online, each with its own memory of the last winner, and without any condition at the first proof-of-stake height |
| `Agreement.BoundIsSharp` | src/xcash_round/xcash_round.c:382-618 | a run in which exactly a third does, and two nodes accept different producers |
| `Payout.AddVoteSum` | src/xcash_timer_thread/xcash_timer_thread.c:158-184 | the table of totals after one contribution; int64 does not overflow when the grand total fits |
| `Payout.GetBucketIndex` | src/xcash_timer_thread/xcash_timer_thread.c:112-130 | the bucket of the delegate, a new empty one, or -1 when all are taken |
| `Payout.PushOutput` | src/xcash_timer_thread/xcash_timer_thread.c:132-147 | the output appended, the array doubled when full; on a failed allocation nothing changes and the output is lost |
| `Payout.TablesAreRight` | src/xcash_timer_thread/xcash_timer_thread.c:375-386 | for delegate addresses of 1 to 98 characters totals and buckets list the same delegates in the same order, the first 55 to appear; each total is the sum of the delegate's outputs and each bucket holds those that found room |
| `Payout.FullIff` | src/xcash_timer_thread/xcash_timer_thread.c:132-184 | a bucket adds up to its delegate's total if and only if no output was lost |
| `Payout.LockstepIff` | src/xcash_timer_thread/xcash_timer_thread.c:112-184 | a contribution keeps the tables in lockstep if and only if its delegate address has 1 to 98 characters or the tables are full, and its output finds room or is worth nothing |
| `Payout.ScanProofs` | src/xcash_timer_thread/xcash_timer_thread.c:286-387 | the scan, up to a shutdown or the end of the cursor, yields exactly those tables and deletes exactly the complete, positive proofs the check refuses; PayoutDocuments says what the tables are in terms of the documents |
| `PayoutDocuments.ContributionsAre` | src/xcash_timer_thread/xcash_timer_thread.c:286-386 | from the documents: the outputs owed to a delegate are, in order, one for each complete, positive, accepted document that names it, with the voter cut to 98 characters and the total |
| `PayoutDocuments.DeletionsAre` | src/xcash_timer_thread/xcash_timer_thread.c:357-373 | from the documents: the proofs deleted are, in order, those of the complete, positive documents the check refuses |
| `PayoutDocuments.AdmittedList` | src/xcash_timer_thread/xcash_timer_thread.c:112-184 | the delegates in the tables are the first 55 to appear among the accepted documents |
| `PayoutDocuments.KeptList` | src/xcash_timer_thread/xcash_timer_thread.c:132-147 | an output is lost exactly when its bucket holds 0, 256, 512, 1024 ... outputs and the allocation fails |
| `PayoutDocuments.AllKept` | src/xcash_timer_thread/xcash_timer_thread.c:132-147 | with memory for every supporting document the bucket holds everything owed |
| `PayoutDocuments.TotalsFromDocuments` | src/xcash_timer_thread/xcash_timer_thread.c:375-386 | from the documents to the two tables |
| `PayoutDispatch.TakeSnapshot` | src/xcash_timer_thread/xcash_timer_thread.c:416-430 | the online non-seed delegates in slot order |
| `PayoutDispatch.SnapshotIs` | src/xcash_timer_thread/xcash_timer_thread.c:416-430 | exactly the delegates online, each at its own address |
| `PayoutDispatch.SendBuckets` | src/xcash_timer_thread/xcash_timer_thread.c:656-776 | one message per nonempty bucket whose delegate is online |
| `PayoutDispatch.SendZeros` | src/xcash_timer_thread/xcash_timer_thread.c:778-875 | one zero-entry message per online delegate without outputs |
| `PayoutDispatch.Dispatch` | src/xcash_timer_thread/xcash_timer_thread.c:656-890 | both loops with shutdown at any turn: a prefix of what would be sent, and all of it without shutdown |
| `PayoutDispatch.OneInstructionEach` | src/xcash_timer_thread/xcash_timer_thread.c:656-890 | every online delegate is sent exactly one instruction unless building it fails, nobody else any |
| `PayoutDispatch.EveryDelegateIsPaidOnce` | src/xcash_timer_thread/xcash_timer_thread.c:301-890 | from proofs and delegates to messages: exactly one instruction for each delegate online whose message can be built, sent where it is online, with all the outputs contributed to it unless memory ran out |
| `PayoutDispatch.NobodyIsPaidTwice` | src/xcash_timer_thread/xcash_timer_thread.c:656-890 | whenever a seed shuts down, nobody has been sent two instructions |
| `PayoutDocuments.PaidFromDocuments` | src/xcash_timer_thread/xcash_timer_thread.c:286-890 | from the documents to the messages: exactly one for each delegate with an online slot that is no seed and whose message can be built, none for anybody else, each with the outputs kept for its delegate |
| `Statistics.Collection.UpdateOne` | src/xcash_round/xcash_round.c:889-929 | the guarded update of one document, no upsert |
| `Statistics.Collection.CountRound` | src/xcash_round/xcash_round.c:874-937 | one seed's pass is its sequence of guarded updates in slot order, without those the driver fails to send |
| `Statistics.WatermarkGrows` | src/xcash_round/xcash_round.c:889-929 | over every interleaving of seeds a watermark never goes back |
| `Statistics.ExactlyOnce` | src/xcash_round/xcash_round.c:889-929 | a height is counted for a key at most once, and exactly once if and only if the watermark starts below it and an attempt for it precedes every attempt for a later height |
| `Statistics.CountersAgree` | src/xcash_round/xcash_round.c:911-929 | the total grows by the counted rounds; online and producer counts never overtake it |
| `StatisticsCounts.CountersAre` | src/xcash_round/xcash_round.c:889-929 | over every interleaving each of the three counters grows by exactly the attempts for a verifier, an online verifier, a producing verifier, that come with a height above the initial watermark and above every earlier attempt |
| `StatisticsCounts.PassCounts` | src/xcash_round/xcash_round.c:874-937 | one pass at a height not yet counted adds a round to the first fifty slots, an online round if the status is "true", a produced round if the address is the producer's, and sets the watermark |

## Left out

- Agreement.AgreementHolds: is for nodes with the same list in the same order; what ballots say about lists that differ is left to the key set hash of VotePreimage.
- Agreement.Possible: the own ballot counts as signed from the moment the vote is recorded, a little before the wallet signs it.
- Vrf.ProveMessage: does not model the wiping of buffers or timing.
- FieldLimbs.FeCmov: computes the masked move but does not state that it runs in constant time.
- Payout.ScanProofs: leaves out reading fields out of database documents and whether a deletion succeeds.
- PayoutDispatch.SendBuckets: leaves out the text, hash and signature of a message; building one succeeds or fails per delegate.
- PayoutDispatch.SendZeros: likewise.
- Statistics.Collection.CountRound: leaves out the consensus_rounds document written afterwards.
- Committee.BuildCommittee: leaves out how the online list itself is filled from the responses and the quorum checks before it.
- VoteTally.TallyVotes: leaves out creating and broadcasting the block after acceptance, and takes the octets that a short output or key leaves unwritten in the uncleared hash buffer as zeros.
- The primality of p, the order of the base point and the contents of the precomputed tables are assumed, not proved.
- Every cryptographic hardness claim: that collisions and chosen hash values are hard to find, and unforgeability; theorems name the collision instead.
- fe25519_cswap, ge25519_frombytes_negate_vartime, ge25519_p3_to_precomp, ge25519_mul_l, ge25519_is_on_curve, ge25519_is_on_main_subgroup: not used by the VRF or the round.
- Parsing of messages, sockets, MongoDB, the wallet, logging, configuration, startup, registration and maintenance handling.
- verify_vrf_vote_signature_bound, which nothing calls.
