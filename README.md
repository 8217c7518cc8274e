# A verified model of a UOV fault-attack toolchain

This project models the core of a fault attack on the Unbalanced Oil and Vinegar (UOV) signature scheme, in two halves.

**The key-recovery script (`reconciliation.py`).** It works over GF(2^8) with v = 68 vinegar variables, m = 44 oil variables and n = 112 variables in all. From the public key and a single leaked oil vector it recovers a basis of the secret oil space. It does this in four steps:
1. It loads the faulty signature as hex and reads the public-key file into m upper-triangular n × n matrices.
2. It checks that every public quadratic form vanishes on the leaked vector.
3. The Kipnis-Shamir step finds a second oil vector as an eigenvector of a random matrix pencil M0^-1 M1.
4. The reconciliation loop finds the remaining m - 2 vectors one at a time. Each round poses a polynomial system and reads a Gröbner basis.

**The firmware side.** This is the harness that runs on the STM32F4 target:
- a SimpleSerial transport, with CRC-8, COBS framing, packets, acks and read-until helpers (`simpleserial.c`);
- the test program (`test.c`), which signs a message and streams the signed message back in 190-byte chunks, together with two glitch-profiling loops;
- the GPIO helpers (`stm32f4-hal.h`) that drive the trigger pin.

## Modelling choices

**The field.**
- The field is a datatype of eight GF(2) coefficients (`GF256.Elem`). Multiplication reduces by z^8 = z^4 + z^3 + z + 1, the modulus `y^8+y^4+y^3+y+1` of the script.
- The commutative-ring laws are proved (`GF256.MulComm`, `GF256.MulAssoc`, `GF256.MulDistRight`).
- A byte or integer `x` becomes `K(ZZ(x).digits(base=2))`, that is `GF256.FromInt`: bit b is the coefficient of z^b. Only integers below 256 reach `K` this way: a list of more than eight digits makes `K` raise, so readPK treats a token of value 0x100 or more as malformed (`PublicKey.ParseToken`).

**Vectors and matrices** are sequences (`LinAlg`). The module proves the bilinear-form algebra the attack rests on: polarization, transposition, and matrix-vector and eigenvector laws.

**Sage computations become parameters.** Gröbner bases, the characteristic polynomial and its factorisation, right kernels, inverses, `K.random_element()` and the symbolic polynomial system are foreign calls:
- `Reconciliation.Ring` and `Reconciliation.Oracles` carry the ring operations and the system builder.
- `KipnisShamir.Algebra` carries the Kipnis-Shamir computations. Its contracts come as two predicates:
  - `Sound`, the shapes: inverses are 48 × 48 and kernel vectors have 48 entries;
  - `Exact`, the meaning: the inverse is two-sided and every kernel vector is sent to zero.

  They are hypotheses of the lemmas that need them, never assumed.

**Imperative code stays imperative.**
- The serial line is a class `SimpleSerial.Channel`. It holds the bytes sent and the bytes still to arrive, and `putch`/`getch` are its methods.
- The C buffers are arrays.
- `RandomToUpper` folds a two-dimensional array in place, as the Python code does through the alias at line 294.
- `ReplaceWithSCAoil` overwrites an array in place.
- `SolveSystem` extends the caller's oil list, an `OilSpace` object, in place.

Each loop is a method proved against a specification function. The properties are lemmas about those functions.

**Unbounded loops.** The script's three search loops have no bound: the reconciliation loop, the invertibility loop and the Kipnis-Shamir search. Each takes a `fuel` bound in the model. Lemmas show when each loop runs out of fuel whatever the bound, that is, when it never ends:
- `Reconciliation.StuckForever`: a round that finds nothing repeats forever;
- `KipnisShamir.NoInverseNoEnd`: no invertible combination exists;
- `KipnisShamir.AllRejectedNoEnd`: no candidate passes the test.

The firmware's `while (1)` loops run in the model for as long as input arrives. The model ends them when the input is used up.

**Where the code and its comments disagree, the model follows the code:**
- `readpacket` returns 0 on success, not the number of data bytes that its comment at simpleserial.c:440 promises.
- `readpacket` writes `*data_len` before it checks the CRC.
- `main` never initialises `data_len` or `data`, and `readpacket` writes neither for a frame without data. The model of the loop takes, for every pass, the values they hold as a parameter (`Firmware.Stale`). The loop with `data_len` initialised to 0 is the case of a stale length of 0 (`Firmware.NextMessageInitialised`).
- The `found` that `SolveSystem` reads is the global of `main`. The model passes it in.

## Model

| member | source | states |
|---|---|---|
| GF256.AddComm | reconciliation.py:50-54 | field addition (coefficient-wise XOR) is commutative |
| GF256.AddAssoc | reconciliation.py:50-54 | field addition is associative |
| GF256.AddCancel | reconciliation.py:50-54 | every element is its own negative: (a + b) + a == b |
| GF256.MulComm | reconciliation.py:50-54 | multiplication modulo y^8 + y^4 + y^3 + y + 1 is commutative |
| GF256.MulAssoc | reconciliation.py:50-54 | multiplication is associative |
| GF256.MulDistRight | reconciliation.py:50-54 | multiplication distributes over addition |
| GF256.MulUnitZero | reconciliation.py:50-54 | 1 is the unit and 0 annihilates, on both sides |
| GF256.FromIntRank | reconciliation.py:425 | for x < 256, K(ZZ(x).digits(base=2)) is the element whose stored byte is x (bit b = coefficient of z^b) |
| GF256.FromIntInjective | reconciliation.py:260 | distinct integers below 256 denote distinct field elements |
| GF256.MulWrapExample | reconciliation.py:53 | z^7 * z == z^4 + z^3 + z + 1: 0x80 * 0x02 == 0x1B in the integer representation |
| GF256.MulExample | reconciliation.py:53 | the elements stored as 0x57 and 0x83 multiply to the one stored as 0xC1 (section 4.2 of FIPS 197) |
| LinAlg.Polarization | reconciliation.py:302-303 | x (P + P^T) y^T == Q(x + y) + Q(x) + Q(y) with Q(x) = x P x^T |
| LinAlg.SymmetrizedShape | reconciliation.py:302-303 | P + P^T is symmetric and, in characteristic 2, has a zero diagonal |
| LinAlg.SymmetrizedQuadZero | reconciliation.py:302-303 | the form of P + P^T vanishes on the diagonal: x (P + P^T) x^T == 0 |
| LinAlg.BilinearTranspose | reconciliation.py:306-307 | x M^T y^T == y M x^T |
| LinAlg.BilinearAddLeft | reconciliation.py:306-307 | x M y^T is linear in x |
| LinAlg.MatVecMul | reconciliation.py:80 | (M N) y^T == M (N y^T) |
| LinAlg.EigenMul | reconciliation.py:90 | a common eigenvector of M and N is one of M N, for the product of the eigenvalues |
| LinAlg.EigenAdd | reconciliation.py:90 | a common eigenvector of M and N is one of M + N, for the sum of the eigenvalues |
| LinAlg.EigenScale | reconciliation.py:90 | an eigenvector of M for mu is one of a M for a mu |
| LinAlg.EigenIdentity | reconciliation.py:87-88 | every vector is an eigenvector of the identity, for 1 |
| HexData.RemoveSpace | reconciliation.py:420 | ''.join(s.split()) leaves no whitespace and is no longer than s |
| HexData.RemoveSpaceConcat | reconciliation.py:420 | removing whitespace distributes over concatenation |
| HexData.RemoveSpaceNoSpace | reconciliation.py:420 | a string without whitespace is unchanged, so removal is idempotent |
| HexData.StripRemoved | reconciliation.py:411-420 | stripping before removing all whitespace changes nothing |
| HexData.FromHex | reconciliation.py:424 | bytes.fromhex succeeds iff the length is even and every character is a hex digit; then byte i is 16 * digit 2i + digit 2i+1 |
| HexData.ToHexDigits | reconciliation.py:424 | bytes.hex followed by bytes.fromhex gives the bytes back |
| HexData.LongInputIsHex | reconciliation.py:408 | an argument of 200 characters or more is always decoded as hex, never read as a path |
| HexData.LoadedBytes | reconciliation.py:405-430 | a successful load yields one element per pair of hex digits of the whitespace-free text; element i is the byte 16 * hex(c[2i]) + hex(c[2i+1]) |
| HexData.LoadErrors | reconciliation.py:409-428 | load_hex_data fails exactly when the file is missing, or the text without whitespace has odd length or a non-hex character |
| HexData.LoadToHex | reconciliation.py:405-430 | the hex text of any byte string loads back as those bytes, as field elements |
| PublicKey.Interleave | reconciliation.py:230-249 | the P1/P2/P3 split and the interleaving loop produce the flattened token list Flat(pk) |
| PublicKey.ReadPK | reconciliation.py:224-262 | readPK fails iff some token of the first 278432 is missing, is not hex (after stripping and an optional 0x) or has a value of 256 or more; otherwise it returns Key(Flat(pk)) |
| PublicKey.ParseToken | reconciliation.py:260 | a token that is accepted denotes a value below 256, the widest list of binary digits K takes |
| PublicKey.PrefixedTokenExample | reconciliation.py:260 | the token "0x1B", as the key generator writes it, parses to 0x1B |
| PublicKey.PaddedTokenExample | reconciliation.py:260 | surrounding whitespace is ignored: " ff\n" parses to 0xFF |
| PublicKey.WideTokenExample | reconciliation.py:260 | the token "100" is rejected, since its nine binary digits make K raise |
| PublicKey.BarePrefixExample | reconciliation.py:260 | a prefix without digits, "0x", is rejected |
| PublicKey.FillCell | reconciliation.py:259-261 | the innermost loop writes token Pos(i, j, k) into entry (i, j) of matrix k for every k, and nothing else |
| PublicKey.StoreToken | reconciliation.py:260-261 | one statement of the innermost loop: it writes the element of token Pos(i, j, k) into P[k][i, j] when the token parses, and nothing else; a token that does not parse makes the cell's run of m tokens fail |
| PublicKey.FillRow | reconciliation.py:258-261 | the middle loop fills positions (i, i) .. (i, n-1) of every matrix, and nothing else |
| PublicKey.LenOldFormula | reconciliation.py:234-237 | len_old[i] == (68 - i) * 44 for every i < 68 |
| PublicKey.LenOldSum | reconciliation.py:234-244 | the running sum summe ends at 103224 == len(P1) |
| PublicKey.SummeStep | reconciliation.py:242-244 | summe + len_old[i] is the start of row i + 1 of P1 |
| PublicKey.RowsTile | reconciliation.py:241-243 | the 68 rows of P1 tile P1, and the 68 slices of 1936 tokens tile P2 |
| PublicKey.FlatPermutation | reconciliation.py:230-249 | the flattened list is a permutation of the input tokens |
| PublicKey.KeyIndex | reconciliation.py:254-261 | for i <= j, P[k][i, j] is flat token m * sum_{r<i} (n - r) + (j - i) * m + k, and it is stored as that token's value |
| PublicKey.KeyUpper | reconciliation.py:254-261 | every entry below the diagonal of every matrix is zero |
| PublicKey.PosIncreasing | reconciliation.py:255-261 | the triple loop reads the tokens in strictly increasing order, none twice |
| PublicKey.PosBound | reconciliation.py:255-261 | every position of the triple loop reads one of the 278432 tokens of the key |
| PublicKey.RowFails | reconciliation.py:260 | a row that does not parse, after rows that do, makes the key ill-formed |
| OilCheck.Vanishes | reconciliation.py:198-203 | the evaluation loop succeeds iff every form vanishes, and otherwise stops at the first form that does not |
| OilCheck.CheckOil | reconciliation.py:207-217 | check_oil refuses iff some o P_k o^T != 0; otherwise it returns the first n coordinates of oil_in |
| OilCheck.ValidateOil | reconciliation.py:457-462 | main goes on iff every form vanishes on the first n coordinates of the loaded vector and they are not all zero (Sage's `Oilspace == 0` also holds for the zero vector); it then goes on with those coordinates |
| OilCheck.CheckVin | reconciliation.py:190-205 | check_vin refuses iff some form does not vanish on the candidate; otherwise it returns the candidate |
| OilCheck.IsotropicScale | reconciliation.py:207-217 | every multiple of an accepted vector is accepted |
| OilCheck.IsotropicSum | reconciliation.py:207-217 | the sum of two accepted vectors is accepted iff all their polar forms vanish |
| OilCheck.ZeroIsotropic | reconciliation.py:207-217 | the zero vector passes the test |
| Normalise.RandomToUpper | reconciliation.py:292-299 | the array is folded in place into ToUpper of its old contents |
| Normalise.ToUpperShape | reconciliation.py:295-298 | the folded matrix is upper triangular and keeps the diagonal |
| Normalise.ToUpperQuad | reconciliation.py:295-298 | folding keeps the quadratic form: x ToUpper(M) x^T == x M x^T for every x |
| Normalise.UpperToSymmetric | reconciliation.py:302-303 | P + P^T is symmetric with a zero diagonal |
| Normalise.UpperToSymmetricPolar | reconciliation.py:302-303 | x (P + P^T) y^T == Q(x + y) + Q(x) + Q(y), hence x (P + P^T) x^T == 0 |
| Normalise.EvalSymmetric | reconciliation.py:306-307 | Eval of symmetric matrices does not depend on the order of the two vectors |
| Normalise.EvalFromEvalleft | reconciliation.py:306-310 | entry l of Eval(F, x, y) is Evalleft(F, x)[l] times y^T |
| Normalise.EvalAddLeft | reconciliation.py:306-307 | Eval is linear in its first vector |
| ListOps.SplitInto | reconciliation.py:267-270 | SplitInto_k(L, k) has k sublists |
| ListOps.SplitFlatten | reconciliation.py:267-270 | the sublists, joined, are L without its last len(L) % k entries |
| ListOps.SplitSlices | reconciliation.py:267-270 | sublist i is L[i * (l // k) : (i + 1) * (l // k)] |
| ListOps.SplitOne | reconciliation.py:267-270 | SplitInto_k(L, 1) == [L] |
| ListOps.AppendIndependent | reconciliation.py:272-277 | the result is Augmented(L, k, first_index): k zeros before each vector, then a one at index i + first_index of vector i |
| ListOps.AugmentedUnit | reconciliation.py:272-277 | while i + first_index < k, vector i gets the unit vector e_(i + first_index) in front of it |
| ListOps.AugmentedOverwrite | reconciliation.py:272-277 | from i + first_index >= k on, the one overwrites an entry of the vector itself |
| ListOps.ReplaceWithSCAoil | reconciliation.py:220-222 | the first len(recoveredOil) rows become the recovered vectors, in place; the others are kept |
| EquationSystem.LinPairsMember | reconciliation.py:342-344 | the first loop visits exactly the pairs j < k < len(a_full) with k >= known |
| EquationSystem.LinPairsSorted | reconciliation.py:342-344 | those pairs come in strictly increasing lexicographic order, none twice |
| EquationSystem.LinPairsRange | reconciliation.py:342-347 | every pair of both loops indexes vectors of a_full |
| EquationSystem.MainShape | reconciliation.py:489 | with known = len(a_full) - 1, the new vector is paired with each earlier one, then with itself |
| EquationSystem.BlocksLength | reconciliation.py:342-349 | every pair contributes one block of m equations |
| EquationSystem.BlocksIndex | reconciliation.py:342-349 | equation l of block b is form l evaluated at the pair b |
| EquationSystem.SystemZero | reconciliation.py:338-350 | the system vanishes at a point iff every symmetric form vanishes at every pair j < k with k >= known, and every quadratic form at every a_j with j >= known |
| EquationSystem.OilSolves | reconciliation.py:338-350 | vectors of the oil space (whose pairwise sums are isotropic too) solve the system built with the symmetrized key |
| EquationSystem.Symmetrized | reconciliation.py:489 | [UpperToSymmetric(j) for j in PK] keeps the number and shape of the matrices |
| Reconciliation.Classify | reconciliation.py:360-372 | v basis polynomials give the solution x_i - g_i; one polynomial asks for randomization; any other size for more vectors |
| Reconciliation.SolveSystem | reconciliation.py:353-373 | on a solution s, AppendIndependent([s], m, w + found) is appended to the caller's oil list and [s] and that vector are returned; otherwise both lists are empty and the oil list is unchanged |
| Reconciliation.BuildAFull | reconciliation.py:483-488 | a_full is AppendIndependent(solution_split + a, m, 0) with its first rows replaced by the oil vectors |
| Reconciliation.Round | reconciliation.py:483-496 | one pass of the loop changes the oil list and solution_split as Step says |
| Reconciliation.Reconcile | reconciliation.py:470-496 | the loop's results are those of Run from the Kipnis-Shamir state, for at most fuel rounds |
| Reconciliation.InitInv | reconciliation.py:470-478 | the starting state has len(Oilspace) == len(solution_split) == w and each oil vector ends in its solution part |
| Reconciliation.StepInv | reconciliation.py:482-496 | a round keeps the invariant; found grows by one iff the basis has v elements, and then the new oil vector is e_(w+found) followed by the solution |
| Reconciliation.StuckForever | reconciliation.py:482-496 | a round that finds nothing leaves the state unchanged, so the loop never ends |
| Reconciliation.RunInv | reconciliation.py:482-496 | every state reached keeps the invariant, and the loop ends exactly when found == m - w |
| Reconciliation.Recovered | reconciliation.py:482-496 | when the loop ends, the oil list holds m vectors of length n: the w starting vectors, then vectors j >= w that start with e_j |
| Reconciliation.RunPrefix | reconciliation.py:482-496 | the loop only appends to the oil list |
| KipnisShamir.MixPass | reconciliation.py:75-77 | the for-j loop adds a random multiple of S_j to M0 and to M1 for j = 1 .. m-1, drawing 2(m-1) random elements |
| KipnisShamir.Randomize | reconciliation.py:74-79 | a draw that ends, within the fuel bound, yields an invertible 48 x 48 M0 and a 48 x 48 M1 |
| KipnisShamir.RandomizeLoop | reconciliation.py:71-79 | the while flag_inv loop, starting from matrices_sym[0] and [1], computes Randomize |
| KipnisShamir.PolyMatrix | reconciliation.py:84-90 | PP_M is c_0 I + c_1 M + ... + c_(d) M^d, with the coefficients in ascending degree |
| KipnisShamir.CountZeros | reconciliation.py:94-98 | flag1 <= m, and flag1 == m iff all m values of check are zero |
| KipnisShamir.FactorOutcome | reconciliation.py:84-101 | a factor is accepted only through kernel basis row 0, and only if every form vanishes on it |
| KipnisShamir.StopIndex | reconciliation.py:83-101 | the scan stops at the last factor not rejected, and every factor after it was rejected |
| KipnisShamir.TryFactors | reconciliation.py:83-101 | an accepted vector has 48 entries and every form vanishes on it |
| KipnisShamir.TestFactor | reconciliation.py:84-101 | one pass of the loop over the factors computes FactorOutcome |
| KipnisShamir.TestFactors | reconciliation.py:83-101 | the loop from the last factor to the first, with its break, computes TryFactors |
| KipnisShamir.TryFactorsOutcome | reconciliation.py:83-101 | the loop passes every factor iff each is rejected; otherwise it stops at the last factor not rejected |
| KipnisShamir.LastStopRejectAll | reconciliation.py:83-101 | the scan runs to the end exactly when every outcome is a rejection |
| KipnisShamir.Pencil | reconciliation.py:80 | M = M0^-1 M1 is 48 x 48 |
| KipnisShamir.TryDraw | reconciliation.py:80-101 | a draw's outcome is TryFactors over the factors of M0^-1 M1 |
| KipnisShamir.FindOil | reconciliation.py:66-103 | FindOilKipnisShamir computes Search, for at most fuel passes |
| KipnisShamir.SearchOil | reconciliation.py:72-100 | every oil vector returned is var_change * b, where b is kernel row 0 of f(M), f a factor of the characteristic polynomial of M = M0^-1 M1 for a draw (M0, M1) of the invertibility loop started from matrices_sym[0] and [1], and every form vanishes on b |
| KipnisShamir.AcceptedInKernel | reconciliation.py:91-93 | an accepted vector lies in the kernel of f(M) for its factor f |
| KipnisShamir.MatPowEigen | reconciliation.py:90 | an eigenvector of M for lambda is one of M^e for lambda^e |
| KipnisShamir.PolyMatEigen | reconciliation.py:87-90 | f(M) v == f(lambda) v for an eigenvector v of M for lambda |
| KipnisShamir.RootInKernel | reconciliation.py:87-92 | an eigenvector of M whose eigenvalue is a root of f lies in the kernel of f(M) |
| KipnisShamir.RandomizeExhausted | reconciliation.py:74-79 | without an invertible combination the invertibility loop never ends |
| KipnisShamir.NoInverseNoEnd | reconciliation.py:70-79 | without an invertible combination the search never ends |
| KipnisShamir.AllRejectedNoEnd | reconciliation.py:70-102 | if every factor of every pencil is rejected, the search never ends |
| Crc8.CalcCrc | pqm4_additional_files/simpleserial/simpleserial.c:49-64 | calc_crc is the bytewise CRC-8 with polynomial 0x4D, initial value 0 and no final XOR |
| Crc8.CrcEmpty | pqm4_additional_files/simpleserial/simpleserial.c:51 | the CRC of an empty buffer is 0 |
| Crc8.CrcResidue | pqm4_additional_files/simpleserial/simpleserial.c:49-64 | a buffer followed by its own CRC has CRC 0 |
| Crc8.LeadingZeroInvisible | pqm4_additional_files/simpleserial/simpleserial.c:51-58 | with the register starting at 0, leading zero bytes do not change the CRC |
| Crc8.CrcDetectsOneByteChange | pqm4_additional_files/simpleserial/simpleserial.c:49-64 | any corruption confined to one byte changes the CRC |
| Crc8.CrcSeparates | pqm4_additional_files/simpleserial/simpleserial.c:52-61 | two inputs whose prefixes have distinct CRCs and that agree after them have distinct CRCs |
| Cobs.StuffData | pqm4_additional_files/simpleserial/simpleserial.c:77-104 | cobs_stuff_data writes Stuff(buf[..len]) into out and returns its length; a null input writes nothing; nothing past the length is written |
| Cobs.StuffByte | pqm4_additional_files/simpleserial/simpleserial.c:88-100 | one pass of the loop closes the block on a zero or a full block, then appends a non-zero byte |
| Cobs.StuffNonZero | pqm4_additional_files/simpleserial/simpleserial.c:79-102 | the encoding never contains the frame byte |
| Cobs.Close | pqm4_additional_files/simpleserial/simpleserial.c:91-94 | a closed block carries its code 1 + count in front, never 0 |
| Cobs.StuffLength | pqm4_additional_files/simpleserial/simpleserial.c:79-103 | the encoding is empty exactly for the empty input and never longer than get_max_encode_len(len) |
| Cobs.UnstuffData | pqm4_additional_files/simpleserial/simpleserial.c:117-150 | cobs_unstuff_data returns 0 on a zero code byte or a block past the end; otherwise it writes Decode(buf[..len]) and returns its length, leaving the rest of out as it was |
| Cobs.DecodeLength | pqm4_additional_files/simpleserial/simpleserial.c:141-149 | a successful decoding is never longer than its input, get_max_decode_len(len) |
| Cobs.DecodeClose | pqm4_additional_files/simpleserial/simpleserial.c:141-147 | decoding a closed block emits its bytes, then 0x00 if its code is below 0xFF and more input follows |
| Cobs.DecodeLoopIsDecode | pqm4_additional_files/simpleserial/simpleserial.c:125-149 | the decoder loop, run from an empty output, computes Decode |
| Cobs.DecodeStuff | pqm4_additional_files/simpleserial/simpleserial.c:77-150 | decoding the encoding gives the input without the zeros that arrive while a block is full |
| Cobs.RoundTrip | pqm4_additional_files/simpleserial/simpleserial.c:89-99 | decode(stuff(x)) == x iff no zero of x arrives while the open block is full |
| Cobs.SwallowedIffRun | pqm4_additional_files/simpleserial/simpleserial.c:89-99 | a zero is lost exactly when the run of non-zero bytes before it has a length that is a positive multiple of 254 |
| Cobs.RoundTripShort | pqm4_additional_files/simpleserial/simpleserial.c:77-150 | every input of at most 254 bytes comes back |
| Cobs.SwallowExample | pqm4_additional_files/simpleserial/simpleserial.c:89-99 | 254 non-zero bytes followed by 0x00 decode without the zero |
| Cobs.StuffFixedCorrect | pqm4_additional_files/simpleserial/simpleserial.c:86-101 | the corrected encoder has no frame byte, the same length bound, and a round trip for every input |
| SimpleSerial.Channel.Putch | pqm4_additional_files/simpleserial/simpleserial.c:22 | putch appends one byte to the line |
| SimpleSerial.Channel.Getch | pqm4_additional_files/simpleserial/simpleserial.c:204 | getch takes the next byte of the input |
| SimpleSerial.SendBuf | pqm4_additional_files/simpleserial/simpleserial.c:15-24 | send_buf sends buf[0..len), and nothing for a null buffer or a zero length |
| SimpleSerial.SendStr | pqm4_additional_files/simpleserial/simpleserial.c:31-38 | send_str sends the bytes up to the first NUL, without it |
| SimpleSerial.SendResetSequence | pqm4_additional_files/simpleserial/simpleserial.c:295-299 | it sends [0, 0, 0, 114, 0, 0, 0] |
| SimpleSerial.ResetSequenceShape | pqm4_additional_files/simpleserial/simpleserial.c:292-297 | the reset sequence is three lone terminators, the data-less packet 'r' and two more terminators |
| SimpleSerial.SendAck | pqm4_additional_files/simpleserial/simpleserial.c:309-315 | send_ack sends [command, FRAME_BYTE] |
| SimpleSerial.StreamStuffed | pqm4_additional_files/simpleserial/simpleserial.c:386-425 | the stream mode sends the COBS encoding of the data followed by their CRC, block by block out of 255 bytes |
| SimpleSerial.SendByte | pqm4_additional_files/simpleserial/simpleserial.c:394-420 | one pass of the loop sends the block on a zero or a full block, then appends a non-zero byte |
| SimpleSerial.SendPacket | pqm4_additional_files/simpleserial/simpleserial.c:363-432 | sendpacket sends [cmd, 0x00] without data, otherwise cmd ++ cobs(data ++ [crc(data)]) ++ [0x00]; it returns 0 |
| SimpleSerial.NextFrame | pqm4_additional_files/simpleserial/simpleserial.c:262-282 | the frame read is the shortest prefix of the input that ends with the frame byte |
| SimpleSerial.ReadUntilTerminator | pqm4_additional_files/simpleserial/simpleserial.c:250-286 | read_until_terminator returns NULL for a null length pointer; otherwise it consumes and returns the bytes up to and including the first frame byte, or waits forever |
| SimpleSerial.SeqEnd | pqm4_additional_files/simpleserial/simpleserial.c:201-224 | the length read is the shortest, at least 1, whose bytes end with the sequence |
| SimpleSerial.ReadUntilSequence | pqm4_additional_files/simpleserial/simpleserial.c:192-228 | read_until_sequence returns NULL for a null or empty sequence or a null length pointer; otherwise the shortest prefix of the input ending with the sequence |
| SimpleSerial.TerminatorIsSequence | pqm4_additional_files/simpleserial/simpleserial.c:192-286 | reading until the one-byte sequence [FRAME_BYTE] is reading until the terminator |
| SimpleSerial.WaitAck | pqm4_additional_files/simpleserial/simpleserial.c:329-353 | wait_ack reads one frame and returns 0 only for [cmd, FRAME_BYTE], -1 otherwise |
| SimpleSerial.AckStatusExact | pqm4_additional_files/simpleserial/simpleserial.c:339-352 | wait_ack accepts a frame exactly when it is the ack send_ack sends |
| SimpleSerial.AckRoundTrip | pqm4_additional_files/simpleserial/simpleserial.c:309-353 | send_ack(cmd) followed by wait_ack(cmd) succeeds for every non-zero command |
| SimpleSerial.AckZeroFails | pqm4_additional_files/simpleserial/simpleserial.c:309-353 | the ack for command 0 is read as a lone terminator, so wait_ack(0) never succeeds |
| SimpleSerial.ParseFrame | pqm4_additional_files/simpleserial/simpleserial.c:467-517 | readpacket returns 0 or -1, and data only with status 0 and data_len their length |
| SimpleSerial.ParsePacket | pqm4_additional_files/simpleserial/simpleserial.c:467-517 | the part of readpacket after the read computes ParseFrame |
| SimpleSerial.DecodePacketData | pqm4_additional_files/simpleserial/simpleserial.c:485-502 | the bytes between command and terminator are COBS-decoded into a fresh buffer; an empty or failed decoding gives -1 |
| SimpleSerial.CheckCrc | pqm4_additional_files/simpleserial/simpleserial.c:504-517 | the last decoded byte is the CRC, data_len is written before the check, and a mismatch gives -1 |
| SimpleSerial.ReadPacket | pqm4_additional_files/simpleserial/simpleserial.c:456-518 | a null cmd pointer gives -1 at once; otherwise one frame is read and reported as ParseFrame says |
| SimpleSerial.ParseFrameSimple | pqm4_additional_files/simpleserial/simpleserial.c:474-479 | on [cmd, 0x00] it sets cmd and returns 0 without writing data or data_len |
| SimpleSerial.ParseFrameAccepts | pqm4_additional_files/simpleserial/simpleserial.c:496-517 | data accepted by readpacket arrived as the COBS encoding of the data followed by their CRC |
| SimpleSerial.PacketIsOneFrame | pqm4_additional_files/simpleserial/simpleserial.c:363-432 | a packet with a non-zero command is exactly one frame |
| SimpleSerial.PacketRoundTrip | pqm4_additional_files/simpleserial/simpleserial.c:363-518 | readpacket gives back what sendpacket sent: the command alone for no data, and the command, the data and their length for 1 to 253 data bytes |
| SimpleSerial.PacketReadBack | pqm4_additional_files/simpleserial/simpleserial.c:363-518 | sendpacket followed by readpacket on the same line reads the packet, leaves what follows, and returns the data |
| SimpleSerial.CobsBlockLenAsWritten | pqm4_additional_files/simpleserial/simpleserial.c:472-488 | cobs_block_len == buf_len - 1 on unsigned 32-bit words |
| SimpleSerial.LoneTerminatorUnderflow | pqm4_additional_files/simpleserial/simpleserial.c:472-488 | a lone terminator makes cobs_block_len 2^32 - 1, past the one-byte buffer |
| SimpleSerial.ParseFrameLoneTerminator | pqm4_additional_files/simpleserial/simpleserial.c:467-502 | a lone-terminator frame is rejected with -1 and no data |
| Firmware.WriteCanary | pqm4_additional_files/test.c:51-55 | write_canary sets d[0..8) to the canary bytes and changes nothing else |
| Firmware.CheckCanary | pqm4_additional_files/test.c:57-64 | check_canary returns 0 iff d[0..8) holds the canary, and -1 otherwise |
| Firmware.CanaryDetectsOverwrite | pqm4_additional_files/test.c:57-64 | any change to one canary byte is detected |
| Firmware.SendChunk | pqm4_additional_files/test.c:217-218 | one chunk goes out as a 'd' packet, then one frame is read as its ack |
| Firmware.SendChunkAt | pqm4_additional_files/test.c:206-219 | one pass of the chunk loop at offset i sends the chunk at i and, on a good ack, leaves the session from i + 190 on to come |
| Firmware.TestSign | pqm4_additional_files/test.c:205-223 | test_sign's transfer of sm[0..smlen) is the Session over its chunks |
| Firmware.ChunksFrom | pqm4_additional_files/test.c:206-215 | the chunk at offset i has length min(190, smlen - i) and the next starts at i + 190 |
| Firmware.ChunksFlatten | pqm4_additional_files/test.c:206-217 | the chunks, joined in order, are sm[0..smlen) |
| Firmware.ChunksCount | pqm4_additional_files/test.c:206 | there are ceil(smlen / 190) chunks, none when smlen == 0 |
| Firmware.ChunkAt | pqm4_additional_files/test.c:206-215 | chunk k starts at 190 k; all but the last have 190 bytes, the last 1 to 190 |
| Firmware.SessionAllAcked | pqm4_additional_files/test.c:206-223 | when every chunk is acked, every chunk is sent in order, then the 'e' ack, and test_sign returns 0 |
| Firmware.SessionSucceeds | pqm4_additional_files/test.c:218-223 | when test_sign returns 0 it has sent every data packet and then the 'e' ack |
| Firmware.SessionStops | pqm4_additional_files/test.c:218 | a failed ack ends test_sign with -1 after the first k packets, with no later chunk and no 'e' ack |
| Firmware.SessionEmpty | pqm4_additional_files/test.c:206-223 | an empty signed message sends only the 'e' ack |
| Firmware.UninitialisedLengthCopies | pqm4_additional_files/test.c:257-266 | a data-less 's' frame leaves data_len unwritten, so a stale 256 makes main copy from a data pointer never set |
| Firmware.NextMessageSources | pqm4_additional_files/test.c:257-267 | as written, a start signal leaves m, replaces it with 256 bytes that arrived behind their own CRC, or, for a frame without data and a stale data_len of 256, with the bytes behind the unset data pointer |
| Firmware.NextMessageInitialised | pqm4_additional_files/test.c:257-267 | with data_len initialised to 0 the loop takes the frame's message exactly when 256 bytes arrived, whatever the data pointer holds |
| Firmware.NextMessageFromFrame | pqm4_additional_files/test.c:259-267 | with data_len initialised, m is replaced only by exactly 256 bytes that arrived behind their own CRC |
| Firmware.DatalessStartKeepsMessage | pqm4_additional_files/test.c:259-267 | with data_len initialised, a data-less start signal keeps the message |
| Firmware.CopyMessage | pqm4_additional_files/test.c:266 | memcpy(m, data, MLEN) copies the 256 bytes |
| Firmware.ReadFrame | pqm4_additional_files/test.c:259 | readpacket waits iff no complete frame has arrived; otherwise it consumes one frame and reports ParseFrame of it |
| Firmware.MainIteration | pqm4_additional_files/test.c:255-271 | one pass of main's loop, with the indeterminate data_len and data it starts from as parameters, acts only on res == 0 && cmd == 's', as MainStep says |
| Firmware.SignAndSend | pqm4_additional_files/test.c:269-270 | on a start signal main acks 's', signs m and runs the transfer |
| Firmware.MainStepSigns | pqm4_additional_files/test.c:259-270 | a data-less start signal followed by an ack per chunk gets the 's' ack, every chunk and the 'e' ack; it signs m, or the bytes behind the unset pointer when the stale data_len is 256 |
| Firmware.MainStepConsumes | pqm4_additional_files/test.c:253-272 | every pass that does not wait consumes input |
| Firmware.SigningLoop | pqm4_additional_files/test.c:251-272 | main clears m, sends the reset sequence, then runs one pass per frame as long as input arrives, each pass starting from that pass's indeterminate data_len and data |
| Firmware.ProfileMemcpyIteration | pqm4_additional_files/test.c:94-123 | on a start signal it acks 's', fills both buffers, copies, and reports; other frames are ignored |
| Firmware.ReportCopy | pqm4_additional_files/test.c:119-123 | 'q' with the target buffer iff memcmp finds a difference, else an empty 'e' packet |
| Firmware.CopyReportReadBack | pqm4_additional_files/test.c:119-123 | the host reads a faulty copy back as the 68-byte target buffer, a good one as a data-less 'e' |
| Firmware.ProfileMemcpy | pqm4_additional_files/test.c:72-126 | profile_memcpy sends the reset sequence, then one report per start signal for as long as input arrives |
| Firmware.ProfileUnrolledLoopIteration | pqm4_additional_files/test.c:154-182 | on a start signal it acks 's' and reports on the counter; other frames are ignored |
| Firmware.ReportCounter | pqm4_additional_files/test.c:177-182 | 'f' with the 4 counter bytes iff counter != 100, else an empty 'e' packet |
| Firmware.CounterReportReadBack | pqm4_additional_files/test.c:177-182 | the host reads a faulty counter back exactly, a correct run as a data-less 'e' |
| Firmware.LittleEndianRoundTrip | pqm4_additional_files/test.c:178 | the 4 bytes of the unsigned int counter, little-endian, give the counter back |
| Firmware.ProfileUnrolledLoop | pqm4_additional_files/test.c:129-185 | profile_unrolled_loop sends the reset sequence, then one report per start signal for as long as input arrives |
| Gpio.ConfigurePin | pqm4_additional_files/hal/stm32f4-hal.h:108-111 | clearing and setting one pin's field puts v & 3 there and keeps every other field |
| Gpio.ModeSetup | pqm4_additional_files/hal/stm32f4-hal.h:91-117 | the values written back to MODER and PUPDR are SetFields of the values read |
| Gpio.ModeSetupFields | pqm4_additional_files/hal/stm32f4-hal.h:96-111 | each selected pin's MODER and PUPDR fields hold mode & 3 and pull_up_down & 3; the others keep the values read |
| Gpio.SetFieldsField | pqm4_additional_files/hal/stm32f4-hal.h:103-112 | after pins 0 .. n-1, each selected field among them holds v & 3 and every other field is as read |
| Gpio.FieldsDetermine | pqm4_additional_files/hal/stm32f4-hal.h:46-51 | a register value is determined by its 16 two-bit fields |
| Gpio.SetFieldsIdempotent | pqm4_additional_files/hal/stm32f4-hal.h:91-117 | configuring the same pins twice with the same values gives what one call gives |
| Gpio.GpioSet | pqm4_additional_files/hal/stm32f4-hal.h:125-128 | inline_gpio_set writes gpios to BSRR bits 0-15 and zeros above |
| Gpio.GpioClear | pqm4_additional_files/hal/stm32f4-hal.h:135-138 | inline_gpio_clear writes gpios to BSRR bits 16-31 and zeros below |
| Gpio.GpioSetEffect | pqm4_additional_files/hal/stm32f4-hal.h:125-128 | inline_gpio_set raises exactly the given pins |
| Gpio.GpioClearEffect | pqm4_additional_files/hal/stm32f4-hal.h:135-138 | inline_gpio_clear lowers exactly the given pins |
| Gpio.TriggerPulse | pqm4_additional_files/test.c:15-17 | set_trigger then clear_trigger leave GPIO12 low and every other pin as it was |
| Gpio.ModeMaskOverflow | pqm4_additional_files/hal/stm32f4-hal.h:46-47 | 0x3 << (2 pin) overflows a signed int exactly for pin 15 |
| Gpio.ModeValueOverflow | pqm4_additional_files/hal/stm32f4-hal.h:50-51 | (mode & 0x3) << (2 pin) overflows exactly for pin 15 with mode & 3 >= 2 |
| Gpio.ClearOverflow | pqm4_additional_files/hal/stm32f4-hal.h:137 | gpios << 16 overflows a signed int exactly when GPIO15 is among the pins (gpios >= 0x8000) |
| Gpio.TriggerSetupDefined | pqm4_additional_files/test.c:15-17 | for the trigger pin GPIO12 every shift is defined and equals the unsigned model |

## Left out

- Host I/O in the script: the key-file read and its `split(", ")` (reconciliation.py:225-227), the file read of `load_hex_data`, argparse, printing, timing and `sys.exit`. The file system is a parameter `readFile`, and readPK starts from the list of tokens.
- PublicKey.ReadPK: `int(token, 16)` is modelled for tokens of hex digits after stripping, with an optional `0x` or `0X` prefix. Python's sign and underscore forms are not modelled; such tokens count as malformed. A negative value would reach `K` with negative digits, which is not modelled either.
- ListOps.SplitInto, ListOps.SplitSlices, ListOps.AppendIndependent and ListOps.Augmented: they require k > 0 and i + first_index < k + len(L[i]) for every vector i. Python raises ZeroDivisionError or IndexError outside these bounds, and every caller in the script stays within them.
- OilCheck.CheckOil, OilCheck.CheckVin and OilCheck.ValidateOil require inputs of at least n entries. Python would raise an IndexError on shorter ones.
- Reconciliation.SolveSystem requires w + found < n, which the loop guarantees. Python would raise an IndexError beyond it.
- The Sage computations: `groebner_basis`, `charpoly`/`factor`, `right_kernel`, `is_invertible`/`inverse`, `K.random_element` and symbolic polynomial arithmetic. They are parameters with contracts and are not computed.
- EquationSystem.SystemZero: the system is evaluated at concrete vectors. The polynomial system of the script is built by the `system` oracle of `Reconciliation.Oracles`: the model captures its index structure (which pairs, in which order) but not the polynomials themselves.
- Reconciliation.Reconcile, KipnisShamir.Randomize and KipnisShamir.Search run for at most `fuel` rounds, because the source's loops are unbounded. Running out of fuel stands for a loop that never ends.
- `InitialLinSystem`, `InsertLinEq` and `InsertFound` (reconciliation.py:280-289, 316-335) are not modelled. The two Insert helpers are never called. `InitialLinSystem` depends on Sage's `echelon_form` and on its polynomial representation.
- The Kipnis-Shamir preparation (`InitialLinSystemKS`, `LinearSystemToMatrix`, `InitialSystemKS`, `PolynomialToMatrix`) and the `KipnisShamir` wrapper (reconciliation.py:375-403) are not modelled. They depend on Sage's coefficient and monomial representation. The model takes `matrices_sym`, `matrices` and `var_change` as inputs.
- The conversion of the oil space to integers for output (reconciliation.py:500-505) uses Sage's `coefficients()` and is not modelled.
- `trial` in FindOilKipnisShamir is counted but never read, so the model does not keep it.
- Sage's `+=` on matrices makes a new matrix object, so `matrices_sym` is not changed; the model computes on values. Python's `+=` on the oil list is aliasing, modelled by the shared `OilSpace` object.
- `malloc`/`realloc`/`free` and their failure paths, with one exception: for a lone terminator readpacket asks for 2^32 - 1 bytes, and the model takes that request as failing (`SimpleSerial.ParseFrame`). Also the leaks of `buf` in readpacket (simpleserial.c:481-483) and of `data` in test.c main. `fprintf` is left out too.
- A `getch` that waits for a byte is modelled as a call that is still blocked (`Call.Blocked`). The bytes that have arrived are the channel's `rx`.
- `MUPQ_crypto_sign` is a parameter `sign`. `hal_setup`, the GPIO register addresses, the inline assembly and the NOP padding are left out. The glitched memcpy and counter are the parameters `landed` and `counters`.
- test.c's `#ifdef` configurations: the model takes the `ATTACK` build for the signing loop and the default initialisation bytes for profile_memcpy.
- `memset(sm, 0, ...)` of the non-attack build (test.c:192) is not modelled: the model starts from the signed message after signing.

## Findings

| source | as written | input that shows it | evidently intended | confidence | as-written member | corrected member |
|---|---|---|---|---|---|---|
| pqm4_additional_files/simpleserial/simpleserial.c:89-99 | a 0x00 that arrives while the block is full closes a 0xFF block and is not encoded, so the decoder cannot restore it | 254 bytes 0x01 followed by 0x00 | close the full block first, then encode the zero as a block end | high (proved; not executed) | Cobs.SwallowExample | Cobs.StuffFixedCorrect |
| pqm4_additional_files/simpleserial/simpleserial.c:472-488 | a frame holding only the terminator leaves buf_len 0, and `buf_len - 1` wraps to 2^32 - 1 | the frame [0x00] | reject an empty frame with -1 | high (proved; not executed) | SimpleSerial.LoneTerminatorUnderflow | SimpleSerial.ParseFrameLoneTerminator |
| pqm4_additional_files/test.c:257-264 | data_len is read uninitialised after a data-less start signal | the frame ['s', 0x00] with 256 left in data_len | initialise data_len to 0, the loop with a stale length of 0 | high (proved; not executed) | Firmware.UninitialisedLengthCopies | Firmware.DatalessStartKeepsMessage |
| pqm4_additional_files/hal/stm32f4-hal.h:46-51 | `0x3 << (pin * 2)` and `(mode & 0x3) << (pin * 2)` shift a signed int into its sign bit for pin 15 | pin 15, mode 0x02 | use unsigned constants (`0x3u`), as the model's unsigned words do | high (proved; not executed) | Gpio.ModeMaskOverflow | Gpio.ModeSetupFields |
| pqm4_additional_files/hal/stm32f4-hal.h:137 | `gpios << 16` promotes a uint16_t to a signed int and overflows for GPIO15 | gpios = 0x8000 | cast to uint32_t before the shift | high (proved; not executed) | Gpio.ClearOverflow | Gpio.GpioClearEffect |
