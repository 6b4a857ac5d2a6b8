# Verified models of the SGX bridge's hard parts

This project models three parts of the repository in Dafny and proves what they are for.

**Word arithmetic** (`Arith.dfy`, `BnLcl.dfy`). The macros of `bn_lcl.h` that multiply, square and
multiply-accumulate words from half-word products, masks and carry tests. A machine is a half-word
base `h` and a word base `b = h * h`; only evenness of `h` is used, so the results hold for every
half-word width. C arithmetic that can wrap is written with an explicit reduction. Each macro in each
of its four preprocessor forms is proved to compute the exact integer result; a driver over arrays
gives `bn_mul_add_words` its meaning (its body is not part of the repository).

**The remote attestation protocol.**
- `Bytes.dfy`, `Layout.dfy`, `Memory.dfy`: byte strings, the packed messages, malloc and free.
- `Crypto.dfy`, `Kdf.dfy`: the crypto library as arbitrary functions, and both key derivations.
- `SpSpec.dfy`: what each message does to the provider's global state, as functions.
- `ServiceProvider.dfy`: the provider as a class, one method per message, filling malloc'd buffers
  store by store, proved against those functions.
- `SpRuns.dfy`: theorems over every run, that is every sequence of messages with every outcome of
  every call the provider makes. `SpLimits.dfy`: how far they reach, and runs that show it.
- `SpAnswers.dfy`, `ClientAnswers.dfy`: every answer of the provider and every value a client round
  returns, in terms of bytes, codes and results of calls, without the functions above.
- `Enclave.dfy`, `IasRa.dfy`, `SwapEndian.dfy`, `Network.dfy`: the enclave's two checks, the simulated
  attestation server, its endianness macro, the dispatcher.
- `ClientSpec.dfy`: what each stage of a client round does, as functions; `IsvApp.dfy`: main with
  its two rounds, all exits to CLEANUP and every buffer, proved against them.
- `Completeness.dfy`, `ClientRuns.dfy`: the honest client gets the secret, and a secret stored means
  an attestation of the round's own session; when a round returns 0 and what it leaves the next one.

**Small algorithms.** `ThreadsTest.dfy` and `ThreadsProgress.dfy` (the busy-wait handshake as
interleaved steps: safety over every schedule, and progress over every fair one),
`PrintWord.dfy` (`print_word`), `EcdsaTamper.dfy` (the flip and its undoing).

## What is assumed

Cryptography is a record of arbitrary functions (`Crypto`). Only these laws are assumed, each where
it is named: Diffie-Hellman commutes (`DhCommutes`) and GCM decryption undoes encryption
(`GcmRoundTrip`), both for completeness only; encryption and decryption write as many bytes as they
read (`SealKeepsLength`, `UnsealKeepsLength`). The safety theorems need no law but the length ones.
Hashing in several updates is hashing the concatenation: the hash context is modelled as the bytes
given so far. Whether a library call succeeds, and what it returns, is a parameter of each message or
round (`Msg0Env`, `Msg1Env`, `Msg3Env`, `RoundEnv` and the like), so every theorem covers every
combination of failures.
Preconditions state what the source relies on without checking it: a request holds as many bytes as
its size says, a message 3 that gets as far as the comparison of the report data has a quote long
enough for it (`QuoteReadable`), and the revocation list does not make the 32-bit size of message 2
wrap (`SigRlFitsExactly` gives the exact bound).

## What the code does that one might not expect

These are facts of the code, each with its exact condition and a case that shows it as lemmas.
- An unsupported group in message 0 is answered with `SP_OK`, so a successful message 0 does not
  mean that the provider is registered (`OkMsg0Registers`, `UnsupportedAnswered`).
- A failing enrolment for another group keeps the provider registered but moves the group pointer;
  this cannot happen with one group id in the table, as now (`GroupEnrolledExactly`, `SwitchFails`).
- A message 3 is not tied to an earlier message 1: before any message 1 the record holds zeros, and
  a message 3 that fits them is answered (`ResultBeforeMsg1`, `AfterMsg1Exactly`).
- A failing message 1 can leave a record that mixes two sessions, and a message 3 that fits it is
  answered too (`MixedRun`, `RecordExactly`, `SessionExactly`, `OpenFailureExactly`). Results are
  about one session exactly when the last message 1 to get to the record completed it
  (`ResultOwnedExactly`).
- The client's retry counters are not set again between rounds; a loop that gave up leaves -1, and a
  later loop from -1 has no bound on its tries (`LostCounterExactly`, `BusyCounterExactly`,
  `LostTwice`).
- main returns the value of its second round alone, 0 also after a first round that failed
  (`MainZeroExactly`, `FirstRoundHidden`).
- A round returns 0 also when the result did not pass attestation, and when put_secret_data itself
  reports the failure while the call into the enclave succeeded (`ZeroWithoutSecretExactly`,
  `ZeroWithoutSecret`). The attestation report is a parameter of the provider here; the server
  simulated in the repository always gives a good one (`VerifyAttestationEvidence`).
- The flag that test_thread_local checks is never reset (`LocalCheckExactly`, `StaleFlagPasses`).
- A host thread that cannot enter the enclave returns without clearing busy_wait, and the waiting
  test then never ends (`LostReached`, `LostMeansForever`, `ReleasableExactly`).

Where comments and code disagree the model follows the code: the comment on message 2's MAC leaves
out `kdf_id`, which the code covers; the comment on the result's MAC speaks of smk and the
attestation status, the code uses mk and the platform info blob.

## Model

| member | source | states |
|---|---|---|
| `BnLcl.PowersAreBases` | erlang-nif_SSL/Enclave/tests/bn_lcl.h:168-172 | 2^k and its square are a half-word and a word base for every k >= 1, so everything below holds for every half-word width (the header has 32 and 16) |
| `BnLcl.SplitWord` | erlang-nif_SSL/Enclave/tests/bn_lcl.h:662-663 | LBITS and HBITS of a word are below h and rebuild the word |
| `BnLcl.CarryTest` | erlang-nif_SSL/Enclave/tests/bn_lcl.h:680-683 | a truncated sum of two words is below an addend exactly when the carry out of the word was lost |
| `BnLcl.AddCarry` | erlang-nif_SSL/Enclave/tests/bn_lcl.h:680-683 | the sum and the test `s < y` together lose nothing: x + y = carry * b + s |
| `BnLcl.ProductOfSplits` | erlang-nif_SSL/Enclave/tests/bn_lcl.h:677-680 | the four half-word products, weighted by their positions, are the product of the two words |
| `BnLcl.MiddleTerm` | erlang-nif_SSL/Enclave/tests/bn_lcl.h:680-683 | the middle sum with its lost carry contributes its high half to the high word and its low half to the low word, and nothing else |
| `BnLcl.Mul64Sum` | erlang-nif_SSL/Enclave/tests/bn_lcl.h:680-684 | no partial value of the high word ever wraps, whatever the carries |
| `BnLcl.Mul64` | erlang-nif_SSL/Enclave/tests/bn_lcl.h:670-686 | the two words returned are the exact double-word product of the factors given by their halves |
| `BnLcl.Mul64Add` | erlang-nif_SSL/Enclave/tests/bn_lcl.h:680-685 | the carry of the middle term, the shifted halves and the carry of the low word are all accounted for |
| `BnLcl.AddHighLow` | erlang-nif_SSL/Enclave/tests/bn_lcl.h:681-684 | the last additions keep the two-word value: what is added to the low word carries into the high word, which does not wrap |
| `BnLcl.DoubledMiddle` | erlang-nif_SSL/Enclave/tests/bn_lcl.h:698-699 | the 2h1 mask and the shift by one bit more than a half-word together represent twice the middle product: the bit the shift drops is the one the mask counts |
| `BnLcl.Sqr64Identity` | erlang-nif_SSL/Enclave/tests/bn_lcl.h:694-700 | what sqr64 adds to the squares of the halves completes the square of the word |
| `BnLcl.Sqr64` | erlang-nif_SSL/Enclave/tests/bn_lcl.h:688-703 | the two words returned are the exact square of the input word |
| `BnLcl.Sqr64ByMul64` | erlang-nif_SSL/Enclave/tests/bn_lcl.h:670-703 | for every word, sqr64 of it and mul64 of it by itself leave the same two words, the word's square |
| `BnLcl.MulAddFits` | erlang-nif_SSL/Enclave/tests/bn_lcl.h:705-719 | r + a*w + c is below b * b: the bound that lets every form return two words |
| `BnLcl.AddTwoWords` | erlang-nif_SSL/Enclave/tests/bn_lcl.h:606-610 | two words are added to the low word of a product with both carry tests, and the high word does not wrap |
| `BnLcl.MulAddDoubleWidth` | erlang-nif_SSL/Enclave/tests/bn_lcl.h:579-584 | double-width form: c' * b + r' = r + a*w + c |
| `BnLcl.MulAddLoHi` | erlang-nif_SSL/Enclave/tests/bn_lcl.h:601-611 | BN_UMULT_LOHI form: c' * b + r' = r + a*w + c |
| `BnLcl.MulAddHigh` | erlang-nif_SSL/Enclave/tests/bn_lcl.h:628-639 | BN_UMULT_HIGH form: c' * b + r' = r + a*w + c |
| `BnLcl.MulSplit` | erlang-nif_SSL/Enclave/tests/bn_lcl.h:708-711 | LBITS, HBITS and mul64 on a word and the halves of the multiplier give the whole product |
| `BnLcl.MulAddHalfWords` | erlang-nif_SSL/Enclave/tests/bn_lcl.h:705-719 | half-word form: c' * b + r' = r + a*w + c |
| `BnLcl.MulAdd` | erlang-nif_SSL/Enclave/tests/bn_lcl.h:578-719 | whichever form the preprocessor selects, both results are words and together r + a*w + c |
| `BnLcl.MulAddFormsAgree` | erlang-nif_SSL/Enclave/tests/bn_lcl.h:578-719 | any two forms of mul_add leave the same r and c: remainder and quotient of r + a*w + c by b |
| `BnLcl.MulDoubleWidth` | erlang-nif_SSL/Enclave/tests/bn_lcl.h:586-591 | double-width mul: c' * b + r' = a*w + c |
| `BnLcl.MulLoHi` | erlang-nif_SSL/Enclave/tests/bn_lcl.h:613-620 | BN_UMULT_LOHI mul: c' * b + r' = a*w + c |
| `BnLcl.MulHigh` | erlang-nif_SSL/Enclave/tests/bn_lcl.h:641-649 | BN_UMULT_HIGH mul: c' * b + r' = a*w + c |
| `BnLcl.MulHalfWords` | erlang-nif_SSL/Enclave/tests/bn_lcl.h:721-733 | half-word mul: c' * b + r' = a*w + c |
| `BnLcl.Mul` | erlang-nif_SSL/Enclave/tests/bn_lcl.h:578-733 | whichever form is selected, both results are words and together a*w + c |
| `BnLcl.MulFormsAgree` | erlang-nif_SSL/Enclave/tests/bn_lcl.h:578-733 | any two forms of mul leave the same r and c: remainder and quotient of a*w + c by b |
| `BnLcl.Sqr` | erlang-nif_SSL/Enclave/tests/bn_lcl.h:593-657 | whichever form is selected (sqr64 for half-words), r1 * b + r0 is the square |
| `BnLcl.ValueSnoc` | erlang-nif_SSL/Enclave/tests/bn_lcl.h:308-310 | the most significant word counts with weight b^n |
| `BnLcl.MulAddWords` | erlang-nif_SSL/Enclave/tests/bn_lcl.h:308-310 | chaining mul_add over n words in place, also when both arrays are the same: value(r') + carry * b^n = value(r) + w * value(a), carry a word, the words beyond n untouched |
| `PrintWord.ShiftStep` | erlang-nif_SSL/Enclave/tests/bntest.c:511-512 | shifting by 8 bits less brings in exactly one more byte |
| `PrintWord.EmitStep` | erlang-nif_SSL/Enclave/tests/bntest.c:513-519 | after each byte the output parses to the bits seen so far and has no leading zero digit |
| `PrintWord.CanonicalUnique` | erlang-nif_SSL/Enclave/tests/bntest.c:504-525 | a word has exactly one print without superfluous leading zeros |
| `PrintWord.DigitsAsWritten` | erlang-nif_SSL/Enclave/tests/bntest.c:514-516 | the digits are the usual ones, with letters in upper case |
| `PrintWord.PrintWord` | erlang-nif_SSL/Enclave/tests/bntest.c:504-525 | for a word of any number of bytes the output parses back to the word and is canonical: "0", or hexadecimal digits the first of which is not 0 |
| `EcdsaTamper.XorTwice` | erlang-nif_SSL/Enclave/tests/ecdsatest.c:457 | the exclusive or with the same number twice is the identity |
| `EcdsaTamper.XorChanges` | erlang-nif_SSL/Enclave/tests/ecdsatest.c:457 | the exclusive or changes a number exactly when the other operand is not zero |
| `EcdsaTamper.Bn2Bin` | erlang-nif_SSL/Enclave/tests/ecdsatest.c:452-453 | BN_bn2bin writes BN_num_bytes bytes that read back to the number |
| `EcdsaTamper.NumBytesFits` | erlang-nif_SSL/Enclave/tests/ecdsatest.c:442-448 | the length check passes exactly for the numbers below 256^n |
| `EcdsaTamper.StoresHold` | erlang-nif_SSL/Enclave/tests/ecdsatest.c:450-453 | numbers of any length stored right-aligned in the halves of a zeroed buffer are what the halves hold |
| `EcdsaTamper.StoreNumbers` | erlang-nif_SSL/Enclave/tests/ecdsatest.c:450-453 | the buffer written for r and s holds r and s |
| `EcdsaTamper.ReadNumbers` | erlang-nif_SSL/Enclave/tests/ecdsatest.c:462-464 | what BN_bin2bn reads from the halves is what they hold |
| `EcdsaTamper.FlipChangesOne` | erlang-nif_SSL/Enclave/tests/ecdsatest.c:455-457 | changing one byte anywhere changes exactly one of the two numbers |
| `EcdsaTamper.TamperAndUndo` | erlang-nif_SSL/Enclave/tests/ecdsatest.c:442-481 | on curves of degree 160 and more: refused exactly when a number does not fit or there is no memory; otherwise the byte that byte 10 of the buffer selects is changed by byte 11, or by 1, which stays in bounds and changes exactly one number, to the value stated; and the second flip restores both, also when it hits byte 10 or 11 |
| `EcdsaTamper.XorBitwise` | erlang-nif_SSL/Enclave/tests/ecdsatest.c:457 | the exclusive or, bit by bit |
| `EcdsaTamper.BufferBytes` | erlang-nif_SSL/Enclave/tests/ecdsatest.c:450-453 | the buffer is the two numbers, most significant byte first, padded with zeros in front |
| `ThreadsTest.MainPreserves` | erlang-nif_SSL/Enclave/tests/threadstest.c:85-102 | every step of the main thread keeps the handshake invariant |
| `ThreadsTest.ThreadPreserves` | erlang-nif_SSL/Enclave/tests/threadstest.c:78-83 | every step of a created thread keeps it, including the failing entry |
| `ThreadsTest.RunPreserves` | erlang-nif_SSL/Enclave/tests/threadstest.c:75-102 | the invariant holds after every interleaving |
| `ThreadsTest.CallbacksRunOnceInOrder` | erlang-nif_SSL/Enclave/tests/threadstest.c:85-102 | over every schedule: each callback returns once, in the order of the tests, and past wait_for_thread the own callback has returned and no later one has |
| `ThreadsTest.NoOverlap` | erlang-nif_SSL/Enclave/tests/threadstest.c:78-83 | two created threads are never inside new_thread_func together |
| `ThreadsTest.NoLateWrite` | erlang-nif_SSL/Enclave/tests/threadstest.c:78-83 | a thread changes shared state only while the main thread waits for it, so no late write clears a later test's busy_wait |
| `ThreadsTest.OnceCountIsOne` | erlang-nif_SSL/Enclave/tests/threadstest.c:123-157 | once_run_count is never above 1 and is 1 whenever test_once looks at it |
| `ThreadsTest.LocalCheckExactly` | erlang-nif_SSL/Enclave/tests/threadstest.c:222-226 | test_thread_local passes exactly when its own callback or that of an earlier test succeeded: the flag is never reset |
| `ThreadsTest.ChecksDecide` | erlang-nif_SSL/Enclave/tests/threadstest.c:151-226 | over every schedule a test is left behind only when its check passes, and a check fails only for a local test without a successful callback so far |
| `ThreadsTest.NotCreated` | erlang-nif_SSL/Enclave/tests/threadstest.c:85-102 | when the thread cannot be created the test fails at once: no callback is called and nothing changes any more |
| `ThreadsTest.StaleFlagPasses` | erlang-nif_SSL/Enclave/tests/threadstest.c:161-226 | a schedule of two runs of test_once and test_thread_local in which the second local callback fails and its check passes |
| `ThreadsTest.PassedStays` | erlang-nif_SSL/Enclave/tests/threadstest.c:97-102 | once past a wait, always past it |
| `ThreadsTest.Released` | erlang-nif_SSL/Enclave/tests/threadstest.c:97-102 | each step of the created thread brings the release nearer by one and nothing delays it: after its remaining steps the main thread is past the wait or finds busy_wait cleared |
| `ThreadsTest.LostMeansForever` | erlang-nif_SSL/App/App.c:221-232 | when the host thread could not enter the enclave, no schedule changes anything any more |
| `ThreadsTest.LostReached` | erlang-nif_SSL/Enclave/tests/threadstest.c:85-102 | a schedule in which this happens in the first test, and then nothing more does |
| `ThreadsTest.ReleasableExactly` | erlang-nif_SSL/Enclave/tests/threadstest.c:85-102 | the wait can end exactly when the created thread was not turned away |
| `ThreadsTest.ReachesCheck` | erlang-nif_SSL/Enclave/tests/threadstest.c:85-102 | every test can be brought from run_thread to its final check |
| `ThreadsProgress.FairPieceDown` | erlang-nif_SSL/Enclave/tests/threadstest.c:78-102 | whatever the order and number of steps, a piece of a schedule in which the main thread and every thread take a step brings the end of the tests nearer |
| `ThreadsProgress.FairRunEnds` | erlang-nif_SSL/Enclave/tests/threadstest.c:78-240 | every fair schedule whose threads enter ends the tests: all passed with all callbacks run; or one failed its check, which no callback supports; or a thread could not be created, which then happened in the schedule; the tests before passed |
| `ThreadsProgress.FairRunCompletes` | erlang-nif_SSL/Enclave/tests/threadstest.c:78-240 | when every thread can be created, a fair schedule ends with all tests passed and all callbacks run in order if and only if each local test has a successful callback at or before it; otherwise with the first that has none |
| `SwapEndian.LeastSignificantFirst` | attestation_abandoned/erlang-c-node-remote/service_provider/ias_ra.cpp:59-61 | words are kept least significant byte first |
| `SwapEndian.SwapDwReverses` | attestation_abandoned/erlang-c-node-remote/service_provider/ias_ra.cpp:51-54 | SWAP_ENDIAN_DW reverses the bytes of a word in memory |
| `SwapEndian.SwappedIsReversal` | attestation_abandoned/erlang-c-node-remote/service_provider/ias_ra.cpp:57-72 | exchanging and byte-swapping the words is exactly reversal of the byte string |
| `SwapEndian.SwappedTwice` | attestation_abandoned/erlang-c-node-remote/service_provider/ias_ra.cpp:57-72 | it is its own inverse |
| `SwapEndian.SwapConvertsEndianness` | attestation_abandoned/erlang-c-node-remote/service_provider/ias_ra.cpp:173-176 | the little-endian value before is the big-endian value afterwards |
| `SwapEndian.SwapEndian` | attestation_abandoned/erlang-c-node-remote/service_provider/ias_ra.cpp:57-72 | the exchange in place, for any even number of words, reverses the bytes in memory |
| `SwapEndian.WordsOfMemory` | attestation_abandoned/erlang-c-node-remote/service_provider/ias_ra.cpp:59-61 | reading bytes of memory as words and writing the words back gives the same bytes |
| `SwapEndian.SwapBytes` | attestation_abandoned/erlang-c-node-remote/service_provider/ias_ra.cpp:57-72 | SWAP_ENDIAN_32B through the cast to words reverses the 32 bytes |
| `Bytes.MemcpyS` | attestation_abandoned/erlang-c-node-remote/service_provider/ecp.cpp:43-53 | memcpy_s copies exactly the source bytes, or refuses and writes nothing when they do not fit |
| `Layout.RequestReads` | attestation_abandoned/erlang-c-node-remote/service_provider/network_ra.h:65-70 | type, size and body of a request are read back from their packed offsets |
| `Layout.ResponseReads` | attestation_abandoned/erlang-c-node-remote/service_provider/network_ra.h:72-78 | type, both status bytes, size and body of a response are read back from their packed offsets |
| `Layout.Msg2Reads` | attestation_abandoned/erlang-c-node-remote/service_provider/service_provider.h:98-111 | every field of message 2 is found at its packed offset, for every revocation list |
| `Layout.Msg3Reads` | attestation_abandoned/erlang-c-node-remote/service_provider/service_provider.h:113-120 | MAC, g_a, ps_sec_prop and quote of message 3 are found at their offsets, for every quote, and everything after the MAC is what it covers |
| `Layout.AttResultReads` | attestation_abandoned/erlang-c-node-remote/service_provider/remote_attestation_result.h:61-97 | blob, MAC, payload size and tag are found at their offsets, and the payload lies past the 145 bytes of the fixed part |
| `Layout.SigRlFitsExactly` | attestation_abandoned/erlang-c-node-remote/service_provider/service_provider.cpp:453-455 | the 32-bit message size holds message 2 exactly when 168 plus the list size does not wrap |
| `Kdf.HashInputInjective` | attestation_abandoned/erlang-c-node-remote/service_provider/ecp.cpp:104-136 | equal hash inputs come from equal secrets and key ids |
| `Kdf.TwoKeysExactly` | attestation_abandoned/erlang-c-node-remote/service_provider/ecp.cpp:146-148 | with an injective hash, two derivations give the same two keys exactly for the same secret and key id |
| `Kdf.KeysSpelledOut` | attestation_abandoned/erlang-c-node-remote/service_provider/ecp.cpp:82-256 | the four keys of either form as calls of the hash or CMAC on bytes written out: which half of which hash, which label under the CMAC of the shared secret |
| `Kdf.OneKeyExactly` | attestation_abandoned/erlang-c-node-remote/service_provider/ecp.cpp:181-246 | with a CMAC injective in its key, two secrets give the same key for an id exactly if their CMACs under the zero key agree |
| `Kdf.HashBuffer` | attestation_abandoned/erlang-c-node-remote/service_provider/ecp.cpp:104-113 | counter, byte-reversed secret and four zero bytes, in this order |
| `Kdf.SpDeriveTwo` | attestation_abandoned/erlang-c-node-remote/service_provider/ecp.cpp:93-155 | the provider's two-key derivation: both halves of the hash of counter, reversed secret, zeros, ID_U and ID_V with their terminators, or no key touched when a call fails |
| `Kdf.EnclaveDeriveTwo` | attestation_abandoned/erlang-c-node-remote/isv_enclave/isv_enclave.cpp:87-148 | the enclave's own copy meets the same specification, so equal secrets give equal keys |
| `Kdf.KeyDerivation` | attestation_abandoned/erlang-c-node-remote/isv_enclave/isv_enclave.cpp:159-195 | the status for every case: no secret, a wrong kdf id, a failing derivation, success; and the keys left, which are the provider's four on success and the first two of them when only the second derivation fails |
| `Kdf.DerivationBufferInjective` | attestation_abandoned/erlang-c-node-remote/service_provider/ecp.cpp:196-239 | the four labels give four different derivation buffers |
| `Kdf.SpDeriveOne` | attestation_abandoned/erlang-c-node-remote/service_provider/ecp.cpp:170-256 | the default derivation: the CMAC, under the CMAC of the secret, of the bytes written out for each id; false for an unknown key id and every failing call, what each failure leaves in the key, and no buffer left on any path |
| `Memory.Heap.Malloc` | attestation_abandoned/erlang-c-node-remote/service_provider/service_provider.cpp:454-461 | a new buffer joins the outstanding ones, or nothing happens |
| `Memory.Heap.Free` | attestation_abandoned/erlang-c-node-remote/service_provider/network_ra.cpp:133-139 | only an outstanding buffer is freed, and it is outstanding no more |
| `SpSpec.FindGroup` | attestation_abandoned/erlang-c-node-remote/service_provider/service_provider.cpp:210-232 | the group found is the first of the table with the id |
| `SpAnswers.Msg0Answer` | attestation_abandoned/erlang-c-node-remote/service_provider/service_provider.cpp:188-291 | return value, registration, SPID, group and key list flag after message 0, for every request, state and outcome of the calls |
| `SpAnswers.Msg1Answer` | attestation_abandoned/erlang-c-node-remote/service_provider/service_provider.cpp:294-562 | the return value of message 1 for every request, state and outcome of the calls, and what it leaves alone |
| `SpAnswers.Msg1Record` | attestation_abandoned/erlang-c-node-remote/service_provider/service_provider.cpp:338-451 | what an admitted message 1 leaves in each field of the record, whichever of its calls fail |
| `SpAnswers.Msg3Answer` | attestation_abandoned/erlang-c-node-remote/service_provider/service_provider.cpp:565-862 | the return value of message 3 for every request, state and outcome of the calls |
| `SpAnswers.ResultExactly` | attestation_abandoned/erlang-c-node-remote/service_provider/service_provider.cpp:579-862 | a result is handed out if and only if the provider is registered, message 3 and its quote fit the record, and every call works, that of the attestation server among them |
| `SpAnswers.SpidOfLastEnrolment` | attestation_abandoned/erlang-c-node-remote/service_provider/service_provider.cpp:204-234 | in every run from the start, while a group is in use, SPID and group are those of the last message 0 that got to the enrolment call |
| `SpAnswers.Msg2CarriesSpid` | attestation_abandoned/erlang-c-node-remote/service_provider/service_provider.cpp:472-475 | and every message 2 carries that SPID |
| `SpAnswers.RegisteredExactly` | attestation_abandoned/erlang-c-node-remote/service_provider/service_provider.cpp:204-234 | in every run from the start the provider is registered exactly after an enrolment call that succeeded |
| `ServiceProvider.ServiceProvider.ProcMsg0` | attestation_abandoned/erlang-c-node-remote/service_provider/service_provider.cpp:188-291 | leaves the state and gives the return value and response of DoMsg0; the only buffer outstanding more is the response of a successful call |
| `ServiceProvider.ServiceProvider.DeriveKeys` | attestation_abandoned/erlang-c-node-remote/service_provider/service_provider.cpp:392-451 | writes the keys derived before the first failure and no other, in the order of the source |
| `ServiceProvider.ServiceProvider.FillMsg2` | attestation_abandoned/erlang-c-node-remote/service_provider/service_provider.cpp:453-541 | stores at packed offsets into the allocated array, the list size last, produce message 2 byte for byte; no store leaves the buffer |
| `ServiceProvider.ServiceProvider.FillTail` | attestation_abandoned/erlang-c-node-remote/service_provider/service_provider.cpp:528-541 | MAC, list and the size in front of it land side by side |
| `ServiceProvider.ServiceProvider.ProcMsg1` | attestation_abandoned/erlang-c-node-remote/service_provider/service_provider.cpp:294-562 | leaves the state and gives the return value and response of DoMsg1 on every path; after a failure no buffer, those of derive_key included, and no ECC context is left |
| `ServiceProvider.ServiceProvider.FillResult` | attestation_abandoned/erlang-c-node-remote/service_provider/service_provider.cpp:733-849 | header with both status bytes, blob, MAC, payload size, tag and payload byte for byte; tag and payload stay zero unless both statuses are good |
| `ServiceProvider.ServiceProvider.FillSecret` | attestation_abandoned/erlang-c-node-remote/service_provider/service_provider.cpp:833-849 | the payload is written past the counted 145 bytes and ends with the allocation |
| `ServiceProvider.ServiceProvider.ProcMsg3` | attestation_abandoned/erlang-c-node-remote/service_provider/service_provider.cpp:565-863 | leaves the state and gives the return value and response of DoMsg3 on every path; after a failure no buffer is left |
| `SpRuns.Apply` | attestation_abandoned/erlang-c-node-remote/service_provider/service_provider.cpp:188-863 | every message keeps the group pointer in the table and the registered flag tied to it |
| `SpRuns.Registration` | attestation_abandoned/erlang-c-node-remote/service_provider/service_provider.cpp:188-316 | over every run: registered stays registered, with a group of the table; well-formed messages 1 are refused for registration, without any effect, exactly while unregistered, and messages 3 are then refused without any effect |
| `SpRuns.OkMsg0Registers` | attestation_abandoned/erlang-c-node-remote/service_provider/service_provider.cpp:204-276 | a successful message 0 leaves the provider registered exactly if it was before or the group is in the table: an unsupported group is answered with SP_OK too |
| `SpLimits.UnsupportedAnswered` | attestation_abandoned/erlang-c-node-remote/service_provider/service_provider.cpp:204-276 | from the start, an unsupported group is answered with SP_OK and leaves the provider unregistered |
| `SpRuns.EcdsaFlag` | attestation_abandoned/erlang-c-node-remote/service_provider/service_provider.cpp:237-268 | the flag is set exactly while no message 0 has succeeded |
| `SpRuns.KeyListsInOrder` | attestation_abandoned/erlang-c-node-remote/service_provider/service_provider.cpp:236-276 | of the successful answers to message 0 exactly the first carries the ECDSA key ids, all later ones the EPID key ids, with the right type, statuses and size |
| `SpRuns.GroupEnrolledExactly` | attestation_abandoned/erlang-c-node-remote/service_provider/service_provider.cpp:204-234 | in every run the group in use of a registered provider was enrolled, if and only if the table holds a single group id (as the source's does) |
| `SpRuns.SwitchFails` | attestation_abandoned/erlang-c-node-remote/service_provider/service_provider.cpp:214-228 | a run in which a failing enrolment for a second group leaves the provider registered with a group never enrolled |
| `SpRuns.SessionCoherent` | attestation_abandoned/erlang-c-node-remote/service_provider/service_provider.cpp:338-451 | from a message 1 whose key pair, shared secret and derivations succeed until another one gets to the record, g_a, b, g_b and all four keys are those of that message and its key pair, whatever arrives in between |
| `SpRuns.OkMsg1Establishes` | attestation_abandoned/erlang-c-node-remote/service_provider/service_provider.cpp:338-561 | a message 1 that returned SP_OK is one of these |
| `SpRuns.RecordKept` | attestation_abandoned/erlang-c-node-remote/service_provider/service_provider.cpp:591-634 | while no message 1 gets to it, nothing of the record but ps_sec_prop changes |
| `SpRuns.SessionKept` | attestation_abandoned/erlang-c-node-remote/service_provider/service_provider.cpp:591-634 | no message 0, message 3 or early-refused message 1 changes the session |
| `SpRuns.PropertyStored` | attestation_abandoned/erlang-c-node-remote/service_provider/service_provider.cpp:628-634 | the stored ps_sec_prop changes only to that of a message 3 with the stored g_a and a MAC under the stored smk |
| `SpRuns.SessionExactly` | attestation_abandoned/erlang-c-node-remote/service_provider/service_provider.cpp:338-451 | an admitted message 1 leaves its own session behind whatever was there before, if and only if key pair, shared secret and all derivations succeed |
| `SpRuns.OpenFailureExactly` | attestation_abandoned/erlang-c-node-remote/service_provider/service_provider.cpp:338-355 | when the ECC context cannot be opened only g_a changes; the record stays coherent exactly if the new g_a gives the same keys |
| `SpRuns.Msg2Content` | attestation_abandoned/erlang-c-node-remote/service_provider/service_provider.cpp:453-541 | message 2, read at its offsets, holds g_b, the SPID, the signature on g_b, g_a and a MAC under the new smk of everything before it, kdf id included |
| `SpRuns.ResultIsJustified` | attestation_abandoned/erlang-c-node-remote/service_provider/service_provider.cpp:593-849 | every result handed out answers a message with the stored g_a, its MAC under smk, and a quote whose report data is SHA-256(g_a,g_b,vk) and 32 zero bytes, after the attestation server consented; every field of the result at its offset; the secret is encrypted only when both statuses are good, zeros go out otherwise |
| `SpRuns.ResultBelongsToSession` | attestation_abandoned/erlang-c-node-remote/service_provider/service_provider.cpp:338-849 | over every run, when the last message 1 to get to the record completed it: a result handed out is about its session, with its g_a, its key pair and the keys of their shared secret |
| `SpLimits.ResultOwnedExactly` | attestation_abandoned/erlang-c-node-remote/service_provider/service_provider.cpp:338-849 | over every run from the start: a result is owed to the session of one message 1, whatever the record held before, if and only if there is a last message 1 that got to the record and it completed it; without one the result is about the zeros the record starts with |
| `SpLimits.RecordExactly` | attestation_abandoned/erlang-c-node-remote/service_provider/service_provider.cpp:338-451 | the same on the record: if its vk was not already the one message 1 would derive, the later record is a session of that message's g_a, with any private key, if and only if the message completed it |
| `SpLimits.AfterMsg1Exactly` | attestation_abandoned/erlang-c-node-remote/service_provider/service_provider.cpp:586-600 | every result in every run from the start comes after a message 1 that got to the record, if and only if no group is supported |
| `SpLimits.ResultBeforeMsg1` | attestation_abandoned/erlang-c-node-remote/service_provider/service_provider.cpp:586-600 | a run in which a result is handed out without any message 1, for a message 3 that fits the initial record |
| `SpLimits.MixedRun` | attestation_abandoned/erlang-c-node-remote/service_provider/service_provider.cpp:338-355 | a run from the start in which a message 1 fails after a good one and a message 3 is still answered: the record is a session of the new g_a exactly if both client keys give the same four keys |
| `Enclave.Enclave.VerifyAttResultMac` | attestation_abandoned/erlang-c-node-remote/isv_enclave/isv_enclave.cpp:260-306 | the status for every case: a wrong size, no key, a failing CMAC, a mismatch, success |
| `Enclave.Enclave.PutSecretData` | attestation_abandoned/erlang-c-node-remote/isv_enclave/isv_enclave.cpp:326-381 | the status for every case, success exactly when the size is 8, key and decryption succeed and g_secret[i] = i for every i; what g_secret holds afterwards in every case |
| `IasRa.VerifyAttestationEvidence` | attestation_abandoned/erlang-c-node-remote/service_provider/ias_ra.cpp:106-187 | 0 exactly if the context opens and signing works; the report is good, its blob zeros followed by the signature of them, each half turned from the little-endian to the big-endian bytes of the same number; the ECC context is closed on every path |
| `Network.Dispatch` | attestation_abandoned/erlang-c-node-remote/service_provider/network_ra.cpp:66-122 | which message a request stands for, on its bytes |
| `Network.SendReceive` | attestation_abandoned/erlang-c-node-remote/service_provider/network_ra.cpp:52-125 | -1 and no effect for a missing argument or an unknown type, otherwise what the provider does with the body; *p_resp changes only when 0 is returned and then holds the one new outstanding buffer |
| `Network.FreeResponse` | attestation_abandoned/erlang-c-node-remote/service_provider/network_ra.cpp:133-139 | frees the buffer if there is one |
| `Completeness.SameKeys` | attestation_abandoned/erlang-c-node-remote/service_provider/service_provider.cpp:338-541 | after message 2 client and provider hold the same keys, and the kdf id is the provider's |
| `Completeness.Msg3Accepted` | attestation_abandoned/erlang-c-node-remote/service_provider/service_provider.cpp:591-701 | the honest message 3 passes every check in its session |
| `Completeness.HonestClientGetsSecret` | attestation_abandoned/erlang-c-node-remote/service_provider/service_provider.cpp:188-863 | for every key pair, quote environment and other traffic around them, messages 0, 1 and 3 of an honest client succeed, both statuses are 0, the MAC verifies under the client's mk and the payload opens under its sk to the secret |
| `Completeness.EnclaveStoresSecret` | attestation_abandoned/erlang-c-node-remote/isv_enclave/isv_enclave.cpp:159-381 | in such a run key_derivation, verify_att_result_mac and put_secret_data succeed in the enclave and g_secret is 0..7 |
| `ClientSpec.CounterBoundsExactly` | attestation_abandoned/erlang-c-node-remote/isv_app/isv_app.cpp:317-345 | a counter bounds the tries if and only if it is not negative, and a loop that gives up makes it negative |
| `ClientRuns.LostCounterExactly` | attestation_abandoned/erlang-c-node-remote/isv_app/isv_app.cpp:296-317 | after a round the creation loop still has a bound on its tries if and only if it had one before and did not give up; giving up leaves -1 |
| `ClientRuns.BusyCounterExactly` | attestation_abandoned/erlang-c-node-remote/isv_app/isv_app.cpp:339-523 | the same for the counter that the loop for message 1 takes over from the round before and the loop for message 2 sets |
| `ClientRuns.LostTwice` | attestation_abandoned/erlang-c-node-remote/isv_app/isv_app.cpp:182-317 | a first round of main after which the second has no bound on its tries |
| `ClientRuns.ZeroWithoutSecretExactly` | attestation_abandoned/erlang-c-node-remote/isv_app/isv_app.cpp:223-739 | a round returns 0 without having stored the secret if and only if the group id was there, the context closes and message 3 was answered, but (outside verification mode) the MAC verifies while the report was bad or put_secret_data itself failed |
| `ClientRuns.ZeroExactly` | attestation_abandoned/erlang-c-node-remote/isv_app/isv_app.cpp:223-739 | when a round returns 0, and when it has stored the secret, each if and only if, in terms of the results of its calls |
| `ClientRuns.ZeroWithoutSecret` | attestation_abandoned/erlang-c-node-remote/isv_app/isv_app.cpp:656-697 | two such rounds: a report that is not good, and a failing decryption call |
| `ClientRuns.MainZeroExactly` | attestation_abandoned/erlang-c-node-remote/isv_app/isv_app.cpp:222-742 | main returns the value of its second round alone: exactly when it returns 0 although the first round failed, and although no round stored the secret |
| `ClientRuns.FirstRoundHidden` | attestation_abandoned/erlang-c-node-remote/isv_app/isv_app.cpp:222-742 | a first round that returns -1 and a second one after which main returns 0 |
| `ClientRuns.FittingRoundReturnsZero` | attestation_abandoned/erlang-c-node-remote/isv_app/isv_app.cpp:656-697 | rounds in which nothing fails before the decision all return 0, whether the secret is stored or not |
| `IsvApp.Retry` | attestation_abandoned/erlang-c-node-remote/isv_app/isv_app.cpp:339-345 | the number of tries, the counter left and whether the call is still busy, for every start value |
| `IsvApp.OwnsMore` | attestation_abandoned/erlang-c-node-remote/isv_app/isv_app.cpp:247-253 | a new buffer in a NULL pointer keeps the pointers distinct and equal to what is outstanding |
| `IsvApp.OwnsLess` | attestation_abandoned/erlang-c-node-remote/isv_app/isv_app.cpp:727-738 | so does freeing a buffer and setting its pointer to NULL |
| `IsvApp.IsvApp.Exchange` | attestation_abandoned/erlang-c-node-remote/isv_app/isv_app.cpp:384-386 | the request written and sent is the one the provider handles: its new state, return value and response are those of that message |
| `IsvApp.IsvApp.RoundMsg0` | attestation_abandoned/erlang-c-node-remote/isv_app/isv_app.cpp:234-289 | message 0 up to the selection of the key id leaves provider, counters and exit as StageMsg0 says |
| `IsvApp.IsvApp.CreateEnclave` | attestation_abandoned/erlang-c-node-remote/isv_app/isv_app.cpp:296-326 | the creation loop, its retry counter and its exits are those of StageCreate |
| `IsvApp.IsvApp.RoundMsg1` | attestation_abandoned/erlang-c-node-remote/isv_app/isv_app.cpp:328-443 | message 1 with its busy loop or the precomputed message, and the answer, as StageMsg1 says |
| `IsvApp.IsvApp.CheckMsg2` | attestation_abandoned/erlang-c-node-remote/isv_app/isv_app.cpp:388-443 | a failure or a wrong type leaves the round, except in verification mode, where a precomputed message 2 replaces a failure and a wrong type is ignored |
| `IsvApp.IsvApp.RoundMsg2` | attestation_abandoned/erlang-c-node-remote/isv_app/isv_app.cpp:490-543 | message 3 is the sample's or the library's, byte for byte; the retry counter is set afresh only in the latter case |
| `IsvApp.IsvApp.ReceiveResult` | attestation_abandoned/erlang-c-node-remote/isv_app/isv_app.cpp:547-594 | past this point there is the whole result the provider sent for this message 3, of type ATT_RESULT; otherwise the round aborts as StageMsg3 says |
| `IsvApp.IsvApp.CheckResult` | attestation_abandoned/erlang-c-node-remote/isv_app/isv_app.cpp:633-697 | the exit for every combination of MAC check, status bytes and put_secret_data, which is called exactly for the exits behind the gate |
| `IsvApp.IsvApp.Cleanup` | attestation_abandoned/erlang-c-node-remote/isv_app/isv_app.cpp:702-738 | every pointer is NULL and nothing the round allocated is outstanding; ret is kept unless the context cannot be closed |
| `IsvApp.IsvApp.Round` | attestation_abandoned/erlang-c-node-remote/isv_app/isv_app.cpp:223-739 | on every path of a round all buffers are freed exactly once and all seven pointers are NULL; provider, counters and exit are those of RoundOutcome; put_secret_data is called at most once and exactly for the exits behind the gate; the exact value of ret |
| `IsvApp.Run` | attestation_abandoned/erlang-c-node-remote/isv_app/isv_app.cpp:172-743 | main: provider, return value and number of put_secret_data calls are those of both rounds one after the other, the second with the counters of the first; buffers and ECC contexts are conserved, put_secret_data is called only outside verification mode and through the gate, wrong arguments change nothing |
| `ClientAnswers.RoundReturns` | attestation_abandoned/erlang-c-node-remote/isv_app/isv_app.cpp:223-739 | the value of ret after a round for every outcome of its calls: the provider's code when it refuses message 0 or, outside verification mode, message 1; the code of the put_secret_data call; -1 for every other failure and for a context that does not close; else 0 |
| `ClientAnswers.RefusedMsg1` | attestation_abandoned/erlang-c-node-remote/isv_app/isv_app.cpp:384-421 | outside verification mode a refused message 1 makes the round return the provider's code |
| `ClientAnswers.RefusedMsg0` | attestation_abandoned/erlang-c-node-remote/isv_app/isv_app.cpp:269-277 | so does a refused message 0 |
| `ClientAnswers.UnsupportedGroupReturns` | attestation_abandoned/erlang-c-node-remote/isv_app/isv_app.cpp:172-743 | on a platform whose group the provider does not support main returns 1 |
| `ClientAnswers.GoesOn0` | attestation_abandoned/erlang-c-node-remote/isv_app/isv_app.cpp:246-289 | when message 0 is sent and when the round goes on after it |
| `ClientAnswers.GoesOnCreate` | attestation_abandoned/erlang-c-node-remote/isv_app/isv_app.cpp:296-326 | when the enclave and its key context come up |
| `ClientAnswers.GoesOn1` | attestation_abandoned/erlang-c-node-remote/isv_app/isv_app.cpp:328-443 | when message 1 is sent, which one, and when the round goes on after it |
| `ClientAnswers.GoesOn2` | attestation_abandoned/erlang-c-node-remote/isv_app/isv_app.cpp:490-543 | when there is a message 3 |
| `ClientAnswers.ProviderAfter` | attestation_abandoned/erlang-c-node-remote/isv_app/isv_app.cpp:223-594 | the provider after a round has handled messages 0, 1 and 3, each if it was sent, the precomputed ones in verification mode |
| `ClientAnswers.PutsExactly` | attestation_abandoned/erlang-c-node-remote/isv_app/isv_app.cpp:633-688 | put_secret_data is called exactly outside verification mode for a good result whose MAC verifies |
| `ClientRuns.StoredOnlyAttested` | attestation_abandoned/erlang-c-node-remote/isv_app/isv_app.cpp:223-700 | for every outcome of every call on both sides: a round that stored the secret was outside verification mode, the provider's session is that of the round's message 1, its message 3 carries that session's g_a, MAC and quote binding, and both statuses of the report are good |
| `ClientRuns.HonestRoundStores` | attestation_abandoned/erlang-c-node-remote/isv_app/isv_app.cpp:223-700 | from any state of provider and counters: when no call fails and the client's library is honest, the round ends with the secret stored |

## Left out

- Null arguments of the three message handlers and of the attestation server: no caller in the repository passes them.
- Failure branches of memcpy_s whose sizes are equal by type: they cannot be taken.
- verify_cmac128: nothing calls it.
- Key constants, the signing key and the contents of the two key id lists: parameters of the model.
- Bodies of the sgx_ and sample_ libraries, the AES-GCM initialisation vector, and whether any of the cryptography is secure.
- The enclave's default-form derivation: it is inside the SGX library; the two sides' agreement in that form is stated for the provider's formula.
- SHA handles, RA context and enclave handle lifetime across rounds, and what enclave_init_ra leaves in its context when it fails.
- Printing, sleeping, reading a character, and the comparison of responses with samples, which only prints.
- The seven pointers of main are entries of a map by name instead of seven variables; a NULL pointer is a missing entry.
- SWAP_ENDIAN_32B writes its four exchanges out; the model is the loop over them, for any even number of words.
- ias_enroll and ias_get_sigrl: constant answers; the outcome of the enrolment and the revocation list are parameters of the provider.
- The remaining fields of the attestation report: constants that the provider only prints.
- A library that answers busy forever: a call answers busy a finite number of times, any number.
- Overflow of the retry counters below the smallest int.
- IsvApp.Run: is named so because a Dafny main method is a program entry; the conversion of the argument by atoi is a parameter.
- The handshake of threadstest.c is a step relation on a state value instead of methods on shared variables, so that two threads can interleave.
- test_lock and the library calls of test_thread_local other than through their success: straight calls into the library.
- ThreadsTest.OnceCountIsOne: CRYPTO_THREAD_run_once is taken to succeed, in the callback and in test_once; a failure of the library is not modelled.
- A thread created by an ocall that then reports an error: the model has no thread when run_thread fails.
- Compiler and processor memory ordering in the handshake: steps are sequentially consistent.
- bn_expand, and the functions only declared in bn_lcl.h and bn_int.h (Karatsuba, Montgomery, wNAF): no code here decides their behaviour.
- The NIF and C-node glue, QuoteVerificationServer and the remaining OpenSSL test drivers: thin or finite.
