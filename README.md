# SM4 and SM2 of the Penglai enclave cryptography library

This project is a Dafny model of two parts of the `lib/gm` library.

- **SM4** is the block cipher of GB/T 32907-2016. The model covers:
  - the 32-bit rotation macro `SM4_Rotl32`;
  - the key schedule `SM4_KeySchedule`;
  - single-block `SM4_Encrypt` and `SM4_Decrypt` over 16-byte caller buffers;
  - the result convention of `SM4_SelfCheck`.
- **SM2** digital signatures follow GB/T 32918.2-2016. The model covers:
  - the status codes `ERR_*`;
  - the range tests `Test_Zero`, `Test_n` and `Test_Range`;
  - the key-range contracts of `SM2_make_pubkey`, `SM2_KeyGeneration` and `SM2_gen_random`;
  - the order of the checks in `SM2_Sign`, `SM2_Verify` and `SM2_SelfCheck`, and the code each check returns.

The model is written against the library's headers: it follows the contracts their comments state and the standards they implement. The function bodies are not modelled.

## Files

| File | What it holds |
|---|---|
| `word32.dfy` | 32-bit words, the rotation, and big-endian byte/word packing |
| `feistel.dfy` | the unbalanced Feistel structure SM4 uses for its rounds and its key expansion, with its round trip proved for every round function |
| `sm4.dfy` | S-box, transforms, FK/CK, the key schedule and cipher functions, and methods over arrays proved against them |
| `bignum.dfy` | 32-byte big-endian encoding of big numbers (`SM2_NUMWORD`) |
| `modarith.dfy` | congruences, gcd, and the modular inverse by extended Euclid |
| `sm2.dfy` | status codes, range tests, key checks, signing, verification and self-check functions, and methods over buffers proved against them |

Outside libraries appear in the SM2 model as fields of a `Curve` value:
- MIRACL point arithmetic;
- SM3;
- the ZA digest.

The group laws that signing relies on are the predicate `Lawful`. Only the round-trip lemmas assume it. The random draws (the private key d and the ephemeral key k) are method parameters restricted to the ranges the header documents.

## Model

| member | source | states |
|---|---|---|
| Word32.Rotl | lib/gm/include/SM4.h:17-18 | the macro SM4_Rotl32: (x << n) OR (x >> (32 - n)) on a 32-bit word, defined only for 0 < n < 32, where both shifts are defined; what it computes is stated by the three lemmas below |
| Word32.RotlBit | lib/gm/include/SM4.h:17-18 | for 0 < n < 32, bit i of the rotation of x is bit (i - n) mod 32 of x |
| Word32.RotlInverse | lib/gm/include/SM4.h:18 | rotating by n and then by 32 - n gives the word back, so rotation is a bijection |
| Word32.RotlXor | lib/gm/include/SM4.h:18 | rotation distributes over exclusive or |
| Word32.WordsOfBytes | lib/gm/include/SM4.h:32-56 | reading back four words written big-endian gives the same words |
| Word32.BytesOfWords | lib/gm/include/SM4.h:32-56 | writing out the four words read from a block gives the block back |
| Feistel.RoundUndo | lib/gm/include/SM4.h:45-56 | one round is undone by the round on its output and the reversed middle words under the same key, for any round function |
| Feistel.RoundTrip | lib/gm/include/SM4.h:32-56 | running the structure on its own output with reversed round keys gives the input back, for any round function and any number of rounds |
| Feistel.ChainWords | lib/gm/include/SM4.h:20-30 | every word after the first four satisfies the round equation X[i+4] = X[i] ^ F(X[i+1] ^ X[i+2] ^ X[i+3] ^ rk[i]) |
| SM4.RoundKeys | lib/gm/include/SM4.h:20-30 | the 32 round keys: the words after the first four of the Feistel run under T' and CK started from FK ^ MK; they depend on MK alone |
| SM4.KeyExpansion | lib/gm/include/SM4.h:20-30 | the words FK ^ MK followed by the round keys satisfy K[i+4] = K[i] ^ T'(K[i+1] ^ K[i+2] ^ K[i+3] ^ CK[i]), as section 7.3 of GB/T 32907-2016 defines |
| SM4.ExpandKey | lib/gm/include/SM4.h:20-30 | the key-expansion loop produces exactly the 32 words of the Feistel run under T' and CK |
| SM4.KeySchedule | lib/gm/include/SM4.h:20-30 | rk receives RoundKeys of MK, a function of MK alone; only rk is written |
| SM4.KeyWord | lib/gm/include/SM4.h:20-30 | one key-expansion step computes the Feistel round under T' |
| SM4.CipherWord | lib/gm/include/SM4.h:32-56 | one cipher step computes the Feistel round under T |
| SM4.EncryptBlock | lib/gm/include/SM4.h:32-43 | the ciphertext of a block: its four big-endian words through the 32 rounds under T and RoundKeys(MK), reversed, as 16 bytes |
| SM4.DecryptBlock | lib/gm/include/SM4.h:45-56 | the plaintext of a block: the same structure with RoundKeys(MK) in reverse order |
| SM4.EncryptRounds | lib/gm/include/SM4.h:32-43 | the 32 rounds under rk[0..31] followed by the reverse transform R |
| SM4.DecryptRounds | lib/gm/include/SM4.h:45-56 | the same rounds under rk[31], ..., rk[0] |
| SM4.LoadWords | lib/gm/include/SM4.h:32-56 | the 16 input bytes read as four big-endian words |
| SM4.StoreBytes | lib/gm/include/SM4.h:32-56 | the whole output block holds the four words, most significant byte first |
| SM4.Encrypt | lib/gm/include/SM4.h:32-43 | CipherText receives EncryptBlock of the old MK and PlainText, with round keys from the key schedule of MK; only CipherText is written |
| SM4.Decrypt | lib/gm/include/SM4.h:45-56 | PlainText receives DecryptBlock of the old MK and CipherText, with the same key schedule in reverse; only PlainText is written |
| SM4.DecryptEncrypt | lib/gm/include/SM4.h:32-56 | decrypting under MK what was encrypted under MK gives the plaintext back, for every key and block |
| SM4.EncryptDecrypt | lib/gm/include/SM4.h:32-56 | encrypting what was decrypted gives the ciphertext back, so under a fixed key the cipher is a permutation of blocks |
| SM4.SelfCheck | lib/gm/include/SM4.h:58-68 | returns 0 or 1, and 0 exactly when encrypting and decrypting the example of appendix A.1 of GB/T 32907-2016 both match |
| SM4.CheckExample | lib/gm/include/SM4.h:58-68 | 0 exactly when both directions of a given example match, 1 otherwise |
| SM4.Compare | lib/gm/include/SM4.h:58-68 | 0 exactly when both pairs of buffers are equal, 1 otherwise |
| BigNum.DecodeEncode | lib/gm/include/SM2_sv.h:31-33 | a number below 256^32 reads back from its SM2_NUMWORD-byte encoding |
| BigNum.EncodeDecode | lib/gm/include/SM2_sv.h:31-33 | every byte string is the encoding of the number it stands for |
| ModArith.InverseCorrect | lib/gm/include/SM2_sv.h:80-96 | when a and n are coprime, Inverse(a, n) is the inverse of a modulo n |
| ModArith.PrimeCoprime | lib/gm/include/SM2_sv.h:80-96 | for prime n, every a in (0, n) is coprime to n, so 1 + d has an inverse for d in [1, n-2] |
| ModArith.Bezout | lib/gm/include/SM2_sv.h:80-96 | the coefficients x and y satisfy a * x + b * y == Gcd(a, b) |
| SM2.Code | lib/gm/include/SM2_sv.h:35-46 | every status is returned as an integer from 0 to 0xC, and 0 means success and nothing else |
| SM2.CodesDistinct | lib/gm/include/SM2_sv.h:35-46 | two statuses share a code exactly when they are the same status |
| SM2.CodeFromCode | lib/gm/include/SM2_sv.h:35-46 | each code reads back as its own status |
| SM2.TestZero | lib/gm/include/SM2_sv.h:12 | Test_Zero: holds exactly when x = 0 |
| SM2.TestN | lib/gm/include/SM2_sv.h:13 | Test_n: holds exactly when x = n |
| SM2.TestRange | lib/gm/include/SM2_sv.h:14 | Test_Range: holds exactly when 1 <= x <= n - 1 |
| SM2.TestsAgree | lib/gm/include/SM2_sv.h:12-14 | a number in [1, n-1] passes neither Test_Zero nor Test_n; a residue modulo n is in [1, n-1] exactly when it is not zero |
| SM2.InitStatus | lib/gm/include/SM2_sv.h:89-91 | curve setup returns only 0, 1 or 4: 1 (ERR_ECURVE_INIT) exactly when G is not on the curve, 4 (ERR_ORDER) exactly when G is on it but [n]G is not infinity, and 0 otherwise |
| SM2.PubKeyStatus | lib/gm/include/SM2_sv.h:55-59 | the public-key check returns only 0, 2, 5, 3 or 4, each exactly under its cause, tested in that order: 2 for the point at infinity, 5 for a coordinate outside [0, p), 3 for a point not on the curve, 4 for a point not of order n, and 0 when none applies |
| SM2.MakePubkey | lib/gm/include/SM2_sv.h:48-62 | Px and Py receive the coordinates of [PriKey]G and the status is that key's check |
| SM2.KeyGeneration | lib/gm/include/SM2_sv.h:64-78 | PriKey holds a key in [1, n-2] and the public key is [PriKey]G, with its check as the status |
| SM2.SignR | lib/gm/include/SM2_sv.h:80-96 | r = (e + x1) mod n lies in [0, n) |
| SM2.SignS | lib/gm/include/SM2_sv.h:80-96 | s = ((1 + d)^-1 (k - r d)) mod n lies in [0, n) |
| SM2.SignSpec | lib/gm/include/SM2_sv.h:80-96 | what SM2_Sign returns: the setup code if setup fails, else 6 if r = 0 or r + k = n, else 7 if s = 0, else success with (r, s); its properties are SignCodes |
| SM2.SignCodes | lib/gm/include/SM2_sv.h:89-93 | signing returns only 0, 1, 4, 6 or 7; 1 or 4 exactly when curve setup fails, and then setup's own code; 6 exactly when r = 0 or r + k = n; 7 exactly when r passes and s = 0; 0 exactly when every check passes, and then r and s are in [1, n-1] with r + k != n |
| SM2.Sign | lib/gm/include/SM2_sv.h:80-96 | the status is the code of the signature; R and S receive r and s on success and are left unchanged otherwise |
| SM2.VerifySpec | lib/gm/include/SM2_sv.h:98-118 | what SM2_Verify returns: the first failing check among setup, the public key (B), R (8), S (9), t (A) and the recomputed R (C), else 0; its properties are VerifyChecks and VerifyAccepts |
| SM2.VerifyChecks | lib/gm/include/SM2_sv.h:98-118 | verification returns only 0, 1, 4, B, 8, 9, A or C. 1 or 4 is returned exactly when curve setup fails, and is its code. Each of B, 8, 9, A and C is returned exactly when its check is the first to fail: the public key, R, S, t = (r + s) mod n, and the recomputed R. Acceptance requires every check of section 7.1 |
| SM2.VerifyAccepts | lib/gm/include/SM2_sv.h:98-118 | a signature that passes every check is accepted |
| SM2.Verify | lib/gm/include/SM2_sv.h:98-118 | the status is the code of the checks applied to the decoded public key, R and S, in the order of the header |
| SM2.SignatureIdentity | lib/gm/include/SM2_sv.h:96 | with s as signing computes it and t = (r + s) mod n, s + t d is k modulo n |
| SM2.SignScalars | lib/gm/include/SM2_sv.h:96 | for prime n, d in [1, n-2], k and r in [1, n-1] and r + k != n: t is not 0 and s + t d is k |
| SM2.VerifyPoint | lib/gm/include/SM2_sv.h:118 | under the group laws, [s]G + [t]([d]G) is [k]G once s + t d is k modulo n |
| SM2.SignaturePoint | lib/gm/include/SM2_sv.h:96-118 | once the scalars satisfy that identity, verification recomputes r and accepts |
| SM2.SignThenVerify | lib/gm/include/SM2_sv.h:96-118 | a successful signature under a key pair whose public key passed its checks verifies with code 0 |
| SM2.SelfCheckSpec | lib/gm/include/SM2_sv.h:120-140 | what SM2_SelfCheck returns: the first failure of curve setup, key generation, signing and verification; its properties are SelfCheckVerifies and SelfCheckOutcome |
| SM2.SelfCheckVerifies | lib/gm/include/SM2_sv.h:120-140 | once key generation and signing succeed, the self-check returns what verification returns |
| SM2.SelfCheckOutcome | lib/gm/include/SM2_sv.h:120-140 | under the group laws and prime n, the self-check succeeds exactly when key generation and signing do and never fails in verification; the first failing step among curve setup, key generation and signing determines the result, which is that step's own code, so 6 or 7 only follow a successful setup and key generation |
| SM2.SelfCheck | lib/gm/include/SM2_sv.h:120-140 | the returned status is the first failure of curve setup, key generation, signing "message digest" and verifying that signature |
| SM2.SignAndVerify | lib/gm/include/SM2_sv.h:120-140 | after a key pair whose public key passed its checks, signing and then verifying returns the code of the self-check |

## Left out

- The function bodies of the library are not shown. MIRACL's point operations and curve equation, SM3 in SM3.c, and `SM2_compute_ZA` are uninterpreted fields of `Curve`. The group laws are the assumption `Lawful`, and the order n is assumed prime; neither is proved.
- MIRACL's big numbers are Dafny's unbounded integers, and its modular inverse is replaced by this model's own `ModArith.Inverse` (extended Euclid, proved correct). How the library computes the inverse is not part of this model.
- SM2.SelfCheck: the header's return list for `SM2_SelfCheck` (lib/gm/include/SM2_sv.h:127-137) has no 6 or 7, but the model passes signing's codes 6 and 7 through. With a given ephemeral k, signing can fail with them, and the header does not say whether the self-check draws again or how it reports that. The model does set up the curve first, as the call list (lib/gm/include/SM2_sv.h:123) names `SM2_Init()` first, so a failed setup returns 1 or 4.
- SM2.Sign: the header does not say what R and S hold after a failed signing; leaving them unchanged is this model's choice.
- SM2.Sign, SM2.MakePubkey and SM2.KeyGeneration require their output buffers to be distinct arrays (R and S; Px and Py; PriKey, Px and Py). The C signatures accept aliased buffers; what the library writes in that case is not modelled.
- `MIRACL_Init` is not modelled: the header lists no codes for it. `SM2.InitStatus` models `SM2_Init`, the setup that `SM2_Sign` and `SM2_Verify` call, with its codes 1 and 4 (lib/gm/include/SM2_sv.h:90-91, 109-110).
- SM2.InitStatus: code 1 ("parameter initialization error") is read as the base point G not satisfying the curve equation. The header does not say which test produces it.
- `Random.h` is not part of this model. The draws of `SM2_make_prikey` and `SM2_gen_random` are parameters in the documented ranges [1, n-2] and [1, n-1].
- `musl/src/errno/__errno_location.c` is not part of this model: it only returns the address of a global.
- SM2.Sign returns code 6 or 7 instead of drawing a new k. This follows the header (lib/gm/include/SM2_sv.h:92-93). Section 6.1 of GB/T 32918.2-2016 instead returns to the draw of k.
- SM2.Verify models code B (public key error) as the given coordinates not satisfying the curve equation. The header does not say which test produces it.
- SM2.Digest hashes ZA of the signer's public key [d]G in signing, and ZA of (Px, Py) in verification. How the library obtains ZA when it signs is not modelled.
- SM2.X: the point at infinity reads out as the coordinates (0, 0).
- SM2.KeyGeneration: the header lists no code 1 for it, so curve setup is not part of its status.
- SM2.SignThenVerify: it is stated for a signature that verifies under the key it was made with. That a corrupted key or message is rejected is not stated: it depends on properties of SM3 and the curve that the model does not have.
- SM4.SelfCheck is proved to return 0 exactly when the example of appendix A.1 matches. That the example does match (ciphertext 681edf34d206965e86b3e94f536e4246) is not proved, since that would mean evaluating the whole cipher inside the verifier.
- SM4.L: linearity of L and L' over exclusive or (rotations of a ^ b) is stated only for single rotations, in Word32.RotlXor. The five-term identity is beyond what the solver proves in bounded time.
- SM4.Encrypt and SM4.Decrypt: the model reads the input block first and then computes the round keys. The order in the library's function body is not modelled; both steps only read their inputs, so the order does not affect the output.
- SM4 models bytes as `bv8`. SM2 models buffer bytes as numbers 0 to 255, which keeps the big-number encoding in integer arithmetic.
- Constant-time behaviour, side channels, and the million-iteration SM4 test are not modelled: timing cannot be expressed here, and a repeated run is a test.
- The SM3 self-test (lib/gm/include/SM2_sv.h:142-153) belongs to SM3, which is not part of this model.
