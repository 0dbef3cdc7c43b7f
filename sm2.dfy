/** SM2 digital signatures (GB/T 32918.2-2016): the status codes, the range
    tests, key generation, signing (section 6.1), verification (section 7.1)
    and the self-check, over 32-byte big-endian caller buffers.

    The curve arithmetic, the SM3 hash and the ZA digest belong to libraries
    outside this model, so a Curve value carries them as functions; the
    group laws the signature scheme relies on are the predicate Lawful,
    assumed only by the lemmas that need them. */
module SM2 {
  import opened BigNum
  import opened ModArith

  datatype Option<T> = None | Some(value: T)

  // ---------------------------------------------------------------------
  // Status codes
  // ---------------------------------------------------------------------

  datatype Status =
    | Success          // 0
    | ECurveInit       // ERR_ECURVE_INIT
    | InfinityPoint    // ERR_INFINITY_POINT
    | NotValidPoint    // ERR_NOT_VALID_POINT
    | Order            // ERR_ORDER
    | NotValidElement  // ERR_NOT_VALID_ELEMENT
    | GenerateR        // ERR_GENERATE_R
    | GenerateS        // ERR_GENERATE_S
    | OutrangeR        // ERR_OUTRANGE_R
    | OutrangeS        // ERR_OUTRANGE_S
    | GenerateT        // ERR_GENERATE_T
    | PubkeyInit       // ERR_PUBKEY_INIT
    | DataMemcmp       // ERR_DATA_MEMCMP

  /** The integer a status is returned as: 0 for success, 0x1 to 0xC for
      the failures. */
  function Code(s: Status): (c: int)
    ensures 0 <= c <= 0xC
    ensures c == 0 <==> s == Success
  {
    match s
    case Success => 0
    case ECurveInit => 0x1
    case InfinityPoint => 0x2
    case NotValidPoint => 0x3
    case Order => 0x4
    case NotValidElement => 0x5
    case GenerateR => 0x6
    case GenerateS => 0x7
    case OutrangeR => 0x8
    case OutrangeS => 0x9
    case GenerateT => 0xA
    case PubkeyInit => 0xB
    case DataMemcmp => 0xC
  }

  /** The status a returned integer stands for, if any. */
  function FromCode(c: int): (s: Option<Status>)
    ensures s.Some? <==> 0 <= c <= 0xC
  {
    if c == 0 then Some(Success)
    else if c == 0x1 then Some(ECurveInit)
    else if c == 0x2 then Some(InfinityPoint)
    else if c == 0x3 then Some(NotValidPoint)
    else if c == 0x4 then Some(Order)
    else if c == 0x5 then Some(NotValidElement)
    else if c == 0x6 then Some(GenerateR)
    else if c == 0x7 then Some(GenerateS)
    else if c == 0x8 then Some(OutrangeR)
    else if c == 0x9 then Some(OutrangeS)
    else if c == 0xA then Some(GenerateT)
    else if c == 0xB then Some(PubkeyInit)
    else if c == 0xC then Some(DataMemcmp)
    else None
  }

  /** Every code reads back as its own status. */
  lemma CodeFromCode(s: Status)
    ensures FromCode(Code(s)) == Some(s)
  {
  }

  /** No two causes share a code. */
  lemma CodesDistinct(s: Status, t: Status)
    ensures Code(s) == Code(t) <==> s == t
  {
    CodeFromCode(s);
    CodeFromCode(t);
  }

  // ---------------------------------------------------------------------
  // The curve and its collaborators
  // ---------------------------------------------------------------------

  datatype Point = Infinity | Affine(x: nat, y: nat)

  /** The curve parameters and the operations of the libraries the code
      calls: p the field prime, n the order of the base point (gx, gy),
      onCurve the curve equation, mul and add the point operations, hash
      SM3 and za the identity digest ZA of a public key. */
  datatype Curve = Curve(
    p: nat,
    n: nat,
    gx: nat,
    gy: nat,
    onCurve: (nat, nat) -> bool,
    mul: (nat, Point) -> Point,
    add: (Point, Point) -> Point,
    hash: seq<Octet> -> seq<Octet>,
    za: (nat, nat) -> seq<Octet>)

  /** The base point G. */
  function G(c: Curve): Point
  {
    Affine(c.gx, c.gy)
  }

  /** [k]P, P + Q and the curve equation, as the library computes them. */
  function Mul(c: Curve, k: nat, P: Point): Point
  {
    c.mul(k, P)
  }

  function Add(c: Curve, P: Point, Q: Point): Point
  {
    c.add(P, Q)
  }

  predicate OnCurve(c: Curve, x: nat, y: nat)
  {
    c.onCurve(x, y)
  }

  /** The coordinates of a point; in this model the point at infinity reads
      as (0, 0). */
  function X(P: Point): nat
  {
    if P.Affine? then P.x else 0
  }

  function Y(P: Point): nat
  {
    if P.Affine? then P.y else 0
  }

  /** The curve's numbers fit the 32-byte buffers. */
  predicate Sized(c: Curve)
  {
    1 < c.n <= Pow256(NumWord) && c.p <= Pow256(NumWord)
  }

  /** The group laws for multiples of G that the signature scheme rests on:
      scalar multiplication is a homomorphism from the integers modulo n. */
  ghost predicate Lawful(c: Curve)
  {
    c.n > 1
    && (forall a: nat, b: nat :: Mul(c, a, Mul(c, b, G(c))) == Mul(c, (a * b) % c.n, G(c)))
    && (forall a: nat, b: nat :: Add(c, Mul(c, a, G(c)), Mul(c, b, G(c))) == Mul(c, (a + b) % c.n, G(c)))
  }

  // ---------------------------------------------------------------------
  // Test_Zero, Test_n, Test_Range
  // ---------------------------------------------------------------------

  predicate TestZero(x: nat)
  {
    x == 0
  }

  predicate TestN(c: Curve, x: nat)
  {
    x == c.n
  }

  predicate TestRange(c: Curve, x: nat)
  {
    1 <= x <= c.n - 1
  }

  /** A number in [1, n-1] is neither 0 nor n, and a residue modulo n is in
      that range exactly when it is not 0. */
  lemma TestsAgree(c: Curve, x: nat)
    requires c.n > 1
    ensures TestRange(c, x) ==> !TestZero(x) && !TestN(c, x)
    ensures TestRange(c, x % c.n) <==> !TestZero(x % c.n)
  {
  }

  // ---------------------------------------------------------------------
  // SM2_Init and Test_PubKey
  // ---------------------------------------------------------------------

  /** SM2_Init, the curve setup SM2_Sign and SM2_Verify begin with: it
      fails with ERR_ECURVE_INIT, read here as G not being a point of the
      curve, or with ERR_ORDER when n times G is not the point at infinity. */
  function InitStatus(c: Curve): (s: Status)
    ensures s in {Success, ECurveInit, Order}
    ensures s == ECurveInit <==> !OnCurve(c, c.gx, c.gy)
    ensures s == Order <==> OnCurve(c, c.gx, c.gy) && Mul(c, c.n, G(c)) != Infinity
    ensures s == Success <==> OnCurve(c, c.gx, c.gy) && Mul(c, c.n, G(c)) == Infinity
  {
    if !OnCurve(c, c.gx, c.gy) then ECurveInit
    else if Mul(c, c.n, G(c)) != Infinity then Order
    else Success
  }

  /** The checks of a public key, each with its own code: not infinity,
      coordinates in [0, p), on the curve, of order n. */
  function PubKeyStatus(c: Curve, P: Point): (s: Status)
    ensures s in {Success, InfinityPoint, NotValidElement, NotValidPoint, Order}
    ensures s == InfinityPoint <==> P == Infinity
    ensures s == NotValidElement <==> P.Affine? && (P.x >= c.p || P.y >= c.p)
    ensures s == NotValidPoint <==> P.Affine? && P.x < c.p && P.y < c.p && !OnCurve(c, P.x, P.y)
    ensures s == Order <==>
      P.Affine? && P.x < c.p && P.y < c.p && OnCurve(c, P.x, P.y) && Mul(c, c.n, P) != Infinity
    ensures s == Success <==>
      P.Affine? && P.x < c.p && P.y < c.p && OnCurve(c, P.x, P.y) && Mul(c, c.n, P) == Infinity
  {
    if P == Infinity then InfinityPoint
    else if P.x >= c.p || P.y >= c.p then NotValidElement
    else if !OnCurve(c, P.x, P.y) then NotValidPoint
    else if Mul(c, c.n, P) != Infinity then Order
    else Success
  }

  // ---------------------------------------------------------------------
  // Signing and verification, on numbers
  // ---------------------------------------------------------------------

  /** e = SM3(ZA || M) of the key P, as a number. */
  function Digest(c: Curve, P: Point, msg: seq<Octet>): nat
  {
    Decode(c.hash(c.za(X(P), Y(P)) + msg))
  }

  /** r = (e + x1) mod n, where (x1, y1) = [k]G and e is the digest under the
      signer's public key [d]G. */
  function SignR(c: Curve, msg: seq<Octet>, d: nat, k: nat): (r: nat)
    requires c.n > 1
    ensures r < c.n
  {
    (Digest(c, Mul(c, d, G(c)), msg) + X(Mul(c, k, G(c)))) % c.n
  }

  /** s = ((1 + d)^-1 * (k - r * d)) mod n. */
  function SignS(c: Curve, d: nat, k: nat, r: nat): (s: nat)
    requires c.n > 1
    ensures s < c.n
  {
    (Inverse(1 + d, c.n) * ((k - r * d) % c.n)) % c.n
  }

  datatype Signature = Signature(status: Status, r: nat, s: nat)

  /** What SM2_Sign computes for private key d and the ephemeral key k it
      draws. It returns the failure rather than drawing again. */
  function SignSpec(c: Curve, msg: seq<Octet>, d: nat, k: nat): (sig: Signature)
    requires c.n > 1
  {
    var init := InitStatus(c);
    if init != Success then Signature(init, 0, 0)
    else
      var r := SignR(c, msg, d, k);
      if TestZero(r) || TestN(c, r + k) then Signature(GenerateR, r, 0)
      else
        var s := SignS(c, d, k, r);
        if TestZero(s) then Signature(GenerateS, r, s)
        else Signature(Success, r, s)
  }

  /** SM2_Sign returns only the codes its header lists: the code of a failed
      curve setup; error 6 exactly when r is 0 or r + k is n; error 7 exactly
      when r passes and s is 0; and success exactly when every check passes,
      with r and s in [1, n-1] and r + k not n. */
  lemma SignCodes(c: Curve, msg: seq<Octet>, d: nat, k: nat)
    requires c.n > 1
    ensures var sig := SignSpec(c, msg, d, k); var r := SignR(c, msg, d, k);
      && sig.status in {Success, ECurveInit, Order, GenerateR, GenerateS}
      && ((sig.status == ECurveInit || sig.status == Order) <==> InitStatus(c) != Success)
      && (InitStatus(c) != Success ==> sig.status == InitStatus(c))
      && (sig.status == Success <==>
            InitStatus(c) == Success && r != 0 && r + k != c.n && SignS(c, d, k, r) != 0)
      && (sig.status == Success ==>
            InitStatus(c) == Success && TestRange(c, sig.r) && TestRange(c, sig.s) && sig.r + k != c.n)
      && (sig.status == GenerateR <==> InitStatus(c) == Success && (r == 0 || r + k == c.n))
      && (sig.status == GenerateS <==>
            InitStatus(c) == Success && r != 0 && r + k != c.n && SignS(c, d, k, r) == 0)
      && (sig.status == Success ==> sig.r == r && sig.s == SignS(c, d, k, r))
  {
  }

  /** What SM2_Verify returns for the public key (px, py) and the signature
      (r, s): the first failing check, in the order the header lists them. */
  function VerifySpec(c: Curve, msg: seq<Octet>, px: nat, py: nat, r: nat, s: nat): (st: Status)
    requires c.n > 1
  {
    var init := InitStatus(c);
    if init != Success then init
    else if !OnCurve(c, px, py) then PubkeyInit
    else if !TestRange(c, r) then OutrangeR
    else if !TestRange(c, s) then OutrangeS
    else
      var t := (r + s) % c.n;
      if TestZero(t) then GenerateT
      else
        var PA := Affine(px, py);
        var q := Add(c, Mul(c, s, G(c)), Mul(c, t, PA));
        if (Digest(c, PA, msg) + X(q)) % c.n == r then Success else DataMemcmp
  }

  /** SM2_Verify returns only the codes its header lists; it never accepts
      without every check of section 7.1, and each rejection happens only after
      the checks before it have passed. */
  lemma VerifyChecks(c: Curve, msg: seq<Octet>, px: nat, py: nat, r: nat, s: nat)
    requires c.n > 1
    ensures var st := VerifySpec(c, msg, px, py, r, s);
      && st in {Success, ECurveInit, Order, PubkeyInit, OutrangeR, OutrangeS, GenerateT, DataMemcmp}
      && ((st == ECurveInit || st == Order) <==> InitStatus(c) != Success)
      && (InitStatus(c) != Success ==> st == InitStatus(c))
      && (st == PubkeyInit <==> InitStatus(c) == Success && !OnCurve(c, px, py))
      && (st == OutrangeR <==> InitStatus(c) == Success && OnCurve(c, px, py) && !TestRange(c, r))
      && (st == OutrangeS <==>
            InitStatus(c) == Success && OnCurve(c, px, py) && TestRange(c, r) && !TestRange(c, s))
      && (st == GenerateT <==>
            InitStatus(c) == Success && OnCurve(c, px, py) && TestRange(c, r) && TestRange(c, s)
            && (r + s) % c.n == 0)
      && (st == DataMemcmp <==>
            InitStatus(c) == Success && OnCurve(c, px, py) && TestRange(c, r) && TestRange(c, s)
            && (r + s) % c.n != 0
            && (Digest(c, Affine(px, py), msg)
                 + X(Add(c, Mul(c, s, G(c)), Mul(c, (r + s) % c.n, Affine(px, py))))) % c.n != r)
      && (st == Success ==>
            InitStatus(c) == Success && OnCurve(c, px, py) && TestRange(c, r) && TestRange(c, s)
            && (r + s) % c.n != 0
            && (Digest(c, Affine(px, py), msg)
                 + X(Add(c, Mul(c, s, G(c)), Mul(c, (r + s) % c.n, Affine(px, py))))) % c.n == r)
  {
  }

  /** The converse: a signature that passes every check is accepted. */
  lemma VerifyAccepts(c: Curve, msg: seq<Octet>, px: nat, py: nat, r: nat, s: nat)
    requires c.n > 1
    requires InitStatus(c) == Success && OnCurve(c, px, py) && TestRange(c, r) && TestRange(c, s)
    requires (r + s) % c.n != 0
    requires (Digest(c, Affine(px, py), msg)
               + X(Add(c, Mul(c, s, G(c)), Mul(c, (r + s) % c.n, Affine(px, py))))) % c.n == r
    ensures VerifySpec(c, msg, px, py, r, s) == Success
  {
  }

  // ---------------------------------------------------------------------
  // Why a signature verifies
  // ---------------------------------------------------------------------

  /** Multiplying D by inv and then by u gives D back modulo n, when inv is
      the inverse of u. */
  lemma InverseCancels(n: int, u: int, inv: int, D: int)
    requires n > 1 && (u * inv) % n == 1 && 0 <= D < n
    ensures (((inv * D) % n) * u) % n == D
  {
    ModMul(inv * D, u, n);
    assert (inv * D) * u == (u * inv) * D;
    ModMul(u * inv, D, n);
    DivModUnique(D, n, 0, D);
  }

  /** The identity of section 7.1: with s as signing computes it and
      t = (r + s) mod n, s + t * d is k modulo n. */
  lemma SignatureIdentity(n: int, d: int, k: int, r: int, inv: int)
    requires n > 1 && ((1 + d) * inv) % n == 1
    ensures var s := (inv * ((k - r * d) % n)) % n;
      (s + ((r + s) % n) * d) % n == k % n
  {
    var u, D := 1 + d, (k - r * d) % n;
    var s := (inv * D) % n;
    var t := (r + s) % n;
    InverseCancels(n, u, inv, D);
    // s + t * d is (r + s) * d + s modulo n ...
    ModAdd(t * d, s, n);
    ModMul(r + s, d, n);
    ModAdd((r + s) * d, s, n);
    // ... which is s * (1 + d) + r * d, that is D + r * d, that is k
    Regroup(r, s, d);
    ModAdd(s * u, r * d, n);
    ModAdd(k - r * d, r * d, n);
  }

  lemma Regroup(r: int, s: int, d: int)
    ensures (r + s) * d + s == s * (1 + d) + r * d
  {
  }

  /** When r + k is not n, t = (r + s) mod n is not 0. */
  lemma TNonZero(n: int, d: int, k: int, r: int, s: int)
    requires n > 1 && 1 <= k < n && 1 <= r < n && 0 <= s < n && r + k != n
    requires (s + ((r + s) % n) * d) % n == k % n
    ensures (r + s) % n != 0
  {
    if (r + s) % n == 0 {
      ModOfMod(s, n);
      DivModUnique(s, n, 0, s);
      DivModUnique(k, n, 0, k);
      assert s == k;
      if r + k >= n {
        DivModUnique(r + k, n, 1, r + k - n);
      } else {
        DivModUnique(r + k, n, 0, r + k);
      }
    }
  }

  /** The scalar s + t * d with t = (r + s) mod n gives the point [k]G back:
      [s]G + [t]([d]G) == [k]G. */
  lemma VerifyPoint(c: Curve, d: nat, k: nat, s: nat, t: nat)
    requires Lawful(c) && k < c.n && (s + t * d) % c.n == k
    ensures Add(c, Mul(c, s, G(c)), Mul(c, t, Mul(c, d, G(c)))) == Mul(c, k, G(c))
  {
    var n, g := c.n, G(c);
    var m := (t * d) % n;
    assert (s + m) % n == k by {
      ModAdd(t * d, s, n);
    }
    assert Mul(c, t, Mul(c, d, g)) == Mul(c, m, g);
    assert Add(c, Mul(c, s, g), Mul(c, m, g)) == Mul(c, (s + m) % n, g);
  }

  /** The scalars of a signature made with a private key in [1, n-2], for
      a prime n: t = (r + s) mod n is not 0, and s + t * d is k. */
  lemma SignScalars(n: nat, d: nat, k: nat, r: nat)
    requires Prime(n) && 1 <= d <= n - 2 && 1 <= k <= n - 1 && 1 <= r <= n - 1 && r + k != n
    ensures var s := (Inverse(1 + d, n) * ((k - r * d) % n)) % n;
      && (r + s) % n != 0
      && (s + ((r + s) % n) * d) % n == k
  {
    var inv := Inverse(1 + d, n);
    PrimeCoprime(1 + d, n);
    InverseCorrect(1 + d, n);
    SignatureIdentity(n, d, k, r, inv);
    var s := (inv * ((k - r * d) % n)) % n;
    TNonZero(n, d, k, r, s);
    DivModUnique(k, n, 0, k);
  }

  /** Round trip: a signature SM2_Sign produces under a key pair whose
      public key passed its checks is accepted by SM2_Verify. */
  lemma SignThenVerify(c: Curve, msg: seq<Octet>, d: nat, k: nat)
    requires Lawful(c) && Prime(c.n)
    requires 1 <= d <= c.n - 2 && 1 <= k <= c.n - 1
    requires PubKeyStatus(c, Mul(c, d, G(c))) == Success
    requires SignSpec(c, msg, d, k).status == Success
    ensures var P := Mul(c, d, G(c)); var sig := SignSpec(c, msg, d, k);
      VerifySpec(c, msg, X(P), Y(P), sig.r, sig.s) == Success
  {
    SignCodes(c, msg, d, k);
    SignScalars(c.n, d, k, SignSpec(c, msg, d, k).r);
    SignaturePoint(c, msg, d, k);
  }

  /** The group half of the round trip: once the scalars of the signature
      satisfy the identity of section 7.1, verification recomputes [k]G and
      so the r of the signature. */
  lemma SignaturePoint(c: Curve, msg: seq<Octet>, d: nat, k: nat)
    requires Lawful(c) && k < c.n
    requires PubKeyStatus(c, Mul(c, d, G(c))) == Success
    requires var sig := SignSpec(c, msg, d, k);
      && sig.status == Success && (sig.r + sig.s) % c.n != 0
      && (sig.s + ((sig.r + sig.s) % c.n) * d) % c.n == k
    ensures var P := Mul(c, d, G(c)); var sig := SignSpec(c, msg, d, k);
      VerifySpec(c, msg, X(P), Y(P), sig.r, sig.s) == Success
  {
    var n, g := c.n, G(c);
    var P := Mul(c, d, g);
    var sig := SignSpec(c, msg, d, k);
    var r, s := sig.r, sig.s;
    SignCodes(c, msg, d, k);
    var t := (r + s) % n;
    VerifyPoint(c, d, k, s, t);
    var PA := Affine(X(P), Y(P));
    assert PA == P;
    assert r == (Digest(c, PA, msg) + X(Mul(c, k, g))) % n;
    VerifyAccepts(c, msg, X(P), Y(P), r, s);
  }

  // ---------------------------------------------------------------------
  // Key generation and the self-check, on numbers
  // ---------------------------------------------------------------------

  /** "message digest", the message of the example in GB/T 32918.2-2016. */
  const StdMessage: seq<Octet> := [109, 101, 115, 115, 97, 103, 101, 32, 100, 105, 103, 101, 115, 116]

  /** What SM2_SelfCheck returns when the key pair is generated from the
      private key d and the signature from the ephemeral key k: the first
      failure of curve setup, key generation, signing and verification. */
  function SelfCheckSpec(c: Curve, msg: seq<Octet>, d: nat, k: nat): (st: Status)
    requires c.n > 1
  {
    var init := InitStatus(c);
    var P := Mul(c, d, G(c));
    var kg := PubKeyStatus(c, P);
    if init != Success then init
    else if kg != Success then kg
    else
      var sig := SignSpec(c, msg, d, k);
      if sig.status != Success then sig.status
      else VerifySpec(c, msg, X(P), Y(P), sig.r, sig.s)
  }

  /** Once key generation and signing succeed, the self-check returns what
      verification does. */
  lemma SelfCheckVerifies(c: Curve, msg: seq<Octet>, d: nat, k: nat)
    requires c.n > 1
    requires PubKeyStatus(c, Mul(c, d, G(c))) == Success && SignSpec(c, msg, d, k).status == Success
    ensures var P := Mul(c, d, G(c)); var sig := SignSpec(c, msg, d, k);
      SelfCheckSpec(c, msg, d, k) == VerifySpec(c, msg, X(P), Y(P), sig.r, sig.s)
  {
  }

  /** Under the group laws a self-check fails only in curve setup, key
      generation or signing, never in verification, and passes when all
      three succeed; a failed setup is reported as such. */
  lemma SelfCheckOutcome(c: Curve, msg: seq<Octet>, d: nat, k: nat)
    requires Lawful(c) && Prime(c.n)
    requires 1 <= d <= c.n - 2 && 1 <= k <= c.n - 1
    ensures var st := SelfCheckSpec(c, msg, d, k);
      && (st == Success <==>
            PubKeyStatus(c, Mul(c, d, G(c))) == Success && SignSpec(c, msg, d, k).status == Success)
      && st in {Success, InfinityPoint, NotValidElement, NotValidPoint, Order, ECurveInit, GenerateR, GenerateS}
      && (InitStatus(c) != Success ==> st == InitStatus(c))
      && (InitStatus(c) == Success && PubKeyStatus(c, Mul(c, d, G(c))) != Success ==>
            st == PubKeyStatus(c, Mul(c, d, G(c))))
      && ((InitStatus(c) == Success && PubKeyStatus(c, Mul(c, d, G(c))) == Success
           && SignSpec(c, msg, d, k).status != Success) ==> st == SignSpec(c, msg, d, k).status)
      && ((st == GenerateR || st == GenerateS) ==>
            InitStatus(c) == Success && PubKeyStatus(c, Mul(c, d, G(c))) == Success)
  {
    if PubKeyStatus(c, Mul(c, d, G(c))) == Success && SignSpec(c, msg, d, k).status == Success {
      SignThenVerify(c, msg, d, k);
    }
  }

  // ---------------------------------------------------------------------
  // The functions on caller buffers
  // ---------------------------------------------------------------------

  /** Writes s into a. */
  method Put(s: seq<Octet>, a: array<Octet>)
    requires |s| == a.Length
    modifies a
    ensures a[..] == s
  {
    for i := 0 to a.Length
      invariant a[..i] == s[..i]
    {
      a[i] := s[i];
    }
    assert a[..] == a[..a.Length];
  }

  /** SM2_make_pubkey: P = [d]G for the private key in PriKey, its
      coordinates written to Px and Py, and the checks of the key. */
  method MakePubkey(c: Curve, PriKey: array<Octet>, Px: array<Octet>, Py: array<Octet>) returns (status: int)
    requires PriKey.Length == NumWord && Px.Length == NumWord && Py.Length == NumWord && Px != Py
    modifies Px, Py
    ensures var P := Mul(c, Decode(old(PriKey[..])), G(c));
      && status == Code(PubKeyStatus(c, P))
      && Px[..] == Encode(X(P), NumWord) && Py[..] == Encode(Y(P), NumWord)
  {
    var d := Decode(PriKey[..]);
    var P := Mul(c, d, G(c));
    Put(Encode(X(P), NumWord), Px);
    Put(Encode(Y(P), NumWord), Py);
    status := Code(PubKeyStatus(c, P));
  }

  /** SM2_KeyGeneration: the private key d drawn by SM2_make_prikey, which
      lies in [1, n-2], written to PriKey, then SM2_make_pubkey. */
  method KeyGeneration(c: Curve, PriKey: array<Octet>, Px: array<Octet>, Py: array<Octet>, d: nat)
    returns (status: int)
    requires Sized(c) && 1 <= d <= c.n - 2
    requires PriKey.Length == NumWord && Px.Length == NumWord && Py.Length == NumWord
    requires PriKey != Px && PriKey != Py && Px != Py
    modifies PriKey, Px, Py
    ensures 1 <= Decode(PriKey[..]) <= c.n - 2
    ensures var P := Mul(c, d, G(c));
      && PriKey[..] == Encode(d, NumWord)
      && status == Code(PubKeyStatus(c, P))
      && Px[..] == Encode(X(P), NumWord) && Py[..] == Encode(Y(P), NumWord)
  {
    Put(Encode(d, NumWord), PriKey);
    DecodeEncode(d, NumWord);
    status := MakePubkey(c, PriKey, Px, Py);
  }

  /** SM2_Sign: the signature of message[..len] under the private key in D,
      with the ephemeral key k drawn by SM2_gen_random, which lies in
      [1, n-1]. In this model R and S are written only when signing succeeds. */
  method Sign(c: Curve, message: array<Octet>, len: nat, D: array<Octet>, R: array<Octet>, S: array<Octet>, k: nat)
    returns (status: int)
    requires Sized(c) && 1 <= k <= c.n - 1
    requires len <= message.Length && D.Length == NumWord && R.Length == NumWord && S.Length == NumWord && R != S
    modifies R, S
    ensures var sig := SignSpec(c, old(message[..len]), Decode(old(D[..])), k);
      && status == Code(sig.status)
      && (sig.status == Success ==> R[..] == Encode(sig.r, NumWord) && S[..] == Encode(sig.s, NumWord))
      && (sig.status != Success ==> R[..] == old(R[..]) && S[..] == old(S[..]))
  {
    var msg := message[..len];
    var d := Decode(D[..]);
    var init := InitStatus(c);
    if init != Success {
      return Code(init);
    }
    var r := SignR(c, msg, d, k);
    if TestZero(r) || TestN(c, r + k) {
      return Code(GenerateR);
    }
    var s := SignS(c, d, k, r);
    if TestZero(s) {
      return Code(GenerateS);
    }
    Put(Encode(r, NumWord), R);
    Put(Encode(s, NumWord), S);
    status := Code(Success);
  }

  /** SM2_Verify: the checks of section 7.1 on the public key (Px, Py) and
      the signature (R, S) of message[..len]. */
  method Verify(c: Curve, message: array<Octet>, len: nat, Px: array<Octet>, Py: array<Octet>, R: array<Octet>, S: array<Octet>)
    returns (status: int)
    requires c.n > 1 && len <= message.Length
    requires Px.Length == NumWord && Py.Length == NumWord && R.Length == NumWord && S.Length == NumWord
    ensures status == Code(VerifySpec(c, message[..len], Decode(Px[..]), Decode(Py[..]), Decode(R[..]), Decode(S[..])))
  {
    var msg := message[..len];
    var px, py := Decode(Px[..]), Decode(Py[..]);
    var r, s := Decode(R[..]), Decode(S[..]);
    var init := InitStatus(c);
    if init != Success {
      return Code(init);
    }
    if !OnCurve(c, px, py) {
      return Code(PubkeyInit);
    }
    if !TestRange(c, r) {
      return Code(OutrangeR);
    }
    if !TestRange(c, s) {
      return Code(OutrangeS);
    }
    var t := (r + s) % c.n;
    if TestZero(t) {
      return Code(GenerateT);
    }
    var PA := Affine(px, py);
    var q := Add(c, Mul(c, s, G(c)), Mul(c, t, PA));
    if (Digest(c, PA, msg) + X(q)) % c.n == r {
      status := Code(Success);
    } else {
      status := Code(DataMemcmp);
    }
  }

  /** SM2_SelfCheck: curve setup, key generation, then signing StdMessage,
      then verifying the signature; the first nonzero code is returned. d and k are the
      draws of the random generator. */
  method SelfCheck(c: Curve, d: nat, k: nat) returns (status: int)
    requires Sized(c) && 1 <= d <= c.n - 2 && 1 <= k <= c.n - 1
    ensures status == Code(SelfCheckSpec(c, StdMessage, d, k))
  {
    var PriKey := new Octet[NumWord];
    var Px := new Octet[NumWord];
    var Py := new Octet[NumWord];
    ghost var P := Mul(c, d, G(c));
    var init := InitStatus(c);
    if init != Success {
      return Code(init);
    }
    status := KeyGeneration(c, PriKey, Px, Py, d);
    if status != 0 {
      return;
    }
    DecodeEncode(d, NumWord);
    DecodeEncode(X(P), NumWord);
    DecodeEncode(Y(P), NumWord);
    status := SignAndVerify(c, StdMessage, PriKey, Px, Py, d, k);
  }

  /** The rest of SM2_SelfCheck once the key pair in PriKey, Px and Py has
      passed its checks: sign msg, then verify the signature. */
  method SignAndVerify(c: Curve, msg: seq<Octet>, PriKey: array<Octet>, Px: array<Octet>, Py: array<Octet>, d: nat, k: nat)
    returns (status: int)
    requires Sized(c) && 1 <= k <= c.n - 1
    requires PriKey.Length == NumWord && Px.Length == NumWord && Py.Length == NumWord
    requires PubKeyStatus(c, Mul(c, d, G(c))) == Success
    requires Decode(PriKey[..]) == d
    requires Decode(Px[..]) == X(Mul(c, d, G(c))) && Decode(Py[..]) == Y(Mul(c, d, G(c)))
    ensures status == Code(SelfCheckSpec(c, msg, d, k))
  {
    var R := new Octet[NumWord];
    var S := new Octet[NumWord];
    var message := new Octet[|msg|];
    Put(msg, message);
    assert message[..|msg|] == msg;
    status := Sign(c, message, |msg|, PriKey, R, S, k);
    ghost var sig := SignSpec(c, msg, d, k);
    if status != 0 {
      return;
    }
    SignCodes(c, msg, d, k);
    DecodeEncode(sig.r, NumWord);
    DecodeEncode(sig.s, NumWord);
    ghost var P := Mul(c, d, G(c));
    assert Decode(R[..]) == sig.r && Decode(S[..]) == sig.s;
    assert Decode(Px[..]) == X(P) && Decode(Py[..]) == Y(P);
    assert message[..|msg|] == msg;
    SelfCheckVerifies(c, msg, d, k);
    status := Verify(c, message, |msg|, Px, Py, R, S);
    assert status == Code(VerifySpec(c, msg, X(P), Y(P), sig.r, sig.s));
  }
}
