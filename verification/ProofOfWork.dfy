/**
  The proof-of-work predicate (src/puzzle/challenge.rs) and the browser worker
  that solves it (static/captcha-worker.js). Hash functions are parameters.
 */
module ProofOfWork {
  import opened Common

  newtype Byte = x: int | 0 <= x < 256

  type Hash = h: seq<Byte> | |h| == 32 witness seq(32, _ => 0)

  datatype Algorithm = Sha256 | Argon2id(mCost: nat, tCost: nat, pCost: nat)

  // Nonces are u64 on the server; the worker fills only the low half.
  const NONCE_LIMIT: nat := 0x1_0000_0000_0000_0000
  const WORKER_LIMIT: nat := 0x1_0000_0000

  datatype Hashes = Hashes(
    sha256: seq<Byte> -> Hash,
    argon2id: (seq<Byte>, seq<Byte>, nat, nat, nat) -> Option<Hash>
  )

  function Pow2(n: nat): (p: nat)
    ensures p > 0
  {
    if n == 0 then 1 else 2 * Pow2(n - 1)
  }

  /** The big-endian value of a byte string. */
  ghost function Value(h: seq<Byte>): nat {
    if h == [] then 0 else h[0] as int * Pow2(8 * (|h| - 1)) + Value(h[1..])
  }

  /** What a difficulty means: the hash, read as one big number, is below 2^(bits - difficulty). */
  ghost predicate MeetsTarget(h: seq<Byte>, difficulty: nat) {
    difficulty <= 8 * |h| && Value(h) < Pow2(8 * |h| - difficulty)
  }

  lemma {:induction false} Pow2Sum(a: nat, b: nat)
    ensures Pow2(a + b) == Pow2(a) * Pow2(b)
  {
    if a > 0 {
      Pow2Sum(a - 1, b);
    }
  }

  lemma {:induction false} Pow2Monotone(a: nat, b: nat)
    requires a <= b
    ensures Pow2(a) <= Pow2(b)
  {
    if a < b {
      Pow2Monotone(a, b - 1);
    }
  }

  lemma {:induction false} ValueBound(h: seq<Byte>)
    ensures Value(h) < Pow2(8 * |h|)
  {
    if h != [] {
      ValueBound(h[1..]);
      var n := |h| - 1;
      BytePlaces(n);
      DigitFits(h[0] as int, Pow2(8 * n), Value(h[1..]));
      assert |h[1..]| == n;
    }
  }

  lemma BytePlaces(n: nat)
    ensures Pow2(8 * (n + 1)) == 256 * Pow2(8 * n)
  {
    Pow2Sum(8, 8 * n);
    assert Pow2(8) == 256;
  }

  lemma DigitFits(digit: nat, place: nat, rest: nat)
    requires digit < 256 && rest < place
    ensures digit * place + rest < 256 * place
  {
    MultiplyMonotone(place, digit + 1, 256);
  }

  /** A leading digit decides a comparison against a multiple of its place. */
  lemma DigitDecides(first: nat, place: nat, rest: nat, limit: nat)
    requires rest < place
    ensures first * place + rest < limit * place <==> first < limit
  {
    if first < limit {
      MultiplyMonotone(place, first + 1, limit);
    } else {
      MultiplyMonotone(place, limit, first);
    }
  }

  lemma MultiplyMonotone(d: nat, a: int, b: int)
    requires a <= b
    ensures d * a <= d * b
  {
  }

  /** A whole byte of difficulty: the leading byte must be zero and the rest carries on. */
  lemma TargetWholeByte(h: seq<Byte>, difficulty: nat)
    requires h != [] && difficulty >= 8
    ensures MeetsTarget(h, difficulty) <==> h[0] == 0 && MeetsTarget(h[1..], difficulty - 8)
  {
    var places := 8 * (|h| - 1);
    ValueBound(h[1..]);
    assert 8 * |h[1..]| == places;
    if difficulty <= 8 * |h| {
      Pow2Monotone(8 * |h| - difficulty, places);
      DigitDecides(h[0] as int, Pow2(places), Value(h[1..]), 1);
    }
  }

  /** Part of a byte: only the leading byte matters. */
  lemma TargetPartByte(h: seq<Byte>, difficulty: nat)
    requires h != [] && 0 < difficulty < 8
    ensures MeetsTarget(h, difficulty) <==> h[0] as int < Pow2(8 - difficulty)
  {
    var places := 8 * (|h| - 1);
    ValueBound(h[1..]);
    Pow2Sum(8 - difficulty, places);
    DigitDecides(h[0] as int, Pow2(places), Value(h[1..]), Pow2(8 - difficulty));
  }

  lemma TargetDone(h: seq<Byte>)
    ensures MeetsTarget(h, 0)
  {
    ValueBound(h);
  }

  /** Bit i of a byte, counting from the most significant. */
  ghost predicate ByteBit(b: nat, i: nat)
    requires i < 8
  {
    (b / Pow2(7 - i)) % 2 == 1
  }

  /** Bit i of a hash, counting from the most significant bit of its first byte. */
  ghost predicate BitSet(h: seq<Byte>, i: nat)
    requires i < 8 * |h|
  {
    ByteBit(h[i / 8] as int, i % 8)
  }

  ghost predicate LeadingZeros(h: seq<Byte>, n: nat) {
    n <= 8 * |h| && forall i: nat :: i < n ==> !BitSet(h, i)
  }

  ghost predicate ByteZeros(b: nat, n: nat)
    requires n <= 8
  {
    forall i: nat :: i < n ==> !ByteBit(b, i)
  }

  lemma NextBit(b: nat, n: nat)
    requires 0 < n <= 8 && b < Pow2(9 - n)
    ensures b < Pow2(8 - n) <==> !ByteBit(b, n - 1)
  {
    var p := Pow2(8 - n);
    assert Pow2(9 - n) == 2 * p;
    if b < p {
      DivModUnique(b, p, 0, b);
    } else {
      DivModUnique(b, p, 1, b - p);
    }
  }

  /** The first bits of a byte, against the power of two they leave free. */
  lemma {:induction false} LeadingBitsOfByte(b: nat, n: nat)
    requires b < 256 && n <= 8
    ensures b < Pow2(8 - n) <==> ByteZeros(b, n)
  {
    if n == 0 {
      assert Pow2(8) == 256;
    } else {
      LeadingBitsOfByte(b, n - 1);
      if b < Pow2(9 - n) {
        NextBit(b, n);
      } else {
        Pow2Monotone(8 - n, 9 - n);
      }
      assert ByteZeros(b, n) <==> ByteZeros(b, n - 1) && !ByteBit(b, n - 1);
    }
  }

  lemma FirstByteBit(h: seq<Byte>, i: nat)
    requires h != [] && i < 8
    ensures BitSet(h, i) <==> ByteBit(h[0] as int, i)
  {
  }

  lemma ZerosOfFirstByte(h: seq<Byte>, n: nat)
    requires h != [] && n <= 8
    ensures LeadingZeros(h, n) <==> ByteZeros(h[0] as int, n)
  {
    var first: nat := h[0] as int;
    if ByteZeros(first, n) {
      forall i: nat | i < n ensures !BitSet(h, i) {
        FirstByteBit(h, i);
      }
    }
    if LeadingZeros(h, n) {
      forall i: nat | i < n ensures !ByteBit(first, i) {
        FirstByteBit(h, i);
      }
    }
  }

  lemma ZerosBeyondFirstByte(h: seq<Byte>, n: nat)
    requires h != [] && n >= 8
    ensures LeadingZeros(h, n) <==> LeadingZeros(h, 8) && LeadingZeros(h[1..], n - 8)
  {
    forall i: nat | i < 8 * |h[1..]| ensures BitSet(h[1..], i) <==> BitSet(h, i + 8) {
    }
    if LeadingZeros(h, 8) && LeadingZeros(h[1..], n - 8) {
      forall i: nat | i < n ensures !BitSet(h, i) {
        if i >= 8 {
          assert !BitSet(h[1..], i - 8);
        }
      }
    }
  }

  /** A difficulty is a number of leading zero bits. */
  lemma {:induction false} TargetIsLeadingZeros(h: seq<Byte>, difficulty: nat)
    ensures MeetsTarget(h, difficulty) <==> LeadingZeros(h, difficulty)
    decreases |h|
  {
    if difficulty == 0 {
      TargetDone(h);
    } else if h != [] {
      ZerosOfFirstByte(h, if difficulty < 8 then difficulty else 8);
      LeadingBitsOfByte(h[0] as int, if difficulty < 8 then difficulty else 8);
      if difficulty >= 8 {
        TargetWholeByte(h, difficulty);
        TargetIsLeadingZeros(h[1..], difficulty - 8);
        ZerosBeyondFirstByte(h, difficulty);
      } else {
        TargetPartByte(h, difficulty);
      }
    }
  }

  /** Masks of one to seven leading ones, each against the power of two it leaves free. */
  lemma MaskBits(v: bv8)
    ensures (v & (0xFF as bv8 << 7)) == 0 <==> v < 128
    ensures (v & (0xFF as bv8 << 6)) == 0 <==> v < 64
    ensures (v & (0xFF as bv8 << 5)) == 0 <==> v < 32
    ensures (v & (0xFF as bv8 << 4)) == 0 <==> v < 16
    ensures (v & (0xFF as bv8 << 3)) == 0 <==> v < 8
    ensures (v & (0xFF as bv8 << 2)) == 0 <==> v < 4
    ensures (v & (0xFF as bv8 << 1)) == 0 <==> v < 2
  {
  }

  /** A byte and its bits compare alike with those powers. */
  lemma BitsOrder(b: Byte)
    ensures b as bv8 < 128 <==> b < 128
    ensures b as bv8 < 64 <==> b < 64
    ensures b as bv8 < 32 <==> b < 32
    ensures b as bv8 < 16 <==> b < 16
    ensures b as bv8 < 8 <==> b < 8
    ensures b as bv8 < 4 <==> b < 4
    ensures b as bv8 < 2 <==> b < 2
  {
  }

  lemma SmallPowers()
    ensures Pow2(1) == 2 && Pow2(2) == 4 && Pow2(3) == 8 && Pow2(4) == 16
    ensures Pow2(5) == 32 && Pow2(6) == 64 && Pow2(7) == 128
  {
  }

  /** The server's byte mask, `0xFF << (8 - remaining)` in eight bits. */
  lemma ByteMask(b: Byte, remaining: nat)
    requires 0 < remaining < 8
    ensures ((b as bv8) & (0xFF as bv8 << (8 - remaining))) == 0 <==> b as int < Pow2(8 - remaining)
  {
    MaskBits(b as bv8);
    BitsOrder(b);
    SmallPowers();
    match remaining {
      case 1 =>
      case 2 =>
      case 3 =>
      case 4 =>
      case 5 =>
      case 6 =>
      case 7 =>
    }
  }

  /** The worker's mask: the same shift in thirty-two bits. */
  lemma WordMask(b: Byte, remaining: nat)
    requires 0 < remaining < 8
    ensures (((b as bv8) as bv32) & (0xFF as bv32 << (8 - remaining))) == 0 <==> b as int < Pow2(8 - remaining)
  {
    ByteMask(b, remaining);
    SameLowBits(b as bv8, remaining);
  }

  lemma SameLowBits(v: bv8, remaining: nat)
    requires 0 < remaining < 8
    ensures ((v as bv32) & (0xFF as bv32 << (8 - remaining))) == 0 <==> (v & (0xFF as bv8 << (8 - remaining))) == 0
  {
    match remaining {
      case 1 =>
      case 2 =>
      case 3 =>
      case 4 =>
      case 5 =>
      case 6 =>
      case 7 =>
    }
  }

  /** The server's loop. */
  method HasLeadingZeroBits(hash: seq<Byte>, difficulty: nat) returns (ok: bool)
    ensures ok <==> MeetsTarget(hash, difficulty)
  {
    var remaining := difficulty;
    var i := 0;
    while i < |hash|
      invariant 0 <= i <= |hash|
      invariant MeetsTarget(hash, difficulty) <==> MeetsTarget(hash[i..], remaining)
    {
      var byte := hash[i];
      assert hash[i..][1..] == hash[i + 1..];
      if remaining == 0 {
        TargetDone(hash[i..]);
        return true;
      }
      if remaining >= 8 {
        TargetWholeByte(hash[i..], remaining);
        if byte != 0 {
          return false;
        }
        remaining := remaining - 8;
      } else {
        TargetPartByte(hash[i..], remaining);
        ByteMask(byte, remaining);
        var mask: bv8 := 0xFF << (8 - remaining);
        return ((byte as bv8) & mask) == 0;
      }
      i := i + 1;
    }
    return remaining == 0;
  }

  /** The worker's loop, over its own byte array. */
  method WorkerHasLeadingZeroBits(hash: array<Byte>, difficulty: nat) returns (ok: bool)
    ensures ok <==> MeetsTarget(hash[..], difficulty)
  {
    var remaining := difficulty;
    var i := 0;
    while i < hash.Length
      invariant 0 <= i <= hash.Length
      invariant MeetsTarget(hash[..], difficulty) <==> MeetsTarget(hash[i..], remaining)
    {
      assert hash[i..][1..] == hash[i + 1..];
      if remaining == 0 {
        TargetDone(hash[i..]);
        return true;
      }
      if remaining >= 8 {
        TargetWholeByte(hash[i..], remaining);
        if hash[i] != 0 {
          return false;
        }
        remaining := remaining - 8;
      } else {
        TargetPartByte(hash[i..], remaining);
        WordMask(hash[i], remaining);
        var mask: bv32 := 0xFF << (8 - remaining);
        return (((hash[i] as bv8) as bv32) & mask) == 0;
      }
      i := i + 1;
    }
    return remaining == 0;
  }

  // ---- Nonce layout --------------------------------------------------------

  /** The i-th base-256 digit of n, counting from the least significant. */
  function ByteAt(n: nat, i: nat): Byte {
    if i == 0 then (n % 256) as Byte else ByteAt(n / 256, i - 1)
  }

  /** `width` bytes of n, least significant first. */
  function LittleEndian(n: nat, width: nat): (s: seq<Byte>)
    ensures |s| == width
  {
    seq(width, i requires 0 <= i < width => ByteAt(n, i))
  }

  lemma LittleEndianPeel(n: nat, width: nat)
    requires width > 0
    ensures LittleEndian(n, width) == [(n % 256) as Byte] + LittleEndian(n / 256, width - 1)
  {
  }

  /** The worker's eight bytes: the nonce's low 32 bits, then four zeros. */
  function WorkerNonce(n: nat): (s: seq<Byte>)
    ensures |s| == 8
  {
    LittleEndian(n % WORKER_LIMIT, 4) + LittleEndian(0, 4)
  }

  lemma {:induction false} LittleEndianZero(n: nat, width: nat)
    requires n < Pow2(8 * width)
    ensures LittleEndian(n, width) == LittleEndian(0, width) <==> n == 0
  {
    if width > 0 {
      Pow2Sum(8, 8 * (width - 1));
      assert Pow2(8) == 256;
      LittleEndianZero(n / 256, width - 1);
      LittleEndianPeel(n, width);
      LittleEndianPeel(0, width);
      var s, z := LittleEndian(n, width), LittleEndian(0, width);
      if s == z {
        assert s[0] == z[0] && s[1..] == z[1..];
      }
    }
  }

  /** The low byte of a number comes off the same way from its value modulo 256 * m. */
  lemma LittleEndianStep(n: nat, m: nat)
    requires m > 0
    ensures (n / 256) / m == n / (256 * m)
    ensures (n % (256 * m)) % 256 == n % 256
    ensures (n % (256 * m)) / 256 == (n / 256) % m
  {
    var low, rest := n % 256, n / 256;
    var q, r := rest / m, rest % m;
    assert rest == m * q + r;
    assert 256 * (m * q) == (256 * m) * q;
    DivModUnique(n, 256 * m, q, 256 * r + low);
  }

  lemma DivModUnique(n: nat, d: nat, q: nat, r: nat)
    requires d > 0 && r < d && n == d * q + r
    ensures n / d == q && n % d == r
  {
    var q' := n / d;
    assert d * (q + 1) == d * q + d;
    assert d * (q' + 1) == d * q' + d;
    if q' > q {
      MultiplyMonotone(d, q + 1, q');
    } else if q' < q {
      MultiplyMonotone(d, q' + 1, q);
    }
  }

  /** Eight bytes are the low four followed by the high four. */
  lemma LittleEndianHalves(n: nat)
    ensures LittleEndian(n, 8) == LittleEndian(n % WORKER_LIMIT, 4) + LittleEndian(n / WORKER_LIMIT, 4)
  {
    var n1 := n / 256;
    var n2 := n1 / 256;
    var n3 := n2 / 256;
    LittleEndianStep(n, 0x100_0000);
    LittleEndianStep(n1, 0x1_0000);
    LittleEndianStep(n2, 0x100);
    LittleEndianStep(n3, 1);
    LittleEndianPeel(n3, 5);
    LittleEndianPeel(n2, 6);
    LittleEndianPeel(n1, 7);
    LittleEndianPeel(n, 8);
    LittleEndianPeel(n3 % 256, 1);
    LittleEndianPeel(n2 % 0x1_0000, 2);
    LittleEndianPeel(n1 % 0x100_0000, 3);
    LittleEndianPeel(n % WORKER_LIMIT, 4);
    assert LittleEndian(n3 / 256, 4) == LittleEndian(n / WORKER_LIMIT, 4);
  }

  /** The worker hashes the bytes the server hashes exactly when the nonce fits 32 bits. */
  lemma WorkerNonceAgrees(n: nat)
    requires n < NONCE_LIMIT
    ensures WorkerNonce(n) == LittleEndian(n, 8) <==> n < WORKER_LIMIT
  {
    assert Pow2(32) == WORKER_LIMIT by { Pow2Sum(16, 16); assert Pow2(16) == 65536 by { Pow2Sum(8, 8); } }
    LittleEndianHalves(n);
    LittleEndianZero(n / WORKER_LIMIT, 4);
    var low := LittleEndian(n % WORKER_LIMIT, 4);
    if WorkerNonce(n) == LittleEndian(n, 8) {
      assert WorkerNonce(n)[4..] == LittleEndian(n, 8)[4..];
    }
  }

  /** Past 32 bits the worker repeats hashes it has already tried. */
  lemma WorkerNonceRepeats(n: nat)
    ensures WorkerNonce(n) == WorkerNonce(n % WORKER_LIMIT)
  {
  }

  lemma FourBytes(n: nat)
    requires n < 0x1_0000_0000
    ensures var s := LittleEndian(n, 4);
            s[0] as int + 0x100 * s[1] as int + 0x1_0000 * s[2] as int + 0x100_0000 * s[3] as int == n
  {
    LittleEndianPeel(n, 4);
    LittleEndianPeel(n / 256, 3);
    LittleEndianPeel(n / 256 / 256, 2);
    LittleEndianPeel(n / 256 / 256 / 256, 1);
  }

  /** The number a little-endian byte string stands for. */
  ghost function LittleValue(s: seq<Byte>): nat {
    if s == [] then 0 else s[0] as int + 256 * LittleValue(s[1..])
  }

  /** `to_le_bytes`: the bytes of a nonce stand for it, up to the width. */
  lemma {:induction false} LittleEndianStandsFor(n: nat, width: nat)
    requires n < Pow2(8 * width)
    ensures LittleValue(LittleEndian(n, width)) == n
  {
    if width > 0 {
      BytePlaces(width - 1);
      LittleEndianStandsFor(n / 256, width - 1);
      LittleEndianPeel(n, width);
      assert LittleEndian(n, width)[1..] == LittleEndian(n / 256, width - 1);
    }
  }

  /** The worker's in-place write of one nonce behind the prefix. */
  method WriteNonce(buffer: array<Byte>, offset: nat, nonce: nat)
    requires offset + 8 == buffer.Length
    modifies buffer
    ensures buffer[..offset] == old(buffer[..offset])
    ensures buffer[offset..] == WorkerNonce(nonce)
    ensures buffer[offset] as int + 0x100 * buffer[offset + 1] as int + 0x1_0000 * buffer[offset + 2] as int
            + 0x100_0000 * buffer[offset + 3] as int == nonce % 0x1_0000_0000
    ensures buffer[offset + 4..] == [0, 0, 0, 0]
  {
    FourBytes(nonce % WORKER_LIMIT);
    FourBytes(0);
    var low := LittleEndian(nonce % WORKER_LIMIT, 4);
    var high := LittleEndian(0, 4);
    forall i | 0 <= i < 4 { buffer[offset + i] := low[i]; }
    forall i | 0 <= i < 4 { buffer[offset + 4 + i] := high[i]; }
  }

  // ---- Acceptance and search -----------------------------------------------

  function Digest(hashes: Hashes, algorithm: Algorithm, prefix: seq<Byte>, nonceBytes: seq<Byte>): Option<Hash> {
    match algorithm
    case Sha256 => Some(hashes.sha256(prefix + nonceBytes))
    case Argon2id(m, t, p) => hashes.argon2id(nonceBytes, prefix, m, t, p)
  }

  /** The server accepts a nonce: its digest exists and meets the stamped difficulty. */
  ghost predicate Accepts(hashes: Hashes, algorithm: Algorithm, prefix: seq<Byte>, difficulty: nat, nonce: nat) {
    var d := Digest(hashes, algorithm, prefix, LittleEndian(nonce, 8));
    d.Some? && MeetsTarget(d.value, difficulty)
  }

  /** `PuzzleEngine::verify`. */
  method VerifyNonce(hashes: Hashes, algorithm: Algorithm, prefix: seq<Byte>, difficulty: nat, nonce: nat)
    returns (ok: bool)
    ensures ok <==> Accepts(hashes, algorithm, prefix, difficulty, nonce)
  {
    var d := Digest(hashes, algorithm, prefix, LittleEndian(nonce, 8));
    match d
    case Some(hash) => ok := HasLeadingZeroBits(hash, difficulty);
    case None => ok := false;
  }

  /** `solve_challenge`: the least u64 nonce the engine accepts, if there is one. */
  method Solve(hashes: Hashes, algorithm: Algorithm, prefix: seq<Byte>, difficulty: nat)
    returns (solution: Option<nat>)
    ensures solution.Some? ==> solution.value < NONCE_LIMIT
    ensures solution.Some? ==> Accepts(hashes, algorithm, prefix, difficulty, solution.value)
    ensures forall n: nat :: n < solution.GetOr(NONCE_LIMIT) ==> !Accepts(hashes, algorithm, prefix, difficulty, n)
  {
    var nonce := 0;
    while nonce < NONCE_LIMIT
      invariant 0 <= nonce <= NONCE_LIMIT
      invariant forall n: nat :: n < nonce ==> !Accepts(hashes, algorithm, prefix, difficulty, n)
    {
      var ok := VerifyNonce(hashes, algorithm, prefix, difficulty, nonce);
      if ok {
        return Some(nonce);
      }
      nonce := nonce + 1;
    }
    return None;
  }

  /**
    The worker's SHA-256 search, rewriting its buffer in place. It finds exactly
    the server's least solution when that one fits 32 bits, and otherwise has
    nothing left to try: see WorkerNonceRepeats.
   */
  method WorkerSolve(hashes: Hashes, prefix: seq<Byte>, difficulty: nat) returns (solution: Option<nat>)
    ensures solution.Some? ==> solution.value < WORKER_LIMIT
    ensures solution.Some? ==> Accepts(hashes, Sha256, prefix, difficulty, solution.value)
    ensures forall n: nat :: n < solution.GetOr(WORKER_LIMIT) ==> !Accepts(hashes, Sha256, prefix, difficulty, n)
  {
    var data := new Byte[|prefix| + 8](i requires 0 <= i < |prefix| + 8 => if i < |prefix| then prefix[i] else 0);
    var nonce := 0;
    assert data[..|prefix|] == prefix;
    while nonce < WORKER_LIMIT
      invariant 0 <= nonce <= WORKER_LIMIT
      invariant data[..|prefix|] == prefix
      invariant forall n: nat :: n < nonce ==> !Accepts(hashes, Sha256, prefix, difficulty, n)
    {
      WriteNonce(data, |prefix|, nonce);
      WorkerNonceAgrees(nonce);
      assert data[..] == data[..|prefix|] + data[|prefix|..];
      var digest: seq<Byte> := hashes.sha256(data[..]);
      var hash := new Byte[|digest|](i requires 0 <= i < |digest| => digest[i]);
      assert hash[..] == digest;
      var ok := WorkerHasLeadingZeroBits(hash, difficulty);
      if ok {
        return Some(nonce);
      }
      nonce := nonce + 1;
    }
    return None;
  }

  /**
    The worker's Argon2id search: the same eight bytes, rewritten in place, are
    the password and the prefix is the salt. Parameters the hash rejects end the
    search with nothing.
   */
  method WorkerSolveArgon2id(hashes: Hashes, prefix: seq<Byte>, difficulty: nat, m: nat, t: nat, p: nat)
    returns (solution: Option<nat>)
    ensures solution.Some? ==> solution.value < WORKER_LIMIT
    ensures solution.Some? ==> Accepts(hashes, Argon2id(m, t, p), prefix, difficulty, solution.value)
    ensures solution.Some? ==>
      forall n: nat :: n < solution.value ==> !Accepts(hashes, Argon2id(m, t, p), prefix, difficulty, n)
    ensures solution.None? ==>
      || (exists n: nat :: n < WORKER_LIMIT && hashes.argon2id(LittleEndian(n, 8), prefix, m, t, p).None?)
      || (forall n: nat :: n < WORKER_LIMIT ==> !Accepts(hashes, Argon2id(m, t, p), prefix, difficulty, n))
  {
    var password := new Byte[8](_ => 0);
    var nonce := 0;
    while nonce < WORKER_LIMIT
      invariant 0 <= nonce <= WORKER_LIMIT
      invariant forall n: nat :: n < nonce ==> !Accepts(hashes, Argon2id(m, t, p), prefix, difficulty, n)
    {
      WriteNonce(password, 0, nonce);
      WorkerNonceAgrees(nonce);
      assert password[..] == password[0..] == LittleEndian(nonce, 8);
      var digest := hashes.argon2id(password[..], prefix, m, t, p);
      if digest.None? {
        return None;
      }
      var bytes: seq<Byte> := digest.value;
      var hash := new Byte[|bytes|](i requires 0 <= i < |bytes| => bytes[i]);
      assert hash[..] == bytes;
      var ok := WorkerHasLeadingZeroBits(hash, difficulty);
      if ok {
        return Some(nonce);
      }
      nonce := nonce + 1;
    }
    return None;
  }
}
