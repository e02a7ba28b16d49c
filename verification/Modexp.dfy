/** The modular-exponentiation precompile (frame/evm/precompile/modexp/src/lib.rs). */
module Modexp {
  import opened Prelude

  type Byte = n: nat | n < 256

  // ---- Big-endian numbers ----

  function FromBytes(b: seq<Byte>): nat
  {
    if b == [] then 0 else FromBytes(Init(b)) * 256 + Last(b)
  }

  /** The shortest big-endian form; zero is one zero byte. */
  function ToBytes(n: nat): (b: seq<Byte>)
    ensures |b| >= 1
  {
    if n < 256 then [n] else ToBytes(n / 256) + [n % 256]
  }

  function Pow(base: nat, e: nat): nat { if e == 0 then 1 else base * Pow(base, e - 1) }

  lemma {:induction false} BytesRoundTrip(n: nat)
    ensures FromBytes(ToBytes(n)) == n
  {
    if n < 256 {
      assert Init(ToBytes(n)) == [];
    } else {
      BytesRoundTrip(n / 256);
      assert Init(ToBytes(n)) == ToBytes(n / 256);
    }
  }

  lemma {:induction false} BytesBounded(b: seq<Byte>)
    ensures FromBytes(b) < Pow(256, |b|)
  {
    if b != [] {
      BytesBounded(Init(b));
    }
  }

  lemma {:induction false} BytesFit(n: nat, k: nat)
    requires k >= 1 && n < Pow(256, k)
    ensures |ToBytes(n)| <= k
  {
    if n >= 256 {
      assert Pow(256, 1) == 256 * Pow(256, 0) == 256;
      assert n / 256 < Pow(256, k - 1);
      BytesFit(n / 256, k - 1);
    }
  }

  function Zeros(k: nat): (z: seq<Byte>)
    ensures |z| == k
  {
    if k == 0 then [] else Zeros(k - 1) + [0]
  }

  lemma {:induction false} ZerosAreZero(k: nat)
    ensures FromBytes(Zeros(k)) == 0
  {
    if k > 0 {
      assert Init(Zeros(k)) == Zeros(k - 1);
      ZerosAreZero(k - 1);
    }
  }

  lemma {:induction false} PaddingKeepsValue(k: nat, b: seq<Byte>)
    ensures FromBytes(Zeros(k) + b) == FromBytes(b)
  {
    if b == [] {
      assert Zeros(k) + b == Zeros(k);
      ZerosAreZero(k);
    } else {
      assert Init(Zeros(k) + b) == Zeros(k) + Init(b);
      PaddingKeepsValue(k, Init(b));
    }
  }

  /** The low `k` bytes of a number, big-endian. */
  function BigEndian(n: nat, k: nat): (b: seq<Byte>)
    ensures |b| == k
  {
    if k == 0 then [] else BigEndian(n / 256, k - 1) + [n % 256]
  }

  lemma {:induction false} BigEndianValue(n: nat, k: nat)
    requires n < Pow(256, k)
    ensures FromBytes(BigEndian(n, k)) == n
  {
    if k > 0 {
      assert n / 256 < Pow(256, k - 1);
      BigEndianValue(n / 256, k - 1);
      assert Init(BigEndian(n, k)) == BigEndian(n / 256, k - 1);
    }
  }

  lemma {:induction false} BigEndianZero(k: nat)
    ensures BigEndian(0, k) == Zeros(k)
  {
    if k > 0 {
      BigEndianZero(k - 1);
    }
  }

  /** Left padding the shortest form gives the fixed-width form. */
  lemma {:induction false} PaddedIsBigEndian(n: nat, k: nat)
    requires |ToBytes(n)| <= k
    ensures Zeros(k - |ToBytes(n)|) + ToBytes(n) == BigEndian(n, k)
    decreases n
  {
    if n < 256 {
      BigEndianZero(k - 1);
    } else {
      PaddedIsBigEndian(n / 256, k - 1);
    }
  }

  // ---- What EIP-198 specifies ----

  datatype Operands = Operands(base: nat, exponent: nat, modulus: nat)

  /** base^exponent mod modulus, zero for the modulus zero. */
  function Answer(o: Operands): nat
  {
    if o.modulus <= 1 then 0 else Pow(o.base, o.exponent) % o.modulus
  }

  /** Quotient and remainder are unique. */
  lemma {:induction false} ModUnique(n: nat, q: nat, r: nat, m: nat)
    requires m > 0 && r < m && n == q * m + r
    ensures n % m == r
  {
    var d, e := n / m, n % m;
    assert n == d * m + e;
    if d < q {
      MulMonotone(m, d + 1, q);
    } else if q < d {
      MulMonotone(m, q + 1, d);
    }
  }

  lemma {:induction false} ProductSplit(b: nat, q: nat, m: nat, r: nat, d: nat, e: nat)
    requires b * r == d * m + e
    ensures b * (q * m + r) == (b * q + d) * m + e
  {
    assert b * (q * m + r) == b * (q * m) + b * r;
    assert b * (q * m) == (b * q) * m;
    assert (b * q + d) * m == (b * q) * m + d * m;
  }

  lemma {:induction false} ProductRemainder(b: nat, x: nat, q: nat, r: nat, d: nat, e: nat, m: nat)
    requires x == q * m + r && b * r == d * m + e && e < m
    ensures (b * x) % m == e
  {
    ProductSplit(b, q, m, r, d, e);
    ModUnique(b * x, b * q + d, e, m);
  }

  lemma {:induction false} Divide(n: nat, m: nat)
    requires m > 0
    ensures n == (n / m) * m + n % m
  {
  }

  lemma {:induction false} ModProduct(b: nat, x: nat, m: nat)
    requires m > 0
    ensures (b * x) % m == (b * (x % m)) % m
  {
    Divide(x, m);
    Divide(b * (x % m), m);
    ProductRemainder(b, x, x / m, x % m, (b * (x % m)) / m, (b * (x % m)) % m, m);
  }

  /**
   * The modular power by its recurrence: one (modulo the modulus) for the exponent zero, and for one more the
   * product with the base, modulo the modulus; zero for the modulus zero.
   */
  lemma {:induction false} AnswerRecurrence(base: nat, exponent: nat, modulus: nat)
    ensures Answer(Operands(base, exponent, 0)) == 0
    ensures modulus > 0 ==> Answer(Operands(base, 0, modulus)) == 1 % modulus
    ensures modulus > 0 ==> Answer(Operands(base, exponent + 1, modulus))
                            == (base * Answer(Operands(base, exponent, modulus))) % modulus
  {
    if modulus > 1 {
      ModProduct(base, Pow(base, exponent), modulus);
    }
  }

  /** Bytes of the call data, which is infinitely right-padded with zero bytes. */
  function Padded(input: seq<Byte>, start: nat, len: nat): (b: seq<Byte>)
    ensures |b| == len
  {
    seq<Byte>(len, i requires 0 <= i < len => if start + i < |input| then input[start + i] else 0)
  }

  /** The `k`-th declared length. */
  function DeclaredLength(input: seq<Byte>, k: nat): nat { FromBytes(Padded(input, 32 * k, 32)) }

  function EipOperands(input: seq<Byte>): Operands
  {
    var b, e, m := DeclaredLength(input, 0), DeclaredLength(input, 1), DeclaredLength(input, 2);
    Operands(FromBytes(Padded(input, 96, b)),
             FromBytes(Padded(input, 96 + b, e)),
             FromBytes(Padded(input, 96 + b + e, m)))
  }

  /** The output of the precompile: as long as the modulus, so empty for an empty modulus. */
  function EipResult(input: seq<Byte>): seq<Byte>
  {
    BigEndian(Answer(EipOperands(input)), DeclaredLength(input, 2))
  }

  // ---- The input checks and the result of the code ----

  const MAX_SIZE: nat := 1024

  /** The `k`-th 32-byte length field. */
  function LengthField(input: seq<Byte>, k: nat): nat
    requires k < 3 && |input| >= 96
  {
    FromBytes(input[32 * k..32 * k + 32])
  }

  datatype ModexpError = TooShort | BaseTooLong | ExponentTooLong | ModulusTooLong | Insufficient | OutputFailed

  /** The size checks, in the order they are made. */
  function Malformed(input: seq<Byte>): Option<ModexpError>
  {
    if |input| < 96 then Some(TooShort)
    else if LengthField(input, 0) > MAX_SIZE then Some(BaseTooLong)
    else if LengthField(input, 1) > MAX_SIZE then Some(ExponentTooLong)
    else if LengthField(input, 2) > MAX_SIZE then Some(ModulusTooLong)
    else if |input| < 96 + LengthField(input, 0) + LengthField(input, 1) + LengthField(input, 2) then Some(Insufficient)
    else None
  }

  function Parse(input: seq<Byte>): Operands
    requires Malformed(input).None?
  {
    var b, e, m := LengthField(input, 0), LengthField(input, 1), LengthField(input, 2);
    Operands(FromBytes(input[96..96 + b]),
             FromBytes(input[96 + b..96 + b + e]),
             FromBytes(input[96 + b + e..96 + b + e + m]))
  }

  /** The answer always fits the declared modulus length, unless that length is zero. */
  lemma {:induction false} AnswerFits(input: seq<Byte>)
    requires Malformed(input).None?
    ensures Answer(Parse(input)) < Pow(256, LengthField(input, 2))
    ensures LengthField(input, 2) > 0 ==> |ToBytes(Answer(Parse(input)))| <= LengthField(input, 2)
    ensures LengthField(input, 2) == 0 ==> Answer(Parse(input)) == 0
  {
    var b, e, m := LengthField(input, 0), LengthField(input, 1), LengthField(input, 2);
    var field := input[96 + b + e..96 + b + e + m];
    assert |field| == m;
    BytesBounded(field);
    if m > 0 {
      BytesFit(Answer(Parse(input)), m);
    }
  }

  /** What `execute` answers. */
  function Outcome(input: seq<Byte>): Result<seq<Byte>, ModexpError>
  {
    if Malformed(input).Some? then Err(Malformed(input).value)
    else if LengthField(input, 2) == 0 then Err(OutputFailed)
    else Ok(BigEndian(Answer(Parse(input)), LengthField(input, 2)))
  }

  // ---- Where the code agrees with EIP-198 ----

  lemma {:induction false} PaddedInside(input: seq<Byte>, start: nat, len: nat)
    requires start + len <= |input|
    ensures Padded(input, start, len) == input[start..start + len]
  {
  }

  lemma {:induction false} SameLengths(input: seq<Byte>, k: nat)
    requires |input| >= 96 && k < 3
    ensures DeclaredLength(input, k) == LengthField(input, k)
  {
    PaddedInside(input, 32 * k, 32);
  }

  lemma {:induction false} SameOperands(input: seq<Byte>)
    requires Malformed(input).None?
    ensures EipOperands(input) == Parse(input)
  {
    SameLengths(input, 0);
    SameLengths(input, 1);
    SameLengths(input, 2);
    var b, e, m := LengthField(input, 0), LengthField(input, 1), LengthField(input, 2);
    PaddedInside(input, 96, b);
    PaddedInside(input, 96 + b, e);
    PaddedInside(input, 96 + b + e, m);
  }

  /** Long enough for what it declares, with no declared length above 1024. */
  predicate WellSized(input: seq<Byte>)
  {
    && DeclaredLength(input, 0) <= 1024 && DeclaredLength(input, 1) <= 1024 && DeclaredLength(input, 2) <= 1024
    && 96 + DeclaredLength(input, 0) + DeclaredLength(input, 1) + DeclaredLength(input, 2) <= |input|
  }

  /** Which error every other input gets; the first length above 1024 decides. */
  lemma {:induction false} ErrorsExactly(input: seq<Byte>)
    ensures var b, e, m := DeclaredLength(input, 0), DeclaredLength(input, 1), DeclaredLength(input, 2);
            var r := Outcome(input);
            && (|input| < 96 <==> r == Err(TooShort))
            && (|input| >= 96 && b > 1024 <==> r == Err(BaseTooLong))
            && (|input| >= 96 && b <= 1024 < e <==> r == Err(ExponentTooLong))
            && (|input| >= 96 && b <= 1024 && e <= 1024 < m <==> r == Err(ModulusTooLong))
            && (b <= 1024 && e <= 1024 && m <= 1024 && 96 <= |input| < 96 + b + e + m <==> r == Err(Insufficient))
            && (WellSized(input) && m == 0 <==> r == Err(OutputFailed))
  {
    if |input| >= 96 {
      SameLengths(input, 0);
      SameLengths(input, 1);
      SameLengths(input, 2);
    }
  }

  /**
   * The code returns what EIP-198 specifies if and only if the input is well-sized and the declared modulus
   * length is positive.
   */
  lemma {:induction false} MatchesEipExactly(input: seq<Byte>)
    ensures Outcome(input) == Ok(EipResult(input)) <==> WellSized(input) && DeclaredLength(input, 2) > 0
    ensures DeclaredLength(input, 2) == 0 ==> EipResult(input) == []
  {
    ErrorsExactly(input);
    if Malformed(input).None? {
      SameOperands(input);
      SameLengths(input, 2);
    }
  }

  // ---- Inputs on which it departs ----

  /** A 32-byte length field. */
  function Word(n: Byte): seq<Byte> { Zeros(31) + [n] }

  lemma {:induction false} WordValue(n: Byte)
    ensures FromBytes(Word(n)) == n
  {
    PaddingKeepsValue(31, [n]);
    assert Init([n]) == [];
  }

  /** 3^2 mod 256 with the last byte of the two-byte modulus left out. */
  const SHORT_INPUT: seq<Byte> := Word(1) + Word(1) + Word(2) + [3, 2, 1]

  lemma {:induction false} ShortInputLengths()
    ensures |SHORT_INPUT| == 99
    ensures DeclaredLength(SHORT_INPUT, 0) == LengthField(SHORT_INPUT, 0) == 1
    ensures DeclaredLength(SHORT_INPUT, 1) == LengthField(SHORT_INPUT, 1) == 1
    ensures DeclaredLength(SHORT_INPUT, 2) == LengthField(SHORT_INPUT, 2) == 2
  {
    var input := SHORT_INPUT;
    assert input[0..32] == Word(1) && input[32..64] == Word(1) && input[64..96] == Word(2);
    WordValue(1);
    WordValue(2);
    SameLengths(input, 0);
    SameLengths(input, 1);
    SameLengths(input, 2);
  }

  lemma {:induction false} ShortInputOperands()
    ensures EipOperands(SHORT_INPUT) == Operands(3, 2, 256)
  {
    var input := SHORT_INPUT;
    ShortInputLengths();
    assert Padded(input, 96, 1) == [3] && Padded(input, 97, 1) == [2] && Padded(input, 98, 2) == [1, 0];
    assert Init<Byte>([3]) == [] && Init<Byte>([2]) == [] && Init<Byte>([1, 0]) == [1] && Init<Byte>([1]) == [];
    assert FromBytes([1, 0]) == 256;
  }

  /** EIP-198 reads the missing byte as zero and answers 9 in two bytes; the code refuses the input. */
  lemma {:induction false} ShortInputRefused()
    ensures EipResult(SHORT_INPUT) == [0, 9]
    ensures Outcome(SHORT_INPUT) == Err(Insufficient)
  {
    ShortInputLengths();
    ShortInputOperands();
    assert Pow(3, 2) == 3 * Pow(3, 1) && Pow(3, 1) == 3 * Pow(3, 0);
    assert BigEndian(9, 2) == BigEndian(0, 1) + [9] && BigEndian(0, 1) == BigEndian(0, 0) + [0];
  }

  // ---- The code ----

  method CopyInto(buf: array<Byte>, from: seq<Byte>)
    requires buf.Length == |from|
    modifies buf
    ensures buf[..] == from
  {
    for i := 0 to |from|
      invariant forall j :: 0 <= j < i ==> buf[j] == from[j]
    {
      buf[i] := from[i];
    }
  }

  /** Read the operands and exponentiate; an empty base and modulus are handled first. */
  method Compute(input: seq<Byte>, baseLen: nat, expLen: nat, modLen: nat) returns (result: nat)
    requires Malformed(input).None?
    requires baseLen == LengthField(input, 0) && expLen == LengthField(input, 1) && modLen == LengthField(input, 2)
    ensures result == Answer(Parse(input))
  {
    if baseLen == 0 && modLen == 0 {
      AnswerFits(input);
      return 0;
    }
    var baseStart := 96;
    var base := FromBytes(input[baseStart..baseStart + baseLen]);
    var expStart := baseStart + baseLen;
    var exponent := FromBytes(input[expStart..expStart + expLen]);
    var modStart := expStart + expLen;
    var modulus := FromBytes(input[modStart..modStart + modLen]);
    if modulus == 0 || modulus == 1 {
      return 0;
    }
    return Pow(base, exponent) % modulus;
  }

  /** Write the number big-endian, left padded to the length of the modulus. */
  method Encode(n: nat, modLen: nat) returns (r: Result<seq<Byte>, ModexpError>)
    ensures r.Ok? <==> |ToBytes(n)| <= modLen
    ensures r.Ok? ==> r.value == BigEndian(n, modLen)
    ensures r.Err? ==> r.error == OutputFailed
  {
    var bytes := ToBytes(n);
    if |bytes| <= modLen {
      PaddedIsBigEndian(n, modLen);
    }
    if |bytes| == modLen {
      return Ok(bytes);
    } else if |bytes| < modLen {
      var ret := Zeros(modLen - |bytes|);
      ret := ret + bytes;
      return Ok(ret);
    } else {
      return Err(OutputFailed);
    }
  }

  /**
   * Accepts exactly the inputs that pass the size checks and declare a non-zero modulus length; the
   * output then has that length and the value base^exponent mod modulus.
   */
  method Execute(input: seq<Byte>) returns (r: Result<seq<Byte>, ModexpError>)
    ensures r == Outcome(input)
    ensures r.Ok? ==> |r.value| == LengthField(input, 2) && FromBytes(r.value) == Answer(Parse(input))
  {
    if |input| < 96 {
      return Err(TooShort);
    }
    var buf := new Byte[32](_ => 0);
    CopyInto(buf, input[0..32]);
    var baseLen := FromBytes(buf[..]);
    if baseLen > MAX_SIZE {
      return Err(BaseTooLong);
    }
    CopyInto(buf, input[32..64]);
    var expLen := FromBytes(buf[..]);
    if expLen > MAX_SIZE {
      return Err(ExponentTooLong);
    }
    CopyInto(buf, input[64..96]);
    var modLen := FromBytes(buf[..]);
    if modLen > MAX_SIZE {
      return Err(ModulusTooLong);
    }
    if |input| < baseLen + expLen + modLen + 96 {
      return Err(Insufficient);
    }
    var result := Compute(input, baseLen, expLen, modLen);
    AnswerFits(input);
    BigEndianValue(result, modLen);
    r := Encode(result, modLen);
  }
}
