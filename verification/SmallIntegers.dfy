/** SmallInteger arithmetic: 63-bit values computed in 64-bit words, against the mathematical operations. */
module SmallIntegers {
  import opened Options
  import opened ObjectMemory
  import opened ObjectFormat
  import opened FailureCodes

  const I63: int := 0x8000_0000_0000_0000

  datatype Op = Add | Sub | Mul | Div | Mod | Quo | BitAnd | BitOr | BitXor | BitShift

  datatype Outcome = Answer(value: Value) | Fail(code: nat)

  // ---------- 64-bit machine arithmetic ----------

  function Checked(x: int): Option<int> {
    if -I63 <= x < I63 then Some(x) else None
  }

  /** The signed reading of a 64-bit word. */
  function Wrapped(x: int): int {
    (x + I63) % W64 - I63
  }

  /** Division truncating toward zero, and its remainder. */
  function TruncDiv(x: int, y: int): int
    requires y != 0
  {
    if x >= 0 then x / y else -(-x / y)
  }

  function TruncRem(x: int, y: int): int
    requires y != 0
  {
    x - TruncDiv(x, y) * y
  }

  function FlooredDivmod(x: int, y: int): (int, int)
    requires y != 0
  {
    var q, r := TruncDiv(x, y), TruncRem(x, y);
    if r != 0 && ((r < 0) != (y < 0)) then (q - 1, r + y) else (q, r)
  }

  function Pow2(n: nat): (r: int)
    ensures r > 0
  {
    if n == 0 then 1 else 2 * Pow2(n - 1)
  }

  /** The bit operations on one bit. */
  function OnBits(op: Op, a: int, b: int): (r: int)
    requires 0 <= a <= 1 && 0 <= b <= 1
    ensures 0 <= r <= 1
  {
    if op == BitAnd then a * b else if op == BitOr then a + b - a * b else (a + b) % 2
  }

  /** A bit operation on words of `n` bits and a sign bit. */
  function Bitwise(op: Op, a: int, b: int, n: nat): int
    decreases n
  {
    if n == 0 then -OnBits(op, a % 2, b % 2) else OnBits(op, a % 2, b % 2) + 2 * Bitwise(op, a / 2, b / 2, n - 1)
  }

  function ShiftLeft(a: int, b: nat): Option<int>
    requires b < 63
  {
    var shifted := Wrapped(a * Pow2(b));
    if shifted / Pow2(b) == a then Some(shifted) else None
  }

  function Binary(op: Op, a: int, b: int): Option<int> {
    match op
    case Add => Checked(a + b)
    case Sub => Checked(a - b)
    case Mul => Checked(a * b)
    case Div => if b == 0 then None else Some(FlooredDivmod(a, b).0)
    case Mod => if b == 0 then None else Some(FlooredDivmod(a, b).1)
    case Quo => if b == 0 then None else Some(TruncDiv(a, b))
    case BitAnd => Some(Bitwise(op, a, b, 63))
    case BitOr => Some(Bitwise(op, a, b, 63))
    case BitXor => Some(Bitwise(op, a, b, 63))
    case BitShift =>
      if b >= 0 then if b >= 63 then None else ShiftLeft(a, b)
      else if -b >= 63 then Some(if a < 0 then -1 else 0)
      else Some(a / Pow2(-b))
  }

  /** An integer primitive on two values. */
  function PrimIntBinary(op: Op, x: Value, y: Value): Outcome {
    if !x.Int? || !y.Int? then Fail(FAIL_WRONG_TYPE)
    else
      match Binary(op, x.n, y.n)
      case Some(v) => if ValueOk(Int(v)) then Answer(Int(v)) else Fail(FAIL_OVERFLOW)
      case None => Fail(FAIL_OVERFLOW)
  }

  /** The arithmetic opcodes: the value put in the destination slot, or none when the send is taken. */
  function Opcode(op: Op, x: Value, y: Value): Option<Value>
    requires op.Add? || op.Sub? || op.Mul? || op.Div? || op.Mod?
  {
    if !x.Int? || !y.Int? then None
    else if op.Div? || op.Mod? then
      if y.n == 0 then None
      else
        var (q, r) := FlooredDivmod(x.n, y.n);
        var res := if op.Div? then q else r;
        if ValueOk(Int(res)) then Some(Int(res)) else None
    else
      match Checked(if op.Add? then x.n + y.n else if op.Sub? then x.n - y.n else x.n * y.n)
      case Some(v) => if ValueOk(Int(v)) then Some(Int(v)) else None
      case None => None
  }

  // ---------- mathematical results ----------

  /** Bit `k` of an integer, in two's complement without end. */
  function Bit(a: int, k: nat): (r: int)
    ensures 0 <= r <= 1
    decreases k
  {
    if k == 0 then a % 2 else Bit(a / 2, k - 1)
  }

  /** `q` is a / b rounded down. */
  predicate Floors(a: int, b: int, q: int) {
    if b > 0 then q * b <= a < (q + 1) * b else (q + 1) * b < a <= q * b
  }

  /** `r` is the mathematical result of the operation. */
  ghost predicate IsResult(op: Op, a: int, b: int, r: int) {
    match op
    case Add => r == a + b
    case Sub => r == a - b
    case Mul => r == a * b
    case Div => b != 0 && Floors(a, b, r)
    case Mod => b != 0 && exists q :: Floors(a, b, q) && r == a - q * b
    case Quo => b != 0 && (if (a < 0) == (b < 0) then Floors(Abs(a), Abs(b), r) else Floors(Abs(a), Abs(b), -r))
    case BitAnd => forall k: nat :: Bit(r, k) == OnBits(op, Bit(a, k), Bit(b, k))
    case BitOr => forall k: nat :: Bit(r, k) == OnBits(op, Bit(a, k), Bit(b, k))
    case BitXor => forall k: nat :: Bit(r, k) == OnBits(op, Bit(a, k), Bit(b, k))
    case BitShift => if b >= 0 then r == a * Pow2(b) else Floors(a, Pow2(-b), r)
  }

  function Abs(a: int): nat {
    if a < 0 then -a else a
  }

  /** When the primitive declines: a zero divisor, a left shift of 63 or more, or a result outside 63 bits. */
  ghost predicate Declines(op: Op, a: int, b: int) {
    || ((op.Div? || op.Mod? || op.Quo?) && b == 0)
    || (op.BitShift? && b >= 63)
    || exists r :: IsResult(op, a, b, r) && !ValueOk(Int(r))
  }

  // ---------- division ----------

  lemma ProductLe(x: int, y: int, b: int)
    requires x <= y && b > 0
    ensures x * b <= y * b
  {
  }

  lemma FloorsOnce(a: int, b: int, q: int, r: int)
    requires b != 0 && Floors(a, b, q) && Floors(a, b, r)
    ensures q == r
  {
    if q < r {
      if b > 0 { ProductLe(q + 1, r, b); } else { ProductLe(q + 1, r, -b); }
    } else if r < q {
      if b > 0 { ProductLe(r + 1, q, b); } else { ProductLe(r + 1, q, -b); }
    }
  }

  lemma TruncFloors(a: int, b: int)
    requires b != 0
    ensures if (a < 0) == (b < 0) then Floors(Abs(a), Abs(b), TruncDiv(a, b)) else Floors(Abs(a), Abs(b), -TruncDiv(a, b))
    ensures TruncDiv(a, b) * b + TruncRem(a, b) == a && Abs(TruncRem(a, b)) < Abs(b)
    ensures TruncRem(a, b) == 0 || (TruncRem(a, b) < 0) == (a < 0)
  {
    var x: int, y: int := Abs(a), Abs(b);
    TruncSigns(a, b);
    hide TruncDiv;
    var q := x / y;
    DivFloors(x, y);
    assert q * y <= x < q * y + y;
    SignedProduct(q, y);
  }

  lemma SignedProduct(q: int, y: int)
    ensures (-q) * y == -(q * y) && q * (-y) == -(q * y) && (-q) * (-y) == q * y && (q + 1) * y == q * y + y
  {
  }

  /** Truncating division divides the magnitudes. */
  lemma TruncSigns(a: int, b: int)
    requires b != 0
    ensures TruncDiv(a, b) == if (a < 0) == (b < 0) then Abs(a) / Abs(b) else -(Abs(a) / Abs(b))
  {
    NegativeDivisor(Abs(a), Abs(b));
  }

  lemma NegativeDivisor(x: nat, y: int)
    requires y > 0
    ensures x / (0 - y) == -(x / y)
  {
  }

  lemma FlooredIsFloor(a: int, b: int)
    requires b != 0
    ensures Floors(a, b, FlooredDivmod(a, b).0) && FlooredDivmod(a, b).1 == a - FlooredDivmod(a, b).0 * b
  {
    TruncFloors(a, b);
    hide TruncDiv;
  }

  // ---------- bits ----------

  lemma {:induction false} BitwiseBits(op: Op, a: int, b: int, n: nat, k: nat)
    requires -Pow2(n) <= a < Pow2(n) && -Pow2(n) <= b < Pow2(n)
    ensures Bit(Bitwise(op, a, b, n), k) == OnBits(op, Bit(a, k), Bit(b, k))
    decreases n, k
  {
    hide OnBits;
    var r, low := Bitwise(op, a, b, n), OnBits(op, a % 2, b % 2);
    if n == 0 {
      if k > 0 {
        BitwiseBits(op, a, b, 0, k - 1);
      }
    } else {
      assert r % 2 == low && r / 2 == Bitwise(op, a / 2, b / 2, n - 1);
      if k > 0 {
        BitwiseBits(op, a / 2, b / 2, n - 1, k - 1);
      }
    }
  }

  /** A bit operation never leaves the width of its operands. */
  lemma {:induction false} BitwiseFits(op: Op, a: int, b: int, n: nat, m: nat)
    requires m <= n && -Pow2(m) <= a < Pow2(m) && -Pow2(m) <= b < Pow2(m)
    ensures -Pow2(m) <= Bitwise(op, a, b, n) < Pow2(m)
    decreases n
  {
    hide OnBits;
    if n > 0 {
      if m == 0 {
        BitwiseFits(op, a / 2, b / 2, n - 1, 0);
        SignBits(op, a, b, n - 1);
      } else {
        BitwiseFits(op, a / 2, b / 2, n - 1, m - 1);
      }
    }
  }

  lemma {:induction false} SignBits(op: Op, a: int, b: int, n: nat)
    requires -1 <= a <= 0 && -1 <= b <= 0
    ensures Bitwise(op, a, b, n) == -OnBits(op, a % 2, b % 2)
  {
    hide OnBits;
    if n > 0 {
      SignBits(op, a, b, n - 1);
    }
  }

  /** Integers with the same bits are equal. */
  lemma {:induction false} SameBits(a: int, b: int)
    requires forall k: nat :: Bit(a, k) == Bit(b, k)
    ensures a == b
    decreases Abs(a) + Abs(b)
  {
    assert Bit(a, 0) == Bit(b, 0);
    if -1 <= a <= 0 && -1 <= b <= 0 {
    } else {
      forall k: nat
        ensures Bit(a / 2, k) == Bit(b / 2, k)
      {
        assert Bit(a, k + 1) == Bit(b, k + 1);
      }
      SameBits(a / 2, b / 2);
    }
  }

  // ---------- shifts ----------

  lemma {:induction false} PowAdd(m: nat, n: nat)
    ensures Pow2(m + n) == Pow2(m) * Pow2(n)
  {
    if m > 0 {
      PowAdd(m - 1, n);
      assert 2 * Pow2(m - 1) * Pow2(n) == 2 * (Pow2(m - 1) * Pow2(n));
    }
  }

  lemma Powers()
    ensures Pow2(62) == SMALLINT_MAX + 1 && Pow2(63) == I63 && Pow2(64) == W64
  {
    hide Pow2;
    SmallPowers();
    PowAdd(8, 8);
    PowAdd(16, 16);
    PowAdd(32, 32);
    PowAdd(1, 63);
    PowAdd(1, 62);
  }

  lemma SmallPowers()
    ensures Pow2(1) == 2 && Pow2(8) == 0x100
  {
    assert Pow2(4) == 0x10;
  }

  lemma DivFloors(a: int, p: int)
    requires p > 0
    ensures Floors(a, p, a / p)
  {
    assert a == a / p * p + a % p;
  }

  /** Shifting back finds the operand exactly when no bit was lost. */
  lemma ShiftLeftExact(a: int, b: nat)
    requires b < 63
    ensures ShiftLeft(a, b) == Checked(a * Pow2(b))
  {
    hide Pow2;
    var p, x := Pow2(b), a * Pow2(b);
    var s := Wrapped(x);
    var k := (x + I63) / W64;
    assert x + I63 == k * W64 + (x + I63) % W64;
    assert s == x - k * W64;
    Powers();
    PowAdd(64 - b, b);
    var h := Pow2(64 - b);
    Factor(a, k, h, p);
    ExactQuotient(a - k * h, p);
    assert s / p == a - k * h;
    NoWrap(k, h);
  }

  lemma Factor(a: int, k: int, h: int, p: int)
    ensures a * p - k * (h * p) == (a - k * h) * p
  {
  }

  lemma ExactQuotient(c: int, p: int)
    requires p > 0
    ensures c * p / p == c
  {
    DivFloors(c * p, p);
    FloorsOnce(c * p, p, c * p / p, c);
  }

  lemma NoWrap(k: int, h: int)
    requires h > 0
    ensures k * h == 0 <==> k == 0
  {
  }

  // ---------- exactness ----------

  lemma BitsExact(op: Op, a: int, b: int)
    requires op.BitAnd? || op.BitOr? || op.BitXor?
    requires ValueOk(Int(a)) && ValueOk(Int(b))
    ensures IsResult(op, a, b, Bitwise(op, a, b, 63)) && ValueOk(Int(Bitwise(op, a, b, 63)))
  {
    hide OnBits, Bit, Bitwise, Pow2;
    Powers();
    BitwiseFits(op, a, b, 63, 62);
    forall k: nat
      ensures Bit(Bitwise(op, a, b, 63), k) == OnBits(op, Bit(a, k), Bit(b, k))
    {
      BitwiseBits(op, a, b, 63, k);
    }
  }

  lemma ShiftExact(a: int, b: int)
    requires ValueOk(Int(a)) && b < 63
    ensures var r := Binary(BitShift, a, b);
      && (r.Some? ==> IsResult(BitShift, a, b, r.value))
      && (r.None? ==> b >= 0 && !(-I63 <= a * Pow2(b) < I63))
  {
    hide Pow2;
    if b >= 0 {
      ShiftLeftExact(a, b);
    } else if -b >= 63 {
      Powers();
      PowAdd(62, -b - 62);
      assert Pow2(-b) >= Pow2(62);
    } else {
      DivFloors(a, Pow2(-b));
    }
  }

  /** The result is unique. */
  lemma ResultOnce(op: Op, a: int, b: int, r: int, r': int)
    requires IsResult(op, a, b, r) && IsResult(op, a, b, r')
    ensures r == r'
  {
    hide Floors, Bit, OnBits, Pow2;
    match op
    case Add | Sub | Mul =>
    case Div => FloorsOnce(a, b, r, r');
    case Mod =>
      var q :| Floors(a, b, q) && r == a - q * b;
      var q' :| Floors(a, b, q') && r' == a - q' * b;
      FloorsOnce(a, b, q, q');
    case Quo =>
      if (a < 0) == (b < 0) { FloorsOnce(Abs(a), Abs(b), r, r'); } else { FloorsOnce(Abs(a), Abs(b), -r, -r'); }
    case BitAnd | BitOr | BitXor => SameBits(r, r');
    case BitShift =>
      if b < 0 { FloorsOnce(a, Pow2(-b), r, r'); }
  }

  /** What the machine arithmetic computes is the mathematical result; it gives up only on a zero divisor, a left shift of 63
      or more, or a result that does not even fit 64 bits. */
  lemma BinaryExact(op: Op, a: int, b: int)
    requires ValueOk(Int(a)) && ValueOk(Int(b))
    ensures var r := Binary(op, a, b);
      && (r.Some? ==> IsResult(op, a, b, r.value))
      && (r.None? ==> Declines(op, a, b))
      && (r.Some? ==> !(op.BitShift? && b >= 63) && !((op.Div? || op.Mod? || op.Quo?) && b == 0))
  {
    hide Floors, Bit, OnBits, Pow2, Bitwise, FlooredDivmod, TruncDiv, ShiftLeft;
    match op
    case Add => assert IsResult(op, a, b, a + b);
    case Sub => assert IsResult(op, a, b, a - b);
    case Mul => assert IsResult(op, a, b, a * b);
    case Div | Mod => if b != 0 { FlooredIsFloor(a, b); }
    case Quo => if b != 0 { TruncFloors(a, b); }
    case BitAnd | BitOr | BitXor => BitsExact(op, a, b);
    case BitShift =>
      if b < 63 {
        ShiftExact(a, b);
        if b >= 0 { assert IsResult(op, a, b, a * Pow2(b)); }
      }
  }

  /** The primitive answers the mathematical result, and fails exactly on a zero divisor, a left shift of 63 or more, or a
      result outside 63 bits. */
  lemma PrimitiveExact(op: Op, x: Value, y: Value)
    requires ValueOk(x) && ValueOk(y)
    ensures PrimIntBinary(op, x, y) == Fail(FAIL_WRONG_TYPE) <==> !x.Int? || !y.Int?
    ensures x.Int? && y.Int? ==>
      && (PrimIntBinary(op, x, y) == Fail(FAIL_OVERFLOW) <==> Declines(op, x.n, y.n))
      && forall v: int :: PrimIntBinary(op, x, y) == Answer(Int(v)) <==>
                          IsResult(op, x.n, y.n, v) && !Declines(op, x.n, y.n)
  {
    if x.Int? && y.Int? {
      hide Binary, IsResult;
      BinaryExact(op, x.n, y.n);
      var r := Binary(op, x.n, y.n);
      forall v: int, w: int | IsResult(op, x.n, y.n, v) && IsResult(op, x.n, y.n, w)
        ensures v == w
      {
        ResultOnce(op, x.n, y.n, v, w);
      }
    }
  }

  /** The opcode takes its fast path exactly when the primitive would answer, with the same value. */
  lemma OpcodeIsPrimitive(op: Op, x: Value, y: Value)
    requires ValueOk(x) && ValueOk(y) && (op.Add? || op.Sub? || op.Mul? || op.Div? || op.Mod?)
    ensures Opcode(op, x, y) == match PrimIntBinary(op, x, y) case Answer(v) => Some(v) case Fail(_) => None
  {
    hide FlooredDivmod;
  }
}
