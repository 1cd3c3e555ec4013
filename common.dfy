/** Shared definitions of the decoder model: bytes, the failure-carrying result
    type standing for every `throw` of the decoder, powers of two, and the
    32-bit integer semantics of JavaScript's bit operators. */
module Common {

  /** One byte of an ArrayBuffer. */
  type Byte = x: int | 0 <= x < 256

  /** One element of a Uint16Array. */
  type U16 = x: int | 0 <= x < 0x1_0000

  datatype Option<+T> = None | Some(value: T)

  /** Which of the two loaders is modelled where they differ: the plain
      JavaScript parser of the viewer or its TypeScript port. */
  datatype Variant = Parser | Port

  /** The exceptions the decoder and the image manager raise or run into. */
  datatype Error =
    | NotOpenExr              // magic number mismatch
    | UnsupportedFile         // non-zero version-flag byte
    | RangeError              // DataView read past the end, negative typed-array length
    | TypeError               // property read on `undefined`, call of a null getter
    | Diverges                // the source loops forever here
    | OutOfFuel               // the model's iteration bound ran out
    | MalformedHeader         // a header attribute the decoder reads has an unexpected type
    | UnsupportedCompression
    | UnsupportedPixelType
    | UnsupportedOutputType
    | HalfFloatNotSupported
    | HufEncSize
    | HufUnpackEncTable
    | HufUncompress
    | InvalidTableEntry
    | HufDecode
    | PizBitmapSize
    | DwaNotImplemented
    | InflateFailed
    | DwaFailed
    | InvalidImageIndex       // an image index outside the cache
    | NoChannelGroups         // an image without channel groups

  datatype Result<+T> = Ok(value: T) | Err(error: Error) {
    predicate IsFailure() { Err? }
    function PropagateFailure<U>(): Result<U>
      requires Err?
    {
      Err(error)
    }
    function Extract(): T
      requires Ok?
    {
      value
    }
  }

  /** n copies of v: a run of the rlc symbol, or a run-length chunk. */
  function Copies<T>(v: T, n: nat): (r: seq<T>)
    ensures |r| == n && forall i :: 0 <= i < n ==> r[i] == v
  {
    seq(n, _ => v)
  }

  function Pow2(n: nat): (r: nat)
    ensures r >= 1
  {
    if n == 0 then 1 else 2 * Pow2(n - 1)
  }

  lemma {:induction false} Pow2Add(a: nat, b: nat)
    ensures Pow2(a + b) == Pow2(a) * Pow2(b)
  {
    if a > 0 {
      Pow2Add(a - 1, b);
    }
  }

  lemma {:induction false} Pow2Monotone(a: nat, b: nat)
    requires a <= b
    ensures Pow2(a) <= Pow2(b)
  {
    if a < b {
      Pow2Monotone(a, b - 1);
    }
  }

  lemma Pow2Thirty()
    ensures Pow2(30) == 0x4000_0000
  {
    assert Pow2(10) == 1024;
    Pow2Add(10, 10);
    Pow2Add(20, 10);
  }

  const TWO32: int := 0x1_0000_0000
  const TWO31: int := 0x8000_0000

  /** ECMAScript ToInt32: wrap to the signed 32-bit range. */
  function ToInt32(x: int): (r: int)
    ensures -TWO31 <= r < TWO31
    ensures (r - x) % TWO32 == 0
  {
    var m := x % TWO32;
    if m >= TWO31 then m - TWO32 else m
  }

  /** A value already in the signed 32-bit range is its own ToInt32. */
  lemma Int32Id(x: int)
    requires -TWO31 <= x < TWO31
    ensures ToInt32(x) == x
  {
  }

  /** ECMAScript ToUint32: wrap to the unsigned 32-bit range. */
  function ToUint32(x: int): (r: int)
    ensures 0 <= r < TWO32
    ensures (r - x) % TWO32 == 0
  {
    x % TWO32
  }

  /** `x >> k`: arithmetic shift; the shift count is taken modulo 32. */
  function Sar(x: int, k: int): int
  {
    ToInt32(x) / Pow2(k % 32)
  }

  /** `x << k`: the result is wrapped to 32 bits; the count is taken modulo 32. */
  function Shl(x: int, k: int): int
  {
    ToInt32(ToInt32(x) * Pow2(k % 32))
  }

  /** `x & (2^k - 1)` for 0 <= k <= 31: the low k bits of the 32-bit value.
      `x & ((1 << l) - 1)` is LowBits(x, l % 32), since `1 << l` shifts by l % 32
      and `(1 << 31) - 1` wraps to 2^31 - 1. */
  function LowBits(x: int, k: nat): (r: int)
    ensures 0 <= r < Pow2(k)
  {
    ToInt32(x) % Pow2(k)
  }

  /** `(c << 8) | b` for a byte b: the shifted value has eight zero low bits,
      so the bitwise or adds b. */
  function ShiftInByte(c: int, b: Byte): (r: int)
    ensures -TWO31 <= r < TWO31
  {
    ShlByteLowZero(c);
    Shl(c, 8) + b
  }

  lemma ShlByteLowZero(c: int)
    ensures Shl(c, 8) % 256 == 0 && -TWO31 <= Shl(c, 8) <= TWO31 - 256
  {
    var x := ToInt32(c);
    assert 8 % 32 == 8;
    assert Pow2(8) == 256;
    Int32Low(x * 256, 8);
  }

  /** The little-endian value of bytes s[i..i+n]. */
  function LittleEndian(s: seq<Byte>, i: nat, n: nat): (r: nat)
    requires i + n <= |s|
    ensures r < Pow2(8 * n)
    decreases n
  {
    if n == 0 then 0
    else
      var rest := LittleEndian(s, i + 1, n - 1);
      Pow2Add(8, 8 * (n - 1));
      assert Pow2(8) == 256;
      s[i] + 256 * rest
  }

  /** The little-endian bytes of a value of n bytes, as a typed array stores it. */
  function LeBytes(v: int, n: nat): (r: seq<Byte>)
    ensures |r| == n
    decreases n
  {
    if n == 0 then [] else [v % 256] + LeBytes(v / 256, n - 1)
  }

  lemma {:induction false} LeBytesRoundTrip(v: nat, n: nat)
    requires v < Pow2(8 * n)
    ensures LittleEndian(LeBytes(v, n), 0, n) == v
    decreases n
  {
    if n > 0 {
      Pow2Add(8, 8 * (n - 1));
      assert Pow2(8) == 256;
      LeBytesRoundTrip(v / 256, n - 1);
      LittleEndianShift(LeBytes(v, n), 1, n - 1);
      assert LeBytes(v, n)[1..] == LeBytes(v / 256, n - 1);
    }
  }

  lemma {:induction false} LittleEndianShift(s: seq<Byte>, i: nat, n: nat)
    requires 1 <= i && i + n <= |s|
    ensures LittleEndian(s, i, n) == LittleEndian(s[1..], i - 1, n)
    decreases n
  {
    if n > 0 {
      LittleEndianShift(s, i + 1, n - 1);
    }
  }

  /** The elements of ws, each as n little-endian bytes: the bytes a DataView
      sees over a Uint16Array (n = 2) or Uint32Array (n = 4). */
  function Flatten(ws: seq<int>, n: nat): (r: seq<Byte>)
    ensures |r| == n * |ws|
  {
    if ws == [] then [] else LeBytes(ws[0], n) + Flatten(ws[1..], n)
  }

  /** Flattening splits around any word: the words before it, its own bytes, the words after it. */
  lemma {:induction false} FlattenSplit(ws: seq<int>, n: nat, k: nat)
    requires k < |ws|
    ensures Flatten(ws, n) == Flatten(ws[..k], n) + LeBytes(ws[k], n) + Flatten(ws[k + 1..], n)
  {
    if k > 0 {
      var tail := ws[1..];
      FlattenSplit(tail, n, k - 1);
      assert tail[..k - 1] == ws[1..k] && tail[k - 1] == ws[k] && tail[k..] == ws[k + 1..];
      var front := ws[..k];
      assert front[0] == ws[0] && front[1..] == ws[1..k];
      assert Flatten(front, n) == LeBytes(ws[0], n) + Flatten(ws[1..k], n);
    } else {
      assert ws[..0] == [];
      assert ws[1..] == ws[k + 1..];
    }
  }

  /** Word k of a flattened sequence occupies bytes n*k to n*k + n. */
  lemma FlattenAt(ws: seq<int>, n: nat, k: nat)
    requires k < |ws|
    ensures n * k + n <= n * |ws|
    ensures Flatten(ws, n)[n * k .. n * k + n] == LeBytes(ws[k], n)
  {
    FlattenSplit(ws, n, k);
    var a := Flatten(ws[..k], n);
    var b := LeBytes(ws[k], n);
    var c := Flatten(ws[k + 1..], n);
    assert |a| == n * k;
    assert |c| == n * (|ws| - k - 1);
    MulSplit(n, k, |ws| - k - 1);
    assert (a + b + c)[|a| .. |a| + n] == b;
  }

  lemma MulSplit(n: nat, k: nat, m: nat)
    ensures n * k + n + n * m == n * (k + 1 + m)
  {
  }

  // ------------------------------------------------ division and remainder

  lemma {:induction false} MulStep(d: int, t: nat)
    requires d > 0
    ensures d * t >= 0 && (t > 0 ==> d * t >= d)
    decreases t
  {
    if t > 0 {
      MulStep(d, t - 1);
      assert d * t == d * (t - 1) + d;
    }
  }

  /** Multiplying by a positive number keeps the order. */
  lemma MulLe(d: int, u: int, v: int)
    requires d > 0
    ensures u >= v ==> d * u >= d * v
    ensures u > v ==> d * u >= d * v + d
  {
    if u >= v {
      MulStep(d, u - v);
      assert d * u == d * v + d * (u - v);
    }
  }

  /** Division with remainder has one answer. */
  lemma ModUnique(x: int, d: int, q: int, r: int)
    requires d > 0 && x == d * q + r && 0 <= r < d
    ensures x / d == q && x % d == r
  {
    var q2 := x / d;
    var r2 := x % d;
    assert x == d * q2 + r2;
    MulLe(d, q, q2);
    MulLe(d, q2, q);
  }

  /** Adding a multiple of d leaves the remainder by d alone. */
  lemma ModShift(x: int, d: int, m: int)
    requires d > 0
    ensures (x + d * m) % d == x % d
  {
    assert x == d * (x / d) + x % d;
    assert x + d * m == d * (x / d + m) + x % d;
    ModUnique(x + d * m, d, x / d + m, x % d);
  }

  /** Two-digit numbers in the mixed radix (A, B): x = (q * B + r2) * A + r1. */
  lemma Digits(x: int, A: int, B: int, y: int, q: int, r1: int, r2: int)
    requires A > 0 && B > 0
    requires x == A * y + r1 && y == B * q + r2
    requires 0 <= r1 < A && 0 <= r2 < B
    ensures A * B > 0 && x == (A * B) * q + (A * r2 + r1) && 0 <= A * r2 + r1 < A * B
  {
    MulLe(A, B, 1);
    assert A * y == A * (B * q) + A * r2;
    assert A * (B * q) == (A * B) * q;
    MulLe(A, B - 1, r2);
    MulLe(A, r2, 0);
    assert A * (B - 1) == A * B - A;
  }

  /** (x / A) % B are the digits of x between A and A * B. */
  lemma DivThenMod(x: int, A: int, B: int)
    requires A > 0 && B > 0
    ensures A * B > 0 && (x / A) % B == (x % (A * B)) / A
  {
    var y := x / A;
    Digits(x, A, B, y, y / B, x % A, y % B);
    ModUnique(x, A * B, y / B, A * (y % B) + x % A);
    LowHigh(y % B, x % A, A);
  }

  /** The remainder by A of the remainder by A * B is the remainder by A. */
  lemma ModOfMod(x: int, A: int, B: int)
    requires A > 0 && B > 0
    ensures A * B > 0 && (x % (A * B)) % A == x % A
  {
    var y := x / A;
    Digits(x, A, B, y, y / B, x % A, y % B);
    ModUnique(x, A * B, y / B, A * (y % B) + x % A);
    LowHigh(y % B, x % A, A);
  }

  /** Dividing by A and then by B is dividing by A * B. */
  lemma DivDiv(x: int, A: int, B: int)
    requires A > 0 && B > 0
    ensures A * B > 0 && x / (A * B) == x / A / B
  {
    var y := x / A;
    Digits(x, A, B, y, y / B, x % A, y % B);
    ModUnique(x, A * B, y / B, A * (y % B) + x % A);
  }

  /** A number made of a high part and a low part below m splits back. */
  lemma LowHigh(hi: int, lo: int, m: int)
    requires m > 0 && 0 <= lo < m
    ensures (hi * m + lo) / m == hi && (hi * m + lo) % m == lo
  {
    ModUnique(hi * m + lo, m, hi, lo);
  }

  lemma Pow2ThirtyTwo()
    ensures Pow2(32) == TWO32
  {
    Pow2Thirty();
  }

  /** Wrapping to 32 bits does not change the low n <= 32 bits. */
  lemma Int32Low(y: int, n: nat)
    requires n <= 32
    ensures ToInt32(y) % Pow2(n) == y % Pow2(n)
  {
    Pow2Add(n, 32 - n);
    Pow2ThirtyTwo();
    var P, Q := Pow2(n), Pow2(32 - n);
    assert P * Q == TWO32;
    var m := y % TWO32;
    ModOfMod(y, P, Q);
    assert m % P == y % P;
    if m >= TWO31 {
      assert P * (-Q) == -TWO32;
      ModShift(m, P, -Q);
    }
  }

  // ------------------------------------------------ runs laid end to end

  /** The runs one after the other. */
  function Concat(runs: seq<seq<int>>): seq<int>
  {
    if |runs| == 0 then [] else runs[0] + Concat(runs[1..])
  }

  /** Every run has w samples. */
  predicate Uniform(runs: seq<seq<int>>, w: nat)
  {
    forall i :: 0 <= i < |runs| ==> |runs[i]| == w
  }

  /** k * m as repeated addition, the form an induction over runs follows. */
  function Times(k: nat, m: int): (r: int)
    ensures m >= 0 ==> r >= 0
  {
    if k == 0 then 0 else Times(k - 1, m) + m
  }

  lemma MulSucc(a: int, b: int)
    ensures (a + 1) * b == a * b + b
  {
  }

  lemma MulAtLeast(a: int, b: nat)
    requires a >= 1
    ensures a * b >= b
  {
  }

  lemma {:induction false} TimesIsProduct(k: nat, m: int)
    ensures Times(k, m) == k * m
  {
    if k > 0 {
      TimesIsProduct(k - 1, m);
      MulSucc(k - 1, m);
    }
  }

  lemma UniformTail(runs: seq<seq<int>>, w: nat)
    requires Uniform(runs, w) && |runs| > 0
    ensures Uniform(runs[1..], w)
  {
    forall i | 0 <= i < |runs| - 1
      ensures |runs[1..][i]| == w
    {
      assert runs[1..][i] == runs[i + 1];
    }
  }

  lemma {:induction false} ConcatLength(runs: seq<seq<int>>, w: nat)
    requires Uniform(runs, w)
    ensures |Concat(runs)| == Times(|runs|, w)
    decreases |runs|
  {
    if |runs| > 0 {
      UniformTail(runs, w);
      ConcatLength(runs[1..], w);
    }
  }

  /** Laying out two lists of runs is laying out each. */
  lemma {:induction false} ConcatAppend(xs: seq<seq<int>>, ys: seq<seq<int>>)
    ensures Concat(xs + ys) == Concat(xs) + Concat(ys)
    decreases |xs|
  {
    if |xs| > 0 {
      ConcatAppend(xs[1..], ys);
      assert (xs + ys)[1..] == xs[1..] + ys;
    } else {
      assert xs + ys == ys;
    }
  }

  /** More copies of a non-negative m add up to more. */
  lemma {:induction false} TimesMono(k: nat, l: nat, m: int)
    requires k <= l && m >= 0
    ensures Times(k, m) <= Times(l, m)
    decreases l
  {
    if k < l {
      TimesMono(k, l - 1, m);
    }
  }

  /** Element k * w + j of equal-length pieces laid end to end is element j
      of piece k. */
  lemma {:induction false} ConcatAt(runs: seq<seq<int>>, w: nat, k: nat, j: nat)
    requires Uniform(runs, w) && k < |runs| && j < w
    ensures Times(k, w) + j < |Concat(runs)|
    ensures Concat(runs)[Times(k, w) + j] == runs[k][j]
    decreases k
  {
    var tail := Concat(runs[1..]);
    assert Concat(runs) == runs[0] + tail;
    assert |runs[0]| == w;
    if k > 0 {
      UniformTail(runs, w);
      ConcatAt(runs[1..], w, k - 1, j);
      assert runs[1..][k - 1] == runs[k];
      assert (runs[0] + tail)[w + (Times(k - 1, w) + j)] == tail[Times(k - 1, w) + j];
    }
  }

  /** n zeros: a fresh typed array. */
  function Zeros(n: nat): (r: seq<int>)
    ensures |r| == n && forall k :: 0 <= k < n ==> r[k] == 0
  {
    seq(n, _ => 0)
  }

  /** u with x written from index j on. */
  function Overwrite(u: seq<int>, j: int, x: seq<int>): (r: seq<int>)
    requires 0 <= j && j + |x| <= |u|
    ensures |r| == |u|
    ensures forall k :: 0 <= k < |u| ==> r[k] == if j <= k < j + |x| then x[k - j] else u[k]
  {
    u[..j] + x + u[j + |x|..]
  }
}
