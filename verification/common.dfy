/** Shared vocabulary of the model: optional values, results, the C/C++
    integer limits the harness relies on, and small sequence folds. */
module Common {

  datatype Option<+T> = None | Some(value: T)

  datatype Result<+T, +E> = Ok(value: T) | Err(error: E)

  /** `std::numeric_limits<long>::max()` on the LP64 targets the harness runs on. */
  const LONG_MAX: int := 0x7FFF_FFFF_FFFF_FFFF
  const LONG_MIN: int := -0x8000_0000_0000_0000
  const INT_MAX: int := 0x7FFF_FFFF
  const INT_MIN: int := -0x8000_0000
  /** Number of values of a 64-bit `size_t`. */
  const SIZE_T_MODULUS: int := 0x1_0000_0000_0000_0000

  /** A microsecond count as produced by `duration_cast<microseconds>(..).count()`. */
  type Micros = x: int | 0 <= x <= LONG_MAX

  predicate InLong(v: int) { LONG_MIN <= v <= LONG_MAX }

  predicate InInt(v: int) { INT_MIN <= v <= INT_MAX }

  /** Conversion of a `long` into a `size_t` slot (two's complement reinterpretation). */
  function ToSizeT(v: int): (r: int)
    requires InLong(v)
    ensures 0 <= r < SIZE_T_MODULUS
    ensures v >= 0 ==> r == v
    ensures v < 0 ==> r == v + SIZE_T_MODULUS
  {
    ModOfSmall(v, SIZE_T_MODULUS);
    v % SIZE_T_MODULUS
  }

  /** A `long` result wrapped around in two's complement, as the signed
      overflow of the harness's `long` arithmetic behaves on its targets. */
  function WrapLong(v: int): (w: int)
    ensures InLong(w)
    ensures InLong(v) ==> w == v
  {
    var m := (v - LONG_MIN) % SIZE_T_MODULUS;
    if InLong(v) then
      DivModUnique(v - LONG_MIN, SIZE_T_MODULUS, 0, v - LONG_MIN);
      LONG_MIN + m
    else LONG_MIN + m
  }

  /** Wrapping ignores whole multiples of 2^64. */
  lemma WrapLongShift(v: int, k: int)
    ensures WrapLong(v + k * SIZE_T_MODULUS) == WrapLong(v)
  {
    var a := v - LONG_MIN;
    var q, r := a / SIZE_T_MODULUS, a % SIZE_T_MODULUS;
    assert a + k * SIZE_T_MODULUS == (q + k) * SIZE_T_MODULUS + r;
    DivModUnique(a + k * SIZE_T_MODULUS, SIZE_T_MODULUS, q + k, r);
  }

  /** Wrapping an intermediate result does not change the wrapped total. */
  lemma WrapLongAdd(a: int, b: int)
    ensures WrapLong(WrapLong(a) + b) == WrapLong(a + b)
  {
    var q := (a - LONG_MIN) / SIZE_T_MODULUS;
    assert WrapLong(a) == a - q * SIZE_T_MODULUS;
    WrapLongShift(a + b, -q);
  }

  function Min(a: int, b: int): int { if a <= b then a else b }

  /** `i % n`: the slot item `i` takes when items are dealt round-robin over
      `n` slots, as commands are dealt to queues and ranks to devices. */
  function RoundRobin(i: nat, n: nat): (k: nat)
    requires n > 0
    ensures k < n
  {
    i % n
  }

  /** Left-to-right sum, the order `std::accumulate` uses. */
  function Sum(s: seq<int>): int
  {
    if |s| == 0 then 0 else Sum(s[..|s| - 1]) + s[|s| - 1]
  }

  lemma SumAppend(s: seq<int>, x: int)
    ensures Sum(s + [x]) == Sum(s) + x
  {
    assert (s + [x])[..|s + [x]| - 1] == s;
  }

  /** Map lookup with the default an `unordered_map::operator[]` inserts for a missing key. */
  function Lookup(m: map<string, int>, k: string): int
  {
    if k in m then m[k] else 0
  }

  /** Euclidean division is determined by any quotient/remainder pair. */
  lemma DivModUnique(m: int, n: int, q: int, r: int)
    requires n > 0 && 0 <= r < n && m == q * n + r
    ensures m / n == q && m % n == r
  {
    var q0 := m / n;
    var r0 := m % n;
    assert m == q0 * n + r0;
    assert (q - q0) * n == r0 - r;
    if q != q0 {
      var d := if q > q0 then q - q0 else q0 - q;
      MulAtLeast(d, n);
    }
  }

  /** Reduction of a value within one modulus of zero. */
  lemma ModOfSmall(x: int, m: int)
    requires m > 0 && -m <= x < m
    ensures x % m == (if x >= 0 then x else x + m)
  {
    if x >= 0 {
      DivModUnique(x, m, 0, x);
    } else {
      DivModUnique(x, m, -1, x + m);
    }
  }

  lemma MulAtLeast(d: int, n: int)
    requires d >= 1 && n > 0
    ensures d * n >= n
  {
    assert d * n == (d - 1) * n + n;
  }

  /** A non-empty sequence is its head followed by its tail. */
  lemma HeadTail<T>(s: seq<T>)
    requires |s| > 0
    ensures s == [s[0]] + s[1..]
  {
  }

  /** A one-element sequence is the display of its element. */
  lemma Singleton<T>(s: seq<T>)
    requires |s| == 1
    ensures s == [s[0]]
  {
  }

  /** Taking the whole of a sequence gives the sequence. */
  lemma TakeAll<T>(s: seq<T>)
    ensures s[..|s|] == s
  {
  }

  /** The head and tail of a sequence built by prepending. */
  lemma ConsParts<T>(x: T, s: seq<T>)
    ensures ([x] + s)[0] == x && ([x] + s)[1..] == s
  {
  }

  /** A suffix is its first element followed by the rest. */
  lemma SliceCons<T>(s: seq<T>, i: nat)
    requires i < |s|
    ensures s[i..] == [s[i]] + s[i + 1..]
  {
  }

  /** Appending one element and then a sequence is appending their join. */
  lemma AppendCons<T>(a: seq<T>, x: T, b: seq<T>)
    ensures a + [x] + b == a + ([x] + b)
  {
  }

  lemma AppendNil<T>(a: seq<T>)
    ensures a + [] == a
  {
  }

  lemma AppendNilLeft<T>(a: seq<T>)
    ensures [] + a == a
  {
  }
}
