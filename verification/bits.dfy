/**
 Python's `&` and `|` on unbounded integers (two's complement, floor
 division), and the `stat` mode constants the filesystems combine with them.
 */
module Bits {

  function Pow2(k: nat): (r: nat)
    ensures r >= 1
  {
    if k == 0 then 1 else 2 * Pow2(k - 1)
  }

  function Abs(a: int): nat { if a < 0 then -a else a }

  /** Python's `a & b`. Dafny's `/` and `%` by 2 are floor division and a
      non-negative remainder, which is Python's `>> 1` and `& 1`. */
  function BitAnd(a: int, b: int): int
    decreases Abs(a) + Abs(b)
  {
    if a == 0 || b == 0 then 0
    else if a == -1 then b
    else if b == -1 then a
    else 2 * BitAnd(a / 2, b / 2) + (a % 2) * (b % 2)
  }

  /** Python's `a | b`. */
  function BitOr(a: int, b: int): int
    decreases Abs(a) + Abs(b)
  {
    if a == 0 then b
    else if b == 0 then a
    else if a == -1 || b == -1 then -1
    else 2 * BitOr(a / 2, b / 2) + (if a % 2 == 1 || b % 2 == 1 then 1 else 0)
  }

  const S_IFDIR: int := 0x4000   // 0o040000
  const S_IFREG: int := 0x8000   // 0o100000
  const S_IFLNK: int := 0xA000   // 0o120000
  /** The file-type mask the filesystem keeps on chmod, `0o770000`. */
  const TypeMask: int := 0x3F000

  lemma {:induction false} MulAtLeast(n: int, d: int)
    requires n > 0 && d >= 1
    ensures n * d >= n
    decreases d
  {
    if d > 1 {
      MulAtLeast(n, d - 1);
      assert n * d == n * (d - 1) + n;
    }
  }

  /** Division is determined by any quotient/remainder pair. */
  lemma {:induction false} DivModUnique(a: int, n: int, q: int, r: int)
    requires n > 0 && a == n * q + r && 0 <= r < n
    ensures a / n == q && a % n == r
  {
    var q' := a / n;
    var r' := a % n;
    assert a == n * q' + r';
    assert n * (q - q') == r' - r by {
      assert n * (q - q') == n * q - n * q';
    }
    if q > q' {
      MulAtLeast(n, q - q');
    } else if q < q' {
      assert n * (q' - q) == -(n * (q - q'));
      MulAtLeast(n, q' - q);
    }
  }

  lemma {:induction false} DivTwice(a: int, n: nat)
    requires n >= 1
    ensures (a / 2) / n == a / (2 * n)
  {
    var q := a / (2 * n);
    var r := a % (2 * n);
    assert a == (2 * n) * q + r && 0 <= r < 2 * n;
    DivModUnique(a, 2, n * q + r / 2, r % 2);
    DivModUnique(a / 2, n, q, r / 2);
  }

  lemma {:induction false} MinusOneDiv(n: nat)
    requires n >= 1
    ensures -1 / n == -1 && -1 % n == n - 1
  {
  }

  /** ANDing with `2^k - 1` keeps the low k bits: `a & (2^k-1) == a mod 2^k`. */
  lemma {:induction false} AndLowMask(a: int, k: nat)
    ensures BitAnd(a, Pow2(k) - 1) == a % Pow2(k)
    decreases k
  {
    var m := Pow2(k) - 1;
    if k == 0 {
    } else if a == 0 {
    } else if a == -1 {
      MinusOneDiv(Pow2(k));
    } else {
      assert m % 2 == 1 && m / 2 == Pow2(k - 1) - 1;
      AndLowMask(a / 2, k - 1);
      assert BitAnd(a, m) == 2 * ((a / 2) % Pow2(k - 1)) + a % 2;
      ModTwice(a, Pow2(k - 1));
    }
  }

  lemma {:induction false} ModTwice(a: int, n: nat)
    requires n >= 1
    ensures a % (2 * n) == 2 * ((a / 2) % n) + a % 2
  {
    DivTwice(a, n);
    var h := a / 2;
    assert a == 2 * h + a % 2;
    assert h == n * (h / n) + h % n;
    assert a == 2 * n * (h / n) + (2 * (h % n) + a % 2);
    assert h / n == a / (2 * n);
    assert a == 2 * n * (a / (2 * n)) + a % (2 * n);
  }

  lemma {:induction false} AndEvenMask(a: int, h: int)
    requires h >= 1
    ensures BitAnd(a, 2 * h) == 2 * BitAnd(a / 2, h)
  {
    if a == 0 {
    } else if a == -1 {
      assert -1 / 2 == -1;
    } else {
      assert (2 * h) / 2 == h && (2 * h) % 2 == 0;
    }
  }

  /** ANDing with a run of k one-bits starting at bit j extracts those bits. */
  lemma {:induction false} AndShiftedMask(a: int, j: nat, k: nat)
    ensures BitAnd(a, (Pow2(k) - 1) * Pow2(j)) == ((a / Pow2(j)) % Pow2(k)) * Pow2(j)
    decreases j
  {
    if j == 0 {
      AndLowMask(a, k);
    } else if k == 0 {
    } else {
      var p := Pow2(j - 1);
      var mk := Pow2(k) - 1;
      var m' := mk * p;
      assert Pow2(j) == 2 * p;
      assert m' >= 1 by {
        MulAtLeast(p, mk);
      }
      Double(mk, p);
      assert mk * Pow2(j) == 2 * m';
      AndEvenMask(a, m');
      assert BitAnd(a, mk * Pow2(j)) == 2 * BitAnd(a / 2, m');
      AndShiftedMask(a / 2, j - 1, k);
      DivTwice(a, p);
      var x := (a / Pow2(j)) % Pow2(k);
      assert BitAnd(a / 2, m') == x * p;
      Double(x, p);
    }
  }

  lemma Double(a: int, b: int)
    ensures a * (2 * b) == 2 * (a * b)
  {
  }

  /** ORing bits that lie wholly below the set bits of `x` is addition. */
  lemma {:induction false} OrDisjointLow(x: int, m: int, k: nat)
    requires x % Pow2(k) == 0
    requires 0 <= m < Pow2(k)
    ensures BitOr(x, m) == x + m
    decreases k
  {
    if x == 0 || m == 0 {
    } else {
      assert k >= 1;
      assert x % 2 == 0 by {
        ModTwice(x, Pow2(k - 1));
      }
      assert x != -1;
      ModTwice(x, Pow2(k - 1));
      assert (x / 2) % Pow2(k - 1) == 0;
      assert m / 2 < Pow2(k - 1);
      OrDisjointLow(x / 2, m / 2, k - 1);
    }
  }

  /** The new mode `chmod` stores: `(old & 0o770000) | mode`. */
  function ChmodMode(prev: int, mode: int): int
  {
    BitOr(BitAnd(prev, TypeMask), mode)
  }

  /** For a permission-only `mode` (below `0o10000`), chmod keeps the six
      file-type bits of the previous mode and takes the low twelve bits from `mode`. */
  lemma ChmodKeepsFileType(prev: int, mode: int)
    requires 0 <= mode < 0x1000
    ensures ChmodMode(prev, mode) % 0x1000 == mode
    ensures ChmodMode(prev, mode) / 0x1000 == (prev / 0x1000) % 64
  {
    assert Pow2(12) == 0x1000 && Pow2(6) == 64;
    AndShiftedMask(prev, 12, 6);
    var t := BitAnd(prev, TypeMask);
    assert t == ((prev / 0x1000) % 64) * 0x1000;
    OrDisjointLow(t, mode, 12);
  }

  /** `S_IFxxx | perm` for permission bits below the type bits adds them. */
  lemma TypeOrPermission(perm: int)
    requires 0 <= perm < 0x1000
    ensures BitOr(S_IFDIR, perm) == S_IFDIR + perm
    ensures BitOr(S_IFREG, perm) == S_IFREG + perm
    ensures BitOr(S_IFLNK, perm) == S_IFLNK + perm
  {
    assert Pow2(12) == 0x1000;
    OrDisjointLow(S_IFDIR, perm, 12);
    OrDisjointLow(S_IFREG, perm, 12);
    OrDisjointLow(S_IFLNK, perm, 12);
  }
}
