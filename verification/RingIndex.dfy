/** Index arithmetic of a power-of-two ring: the mask is the modulus. */
module RingIndex {

  function Pow2(k: nat): (r: nat)
    ensures r >= 1
  {
    if k == 0 then 1 else 2 * Pow2(k - 1)
  }

  /** Bitwise conjunction of unsigned words, bit by bit. */
  function And(a: nat, b: nat): nat {
    if a == 0 || b == 0 then 0 else (a % 2) * (b % 2) + 2 * And(a / 2, b / 2)
  }

  const WORD: nat := 0x1_0000_0000_0000_0000

  /** Unsigned subtraction of 64-bit words. */
  function SubWrap(a: nat, b: nat): nat {
    (a - b) % WORD
  }

  lemma MulGap(k: int, d: int)
    requires d > 0
    ensures k >= 1 ==> k * d >= d
    ensures k <= -1 ==> k * d <= -d
  {
  }

  lemma ModUnique(x: int, d: int, q: int, r: int)
    requires d > 0 && x == q * d + r && 0 <= r < d
    ensures x % d == r
  {
    var q', r' := x / d, x % d;
    assert x == q' * d + r';
    assert (q' - q) * d == r - r';
    MulGap(q' - q, d);
  }

  lemma ModDouble(x: nat, p: nat)
    requires p >= 1
    ensures x % (2 * p) == x % 2 + 2 * ((x / 2) % p)
  {
    var q, r := (x / 2) / p, (x / 2) % p;
    assert x / 2 == q * p + r;
    assert x == q * (2 * p) + (2 * r + x % 2) by {
      assert 2 * (q * p) == q * (2 * p);
    }
    ModUnique(x, 2 * p, q, 2 * r + x % 2);
  }

  /** Masking with capacity minus one is reduction modulo the capacity. */
  lemma {:induction false} MaskIsModulo(x: nat, k: nat)
    ensures And(x, Pow2(k) - 1) == x % Pow2(k)
    decreases k
  {
    if k == 0 {
    } else {
      var p := Pow2(k - 1);
      MaskIsModulo(x / 2, k - 1);
      ModDouble(x, p);
      assert (2 * p - 1) % 2 == 1 && (2 * p - 1) / 2 == p - 1;
      if x == 0 {
        ModUnique(0, 2 * p, 0, 0);
      }
    }
  }

  /** Two counters less than one lap apart never share a slot. */
  lemma SlotsApart(i: nat, j: nat, cap: nat)
    requires cap > 0 && i < j < i + cap
    ensures i % cap != j % cap
  {
    var q, r, ahead := i / cap, i % cap, i % cap + (j - i);
    assert i == q * cap + r;
    if ahead < cap {
      ModUnique(j, cap, q, ahead);
    } else {
      assert j == (q + 1) * cap + (ahead - cap);
      ModUnique(j, cap, q + 1, ahead - cap);
    }
  }

  lemma ModStep(i: nat, cap: nat)
    requires cap > 0
    ensures (i % cap + 1) % cap == (i + 1) % cap
  {
    var q, r := i / cap, i % cap;
    assert i == q * cap + r;
    if r + 1 < cap {
      ModUnique(i + 1, cap, q, r + 1);
      ModUnique(r + 1, cap, 0, r + 1);
    } else {
      assert i + 1 == (q + 1) * cap;
      ModUnique(i + 1, cap, q + 1, 0);
      ModUnique(r + 1, cap, 1, 0);
    }
  }

  lemma {:induction false} Pow2Divides(k: nat, n: nat)
    requires k <= n
    ensures Pow2(n) == Pow2(n - k) * Pow2(k)
    decreases n - k
  {
    if k < n {
      Pow2Divides(k, n - 1);
    }
  }

  lemma WordIsPow2()
    ensures Pow2(64) == WORD
  {
    assert Pow2(8) == 256;
    Pow2Divides(8, 16);
    assert Pow2(16) == 65536;
    Pow2Divides(16, 32);
    Pow2Divides(32, 64);
  }

  lemma MulSub(x: int, y: int, z: int, c: int)
    ensures (x - y - z) * c == x * c - y * c - z * c
  {
  }

  lemma MulAssoc(x: int, y: int, z: int)
    ensures x * (y * z) == (x * y) * z
  {
  }

  lemma ModSplit(x: int, d: int)
    requires d > 0
    ensures x % d == x - (x / d) * d
  {
  }

  /** Reduction after a wrapped subtraction, given the quotients involved. */
  lemma WindowModulo(h: int, t: int, cap: int, lap: int, qh: int, qt: int, w: int, word: int, diff: int)
    requires cap > 0 && 0 <= h - t < cap && word == lap * cap
    requires diff == (h - qh * cap) - (t - qt * cap) - w * word
    ensures diff % cap == h - t
  {
    MulAssoc(w, lap, cap);
    MulSub(qt, qh, w * lap, cap);
    ModUnique(diff, cap, qt - qh - w * lap, h - t);
  }

  lemma SubWrapModulo(h: nat, t: nat, cap: nat, lap: nat)
    requires cap > 0 && t <= h < t + cap && lap * cap == WORD
    ensures SubWrap(h % cap, t % cap) % cap == h - t
  {
    ModSplit(h, cap);
    ModSplit(t, cap);
    ModSplit(h % cap - t % cap, WORD);
    WindowModulo(h, t, cap, lap, h / cap, t / cap, (h % cap - t % cap) / WORD, WORD, SubWrap(h % cap, t % cap));
  }

  /** The size formula: subtracting wrapped indices and masking gives the occupancy. */
  lemma SizeOfWindow(h: nat, t: nat, k: nat)
    requires t <= h < t + Pow2(k) && k <= 64
    ensures And(SubWrap(h % Pow2(k), t % Pow2(k)), Pow2(k) - 1) == h - t
  {
    MaskIsModulo(SubWrap(h % Pow2(k), t % Pow2(k)), k);
    WordIsPow2();
    Pow2Divides(k, 64);
    hide Pow2, And, SubWrap;
    SubWrapModulo(h, t, Pow2(k), Pow2(64 - k));
  }
}
