/** HASH_BER on 32-bit words: the shift-and-add loop evaluates a base-33 polynomial. */
module HashBer {
  import opened Bits
  import opened Elems

  const WORD: nat := 0x1_0000_0000

  /** `<<` on an unsigned word: each step doubles and drops the carry out of the top bit. */
  function Shl(h: nat, k: nat): nat
    decreases k
  {
    if k == 0 then h else Shl(2 * h % WORD, k - 1)
  }

  function Power33(n: nat): nat {
    if n == 0 then 1 else 33 * Power33(n - 1)
  }

  /** The first byte carries the highest power of 33. */
  function Polynomial(key: Key): nat {
    if key == [] then 0 else key[0] as nat * Power33(|key| - 1) + Polynomial(key[1..])
  }

  lemma AddMultiple(a: nat, k: nat, m: nat)
    requires m > 0
    ensures (a + k * m) % m == a % m
  {
    DivModUnique(a + k * m, m, a / m + k, a % m);
    assert a / m * m + a % m == a;
  }

  lemma Regroup(a: nat, c: nat, b: nat)
    ensures a * (c * b) == c * a * b == c * (a * b)
  {
  }

  lemma DropInner(a: nat, b: nat, c: nat)
    ensures (c * (a % WORD) + b) % WORD == (c * a + b) % WORD
  {
    AddMultiple(c * (a % WORD) + b, c * (a / WORD), WORD);
    assert a == a / WORD * WORD + a % WORD;
    assert c * a == c * (a / WORD) * WORD + c * (a % WORD);
  }

  lemma {:induction false} ShlIsTimes(h: nat, k: nat)
    requires h < WORD
    ensures Shl(h, k) == Pow2(k) * h % WORD
    decreases k
  {
    if k > 0 {
      var p := Pow2(k - 1);
      ShlIsTimes(2 * h % WORD, k - 1);
      DropInner(2 * h, 0, p);
      Regroup(p, 2, h);
    }
  }

  lemma {:induction false} PolynomialSnoc(key: Key, b: bv8)
    ensures Polynomial(key + [b]) == 33 * Polynomial(key) + b as nat
  {
    if key == [] {
      assert [b][1..] == [];
      assert Power33(0) == 1;
    } else {
      assert (key + [b])[1..] == key[1..] + [b];
      PolynomialSnoc(key[1..], b);
      var first, p := key[0] as nat, Power33(|key| - 1);
      assert Polynomial(key + [b]) == first * (33 * p) + Polynomial(key[1..] + [b]);
      Regroup(first, 33, p);
    }
  }

  /** HASH_BER. */
  method Ber(key: Key) returns (hashv: nat)
    ensures hashv == Polynomial(key) % WORD
  {
    hashv := 0;
    var i := 0;
    while i != |key|
      invariant 0 <= i <= |key|
      invariant hashv == Polynomial(key[..i]) % WORD
    {
      ShlIsTimes(hashv, 5);
      assert Pow2(5) == 32;
      var shifted := Shl(hashv, 5);
      DropInner(32 * hashv, hashv + key[i] as nat, 1);
      DropInner(Polynomial(key[..i]), key[i] as nat, 33);
      PolynomialSnoc(key[..i], key[i]);
      assert key[..i] + [key[i]] == key[..i + 1];
      hashv := (shifted + hashv + key[i] as nat) % WORD;
      i := i + 1;
    }
    assert key[..i] == key;
  }
}
