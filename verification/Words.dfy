/** 32-bit words as sequences of bits, lowest bit first, with C's bitwise operators. */
module Words {

  type Word = w: seq<bool> | |w| == 32 witness seq(32, _ => false)

  function And(a: Word, b: Word): (r: Word)
    ensures forall i :: 0 <= i < 32 ==> r[i] == (a[i] && b[i])
  {
    seq(32, i requires 0 <= i < 32 => a[i] && b[i])
  }

  function Or(a: Word, b: Word): (r: Word)
    ensures forall i :: 0 <= i < 32 ==> r[i] == (a[i] || b[i])
  {
    seq(32, i requires 0 <= i < 32 => a[i] || b[i])
  }

  function Not(a: Word): (r: Word)
    ensures forall i :: 0 <= i < 32 ==> r[i] == !a[i]
  {
    seq(32, i requires 0 <= i < 32 => !a[i])
  }

  /** a << n: bits shifted out are lost. */
  function Shl(a: Word, n: nat): (r: Word)
    ensures forall i :: 0 <= i < 32 ==> r[i] == (i >= n && a[i - n])
  {
    seq(32, i requires 0 <= i < 32 => i >= n && a[i - n])
  }

  /** The word whose low bits are the given ones. */
  function Pad(bits: seq<bool>): (r: Word)
    requires |bits| <= 32
    ensures forall i :: 0 <= i < 32 ==> r[i] == (i < |bits| && bits[i])
  {
    seq(32, i requires 0 <= i < 32 => i < |bits| && bits[i])
  }

  /** 2^n - 1 */
  function Ones(n: nat): (r: Word)
    requires n <= 32
    ensures forall i :: 0 <= i < 32 ==> r[i] == (i < n)
  {
    seq(32, i requires 0 <= i < 32 => i < n)
  }

  /** The number in four consecutive bits. */
  function Number4(w: Word, at: nat): (n: nat)
    requires at + 4 <= 32
    ensures n < 16
    ensures n == (if w[at] then 1 else 0) + (if w[at + 1] then 2 else 0)
                 + (if w[at + 2] then 4 else 0) + (if w[at + 3] then 8 else 0)
  {
    (if w[at] then 1 else 0) + (if w[at + 1] then 2 else 0) + (if w[at + 2] then 4 else 0) + (if w[at + 3] then 8 else 0)
  }

  const ZERO: Word := Ones(0)
  const ONE: Word := Ones(1)

  /** Testing one bit the way the drivers do. */
  lemma TestBit(a: Word, j: nat)
    requires j < 32
    ensures And(a, Shl(ONE, j)) == Shl(ONE, j) <==> a[j]
  {
  }

  lemma NonZero(a: Word, b: Word)
    ensures And(a, b) != ZERO <==> exists i :: 0 <= i < 32 && a[i] && b[i]
  {
  }
}
