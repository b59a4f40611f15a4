/** 64-bit words as their bits, lowest first, and what the bit scans of the allocators compute. */
module Bits {

  const WORD: nat := 64

  type Word = w: seq<bool> | |w| == WORD witness seq(WORD, _ => false)

  function Zeros(n: nat): (s: seq<bool>)
    ensures |s| == n
  {
    seq(n, _ => false)
  }

  // Shift right: zeros come in at the top.
  function ShiftRight(w: Word, n: nat): (r: Word)
    requires n <= WORD
  {
    w[n..] + Zeros(n)
  }

  function Complement(w: Word): (r: Word)
    ensures forall i :: 0 <= i < WORD ==> r[i] == !w[i]
  {
    seq(WORD, i requires 0 <= i < WORD => !w[i])
  }

  predicate IsZero(w: Word) { forall i :: 0 <= i < WORD ==> !w[i] }

  predicate IsFull(w: Word) { forall i :: 0 <= i < WORD ==> w[i] }

  // Count trailing zeros; the instruction is undefined for zero.
  function TrailingZeros(w: Word): (n: nat)
    requires !IsZero(w)
    ensures n < WORD && w[n]
    ensures forall i :: 0 <= i < n ==> !w[i]
  {
    FirstSet(w, 0)
  }

  function FirstSet(w: Word, from: nat): (n: nat)
    requires from < WORD && exists i :: from <= i < WORD && w[i]
    ensures from <= n < WORD && w[n]
    ensures forall i :: from <= i < n ==> !w[i]
    decreases WORD - from
  {
    if w[from] then from else FirstSet(w, from + 1)
  }
}
