/** 32-bit words as their bits, the lowest first, and the operators C code applies to them. */
module Bits32 {

  type Word32 = w: seq<bool> | |w| == 32 witness seq(32, _ => false)

  /** The word with exactly these bits set. */
  function Bits(s: set<int>): (w: Word32)
    ensures forall i | 0 <= i < 32 :: w[i] <==> i in s
  {
    seq(32, i requires 0 <= i < 32 => i in s)
  }

  /** The mask of the n lowest bits. */
  function Ones(n: nat): (w: Word32)
    ensures forall i | 0 <= i < 32 :: w[i] <==> i < n
  {
    seq(32, i requires 0 <= i < 32 => i < n)
  }

  function And(a: Word32, b: Word32): (w: Word32)
    ensures forall i | 0 <= i < 32 :: w[i] <==> a[i] && b[i]
  {
    seq(32, i requires 0 <= i < 32 => a[i] && b[i])
  }

  function Or(a: Word32, b: Word32): (w: Word32)
    ensures forall i | 0 <= i < 32 :: w[i] <==> a[i] || b[i]
  {
    seq(32, i requires 0 <= i < 32 => a[i] || b[i])
  }

  function Not(a: Word32): (w: Word32)
    ensures forall i | 0 <= i < 32 :: w[i] <==> !a[i]
  {
    seq(32, i requires 0 <= i < 32 => !a[i])
  }

  function Shl(a: Word32, k: nat): (w: Word32)
    ensures forall i | 0 <= i < 32 :: w[i] <==> k <= i && a[i - k]
  {
    seq(32, i requires 0 <= i < 32 => k <= i && a[i - k])
  }

  function Shr(a: Word32, k: nat): (w: Word32)
    ensures forall i | 0 <= i < 32 :: w[i] <==> i + k < 32 && a[i + k]
  {
    seq(32, i requires 0 <= i < 32 => i + k < 32 && a[i + k])
  }

  /** n bits from bit o on. */
  function Field(w: Word32, o: nat, n: nat): (f: seq<bool>)
    requires o + n <= 32
    ensures |f| == n
    ensures forall i | 0 <= i < n :: f[i] == w[o + i]
  {
    seq(n, i requires 0 <= i < n => w[o + i])
  }

  /** The word with the bits from o on replaced by v. */
  function SetField(w: Word32, o: nat, v: seq<bool>): (r: Word32)
    requires o + |v| <= 32
    ensures forall i | 0 <= i < 32 :: r[i] == if o <= i < o + |v| then v[i - o] else w[i]
  {
    seq(32, i requires 0 <= i < 32 => if o <= i < o + |v| then v[i - o] else w[i])
  }

  /** Clearing n bits by their mask and or-ing a value of n bits in sets the field. */
  lemma MaskedIsField(w: Word32, o: nat, n: nat, v: Word32)
    requires o + n <= 32
    requires forall i | n <= i < 32 :: !v[i]
    ensures Or(And(w, Not(Shl(Ones(n), o))), Shl(v, o)) == SetField(w, o, Field(v, 0, n))
  {
    var masked, field := Or(And(w, Not(Shl(Ones(n), o))), Shl(v, o)), SetField(w, o, Field(v, 0, n));
    forall i | 0 <= i < 32 ensures masked[i] == field[i] {}
  }

  lemma ClearedIsField(w: Word32, o: nat, n: nat)
    requires o + n <= 32
    ensures And(w, Not(Shl(Ones(n), o))) == SetField(w, o, Field(Bits({}), 0, n))
  {
    var masked, field := And(w, Not(Shl(Ones(n), o))), SetField(w, o, Field(Bits({}), 0, n));
    forall i | 0 <= i < 32 ensures masked[i] == field[i] {}
  }

  lemma OneBitIsField(w: Word32, o: nat)
    requires o < 32
    ensures And(w, Not(Shl(Ones(1), o))) == SetField(w, o, [false])
    ensures Or(w, Shl(Ones(1), o)) == SetField(w, o, [true])
  {
    forall i | 0 <= i < 32
      ensures And(w, Not(Shl(Ones(1), o)))[i] == SetField(w, o, [false])[i]
      ensures Or(w, Shl(Ones(1), o))[i] == SetField(w, o, [true])[i]
    {}
  }

  /** A field that was set reads back; one that does not overlap it is unchanged. */
  lemma FieldAfterSet(w: Word32, o: nat, p: nat, v: seq<bool>)
    requires o + |v| <= 32 && p + |v| <= 32
    requires o == p || o + |v| <= p || p + |v| <= o
    ensures Field(SetField(w, o, v), p, |v|) == if o == p then v else Field(w, p, |v|)
  {
    var got, want := Field(SetField(w, o, v), p, |v|), if o == p then v else Field(w, p, |v|);
    forall i | 0 <= i < |v| ensures got[i] == want[i] {}
  }
}
