/**
 * Account and token addresses, kept as text (an address is spelled "0x"
 * followed by forty hex digits, but the normaliser accepts any string), and
 * the normaliser that makes two spellings of the same address compare equal.
 */
module Addresses {

  type Address = string

  /** The all-zero address: as `from` it marks a mint, as `to` a burn. */
  const ADDRESS_ZERO: Address := "0x0000000000000000000000000000000000000000"

  predicate IsUpper(c: char) {
    'A' <= c <= 'Z'
  }

  /** ASCII case folding of one character. */
  function LowerChar(c: char): char {
    if IsUpper(c) then (c as int + 32) as char else c
  }

  /** No upper-case letter occurs in `a`: the form every stored key has. */
  predicate IsCanonical(a: Address) {
    forall i :: 0 <= i < |a| ==> !IsUpper(a[i])
  }

  /** `a` and `b` are the same address up to the case of their letters. */
  predicate EqualIgnoringCase(a: Address, b: Address) {
    |a| == |b| && forall i :: 0 <= i < |a| ==> LowerChar(a[i]) == LowerChar(b[i])
  }

  /**
   * The address normaliser: every upper-case letter is replaced by its
   * lower-case partner, every other character is kept.
   */
  function ToLowerCase(a: Address): (r: Address)
    ensures |r| == |a|
    ensures IsCanonical(r)
    ensures forall i :: 0 <= i < |a| ==>
              if IsUpper(a[i]) then r[i] as int == a[i] as int + 32 else r[i] == a[i]
  {
    if a == [] then [] else [LowerChar(a[0])] + ToLowerCase(a[1..])
  }

  /** An address that is already canonical is its own normal form. */
  lemma {:induction false} CanonicalIsFixpoint(a: Address)
    requires IsCanonical(a)
    ensures ToLowerCase(a) == a
  {
    if a != [] {
      CanonicalIsFixpoint(a[1..]);
    }
  }

  /** Normalising twice is normalising once. */
  lemma ToLowerCaseIdempotent(a: Address)
    ensures ToLowerCase(ToLowerCase(a)) == ToLowerCase(a)
  {
    CanonicalIsFixpoint(ToLowerCase(a));
  }

  /** Two spellings give the same key exactly when they differ only in case. */
  lemma SameKeyIffEqualIgnoringCase(a: Address, b: Address)
    ensures ToLowerCase(a) == ToLowerCase(b) <==> EqualIgnoringCase(a, b)
  {
    if EqualIgnoringCase(a, b) {
      var ra, rb := ToLowerCase(a), ToLowerCase(b);
      forall i | 0 <= i < |a| ensures ra[i] == rb[i] {
        assert LowerChar(a[i]) == LowerChar(b[i]);
      }
    }
    if ToLowerCase(a) == ToLowerCase(b) {
      var r := ToLowerCase(a);
      forall i | 0 <= i < |a| ensures LowerChar(a[i]) == LowerChar(b[i]) {
        assert r[i] == ToLowerCase(b)[i];
      }
    }
  }
}
