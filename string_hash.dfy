/**
 * The 32-bit polynomial string hash, multiplier 31, that the client adds to
 * `String.prototype` and applies to block hashes.
 */
module StringHash {
  import opened JsNumber

  function Pow31(n: nat): (r: nat)
    ensures r >= 1
  {
    if n == 0 then 1 else 31 * Pow31(n - 1)
  }

  /** The unbounded polynomial: the sum of s[i] * 31^(|s|-1-i). */
  function PolySum(s: JsString): int
  {
    if s == [] then 0 else s[0] * Pow31(|s| - 1) + PolySum(s[1..])
  }

  /** The reference hash: the polynomial reduced to a signed 32-bit integer. */
  function PolyHash(s: JsString): (h: int)
    ensures IsInt32(h)
    ensures s == [] ==> h == 0
  {
    ToInt32(PolySum(s))
  }

  /** Appending a code unit multiplies the polynomial by 31 and adds the unit (Horner's rule). */
  lemma {:induction false} PolySumSnoc(s: JsString, c: CodeUnit)
    ensures PolySum(s + [c]) == 31 * PolySum(s) + c
  {
    if s == [] {
      assert [] + [c] == [c];
      assert [c][1..] == [];
    } else {
      var t := s + [c];
      assert t[0] == s[0];
      assert t[1..] == s[1..] + [c];
      PolySumSnoc(s[1..], c);
      assert Pow31(|t| - 1) == 31 * Pow31(|s| - 1);
      calc {
        PolySum(t);
        s[0] * Pow31(|t| - 1) + PolySum(s[1..] + [c]);
        s[0] * (31 * Pow31(|s| - 1)) + 31 * PolySum(s[1..]) + c;
        { MulComm31(s[0], Pow31(|s| - 1)); }
        31 * (s[0] * Pow31(|s| - 1)) + 31 * PolySum(s[1..]) + c;
      }
    }
  }

  lemma MulComm31(a: int, b: int)
    ensures a * (31 * b) == 31 * (a * b)
  {
  }

  /** Step law: hash(s + [c]) == ToInt32(31 * hash(s) + c). */
  lemma HashStep(s: JsString, c: CodeUnit)
    ensures PolyHash(s + [c]) == ToInt32(31 * PolyHash(s) + c)
  {
    PolySumSnoc(s, c);
    var p := PolySum(s);
    var h := PolyHash(s);
    var q := (p - h) / TWO_32;
    assert h == p - q * TWO_32;
    assert 31 * h + c == (31 * p + c) + (-31 * q) * TWO_32;
    ToInt32AddMultiple(31 * p + c, -31 * q);
  }

  /** One iteration of the source's loop body: `hash = ((hash << 5) - hash) + chr; hash |= 0`. */
  function SourceStep(hash: int, chr: CodeUnit): (r: int)
    ensures r == ToInt32(31 * hash + chr)
  {
    ShiftLeft5(hash, -hash + chr);
    BitOrZero(ShiftLeft(hash, 5) - hash + chr)
  }

  /** `String.prototype.hash`, written as the source's loop over code units. */
  method Hash(d: JsString) returns (hash: int)
    ensures hash == PolyHash(d)
    ensures IsInt32(hash)
  {
    hash := 0;
    if |d| == 0 {
      return;
    }
    var i := 0;
    while i < |d|
      invariant 0 <= i <= |d|
      invariant hash == PolyHash(d[..i])
    {
      var chr := d[i];
      ghost var prefix := d[..i];
      hash := SourceStep(hash, chr);
      HashStep(prefix, chr);
      assert d[..i + 1] == prefix + [chr];
      i := i + 1;
    }
    assert d[..|d|] == d;
  }
}
