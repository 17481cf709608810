/**
 * `truncate`, the display shortener for long strings such as block hashes:
 * keep the front and the back of the string and put a separator between.
 */
module Util {
  import opened JsNumber

  /** The clamping `String.prototype.substring` applies to each index. */
  function Clamp(x: int, len: nat): (r: nat)
    ensures r <= len
    ensures 0 <= x <= len ==> r == x
    ensures x < 0 ==> r == 0
    ensures x > len ==> r == len
  {
    if x < 0 then 0 else if x > len then len else x
  }

  /**
   * `s.substring(start, end)`: both indices are clamped to [0, |s|] and
   * swapped when the first is the larger.
   */
  function Substring(s: JsString, start: int, end: int): (r: JsString)
    ensures |r| == Abs(Clamp(start, |s|) - Clamp(end, |s|))
    ensures Clamp(start, |s|) <= Clamp(end, |s|) ==> r == s[Clamp(start, |s|)..Clamp(end, |s|)]
    ensures Clamp(end, |s|) <= Clamp(start, |s|) ==> r == s[Clamp(end, |s|)..Clamp(start, |s|)]
  {
    var a := Clamp(start, |s|);
    var b := Clamp(end, |s|);
    if a <= b then s[a..b] else s[b..a]
  }

  /** `s.substring(start)`: the end index defaults to the length. */
  function SubstringFrom(s: JsString, start: int): (r: JsString)
    ensures r == s[Clamp(start, |s|)..]
  {
    Substring(s, start, |s|)
  }

  /**
   * `truncate(fullStr, strLen, separator, frontChars, backChars)`. A string
   * no longer than strLen comes back unchanged. A longer one becomes its
   * first min(frontChars, n) units, then the separator, then its units from
   * max(0, n - backChars) on.
   */
  function Truncate(fullStr: JsString, strLen: int, separator: JsString, frontChars: int, backChars: int): (r: JsString)
    ensures |fullStr| <= strLen ==> r == fullStr
    ensures |fullStr| > strLen ==>
      var n := |fullStr|;
      var i := Clamp(frontChars, n);
      var j := Clamp(n - backChars, n);
      && |r| == i + |separator| + (n - j)
      && r[..i] == fullStr[..i]
      && r[i..i + |separator|] == separator
      && r[i + |separator|..] == fullStr[j..]
  {
    if |fullStr| <= strLen then fullStr
    else
      var front := Substring(fullStr, 0, frontChars);
      var back := SubstringFrom(fullStr, |fullStr| - backChars);
      var r := front + separator + back;
      assert r[..|front|] == front;
      assert r[|front|..|front| + |separator|] == separator;
      assert r[|front| + |separator|..] == back;
      r
  }

  /** "...", the default separator. */
  const Ellipsis: JsString := [46, 46, 46]

  /**
   * `truncate(fullStr)` with every default argument: 10, "...", 10 and 8. A
   * string of more than 10 units becomes exactly 10 + 3 + 8 = 21 units: its
   * first 10, "...", and its last 8.
   */
  function TruncateDefault(fullStr: JsString): (r: JsString)
    ensures |fullStr| <= 10 ==> r == fullStr
    ensures |fullStr| > 10 ==>
      && |r| == 21
      && r[..10] == fullStr[..10]
      && r[10..13] == Ellipsis
      && r[13..] == fullStr[|fullStr| - 8..]
  {
    Truncate(fullStr, 10, Ellipsis, 10, 8)
  }

  /** A string no longer than strLen is returned unchanged. */
  lemma TruncateShort(fullStr: JsString, strLen: int, separator: JsString, frontChars: int, backChars: int)
    requires |fullStr| <= strLen
    ensures Truncate(fullStr, strLen, separator, frontChars, backChars) == fullStr
  {
  }

  /**
   * A longer string becomes its first min(frontChars, |s|) units, the
   * separator, and the units from max(0, |s| - backChars) on; in particular
   * a negative count keeps nothing from that end.
   */
  lemma TruncateLong(fullStr: JsString, strLen: int, separator: JsString, frontChars: int, backChars: int)
    requires |fullStr| > strLen
    ensures var n := |fullStr|;
      Truncate(fullStr, strLen, separator, frontChars, backChars)
      == fullStr[..Clamp(frontChars, n)] + separator + fullStr[Clamp(n - backChars, n)..]
    ensures var n := |fullStr|;
      |Truncate(fullStr, strLen, separator, frontChars, backChars)|
      == Clamp(frontChars, n) + |separator| + (n - Clamp(n - backChars, n))
  {
  }

  /** With the default arguments, truncating twice is the same as truncating once. */
  lemma {:induction false} TruncateDefaultIdempotent(fullStr: JsString)
    ensures TruncateDefault(TruncateDefault(fullStr)) == TruncateDefault(fullStr)
  {
    if |fullStr| > 10 {
      var r := TruncateDefault(fullStr);
      var rr := TruncateDefault(r);
      assert rr == r[..10] + Ellipsis + r[13..];
      assert r == r[..10] + r[10..13] + r[13..];
    }
  }
}
