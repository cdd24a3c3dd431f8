/** `camalCaseToDashed`: every ASCII capital letter becomes `-` followed
    by its lower-case form (a global regular-expression replace of
    `[A-Z]`); every other character is copied. */
module CaseUtil {

  predicate IsUpper(c: char) {
    'A' <= c <= 'Z'
  }

  predicate IsLower(c: char) {
    'a' <= c <= 'z'
  }

  /** `toLowerCase` on a capital ASCII letter. */
  function ToLower(c: char): (r: char)
    requires IsUpper(c)
    ensures IsLower(r)
  {
    (c as int - 'A' as int + 'a' as int) as char
  }

  function ToUpper(c: char): (r: char)
    requires IsLower(c)
    ensures IsUpper(r)
  {
    (c as int - 'a' as int + 'A' as int) as char
  }

  /** What the replacement makes of one character. */
  function DashedChar(c: char): string {
    if IsUpper(c) then ['-', ToLower(c)] else [c]
  }

  function CamelCaseToDashed(s: string): (r: string)
    ensures forall k :: 0 <= k < |r| ==> !IsUpper(r[k])
  {
    if |s| == 0 then ""
    else DashedChar(s[0]) + CamelCaseToDashed(s[1..])
  }

  function CountUpper(s: string): nat {
    if |s| == 0 then 0 else (if IsUpper(s[0]) then 1 else 0) + CountUpper(s[1..])
  }

  /** The replace acts character by character, so it distributes over
      concatenation. */
  lemma {:induction false} DashedAppend(a: string, b: string)
    ensures CamelCaseToDashed(a + b) == CamelCaseToDashed(a) + CamelCaseToDashed(b)
  {
    if |a| == 0 {
      assert a + b == b;
    } else {
      assert (a + b)[0] == a[0];
      assert (a + b)[1..] == a[1..] + b;
      DashedAppend(a[1..], b);
    }
  }

  /** Each capital adds exactly one character (its dash). */
  lemma {:induction false} DashedLength(s: string)
    ensures |CamelCaseToDashed(s)| == |s| + CountUpper(s)
  {
    if |s| > 0 {
      DashedLength(s[1..]);
    }
  }

  /** A string without capitals is left as it is. */
  lemma {:induction false} DashedIdentity(s: string)
    requires forall k :: 0 <= k < |s| ==> !IsUpper(s[k])
    ensures CamelCaseToDashed(s) == s
  {
    if |s| > 0 {
      DashedIdentity(s[1..]);
      assert s == [s[0]] + s[1..];
    }
  }

  /** Hence the conversion is idempotent. */
  lemma DashedIdempotent(s: string)
    ensures CamelCaseToDashed(CamelCaseToDashed(s)) == CamelCaseToDashed(s)
  {
    DashedIdentity(CamelCaseToDashed(s));
  }

  /** The reverse conversion: `-` followed by a lower-case letter becomes
      that letter's capital. */
  function DashedToCamelCase(s: string): string {
    if |s| == 0 then ""
    else if |s| >= 2 && s[0] == '-' && IsLower(s[1]) then [ToUpper(s[1])] + DashedToCamelCase(s[2..])
    else [s[0]] + DashedToCamelCase(s[1..])
  }

  /** On names without dashes the conversion loses nothing: converting
      back gives the original name. */
  lemma {:induction false} DashedRoundTrip(s: string)
    requires forall k :: 0 <= k < |s| ==> s[k] != '-'
    ensures DashedToCamelCase(CamelCaseToDashed(s)) == s
  {
    if |s| > 0 {
      var t := CamelCaseToDashed(s[1..]);
      DashedRoundTrip(s[1..]);
      if IsUpper(s[0]) {
        var d := ['-', ToLower(s[0])] + t;
        assert d[2..] == t;
        assert ToUpper(ToLower(s[0])) == s[0];
      } else {
        var d := [s[0]] + t;
        assert d[1..] == t;
      }
      assert s == [s[0]] + s[1..];
    }
  }

  /** `fontSize` becomes `font-size`. */
  lemma FontSizeExample()
    ensures CamelCaseToDashed("fontSize") == "font-size"
  {
    assert ToLower('S') == 's';
    assert "S"[1..] == "";
    assert CamelCaseToDashed("S") == "-s";
    DashedIdentity("ize");
    DashedAppend("S", "ize");
    assert "S" + "ize" == "Size";
    assert CamelCaseToDashed("Size") == "-size";
    DashedIdentity("font");
    DashedAppend("font", "Size");
    assert "font" + "Size" == "fontSize";
  }
}
