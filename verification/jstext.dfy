/** The two JavaScript text conversions the score bookkeeping depends on: `parseInt(text)`
    with no radix, which reads the counters back from storage, and the decimal text of an
    integer, which `localStorage.setItem` stores for a number. */
module JsText {
  import opened Wrappers

  /** The characters `parseInt` skips before the number: the ECMAScript white space and line
      terminators (tab, vertical tab, form feed, space, no-break space, byte order mark, the
      other space separators, line feed, carriage return, line and paragraph separator). */
  predicate IsSpace(c: char) {
    c == '\t' || c == '\U{000B}' || c == '\U{000C}' || c == ' ' || c == '\U{00A0}'
    || c == '\U{FEFF}' || c == '\U{1680}' || ('\U{2000}' <= c <= '\U{200A}')
    || c == '\U{202F}' || c == '\U{205F}' || c == '\U{3000}'
    || c == '\n' || c == '\r' || c == '\U{2028}' || c == '\U{2029}'
  }

  /** The value of `c` as a digit in base `radix` (2 to 36), if it is one. */
  function DigitValue(c: char, radix: nat): (v: Option<nat>)
    ensures v.Some? ==> v.value < radix
    ensures '0' <= c <= '9' && (c as int - '0' as int) < radix ==> v == Some(c as int - '0' as int)
  {
    var d :=
      if '0' <= c <= '9' then c as int - '0' as int
      else if 'a' <= c <= 'z' then c as int - 'a' as int + 10
      else if 'A' <= c <= 'Z' then c as int - 'A' as int + 10
      else radix;
    if d < radix then Some(d) else None
  }

  /** Drops the leading white space. */
  function TrimStart(s: string): (t: string)
    ensures |t| <= |s| && t == s[|s| - |t|..]
    ensures |t| > 0 ==> !IsSpace(t[0])
    ensures forall i | 0 <= i < |s| - |t| :: IsSpace(s[i])
  {
    if |s| > 0 && IsSpace(s[0]) then TrimStart(s[1..]) else s
  }

  /** The length of the longest prefix of `s` made of base-`radix` digits. */
  function DigitRun(s: string, radix: nat): (n: nat)
    ensures n <= |s|
    ensures forall i | 0 <= i < n :: DigitValue(s[i], radix).Some?
    ensures n < |s| ==> DigitValue(s[n], radix).None?
  {
    if |s| > 0 && DigitValue(s[0], radix).Some? then 1 + DigitRun(s[1..], radix) else 0
  }

  /** The number a run of base-`radix` digits spells, most significant first. */
  function Value(ds: string, radix: nat): nat
    requires forall i | 0 <= i < |ds| :: DigitValue(ds[i], radix).Some?
  {
    if |ds| == 0 then 0
    else
      var init := ds[..|ds| - 1];
      assert forall i | 0 <= i < |init| :: init[i] == ds[i];
      AppendDigit(Value(init, radix), radix, DigitValue(ds[|ds| - 1], radix).value)
  }

  /** The number `v` followed by one more base-`radix` digit `d`. */
  function AppendDigit(v: nat, radix: nat, d: nat): nat
  {
    v * radix + d
  }

  /** `parseInt(s)` with no radix: skip white space, then read a signed number;
      `None` stands for `NaN`. */
  function ParseInt(s: string): (r: Option<int>)
    ensures r.Some? ==> exists i | 0 <= i < |s| :: '0' <= s[i] <= '9'
  {
    var t := TrimStart(s);
    var r := ParseSigned(t);
    if r.Some? then
      var i :| 0 <= i < |t| && '0' <= t[i] <= '9';
      assert t[i] == s[|s| - |t| + i];
      r
    else r
  }

  /** The part of `parseInt` after the white space: one sign, a `0x`/`0X` prefix read as
      base 16 (otherwise base 10), then the longest run of digits; an empty run gives `NaN`.
      A number always comes with a decimal digit: the leading `0` of the prefix, or the
      first digit of a base-10 run. */
  function ParseSigned(t: string): (r: Option<int>)
    ensures r.Some? ==> exists i | 0 <= i < |t| :: '0' <= t[i] <= '9'
  {
    var negative := |t| > 0 && t[0] == '-';
    var unsigned := if |t| > 0 && (t[0] == '-' || t[0] == '+') then t[1..] else t;
    var hex := |unsigned| >= 2 && unsigned[0] == '0' && (unsigned[1] == 'x' || unsigned[1] == 'X');
    var radix := if hex then 16 else 10;
    var body := if hex then unsigned[2..] else unsigned;
    var n := DigitRun(body, radix);
    if n == 0 then None
    else
      assert unsigned[0] == t[|t| - |unsigned|];
      if hex then
        assert '0' <= t[|t| - |unsigned|] <= '9';
        var v: int := Value(body[..n], radix);
        Some(if negative then -v else v)
      else
        assert DigitValue(body[0], 10).Some?;
        assert '0' <= t[|t| - |unsigned|] <= '9';
        var v: int := Value(body[..n], radix);
        Some(if negative then -v else v)
  }

  /** The character for a decimal digit. */
  function DigitChar(d: nat): (c: char)
    requires d < 10
    ensures '0' <= c <= '9' && DigitValue(c, 10) == Some(d)
  {
    (d + '0' as int) as char
  }

  /** The shortest decimal text of a natural number. */
  function Decimal(n: nat): (ds: string)
    ensures |ds| > 0
    ensures forall i | 0 <= i < |ds| :: '0' <= ds[i] <= '9'
    ensures ds[0] == '0' ==> n == 0 && |ds| == 1
    decreases n
  {
    if n < 10 then [DigitChar(n)] else Decimal(n / 10) + [DigitChar(n % 10)]
  }

  /** `String(n)` for an integer: its decimal text, with a minus sign when negative. */
  function IntToText(n: int): (s: string)
    ensures |s| > 0 && (s[0] == '-' || '0' <= s[0] <= '9')
  {
    if n < 0 then "-" + Decimal(-n) else Decimal(n)
  }

  /** Reading back the decimal text of a natural number gives the number. */
  lemma {:induction false} DecimalValue(n: nat)
    ensures forall i | 0 <= i < |Decimal(n)| :: DigitValue(Decimal(n)[i], 10).Some?
    ensures Value(Decimal(n), 10) == n
    decreases n
  {
    var ds := Decimal(n);
    forall i | 0 <= i < |ds| ensures DigitValue(ds[i], 10).Some? {
      assert '0' <= ds[i] <= '9';
    }
    if n >= 10 {
      DecimalValue(n / 10);
      assert ds[..|ds| - 1] == Decimal(n / 10);
    }
  }

  /** `parseInt` reads back every integer's text exactly: a counter stored with
      `localStorage.setItem` is recovered by `parseInt(localStorage.getItem(key))`. */
  lemma ParseIntRoundTrip(n: int)
    ensures ParseInt(IntToText(n)) == Some(n)
  {
    var s := IntToText(n);
    assert TrimStart(s) == s by {
      assert !IsSpace(s[0]);
    }
    ParseSignedText(n);
  }

  /** After the (absent) white space, the signed reading recovers the integer. */
  lemma ParseSignedText(n: int)
    ensures ParseSigned(IntToText(n)) == Some(n)
  {
    var t := IntToText(n);
    var m: nat := if n < 0 then -n else n;
    var ds := Decimal(m);
    var unsigned := if |t| > 0 && (t[0] == '-' || t[0] == '+') then t[1..] else t;
    assert unsigned == ds by {
      if n < 0 {
        assert t[1..] == ds;
      }
    }
    ReadDecimal(m);
    assert !(|ds| >= 2 && ds[0] == '0');
  }

  /** The decimal text of `m` is one whole base-10 digit run spelling `m`. */
  lemma ReadDecimal(m: nat)
    ensures DigitRun(Decimal(m), 10) == |Decimal(m)|
    ensures Value(Decimal(m)[..|Decimal(m)|], 10) == m
  {
    var ds := Decimal(m);
    DecimalValue(m);
    DigitRunAll(ds, 10);
    assert ds[..|ds|] == ds;
  }

  /** White space in front of the number does not change what `parseInt` reads. */
  lemma LeadingSpaceIgnored(c: char, s: string)
    requires IsSpace(c)
    ensures ParseInt([c] + s) == ParseInt(s)
  {
    assert ([c] + s)[1..] == s;
    assert TrimStart([c] + s) == TrimStart(s);
  }

  /** A text made only of digits is one whole digit run. */
  lemma {:induction false} DigitRunAll(s: string, radix: nat)
    requires forall i | 0 <= i < |s| :: DigitValue(s[i], radix).Some?
    ensures DigitRun(s, radix) == |s|
  {
    if |s| > 0 {
      DigitRunAll(s[1..], radix);
    }
  }

  /** Text whose first character after the leading white space is neither a digit nor a
      sign reads as `NaN`; this covers "null", which `getItem` gives for a missing key, and
      the JSON array text of a stored history. */
  lemma ParseIntNaN(s: string)
    requires |TrimStart(s)| > 0
    requires TrimStart(s)[0] != '-' && TrimStart(s)[0] != '+'
    requires !('0' <= TrimStart(s)[0] <= '9')
    ensures ParseInt(s).None?
  {
    ParseSignedNaN(TrimStart(s));
  }

  /** After the white space: no sign and no leading digit means no digits to read. */
  lemma ParseSignedNaN(t: string)
    requires |t| > 0 && t[0] != '-' && t[0] != '+' && !('0' <= t[0] <= '9')
    ensures ParseSigned(t).None?
  {
    assert DigitValue(t[0], 10).None?;
    assert DigitRun(t, 10) == 0;
  }
}
