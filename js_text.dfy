/**
 * The JavaScript string primitives the server actions rely on:
 * String.prototype.trim, String.prototype.split on a one-character separator,
 * and the global parseInt called without a radix.
 */
module JsText {
  import opened Base

  /** ECMAScript WhiteSpace and LineTerminator code points: what trim removes. */
  predicate IsSpace(c: char) {
    || c == '\t' || c == '\n' || c == '\U{000B}' || c == '\U{000C}' || c == '\r' || c == ' '
    || c == '\U{00A0}' || c == '\U{1680}' || ('\U{2000}' <= c <= '\U{200A}')
    || c == '\U{2028}' || c == '\U{2029}' || c == '\U{202F}' || c == '\U{205F}'
    || c == '\U{3000}' || c == '\U{FEFF}'
  }

  predicate AllSpace(s: string) {
    forall i | 0 <= i < |s| :: IsSpace(s[i])
  }

  /** Neither end of `s` is white space. */
  predicate IsTrimmed(s: string) {
    s == [] || (!IsSpace(s[0]) && !IsSpace(s[|s| - 1]))
  }

  /** Drops leading white space: the result is the suffix of `s` after its white-space prefix. */
  function TrimStart(s: string): (r: string)
    ensures |r| <= |s| && r == s[|s| - |r|..]
    ensures AllSpace(s[..|s| - |r|])
    ensures r == [] || !IsSpace(r[0])
  {
    if |s| > 0 && IsSpace(s[0]) then
      var r := TrimStart(s[1..]);
      assert s[..|s| - |r|] == [s[0]] + s[1..][..|s| - 1 - |r|];
      r
    else
      s
  }

  /** Drops trailing white space: the result is the prefix of `s` before its white-space suffix. */
  function TrimEnd(s: string): (r: string)
    ensures |r| <= |s| && r == s[..|r|]
    ensures AllSpace(s[|r|..])
    ensures r == [] || !IsSpace(r[|r| - 1])
  {
    if |s| > 0 && IsSpace(s[|s| - 1]) then
      var r := TrimEnd(s[..|s| - 1]);
      assert s[|r|..] == s[..|s| - 1][|r|..] + [s[|s| - 1]];
      r
    else
      s
  }

  /** String.prototype.trim. */
  function Trim(s: string): (r: string)
    ensures IsTrimmed(r)
    ensures r == [] <==> AllSpace(s)
    ensures forall k | 0 <= k < |r| :: r[k] in s
    ensures |r| <= |s|
  {
    var t := TrimStart(s);
    var r := TrimEnd(t);
    TrimKeepsEnds(t, r);
    TrimEmpty(s, t, r);
    TrimKeepsChars(s, t, r);
    r
  }

  lemma TrimKeepsEnds(t: string, r: string)
    requires t == [] || !IsSpace(t[0])
    requires |r| <= |t| && r == t[..|r|]
    requires r == [] || !IsSpace(r[|r| - 1])
    ensures IsTrimmed(r)
  {
    if r != [] {
      assert r[0] == t[0];
    }
  }

  /** A white-space prefix, then `t` whose white-space suffix leaves `r`: all is space iff `r` is empty. */
  lemma TrimEmpty(s: string, t: string, r: string)
    requires |t| <= |s| && t == s[|s| - |t|..] && AllSpace(s[..|s| - |t|])
    requires t == [] || !IsSpace(t[0])
    requires |r| <= |t| && r == t[..|r|] && AllSpace(t[|r|..])
    ensures r == [] <==> AllSpace(s)
  {
    var n := |s| - |t|;
    if t != [] {
      assert t[0] == s[n];
    }
    if r == [] {
      assert AllSpace(t) by { assert t[|r|..] == t; }
      assert s == s[..n] + t;
      AllSpaceConcat(s[..n], t);
    }
  }

  /** A piece of a suffix of `s` holds only characters of `s`. */
  lemma TrimKeepsChars(s: string, t: string, r: string)
    requires |t| <= |s| && t == s[|s| - |t|..]
    requires |r| <= |t| && r == t[..|r|]
    ensures forall k | 0 <= k < |r| :: r[k] in s
  {
    var n := |s| - |t|;
    forall k | 0 <= k < |r| ensures r[k] in s {
      assert r[k] == s[n + k];
    }
  }

  /** Trim removes exactly the white space around a trimmed core. */
  lemma {:induction false} TrimPadded(lead: string, core: string, tail: string)
    requires AllSpace(lead) && AllSpace(tail) && IsTrimmed(core)
    ensures Trim(lead + core + tail) == core
  {
    var s := lead + core + tail;
    if core == [] {
      assert s == lead + tail;
      AllSpaceConcat(lead, tail);
      return;
    }
    var t := core + tail;
    assert s == lead + t;
    TrimStartPadded(lead, t);
    TrimEndPadded(core, tail);
    assert Trim(s) == TrimEnd(TrimStart(s));
  }

  lemma AllSpaceConcat(a: string, b: string)
    requires AllSpace(a) && AllSpace(b)
    ensures AllSpace(a + b)
  {
    forall i | 0 <= i < |a + b| ensures IsSpace((a + b)[i]) {
      if i < |a| { assert (a + b)[i] == a[i]; } else { assert (a + b)[i] == b[i - |a|]; }
    }
  }

  lemma {:induction false} TrimStartPadded(lead: string, rest: string)
    requires AllSpace(lead)
    requires rest == [] || !IsSpace(rest[0])
    ensures TrimStart(lead + rest) == rest
  {
    if lead != [] {
      assert (lead + rest)[1..] == lead[1..] + rest;
      TrimStartPadded(lead[1..], rest);
    } else {
      assert lead + rest == rest;
    }
  }

  lemma {:induction false} TrimEndPadded(rest: string, tail: string)
    requires AllSpace(tail)
    requires rest == [] || !IsSpace(rest[|rest| - 1])
    ensures TrimEnd(rest + tail) == rest
  {
    if tail != [] {
      var n := |tail|;
      assert (rest + tail)[..|rest + tail| - 1] == rest + tail[..n - 1];
      TrimEndPadded(rest, tail[..n - 1]);
    } else {
      assert rest + tail == rest;
    }
  }

  /** A string with no white space at either end is its own trim. */
  lemma TrimTrimmed(s: string)
    requires IsTrimmed(s)
    ensures Trim(s) == s
  {
    TrimPadded([], s, []);
    assert [] + s + [] == s;
  }

  /** Trimming twice is trimming once. */
  lemma TrimIdempotent(s: string)
    ensures Trim(Trim(s)) == Trim(s)
  {
    TrimTrimmed(Trim(s));
  }

  /** The position of the first `c` in `s`. */
  function IndexOf(s: string, c: char): (i: nat)
    requires c in s
    ensures i < |s| && s[i] == c && c !in s[..i]
  {
    if s[0] == c then 0
    else
      var i := 1 + IndexOf(s[1..], c);
      assert s[..i] == [s[0]] + s[1..][..i - 1];
      i
  }

  /** Array.prototype.join with a one-character separator. */
  function Join(parts: seq<string>, sep: char): string
    requires |parts| > 0
  {
    if |parts| == 1 then parts[0] else parts[0] + [sep] + Join(parts[1..], sep)
  }

  /**
   * String.prototype.split with a one-character separator. The pieces contain no separator and
   * joining them with it gives back `s`; together with SplitJoin this is all there is to split.
   */
  function Split(s: string, sep: char): (parts: seq<string>)
    ensures |parts| > 0
    ensures forall k | 0 <= k < |parts| :: sep !in parts[k]
    ensures Join(parts, sep) == s
    decreases |s|
  {
    if sep !in s then [s]
    else
      var i := IndexOf(s, sep);
      var rest := Split(s[i + 1..], sep);
      assert ([s[..i]] + rest)[1..] == rest;
      assert s == s[..i] + [sep] + s[i + 1..];
      [s[..i]] + rest
  }

  /** A piece without the separator, then the separator: split peels that piece off first. */
  lemma SplitCons(piece: string, sep: char, rest: string)
    requires sep !in piece
    ensures Split(piece + [sep] + rest, sep) == [piece] + Split(rest, sep)
  {
    var s := piece + [sep] + rest;
    assert s[|piece|] == sep;
    assert s[..|piece|] == piece;
    var i := IndexOf(s, sep);
    assert i == |piece|;
    assert s[i + 1..] == rest;
  }

  /** Splitting what was joined gives back the pieces. */
  lemma {:induction false} SplitJoin(parts: seq<string>, sep: char)
    requires |parts| > 0
    requires forall k | 0 <= k < |parts| :: sep !in parts[k]
    ensures Split(Join(parts, sep), sep) == parts
  {
    if |parts| > 1 {
      SplitCons(parts[0], sep, Join(parts[1..], sep));
      SplitJoin(parts[1..], sep);
      assert [parts[0]] + parts[1..] == parts;
    }
  }

  // ---------------------------------------------------------------- parseInt

  /** The value of `c` as a digit in base `radix` (10 or 16), or -1 if it is not one. */
  function DigitValue(c: char, radix: nat): (d: int)
    ensures -1 <= d < radix
  {
    var d :=
      if '0' <= c <= '9' then c as int - '0' as int
      else if 'a' <= c <= 'f' then c as int - 'a' as int + 10
      else if 'A' <= c <= 'F' then c as int - 'A' as int + 10
      else -1;
    if d < radix then d else -1
  }

  /** The length of the longest prefix of `s` made of base-`radix` digits. */
  function DigitRun(s: string, radix: nat): (n: nat)
    ensures n <= |s|
    ensures forall k | 0 <= k < n :: DigitValue(s[k], radix) >= 0
    ensures n < |s| ==> DigitValue(s[n], radix) < 0
  {
    if |s| > 0 && DigitValue(s[0], radix) >= 0 then 1 + DigitRun(s[1..], radix) else 0
  }

  /** The number a run of base-`radix` digits denotes, most significant first. */
  function DigitsValue(ds: string, radix: nat): nat
    requires forall k | 0 <= k < |ds| :: DigitValue(ds[k], radix) >= 0
  {
    if ds == [] then 0
    else
      var init := ds[..|ds| - 1];
      assert forall k | 0 <= k < |init| :: init[k] == ds[k];
      var high := DigitsValue(init, radix);
      var low := DigitValue(ds[|ds| - 1], radix);
      assert low >= 0;
      assert high * radix >= 0 by { ProductNonnegative(high, radix); }
      high * radix + low
  }

  lemma ProductNonnegative(a: nat, b: nat)
    ensures a * b >= 0
  {
  }

  /**
   * What parseInt makes of the text after the sign: a "0x"/"0X" prefix switches to base 16,
   * then the longest run of digits is the value; no digits at all is NaN (None).
   */
  function Unsigned(u: string): Option<nat> {
    var radix := if HasHexPrefix(u) then 16 else 10;
    var body := if HasHexPrefix(u) then u[2..] else u;
    var n := DigitRun(body, radix);
    if n == 0 then None else Some(DigitsValue(body[..n], radix))
  }

  predicate HasHexPrefix(u: string) {
    |u| >= 2 && u[0] == '0' && (u[1] == 'x' || u[1] == 'X')
  }

  /**
   * The global parseInt with no radix argument; None stands for NaN. Leading white space is
   * skipped and one optional sign is read before the digits. Negative zero is folded into
   * zero, which JavaScript treats as falsy all the same.
   */
  function ParseInt(s: string): Option<int> {
    Signed(TrimStart(s))
  }

  /** parseInt on text that no longer starts with white space: one optional sign, then Unsigned. */
  function Signed(t: string): Option<int> {
    var negative := |t| > 0 && t[0] == '-';
    var u := if |t| > 0 && (t[0] == '-' || t[0] == '+') then t[1..] else t;
    match Unsigned(u)
    case None => None
    case Some(v) => var n: int := v; Some(if negative then -n else n)
  }

  /** The decimal numeral of a natural number, as Number.prototype.toString writes it. */
  function Decimal(n: nat): (s: string)
    ensures |s| > 0 && forall k | 0 <= k < |s| :: '0' <= s[k] <= '9'
    ensures s[0] == '0' ==> s == "0"
  {
    if n < 10 then ['0' + n as char]
    else Decimal(n / 10) + ['0' + (n % 10) as char]
  }

  /** The decimal numeral of an integer, with a leading '-' when it is negative. */
  function Numeral(i: int): string {
    if i < 0 then "-" + Decimal(-i) else Decimal(i)
  }

  lemma {:induction false} DecimalValue(n: nat)
    ensures forall k | 0 <= k < |Decimal(n)| :: DigitValue(Decimal(n)[k], 10) >= 0
    ensures DigitsValue(Decimal(n), 10) == n
  {
    if n >= 10 {
      DecimalValue(n / 10);
      var s := Decimal(n);
      assert s[..|s| - 1] == Decimal(n / 10);
    }
  }

  /** The digit run stops where the digits stop. */
  lemma {:induction false} DigitRunPrefix(ds: string, rest: string, radix: nat)
    requires forall k | 0 <= k < |ds| :: DigitValue(ds[k], radix) >= 0
    requires rest == [] || DigitValue(rest[0], radix) < 0
    ensures DigitRun(ds + rest, radix) == |ds|
  {
    if ds != [] {
      assert (ds + rest)[1..] == ds[1..] + rest;
      DigitRunPrefix(ds[1..], rest, radix);
    } else {
      assert ds + rest == rest;
    }
  }

  lemma UnsignedDecimal(m: nat, rest: string)
    requires rest == [] || (DigitValue(rest[0], 10) < 0 && rest[0] != 'x' && rest[0] != 'X')
    ensures Unsigned(Decimal(m) + rest) == Some(m)
  {
    var d := Decimal(m);
    var u := d + rest;
    DecimalValue(m);
    assert !HasHexPrefix(u) by {
      if |u| >= 2 && u[0] == '0' {
        assert d == "0";
        assert u[1] == rest[0];
      }
    }
    DigitRunPrefix(d, rest, 10);
    assert u[..|d|] == d;
  }

  /**
   * parseInt reads back every integer that toString writes, whatever white space comes before
   * it and whatever follows it that is not a digit (or an 'x' that would make "0" a hex prefix).
   */
  lemma ParseIntNumeral(lead: string, i: int, rest: string)
    requires AllSpace(lead)
    requires rest == [] || (DigitValue(rest[0], 10) < 0 && rest[0] != 'x' && rest[0] != 'X')
    ensures ParseInt(lead + Numeral(i) + rest) == Some(i)
  {
    var t := Numeral(i) + rest;
    var s := lead + Numeral(i) + rest;
    assert s == lead + t;
    NumeralStart(i);
    assert t[0] == Numeral(i)[0];
    TrimStartPadded(lead, t);
    assert TrimStart(s) == t;
    SignedNumeral(i, rest);
    assert ParseInt(s) == Signed(t);
  }

  lemma NumeralStart(i: int)
    ensures |Numeral(i)| > 0
    ensures Numeral(i)[0] == '-' <==> i < 0
    ensures !IsSpace(Numeral(i)[0]) && Numeral(i)[0] != '+'
  {
    var d := Decimal(if i < 0 then -i else i);
    assert '0' <= d[0] <= '9';
  }

  lemma SignedNumeral(i: int, rest: string)
    requires rest == [] || (DigitValue(rest[0], 10) < 0 && rest[0] != 'x' && rest[0] != 'X')
    ensures Signed(Numeral(i) + rest) == Some(i)
  {
    var m: nat := if i < 0 then -i else i;
    UnsignedDecimal(m, rest);
    NumeralSplit(i, rest);
    if i < 0 {
      SignedMinus(Decimal(m) + rest, m);
    } else {
      SignedPlain(Decimal(m) + rest, m);
    }
  }

  lemma NumeralSplit(i: int, rest: string)
    ensures i < 0 ==> Numeral(i) + rest == ['-'] + (Decimal(-i) + rest)
    ensures i >= 0 ==> Numeral(i) + rest == Decimal(i) + rest
    ensures i >= 0 ==> (Decimal(i) + rest)[0] != '-' && (Decimal(i) + rest)[0] != '+'
  {
    if i >= 0 {
      assert (Decimal(i) + rest)[0] == Decimal(i)[0];
    }
  }

  lemma SignedMinus(u: string, v: nat)
    requires Unsigned(u) == Some(v)
    ensures Signed(['-'] + u) == Some(-(v as int))
  {
    assert (['-'] + u)[1..] == u;
  }

  lemma SignedPlain(t: string, v: nat)
    requires t == [] || (t[0] != '-' && t[0] != '+')
    requires Unsigned(t) == Some(v)
    ensures Signed(t) == Some(v)
  {
  }
}
