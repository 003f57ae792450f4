/** The JavaScript string primitives the model layer relies on:
    `indexOf`, `lastIndexOf`, `substr`, `replace` with an empty replacement
    and the string-to-number conversion performed by `s * 1`.
    JavaScript strings are modelled as `seq<char>`. */
module JsString {

  function Max(a: int, b: int): int { if a < b then b else a }
  function Min(a: int, b: int): int { if a < b then a else b }

  /** `p` occurs in `s` starting at index `k`. */
  predicate OccursAt(s: string, p: string, k: int) {
    0 <= k && k + |p| <= |s| && s[k..k + |p|] == p
  }

  /** A one-character pattern occurs exactly where that character is. */
  lemma OccursAtChar(s: string, c: char, k: int)
    ensures OccursAt(s, [c], k) <==> 0 <= k < |s| && s[k] == c
  {
    if 0 <= k < |s| {
      assert s[k..k + 1] == [s[k]];
    }
  }

  /** `s.indexOf(p)`: the first index where `p` occurs, or -1. */
  function IndexOf(s: string, p: string): (r: int)
    ensures -1 <= r
    ensures r >= 0 ==> OccursAt(s, p, r)
    ensures forall k :: 0 <= k && (r < 0 || k < r) ==> !OccursAt(s, p, k)
  {
    IndexFrom(s, p, 0)
  }

  function IndexFrom(s: string, p: string, from: nat): (r: int)
    requires from <= |s|
    decreases |s| - from
    ensures r == -1 || (from <= r && OccursAt(s, p, r))
    ensures forall k :: from <= k && (r < 0 || k < r) ==> !OccursAt(s, p, k)
  {
    if from + |p| > |s| then -1
    else if s[from..from + |p|] == p then from
    else IndexFrom(s, p, from + 1)
  }

  /** `s.lastIndexOf(p)`: the last index where `p` occurs, or -1. */
  function LastIndexOf(s: string, p: string): (r: int)
    ensures -1 <= r
    ensures r >= 0 ==> OccursAt(s, p, r)
    ensures forall k :: r < k ==> !OccursAt(s, p, k)
  {
    LastIndexAtMost(s, p, |s| - |p|)
  }

  function LastIndexAtMost(s: string, p: string, hi: int): (r: int)
    requires hi <= |s| - |p|
    decreases hi + 1
    ensures -1 <= r <= Max(hi, -1)
    ensures r >= 0 ==> OccursAt(s, p, r)
    ensures forall k :: r < k <= hi ==> !OccursAt(s, p, k)
  {
    if hi < 0 then -1
    else if s[hi..hi + |p|] == p then hi
    else LastIndexAtMost(s, p, hi - 1)
  }

  /** `s.substr(start, length)` (ECMAScript Annex B): a negative start counts
      from the end, a negative length is empty, both are clamped to `s`. */
  function Substr(s: string, start: int, length: int): (r: string)
    ensures 0 <= start <= |s| && 0 <= length ==> r == s[start..Min(start + length, |s|)]
    ensures length <= 0 ==> r == ""
  {
    var st := if start < 0 then Max(|s| + start, 0) else start;
    var len := Min(Max(length, 0), |s| - st);
    if len <= 0 then "" else s[st..st + len]
  }

  /** `s.substr(start)`: from `start` to the end. */
  function SubstrFrom(s: string, start: int): (r: string)
    ensures 0 <= start <= |s| ==> r == s[start..]
  {
    Substr(s, start, |s|)
  }

  /** `s.replace(p, '')` with a string pattern: only the first occurrence is removed. */
  function RemoveFirst(s: string, p: string): (r: string)
    ensures IndexOf(s, p) < 0 ==> r == s
    ensures IndexOf(s, p) >= 0 ==>
      |r| == |s| - |p| && s == r[..IndexOf(s, p)] + p + r[IndexOf(s, p)..]
  {
    var i := IndexOf(s, p);
    if i < 0 then s else s[..i] + s[i + |p|..]
  }

  /** A url built from a known prefix loses exactly that prefix. */
  lemma RemoveFirstOfPrefix(p: string, rest: string)
    ensures RemoveFirst(p + rest, p) == rest
  {
    assert OccursAt(p + rest, p, 0);
    assert IndexOf(p + rest, p) == 0;
  }

  // ---------------------------------------------------------------------------
  // Number(s), the conversion behind `s * 1`

  /** StrWhiteSpaceChar of ECMAScript: white space and line terminators. */
  predicate IsJsSpace(c: char) {
    c == '\t' || c == '\n' || c == '\U{B}' || c == '\U{C}' || c == '\r' || c == ' '
    || c == '\U{A0}' || c == '\U{1680}' || ('\U{2000}' <= c <= '\U{200A}')
    || c == '\U{2028}' || c == '\U{2029}' || c == '\U{202F}' || c == '\U{205F}'
    || c == '\U{3000}' || c == '\U{FEFF}'
  }

  function TrimStart(s: string): (r: string)
    ensures r == [] || !IsJsSpace(r[0])
    ensures |r| <= |s| && r == s[|s| - |r|..]
    ensures forall i :: 0 <= i < |s| - |r| ==> IsJsSpace(s[i])
  {
    if s != [] && IsJsSpace(s[0]) then TrimStart(s[1..]) else s
  }

  function TrimEnd(s: string): (r: string)
    ensures r == [] || !IsJsSpace(r[|r| - 1])
    ensures |r| <= |s| && r == s[..|r|]
    ensures forall i :: |r| <= i < |s| ==> IsJsSpace(s[i])
  {
    if s != [] && IsJsSpace(s[|s| - 1]) then TrimEnd(s[..|s| - 1]) else s
  }

  /** The value of a hexadecimal digit character, or -1. */
  function DigitValue(c: char): int {
    if '0' <= c <= '9' then c as int - '0' as int
    else if 'a' <= c <= 'f' then c as int - 'a' as int + 10
    else if 'A' <= c <= 'F' then c as int - 'A' as int + 10
    else -1
  }

  predicate AllDigits(ds: string, base: nat) {
    forall i :: 0 <= i < |ds| ==> 0 <= DigitValue(ds[i]) < base
  }

  /** The value of a digit string in the given base, most significant digit first. */
  function DigitsValue(ds: string, base: nat): (v: nat)
    requires AllDigits(ds, base)
  {
    if ds == [] then 0 else DigitsValue(ds[..|ds| - 1], base) * base + DigitValue(ds[|ds| - 1])
  }

  /** The integer value of an already trimmed numeric literal, if it is one of the
      integer forms: optional sign and decimal digits, or 0x/0o/0b with digits. */
  function IntegerLiteral(t: string): Option<int> {
    if t == [] then Some(0)
    else if |t| > 2 && t[0] == '0' && (t[1] == 'x' || t[1] == 'X') && AllDigits(t[2..], 16) then Some(DigitsValue(t[2..], 16))
    else if |t| > 2 && t[0] == '0' && (t[1] == 'o' || t[1] == 'O') && AllDigits(t[2..], 8) then Some(DigitsValue(t[2..], 8))
    else if |t| > 2 && t[0] == '0' && (t[1] == 'b' || t[1] == 'B') && AllDigits(t[2..], 2) then Some(DigitsValue(t[2..], 2))
    else if |t| > 1 && t[0] == '-' && AllDigits(t[1..], 10) then Some(-(DigitsValue(t[1..], 10) as int))
    else if |t| > 1 && t[0] == '+' && AllDigits(t[1..], 10) then Some(DigitsValue(t[1..], 10))
    else if AllDigits(t, 10) then Some(DigitsValue(t, 10))
    else None
  }

  datatype Option<T> = None | Some(value: T)

  /** `Number(s)`, partially: the integer it denotes, or None for NaN. The white space
      around the literal is ignored and the empty (or blank) string is 0. */
  function ToNumber(s: string): (r: Option<int>)
    ensures (forall i :: 0 <= i < |s| ==> IsJsSpace(s[i])) ==> r == Some(0)
    ensures s != [] && AllDigits(s, 10) ==> r == Some(DigitsValue(s, 10))
    ensures |s| > 1 && s[0] == '-' && AllDigits(s[1..], 10) ==> r == Some(-(DigitsValue(s[1..], 10) as int))
    ensures |s| > 1 && s[0] == '+' && AllDigits(s[1..], 10) ==> r == Some(DigitsValue(s[1..], 10))
    ensures r.Some? ==> forall i :: 0 <= i < |s| ==> IsJsSpace(s[i]) || IsLiteralChar(s[i])
    ensures s != [] && !IsJsSpace(s[0]) && !('0' <= s[0] <= '9') && s[0] != '+' && s[0] != '-' ==> r.None?
  {
    BlankLiteral(s);
    DecimalLiteral(s);
    SignedLiteral(s);
    TrimmedAround(s);
    LeadingOther(s);
    IntegerLiteral(TrimEnd(TrimStart(s)))
  }

  /** A blank text trims to nothing, which is 0. */
  lemma BlankLiteral(s: string)
    ensures (forall i :: 0 <= i < |s| ==> IsJsSpace(s[i])) ==> IntegerLiteral(TrimEnd(TrimStart(s))) == Some(0)
  {
  }

  /** Decimal digits alone are their own value. */
  lemma DecimalLiteral(s: string)
    ensures s != [] && AllDigits(s, 10) ==> IntegerLiteral(TrimEnd(TrimStart(s))) == Some(DigitsValue(s, 10))
  {
    if s != [] && AllDigits(s, 10) {
      DigitsUntrimmed(s);
    }
  }

  /** A sign followed by decimal digits is the signed value of the digits. */
  lemma SignedLiteral(s: string)
    ensures |s| > 1 && s[0] == '-' && AllDigits(s[1..], 10) ==> IntegerLiteral(TrimEnd(TrimStart(s))) == Some(-(DigitsValue(s[1..], 10) as int))
    ensures |s| > 1 && s[0] == '+' && AllDigits(s[1..], 10) ==> IntegerLiteral(TrimEnd(TrimStart(s))) == Some(DigitsValue(s[1..], 10))
  {
    if |s| > 1 && (s[0] == '-' || s[0] == '+') && AllDigits(s[1..], 10) {
      SignedUntrimmed(s);
      SignedDigits(s);
    }
  }

  /** The characters an integer literal may hold: hexadecimal digits, signs and the
      radix letters. */
  predicate IsLiteralChar(c: char) {
    0 <= DigitValue(c) || c == '+' || c == '-' || c == 'x' || c == 'X' || c == 'o' || c == 'O'
  }

  /** Every character of an integer literal is a literal character. */
  lemma LiteralChars(t: string)
    ensures IntegerLiteral(t).Some? ==> forall i :: 0 <= i < |t| ==> IsLiteralChar(t[i])
  {
    if IntegerLiteral(t).Some? && t != [] {
      forall i | 0 <= i < |t| ensures IsLiteralChar(t[i]) {
        if i >= 2 && |t| > 2 && t[0] == '0' && !AllDigits(t, 10) {
          assert t[i] == t[2..][i - 2];
        } else if i >= 1 && (t[0] == '-' || t[0] == '+') && !AllDigits(t, 10) {
          assert t[i] == t[1..][i - 1];
        }
      }
    }
  }

  /** What trimming removes is white space, and what it keeps is a middle slice. */
  lemma TrimmedAround(s: string)
    ensures IntegerLiteral(TrimEnd(TrimStart(s))).Some? ==> forall i :: 0 <= i < |s| ==> IsJsSpace(s[i]) || IsLiteralChar(s[i])
  {
    var t := TrimEnd(TrimStart(s));
    var off := |s| - |TrimStart(s)|;
    if IntegerLiteral(t).Some? {
      LiteralChars(t);
      TrimmedMiddle(s);
      forall i | 0 <= i < |s| ensures IsJsSpace(s[i]) || IsLiteralChar(s[i]) {
        if off <= i < off + |t| {
          assert IsLiteralChar(t[i - off]);
        }
      }
    }
  }

  /** Trimming keeps a middle slice of the text and removes only white space. */
  lemma TrimmedMiddle(s: string)
    ensures var t, off := TrimEnd(TrimStart(s)), |s| - |TrimStart(s)|;
      && off + |t| <= |s|
      && (forall i :: off <= i < off + |t| ==> s[i] == t[i - off])
      && (forall i :: 0 <= i < |s| && !(off <= i < off + |t|) ==> IsJsSpace(s[i]))
  {
    var u := TrimStart(s);
    var t := TrimEnd(u);
    var off := |s| - |u|;
    forall i | off <= i < |s| ensures s[i] == u[i - off] {
    }
    forall i | off <= i < off + |t| ensures s[i] == t[i - off] {
      assert u[i - off] == t[i - off];
    }
    forall i | 0 <= i < |s| && !(off <= i < off + |t|) ensures IsJsSpace(s[i]) {
      if off <= i {
        assert IsJsSpace(u[i - off]);
      }
    }
  }

  /** A text whose first character is neither white space, a decimal digit nor a sign
      keeps that character first once trimmed, and is no integer literal. */
  lemma LeadingOther(s: string)
    ensures s != [] && !IsJsSpace(s[0]) && !('0' <= s[0] <= '9') && s[0] != '+' && s[0] != '-'
      ==> IntegerLiteral(TrimEnd(TrimStart(s))).None?
  {
    if s != [] && !IsJsSpace(s[0]) && !('0' <= s[0] <= '9') && s[0] != '+' && s[0] != '-' {
      assert TrimStart(s) == s;
      var t := TrimEnd(s);
      assert t != [];
      assert t[0] == s[0];
      assert !(0 <= DigitValue(t[0]) < 10);
    }
  }

  /** A sign followed by decimal digits has no white space to trim. */
  lemma SignedDigits(s: string)
    requires |s| > 1 && (s[0] == '-' || s[0] == '+') && AllDigits(s[1..], 10)
    ensures IntegerLiteral(s) == if s[0] == '-' then Some(-(DigitsValue(s[1..], 10) as int)) else Some(DigitsValue(s[1..], 10))
  {
    assert DigitValue(s[0]) < 0;
  }

  lemma SignedUntrimmed(s: string)
    requires |s| > 1 && (s[0] == '-' || s[0] == '+') && AllDigits(s[1..], 10)
    ensures TrimEnd(TrimStart(s)) == s
  {
    assert TrimStart(s) == s;
    DecimalDigit(s[1..][|s| - 2]);
  }

  /** A digit string has no white space to trim and reads as a plain decimal. */
  lemma DigitsUntrimmed(s: string)
    requires s != [] && AllDigits(s, 10)
    ensures TrimEnd(TrimStart(s)) == s
    ensures IntegerLiteral(s) == Some(DigitsValue(s, 10))
  {
    DigitsNotTrimmed(s);
    DigitsLiteral(s);
  }

  lemma DigitsNotTrimmed(s: string)
    requires s != [] && AllDigits(s, 10)
    ensures TrimEnd(TrimStart(s)) == s
  {
    DecimalDigit(s[0]);
    DecimalDigit(s[|s| - 1]);
    assert TrimStart(s) == s;
  }

  lemma DigitsLiteral(s: string)
    requires s != [] && AllDigits(s, 10)
    ensures IntegerLiteral(s) == Some(DigitsValue(s, 10))
  {
    DecimalDigit(s[0]);
    if |s| > 1 {
      DecimalDigit(s[1]);
    }
  }

  /** A character of decimal value is a decimal digit, hence neither white space
      nor a sign nor a radix letter. */
  lemma DecimalDigit(c: char)
    requires 0 <= DigitValue(c) < 10
    ensures '0' <= c <= '9' && !IsJsSpace(c)
  {
  }

  // ---------------------------------------------------------------------------
  // Decimal rendering of natural numbers, the inverse used by URL templates

  function DigitChar(d: nat): (c: char)
    requires d < 10
    ensures DigitValue(c) == d
  {
    ('0' as int + d) as char
  }

  /** The decimal text of `n`, without leading zeros, as a URL template prints it. */
  function NatToString(n: nat): (s: string)
    ensures |s| > 0 && AllDigits(s, 10)
    ensures n >= 10 ==> s[0] != '0'
  {
    if n < 10 then [DigitChar(n)] else NatToString(n / 10) + [DigitChar(n % 10)]
  }

  lemma {:induction false} NatToStringValue(n: nat)
    ensures DigitsValue(NatToString(n), 10) == n
  {
    var s := NatToString(n);
    if n >= 10 {
      NatToStringValue(n / 10);
      assert s[..|s| - 1] == NatToString(n / 10);
    }
  }

  /** Reading back a printed natural number gives the number. */
  lemma NatToStringRoundTrip(n: nat)
    ensures ToNumber(NatToString(n)) == Some(n)
  {
    NatToStringValue(n);
  }

  /** The digits of a printed number hold neither a hyphen nor a slash. */
  lemma DigitsHaveNoSeparator(s: string)
    requires AllDigits(s, 10)
    ensures '-' !in s && '/' !in s
  {
  }
}
