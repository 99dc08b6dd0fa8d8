/** The JavaScript string primitives that the server and the client apply to
    item-id lists: `String.prototype.trim`, `split(',')`, `Array.prototype.join`,
    the `Number(...)` conversion and the decimal rendering of integers. */
module JsText {
  import opened Wrappers
  import opened Seqs

  /** WhiteSpace and LineTerminator code points of ECMAScript (section 12.2 and
      12.3 of ECMA-262), the set that `trim` strips and that `Number` ignores
      around a numeral. */
  predicate IsJsWhitespace(c: char) {
    c == '\t' || c == '\n' || c == '\U{000B}' || c == '\U{000C}' || c == '\r' || c == ' '
    || c == '\U{00A0}' || c == '\U{1680}' || ('\U{2000}' <= c <= '\U{200A}')
    || c == '\U{2028}' || c == '\U{2029}' || c == '\U{202F}' || c == '\U{205F}'
    || c == '\U{3000}' || c == '\U{FEFF}'
  }

  /** Drops leading whitespace: the result is the longest suffix of `s` that
      does not start with whitespace. */
  function TrimStart(s: string): (r: string)
    ensures |r| <= |s| && r == s[|s| - |r|..]
    ensures forall i :: 0 <= i < |s| - |r| ==> IsJsWhitespace(s[i])
    ensures r == [] || !IsJsWhitespace(r[0])
  {
    if |s| > 0 && IsJsWhitespace(s[0]) then TrimStart(s[1..]) else s
  }

  /** Drops trailing whitespace: the result is the longest prefix of `s` that
      does not end with whitespace. */
  function TrimEnd(s: string): (r: string)
    ensures |r| <= |s| && r == s[..|r|]
    ensures forall i :: |r| <= i < |s| ==> IsJsWhitespace(s[i])
    ensures r == [] || !IsJsWhitespace(r[|r| - 1])
  {
    if |s| > 0 && IsJsWhitespace(s[|s| - 1]) then TrimEnd(s[..|s| - 1]) else s
  }

  /** Whitespace dropped at both ends, as JavaScript's string trimming does. */
  function Trim(s: string): (r: string)
    ensures |r| <= |s|
    ensures NoOuterWhitespace(r)
    ensures r == [] <==> AllWhitespace(s)
  {
    TrimEmptyIff(s, TrimStart(s), TrimEnd(TrimStart(s)));
    TrimEnd(TrimStart(s))
  }

  /** The trim of `s` is a slice of `s` with only whitespace before and after it:
      exactly the outer whitespace is removed. */
  lemma TrimIsMiddle(s: string)
    ensures exists i, j :: 0 <= i <= j <= |s| && Trim(s) == s[i..j] && WhitespaceOutside(s, i, j)
  {
    TrimPiece(s, TrimStart(s), TrimEnd(TrimStart(s)));
    var i := |s| - |TrimStart(s)|;
    assert WhitespaceOutside(s, i, i + |Trim(s)|);
  }


  /** Trimming the start and then the end leaves the piece of `s` that
      starts after its leading whitespace. */
  lemma TrimPiece(s: string, t: string, r: string)
    requires t == TrimStart(s) && r == TrimEnd(t)
    ensures |s| - |t| + |r| <= |s|
    ensures r == s[|s| - |t|..|s| - |t| + |r|]
    ensures WhitespaceOutside(s, |s| - |t|, |s| - |t| + |r|)
  {
    PrefixOfSuffix(s, t, r);
  }

  /** A prefix `r` of a suffix `t` of `s`, followed in `t` by whitespace only,
      is a slice of `s` followed by whitespace only. */
  lemma PrefixOfSuffix(s: string, t: string, r: string)
    requires |r| <= |t| <= |s| && t == s[|s| - |t|..] && r == t[..|r|]
    requires forall k :: 0 <= k < |s| - |t| ==> IsJsWhitespace(s[k])
    requires forall k :: |r| <= k < |t| ==> IsJsWhitespace(t[k])
    ensures r == s[|s| - |t|..|s| - |t| + |r|]
    ensures WhitespaceOutside(s, |s| - |t|, |s| - |t| + |r|)
  {
    var i := |s| - |t|;
    forall k | i + |r| <= k < |s|
      ensures IsJsWhitespace(s[k])
    {
      assert s[k] == t[k - i];
    }
  }

  /** Both trims leave a text with clean ends, which is empty exactly when `s` is all whitespace. */
  lemma TrimEmptyIff(s: string, t: string, r: string)
    requires t == TrimStart(s) && r == TrimEnd(t)
    ensures |r| <= |s|
    ensures NoOuterWhitespace(r)
    ensures r == [] <==> AllWhitespace(s)
  {
    TrimPiece(s, t, r);
  }

  /** Every character of `s` is whitespace (so does the empty string). */
  predicate AllWhitespace(s: string)
  {
    forall k :: 0 <= k < |s| ==> IsJsWhitespace(s[k])
  }

  /** `s` neither starts nor ends with whitespace. */
  predicate NoOuterWhitespace(s: string)
  {
    s == [] || (!IsJsWhitespace(s[0]) && !IsJsWhitespace(s[|s| - 1]))
  }

  /** Every character of `s` before index `i` and from index `j` on is whitespace. */
  predicate WhitespaceOutside(s: string, i: int, j: int)
    requires 0 <= i <= j <= |s|
  {
    (forall k :: 0 <= k < i ==> IsJsWhitespace(s[k])) && (forall k :: j <= k < |s| ==> IsJsWhitespace(s[k]))
  }

  /** A string with no whitespace at either end is its own trim. */
  lemma TrimNoop(s: string)
    requires s == [] || (!IsJsWhitespace(s[0]) && !IsJsWhitespace(s[|s| - 1]))
    ensures Trim(s) == s
  {
    assert TrimStart(s) == s;
  }

  /** `s.length`: the number of UTF-16 code units, where a code point above
      U+FFFF takes two. */
  function Utf16Length(s: string): (n: nat)
    ensures |s| <= n <= 2 * |s|
    ensures (forall k :: 0 <= k < |s| ==> s[k] as int <= 0xFFFF) ==> n == |s|
  {
    if |s| == 0 then 0
    else (if s[|s| - 1] as int > 0xFFFF then 2 else 1) + Utf16Length(s[..|s| - 1])
  }

  /** JavaScript's split at a one-character separator: the pieces between
      consecutive separators, so the empty string splits into one empty piece. */
  function Split(s: string, sep: char): (r: seq<string>)
    ensures |r| == Count(s, sep) + 1
    ensures forall k :: 0 <= k < |r| ==> sep !in r[k]
  {
    if |s| == 0 then [""]
    else
      var rest := Split(s[1..], sep);
      if s[0] == sep then [""] + rest
      else [[s[0]] + rest[0]] + rest[1..]
  }

  /** JavaScript's join: the parts with the separator between neighbours; no parts give the empty string. */
  function Join(parts: seq<string>, sep: char): (r: string)
    ensures |parts| == 0 ==> r == ""
    ensures (forall k :: 0 <= k < |parts| ==> sep !in parts[k]) ==>
              Count(r, sep) == (if |parts| == 0 then 0 else |parts| - 1)
  {
    if |parts| == 0 then ""
    else if |parts| == 1 then parts[0]
    else
      var rest := Join(parts[1..], sep);
      CountAppend(parts[0], [sep], sep);
      CountAppend(parts[0] + [sep], rest, sep);
      assert forall k :: 1 <= k < |parts| ==> parts[1..][k - 1] == parts[k];
      parts[0] + [sep] + rest
  }

  lemma {:induction false} SplitNoSep(a: string, sep: char)
    requires sep !in a
    ensures Split(a, sep) == [a]
  {
    if |a| > 0 {
      SplitNoSep(a[1..], sep);
      assert [a[0]] + a[1..] == a;
    }
  }

  /** One step of `Split` on a text starting with a separator. */
  lemma SplitAtSep(t: string, sep: char)
    ensures Split([sep] + t, sep) == [""] + Split(t, sep)
  {
    assert ([sep] + t)[1..] == t;
  }

  /** One step of `Split` on a text starting with another character. */
  lemma SplitAtChar(c: char, t: string, sep: char)
    requires c != sep
    ensures Split([c] + t, sep) == [[c] + Split(t, sep)[0]] + Split(t, sep)[1..]
  {
    assert ([c] + t)[1..] == t;
  }

  lemma {:induction false} SplitAfterPiece(a: string, sep: char, b: string)
    requires sep !in a
    ensures Split(a + [sep] + b, sep) == [a] + Split(b, sep)
  {
    if |a| == 0 {
      assert a + [sep] + b == [sep] + b;
      SplitAtSep(b, sep);
    } else {
      var t := a[1..] + [sep] + b;
      assert a + [sep] + b == [a[0]] + t;
      SplitAfterPiece(a[1..], sep, b);
      SplitAtChar(a[0], t, sep);
      assert [a[0]] + a[1..] == a;
    }
  }

  /** Splitting a join gives back the pieces, when there is at least one piece
      and none of them contains the separator. */
  lemma {:induction false} SplitJoin(parts: seq<string>, sep: char)
    requires |parts| > 0
    requires forall k :: 0 <= k < |parts| ==> sep !in parts[k]
    ensures Split(Join(parts, sep), sep) == parts
  {
    if |parts| == 1 {
      SplitNoSep(parts[0], sep);
    } else {
      SplitJoin(parts[1..], sep);
      SplitAfterPiece(parts[0], sep, Join(parts[1..], sep));
      assert [parts[0]] + parts[1..] == parts;
    }
  }

  // ---------------------------------------------------------------- numbers

  predicate IsDigit(c: char) { '0' <= c <= '9' }

  predicate IsDigits(s: string) { forall k :: 0 <= k < |s| ==> IsDigit(s[k]) }

  function DigitValue(c: char): nat
    requires IsDigit(c)
  {
    c as int - '0' as int
  }

  function DigitChar(d: nat): (c: char)
    requires d < 10
    ensures IsDigit(c) && DigitValue(c) == d
  {
    ('0' as int + d) as char
  }

  /** The value of a decimal numeral, most significant digit first. */
  function DecimalValue(s: string): nat
    requires IsDigits(s)
  {
    if |s| == 0 then 0 else 10 * DecimalValue(s[..|s| - 1]) + DigitValue(s[|s| - 1])
  }

  /** The value of a decimal integer literal: an optional `+` or `-` followed by
      at least one digit; `None` for any other text. */
  function IntLiteral(t: string): (r: Option<int>)
    ensures r.Some? ==> |t| > 0 && !IsJsWhitespace(t[0]) && !IsJsWhitespace(t[|t| - 1])
  {
    if |t| > 0 && IsDigits(t) then Some(DecimalValue(t))
    else if |t| > 1 && t[0] == '-' && IsDigits(t[1..]) then Some(0 - DecimalValue(t[1..]) as int)
    else if |t| > 1 && t[0] == '+' && IsDigits(t[1..]) then Some(DecimalValue(t[1..]))
    else None
  }

  /** A JavaScript number as far as it is modelled here. */
  datatype JsNum = Num(value: int) | NaN

  /** JavaScript's numeric conversion of a string: whitespace around the numeral is ignored, a blank
      string is 0, a decimal integer literal is its value, anything else NaN. */
  function ToNumber(s: string): (r: JsNum)
    ensures Trim(s) == "" ==> r == Num(0)
    ensures Trim(s) != "" ==> (r.Num? <==> IntLiteral(Trim(s)).Some?)
    ensures Trim(s) != "" && r.Num? ==> IntLiteral(Trim(s)) == Some(r.value)
  {
    var t := Trim(s);
    if t == "" then Num(0)
    else match IntLiteral(t)
      case Some(n) => Num(n)
      case None => NaN
  }

  /** A blank string converts to 0, not NaN. */
  lemma BlankIsZero(s: string)
    requires forall k :: 0 <= k < |s| ==> IsJsWhitespace(s[k])
    ensures ToNumber(s) == Num(0)
  {
    assert |TrimStart(s)| == 0;
  }

  /** Decimal rendering of a natural number, no leading zeros. */
  function NatToString(n: nat): (s: string)
    ensures |s| > 0 && IsDigits(s)
  {
    if n < 10 then [DigitChar(n)] else NatToString(n / 10) + [DigitChar(n % 10)]
  }

  /** JavaScript's decimal rendering of an integer number: a minus sign for negatives, then the digits. */
  function IntToString(n: int): (s: string)
    ensures |s| > 0
    ensures n >= 0 ==> IsDigits(s)
    ensures n < 0 ==> |s| > 1 && s[0] == '-' && IsDigits(s[1..])
  {
    if n < 0 then "-" + NatToString(-n) else NatToString(n)
  }

  lemma {:induction false} DecimalOfNatToString(n: nat)
    ensures DecimalValue(NatToString(n)) == n
  {
    if n >= 10 {
      var s := NatToString(n);
      assert s[..|s| - 1] == NatToString(n / 10);
      DecimalOfNatToString(n / 10);
    }
  }

  /** The rendering of an integer has no comma and no whitespace at its ends. */
  lemma IntToStringShape(n: int)
    ensures |IntToString(n)| > 0 && ',' !in IntToString(n)
    ensures !IsJsWhitespace(IntToString(n)[0]) && !IsJsWhitespace(IntToString(n)[|IntToString(n)| - 1])
  {
    var s := IntToString(n);
    if n < 0 {
      var d := NatToString(-n);
      assert s[|s| - 1] == d[|d| - 1];
      forall k | 0 <= k < |s| ensures s[k] != ',' {
        if k > 0 { assert s[k] == d[k - 1]; }
      }
    } else {
      forall k | 0 <= k < |s| ensures s[k] != ',' {
        assert IsDigit(s[k]);
      }
    }
  }

  /** Reading the rendering of an integer as a literal gives the integer back. */
  lemma {:induction false} IntLiteralOfIntToString(n: int)
    ensures IntLiteral(IntToString(n)) == Some(n)
  {
    var s := IntToString(n);
    if n < 0 {
      var d := NatToString(-n);
      DecimalOfNatToString(-n);
      assert s[1..] == d;
      assert !IsDigits(s) by { assert !IsDigit(s[0]); }
    } else {
      DecimalOfNatToString(n);
    }
  }

  /** `Number` inverts the decimal rendering of every integer, and the rendering
      contains neither a comma nor surrounding whitespace. */
  lemma ToNumberOfIntToString(n: int)
    ensures ToNumber(IntToString(n)) == Num(n)
    ensures ',' !in IntToString(n)
    ensures Trim(IntToString(n)) == IntToString(n)
  {
    IntToStringShape(n);
    TrimNoop(IntToString(n));
    IntLiteralOfIntToString(n);
  }
}
