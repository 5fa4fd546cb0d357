/**
 * The slice of JavaScript's value and string semantics that the three loggers rely on:
 * loosely typed record fields with truthiness, `String(n)` of an integer, `padStart`,
 * `trim`, ASCII `toLowerCase`, `join`, and decimal digit strings.
 */
module JsText {
  import opened Wrappers

  /** A JSON-compatible scalar as it appears in a stored record field. */
  datatype Value = Undefined | Null | Bool(b: bool) | Num(n: real) | Str(s: string)

  /** JavaScript truthiness: `undefined`, `null`, `false`, `0` and `''` are falsy. */
  predicate Truthy(v: Value)
  {
    match v
    case Undefined => false
    case Null => false
    case Bool(b) => b
    case Num(n) => n != 0.0
    case Str(s) => s != ""
  }

  /** `v || fallback`: the first operand when it is truthy, otherwise the second. */
  function Or(v: Value, fallback: Value): (r: Value)
    ensures r == v || r == fallback
    ensures Truthy(r) <==> Truthy(v) || Truthy(fallback)
    ensures Truthy(v) ==> r == v
    ensures !Truthy(v) ==> r == fallback
  {
    if Truthy(v) then v else fallback
  }

  /** `v !== undefined ? v : ''` */
  function DefinedOrEmpty(v: Value): (r: Value)
    ensures r != Undefined
    ensures v != Undefined ==> r == v
    ensures v == Undefined ==> r == Str("")
  {
    if v != Undefined then v else Str("")
  }

  // ---------------------------------------------------------------- digits

  predicate IsDigit(c: char)
  {
    '0' <= c <= '9'
  }

  predicate AllDigits(s: string)
  {
    forall i :: 0 <= i < |s| ==> IsDigit(s[i])
  }

  function DigitChar(d: nat): (c: char)
    requires d < 10
    ensures IsDigit(c)
  {
    (48 + d) as char
  }

  function DigitValue(c: char): (d: nat)
    requires IsDigit(c)
    ensures d < 10
  {
    c as int - 48
  }

  /** The decimal representation of `n`, without leading zeros (`String(n)` for n >= 0). */
  function NatToString(n: nat): (s: string)
    ensures 1 <= |s| && AllDigits(s)
    ensures n < 10 <==> |s| == 1
    ensures s[0] == '0' <==> n == 0
    decreases n
  {
    if n < 10 then [DigitChar(n)] else NatToString(n / 10) + [DigitChar(n % 10)]
  }

  /** `String(n)` for an integer `n`; it matches JavaScript below 10^21 in magnitude, where no exponent is used. */
  function IntToString(n: int): string
  {
    if n < 0 then "-" + NatToString(-n) else NatToString(n)
  }

  /** The number a string of decimal digits denotes (the inverse of NatToString). */
  function DigitsValue(s: string): nat
    requires AllDigits(s)
    decreases |s|
  {
    if s == [] then 0 else DigitsValue(s[..|s| - 1]) * 10 + DigitValue(s[|s| - 1])
  }

  lemma {:induction false} NatToStringRoundTrip(n: nat)
    ensures DigitsValue(NatToString(n)) == n
    decreases n
  {
    var s := NatToString(n);
    if n >= 10 {
      NatToStringRoundTrip(n / 10);
      assert s[..|s| - 1] == NatToString(n / 10);
    }
  }

  /** Reads an optionally signed decimal integer; `None` for any other text. */
  function ParseInt(s: string): Option<int>
  {
    if |s| >= 2 && s[0] == '-' && AllDigits(s[1..]) then Some(0 - DigitsValue(s[1..]) as int)
    else if s != [] && AllDigits(s) then Some(DigitsValue(s))
    else None
  }

  /** `String(n)` of any integer reads back as that integer. */
  lemma IntToStringRoundTrip(n: int)
    ensures ParseInt(IntToString(n)) == Some(n)
  {
    var s := IntToString(n);
    if n < 0 {
      var m: nat := -n;
      var digits := NatToString(m);
      assert s == "-" + digits;
      assert s[1..] == digits;
      NatToStringRoundTrip(m);
      assert |s| >= 2 && s[0] == '-' && AllDigits(s[1..]);
    } else {
      assert s == NatToString(n);
      NatToStringRoundTrip(n);
      assert IsDigit(s[0]);
    }
  }

  function Power10(k: nat): (p: nat)
    ensures p >= 1
  {
    if k == 0 then 1 else 10 * Power10(k - 1)
  }

  /** Reading the concatenation of two digit strings shifts the first by the length of the second. */
  lemma {:induction false} DigitsValueAppend(a: string, b: string)
    requires AllDigits(a) && AllDigits(b)
    ensures AllDigits(a + b)
    ensures DigitsValue(a + b) == DigitsValue(a) * Power10(|b|) + DigitsValue(b)
    decreases |b|
  {
    if b == [] {
      assert a + b == a;
    } else {
      var b' := b[..|b| - 1];
      var c := b[|b| - 1];
      var d := DigitValue(c);
      assert b == b' + [c];
      assert a + b == (a + b') + [c];
      DigitsValueAppend(a, b');
      DigitsValueSnoc(a + b', c);
      DigitsValueSnoc(b', c);
      assert Power10(|b|) == Power10(|b'|) * 10;
      ShiftByDigit(DigitsValue(a + b), DigitsValue(a + b'), DigitsValue(a), Power10(|b'|), DigitsValue(b'), d,
                   DigitsValue(b), Power10(|b|));
    }
  }

  lemma DigitsValueSnoc(s: string, c: char)
    requires AllDigits(s) && IsDigit(c)
    ensures AllDigits(s + [c])
    ensures DigitsValue(s + [c]) == DigitsValue(s) * 10 + DigitValue(c)
  {
    assert (s + [c])[..|s|] == s;
  }

  /** One more digit on both sides of `whole == x * p + y` keeps the shape. */
  lemma ShiftByDigit(whole: int, prev: int, x: int, p: int, y: int, d: int, tail: int, p10: int)
    requires whole == prev * 10 + d && prev == x * p + y
    requires tail == y * 10 + d && p10 == p * 10
    ensures whole == x * p10 + tail
  {
    calc {
      whole;
      (x * p + y) * 10 + d;
      (x * p) * 10 + y * 10 + d;
      x * (p * 10) + (y * 10 + d);
    }
  }

  /** `s.padStart(width, fill)` */
  function PadStart(s: string, width: nat, fill: char): (r: string)
    ensures |s| >= width ==> r == s
    ensures |s| < width ==> |r| == width && r[width - |s|..] == s
    ensures forall i :: 0 <= i < |r| - |s| ==> r[i] == fill
    decreases width - |s|
  {
    if |s| >= width then s else PadStart([fill] + s, width, fill)
  }

  /** `String(n).padStart(2, '0')` */
  function Pad2(n: int): string
  {
    PadStart(IntToString(n), 2, '0')
  }

  lemma Pad2Digits(n: int)
    requires 0 <= n < 100
    ensures |Pad2(n)| == 2 && AllDigits(Pad2(n)) && DigitsValue(Pad2(n)) == n
  {
    var s := Pad2(n);
    if n < 10 {
      assert s == ['0', DigitChar(n)];
      assert s[..1] == ['0'];
      assert DigitsValue(s[..1]) == 0 by {
        assert s[..1][..0] == [];
      }
    } else {
      assert NatToString(n / 10) == [DigitChar(n / 10)];
      assert s == [DigitChar(n / 10), DigitChar(n % 10)];
      assert s[..1] == [DigitChar(n / 10)];
      assert DigitsValue(s[..1]) == n / 10 by {
        assert s[..1][..0] == [];
      }
    }
  }

  // ---------------------------------------------------------------- trim

  /** The characters `String.prototype.trim` removes: WhiteSpace and LineTerminator of ECMA-262. */
  predicate IsJsWhitespace(c: char)
  {
    var n := c as int;
    n == 0x09 || n == 0x0A || n == 0x0B || n == 0x0C || n == 0x0D || n == 0x20
    || n == 0xA0 || n == 0x1680 || (0x2000 <= n <= 0x200A) || n == 0x2028 || n == 0x2029
    || n == 0x202F || n == 0x205F || n == 0x3000 || n == 0xFEFF
  }

  predicate AllWhitespace(s: string)
  {
    forall i :: 0 <= i < |s| ==> IsJsWhitespace(s[i])
  }

  /** `s.trimStart()`: the text after its leading whitespace. */
  function TrimStart(s: string): (r: string)
    ensures |r| <= |s| && r == s[|s| - |r|..]
    ensures AllWhitespace(s[..|s| - |r|])
    ensures r != [] ==> !IsJsWhitespace(r[0])
    decreases |s|
  {
    if s != [] && IsJsWhitespace(s[0]) then
      var r := TrimStart(s[1..]);
      LeadingWhitespace(s, |s| - |r|);
      r
    else s
  }

  /** `s.trimEnd()`: the text before its trailing whitespace. */
  function TrimEnd(s: string): (r: string)
    ensures |r| <= |s| && r == s[..|r|]
    ensures AllWhitespace(s[|r|..])
    ensures r != [] ==> !IsJsWhitespace(r[|r| - 1])
    decreases |s|
  {
    if s != [] && IsJsWhitespace(s[|s| - 1]) then
      var r := TrimEnd(s[..|s| - 1]);
      TrailingWhitespace(s, |r|);
      r
    else s
  }

  /** A whitespace character before a whitespace run extends it. */
  lemma LeadingWhitespace(s: string, n: nat)
    requires 0 < n <= |s| && IsJsWhitespace(s[0]) && AllWhitespace(s[1..][..n - 1])
    ensures AllWhitespace(s[..n])
  {
    forall i | 0 < i < n
      ensures IsJsWhitespace(s[i])
    {
      assert s[i] == s[1..][..n - 1][i - 1];
    }
  }

  /** A whitespace character after a whitespace run extends it. */
  lemma TrailingWhitespace(s: string, n: nat)
    requires n < |s| && IsJsWhitespace(s[|s| - 1]) && AllWhitespace(s[..|s| - 1][n..])
    ensures AllWhitespace(s[n..])
  {
    forall i | n <= i < |s| - 1
      ensures IsJsWhitespace(s[i])
    {
      assert s[i] == s[..|s| - 1][n..][i - n];
    }
  }

  /** `s.trim()`: `s` is whitespace, then the result, then whitespace, and the result neither starts nor ends with whitespace. */
  function Trim(s: string): (r: string)
    ensures exists i :: Surrounded(r, s, i)
    ensures r != [] ==> !IsJsWhitespace(r[0]) && !IsJsWhitespace(r[|r| - 1])
  {
    var t := TrimStart(s);
    var r := TrimEnd(t);
    TrimPieces(s, t, r);
    r
  }

  /** `s` is whitespace, then `r` from index `i`, then whitespace. */
  predicate Surrounded(r: string, s: string, i: int)
  {
    OccursAt(r, s, i) && AllWhitespace(s[..i]) && AllWhitespace(s[i + |r|..])
  }

  /** Whitespace cut from the front of `s` and then from the back of the rest surrounds what is left. */
  lemma TrimPieces(s: string, t: string, r: string)
    requires |t| <= |s| && t == s[|s| - |t|..] && AllWhitespace(s[..|s| - |t|])
    requires |r| <= |t| && r == t[..|r|] && AllWhitespace(t[|r|..])
    requires t != [] ==> !IsJsWhitespace(t[0])
    requires r != [] ==> !IsJsWhitespace(r[|r| - 1])
    ensures Surrounded(r, s, |s| - |t|)
    ensures r != [] ==> !IsJsWhitespace(r[0]) && !IsJsWhitespace(r[|r| - 1])
  {
    assert r != [] ==> r[0] == t[0];
    var i := |s| - |t|;
    assert s[i..i + |r|] == t[..|r|];
    assert s[i + |r|..] == t[|r|..];
  }

  lemma {:induction false} TrimStartBlank(s: string)
    ensures AllWhitespace(TrimStart(s)) <==> AllWhitespace(s)
    decreases |s|
  {
    if s != [] && IsJsWhitespace(s[0]) {
      TrimStartBlank(s[1..]);
      assert AllWhitespace(s) <==> AllWhitespace(s[1..]) by {
        assert forall k :: 0 < k < |s| ==> s[k] == s[1..][k - 1];
      }
    }
  }

  lemma {:induction false} TrimEndBlank(s: string)
    ensures TrimEnd(s) == [] <==> AllWhitespace(s)
    decreases |s|
  {
    if s != [] && IsJsWhitespace(s[|s| - 1]) {
      TrimEndBlank(s[..|s| - 1]);
      assert AllWhitespace(s) <==> AllWhitespace(s[..|s| - 1]) by {
        assert forall k :: 0 <= k < |s| - 1 ==> s[k] == s[..|s| - 1][k];
      }
    }
  }

  /** A string trims to empty exactly when it consists of whitespace only. */
  lemma TrimEmptyIffBlank(s: string)
    ensures Trim(s) == "" <==> AllWhitespace(s)
  {
    TrimStartBlank(s);
    TrimEndBlank(TrimStart(s));
  }

  // ---------------------------------------------------------------- case and joining

  /**
   * `toLowerCase` on one character, for the ASCII letters: a capital becomes the small
   * letter at the same place in the alphabet, and nothing else changes.
   */
  function LowerAscii(c: char): (r: char)
    ensures !('A' <= r <= 'Z')
    ensures 'A' <= c <= 'Z' ==> 'a' <= r <= 'z' && r as int - 'a' as int == c as int - 'A' as int
    ensures !('A' <= c <= 'Z') ==> r == c
  {
    if 'A' <= c <= 'Z' then (c as int + 32) as char else c
  }

  /** `parts.join(sep)` */
  function Join(parts: seq<string>, sep: string): string
    decreases |parts|
  {
    if parts == [] then "" else if |parts| == 1 then parts[0] else parts[0] + sep + Join(parts[1..], sep)
  }

  /** `p` occurs in `s` starting at index `i`. */
  predicate OccursAt(p: string, s: string, i: int)
  {
    0 <= i <= |s| - |p| && s[i..i + |p|] == p
  }

  /** Where `parts[k]` starts in `parts.join(sep)`: every earlier part and separator precedes it. */
  function JoinOffset(parts: seq<string>, sep: string, k: nat): nat
    requires k <= |parts|
    decreases k
  {
    if k == 0 then 0 else |parts[0]| + |sep| + JoinOffset(parts[1..], sep, k - 1)
  }

  /** A slice of the second half of a concatenation, read through the whole. */
  lemma SliceAfter(a: string, b: string, i: nat, n: nat)
    requires i + n <= |b|
    ensures (a + b)[|a| + i..|a| + i + n] == b[i..i + n]
  {
    var ab := a + b;
    assert ab[|a|..] == b;
    assert ab[|a| + i..|a| + i + n] == ab[|a|..][i..i + n];
  }

  /** An occurrence in the second half of a concatenation, read through the whole. */
  lemma OccursAfter(p: string, a: string, b: string, i: int)
    requires OccursAt(p, b, i)
    ensures OccursAt(p, a + b, |a| + i)
  {
    SliceAfter(a, b, i, |p|);
  }

  /** Each part of a joined list sits in the joined text at its offset. */
  lemma {:induction false} JoinPartAt(parts: seq<string>, sep: string, k: nat)
    requires k < |parts|
    ensures OccursAt(parts[k], Join(parts, sep), JoinOffset(parts, sep, k))
    decreases |parts|
  {
    var j := Join(parts, sep);
    if k == 0 {
      assert j[0..|parts[0]|] == parts[0];
    } else {
      var rest := Join(parts[1..], sep);
      var o := JoinOffset(parts[1..], sep, k - 1);
      assert parts[1..][k - 1] == parts[k];
      JoinPartAt(parts[1..], sep, k - 1);
      assert j == (parts[0] + sep) + rest;
      SliceAfter(parts[0] + sep, rest, o, |parts[k]|);
    }
  }

  /** The separator follows every part but the last. */
  lemma {:induction false} JoinSeparatorAt(parts: seq<string>, sep: string, k: nat)
    requires k + 1 < |parts|
    ensures OccursAt(sep, Join(parts, sep), JoinOffset(parts, sep, k) + |parts[k]|)
    decreases |parts|
  {
    if k == 0 {
      JoinSeparatorFirst(parts, sep);
    } else {
      var rest := Join(parts[1..], sep);
      assert parts[1..][k - 1] == parts[k];
      JoinSeparatorAt(parts[1..], sep, k - 1);
      assert Join(parts, sep) == (parts[0] + sep) + rest;
      OccursAfter(sep, parts[0] + sep, rest, JoinOffset(parts[1..], sep, k - 1) + |parts[k]|);
    }
  }

  lemma JoinSeparatorFirst(parts: seq<string>, sep: string)
    requires 1 < |parts|
    ensures OccursAt(sep, Join(parts, sep), |parts[0]|)
  {
    var rest := Join(parts[1..], sep);
    assert Join(parts, sep) == parts[0] + (sep + rest);
    assert (sep + rest)[0..|sep|] == sep;
    OccursAfter(sep, parts[0], sep + rest, 0);
  }

  /** The joined text ends right after the last part. */
  lemma {:induction false} JoinLength(parts: seq<string>, sep: string)
    requires parts != []
    ensures |Join(parts, sep)| == JoinOffset(parts, sep, |parts| - 1) + |parts[|parts| - 1]|
    decreases |parts|
  {
    if |parts| > 1 {
      JoinLength(parts[1..], sep);
      assert parts[1..][|parts| - 2] == parts[|parts| - 1];
    }
  }

  /** The parts appear in list order, each ending, and a separator following it, before the next starts. */
  lemma {:induction false} JoinOffsetOrdered(parts: seq<string>, sep: string, k: nat, l: nat)
    requires k < l <= |parts|
    ensures JoinOffset(parts, sep, k) + |parts[k]| + |sep| <= JoinOffset(parts, sep, l)
    decreases k
  {
    if k > 0 {
      JoinOffsetOrdered(parts[1..], sep, k - 1, l - 1);
    }
  }
}
