/** The behaviour of the .NET library calls the game's core relies on, written out:
    32-bit `int` and its unchecked wrap-around, `int.Parse` and `Int32.ToString`,
    `bool.Parse` and `Boolean.ToString`, `String.Split(char)` and `String.Join`,
    `Char.IsWhiteSpace`, and `String.Length`, which counts UTF-16 code units. */
module DotNet {
  import opened Wrappers

  const MinInt32: int := -0x8000_0000
  const MaxInt32: int := 0x7FFF_FFFF
  const Modulus32: int := 0x1_0000_0000

  /** A C# `int`. */
  type Int32 = x: int | MinInt32 <= x <= MaxInt32

  /** C# `int` arithmetic outside a `checked` context: the result is taken modulo 2^32
      into the signed range. */
  function Wrap32(x: int): (r: Int32)
    ensures exists k: int :: x == r + k * Modulus32
    ensures MinInt32 <= x <= MaxInt32 ==> r == x
  {
    var m := (x - MinInt32) % Modulus32;
    assert x == m + MinInt32 + ((x - MinInt32) / Modulus32) * Modulus32;
    m + MinInt32
  }

  // ---------------------------------------------------------------------------
  // Decimal digits

  predicate IsDigit(c: char) { '0' <= c <= '9' }

  predicate AllDigits(s: string) { forall i :: 0 <= i < |s| ==> IsDigit(s[i]) }

  function DigitChar(d: nat): (c: char)
    requires d < 10
    ensures IsDigit(c) && c as int - '0' as int == d
  {
    ('0' as int + d) as char
  }

  /** The value of a string of decimal digits, most significant digit first. */
  function DigitsValue(s: string): nat
    requires AllDigits(s)
  {
    if |s| == 0 then 0 else 10 * DigitsValue(s[..|s| - 1]) + (s[|s| - 1] as int - '0' as int)
  }

  /** The decimal text of a natural number: at least one digit and no leading zero. */
  function NatToString(n: nat): (s: string)
    ensures 0 < |s| && AllDigits(s)
    ensures s[0] == '0' ==> n == 0
  {
    if n < 10 then [DigitChar(n)] else NatToString(n / 10) + [DigitChar(n % 10)]
  }

  lemma {:induction false} NatToStringValue(n: nat)
    ensures DigitsValue(NatToString(n)) == n
  {
    var s := NatToString(n);
    if n >= 10 {
      assert s[..|s| - 1] == NatToString(n / 10);
      NatToStringValue(n / 10);
    }
  }

  /** `Int32.ToString()`: a '-' for negative values, then the decimal digits. */
  function Int32ToString(n: Int32): (s: string)
    ensures 0 < |s|
    ensures forall i :: 0 <= i < |s| ==> IsDigit(s[i]) || (i == 0 && s[i] == '-' && n < 0)
  {
    if n < 0 then "-" + NatToString(-(n as int)) else NatToString(n)
  }

  // ---------------------------------------------------------------------------
  // Trimming

  /** The number of leading characters of `s` that satisfy `p`. */
  function CountLeading(s: string, p: char -> bool): (n: nat)
    ensures n <= |s|
    ensures forall i :: 0 <= i < n ==> p(s[i])
    ensures n < |s| ==> !p(s[n])
  {
    if |s| > 0 && p(s[0]) then 1 + CountLeading(s[1..], p) else 0
  }

  /** The number of trailing characters of `s` that satisfy `p`. */
  function CountTrailing(s: string, p: char -> bool): (n: nat)
    ensures n <= |s|
    ensures forall i :: |s| - n <= i < |s| ==> p(s[i])
    ensures n < |s| ==> !p(s[|s| - 1 - n])
  {
    if |s| > 0 && p(s[|s| - 1]) then 1 + CountTrailing(s[..|s| - 1], p) else 0
  }

  /** `s` without its leading and trailing characters that satisfy `p`. */
  function Trim(s: string, p: char -> bool): string
  {
    var a := CountLeading(s, p);
    var b := CountTrailing(s[a..], p);
    s[a..|s| - b]
  }

  // ---------------------------------------------------------------------------
  // int.Parse and bool.Parse

  /** The white space `int.Parse` skips around a number (NumberStyles.Integer). */
  predicate IsNumberWhite(c: char) { c == ' ' || '\t' <= c <= '\r' }

  /** `int.Parse(s)` with NumberStyles.Integer: optional white space around an optional
      leading '+' or '-' and one or more decimal digits. None stands for the exception it
      throws: FormatException for any other text, OverflowException for a value outside
      the 32-bit range. */
  function ParseInt32(s: string): (r: Option<Int32>)
    ensures 0 < |s| && AllDigits(s) && DigitsValue(s) <= MaxInt32 ==> r == Some(DigitsValue(s))
  {
    var t := Trim(s, IsNumberWhite);
    assert 0 < |s| && AllDigits(s) ==> !IsNumberWhite(s[0]) && !IsNumberWhite(s[|s| - 1]) && t == s;
    var negative := |t| > 0 && t[0] == '-';
    var digits := if |t| > 0 && (t[0] == '-' || t[0] == '+') then t[1..] else t;
    if |digits| == 0 || !AllDigits(digits) then None
    else
      var v: int := if negative then -(DigitsValue(digits) as int) else DigitsValue(digits);
      if MinInt32 <= v <= MaxInt32 then Some(v) else None
  }

  /** A character that is neither a digit, nor white space, nor a sign makes `int.Parse`
      throw, wherever it stands. */
  lemma ParseInt32RejectsOther(s: string, i: nat)
    requires i < |s| && !IsDigit(s[i]) && !IsNumberWhite(s[i]) && s[i] != '-' && s[i] != '+'
    ensures ParseInt32(s).None?
  {
    var a := CountLeading(s, IsNumberWhite);
    var u := s[a..];
    var b := CountTrailing(u, IsNumberWhite);
    var t := s[a..|s| - b];
    assert a <= i;
    assert i < |s| - b;
    assert t[i - a] == s[i];
    var digits := if |t| > 0 && (t[0] == '-' || t[0] == '+') then t[1..] else t;
    if digits != t {
      assert digits[i - a - 1] == s[i];
    }
  }

  /** A text that starts and ends with a character outside `p` is its own trim. */
  lemma TrimNoop(s: string, p: char -> bool)
    requires |s| > 0 && !p(s[0]) && !p(s[|s| - 1])
    ensures Trim(s, p) == s
  {
    assert CountLeading(s, p) == 0;
    assert CountTrailing(s, p) == 0;
  }

  /** Only digits and '-' appear in the text of an Int32. */
  lemma Int32ToStringWithout(n: Int32, c: char)
    requires !IsDigit(c) && c != '-'
    ensures c !in Int32ToString(n)
  {
  }

  lemma ParseInt32ToString(n: Int32)
    ensures ParseInt32(Int32ToString(n)) == Some(n)
  {
    var s := Int32ToString(n);
    TrimNoop(s, IsNumberWhite);
    if n < 0 {
      var m: nat := -(n as int);
      assert s[0] == '-' && s[1..] == NatToString(m);
      NatToStringValue(m);
      assert DigitsValue(s[1..]) == m;
    } else {
      assert IsDigit(s[0]);
      NatToStringValue(n);
    }
  }

  /** `Char.IsWhiteSpace`: the Unicode space, line and paragraph separators, the
      control characters U+0009..U+000D, U+0085 and U+00A0. */
  predicate IsWhiteSpace(c: char)
    ensures IsWhiteSpace(c) ==> !IsDigit(c) && c !in "+-,;|"
  {
    || ('\t' <= c <= '\r') || c == ' ' || c == '\U{85}' || c == '\U{A0}' || c == '\U{1680}'
    || ('\U{2000}' <= c <= '\U{200A}') || c == '\U{2028}' || c == '\U{2029}'
    || c == '\U{202F}' || c == '\U{205F}' || c == '\U{3000}'
  }

  /** `String.IsNullOrWhiteSpace` of a non-null string. */
  predicate IsNullOrWhiteSpace(s: string)
  {
    forall i :: 0 <= i < |s| ==> IsWhiteSpace(s[i])
  }

  /** A string is blank exactly when trimming its white space leaves nothing, the empty
      string included. */
  lemma IsNullOrWhiteSpaceTrim(s: string)
    ensures IsNullOrWhiteSpace(s) <==> Trim(s, IsWhiteSpace) == ""
  {
  }

  /** What `bool.Parse` trims before its second comparison. */
  predicate IsWhiteSpaceOrNul(c: char) { IsWhiteSpace(c) || c == '\0' }

  function ToLowerAscii(c: char): char
  {
    if 'A' <= c <= 'Z' then (c as int + 32) as char else c
  }

  predicate EqualsIgnoreCase(a: string, b: string)
  {
    |a| == |b| && forall i :: 0 <= i < |a| ==> ToLowerAscii(a[i]) == ToLowerAscii(b[i])
  }

  /** `Boolean.ToString()`: "True" or "False", which is the word `bool.Parse` looks for,
      with no separator of the protocol in it. */
  function BoolToString(b: bool): (s: string)
    ensures EqualsIgnoreCase(s, if b then "true" else "false")
    ensures forall c :: c in ",;|" ==> c !in s
  {
    if b then "True" else "False"
  }

  /** `bool.Parse(s)`: "True" or "False" in any letter case, once surrounding white
      space and NUL characters are trimmed. None stands for the FormatException. */
  function ParseBool(s: string): (r: Option<bool>)
    ensures r.Some? ==> 4 <= |s|
    ensures var t := Trim(s, IsWhiteSpaceOrNul);
            && (r == Some(true) <==> EqualsIgnoreCase(t, "true"))
            && (r == Some(false) <==> EqualsIgnoreCase(t, "false"))
            && (r.None? <==> !EqualsIgnoreCase(t, "true") && !EqualsIgnoreCase(t, "false"))
  {
    var t := Trim(s, IsWhiteSpaceOrNul);
    if EqualsIgnoreCase(t, "True") then Some(true)
    else if EqualsIgnoreCase(t, "False") then Some(false)
    else None
  }

  lemma ParseBoolToString(b: bool)
    ensures ParseBool(BoolToString(b)) == Some(b)
  {
    var s := BoolToString(b);
    assert !IsWhiteSpaceOrNul(s[0]) && !IsWhiteSpaceOrNul(s[|s| - 1]);
    TrimNoop(s, IsWhiteSpaceOrNul);
    if b {
      assert EqualsIgnoreCase(s, "True");
    } else {
      assert !EqualsIgnoreCase(s, "True");
      assert EqualsIgnoreCase(s, "False");
    }
  }

  /** `String.Length`: the number of UTF-16 code units, two for a character outside the
      Basic Multilingual Plane. */
  function Utf16Length(s: string): (n: nat)
    ensures |s| <= n <= 2 * |s|
  {
    if |s| == 0 then 0 else (if s[0] as int >= 0x1_0000 then 2 else 1) + Utf16Length(s[1..])
  }

  // ---------------------------------------------------------------------------
  // String.Split(char) and String.Join

  /** `s.Split(d)`: the pieces between occurrences of `d`, empty pieces included. */
  function Split(s: string, d: char): (parts: seq<string>)
    ensures |parts| >= 1
    ensures forall i :: 0 <= i < |parts| ==> d !in parts[i]
  {
    if |s| == 0 then [""]
    else
      var rest := Split(s[1..], d);
      if s[0] == d then [""] + rest else [[s[0]] + rest[0]] + rest[1..]
  }

  /** `String.Join(d, parts)`: the text begins with the first piece. */
  function Join(parts: seq<string>, d: char): (r: string)
    ensures |parts| > 0 ==> parts[0] <= r
  {
    if |parts| == 0 then "" else if |parts| == 1 then parts[0] else parts[0] + [d] + Join(parts[1..], d)
  }

  /** The number of occurrences of `c` in `s`. */
  function Count(s: string, c: char): nat
  {
    if |s| == 0 then 0 else (if s[0] == c then 1 else 0) + Count(s[1..], c)
  }

  /** The prefix of `s` before the first `d`, or all of `s` when it has none. */
  function Before(s: string, d: char): (r: string)
    ensures |r| <= |s| && r == s[..|r|] && d !in r
    ensures |r| < |s| ==> s[|r|] == d
  {
    if |s| == 0 || s[0] == d then "" else [s[0]] + Before(s[1..], d)
  }

  lemma {:induction false} SplitCount(s: string, d: char)
    ensures |Split(s, d)| == Count(s, d) + 1
  {
    if |s| > 0 {
      SplitCount(s[1..], d);
    }
  }

  lemma {:induction false} SplitFirst(s: string, d: char)
    ensures Split(s, d)[0] == Before(s, d)
  {
    if |s| > 0 && s[0] != d {
      SplitFirst(s[1..], d);
    }
  }

  lemma {:induction false} SplitWithout(a: string, d: char)
    requires d !in a
    ensures Split(a, d) == [a]
  {
    if |a| > 0 {
      SplitWithout(a[1..], d);
      assert [a[0]] + a[1..] == a;
    }
  }

  /** Splitting at the first delimiter: the piece before it, then the pieces of the rest. */
  lemma {:induction false} SplitAt(a: string, d: char, b: string)
    requires d !in a
    ensures Split(a + [d] + b, d) == [a] + Split(b, d)
  {
    var s := a + [d] + b;
    if |a| == 0 {
      assert s[1..] == b;
    } else {
      assert s[1..] == a[1..] + [d] + b;
      SplitAt(a[1..], d, b);
      assert [a[0]] + a[1..] == a;
    }
  }

  /** Three pieces free of the delimiter, then whatever follows a third delimiter. */
  lemma SplitFields(a: string, b: string, c: string, d: char)
    requires d !in a && d !in b && d !in c
    ensures Split(a + [d] + b + [d] + c, d) == [a, b, c]
  {
    var bc := b + [d] + c;
    SplitWithout(c, d);
    SplitAt(b, d, c);
    assert Split(bc, d) == [b, c];
    SplitAt(a, d, bc);
    assert a + [d] + b + [d] + c == a + [d] + bc;
  }

  lemma SplitFieldsThenRest(a: string, b: string, c: string, rest: string, d: char)
    requires d !in a && d !in b && d !in c
    ensures Split(a + [d] + b + [d] + c + [d] + rest, d) == [a, b, c] + Split(rest, d)
  {
    assert a + [d] + b + [d] + c + [d] + rest == a + [d] + (b + [d] + (c + [d] + rest));
    SplitAt(a, d, b + [d] + (c + [d] + rest));
    SplitAt(b, d, c + [d] + rest);
    SplitAt(c, d, rest);
  }

  lemma {:induction false} SplitJoin(parts: seq<string>, d: char)
    requires |parts| >= 1
    requires forall i :: 0 <= i < |parts| ==> d !in parts[i]
    ensures Split(Join(parts, d), d) == parts
  {
    if |parts| == 1 {
      SplitWithout(parts[0], d);
    } else {
      SplitAt(parts[0], d, Join(parts[1..], d));
      SplitJoin(parts[1..], d);
    }
  }

  lemma {:induction false} JoinSplit(s: string, d: char)
    ensures Join(Split(s, d), d) == s
  {
    if d !in s {
      SplitWithout(s, d);
    } else {
      var a := Before(s, d);
      var b := s[|a| + 1..];
      assert s == a + [d] + b;
      SplitAt(a, d, b);
      JoinSplit(b, d);
    }
  }

  /** A character kept out of every piece, other than the separator, stays out of the
      joined text. */
  lemma {:induction false} JoinWithout(parts: seq<string>, d: char, c: char)
    requires c != d
    requires forall i :: 0 <= i < |parts| ==> c !in parts[i]
    ensures c !in Join(parts, d)
  {
    if |parts| > 1 {
      JoinWithout(parts[1..], d, c);
      assert c !in parts[0] + [d];
    }
  }

  // ---------------------------------------------------------------------------
  // Unchecked Int32 addition past the top

  /** A sum up to one modulus above the largest Int32 wraps to the negative side. */
  lemma Wrap32Above(x: int)
    requires MaxInt32 < x < MaxInt32 + Modulus32
    ensures Wrap32(x) == x - Modulus32
  {
    var y := x - MinInt32;
    assert Modulus32 <= y < 2 * Modulus32;
    assert y == Modulus32 + (y - Modulus32);
    assert y % Modulus32 == y - Modulus32;
  }

  // ---------------------------------------------------------------------------
  // List<T>.Remove, on reference equality

  /** No element occurs twice. */
  predicate NoDup<T(==)>(s: seq<T>)
  {
    forall i, j :: 0 <= i < j < |s| ==> s[i] != s[j]
  }

  /** `list.Remove(x)`: the list without its first occurrence of `x`; unchanged when
      there is none. */
  function RemoveFirst<T(==)>(s: seq<T>, x: T): (r: seq<T>)
    ensures x in s ==> |r| == |s| - 1
    ensures x !in s ==> r == s
  {
    if |s| == 0 then []
    else if s[0] == x then s[1..]
    else [s[0]] + RemoveFirst(s[1..], x)
  }

  /** Exactly one copy of `x` goes, when there is one, and every other element stays. */
  lemma {:induction false} RemoveFirstMultiset<T>(s: seq<T>, x: T)
    ensures multiset(RemoveFirst(s, x)) == multiset(s) - multiset{x}
  {
    if |s| > 0 {
      assert s == [s[0]] + s[1..];
      if s[0] != x {
        RemoveFirstMultiset(s[1..], x);
      }
    }
  }

  /** `r` is `s` with the element at `i`, the first occurrence of `x`, cut out. */
  predicate Spliced<T(==)>(s: seq<T>, x: T, i: int, r: seq<T>)
  {
    0 <= i < |s| && s[i] == x && x !in s[..i] && r == s[..i] + s[i + 1..]
  }

  /** Removal cuts out the first occurrence and keeps the others in their order. */
  lemma {:induction false} RemoveFirstSplice<T>(s: seq<T>, x: T)
    requires x in s
    ensures exists i :: Spliced(s, x, i, RemoveFirst(s, x))
  {
    if s[0] == x {
      assert Spliced(s, x, 0, RemoveFirst(s, x));
    } else {
      assert x in s[1..];
      RemoveFirstSplice(s[1..], x);
      var j :| Spliced(s[1..], x, j, RemoveFirst(s[1..], x));
      SplicedCons(s[0], s[1..], x, j, RemoveFirst(s[1..], x));
      assert [s[0]] + s[1..] == s;
      assert RemoveFirst(s, x) == [s[0]] + RemoveFirst(s[1..], x);
      assert Spliced(s, x, j + 1, RemoveFirst(s, x));
    }
  }

  lemma SplicedCons<T>(h: T, s: seq<T>, x: T, j: int, r: seq<T>)
    requires Spliced(s, x, j, r) && h != x
    ensures Spliced([h] + s, x, j + 1, [h] + r)
  {
    var t := [h] + s;
    assert t[..j + 1] == [h] + s[..j];
    assert t[j + 2..] == s[j + 1..];
  }

  /** In a list without duplicates, removal leaves no copy behind, keeps every other
      element and keeps the list free of duplicates. */
  lemma RemoveFirstNoDup<T>(s: seq<T>, x: T)
    requires NoDup(s)
    ensures var r := RemoveFirst(s, x);
            NoDup(r) && x !in r && forall y :: y in r <==> y in s && y != x
  {
    var r := RemoveFirst(s, x);
    RemoveFirstMultiset(s, x);
    assert forall y :: y in r <==> y in multiset(s) - multiset{x};
    forall y | y in s ensures multiset(s)[y] == 1 {
      MultiplicityOne(s, y);
    }
    forall i, j | 0 <= i < j < |r| ensures r[i] != r[j] {
      if r[i] == r[j] {
        MultiplicityTwo(r, i, j);
        assert false;
      }
    }
  }

  lemma {:induction false} MultiplicityOne<T>(s: seq<T>, y: T)
    requires NoDup(s) && y in s
    ensures multiset(s)[y] == 1
  {
    assert s == [s[0]] + s[1..];
    if s[0] == y {
      assert y !in s[1..];
    } else {
      MultiplicityOne(s[1..], y);
    }
  }

  lemma {:induction false} MultiplicityTwo<T>(s: seq<T>, i: nat, j: nat)
    requires i < j < |s| && s[i] == s[j]
    ensures multiset(s)[s[i]] >= 2
  {
    assert s == s[..j] + [s[j]] + s[j + 1..];
    assert s[i] == s[..j][i];
  }
}
