/** Character and string helpers with JavaScript's meaning: digits, `String(n)`
    for a non-negative integer, `padStart(2, "0")`, `split`, `substring` and
    `trim`. */
module Text {

  predicate IsDigit(c: char) {
    '0' <= c <= '9'
  }

  predicate AllDigits(s: string) {
    forall i :: 0 <= i < |s| ==> IsDigit(s[i])
  }

  function DigitValue(c: char): nat
    requires IsDigit(c)
  {
    (c as int) - ('0' as int)
  }

  function DigitChar(d: nat): (c: char)
    requires d < 10
    ensures IsDigit(c) && DigitValue(c) == d
  {
    (('0' as int) + d) as char
  }

  /** The value `parseInt(s, 10)` gives a string made only of digits. */
  function DecimalValue(s: string): nat
    requires AllDigits(s)
    decreases |s|
  {
    if |s| == 0 then 0
    else DecimalValue(s[..|s| - 1]) * 10 + DigitValue(s[|s| - 1])
  }

  /** `String(n)` for a non-negative integer: its decimal digits, no leading zero. */
  function NatToString(n: nat): (s: string)
    ensures 1 <= |s| && AllDigits(s)
  {
    if n < 10 then [DigitChar(n)] else NatToString(n / 10) + [DigitChar(n % 10)]
  }

  /** Reading back the digits of `String(n)` gives `n`. */
  lemma {:induction false} NatToStringRoundTrip(n: nat)
    ensures DecimalValue(NatToString(n)) == n
  {
    var s := NatToString(n);
    if n >= 10 {
      NatToStringRoundTrip(n / 10);
      assert s[..|s| - 1] == NatToString(n / 10);
    }
  }

  /** Different numbers print differently. */
  lemma NatToStringInjective(a: nat, b: nat)
    ensures NatToString(a) == NatToString(b) ==> a == b
  {
    NatToStringRoundTrip(a);
    NatToStringRoundTrip(b);
  }

  /** `s.padStart(2, "0")`. */
  function PadStart2(s: string): string {
    if |s| == 0 then "00" else if |s| == 1 then "0" + s else s
  }

  /** `String(n).padStart(2, "0")`, the two-digit rendering of a day or a month. */
  function Pad2(n: nat): string {
    PadStart2(NatToString(n))
  }

  /** Below 100, the padded rendering is exactly two digits and reads back as `n`. */
  lemma Pad2Digits(n: nat)
    requires n < 100
    ensures |Pad2(n)| == 2 && AllDigits(Pad2(n))
    ensures DecimalValue(Pad2(n)) == n
    ensures Pad2(n) == [DigitChar(n / 10), DigitChar(n % 10)]
  {
    var p := Pad2(n);
    var hi, lo := DigitChar(n / 10), DigitChar(n % 10);
    if n < 10 {
      assert NatToString(n) == [lo];
      assert hi == '0';
    } else {
      assert NatToString(n / 10) == [hi];
    }
    assert p == [hi, lo];
    assert p[..1] == [hi];
    assert DecimalValue([hi]) == n / 10 by {
      assert [hi][..0] == [];
    }
    assert DecimalValue(p) == DecimalValue(p[..1]) * 10 + DigitValue(p[1]);
  }

  /** A four-digit year prints as four digits whose last two are the padded
      year of the century. */
  lemma FourDigitYear(n: nat)
    requires 1000 <= n <= 9999
    ensures |NatToString(n)| == 4
    ensures NatToString(n)[2..] == Pad2(n % 100)
  {
    var a, b, c := n / 10, n / 100, n / 1000;
    assert a / 10 == b && b / 10 == c;
    assert (n % 100) / 10 == a % 10 && (n % 100) % 10 == n % 10;
    assert NatToString(c) == [DigitChar(c)];
    assert NatToString(b) == NatToString(c) + [DigitChar(b % 10)];
    assert NatToString(a) == NatToString(b) + [DigitChar(a % 10)];
    assert NatToString(n) == NatToString(a) + [DigitChar(n % 10)];
    Pad2Digits(n % 100);
  }

  lemma Pad2Injective(a: nat, b: nat)
    requires a < 100 && b < 100
    ensures Pad2(a) == Pad2(b) ==> a == b
  {
    Pad2Digits(a);
    Pad2Digits(b);
  }

  /** `s.substring(start)`: the suffix from `start`, or "" when `start` is past the end. */
  function SubstringFrom(s: string, start: nat): string {
    if start <= |s| then s[start..] else ""
  }

  /** `s.split(sep)` for a one-character separator: the pieces between separators,
      at least one (possibly empty) piece. */
  function Split(s: string, sep: char): (parts: seq<string>)
    ensures |parts| >= 1
    ensures forall i :: 0 <= i < |parts| ==> sep !in parts[i]
    decreases |s|
  {
    if |s| == 0 then [""]
    else if s[0] == sep then [""] + Split(s[1..], sep)
    else
      var rest := Split(s[1..], sep);
      [[s[0]] + rest[0]] + rest[1..]
  }

  /** `parts.join(sep)`. */
  function Join(parts: seq<string>, sep: char): string
    requires |parts| >= 1
  {
    if |parts| == 1 then parts[0] else parts[0] + [sep] + Join(parts[1..], sep)
  }

  /** Splitting loses nothing: joining the pieces back gives the original string. */
  lemma {:induction false} SplitJoin(s: string, sep: char)
    ensures Join(Split(s, sep), sep) == s
    decreases |s|
  {
    if |s| > 0 {
      var rest := Split(s[1..], sep);
      assert Join(rest, sep) == s[1..] by {
        SplitJoin(s[1..], sep);
      }
      if s[0] == sep {
        assert Split(s, sep) == [""] + rest;
        assert ([""] + rest)[1..] == rest;
      } else {
        assert Split(s, sep) == [[s[0]] + rest[0]] + rest[1..];
        JoinPrepend(s[0], rest, sep);
      }
      assert s == [s[0]] + s[1..];
    }
  }

  /** Putting a character in front of the first piece puts it in front of the joined string. */
  lemma JoinPrepend(c: char, parts: seq<string>, sep: char)
    requires |parts| >= 1
    ensures Join([[c] + parts[0]] + parts[1..], sep) == [c] + Join(parts, sep)
  {
    var moved := [[c] + parts[0]] + parts[1..];
    assert moved[1..] == parts[1..];
    if |parts| > 1 {
      assert Join(moved, sep) == ([c] + parts[0]) + [sep] + Join(parts[1..], sep);
      assert Join(parts, sep) == parts[0] + [sep] + Join(parts[1..], sep);
    }
  }

  /** A string without the separator is one piece. */
  lemma {:induction false} SplitWithoutSeparator(a: string, sep: char)
    requires sep !in a
    ensures Split(a, sep) == [a]
    decreases |a|
  {
    if |a| > 0 {
      assert sep !in a[1..] by {
        forall i | 0 <= i < |a[1..]| ensures a[1..][i] != sep {
          assert a[1..][i] == a[i + 1];
        }
      }
      SplitWithoutSeparator(a[1..], sep);
      assert a == [a[0]] + a[1..];
    }
  }

  /** The first separator ends the first piece. */
  lemma {:induction false} SplitAtSeparator(a: string, sep: char, b: string)
    requires sep !in a
    ensures Split(a + [sep] + b, sep) == [a] + Split(b, sep)
    decreases |a|
  {
    var s := a + [sep] + b;
    if |a| == 0 {
      assert s[1..] == b;
    } else {
      assert sep !in a[1..] by {
        forall i | 0 <= i < |a[1..]| ensures a[1..][i] != sep {
          assert a[1..][i] == a[i + 1];
        }
      }
      SplitAtSeparator(a[1..], sep, b);
      assert s[1..] == a[1..] + [sep] + b;
      assert [a[0]] + a[1..] == a;
    }
  }

  /** A digit is never a separator used by the date formats. */
  lemma DigitsHaveNoSeparator(s: string, sep: char)
    requires AllDigits(s) && !IsDigit(sep)
    ensures sep !in s
  {
  }

  /** The value the template literal `${x}` gives a destructured array slot:
      the piece, or "undefined" when the array is too short. */
  function PartOr(parts: seq<string>, i: nat): string {
    if i < |parts| then parts[i] else "undefined"
  }

  /** JavaScript's WhiteSpace and LineTerminator characters, which `trim` removes. */
  predicate IsWhitespace(c: char) {
    c == ' ' || c == '\t' || c == '\n' || c == '\r' || c == '\U{0B}' || c == '\U{0C}'
    || c == '\U{A0}' || c == '\U{1680}' || ('\U{2000}' <= c <= '\U{200A}')
    || c == '\U{2028}' || c == '\U{2029}' || c == '\U{202F}' || c == '\U{205F}'
    || c == '\U{3000}' || c == '\U{FEFF}'
  }

  predicate AllWhitespace(s: string) {
    forall i :: 0 <= i < |s| ==> IsWhitespace(s[i])
  }

  function TrimStart(s: string): string
    decreases |s|
  {
    if |s| > 0 && IsWhitespace(s[0]) then TrimStart(s[1..]) else s
  }

  function TrimEnd(s: string): string
    decreases |s|
  {
    if |s| > 0 && IsWhitespace(s[|s| - 1]) then TrimEnd(s[..|s| - 1]) else s
  }

  /** `s.trim()`: the longest infix without leading or trailing whitespace. */
  function Trim(s: string): (r: string)
    ensures |r| > 0 ==> !IsWhitespace(r[0]) && !IsWhitespace(r[|r| - 1])
    ensures exists i, j :: 0 <= i <= j <= |s| && r == s[i..j] && AllWhitespace(s[..i]) && AllWhitespace(s[j..])
    ensures r == "" <==> AllWhitespace(s)
  {
    TrimStartShape(s);
    TrimEndShape(TrimStart(s));
    var i := |s| - |TrimStart(s)|;
    var t := TrimStart(s);
    var j := i + |TrimEnd(t)|;
    assert s[i..j] == TrimEnd(t);
    assert s[j..] == t[|TrimEnd(t)|..];
    TrimEnd(t)
  }

  lemma {:induction false} TrimStartShape(s: string)
    ensures |TrimStart(s)| <= |s|
    ensures TrimStart(s) == s[|s| - |TrimStart(s)|..]
    ensures AllWhitespace(s[..|s| - |TrimStart(s)|])
    ensures |TrimStart(s)| > 0 ==> !IsWhitespace(TrimStart(s)[0])
    decreases |s|
  {
    if |s| > 0 && IsWhitespace(s[0]) {
      TrimStartShape(s[1..]);
      var k := |s| - |TrimStart(s)|;
      assert s[..k] == [s[0]] + s[1..][..k - 1];
    }
  }

  lemma {:induction false} TrimEndShape(s: string)
    ensures |TrimEnd(s)| <= |s|
    ensures TrimEnd(s) == s[..|TrimEnd(s)|]
    ensures AllWhitespace(s[|TrimEnd(s)|..])
    ensures |TrimEnd(s)| > 0 ==> !IsWhitespace(TrimEnd(s)[|TrimEnd(s)| - 1])
    decreases |s|
  {
    if |s| > 0 && IsWhitespace(s[|s| - 1]) {
      var p := s[..|s| - 1];
      TrimEndShape(p);
      var k := |TrimEnd(s)|;
      assert s[k..] == p[k..] + [s[|s| - 1]];
    }
  }

  /** A text with no whitespace at either end is its own trim. */
  lemma TrimFixesTrimmed(s: string)
    requires |s| > 0 ==> !IsWhitespace(s[0]) && !IsWhitespace(s[|s| - 1])
    ensures Trim(s) == s
  {
    if |s| > 0 {
      assert TrimStart(s) == s;
      assert TrimEnd(s) == s;
    }
  }

  /** Trimming twice changes nothing more. */
  lemma TrimIdempotent(s: string)
    ensures Trim(Trim(s)) == Trim(s)
  {
    TrimFixesTrimmed(Trim(s));
  }

  // ------------------------------------------------------------ replace

  /** `s.replace(from, to)` with a one-character string pattern: only the first
      occurrence is replaced. */
  function ReplaceFirst(s: string, from: char, to: char): (r: string)
    ensures |r| == |s|
  {
    if |s| == 0 then s
    else if s[0] == from then [to] + s[1..]
    else [s[0]] + ReplaceFirst(s[1..], from, to)
  }

  /** Exactly the first occurrence of `from` changes; with none, nothing does. */
  lemma ReplaceFirstSpec(s: string, from: char, to: char)
    ensures from !in s ==> ReplaceFirst(s, from, to) == s
    ensures forall i :: 0 <= i < |s| ==>
      ReplaceFirst(s, from, to)[i] == if s[i] == from && from !in s[..i] then to else s[i]
  {
    var r := ReplaceFirst(s, from, to);
    forall i | 0 <= i < |s| ensures r[i] == if s[i] == from && from !in s[..i] then to else s[i] {
      ReplaceFirstAt(s, from, to, i);
    }
    if from !in s {
      assert forall i :: 0 <= i < |s| ==> s[i] != from;
    }
  }

  /** The character at position `i` after replacing. */
  lemma {:induction false} ReplaceFirstAt(s: string, from: char, to: char, i: nat)
    requires i < |s|
    ensures ReplaceFirst(s, from, to)[i] == if s[i] == from && from !in s[..i] then to else s[i]
    decreases i
  {
    if i == 0 {
      assert s[..0] == [];
    } else if s[0] == from {
      assert s[..i][0] == from;
    } else {
      ReplaceFirstAt(s[1..], from, to, i - 1);
      assert s[..i] == [s[0]] + s[1..][..i - 1];
    }
  }

  // ------------------------------------------------- fixed-width fields

  /** The regular expression `^\d{n1}<sep>\d{n2}<sep>\d{n3}$`: three runs of
      ASCII digits of the given widths, separated by `sep`. */
  predicate Fields3(s: string, sep: char, n1: nat, n2: nat, n3: nat) {
    |s| == n1 + n2 + n3 + 2 && s[n1] == sep && s[n1 + n2 + 1] == sep &&
    forall i :: 0 <= i < |s| && i != n1 && i != n1 + n2 + 1 ==> IsDigit(s[i])
  }

  /** Splitting a string of that shape at its separator gives its three digit runs. */
  lemma Fields3Split(s: string, sep: char, n1: nat, n2: nat, n3: nat)
    requires Fields3(s, sep, n1, n2, n3) && !IsDigit(sep)
    ensures AllDigits(s[..n1]) && AllDigits(s[n1 + 1..n1 + n2 + 1]) && AllDigits(s[n1 + n2 + 2..])
    ensures Split(s, sep) == [s[..n1], s[n1 + 1..n1 + n2 + 1], s[n1 + n2 + 2..]]
  {
    var a, b, c := s[..n1], s[n1 + 1..n1 + n2 + 1], s[n1 + n2 + 2..];
    assert AllDigits(a) by {
      forall i | 0 <= i < |a| ensures IsDigit(a[i]) { assert a[i] == s[i]; }
    }
    assert AllDigits(b) by {
      forall i | 0 <= i < |b| ensures IsDigit(b[i]) { assert b[i] == s[n1 + 1 + i]; }
    }
    assert AllDigits(c) by {
      forall i | 0 <= i < |c| ensures IsDigit(c[i]) { assert c[i] == s[n1 + n2 + 2 + i]; }
    }
    assert s == a + [sep] + (b + [sep] + c);
    SplitAtSeparator(a, sep, b + [sep] + c);
    SplitAtSeparator(b, sep, c);
    SplitWithoutSeparator(c, sep);
  }

  /** Three digit runs joined by a non-digit separator have that shape. */
  lemma Fields3Of(a: string, b: string, c: string, sep: char)
    requires AllDigits(a) && AllDigits(b) && AllDigits(c) && !IsDigit(sep)
    ensures Fields3(a + [sep] + b + [sep] + c, sep, |a|, |b|, |c|)
  {
    var s := a + [sep] + b + [sep] + c;
    forall i | 0 <= i < |s| && i != |a| && i != |a| + |b| + 1 ensures IsDigit(s[i]) {
      if i < |a| {
        assert s[i] == a[i];
      } else if i < |a| + |b| + 1 {
        assert s[i] == b[i - |a| - 1];
      } else {
        assert s[i] == c[i - |a| - |b| - 2];
      }
    }
  }
}
