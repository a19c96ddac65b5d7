/**
  The JavaScript string and number primitives the handlers rely on, written
  out so that their edge cases are explicit: `String.prototype.trim`,
  `String.prototype.split` with a one-character separator, the global
  `parseInt` without a radix, the `length` of a string (UTF-16 code units),
  ASCII `toLowerCase`, and the remainder operator `%`.
 */
module JsText {
  import opened Outcomes

  /** The ECMAScript WhiteSpace and LineTerminator code points: what `trim`
      strips and what the regular-expression class `\s` matches. */
  predicate IsSpace(c: char) {
    || c == '\t' || c == '\n' || c == '\U{000B}' || c == '\U{000C}' || c == '\r' || c == ' '
    || c == '\U{00A0}' || c == '\U{1680}' || ('\U{2000}' <= c <= '\U{200A}')
    || c == '\U{2028}' || c == '\U{2029}' || c == '\U{202F}' || c == '\U{205F}'
    || c == '\U{3000}' || c == '\U{FEFF}'
  }

  /** Leading white space removed. */
  function TrimStart(s: string): (r: string)
    ensures |r| <= |s|
  {
    if |s| > 0 && IsSpace(s[0]) then TrimStart(s[1..]) else s
  }

  /** Trailing white space removed. */
  function TrimEnd(s: string): (r: string)
    ensures |r| <= |s|
  {
    if |s| > 0 && IsSpace(s[|s| - 1]) then TrimEnd(s[..|s| - 1]) else s
  }

  /** TrimStart removes exactly a white-space prefix, up to a character that is not white space. */
  lemma {:induction false} TrimStartShape(s: string)
    ensures var r := TrimStart(s);
            && r == s[|s| - |r|..]
            && (forall i :: 0 <= i < |s| - |r| ==> IsSpace(s[i]))
            && (|r| > 0 ==> !IsSpace(r[0]))
    decreases |s|
  {
    if |s| > 0 && IsSpace(s[0]) {
      TrimStartShape(s[1..]);
      var r := TrimStart(s);
      assert r == TrimStart(s[1..]);
      forall i | 0 <= i < |s| - |r| ensures IsSpace(s[i]) {
        if i > 0 {
          assert s[i] == s[1..][i - 1];
        }
      }
    }
  }

  /** TrimEnd removes exactly a white-space suffix, back to a character that is not white space. */
  lemma {:induction false} TrimEndShape(s: string)
    ensures var r := TrimEnd(s);
            && r == s[..|r|]
            && (forall i :: |r| <= i < |s| ==> IsSpace(s[i]))
            && (|r| > 0 ==> !IsSpace(r[|r| - 1]))
    decreases |s|
  {
    if |s| > 0 && IsSpace(s[|s| - 1]) {
      TrimEndShape(s[..|s| - 1]);
      var r := TrimEnd(s);
      assert r == TrimEnd(s[..|s| - 1]);
      forall i | |r| <= i < |s| ensures IsSpace(s[i]) {
        if i < |s| - 1 {
          assert s[i] == s[..|s| - 1][i];
        }
      }
    }
  }

  /** How many white-space characters s starts with. */
  function LeadingSpace(s: string): (n: nat)
    ensures n <= |s|
    ensures forall i :: 0 <= i < n ==> IsSpace(s[i])
    ensures n < |s| ==> !IsSpace(s[n])
  {
    if |s| > 0 && IsSpace(s[0]) then 1 + LeadingSpace(s[1..]) else 0
  }

  /** `s.trim()`. */
  function Trim(s: string): (r: string)
    ensures |r| <= |s|
  {
    TrimEnd(TrimStart(s))
  }

  /** The trim of s is the slice of s that neither starts nor ends with white
      space and is surrounded only by white space. */
  lemma TrimShape(s: string)
    ensures var r := Trim(s);
            && LeadingSpace(s) + |r| <= |s|
            && r == s[LeadingSpace(s)..LeadingSpace(s) + |r|]
            && (forall i :: 0 <= i < LeadingSpace(s) ==> IsSpace(s[i]))
            && (forall i :: LeadingSpace(s) + |r| <= i < |s| ==> IsSpace(s[i]))
            && (|r| > 0 ==> !IsSpace(r[0]) && !IsSpace(r[|r| - 1]))
  {
    var t := TrimStart(s);
    TrimStartShape(s);
    TrimEndShape(t);
    LeadingTrimmed(s);
  }

  lemma {:induction false} LeadingTrimmed(s: string)
    ensures |s| - |TrimStart(s)| == LeadingSpace(s)
    decreases |s|
  {
    if |s| > 0 && IsSpace(s[0]) {
      LeadingTrimmed(s[1..]);
    }
  }

  lemma {:induction false} TrimIdempotent(s: string)
    ensures Trim(Trim(s)) == Trim(s)
  {
    var r := Trim(s);
    TrimShape(s);
    assert TrimStart(r) == r;
    assert TrimEnd(r) == r;
  }

  /** A string that neither starts nor ends with white space is its own trim. */
  lemma TrimNoEdges(s: string)
    requires |s| > 0 ==> !IsSpace(s[0]) && !IsSpace(s[|s| - 1])
    ensures Trim(s) == s
  {
  }

  lemma NoSpaceTrim(s: string)
    requires forall i :: 0 <= i < |s| ==> !IsSpace(s[i])
    ensures Trim(s) == s
  {
  }

  /** Code units one character takes in UTF-16: two for a supplementary-plane code point. */
  function Utf16Units(c: char): nat {
    if c as int > 0xFFFF then 2 else 1
  }

  /** `s.length`: the number of UTF-16 code units of s. */
  function Utf16Length(s: string): (n: nat)
    ensures |s| <= n <= 2 * |s|
    ensures (forall i :: 0 <= i < |s| ==> s[i] as int <= 0xFFFF) ==> n == |s|
  {
    if |s| == 0 then 0 else Utf16Units(s[0]) + Utf16Length(s[1..])
  }

  /** The positions of s that hold a supplementary-plane code point. */
  function Supplementary(s: string): set<nat> {
    set i: nat | i < |s| && s[i] as int > 0xFFFF
  }

  lemma {:induction false} Utf16Append(a: string, c: char)
    ensures Utf16Length(a + [c]) == Utf16Length(a) + Utf16Units(c)
  {
    if |a| > 0 {
      Utf16Append(a[1..], c);
      assert (a + [c])[1..] == a[1..] + [c];
    }
  }

  /** `s.length` counts one unit per character and one more per supplementary code point. */
  lemma {:induction false} Utf16LengthCounts(s: string)
    ensures Utf16Length(s) == |s| + |Supplementary(s)|
  {
    if |s| == 0 {
      assert Supplementary(s) == {};
    } else {
      var p := s[..|s| - 1];
      var c := s[|s| - 1];
      Utf16LengthCounts(p);
      assert s == p + [c];
      Utf16Append(p, c);
      var extra: set<nat> := if c as int > 0xFFFF then {|s| - 1} else {};
      assert Supplementary(s) == Supplementary(p) + extra;
      assert |s| - 1 !in Supplementary(p);
    }
  }

  predicate IsAsciiUpper(c: char) {
    'A' <= c <= 'Z'
  }

  function LowerChar(c: char): (d: char)
    ensures !IsAsciiUpper(d)
    ensures !IsAsciiUpper(c) ==> d == c
    ensures IsAsciiUpper(c) ==> d as int == c as int + 32
  {
    if IsAsciiUpper(c) then (c as int + 32) as char else c
  }

  /** `s.toLowerCase()` restricted to the ASCII letters A-Z. */
  function ToLower(s: string): (r: string)
    ensures |r| == |s|
    ensures forall i :: 0 <= i < |r| ==> !IsAsciiUpper(r[i])
    ensures forall i :: 0 <= i < |s| ==> (IsAsciiUpper(s[i]) || r[i] == s[i])
    ensures forall i :: 0 <= i < |s| && IsAsciiUpper(s[i]) ==> r[i] as int == s[i] as int + 32
  {
    seq(|s|, i requires 0 <= i < |s| => LowerChar(s[i]))
  }

  /** Lowering case neither creates nor removes white space. */
  lemma LowerKeepsSpace(c: char)
    ensures IsSpace(LowerChar(c)) <==> IsSpace(c)
  {
  }

  lemma ToLowerIdempotent(s: string)
    ensures ToLower(ToLower(s)) == ToLower(s)
  {
  }

  /** `s.split(sep)` for a one-character separator: the maximal separator-free
      pieces between separators, always at least one. */
  function Split(s: string, sep: char): (r: seq<string>)
    ensures |r| >= 1
    decreases |s|
  {
    if |s| == 0 then [""]
    else
      var rest := Split(s[1..], sep);
      if s[0] == sep then [""] + rest
      else [[s[0]] + rest[0]] + rest[1..]
  }

  /** `parts.join(sep)`. */
  function Join(parts: seq<string>, sep: char): string
    requires |parts| >= 1
  {
    if |parts| == 1 then parts[0] else parts[0] + [sep] + Join(parts[1..], sep)
  }

  lemma {:induction false} JoinSplit(s: string, sep: char)
    ensures Join(Split(s, sep), sep) == s
    decreases |s|
  {
    if |s| > 0 {
      var rest := Split(s[1..], sep);
      JoinSplit(s[1..], sep);
      if s[0] == sep {
        assert Join(Split(s, sep), sep) == "" + [sep] + Join(rest, sep);
      } else if |rest| == 1 {
        assert Join(Split(s, sep), sep) == [s[0]] + rest[0];
      } else {
        assert Join(rest, sep) == rest[0] + [sep] + Join(rest[1..], sep);
        assert Join(Split(s, sep), sep) == ([s[0]] + rest[0]) + [sep] + Join(rest[1..], sep);
      }
    }
  }

  /** A separator-free prefix t glues onto the first piece of what follows it. */
  lemma {:induction false} SplitPrefix(t: string, rest: string, sep: char)
    requires sep !in t
    ensures Split(t + rest, sep) == [t + Split(rest, sep)[0]] + Split(rest, sep)[1..]
    decreases |t|
  {
    if |t| > 0 {
      SplitPrefix(t[1..], rest, sep);
      var r := Split(rest, sep);
      assert (t + rest)[1..] == t[1..] + rest;
      assert (t + rest)[0] == t[0] != sep;
      assert [t[0]] + (t[1..] + r[0]) == t + r[0];
    } else {
      var r := Split(rest, sep);
      assert t + rest == rest && t + r[0] == r[0];
      assert r == [r[0]] + r[1..];
    }
  }

  lemma {:induction false} SplitJoin(parts: seq<string>, sep: char)
    requires |parts| >= 1
    requires forall k :: 0 <= k < |parts| ==> sep !in parts[k]
    ensures Split(Join(parts, sep), sep) == parts
    decreases |parts|
  {
    if |parts| == 1 {
      SplitPrefix(parts[0], "", sep);
      assert parts[0] + "" == parts[0];
    } else {
      SplitJoin(parts[1..], sep);
      var u := Join(parts[1..], sep);
      assert Join(parts, sep) == parts[0] + ([sep] + u);
      SplitPrefix(parts[0], [sep] + u, sep);
      assert ([sep] + u)[1..] == u;
      assert Split([sep] + u, sep) == [""] + parts[1..];
      assert parts[0] + "" == parts[0];
    }
  }

  /** Decimal digit for 0 <= d < 10. */
  function DecDigit(d: nat): char
    requires d < 10
  {
    ('0' as int + d) as char
  }

  /** The decimal numeral of n, as `String(n)` writes it. */
  function Dec(n: nat): (r: string)
    ensures |r| >= 1
    ensures forall i :: 0 <= i < |r| ==> '0' <= r[i] <= '9'
    ensures |r| > 1 ==> r[0] != '0'
  {
    if n < 10 then [DecDigit(n)] else Dec(n / 10) + [DecDigit(n % 10)]
  }

  /** The value of c as a digit of the given radix, or -1 when it is not one. */
  function DigitValue(c: char, radix: nat): int {
    var v := if '0' <= c <= '9' then c as int - '0' as int
             else if 'a' <= c <= 'z' then c as int - 'a' as int + 10
             else if 'A' <= c <= 'Z' then c as int - 'A' as int + 10
             else -1;
    if v < radix then v else -1
  }

  /** Length of the longest prefix of s made of radix digits. */
  function DigitRun(s: string, radix: nat): (n: nat)
    ensures n <= |s|
    ensures forall i :: 0 <= i < n ==> DigitValue(s[i], radix) >= 0
    ensures n < |s| ==> DigitValue(s[n], radix) < 0
  {
    if |s| > 0 && DigitValue(s[0], radix) >= 0 then 1 + DigitRun(s[1..], radix) else 0
  }

  /** The number written by a string of radix digits, most significant first. */
  function DigitsValue(d: string, radix: nat): nat
    requires forall i :: 0 <= i < |d| ==> DigitValue(d[i], radix) >= 0
  {
    if |d| == 0 then 0 else DigitsValue(d[..|d| - 1], radix) * radix + DigitValue(d[|d| - 1], radix)
  }

  /** The longest run of radix digits at the start of body, read as a number;
      None when there is none. */
  function Digits(body: string, radix: nat): (r: Option<nat>)
    ensures r.None? <==> DigitRun(body, radix) == 0
  {
    var n := DigitRun(body, radix);
    if n == 0 then None else Some(DigitsValue(body[..n], radix))
  }

  /** The digits after the sign: base 16 after a `0x`/`0X` prefix, else base 10. */
  function Unsigned(u: string): Option<nat> {
    if |u| >= 2 && u[0] == '0' && (u[1] == 'x' || u[1] == 'X') then Digits(u[2..], 16)
    else Digits(u, 10)
  }

  /** `parseInt(s)` with no radix argument: skip leading white space, take an
      optional sign, switch to base 16 after a `0x`/`0X` prefix, and read the
      longest run of digits; no digits at all is NaN, here None. */
  function ParseInt(s: string): Option<int> {
    var t := TrimStart(s);
    if |t| > 0 && t[0] == '-' then
      match Unsigned(t[1..])
      case None => None
      case Some(m) => Some(-(m as int))
    else if |t| > 0 && t[0] == '+' then
      match Unsigned(t[1..])
      case None => None
      case Some(m) => Some(m)
    else
      match Unsigned(t)
      case None => None
      case Some(m) => Some(m)
  }

  lemma {:induction false} DecValue(n: nat)
    ensures DigitsValue(Dec(n), 10) == n
  {
    if n >= 10 {
      DecValue(n / 10);
      assert Dec(n)[..|Dec(n)| - 1] == Dec(n / 10);
    }
  }

  lemma DigitRunAll(s: string, radix: nat)
    requires forall i :: 0 <= i < |s| ==> DigitValue(s[i], radix) >= 0
    ensures DigitRun(s, radix) == |s|
  {
  }

  /** parseInt reads back every decimal numeral. */
  lemma ParseDec(n: nat)
    ensures ParseInt(Dec(n)) == Some(n)
  {
    var d := Dec(n);
    DecUnsigned(n);
    assert TrimStart(d) == d by {
      assert !IsSpace(d[0]);
    }
    assert d[0] != '-' && d[0] != '+';
  }

  lemma DecUnsigned(n: nat)
    ensures Unsigned(Dec(n)) == Some(n)
  {
    var d := Dec(n);
    assert !(|d| >= 2 && d[0] == '0');
    DecDigits(n);
  }

  lemma DecDigits(n: nat)
    ensures Digits(Dec(n), 10) == Some(n)
  {
    var d := Dec(n);
    DigitRunAll(d, 10);
    assert d[..|d|] == d;
    DecValue(n);
  }

  /** A piece with no digit right after its white space, sign and hex prefix is NaN. */
  lemma ParseNoDigit(s: string)
    requires |s| > 0 && DigitValue(s[0], 10) < 0 && s[0] != '-' && s[0] != '+' && !IsSpace(s[0])
    ensures ParseInt(s) == None
  {
  }

  /** JavaScript's `a % b` for a positive divisor: the remainder of truncating
      division, which carries the sign of a (Dafny's `%` never goes negative). */
  function JsRem(a: int, b: int): (r: int)
    requires b > 0
    ensures a >= 0 ==> r == a % b
    ensures a < 0 ==> -b < r <= 0
    ensures (a - r) % b == 0
  {
    if a >= 0 then
      ModOfMultiple(a / b, b);
      a % b
    else
      NegativeRemainder(a, b);
      -((-a) % b)
  }

  /** For a negative a, a minus the truncating remainder is a multiple of b. */
  lemma NegativeRemainder(a: int, b: int)
    requires a < 0 && b > 0
    ensures (a + (-a) % b) % b == 0
  {
    var q := (-a) / b;
    assert a + (-a) % b == (-q) * b;
    ModOfMultiple(-q, b);
  }

  lemma MulAtLeast(d: int, b: int)
    requires d >= 1 && b > 0
    ensures d * b >= b
  {
  }

  /** A multiple of b leaves no remainder. */
  lemma ModOfMultiple(k: int, b: int)
    requires b > 0
    ensures (k * b) % b == 0
  {
    var q := (k * b) / b;
    var r := (k * b) % b;
    var d := k - q;
    assert d * b == k * b - q * b;
    assert d * b == r;
    if d > 0 {
      MulAtLeast(d, b);
    }
    if d < 0 {
      MulAtLeast(-d, b);
    }
  }
}
