/**
 * The JavaScript string operations the timetable code relies on, over
 * `seq<char>` (one `char` per Unicode scalar value):
 * `trim`, `toLowerCase`/`toUpperCase`, `startsWith`, `includes`,
 * `split` on one character, `replace` of the first occurrence of one
 * character, `String(n)` for naturals, `padStart(2, "0")`, and the UTF-16
 * code units that `length` and `charCodeAt` see.
 */
module JsText {

  /** The characters `String.prototype.trim` removes: WhiteSpace and LineTerminator. */
  predicate IsJsWhitespace(c: char) {
    || c == '\t' || c == '\n' || c == '\U{000B}' || c == '\U{000C}' || c == '\r' || c == ' '
    || c == '\U{00A0}' || c == '\U{1680}' || ('\U{2000}' <= c <= '\U{200A}')
    || c == '\U{2028}' || c == '\U{2029}' || c == '\U{202F}' || c == '\U{205F}'
    || c == '\U{3000}' || c == '\U{FEFF}'
  }

  /** Index of the first character that is not whitespace. */
  function TrimStartIndex(s: seq<char>): (i: nat)
    ensures i <= |s|
    ensures forall k :: 0 <= k < i ==> IsJsWhitespace(s[k])
    ensures i < |s| ==> !IsJsWhitespace(s[i])
  {
    if s == [] || !IsJsWhitespace(s[0]) then 0 else 1 + TrimStartIndex(s[1..])
  }

  /** One past the last character at or after `lo` that is not whitespace. */
  function TrimEndIndex(s: seq<char>, lo: nat): (j: nat)
    requires lo <= |s|
    ensures lo <= j <= |s|
    ensures forall k :: j <= k < |s| ==> IsJsWhitespace(s[k])
    ensures j > lo ==> !IsJsWhitespace(s[j - 1])
    decreases |s|
  {
    if |s| == lo || !IsJsWhitespace(s[|s| - 1]) then |s|
    else TrimEndIndex(s[..|s| - 1], lo)
  }

  /** `s.trim()`: the slice between the leading and the trailing whitespace. */
  function Trim(s: seq<char>): (r: seq<char>)
    ensures |r| <= |s|
    ensures r != [] ==> !IsJsWhitespace(r[0]) && !IsJsWhitespace(r[|r| - 1])
    ensures r == [] <==> forall k :: 0 <= k < |s| ==> IsJsWhitespace(s[k])
  {
    var i := TrimStartIndex(s);
    var j := TrimEndIndex(s, i);
    assert r: s[i..j] == [] ==> forall k :: 0 <= k < |s| ==> IsJsWhitespace(s[k]) by {
      if i == j {
        forall k | 0 <= k < |s| ensures IsJsWhitespace(s[k]) {
          if k >= i { assert j <= k; }
        }
      }
    }
    s[i..j]
  }

  /** Trimming twice is trimming once. */
  lemma TrimIdempotent(s: seq<char>)
    ensures Trim(Trim(s)) == Trim(s)
  {
    var t := Trim(s);
    if t != [] {
      assert TrimStartIndex(t) == 0;
      assert TrimEndIndex(t, 0) == |t|;
    }
  }

  /** `toLowerCase` on one character; modelled for ASCII and Latin-1 letters. */
  function LowerChar(c: char): (r: char)
    ensures IsUpperAsciiLetter(c) ==> r as int == c as int + 32
    ensures !IsUpperAsciiLetter(c) && !('\U{00C0}' <= c <= '\U{00DE}') ==> r == c
  {
    if 'A' <= c <= 'Z' then (c as int + 32) as char
    else if '\U{00C0}' <= c <= '\U{00DE}' && c != '\U{00D7}' then (c as int + 32) as char
    else c
  }

  /** `toUpperCase` on one character; modelled for ASCII and Latin-1 letters. */
  function UpperChar(c: char): (r: char)
    ensures IsLowerAsciiLetter(c) ==> r as int == c as int - 32
    ensures !IsLowerAsciiLetter(c) && !('\U{00E0}' <= c <= '\U{00FE}') ==> r == c
  {
    if 'a' <= c <= 'z' then (c as int - 32) as char
    else if '\U{00E0}' <= c <= '\U{00FE}' && c != '\U{00F7}' then (c as int - 32) as char
    else c
  }

  predicate IsUpperAsciiLetter(c: char) { 'A' <= c <= 'Z' }
  predicate IsLowerAsciiLetter(c: char) { 'a' <= c <= 'z' }
  predicate IsAsciiLetter(c: char) { IsUpperAsciiLetter(c) || IsLowerAsciiLetter(c) }
  predicate IsAsciiDigit(c: char) { '0' <= c <= '9' }

  /** A string that neither starts nor ends with whitespace is its own trim. */
  lemma TrimWithoutOuterSpace(s: seq<char>)
    requires s != [] && !IsJsWhitespace(s[0]) && !IsJsWhitespace(s[|s| - 1])
    ensures Trim(s) == s
  {
    assert TrimStartIndex(s) == 0;
    assert TrimEndIndex(s, 0) == |s|;
  }

  /** A prefix with no whitespace in it survives trimming. */
  lemma PrefixSurvivesTrim(s: seq<char>, p: seq<char>)
    requires p != [] && StartsWith(s, p)
    requires forall k :: 0 <= k < |p| ==> !IsJsWhitespace(p[k])
    ensures StartsWith(Trim(s), p)
  {
    assert s[0] == p[0];
    assert TrimStartIndex(s) == 0;
    var j := TrimEndIndex(s, 0);
    assert s[|p| - 1] == p[|p| - 1];
    assert j >= |p|;
    assert Trim(s)[..|p|] == s[..|p|];
  }

  /** `s.toLowerCase()`, character by character. */
  function Lower(s: seq<char>): (r: seq<char>)
    ensures |r| == |s|
    ensures forall i :: 0 <= i < |s| ==> r[i] == LowerChar(s[i])
  {
    seq(|s|, i requires 0 <= i < |s| => LowerChar(s[i]))
  }

  /** `s.toUpperCase()`, character by character. */
  function Upper(s: seq<char>): (r: seq<char>)
    ensures |r| == |s|
    ensures forall i :: 0 <= i < |s| ==> r[i] == UpperChar(s[i])
  {
    seq(|s|, i requires 0 <= i < |s| => UpperChar(s[i]))
  }

  /** Lower-casing is idempotent, so a lower-cased key looks itself up. */
  lemma LowerIdempotent(s: seq<char>)
    ensures Lower(Lower(s)) == Lower(s)
  {
  }

  /** `s.startsWith(p)`. */
  predicate StartsWith(s: seq<char>, p: seq<char>) {
    |p| <= |s| && s[..|p|] == p
  }

  /** `s.includes(p)`. */
  predicate Contains(s: seq<char>, p: seq<char>) {
    exists i | 0 <= i <= |s| - |p| :: OccursAt(s, p, i)
  }

  /** `p` occurs in `s` starting at index `i`. */
  predicate OccursAt(s: seq<char>, p: seq<char>, i: int) {
    0 <= i <= |s| - |p| && s[i..i + |p|] == p
  }

  /** `s.split(c)` for a one-character separator: never empty. */
  function Split(s: seq<char>, c: char): (r: seq<seq<char>>)
    ensures |r| >= 1
    ensures forall k :: 0 <= k < |r| ==> c !in r[k]
  {
    if s == [] then [[]]
    else
      var rest := Split(s[1..], c);
      if s[0] == c then [[]] + rest else [[s[0]] + rest[0]] + rest[1..]
  }

  /** A string without the separator splits into itself alone. */
  lemma {:induction false} NoSeparatorSplit(s: string, c: char)
    requires c !in s
    ensures Split(s, c) == [s]
  {
    if s != [] {
      NoSeparatorSplit(s[1..], c);
      assert [s[0]] + s[1..] == s;
    }
  }

  /** Two separator-free strings joined by the separator split back into the two. */
  lemma {:induction false} SplitAroundSeparator(a: string, b: string, c: char)
    requires c !in a && c !in b
    ensures Split(a + [c] + b, c) == [a, b]
  {
    if a == [] {
      NoSeparatorSplit(b, c);
      assert a + [c] + b == [c] + b;
      assert ([c] + b)[1..] == b;
    } else {
      SplitAroundSeparator(a[1..], b, c);
      var s := a + [c] + b;
      assert s[0] == a[0] && s[1..] == a[1..] + [c] + b;
      assert [a[0]] + a[1..] == a;
    }
  }

  /** `parts.join(c)`. */
  function Join(parts: seq<seq<char>>, c: char): seq<char> {
    if parts == [] then []
    else if |parts| == 1 then parts[0]
    else parts[0] + [c] + Join(parts[1..], c)
  }

  /** Splitting on a character and joining on it again gives back the string. */
  lemma {:induction false} JoinSplit(s: seq<char>, c: char)
    ensures Join(Split(s, c), c) == s
  {
    if s != [] {
      var rest := Split(s[1..], c);
      JoinSplit(s[1..], c);
      if s[0] == c {
        assert Split(s, c) == [[]] + rest;
      } else {
        assert Split(s, c) == [[s[0]] + rest[0]] + rest[1..];
        if |rest| == 1 {
          assert Join(rest, c) == rest[0];
        } else {
          assert Join(rest, c) == rest[0] + [c] + Join(rest[1..], c);
          assert ([[s[0]] + rest[0]] + rest[1..])[1..] == rest[1..];
        }
      }
    }
  }

  /** A separator-free first field splits off on its own. */
  lemma {:induction false} SplitField(a: string, rest: string, c: char)
    requires c !in a
    ensures Split(a + [c] + rest, c) == [a] + Split(rest, c)
  {
    var s := a + [c] + rest;
    if a == [] {
      assert s == [c] + rest && s[1..] == rest;
    } else {
      SplitField(a[1..], rest, c);
      assert s[0] == a[0] && s[1..] == a[1..] + [c] + rest;
      assert [a[0]] + a[1..] == a;
    }
  }

  /** Joining separator-free parts and splitting again gives the parts back. */
  lemma {:induction false} SplitJoin(parts: seq<seq<char>>, c: char)
    requires |parts| >= 1
    requires forall k :: 0 <= k < |parts| ==> c !in parts[k]
    ensures Split(Join(parts, c), c) == parts
  {
    if |parts| == 1 {
      NoSeparatorSplit(parts[0], c);
    } else {
      SplitJoin(parts[1..], c);
      SplitField(parts[0], Join(parts[1..], c), c);
      assert [parts[0]] + parts[1..] == parts;
    }
  }

  /** A character absent from the input is absent from every field. */
  lemma {:induction false} SplitKeepsOut(s: seq<char>, c: char, x: char)
    requires x !in s
    ensures forall k :: 0 <= k < |Split(s, c)| ==> x !in Split(s, c)[k]
  {
    if s != [] {
      SplitKeepsOut(s[1..], c, x);
      assert x != s[0];
    }
  }

  /** `s.replace(c, "")` with a one-character pattern: drops the first `c` only. */
  function RemoveFirst(s: seq<char>, c: char): (r: seq<char>)
    ensures c !in s ==> r == s
    ensures c in s ==> |r| == |s| - 1
  {
    if s == [] then []
    else if s[0] == c then s[1..]
    else [s[0]] + RemoveFirst(s[1..], c)
  }

  /** The first `c` goes, whatever follows it. */
  lemma {:induction false} RemoveFirstAt(h: seq<char>, c: char, m: seq<char>)
    requires c !in h
    ensures RemoveFirst(h + [c] + m, c) == h + m
  {
    var s := h + [c] + m;
    if h == [] {
      assert s[1..] == m;
    } else {
      RemoveFirstAt(h[1..], c, m);
      assert s[0] == h[0] && s[1..] == h[1..] + [c] + m;
      assert [h[0]] + (h[1..] + m) == h + m;
    }
  }

  lemma {:induction false} RemoveFirstKeepsOut(s: seq<char>, c: char, x: char)
    requires x !in s
    ensures x !in RemoveFirst(s, c)
  {
    if s != [] {
      RemoveFirstKeepsOut(s[1..], c, x);
    }
  }

  /** The value of a non-empty run of decimal digits. */
  function DigitsValue(s: seq<char>): nat
    requires forall k :: 0 <= k < |s| ==> IsAsciiDigit(s[k])
  {
    if s == [] then 0
    else
      assert IsAsciiDigit(s[|s| - 1]);
      10 * DigitsValue(s[..|s| - 1]) + (s[|s| - 1] as int - '0' as int)
  }

  function DigitChar(d: nat): (c: char)
    requires d < 10
    ensures IsAsciiDigit(c) && c as int - '0' as int == d
  {
    ('0' as int + d) as char
  }

  /** `String(n)` for a natural number: its decimal digits, no leading zero. */
  function NatToString(n: nat): (r: seq<char>)
    ensures |r| >= 1
    ensures forall k :: 0 <= k < |r| ==> IsAsciiDigit(r[k])
    ensures n < 10 <==> |r| == 1
    ensures 10 <= n < 100 ==> |r| == 2
  {
    if n < 10 then [DigitChar(n)] else NatToString(n / 10) + [DigitChar(n % 10)]
  }

  /** Reading back the digits of `String(n)` gives `n`. */
  lemma {:induction false} NatToStringValue(n: nat)
    ensures DigitsValue(NatToString(n)) == n
  {
    if n >= 10 {
      NatToStringValue(n / 10);
      var r := NatToString(n);
      assert r[..|r| - 1] == NatToString(n / 10);
    }
  }

  /** `String(n).padStart(2, "0")`. */
  function Pad2(n: nat): (r: seq<char>)
    ensures n < 100 ==> |r| == 2
    ensures forall k :: 0 <= k < |r| ==> IsAsciiDigit(r[k])
  {
    var d := NatToString(n);
    if |d| < 2 then ['0'] + d else d
  }

  /** A zero-padded number below 100 reads back as itself. */
  lemma Pad2Value(n: nat)
    requires n < 100
    ensures DigitsValue(Pad2(n)) == n
  {
    NatToStringValue(n);
    if n < 10 {
      assert Pad2(n) == ['0', DigitChar(n)];
      assert Pad2(n)[..1] == ['0'];
    }
  }

  /** The UTF-16 code units JavaScript stores for one character. */
  function Utf16Units(c: char): (r: seq<int>)
    ensures |r| == (if c as int < 0x1_0000 then 1 else 2)
    ensures forall k :: 0 <= k < |r| ==> 0 <= r[k] < 0x1_0000
  {
    var v := c as int;
    if v < 0x1_0000 then [v]
    else [0xD800 + (v - 0x1_0000) / 0x400, 0xDC00 + (v - 0x1_0000) % 0x400]
  }

  /** The code units of a whole string: what `str.length` counts and `charCodeAt` reads. */
  function CodeUnits(s: seq<char>): (r: seq<int>)
    ensures forall k :: 0 <= k < |r| ==> 0 <= r[k] < 0x1_0000
  {
    if s == [] then [] else CodeUnits(s[..|s| - 1]) + Utf16Units(s[|s| - 1])
  }

  /** The UTF-8 bytes of one character (what `encodeURIComponent` percent-encodes). */
  function Utf8Bytes(c: char): (r: seq<int>)
    ensures 1 <= |r| <= 4
    ensures forall k :: 0 <= k < |r| ==> 0 <= r[k] < 0x100
    ensures |r| == 1 <==> c as int < 0x80
  {
    var v := c as int;
    if v < 0x80 then [v]
    else if v < 0x800 then [0xC0 + v / 0x40, 0x80 + v % 0x40]
    else if v < 0x1_0000 then [0xE0 + v / 0x1000, 0x80 + (v / 0x40) % 0x40, 0x80 + v % 0x40]
    else [0xF0 + v / 0x4_0000, 0x80 + (v / 0x1000) % 0x40, 0x80 + (v / 0x40) % 0x40, 0x80 + v % 0x40]
  }

  /** `/^-?\d+$/`: an optional minus sign and at least one ASCII digit, nothing else. */
  predicate IsSignedInteger(s: seq<char>) {
    if |s| > 0 && s[0] == '-' then |s| > 1 && AllDigits(s[1..]) else |s| > 0 && AllDigits(s)
  }

  predicate AllDigits(s: seq<char>) {
    forall k :: 0 <= k < |s| ==> IsAsciiDigit(s[k])
  }

  /** `parseInt` on a string that `IsSignedInteger` accepts. */
  function SignedValue(s: seq<char>): int
    requires IsSignedInteger(s)
  {
    if |s| > 0 && s[0] == '-' then var v: int := DigitsValue(s[1..]); -v else DigitsValue(s)
  }

  /** The decimal text of an integer, with a leading minus when negative. */
  function IntToString(n: int): (r: seq<char>)
    ensures IsSignedInteger(r)
  {
    if n < 0 then "-" + NatToString(-n) else NatToString(n)
  }

  /** Reading back the text of any integer gives the integer. */
  lemma IntToStringValue(n: int)
    ensures SignedValue(IntToString(n)) == n
  {
    if n < 0 {
      assert IntToString(n)[1..] == NatToString(-n);
      NatToStringValue(-n);
    } else {
      NatToStringValue(n);
    }
  }

  /** The characters `encodeURIComponent` leaves as they are. */
  predicate IsUriUnreserved(c: char) {
    IsAsciiLetter(c) || IsAsciiDigit(c) || c in "-_.!~*'()"
  }

  predicate IsUpperHexDigit(c: char) {
    IsAsciiDigit(c) || 'A' <= c <= 'F'
  }

  function HexDigit(d: nat): (c: char)
    requires d < 16
    ensures IsUpperHexDigit(c)
  {
    if d < 10 then DigitChar(d) else ('A' as int + d - 10) as char
  }

  /** `%XX` for one byte, upper-case hexadecimal. */
  function PercentByte(b: int): (r: seq<char>)
    requires 0 <= b < 0x100
    ensures |r| == 3 && r[0] == '%' && IsUpperHexDigit(r[1]) && IsUpperHexDigit(r[2])
  {
    ['%', HexDigit(b / 16), HexDigit(b % 16)]
  }

  function PercentBytes(bytes: seq<int>): (r: seq<char>)
    requires forall k :: 0 <= k < |bytes| ==> 0 <= bytes[k] < 0x100
    ensures |r| == 3 * |bytes|
    ensures forall k :: 0 <= k < |r| ==> r[k] == '%' || IsUpperHexDigit(r[k])
  {
    if bytes == [] then [] else PercentByte(bytes[0]) + PercentBytes(bytes[1..])
  }

  /** One character of `encodeURIComponent`: itself when unreserved, else its UTF-8 bytes as `%XX`. */
  function EncodeUriChar(c: char): (r: seq<char>)
    ensures IsUriUnreserved(c) ==> r == [c]
    ensures !IsUriUnreserved(c) ==> |r| == 3 * |Utf8Bytes(c)| && r[0] == '%'
    ensures forall k :: 0 <= k < |r| ==> IsUriUnreserved(r[k]) || r[k] == '%'
  {
    if IsUriUnreserved(c) then [c] else PercentBytes(Utf8Bytes(c))
  }

  /**
   * `encodeURIComponent`. Strings here hold Unicode scalar values, so the
   * lone-surrogate error of the original cannot arise.
   */
  function EncodeUriComponent(s: seq<char>): (r: seq<char>)
    ensures forall k :: 0 <= k < |r| ==> IsUriUnreserved(r[k]) || r[k] == '%'
    ensures |r| >= |s|
  {
    if s == [] then [] else EncodeUriChar(s[0]) + EncodeUriComponent(s[1..])
  }

  /** Encoding distributes over concatenation. */
  lemma {:induction false} EncodeUriConcat(a: seq<char>, b: seq<char>)
    ensures EncodeUriComponent(a + b) == EncodeUriComponent(a) + EncodeUriComponent(b)
  {
    if a == [] {
      assert a + b == b;
    } else {
      assert (a + b)[0] == a[0] && (a + b)[1..] == a[1..] + b;
      EncodeUriConcat(a[1..], b);
      calc {
        EncodeUriComponent(a + b);
        EncodeUriChar(a[0]) + EncodeUriComponent(a[1..] + b);
        EncodeUriChar(a[0]) + (EncodeUriComponent(a[1..]) + EncodeUriComponent(b));
        (EncodeUriChar(a[0]) + EncodeUriComponent(a[1..])) + EncodeUriComponent(b);
      }
    }
  }

  /**
   * A string of unreserved characters is its own encoding; every other
   * string changes, since the encoding of its first reserved character
   * starts with `%`.
   */
  lemma {:induction false} EncodeUriIdentity(s: seq<char>)
    ensures EncodeUriComponent(s) == s <==> forall k :: 0 <= k < |s| ==> IsUriUnreserved(s[k])
  {
    if s != [] {
      EncodeUriIdentity(s[1..]);
      var head, tail := EncodeUriChar(s[0]), EncodeUriComponent(s[1..]);
      if !IsUriUnreserved(s[0]) {
        assert |head| >= 3;
        assert |head + tail| > |s|;
      } else if tail != s[1..] {
        assert (head + tail)[1..] == tail;
      } else {
        assert forall k :: 0 <= k < |s| ==> IsUriUnreserved(s[k]) by {
          forall k | 0 <= k < |s| ensures IsUriUnreserved(s[k]) {
            if k > 0 { assert s[k] == s[1..][k - 1]; }
          }
        }
      }
      if forall k :: 0 <= k < |s| ==> IsUriUnreserved(s[k]) {
        assert forall k :: 0 <= k < |s[1..]| ==> IsUriUnreserved(s[1..][k]) by {
          forall k | 0 <= k < |s[1..]| ensures IsUriUnreserved(s[1..][k]) {
            assert s[1..][k] == s[k + 1];
          }
        }
      }
    }
  }
}
