/**
 * The pieces of Rust's string library that the modelled commands rely on, on `string`
 * (a sequence of Unicode scalar values): `str::split` with a one-character pattern,
 * `str::trim`, `str::to_lowercase` (ASCII part), `str::lines`, `str::repeat`, left-aligned
 * width padding (`{:width$}`), `str::len` (UTF-8 byte length) and `Display` for integers.
 */
module Text {

  /** Number of occurrences of `c` in `s`. */
  function Count(s: string, c: char): nat
  {
    if s == [] then 0 else (if s[0] == c then 1 else 0) + Count(s[1..], c)
  }

  /**
   * `s.split(sep)`: the pieces between the occurrences of `sep`, in order. There is one piece
   * more than there are separators, so the empty string gives one empty piece.
   */
  function Split(s: string, sep: char): (parts: seq<string>)
    ensures |parts| == Count(s, sep) + 1
    ensures forall i :: 0 <= i < |parts| ==> sep !in parts[i]
  {
    if s == [] then [[]]
    else
      var rest := Split(s[1..], sep);
      if s[0] == sep then [[]] + rest
      else [[s[0]] + rest[0]] + rest[1..]
  }

  /** The pieces put back together with `sep` between them (`[..].join(sep)`). */
  function Join(parts: seq<string>, sep: char): string
  {
    if |parts| <= 1 then (if parts == [] then [] else parts[0])
    else parts[0] + [sep] + Join(parts[1..], sep)
  }

  /** Splitting loses nothing: joining the pieces gives back the original string. */
  lemma {:induction false} JoinSplit(s: string, sep: char)
    ensures Join(Split(s, sep), sep) == s
  {
    if s != [] {
      var rest := Split(s[1..], sep);
      JoinSplit(s[1..], sep);
      if s[0] == sep {
        assert Split(s, sep) == [[]] + rest;
        assert ([[]] + rest)[1..] == rest;
      } else {
        var parts := Split(s, sep);
        assert parts == [[s[0]] + rest[0]] + rest[1..];
        if |rest| == 1 {
          assert rest == [rest[0]];
        } else {
          assert parts[1..] == rest[1..];
          assert Join(rest, sep) == rest[0] + [sep] + Join(rest[1..], sep);
        }
      }
    }
  }

  /** A prefix free of the separator is glued onto the first piece of what follows it. */
  lemma {:induction false} SplitPrefix(a: string, rest: string, sep: char)
    requires sep !in a
    ensures Split(a + rest, sep) == [a + Split(rest, sep)[0]] + Split(rest, sep)[1..]
  {
    if a != [] {
      SplitPrefix(a[1..], rest, sep);
      assert (a + rest)[1..] == a[1..] + rest;
      assert (a + rest)[0] == a[0];
      assert [a[0]] + (a[1..] + Split(rest, sep)[0]) == a + Split(rest, sep)[0];
    } else {
      var parts := Split(rest, sep);
      assert a + rest == rest;
      assert parts == [parts[0]] + parts[1..];
      assert a + parts[0] == parts[0];
    }
  }

  /** Splitting undoes joining, as long as no piece contains the separator. */
  lemma {:induction false} SplitJoin(parts: seq<string>, sep: char)
    requires |parts| >= 1
    requires forall i :: 0 <= i < |parts| ==> sep !in parts[i]
    ensures Split(Join(parts, sep), sep) == parts
  {
    if |parts| == 1 {
      SplitPrefix(parts[0], [], sep);
      assert parts[0] + [] == parts[0];
    } else {
      var tail := Join(parts[1..], sep);
      SplitJoin(parts[1..], sep);
      assert parts[0] + [sep] + tail == parts[0] + ([sep] + tail);
      SplitPrefix(parts[0], [sep] + tail, sep);
      assert ([sep] + tail)[1..] == tail;
      assert Split([sep] + tail, sep) == [[]] + Split(tail, sep);
      assert parts[0] + [] == parts[0];
      assert parts == [parts[0]] + parts[1..];
    }
  }

  /** A character of a piece is a character of the string split. */
  lemma {:induction false} SplitSubset(s: string, sep: char, i: nat, c: char)
    requires i < |Split(s, sep)| && c in Split(s, sep)[i]
    ensures c in s
  {
    if s != [] {
      var rest := Split(s[1..], sep);
      if s[0] == sep {
        if i > 0 {
          SplitSubset(s[1..], sep, i - 1, c);
        }
      } else if i == 0 {
        if c != s[0] {
          assert c in rest[0];
          SplitSubset(s[1..], sep, 0, c);
        }
      } else {
        SplitSubset(s[1..], sep, i, c);
      }
    }
  }

  /** Joining one more piece appends the separator and that piece. */
  lemma {:induction false} JoinSnoc(parts: seq<string>, x: string, sep: char)
    requires |parts| >= 1
    ensures Join(parts + [x], sep) == Join(parts, sep) + [sep] + x
  {
    if |parts| == 1 {
      assert (parts + [x])[1..] == [x];
    } else {
      assert (parts + [x])[1..] == parts[1..] + [x];
      JoinSnoc(parts[1..], x, sep);
      var tail := Join(parts[1..], sep);
      assert parts[0] + [sep] + (tail + [sep] + x) == parts[0] + [sep] + tail + [sep] + x;
    }
  }

  /** `char::is_whitespace`: the Unicode White_Space property. */
  predicate IsWhitespace(c: char)
  {
    || ('\t' <= c <= '\r') || c == ' ' || c == '\U{85}' || c == '\U{A0}' || c == '\U{1680}'
    || ('\U{2000}' <= c <= '\U{200A}') || c == '\U{2028}' || c == '\U{2029}' || c == '\U{202F}'
    || c == '\U{205F}' || c == '\U{3000}'
  }

  /** Index of the first non-whitespace character of `s` at or after `i` (`|s|` if none). */
  function SkipWhitespace(s: string, i: nat): (r: nat)
    requires i <= |s|
    ensures i <= r <= |s|
    ensures forall k :: i <= k < r ==> IsWhitespace(s[k])
    ensures r == |s| || !IsWhitespace(s[r])
    decreases |s| - i
  {
    if i < |s| && IsWhitespace(s[i]) then SkipWhitespace(s, i + 1) else i
  }

  /** End of `s[lo..j]` once its trailing whitespace is dropped. */
  function BackOverWhitespace(s: string, lo: nat, j: nat): (r: nat)
    requires lo <= j <= |s|
    ensures lo <= r <= j
    ensures forall k :: r <= k < j ==> IsWhitespace(s[k])
    ensures r == lo || !IsWhitespace(s[r - 1])
  {
    if lo < j && IsWhitespace(s[j - 1]) then BackOverWhitespace(s, lo, j - 1) else j
  }

  /** Number of whitespace characters `s.trim()` removes from the front of `s`. */
  function LeadingWhitespace(s: string): nat
  {
    SkipWhitespace(s, 0)
  }

  /**
   * `s.trim()`: the part of `s` after its leading whitespace, which neither starts nor ends
   * with whitespace, and everything cut off on either side of it is whitespace.
   */
  function Trim(s: string): (r: string)
    ensures LeadingWhitespace(s) + |r| <= |s|
    ensures forall i :: 0 <= i < |r| ==> r[i] == s[LeadingWhitespace(s) + i]
    ensures forall i :: 0 <= i < LeadingWhitespace(s) ==> IsWhitespace(s[i])
    ensures forall i :: LeadingWhitespace(s) + |r| <= i < |s| ==> IsWhitespace(s[i])
    ensures r == [] || (!IsWhitespace(r[0]) && !IsWhitespace(r[|r| - 1]))
  {
    var lo := SkipWhitespace(s, 0);
    s[lo..BackOverWhitespace(s, lo, |s|)]
  }

  /** A string without surrounding whitespace is its own trim. */
  lemma TrimUnchanged(s: string)
    requires s == [] || (!IsWhitespace(s[0]) && !IsWhitespace(s[|s| - 1]))
    ensures Trim(s) == s
  {
  }

  /** Trimming twice is trimming once. */
  lemma {:induction false} TrimIdempotent(s: string)
    ensures Trim(Trim(s)) == Trim(s)
  {
    TrimUnchanged(Trim(s));
  }

  /** `" b ".trim()` is `"b"`. */
  lemma TrimExample()
    ensures Trim(" b ") == "b"
  {
    var s := " b ";
    assert IsWhitespace(s[0]) && !IsWhitespace(s[1]);
    assert SkipWhitespace(s, 1) == 1;
    assert IsWhitespace(s[2]) && !IsWhitespace(s[1]);
    assert BackOverWhitespace(s, 1, 2) == 2;
  }

  /** A character of a trimmed string is a character of the original. */
  lemma TrimSubset(s: string, c: char)
    requires c in Trim(s)
    ensures c in s
  {
    var r := Trim(s);
    var k :| 0 <= k < |r| && r[k] == c;
    assert s[LeadingWhitespace(s) + k] == c;
  }

  /** The ASCII part of `char::to_lowercase`. */
  function LowerChar(c: char): char
  {
    if 'A' <= c <= 'Z' then (c as int + 32) as char else c
  }

  /** `s.to_lowercase()`, character by character (ASCII letters only). */
  function ToLower(s: string): (r: string)
    ensures |r| == |s|
    ensures forall i :: 0 <= i < |s| ==> r[i] == LowerChar(s[i])
  {
    if s == [] then [] else [LowerChar(s[0])] + ToLower(s[1..])
  }

  /** `s.repeat(n)` of a one-character string. */
  function Repeat(c: char, n: nat): (r: string)
    ensures |r| == n
    ensures forall i :: 0 <= i < n ==> r[i] == c
  {
    if n == 0 then [] else [c] + Repeat(c, n - 1)
  }

  /**
   * `format!("{:width$}", s)`: `s` left-aligned and right-padded with spaces to `width`
   * characters; a longer `s` is kept whole.
   */
  function PadRight(s: string, width: nat): (r: string)
    ensures |r| == if |s| < width then width else |s|
    ensures forall i :: 0 <= i < |s| ==> r[i] == s[i]
    ensures forall i :: |s| <= i < |r| ==> r[i] == ' '
  {
    if |s| < width then s + Repeat(' ', width - |s|) else s
  }

  /** Number of bytes of the UTF-8 encoding of `c`. */
  function Utf8Width(c: char): nat
  {
    if c as int < 0x80 then 1
    else if c as int < 0x800 then 2
    else if c as int < 0x1_0000 then 3
    else 4
  }

  /** `str::len`: the length of `s` in UTF-8 bytes. */
  function Utf8Len(s: string): (n: nat)
    ensures n >= |s|
  {
    if s == [] then 0 else Utf8Width(s[0]) + Utf8Len(s[1..])
  }

  /** Bytes and characters agree exactly on ASCII text. */
  lemma {:induction false} Utf8LenAscii(s: string)
    ensures Utf8Len(s) == |s| <==> forall i :: 0 <= i < |s| ==> s[i] as int < 0x80
  {
    if s != [] {
      Utf8LenAscii(s[1..]);
      assert forall i :: 1 <= i < |s| ==> s[i] == s[1..][i - 1];
    }
  }

  /** Drops one trailing `'\r'`, as a `"\r\n"` line ending is removed. */
  function StripCarriageReturn(s: string): string
  {
    if s != [] && s[|s| - 1] == '\r' then s[..|s| - 1] else s
  }

  /**
   * `s.lines()`: the lines of `s`, each ended by `'\n'` or `"\r\n"`, with the ending removed;
   * the last line needs no ending, and a final empty line after the last `'\n'` is not a line.
   * The pieces of `s.split('\n')` are the lines; all but the last were terminated.
   */
  function Lines(s: string): (lines: seq<string>)
    ensures forall k :: 0 <= k < |lines| ==> '\n' !in lines[k]
  {
    var pieces := Split(s, '\n');
    var n := |pieces| - 1;
    var terminated := seq(n, k requires 0 <= k < n => StripCarriageReturn(pieces[k]));
    assert forall k :: 0 <= k < n ==> '\n' !in terminated[k] by {
      forall k | 0 <= k < n ensures '\n' !in terminated[k] {
        var p := pieces[k];
        if p != [] && p[|p| - 1] == '\r' {
          assert forall c :: c in p[..|p| - 1] ==> c in p;
        }
      }
    }
    terminated + (if pieces[n] == [] then [] else [pieces[n]])
  }

  /** Two lines joined with `'\n'` read back as exactly those two lines. */
  lemma LinesOfTwo(a: string, b: string)
    requires '\n' !in a && '\n' !in b
    requires a == [] || a[|a| - 1] != '\r'
    requires b != []
    ensures Lines(a + "\n" + b) == [a, b]
  {
    assert Join([a, b], '\n') == a + "\n" + b by {
      assert [a, b][1..] == [b];
    }
    SplitJoin([a, b], '\n');
  }

  predicate EndsWithNewline(s: string)
  {
    s != [] && s[|s| - 1] == '\n'
  }

  /**
   * For text without carriage returns, `lines()` loses nothing but one final `'\n'`: the lines
   * joined with `'\n'` give back the text, less its last character when that is a `'\n'`.
   */
  lemma {:induction false} LinesJoin(s: string)
    requires '\r' !in s
    ensures Join(Lines(s), '\n') + (if EndsWithNewline(s) then "\n" else "") == s
  {
    var pieces := Split(s, '\n');
    var n := |pieces| - 1;
    JoinSplit(s, '\n');
    forall k | 0 <= k < n ensures StripCarriageReturn(pieces[k]) == pieces[k] {
      if pieces[k] != [] && pieces[k][|pieces[k]| - 1] == '\r' {
        SplitSubset(s, '\n', k, '\r');
      }
    }
    var lines := Lines(s);
    assert pieces[..n] + [pieces[n]] == pieces;
    if n == 0 {
      assert s == pieces[0];
      if pieces[0] == [] {
        assert lines == [];
      } else {
        assert lines == pieces;
      }
    } else {
      JoinSnoc(pieces[..n], pieces[n], '\n');
      if pieces[n] == [] {
        assert lines == pieces[..n];
        assert s == Join(lines, '\n') + "\n";
      } else {
        assert lines == pieces;
        assert s[|s| - 1] == pieces[n][|pieces[n]| - 1];
      }
    }
  }

  /** The decimal digit for `d`. */
  function DigitChar(d: nat): char
    requires d < 10
  {
    ('0' as int + d) as char
  }

  predicate IsDigit(c: char)
  {
    '0' <= c <= '9'
  }

  function DigitValue(c: char): nat
    requires IsDigit(c)
  {
    c as int - '0' as int
  }

  /** `Display` for an unsigned integer: its decimal digits, without leading zeros. */
  function NatToString(n: nat): (s: string)
    ensures s != []
    ensures forall i :: 0 <= i < |s| ==> IsDigit(s[i])
    ensures |s| > 1 ==> s[0] != '0'
    ensures n < 10 <==> |s| == 1
  {
    if n < 10 then [DigitChar(n)] else NatToString(n / 10) + [DigitChar(n % 10)]
  }

  /** The number a string of decimal digits denotes. */
  function DecimalValue(s: string): nat
    requires forall i :: 0 <= i < |s| ==> IsDigit(s[i])
  {
    if s == [] then 0 else DecimalValue(s[..|s| - 1]) * 10 + DigitValue(s[|s| - 1])
  }

  /** The printed number reads back as the number printed. */
  lemma {:induction false} DecimalRoundTrip(n: nat)
    ensures DecimalValue(NatToString(n)) == n
  {
    if n >= 10 {
      var s := NatToString(n);
      DecimalRoundTrip(n / 10);
      assert s[..|s| - 1] == NatToString(n / 10);
    }
  }
}
