/** Text helpers standing in for the parts of Rust's `std` and `itertools` that the
    generator relies on: `join`, `str::lines`, `str::replace`, `{}` formatting of
    unsigned and signed integers, and left-aligned padding to a width. */
module Strings {

  /** `parts` joined with `sep` between consecutive parts (`[..].join(sep)`, and
      itertools' `format(sep)`). */
  function Join(parts: seq<string>, sep: string): string
    decreases |parts|
  {
    if |parts| == 0 then ""
    else if |parts| == 1 then parts[0]
    else parts[0] + sep + Join(parts[1..], sep)
  }

  /** A character absent from every part and from the separator is absent from the join. */
  lemma {:induction false} JoinExcludes(parts: seq<string>, sep: string, c: char)
    requires c !in sep
    requires forall i :: 0 <= i < |parts| ==> c !in parts[i]
    ensures c !in Join(parts, sep)
    decreases |parts|
  {
    if |parts| > 1 {
      JoinExcludes(parts[1..], sep, c);
    }
  }

  /** Splits `s` at every occurrence of `c`; the pieces never contain `c`. */
  function Split(s: string, c: char): (r: seq<string>)
    ensures |r| >= 1
    ensures forall i :: 0 <= i < |r| ==> c !in r[i]
    decreases |s|
  {
    if |s| == 0 then [""]
    else
      var rest := Split(s[1..], c);
      if s[0] == c then [""] + rest else [[s[0]] + rest[0]] + rest[1..]
  }

  lemma {:induction false} SplitWithout(s: string, c: char)
    requires c !in s
    ensures Split(s, c) == [s]
    decreases |s|
  {
    if |s| > 0 {
      assert c != s[0] && c !in s[1..];
      SplitWithout(s[1..], c);
      assert [s[0]] + s[1..] == s;
    }
  }

  lemma {:induction false} SplitAt(a: string, b: string, c: char)
    requires c !in a
    ensures Split(a + [c] + b, c) == [a] + Split(b, c)
    decreases |a|
  {
    if |a| == 0 {
      assert a + [c] + b == [c] + b;
      assert ([c] + b)[1..] == b;
    } else {
      assert (a + [c] + b)[1..] == a[1..] + [c] + b;
      SplitAt(a[1..], b, c);
      assert [a[0]] + a[1..] == a;
    }
  }

  /** Splitting a join undoes it, provided no part contains the separator character:
      a list joined with `","` can be read back. */
  lemma {:induction false} SplitJoin(parts: seq<string>, c: char)
    requires |parts| >= 1
    requires forall i :: 0 <= i < |parts| ==> c !in parts[i]
    ensures Split(Join(parts, [c]), c) == parts
    decreases |parts|
  {
    if |parts| == 1 {
      SplitWithout(parts[0], c);
    } else {
      SplitJoin(parts[1..], c);
      SplitAt(parts[0], Join(parts[1..], [c]), c);
      assert [parts[0]] + parts[1..] == parts;
    }
  }

  /** Text appended after a join belongs to its last part. */
  lemma {:induction false} JoinAppendLast(parts: seq<string>, sep: string, tail: string)
    requires |parts| >= 1
    ensures Join(parts, sep) + tail == Join(parts[..|parts| - 1] + [parts[|parts| - 1] + tail], sep)
    decreases |parts|
  {
    var n := |parts|;
    var moved := parts[..n - 1] + [parts[n - 1] + tail];
    if n > 1 {
      JoinAppendLast(parts[1..], sep, tail);
      assert parts[1..][..n - 2] + [parts[1..][n - 2] + tail] == moved[1..];
    }
  }

  /** Rust's `str::lines`: pieces separated by `'\n'`, a `"\r"` before a `'\n'` removed,
      and a final empty piece (input ending in a newline, or empty input) dropped. */
  function SourceLines(s: string): seq<string>
  {
    var parts := Split(s, '\n');
    var ended := parts[..|parts| - 1];
    var tail := parts[|parts| - 1];
    seq(|ended|, i requires 0 <= i < |ended| => StripCarriageReturn(ended[i]))
      + (if tail == "" then [] else [tail])
  }

  function StripCarriageReturn(line: string): (r: string)
  {
    if |line| > 0 && line[|line| - 1] == '\r' then line[..|line| - 1] else line
  }

  /** No line that `str::lines` yields holds a newline, so every echoed source line stays
      one comment line; and input without a newline is one line (none when empty). */
  lemma SourceLinesOneLineEach(s: string)
    ensures forall i :: 0 <= i < |SourceLines(s)| ==> '\n' !in SourceLines(s)[i]
    ensures '\n' !in s ==> SourceLines(s) == (if s == "" then [] else [s])
  {
    var parts := Split(s, '\n');
    var ended := parts[..|parts| - 1];
    forall i | 0 <= i < |ended|
      ensures '\n' !in StripCarriageReturn(ended[i])
    {
      assert '\n' !in parts[i];
    }
    if '\n' !in s {
      SplitWithout(s, '\n');
    }
  }

  /** Splitting at `c` and joining with `c` gives the text back. */
  lemma {:induction false} JoinSplit(s: string, c: char)
    ensures Join(Split(s, c), [c]) == s
    decreases |s|
  {
    if |s| > 0 {
      var rest := Split(s[1..], c);
      JoinSplit(s[1..], c);
      if s[0] == c {
        assert Join([""] + rest, [c]) == "" + [c] + Join(rest, [c]);
        assert [s[0]] + s[1..] == s;
      } else if |rest| == 1 {
        assert [s[0]] + s[1..] == s;
      } else {
        var parts := [[s[0]] + rest[0]] + rest[1..];
        assert parts[1..] == rest[1..];
        assert Join(parts, [c]) == [s[0]] + rest[0] + [c] + Join(rest[1..], [c]);
        assert [s[0]] + s[1..] == s;
      }
    }
  }

  /** Joining with one more part at the end adds the separator and that part. */
  lemma {:induction false} JoinSnoc(parts: seq<string>, sep: string, last: string)
    requires |parts| >= 1
    ensures Join(parts + [last], sep) == Join(parts, sep) + sep + last
    decreases |parts|
  {
    if |parts| > 1 {
      assert (parts + [last])[1..] == parts[1..] + [last];
      JoinSnoc(parts[1..], sep, last);
    }
  }

  /** `s` with every `"\r"` that stands right before a `'\n'` removed. */
  function DropCrLf(s: string): string
    decreases |s|
  {
    if |s| == 0 then ""
    else if s[0] == '\r' && |s| >= 2 && s[1] == '\n' then DropCrLf(s[1..])
    else [s[0]] + DropCrLf(s[1..])
  }

  /** `s` without its final `'\n'`, if it ends in one. */
  function DropFinalNewline(s: string): string {
    if |s| > 0 && s[|s| - 1] == '\n' then s[..|s| - 1] else s
  }

  lemma {:induction false} DropCrLfWithout(s: string)
    requires '\n' !in s
    ensures DropCrLf(s) == s
    decreases |s|
  {
    if |s| > 0 {
      assert '\n' !in s[1..];
      DropCrLfWithout(s[1..]);
      assert [s[0]] + s[1..] == s;
    }
  }

  lemma {:induction false} DropCrLfNoCr(s: string)
    requires '\r' !in s
    ensures DropCrLf(s) == s
    decreases |s|
  {
    if |s| > 0 {
      assert '\r' !in s[1..];
      DropCrLfNoCr(s[1..]);
      assert [s[0]] + s[1..] == s;
    }
  }

  /** Across one line ending: the line loses a final `"\r"`, the newline stays. */
  lemma {:induction false} DropCrLfLine(x: string, y: string)
    requires '\n' !in x
    ensures DropCrLf(x + "\n" + y) == StripCarriageReturn(x) + "\n" + DropCrLf(y)
    decreases |x|
  {
    var s := x + "\n" + y;
    if |x| == 0 {
      assert s == "\n" + y && s[1..] == y;
    } else {
      assert s[1..] == x[1..] + "\n" + y;
      if |x| == 1 {
        assert s[1..] == "\n" + y && s[2..] == y;
      } else {
        assert '\n' !in x[1..] && s[1] == x[1];
        DropCrLfCons(s);
        DropCrLfLine(x[1..], y);
        StripCons(x);
      }
    }
  }

  /** A character not followed by a newline is kept. */
  lemma DropCrLfCons(s: string)
    requires |s| >= 2 && s[1] != '\n'
    ensures DropCrLf(s) == [s[0]] + DropCrLf(s[1..])
  {
  }

  /** Stripping a final `'\r'` from a text of two or more characters leaves its first one. */
  lemma StripCons(x: string)
    requires |x| >= 2
    ensures StripCarriageReturn(x) == [x[0]] + StripCarriageReturn(x[1..])
  {
    assert x[1..][|x| - 2] == x[|x| - 1];
    if x[|x| - 1] == '\r' {
      assert x[..|x| - 1] == [x[0]] + x[1..][..|x| - 2];
    } else {
      assert x == [x[0]] + x[1..];
    }
  }

  /** `StripCarriageReturn` applied to every line. */
  function StripEach(ls: seq<string>): (r: seq<string>)
    ensures |r| == |ls|
    decreases |ls|
  {
    if |ls| == 0 then [] else [StripCarriageReturn(ls[0])] + StripEach(ls[1..])
  }

  lemma {:induction false} StripEachAt(ls: seq<string>, i: nat)
    requires i < |ls|
    ensures StripEach(ls)[i] == StripCarriageReturn(ls[i])
    decreases i
  {
    if i > 0 {
      StripEachAt(ls[1..], i - 1);
    }
  }

  /** Dropping the `"\r"`s of line endings from joined lines strips every line but the last. */
  lemma {:induction false} DropCrLfJoin(ps: seq<string>)
    requires |ps| >= 1
    requires forall i :: 0 <= i < |ps| ==> '\n' !in ps[i]
    ensures DropCrLf(Join(ps, "\n")) == Join(StripEach(ps[..|ps| - 1]) + [ps[|ps| - 1]], "\n")
    decreases |ps|
  {
    var n := |ps|;
    if n == 1 {
      DropCrLfWithout(ps[0]);
      assert StripEach(ps[..0]) == [];
    } else {
      var tail := ps[1..];
      assert forall i :: 0 <= i < |tail| ==> '\n' !in tail[i] by {
        forall i | 0 <= i < |tail| ensures '\n' !in tail[i] { assert tail[i] == ps[i + 1]; }
      }
      DropCrLfJoin(tail);
      DropCrLfLine(ps[0], Join(tail, "\n"));
      var later := StripEach(tail[..|tail| - 1]) + [tail[|tail| - 1]];
      assert ps[..n - 1][1..] == tail[..|tail| - 1];
      assert StripEach(ps[..n - 1]) == [StripCarriageReturn(ps[0])] + StripEach(tail[..|tail| - 1]);
      var all := StripEach(ps[..n - 1]) + [ps[n - 1]];
      assert all == [StripCarriageReturn(ps[0])] + later;
      assert all[1..] == later;
    }
  }

  /** What `str::lines` yields is the text itself, read line by line: joined back with
      newlines, the lines give the input with the `"\r"` of each `"\r\n"` removed and
      without a final newline; for text without carriage returns, that is the input up to a
      final newline. */
  lemma SourceLinesRejoin(s: string)
    ensures Join(SourceLines(s), "\n") == DropFinalNewline(DropCrLf(s))
    ensures '\r' !in s ==> Join(SourceLines(s), "\n") == DropFinalNewline(s)
  {
    var parts := Split(s, '\n');
    var n := |parts|;
    SourceLinesStripped(s);
    JoinSplit(s, '\n');
    DropCrLfJoin(parts);
    RejoinLast(StripEach(parts[..n - 1]), parts[n - 1]);
    if '\r' !in s {
      DropCrLfNoCr(s);
    }
  }

  /** `str::lines` strips every piece before the last newline and keeps a non-empty rest. */
  lemma SourceLinesStripped(s: string)
    ensures var parts := Split(s, '\n'); var n := |parts|;
      SourceLines(s) == StripEach(parts[..n - 1]) + (if parts[n - 1] == "" then [] else [parts[n - 1]])
  {
    var parts := Split(s, '\n');
    var ended := parts[..|parts| - 1];
    var stripped := seq(|ended|, i requires 0 <= i < |ended| => StripCarriageReturn(ended[i]));
    forall i | 0 <= i < |ended|
      ensures StripEach(ended)[i] == stripped[i]
    {
      StripEachAt(ended, i);
    }
    assert StripEach(ended) == stripped;
  }

  /** Leaving out an empty last line drops the final newline of the joined text. */
  lemma RejoinLast(lines: seq<string>, last: string)
    requires '\n' !in last
    ensures Join(lines + (if last == "" then [] else [last]), "\n") == DropFinalNewline(Join(lines + [last], "\n"))
  {
    var text := Join(lines + [last], "\n");
    if |lines| == 0 {
      assert lines + [last] == [last];
      if last != "" {
        assert text[|text| - 1] == last[|last| - 1];
      }
    } else {
      JoinSnoc(lines, "\n", last);
      if last == "" {
        assert lines + [] == lines;
        assert text == Join(lines, "\n") + "\n";
      } else {
        assert text[|text| - 1] == last[|last| - 1];
      }
    }
  }

  /** The character for a decimal digit. */
  function Digit(d: nat): (c: char)
    requires d < 10
    ensures '0' <= c <= '9'
  {
    "0123456789"[d]
  }

  predicate IsDigit(c: char) {
    '0' <= c <= '9'
  }

  predicate AllDigits(s: string) {
    forall i :: 0 <= i < |s| ==> IsDigit(s[i])
  }

  /** `{}` of an unsigned integer: its decimal digits, without leading zeros. */
  function NatToString(n: nat): (r: string)
    ensures |r| >= 1 && AllDigits(r)
    ensures r[0] == '0' ==> n == 0
    decreases n
  {
    if n < 10 then [Digit(n)] else NatToString(n / 10) + [Digit(n % 10)]
  }

  /** The value of a string of decimal digits. */
  function DigitsValue(s: string): nat
    requires AllDigits(s)
    decreases |s|
  {
    if |s| == 0 then 0
    else DigitsValue(s[..|s| - 1]) * 10 + (s[|s| - 1] as int - '0' as int)
  }

  /** Formatting a multiplicity loses nothing: reading the digits back gives it again. */
  lemma {:induction false} NatToStringRoundTrip(n: nat)
    ensures DigitsValue(NatToString(n)) == n
    decreases n
  {
    if n >= 10 {
      NatToStringRoundTrip(n / 10);
      var s := NatToString(n);
      assert s[..|s| - 1] == NatToString(n / 10);
      assert "0123456789"[n % 10] as int - '0' as int == n % 10;
    } else {
      assert "0123456789"[n] as int - '0' as int == n;
    }
  }

  /** `{}` of a signed integer (`isize`): a minus sign before the digits of a negative value. */
  function IntToString(i: int): (r: string)
    ensures |r| >= 1
    ensures (r[0] == '-') <==> i < 0
    ensures i >= 0 ==> r == NatToString(i)
    ensures i < 0 ==> r[1..] == NatToString(-i)
  {
    if i < 0 then "-" + NatToString(-i) else NatToString(i)
  }

  /** A character that is not a digit does not occur in a string of digits. */
  lemma DigitsExclude(s: string, c: char)
    requires AllDigits(s) && !IsDigit(c)
    ensures c !in s
  {
    assert forall k :: 0 <= k < |s| ==> s[k] != c;
  }

  /** Nothing but a digit or the leading minus sign occurs in a formatted `isize`. */
  lemma IntToStringExcludes(i: int, c: char)
    requires !IsDigit(c) && c != '-'
    ensures c !in IntToString(i)
  {
    var digits := NatToString(if i < 0 then -i else i);
    DigitsExclude(digits, c);
    if i < 0 {
      assert IntToString(i) == "-" + digits;
    }
  }

  /** The length of the run of digits `s` starts with. */
  function DigitRun(s: string): (n: nat)
    ensures n <= |s|
    ensures forall i :: 0 <= i < n ==> IsDigit(s[i])
    decreases |s|
  {
    if |s| == 0 || !IsDigit(s[0]) then 0 else 1 + DigitRun(s[1..])
  }

  /** The longest all-digit prefix of `s`, and what follows it. */
  function LeadingDigits(s: string): (r: (string, string))
    ensures r.0 + r.1 == s && AllDigits(r.0)
  {
    var n := DigitRun(s);
    (s[..n], s[n..])
  }

  lemma {:induction false} DigitRunOf(digits: string, rest: string)
    requires AllDigits(digits)
    requires rest == "" || !IsDigit(rest[0])
    ensures DigitRun(digits + rest) == |digits|
    decreases |digits|
  {
    if |digits| > 0 {
      assert (digits + rest)[1..] == digits[1..] + rest;
      DigitRunOf(digits[1..], rest);
    } else {
      assert digits + rest == rest;
    }
  }

  lemma LeadingDigitsOf(digits: string, rest: string)
    requires AllDigits(digits)
    requires rest == "" || !IsDigit(rest[0])
    ensures LeadingDigits(digits + rest) == (digits, rest)
  {
    DigitRunOf(digits, rest);
    assert (digits + rest)[..|digits|] == digits;
    assert (digits + rest)[|digits|..] == rest;
  }

  /** Rust's `str::replace("-", "_")`: every `-` becomes `_`, every other character stays. */
  function ReplaceDash(s: string): (r: string)
    ensures |r| == |s|
    ensures forall i :: 0 <= i < |s| ==> r[i] == (if s[i] == '-' then '_' else s[i])
    ensures '-' !in r
    decreases |s|
  {
    if |s| == 0 then "" else [if s[0] == '-' then '_' else s[0]] + ReplaceDash(s[1..])
  }

  /** `n` spaces. */
  function Spaces(n: nat): (r: string)
    ensures |r| == n && forall i :: 0 <= i < n ==> r[i] == ' '
  {
    seq(n, _ => ' ')
  }

  /** `format!("{s:<width$}")`: `s` left-aligned, filled with spaces up to `width` characters
      and never cut short. */
  function PadRight(s: string, width: nat): (r: string)
    ensures |r| == if |s| < width then width else |s|
    ensures r[..|s|] == s
    ensures forall i :: |s| <= i < |r| ==> r[i] == ' '
  {
    if |s| < width then s + Spaces(width - |s|) else s
  }
}
