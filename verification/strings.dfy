/**
 * The handful of Python string operations the core relies on, written out:
 * `sep.join(parts)`, `s.split(sep)`, `str(n)` for integers, ASCII `str.lower`
 * and the emptiness test `not s.strip()`.
 */
module Strings {

  /** Concatenation regroups freely; stated once so that proofs about long sequences need not compare them element by element. */
  lemma AppendAssociates<T>(a: seq<T>, b: seq<T>, c: seq<T>)
    ensures (a + b) + c == a + (b + c)
  {
  }

  /** Appending three single elements one by one builds the three-element sequence. */
  lemma AppendThree<T>(a: T, b: T, c: T)
    ensures [a] + [b] + [c] == [a, b, c]
  {
  }

  /** A sequence is the part before position `j`, the element at `j` and the part after it. */
  lemma SplitAround<T>(s: seq<T>, j: nat)
    requires j < |s|
    ensures s == s[..j] + ([s[j]] + s[j + 1..])
  {
    assert s[..j] + ([s[j]] + s[j + 1..]) == s[..j] + s[j..];
  }

  /** Taking everything gives the sequence back; dropping everything leaves nothing. */
  lemma Whole<T>(s: seq<T>)
    ensures s[..|s|] == s && s[|s|..] == []
  {
  }

  /** The suffix from `i` is the element at `i` followed by the suffix from `i + 1`. */
  lemma DropOne<T>(s: seq<T>, i: nat)
    requires i < |s|
    ensures s[i..] == [s[i]] + s[i + 1..]
  {
  }

  /** The prefix up to `i + 1` is the prefix up to `i` followed by the element at `i`. */
  lemma TakeOneMore<T>(s: seq<T>, i: nat)
    requires i < |s|
    ensures s[..i + 1] == s[..i] + [s[i]] && s[..i + 1][..i] == s[..i]
  {
  }

  /** A sequence with one element appended: the original prefix, then that element. */
  lemma SnocParts<T>(a: seq<T>, z: T)
    ensures (a + [z])[..|a|] == a && (a + [z])[|a|] == z && |a + [z]| == |a| + 1
  {
  }

  /** A sequence built as a head and a tail gives them back. */
  lemma HeadTail<T>(r: seq<T>, a: T, b: seq<T>)
    requires r == [a] + b
    ensures r[0] == a && r[1..] == b
  {
  }

  /** Equal heads and equal tails make equal sequences. */
  lemma ConsEqual<T>(x: T, y: T, b: seq<T>, c: seq<T>)
    requires x == y && b == c
    ensures [x] + b == [y] + c
  {
  }

  /** Slices of the tail, seen from the whole sequence. */
  lemma ShiftSlices<T>(s: seq<T>, i: nat, n: nat)
    requires 0 < i <= n <= |s|
    ensures [s[0]] + s[1..][..i - 1] == s[..i] && s[1..][n - 1..] == s[n..]
  {
  }

  /** Equality chains. */
  lemma Transitive<T>(a: T, b: T, c: T)
    requires a == b && b == c
    ensures a == c
  {
  }

  /** The empty sequence is neutral for concatenation. */
  lemma AppendEmpty<T>(s: seq<T>)
    ensures s + [] == s && [] + s == s
  {
  }

  /** The pieces `f` gives for each item, concatenated in item order. */
  function FlatMap<G, T>(items: seq<G>, f: G -> seq<T>): seq<T>
    decreases |items|
  {
    if items == [] then [] else FlatMap(items[..|items| - 1], f) + f(items[|items| - 1])
  }

  /** Element `j` of item `g`'s piece sits after all the pieces of the items before `g`. */
  lemma {:induction false} FlatMapPosition<G, T>(items: seq<G>, f: G -> seq<T>, g: nat, j: nat)
    requires g < |items| && j < |f(items[g])|
    ensures |FlatMap(items[..g], f)| + j < |FlatMap(items, f)|
    ensures FlatMap(items, f)[|FlatMap(items[..g], f)| + j] == f(items[g])[j]
    decreases |items|
  {
    var init := items[..|items| - 1];
    var last := items[|items| - 1];
    assert FlatMap(items, f) == FlatMap(init, f) + f(last);
    if g == |items| - 1 {
      assert init == items[..g];
    } else {
      FlatMapPosition(init, f, g, j);
      assert init[..g] == items[..g];
      assert init[g] == items[g];
    }
  }

  /** No string occurs twice. */
  predicate Distinct(ks: seq<string>) {
    forall i, j :: 0 <= i < j < |ks| ==> ks[i] != ks[j]
  }

  /** `sep.join(parts)`. */
  function Join(parts: seq<string>, sep: string): string
    decreases |parts|
  {
    if |parts| == 0 then ""
    else if |parts| == 1 then parts[0]
    else parts[0] + sep + Join(parts[1..], sep)
  }

  /** Does `sep` occur in `s` starting at index `i`? */
  predicate OccursAt(s: string, sep: string, i: nat) {
    i + |sep| <= |s| && s[i..i + |sep|] == sep
  }

  /** An occurrence in `b` is one in `a + b`, shifted by `|a|`. */
  lemma OccursAfter(a: string, b: string, sep: string, i: nat)
    ensures OccursAt(b, sep, i) ==> OccursAt(a + b, sep, |a| + i)
  {
    if OccursAt(b, sep, i) {
      assert (a + b)[|a| + i..|a| + i + |sep|] == b[i..i + |sep|];
    }
  }

  /** `sep` occurs in `s` at `i` and nowhere before it. */
  predicate FirstOccurrence(s: string, sep: string, i: nat) {
    OccursAt(s, sep, i) && forall j: nat :: j < i ==> !OccursAt(s, sep, j)
  }

  /**
   * `s.split(sep)` for a non-empty separator: scans from the left and cuts at
   * every non-overlapping occurrence of `sep`.
   */
  function Split(s: string, sep: string): (pieces: seq<string>)
    requires |sep| > 0
    ensures |pieces| >= 1
    decreases |s|
  {
    if |s| < |sep| then [s]
    else if s[..|sep|] == sep then [""] + Split(s[|sep|..], sep)
    else
      var rest := Split(s[1..], sep);
      [[s[0]] + rest[0]] + rest[1..]
  }

  /** `s.split("\n")`. */
  function SplitLines(s: string): (lines: seq<string>)
    ensures |lines| >= 1
  {
    Split(s, "\n")
  }

  lemma OccursAtTail(s: string, sep: string, j: nat)
    requires |s| > 0
    ensures OccursAt(s[1..], sep, j) <==> OccursAt(s, sep, j + 1)
  {
    if j + 1 + |sep| <= |s| {
      assert s[1..][j..j + |sep|] == s[j + 1..j + 1 + |sep|];
    }
  }

  /** Cutting at the first occurrence: the first piece is everything before it. */
  lemma {:induction false} SplitAtFirst(s: string, sep: string, i: nat)
    requires |sep| > 0 && FirstOccurrence(s, sep, i)
    ensures Split(s, sep) == [s[..i]] + Split(s[i + |sep|..], sep)
    decreases i
  {
    if i == 0 {
      assert s[..|sep|] == sep;
    } else {
      FirstOccurrenceTail(s, sep, i);
      SplitAtFirst(s[1..], sep, i - 1);
      SplitCutLater(s, sep, i);
    }
  }

  /** An occurrence that is first but not at the start is first in the tail, one position earlier. */
  lemma FirstOccurrenceTail(s: string, sep: string, i: nat)
    requires |sep| > 0 && i > 0 && FirstOccurrence(s, sep, i)
    ensures |s| >= |sep| && s[..|sep|] != sep && FirstOccurrence(s[1..], sep, i - 1)
  {
    assert !OccursAt(s, sep, 0);
    forall j: nat | j < i - 1 ensures !OccursAt(s[1..], sep, j) {
      OccursAtTail(s, sep, j);
    }
    OccursAtTail(s, sep, i - 1);
  }

  /** Equal strings split alike. */
  lemma SameSplit(a: string, b: string, sep: string)
    requires |sep| > 0 && a == b
    ensures Split(a, sep) == Split(b, sep)
  {
  }

  /** The first piece grows by the first character when the cut in the tail is known. */
  lemma SplitCutLater(s: string, sep: string, i: nat)
    requires |sep| > 0 && 0 < i && i + |sep| <= |s| && s[..|sep|] != sep
    requires Split(s[1..], sep) == [s[1..][..i - 1]] + Split(s[1..][i - 1 + |sep|..], sep)
    ensures Split(s, sep) == [s[..i]] + Split(s[i + |sep|..], sep)
  {
    var rest := Split(s[1..], sep);
    var after := s[1..][i - 1 + |sep|..];
    HeadTail(rest, s[1..][..i - 1], Split(after, sep));
    ShiftSlices(s, i, i + |sep|);
    assert after == s[i + |sep|..];
    SameSplit(after, s[i + |sep|..], sep);
    var first := [s[0]] + rest[0];
    assert Split(s, sep) == [first] + rest[1..];
    assert first == s[..i];
    assert rest[1..] == Split(s[i + |sep|..], sep);
    ConsEqual(first, s[..i], rest[1..], Split(s[i + |sep|..], sep));
  }

  /** Without any occurrence of `sep`, the split is the whole string. */
  lemma {:induction false} SplitWithoutOccurrence(s: string, sep: string)
    requires |sep| > 0
    requires forall j: nat :: !OccursAt(s, sep, j)
    ensures Split(s, sep) == [s]
    decreases |s|
  {
    if |s| >= |sep| {
      assert !OccursAt(s, sep, 0);
      forall j: nat ensures !OccursAt(s[1..], sep, j) {
        OccursAtTail(s, sep, j);
      }
      SplitWithoutOccurrence(s[1..], sep);
      assert [s[0]] + s[1..] == s;
    }
  }

  /** A split has two or more pieces exactly when the separator occurs. */
  lemma {:induction false} SplitHasSeveralPieces(s: string, sep: string)
    requires |sep| > 0
    ensures |Split(s, sep)| >= 2 <==> exists j: nat :: OccursAt(s, sep, j)
    decreases |s|
  {
    if |s| < |sep| {
      forall j: nat ensures !OccursAt(s, sep, j) { }
    } else if s[..|sep|] == sep {
      assert OccursAt(s, sep, 0);
    } else {
      SplitHasSeveralPieces(s[1..], sep);
      assert !OccursAt(s, sep, 0);
      if exists j: nat :: OccursAt(s, sep, j) {
        var j: nat :| OccursAt(s, sep, j);
        OccursAtTail(s, sep, j - 1);
      }
      if exists j: nat :: OccursAt(s[1..], sep, j) {
        var j: nat :| OccursAt(s[1..], sep, j);
        OccursAtTail(s, sep, j);
      }
    }
  }

  /** Joining the pieces of a split with the same separator gives the string back. */
  lemma {:induction false} JoinSplit(s: string, sep: string)
    requires |sep| > 0
    ensures Join(Split(s, sep), sep) == s
    decreases |s|
  {
    if |s| < |sep| {
    } else if s[..|sep|] == sep {
      var rest := Split(s[|sep|..], sep);
      JoinSplit(s[|sep|..], sep);
      JoinAfterEmpty(rest, sep);
      assert Split(s, sep) == [""] + rest;
      assert sep + s[|sep|..] == s;
    } else {
      var rest := Split(s[1..], sep);
      JoinSplit(s[1..], sep);
      JoinExtendFirst(s[0], rest, sep);
      assert Split(s, sep) == [[s[0]] + rest[0]] + rest[1..];
      assert [s[0]] + s[1..] == s;
    }
  }

  /** An empty first piece contributes only the separator. */
  lemma JoinAfterEmpty(rest: seq<string>, sep: string)
    requires |rest| >= 1
    ensures Join([""] + rest, sep) == sep + Join(rest, sep)
  {
    var parts := [""] + rest;
    assert parts[1..] == rest;
    assert Join(parts, sep) == "" + sep + Join(rest, sep);
    assert "" + sep == sep;
  }

  /** Extending the first piece by one character extends the joined text by that character in front. */
  lemma JoinExtendFirst(c: char, rest: seq<string>, sep: string)
    requires |rest| >= 1
    ensures Join([[c] + rest[0]] + rest[1..], sep) == [c] + Join(rest, sep)
  {
    var pieces := [[c] + rest[0]] + rest[1..];
    if |rest| == 1 {
      assert Join(pieces, sep) == [c] + rest[0];
    } else {
      assert pieces[1..] == rest[1..];
      assert Join(rest, sep) == rest[0] + sep + Join(rest[1..], sep);
      assert Join(pieces, sep) == ([c] + rest[0]) + sep + Join(rest[1..], sep);
      assert ([c] + rest[0]) + sep + Join(rest[1..], sep) == [c] + (rest[0] + sep + Join(rest[1..], sep));
    }
  }

  /** Prepending text free of the separator's first character extends the first piece only. */
  lemma {:induction false} SplitLinesPrefix(w: string, t: string)
    requires forall k :: 0 <= k < |w| ==> w[k] != '\n'
    ensures SplitLines(w + t) == [w + SplitLines(t)[0]] + SplitLines(t)[1..]
    decreases |w|
  {
    var lines := SplitLines(t);
    if w != [] {
      var s := w + t;
      SplitLinesPrefix(w[1..], t);
      assert s[1..] == w[1..] + t;
      assert s[0] == w[0];
      assert s[..1] != "\n" by { assert s[..1][0] == w[0]; }
      var rest := Split(s[1..], "\n");
      assert Split(s, "\n") == [[s[0]] + rest[0]] + rest[1..];
      assert rest == [w[1..] + lines[0]] + lines[1..];
      assert [w[0]] + (w[1..] + lines[0]) == w + lines[0];
    } else {
      assert w + t == t;
      assert w + lines[0] == lines[0];
      assert lines == [lines[0]] + lines[1..];
    }
  }

  /** Text has two or more lines exactly when it holds a newline. */
  lemma SeveralLinesIffNewline(s: string)
    ensures |SplitLines(s)| >= 2 <==> '\n' in s
  {
    SplitHasSeveralPieces(s, "\n");
    if '\n' in s {
      var j :| 0 <= j < |s| && s[j] == '\n';
      assert s[j..j + 1] == "\n";
      assert OccursAt(s, "\n", j);
    }
    if exists j: nat :: OccursAt(s, "\n", j) {
      var j: nat :| OccursAt(s, "\n", j);
      assert s[j] == s[j..j + 1][0];
    }
  }

  /** A line-free string: it holds no newline. */
  predicate NoNewline(s: string) {
    forall k :: 0 <= k < |s| ==> s[k] != '\n'
  }

  /** The pieces of `s.split("\n")` hold no newline. */
  lemma {:induction false} SplitLinesHaveNoNewline(s: string)
    ensures forall i :: 0 <= i < |SplitLines(s)| ==> NoNewline(SplitLines(s)[i])
    decreases |s|
  {
    if |s| >= 1 {
      var rest := SplitLines(s[1..]);
      SplitLinesHaveNoNewline(s[1..]);
      if s[..1] == "\n" {
        assert SplitLines(s) == [""] + rest;
      } else {
        assert s[0] != '\n' by { assert s[..1][0] == s[0]; }
        assert SplitLines(s) == [[s[0]] + rest[0]] + rest[1..];
      }
    }
  }

  /** Joining newline-free lines with "\n" and splitting again gives the lines back. */
  lemma {:induction false} SplitLinesJoin(ls: seq<string>)
    requires |ls| >= 1
    requires forall i :: 0 <= i < |ls| ==> NoNewline(ls[i])
    ensures SplitLines(Join(ls, "\n")) == ls
    decreases |ls|
  {
    if |ls| == 1 {
      SplitLinesPrefix(ls[0], "");
      assert ls[0] + "" == ls[0];
      assert SplitLines("") == [""];
    } else {
      var tail := Join(ls[1..], "\n");
      SplitLinesJoin(ls[1..]);
      var t := "\n" + tail;
      assert t[..1] == "\n" && t[1..] == tail;
      assert SplitLines(t) == [""] + ls[1..];
      assert Join(ls, "\n") == ls[0] + t;
      SplitLinesPrefix(ls[0], t);
      assert ls[0] + "" == ls[0];
    }
  }

  /** The decimal digit for `d`. */
  function DigitChar(d: nat): (c: char)
    requires d < 10
    ensures '0' <= c <= '9'
  {
    ('0' as int + d) as char
  }

  /** The value of a decimal digit character. */
  function DigitValue(c: char): nat
    requires '0' <= c <= '9'
  {
    c as nat - '0' as nat
  }

  predicate IsDigits(s: string) {
    forall k :: 0 <= k < |s| ==> '0' <= s[k] <= '9'
  }

  /** `str(n)` for a natural number: its decimal digits, most significant first. */
  function NatToDecimal(n: nat): (s: string)
    ensures |s| >= 1 && IsDigits(s)
    decreases n
  {
    if n < 10 then [DigitChar(n)] else NatToDecimal(n / 10) + [DigitChar(n % 10)]
  }

  /** The value of a string of decimal digits (the reading direction of `int(s)`). */
  function DecimalValue(s: string): nat
    requires IsDigits(s)
    decreases |s|
  {
    if s == [] then 0 else 10 * DecimalValue(s[..|s| - 1]) + DigitValue(s[|s| - 1])
  }

  /** `str(i)` for any integer: a minus sign before the digits of a negative number. */
  function IntToDecimal(i: int): (s: string)
    ensures |s| >= 1 && NoNewline(s)
  {
    if i < 0 then "-" + NatToDecimal(-i) else NatToDecimal(i)
  }

  /** Reads back what `IntToDecimal` writes. */
  function ParseInt(s: string): int
  {
    if |s| > 0 && s[0] == '-' then
      (if IsDigits(s[1..]) then 0 - DecimalValue(s[1..]) else 0)
    else if IsDigits(s) then DecimalValue(s)
    else 0
  }

  /** Decimal rendering is reversible: reading the digits back gives the number. */
  lemma {:induction false} DecimalRoundTrip(n: nat)
    ensures DecimalValue(NatToDecimal(n)) == n
    decreases n
  {
    if n >= 10 {
      DecimalRoundTrip(n / 10);
      var s := NatToDecimal(n);
      SnocParts(NatToDecimal(n / 10), DigitChar(n % 10));
    }
  }

  /** The rendering of an integer read back gives the integer, sign included. */
  lemma IntRoundTrip(i: int)
    ensures ParseInt(IntToDecimal(i)) == i
  {
    var s := IntToDecimal(i);
    if i < 0 {
      var digits := NatToDecimal(-i);
      DecimalRoundTrip(-i);
      assert s == "-" + digits;
      assert s[0] == '-' && s[1..] == digits;
      assert ParseInt(s) == 0 - DecimalValue(digits);
    } else {
      var digits := NatToDecimal(i);
      DecimalRoundTrip(i);
      assert s == digits;
      assert s[0] != '-';
      assert ParseInt(s) == DecimalValue(digits);
    }
  }

  /** ASCII `c.lower()`. */
  function LowerChar(c: char): char {
    if 'A' <= c <= 'Z' then (c as int - 'A' as int + 'a' as int) as char else c
  }

  /** `s.lower()` restricted to ASCII letters. */
  function LowerAscii(s: string): (r: string)
    ensures |r| == |s|
    ensures forall k :: 0 <= k < |s| ==> r[k] == LowerChar(s[k])
  {
    seq(|s|, k requires 0 <= k < |s| => LowerChar(s[k]))
  }

  /** Lower-casing twice is lower-casing once, and no upper-case ASCII letter is left. */
  lemma LowerAsciiIdempotent(s: string)
    ensures LowerAscii(LowerAscii(s)) == LowerAscii(s)
    ensures forall k :: 0 <= k < |s| ==> !('A' <= LowerAscii(s)[k] <= 'Z')
  {
  }

  /** The ASCII characters Python's `str.strip()` removes. */
  predicate IsSpace(c: char) {
    c == ' ' || ('\t' <= c <= '\r') || (28 <= c as int <= 31)
  }

  /** `s.lstrip()` on ASCII whitespace. */
  function TrimStart(s: string): string
    decreases |s|
  {
    if s != [] && IsSpace(s[0]) then TrimStart(s[1..]) else s
  }

  /** `s.rstrip()` on ASCII whitespace. */
  function TrimEnd(s: string): string
    decreases |s|
  {
    if s != [] && IsSpace(s[|s| - 1]) then TrimEnd(s[..|s| - 1]) else s
  }

  /** `s.strip()` on ASCII whitespace. */
  function Strip(s: string): string {
    TrimEnd(TrimStart(s))
  }

  predicate IsBlank(s: string) {
    forall k :: 0 <= k < |s| ==> IsSpace(s[k])
  }

  lemma {:induction false} TrimStartBlank(s: string)
    ensures TrimStart(s) == [] <==> IsBlank(s)
    decreases |s|
  {
    if s != [] && IsSpace(s[0]) {
      TrimStartBlank(s[1..]);
      assert IsBlank(s) <==> IsBlank(s[1..]) by {
        if IsBlank(s[1..]) {
          forall k | 0 <= k < |s| ensures IsSpace(s[k]) {
            if k > 0 { assert s[k] == s[1..][k - 1]; }
          }
        }
      }
    }
  }

  lemma {:induction false} TrimEndEmpty(s: string)
    ensures TrimEnd(s) == [] <==> s == [] || (IsSpace(s[|s| - 1]) && TrimEnd(s[..|s| - 1]) == [])
  {
  }

  lemma {:induction false} TrimStartNonSpaceHead(s: string)
    ensures TrimStart(s) == [] || !IsSpace(TrimStart(s)[0])
    decreases |s|
  {
    if s != [] && IsSpace(s[0]) {
      TrimStartNonSpaceHead(s[1..]);
    }
  }

  lemma {:induction false} TrimEndOfNonSpaceHead(s: string)
    requires s != [] && !IsSpace(s[0])
    ensures TrimEnd(s) != []
    decreases |s|
  {
    if IsSpace(s[|s| - 1]) {
      assert |s| > 1;
      TrimEndOfNonSpaceHead(s[..|s| - 1]);
    }
  }

  /** `not s.strip()` holds exactly when every character of `s` is whitespace. */
  lemma StripEmptyIffBlank(s: string)
    ensures Strip(s) == [] <==> IsBlank(s)
  {
    TrimStartBlank(s);
    TrimStartNonSpaceHead(s);
    if TrimStart(s) != [] {
      TrimEndOfNonSpaceHead(TrimStart(s));
    }
  }
}
