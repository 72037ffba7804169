/** Character and string operations the routers rely on, with JavaScript's
    semantics where it matters: decimal numerals, `toString`, `padStart`,
    `split` and `join` on a string separator, ASCII case mapping. */
module Text {
  import opened Wrappers

  predicate IsDigit(c: char) { '0' <= c <= '9' }

  /** `/^\d*$/`: every character is an ASCII decimal digit. */
  predicate AllDigits(s: string) { forall i :: 0 <= i < |s| ==> IsDigit(s[i]) }

  /** `/^\d{lo,hi}$/` */
  predicate DigitRun(s: string, lo: nat, hi: nat) { lo <= |s| <= hi && AllDigits(s) }

  function DigitValue(c: char): (d: nat)
    requires IsDigit(c)
    ensures d <= 9
  {
    c as int - '0' as int
  }

  function DigitChar(d: nat): (c: char)
    requires d <= 9
    ensures IsDigit(c) && DigitValue(c) == d
  {
    ('0' as int + d) as char
  }

  function Pow10(k: nat): (p: nat)
    ensures p >= 1
  {
    if k == 0 then 1 else 10 * Pow10(k - 1)
  }

  /** The number a digit string denotes in base 10, most significant digit first. */
  function NumeralValue(s: string): (n: nat)
    requires AllDigits(s)
    ensures n < Pow10(|s|)
  {
    if s == [] then 0 else NumeralValue(s[..|s| - 1]) * 10 + DigitValue(s[|s| - 1])
  }

  /** `n.toString()` for a non-negative integer: the shortest decimal numeral. */
  function NatToString(n: nat): (s: string)
    ensures 1 <= |s| && AllDigits(s)
    ensures NumeralValue(s) == n
    ensures |s| > 1 ==> s[0] != '0'
  {
    if n < 10 then [DigitChar(n)]
    else
      var s := NatToString(n / 10) + [DigitChar(n % 10)];
      assert s[..|s| - 1] == NatToString(n / 10);
      s
  }

  lemma {:induction false} NatToStringLength(n: nat, k: nat)
    requires 1 <= k && n < Pow10(k)
    ensures |NatToString(n)| <= k
  {
    if n >= 10 {
      NatToStringLength(n / 10, k - 1);
    }
  }

  function Repeat(c: char, k: nat): (s: string)
    ensures |s| == k && forall i :: 0 <= i < k ==> s[i] == c
  {
    if k == 0 then [] else [c] + Repeat(c, k - 1)
  }

  /** `s.padStart(width, c)` for a one-character pad string. */
  function PadStart(s: string, width: nat, c: char): (r: string)
    ensures |r| == if |s| >= width then |s| else width
    ensures r == Repeat(c, |r| - |s|) + s
  {
    if |s| >= width then (assert Repeat(c, 0) + s == s; s) else Repeat(c, width - |s|) + s
  }

  /** Leading zeros do not change the value of a numeral. */
  lemma {:induction false} LeadingZeros(k: nat, s: string)
    requires AllDigits(s)
    ensures AllDigits(Repeat('0', k) + s)
    ensures NumeralValue(Repeat('0', k) + s) == NumeralValue(s)
  {
    var t := Repeat('0', k) + s;
    if s == [] {
      assert t == Repeat('0', k);
      ZerosValue(k);
    } else {
      LeadingZeros(k, s[..|s| - 1]);
      assert t[..|t| - 1] == Repeat('0', k) + s[..|s| - 1];
    }
  }

  lemma {:induction false} ZerosValue(k: nat)
    ensures AllDigits(Repeat('0', k)) && NumeralValue(Repeat('0', k)) == 0
  {
    if k > 0 {
      ZerosValue(k - 1);
      var z := Repeat('0', k);
      assert z[..k - 1] == Repeat('0', k - 1);
    }
  }

  /** `sep` occurs in `s` starting at index `j`. */
  predicate OccursAt(s: string, sep: string, j: nat) { j + |sep| <= |s| && s[j..j + |sep|] == sep }

  lemma ShiftOccurrence(s: string, sep: string, j: nat)
    requires 1 <= j && |s| >= 1
    ensures OccursAt(s, sep, j) <==> OccursAt(s[1..], sep, j - 1)
  {
    if j + |sep| <= |s| {
      var a, b := s[j..j + |sep|], s[1..][j - 1..j - 1 + |sep|];
      assert |a| == |b|;
      assert forall i :: 0 <= i < |a| ==> a[i] == s[j + i] == b[i];
      assert a == b;
    }
  }

  /** The first index at which `sep` occurs in `s` (`s.indexOf(sep)`). */
  function Find(s: string, sep: string): (r: Option<nat>)
    requires |sep| > 0
    ensures r.Some? ==> OccursAt(s, sep, r.value)
    ensures r.Some? ==> forall j :: 0 <= j < r.value ==> !OccursAt(s, sep, j)
    ensures r.None? ==> forall j :: 0 <= j ==> !OccursAt(s, sep, j)
  {
    if |s| < |sep| then None
    else if s[..|sep|] == sep then Some(0)
    else
      match Find(s[1..], sep)
      case None =>
        assert forall j :: 1 <= j ==> !OccursAt(s, sep, j) by {
          forall j | 1 <= j ensures !OccursAt(s, sep, j) { ShiftOccurrence(s, sep, j); }
        }
        None
      case Some(i) =>
        assert forall j :: 1 <= j <= i ==> !OccursAt(s, sep, j) by {
          forall j | 1 <= j <= i ensures !OccursAt(s, sep, j) { ShiftOccurrence(s, sep, j); }
        }
        ShiftOccurrence(s, sep, i + 1);
        Some(i + 1)
  }

  /** A one-character separator is found first right after a prefix that
      does not contain it. */
  lemma {:induction false} FindAfterPrefix(p: string, c: char, rest: string)
    requires forall i :: 0 <= i < |p| ==> p[i] != c
    requires |rest| > 0 && rest[0] == c
    ensures Find(p + rest, [c]) == Some(|p|)
  {
    if p != [] {
      FindAfterPrefix(p[1..], c, rest);
      assert (p + rest)[1..] == p[1..] + rest;
      assert (p + rest)[..1] == [p[0]];
    } else {
      assert p + rest == rest;
      assert rest[..1] == [c];
    }
  }

  /** A prefix that ends before the first occurrence of `sep` does not contain it. */
  lemma PrefixBeforeFirst(s: string, sep: string, i: nat)
    requires |sep| > 0 && i <= |s|
    requires forall j :: 0 <= j < i ==> !OccursAt(s, sep, j)
    ensures Find(s[..i], sep).None?
  {
    var p := s[..i];
    forall j | 0 <= j ensures !OccursAt(p, sep, j) {
      if j + |sep| <= |p| {
        assert p[j..j + |sep|] == s[j..j + |sep|];
        assert j < i && !OccursAt(s, sep, j);
      }
    }
  }

  /** `s.split(sep)` for a non-empty separator string: the pieces between the
      occurrences of `sep`, none of which contains it. */
  function Split(s: string, sep: string): (parts: seq<string>)
    requires |sep| > 0
    ensures |parts| >= 1
    ensures forall p :: p in parts ==> Find(p, sep).None?
    decreases |s|
  {
    match Find(s, sep)
    case None => [s]
    case Some(i) =>
      PrefixBeforeFirst(s, sep, i);
      [s[..i]] + Split(s[i + |sep|..], sep)
  }

  /** Splitting on a one-character separator cuts first right after a prefix
      that does not contain it. */
  lemma SplitAfterPrefix(p: string, c: char, rest: string)
    requires forall i :: 0 <= i < |p| ==> p[i] != c
    requires |rest| > 0 && rest[0] == c
    ensures Split(p + rest, [c]) == [p] + Split(rest[1..], [c])
  {
    FindAfterPrefix(p, c, rest);
    assert (p + rest)[..|p|] == p;
    assert (p + rest)[|p| + 1..] == rest[1..];
  }

  /** `parts.join(sep)`; the empty array joins to the empty string. */
  function Join(parts: seq<string>, sep: string): string
  {
    if |parts| == 0 then ""
    else if |parts| == 1 then parts[0]
    else parts[0] + sep + Join(parts[1..], sep)
  }

  /** Splitting and joining on the same separator gives the string back. */
  lemma {:induction false} JoinSplit(s: string, sep: string)
    requires |sep| > 0
    ensures Join(Split(s, sep), sep) == s
    decreases |s|
  {
    var f := Find(s, sep);
    if f.Some? {
      var i := f.value;
      var rest := s[i + |sep|..];
      var tail := Split(rest, sep);
      JoinSplit(rest, sep);
      assert Split(s, sep) == [s[..i]] + tail;
      JoinCons(s[..i], tail, sep);
      assert s == s[..i] + sep + rest by {
        assert s[i..i + |sep|] == sep;
        assert s == s[..i] + s[i..i + |sep|] + s[i + |sep|..];
      }
    }
  }

  lemma JoinCons(head: string, tail: seq<string>, sep: string)
    requires |tail| >= 1
    ensures Join([head] + tail, sep) == head + sep + Join(tail, sep)
  {
    assert ([head] + tail)[1..] == tail;
  }

  /** `s.startsWith(p)` */
  predicate StartsWith(s: string, p: string) { |p| <= |s| && s[..|p|] == p }

  function LowerChar(c: char): char { if 'A' <= c <= 'Z' then (c as int + 32) as char else c }

  function UpperChar(c: char): char { if 'a' <= c <= 'z' then (c as int - 32) as char else c }

  /** `s.toLowerCase()` restricted to ASCII letters. */
  function ToLowerAscii(s: string): (r: string)
    ensures |r| == |s|
  {
    seq(|s|, i requires 0 <= i < |s| => LowerChar(s[i]))
  }

  /** No ASCII capital letter occurs in `s`. */
  predicate LowerCase(s: string) { forall i :: 0 <= i < |s| ==> !('A' <= s[i] <= 'Z') }

  /** Lower-casing yields a lower-case string and changes nothing in one. */
  lemma ToLowerAsciiLowers(s: string)
    ensures LowerCase(ToLowerAscii(s))
    ensures LowerCase(s) <==> ToLowerAscii(s) == s
  {
    if !LowerCase(s) {
      var i :| 0 <= i < |s| && 'A' <= s[i] <= 'Z';
      assert ToLowerAscii(s)[i] != s[i];
    }
  }

  /** `s.toUpperCase()` restricted to ASCII letters. */
  function ToUpperAscii(s: string): (r: string)
    ensures |r| == |s|
  {
    seq(|s|, i requires 0 <= i < |s| => UpperChar(s[i]))
  }

  /** No ASCII small letter occurs in `s`. */
  predicate UpperCase(s: string) { forall i :: 0 <= i < |s| ==> !('a' <= s[i] <= 'z') }

  /** Upper-casing yields an upper-case string and changes nothing in one. */
  lemma ToUpperAsciiUppers(s: string)
    ensures UpperCase(ToUpperAscii(s))
    ensures UpperCase(s) <==> ToUpperAscii(s) == s
  {
    if !UpperCase(s) {
      var i :| 0 <= i < |s| && 'a' <= s[i] <= 'z';
      assert ToUpperAscii(s)[i] != s[i];
    }
  }

  /** `s.slice(-n)` for n > 0: the last n characters, or all of a shorter string. */
  function LastChars(s: string, n: nat): (r: string)
    ensures |r| == if |s| < n then |s| else n
    ensures s == s[..|s| - |r|] + r
  {
    if |s| < n then s else s[|s| - n..]
  }
}
