/** String handling the command interpreter relies on: splitting on a
    separator (Foundation's `components(separatedBy:)`), joining
    (`joined(separator:)`), trimming blanks (`trimmingCharacters(in:
    .whitespaces)`) and Swift's `Int(String)` initializer. */
module Text {
  import opened Wrappers

  /** Swift's `Int` is 64 bits wide: `Int(String)` yields nil outside it. */
  const IntMin: int := -0x8000_0000_0000_0000
  const IntMax: int := 0x7fff_ffff_ffff_ffff

  predicate InIntRange(n: int) { IntMin <= n <= IntMax }

  /** The blanks of `CharacterSet.whitespaces`, restricted to ASCII. */
  predicate IsBlank(c: char) { c == ' ' || c == '\t' }

  predicate IsDigit(c: char) { '0' <= c <= '9' }

  predicate AllDigits(s: string) { forall k :: 0 <= k < |s| ==> IsDigit(s[k]) }

  // ---------------------------------------------------------------------
  // Splitting and joining

  /** The parts laid end to end with `sep` between neighbours. */
  function Join(parts: seq<string>, sep: char): (s: string)
    requires |parts| >= 1
  {
    if |parts| == 1 then parts[0] else parts[0] + [sep] + Join(parts[1..], sep)
  }

  /** The fields of `s` between occurrences of `sep`, in order: one more
      field than there are separators, so never an empty sequence. */
  function Split(s: string, sep: char): (parts: seq<string>)
    ensures |parts| >= 1
    decreases |s|
  {
    if s == [] then [[]]
    else
      var rest := Split(s[1..], sep);
      if s[0] == sep then [[]] + rest else [[s[0]] + rest[0]] + rest[1..]
  }

  /** No field holds the separator, and putting the separators back gives
      the string again. */
  lemma {:induction false} SplitSpec(s: string, sep: char)
    ensures forall k :: 0 <= k < |Split(s, sep)| ==> sep !in Split(s, sep)[k]
    ensures Join(Split(s, sep), sep) == s
    decreases |s|
  {
    if s != [] {
      var rest := Split(s[1..], sep);
      SplitSpec(s[1..], sep);
      assert s == [s[0]] + s[1..];
      if s[0] == sep {
        assert Split(s, sep) == [[]] + rest;
        assert s == [] + [sep] + Join(rest, sep);
      } else {
        var parts := [[s[0]] + rest[0]] + rest[1..];
        assert Split(s, sep) == parts;
        assert parts[1..] == rest[1..];
        assert Join(parts, sep) == [s[0]] + Join(rest, sep) by {
          if |rest| > 1 {
            assert Join(rest, sep) == rest[0] + [sep] + Join(rest[1..], sep);
          }
        }
      }
    }
  }

  /** Splitting a separator-free prefix onto the front of a string. */
  lemma {:induction false} SplitPrefix(a: string, rest: string, sep: char)
    requires sep !in a
    ensures Split(a + rest, sep) == [a + Split(rest, sep)[0]] + Split(rest, sep)[1..]
    decreases |a|
  {
    if a != [] {
      SplitPrefix(a[1..], rest, sep);
      assert (a + rest)[1..] == a[1..] + rest;
      assert (a + rest)[0] == a[0] != sep;
      assert [a[0]] + (a[1..] + Split(rest, sep)[0]) == a + Split(rest, sep)[0];
    } else {
      var parts := Split(rest, sep);
      assert a + rest == rest;
      assert a + parts[0] == parts[0];
      assert parts == [parts[0]] + parts[1..];
    }
  }

  /** Splitting undoes joining when no part holds the separator. */
  lemma {:induction false} SplitJoin(parts: seq<string>, sep: char)
    requires |parts| >= 1
    requires forall k :: 0 <= k < |parts| ==> sep !in parts[k]
    ensures Split(Join(parts, sep), sep) == parts
    decreases |parts|
  {
    if |parts| == 1 {
      SplitPrefix(parts[0], [], sep);
      assert parts[0] + [] == parts[0];
    } else {
      var tail := Join(parts[1..], sep);
      SplitJoin(parts[1..], sep);
      assert Split([sep] + tail, sep) == [[]] + parts[1..] by {
        assert ([sep] + tail)[1..] == tail;
      }
      SplitPrefix(parts[0], [sep] + tail, sep);
      assert parts[0] + [sep] + tail == parts[0] + ([sep] + tail);
      assert parts[0] + [] == parts[0];
      assert parts == [parts[0]] + parts[1..];
    }
  }

  // ---------------------------------------------------------------------
  // Trimming

  /** How many blanks `s` starts with. */
  function LeadingBlanks(s: string): (n: nat)
    ensures n <= |s|
    decreases |s|
  {
    if s != [] && IsBlank(s[0]) then 1 + LeadingBlanks(s[1..]) else 0
  }

  /** How many blanks `s` ends with. */
  function TrailingBlanks(s: string): (n: nat)
    ensures n <= |s|
    decreases |s|
  {
    if s != [] && IsBlank(s[|s| - 1]) then 1 + TrailingBlanks(s[..|s| - 1]) else 0
  }

  lemma {:induction false} LeadingBlanksSpec(s: string)
    ensures forall k :: 0 <= k < LeadingBlanks(s) ==> IsBlank(s[k])
    ensures LeadingBlanks(s) < |s| ==> !IsBlank(s[LeadingBlanks(s)])
    decreases |s|
  {
    if s != [] && IsBlank(s[0]) {
      LeadingBlanksSpec(s[1..]);
      forall k | 1 <= k < LeadingBlanks(s) ensures IsBlank(s[k]) {
        assert s[k] == s[1..][k - 1];
      }
    }
  }

  lemma {:induction false} TrailingBlanksSpec(s: string)
    ensures forall k :: |s| - TrailingBlanks(s) <= k < |s| ==> IsBlank(s[k])
    ensures TrailingBlanks(s) < |s| ==> !IsBlank(s[|s| - 1 - TrailingBlanks(s)])
    decreases |s|
  {
    if s != [] && IsBlank(s[|s| - 1]) {
      var front := s[..|s| - 1];
      TrailingBlanksSpec(front);
      forall k | |s| - TrailingBlanks(s) <= k < |s| - 1 ensures IsBlank(s[k]) {
        assert s[k] == front[k];
      }
    }
  }

  /** `s` with its leading and trailing blanks removed: what lies between
      them, neither starting nor ending with a blank. */
  function Trim(s: string): (r: string)
    ensures r == [] || (!IsBlank(r[0]) && !IsBlank(r[|r| - 1]))
  {
    var rest := s[LeadingBlanks(s)..];
    LeadingBlanksSpec(s);
    TrailingBlanksSpec(rest);
    assert rest == [] || !IsBlank(rest[0]);
    rest[..|rest| - TrailingBlanks(rest)]
  }

  /** Trimming cuts off exactly the blanks on either side: it keeps the
      stretch of `s` after the leading blanks, and only blanks follow it. */
  lemma TrimSpec(s: string)
    ensures LeadingBlanks(s) + |Trim(s)| <= |s|
    ensures Trim(s) == s[LeadingBlanks(s)..LeadingBlanks(s) + |Trim(s)|]
    ensures forall k :: 0 <= k < LeadingBlanks(s) ==> IsBlank(s[k])
    ensures forall k :: LeadingBlanks(s) + |Trim(s)| <= k < |s| ==> IsBlank(s[k])
  {
    var i := LeadingBlanks(s);
    var rest := s[i..];
    LeadingBlanksSpec(s);
    TrailingBlanksSpec(rest);
    var r := Trim(s);
    assert r == rest[..|r|];
    assert rest[..|r|] == s[i..i + |r|];
    forall k | i + |r| <= k < |s| ensures IsBlank(s[k]) {
      assert s[k] == rest[k - i];
    }
  }

  /** A string that neither begins nor ends with a blank is its own trim. */
  lemma TrimOfTrimmed(s: string)
    requires s == [] || (!IsBlank(s[0]) && !IsBlank(s[|s| - 1]))
    ensures Trim(s) == s
  {
    assert LeadingBlanks(s) == 0;
    assert s[0..] == s;
    assert TrailingBlanks(s) == 0;
  }

  lemma TrimIdempotent(s: string)
    ensures Trim(Trim(s)) == Trim(s)
  {
    TrimOfTrimmed(Trim(s));
  }

  /** A line made only of blanks trims to the empty string. */
  lemma {:induction false} TrimBlank(s: string)
    requires forall k :: 0 <= k < |s| ==> IsBlank(s[k])
    ensures Trim(s) == []
  {
    LeadingBlanksAll(s);
  }

  lemma {:induction false} LeadingBlanksAll(s: string)
    requires forall k :: 0 <= k < |s| ==> IsBlank(s[k])
    ensures LeadingBlanks(s) == |s|
    decreases |s|
  {
    if s != [] {
      LeadingBlanksAll(s[1..]);
    }
  }

  // ---------------------------------------------------------------------
  // Decimal integers

  function DigitValue(c: char): (d: nat)
    requires IsDigit(c)
    ensures d < 10
  {
    (c - '0') as nat
  }

  function DigitChar(d: nat): (c: char)
    requires d < 10
    ensures IsDigit(c) && DigitValue(c) == d
  {
    ('0' as int + d) as char
  }

  /** The value of a string of decimal digits, most significant first. */
  function DigitsValue(s: string): (n: nat)
    requires AllDigits(s)
    decreases |s|
  {
    if s == [] then 0
    else DigitsValue(s[..|s| - 1]) * 10 + DigitValue(s[|s| - 1])
  }

  /** Swift's `Int(String)`: an optional `+` or `-` followed by at least
      one decimal digit and nothing else, whose value fits in 64 bits. */
  function ParseInt(s: string): (r: Option<int>)
    ensures r.Some? ==> InIntRange(r.value)
    ensures r.Some? ==> |s| > 0 && IsDigit(s[|s| - 1])
    ensures r.Some? ==> forall k :: 0 <= k < |s| ==> !IsBlank(s[k])
  {
    if |s| == 0 then None
    else
      var negative := s[0] == '-';
      var digits := if s[0] == '-' || s[0] == '+' then s[1..] else s;
      if digits == [] || !AllDigits(digits) then None
      else
        assert forall k :: 0 <= k < |digits| ==> digits[k] == s[k + |s| - |digits|];
        var v: int := if negative then -(DigitsValue(digits) as int) else DigitsValue(digits);
        if InIntRange(v) then Some(v) else None
  }

  /** The shortest decimal rendering of a natural number. */
  function Digits(n: nat): (s: string)
    ensures |s| >= 1 && AllDigits(s)
    ensures DigitsValue(s) == n
  {
    if n < 10 then [DigitChar(n)]
    else
      var s := Digits(n / 10) + [DigitChar(n % 10)];
      assert s[..|s| - 1] == Digits(n / 10);
      s
  }

  /** Swift's decimal `description` of an `Int`. */
  function FormatInt(n: int): (s: string)
  {
    if n < 0 then "-" + Digits(-n) else Digits(n)
  }

  /** `Int(String)` reads back what `description` writes. */
  lemma ParseFormatInt(n: int)
    requires InIntRange(n)
    ensures ParseInt(FormatInt(n)) == Some(n)
  {
    var s := FormatInt(n);
    if n < 0 {
      assert s[1..] == Digits(-n);
    } else {
      assert s[0] != '-' && s[0] != '+';
    }
  }
}
