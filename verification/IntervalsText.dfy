/** The text form of pkg/intervalstore: base-36 numbers, ';' between ranges, ',' inside a range. */
module IntervalsText {
  import opened Common

  const MAX_UINT64 := 0xFFFF_FFFF_FFFF_FFFF

  type Uint64 = x: int | 0 <= x <= MAX_UINT64

  datatype Range = Range(lo: Uint64, hi: Uint64)

  function Digit(d: nat): char
    requires d < 36
  {
    (if d < 10 then 48 + d else 87 + d) as char
  }

  /** Both cases of a letter are read. */
  function DigitValue(c: char): Option<nat> {
    if '0' <= c <= '9' then Some(c as int - 48)
    else if 'a' <= c <= 'z' then Some(c as int - 87)
    else if 'A' <= c <= 'Z' then Some(c as int - 55)
    else None
  }

  function FormatUint(x: Uint64): string {
    if x < 36 then [Digit(x)] else FormatUint(x / 36) + [Digit(x % 36)]
  }

  /** The value of the digits, or nothing for a bad character or a value above uint64. */
  function DigitsValue(s: string): Option<Uint64> {
    if s == [] then Some(0)
    else
      var v := DigitsValue(s[..|s| - 1]);
      var d := DigitValue(s[|s| - 1]);
      if v.None? || d.None? || v.value * 36 + d.value > MAX_UINT64 then None else Some(v.value * 36 + d.value)
  }

  function ParseUint(s: string): Option<Uint64> { if s == [] then None else DigitsValue(s) }

  function Split(s: string, sep: char): (parts: seq<string>)
    ensures |parts| >= 1
  {
    if s == [] then [[]]
    else
      var rest := Split(s[1..], sep);
      if s[0] == sep then [[]] + rest else [[s[0]] + rest[0]] + rest[1..]
  }

  /** What stands before and after the first separator. */
  function Cut(s: string, sep: char): Option<(string, string)> {
    if s == [] then None
    else if s[0] == sep then Some(([], s[1..]))
    else match Cut(s[1..], sep)
      case None => None
      case Some(c) => Some(([s[0]] + c.0, c.1))
  }

  function Join(parts: seq<string>, sep: char): string {
    if parts == [] then []
    else if |parts| == 1 then parts[0]
    else parts[0] + [sep] + Join(parts[1..], sep)
  }

  function RangeText(g: Range): string { FormatUint(g.lo) + "," + FormatUint(g.hi) }

  function ParseRange(s: string): Option<Range> {
    match Cut(s, ',')
    case None => None
    case Some(c) =>
      var lo, hi := ParseUint(c.0), ParseUint(c.1);
      if lo.None? || hi.None? then None else Some(Range(lo.value, hi.value))
  }

  function RangeTexts(r: seq<Range>): (t: seq<string>)
    ensures |t| == |r|
  {
    seq(|r|, k requires 0 <= k < |r| => RangeText(r[k]))
  }

  /** The stored form of a lower bound and its ranges. */
  function Encoded(lower: Uint64, r: seq<Range>): string { Join([FormatUint(lower)] + RangeTexts(r), ';') }

  function ParseRanges(parts: seq<string>): Option<seq<Range>> {
    if parts == [] then Some([])
    else
      var r := ParseRanges(parts[..|parts| - 1]);
      var g := ParseRange(parts[|parts| - 1]);
      if r.None? || g.None? then None else Some(r.value + [g.value])
  }

  datatype Stored = Stored(lower: Uint64, ranges: seq<Range>)

  function Decoded(data: string): Option<Stored> {
    var parts := Split(data, ';');
    var lower, r := ParseUint(parts[0]), ParseRanges(parts[1..]);
    if lower.None? || r.None? then None else Some(Stored(lower.value, r.value))
  }

  /** How two ranges above 1 are written. */
  lemma TextExample()
    ensures Encoded(1, [Range(2, 35), Range(36, 71)]) == "1;2,z;10,1z"
  {
    var one, first, second := FormatUint(1), RangeText(Range(2, 35)), RangeText(Range(36, 71));
    assert one == "1" && FormatUint(2) == "2" && FormatUint(35) == "z";
    assert FormatUint(36) == FormatUint(1) + [Digit(0)] == "10";
    assert FormatUint(71) == FormatUint(1) + [Digit(35)] == "1z";
    assert first == "2,z" && second == "10,1z";
    assert RangeTexts([Range(2, 35), Range(36, 71)]) == [first, second];
    assert [one] + [first, second] == [one, first, second];
    JoinThree(one, first, second);
  }

  lemma JoinThree(a: string, b: string, c: string)
    ensures Join([a, b, c], ';') == a + ";" + b + ";" + c
  {
    assert [a, b, c][1..] == [b, c] && [b, c][1..] == [c];
    assert Join([b, c], ';') == b + ";" + c;
  }

  /** Letters are read in either case. */
  lemma {:induction false} BothCases(s: string, t: string)
    requires |s| == |t| && forall i :: 0 <= i < |s| ==>
               s[i] == t[i] || ('a' <= s[i] <= 'z' && t[i] as int == s[i] as int - 32)
    ensures ParseUint(t) == ParseUint(s)
    decreases |s|
  {
    if s != [] {
      var n := |s| - 1;
      BothCases(s[..n], t[..n]);
      assert s[n] == t[n] || ('a' <= s[n] <= 'z' && t[n] as int == s[n] as int - 32);
    }
  }

  /** Reading what was written gives the same bound and the same ranges, for every list. */
  lemma DecodeEncode(lower: Uint64, r: seq<Range>)
    ensures Decoded(Encoded(lower, r)) == Some(Stored(lower, r))
  {
    var parts := [FormatUint(lower)] + RangeTexts(r);
    forall k | 0 <= k < |parts| ensures ';' !in parts[k] {
      NumberRoundTrip(lower);
      if k > 0 { RangeRoundTrip(r[k - 1]); }
    }
    SplitJoin(parts, ';');
    NumberRoundTrip(lower);
    assert parts[1..] == RangeTexts(r);
    RangesRoundTrip(r);
  }

  lemma {:induction false} NumberRoundTrip(x: Uint64)
    ensures ParseUint(FormatUint(x)) == Some(x) && FormatUint(x) != []
    ensures ',' !in FormatUint(x) && ';' !in FormatUint(x)
  {
    if x >= 36 {
      NumberRoundTrip(x / 36);
      assert FormatUint(x)[..|FormatUint(x)| - 1] == FormatUint(x / 36);
    } else {
      assert FormatUint(x)[..0] == [] && DigitsValue([]) == Some(0) && DigitValue(Digit(x)) == Some(x);
    }
  }

  lemma RangeRoundTrip(g: Range)
    ensures ParseRange(RangeText(g)) == Some(g) && ';' !in RangeText(g)
  {
    NumberRoundTrip(g.lo);
    NumberRoundTrip(g.hi);
    CutText(FormatUint(g.lo), FormatUint(g.hi), ',');
  }

  lemma {:induction false} RangesRoundTrip(r: seq<Range>)
    ensures ParseRanges(RangeTexts(r)) == Some(r)
  {
    if r != [] {
      var n := |r| - 1;
      RangesRoundTrip(r[..n]);
      assert RangeTexts(r)[..n] == RangeTexts(r[..n]);
      RangeRoundTrip(r[n]);
      assert r == r[..n] + [r[n]];
    }
  }

  lemma {:induction false} CutText(a: string, b: string, sep: char)
    requires sep !in a
    ensures Cut(a + [sep] + b, sep) == Some((a, b))
  {
    var s := a + [sep] + b;
    if a == [] {
      assert s[1..] == b;
    } else {
      assert s[1..] == a[1..] + [sep] + b;
      CutText(a[1..], b, sep);
      assert a == [a[0]] + a[1..];
    }
  }

  lemma {:induction false} SplitFirst(a: string, rest: string, sep: char)
    requires sep !in a
    ensures Split(a + [sep] + rest, sep) == [a] + Split(rest, sep)
  {
    var s := a + [sep] + rest;
    if a == [] {
      assert s[1..] == rest;
    } else {
      assert s[1..] == a[1..] + [sep] + rest;
      SplitFirst(a[1..], rest, sep);
      assert a == [a[0]] + a[1..];
    }
  }

  lemma {:induction false} SplitNone(a: string, sep: char)
    requires sep !in a
    ensures Split(a, sep) == [a]
  {
    if a != [] {
      SplitNone(a[1..], sep);
      assert a == [a[0]] + a[1..];
    }
  }

  lemma {:induction false} SplitJoin(parts: seq<string>, sep: char)
    requires parts != [] && forall k :: 0 <= k < |parts| ==> sep !in parts[k]
    ensures Split(Join(parts, sep), sep) == parts
  {
    if |parts| == 1 {
      SplitNone(parts[0], sep);
    } else {
      SplitJoin(parts[1..], sep);
      SplitFirst(parts[0], Join(parts[1..], sep), sep);
      assert parts == [parts[0]] + parts[1..];
    }
  }
}
