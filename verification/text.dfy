/** The string primitives the program relies on from the Rust standard library:
    `str::split` on one character, `starts_with`, `strip_prefix`,
    `trim_start_matches`, unsigned integer parsing and decimal rendering. */
module Text {
  import opened Wrappers

  /** `s.starts_with(prefix)` */
  predicate StartsWith(s: string, prefix: string) {
    |prefix| <= |s| && s[..|prefix|] == prefix
  }

  /** `s.strip_prefix(p).unwrap_or(s)`: removes ONE leading occurrence of `p`. */
  function StripPrefix(s: string, p: string): (r: string)
    ensures StartsWith(s, p) ==> p + r == s
    ensures !StartsWith(s, p) ==> r == s
  {
    if StartsWith(s, p) then s[|p|..] else s
  }

  /** `k` copies of `p` laid end to end. */
  function Repeat(p: string, k: nat): string {
    if k == 0 then [] else p + Repeat(p, k - 1)
  }

  /** `s.trim_start_matches(p)`: removes EVERY leading repetition of `p`. */
  function TrimStartMatches(s: string, p: string): (r: string)
    requires |p| > 0
    ensures !StartsWith(r, p)
    ensures exists k: nat :: Repeat(p, k) + r == s
    decreases |s|
  {
    if StartsWith(s, p) then
      var r := TrimStartMatches(s[|p|..], p);
      ghost var k: nat :| Repeat(p, k) + r == s[|p|..];
      assert Repeat(p, k + 1) + r == s;
      r
    else
      assert Repeat(p, 0) + s == s;
      s
  }

  /** `s.split(sep)`: the pieces between separators, always at least one
      (the empty string splits into one empty piece). */
  function Split(s: string, sep: char): (r: seq<string>)
    ensures |r| >= 1
    ensures forall i :: 0 <= i < |r| ==> sep !in r[i]
    decreases |s|
  {
    if |s| == 0 then [[]]
    else
      var rest := Split(s[1..], sep);
      if s[0] == sep then [[]] + rest
      else [[s[0]] + rest[0]] + rest[1..]
  }

  /** The pieces glued back together with `sep` between neighbours (`join`). */
  function Join(parts: seq<string>, sep: char): string
    requires |parts| >= 1
    decreases |parts|
  {
    if |parts| == 1 then parts[0] else parts[0] + [sep] + Join(parts[1..], sep)
  }

  /** Splitting loses nothing: joining the pieces gives back the line. */
  lemma {:induction false} JoinSplit(s: string, sep: char)
    ensures Join(Split(s, sep), sep) == s
    decreases |s|
  {
    if |s| > 0 {
      JoinSplit(s[1..], sep);
      var rest := Split(s[1..], sep);
      if s[0] != sep && |rest| > 1 {
        assert Join(rest, sep) == rest[0] + [sep] + Join(rest[1..], sep);
      }
    }
  }

  /** A piece free of the separator, followed by the separator, splits off as one field. */
  lemma {:induction false} SplitCons(a: string, sep: char, b: string)
    requires sep !in a
    ensures Split(a + [sep] + b, sep) == [a] + Split(b, sep)
    decreases |a|
  {
    if |a| == 0 {
      assert a + [sep] + b == [sep] + b;
      assert ([sep] + b)[1..] == b;
    } else {
      SplitCons(a[1..], sep, b);
      assert (a + [sep] + b)[1..] == a[1..] + [sep] + b;
      assert [a[0]] + a[1..] == a;
    }
  }

  /** A separator-free string is a single field. */
  lemma {:induction false} SplitNoSep(a: string, sep: char)
    requires sep !in a
    ensures Split(a, sep) == [a]
    decreases |a|
  {
    if |a| > 0 {
      SplitNoSep(a[1..], sep);
      assert [a[0]] + a[1..] == a;
    }
  }

  /** The other round trip: separator-free pieces are recovered by splitting their join. */
  lemma {:induction false} SplitJoin(parts: seq<string>, sep: char)
    requires |parts| >= 1
    requires forall i :: 0 <= i < |parts| ==> sep !in parts[i]
    ensures Split(Join(parts, sep), sep) == parts
    decreases |parts|
  {
    if |parts| == 1 {
      SplitNoSep(parts[0], sep);
    } else {
      SplitJoin(parts[1..], sep);
      SplitCons(parts[0], sep, Join(parts[1..], sep));
      assert [parts[0]] + parts[1..] == parts;
    }
  }

  predicate IsDigit(c: char) {
    '0' <= c <= '9'
  }

  predicate AllDigits(s: string) {
    forall i :: 0 <= i < |s| ==> IsDigit(s[i])
  }

  /** The value of a string of decimal digits, most significant first. */
  function DigitsValue(s: string): nat
    requires AllDigits(s)
    decreases |s|
  {
    if |s| == 0 then 0
    else DigitsValue(s[..|s| - 1]) * 10 + (s[|s| - 1] as int - '0' as int)
  }

  /** The digits of an unsigned integer literal as Rust's `str::parse` reads them:
      one optional leading '+', then at least one ASCII digit; the value is not
      yet bounded by any integer width. */
  function ParseDecimal(s: string): (r: Option<nat>)
    ensures r.Some? <==> (|s| >= 1 && AllDigits(s)) || (|s| >= 2 && s[0] == '+' && AllDigits(s[1..]))
    ensures r.Some? && s[0] == '+' ==> AllDigits(s[1..]) && r.value == DigitsValue(s[1..])
    ensures r.Some? && s[0] != '+' ==> r.value == DigitsValue(s)
  {
    var digits := if |s| > 1 && s[0] == '+' then s[1..] else s;
    if |digits| == 0 || !AllDigits(digits) then None else Some(DigitsValue(digits))
  }

  /** `str::parse` for an unsigned integer type whose values are below `limit`:
      a malformed literal and a value that does not fit are both errors (`None`). */
  function ParseUnsigned(s: string, limit: nat): (r: Option<nat>)
    ensures r.Some? <==> ParseDecimal(s).Some? && ParseDecimal(s).value < limit
    ensures r.Some? ==> r == ParseDecimal(s)
    ensures |s| == 0 ==> r.None?
  {
    match ParseDecimal(s)
    case None => None
    case Some(v) => if v < limit then Some(v) else None
  }

  /** Decimal rendering of a natural number (`to_string`, `{}`): no sign, no leading zeros. */
  function NatToString(n: nat): (s: string)
    ensures |s| >= 1 && AllDigits(s)
    decreases n
  {
    if n < 10 then [('0' as int + n) as char]
    else NatToString(n / 10) + [('0' as int + n % 10) as char]
  }

  /** Rendering a number and parsing it back gives the number. */
  lemma {:induction false} DigitsValueOfNatToString(n: nat)
    ensures DigitsValue(NatToString(n)) == n
    decreases n
  {
    if n >= 10 {
      DigitsValueOfNatToString(n / 10);
      var s := NatToString(n);
      assert s[..|s| - 1] == NatToString(n / 10);
    }
  }

  /** The rendered form of a number parses back to it. */
  lemma ParseNatToString(n: nat)
    ensures ParseDecimal(NatToString(n)) == Some(n)
  {
    DigitsValueOfNatToString(n);
  }
}
