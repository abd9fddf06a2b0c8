/**
  The string operations the compendium borrows from JavaScript: `Array.prototype.join`,
  `String.prototype.split` with a non-empty separator, number-to-string conversion of
  integers, ASCII lower-casing, and the `||` / `?:` truthiness of optional fields.
 */
module Text {
  import opened Options

  // ---------------------------------------------------------------- join and split

  /** `parts.join(sep)`. */
  function Join(parts: seq<string>, sep: string): string
    decreases |parts|
  {
    if |parts| == 0 then ""
    else if |parts| == 1 then parts[0]
    else parts[0] + sep + Join(parts[1..], sep)
  }

  /** `sep` occurs in `s` at position `p`. */
  predicate OccursAt(s: string, sep: string, p: int) {
    0 <= p && p + |sep| <= |s| && s[p..p + |sep|] == sep
  }

  /** `s` contains `sep` somewhere. */
  ghost predicate Contains(s: string, sep: string) {
    exists p :: OccursAt(s, sep, p)
  }

  /** The length-`n` prefix of `sep` equals its length-`n` suffix. */
  predicate IsBorder(sep: string, n: int) {
    0 < n < |sep| && sep[..n] == sep[|sep| - n..]
  }

  /** `sep` cannot overlap itself, as ", " cannot. */
  ghost predicate NoBorder(sep: string) {
    forall n :: !IsBorder(sep, n)
  }

  /** `s.split(sep)`: cut `s` at every occurrence of `sep`, scanning left to right. */
  function Split(s: string, sep: string): (parts: seq<string>)
    requires sep != []
    ensures |parts| >= 1
    decreases |s|
  {
    if |s| < |sep| then [s]
    else if s[..|sep|] == sep then [""] + Split(s[|sep|..], sep)
    else
      var rest := Split(s[1..], sep);
      [[s[0]] + rest[0]] + rest[1..]
  }

  /** Joining a first piece onto the rest. */
  lemma JoinCons(p: string, rest: seq<string>, sep: string)
    requires |rest| >= 1
    ensures Join([p] + rest, sep) == p + sep + Join(rest, sep)
  {
    assert ([p] + rest)[1..] == rest;
  }

  /** Joining after gluing a character onto the first piece. */
  lemma JoinGlue(c: char, rest: seq<string>, sep: string)
    requires |rest| >= 1
    ensures Join([[c] + rest[0]] + rest[1..], sep) == [c] + Join(rest, sep)
  {
    if |rest| > 1 {
      JoinCons([c] + rest[0], rest[1..], sep);
      JoinCons(rest[0], rest[1..], sep);
      assert rest == [rest[0]] + rest[1..];
    }
  }

  /** Splitting loses nothing: joining the pieces with the separator gives the string back. */
  lemma {:induction false} JoinSplit(s: string, sep: string)
    requires sep != []
    ensures Join(Split(s, sep), sep) == s
    decreases |s|
  {
    if |s| < |sep| {
    } else if s[..|sep|] == sep {
      var rest := Split(s[|sep|..], sep);
      assert Split(s, sep) == [""] + rest;
      JoinSplit(s[|sep|..], sep);
      JoinCons("", rest, sep);
      assert s == s[..|sep|] + s[|sep|..];
    } else {
      var rest := Split(s[1..], sep);
      assert Split(s, sep) == [[s[0]] + rest[0]] + rest[1..];
      JoinSplit(s[1..], sep);
      JoinGlue(s[0], rest, sep);
      assert s == [s[0]] + s[1..];
    }
  }

  /** Splitting `a + t` where no separator starts inside `a` glues `a` onto the first piece of `t`. */
  lemma {:induction false} SplitAfterPrefix(a: string, t: string, sep: string)
    requires sep != []
    requires forall p :: 0 <= p < |a| ==> !OccursAt(a + t, sep, p)
    ensures Split(a + t, sep) == [a + Split(t, sep)[0]] + Split(t, sep)[1..]
    decreases |a|
  {
    var P := Split(t, sep);
    if a == [] {
      assert a + t == t && a + P[0] == P[0];
      assert P == [P[0]] + P[1..];
    } else {
      var s := a + t;
      assert !OccursAt(s, sep, 0);
      if |s| < |sep| {
        assert P == [t];
      } else {
        assert s[..|sep|] != sep;
        var s' := s[1..];
        TailOfConcat(a, t);
        forall p | 0 <= p < |a[1..]|
          ensures !OccursAt(a[1..] + t, sep, p)
        {
          OccursShift(s, sep, p);
        }
        SplitAfterPrefix(a[1..], t, sep);
        var rest := Split(s', sep);
        assert rest[0] == a[1..] + P[0] && rest[1..] == P[1..];
        assert [s[0]] + (a[1..] + P[0]) == a + P[0];
      }
    }
  }

  lemma TailOfConcat(a: string, t: string)
    requires a != []
    ensures (a + t)[1..] == a[1..] + t
  {
    assert forall j :: 0 <= j < |a| + |t| - 1 ==> (a + t)[1..][j] == (a[1..] + t)[j];
  }

  /** An occurrence in the tail of a string is an occurrence one place further in the string. */
  lemma OccursShift(s: string, sep: string, p: int)
    requires |s| >= 1 && 0 <= p
    ensures OccursAt(s[1..], sep, p) ==> OccursAt(s, sep, p + 1)
  {
    if OccursAt(s[1..], sep, p) {
      assert s[1..][p..p + |sep|] == s[p + 1..p + 1 + |sep|];
    }
  }

  /**
    An occurrence of `sep` that starts inside `x` in `x + sep + j` either lies inside `x`
    or gives `sep` a border.
   */
  lemma OverlapCases(x: string, j: string, sep: string, p: int)
    requires 0 <= p < |x|
    ensures OccursAt(x + (sep + j), sep, p) ==> OccursAt(x, sep, p) || IsBorder(sep, p + |sep| - |x|)
  {
    var s := x + (sep + j);
    var t := sep + j;
    if OccursAt(s, sep, p) && p + |sep| > |x| {
      var n := p + |sep| - |x|;
      assert s[|x|..p + |sep|] == t[..n] == sep[..n];
      assert sep[|sep| - n..] == s[p..p + |sep|][|sep| - n..] == s[|x|..p + |sep|];
    } else if OccursAt(s, sep, p) {
      assert s[p..p + |sep|] == x[p..p + |sep|];
    }
  }

  /**
    Joining with a separator that cannot overlap itself, of pieces that do not contain
    it, is undone by splitting: the drop list of an enemy is recovered from its drop text.
   */
  lemma {:induction false} SplitJoin(parts: seq<string>, sep: string)
    requires sep != [] && NoBorder(sep)
    requires |parts| >= 1
    requires forall i :: 0 <= i < |parts| ==> !Contains(parts[i], sep)
    ensures Split(Join(parts, sep), sep) == parts
    decreases |parts|
  {
    var x := parts[0];
    assert !Contains(x, sep);
    if |parts| == 1 {
      assert x + "" == x;
      SplitAfterPrefix(x, "", sep);
    } else {
      var rest := parts[1..];
      var j := Join(rest, sep);
      var t := sep + j;
      SplitJoin(rest, sep);
      var s := x + t;
      assert Join(parts, sep) == s;
      forall p | 0 <= p < |x| ensures !OccursAt(s, sep, p) {
        OverlapCases(x, j, sep, p);
      }
      SplitAfterPrefix(x, t, sep);
      assert t[..|sep|] == sep && t[|sep|..] == j;
      assert Split(t, sep) == [""] + Split(j, sep);
      assert x + "" == x;
    }
  }

  // ---------------------------------------------------------- integers as decimal text

  /** The decimal digit character for `d`. */
  function DigitChar(d: nat): (c: char)
    requires d < 10
    ensures '0' <= c <= '9'
  {
    (48 + d) as char
  }

  /** The decimal rendering of a natural number, most significant digit first, without leading zeros. */
  function NatToString(n: nat): (s: string)
    ensures |s| >= 1 && (|s| > 1 ==> s[0] != '0')
    ensures forall i :: 0 <= i < |s| ==> '0' <= s[i] <= '9'
    decreases n
  {
    if n < 10 then [DigitChar(n)] else NatToString(n / 10) + [DigitChar(n % 10)]
  }

  /** `String(n)` for an integer `n`. */
  function IntToString(n: int): string {
    if n < 0 then "-" + NatToString(-n) else NatToString(n)
  }

  /** The value of a string of decimal digits. */
  function ParseDigits(s: string): nat
    requires forall i :: 0 <= i < |s| ==> '0' <= s[i] <= '9'
    decreases |s|
  {
    if s == [] then 0 else 10 * ParseDigits(s[..|s| - 1]) + (s[|s| - 1] as int - 48)
  }

  /** The value of an optionally minus-signed decimal string. */
  function ParseInt(s: string): int
    requires |s| >= 1
    requires forall i :: 0 < i < |s| ==> '0' <= s[i] <= '9'
    requires s[0] == '-' || '0' <= s[0] <= '9'
  {
    if s[0] == '-' then -(ParseDigits(s[1..]) as int) else ParseDigits(s)
  }

  lemma {:induction false} NatToStringRoundTrip(n: nat)
    ensures ParseDigits(NatToString(n)) == n
    decreases n
  {
    if n >= 10 {
      NatToStringRoundTrip(n / 10);
      var s := NatToString(n);
      assert s[..|s| - 1] == NatToString(n / 10);
    }
  }

  /** The rendering of an integer reads back as the same integer, so distinct powers render differently. */
  lemma IntToStringRoundTrip(n: int)
    ensures var s := IntToString(n);
      |s| >= 1 && (s[0] == '-' || '0' <= s[0] <= '9') && (forall i :: 0 < i < |s| ==> '0' <= s[i] <= '9') &&
      ParseInt(s) == n
  {
    if n < 0 {
      NatToStringRoundTrip(-n);
      assert IntToString(n)[1..] == NatToString(-n);
    } else {
      NatToStringRoundTrip(n);
    }
  }

  // -------------------------------------------------------------------- lower case

  /** `c.toLowerCase()` on the ASCII letters. */
  function LowerChar(c: char): char {
    if 'A' <= c <= 'Z' then (c as int + 32) as char else c
  }

  /** `s.toLowerCase()` on ASCII text. */
  function ToLower(s: string): (r: string)
    ensures |r| == |s|
    ensures forall i :: 0 <= i < |s| ==> r[i] == LowerChar(s[i]) && !('A' <= r[i] <= 'Z')
  {
    seq(|s|, i requires 0 <= i < |s| => LowerChar(s[i]))
  }

  // ---------------------------------------------------------------------- truthiness

  /** A number field is truthy when present and non-zero. */
  predicate TruthyInt(o: Option<int>) {
    o.Some? && o.value != 0
  }

  /** A string field is truthy when present and non-empty. */
  predicate TruthyStr(o: Option<string>) {
    o.Some? && o.value != ""
  }

  /** `field || d` on a number field. */
  function OrInt(o: Option<int>, d: int): int {
    if TruthyInt(o) then o.value else d
  }

  /** `field || d` on a string field. */
  function OrStr(o: Option<string>, d: string): string {
    if TruthyStr(o) then o.value else d
  }

  /** `field || 0` and `field || ''` are "the value if present": a present falsy value equals the default anyway. */
  lemma OrZeroIsGetOr(o: Option<int>, s: Option<string>)
    ensures OrInt(o, 0) == o.GetOr(0)
    ensures OrStr(s, "") == s.GetOr("")
  {
  }
}
