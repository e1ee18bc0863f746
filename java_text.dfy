/**
 * The few `java.lang.String` and `java.lang.Integer` operations the pool and the
 * interpreter rely on, with Java's semantics: `startsWith`, `indexOf(char)`,
 * `split` with a one-character separator, `trim` and `Integer.valueOf`.
 */
module JavaText {
  import opened Results

  const MinInt: int := -0x8000_0000
  const MaxInt: int := 0x7fff_ffff

  predicate StartsWith(s: string, prefix: string) {
    |prefix| <= |s| && s[..|prefix|] == prefix
  }

  predicate EndsWith(s: string, suffix: string) {
    |suffix| <= |s| && s[|s| - |suffix|..] == suffix
  }

  /** `s.indexOf(c)`: the position of the first `c`, or -1 when there is none. */
  function IndexOf(s: string, c: char): (r: int)
    ensures -1 <= r < |s|
    ensures r == -1 <==> c !in s
    ensures 0 <= r ==> s[r] == c && c !in s[..r]
  {
    if |s| == 0 then -1
    else if s[0] == c then 0
    else
      var k := IndexOf(s[1..], c);
      assert s[1..][..if k < 0 then 0 else k] == s[1..if k < 0 then 1 else k + 1];
      if k == -1 then -1 else k + 1
  }

  // ---------------------------------------------------------------------------
  // split

  /** The text between consecutive separators, left to right (every piece, empty ones included). */
  function Pieces(s: string, sep: char): (r: seq<string>)
    ensures |r| >= 1
    ensures forall i :: 0 <= i < |r| ==> sep !in r[i]
    decreases |s|
  {
    var k := IndexOf(s, sep);
    if k == -1 then [s] else [s[..k]] + Pieces(s[k + 1..], sep)
  }

  /** Glue pieces back together with the separator between them. */
  function Join(parts: seq<string>, sep: char): string
    requires |parts| >= 1
  {
    if |parts| == 1 then parts[0] else parts[0] + [sep] + Join(parts[1..], sep)
  }

  /** `split` with limit 0 drops every trailing empty piece. */
  function DropTrailingEmpty(parts: seq<string>): (r: seq<string>)
    ensures |r| <= |parts| && r == parts[..|r|]
    ensures r == [] || r[|r| - 1] != ""
    ensures forall i :: |r| <= i < |parts| ==> parts[i] == ""
  {
    if parts == [] then []
    else if parts[|parts| - 1] == "" then DropTrailingEmpty(parts[..|parts| - 1])
    else parts
  }

  /** `s.split(String.valueOf(sep))`: the whole string when the separator does not occur,
      otherwise the pieces without the trailing empty ones. */
  function Split(s: string, sep: char): (r: seq<string>)
    ensures sep !in s ==> r == [s]
    ensures sep in s ==>
      var ps := Pieces(s, sep);
      && |r| <= |ps| && r == ps[..|r|]
      && (forall i :: |r| <= i < |ps| ==> ps[i] == "")
      && (r == [] || r[|r| - 1] != "")
    ensures forall i :: 0 <= i < |r| ==> sep !in r[i]
  {
    if sep !in s then [s] else DropTrailingEmpty(Pieces(s, sep))
  }

  lemma {:induction false} JoinPieces(s: string, sep: char)
    ensures Join(Pieces(s, sep), sep) == s
    decreases |s|
  {
    var k := IndexOf(s, sep);
    if k != -1 {
      var rest := s[k + 1..];
      var tail := Pieces(rest, sep);
      JoinPieces(rest, sep);
      var ps := [s[..k]] + tail;
      assert Pieces(s, sep) == ps;
      assert |ps| > 1 && ps[0] == s[..k] && ps[1..] == tail;
      assert Join(ps, sep) == s[..k] + [sep] + rest;
      assert s == s[..k] + [sep] + rest;
    }
  }

  lemma {:induction false} PiecesJoin(parts: seq<string>, sep: char)
    requires |parts| >= 1
    requires forall i :: 0 <= i < |parts| ==> sep !in parts[i]
    ensures Pieces(Join(parts, sep), sep) == parts
  {
    var s := Join(parts, sep);
    if |parts| == 1 {
    } else {
      var rest := Join(parts[1..], sep);
      assert s == parts[0] + [sep] + rest;
      assert IndexOf(s, sep) == |parts[0]| by {
        assert s[|parts[0]|] == sep;
        assert s[..|parts[0]|] == parts[0];
      }
      assert s[|parts[0]| + 1..] == rest;
      assert s[..|parts[0]|] == parts[0];
      PiecesJoin(parts[1..], sep);
    }
  }

  /** Splitting undoes joining, for at least two pieces free of the separator whose last is not empty. */
  lemma SplitJoin(parts: seq<string>, sep: char)
    requires |parts| >= 2 && parts[|parts| - 1] != ""
    requires forall i :: 0 <= i < |parts| ==> sep !in parts[i]
    ensures Split(Join(parts, sep), sep) == parts
  {
    var s := Join(parts, sep);
    assert s == parts[0] + [sep] + Join(parts[1..], sep);
    assert s[|parts[0]|] == sep;
    PiecesJoin(parts, sep);
  }

  // ---------------------------------------------------------------------------
  // trim

  /** Java's `trim` treats every character up to U+0020 as white space. */
  predicate IsJavaSpace(c: char) {
    c <= ' '
  }

  /** The first loop of `trim`: from `i`, the index of the first character that is not white space. */
  function LeadingEnd(s: string, i: nat): (st: nat)
    requires i <= |s|
    ensures i <= st <= |s|
    ensures forall k :: i <= k < st ==> IsJavaSpace(s[k])
    ensures st == |s| || !IsJavaSpace(s[st])
    decreases |s| - i
  {
    if i < |s| && IsJavaSpace(s[i]) then LeadingEnd(s, i + 1) else i
  }

  /** The second loop of `trim`: the end `len` moves left over white space, never past `st`. */
  function TrailingStart(s: string, st: nat, len: nat): (e: nat)
    requires st <= len <= |s|
    ensures st <= e <= len
    ensures forall k :: e <= k < len ==> IsJavaSpace(s[k])
    ensures e == st || !IsJavaSpace(s[e - 1])
  {
    if st < len && IsJavaSpace(s[len - 1]) then TrailingStart(s, st, len - 1) else len
  }

  /**
   * `s.trim()`: the slice of `s` that starts where the leading white space ends,
   * with nothing but white space before and after it; neither of its ends is white space.
   */
  function Trim(s: string): (r: string)
    ensures var st := LeadingEnd(s, 0);
      && st + |r| <= |s| && r == s[st..st + |r|]
      && (forall k :: 0 <= k < st ==> IsJavaSpace(s[k]))
      && (forall k :: st + |r| <= k < |s| ==> IsJavaSpace(s[k]))
    ensures r == [] || (!IsJavaSpace(r[0]) && !IsJavaSpace(r[|r| - 1]))
  {
    var st := LeadingEnd(s, 0);
    s[st..TrailingStart(s, st, |s|)]
  }

  lemma TrimIdempotent(s: string)
    ensures Trim(Trim(s)) == Trim(s)
  {
    var r := Trim(s);
    if r != [] {
      assert LeadingEnd(r, 0) == 0;
      assert TrailingStart(r, 0, |r|) == |r|;
    }
  }

  /** One space in front of a name that is already trimmed is all that `trim` removes. */
  lemma TrimPadded(name: string)
    requires name != [] && !IsJavaSpace(name[0]) && !IsJavaSpace(name[|name| - 1])
    ensures Trim(" " + name) == name
  {
    var s := " " + name;
    assert LeadingEnd(s, 1) == 1;
    assert LeadingEnd(s, 0) == 1;
    assert TrailingStart(s, 1, |s|) == |s|;
    assert s[1..] == name;
  }

  // ---------------------------------------------------------------------------
  // Integer.valueOf

  predicate IsDigit(c: char) {
    '0' <= c <= '9'
  }

  predicate AllDigits(s: string) {
    forall i :: 0 <= i < |s| ==> IsDigit(s[i])
  }

  /** The value of a string of decimal digits, most significant first. */
  function DigitsValue(s: string): (n: nat)
    requires AllDigits(s)
  {
    if s == [] then 0 else DigitsValue(s[..|s| - 1]) * 10 + (s[|s| - 1] - '0') as int
  }

  /** `Integer.valueOf(s)`: an optional sign, at least one digit, and a value that fits in
      32 bits; `None` stands for the `NumberFormatException`. */
  function ParseInt(s: string): (r: Option<int>)
    ensures r.Some? ==> MinInt <= r.value <= MaxInt
    ensures r.Some? ==>
      (s != [] && AllDigits(s)) || (|s| >= 2 && (s[0] == '+' || s[0] == '-') && AllDigits(s[1..]))
    ensures s != [] && AllDigits(s) ==>
      (r.Some? <==> DigitsValue(s) <= MaxInt) && (r.Some? ==> r.value == DigitsValue(s))
    ensures |s| >= 2 && s[0] == '+' && AllDigits(s[1..]) ==>
      (r.Some? <==> DigitsValue(s[1..]) <= MaxInt) && (r.Some? ==> r.value == DigitsValue(s[1..]))
    ensures |s| >= 2 && s[0] == '-' && AllDigits(s[1..]) ==>
      (r.Some? <==> DigitsValue(s[1..]) <= -MinInt) && (r.Some? ==> r.value == -(DigitsValue(s[1..]) as int))
  {
    if |s| == 0 then None
    else
      var signed := s[0] == '-' || s[0] == '+';
      var digits := if signed then s[1..] else s;
      if digits == [] || !AllDigits(digits) then None
      else
        var v: int := if s[0] == '-' then -(DigitsValue(digits) as int) else DigitsValue(digits);
        if MinInt <= v <= MaxInt then Some(v) else None
  }

  function Zeros(k: nat): (z: string)
    ensures |z| == k && forall i :: 0 <= i < k ==> z[i] == '0'
  {
    if k == 0 then [] else "0" + Zeros(k - 1)
  }

  /** Leading zeros do not change the value of a digit string. */
  lemma {:induction false} LeadingZerosValue(k: nat, d: string)
    requires AllDigits(d)
    ensures AllDigits(Zeros(k) + d) && DigitsValue(Zeros(k) + d) == DigitsValue(d)
    decreases k, |d|
  {
    var z := Zeros(k) + d;
    assert AllDigits(z) by {
      forall i | 0 <= i < |z| ensures IsDigit(z[i]) {
        if i < k { assert z[i] == Zeros(k)[i]; } else { assert z[i] == d[i - k]; }
      }
    }
    if d == [] {
      assert z == Zeros(k);
      if k > 0 {
        LeadingZerosValue(k - 1, []);
        assert z == "0" + Zeros(k - 1);
        assert z[..|z| - 1] == Zeros(k - 1) + [];
      }
    } else {
      var init := d[..|d| - 1];
      LeadingZerosValue(k, init);
      assert z[..|z| - 1] == Zeros(k) + init;
      assert z[|z| - 1] == d[|d| - 1];
    }
  }

  /** Decimal rendering of a natural number, without leading zeros. */
  function ShowNat(n: nat): (s: string)
    ensures |s| >= 1 && AllDigits(s)
  {
    var d := ['0' + (n % 10) as char];
    if n < 10 then d else ShowNat(n / 10) + d
  }

  /** Decimal rendering of an integer, the way `Integer.toString` writes it. */
  function ShowInt(n: int): string {
    if n < 0 then "-" + ShowNat(-n) else ShowNat(n)
  }

  lemma {:induction false} DigitsOfShowNat(n: nat)
    ensures DigitsValue(ShowNat(n)) == n
  {
    var s := ShowNat(n);
    if n >= 10 {
      DigitsOfShowNat(n / 10);
      assert s[..|s| - 1] == ShowNat(n / 10);
    }
  }

  /** Parsing is the inverse of printing on the whole `int` range. */
  lemma ParseShowInt(n: int)
    requires MinInt <= n <= MaxInt
    ensures ParseInt(ShowInt(n)) == Some(n)
  {
    var s := ShowInt(n);
    if n < 0 {
      DigitsOfShowNat(-n);
      assert s[1..] == ShowNat(-n);
    } else {
      DigitsOfShowNat(n);
      assert s[0] != '-' && s[0] != '+' by { assert IsDigit(ShowNat(n)[0]); }
    }
  }

  /** A sign followed by digits parses to the signed value of the digits, when it fits. */
  lemma ParseSignedDigits(sign: char, d: string)
    requires sign == '+' || sign == '-'
    requires d != [] && AllDigits(d)
    requires if sign == '-' then DigitsValue(d) <= -MinInt else DigitsValue(d) <= MaxInt
    ensures ParseInt([sign] + d) == Some(if sign == '-' then -(DigitsValue(d) as int) else DigitsValue(d))
  {
    var s := [sign] + d;
    assert s[1..] == d;
  }

  /** A non-canonical rendering with a plus sign and leading zeros, such as "+007", parses
      to the value that `ParseShowInt` gives for the canonical one. */
  lemma ParsePlusZeroPadded(n: nat, k: nat)
    requires n <= MaxInt
    ensures ParseInt("+" + Zeros(k) + ShowNat(n)) == Some(n)
  {
    var d := Zeros(k) + ShowNat(n);
    assert d != [] && AllDigits(d) && DigitsValue(d) == n by {
      LeadingZerosValue(k, ShowNat(n));
      DigitsOfShowNat(n);
    }
    assert "+" + Zeros(k) + ShowNat(n) == ['+'] + d;
    ParseSignedDigits('+', d);
  }

  /** The same with a minus sign: "-007" parses like "-7". */
  lemma ParseMinusZeroPadded(n: nat, k: nat)
    requires 0 < n <= -MinInt
    ensures ParseInt("-" + Zeros(k) + ShowNat(n)) == Some(-(n as int))
  {
    var d := Zeros(k) + ShowNat(n);
    assert d != [] && AllDigits(d) && DigitsValue(d) == n by {
      LeadingZerosValue(k, ShowNat(n));
      DigitsOfShowNat(n);
    }
    assert "-" + Zeros(k) + ShowNat(n) == ['-'] + d;
    ParseSignedDigits('-', d);
  }

  /** An explicit sign and leading zeros do not change what `Integer.valueOf` returns:
      "+007" parses like "7", and "-007" like "-7". */
  lemma PaddedParsesLikeCanonical(n: int, k: nat)
    requires MinInt <= n <= MaxInt
    ensures n >= 0 ==> ParseInt("+" + Zeros(k) + ShowNat(n)) == ParseInt(ShowInt(n))
    ensures n < 0 ==> ParseInt("-" + Zeros(k) + ShowNat(-n)) == ParseInt(ShowInt(n))
  {
    ParseShowInt(n);
    if n >= 0 {
      ParsePlusZeroPadded(n, k);
    } else {
      ParseMinusZeroPadded(-n, k);
    }
  }
}
