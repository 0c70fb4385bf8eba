/** Character-level helpers with the meaning Python (and C++ `std::to_string`)
    give them: `str.strip`, `str.split()`, `str.split(c)`, `str.split(c, k)`,
    `str.startswith`, `p in s`, `str.isdigit`, `int()` and `str()` on integers.
    Whitespace and digits are the ASCII ones; `int()` is read with a strict
    grammar: an optional sign followed by one or more ASCII digits. */
module Text {
  import opened Wrappers

  /** Python's ASCII whitespace: tab, line feed, vertical tab, form feed,
      carriage return (9 to 13), the four separators 28 to 31, and space. */
  predicate IsSpace(c: char) {
    c == ' ' || c == '\t' || c == '\n' || c == '\r' || c == '\U{B}' || c == '\U{C}' ||
    ('\U{1C}' <= c <= '\U{1F}')
  }

  predicate IsDigit(c: char) {
    '0' <= c <= '9'
  }

  /** `s.startswith(p)` */
  predicate StartsWith(s: string, p: string) {
    |p| <= |s| && s[..|p|] == p
  }

  /** `s.endswith(p)` */
  predicate EndsWith(s: string, p: string) {
    |p| <= |s| && s[|s| - |p|..] == p
  }

  /** `p in s` */
  predicate Contains(s: string, p: string)
    decreases |s|
  {
    StartsWith(s, p) || (s != [] && Contains(s[1..], p))
  }

  /** `p` occurs in `s` at offset `k`. */
  predicate OccursAt(s: string, p: string, k: int) {
    0 <= k && k + |p| <= |s| && s[k..k + |p|] == p
  }

  /** `p in s` holds exactly when `p` occurs at some offset of `s`. */
  lemma {:induction false} ContainsIff(s: string, p: string)
    ensures Contains(s, p) <==> exists k :: OccursAt(s, p, k)
    decreases |s|
  {
    if StartsWith(s, p) {
      assert OccursAt(s, p, 0);
    } else if s != [] {
      ContainsIff(s[1..], p);
      if Contains(s[1..], p) {
        var k :| OccursAt(s[1..], p, k);
        assert s[k + 1..k + 1 + |p|] == s[1..][k..k + |p|];
        assert OccursAt(s, p, k + 1);
      }
      if k :| OccursAt(s, p, k) {
        assert k != 0;
        assert s[1..][k - 1..k - 1 + |p|] == s[k..k + |p|];
        assert OccursAt(s[1..], p, k - 1);
      }
    }
  }

  /** A string that holds `p` at offset `k` contains `p`. */
  lemma ContainsAt(s: string, p: string, k: nat)
    requires OccursAt(s, p, k)
    ensures Contains(s, p)
  {
    ContainsIff(s, p);
  }

  /** A character of `p` that never occurs in `s` keeps `p` out of `s`. */
  lemma NotContainsChar(s: string, p: string, c: char)
    requires c in p && c !in s
    ensures !Contains(s, p)
  {
    ContainsIff(s, p);
  }

  /** Only digits, minus signs and spaces: the text of printed numbers. */
  predicate Numeric(s: string) {
    s == [] || ((IsDigit(s[0]) || s[0] == '-' || s[0] == ' ') && Numeric(s[1..]))
  }

  lemma {:induction false} NumericConcat(a: string, b: string)
    requires Numeric(a) && Numeric(b)
    ensures Numeric(a + b)
  {
    if a != [] {
      NumericConcat(a[1..], b);
      assert (a + b)[1..] == a[1..] + b;
    } else {
      assert a + b == b;
    }
  }

  /** Numeric text never holds a word that starts with a capital letter. */
  lemma {:induction false} NumericNoKeyword(s: string, p: string)
    requires Numeric(s) && p != [] && 'A' <= p[0] <= 'Z'
    ensures !Contains(s, p)
  {
    if s != [] {
      NumericNoKeyword(s[1..], p);
    }
  }

  /** Leading whitespace removed. */
  function TrimLeft(s: string): (r: string)
    ensures |r| <= |s| && r == s[|s| - |r|..]
    ensures r == [] || !IsSpace(r[0])
    ensures forall i :: 0 <= i < |s| - |r| ==> IsSpace(s[i])
  {
    if s != [] && IsSpace(s[0]) then
      var r := TrimLeft(s[1..]);
      assert s[1..][|s| - 1 - |r|..] == s[|s| - |r|..];
      assert forall i :: 1 <= i < |s| - |r| ==> s[i] == s[1..][i - 1];
      r
    else s
  }

  /** Trailing whitespace removed. */
  function TrimRight(s: string): (r: string)
    ensures |r| <= |s| && r == s[..|r|]
    ensures r == [] || !IsSpace(r[|r| - 1])
    ensures forall i :: |r| <= i < |s| ==> IsSpace(s[i])
  {
    if s != [] && IsSpace(s[|s| - 1]) then
      var r := TrimRight(s[..|s| - 1]);
      assert s[..|s| - 1][..|r|] == s[..|r|];
      assert forall i :: |r| <= i < |s| - 1 ==> s[i] == s[..|s| - 1][i];
      r
    else s
  }

  /** `s.strip()`: neither end of the result is whitespace; `StripMiddle`
      shows the result is the middle of `s` with only whitespace cut. */
  function Strip(s: string): (r: string)
    ensures |r| <= |s|
    ensures r == [] || (!IsSpace(r[0]) && !IsSpace(r[|r| - 1]))
  {
    var t := TrimLeft(s);
    var r := TrimRight(t);
    assert r != [] ==> r[0] == t[0];
    r
  }

  /** `s.strip()` keeps the slice of `s` that starts after the leading
      whitespace, and everything after that slice is whitespace. */
  lemma StripMiddle(s: string)
    ensures LeadingSpace(s) + |Strip(s)| <= |s|
    ensures Strip(s) == s[LeadingSpace(s)..LeadingSpace(s) + |Strip(s)|]
    ensures forall i :: LeadingSpace(s) + |Strip(s)| <= i < |s| ==> IsSpace(s[i])
  {
    hide IsSpace;
    var t := TrimLeft(s);
    var a := LeadingSpace(s);
    assert Strip(s) == TrimRight(t);
    assert t == s[a..];
    hide *;
    SpaceSuffix(s, a, t, |Strip(s)|);
  }

  /** Cutting `s` after `a` and then keeping `n` characters leaves the slice
      of `s` from `a` of length `n`, and a whitespace tail of the suffix is a
      whitespace tail of `s`. */
  lemma SpaceSuffix(s: string, a: nat, t: string, n: nat)
    requires a <= |s| && t == s[a..] && n <= |t|
    requires forall i :: n <= i < |t| ==> IsSpace(t[i])
    ensures t[..n] == s[a..a + n]
    ensures forall i :: a + n <= i < |s| ==> IsSpace(s[i])
  {
    forall i | a + n <= i < |s|
      ensures IsSpace(s[i])
    {
      assert s[i] == t[i - a];
    }
  }

  /** The number of whitespace characters `s.strip()` cuts from the front. */
  function LeadingSpace(s: string): (a: nat)
    ensures a <= |s| && (forall i :: 0 <= i < a ==> IsSpace(s[i]))
    ensures a == |s| || !IsSpace(s[a])
  {
    |s| - |TrimLeft(s)|
  }

  /** The leading run of non-space characters of `s`. */
  function TakeWord(s: string): (w: string)
    ensures |w| <= |s| && w == s[..|w|]
    ensures NoSpace(w)
    ensures |w| == |s| || IsSpace(s[|w|])
    ensures s != [] && !IsSpace(s[0]) ==> |w| >= 1
  {
    if s == [] || IsSpace(s[0]) then []
    else
      var t := TakeWord(s[1..]);
      assert ([s[0]] + t)[1..] == t;
      [s[0]] + t
  }

  /** No whitespace anywhere in `s`. */
  predicate NoSpace(s: string) {
    s == [] || (!IsSpace(s[0]) && NoSpace(s[1..]))
  }

  lemma {:induction false} NoSpaceAt(s: string, i: int)
    requires NoSpace(s) && 0 <= i < |s|
    ensures !IsSpace(s[i])
  {
    if i > 0 {
      NoSpaceAt(s[1..], i - 1);
    }
  }

  lemma {:induction false} NoSpaceAll(s: string)
    requires forall i :: 0 <= i < |s| ==> !IsSpace(s[i])
    ensures NoSpace(s)
  {
    if s != [] {
      NoSpaceAll(s[1..]);
    }
  }

  /** A string without whitespace is its own stripped form. */
  lemma StripNoSpace(s: string)
    requires NoSpace(s)
    ensures Strip(s) == s
  {
    if s != [] {
      TrimLeftNoSpace(s);
      TrimRightNoSpace(s);
    }
  }

  lemma TrimLeftNoSpace(s: string)
    requires NoSpace(s) && s != []
    ensures TrimLeft(s) == s
  {
    NoSpaceAt(s, 0);
  }

  lemma TrimRightNoSpace(s: string)
    requires NoSpace(s) && s != []
    ensures TrimRight(s) == s
  {
    NoSpaceAt(s, |s| - 1);
  }

  /** A non-empty run of non-space characters. */
  predicate IsWord(w: string) {
    w != [] && NoSpace(w)
  }

  /** `s.split()`: the maximal runs of non-space characters, in order. */
  function Words(s: string): (ws: seq<string>)
    decreases |s|
  {
    var t := TrimLeft(s);
    if t == [] then []
    else
      var w := TakeWord(t);
      var rest := t[|w|..];
      assert |rest| < |s|;
      [w] + Words(rest)
  }

  /** `s.split(c)` for a one-character separator `c`: no part holds `c`. */
  function SplitOn(s: string, c: char): (parts: seq<string>)
    ensures |parts| >= 1
    ensures forall k :: 0 <= k < |parts| ==> c !in parts[k]
    ensures |parts| == 1 <==> c !in s
  {
    if s == [] then [""]
    else
      var rest := SplitOn(s[1..], c);
      if s[0] == c then [""] + rest else [[s[0]] + rest[0]] + rest[1..]
  }

  /** `s.split(c, maxsplit)`: at most `maxsplit` cuts, the last part keeps the rest. */
  function SplitMax(s: string, c: char, maxsplit: nat): (parts: seq<string>)
    ensures 1 <= |parts| <= maxsplit + 1
    ensures forall k :: 0 <= k < |parts| - 1 ==> c !in parts[k]
  {
    if s == [] then [""]
    else if s[0] == c && maxsplit > 0 then [""] + SplitMax(s[1..], c, maxsplit - 1)
    else
      var rest := SplitMax(s[1..], c, maxsplit);
      [[s[0]] + rest[0]] + rest[1..]
  }

  /** `sep.join(parts)` for a one-character separator. */
  function Join(parts: seq<string>, sep: char): string
  {
    if |parts| == 0 then ""
    else if |parts| == 1 then parts[0]
    else parts[0] + [sep] + Join(parts[1..], sep)
  }

  lemma {:induction false} SplitOnNoSeparator(s: string, c: char)
    requires c !in s
    ensures SplitOn(s, c) == [s]
  {
    if s != [] {
      SplitOnNoSeparator(s[1..], c);
      assert [s[0]] + s[1..] == s;
    }
  }

  lemma {:induction false} SplitOnCut(a: string, b: string, c: char)
    requires c !in a
    ensures SplitOn(a + [c] + b, c) == [a] + SplitOn(b, c)
  {
    if a == [] {
      assert a + [c] + b == [c] + b;
      assert ([c] + b)[1..] == b;
    } else {
      var s := a + [c] + b;
      assert s[0] == a[0] && s[1..] == a[1..] + [c] + b;
      var rest := SplitOn(s[1..], c);
      assert SplitOn(s, c) == [[a[0]] + rest[0]] + rest[1..];
      hide *;
      SplitOnCut(a[1..], b, c);
      assert rest[0] == a[1..] && rest[1..] == SplitOn(b, c);
      assert [a[0]] + a[1..] == a;
    }
  }

  /** The last part is what follows the last separator. */
  lemma {:induction false} SplitOnLast(a: string, b: string, c: char)
    requires c !in b
    ensures var parts := SplitOn(a + [c] + b, c); |parts| >= 2 && parts[|parts| - 1] == b
  {
    var s := a + [c] + b;
    if a == [] {
      assert s == [c] + b && s[1..] == b;
      SplitOnNoSeparator(b, c);
    } else {
      assert s[1..] == a[1..] + [c] + b;
      SplitOnLast(a[1..], b, c);
    }
  }

  /** `p` ends `s` and is either all of it or follows a `c`. */
  predicate SuffixAfter(s: string, p: string, c: char) {
    |p| <= |s| && s[|s| - |p|..] == p && (|p| == |s| || s[|s| - |p| - 1] == c)
  }

  /** The last part of a split is what follows the last separator. */
  lemma {:induction false} SplitOnLastSuffix(s: string, c: char)
    ensures SuffixAfter(s, SplitOn(s, c)[|SplitOn(s, c)| - 1], c)
  {
    if s != [] {
      var t := s[1..];
      var parts := SplitOn(s, c);
      var rest := SplitOn(t, c);
      assert parts == if s[0] == c then [""] + rest else [[s[0]] + rest[0]] + rest[1..];
      var q := rest[|rest| - 1];
      SplitOnLastSuffix(t, c);
      var p := parts[|parts| - 1];
      assert t[|t| - |q|..] == s[|s| - |q|..];
      if s[0] != c && |rest| == 1 {
        assert forall i :: 0 <= i < |t| ==> t[i] != c;
        assert q == t;
        assert p == [s[0]] + t == s;
        assert s[|s| - |p|..] == s;
      } else {
        assert p == q;
        if |q| < |t| {
          assert s[|s| - |q| - 1] == t[|t| - |q| - 1];
        }
      }
      assert SuffixAfter(s, p, c);
    }
  }

  /** Splitting a joined list gives the list back when no part holds the separator. */
  lemma {:induction false} SplitJoin(parts: seq<string>, c: char)
    requires |parts| >= 1
    requires forall k :: 0 <= k < |parts| ==> c !in parts[k]
    ensures SplitOn(Join(parts, c), c) == parts
  {
    if |parts| == 1 {
      SplitOnNoSeparator(parts[0], c);
    } else {
      SplitJoin(parts[1..], c);
      SplitOnCut(parts[0], Join(parts[1..], c), c);
      assert [parts[0]] + parts[1..] == parts;
    }
  }

  lemma {:induction false} SplitMaxNoSeparator(s: string, c: char, maxsplit: nat)
    requires c !in s
    ensures SplitMax(s, c, maxsplit) == [s]
  {
    if s != [] {
      SplitMaxNoSeparator(s[1..], c, maxsplit);
      assert [s[0]] + s[1..] == s;
    }
  }

  /** More than one part means the separator occurs. */
  lemma SplitMaxSeparator(s: string, c: char, maxsplit: nat)
    ensures |SplitMax(s, c, maxsplit)| > 1 ==> c in s
  {
    if c !in s {
      SplitMaxNoSeparator(s, c, maxsplit);
    }
  }

  lemma {:induction false} SplitMaxCut(a: string, b: string, c: char, maxsplit: nat)
    requires c !in a && maxsplit > 0
    ensures SplitMax(a + [c] + b, c, maxsplit) == [a] + SplitMax(b, c, maxsplit - 1)
  {
    if a == [] {
      assert a + [c] + b == [c] + b;
      assert ([c] + b)[1..] == b;
    } else {
      SplitMaxCut(a[1..], b, c, maxsplit);
      assert (a + [c] + b)[1..] == a[1..] + [c] + b;
      assert [a[0]] + a[1..] == a;
    }
  }

  /** `s.isdigit()`, ASCII digits only: false on the empty string. */
  predicate IsDigits(s: string) {
    |s| > 0 && forall i :: 0 <= i < |s| ==> IsDigit(s[i])
  }

  function DigitValue(c: char): nat
    requires IsDigit(c)
  {
    (c as int) - ('0' as int)
  }

  function DigitChar(d: nat): (c: char)
    requires d < 10
    ensures IsDigit(c) && DigitValue(c) == d
  {
    ('0' as int + d) as char
  }

  /** The decimal value of a string of digits (leading zeros allowed). */
  function DigitsValue(s: string): nat
    requires forall i :: 0 <= i < |s| ==> IsDigit(s[i])
  {
    if s == [] then 0 else 10 * DigitsValue(s[..|s| - 1]) + DigitValue(s[|s| - 1])
  }

  /** `int(s)` under the strict grammar: an optional '+' or '-', then digits. */
  function ParseInt(s: string): Option<int>
  {
    if IsDigits(s) then Some(DigitsValue(s))
    else if |s| >= 2 && (s[0] == '-' || s[0] == '+') && IsDigits(s[1..]) then
      var v: int := DigitsValue(s[1..]);
      Some(if s[0] == '-' then -v else v)
    else None
  }

  /** Only a sign or digits can be read as an integer, so a token holding a
      space, a comma or a colon never parses. */
  lemma ParseIntAlphabet(s: string)
    requires ParseInt(s).Some?
    ensures s != []
    ensures forall i :: 0 <= i < |s| ==> IsDigit(s[i]) || (i == 0 && (s[i] == '-' || s[i] == '+'))
  {
  }

  /** Decimal digits of a natural number, without leading zeros. */
  function ShowNat(n: nat): (s: string)
    ensures IsDigits(s)
    ensures |s| > 1 ==> s[0] != '0'
  {
    if n < 10 then [DigitChar(n)] else ShowNat(n / 10) + [DigitChar(n % 10)]
  }

  /** `std::to_string(n)` / Python `str(n)`: a '-' for negatives, then digits. */
  function ShowInt(n: int): (s: string)
    ensures s != []
    ensures forall i :: 0 <= i < |s| ==> IsDigit(s[i]) || (i == 0 && s[i] == '-')
  {
    if n < 0 then "-" + ShowNat(-n) else ShowNat(n)
  }

  lemma {:induction false} ShowNatValue(n: nat)
    ensures DigitsValue(ShowNat(n)) == n
  {
    if n >= 10 {
      ShowNatValue(n / 10);
      var s := ShowNat(n);
      assert s[..|s| - 1] == ShowNat(n / 10);
    }
  }

  /** Reading back a printed integer gives the integer: `int(str(n)) == n`. */
  lemma ParseShow(n: int)
    ensures ParseInt(ShowInt(n)) == Some(n)
  {
    if n < 0 {
      ShowNatValue(-n);
      var s := ShowInt(n);
      assert s[1..] == ShowNat(-n);
      assert !IsDigit(s[0]);
    } else {
      ShowNatValue(n);
    }
  }

  lemma {:induction false} NumericAll(s: string)
    requires forall i :: 0 <= i < |s| ==> IsDigit(s[i]) || s[i] == '-'
    ensures Numeric(s)
  {
    if s != [] {
      NumericAll(s[1..]);
    }
  }

  lemma ShowIntNumeric(n: int)
    ensures Numeric(ShowInt(n))
  {
    NumericAll(ShowInt(n));
  }

  /** `list(map(int, tokens))`: fails on the first token that is not an integer. */
  function ParseAll(tokens: seq<string>): (r: Result<seq<int>, string>)
    ensures r.Success? ==> |r.value| == |tokens|
    ensures r.Success? <==> forall k :: 0 <= k < |tokens| ==> ParseInt(tokens[k]).Some?
    ensures r.Success? ==> forall k :: 0 <= k < |tokens| ==> r.value[k] == ParseInt(tokens[k]).value
    ensures r.Failure? ==> ParseInt(r.error).None? && r.error in tokens
  {
    if tokens == [] then Success([])
    else match ParseInt(tokens[0])
      case None => Failure(tokens[0])
      case Some(v) =>
        var rest := ParseAll(tokens[1..]);
        if rest.Failure? then rest else Success([v] + rest.value)
  }

  /** ASCII lower case. */
  function Lower(s: string): (r: string)
    ensures |r| == |s|
    ensures forall i :: 0 <= i < |s| && !('A' <= s[i] <= 'Z') ==> r[i] == s[i]
  {
    seq(|s|, i requires 0 <= i < |s| => if 'A' <= s[i] <= 'Z' then (s[i] as int + 32) as char else s[i])
  }

  /** `s` without one leading sign. */
  function Unsigned(s: string): (r: string)
    ensures r == s || (s != [] && r == s[1..])
  {
    if s != [] && (s[0] == '+' || s[0] == '-') then s[1..] else s
  }

  /** The digits of a decimal number around an optional point: `12`, `12.`,
      `12.5` or `.5`. */
  predicate Mantissa(m: string) {
    var p := SplitOn(m, '.');
    (|p| == 1 && IsDigits(m)) ||
    (|p| == 2 && ((IsDigits(p[0]) && (p[1] == [] || IsDigits(p[1]))) || (p[0] == [] && IsDigits(p[1]))))
  }

  /** `float(s)` succeeds: an optional sign, then `inf`, `infinity` or `nan`
      in any case, or a mantissa with an optional exponent `e` or `E`,
      itself optionally signed. */
  predicate FloatToken(s: string) {
    var t := Lower(Unsigned(s));
    t == "inf" || t == "infinity" || t == "nan" ||
    (var p := SplitOn(t, 'e');
     (|p| == 1 && Mantissa(t)) || (|p| == 2 && Mantissa(p[0]) && IsDigits(Unsigned(p[1]))))
  }

  /** Every printed integer reads as a float. */
  lemma ShowIntFloat(n: int)
    ensures FloatToken(ShowInt(n))
  {
    var s := ShowInt(n);
    var u := Unsigned(s);
    assert u == ShowNat(if n < 0 then -n else n) by {
      if n < 0 {
        assert s[1..] == ShowNat(-n);
      }
    }
    var t := Lower(u);
    assert t == u;
    assert 'e' !in t && '.' !in t;
    SplitOnNoSeparator(t, 'e');
    SplitOnNoSeparator(t, '.');
  }

  /** Printing every integer and reading the tokens back is the identity. */
  lemma {:induction false} ParseAllShow(xs: seq<int>)
    ensures ParseAll(Map(xs)) == Success(xs)
  {
    if xs != [] {
      assert Map(xs)[1..] == Map(xs[1..]);
      ParseShow(xs[0]);
      ParseAllShow(xs[1..]);
      assert [xs[0]] + xs[1..] == xs;
    }
  }

  /** `[str(x) for x in xs]` */
  function Map(xs: seq<int>): (r: seq<string>)
    ensures |r| == |xs|
    ensures forall k :: 0 <= k < |xs| ==> r[k] == ShowInt(xs[k])
  {
    if xs == [] then [] else [ShowInt(xs[0])] + Map(xs[1..])
  }
}
