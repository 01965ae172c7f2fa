/** Helpers shared by the solvers and the harness: optional values, results,
    and the handful of Python string operations the program relies on
    (`str.strip`, `str.split`, `str.join`, `str(int)`, `int(str)`, `in`). */
module Common {

  datatype Option<T> = None | Some(value: T)

  datatype Result<T, E> = Ok(value: T) | Err(error: E)

  /** The characters for which Python's `str.isspace` holds. */
  predicate IsSpace(c: char) {
    var n := c as int;
    (9 <= n <= 13) || (28 <= n <= 32) || n == 133 || n == 160 || n == 5760
    || (8192 <= n <= 8202) || n == 8232 || n == 8233 || n == 8239 || n == 8287 || n == 12288
  }

  predicate IsDigit(c: char) {
    '0' <= c <= '9'
  }

  predicate AllDigits(s: string) {
    forall i :: 0 <= i < |s| ==> IsDigit(s[i])
  }

  // ---------------------------------------------------------------------
  // str.strip()
  // ---------------------------------------------------------------------

  /** `s.lstrip()`: drops the leading whitespace (see `StripLeftMeaning`). */
  function StripLeft(s: string): (r: string)
    ensures |r| <= |s|
  {
    if s != [] && IsSpace(s[0]) then StripLeft(s[1..]) else s
  }

  /** `s.rstrip()`: drops the trailing whitespace (see `StripRightMeaning`). */
  function StripRight(s: string): (r: string)
    ensures |r| <= |s|
  {
    if s != [] && IsSpace(s[|s| - 1]) then StripRight(s[..|s| - 1]) else s
  }

  /** `s.strip()`. */
  function Strip(s: string): (r: string)
    ensures |r| <= |s|
  {
    StripRight(StripLeft(s))
  }

  /** `lstrip` drops the leading whitespace, and only that. */
  lemma {:induction false} StripLeftMeaning(s: string)
    ensures var r := StripLeft(s);
      r == s[|s| - |r|..] && (r == [] || !IsSpace(r[0])) &&
      forall i :: 0 <= i < |s| - |r| ==> IsSpace(s[i])
  {
    if s != [] && IsSpace(s[0]) {
      StripLeftMeaning(s[1..]);
      var r := StripLeft(s);
      forall i | 0 <= i < |s| - |r| ensures IsSpace(s[i]) {
        if i > 0 {
          assert s[i] == s[1..][i - 1];
        }
      }
    }
  }

  /** `rstrip` drops the trailing whitespace, and only that. */
  lemma {:induction false} StripRightMeaning(s: string)
    ensures var r := StripRight(s);
      r == s[..|r|] && (r == [] || !IsSpace(r[|r| - 1])) &&
      forall i :: |r| <= i < |s| ==> IsSpace(s[i])
  {
    if s != [] && IsSpace(s[|s| - 1]) {
      StripRightMeaning(s[..|s| - 1]);
      var r := StripRight(s);
      forall i | |r| <= i < |s| ensures IsSpace(s[i]) {
        if i < |s| - 1 {
          assert s[i] == s[..|s| - 1][i];
        }
      }
    }
  }

  /** `strip` leaves a string that neither starts nor ends with whitespace. */
  lemma StripMeaning(s: string)
    ensures var r := Strip(s);
      r == [] || (!IsSpace(r[0]) && !IsSpace(r[|r| - 1]))
  {
    var t := StripLeft(s);
    StripLeftMeaning(s);
    StripRightMeaning(t);
    var r := StripRight(t);
    if r != [] {
      assert r[0] == t[0];
    }
  }

  /** `[x.strip() for x in lines]`: one stripped line per line, in order. */
  function StripLines(lines: seq<string>): (r: seq<string>)
    ensures |r| == |lines| && forall k :: 0 <= k < |lines| ==> r[k] == Strip(lines[k])
    ensures forall k :: 0 <= k < |r| ==> r[k] == [] || (!IsSpace(r[k][0]) && !IsSpace(r[k][|r[k]| - 1]))
  {
    StripEach(lines);
    seq(|lines|, k requires 0 <= k < |lines| => Strip(lines[k]))
  }

  lemma StripEach(lines: seq<string>)
    ensures forall k :: 0 <= k < |lines| ==>
      Strip(lines[k]) == [] || (!IsSpace(Strip(lines[k])[0]) && !IsSpace(Strip(lines[k])[|Strip(lines[k])| - 1]))
  {
    forall k | 0 <= k < |lines| ensures
      Strip(lines[k]) == [] || (!IsSpace(Strip(lines[k])[0]) && !IsSpace(Strip(lines[k])[|Strip(lines[k])| - 1]))
    {
      StripMeaning(lines[k]);
    }
  }

  lemma StripNoSpace(s: string)
    requires forall i :: 0 <= i < |s| ==> !IsSpace(s[i])
    ensures Strip(s) == s
  {
    assert StripLeft(s) == s;
    assert StripRight(s) == s;
  }

  /** A string that neither starts nor ends with whitespace is its own strip. */
  lemma StripEnds(s: string)
    requires s == [] || (!IsSpace(s[0]) && !IsSpace(s[|s| - 1]))
    ensures Strip(s) == s
  {
    if s != [] {
      assert StripLeft(s) == s;
      assert StripRight(s) == s;
    }
  }

  /** Stripping twice is stripping once. */
  lemma StripIdempotent(s: string)
    ensures Strip(Strip(s)) == Strip(s)
  {
    StripMeaning(s);
    StripEnds(Strip(s));
  }

  // ---------------------------------------------------------------------
  // str.split(sep) and sep.join(parts) for a one-character separator
  // ---------------------------------------------------------------------

  /** `s.split(sep)`: the pieces between the occurrences of `sep`; never empty. */
  function Split(s: string, sep: char): (r: seq<string>)
    ensures |r| >= 1
    ensures forall i :: 0 <= i < |r| ==> sep !in r[i]
  {
    if s == [] then [""]
    else
      var rest := Split(s[1..], sep);
      if s[0] == sep then [""] + rest
      else [[s[0]] + rest[0]] + rest[1..]
  }

  /** `sep.join(parts)`. */
  function Join(parts: seq<string>, sep: char): string {
    if parts == [] then ""
    else if |parts| == 1 then parts[0]
    else parts[0] + [sep] + Join(parts[1..], sep)
  }

  lemma {:induction false} JoinSplit(s: string, sep: char)
    ensures Join(Split(s, sep), sep) == s
  {
    if s != [] {
      var rest := Split(s[1..], sep);
      JoinSplit(s[1..], sep);
      if s[0] != sep {
        var r := Split(s, sep);
        assert r == [[s[0]] + rest[0]] + rest[1..];
        if |rest| == 1 {
          assert Join(r, sep) == [s[0]] + rest[0];
        } else {
          assert r[1..] == rest[1..];
          assert Join(rest, sep) == rest[0] + [sep] + Join(rest[1..], sep);
          assert Join(r, sep) == [s[0]] + rest[0] + [sep] + Join(rest[1..], sep);
        }
      }
    }
  }

  lemma {:induction false} SplitWord(w: string, t: string, sep: char)
    requires sep !in w
    ensures Split(w + [sep] + t, sep) == [w] + Split(t, sep)
  {
    if w != [] {
      assert (w + [sep] + t)[1..] == w[1..] + [sep] + t;
      SplitWord(w[1..], t, sep);
      assert [w[0]] + w[1..] == w;
    } else {
      assert w + [sep] + t == [sep] + t;
    }
  }

  lemma {:induction false} SplitNoSep(w: string, sep: char)
    requires sep !in w
    ensures Split(w, sep) == [w]
  {
    if w != [] {
      SplitNoSep(w[1..], sep);
      assert [w[0]] + w[1..] == w;
    }
  }

  /** Splitting a join recovers the parts, provided no part holds the separator. */
  lemma {:induction false} SplitJoin(parts: seq<string>, sep: char)
    requires |parts| >= 1
    requires forall i :: 0 <= i < |parts| ==> sep !in parts[i]
    ensures Split(Join(parts, sep), sep) == parts
  {
    if |parts| == 1 {
      SplitNoSep(parts[0], sep);
    } else {
      SplitJoin(parts[1..], sep);
      SplitWord(parts[0], Join(parts[1..], sep), sep);
      assert [parts[0]] + parts[1..] == parts;
    }
  }

  // ---------------------------------------------------------------------
  // str.split() with no argument: the maximal runs of non-whitespace
  // ---------------------------------------------------------------------

  /** The longest prefix of `s` free of whitespace. */
  function Word(s: string): (w: string)
    ensures |w| <= |s| && w == s[..|w|]
    ensures forall i :: 0 <= i < |w| ==> !IsSpace(w[i])
    ensures |w| == |s| || IsSpace(s[|w|])
    ensures s != [] && !IsSpace(s[0]) ==> w != []
  {
    if s == [] || IsSpace(s[0]) then [] else [s[0]] + Word(s[1..])
  }

  predicate IsField(w: string) {
    w != [] && forall j :: 0 <= j < |w| ==> !IsSpace(w[j])
  }

  /** `s.split()`: the whitespace is skipped and every maximal run of other
      characters is a field, non-empty and free of whitespace. */
  function Fields(s: string): (r: seq<string>)
    ensures forall i :: 0 <= i < |r| ==> IsField(r[i])
    decreases |s|
  {
    if s == [] then []
    else if IsSpace(s[0]) then Fields(s[1..])
    else
      var w := Word(s);
      assert IsField(w);
      [w] + Fields(s[|w|..])
  }

  // ---------------------------------------------------------------------
  // str(int) and int(str)
  // ---------------------------------------------------------------------

  function DigitChar(d: nat): (c: char)
    requires d < 10
    ensures IsDigit(c)
  {
    ('0' as int + d) as char
  }

  /** The decimal value of a string of digits. */
  function DigitsValue(s: string): nat
    requires AllDigits(s)
  {
    if s == [] then 0 else 10 * DigitsValue(s[..|s| - 1]) + (s[|s| - 1] as int - '0' as int)
  }

  /** `str(n)` for a non-negative `n`: decimal digits without a leading zero. */
  function NatToStr(n: nat): (r: string)
    ensures r != [] && AllDigits(r)
    ensures r[0] == '0' ==> n == 0 && |r| == 1
  {
    if n < 10 then [DigitChar(n)] else NatToStr(n / 10) + [DigitChar(n % 10)]
  }

  /** `str(i)`. */
  function IntToStr(i: int): (r: string)
    ensures r != []
  {
    if i < 0 then "-" + NatToStr(-i) else NatToStr(i)
  }

  lemma {:induction false} NatToStrValue(n: nat)
    ensures DigitsValue(NatToStr(n)) == n
  {
    if n >= 10 {
      NatToStrValue(n / 10);
      var r := NatToStr(n);
      assert r[..|r| - 1] == NatToStr(n / 10);
    }
  }

  /** `int(s)`: surrounding whitespace is ignored, then an optional sign and
      at least one decimal digit. */
  function ParseInt(s: string): Option<int> {
    ParseSigned(Strip(s))
  }

  /** An optional sign followed by at least one decimal digit. */
  function ParseSigned(t: string): (r: Option<int>)
    ensures r.Some? ==> t != []
  {
    if t != [] && (t[0] == '-' || t[0] == '+') then
      var d := t[1..];
      if d != [] && AllDigits(d) then
        var v: int := DigitsValue(d);
        Some(if t[0] == '-' then -v else v)
      else None
    else if t != [] && AllDigits(t) then Some(DigitsValue(t))
    else None
  }

  lemma DigitNotSpace(c: char)
    requires IsDigit(c)
    ensures !IsSpace(c)
  {
  }

  lemma DigitsNoSpace(d: string)
    requires AllDigits(d)
    ensures forall k :: 0 <= k < |d| ==> !IsSpace(d[k])
  {
    forall k | 0 <= k < |d| ensures !IsSpace(d[k]) {
      DigitNotSpace(d[k]);
    }
  }

  lemma SignedNoSpace(d: string)
    requires AllDigits(d)
    ensures forall k :: 0 <= k < |"-" + d| ==> !IsSpace(("-" + d)[k])
  {
    DigitsNoSpace(d);
    var s := "-" + d;
    forall k | 0 <= k < |s| ensures !IsSpace(s[k]) {
      if k > 0 {
        assert s[k] == d[k - 1];
      }
    }
  }

  /** `int(d)` for a non-empty string of digits is its decimal value. */
  lemma ParseDigits(d: string)
    requires d != [] && AllDigits(d)
    ensures ParseInt(d) == Some(DigitsValue(d))
  {
    DigitsNoSpace(d);
    StripNoSpace(d);
  }

  lemma ParseNatToStr(n: nat)
    ensures ParseInt(NatToStr(n)) == Some(n)
  {
    var d := NatToStr(n);
    NatToStrValue(n);
    DigitsNoSpace(d);
    StripNoSpace(d);
  }

  lemma ParseSignedMinus(d: string)
    requires d != [] && AllDigits(d)
    ensures ParseSigned("-" + d) == Some(-(DigitsValue(d) as int))
  {
    var s := "-" + d;
    assert s[1..] == d;
  }

  lemma StripSigned(d: string)
    requires d != [] && AllDigits(d)
    ensures ParseInt("-" + d) == ParseSigned("-" + d)
  {
    SignedNoSpace(d);
    StripNoSpace("-" + d);
  }

  lemma ParseNegToStr(n: nat)
    ensures ParseInt("-" + NatToStr(n)) == Some(-(n as int))
  {
    var d := NatToStr(n);
    NatToStrValue(n);
    ParseSignedMinus(d);
    StripSigned(d);
  }

  /** `int(str(i)) == i`. */
  lemma ParseIntToStr(i: int)
    ensures ParseInt(IntToStr(i)) == Some(i)
  {
    var n: nat := if i < 0 then -i else i;
    var d := NatToStr(n);
    if i < 0 {
      ParseNegToStr(n);
      assert IntToStr(i) == "-" + d;
    } else {
      ParseNatToStr(n);
      assert IntToStr(i) == d;
    }
  }

  // ---------------------------------------------------------------------
  // Substrings, sums, subsequences
  // ---------------------------------------------------------------------

  /** Python's `pat in text`. */
  predicate Contains(text: string, pat: string)
    decreases |text|
  {
    pat <= text || (text != [] && Contains(text[1..], pat))
  }

  lemma {:induction false} ContainsAt(text: string, pat: string, i: nat)
    requires i + |pat| <= |text| && text[i..i + |pat|] == pat
    ensures Contains(text, pat)
  {
    if i > 0 {
      assert text[1..][i - 1..i - 1 + |pat|] == pat;
      ContainsAt(text[1..], pat, i - 1);
    }
  }

  function Sum(s: seq<int>): int {
    if s == [] then 0 else s[0] + Sum(s[1..])
  }

  lemma {:induction false} SumAppend(a: seq<int>, b: seq<int>)
    ensures Sum(a + b) == Sum(a) + Sum(b)
  {
    if a != [] {
      assert (a + b)[0] == a[0] && (a + b)[1..] == a[1..] + b;
      SumAppend(a[1..], b);
    } else {
      assert a + b == b;
    }
  }

  /** `sum` over values each of which may be an error: the first error
      ends the sum. */
  function SumOptions(vs: seq<Option<int>>): Option<int> {
    if vs == [] then Some(0)
    else
      var init := SumOptions(vs[..|vs| - 1]);
      var last := vs[|vs| - 1];
      if init.Some? && last.Some? then Some(init.value + last.value) else None
  }

  /** The sum exists exactly when every value does. */
  lemma {:induction false} SumOptionsDefined(vs: seq<Option<int>>)
    ensures SumOptions(vs).Some? <==> forall k :: 0 <= k < |vs| ==> vs[k].Some?
  {
    if vs != [] {
      var init := vs[..|vs| - 1];
      SumOptionsDefined(init);
      assert forall k :: 0 <= k < |init| ==> init[k] == vs[k];
    }
  }

  /** The numbers held by a sequence of values; an error stands as 0, which
      matters only where no value is an error. */
  function Values(vs: seq<Option<int>>): (r: seq<int>)
    ensures |r| == |vs| && forall k :: 0 <= k < |vs| && vs[k].Some? ==> vs[k] == Some(r[k])
  {
    seq(|vs|, k requires 0 <= k < |vs| => if vs[k].Some? then vs[k].value else 0)
  }

  /** Without errors, the sum is the sum of the numbers. */
  lemma {:induction false} SumOptionsValues(vs: seq<Option<int>>)
    requires forall k :: 0 <= k < |vs| ==> vs[k].Some?
    ensures SumOptions(vs) == Some(Sum(Values(vs)))
  {
    if vs != [] {
      var init := vs[..|vs| - 1];
      assert forall k :: 0 <= k < |init| ==> init[k] == vs[k];
      SumOptionsValues(init);
      assert Values(vs) == Values(init) + [vs[|vs| - 1].value];
      SumAppend(Values(init), [vs[|vs| - 1].value]);
    }
  }

  /** One error anywhere makes the whole sum an error. */
  lemma SumOptionsNone(vs: seq<Option<int>>, k: nat)
    requires k < |vs| && vs[k].None?
    ensures SumOptions(vs).None?
  {
    SumOptionsDefined(vs);
  }

  /** One more value: an error ends the sum, a number is added to it. */
  lemma SumOptionsStep(vs: seq<Option<int>>, k: nat, total: int)
    requires k < |vs| && SumOptions(vs[..k]) == Some(total)
    ensures vs[k].Some? ==> SumOptions(vs[..k + 1]) == Some(total + vs[k].value)
  {
    assert vs[..k + 1][..k] == vs[..k];
  }

  /** `t` is obtained from `s` by deleting some characters. */
  predicate IsSubsequence<T(==)>(t: seq<T>, s: seq<T>)
    decreases |s|
  {
    if t == [] then true
    else if s == [] then false
    else (t[0] == s[0] && IsSubsequence(t[1..], s[1..])) || IsSubsequence(t, s[1..])
  }

  lemma {:induction false} SubsequenceRefl<T>(s: seq<T>)
    ensures IsSubsequence(s, s)
  {
    if s != [] {
      SubsequenceRefl(s[1..]);
    }
  }

  lemma {:induction false} SubsequenceTrans<T>(a: seq<T>, b: seq<T>, c: seq<T>)
    requires IsSubsequence(a, b) && IsSubsequence(b, c)
    ensures IsSubsequence(a, c)
    decreases |c|
  {
    if a != [] {
      assert b != [] && c != [];
      if IsSubsequence(b, c[1..]) {
        SubsequenceTrans(a, b, c[1..]);
      } else {
        assert b[0] == c[0] && IsSubsequence(b[1..], c[1..]);
        if a[0] == b[0] && IsSubsequence(a[1..], b[1..]) {
          SubsequenceTrans(a[1..], b[1..], c[1..]);
        } else {
          SubsequenceTrans(a, b[1..], c[1..]);
        }
      }
    }
  }

  /** Deleting the character at `i` leaves a subsequence. */
  lemma {:induction false} DeleteIsSubsequence<T>(s: seq<T>, i: nat)
    requires i < |s|
    ensures IsSubsequence(s[..i] + s[i + 1..], s)
  {
    var t := s[..i] + s[i + 1..];
    if i == 0 {
      assert t == s[1..];
      SubsequenceRefl(s[1..]);
      if t != [] {
        assert IsSubsequence(t, s[1..]);
      }
    } else {
      DeleteIsSubsequence(s[1..], i - 1);
      assert t[0] == s[0];
      assert t[1..] == s[1..][..i - 1] + s[1..][i..];
    }
  }
}
