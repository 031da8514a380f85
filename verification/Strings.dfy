/** The parts of Go's strings and strconv packages that buildozer's identifiers depend on. */
module Strings {
  import opened Wrappers

  // ---------- Split and Join on a one-character separator ----------

  /** strings.Join(parts, sep). */
  function Join(parts: seq<string>, sep: char): string {
    if |parts| == 0 then ""
    else if |parts| == 1 then parts[0]
    else parts[0] + [sep] + Join(parts[1..], sep)
  }

  ghost predicate SeparatorFree(parts: seq<string>, sep: char) {
    forall i :: 0 <= i < |parts| ==> sep !in parts[i]
  }

  /** strings.Split(s, sep): at least one part, none holding the separator, joining back to s. */
  function Split(s: string, sep: char): (parts: seq<string>)
    ensures |parts| >= 1
    ensures SeparatorFree(parts, sep)
    ensures Join(parts, sep) == s
  {
    if s == [] then [""]
    else
      var rest := Split(s[1..], sep);
      if s[0] == sep then
        assert ([""] + rest)[1..] == rest;
        [""] + rest
      else
        assert ([[s[0]] + rest[0]] + rest[1..])[1..] == rest[1..];
        [[s[0]] + rest[0]] + rest[1..]
  }

  lemma {:induction false} SplitSkipsWord(w: string, s: string, sep: char)
    requires sep !in w
    ensures Split(w + [sep] + s, sep) == [w] + Split(s, sep)
  {
    var t := w + [sep] + s;
    if w == "" {
      assert t[1..] == s;
    } else {
      assert t[1..] == w[1..] + [sep] + s;
      SplitSkipsWord(w[1..], s, sep);
      assert [w[0]] + w[1..] == w;
    }
  }

  lemma {:induction false} SplitWord(w: string, sep: char)
    requires sep !in w
    ensures Split(w, sep) == [w]
  {
    if w != "" {
      SplitWord(w[1..], sep);
      assert [w[0]] + w[1..] == w;
    }
  }

  /** Split undoes Join on any non-empty list of separator-free parts. */
  lemma {:induction false} SplitOfJoin(parts: seq<string>, sep: char)
    requires |parts| >= 1
    requires SeparatorFree(parts, sep)
    ensures Split(Join(parts, sep), sep) == parts
  {
    if |parts| == 1 {
      SplitWord(parts[0], sep);
    } else {
      SplitSkipsWord(parts[0], Join(parts[1..], sep), sep);
      SplitOfJoin(parts[1..], sep);
    }
  }

  lemma {:induction false} JoinSnoc(parts: seq<string>, last: string, sep: char)
    requires |parts| >= 1
    ensures Join(parts + [last], sep) == Join(parts, sep) + [sep] + last
  {
    if |parts| > 1 {
      assert (parts + [last])[1..] == parts[1..] + [last];
      JoinSnoc(parts[1..], last, sep);
    }
  }

  /** Two separator-free lists that join to the same text are the same list. */
  lemma JoinInjective(a: seq<string>, b: seq<string>, sep: char)
    requires |a| >= 1 && |b| >= 1
    requires SeparatorFree(a, sep) && SeparatorFree(b, sep)
    requires Join(a, sep) == Join(b, sep)
    ensures a == b
  {
    SplitOfJoin(a, sep);
    SplitOfJoin(b, sep);
  }

  /** Splitting distributes over a separator. */
  lemma {:induction false} SplitConcat(a: string, b: string, sep: char)
    ensures Split(a + [sep] + b, sep) == Split(a, sep) + Split(b, sep)
  {
    var t := a + [sep] + b;
    if a == "" {
      assert t[1..] == b;
    } else {
      assert t[1..] == a[1..] + [sep] + b;
      SplitConcat(a[1..], b, sep);
    }
  }

  /** Joining never loses a separation: equally many parts come back only if none held one. */
  lemma {:induction false} SplitOfJoinCount(parts: seq<string>, sep: char)
    requires |parts| >= 1
    ensures |Split(Join(parts, sep), sep)| >= |parts|
    ensures |Split(Join(parts, sep), sep)| == |parts| ==> SeparatorFree(parts, sep)
  {
    if |parts| == 1 {
      SplitFreeIffOne(parts[0], sep);
    } else {
      SplitConcat(parts[0], Join(parts[1..], sep), sep);
      SplitOfJoinCount(parts[1..], sep);
      SplitFreeIffOne(parts[0], sep);
      assert parts == [parts[0]] + parts[1..];
    }
  }

  lemma SplitFreeIffOne(w: string, sep: char)
    ensures |Split(w, sep)| == 1 <==> sep !in w
  {
    if sep !in w {
      SplitWord(w, sep);
    }
    assert |Split(w, sep)| == 1 ==> Join(Split(w, sep), sep) == Split(w, sep)[0];
  }

  /** A list that joins to the same text as an equally long separator-free list is that list. */
  lemma JoinDetermines(a: seq<string>, b: seq<string>, sep: char)
    requires |a| == |b| >= 1 && SeparatorFree(b, sep)
    requires Join(a, sep) == Join(b, sep)
    ensures a == b
  {
    SplitOfJoin(b, sep);
    SplitOfJoinCount(a, sep);
    JoinInjective(a, b, sep);
  }

  // ---------- Prefixes and suffixes ----------

  predicate HasPrefix(s: string, p: string) { |p| <= |s| && s[..|p|] == p }

  predicate HasSuffix(s: string, p: string) { |p| <= |s| && s[|s| - |p|..] == p }

  // ---------- Decimal numerals ----------

  const UINT32_LIMIT: nat := 0x1_0000_0000

  predicate IsDigit(c: char) { '0' <= c <= '9' }

  ghost predicate AllDigits(s: string) { forall i :: 0 <= i < |s| ==> IsDigit(s[i]) }

  function DigitValue(c: char): (d: nat)
    requires IsDigit(c)
    ensures d < 10
  {
    (c as int) - ('0' as int)
  }

  function DigitChar(d: nat): (c: char)
    requires d < 10
    ensures IsDigit(c) && DigitValue(c) == d
  {
    ((('0' as int) + d) as char)
  }

  /** The number a digit string denotes, or None at the first character that is no digit. */
  function DecimalValue(s: string): (r: Option<nat>)
    ensures r.Some? <==> AllDigits(s)
  {
    if s == "" then Some(0)
    else
      var last := s[|s| - 1];
      var front := DecimalValue(s[..|s| - 1]);
      if front.Some? && IsDigit(last) then Some(10 * front.value + DigitValue(last)) else None
  }

  /** strconv.ParseUint(s, 10, 32): an error for empty text, a non-digit, or a value beyond uint32. */
  function ParseUint32(s: string): (r: Option<nat>)
    ensures r.Some? ==> r.value < UINT32_LIMIT && s != "" && AllDigits(s)
  {
    if s == "" then None
    else
      var v := DecimalValue(s);
      if v.Some? && v.value < UINT32_LIMIT then v else None
  }

  /** strconv.FormatUint(n, 10). */
  function FormatUint(n: nat): (s: string)
    ensures s != "" && AllDigits(s)
    ensures DecimalValue(s) == Some(n)
  {
    if n < 10 then
      assert [DigitChar(n)][..0] == "";
      [DigitChar(n)]
    else
      var front := FormatUint(n / 10);
      assert (front + [DigitChar(n % 10)])[..|front|] == front;
      front + [DigitChar(n % 10)]
  }

  /** Printing then parsing returns the number, exactly when it fits 32 bits. */
  lemma ParseOfFormat(n: nat)
    ensures ParseUint32(FormatUint(n)) == if n < UINT32_LIMIT then Some(n) else None
  {
  }

  /** A numeral as FormatUint prints it: digits, no superfluous leading zero, within uint32. */
  ghost predicate CanonicalUint32(s: string) {
    ParseUint32(s).Some? && (|s| > 1 ==> s[0] != '0')
  }

  lemma {:induction false} PositiveWithoutLeadingZero(s: string)
    requires s != "" && AllDigits(s) && s[0] != '0'
    ensures DecimalValue(s).value > 0
  {
    if |s| > 1 {
      PositiveWithoutLeadingZero(s[..|s| - 1]);
    }
  }

  lemma DigitCharOfValue(c: char)
    requires IsDigit(c)
    ensures DigitChar(DigitValue(c)) == c
  {
  }

  lemma LastDigit(v: nat, d: nat)
    requires d < 10
    ensures (10 * v + d) / 10 == v && (10 * v + d) % 10 == d
  {
  }

  lemma {:induction false} FormatKeepsNumeral(s: string)
    requires s != "" && AllDigits(s) && (|s| > 1 ==> s[0] != '0')
    ensures FormatUint(DecimalValue(s).value) == s
  {
    var front, last := s[..|s| - 1], s[|s| - 1];
    assert s == front + [last];
    DigitCharOfValue(last);
    if |s| == 1 {
      assert DecimalValue(s).value == DigitValue(last) by { assert front == ""; }
    } else {
      PositiveWithoutLeadingZero(front);
      FormatKeepsNumeral(front);
      LastDigit(DecimalValue(front).value, DigitValue(last));
    }
  }

  lemma {:induction false} FormatHasNoLeadingZero(n: nat)
    ensures |FormatUint(n)| > 1 ==> FormatUint(n)[0] != '0'
  {
    if n >= 10 {
      FormatHasNoLeadingZero(n / 10);
      assert DecimalValue("0") == Some(0) by { assert "0"[..0] == ""; }
    }
  }

  /** Parsing then printing gives the text back exactly when it is canonical. */
  lemma FormatOfParse(s: string)
    requires ParseUint32(s).Some?
    ensures FormatUint(ParseUint32(s).value) == s <==> CanonicalUint32(s)
  {
    if CanonicalUint32(s) {
      FormatKeepsNumeral(s);
    } else {
      FormatHasNoLeadingZero(ParseUint32(s).value);
    }
  }
}
