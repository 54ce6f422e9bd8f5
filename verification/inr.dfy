/**
 * The `inr` template filter `format_inr` (app.py): a value is converted to a
 * number (anything that does not convert is returned as it came), its
 * integer part is written with commas meant to follow the Indian grouping
 * (the last three digits, then pairs), and two decimals are appended after
 * the rupee sign.
 *
 * Two things in the code as written keep the text from reading back as the
 * amount. In the grouping, each slice `rest[i - 2:i]` ends where its pair
 * should start: the first slice is always empty, so every integer part of
 * four or more characters starts with a comma; the last pair before the
 * final three digits is never shown; and when that leading part has an odd
 * length its first digit is not shown either (1234 shows as ",234",
 * 1234567 as ",12,567"). And the integer part is truncated while the
 * decimals are rounded, so 9.999 shows as 9.00. `FormatInr` models the code as written; `FormatInrIntended`
 * rounds first and groups from the right, and reads back as the amount
 * rounded to paise.
 */
module Inr {
  import opened Wrappers
  import opened Numbers
  import opened Slices

  const Rupee: char := '\U{20B9}'

  function DigitChar(d: int): (c: char)
    requires 0 <= d < 10
    ensures '0' <= c <= '9' && c as int == 48 + d
  {
    (48 + d) as char
  }

  predicate NoComma(s: string)
  {
    forall i :: 0 <= i < |s| ==> s[i] != ','
  }

  /** The decimal digits of a natural number, without leading zeros. */
  function DigitsOf(n: nat): (s: string)
    ensures |s| >= 1
  {
    if n < 10 then [DigitChar(n)] else DigitsOf(n / 10) + [DigitChar(n % 10)]
  }

  /** Every character of the decimal form is a digit. */
  lemma {:induction false} DigitsAreDigits(n: nat)
    ensures forall i :: 0 <= i < |DigitsOf(n)| ==> '0' <= DigitsOf(n)[i] <= '9'
  {
    if n >= 10 {
      DigitsAreDigits(n / 10);
    }
  }

  /** Python's `str` of an integer. */
  function IntStr(i: int): string
  {
    if i < 0 then "-" + DigitsOf(-i) else DigitsOf(i)
  }

  /** `[rest[i - 2:i] for i in range(start, len(rest), 2)]` from `i`. */
  function GroupsFrom(rest: string, i: int): seq<string>
    decreases |rest| - i
  {
    if i >= |rest| then [] else [Slice(rest, i - 2, i)] + GroupsFrom(rest, i + 2)
  }

  function Groups(rest: string): seq<string>
  {
    GroupsFrom(rest, |rest| % 2)
  }

  /** `sep.join(parts)`. */
  function Join(sep: string, parts: seq<string>): string
  {
    if parts == [] then ""
    else if |parts| == 1 then parts[0]
    else parts[0] + sep + Join(sep, parts[1..])
  }

  /** The grouping of the integer string `s`, as written. */
  function GroupInteger(s: string): string
  {
    var last3 := Slice(s, -3, |s|);
    var rest := Slice(s, 0, -3);
    if rest != "" then Join(",", Groups(rest)) + "," + last3 else last3
  }

  /** The two digits after the point of `f"{x:.2f}"`, rounding half to
      even on the exact value. */
  function Decimals(x: real): (d: string)
    ensures |d| == 2 && NoComma(d)
  {
    var cents := HalfEven(x * 100.0);
    CentsText((if cents < 0 then -cents else cents) % 100)
  }

  /** Two digits for a number of paise below 100. */
  function CentsText(c: nat): (d: string)
    requires c < 100
    ensures |d| == 2 && NoComma(d)
  {
    [DigitChar(c / 10), DigitChar(c % 10)]
  }

  /** What the filter renders: the value itself when it does not convert. */
  datatype Rendered<V> = Unchanged(value: V) | Formatted(text: string)

  /** `format_inr(value)`; `parsed` is the outcome of `float(value)`, `None`
      when that raises. */
  function FormatInr<V>(value: V, parsed: Option<real>): Rendered<V>
  {
    match parsed
    case None => Unchanged(value)
    case Some(x) => Formatted([Rupee] + GroupInteger(IntStr(Trunc(x))) + "." + Decimals(x))
  }

  /** Up to three characters are left without a comma. */
  lemma ShortUngrouped(s: string)
    requires |s| <= 3
    ensures GroupInteger(s) == s
  {
    assert Slice(s, -3, |s|) == s[0..|s|];
  }

  /** The first slice the comprehension takes is empty, whatever the
      length of `rest`. */
  lemma FirstGroupEmpty(rest: string)
    requires rest != ""
    ensures Groups(rest) == [] || Groups(rest)[0] == ""
  {
  }

  /** The joined pairs are empty or start with a comma. */
  lemma JoinLeadingComma(parts: seq<string>)
    requires parts == [] || parts[0] == ""
    ensures var j := Join(",", parts); j == "" || j[0] == ','
  {
    if |parts| >= 2 {
      assert Join(",", parts) == "" + "," + Join(",", parts[1..]);
    }
  }

  /** As written: the last three characters stay last, preceded by a comma
      once there are more than three; and the result then starts with a
      comma. */
  lemma GroupIntegerShape(s: string)
    requires |s| > 3
    ensures var g := GroupInteger(s);
            |g| >= 4 && g[|g| - 3..] == s[|s| - 3..] && g[|g| - 4] == ',' && g[0] == ','
  {
    var rest := Slice(s, 0, -3);
    assert rest == s[..|s| - 3];
    assert Slice(s, -3, |s|) == s[|s| - 3..];
    FirstGroupEmpty(rest);
    JoinLeadingComma(Groups(rest));
  }

  /** The rendered text starts with the rupee sign and ends with the point
      and two decimal digits; a value that does not convert comes back
      unchanged. */
  lemma FormatInrShape<V>(value: V, parsed: Option<real>)
    ensures parsed == None ==> FormatInr(value, parsed) == Unchanged(value)
    ensures parsed.Some? ==>
              var t := FormatInr(value, parsed).text;
              |t| >= 4 && t[0] == Rupee && t[|t| - 3] == '.' &&
              t[|t| - 2..] == Decimals(parsed.value)
  {
  }

  /** `s` with its commas removed. */
  function Uncomma(s: string): string
  {
    if s == [] then [] else (if s[0] == ',' then [] else [s[0]]) + Uncomma(s[1..])
  }

  lemma {:induction false} UncommaAppend(a: string, b: string)
    ensures Uncomma(a + b) == Uncomma(a) + Uncomma(b)
  {
    if a != [] {
      assert (a + b)[0] == a[0];
      assert (a + b)[1..] == a[1..] + b;
      UncommaAppend(a[1..], b);
    } else {
      assert a + b == b;
    }
  }

  lemma {:induction false} UncommaNoComma(s: string)
    requires NoComma(s)
    ensures Uncomma(s) == s
  {
    if s != [] {
      UncommaNoComma(s[1..]);
    }
  }

  /** As written, from the `i`-th position on: each slice `rest[i - 2:i]`
      ends where its pair should start, so together they show `rest` from
      `i - 2` up to, but not including, its last two characters. */
  lemma {:induction false} GroupsFromShow(rest: string, i: int)
    requires NoComma(rest) && 2 <= i <= |rest| && (|rest| - i) % 2 == 0
    ensures Uncomma(Join(",", GroupsFrom(rest, i))) == rest[i - 2..|rest| - 2]
    decreases |rest| - i
  {
    if i < |rest| {
      var g := Slice(rest, i - 2, i);
      assert g == rest[i - 2..i];
      assert NoComma(g) by {
        forall k | 0 <= k < |g|
          ensures g[k] != ','
        {
          assert g[k] == rest[i - 2 + k];
        }
      }
      UncommaNoComma(g);
      GroupsFromShow(rest, i + 2);
      var tail := GroupsFrom(rest, i + 2);
      if tail == [] {
        assert Join(",", GroupsFrom(rest, i)) == g;
      } else {
        assert Join(",", GroupsFrom(rest, i)) == g + "," + Join(",", tail);
        UncommaAppend(g + ",", Join(",", tail));
        UncommaAppend(g, ",");
      }
      assert rest[i - 2..|rest| - 2] == rest[i - 2..i] + rest[i..|rest| - 2];
    }
  }

  /** As written: the pairs show `rest` without its last two characters,
      and without its first one when its length is odd; a single character
      is not shown at all. */
  lemma GroupsShow(rest: string)
    requires NoComma(rest) && rest != ""
    ensures Uncomma(Join(",", Groups(rest))) == if |rest| < 2 then "" else rest[|rest| % 2..|rest| - 2]
  {
    var start := |rest| % 2;
    if |rest| >= 2 {
      var tail := GroupsFrom(rest, start + 2);
      assert Groups(rest) == [""] + tail;
      if tail == [] {
        assert Join(",", Groups(rest)) == "";
      } else {
        assert Join(",", Groups(rest)) == "" + "," + Join(",", tail);
        UncommaAppend(",", Join(",", tail));
        GroupsFromShow(rest, start + 2);
      }
    }
  }

  /** As written, a number of more than three characters shows its last
      three, and before them only what `GroupsShow` keeps of the rest: the
      last pair of the rest is lost, and with an odd-length rest its first
      character too. */
  lemma GroupIntegerShows(s: string)
    requires NoComma(s) && |s| > 3
    ensures var rest := s[..|s| - 3];
            Uncomma(GroupInteger(s))
              == (if |rest| < 2 then "" else rest[|rest| % 2..|rest| - 2]) + s[|s| - 3..]
  {
    var rest := s[..|s| - 3];
    var last3 := s[|s| - 3..];
    var j := Join(",", Groups(rest));
    assert GroupInteger(s) == j + "," + last3 by {
      assert Slice(s, 0, -3) == rest && Slice(s, -3, |s|) == last3;
    }
    NoCommaSlice(s, 0, |s| - 3);
    NoCommaSlice(s, |s| - 3, |s|);
    GroupsShow(rest);
    UncommaNoComma(last3);
    UncommaAppend(j + ",", last3);
    UncommaAppend(j, ",");
  }

  lemma NoCommaSlice(s: string, i: nat, k: nat)
    requires NoComma(s) && i <= k <= |s|
    ensures NoComma(s[i..k])
  {
    forall m | 0 <= m < k - i
      ensures s[i..k][m] != ','
    {
      assert s[i..k][m] == s[i + m];
    }
  }

  /** The value of a string of decimal digits. */
  function ReadDigits(s: string): int
  {
    if s == [] then 0 else ReadDigits(s[..|s| - 1]) * 10 + (s[|s| - 1] as int - 48)
  }

  /** The amount a reader takes from a text that has the rupee sign, an
      optionally signed integer part with commas and two decimals. */
  function ReadAmount(t: string): Option<real>
  {
    if |t| < 4 || t[0] != Rupee || t[|t| - 3] != '.' then None
    else Some(ReadBody(Uncomma(t[1..|t| - 3]), t[|t| - 2..]))
  }

  function ReadBody(body: string, decimals: string): real
  {
    var negative := body != [] && body[0] == '-';
    var amount := ReadDigits(if negative then body[1..] else body) as real + ReadDigits(decimals) as real / 100.0;
    if negative then -amount else amount
  }

  /** Reading the decimal form of `n` gives `n` back. */
  lemma {:induction false} ReadDigitsOf(n: nat)
    ensures ReadDigits(DigitsOf(n)) == n
  {
    var s := DigitsOf(n);
    if n < 10 {
      assert s[..0] == [];
    } else {
      assert s[..|s| - 1] == DigitsOf(n / 10);
      ReadDigitsOf(n / 10);
    }
  }

  lemma ReadCents(c: nat)
    requires c < 100
    ensures ReadDigits(CentsText(c)) == c
  {
    var d := CentsText(c);
    assert d[..1][..0] == [];
    assert d[..1] == [DigitChar(c / 10)];
    assert ReadDigits(d[..1]) == c / 10;
    assert ReadDigits(d) == ReadDigits(d[..1]) * 10 + c % 10;
  }

  /** Where the parts of a rendered text sit. */
  lemma RenderedParts(body: string, decimals: string)
    requires |decimals| == 2
    ensures var t := [Rupee] + body + "." + decimals;
            |t| == |body| + 4 && t[0] == Rupee && t[|t| - 3] == '.' &&
            t[1..|t| - 3] == body && t[|t| - 2..] == decimals
  {
  }

  /** The text splits into the rupee sign, the integer part, the point and
      the decimals. */
  lemma ReadSplit(body: string, decimals: string)
    requires |body| >= 1 && |decimals| == 2
    ensures ReadAmount([Rupee] + body + "." + decimals) == Some(ReadBody(Uncomma(body), decimals))
  {
    RenderedParts(body, decimals);
  }

  lemma DigitsOfExamples()
    ensures DigitsOf(1234) == "1234" && DigitsOf(1234567) == "1234567"
  {
    assert DigitsOf(1) == "1";
    assert DigitsOf(12) == "12";
    assert DigitsOf(123) == "123";
    assert DigitsOf(12345) == "12345";
    assert DigitsOf(123456) == "123456";
  }

  lemma GroupIntegerExamples()
    ensures GroupInteger("1234") == ",234" && GroupInteger("1234567") == ",12,567"
  {
    assert Slice("1234", 0, -3) == "1";
    assert Slice("1234", -3, 4) == "234";
    assert Groups("1") == [];
    assert Slice("1234", -2, 0) == [];
    assert Slice("1234", 0, 2) == "12";
    assert GroupsFrom("1234", 4) == [];
    assert GroupsFrom("1234", 2) == ["12"];
    assert Groups("1234") == ["", "12"];
    assert Slice("1234567", 0, -3) == "1234";
    assert Slice("1234567", -3, 7) == "567";
    assert Join(",", ["12"]) == "12";
  }

  lemma HalfEvenWhole(c: int)
    ensures HalfEven(c as real) == c
  {
    assert (c as real).Floor == c;
  }

  /** A whole number converts to itself, shows zero decimals and is its own
      rounding. */
  lemma WholeNumber(n: int)
    ensures Trunc(n as real) == n && Decimals(n as real) == "00" && Round2(n as real) == n as real
  {
    var c := n * 100;
    assert n as real * 100.0 == c as real;
    HalfEvenWhole(c);
    var m := if n < 0 then -n else n;
    assert (if c < 0 then -c else c) == m * 100;
    assert (m * 100) % 100 == 0;
  }

  /** A rendered whole amount reads back as the number its integer part
      spells once the commas are gone. */
  lemma ReadWhole(body: string, n: nat)
    requires |body| >= 1 && Uncomma(body) == DigitsOf(n)
    ensures ReadAmount([Rupee] + body + "." + "00") == Some(n as real)
  {
    ReadSplit(body, "00");
    ReadDigitsOf(n);
    DigitsAreDigits(n);
    assert ReadDigits("00") == 0;
  }

  lemma RendersThousands()
    ensures FormatInr(0, Some(1234.0)) == Formatted([Rupee] + ",234" + "." + "00")
  {
    WholeNumber(1234);
    DigitsOfExamples();
    GroupIntegerExamples();
  }

  /** Finding, as written: 1234567 renders as "₹,12,567.00"; the pair 34
      before the last three digits is lost. */
  lemma AsWrittenDropsPairs()
    ensures FormatInr(0, Some(1234567.0)) == Formatted([Rupee] + ",12,567" + "." + "00")
  {
    WholeNumber(1234567);
    DigitsOfExamples();
    GroupIntegerExamples();
  }

  /** Finding, as written: 1234 renders as "₹,234.00" (the leading part "1"
      has odd length, so its one digit is lost), which reads as 234. */
  lemma AsWrittenDropsDigits()
    ensures FormatInr(0, Some(1234.0)) == Formatted([Rupee] + ",234" + "." + "00")
    ensures ReadAmount(FormatInr(0, Some(1234.0)).text) == Some(234.0) != Some(Round2(1234.0))
  {
    RendersThousands();
    assert Uncomma(",234") == "234";
    assert DigitsOf(2) == "2";
    assert DigitsOf(23) == "23";
    assert DigitsOf(234) == "234";
    ReadWhole(",234", 234);
    WholeNumber(1234);
  }

  /** Finding, as written: 9.999 renders as "₹9.00" (the integer part is
      truncated, the decimals rounded up), which reads as 9 rather than 10. */
  lemma AsWrittenTruncates()
    ensures FormatInr(0, Some(9.999)) == Formatted([Rupee] + "9" + "." + "00")
    ensures ReadAmount(FormatInr(0, Some(9.999)).text) == Some(9.0)
    ensures Round2(9.999) == 10.0
  {
    assert Trunc(9.999) == 9;
    assert 9.999 * 100.0 == 999.9;
    assert (999.9).Floor == 999;
    assert HalfEven(999.9) == 1000;
    assert Decimals(9.999) == "00";
    assert DigitsOf(9) == "9";
    ShortUngrouped("9");
    assert Uncomma("9") == "9";
    ReadWhole("9", 9);
  }

  /** The intended grouping of the digits before the last three: pairs
      taken from the right. */
  function PairGroups(r: string): string
  {
    if |r| <= 2 then r else PairGroups(r[..|r| - 2]) + "," + r[|r| - 2..]
  }

  /** The intended Indian grouping: the last three digits, then pairs. */
  function GroupIndian(s: string): string
  {
    if |s| <= 3 then s else PairGroups(s[..|s| - 3]) + "," + s[|s| - 3..]
  }

  lemma {:induction false} PairGroupsKeep(r: string)
    requires NoComma(r)
    ensures Uncomma(PairGroups(r)) == r
    ensures r != "" ==> PairGroups(r) != "" && PairGroups(r)[0] == r[0]
  {
    if |r| <= 2 {
      UncommaNoComma(r);
    } else {
      var front := r[..|r| - 2];
      var back := r[|r| - 2..];
      PairGroupsKeep(front);
      UncommaAppend(PairGroups(front) + ",", back);
      UncommaAppend(PairGroups(front), ",");
      UncommaNoComma(back);
      assert front + back == r;
    }
  }

  /** The intended grouping only inserts commas: removing them gives the
      digits back. It never starts with a comma, keeps the last three
      digits last and puts a comma before them once there are more. */
  lemma GroupIndianCorrect(s: string)
    requires NoComma(s)
    ensures var g := GroupIndian(s);
            Uncomma(g) == s &&
            (s != "" ==> g[0] == s[0]) &&
            (|s| > 3 ==> |g| >= 4 && g[|g| - 3..] == s[|s| - 3..] && g[|g| - 4] == ',')
  {
    if |s| <= 3 {
      UncommaNoComma(s);
    } else {
      var front := s[..|s| - 3];
      var back := s[|s| - 3..];
      PairGroupsKeep(front);
      UncommaAppend(PairGroups(front) + ",", back);
      UncommaAppend(PairGroups(front), ",");
      UncommaNoComma(back);
      assert front + back == s;
    }
  }

  /** The integer part as intended: the sign, then the grouped digits of
      the whole rupees. */
  function IntendedInteger(negative: bool, whole: nat): (s: string)
    ensures |s| >= 1
  {
    (if negative then "-" else "") + GroupIndian(DigitsOf(whole))
  }

  /** The intended integer part with its commas removed is the sign and the
      decimal form of the rupees. */
  lemma IntendedIntegerKeepsDigits(negative: bool, whole: nat)
    ensures var body := Uncomma(IntendedInteger(negative, whole));
            body != [] && (body[0] == '-' <==> negative) &&
            (if negative then body[1..] else body) == DigitsOf(whole)
  {
    var sign: string := if negative then "-" else "";
    var digits := DigitsOf(whole);
    DigitsAreDigits(whole);
    GroupIndianCorrect(digits);
    UncommaAppend(sign, GroupIndian(digits));
    UncommaNoComma(sign);
    assert Uncomma(IntendedInteger(negative, whole)) == sign + digits;
    assert digits[0] != '-';
  }

  /** The intended text for a signed number of paise: the sign, the
      grouped rupees and two digits of paise. */
  function PaiseText(cents: int): string
  {
    var m := if cents < 0 then -cents else cents;
    [Rupee] + IntendedInteger(cents < 0, m / 100) + "." + CentsText(m % 100)
  }

  /** `format_inr` as intended: round to paise first, then write them out. */
  function FormatInrIntended<V>(value: V, parsed: Option<real>): Rendered<V>
  {
    match parsed
    case None => Unchanged(value)
    case Some(x) => Formatted(PaiseText(HalfEven(x * 100.0)))
  }

  /** Rupees and paise of a signed number of paise add back up to it. */
  lemma PaiseSplit(cents: int)
    ensures var m := if cents < 0 then -cents else cents;
            var amount := (m / 100) as real + (m % 100) as real / 100.0;
            (if cents < 0 then -amount else amount) == cents as real / 100.0
  {
    var m := if cents < 0 then -cents else cents;
    assert (m / 100) * 100 + m % 100 == m;
    assert (m / 100) as real + (m % 100) as real / 100.0 == m as real / 100.0;
  }

  /** The intended text reads back as its sign, rupees and paise. */
  lemma ReadIntended(negative: bool, whole: nat, c: nat)
    requires c < 100
    ensures var amount := whole as real + c as real / 100.0;
            ReadAmount([Rupee] + IntendedInteger(negative, whole) + "." + CentsText(c))
              == Some(if negative then -amount else amount)
  {
    ReadSplit(IntendedInteger(negative, whole), CentsText(c));
    IntendedIntegerKeepsDigits(negative, whole);
    ReadDigitsOf(whole);
    ReadCents(c);
  }

  /** The text for a number of paise reads back as that many paise. */
  lemma PaiseTextReadsBack(cents: int)
    ensures ReadAmount(PaiseText(cents)) == Some(cents as real / 100.0)
  {
    var m := if cents < 0 then -cents else cents;
    ReadIntended(cents < 0, m / 100, m % 100);
    PaiseSplit(cents);
  }

  /** Finding, corrected: the rendered text reads back as the amount
      rounded to paise, which is within half a paisa of the value. */
  lemma IntendedReadsBack<V>(value: V, x: real)
    ensures ReadAmount(FormatInrIntended(value, Some(x)).text) == Some(Round2(x))
    ensures -1.0 / 200.0 <= Round2(x) - x <= 1.0 / 200.0
  {
    PaiseTextReadsBack(HalfEven(x * 100.0));
    Round2Cents(x);
  }

  /** The intended rendering of 1234. */
  lemma IntendedThousands()
    ensures FormatInrIntended(0, Some(1234.0)) == Formatted([Rupee] + "1,234" + "." + "00")
  {
    WholeNumber(1234);
    assert HalfEven(1234.0 * 100.0) == 123400;
    DigitsOfExamples();
    assert GroupIndian("1234") == "1,234";
  }

  /** The intended rendering of 1234567. */
  lemma IntendedLakhs()
    ensures FormatInrIntended(0, Some(1234567.0)) == Formatted([Rupee] + "12,34,567" + "." + "00")
  {
    WholeNumber(1234567);
    assert HalfEven(1234567.0 * 100.0) == 123456700;
    DigitsOfExamples();
    assert "1234567"[..4] == "1234";
    assert PairGroups("1234") == "12,34";
    assert GroupIndian("1234567") == "12,34,567";
  }

  /** The intended rendering of 9.999. */
  lemma IntendedRoundsUp()
    ensures FormatInrIntended(0, Some(9.999)) == Formatted([Rupee] + "10" + "." + "00")
  {
    assert 9.999 * 100.0 == 999.9;
    assert (999.9).Floor == 999;
    assert HalfEven(999.9) == 1000;
    assert DigitsOf(10) == "10";
  }
}
