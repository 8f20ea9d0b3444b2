/**
 * Revenue normalisation: each revenue cell is in thousands; a cell that is a
 * plain number once commas and spaces are removed becomes that number times
 * 1000, written with comma thousands grouping, and anything else becomes "-".
 */
module Revenue {

  /** The value written for a cell or field that could not be read. */
  const Placeholder: string := "-"

  predicate IsDigit(c: char) {
    '0' <= c <= '9'
  }

  predicate AllDigits(s: string) {
    forall i :: 0 <= i < |s| ==> IsDigit(s[i])
  }

  /** Python's `str.isdigit`, restricted to ASCII: non-empty, every character a digit. */
  predicate IsDigitString(s: string) {
    |s| > 0 && AllDigits(s)
  }

  function DigitValue(c: char): nat
    requires IsDigit(c)
  {
    c as int - '0' as int
  }

  function DigitChar(d: nat): (c: char)
    requires d < 10
    ensures IsDigit(c) && DigitValue(c) == d
  {
    ('0' as int + d) as char
  }

  function Pow10(k: nat): nat {
    if k == 0 then 1 else 10 * Pow10(k - 1)
  }

  /** `int(s)` for a string of ASCII digits; leading zeros are allowed. */
  function ParseDigits(s: string): nat
    requires AllDigits(s)
  {
    if s == [] then 0 else 10 * ParseDigits(s[..|s| - 1]) + DigitValue(s[|s| - 1])
  }

  /** `str(n)`: the decimal numeral of `n`, without leading zeros. */
  function Decimal(n: nat): (s: string)
    ensures IsDigitString(s)
    ensures s[0] == '0' <==> n == 0
    ensures ParseDigits(s) == n
    ensures n < 10 ==> |s| == 1
    ensures n < 100 ==> |s| <= 2
    ensures n < 1000 ==> |s| <= 3
  {
    if n < 10 then [DigitChar(n)]
    else
      var s := Decimal(n / 10) + [DigitChar(n % 10)];
      assert s[..|s| - 1] == Decimal(n / 10);
      s
  }

  /** The value of a concatenation of digit strings. */
  lemma {:induction false} ParseAppend(a: string, b: string)
    requires AllDigits(a) && AllDigits(b)
    ensures AllDigits(a + b)
    ensures ParseDigits(a + b) == ParseDigits(a) * Pow10(|b|) + ParseDigits(b)
    decreases |b|
  {
    assert AllDigits(a + b);
    if b == [] {
      assert a + b == a;
    } else {
      var b' := b[..|b| - 1];
      var d := DigitValue(b[|b| - 1]);
      assert (a + b)[..|a + b| - 1] == a + b';
      assert (a + b)[|a + b| - 1] == b[|b| - 1];
      ParseAppend(a, b');
      var x, y, p := ParseDigits(a), ParseDigits(b'), Pow10(|b'|);
      assert ParseDigits(a + b) == 10 * (x * p + y) + d;
      assert ParseDigits(b) == 10 * y + d;
      assert Pow10(|b|) == 10 * p;
      ShiftDigit(x, y, p, d);
    }
  }

  lemma ShiftDigit(x: int, y: int, p: int, d: int)
    ensures 10 * (x * p + y) + d == x * (10 * p) + (10 * y + d)
  {
  }

  /** A digit string that does not start with '0' denotes a positive number. */
  lemma {:induction false} LeadingDigitPositive(s: string)
    requires IsDigitString(s) && s[0] != '0'
    ensures ParseDigits(s) > 0
    decreases |s|
  {
    if |s| > 1 {
      LeadingDigitPositive(s[..|s| - 1]);
    }
  }

  /** A digit string without a leading zero (or "0" itself) is the numeral of its own value. */
  lemma {:induction false} CanonicalNumeral(s: string)
    requires IsDigitString(s) && (s[0] != '0' || |s| == 1)
    ensures Decimal(ParseDigits(s)) == s
    decreases |s|
  {
    if |s| > 1 {
      var t := s[..|s| - 1];
      CanonicalNumeral(t);
      LeadingDigitPositive(t);
      var n := ParseDigits(s);
      assert n / 10 == ParseDigits(t) && n % 10 == DigitValue(s[|s| - 1]);
      assert s == t + [s[|s| - 1]];
    }
  }

  /** The three digits of `r`, zero-padded: one group after a comma. */
  function Pad3(r: nat): (s: string)
    requires r < 1000
    ensures |s| == 3 && AllDigits(s)
    ensures ParseDigits(s) == r
  {
    var s := [DigitChar(r / 100), DigitChar(r / 10 % 10), DigitChar(r % 10)];
    assert s[..2][..1] == [s[0]] && s[..2] == [s[0], s[1]];
    assert ParseDigits([s[0]]) == r / 100;
    assert ParseDigits(s[..2]) == 10 * (r / 100) + r / 10 % 10 == r / 10;
    s
  }

  /** The regular expression `^[0-9]{1,3}(,[0-9]{3})*$`. */
  predicate IsGroupedNumeral(s: string)
    decreases |s|
  {
    if |s| <= 3 then IsDigitString(s)
    else s[|s| - 4] == ',' && AllDigits(s[|s| - 3..]) && IsGroupedNumeral(s[..|s| - 4])
  }

  /** Python's `f"{n:,}"` for a non-negative integer. */
  function Grouped(n: nat): (s: string)
    ensures IsGroupedNumeral(s)
    ensures s[0] == '0' <==> n == 0
  {
    if n < 1000 then Decimal(n)
    else
      var g := Grouped(n / 1000);
      var s := g + [','] + Pad3(n % 1000);
      assert s[..|s| - 4] == g && s[|s| - 3..] == Pad3(n % 1000);
      s
  }

  predicate IsSeparator(c: char) {
    c == ',' || c == ' '
  }

  /** `text.replace(',', '').replace(' ', '')`. */
  function Clean(s: string): (r: string)
    ensures forall i :: 0 <= i < |r| ==> !IsSeparator(r[i])
  {
    if s == [] then []
    else if IsSeparator(s[0]) then Clean(s[1..])
    else [s[0]] + Clean(s[1..])
  }

  /** Text without commas or spaces is left as it is. */
  lemma {:induction false} CleanKeepsPlainText(s: string)
    requires forall i :: 0 <= i < |s| ==> !IsSeparator(s[i])
    ensures Clean(s) == s
  {
    if s != [] {
      CleanKeepsPlainText(s[1..]);
    }
  }

  /** A comma or a space on its own is deleted. */
  lemma CleanDropsSeparator(c: char)
    requires IsSeparator(c)
    ensures Clean([c]) == []
  {
  }

  /** Removing separators works piece by piece. */
  lemma {:induction false} CleanAppend(a: string, b: string)
    ensures Clean(a + b) == Clean(a) + Clean(b)
    decreases |a|
  {
    if a != [] {
      assert (a + b)[1..] == a[1..] + b;
      CleanAppend(a[1..], b);
    } else {
      assert a + b == b;
    }
  }

  /** Without its commas, a grouped numeral with more than one group is its leading groups' digits followed by the last group. */
  lemma CleanGroupedStep(g: string, r: nat)
    requires r < 1000
    ensures Clean(g + [','] + Pad3(r)) == Clean(g) + Pad3(r)
  {
    CleanAppend(g + [','], Pad3(r));
    CleanAppend(g, [',']);
    assert Clean([',']) == [];
    CleanKeepsPlainText(Pad3(r));
  }

  /** Appending a zero-padded group of three digits to `str(q)` gives `str(1000 * q + r)`. */
  lemma DecimalStep(q: nat, r: nat)
    requires q > 0 && r < 1000
    ensures Decimal(q) + Pad3(r) == Decimal(1000 * q + r)
  {
    var d, p := Decimal(q), Pad3(r);
    var s := d + p;
    ParseAppend(d, p);
    assert Pow10(|p|) == 1000 by {
      assert |p| == 3;
    }
    assert ParseDigits(s) == 1000 * q + r by {
      assert ParseDigits(d) == q && ParseDigits(p) == r;
    }
    assert IsDigitString(s) && s[0] == d[0] != '0';
    CanonicalNumeral(s);
  }

  /** Round trip: deleting the commas of `f"{n:,}"` gives back `str(n)`. */
  lemma {:induction false} GroupedRoundTrip(n: nat)
    ensures Clean(Grouped(n)) == Decimal(n)
    decreases n
  {
    if n >= 1000 {
      var q, r := n / 1000, n % 1000;
      assert Grouped(n) == Grouped(q) + [','] + Pad3(r);
      GroupedRoundTrip(q);
      CleanGroupedStep(Grouped(q), r);
      DecimalStep(q, r);
    } else {
      assert forall i :: 0 <= i < |Decimal(n)| ==> !IsSeparator(Decimal(n)[i]);
      CleanKeepsPlainText(Decimal(n));
    }
  }

  /** The body of the revenue loop for one `td.tar` cell (its text already stripped). */
  function NormaliseCell(text: string): (r: string)
    ensures r == Placeholder || IsGroupedNumeral(r)
    ensures r == Placeholder <==> !IsDigitString(Clean(text))
    ensures r != Placeholder ==> Clean(r) == Decimal(1000 * ParseDigits(Clean(text)))
  {
    var t := Clean(text);
    if IsDigitString(t) then
      var n := ParseDigits(t) * 1000;
      GroupedRoundTrip(n);
      Grouped(n)
    else Placeholder
  }

  /**
   * Consequence of the round trip: a normalised entry, read back the way a cell
   * is read (separators removed, then `isdigit` and `int`), is a numeric cell
   * whose value is exactly 1000 times the original cell's value.
   */
  lemma NormalisedEntryReadsBack(text: string)
    requires NormaliseCell(text) != Placeholder
    ensures IsDigitString(Clean(NormaliseCell(text)))
    ensures ParseDigits(Clean(NormaliseCell(text))) == 1000 * ParseDigits(Clean(text))
  {
    assert Clean(NormaliseCell(text)) == Decimal(1000 * ParseDigits(Clean(text)));
  }

  /** `f"{1234000:,}"` is "1,234,000". */
  lemma GroupedExample()
    ensures Grouped(1_234_000) == "1,234,000"
  {
    assert Grouped(1) == "1";
    assert Grouped(1234) == "1,234" by {
      assert Pad3(234) == "234";
    }
    assert Pad3(0) == "000";
  }

  /** Example: the cell "1234" is 1,234 thousand. */
  lemma NumericCellExample()
    ensures NormaliseCell("1234") == "1,234,000"
  {
    assert Clean("1234") == "1234" by {
      CleanKeepsPlainText("1234");
    }
    assert IsDigitString("1234");
    assert ParseDigits("1234") == 1234 by {
      assert "1234"[..3] == "123" && "123"[..2] == "12" && "12"[..1] == "1";
    }
    GroupedExample();
  }

  /** Thousands separators and spaces in a cell are ignored: "1, 234" is 1,234 thousand too. */
  lemma SeparatedCellExample()
    ensures NormaliseCell("1, 234") == "1,234,000"
  {
    assert Clean("1, 234") == "1234" by {
      assert "1, 234"[1..] == ", 234" && ", 234"[1..] == " 234" && " 234"[1..] == "234";
      CleanKeepsPlainText("234");
    }
    NumericCellExample();
  }

  /** "abc" and the empty cell are not numbers. */
  lemma NonNumericCellExamples()
    ensures NormaliseCell("abc") == Placeholder
    ensures NormaliseCell("") == Placeholder
  {
    CleanKeepsPlainText("abc");
    assert !IsDigit("abc"[0]);
  }

  /** The normalised revenue list for the cells of a revenue row. */
  function NormalisedCells(cells: seq<string>): seq<string> {
    seq(|cells|, i requires 0 <= i < |cells| => NormaliseCell(cells[i]))
  }

  /** The loop over the revenue row's cells, appending one entry per cell. */
  method NormaliseRevenueCells(cells: seq<string>) returns (revenueData: seq<string>)
    ensures |revenueData| == |cells|
    ensures forall i :: 0 <= i < |cells| ==> revenueData[i] == NormaliseCell(cells[i])
    ensures forall i :: 0 <= i < |cells| ==>
              revenueData[i] == Placeholder || IsGroupedNumeral(revenueData[i])
    ensures revenueData == NormalisedCells(cells)
  {
    revenueData := [];
    for k := 0 to |cells|
      invariant |revenueData| == k
      invariant forall i :: 0 <= i < k ==> revenueData[i] == NormaliseCell(cells[i])
    {
      revenueData := revenueData + [NormaliseCell(cells[k])];
    }
  }
}
