/** Range notation: column letters (colLetterToIndex, colIndexToLetter), `parseRange`
    and `rangeToLocation` of src/components/SmartReportDesigner.tsx. */
module RangeCodec {
  import opened Common

  /** A zero-based rectangular cell range. Counts are plain integers: a reversed corner
      pair parses to a zero or negative count. */
  datatype CellRange = CellRange(row: int, col: int, rowCount: int, colCount: int)

  /** One `<Col><Row>` corner: zero-based column and `parseInt(digits) - 1`. */
  datatype CellRef = CellRef(col: int, row: int)

  predicate IsUpper(c: char) { 'A' <= c <= 'Z' }
  predicate IsLower(c: char) { 'a' <= c <= 'z' }
  /** What `[A-Z]` matches under the `i` flag. */
  predicate IsLetter(c: char) { IsUpper(c) || IsLower(c) }
  /** What `\d` matches. */
  predicate IsDigit(c: char) { '0' <= c <= '9' }

  predicate AllUpper(s: string) { forall i | 0 <= i < |s| :: IsUpper(s[i]) }
  predicate AllLetters(s: string) { forall i | 0 <= i < |s| :: IsLetter(s[i]) }
  predicate AllDigits(s: string) { forall i | 0 <= i < |s| :: IsDigit(s[i]) }
  predicate NoColon(s: string) { forall i | 0 <= i < |s| :: s[i] != ':' }

  function ToUpper(c: char): (u: char)
    ensures IsLetter(c) ==> IsUpper(u)
    ensures !IsLower(c) ==> u == c
  {
    if IsLower(c) then (c as int - 32) as char else c
  }

  /** `toUpperCase()` on the ASCII letters the patterns capture. */
  function UpperCase(s: string): (u: string)
    ensures |u| == |s|
    ensures AllLetters(s) ==> AllUpper(u)
    ensures AllUpper(s) ==> u == s
  {
    seq(|s|, i requires 0 <= i < |s| => ToUpper(s[i]))
  }

  // ---------------------------------------------------------------------------
  // Column letters
  // ---------------------------------------------------------------------------

  /** The accumulator of `colLetterToIndex`: every character adds its code minus 64,
      most significant first. */
  function LettersValue(s: string): (v: int)
    ensures AllUpper(s) ==> v >= 0
    ensures AllUpper(s) && |s| > 0 ==> v >= 1
  {
    if |s| == 0 then 0
    else
      LettersValue(s[..|s| - 1]) * 26 + (s[|s| - 1] as int - 64)
  }

  /** Zero-based column index of a column name (`A` = 0, `Z` = 25, `AA` = 26). */
  function LettersToIndex(letters: string): int
  {
    LettersValue(letters) - 1
  }

  /** colLetterToIndex: the accumulator loop. */
  method ColLetterToIndex(letters: string) returns (index: int)
    ensures index == LettersToIndex(letters)
  {
    var result := 0;
    var i := 0;
    while i < |letters|
      invariant 0 <= i <= |letters|
      invariant result == LettersValue(letters[..i])
    {
      assert letters[..i + 1][..i] == letters[..i];
      result := result * 26 + (letters[i] as int - 64);
      i := i + 1;
    }
    assert letters[..|letters|] == letters;
    index := result - 1;
  }

  /** The bijective base-26 numeral of `n` over `A`..`Z` (no zero digit); empty when n <= 0. */
  function Letters(n: int): (s: string)
    ensures AllUpper(s)
    ensures |s| > 0 <==> n > 0
    decreases n
  {
    if n <= 0 then "" else Letters((n - 1) / 26) + [(65 + (n - 1) % 26) as char]
  }

  /** Column name of a zero-based column index. */
  function IndexToLetters(index: int): string
  {
    Letters(index + 1)
  }

  /** colIndexToLetter: repeated "subtract one, then divide by 26". */
  method ColIndexToLetter(index: int) returns (s: string)
    ensures s == IndexToLetters(index)
  {
    s := "";
    var n := index + 1;
    while n > 0
      invariant Letters(n) + s == IndexToLetters(index)
      decreases n
    {
      var remainder := (n - 1) % 26;
      var digit := [(65 + remainder) as char];
      assert Letters(n) == Letters((n - 1) / 26) + digit;
      s := digit + s;
      n := (n - 1) / 26;
    }
  }

  lemma {:induction false} LettersValueOfLetters(n: int)
    requires n >= 0
    ensures LettersValue(Letters(n)) == n
    decreases n
  {
    if n > 0 {
      var q := (n - 1) / 26;
      LettersValueOfLetters(q);
      var s := Letters(n);
      assert s[..|s| - 1] == Letters(q);
    }
  }

  /** colLetterToIndex(colIndexToLetter(i)) == i, and the name is a non-empty word over A-Z. */
  lemma ColumnRoundTrip(index: int)
    requires index >= 0
    ensures LettersToIndex(IndexToLetters(index)) == index
    ensures |IndexToLetters(index)| >= 1 && AllUpper(IndexToLetters(index))
  {
    LettersValueOfLetters(index + 1);
  }

  lemma {:induction false} LettersOfLettersValue(s: string)
    requires AllUpper(s)
    ensures Letters(LettersValue(s)) == s
  {
    if |s| > 0 {
      var p := s[..|s| - 1];
      assert AllUpper(p);
      LettersOfLettersValue(p);
      var v := LettersValue(p);
      var d := s[|s| - 1] as int - 64;
      assert 1 <= d <= 26;
      var n := v * 26 + d;
      assert n == LettersValue(s);
      assert (n - 1) / 26 == v && (n - 1) % 26 == d - 1;
      assert Letters(n) == Letters(v) + [(65 + (d - 1)) as char];
      assert s == p + [s[|s| - 1]];
    }
  }

  /** The column codec is a bijection: every upper-case column name is the name of the
      index it denotes. */
  lemma ColumnNameRoundTrip(letters: string)
    requires |letters| >= 1 && AllUpper(letters)
    ensures LettersToIndex(letters) >= 0
    ensures IndexToLetters(LettersToIndex(letters)) == letters
  {
    LettersOfLettersValue(letters);
  }

  // ---------------------------------------------------------------------------
  // Row numbers
  // ---------------------------------------------------------------------------

  /** `parseInt` of a string of ASCII digits: decimal value, leading zeros allowed. */
  function DigitsValue(s: string): (v: int)
    ensures AllDigits(s) ==> v >= 0
  {
    if |s| == 0 then 0
    else DigitsValue(s[..|s| - 1]) * 10 + (s[|s| - 1] as int - '0' as int)
  }

  /** Decimal numeral of a natural number, without leading zeros. */
  function NatToDecimal(n: nat): (s: string)
    ensures |s| >= 1 && AllDigits(s)
  {
    if n < 10 then [('0' as int + n) as char]
    else NatToDecimal(n / 10) + [('0' as int + n % 10) as char]
  }

  /** How a template literal writes out an integer number. */
  function IntToDecimal(n: int): (s: string)
    ensures forall i | 0 <= i < |s| :: !IsLetter(s[i]) && s[i] != ':'
    ensures n >= 0 ==> s == NatToDecimal(n)
  {
    if n < 0 then "-" + NatToDecimal(-n) else NatToDecimal(n)
  }

  lemma {:induction false} DecimalRoundTrip(n: nat)
    ensures DigitsValue(NatToDecimal(n)) == n
  {
    if n >= 10 {
      DecimalRoundTrip(n / 10);
      var s := NatToDecimal(n);
      assert s[..|s| - 1] == NatToDecimal(n / 10);
    }
  }

  // ---------------------------------------------------------------------------
  // parseRange
  // ---------------------------------------------------------------------------

  /** Length of the longest prefix of `s` made of letters. */
  function LetterRun(s: string): (k: nat)
    ensures k <= |s|
    ensures forall i | 0 <= i < k :: IsLetter(s[i])
    ensures k < |s| ==> !IsLetter(s[k])
  {
    if |s| == 0 || !IsLetter(s[0]) then 0 else 1 + LetterRun(s[1..])
  }

  /** Position of the first `:` in `s`, or |s| when there is none. */
  function ColonIndex(s: string): (i: nat)
    ensures i <= |s|
    ensures i < |s| ==> s[i] == ':'
    ensures forall j | 0 <= j < i :: s[j] != ':'
  {
    if |s| == 0 || s[0] == ':' then 0 else 1 + ColonIndex(s[1..])
  }

  /** The whole of `s` matches `^([A-Z]+)(\d+)$` with the `i` flag. */
  ghost predicate MatchesCell(s: string)
  {
    exists k :: 0 < k < |s| && AllLetters(s[..k]) && AllDigits(s[k..])
  }

  /** The whole of `s` matches `^([A-Z]+)(\d+):([A-Z]+)(\d+)$` with the `i` flag. */
  ghost predicate MatchesTwoCorners(s: string)
  {
    exists i :: 0 <= i < |s| && s[i] == ':' && MatchesCell(s[..i]) && MatchesCell(s[i + 1..])
  }

  /** One corner: the letter run, then at least one digit up to the end. */
  function ParseCell(s: string): Option<CellRef>
  {
    var k := LetterRun(s);
    if 0 < k < |s| && AllDigits(s[k..]) then
      Some(CellRef(LettersToIndex(UpperCase(s[..k])), DigitsValue(s[k..]) - 1))
    else
      None
  }

  /** The range spanned from a start corner to an end corner, both included. */
  function Span(start: Option<CellRef>, end: Option<CellRef>): Option<CellRange>
  {
    if start.Some? && end.Some? then
      Some(CellRange(start.value.row, start.value.col,
                     end.value.row - start.value.row + 1, end.value.col - start.value.col + 1))
    else None
  }

  /** The 1x1 range of a single corner. */
  function Single(cell: Option<CellRef>): Option<CellRange>
  {
    if cell.Some? then Some(CellRange(cell.value.row, cell.value.col, 1, 1)) else None
  }

  /** parseRange: the two-corner form first, then the single-cell form, otherwise no range. */
  function ParseRange(location: string): Option<CellRange>
  {
    var i := ColonIndex(location);
    if i < |location| then Span(ParseCell(location[..i]), ParseCell(location[i + 1..]))
    else Single(ParseCell(location))
  }

  /** One corner as `${colIndexToLetter(col)}${n}`. */
  function CornerName(col: int, n: int): string
  {
    IndexToLetters(col) + IntToDecimal(n)
  }

  /** rangeToLocation: always the upper-case two-corner form (start corner, then the corner
      rowCount - 1 rows and colCount - 1 columns further on). */
  function RangeToLocation(row: int, col: int, rowCount: int, colCount: int): string
  {
    CornerName(col, row + 1) + ":" + CornerName(col + colCount - 1, row + rowCount)
  }

  /** The captured groups of a corner that matches decide its value. */
  lemma ParseCellSplit(s: string, k: nat)
    requires 0 < k < |s| && AllLetters(s[..k]) && AllDigits(s[k..])
    ensures ParseCell(s) == Some(CellRef(LettersToIndex(UpperCase(s[..k])), DigitsValue(s[k..]) - 1))
  {
    forall i | 0 <= i < k
      ensures IsLetter(s[i])
    {
      assert s[..k][i] == s[i];
    }
    assert s[k..][0] == s[k];
    assert LetterRun(s) == k;
  }

  /** A corner parses exactly when it matches the corner pattern. */
  lemma ParseCellIff(s: string)
    ensures ParseCell(s).Some? <==> MatchesCell(s)
  {
    if MatchesCell(s) {
      var k :| 0 < k < |s| && AllLetters(s[..k]) && AllDigits(s[k..]);
      ParseCellSplit(s, k);
    }
    if ParseCell(s).Some? {
      var k := LetterRun(s);
      assert AllLetters(s[..k]);
    }
  }

  /** Nothing that matches the corner pattern contains a colon. */
  lemma CellHasNoColon(s: string)
    ensures MatchesCell(s) ==> forall i | 0 <= i < |s| :: s[i] != ':'
  {
    if MatchesCell(s) {
      var k :| 0 < k < |s| && AllLetters(s[..k]) && AllDigits(s[k..]);
      forall i | 0 <= i < |s|
        ensures s[i] != ':'
      {
        if i < k {
          assert s[..k][i] == s[i];
        } else {
          assert s[k..][i - k] == s[i];
        }
      }
    }
  }

  /** A location matches the two-corner pattern exactly when both sides of its first colon
      match the corner pattern. */
  lemma TwoCornersAtFirstColon(location: string)
    ensures var i := ColonIndex(location);
      MatchesTwoCorners(location) <==>
        i < |location| && MatchesCell(location[..i]) && MatchesCell(location[i + 1..])
  {
    var i := ColonIndex(location);
    if i < |location| && MatchesCell(location[..i]) && MatchesCell(location[i + 1..]) {
      TwoCornersAt(location, i);
    }
    if MatchesTwoCorners(location) {
      FirstColonSplits(location);
    }
  }

  /** In a two-corner location the corners sit on either side of the first colon. */
  lemma FirstColonSplits(location: string)
    requires MatchesTwoCorners(location)
    ensures ColonIndex(location) < |location|
    ensures MatchesCell(location[..ColonIndex(location)]) && MatchesCell(location[ColonIndex(location) + 1..])
  {
    var j :| 0 <= j < |location| && location[j] == ':' && MatchesCell(location[..j]) && MatchesCell(location[j + 1..]);
    ColonSplitsAt(location, j, location[..j], location[j + 1..]);
  }

  /** The colon of a two-corner match is the first one, so both sides of the first colon
      are cells. */
  lemma ColonSplitsAt(location: string, j: nat, left: string, right: string)
    requires j < |location| && location[j] == ':' && left == location[..j] && right == location[j + 1..]
    requires MatchesCell(left) && MatchesCell(right)
    ensures ColonIndex(location) == j
    ensures ColonIndex(location) < |location|
    ensures MatchesCell(location[..ColonIndex(location)]) && MatchesCell(location[ColonIndex(location) + 1..])
  {
    CornerColonIsFirst(location, j);
  }

  /** A colon with a corner before it is the first colon. */
  lemma CornerColonIsFirst(location: string, j: nat)
    requires j < |location| && location[j] == ':' && MatchesCell(location[..j])
    ensures ColonIndex(location) == j
  {
    NoColonBefore(location, j);
    ColonIndexAt(location, j);
  }

  /** A colon with a corner on either side makes a two-corner location. */
  lemma TwoCornersAt(location: string, i: nat)
    requires i < |location| && location[i] == ':'
    requires MatchesCell(location[..i]) && MatchesCell(location[i + 1..])
    ensures MatchesTwoCorners(location)
  {
  }

  /** Nothing before a corner-shaped prefix is a colon. */
  lemma NoColonBefore(location: string, j: nat)
    requires j <= |location| && MatchesCell(location[..j])
    ensures forall k | 0 <= k < j :: location[k] != ':'
  {
    CellHasNoColon(location[..j]);
    forall k | 0 <= k < j
      ensures location[k] != ':'
    {
      assert location[..j][k] == location[k];
    }
  }

  /** A colon with none before it is the first colon. */
  lemma ColonIndexAt(s: string, j: nat)
    requires j < |s| && s[j] == ':'
    requires forall k | 0 <= k < j :: s[k] != ':'
    ensures ColonIndex(s) == j
  {
  }

  /** A location parses exactly when it matches one of the two patterns; a single cell is a
      1x1 range. */
  lemma ParseRangeIff(location: string)
    ensures ParseRange(location).Some? <==> MatchesCell(location) || MatchesTwoCorners(location)
    ensures MatchesCell(location) ==> ParseRange(location).value.rowCount == 1 && ParseRange(location).value.colCount == 1
  {
    var i := ColonIndex(location);
    if i < |location| {
      assert ParseRange(location) == Span(ParseCell(location[..i]), ParseCell(location[i + 1..]));
      TwoCornersAtFirstColon(location);
      ParseCellIff(location[..i]);
      ParseCellIff(location[i + 1..]);
      CellHasNoColon(location);
      assert !MatchesCell(location);
    } else {
      assert ParseRange(location) == Single(ParseCell(location));
      TwoCornersAtFirstColon(location);
      ParseCellIff(location);
    }
  }

  /** Splitting `left:right` at its first colon gives back both sides when `left` has none. */
  lemma SplitAtColon(left: string, right: string)
    requires NoColon(left)
    ensures var s := left + ":" + right;
      ColonIndex(s) == |left| && s[..|left|] == left && s[|left| + 1..] == right
  {
    var s := left + ":" + right;
    assert s[|left|] == ':';
    assert forall k | 0 <= k < |left| :: s[k] == left[k];
    ColonIndexAt(s, |left|);
    assert s[..|left|] == left;
    assert s[|left| + 1..] == right;
  }

  lemma ParseNamedCell(letters: string, digits: string)
    requires |letters| >= 1 && AllUpper(letters) && |digits| >= 1 && AllDigits(digits)
    ensures ParseCell(letters + digits) == Some(CellRef(LettersToIndex(letters), DigitsValue(digits) - 1))
  {
    var s := letters + digits;
    assert s[..|letters|] == letters;
    assert s[|letters|..] == digits;
    ParseCellAt(s, |letters|, letters, digits);
  }

  /** A string made of upper-case letters followed by digits parses to those two parts. */
  lemma ParseCellAt(s: string, k: nat, letters: string, digits: string)
    requires 0 < k < |s| && s[..k] == letters && s[k..] == digits
    requires AllUpper(letters) && AllDigits(digits)
    ensures ParseCell(s) == Some(CellRef(LettersToIndex(letters), DigitsValue(digits) - 1))
  {
    assert AllLetters(letters);
    ParseCellSplit(s, k);
  }

  /** A corner name holds no colon and no lower-case letter. */
  lemma CornerNameChars(col: int, n: int)
    ensures NoColon(CornerName(col, n))
    ensures var s := CornerName(col, n);
      forall i | 0 <= i < |s| :: s[i] != ':' && (IsLetter(s[i]) ==> IsUpper(s[i]))
  {
    var a := IndexToLetters(col);
    var d := IntToDecimal(n);
    var s := CornerName(col, n);
    forall i | 0 <= i < |s|
      ensures s[i] != ':' && (IsLetter(s[i]) ==> IsUpper(s[i]))
    {
      if i < |a| {
        assert s[i] == a[i];
      } else {
        assert s[i] == d[i - |a|];
      }
    }
  }

  /** A corner name with a non-negative column and row number parses back to its corner. */
  lemma CornerNameParses(col: int, n: int)
    requires col >= 0 && n >= 0
    ensures ParseCell(CornerName(col, n)) == Some(CellRef(col, n - 1))
  {
    ColumnRoundTrip(col);
    DecimalRoundTrip(n);
    ParseNamedCell(IndexToLetters(col), NatToDecimal(n));
  }

  /** rangeToLocation is undone by parseRange whenever every number it writes is
      non-negative. */
  lemma RangeRoundTrip(row: int, col: int, rowCount: int, colCount: int)
    requires col >= 0 && row + 1 >= 0 && col + colCount - 1 >= 0 && row + rowCount >= 0
    ensures ParseRange(RangeToLocation(row, col, rowCount, colCount)) == Some(CellRange(row, col, rowCount, colCount))
  {
    assert RangeToLocation(row, col, rowCount, colCount) ==
           CornerName(col, row + 1) + ":" + CornerName(col + colCount - 1, row + rowCount);
    CornersParseAt(row, col, rowCount, colCount, row + 1, col + colCount - 1, row + rowCount);
  }

  /** The two corner names of a range, joined by a colon, parse back to that range; n1 and
      n2 name the row numbers of the corners and lastCol the column of the far one. */
  lemma CornersParseAt(row: int, col: int, rowCount: int, colCount: int, n1: int, lastCol: int, n2: int)
    requires col >= 0 && n1 >= 0 && lastCol >= 0 && n2 >= 0
    requires n1 == row + 1 && lastCol == col + colCount - 1 && n2 == row + rowCount
    ensures ParseRange(CornerName(col, row + 1) + ":" + CornerName(col + colCount - 1, row + rowCount)) ==
            Some(CellRange(row, col, rowCount, colCount))
  {
    CornersParse(col, n1, lastCol, n2);
    CornerSpan(row, col, rowCount, colCount, n1, lastCol, n2);
  }

  /** The corners rangeToLocation writes span exactly the range. */
  lemma CornerSpan(row: int, col: int, rowCount: int, colCount: int, n1: int, lastCol: int, n2: int)
    requires n1 == row + 1 && lastCol == col + colCount - 1 && n2 == row + rowCount
    ensures CellRange(n1 - 1, col, n2 - n1 + 1, lastCol - col + 1) == CellRange(row, col, rowCount, colCount)
  {
  }

  /** The location written from a first corner (column col, row number n1) to a second one
      (column lastCol, row number n2) parses to the span between them. */
  lemma CornersParse(col: int, n1: int, lastCol: int, n2: int)
    requires col >= 0 && n1 >= 0 && lastCol >= 0 && n2 >= 0
    ensures ParseRange(CornerName(col, n1) + ":" + CornerName(lastCol, n2)) ==
            Some(CellRange(n1 - 1, col, n2 - n1 + 1, lastCol - col + 1))
  {
    CornerNameChars(col, n1);
    CornerNameParses(col, n1);
    CornerNameParses(lastCol, n2);
    ParseTwoCorners(CornerName(col, n1), CornerName(lastCol, n2), col, n1, lastCol, n2);
  }

  /** A colon-free corner (column col, row number n1), a colon and a second corner (column
      lastCol, row number n2) parse to the span between them. */
  lemma ParseTwoCorners(left: string, right: string, col: int, n1: int, lastCol: int, n2: int)
    requires NoColon(left)
    requires ParseCell(left) == Some(CellRef(col, n1 - 1)) && ParseCell(right) == Some(CellRef(lastCol, n2 - 1))
    ensures ParseRange(left + ":" + right) == Some(CellRange(n1 - 1, col, n2 - n1 + 1, lastCol - col + 1))
  {
    var s := left + ":" + right;
    SplitAtColon(left, right);
    assert ParseRange(s) == Span(ParseCell(s[..|left|]), ParseCell(s[|left| + 1..]));
    assert ParseRange(s) == Span(Some(CellRef(col, n1 - 1)), Some(CellRef(lastCol, n2 - 1)));
  }

  /** For a valid range (row, col >= 0, counts >= 1) the round trip gives back the range. */
  lemma ValidRangeRoundTrip(r: CellRange)
    requires r.row >= 0 && r.col >= 0 && r.rowCount >= 1 && r.colCount >= 1
    ensures ParseRange(RangeToLocation(r.row, r.col, r.rowCount, r.colCount)) == Some(r)
  {
    RangeRoundTrip(r.row, r.col, r.rowCount, r.colCount);
  }

  /** Every range that parseRange returns has a non-negative start column, a start row of
      at least -1 (the row number `0`) and non-negative far corner numbers. */
  lemma ParseRangeBounds(location: string)
    requires ParseRange(location).Some?
    ensures var r := ParseRange(location).value;
      r.col >= 0 && r.row >= -1 && r.col + r.colCount - 1 >= 0 && r.row + r.rowCount >= 0
  {
    var i := ColonIndex(location);
    if i < |location| {
      SpanBounds(location, i);
    } else {
      SingleBounds(location);
    }
  }

  /** ParseRangeBounds for a location with a colon at i, its first. */
  lemma SpanBounds(location: string, i: nat)
    requires i == ColonIndex(location) && i < |location| && ParseRange(location).Some?
    ensures var r := ParseRange(location).value;
      r.col >= 0 && r.row >= -1 && r.col + r.colCount - 1 >= 0 && r.row + r.rowCount >= 0
  {
    assert ParseRange(location) == Span(ParseCell(location[..i]), ParseCell(location[i + 1..]));
    ParseCellBounds(location[..i]);
    ParseCellBounds(location[i + 1..]);
  }

  /** ParseRangeBounds for a location without a colon. */
  lemma SingleBounds(location: string)
    requires ColonIndex(location) == |location| && ParseRange(location).Some?
    ensures var r := ParseRange(location).value;
      r.col >= 0 && r.row >= -1 && r.col + r.colCount - 1 >= 0 && r.row + r.rowCount >= 0
  {
    assert ParseRange(location) == Single(ParseCell(location));
    ParseCellBounds(location);
  }

  /** A parsed corner has a column >= 0 and a row >= -1 (row number 0 is accepted). */
  lemma ParseCellBounds(s: string)
    requires ParseCell(s).Some?
    ensures ParseCell(s).value.col >= 0 && ParseCell(s).value.row >= -1
  {
    var k := LetterRun(s);
    assert AllLetters(s[..k]);
  }

  /** Normalisation: formatting a parsed location and parsing again gives the same range,
      for every location that parses (including reversed corners and row `0`). */
  lemma ParseFormatParse(location: string)
    requires ParseRange(location).Some?
    ensures var r := ParseRange(location).value;
      ParseRange(RangeToLocation(r.row, r.col, r.rowCount, r.colCount)) == Some(r)
  {
    ParseRangeBounds(location);
    var r := ParseRange(location).value;
    RangeRoundTrip(r.row, r.col, r.rowCount, r.colCount);
  }

  /** rangeToLocation writes only upper-case letters. */
  lemma LocationUpper(row: int, col: int, rowCount: int, colCount: int)
    ensures var loc := RangeToLocation(row, col, rowCount, colCount);
      forall i | 0 <= i < |loc| :: IsLetter(loc[i]) ==> IsUpper(loc[i])
  {
    var left := CornerName(col, row + 1);
    var right := CornerName(col + colCount - 1, row + rowCount);
    var loc := left + ":" + right;
    CornerNameChars(col, row + 1);
    CornerNameChars(col + colCount - 1, row + rowCount);
    forall i | 0 <= i < |loc| && IsLetter(loc[i])
      ensures IsUpper(loc[i])
    {
      if i < |left| {
        assert loc[i] == left[i];
      } else if i > |left| {
        assert loc[i] == right[i - |left| - 1];
      }
    }
  }

  /** rangeToLocation writes the two-corner form, even for one cell. */
  lemma LocationShape(row: int, col: int, rowCount: int, colCount: int)
    requires row >= 0 && col >= 0 && rowCount >= 1 && colCount >= 1
    ensures var loc := RangeToLocation(row, col, rowCount, colCount);
      MatchesTwoCorners(loc) && !MatchesCell(loc)
  {
    var left := CornerName(col, row + 1);
    var right := CornerName(col + colCount - 1, row + rowCount);
    var loc := RangeToLocation(row, col, rowCount, colCount);
    RangeRoundTrip(row, col, rowCount, colCount);
    ParseRangeIff(loc);
    CellHasNoColon(loc);
    assert loc[|left|] == ':';
  }

  /** Upper-casing keeps letters letters, digits digits and colons colons, and is idempotent. */
  lemma ToUpperKeepsClass(c: char)
    ensures IsLetter(ToUpper(c)) <==> IsLetter(c)
    ensures IsDigit(ToUpper(c)) <==> IsDigit(c)
    ensures ToUpper(c) == ':' <==> c == ':'
    ensures ToUpper(ToUpper(c)) == ToUpper(c)
  {
  }

  /** Upper-casing a string keeps the class of every character. */
  lemma UpperCaseKeepsClasses(s: string)
    ensures forall i | 0 <= i < |s| ::
      (IsLetter(UpperCase(s)[i]) <==> IsLetter(s[i])) && (IsDigit(UpperCase(s)[i]) <==> IsDigit(s[i])) &&
      (UpperCase(s)[i] == ':' <==> s[i] == ':')
    ensures UpperCase(UpperCase(s)) == UpperCase(s)
  {
    forall i | 0 <= i < |s|
      ensures (IsLetter(UpperCase(s)[i]) <==> IsLetter(s[i])) && (IsDigit(UpperCase(s)[i]) <==> IsDigit(s[i])) &&
              (UpperCase(s)[i] == ':' <==> s[i] == ':') && UpperCase(UpperCase(s))[i] == UpperCase(s)[i]
    {
      ToUpperKeepsClass(s[i]);
    }
  }

  /** Upper-casing twice is upper-casing once. */
  lemma UpperCaseTwice(s: string)
    ensures UpperCase(UpperCase(s)) == UpperCase(s)
  {
    UpperCaseKeepsClasses(s);
  }

  /** Upper-casing commutes with taking a prefix or a suffix. */
  lemma UpperCaseSlices(s: string, i: nat)
    requires i <= |s|
    ensures UpperCase(s)[..i] == UpperCase(s[..i])
    ensures UpperCase(s)[i..] == UpperCase(s[i..])
  {
  }

  lemma LetterRunUpper(t: string)
    ensures LetterRun(UpperCase(t)) == LetterRun(t)
  {
    UpperCaseKeepsClasses(t);
  }

  lemma ColonIndexUpper(t: string)
    ensures ColonIndex(UpperCase(t)) == ColonIndex(t)
  {
    UpperCaseKeepsClasses(t);
  }

  /** Upper-casing leaves a run of digits alone. */
  lemma DigitsUpper(t: string)
    ensures AllDigits(UpperCase(t)) <==> AllDigits(t)
    ensures AllDigits(t) ==> UpperCase(t) == t
  {
    UpperCaseKeepsClasses(t);
  }

  /** One corner parses the same whatever the case of its letters. */
  lemma ParseCellUpper(t: string)
    ensures ParseCell(UpperCase(t)) == ParseCell(t)
  {
    var u := UpperCase(t);
    var k := LetterRun(t);
    LetterRunUpper(t);
    if 0 < k < |t| {
      UpperCaseSlices(t, k);
      DigitsUpper(t[k..]);
      UpperCaseTwice(t[..k]);
      SameCellParts(t, u, k);
    } else {
      assert ParseCell(t) == None && ParseCell(u) == None;
    }
  }

  /** Two texts with the same letter run parse alike when their digit parts agree and their
      letter parts agree up to case. */
  lemma SameCellParts(s: string, u: string, k: nat)
    requires 0 < k < |s| && |u| == |s| && LetterRun(s) == k && LetterRun(u) == k
    requires AllDigits(u[k..]) <==> AllDigits(s[k..])
    requires AllDigits(s[k..]) ==> u[k..] == s[k..]
    requires UpperCase(u[..k]) == UpperCase(s[..k])
    ensures ParseCell(u) == ParseCell(s)
  {
  }

  /** Both sides of a colon parse the same whatever the case of their letters. */
  lemma PartsUpper(location: string, i: nat)
    requires i < |location|
    ensures ParseCell(UpperCase(location)[..i]) == ParseCell(location[..i])
    ensures ParseCell(UpperCase(location)[i + 1..]) == ParseCell(location[i + 1..])
  {
    UpperCaseSlices(location, i);
    UpperCaseSlices(location, i + 1);
    ParseCellUpper(location[..i]);
    ParseCellUpper(location[i + 1..]);
  }

  /** parseRange is case-insensitive: a location parses exactly as its upper-case form. */
  lemma ParseRangeCaseInsensitive(location: string)
    ensures ParseRange(UpperCase(location)) == ParseRange(location)
  {
    var i := ColonIndex(location);
    ColonIndexUpper(location);
    if i < |location| {
      SpanUpper(location, i);
    } else {
      SingleUpper(location);
    }
  }

  /** ParseRangeCaseInsensitive for a location with a colon at i, its first. */
  lemma SpanUpper(location: string, i: nat)
    requires i == ColonIndex(location) && i < |location| && ColonIndex(UpperCase(location)) == i
    ensures ParseRange(UpperCase(location)) == ParseRange(location)
  {
    var u := UpperCase(location);
    assert ParseRange(location) == Span(ParseCell(location[..i]), ParseCell(location[i + 1..]));
    assert ParseRange(u) == Span(ParseCell(u[..i]), ParseCell(u[i + 1..]));
    PartsUpper(location, i);
  }

  /** ParseRangeCaseInsensitive for a location without a colon. */
  lemma SingleUpper(location: string)
    requires ColonIndex(location) == |location| && ColonIndex(UpperCase(location)) == |location|
    ensures ParseRange(UpperCase(location)) == ParseRange(location)
  {
    var u := UpperCase(location);
    assert ParseRange(location) == Single(ParseCell(location));
    assert ParseRange(u) == Single(ParseCell(u));
    ParseCellUpper(location);
  }
}
