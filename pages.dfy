/**
 * Page: the decisions a page makes when it is rendered. These are the
 * spreadsheet column lettering used by the Excel export, the cell layout of
 * each exported table, the "no tables" error, the choice of the default
 * render function by page type, and the order of initialisation and
 * rendering.
 *
 * A workbook is a sequence of sheets, and a sheet is a map from cell
 * reference to value.
 */
module Pages {
  import opened Wrappers
  import opened Fields
  import Initializers

  // ---------------------------------------------------------------- letters

  /** The letters string indexed by excelRow. */
  const Letters: string := "ABCDEFGHIJKLMNOPQRSTUVWXYZ"

  /** The k-th capital letter. */
  function Letter(k: nat): (c: char)
    requires k < 26
    ensures 'A' <= c <= 'Z'
  {
    (('A' as int) + k) as char
  }

  lemma LettersInOrder()
    ensures |Letters| == 26
    ensures forall k :: 0 <= k < 26 ==> Letters[k] == Letter(k)
  {
  }

  /**
   * The one-character substr of Letters at offset r - 1: the remainder 0
   * gives offset -1, which PHP counts from the end, so it yields 'Z'.
   */
  function PhpLetter(r: nat): (c: char)
    requires r < 25
    ensures r == 0 ==> c == 'Z'
    ensures 0 < r ==> c == Letter(r - 1)
  {
    LettersInOrder();
    if r == 0 then Letters[25] else Letters[r - 1]
  }

  // ---------------------------------------------------------- excelRow as written

  /** The loop of excelRow from a given number onward: remainder by 25, quotient by 26. */
  function LettersOf(number: nat): string
    decreases number
  {
    if number == 0 then [] else LettersOf(number / 26) + [PhpLetter(number % 25)]
  }

  /** Peeling the last letter off a non-zero number, in front of what is already built. */
  lemma LettersOfStep(number: nat, index: string)
    requires number > 0
    ensures LettersOf(number) + index == LettersOf(number / 26) + ([PhpLetter(number % 25)] + index)
  {
    assert LettersOf(number) == LettersOf(number / 26) + [PhpLetter(number % 25)];
  }

  /** excelRow(j), as written. */
  function ExcelRowOf(j: nat): string {
    LettersOf(j + 1)
  }

  /** excelRow: builds the index from its last letter backwards while number is positive. */
  method ExcelRow(j: nat) returns (index: string)
    ensures index == ExcelRowOf(j)
    ensures |index| >= 1
  {
    index := "";
    var number: nat := j + 1;
    while number > 0
      invariant LettersOf(number) + index == LettersOf(j + 1)
      decreases number
    {
      var remainder := number % 25;
      var letter := PhpLetter(remainder);
      LettersOfStep(number, index);
      index := [letter] + index;
      number := number / 26;
    }
    assert LettersOf(number) == [];
  }

  /** The first 24 columns are the single letters A to X. */
  lemma ExcelRowSingleLetter(j: nat)
    requires j <= 23
    ensures ExcelRowOf(j) == [Letters[j]]
  {
    var n := j + 1;
    assert n / 26 == 0 && n % 25 == n;
    assert LettersOf(n) == LettersOf(0) + [PhpLetter(n)];
  }

  /** No remainder modulo 25 selects Letters[24], so 'Y' never appears. */
  lemma {:induction false} NoY(number: nat)
    ensures 'Y' !in LettersOf(number)
    decreases number
  {
    if number > 0 {
      NoY(number / 26);
      var r := number % 25;
      assert r == 0 || Letter(r - 1) != 'Y';
    }
  }

  /** Column 24 is written "Z" and column 25 "AA": "Y" is skipped. */
  lemma ExcelRowSkipsY()
    ensures ExcelRowOf(24) == "Z"
    ensures ExcelRowOf(25) == "AA"
  {
    LettersInOrder();
    assert LettersOf(1) == "A";
  }

  /** Columns 25 and 50 are both written "AA": the layout writes both into one cell. */
  lemma ExcelRowCollision()
    ensures ExcelRowOf(25) == ExcelRowOf(50) == "AA"
  {
    LettersInOrder();
    assert LettersOf(1) == "A";
    assert LettersOf(51) == LettersOf(1) + [PhpLetter(1)];
  }

  // ---------------------------------------------------------- column letters, corrected

  /** Spreadsheet column names: bijective base 26 over A to Z. */
  function ColumnLetters(j: nat): (s: string)
    ensures |s| >= 1
    decreases j
  {
    if j < 26 then [Letter(j)] else ColumnLetters(j / 26 - 1) + [Letter(j % 26)]
  }

  predicate IsColumn(s: string) {
    |s| >= 1 && forall k :: 0 <= k < |s| ==> 'A' <= s[k] <= 'Z'
  }

  /** The column number of a column name, counting from 0. */
  function ColumnIndex(s: string): nat
    requires IsColumn(s)
    decreases |s|
  {
    var last := (s[|s| - 1] as int) - ('A' as int);
    if |s| == 1 then last else (ColumnIndex(s[..|s| - 1]) + 1) * 26 + last
  }

  /** Every column number has a name, and the name gives the number back. */
  lemma {:induction false} ColumnIndexOfLetters(j: nat)
    ensures IsColumn(ColumnLetters(j))
    ensures ColumnIndex(ColumnLetters(j)) == j
    decreases j
  {
    if j >= 26 {
      var p := ColumnLetters(j / 26 - 1);
      ColumnIndexOfLetters(j / 26 - 1);
      assert ColumnLetters(j)[..|ColumnLetters(j)| - 1] == p;
    }
  }

  /** Every column name is the name of its column number. */
  lemma {:induction false} ColumnLettersOfIndex(s: string)
    requires IsColumn(s)
    ensures ColumnLetters(ColumnIndex(s)) == s
    decreases |s|
  {
    if |s| == 1 {
      SingleLetterColumn(s);
    } else {
      ColumnIndexSplit(s);
      ColumnLettersOfIndex(s[..|s| - 1]);
      AppendLetter(s);
    }
  }

  /** A name whose prefix reads back reads back itself. */
  lemma AppendLetter(s: string)
    requires IsColumn(s) && |s| > 1
    requires IsColumn(s[..|s| - 1]) && ColumnLetters(ColumnIndex(s[..|s| - 1])) == s[..|s| - 1]
    ensures ColumnLetters(ColumnIndex(s)) == s
  {
    var p := s[..|s| - 1];
    var c := s[|s| - 1];
    ColumnIndexSplit(s);
    ColumnLettersStep(ColumnIndex(p), c);
    SplitLast(s);
  }

  /** A single capital letter names the column of its distance from 'A'. */
  lemma SingleLetterColumn(s: string)
    requires IsColumn(s) && |s| == 1
    ensures ColumnLetters(ColumnIndex(s)) == s
  {
    var c := s[0];
    var last := (c as int) - ('A' as int);
    LetterOfCapital(c);
    assert ColumnIndex(s) == last;
    assert ColumnLetters(last) == [c];
  }

  /** Every capital letter is the letter of its distance from 'A'. */
  lemma LetterOfCapital(c: char)
    requires 'A' <= c <= 'Z'
    ensures 0 <= (c as int) - ('A' as int) < 26
    ensures Letter((c as int) - ('A' as int)) == c
  {
  }

  lemma SplitLast<T>(s: seq<T>)
    requires |s| > 0
    ensures s[..|s| - 1] + [s[|s| - 1]] == s
  {
  }

  /** A name of two or more letters is its prefix's number plus one, times 26, plus its last letter. */
  lemma ColumnIndexSplit(s: string)
    requires IsColumn(s) && |s| > 1
    ensures IsColumn(s[..|s| - 1])
    ensures ColumnIndex(s) == (ColumnIndex(s[..|s| - 1]) + 1) * 26 + ((s[|s| - 1] as int) - ('A' as int))
  {
  }

  /** Numbers from 26 on are named by the name of their quotient less one, then a letter. */
  lemma ColumnLettersStep(k: nat, c: char)
    requires 'A' <= c <= 'Z'
    ensures ColumnLetters((k + 1) * 26 + ((c as int) - ('A' as int))) == ColumnLetters(k) + [c]
  {
    LetterOfCapital(c);
    ColumnLettersUnfold(k, (c as int) - ('A' as int), c);
  }

  /** Numbers from 26 on are named by the name of their quotient less one, then a letter. */
  lemma ColumnLettersUnfold(k: nat, r: nat, c: char)
    requires r < 26 && Letter(r) == c
    ensures ColumnLetters((k + 1) * 26 + r) == ColumnLetters(k) + [c]
  {
    var n := (k + 1) * 26 + r;
    assert n / 26 == k + 1 && n % 26 == r;
  }  /** Distinct columns get distinct names. */
  lemma ColumnLettersInjective(i: nat, j: nat)
    requires ColumnLetters(i) == ColumnLetters(j)
    ensures i == j
  {
    ColumnIndexOfLetters(i);
    ColumnIndexOfLetters(j);
  }

  /** The corrected names continue with "Y", "Z" and "AA". */
  lemma ColumnLettersAroundZ()
    ensures ColumnLetters(24) == "Y" && ColumnLetters(25) == "Z" && ColumnLetters(26) == "AA"
  {
  }

  /** Below column 24 the code as written already gives the right name. */
  lemma ExcelRowAgreesBelow24(j: nat)
    requires j <= 23
    ensures ExcelRowOf(j) == ColumnLetters(j)
  {
    ExcelRowSingleLetter(j);
    LettersInOrder();
  }

  // ---------------------------------------------------------- letters that are reused

  /** Only number 0 has no letters. */
  lemma LettersOfEmpty(n: nat)
    requires LettersOf(n) == []
    ensures n == 0
  {
  }

  /** Only remainder 1 yields 'A'. */
  lemma PhpLetterA(r: nat)
    requires r < 25 && PhpLetter(r) == 'A'
    ensures r == 1
  {
  }

  /** Only number 1 is written "A". */
  lemma LettersOfA(m: nat)
    requires LettersOf(m) == "A"
    ensures m == 1
  {
    assert m != 0;
    var p := LettersOf(m / 26);
    assert LettersOf(m) == p + [PhpLetter(m % 25)];
    assert |p| == 0;
    assert LettersOf(m)[0] == PhpLetter(m % 25) == 'A';
    LettersOfEmpty(m / 26);
    PhpLetterA(m % 25);
  }

  /** Only columns 25 and 50 are written "AA". */
  lemma ExcelRowAA(j: nat)
    requires ExcelRowOf(j) == "AA"
    ensures j == 25 || j == 50
  {
    var n := j + 1;
    var p := LettersOf(n / 26);
    assert LettersOf(n) == p + [PhpLetter(n % 25)];
    assert |p| == 1;
    assert LettersOf(n)[0] == p[0] == 'A';
    assert LettersOf(n)[1] == PhpLetter(n % 25) == 'A';
    assert p == "A";
    LettersOfA(n / 26);
    PhpLetterA(n % 25);
  }

  /** Only column 24 is written "Z". */
  lemma ExcelRowZ(j: nat)
    requires ExcelRowOf(j) == "Z"
    ensures j == 24
  {
    var n := j + 1;
    var p := LettersOf(n / 26);
    assert LettersOf(n) == p + [PhpLetter(n % 25)];
    assert |p| == 0;
    assert LettersOf(n)[0] == PhpLetter(n % 25) == 'Z';
    LettersOfEmpty(n / 26);
  }

  // ---------------------------------------------------------- sheet layout

  /** A cell reference: column name and 1-based row number. */
  datatype CellRef = CellRef(column: string, row: nat)

  type Sheet = map<CellRef, string>

  /** An exported table: the visible fields of each of its rows. */
  type Table = seq<seq<Field>>

  /** How a column number is written: ExcelRowOf as written, ColumnLetters corrected. */
  type Naming = nat -> string

  const NoRecordsMessage: string := "No records found"
  const NoTablesMessage: string := "No tables found in writables."

  /** The header writes of columns 0 .. n - 1 into row 1, in order; a later write to a cell replaces an earlier one. */
  function HeaderCells(first: seq<Field>, name: Naming, n: nat): Sheet
    requires n <= |first|
    decreases n
  {
    if n == 0 then map[]
    else HeaderCells(first, name, n - 1)[CellRef(name(n - 1), 1) := first[n - 1].labelText]
  }

  /** The writes of fields 0 .. n - 1 of one table row into sheet row r, skipping empty initial values. */
  function RowCells(sheet: Sheet, row: seq<Field>, r: nat, name: Naming, n: nat): Sheet
    requires n <= |row|
    decreases n
  {
    if n == 0 then sheet
    else
      var s := RowCells(sheet, row, r, name, n - 1);
      if row[n - 1].initial != "" then s[CellRef(name(n - 1), r) := row[n - 1].initial] else s
  }

  /** The writes of table rows 0 .. i - 1, table row m going to sheet row m + 2. */
  function DataCells(sheet: Sheet, t: Table, name: Naming, i: nat): Sheet
    requires i <= |t|
    decreases i
  {
    if i == 0 then sheet else RowCells(DataCells(sheet, t, name, i - 1), t[i - 1], i + 1, name, |t[i - 1]|)
  }

  /** The sheet written for a table, its columns named by name. */
  function SheetBy(t: Table, name: Naming): Sheet {
    if t == [] then map[CellRef("A", 1) := NoRecordsMessage]
    else DataCells(HeaderCells(t[0], name, |t[0]|), t, name, |t|)
  }

  /** Writes one table into a fresh sheet: the header, then the data cells row by row. */
  method WriteSheet(t: Table, name: Naming) returns (sheet: Sheet)
    ensures sheet == SheetBy(t, name)
    ensures t == [] ==> sheet == map[CellRef("A", 1) := NoRecordsMessage]
  {
    sheet := map[];
    if |t| == 0 {
      sheet := sheet[CellRef("A", 1) := NoRecordsMessage];
      return;
    }
    for j := 0 to |t[0]|
      invariant sheet == HeaderCells(t[0], name, j)
    {
      sheet := sheet[CellRef(name(j), 1) := t[0][j].labelText];
    }
    ghost var header := sheet;
    for i := 0 to |t|
      invariant sheet == DataCells(header, t, name, i)
    {
      for j := 0 to |t[i]|
        invariant sheet == RowCells(DataCells(header, t, name, i), t[i], i + 2, name, j)
      {
        if t[i][j].initial != "" {
          sheet := sheet[CellRef(name(j), i + 2) := t[i][j].initial];
        }
      }
    }
  }

  // ------------------------------------------ the layout under the corrected naming

  /** Row 1 holds one header cell per visible field of the first row. */
  predicate IsHeaderCell(t: Table, c: CellRef)
    requires |t| > 0
  {
    c.row == 1 && IsColumn(c.column) && ColumnIndex(c.column) < |t[0]|
  }

  /** Table row i is sheet row i + 2; a cell exists only for a non-empty initial value. */
  predicate IsDataCell(t: Table, c: CellRef) {
    2 <= c.row < |t| + 2 && IsColumn(c.column) && ColumnIndex(c.column) < |t[c.row - 2]|
    && t[c.row - 2][ColumnIndex(c.column)].initial != ""
  }

  function CellValue(t: Table, c: CellRef): string
    requires |t| > 0 && (IsHeaderCell(t, c) || IsDataCell(t, c))
  {
    if c.row == 1 then t[0][ColumnIndex(c.column)].labelText
    else t[c.row - 2][ColumnIndex(c.column)].initial
  }

  /** The sheet of a non-empty table holds its header and data cells and nothing else. */
  ghost predicate LaidOut(t: Table, sheet: Sheet)
    requires |t| > 0
  {
    (forall c :: c in sheet <==> IsHeaderCell(t, c) || IsDataCell(t, c)) &&
    (forall c :: c in sheet ==> sheet[c] == CellValue(t, c))
  }

  /** The sheet exported for a table. */
  ghost predicate SheetOf(t: Table, sheet: Sheet) {
    if t == [] then sheet == map[CellRef("A", 1) := NoRecordsMessage] else LaidOut(t, sheet)
  }

  /** The data cells of rows before i, and of row i before column j. */
  predicate DataCellBefore(t: Table, c: CellRef, i: nat, j: nat) {
    IsDataCell(t, c) && (c.row - 2 < i || (c.row - 2 == i && ColumnIndex(c.column) < j))
  }

  /** A cell of row 1 in one of the first n columns. */
  predicate InHeader(c: CellRef, n: nat) {
    c.row == 1 && IsColumn(c.column) && ColumnIndex(c.column) < n
  }

  /** Row 1 holds the labels of the first n columns, and there is no other cell. */
  ghost predicate HeaderLaid(first: seq<Field>, s: Sheet, n: nat)
    requires n <= |first|
  {
    (forall c :: c in s <==> InHeader(c, n)) &&
    (forall c :: c in s ==> s[c] == first[ColumnIndex(c.column)].labelText)
  }

  /** The header and the data cells before row i, column j, and no other cell. */
  ghost predicate PartlyLaidOut(t: Table, s: Sheet, i: nat, j: nat)
    requires |t| > 0
  {
    (forall c :: c in s <==> IsHeaderCell(t, c) || DataCellBefore(t, c, i, j)) &&
    (forall c :: c in s ==> s[c] == CellValue(t, c))
  }

  /** A naming that gives every column its own name, which ColumnIndex reads back. */
  ghost predicate Bijective(name: Naming) {
    (forall j: nat :: IsColumn(name(j)) && ColumnIndex(name(j)) == j) &&
    (forall s :: IsColumn(s) ==> name(ColumnIndex(s)) == s)
  }

  /** The corrected naming is a bijection between column numbers and column names. */
  lemma ColumnLettersBijective()
    ensures Bijective(ColumnLetters)
  {
    forall j: nat
      ensures IsColumn(ColumnLetters(j)) && ColumnIndex(ColumnLetters(j)) == j
    {
      ColumnIndexOfLetters(j);
    }
    forall s | IsColumn(s)
      ensures ColumnLetters(ColumnIndex(s)) == s
    {
      ColumnLettersOfIndex(s);
    }
  }

  /** The header write of column n - 1 keeps the header laid out. */
  lemma HeaderCellLaid(first: seq<Field>, name: Naming, n: nat)
    requires Bijective(name)
    requires 0 < n <= |first| && HeaderLaid(first, HeaderCells(first, name, n - 1), n - 1)
    ensures HeaderLaid(first, HeaderCells(first, name, n), n)
  {
    var s := HeaderCells(first, name, n - 1);
    var cell := CellRef(name(n - 1), 1);
    var s' := HeaderCells(first, name, n);
    assert s' == s[cell := first[n - 1].labelText];
    assert IsColumn(name(n - 1)) && ColumnIndex(name(n - 1)) == n - 1;
    forall c
      ensures c in s' <==> InHeader(c, n)
    {
      if InHeader(c, n) && ColumnIndex(c.column) == n - 1 {
        assert name(ColumnIndex(c.column)) == c.column;
      }
    }
    forall c | c in s'
      ensures s'[c] == first[ColumnIndex(c.column)].labelText
    {
      if c != cell {
        assert c in s;
      }
    }
  }

  lemma {:induction false} HeaderCellsLaid(first: seq<Field>, name: Naming, n: nat)
    requires Bijective(name)
    requires n <= |first|
    ensures HeaderLaid(first, HeaderCells(first, name, n), n)
    decreases n
  {
    if n > 0 {
      HeaderCellsLaid(first, name, n - 1);
      HeaderCellLaid(first, name, n);
    }
  }

  /** One data write, or the skip of an empty value, keeps the sheet partly laid out. */
  lemma RowCellLaid(t: Table, name: Naming, s: Sheet, i: nat, j: nat)
    requires Bijective(name)
    requires |t| > 0 && i < |t| && j < |t[i]| && PartlyLaidOut(t, s, i, j)
    ensures t[i][j].initial != "" ==> PartlyLaidOut(t, s[CellRef(name(j), i + 2) := t[i][j].initial], i, j + 1)
    ensures t[i][j].initial == "" ==> PartlyLaidOut(t, s, i, j + 1)
  {
    assert IsColumn(name(j)) && ColumnIndex(name(j)) == j;
    if t[i][j].initial != "" {
      var cell := CellRef(name(j), i + 2);
      forall c | IsDataCell(t, c) && c.row == i + 2 && ColumnIndex(c.column) == j
        ensures c == cell
      {
        assert name(ColumnIndex(c.column)) == c.column;
      }
    } else {
      forall c | IsDataCell(t, c) && c.row == i + 2
        ensures ColumnIndex(c.column) != j
      {
      }
    }
  }

  lemma {:induction false} RowCellsLaid(t: Table, name: Naming, s: Sheet, i: nat, n: nat)
    requires Bijective(name)
    requires |t| > 0 && i < |t| && n <= |t[i]|
    requires PartlyLaidOut(t, s, i, 0)
    ensures PartlyLaidOut(t, RowCells(s, t[i], i + 2, name, n), i, n)
    decreases n
  {
    if n > 0 {
      RowCellsLaid(t, name, s, i, n - 1);
      RowCellLaid(t, name, RowCells(s, t[i], i + 2, name, n - 1), i, n - 1);
    }
  }

  lemma {:induction false} DataCellsLaid(t: Table, name: Naming, s: Sheet, i: nat)
    requires Bijective(name)
    requires |t| > 0 && i <= |t|
    requires PartlyLaidOut(t, s, 0, 0)
    ensures PartlyLaidOut(t, DataCells(s, t, name, i), i, 0)
    decreases i
  {
    if i > 0 {
      DataCellsLaid(t, name, s, i - 1);
      RowCellsLaid(t, name, DataCells(s, t, name, i - 1), i - 1, |t[i - 1]|);
      forall c
        ensures DataCellBefore(t, c, i - 1, |t[i - 1]|) <==> DataCellBefore(t, c, i, 0)
      {
      }
    }
  }

  /** Any bijective naming lays every table out as SheetOf describes. */
  lemma BijectiveLayout(t: Table, name: Naming)
    requires Bijective(name)
    ensures SheetOf(t, SheetBy(t, name))
  {
    if t != [] {
      var header := HeaderCells(t[0], name, |t[0]|);
      HeaderCellsLaid(t[0], name, |t[0]|);
      HeaderStartsLayout(t, header);
      DataCellsLaid(t, name, header, |t|);
      LayoutCompleted(t, DataCells(header, t, name, |t|));
    }
  }

  lemma HeaderStartsLayout(t: Table, s: Sheet)
    requires |t| > 0 && HeaderLaid(t[0], s, |t[0]|)
    ensures PartlyLaidOut(t, s, 0, 0)
  {
  }

  lemma LayoutCompleted(t: Table, s: Sheet)
    requires |t| > 0 && PartlyLaidOut(t, s, |t|, 0)
    ensures LaidOut(t, s)
  {
    forall c
      ensures DataCellBefore(t, c, |t|, 0) <==> IsDataCell(t, c)
    {
    }
  }

  /** Under the corrected naming every table is laid out as SheetOf describes. */
  lemma CorrectedLayout(t: Table)
    ensures SheetOf(t, SheetBy(t, ColumnLetters))
  {
    ColumnLettersBijective();
    BijectiveLayout(t, ColumnLetters);
  }

  /**
   * The layout in cell terms: the header cell of column j holds the j-th
   * label of the first row; the cell of column j and sheet row i + 2 exists
   * exactly when field j of row i has a non-empty initial value, and holds
   * that value.
   */
  lemma LayoutCells(t: Table, sheet: Sheet, i: nat, j: nat)
    requires |t| > 0 && LaidOut(t, sheet)
    ensures j < |t[0]| ==> CellRef(ColumnLetters(j), 1) in sheet && sheet[CellRef(ColumnLetters(j), 1)] == t[0][j].labelText
    ensures i < |t| && j < |t[i]| ==>
      (CellRef(ColumnLetters(j), i + 2) in sheet <==> t[i][j].initial != "") &&
      (t[i][j].initial != "" ==> sheet[CellRef(ColumnLetters(j), i + 2)] == t[i][j].initial)
    ensures CellRef("A", 1) in sheet <==> |t[0]| > 0
  {
    ColumnIndexOfLetters(j);
    var a := CellRef("A", 1);
    assert IsColumn(a.column) && ColumnIndex(a.column) == 0;
    assert a in sheet <==> IsHeaderCell(t, a);
    if j < |t[0]| {
      assert IsHeaderCell(t, CellRef(ColumnLetters(j), 1));
    }
    if i < |t| && j < |t[i]| {
      var c := CellRef(ColumnLetters(j), i + 2);
      assert !IsHeaderCell(t, c);
      assert IsDataCell(t, c) <==> t[i][j].initial != "";
    }
  }

  /** A table has exactly one layout. */
  lemma LayoutUnique(t: Table, s1: Sheet, s2: Sheet)
    requires SheetOf(t, s1) && SheetOf(t, s2)
    ensures s1 == s2
  {
    if t != [] {
      assert s1.Keys == s2.Keys;
    }
  }

  // ------------------------------------------ the layout under excelRow as written

  /** When no later column shares column k's name, the header cell of that name holds label k. */
  lemma {:induction false} LastHeaderWriteWins(first: seq<Field>, name: Naming, n: nat, k: nat)
    requires k < n <= |first|
    requires forall j: nat :: k < j < n ==> name(j) != name(k)
    ensures CellRef(name(k), 1) in HeaderCells(first, name, n)
    ensures HeaderCells(first, name, n)[CellRef(name(k), 1)] == first[k].labelText
    decreases n
  {
    if k < n - 1 {
      LastHeaderWriteWins(first, name, n - 1, k);
    }
  }

  /** Writing one table row leaves every other sheet row as it was. */
  lemma {:induction false} RowCellsKeepOtherRows(sheet: Sheet, row: seq<Field>, r: nat, name: Naming, n: nat, c: CellRef)
    requires n <= |row| && c.row != r
    ensures c in RowCells(sheet, row, r, name, n) <==> c in sheet
    ensures c in sheet ==> RowCells(sheet, row, r, name, n)[c] == sheet[c]
    decreases n
  {
    if n > 0 {
      RowCellsKeepOtherRows(sheet, row, r, name, n - 1, c);
    }
  }

  /** The data cells never touch the header row. */
  lemma {:induction false} DataCellsKeepHeader(sheet: Sheet, t: Table, name: Naming, i: nat, c: CellRef)
    requires i <= |t| && c.row == 1
    ensures c in DataCells(sheet, t, name, i) <==> c in sheet
    ensures c in sheet ==> DataCells(sheet, t, name, i)[c] == sheet[c]
    decreases i
  {
    if i > 0 {
      DataCellsKeepHeader(sheet, t, name, i - 1, c);
      RowCellsKeepOtherRows(DataCells(sheet, t, name, i - 1), t[i - 1], i + 1, name, |t[i - 1]|, c);
    }
  }

  /**
   * The overwrite excelRow causes: in a table of 51 or more columns the
   * label of column 50 replaces that of column 25 in cell AA1, and the
   * label of column 24 lands in Z1.
   */
  lemma AsWrittenHeaderOverwrite(t: Table)
    requires |t| > 0 && |t[0]| >= 51
    ensures var s := SheetBy(t, ExcelRowOf);
      CellRef("AA", 1) in s && s[CellRef("AA", 1)] == t[0][50].labelText &&
      CellRef("Z", 1) in s && s[CellRef("Z", 1)] == t[0][24].labelText
  {
    var n := |t[0]|;
    ExcelRowCollision();
    ExcelRowSkipsY();
    forall j: nat | 50 < j < n ensures ExcelRowOf(j) != ExcelRowOf(50) {
      if ExcelRowOf(j) == "AA" {
        ExcelRowAA(j);
      }
    }
    forall j: nat | 24 < j < n ensures ExcelRowOf(j) != ExcelRowOf(24) {
      if ExcelRowOf(j) == "Z" {
        ExcelRowZ(j);
      }
    }
    LastHeaderWriteWins(t[0], ExcelRowOf, n, 50);
    LastHeaderWriteWins(t[0], ExcelRowOf, n, 24);
    var header := HeaderCells(t[0], ExcelRowOf, n);
    DataCellsKeepHeader(header, t, ExcelRowOf, |t|, CellRef("AA", 1));
    DataCellsKeepHeader(header, t, ExcelRowOf, |t|, CellRef("Z", 1));
  }

  lemma {:induction false} HeaderCellsSameNames(first: seq<Field>, n1: Naming, n2: Naming, n: nat)
    requires n <= |first|
    requires forall j: nat :: j < n ==> n1(j) == n2(j)
    ensures HeaderCells(first, n1, n) == HeaderCells(first, n2, n)
    decreases n
  {
    if n > 0 {
      HeaderCellsSameNames(first, n1, n2, n - 1);
    }
  }

  lemma {:induction false} RowCellsSameNames(sheet: Sheet, row: seq<Field>, r: nat, n1: Naming, n2: Naming, n: nat)
    requires n <= |row|
    requires forall j: nat :: j < n ==> n1(j) == n2(j)
    ensures RowCells(sheet, row, r, n1, n) == RowCells(sheet, row, r, n2, n)
    decreases n
  {
    if n > 0 {
      RowCellsSameNames(sheet, row, r, n1, n2, n - 1);
    }
  }

  lemma {:induction false} DataCellsSameNames(sheet: Sheet, t: Table, n1: Naming, n2: Naming, w: nat, i: nat)
    requires i <= |t|
    requires forall m :: 0 <= m < |t| ==> |t[m]| <= w
    requires forall j: nat :: j < w ==> n1(j) == n2(j)
    ensures DataCells(sheet, t, n1, i) == DataCells(sheet, t, n2, i)
    decreases i
  {
    if i > 0 {
      DataCellsSameNames(sheet, t, n1, n2, w, i - 1);
      RowCellsSameNames(DataCells(sheet, t, n1, i - 1), t[i - 1], i + 1, n1, n2, |t[i - 1]|);
    }
  }

  /**
   * Tables of at most 24 columns: the code as written produces exactly the
   * corrected sheet, so it lays them out as SheetOf describes.
   */
  lemma NarrowTablesUnaffected(t: Table)
    requires forall i :: 0 <= i < |t| ==> |t[i]| <= 24
    ensures SheetBy(t, ExcelRowOf) == SheetBy(t, ColumnLetters)
    ensures SheetOf(t, SheetBy(t, ExcelRowOf))
  {
    forall j: nat | j < 24 ensures ExcelRowOf(j) == ColumnLetters(j) {
      ExcelRowAgreesBelow24(j);
    }
    if t != [] {
      HeaderCellsSameNames(t[0], ExcelRowOf, ColumnLetters, |t[0]|);
      DataCellsSameNames(HeaderCells(t[0], ExcelRowOf, |t[0]|), t, ExcelRowOf, ColumnLetters, 24, |t|);
    }
    CorrectedLayout(t);
  }

  /**
   * renderExcel, given the collected tables and the column naming: fails
   * without tables; otherwise one sheet per table, in order, after the
   * workbook's initial sheet 0 is removed.
   */
  method RenderExcel(tables: seq<Table>, name: Naming) returns (r: Result<seq<Sheet>, string>)
    ensures r.Failure? <==> tables == []
    ensures r.Failure? ==> r.error == NoTablesMessage
    ensures r.Success? ==> |r.value| == |tables| && forall k :: 0 <= k < |tables| ==> r.value[k] == SheetBy(tables[k], name)
  {
    if tables == [] {
      return Failure(NoTablesMessage);
    }
    var workbook: seq<Sheet> := [map[]];
    for k := 0 to |tables|
      invariant |workbook| == k + 1
      invariant forall m :: 0 <= m < k ==> workbook[m + 1] == SheetBy(tables[m], name)
    {
      var sheet := WriteSheet(tables[k], name);
      workbook := workbook + [sheet];
    }
    workbook := workbook[1..];
    r := Success(workbook);
  }

  // ---------------------------------------------------------- rendering

  const PageTypePdf: string := "pdf"
  const PageTypeExcel: string := "excel"

  /** The render functions a page can be given or choose by default. */
  datatype RenderFunction =
    | RenderPdf
    | RenderExcelFunction
    | EchoWriter           // echo the writer's output for the page
    | Custom(name: string) // a callable passed in by the caller

  /** makeDefaultRendererFunction: PDF and Excel pages have their own; every other type echoes. */
  function DefaultRenderFunction(pageType: string): (f: RenderFunction)
    ensures f == RenderPdf <==> pageType == PageTypePdf
    ensures f == RenderExcelFunction <==> pageType == PageTypeExcel
    ensures f == EchoWriter <==> pageType != PageTypePdf && pageType != PageTypeExcel
  {
    if pageType == PageTypePdf then RenderPdf
    else if pageType == PageTypeExcel then RenderExcelFunction
    else EchoWriter
  }

  /** The defaults Settings supplies: the initializer and writer classes. */
  datatype Settings = Settings(initializerClass: string, writerClass: string)

  /** The steps of render, in the order they happen. */
  datatype Step =
    | Initialised(initializerClass: string, page: Initializers.Writable)
    | Rendered(renderFunction: RenderFunction, writerClass: string, page: Initializers.Writable)

  /**
   * render: every argument left out is replaced by its default; the
   * initializer then visits the page, and only afterwards is the render
   * function called, on the page as initialised.
   */
  method Render(page: Initializers.Writable, initializer: Option<string>, writer: Option<string>,
                renderFunction: Option<RenderFunction>, settings: Settings,
                requestMethod: string, isValid: Initializers.Validity)
    returns (steps: seq<Step>, events: seq<Initializers.Event>)
    requires page.PageNode?
    ensures var init := Initializers.Initialize(page, requestMethod, isValid);
      steps == [Initialised(initializer.GetOr(settings.initializerClass), page),
                Rendered(renderFunction.GetOr(DefaultRenderFunction(page.pageType)), writer.GetOr(settings.writerClass), init.0)]
      && events == init.1
    ensures steps[1].page.pageType == page.pageType && steps[1].page.title == page.title
  {
    var init := if initializer.None? then settings.initializerClass else initializer.value;
    var w := if writer.None? then settings.writerClass else writer.value;
    var rf := if renderFunction.None? then DefaultRenderFunction(page.pageType) else renderFunction.value;
    var initialised;
    initialised, events := Initializers.VisitPage(page, requestMethod, isValid);
    steps := [Initialised(init, page), Rendered(rf, w, initialised)];
  }
}
