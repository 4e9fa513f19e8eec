/**
 * The import of an Orbis spreadsheet export into the company roster: cell
 * text, header normalisation and the search for the header row, the
 * check that every required column was found, industry-code, website and
 * domain normalisation, legal-suffix stripping and alias generation, and
 * the row loop that writes companies and records the dropped rows.
 *
 * A workbook is a sequence of sheets, each a title and its rows of cells;
 * reading the file and writing the CSV outputs are not part of the model.
 */
module OrbisImport {
  import opened Wrappers
  import opened Text
  import opened Seqs
  import opened Sorting

  // ---------------------------------------------------------------------
  // Cells
  // ---------------------------------------------------------------------

  /**
   * A cell value as openpyxl returns it. A float carries `str(value)` and,
   * when `value.is_integer()`, `int(value)`; the float arithmetic itself is
   * not modelled.
   */
  datatype Cell = NoneCell | IntCell(n: int) | FloatCell(repr: string, whole: Option<int>) | TextCell(text: string)

  datatype Sheet = Sheet(title: string, rows: seq<seq<Cell>>)

  /** `str(value)` for a cell that is not None. */
  function Shown(c: Cell): string {
    match c
    case NoneCell => "None"
    case IntCell(n) => IntToString(n)
    case FloatCell(repr, _) => repr
    case TextCell(t) => t
  }

  /** `_to_str`: "" for None, integral floats without ".0", text stripped. */
  function ToStr(c: Cell): (r: string)
    ensures c.TextCell? ==> r == Strip(c.text)
  {
    match c
    case NoneCell => ""
    case IntCell(n) => IntToString(n)
    case FloatCell(repr, whole) => if whole.Some? then IntToString(whole.value) else repr
    case TextCell(t) => Strip(t)
  }

  /**
   * `_to_str(value).strip()`, case by case: the text of an integer has no
   * whitespace to strip (see `CellTextAsWritten`).
   */
  function CellText(c: Cell): string {
    match c
    case NoneCell => ""
    case IntCell(n) => IntToString(n)
    case FloatCell(repr, whole) => if whole.Some? then IntToString(whole.value) else Strip(repr)
    case TextCell(t) => Strip(t)
  }

  lemma CellTextAsWritten(c: Cell)
    ensures CellText(c) == Strip(ToStr(c))
  {
    match c
    case NoneCell =>
    case IntCell(n) =>
      IntToStringChars(n);
      StripNoEdgeSpace(IntToString(n));
    case FloatCell(repr, whole) =>
      if whole.Some? {
        IntToStringChars(whole.value);
        StripNoEdgeSpace(IntToString(whole.value));
      }
    case TextCell(t) =>
      StripIdempotent(t);
  }

  /** openpyxl pads every row to the sheet's width, so a column past a short row reads None. */
  function CellAt(row: seq<Cell>, col: nat): Cell {
    if col < |row| then row[col] else NoneCell
  }

  // ---------------------------------------------------------------------
  // Headers
  // ---------------------------------------------------------------------

  /**
   * `_normalize_header`: whitespace runs, line breaks included, become one
   * space, and the text is lower-cased. The text of an integer cell has
   * neither whitespace nor capitals and is its own normal form.
   */
  function NormalizeHeader(c: Cell): string {
    match c
    case NoneCell => ""
    case IntCell(n) => IntToString(n)
    case FloatCell(repr, _) => Lower(Collapse(repr))
    case TextCell(t) => Lower(Collapse(t))
  }

  /** The header is `" ".join(str(value).split()).strip().lower()`, with "" for None. */
  lemma NormalizeHeaderAsWritten(c: Cell)
    ensures var text := if c.NoneCell? then "" else Shown(c);
      NormalizeHeader(c) == Lower(Strip(Collapse(text)))
  {
    var text := if c.NoneCell? then "" else Shown(c);
    CollapseShape(text);
    CollapsedStrip(Collapse(text));
    if c.IntCell? {
      var s := IntToString(c.n);
      IntToStringChars(c.n);
      CollapseFixpoint(s);
      LoweredFixpoint(s);
    }
  }

  /** The text of an integer has neither whitespace nor capitals. */
  lemma IntToStringChars(n: int)
    ensures forall i | 0 <= i < |IntToString(n)| :: !IsSpace(IntToString(n)[i]) && !IsUpperAscii(IntToString(n)[i])
  {
    var s := IntToString(n);
    if n < 0 {
      var d := NatToString(-n);
      assert s == "-" + d;
      assert forall i | 1 <= i < |s| :: s[i] == d[i - 1];
    }
  }

  /** A normalised header has single interior spaces only, is lower case, and normalises to itself. */
  lemma NormalizeHeaderIdempotent(c: Cell)
    ensures Collapsed(NormalizeHeader(c)) && IsLowered(NormalizeHeader(c))
    ensures NormalizeHeader(TextCell(NormalizeHeader(c))) == NormalizeHeader(c)
  {
    var h := NormalizeHeader(c);
    if c.IntCell? {
      IntToStringChars(c.n);
    } else if !c.NoneCell? {
      var text := Shown(c);
      CollapseShape(text);
      CollapsedLower(Collapse(text));
      LowerIdempotent(Collapse(text));
    }
    CollapseFixpoint(h);
    LoweredFixpoint(h);
  }

  /** A line break inside a header reads as a space, so the multi-line export header finds its key. */
  lemma NormalizeHeaderLineBreak(a: string, b: string)
    ensures NormalizeHeader(TextCell(a + "\n" + b)) == NormalizeHeader(TextCell(a + " " + b))
  {
    WordsSameSpaces(a + "\n" + b, a + " " + b);
  }

  /** Two texts with whitespace in the same places and the same other characters split into the same words. */
  lemma {:induction false} WordsSameSpaces(s: string, t: string)
    requires |s| == |t|
    requires forall i | 0 <= i < |s| :: s[i] == t[i] || (IsSpace(s[i]) && IsSpace(t[i]))
    ensures Words(s) == Words(t)
    decreases |s|
  {
    if s != [] {
      if IsSpace(s[0]) {
        WordsSameSpaces(s[1..], t[1..]);
      } else {
        TakeWordSame(s, t);
        var w := TakeWord(s);
        WordsSameSpaces(s[|w|..], t[|w|..]);
      }
    }
  }

  lemma {:induction false} TakeWordSame(s: string, t: string)
    requires |s| == |t|
    requires forall i | 0 <= i < |s| :: s[i] == t[i] || (IsSpace(s[i]) && IsSpace(t[i]))
    ensures TakeWord(s) == TakeWord(t)
    decreases |s|
  {
    if s != [] && !IsSpace(s[0]) {
      TakeWordSame(s[1..], t[1..]);
    }
  }

  /**
   * A header table: normalised headers, each with the column key it fills.
   * Several headers may fill the same key.
   */
  type HeaderTable = seq<(string, string)>

  /** `REQUIRED_HEADERS` in its declared order. */
  const RequiredHeaders: HeaderTable := [
    ("ragione socialecaratteri latini", "name"),
    ("ragione sociale caratteri latini", "name"),
    ("numero bvd id", "company_id"),
    ("paese", "country"),
    ("nace rev. 2, codici/e primari/o - descrizione", "industry_description"),
    ("codice nace rev. 2, core code (4 cifre)", "industry_code"),
    ("totale valore della produzione mil eur ultimo anno disp.", "revenue_mil"),
    ("indirizzo sito web", "website")]

  /** `set(table.values())`. */
  function KeysOf(table: HeaderTable): set<string> {
    set i | 0 <= i < |table| :: table[i].1
  }

  /** The normalised headers of a row, column by column. */
  function RowHeaders(row: seq<Cell>): (hs: seq<string>)
    ensures |hs| == |row|
  {
    seq(|row|, i requires 0 <= i < |row| => NormalizeHeader(row[i]))
  }

  /** The header-to-column map of a row of normalised headers: empty headers are skipped, later columns win. */
  function HeaderMap(hs: seq<string>): (m: map<string, nat>)
    ensures forall h | h in m :: h != "" && m[h] < |hs|
    decreases |hs|
  {
    if hs == [] then map[]
    else
      var m := HeaderMap(hs[..|hs| - 1]);
      var h := hs[|hs| - 1];
      if h != "" then m[h := |hs| - 1] else m
  }

  /** Every mapped header is the header of its column, and no later column carries it. */
  lemma {:induction false} HeaderMapColumns(hs: seq<string>, h: string)
    requires h in HeaderMap(hs)
    ensures hs[HeaderMap(hs)[h]] == h
    ensures forall j | HeaderMap(hs)[h] < j < |hs| :: hs[j] != h
    decreases |hs|
  {
    var init := hs[..|hs| - 1];
    if h != hs[|hs| - 1] {
      HeaderMapColumns(init, h);
    }
  }

  /** Every non-empty header of the row is mapped. */
  lemma {:induction false} HeaderMapHas(hs: seq<string>, col: nat)
    requires col < |hs| && hs[col] != ""
    ensures hs[col] in HeaderMap(hs)
    decreases |hs|
  {
    if col < |hs| - 1 {
      HeaderMapHas(hs[..|hs| - 1], col);
    }
  }

  /** One more column extends the header map of the columns before it. */
  lemma HeaderMapStep(hs: seq<string>, col: nat)
    requires col < |hs|
    ensures HeaderMap(hs[..col + 1]) == if hs[col] != "" then HeaderMap(hs[..col])[hs[col] := col] else HeaderMap(hs[..col])
  {
    assert hs[..col + 1][..col] == hs[..col];
  }

  /** The loop of `_find_header_row` that fills `current_map`. */
  method BuildHeaderMap(row: seq<Cell>) returns (current: map<string, nat>)
    ensures current == HeaderMap(RowHeaders(row))
  {
    ghost var hs := RowHeaders(row);
    current := map[];
    for col := 0 to |row|
      invariant current == HeaderMap(hs[..col])
    {
      var normalized := NormalizeHeader(row[col]);
      assert normalized == hs[col];
      HeaderMapStep(hs, col);
      if normalized != "" {
        current := current[normalized := col];
      }
    }
    assert hs[..|row|] == hs;
  }

  /** The `resolved` dict comprehension: the key of every header present, a later header for the same key winning. */
  function Resolve(m: map<string, nat>, table: HeaderTable): map<string, nat>
    decreases |table|
  {
    if table == [] then map[]
    else
      var r := Resolve(m, table[..|table| - 1]);
      var (h, k) := table[|table| - 1];
      if h in m then r[k := m[h]] else r
  }

  /** A key is resolved exactly when one of its headers is present, and its column is that of the last such header. */
  lemma ResolveKeys(m: map<string, nat>, table: HeaderTable, k: string)
    ensures k in Resolve(m, table) <==> exists i | 0 <= i < |table| :: table[i].1 == k && table[i].0 in m
    ensures k in Resolve(m, table) ==> exists i | 0 <= i < |table| ::
      table[i].1 == k && table[i].0 in m && Resolve(m, table)[k] == m[table[i].0]
      && forall j | i < j < |table| :: table[j].1 != k || table[j].0 !in m
  {
    if k in Resolve(m, table) {
      var i := ResolveLast(m, table, k);
    } else if exists i | 0 <= i < |table| :: table[i].1 == k && table[i].0 in m {
      var i :| 0 <= i < |table| && table[i].1 == k && table[i].0 in m;
      ResolveFrom(m, table, k, i);
    }
  }

  /** A present header resolves its key. */
  lemma {:induction false} ResolveFrom(m: map<string, nat>, table: HeaderTable, k: string, i: nat)
    requires i < |table| && table[i].1 == k && table[i].0 in m
    ensures k in Resolve(m, table)
    decreases |table|
  {
    var last := |table| - 1;
    if i < last {
      var init := table[..last];
      assert init[i] == table[i];
      ResolveFrom(m, init, k, i);
    }
  }

  /** A resolved key takes the column of its last present header. */
  lemma {:induction false} ResolveLast(m: map<string, nat>, table: HeaderTable, k: string) returns (i: nat)
    requires k in Resolve(m, table)
    ensures i < |table| && table[i].1 == k && table[i].0 in m && Resolve(m, table)[k] == m[table[i].0]
    ensures forall j | i < j < |table| :: table[j].1 != k || table[j].0 !in m
    decreases |table|
  {
    var last := |table| - 1;
    var init := table[..last];
    if table[last].1 == k && table[last].0 in m {
      i := last;
    } else {
      i := ResolveLast(m, init, k);
      assert init[i] == table[i];
      forall j | i < j < |table| ensures table[j].1 != k || table[j].0 !in m {
        if j < last {
          assert init[j] == table[j];
        }
      }
    }
  }

  /** `sum(1 for key in table if key in current_map)`. */
  function MatchCount(m: map<string, nat>, table: HeaderTable): (n: nat)
    ensures n <= |table|
    decreases |table|
  {
    if table == [] then 0
    else MatchCount(m, table[..|table| - 1]) + if table[|table| - 1].0 in m then 1 else 0
  }

  /** `len(set(resolved.keys())) == len(required_keys)`. */
  predicate ResolvesAll(m: map<string, nat>, table: HeaderTable) {
    |Resolve(m, table).Keys| == |KeysOf(table)|
  }

  /** Resolved keys are keys of the table, so the cardinality test holds exactly when every key is resolved. */
  lemma ResolvesAllIff(m: map<string, nat>, table: HeaderTable)
    ensures Resolve(m, table).Keys <= KeysOf(table)
    ensures ResolvesAll(m, table) <==> KeysOf(table) <= Resolve(m, table).Keys
  {
    forall k | k in Resolve(m, table) ensures k in KeysOf(table) {
      ResolveKeys(m, table, k);
    }
    var keys, targets := Resolve(m, table).Keys, KeysOf(table);
    if |keys| == |targets| && !(targets <= keys) {
      var x :| x in targets && x !in keys;
      SubsetCard(keys, targets - {x});
    }
    if targets <= keys {
      assert keys == targets;
    }
  }

  lemma SubsetCard(a: set<string>, b: set<string>)
    requires a <= b
    ensures |a| <= |b|
  {
    assert b == a + (b - a);
  }

  // ---------------------------------------------------------------------
  // Header-row search (`_find_header_row`)
  // ---------------------------------------------------------------------

  /** A header row: its 1-based index, its header map and its match count. */
  datatype HeaderPick = HeaderPick(row: nat, header: map<string, nat>, count: nat)

  /** Where the search stands: a row that resolves every key, or the best row so far. */
  datatype Search = Found(pick: HeaderPick) | Best(pick: HeaderPick)

  const NoPick := HeaderPick(1, map[], 0)

  /** The search over the header maps of the first rows, row by row. */
  function SearchHeaders(maps: seq<map<string, nat>>, table: HeaderTable): Search
    decreases |maps|
  {
    if maps == [] then Best(NoPick)
    else
      var s := SearchHeaders(maps[..|maps| - 1], table);
      if s.Found? then s
      else
        var current := maps[|maps| - 1];
        var n := MatchCount(current, table);
        var best := if n > s.pick.count then HeaderPick(|maps|, current, n) else s.pick;
        if ResolvesAll(current, table) then Found(HeaderPick(|maps|, current, n)) else Best(best)
  }

  /** The first row that resolves every key wins. */
  lemma {:induction false} SearchFoundSpec(maps: seq<map<string, nat>>, table: HeaderTable)
    ensures var s := SearchHeaders(maps, table);
      s.Found? ==>
        && 1 <= s.pick.row <= |maps| && s.pick.header == maps[s.pick.row - 1]
        && ResolvesAll(s.pick.header, table) && s.pick.count == MatchCount(s.pick.header, table)
        && forall j | 0 <= j < s.pick.row - 1 :: !ResolvesAll(maps[j], table)
    decreases |maps|
  {
    if maps != [] {
      var init := maps[..|maps| - 1];
      SearchFoundSpec(init, table);
      SearchBestBound(init, table);
      assert forall j | 0 <= j < |init| :: init[j] == maps[j];
    }
  }

  /** When no row resolves every key, the best count bounds every row's count. */
  lemma {:induction false} SearchBestBound(maps: seq<map<string, nat>>, table: HeaderTable)
    ensures var s := SearchHeaders(maps, table);
      s.Best? ==> forall j | 0 <= j < |maps| :: !ResolvesAll(maps[j], table) && MatchCount(maps[j], table) <= s.pick.count
    decreases |maps|
  {
    if maps != [] {
      var init := maps[..|maps| - 1];
      SearchBestBound(init, table);
      assert forall j | 0 <= j < |init| :: init[j] == maps[j];
    }
  }

  /**
   * When no row resolves every key: the earliest row with the strictly
   * highest match count, or row 1 with an empty map when no row matches any
   * header.
   */
  lemma {:induction false} SearchBestSpec(maps: seq<map<string, nat>>, table: HeaderTable)
    ensures var s := SearchHeaders(maps, table);
      s.Best? ==>
        && (s.pick.count == 0 ==> s.pick == NoPick)
        && (s.pick.count > 0 ==>
              && 1 <= s.pick.row <= |maps| && s.pick.header == maps[s.pick.row - 1]
              && MatchCount(s.pick.header, table) == s.pick.count
              && forall j | 0 <= j < s.pick.row - 1 :: MatchCount(maps[j], table) < s.pick.count)
    decreases |maps|
  {
    if maps != [] {
      var init := maps[..|maps| - 1];
      SearchBestSpec(init, table);
      SearchBestBound(init, table);
      assert forall j | 0 <= j < |init| :: init[j] == maps[j];
    }
  }

  /** Once a row resolves every key, later rows change nothing. */
  lemma {:induction false} FoundStays(maps: seq<map<string, nat>>, table: HeaderTable, k: nat)
    requires k <= |maps| && SearchHeaders(maps[..k], table).Found?
    ensures SearchHeaders(maps, table) == SearchHeaders(maps[..k], table)
    decreases |maps| - k
  {
    if k < |maps| {
      assert maps[..k + 1][..k] == maps[..k];
      FoundStays(maps, table, k + 1);
    } else {
      assert maps[..k] == maps;
    }
  }

  const MaxHeaderRows := 200

  /** The header maps of the rows `_find_header_row` looks at. */
  function ScannedMaps(rows: seq<seq<Cell>>): (maps: seq<map<string, nat>>)
    ensures |maps| == if |rows| <= MaxHeaderRows then |rows| else MaxHeaderRows
    ensures forall i | 0 <= i < |maps| :: maps[i] == HeaderMap(RowHeaders(rows[i]))
  {
    var n := if |rows| <= MaxHeaderRows then |rows| else MaxHeaderRows;
    seq(n, i requires 0 <= i < n => HeaderMap(RowHeaders(rows[i])))
  }

  /** The header search of a sheet. */
  function SheetPick(sheet: Sheet, table: HeaderTable): HeaderPick {
    SearchHeaders(ScannedMaps(sheet.rows), table).pick
  }

  /** One more row of the search, while no row has resolved every key. */
  lemma SearchStep(maps: seq<map<string, nat>>, table: HeaderTable, idx: nat, best: HeaderPick)
    requires 1 <= idx <= |maps| && SearchHeaders(maps[..idx - 1], table) == Best(best)
    ensures var current := maps[idx - 1];
      var n := MatchCount(current, table);
      SearchHeaders(maps[..idx], table) ==
        if ResolvesAll(current, table) then Found(HeaderPick(idx, current, n))
        else Best(if n > best.count then HeaderPick(idx, current, n) else best)
  {
    assert maps[..idx][..idx - 1] == maps[..idx - 1];
  }

  /** Where the search of a sheet stands after its first `idx` scanned rows decides its pick. */
  lemma SheetPickAt(sheet: Sheet, table: HeaderTable, idx: nat, s: Search)
    requires idx <= |ScannedMaps(sheet.rows)| && SearchHeaders(ScannedMaps(sheet.rows)[..idx], table) == s
    requires s.Found? || idx == |ScannedMaps(sheet.rows)|
    ensures SheetPick(sheet, table) == s.pick
  {
    var maps := ScannedMaps(sheet.rows);
    if s.Found? {
      FoundStays(maps, table, idx);
    } else {
      assert maps[..idx] == maps;
    }
  }

  /** `_find_header_row`: the header row and map it settles on. */
  method FindHeaderRow(sheet: Sheet, table: HeaderTable) returns (pick: HeaderPick)
    ensures pick == SheetPick(sheet, table)
  {
    var rows := sheet.rows;
    ghost var maps := ScannedMaps(rows);
    var scanned := if |rows| <= MaxHeaderRows then |rows| else MaxHeaderRows;
    var bestMatch, bestHeader, bestRow := 0, map[], 1;
    for idx := 1 to scanned + 1
      invariant SearchHeaders(maps[..idx - 1], table) == Best(HeaderPick(bestRow, bestHeader, bestMatch))
    {
      var current := BuildHeaderMap(rows[idx - 1]);
      assert current == maps[idx - 1];
      SearchStep(maps, table, idx, HeaderPick(bestRow, bestHeader, bestMatch));
      var matchCount := MatchCount(current, table);
      if matchCount > bestMatch {
        bestMatch, bestHeader, bestRow := matchCount, current, idx;
      }
      if ResolvesAll(current, table) {
        pick := HeaderPick(idx, current, matchCount);
        SheetPickAt(sheet, table, idx, Found(pick));
        return;
      }
    }
    pick := HeaderPick(bestRow, bestHeader, bestMatch);
    SheetPickAt(sheet, table, scanned, Best(pick));
  }

  // ---------------------------------------------------------------------
  // Required columns
  // ---------------------------------------------------------------------

  /** The column of every key of `RequiredHeaders`. */
  datatype Columns = Columns(
    companyId: nat, name: nat, country: nat, industryDescription: nat,
    industryCode: nat, revenue: nat, website: nat)

  function KeyOf(pair: (string, string)): string { pair.1 }

  /** Python's `<` on strings, as a sort order. */
  predicate StrOrder(a: string, b: string) { LexLe(a, b) }

  lemma StrOrderPreorder()
    ensures TotalPreorder(StrOrder)
  {
    forall a, b ensures StrOrder(a, b) || StrOrder(b, a) {
      LexLeTotal(a, b);
    }
    forall a, b, c | StrOrder(a, b) && StrOrder(b, c) ensures StrOrder(a, c) {
      LexLeTransitive(a, b, c);
    }
  }

  /** `sorted(key for key in required_keys if key not in required)`. */
  function MissingKeys(required: map<string, nat>, table: HeaderTable): seq<string> {
    SortBy(Filter(Dedupe(Map(table, KeyOf)), k => k !in required), StrOrder)
  }

  /** The missing keys are exactly the unresolved keys of the table, each once, in sorted order. */
  lemma MissingKeysSpec(required: map<string, nat>, table: HeaderTable)
    ensures forall k :: k in MissingKeys(required, table) <==> k in KeysOf(table) && k !in required
    ensures SortedBy(MissingKeys(required, table), StrOrder)
    ensures NoDuplicates(MissingKeys(required, table))
  {
    var keys := Map(table, KeyOf);
    KeysOfTable(table);
    var distinct := Dedupe(keys);
    DedupeNoDuplicates(keys);
    var filtered := Filter(distinct, k => k !in required);
    FilterSpec(distinct, k => k !in required);
    SortedKeys(filtered);
    SubsequenceNoDuplicates(filtered, distinct);
  }

  /** The key column of the table holds exactly its keys. */
  lemma KeysOfTable(table: HeaderTable)
    ensures forall k :: k in Map(table, KeyOf) <==> k in KeysOf(table)
  {
    var keys := Map(table, KeyOf);
    forall k ensures k in keys <==> k in KeysOf(table) {
      if k in keys {
        var i :| 0 <= i < |keys| && keys[i] == k;
        MapIndex(table, KeyOf, i);
      }
      if k in KeysOf(table) {
        var i :| 0 <= i < |table| && table[i].1 == k;
        MapIndex(table, KeyOf, i);
      }
    }
  }

  /** Sorting keys keeps exactly the same keys, puts them in order, and keeps them distinct. */
  lemma SortedKeys(keys: seq<string>)
    ensures forall k :: k in SortBy(keys, StrOrder) <==> k in keys
    ensures SortedBy(SortBy(keys, StrOrder), StrOrder)
    ensures NoDuplicates(keys) ==> NoDuplicates(SortBy(keys, StrOrder))
  {
    StrOrderPreorder();
    SortBySorted(keys, StrOrder);
    var sorted := SortBy(keys, StrOrder);
    assert multiset(sorted) == multiset(keys);
    forall k ensures k in sorted <==> k in keys {
      assert k in sorted <==> k in multiset(sorted);
      assert k in keys <==> k in multiset(keys);
    }
    if NoDuplicates(keys) {
      PermutationNoDuplicates(keys, sorted);
    }
  }

  lemma {:induction false} SubsequenceNoDuplicates(xs: seq<string>, ys: seq<string>)
    requires IsSubsequence(xs, ys) && NoDuplicates(ys)
    ensures NoDuplicates(xs)
    decreases |ys|
  {
    if xs != [] && ys != [] {
      var yinit := ys[..|ys| - 1];
      assert NoDuplicates(yinit) by {
        forall i, j | 0 <= i < j < |yinit| ensures yinit[i] != yinit[j] {
          assert yinit[i] == ys[i] && yinit[j] == ys[j];
        }
      }
      if xs[|xs| - 1] == ys[|ys| - 1] {
        var xinit := xs[..|xs| - 1];
        SubsequenceNoDuplicates(xinit, yinit);
        SubsequenceLength(xinit, yinit);
        forall i, j | 0 <= i < j < |xs| ensures xs[i] != xs[j] {
          assert xs[i] == xinit[i];
          if j < |xs| - 1 {
            assert xs[j] == xinit[j];
          } else {
            assert xinit[i] in yinit;
            var k :| 0 <= k < |yinit| && yinit[k] == xinit[i];
            assert ys[k] == yinit[k];
          }
        }
      } else {
        SubsequenceNoDuplicates(xs, yinit);
      }
    }
  }

  /** A permutation of a sequence without duplicates has none. */
  lemma PermutationNoDuplicates(xs: seq<string>, ys: seq<string>)
    requires NoDuplicates(xs) && multiset(xs) == multiset(ys)
    ensures NoDuplicates(ys)
  {
    forall i, j | 0 <= i < j < |ys| ensures ys[i] != ys[j] {
      if ys[i] == ys[j] {
        MultisetCountTwo(ys, i, j);
        DistinctCountOne(xs, ys[i]);
      }
    }
  }

  lemma {:induction false} MultisetCountTwo(ys: seq<string>, i: nat, j: nat)
    requires i < j < |ys| && ys[i] == ys[j]
    ensures multiset(ys)[ys[i]] >= 2
  {
    assert ys == ys[..i] + [ys[i]] + ys[i + 1..j] + [ys[j]] + ys[j + 1..];
  }

  lemma {:induction false} DistinctCountOne(xs: seq<string>, x: string)
    requires NoDuplicates(xs)
    ensures multiset(xs)[x] <= 1
    decreases |xs|
  {
    if xs != [] {
      var init := xs[..|xs| - 1];
      assert NoDuplicates(init) by {
        forall i, j | 0 <= i < j < |init| ensures init[i] != init[j] {
          assert init[i] == xs[i] && init[j] == xs[j];
        }
      }
      DistinctCountOne(init, x);
      assert xs == init + [xs[|xs| - 1]];
      if x == xs[|xs| - 1] {
        assert x !in init by {
          forall i | 0 <= i < |init| ensures init[i] != x {
            assert init[i] == xs[i];
          }
        }
      }
    }
  }

  /** The error `import_orbis_xlsx` raises for unresolved keys. */
  function MissingHeadersMessage(missing: seq<string>, title: string): string {
    "Missing required headers: " + Join(missing, ", ") + " (sheet: " + title + ")"
  }

  /** The keys of `RequiredHeaders` are the seven column keys. */
  lemma RequiredHeaderKeys()
    ensures KeysOf(RequiredHeaders) == {"name", "company_id", "country", "industry_description", "industry_code", "revenue_mil", "website"}
  {
    var t := RequiredHeaders;
    assert t[0].1 == "name" && t[1].1 == "name" && t[2].1 == "company_id" && t[3].1 == "country";
    assert t[4].1 == "industry_description" && t[5].1 == "industry_code" && t[6].1 == "revenue_mil" && t[7].1 == "website";
  }

  /** The columns of the header map, or the error that lists the unresolved keys in sorted order. */
  function RequiredColumns(header: map<string, nat>, title: string): (r: Result<Columns, string>)
    ensures r.Err? <==> MissingKeys(Resolve(header, RequiredHeaders), RequiredHeaders) != []
    ensures r.Err? ==> r.error == MissingHeadersMessage(MissingKeys(Resolve(header, RequiredHeaders), RequiredHeaders), title)
  {
    var required := Resolve(header, RequiredHeaders);
    var missing := MissingKeys(required, RequiredHeaders);
    if missing != [] then Err(MissingHeadersMessage(missing, title))
    else
      MissingKeysSpec(required, RequiredHeaders);
      RequiredHeaderKeys();
      Ok(Columns(required["company_id"], required["name"], required["country"], required["industry_description"],
                 required["industry_code"], required["revenue_mil"], required["website"]))
  }

  // ---------------------------------------------------------------------
  // Field normalisation
  // ---------------------------------------------------------------------

  /** `text[:-2]` when the text ends with ".0". */
  function DropPointZero(text: string): string {
    if EndsWith(text, ".0") then text[..|text| - 2] else text
  }

  /**
   * The industry code of a cell's text: its digits (after a trailing ".0"
   * is dropped), zero-padded to four; a text without digits as it is.
   */
  function CodeOf(text: string): (r: string)
    ensures text == "" ==> r == ""
    ensures var digits := DigitsOf(DropPointZero(text));
      text != "" && digits == [] ==> r == DropPointZero(text)
    ensures var digits := DigitsOf(DropPointZero(text));
      text != "" && digits != [] ==>
        && AllDigits(r) && |r| >= 4 && EndsWith(r, digits)
        && (|digits| >= 4 ==> r == digits)
        && (forall i | 0 <= i < |r| - |digits| :: r[i] == '0')
  {
    if text == "" then ""
    else
      var t := DropPointZero(text);
      var digits := DigitsOf(t);
      if |digits| == 4 then digits
      else if digits != [] then ZFill(digits, 4)
      else t
  }

  /** `_normalize_industry_code`. */
  function NormalizeIndustryCode(c: Cell): string {
    CodeOf(ToStr(c))
  }

  /** A code made of digits is its own code and has no whitespace to strip. */
  lemma CodeIdempotent(text: string)
    requires DigitsOf(DropPointZero(text)) != []
    ensures Strip(CodeOf(text)) == CodeOf(text)
    ensures CodeOf(CodeOf(text)) == CodeOf(text)
  {
    var code := CodeOf(text);
    CodeOfDigits(code);
    StripDigits(code);
  }

  /** Four or more digits are their own code. */
  lemma CodeOfDigits(r: string)
    requires AllDigits(r) && |r| >= 4
    ensures CodeOf(r) == r
  {
    DigitBeforeLast(r);
    DigitsOfAllDigits(r);
    CodeOfOwnDigits(r);
  }

  lemma CodeOfOwnDigits(r: string)
    requires |r| >= 4 && DropPointZero(r) == r && DigitsOf(r) == r
    ensures CodeOf(r) == r
  {
  }

  /** Digits have no whitespace to strip. */
  lemma StripDigits(r: string)
    requires r != [] && IsDigit(r[0]) && IsDigit(r[|r| - 1])
    ensures Strip(r) == r
  {
    StripNoEdgeSpace(r);
  }

  /** A text whose second-to-last character is a digit does not end with ".0". */
  lemma DigitBeforeLast(t: string)
    requires |t| >= 2 && IsDigit(t[|t| - 2])
    ensures DropPointZero(t) == t
  {
    var tail := t[|t| - 2..];
    assert tail[0] == t[|t| - 2];
    assert tail != ".0" by {
      assert ".0"[0] == '.';
    }
  }

  /** A code with digits, written back as text, normalises to itself. */
  lemma IndustryCodeIdempotent(c: Cell)
    requires DigitsOf(DropPointZero(ToStr(c))) != []
    ensures NormalizeIndustryCode(TextCell(NormalizeIndustryCode(c))) == NormalizeIndustryCode(c)
  {
    CodeIdempotent(ToStr(c));
  }

  /** The website of a cell's text: a bare "www." site gets the "https://" scheme. */
  function WebsiteOf(text: string): (r: string)
    ensures text == "" ==> r == ""
    ensures StartsWith(text, "www.") ==> r == "https://" + text
    ensures !StartsWith(text, "www.") ==> r == text
  {
    if text == "" then "" else if StartsWith(text, "www.") then "https://" + text else text
  }

  /** `_normalize_website`. */
  function NormalizeWebsite(c: Cell): string {
    WebsiteOf(ToStr(c))
  }

  predicate IsAuthorityEnd(c: char) { c == '/' || c == '?' || c == '#' }

  /** The length of the longest prefix free of '/', '?' and '#'. */
  function AuthorityLength(s: string): (n: nat)
    ensures n <= |s|
    ensures forall i | 0 <= i < n :: !IsAuthorityEnd(s[i])
    ensures n < |s| ==> IsAuthorityEnd(s[n])
    decreases |s|
  {
    if s == [] || IsAuthorityEnd(s[0]) then 0 else 1 + AuthorityLength(s[1..])
  }

  /**
   * `urlparse(url).netloc` for a URL that starts with "http://" or
   * "https://": the text between "//" and the first '/', '?' or '#'. An
   * unbalanced '[' or ']' makes `urlparse` raise, and the caller falls
   * back to the whole URL.
   */
  function NetlocOrUrl(url: string): (r: string)
    requires StartsWith(url, "http://") || StartsWith(url, "https://")
  {
    var rest := if StartsWith(url, "http://") then url[7..] else url[8..];
    var netloc := rest[..AuthorityLength(rest)];
    if ('[' in netloc) != (']' in netloc) then url else netloc
  }

  /** `_extract_domain`: the lower-cased authority of the site, without a leading "www.". */
  function ExtractDomain(website: string): (r: string)
    ensures IsLowered(r)
  {
    if website == "" then ""
    else
      var stripped := Strip(website);
      var normalized := if StartsWith(stripped, "http://") || StartsWith(stripped, "https://")
                        then stripped else "https://" + stripped;
      var domain := Lower(NetlocOrUrl(normalized));
      LowerIdempotent(NetlocOrUrl(normalized));
      DropWww(domain)
  }

  /** `domain[4:]` when the domain starts with "www.". */
  function DropWww(domain: string): string {
    if StartsWith(domain, "www.") then domain[4..] else domain
  }

  predicate PlainHostChar(c: char) { !IsSpace(c) && !IsAuthorityEnd(c) && c != '[' && c != ']' }

  /** A "www." site is stored with a scheme, and its domain is the lower-cased host after "www.". */
  lemma WwwSiteDomain(host: string)
    requires forall i | 0 <= i < |host| :: PlainHostChar(host[i])
    ensures WebsiteOf("www." + host) == "https://" + ("www." + host)
    ensures ExtractDomain("https://" + ("www." + host)) == Lower(host)
  {
    var site := "www." + host;
    WwwPrefix(host);
    WwwPrefix(Lower(host));
    assert forall i | 0 <= i < |site| :: PlainHostChar(site[i]) by {
      forall i | 0 <= i < |site| ensures PlainHostChar(site[i]) {
        if i >= 4 {
          assert site[i] == host[i - 4];
        }
      }
    }
    var url := "https://" + site;
    assert url[..8] == "https://" && url[8..] == site;
    assert forall i | 8 <= i < |url| :: PlainHostChar(url[i]) by {
      forall i | 8 <= i < |url| ensures PlainHostChar(url[i]) {
        assert url[i] == site[i - 8];
      }
    }
    HttpsSiteDomain(url);
  }

  /** A URL made of "https://" and a plain host: its domain is the lower-cased host without a leading "www.". */
  lemma HttpsSiteDomain(url: string)
    requires |url| > 8 && url[..8] == "https://"
    requires forall i | 8 <= i < |url| :: PlainHostChar(url[i])
    ensures ExtractDomain(url) == DropWww(Lower(url[8..]))
  {
    HttpsUrlScheme(url);
    HttpsUrlStripped(url);
    HttpsUrlNetloc(url);
    HttpsUrlDomain(url, url[8..]);
  }

  /** Such a URL is recognised as "https://" and not as "http://". */
  lemma HttpsUrlScheme(url: string)
    requires |url| > 8 && url[..8] == "https://"
    ensures StartsWith(url, "https://") && !StartsWith(url, "http://")
  {
    assert url[4] == 's';
  }

  /** Such a URL has no whitespace to strip. */
  lemma HttpsUrlStripped(url: string)
    requires |url| > 8 && url[..8] == "https://" && PlainHostChar(url[|url| - 1])
    ensures Strip(url) == url
  {
    assert url[0] == 'h';
    StripNoEdgeSpace(url);
  }

  /** Its authority is everything after the scheme. */
  lemma HttpsUrlNetloc(url: string)
    requires |url| > 8 && url[..8] == "https://"
    requires forall i | 8 <= i < |url| :: PlainHostChar(url[i])
    ensures NetlocOrUrl(url) == url[8..]
  {
    var site := url[8..];
    HttpsUrlScheme(url);
    assert forall i | 0 <= i < |site| :: PlainHostChar(site[i]) by {
      forall i | 0 <= i < |site| ensures PlainHostChar(site[i]) {
        assert site[i] == url[i + 8];
      }
    }
    HostAuthority(site);
  }

  /** The domain of a stripped "https://" URL whose authority is known. */
  lemma HttpsUrlDomain(url: string, site: string)
    requires url != "" && Strip(url) == url && StartsWith(url, "https://")
    requires NetlocOrUrl(url) == site
    ensures ExtractDomain(url) == DropWww(Lower(site))
  {
    DomainOfStrippedUrl(url);
  }

  /** The domain of a URL that is already stripped and has a scheme comes from its authority alone. */
  lemma DomainOfStrippedUrl(url: string)
    requires url != "" && Strip(url) == url && StartsWith(url, "https://")
    ensures ExtractDomain(url) == DropWww(Lower(NetlocOrUrl(url)))
  {
  }

  /** The "www." prefix: recognised, cut off by `[4:]`, and untouched by lower-casing. */
  lemma WwwPrefix(host: string)
    ensures var site := "www." + host;
      StartsWith(site, "www.") && site[4..] == host && Lower(site) == "www." + Lower(host)
  {
    LowerConcat("www.", host);
    assert Lower("www.") == "www.";
  }

  lemma HostAuthority(s: string)
    requires forall i | 0 <= i < |s| :: !IsAuthorityEnd(s[i])
    ensures AuthorityLength(s) == |s|
  {
  }

  // ---------------------------------------------------------------------
  // Legal suffixes and aliases
  // ---------------------------------------------------------------------

  /** A legal suffix as written and in lower case; the lower-case form serves the case-insensitive match. */
  type SuffixTable = seq<(string, string)>

  /** `LEGAL_SUFFIXES`, in the order `_base_name` tries them. */
  const LegalSuffixes: SuffixTable := [
    ("S.p.A.", "s.p.a."), ("S.p.A", "s.p.a"), ("SpA", "spa"), ("SPA", "spa"),
    ("S.r.l.", "s.r.l."), ("S.r.l", "s.r.l"), ("SRL", "srl"), ("Srl", "srl")]

  /** Every pair's second text is the lower case of its first. */
  predicate LowerPairs(table: SuffixTable) {
    forall k | 0 <= k < |table| :: LowerIs(table[k].0, table[k].1)
  }

  /** Every suffix is a word: not empty and not ending in whitespace. */
  predicate Trimmed(table: SuffixTable) {
    forall k | 0 <= k < |table| :: table[k].0 != "" && !IsSpace(table[k].0[|table[k].0| - 1])
  }

  /** The legal-suffix table is in the form the suffix search relies on. */
  lemma LegalSuffixesSpec()
    ensures LowerPairs(LegalSuffixes) && Trimmed(LegalSuffixes)
  {
    LegalSuffixesLower();
    LegalSuffixesTrimmed();
  }

  lemma LegalSuffixesLower()
    ensures LowerPairs(LegalSuffixes)
  {
    forall k | 0 <= k < |LegalSuffixes| ensures LowerIs(LegalSuffixes[k].0, LegalSuffixes[k].1) {
      LowerIsIff(LegalSuffixes[k].0, LegalSuffixes[k].1);
    }
  }

  lemma LegalSuffixesTrimmed()
    ensures Trimmed(LegalSuffixes)
  {
  }

  /**
   * `re.search(r"\s+" + re.escape(suffix) + "$", s, re.IGNORECASE)` on a
   * stripped name: whitespace, then the suffix up to case, at the end.
   */
  predicate EndsWithSuffix(s: string, suffix: (string, string)) {
    var n := |suffix.0|;
    |s| > n && IsSpace(s[|s| - n - 1]) && Lower(s[|s| - n..]) == suffix.1
  }

  /** The test is the case-insensitive comparison of the tail with the suffix. */
  lemma EndsWithSuffixIff(s: string, suffix: (string, string))
    requires LowerIs(suffix.0, suffix.1)
    ensures var n := |suffix.0|;
      EndsWithSuffix(s, suffix) <==> |s| > n && IsSpace(s[|s| - n - 1]) && Lower(s[|s| - n..]) == Lower(suffix.0)
  {
    LowerIsIff(suffix.0, suffix.1);
  }

  /** The first suffix of the table, from position `from` on, that ends `s` after whitespace. */
  function FirstSuffix(s: string, table: SuffixTable, from: nat): (r: Option<nat>)
    requires from <= |table|
    ensures r.Some? ==> from <= r.value < |table| && EndsWithSuffix(s, table[r.value])
    ensures forall j | from <= j < |table| && (r.None? || j < r.value) :: !EndsWithSuffix(s, table[j])
    decreases |table| - from
  {
    if from == |table| then None
    else if EndsWithSuffix(s, table[from]) then Some(from)
    else FirstSuffix(s, table, from + 1)
  }

  /** The name without the whitespace and the suffix that end it, stripped. */
  function WithoutSuffix(s: string, suffix: string): string
    requires |suffix| <= |s|
  {
    Strip(s[..|s| - |suffix|])
  }

  /** A stripped name with the first suffix of the table that ends it removed, if any. */
  function CutSuffix(cleaned: string, table: SuffixTable): string {
    match FirstSuffix(cleaned, table, 0)
    case None => cleaned
    case Some(k) => WithoutSuffix(cleaned, table[k].0)
  }

  /** `_base_name` over a suffix table: the stripped name with at most one suffix removed. */
  function BaseNameOf(name: string, table: SuffixTable): string {
    CutSuffix(Strip(name), table)
  }

  /** The loop of `_base_name`, stopping at the first suffix that matches. */
  method BaseName(name: string, table: SuffixTable) returns (cleaned: string)
    ensures cleaned == BaseNameOf(name, table)
  {
    cleaned := Strip(name);
    for i := 0 to |table|
      invariant cleaned == Strip(name)
      invariant FirstSuffix(cleaned, table, 0) == FirstSuffix(cleaned, table, i)
    {
      if EndsWithSuffix(cleaned, table[i]) {
        cleaned := WithoutSuffix(cleaned, table[i].0);
        return;
      }
    }
  }

  /**
   * The base name is stripped and no longer than the stripped name; when a
   * suffix is removed, the base is a prefix of the stripped name and only
   * whitespace lies between the base and that suffix.
   */
  lemma BaseNameSpec(name: string, table: SuffixTable)
    ensures var cleaned, base := Strip(name), BaseNameOf(name, table);
      && base == Strip(base) && |base| <= |cleaned|
      && (FirstSuffix(cleaned, table, 0).None? ==> base == cleaned)
      && (FirstSuffix(cleaned, table, 0).Some? ==>
            var suffix := table[FirstSuffix(cleaned, table, 0).value].0;
            |base| < |cleaned| - |suffix| && cleaned[..|base|] == base
            && IsBlank(cleaned[|base|..|cleaned| - |suffix|]))
  {
    CutSuffixSpec(Strip(name), table);
  }

  lemma CutSuffixSpec(cleaned: string, table: SuffixTable)
    requires cleaned == [] || (!IsSpace(cleaned[0]) && !IsSpace(cleaned[|cleaned| - 1]))
    ensures var base := CutSuffix(cleaned, table);
      && base == Strip(base) && |base| <= |cleaned|
      && (FirstSuffix(cleaned, table, 0).None? ==> base == cleaned)
      && (FirstSuffix(cleaned, table, 0).Some? ==>
            var suffix := table[FirstSuffix(cleaned, table, 0).value].0;
            |base| < |cleaned| - |suffix| && cleaned[..|base|] == base
            && IsBlank(cleaned[|base|..|cleaned| - |suffix|]))
  {
    match FirstSuffix(cleaned, table, 0)
    case None =>
      StripNoEdgeSpace(cleaned);
    case Some(k) =>
      var n := |table[k].0|;
      assert |cleaned| > n && IsSpace(cleaned[|cleaned| - n - 1]);
      SuffixCut(cleaned, n);
  }

  /** Cutting `n` characters preceded by whitespace off a left-trimmed text leaves a shorter stripped prefix and blank space. */
  lemma SuffixCut(cleaned: string, n: nat)
    requires |cleaned| > n && !IsSpace(cleaned[0]) && IsSpace(cleaned[|cleaned| - n - 1])
    ensures var base := Strip(cleaned[..|cleaned| - n]);
      && base == Strip(base) && |base| < |cleaned| - n && cleaned[..|base|] == base
      && IsBlank(cleaned[|base|..|cleaned| - n])
  {
    var head := cleaned[..|cleaned| - n];
    StripIdempotent(head);
    assert head[0] == cleaned[0] && head[|head| - 1] == cleaned[|cleaned| - n - 1];
    TrailingSpaceStrip(head);
    var base := Strip(head);
    assert cleaned[|base|..|cleaned| - n] == head[|base|..];
    assert cleaned[..|base|] == head[..|base|];
  }

  /** A left-trimmed text that ends in whitespace strips to a strictly shorter prefix. */
  lemma TrailingSpaceStrip(s: string)
    requires s != [] && !IsSpace(s[0]) && IsSpace(s[|s| - 1])
    ensures |Strip(s)| < |s| && s[..|Strip(s)|] == Strip(s)
    ensures IsBlank(s[|Strip(s)|..])
  {
    StripOfLeftTrimmed(s);
  }

  /** Stripping a text whose first character is not whitespace keeps a prefix and drops trailing whitespace. */
  lemma StripOfLeftTrimmed(s: string)
    requires s != [] && !IsSpace(s[0])
    ensures |Strip(s)| <= |s| && s[..|Strip(s)|] == Strip(s)
    ensures IsBlank(s[|Strip(s)|..])
  {
    assert LStrip(s) == s;
  }

  predicate NonEmpty(s: string) { s != "" }

  /** The "base suffix" spellings, one per suffix of the table. */
  function SuffixVariants(base: string, table: SuffixTable): (r: seq<string>)
    ensures |r| == |table|
  {
    seq(|table|, i requires 0 <= i < |table| => base + " " + table[i].0)
  }

  /** The values `_build_aliases` passes to `_add`, in order. */
  function AliasCandidates(name: string, table: SuffixTable): (r: seq<string>)
    ensures |r| <= |table| + 2
  {
    var base := BaseNameOf(name, table);
    [name]
    + (if base != "" && Lower(base) != Lower(Strip(name)) then [base] else [])
    + (if base != "" then SuffixVariants(base, table) else [])
  }

  /** What `_add` keeps of a sequence of values: stripped, non-empty, first of each lower-cased key. */
  function Kept(values: seq<string>): (r: seq<string>)
    ensures |r| <= |values|
  {
    DedupeBy(Filter(Map(values, Strip), NonEmpty), Lower)
  }

  /** One more call of `_add`. */
  lemma KeptSnoc(values: seq<string>, v: string)
    ensures Kept(values + [v])
         == if Strip(v) == "" || Lower(Strip(v)) in KeysBy(Kept(values), Lower) then Kept(values)
            else Kept(values) + [Strip(v)]
  {
    assert (values + [v])[..|values|] == values;
    var stripped := Map(values, Strip);
    assert Map(values + [v], Strip) == stripped + [Strip(v)];
    FilterAppendOne(stripped, Strip(v), NonEmpty);
    DedupeBySnoc(Filter(stripped, NonEmpty), Strip(v), Lower);
  }

  /** `seen` is the set of lower-cased aliases, and the aliases are what is kept of the values added so far. */
  ghost predicate Tracks(added: seq<string>, aliases: seq<string>, seen: set<string>) {
    aliases == Kept(added) && seen == KeysBy(aliases, Lower)
  }

  /** The closure `_add`, with the values passed to it so far as a ghost parameter. */
  method Add(ghost added: seq<string>, aliases: seq<string>, seen: set<string>, value: string)
    returns (aliases': seq<string>, seen': set<string>)
    requires Tracks(added, aliases, seen)
    ensures Tracks(added + [value], aliases', seen')
    ensures var cleaned := Strip(value);
      if cleaned == "" || Lower(cleaned) in seen then aliases' == aliases && seen' == seen
      else aliases' == aliases + [cleaned] && seen' == seen + {Lower(cleaned)}
  {
    KeptSnoc(added, value);
    KeysBySnoc(aliases, Strip(value), Lower);
    var cleaned := Strip(value);
    if cleaned == "" {
      return aliases, seen;
    }
    var key := Lower(cleaned);
    if key in seen {
      return aliases, seen;
    }
    aliases', seen' := aliases + [cleaned], seen + {key};
  }

  /** The values passed to `_add` once the suffix loop has done `i` rounds. */
  ghost function ValuesAfter(head: seq<string>, base: string, table: SuffixTable, i: nat): seq<string>
    requires i <= |table|
  {
    head + (if base != "" then SuffixVariants(base, table)[..i] else [])
  }

  lemma ValuesAfterNext(head: seq<string>, base: string, table: SuffixTable, i: nat)
    requires i < |table|
    ensures ValuesAfter(head, base, table, i + 1)
         == ValuesAfter(head, base, table, i) + (if base != "" then [base + " " + table[i].0] else [])
  {
    if base != "" {
      var sv := SuffixVariants(base, table);
      assert sv[..i + 1] == sv[..i] + [sv[i]];
    }
  }

  /** The last loop of `_build_aliases`: one `_add` per suffix of the table, when there is a base. */
  method AddVariants(ghost added: seq<string>, aliases: seq<string>, seen: set<string>, base: string, table: SuffixTable)
    returns (aliases': seq<string>, seen': set<string>)
    requires Tracks(added, aliases, seen)
    ensures Tracks(added + (if base != "" then SuffixVariants(base, table) else []), aliases', seen')
  {
    aliases', seen' := aliases, seen;
    ghost var current := added;
    assert ValuesAfter(added, base, table, 0) == added;
    for i := 0 to |table|
      invariant current == ValuesAfter(added, base, table, i)
      invariant Tracks(current, aliases', seen')
    {
      ValuesAfterNext(added, base, table, i);
      if base != "" {
        var v := base + " " + table[i].0;
        aliases', seen' := Add(current, aliases', seen', v);
        current := current + [v];
      }
    }
    assert base != "" ==> SuffixVariants(base, table)[..|table|] == SuffixVariants(base, table);
  }

  /** `_build_aliases` over a suffix table: the kept aliases joined with ";". */
  method BuildAliases(name: string, table: SuffixTable) returns (joined: string)
    ensures joined == Join(Kept(AliasCandidates(name, table)), ";")
  {
    var aliases: seq<string> := [];
    var seen: set<string> := {};
    ghost var added: seq<string> := [];
    assert Tracks(added, aliases, seen);
    aliases, seen := Add(added, aliases, seen, name);
    added := [name];
    var base := BaseName(name, table);
    if base != "" && Lower(base) != Lower(Strip(name)) {
      aliases, seen := Add(added, aliases, seen, base);
      added := added + [base];
    }
    ghost var variants := if base != "" then SuffixVariants(base, table) else [];
    assert AliasCandidates(name, table) == added + variants;
    aliases, seen := AddVariants(added, aliases, seen, base, table);
    joined := Join(aliases, ";");
  }

  /**
   * The aliases: none empty, pairwise distinct ignoring case, and the
   * stripped name first when it is not empty.
   */
  lemma AliasesSpec(name: string, table: SuffixTable)
    ensures var aliases := Kept(AliasCandidates(name, table));
      && |aliases| <= |table| + 2
      && (forall i | 0 <= i < |aliases| :: aliases[i] != "")
      && (forall i, j | 0 <= i < j < |aliases| :: Lower(aliases[i]) != Lower(aliases[j]))
      && (Strip(name) != "" ==> aliases != [] && aliases[0] == Strip(name))
  {
    var values := AliasCandidates(name, table);
    KeptSpec(values);
    if Strip(name) != "" {
      KeptHead(values);
    }
  }

  /** What is kept is non-empty and distinct up to case. */
  lemma KeptSpec(values: seq<string>)
    ensures var kept := Kept(values);
      && (forall i | 0 <= i < |kept| :: kept[i] != "")
      && (forall i, j | 0 <= i < j < |kept| :: Lower(kept[i]) != Lower(kept[j]))
  {
    var stripped := Map(values, Strip);
    var filtered := Filter(stripped, NonEmpty);
    FilterSpec(stripped, NonEmpty);
    DedupeBySpec(filtered, Lower);
    var kept := DedupeBy(filtered, Lower);
    forall i | 0 <= i < |kept| ensures kept[i] != "" {
      SubsequenceIn(kept, filtered, i);
    }
  }

  /** A first value that is not blank is kept first, stripped. */
  lemma KeptHead(values: seq<string>)
    requires values != [] && Strip(values[0]) != ""
    ensures Kept(values) != [] && Kept(values)[0] == Strip(values[0])
  {
    var stripped := Map(values, Strip);
    MapIndex(values, Strip, 0);
    FilterHead(stripped, NonEmpty);
    DedupeByHead(Filter(stripped, NonEmpty), Lower);
  }

  lemma SubsequenceIn(xs: seq<string>, ys: seq<string>, i: nat)
    requires IsSubsequence(xs, ys) && i < |xs|
    ensures xs[i] in ys
  {
    SubsequenceLength(xs, ys);
  }

  /** A value that is not blank is kept up to case. */
  lemma KeptCovers(values: seq<string>, at: nat)
    requires at < |values| && Strip(values[at]) != ""
    ensures Lower(Strip(values[at])) in KeysBy(Kept(values), Lower)
  {
    var stripped := Map(values, Strip);
    MapIndex(values, Strip, at);
    var filtered := Filter(stripped, NonEmpty);
    FilterSpec(stripped, NonEmpty);
    assert stripped[at] in stripped;
    var j :| 0 <= j < |filtered| && filtered[j] == stripped[at];
    KeysByHas(filtered, j, Lower);
    DedupeBySpec(filtered, Lower);
  }

  /** Every "base suffix" spelling is among the aliases, up to case. */
  lemma AliasesCoverSuffixes(name: string, table: SuffixTable, k: nat)
    requires k < |table| && table[k].0 != "" && !IsSpace(table[k].0[|table[k].0| - 1])
    requires BaseNameOf(name, table) != ""
    ensures Lower(BaseNameOf(name, table) + " " + table[k].0) in KeysBy(Kept(AliasCandidates(name, table)), Lower)
  {
    var at := VariantPosition(name, table, k);
    BaseNameStripped(name, table);
    VariantKept(AliasCandidates(name, table), at, BaseNameOf(name, table), table[k].0);
  }

  /** A "base suffix" value, with a stripped base and a trimmed suffix, is kept up to case. */
  lemma VariantKept(values: seq<string>, at: nat, base: string, suffix: string)
    requires at < |values| && values[at] == base + " " + suffix
    requires base != "" && base == Strip(base)
    requires suffix != "" && !IsSpace(suffix[|suffix| - 1])
    ensures Lower(base + " " + suffix) in KeysBy(Kept(values), Lower)
  {
    VariantStripped(base, suffix);
    KeptCovers(values, at);
  }

  /** What is kept of some values is kept, in the same order, at the head of what is kept of more values. */
  lemma {:induction false} KeptGrows(values: seq<string>, more: seq<string>)
    ensures Kept(values) <= Kept(values + more)
    decreases |more|
  {
    if more != [] {
      var init, last := more[..|more| - 1], more[|more| - 1];
      var mid := values + init;
      KeptGrows(values, init);
      KeptSnocGrows(mid, last);
      SplitLast(values, more);
      PrefixTrans(Kept(values), Kept(mid), Kept(mid + [last]));
    } else {
      assert values + more == values;
    }
  }

  lemma SplitLast(values: seq<string>, more: seq<string>)
    requires more != []
    ensures values + more == (values + more[..|more| - 1]) + [more[|more| - 1]]
  {
    assert more == more[..|more| - 1] + [more[|more| - 1]];
  }

  lemma KeptSnocGrows(values: seq<string>, v: string)
    ensures Kept(values) <= Kept(values + [v])
  {
    KeptSnoc(values, v);
  }

  lemma PrefixTrans(a: seq<string>, b: seq<string>, c: seq<string>)
    requires a <= b && b <= c
    ensures a <= c
  {
    assert c[..|a|] == c[..|b|][..|a|];
  }

  /** The value is blank or has another key. */
  predicate KeyMiss(v: string, key: string) {
    Strip(v) == "" || Lower(Strip(v)) != key
  }

  /** No value that is not blank has the key. */
  predicate NoKey(values: seq<string>, key: string) {
    forall j {:trigger KeyMiss(values[j], key)} | 0 <= j < |values| :: KeyMiss(values[j], key)
  }

  lemma NoKeyAppend(a: seq<string>, b: seq<string>, key: string)
    requires NoKey(a, key) && NoKey(b, key)
    ensures NoKey(a + b, key)
  {
    forall j | 0 <= j < |a + b| ensures KeyMiss((a + b)[j], key) {
      if j < |a| {
        assert KeyMiss(a[j], key);
      } else {
        assert KeyMiss(b[j - |a|], key);
      }
    }
  }

  /** A key that no non-blank value has is not the key of anything kept. */
  lemma {:induction false} KeptKeyAbsent(values: seq<string>, key: string)
    requires NoKey(values, key)
    ensures key !in KeysBy(Kept(values), Lower)
    decreases |values|
  {
    if values != [] {
      var init, last := values[..|values| - 1], values[|values| - 1];
      assert values == init + [last];
      assert KeyMiss(values[|values| - 1], key);
      KeptKeyAbsent(init, key);
      KeptSnoc(init, last);
      KeysBySnoc(Kept(init), Strip(last), Lower);
    }
  }

  /** A non-blank value whose key no earlier non-blank value has is kept as written, stripped. */
  lemma KeptVerbatim(pre: seq<string>, v: string, post: seq<string>)
    requires Strip(v) != "" && NoKey(pre, Lower(Strip(v)))
    ensures Strip(v) in Kept(pre + [v] + post)
  {
    KeptKeyAbsent(pre, Lower(Strip(v)));
    KeptSnoc(pre, v);
    KeptGrows(pre + [v], post);
    KeptLastIn(Kept(pre), Strip(v), Kept(pre + [v] + post));
  }

  lemma KeptLastIn(a: seq<string>, x: string, b: seq<string>)
    requires a + [x] <= b
    ensures x in b
  {
    assert b[|a|] == x;
  }

  /**
   * The k-th "base suffix" spelling is among the aliases exactly as written
   * when it is not the name up to case and no earlier suffix of the table is
   * the same word up to case.
   */
  lemma AliasesKeepSuffix(name: string, table: SuffixTable, k: nat)
    requires Trimmed(table) && k < |table| && BaseNameOf(name, table) != ""
    requires Lower(Strip(name)) != Lower(BaseNameOf(name, table) + " " + table[k].0)
    requires forall j | 0 <= j < k :: Lower(table[j].0) != Lower(table[k].0)
    ensures BaseNameOf(name, table) + " " + table[k].0 in Kept(AliasCandidates(name, table))
  {
    var base, suffix := BaseNameOf(name, table), table[k].0;
    BaseNameStripped(name, table);
    var withBase := Lower(base) != Lower(Strip(name));
    var head := [name] + (if withBase then [base] else []);
    CandidatesSplit(name, table, head);
    assert suffix != "";
    HeadKeysDiffer(name, base, suffix, withBase);
    VariantsKeepSuffix(head, base, table, k);
  }

  lemma CandidatesSplit(name: string, table: SuffixTable, head: seq<string>)
    requires BaseNameOf(name, table) != ""
    requires var base := BaseNameOf(name, table);
      head == [name] + (if Lower(base) != Lower(Strip(name)) then [base] else [])
    ensures AliasCandidates(name, table) == head + SuffixVariants(BaseNameOf(name, table), table)
  {
  }

  /** Neither the name nor the base name is a "base suffix" spelling up to case. */
  lemma HeadKeysDiffer(name: string, base: string, suffix: string, withBase: bool)
    requires base == Strip(base) && suffix != ""
    requires Lower(Strip(name)) != Lower(base + " " + suffix)
    ensures NoKey([name] + (if withBase then [base] else []), Lower(base + " " + suffix))
  {
    var key := Lower(base + " " + suffix);
    var head := [name] + (if withBase then [base] else []);
    forall j | 0 <= j < |head| ensures KeyMiss(head[j], key) {
      if j == 1 {
        assert |Lower(Strip(head[j]))| == |base| < |key|;
      }
    }
  }

  /**
   * After some values, the suffix variants of a stripped base keep the k-th
   * one as written when no earlier value or suffix has its key.
   */
  lemma VariantsKeepSuffix(head: seq<string>, base: string, table: SuffixTable, k: nat)
    requires Trimmed(table) && k < |table| && base != "" && base == Strip(base)
    requires NoKey(head, Lower(base + " " + table[k].0))
    requires forall j | 0 <= j < k :: Lower(table[j].0) != Lower(table[k].0)
    ensures base + " " + table[k].0 in Kept(head + SuffixVariants(base, table))
  {
    var variants := SuffixVariants(base, table);
    var v := base + " " + table[k].0;
    assert NoKey(head + variants[..k], Lower(v)) by {
      EarlierVariantsNoKey(base, table, k);
      NoKeyAppend(head, variants[..k], Lower(v));
    }
    VariantAt(base, table, k);
    KeptAtInTail(head, variants, k, v);
  }

  /** The k-th variant is the base, a space and the k-th suffix, already stripped. */
  lemma VariantAt(base: string, table: SuffixTable, k: nat)
    requires Trimmed(table) && k < |table| && base != "" && base == Strip(base)
    ensures var v := base + " " + table[k].0;
      SuffixVariants(base, table)[k] == v && v != "" && Strip(v) == v
  {
    VariantStripped(base, table[k].0);
  }

  /** A stripped value at position k of the tail is kept as written when nothing before it has its key. */
  lemma KeptAtInTail(head: seq<string>, tail: seq<string>, k: nat, v: string)
    requires k < |tail| && tail[k] == v && v != "" && Strip(v) == v
    requires NoKey(head + tail[..k], Lower(v))
    ensures v in Kept(head + tail)
  {
    KeptVerbatim(head + tail[..k], v, tail[k + 1..]);
    ConcatAround(head, tail, k);
  }

  lemma ConcatAround(head: seq<string>, tail: seq<string>, k: nat)
    requires k < |tail|
    ensures head + tail == (head + tail[..k]) + [tail[k]] + tail[k + 1..]
  {
    assert tail == tail[..k] + [tail[k]] + tail[k + 1..];
  }

  /** The variants before the k-th do not have its key when no earlier suffix is the same word up to case. */
  lemma EarlierVariantsNoKey(base: string, table: SuffixTable, k: nat)
    requires Trimmed(table) && k < |table| && base != "" && base == Strip(base)
    requires forall j | 0 <= j < k :: Lower(table[j].0) != Lower(table[k].0)
    ensures NoKey(SuffixVariants(base, table)[..k], Lower(base + " " + table[k].0))
  {
    var earlier := SuffixVariants(base, table)[..k];
    var key := Lower(base + " " + table[k].0);
    forall i | 0 <= i < k ensures KeyMiss(earlier[i], key) {
      var suffix := table[i].0;
      assert earlier[i] == base + " " + suffix;
      assert suffix != "" && !IsSpace(suffix[|suffix| - 1]);
      VariantStripped(base, suffix);
      VariantKeyDiffers(base, suffix, table[k].0);
    }
  }

  /**
   * A stripped base followed by the first suffix of the table has that base
   * as its base name, and the k-th "base suffix" spelling is among its
   * aliases as written when no suffix before it, nor the first, has its length.
   */
  lemma FirstSuffixVariantKept(base: string, table: SuffixTable, k: nat)
    requires base != "" && base == Strip(base)
    requires Trimmed(table) && LowerPairs(table) && 0 < k < |table|
    requires forall j | 0 <= j < k :: |table[j].0| != |table[k].0|
    ensures BaseNameOf(base + " " + table[0].0, table) == base
    ensures base + " " + table[k].0 in Kept(AliasCandidates(base + " " + table[0].0, table))
  {
    var name, v := base + " " + table[0].0, base + " " + table[k].0;
    BaseOfFirstSuffix(base, table);
    assert Lower(Strip(name)) != Lower(v) by {
      VariantStripped(base, table[0].0);
    }
    assert forall j | 0 <= j < k :: Lower(table[j].0) != Lower(table[k].0) by {
      LengthsSeparate(table, k);
    }
    AliasesKeepSuffix(name, table, k);
  }

  lemma LengthsSeparate(table: SuffixTable, k: nat)
    requires k < |table| && forall j | 0 <= j < k :: |table[j].0| != |table[k].0|
    ensures forall j | 0 <= j < k :: Lower(table[j].0) != Lower(table[k].0)
  {
  }

  /** Two "base suffix" spellings of one base differ up to case when their suffixes do. */
  lemma VariantKeyDiffers(base: string, s: string, t: string)
    requires Lower(s) != Lower(t)
    ensures Lower(base + " " + s) != Lower(base + " " + t)
  {
    var n := |base + " "|;
    LowerConcat(base + " ", s);
    LowerConcat(base + " ", t);
    assert Lower(base + " " + s)[n..] == Lower(s);
    assert Lower(base + " " + t)[n..] == Lower(t);
  }

  /** A stripped base followed by a space and the table's first suffix has that base as its base name. */
  lemma BaseOfFirstSuffix(base: string, table: SuffixTable)
    requires base != "" && base == Strip(base)
    requires table != [] && Trimmed(table) && LowerPairs(table)
    ensures BaseNameOf(base + " " + table[0].0, table) == base
  {
    var suffix := table[0];
    assert suffix.0 != "" && !IsSpace(suffix.0[|suffix.0| - 1]) && LowerIs(suffix.0, suffix.1);
    var name := base + " " + suffix.0;
    VariantStripped(base, suffix.0);
    EndsWithOwnSuffix(base, suffix);
    assert FirstSuffix(name, table, 0) == Some(0);
    WithoutOwnSuffix(base, suffix.0);
  }

  lemma EndsWithOwnSuffix(base: string, suffix: (string, string))
    requires LowerIs(suffix.0, suffix.1)
    ensures EndsWithSuffix(base + " " + suffix.0, suffix)
  {
    var name := base + " " + suffix.0;
    LowerIsIff(suffix.0, suffix.1);
    assert name[|name| - |suffix.0|..] == suffix.0;
    assert name[|name| - |suffix.0| - 1] == ' ';
  }

  lemma WithoutOwnSuffix(base: string, suffix: string)
    requires base != "" && base == Strip(base)
    ensures WithoutSuffix(base + " " + suffix, suffix) == base
  {
    var name := base + " " + suffix;
    assert name[..|name| - |suffix|] == base + " ";
    StripTrailingSpace(base);
  }

  /** One space after a stripped text is stripped off again. */
  lemma StripTrailingSpace(base: string)
    requires base != "" && base == Strip(base)
    ensures Strip(base + " ") == base
  {
    var s := base + " ";
    assert !IsSpace(base[0]) && !IsSpace(base[|base| - 1]);
    assert LStrip(s) == s by { assert s[0] == base[0]; }
    RStripSpace(base);
    assert RStrip(base) == base;
  }

  lemma RStripSpace(t: string)
    ensures RStrip(t + " ") == RStrip(t)
  {
    assert (t + " ")[..|t|] == t;
  }

  lemma BaseNameStripped(name: string, table: SuffixTable)
    ensures Strip(BaseNameOf(name, table)) == BaseNameOf(name, table)
  {
    CutSuffixSpec(Strip(name), table);
  }

  /** A stripped base, a space and a suffix that does not end in whitespace is already stripped. */
  lemma VariantStripped(base: string, suffix: string)
    requires base != "" && base == Strip(base)
    requires suffix != "" && !IsSpace(suffix[|suffix| - 1])
    ensures Strip(base + " " + suffix) == base + " " + suffix
  {
    var v := base + " " + suffix;
    assert v[0] == base[0] && v[|v| - 1] == suffix[|suffix| - 1];
    StripNoEdgeSpace(v);
  }

  /** Where the k-th "base suffix" spelling sits among the candidates. */
  lemma VariantPosition(name: string, table: SuffixTable, k: nat) returns (at: nat)
    requires k < |table| && BaseNameOf(name, table) != ""
    ensures var values := AliasCandidates(name, table);
      at < |values| && values[at] == BaseNameOf(name, table) + " " + table[k].0
  {
    VariantsLast(name, table);
    at := VariantInTail(AliasCandidates(name, table), BaseNameOf(name, table), table, k);
  }

  /** Values ending with the suffix variants of a base hold the k-th variant at a known place. */
  lemma VariantInTail(values: seq<string>, base: string, table: SuffixTable, k: nat) returns (at: nat)
    requires |table| <= |values| && values[|values| - |table|..] == SuffixVariants(base, table) && k < |table|
    ensures at < |values| && values[at] == base + " " + table[k].0
  {
    at := |values| - |table| + k;
    assert values[at] == values[|values| - |table|..][k];
  }

  /** With a base name, the candidates end with its suffix variants. */
  lemma VariantsLast(name: string, table: SuffixTable)
    requires BaseNameOf(name, table) != ""
    ensures var values := AliasCandidates(name, table);
      |table| <= |values| && values[|values| - |table|..] == SuffixVariants(BaseNameOf(name, table), table)
  {
    var base := BaseNameOf(name, table);
    var head := [name] + (if Lower(base) != Lower(Strip(name)) then [base] else []);
    assert AliasCandidates(name, table) == head + SuffixVariants(base, table);
  }

  // ---------------------------------------------------------------------
  // Sheet choice
  // ---------------------------------------------------------------------

  /** The first position, replaced by any later position with a strictly higher count. */
  function BestIndex(counts: seq<nat>): (b: nat)
    requires counts != []
    ensures b < |counts|
    decreases |counts|
  {
    if |counts| == 1 then 0
    else
      var b := BestIndex(counts[..|counts| - 1]);
      if counts[|counts| - 1] > counts[b] then |counts| - 1 else b
  }

  /** The chosen position holds the highest count, and every earlier position a strictly lower one. */
  lemma {:induction false} BestIndexSpec(counts: seq<nat>)
    requires counts != []
    ensures forall i | 0 <= i < |counts| :: counts[i] <= counts[BestIndex(counts)]
    ensures forall i | 0 <= i < BestIndex(counts) :: counts[i] < counts[BestIndex(counts)]
    decreases |counts|
  {
    if |counts| > 1 {
      var init := counts[..|counts| - 1];
      BestIndexSpec(init);
      assert forall i | 0 <= i < |init| :: init[i] == counts[i];
    }
  }

  /** One more position extends the choice over the positions before it. */
  lemma BestIndexStep(counts: seq<nat>, i: nat, best: nat, current: nat, candidate: nat)
    requires 1 <= i < |counts| && best == BestIndex(counts[..i])
    requires counts[best] == current && counts[i] == candidate
    ensures BestIndex(counts[..i + 1]) == if candidate > current then i else best
  {
    assert counts[..i + 1][..i] == counts[..i];
  }

  /** The match count of every sheet's header row. */
  function SheetCounts(sheets: seq<Sheet>, table: HeaderTable): (counts: seq<nat>)
    ensures |counts| == |sheets|
    ensures forall i | 0 <= i < |sheets| :: counts[i] == SheetPick(sheets[i], table).count
  {
    seq(|sheets|, i requires 0 <= i < |sheets| => SheetPick(sheets[i], table).count)
  }

  /** Without a sheet name: the first sheet, replaced by any later sheet with a strictly higher match count. */
  function BestSheet(sheets: seq<Sheet>, table: HeaderTable): (b: nat)
    requires sheets != []
    ensures b < |sheets|
  {
    BestIndex(SheetCounts(sheets, table))
  }

  /** The chosen sheet has the highest match count and every earlier sheet a strictly lower one. */
  lemma BestSheetSpec(sheets: seq<Sheet>, table: HeaderTable)
    requires sheets != []
    ensures var b := SheetPick(sheets[BestSheet(sheets, table)], table).count;
      forall i | 0 <= i < |sheets| :: SheetPick(sheets[i], table).count <= b
    ensures var b := SheetPick(sheets[BestSheet(sheets, table)], table).count;
      forall i | 0 <= i < BestSheet(sheets, table) :: SheetPick(sheets[i], table).count < b
  {
    BestIndexSpec(SheetCounts(sheets, table));
  }

  /** One more sheet extends the choice over the sheets before it. */
  lemma BestSheetStep(sheets: seq<Sheet>, table: HeaderTable, i: nat, best: nat, current: HeaderPick, candidate: HeaderPick)
    requires 1 <= i < |sheets| && best == BestSheet(sheets[..i], table)
    requires current == SheetPick(sheets[best], table) && candidate == SheetPick(sheets[i], table)
    ensures BestSheet(sheets[..i + 1], table) == if candidate.count > current.count then i else best
  {
    var counts := SheetCounts(sheets, table);
    assert SheetCounts(sheets[..i], table) == counts[..i];
    assert SheetCounts(sheets[..i + 1], table) == counts[..i + 1];
    BestIndexStep(counts, i, best, current.count, candidate.count);
  }

  /** The loop over `workbook.worksheets[1:]`. */
  method ChooseBestSheet(sheets: seq<Sheet>, table: HeaderTable) returns (best: nat, pick: HeaderPick)
    requires sheets != []
    ensures best == BestSheet(sheets, table) && pick == SheetPick(sheets[best], table)
  {
    best := 0;
    pick := FindHeaderRow(sheets[0], table);
    for i := 1 to |sheets|
      invariant best < i && best == BestSheet(sheets[..i], table) && pick == SheetPick(sheets[best], table)
    {
      var candidate := FindHeaderRow(sheets[i], table);
      BestSheetStep(sheets, table, i, best, pick, candidate);
      if candidate.count > pick.count {
        best, pick := i, candidate;
      }
    }
    assert sheets[..|sheets|] == sheets;
  }

  /** `workbook[sheet_name]`: the sheet with that title, if any. */
  function SheetNamed(sheets: seq<Sheet>, title: string): (r: Option<nat>)
    ensures r.Some? ==> r.value < |sheets| && sheets[r.value].title == title
    ensures r.None? ==> forall i | 0 <= i < |sheets| :: sheets[i].title != title
    decreases |sheets|
  {
    if sheets == [] then None
    else if sheets[0].title == title then Some(0)
    else match SheetNamed(sheets[1..], title)
      case None => None
      case Some(i) => Some(i + 1)
  }

  // ---------------------------------------------------------------------
  // Rows
  // ---------------------------------------------------------------------

  /** A cell the blank-row test skips: None, or a value whose `str` is all whitespace. */
  predicate BlankCell(c: Cell) {
    match c
    case NoneCell => true
    case IntCell(_) => false
    case FloatCell(repr, _) => Strip(repr) == ""
    case TextCell(t) => Strip(t) == ""
  }

  /** The text of an integer is never blank, so the case split is the source's test. */
  lemma BlankCellAsWritten(c: Cell)
    ensures BlankCell(c) <==> c.NoneCell? || Strip(Shown(c)) == ""
  {
    if c.IntCell? {
      IntToStringChars(c.n);
      StripNoEdgeSpace(IntToString(c.n));
    }
  }

  /** `not any(cell is not None and str(cell).strip() for cell in row)`. */
  predicate BlankRow(row: seq<Cell>) {
    forall i | 0 <= i < |row| :: BlankCell(row[i])
  }

  function ReplaceChar(s: string, a: char, b: char): (r: string)
    ensures |r| == |s| && a != b ==> a !in r
  {
    seq(|s|, i requires 0 <= i < |s| => if s[i] == a then b else s[i])
  }

  /**
   * `_parse_revenue`: the revenue in euros and whether it is missing.
   * `millions(t)` is `int(float(t) * 1_000_000)`, or None when `float`
   * rejects `t`; an integer cell is scaled exactly.
   */
  function ParseRevenue(c: Cell, millions: string -> Option<int>): (r: (string, bool))
    ensures r.1 <==> r.0 == ""
    ensures c.NoneCell? ==> r.1
    ensures c.IntCell? ==> r.0 == IntToString(c.n * 1000000)
    ensures c.TextCell? && Strip(c.text) == "" ==> r.1
  {
    match c
    case NoneCell => ("", true)
    case IntCell(n) => (IntToString(n * 1000000), false)
    case FloatCell(repr, _) =>
      (match millions(repr)
       case None => ("", true)
       case Some(v) => (IntToString(v), false))
    case TextCell(t) =>
      var text := Strip(t);
      if text == "" then ("", true)
      else match millions(ReplaceChar(text, ',', '.'))
        case None => ("", true)
        case Some(v) => (IntToString(v), false)
  }

  /** A row of the companies CSV. */
  datatype CompanyRecord = CompanyRecord(
    companyId: string, name: string, aliases: string, revenueEur: string,
    industryCode: string, industryDescription: string, website: string,
    websiteDomain: string, country: string, contactOwner: string, status: string)

  /** A row of the dropped-rows report. */
  datatype DroppedRow = DroppedRow(companyId: string, name: string, reason: string)

  /** The four counters `import_orbis_xlsx` returns. */
  datatype Summary = Summary(rowsIn: nat, rowsWritten: nat, missingWebsite: nat, missingRevenue: nat)

  /** What the row loop has produced so far. */
  datatype Import = Import(summary: Summary, written: seq<CompanyRecord>, dropped: seq<DroppedRow>)

  /** `"+".join(reason)` for the missing identifiers ("" when neither is missing). */
  function DropReason(companyId: string, name: string): (r: string)
  {
    if companyId == "" && name == "" then "missing_company_id+missing_name"
    else if companyId == "" then "missing_company_id"
    else if name == "" then "missing_name"
    else ""
  }

  /** Each reason names exactly the missing identifiers, joined by "+" when both are missing. */
  lemma DropReasonNames(companyId: string, name: string)
    ensures var r := DropReason(companyId, name);
      r == Join((if companyId == "" then ["missing_company_id"] else []) + (if name == "" then ["missing_name"] else []), "+")
  {
  }

  function AliasesOf(name: string): string {
    Join(Kept(AliasCandidates(name, LegalSuffixes)), ";")
  }

  /** The company id the loop reads from a row. */
  function RowId(row: seq<Cell>, cols: Columns): string {
    CellText(CellAt(row, cols.companyId))
  }

  /** The name the loop reads from a row. */
  function RowName(row: seq<Cell>, cols: Columns): string {
    CellText(CellAt(row, cols.name))
  }

  /** A row that is not blank: the loop counts it in `rows_in`. */
  predicate NonBlank(row: seq<Cell>) {
    !BlankRow(row)
  }

  /** A counted row with an id and a name: the loop writes its record. */
  predicate Writable(row: seq<Cell>, cols: Columns) {
    NonBlank(row) && RowId(row, cols) != "" && RowName(row, cols) != ""
  }

  /** A counted row without an id or without a name: the loop reports it as dropped. */
  predicate Droppable(row: seq<Cell>, cols: Columns) {
    NonBlank(row) && (RowId(row, cols) == "" || RowName(row, cols) == "")
  }

  /** The report row for a dropped row: its id, its name and the reason. */
  function DropOf(row: seq<Cell>, cols: Columns): DroppedRow {
    DroppedRow(RowId(row, cols), RowName(row, cols), DropReason(RowId(row, cols), RowName(row, cols)))
  }

  /** The record written for a row with an id and a name. */
  function Record(row: seq<Cell>, cols: Columns, millions: string -> Option<int>): CompanyRecord {
    var name := RowName(row, cols);
    var website := NormalizeWebsite(CellAt(row, cols.website));
    CompanyRecord(
      RowId(row, cols), name, AliasesOf(name),
      ParseRevenue(CellAt(row, cols.revenue), millions).0,
      NormalizeIndustryCode(CellAt(row, cols.industryCode)),
      CellText(CellAt(row, cols.industryDescription)),
      website, ExtractDomain(website),
      CellText(CellAt(row, cols.country)), "N/A", "active")
  }

  /** A written row whose website is empty (counted in `missing_website`). */
  predicate LacksWebsite(row: seq<Cell>, cols: Columns) {
    Writable(row, cols) && NormalizeWebsite(CellAt(row, cols.website)) == ""
  }

  /** A written row whose revenue is missing (counted in `missing_revenue`). */
  predicate LacksRevenue(row: seq<Cell>, cols: Columns, millions: string -> Option<int>) {
    Writable(row, cols) && ParseRevenue(CellAt(row, cols.revenue), millions).1
  }

  /** What the row loop does with one row: skip it, drop it, or write its record. */
  datatype Outcome =
    | Skipped
    | Dropped(drop: DroppedRow)
    | Written(record: CompanyRecord, noWebsite: bool, noRevenue: bool)

  /** A written row: an id, a name, the placeholder contact owner and the active status. */
  predicate Admitted(c: CompanyRecord) {
    c.companyId != "" && c.name != "" && c.contactOwner == "N/A" && c.status == "active"
  }

  /** A dropped row: the id or the name is missing, and the reason names what is missing. */
  predicate Rejected(d: DroppedRow) {
    (d.companyId == "" || d.name == "") && d.reason == DropReason(d.companyId, d.name)
  }

  /**
   * The body of the row loop: a blank row is skipped, a row without an id
   * or a name is dropped with its id, name and reason, any other row is
   * written as its record, and the website and revenue counters learn
   * whether those fields were empty.
   */
  function RowOutcome(row: seq<Cell>, cols: Columns, millions: string -> Option<int>): (o: Outcome)
    ensures o.Skipped? <==> BlankRow(row)
    ensures o.Dropped? <==> Droppable(row, cols)
    ensures o.Written? <==> Writable(row, cols)
    ensures o.Dropped? ==> Rejected(o.drop) && o.drop == DropOf(row, cols)
    ensures o.Written? ==> Admitted(o.record) && o.record == Record(row, cols, millions)
    ensures o.Written? ==> (o.noWebsite <==> LacksWebsite(row, cols)) && (o.noRevenue <==> LacksRevenue(row, cols, millions))
  {
    if BlankRow(row) then Skipped
    else
      var companyId := RowId(row, cols);
      var name := RowName(row, cols);
      if companyId == "" || name == "" then
        Dropped(DroppedRow(companyId, name, DropReason(companyId, name)))
      else
        var rec := Record(row, cols, millions);
        Written(rec, rec.website == "", ParseRevenue(CellAt(row, cols.revenue), millions).1)
  }

  /** The counters and lists after one more outcome. */
  function Count(acc: Import, o: Outcome): Import {
    var s := acc.summary;
    match o
    case Skipped => acc
    case Dropped(d) => Import(s.(rowsIn := s.rowsIn + 1), acc.written, acc.dropped + [d])
    case Written(rec, noWebsite, noRevenue) =>
      Import(Summary(s.rowsIn + 1, s.rowsWritten + 1,
                     s.missingWebsite + (if noWebsite then 1 else 0),
                     s.missingRevenue + (if noRevenue then 1 else 0)),
             acc.written + [rec], acc.dropped)
  }

  /** An outcome the loop counts in `rows_in`. */
  predicate CountedOutcome(o: Outcome) { !o.Skipped? }

  /** A written outcome without a website. */
  predicate NoWebsiteOutcome(o: Outcome) { o.Written? && o.noWebsite }

  /** A written outcome without a revenue. */
  predicate NoRevenueOutcome(o: Outcome) { o.Written? && o.noRevenue }

  /**
   * The loop's result over a sequence of outcomes: `rows_in` counts the
   * outcomes that are not skips, every counted row is either written or
   * dropped, and the missing counters count exactly the written outcomes
   * without a website and without a revenue.
   */
  function Tally(os: seq<Outcome>): (r: Import)
    ensures r.summary.rowsIn == |Filter(os, CountedOutcome)|
    ensures r.summary.rowsIn == r.summary.rowsWritten + |r.dropped|
    ensures r.summary.rowsWritten == |r.written|
    ensures r.summary.missingWebsite == |Filter(os, NoWebsiteOutcome)| <= r.summary.rowsWritten
    ensures r.summary.missingRevenue == |Filter(os, NoRevenueOutcome)| <= r.summary.rowsWritten
    decreases |os|
  {
    if os == [] then Import(Summary(0, 0, 0, 0), [], [])
    else Count(Tally(os[..|os| - 1]), os[|os| - 1])
  }

  /** One more outcome extends the tally of the outcomes before it. */
  lemma TallyStep(os: seq<Outcome>, i: nat, o: Outcome)
    requires i < |os| && os[i] == o
    ensures Tally(os[..i + 1]) == Count(Tally(os[..i]), o)
  {
    assert os[..i + 1][..i] == os[..i];
  }

  /** Every record in the written list is one of the written outcomes'. */
  lemma {:induction false} TallyWritten(os: seq<Outcome>)
    requires forall i | 0 <= i < |os| :: os[i].Written? ==> Admitted(os[i].record)
    ensures forall k | 0 <= k < |Tally(os).written| :: Admitted(Tally(os).written[k])
    decreases |os|
  {
    if os != [] {
      TallyWritten(os[..|os| - 1]);
    }
  }

  /** Every entry of the dropped list is one of the dropped outcomes'. */
  lemma {:induction false} TallyDropped(os: seq<Outcome>)
    requires forall i | 0 <= i < |os| :: os[i].Dropped? ==> Rejected(os[i].drop)
    ensures forall k | 0 <= k < |Tally(os).dropped| :: Rejected(Tally(os).dropped[k])
    decreases |os|
  {
    if os != [] {
      TallyDropped(os[..|os| - 1]);
    }
  }

  /** The outcome of every row, in order. */
  function Outcomes(rows: seq<seq<Cell>>, cols: Columns, millions: string -> Option<int>): (os: seq<Outcome>)
    ensures |os| == |rows|
    ensures forall i | 0 <= i < |os| :: os[i].Dropped? ==> Rejected(os[i].drop)
    ensures forall i | 0 <= i < |os| :: os[i].Written? ==> Admitted(os[i].record)
  {
    seq(|rows|, i requires 0 <= i < |rows| => RowOutcome(rows[i], cols, millions))
  }

  /**
   * The row loop over the rows below the header: every non-blank row is
   * either written or dropped, written rows are admitted, dropped rows
   * are rejected with their reason, and the missing counters count
   * written rows. `ImportRowsIn`, `ImportWritten`, `ImportDropped` and
   * `ImportMissing` give every field in terms of the rows.
   */
  function ImportOf(rows: seq<seq<Cell>>, cols: Columns, millions: string -> Option<int>): (r: Import)
    ensures r.summary.rowsIn == r.summary.rowsWritten + |r.dropped|
    ensures r.summary.rowsWritten == |r.written|
    ensures r.summary.missingWebsite <= r.summary.rowsWritten
    ensures r.summary.missingRevenue <= r.summary.rowsWritten
    ensures r.summary.rowsIn <= |rows|
    ensures forall k | 0 <= k < |r.written| :: Admitted(r.written[k])
    ensures forall k | 0 <= k < |r.dropped| :: Rejected(r.dropped[k])
  {
    var os := Outcomes(rows, cols, millions);
    TallyWritten(os);
    TallyDropped(os);
    Tally(os)
  }

  /** One more row extends the import of the rows before it by that row's outcome. */
  lemma ImportOfSnoc(rows: seq<seq<Cell>>, cols: Columns, millions: string -> Option<int>)
    requires rows != []
    ensures ImportOf(rows, cols, millions)
         == Count(ImportOf(rows[..|rows| - 1], cols, millions), RowOutcome(rows[|rows| - 1], cols, millions))
  {
    var os := Outcomes(rows, cols, millions);
    assert Outcomes(rows[..|rows| - 1], cols, millions) == os[..|os| - 1];
  }

  /** `rows_in` is the number of rows that are not blank. */
  lemma {:induction false} ImportRowsIn(rows: seq<seq<Cell>>, cols: Columns, millions: string -> Option<int>)
    ensures ImportOf(rows, cols, millions).summary.rowsIn == |Filter(rows, NonBlank)|
    decreases |rows|
  {
    if rows != [] {
      ImportRowsIn(rows[..|rows| - 1], cols, millions);
      ImportOfSnoc(rows, cols, millions);
    }
  }

  /**
   * The companies CSV: the records of the non-blank rows that have an id
   * and a name, in row order.
   */
  lemma {:induction false} ImportWritten(rows: seq<seq<Cell>>, cols: Columns, millions: string -> Option<int>)
    ensures ImportOf(rows, cols, millions).written
         == Map(Filter(rows, row => Writable(row, cols)), row => Record(row, cols, millions))
    decreases |rows|
  {
    if rows != [] {
      var init, last := rows[..|rows| - 1], rows[|rows| - 1];
      ImportWritten(init, cols, millions);
      ImportOfSnoc(rows, cols, millions);
      if Writable(last, cols) {
        MapAppendOne(Filter(init, row => Writable(row, cols)), last, row => Record(row, cols, millions));
      }
    }
  }

  /**
   * The dropped-rows report: the other non-blank rows, in row order, each
   * with its id, its name and its reason.
   */
  lemma {:induction false} ImportDropped(rows: seq<seq<Cell>>, cols: Columns, millions: string -> Option<int>)
    ensures ImportOf(rows, cols, millions).dropped
         == Map(Filter(rows, row => Droppable(row, cols)), row => DropOf(row, cols))
    decreases |rows|
  {
    if rows != [] {
      var init, last := rows[..|rows| - 1], rows[|rows| - 1];
      ImportDropped(init, cols, millions);
      ImportOfSnoc(rows, cols, millions);
      if Droppable(last, cols) {
        MapAppendOne(Filter(init, row => Droppable(row, cols)), last, row => DropOf(row, cols));
      }
    }
  }

  /** `missing_website` and `missing_revenue` count the written rows lacking a website and a revenue. */
  lemma {:induction false} ImportMissing(rows: seq<seq<Cell>>, cols: Columns, millions: string -> Option<int>)
    ensures ImportOf(rows, cols, millions).summary.missingWebsite == |Filter(rows, row => LacksWebsite(row, cols))|
    ensures ImportOf(rows, cols, millions).summary.missingRevenue
         == |Filter(rows, row => LacksRevenue(row, cols, millions))|
    decreases |rows|
  {
    if rows != [] {
      ImportMissing(rows[..|rows| - 1], cols, millions);
      ImportOfSnoc(rows, cols, millions);
    }
  }

  /**
   * Two body rows, a complete one followed by one with an id but no name:
   * 2 rows come in, the first is written as its record and the second is
   * dropped for "missing_name".
   */
  lemma TwoRowImport(full: seq<Cell>, noName: seq<Cell>, cols: Columns, millions: string -> Option<int>)
    requires Writable(full, cols) && !LacksWebsite(full, cols) && !LacksRevenue(full, cols, millions)
    requires NonBlank(noName) && RowId(noName, cols) != "" && RowName(noName, cols) == ""
    ensures var r := ImportOf([full, noName], cols, millions);
      r.summary == Summary(2, 1, 0, 0) && r.written == [Record(full, cols, millions)]
      && r.written[0].companyId == RowId(full, cols)
      && r.dropped == [DroppedRow(RowId(noName, cols), "", "missing_name")]
  {
    ImportOfPair(full, noName, cols, millions);
    var o1 := RowOutcome(full, cols, millions);
    var o2 := RowOutcome(noName, cols, millions);
    assert o1 == Written(Record(full, cols, millions), false, false);
    assert o2 == Dropped(DroppedRow(RowId(noName, cols), "", "missing_name"));
  }

  /** The import of two rows is their two outcomes counted in turn. */
  lemma ImportOfPair(a: seq<Cell>, b: seq<Cell>, cols: Columns, millions: string -> Option<int>)
    ensures ImportOf([a, b], cols, millions)
         == Count(Count(Import(Summary(0, 0, 0, 0), [], []), RowOutcome(a, cols, millions)), RowOutcome(b, cols, millions))
  {
    ImportOfSnoc([a, b], cols, millions);
    ImportOfSnoc([a], cols, millions);
    assert [a, b][..1] == [a];
    assert [a][..0] == [];
    assert Outcomes([], cols, millions) == [];
  }

  /** The rows after the 1-based header row. */
  function BodyRows(rows: seq<seq<Cell>>, headerRow: nat): seq<seq<Cell>> {
    if headerRow <= |rows| then rows[headerRow..] else []
  }

  /** The body of the row loop; the record's aliases come from `BuildAliases`. */
  method ProcessRow(row: seq<Cell>, cols: Columns, millions: string -> Option<int>) returns (o: Outcome)
    ensures o == RowOutcome(row, cols, millions)
  {
    if BlankRow(row) {
      return Skipped;
    }
    var companyId := CellText(CellAt(row, cols.companyId));
    var name := CellText(CellAt(row, cols.name));
    if companyId == "" || name == "" {
      return Dropped(DroppedRow(companyId, name, DropReason(companyId, name)));
    }
    var country := CellText(CellAt(row, cols.country));
    var industryDescription := CellText(CellAt(row, cols.industryDescription));
    var industryCode := NormalizeIndustryCode(CellAt(row, cols.industryCode));
    var (revenueEur, revenueMissing) := ParseRevenue(CellAt(row, cols.revenue), millions);
    var website := NormalizeWebsite(CellAt(row, cols.website));
    var websiteDomain := ExtractDomain(website);
    var aliases := BuildAliases(name, LegalSuffixes);
    o := Written(CompanyRecord(companyId, name, aliases, revenueEur, industryCode,
                               industryDescription, website, websiteDomain, country, "N/A", "active"),
                 website == "", revenueMissing);
  }

  /** The counter updates and writer calls for one row's outcome. */
  method CountRow(acc: Import, o: Outcome) returns (next: Import)
    ensures next == Count(acc, o)
  {
    var rowsIn, rowsWritten := acc.summary.rowsIn, acc.summary.rowsWritten;
    var missingWebsite, missingRevenue := acc.summary.missingWebsite, acc.summary.missingRevenue;
    var written, dropped := acc.written, acc.dropped;
    match o {
      case Skipped =>
      case Dropped(d) =>
        rowsIn := rowsIn + 1;
        dropped := dropped + [d];
      case Written(rec, noWebsite, noRevenue) =>
        rowsIn := rowsIn + 1;
        if noRevenue {
          missingRevenue := missingRevenue + 1;
        }
        if noWebsite {
          missingWebsite := missingWebsite + 1;
        }
        written := written + [rec];
        rowsWritten := rowsWritten + 1;
    }
    next := Import(Summary(rowsIn, rowsWritten, missingWebsite, missingRevenue), written, dropped);
  }

  /** The row loop of `import_orbis_xlsx`, with the CSV writers replaced by the lists they would receive. */
  method ImportRows(rows: seq<seq<Cell>>, cols: Columns, millions: string -> Option<int>) returns (result: Import)
    ensures result == ImportOf(rows, cols, millions)
  {
    ghost var os := Outcomes(rows, cols, millions);
    result := Import(Summary(0, 0, 0, 0), [], []);
    for i := 0 to |rows|
      invariant result == Tally(os[..i])
    {
      var o := ProcessRow(rows[i], cols, millions);
      TallyStep(os, i, o);
      result := CountRow(result, o);
    }
    assert os[..|rows|] == os;
  }

  /** The sheet and header row `import_orbis_xlsx` reads, or the KeyError for an unknown sheet name. */
  function ChosenSheet(sheets: seq<Sheet>, sheetName: string, table: HeaderTable): (r: Result<(nat, HeaderPick), string>)
    requires sheets != []
    ensures r.Ok? ==> r.value.0 < |sheets| && r.value.1 == SheetPick(sheets[r.value.0], table)
    ensures r.Ok? && sheetName != "" ==> sheets[r.value.0].title == sheetName
    ensures r.Ok? && sheetName == "" ==> r.value.0 == BestSheet(sheets, table)
    ensures r.Err? <==> sheetName != "" && SheetNamed(sheets, sheetName).None?
  {
    if sheetName != "" then
      match SheetNamed(sheets, sheetName)
      case None => Err("Worksheet " + sheetName + " does not exist.")
      case Some(i) => Ok((i, SheetPick(sheets[i], table)))
    else
      var b := BestSheet(sheets, table);
      Ok((b, SheetPick(sheets[b], table)))
  }

  /** What `import_orbis_xlsx` produces for a workbook: the rows it writes and reports, or the error it raises. */
  function ImportWorkbook(sheets: seq<Sheet>, sheetName: string, millions: string -> Option<int>): Result<Import, string>
    requires sheets != []
  {
    match ChosenSheet(sheets, sheetName, RequiredHeaders)
    case Err(e) => Err(e)
    case Ok((i, pick)) =>
      match RequiredColumns(pick.header, sheets[i].title)
      case Err(e) => Err(e)
      case Ok(cols) => Ok(ImportOf(BodyRows(sheets[i].rows, pick.row), cols, millions))
  }

  /** `import_orbis_xlsx` on a loaded workbook; an unset `ORBIS_SHEET_NAME` reads as "". */
  method ImportOrbisXlsx(sheets: seq<Sheet>, sheetName: string, millions: string -> Option<int>)
    returns (r: Result<Import, string>)
    requires sheets != []
    ensures r == ImportWorkbook(sheets, sheetName, millions)
  {
    var index: nat;
    var pick: HeaderPick;
    if sheetName != "" {
      var found := SheetNamed(sheets, sheetName);
      if found.None? {
        return Err("Worksheet " + sheetName + " does not exist.");
      }
      index := found.value;
      pick := FindHeaderRow(sheets[index], RequiredHeaders);
    } else {
      index, pick := ChooseBestSheet(sheets, RequiredHeaders);
    }
    var cols := RequiredColumns(pick.header, sheets[index].title);
    if cols.Err? {
      return Err(cols.error);
    }
    var result := ImportRows(BodyRows(sheets[index].rows, pick.row), cols.value, millions);
    r := Ok(result);
  }

  /**
   * Once the sheet is chosen, the import fails exactly when a key of
   * `RequiredHeaders` has none of its headers in the header row.
   */
  lemma ImportWorkbookErrors(sheets: seq<Sheet>, sheetName: string, millions: string -> Option<int>)
    requires sheets != [] && ChosenSheet(sheets, sheetName, RequiredHeaders).Ok?
    ensures var pick := ChosenSheet(sheets, sheetName, RequiredHeaders).value.1;
      ImportWorkbook(sheets, sheetName, millions).Err?
      <==> exists k | k in KeysOf(RequiredHeaders) :: k !in Resolve(pick.header, RequiredHeaders)
  {
    var pick := ChosenSheet(sheets, sheetName, RequiredHeaders).value.1;
    var required := Resolve(pick.header, RequiredHeaders);
    MissingKeysSpec(required, RequiredHeaders);
    var missing := MissingKeys(required, RequiredHeaders);
    if missing != [] {
      assert missing[0] in missing;
    }
  }
}
