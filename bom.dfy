/** Bill-of-materials analysis: how a CSV export's delimiter and dialect are recognised,
    how references are grouped into categories by their letter prefix, how those prefixes
    are renamed to component types, and how the per-file analyses are added up into the
    project's summary. The dataframe work of the analysis itself (quantity and cost
    columns, value counts) is an input here, not a computation. */
module Bom {
  import opened Wrappers
  import opened Strings
  import opened PyDict

  // ---------------------------------------------------------------------
  // _parse_bom_file: the CSV branch
  // ---------------------------------------------------------------------

  /** What ten calls of `readline` return, joined: the text up to and including its
      `n`-th newline, or all of it when it has fewer lines. */
  function FirstLines(text: string, n: nat): (r: string)
    ensures |r| <= |text| && r == text[..|r|]
    ensures r != text ==> CountChar(r, '\n') == n
    ensures r != text && n > 0 ==> r != [] && r[|r| - 1] == '\n'
    decreases |text|
  {
    if n == 0 || text == [] then []
    else
      var rest := FirstLines(text[1..], if text[0] == '\n' then n - 1 else n);
      assert ([text[0]] + rest)[1..] == rest;
      [text[0]] + rest
  }

  /** The sniffed delimiter. The clauses below determine it completely: a comma wins
      whenever the sample has one, then a semicolon, then a tab, and a comma is the
      fallback when the sample has none of the three. */
  function Delimiter(sample: string): (d: char)
    ensures d == ',' || d == ';' || d == '\t'
    ensures ',' in sample ==> d == ','
    ensures d != ',' ==> d in sample && ',' !in sample
    ensures d == '\t' ==> ';' !in sample
    ensures d == ',' && ',' !in sample ==> ';' !in sample && '\t' !in sample
  {
    if ',' in sample then ','
    else if ';' in sample then ';'
    else if '\t' in sample then '\t'
    else ','
  }

  /** A delimiter other than the comma was seen within the first ten lines of the file. */
  lemma DelimiterFromFile(text: string)
    ensures var d := Delimiter(FirstLines(text, 10));
      d != ',' ==> d in text[..|FirstLines(text, 10)|]
  {
  }

  /** The dialect named in `detected_format` for a CSV file. */
  datatype Format = Kicad | Altium | Generic | Unknown

  /** The header fields joined with commas and lower-cased, the text the dialect is read from. */
  function HeaderText(fields: seq<string>): string {
    Lower(Join(fields, ","))
  }

  function DetectFormat(fields: seq<string>): Format {
    var h := HeaderText(fields);
    if Contains(h, "reference") && Contains(h, "value") then Kicad
    else if Contains(h, "designator") then Altium
    else if Contains(h, "part number") || Contains(h, "manufacturer part") then Generic
    else Unknown
  }

  /** The dialect follows from the words in the individual header fields, in precedence
      order: a "reference" and a "value" field make it KiCad's whatever else is present,
      a "designator" field makes it at least Altium's, a part-number field at least
      generic, and an unknown header has none of these words in any field. */
  lemma FormatFromFields(fields: seq<string>, i: nat, j: nat)
    requires i < |fields| && j < |fields|
    ensures Contains(Lower(fields[i]), "reference") && Contains(Lower(fields[j]), "value")
      ==> DetectFormat(fields) == Kicad
    ensures Contains(Lower(fields[i]), "designator") ==> DetectFormat(fields) in {Kicad, Altium}
    ensures Contains(Lower(fields[i]), "part number") || Contains(Lower(fields[i]), "manufacturer part")
      ==> DetectFormat(fields) != Unknown
    ensures DetectFormat(fields) == Unknown ==>
      (!Contains(Lower(fields[i]), "designator") && !Contains(Lower(fields[i]), "part number")
      && !Contains(Lower(fields[i]), "manufacturer part"))
  {
    var words := ["reference", "value", "designator", "part number", "manufacturer part"];
    forall w | w in words && Contains(Lower(fields[i]), w)
      ensures Contains(HeaderText(fields), w)
    {
      JoinedLowerContains(fields, ",", i, w);
    }
    if Contains(Lower(fields[j]), "value") {
      JoinedLowerContains(fields, ",", j, "value");
    }
  }

  // ---------------------------------------------------------------------
  // _analyze_bom_data: reference prefixes
  // ---------------------------------------------------------------------

  /** `extract_prefix`: the leading ASCII letters of a string reference, or "Other" for a
      reference that does not start with a letter or is not a string at all. */
  function ExtractPrefix(ref: Option<string>): (p: string)
    ensures p != []
    ensures ref.Some? && ref.value != [] && IsAsciiLetter(ref.value[0]) ==>
      (StartsWith(ref.value, p) && (forall i :: 0 <= i < |p| ==> IsAsciiLetter(p[i]))
      && (|p| == |ref.value| || !IsAsciiLetter(ref.value[|p|])))
    ensures !(ref.Some? && ref.value != [] && IsAsciiLetter(ref.value[0])) ==> p == "Other"
  {
    if ref.Some? && ref.value != [] && IsAsciiLetter(ref.value[0]) then LeadingRun(ref.value, IsAsciiLetter)
    else "Other"
  }

  /** A designator such as `R12` or `SW3` falls under its letters. */
  lemma {:induction false} DesignatorPrefix(letters: string, rest: string)
    requires letters != [] && forall i :: 0 <= i < |letters| ==> IsAsciiLetter(letters[i])
    requires rest == [] || !IsAsciiLetter(rest[0])
    ensures ExtractPrefix(Some(letters + rest)) == letters
    decreases |letters|
  {
    var s := letters + rest;
    assert s[0] == letters[0];
    if |letters| > 1 {
      assert s[1..] == letters[1..] + rest;
      DesignatorPrefix(letters[1..], rest);
    }
  }

  /** `d[k] = d.get(k, 0) + 1` for every key in turn. */
  function Tally(keys: seq<string>): Dict
    decreases |keys|
  {
    if keys == [] then [] else Bump(Tally(keys[..|keys| - 1]), keys[|keys| - 1], 1)
  }

  /** How often `k` occurs in `keys`. */
  function Occurrences(keys: seq<string>, k: string): nat
    decreases |keys|
  {
    if keys == [] then 0
    else Occurrences(keys[..|keys| - 1], k) + (if keys[|keys| - 1] == k then 1 else 0)
  }

  /** The tally has one entry per distinct key, counting its occurrences, and its counts
      add up to the number of keys. */
  lemma {:induction false} TallyCounts(keys: seq<string>)
    ensures Sum(Tally(keys)) == |keys| && DistinctKeys(Tally(keys))
    ensures forall k :: k in KeySet(Tally(keys)) <==> k in keys
    ensures forall k :: Lookup(Tally(keys), k).GetOr(0) == Occurrences(keys, k)
    decreases |keys|
  {
    if keys != [] {
      var init := keys[..|keys| - 1];
      var last := keys[|keys| - 1];
      TallyCounts(init);
      assert keys == init + [last];
      forall k | k != last
        ensures Lookup(Tally(keys), k) == Lookup(Tally(init), k)
      {
        UpsertOther(Tally(init), last, Lookup(Tally(init), last).GetOr(0) + 1, k);
      }
    }
  }

  /** `[r.strip() for r in refs.split(",")]`. */
  function StrippedPieces(cell: string): (r: seq<string>)
    ensures |r| == |SplitOn(cell, ',')|
  {
    var pieces := SplitOn(cell, ',');
    seq(|pieces|, i requires 0 <= i < |pieces| => Strip(pieces[i]))
  }

  /** `all_refs`: the stripped pieces of every cell in order, or `None` when a cell is not
      a string and `split` raises. */
  function SplitCells(cells: seq<Option<string>>): Option<seq<string>>
    decreases |cells|
  {
    if cells == [] then Some([])
    else
      var last := cells[|cells| - 1];
      match SplitCells(cells[..|cells| - 1])
      case None => None
      case Some(refs) => if last.None? then None else Some(refs + StrippedPieces(last.value))
  }

  /** The commas in the string cells. */
  function CommaTotal(cells: seq<Option<string>>): nat
    decreases |cells|
  {
    if cells == [] then 0
    else CommaTotal(cells[..|cells| - 1]) + CountChar(cells[|cells| - 1].GetOr(""), ',')
  }

  predicate AllStrings(cells: seq<Option<string>>) {
    forall i :: 0 <= i < |cells| ==> cells[i].Some?
  }

  /** Splitting fails exactly when some cell is not a string; otherwise every cell
      contributes one reference more than it has commas. */
  lemma {:induction false} SplitCellsCount(cells: seq<Option<string>>)
    ensures SplitCells(cells).Some? <==> AllStrings(cells)
    ensures SplitCells(cells).Some? ==> |SplitCells(cells).value| == |cells| + CommaTotal(cells)
    decreases |cells|
  {
    if cells != [] {
      var init := cells[..|cells| - 1];
      SplitCellsCount(init);
      assert forall i :: 0 <= i < |init| ==> init[i] == cells[i];
      if cells[|cells| - 1].Some? {
        SplitOnCount(cells[|cells| - 1].value, ',');
      }
    }
  }

  function PrefixesOf(refs: seq<string>): (r: seq<string>)
    ensures |r| == |refs| && forall i :: 0 <= i < |refs| ==> r[i] == ExtractPrefix(Some(refs[i]))
  {
    seq(|refs|, i requires 0 <= i < |refs| => ExtractPrefix(Some(refs[i])))
  }

  function CellPrefixes(cells: seq<Option<string>>): (r: seq<string>)
    ensures |r| == |cells| && forall i :: 0 <= i < |cells| ==> r[i] == ExtractPrefix(cells[i])
  {
    seq(|cells|, i requires 0 <= i < |cells| => ExtractPrefix(cells[i]))
  }

  /** Whether the reference column holds comma-joined groups, judged by its first cell. */
  predicate CommaJoined(cells: seq<Option<string>>)
    requires cells != []
  {
    cells[0].Some? && ',' in cells[0].value
  }

  /** The categories read from the reference column (whose first row exists, since the
      analysis returns early on an empty BOM). Comma-joined cells are split and each
      reference counted under its prefix; `None` is the exception a non-string cell raises
      in that mode, after which the analysis falls back to plain counts. Otherwise each
      cell counts once under its prefix. */
  function RefCategories(cells: seq<Option<string>>): Option<Dict>
    requires cells != []
  {
    if CommaJoined(cells) then
      match SplitCells(cells)
      case None => None
      case Some(refs) => Some(Tally(PrefixesOf(refs)))
    else Some(Tally(CellPrefixes(cells)))
  }

  /** The prefix counts add up to the number of references: one per cell, or, for
      comma-joined cells, one per cell plus one per comma. Each category is a prefix that
      occurs, counted as often as it occurs. */
  lemma RefCategoriesTotal(cells: seq<Option<string>>)
    requires cells != []
    ensures RefCategories(cells).Some? <==> !CommaJoined(cells) || AllStrings(cells)
    ensures RefCategories(cells).Some? ==> DistinctKeys(RefCategories(cells).value)
    ensures RefCategories(cells).Some? && !CommaJoined(cells) ==>
      Sum(RefCategories(cells).value) == |cells|
    ensures RefCategories(cells).Some? && CommaJoined(cells) ==>
      Sum(RefCategories(cells).value) == |cells| + CommaTotal(cells)
  {
    if CommaJoined(cells) {
      SplitCellsCount(cells);
      if AllStrings(cells) {
        TallyCounts(PrefixesOf(SplitCells(cells).value));
      }
    } else {
      TallyCounts(CellPrefixes(cells));
    }
  }

  /** The loops that build `all_refs` and `categories_dict`, and the per-cell branch. */
  method ReferenceCategories(cells: seq<Option<string>>) returns (r: Option<Dict>)
    requires cells != []
    ensures r == RefCategories(cells)
  {
    if !(cells[0].Some? && ',' in cells[0].value) {
      r := Some(Tally(CellPrefixes(cells)));
      return;
    }
    var refs := SplitAllRefs(cells);
    if refs.None? {
      r := None;
      return;
    }
    var counts := CountPrefixes(refs.value);
    r := Some(counts);
  }

  /** The `categories_dict` loop over `all_refs`. */
  method CountPrefixes(refs: seq<string>) returns (counts: Dict)
    ensures counts == Tally(PrefixesOf(refs))
  {
    counts := [];
    ghost var prefixes := PrefixesOf(refs);
    var i := 0;
    while i < |refs|
      invariant 0 <= i <= |refs|
      invariant counts == Tally(prefixes[..i])
    {
      var prefix := ExtractPrefix(Some(refs[i]));
      TallyStep(prefixes, i);
      counts := Bump(counts, prefix, 1);
      i := i + 1;
    }
    assert prefixes[..|prefixes|] == prefixes;
  }

  lemma TallyStep(keys: seq<string>, i: nat)
    requires i < |keys|
    ensures Tally(keys[..i + 1]) == Bump(Tally(keys[..i]), keys[i], 1)
  {
    assert keys[..i + 1][..i] == keys[..i];
  }

  /** The first loop, which stops at the first cell that is not a string. */
  method SplitAllRefs(cells: seq<Option<string>>) returns (refs: Option<seq<string>>)
    ensures refs == SplitCells(cells)
  {
    var all: seq<string> := [];
    var i := 0;
    while i < |cells|
      invariant 0 <= i <= |cells|
      invariant SplitCells(cells[..i]) == Some(all)
    {
      assert cells[..i + 1][..i] == cells[..i];
      if cells[i].None? {
        SplitCellsCount(cells);
        return None;
      }
      all := all + StrippedPieces(cells[i].value);
      i := i + 1;
    }
    assert cells[..|cells|] == cells;
    refs := Some(all);
  }

  // ---------------------------------------------------------------------
  // _analyze_bom_data: renaming categories
  // ---------------------------------------------------------------------

  /** `category_mapping`: reference prefixes and the component types they stand for. */
  const CategoryMapping: map<string, string> := map[
    "R" := "Resistors", "C" := "Capacitors", "L" := "Inductors", "D" := "Diodes",
    "Q" := "Transistors", "U" := "ICs", "SW" := "Switches", "J" := "Connectors",
    "K" := "Relays", "Y" := "Crystals/Oscillators", "F" := "Fuses", "T" := "Transformers"]

  /** The name a category is reported under. */
  function MappedName(cat: string): string {
    if cat in CategoryMapping then CategoryMapping[cat] else cat
  }

  /** No component type is itself a prefix of the table. */
  lemma TypeNamesAreNotPrefixes(cat: string)
    ensures cat in CategoryMapping ==> CategoryMapping[cat] !in CategoryMapping
  {
  }

  /** The renaming loop as written: a known prefix adds its count to its type's entry,
      but any other category assigns its count, replacing whatever an earlier prefix
      added under the same name. */
  function MapCategoriesAsWritten(cats: Dict): Dict
    decreases |cats|
  {
    if cats == [] then []
    else
      var acc := MapCategoriesAsWritten(cats[..|cats| - 1]);
      var c := cats[|cats| - 1];
      if c.0 in CategoryMapping then Bump(acc, CategoryMapping[c.0], c.1)
      else Upsert(acc, c.0, c.1)
  }

  /** A category column holding three "R" rows and then two "Resistors" rows: the source
      reports two resistors, where adding would give five. */
  lemma AsWrittenLosesCounts()
    ensures Sum([("R", 3), ("Resistors", 2)]) == 5
    ensures MapCategoriesAsWritten([("R", 3), ("Resistors", 2)]) == [("Resistors", 2)]
    ensures MapCategories([("R", 3), ("Resistors", 2)]) == [("Resistors", 5)]
  {
    var cats: Dict := [("R", 3), ("Resistors", 2)];
    assert cats[..1] == [("R", 3)] && cats[..1][..0] == [];
    assert "Resistors" !in CategoryMapping;
  }

  /** The renaming with every category adding its count to its reported name. */
  function MapCategories(cats: Dict): Dict
    decreases |cats|
  {
    if cats == [] then []
    else
      var c := cats[|cats| - 1];
      Bump(MapCategories(cats[..|cats| - 1]), MappedName(c.0), c.1)
  }

  /** Renaming loses no component: the counts still add up to the same total, the names
      are distinct, and no reported name is itself a prefix of the table. */
  lemma {:induction false} MapCategoriesTotal(cats: Dict)
    ensures Sum(MapCategories(cats)) == Sum(cats)
    ensures DistinctKeys(MapCategories(cats))
    ensures forall k :: k in KeySet(MapCategories(cats)) ==> k !in CategoryMapping
    decreases |cats|
  {
    if cats != [] {
      var init := cats[..|cats| - 1];
      var c := cats[|cats| - 1];
      MapCategoriesTotal(init);
      TypeNamesAreNotPrefixes(c.0);
      assert MapCategories(cats) == Bump(MapCategories(init), MappedName(c.0), c.1);
      assert Sum(cats) == Sum(init) + c.1 by {
        assert cats == init + [c];
        SumSnoc(init, c);
      }
    }
  }

  /** Each reported name is the reported name of some input category. */
  lemma {:induction false} MapCategoryNames(cats: Dict)
    ensures forall k :: k in KeySet(MapCategories(cats)) ==>
      exists i :: 0 <= i < |cats| && MappedName(cats[i].0) == k
    decreases |cats|
  {
    if cats != [] {
      var init := cats[..|cats| - 1];
      var c := cats[|cats| - 1];
      MapCategoryNames(init);
      assert MapCategories(cats) == Bump(MapCategories(init), MappedName(c.0), c.1);
      forall k | k in KeySet(MapCategories(cats))
        ensures exists i :: 0 <= i < |cats| && MappedName(cats[i].0) == k
      {
        if k != MappedName(c.0) {
          assert k in KeySet(MapCategories(init));
          var i :| 0 <= i < |init| && MappedName(init[i].0) == k;
          assert cats[i] == init[i];
        } else {
          assert MappedName(cats[|cats| - 1].0) == k;
        }
      }
    }
  }

  /** The as-written loop agrees with the corrected one whenever no category outside the
      table is already one of the type names and the categories are distinct, as value
      counts and prefix tallies are. */
  lemma {:induction false} AsWrittenAgrees(cats: Dict)
    requires forall i, j :: 0 <= i < j < |cats| ==> cats[i].0 != cats[j].0
    requires forall i :: 0 <= i < |cats| ==> cats[i].0 !in CategoryMapping.Values
    ensures MapCategoriesAsWritten(cats) == MapCategories(cats)
    decreases |cats|
  {
    if cats != [] {
      var init := cats[..|cats| - 1];
      var c := cats[|cats| - 1];
      AsWrittenAgrees(init);
      if c.0 !in CategoryMapping {
        MapCategoryNames(init);
      }
    }
  }

  /** The renaming loop of the analysis, with the count of a colliding name added. */
  method RenameCategories(cats: Dict) returns (mapped: Dict)
    ensures mapped == MapCategories(cats)
  {
    mapped := [];
    var i := 0;
    while i < |cats|
      invariant 0 <= i <= |cats|
      invariant mapped == MapCategories(cats[..i])
    {
      assert cats[..i + 1][..i] == cats[..i];
      mapped := Bump(mapped, MappedName(cats[i].0), cats[i].1);
      i := i + 1;
    }
    assert cats[..|cats|] == cats;
  }

  // ---------------------------------------------------------------------
  // _analyze_bom_data: columns and the results without a dataframe
  // ---------------------------------------------------------------------

  /** The column names the analysis looks for, in order of preference. */
  const RefColumns: seq<string> := ["reference", "designator", "references", "designators", "refdes", "ref"]
  const ValueColumns: seq<string> := ["value", "component", "comp", "part", "component value", "comp value"]
  const QuantityColumns: seq<string> := ["quantity", "qty", "count", "amount"]
  const FootprintColumns: seq<string> := ["footprint", "package", "pattern", "pcb footprint"]
  const CostColumns: seq<string> := ["cost", "price", "unit price", "unit cost", "cost each"]
  const CategoryColumns: seq<string> := ["category", "type", "group", "component type", "lib"]

  /** A dataframe column name as the analysis compares it: stripped and lower-cased. */
  function ColumnKey(column: string): string {
    Lower(Strip(column))
  }

  /** One of the `for possible_col in [...]` loops: the first candidate that is a column. */
  method FindColumn(candidates: seq<string>, columns: seq<string>) returns (found: Option<string>)
    ensures found.Some? ==> found.value in columns
    ensures found.Some? ==> exists k :: (0 <= k < |candidates| && candidates[k] == found.value
      && forall j :: 0 <= j < k ==> candidates[j] !in columns)
    ensures found.None? ==> forall c :: c in candidates ==> c !in columns
  {
    var k := 0;
    while k < |candidates|
      invariant 0 <= k <= |candidates|
      invariant forall j :: 0 <= j < k ==> candidates[j] !in columns
    {
      if candidates[k] in columns {
        return Some(candidates[k]);
      }
      k := k + 1;
    }
    return None;
  }

  /** Where the categories come from: a category column, else a footprint column, else the
      reference prefixes, else nowhere. */
  datatype CategorySource = FromColumn(column: string) | FromReferences(column: string) | NoCategories

  function ChooseCategorySource(categoryCol: Option<string>, footprintCol: Option<string>, refCol: Option<string>): (s: CategorySource)
    ensures categoryCol.Some? ==> s == FromColumn(categoryCol.value)
    ensures categoryCol.None? && footprintCol.Some? ==> s == FromColumn(footprintCol.value)
    ensures s.FromReferences? <==> categoryCol.None? && footprintCol.None? && refCol.Some?
    ensures s == NoCategories <==> categoryCol.None? && footprintCol.None? && refCol.None?
  {
    if categoryCol.Some? then FromColumn(categoryCol.value)
    else if footprintCol.Some? then FromColumn(footprintCol.value)
    else if refCol.Some? then FromReferences(refCol.value)
    else NoCategories
  }

  /** The analysis of one BOM file: counts, categories (after renaming), and the cost in
      hundredths of the currency when the file has cost data. */
  datatype Analysis = Analysis(unique: nat, total: nat, categories: Dict, hasCostData: bool,
                               totalCost: Option<int>, currency: Option<string>)

  /** The result for an empty component list, and for any list when pandas is missing:
      both counts are the number of components and there are no categories or costs. */
  function BasicAnalysis(components: nat): (a: Analysis)
    ensures a.unique == a.total == components && a.categories == [] && !a.hasCostData
    ensures a.totalCost.None? && a.currency.None?
  {
    Analysis(components, components, [], false, None, None)
  }

  // ---------------------------------------------------------------------
  // analyze_bom: adding up the files
  // ---------------------------------------------------------------------

  /** A project file considered a BOM: its type mentions "bom" or its path ends in ".csv". */
  predicate IsBomFile(file: (string, string)) {
    Contains(Lower(file.0), "bom") || EndsWith(Lower(file.1), ".csv")
  }

  /** `bom_files`, in the order of the project's files. */
  function BomFiles(files: seq<(string, string)>): (r: seq<(string, string)>)
    ensures forall f :: f in r <==> f in files && IsBomFile(f)
    decreases |files|
  {
    if files == [] then []
    else
      var last := files[|files| - 1];
      assert forall f :: f in files <==> f in files[..|files| - 1] || f == last by {
        assert files == files[..|files| - 1] + [last];
      }
      BomFiles(files[..|files| - 1]) + (if IsBomFile(last) then [last] else [])
  }

  /** What parsing and analysing a file gives: an analysis, an error, or nothing to
      analyse (an unreadable or empty BOM, which is skipped). */
  datatype Outcome = Analysed(analysis: Analysis) | Failed(error: string) | NoComponents

  /** One entry of the report's `bom_files`. */
  datatype FileReport = FileReport(fileType: string, path: string, result: Result<Analysis, string>)

  /** The reports of the BOM files, the skipped ones left out. */
  function Reports(bomFiles: seq<(string, string)>, outcome: string -> Outcome): (r: seq<FileReport>)
    ensures |r| <= |bomFiles|
    decreases |bomFiles|
  {
    if bomFiles == [] then []
    else
      var f := bomFiles[|bomFiles| - 1];
      Reports(bomFiles[..|bomFiles| - 1], outcome) +
        match outcome(f.1)
        case Analysed(a) => [FileReport(f.0, f.1, Ok(a))]
        case Failed(e) => [FileReport(f.0, f.1, Err(e))]
        case NoComponents => []
  }

  /** The analyses among the reports, in order. */
  function Analyses(reports: seq<FileReport>): seq<Analysis>
    decreases |reports|
  {
    if reports == [] then []
    else
      var rep := reports[|reports| - 1];
      Analyses(reports[..|reports| - 1]) + (if rep.result.Ok? then [rep.result.value] else [])
  }

  function UniqueTotal(analyses: seq<Analysis>): nat
    decreases |analyses|
  {
    if analyses == [] then 0 else UniqueTotal(analyses[..|analyses| - 1]) + analyses[|analyses| - 1].unique
  }

  function ComponentTotal(analyses: seq<Analysis>): nat
    decreases |analyses|
  {
    if analyses == [] then 0 else ComponentTotal(analyses[..|analyses| - 1]) + analyses[|analyses| - 1].total
  }

  /** Adding one file's categories into the running dict, entry by entry. */
  function MergeInto(acc: Dict, cats: Dict): (r: Dict)
    ensures Sum(r) == Sum(acc) + Sum(cats)
    ensures DistinctKeys(acc) ==> DistinctKeys(r)
    decreases |cats|
  {
    if cats == [] then acc
    else
      var c := cats[|cats| - 1];
      assert cats == cats[..|cats| - 1] + [c];
      SumSnoc(cats[..|cats| - 1], c);
      Bump(MergeInto(acc, cats[..|cats| - 1]), c.0, c.1)
  }

  /** `all_categories`: every file's categories added together. */
  function MergedCategories(analyses: seq<Analysis>): Dict
    decreases |analyses|
  {
    if analyses == [] then []
    else MergeInto(MergedCategories(analyses[..|analyses| - 1]), analyses[|analyses| - 1].categories)
  }

  /** The categories' counts over all files. */
  function CategoryTotal(analyses: seq<Analysis>): nat
    decreases |analyses|
  {
    if analyses == [] then 0
    else CategoryTotal(analyses[..|analyses| - 1]) + Sum(analyses[|analyses| - 1].categories)
  }

  /** A file's cost counts towards the total only when it is positive. */
  function PositiveCost(a: Analysis): int {
    if a.totalCost.Some? && a.totalCost.value > 0 then a.totalCost.value else 0
  }

  function CostTotal(analyses: seq<Analysis>): int
    decreases |analyses|
  {
    if analyses == [] then 0 else CostTotal(analyses[..|analyses| - 1]) + PositiveCost(analyses[|analyses| - 1])
  }

  predicate CostAvailable(analyses: seq<Analysis>) {
    exists i :: 0 <= i < |analyses| && PositiveCost(analyses[i]) > 0
  }

  /** The currency of the first analysis reporting one, if any. */
  function FirstCurrency(analyses: seq<Analysis>): (c: Option<string>)
    ensures c.None? <==> forall i :: 0 <= i < |analyses| ==> analyses[i].currency.None?
    ensures c.Some? ==> exists i :: (0 <= i < |analyses| && analyses[i].currency == c
      && forall j :: 0 <= j < i ==> analyses[j].currency.None?)
    decreases |analyses|
  {
    if analyses == [] then None
    else
      var init := analyses[..|analyses| - 1];
      var c := FirstCurrency(init);
      assert forall i :: 0 <= i < |init| ==> init[i] == analyses[i];
      if c.Some? then
        var i :| 0 <= i < |init| && init[i].currency == c && forall j :: 0 <= j < i ==> init[j].currency.None?;
        assert analyses[i].currency == c;
        c
      else analyses[|analyses| - 1].currency
  }

  /** `component_summary` when it is filled. */
  datatype Summary = Summary(unique: nat, total: nat, categories: Dict, cost: Option<(int, string)>)

  datatype BomReport = BomReport(files: seq<FileReport>, summary: Option<Summary>)

  const NoBomFiles := "No BOM files found. Export a BOM from KiCad first."

  /** `analyze_bom` for a project whose files are `files` (type, path) and whose BOM files
      parse and analyse as `outcome` says. */
  function AnalyzeBomSpec(files: seq<(string, string)>, outcome: string -> Outcome): Result<BomReport, string> {
    var bomFiles := BomFiles(files);
    if bomFiles == [] then Err(NoBomFiles)
    else
      var reports := Reports(bomFiles, outcome);
      var analyses := Analyses(reports);
      var total := ComponentTotal(analyses);
      Ok(BomReport(reports,
        if total == 0 then None
        else Some(Summary(UniqueTotal(analyses), total, MergedCategories(analyses),
          if CostAvailable(analyses) then Some((CostTotal(analyses), FirstCurrency(analyses).GetOr("USD"))) else None))))
  }

  /** The merged categories count every category entry of every analysed file once. */
  lemma {:induction false} MergedTotal(analyses: seq<Analysis>)
    ensures Sum(MergedCategories(analyses)) == CategoryTotal(analyses)
    ensures DistinctKeys(MergedCategories(analyses))
    decreases |analyses|
  {
    if analyses != [] {
      MergedTotal(analyses[..|analyses| - 1]);
    }
  }

  /** A cost is reported exactly when the positive costs add up to more than nothing. */
  lemma {:induction false} CostFacts(analyses: seq<Analysis>)
    ensures CostTotal(analyses) >= 0
    ensures CostAvailable(analyses) <==> CostTotal(analyses) > 0
    decreases |analyses|
  {
    if analyses != [] {
      var init := analyses[..|analyses| - 1];
      CostFacts(init);
      assert forall i :: 0 <= i < |init| ==> init[i] == analyses[i];
      if CostAvailable(init) {
        var i :| 0 <= i < |init| && PositiveCost(init[i]) > 0;
        assert PositiveCost(analyses[i]) > 0;
      }
    }
  }

  /** The report: an error exactly when no project file is a BOM; a summary exactly when the
      analysed files count some component, with the summed counts, categories that add up
      to the files' categories, and a positive cost only when some file has one. */
  lemma BomReportFacts(files: seq<(string, string)>, outcome: string -> Outcome)
    ensures AnalyzeBomSpec(files, outcome).Err? <==> forall f :: f in files ==> !IsBomFile(f)
    ensures AnalyzeBomSpec(files, outcome).Err? ==> AnalyzeBomSpec(files, outcome).error == NoBomFiles
    ensures var r := AnalyzeBomSpec(files, outcome);
      r.Ok? ==> var analyses := Analyses(r.value.files);
        (r.value.summary.Some? <==> ComponentTotal(analyses) > 0)
        && (r.value.summary.Some? ==> (r.value.summary.value.total == ComponentTotal(analyses)
          && r.value.summary.value.unique == UniqueTotal(analyses)
          && Sum(r.value.summary.value.categories) == CategoryTotal(analyses)
          && (r.value.summary.value.cost.Some? <==> CostAvailable(analyses))
          && (r.value.summary.value.cost.Some? ==> r.value.summary.value.cost.value.0 > 0)))
  {
    var bomFiles := BomFiles(files);
    if bomFiles != [] {
      assert bomFiles[0] in bomFiles;
      var analyses := Analyses(Reports(bomFiles, outcome));
      MergedTotal(analyses);
      CostFacts(analyses);
    }
  }

  // ---------------------------------------------------------------------
  // analyze_bom: the loops
  // ---------------------------------------------------------------------

  lemma AnalysesSnoc(reports: seq<FileReport>, rep: FileReport)
    ensures Analyses(reports + [rep]) == Analyses(reports) + (if rep.result.Ok? then [rep.result.value] else [])
  {
    assert (reports + [rep])[..|reports|] == reports;
  }

  lemma TotalsSnoc(analyses: seq<Analysis>, a: Analysis)
    ensures UniqueTotal(analyses + [a]) == UniqueTotal(analyses) + a.unique
    ensures ComponentTotal(analyses + [a]) == ComponentTotal(analyses) + a.total
    ensures MergedCategories(analyses + [a]) == MergeInto(MergedCategories(analyses), a.categories)
    ensures CostTotal(analyses + [a]) == CostTotal(analyses) + PositiveCost(a)
    ensures FirstCurrency(analyses + [a]) == if FirstCurrency(analyses).Some? then FirstCurrency(analyses) else a.currency
  {
    assert (analyses + [a])[..|analyses|] == analyses;
  }

  method SelectBomFiles(files: seq<(string, string)>) returns (bomFiles: seq<(string, string)>)
    ensures bomFiles == BomFiles(files)
  {
    bomFiles := [];
    var i := 0;
    while i < |files|
      invariant 0 <= i <= |files|
      invariant bomFiles == BomFiles(files[..i])
    {
      assert files[..i + 1][..i] == files[..i];
      if Contains(Lower(files[i].0), "bom") || EndsWith(Lower(files[i].1), ".csv") {
        bomFiles := bomFiles + [files[i]];
      }
      i := i + 1;
    }
    assert files[..|files|] == files;
  }

  /** The per-file loop: a report for every file not skipped, and the running counts. */
  method AnalyseFiles(bomFiles: seq<(string, string)>, outcome: string -> Outcome)
    returns (reports: seq<FileReport>, unique: nat, total: nat)
    ensures reports == Reports(bomFiles, outcome)
    ensures unique == UniqueTotal(Analyses(reports)) && total == ComponentTotal(Analyses(reports))
  {
    reports, unique, total := [], 0, 0;
    var i := 0;
    while i < |bomFiles|
      invariant 0 <= i <= |bomFiles|
      invariant reports == Reports(bomFiles[..i], outcome)
      invariant unique == UniqueTotal(Analyses(reports)) && total == ComponentTotal(Analyses(reports))
    {
      assert bomFiles[..i + 1][..i] == bomFiles[..i];
      var f := bomFiles[i];
      match outcome(f.1) {
        case Analysed(a) =>
          var next := reports + [FileReport(f.0, f.1, Ok(a))];
          AnalysesSnoc(reports, FileReport(f.0, f.1, Ok(a)));
          TotalsSnoc(Analyses(reports), a);
          assert Analyses(next) == Analyses(reports) + [a];
          reports := next;
          unique := unique + a.unique;
          total := total + a.total;
        case Failed(e) =>
          var next := reports + [FileReport(f.0, f.1, Err(e))];
          AnalysesSnoc(reports, FileReport(f.0, f.1, Err(e)));
          assert Analyses(next) == Analyses(reports);
          reports := next;
        case NoComponents =>
      }
      i := i + 1;
    }
    assert bomFiles[..|bomFiles|] == bomFiles;
  }

  /** The inner loop over one file's categories. */
  method MergeFile(acc: Dict, cats: Dict) returns (r: Dict)
    ensures r == MergeInto(acc, cats)
  {
    r := acc;
    var k := 0;
    while k < |cats|
      invariant 0 <= k <= |cats|
      invariant r == MergeInto(acc, cats[..k])
    {
      assert cats[..k + 1][..k] == cats[..k];
      r := Bump(r, cats[k].0, cats[k].1);
      k := k + 1;
    }
    assert cats[..|cats|] == cats;
  }

  /** The loop that builds `all_categories`. */
  method MergeAll(reports: seq<FileReport>) returns (cats: Dict)
    ensures cats == MergedCategories(Analyses(reports))
  {
    cats := [];
    var i := 0;
    while i < |reports|
      invariant 0 <= i <= |reports|
      invariant cats == MergedCategories(Analyses(reports[..i]))
    {
      assert reports[..i + 1] == reports[..i] + [reports[i]];
      AnalysesSnoc(reports[..i], reports[i]);
      if reports[i].result.Ok? {
        TotalsSnoc(Analyses(reports[..i]), reports[i].result.value);
        assert Analyses(reports[..i + 1]) == Analyses(reports[..i]) + [reports[i].result.value];
      } else {
        assert Analyses(reports[..i + 1]) == Analyses(reports[..i]);
      }
      if reports[i].result.Ok? {
        cats := MergeFile(cats, reports[i].result.value.categories);
      }
      i := i + 1;
    }
    assert reports[..|reports|] == reports;
  }

  /** The loop that adds up the positive costs and notes whether there was one. */
  method AddCosts(reports: seq<FileReport>) returns (cost: int, available: bool)
    ensures cost == CostTotal(Analyses(reports)) && available == CostAvailable(Analyses(reports))
  {
    cost, available := 0, false;
    var i := 0;
    while i < |reports|
      invariant 0 <= i <= |reports|
      invariant cost == CostTotal(Analyses(reports[..i])) && available == (cost > 0)
    {
      assert reports[..i + 1] == reports[..i] + [reports[i]];
      AnalysesSnoc(reports[..i], reports[i]);
      if reports[i].result.Ok? {
        TotalsSnoc(Analyses(reports[..i]), reports[i].result.value);
        assert Analyses(reports[..i + 1]) == Analyses(reports[..i]) + [reports[i].result.value];
      } else {
        assert Analyses(reports[..i + 1]) == Analyses(reports[..i]);
      }
      CostFacts(Analyses(reports[..i]));
      if reports[i].result.Ok? {
        var a := reports[i].result.value;
        if a.totalCost.Some? && a.totalCost.value > 0 {
          cost := cost + a.totalCost.value;
          available := true;
        }
      }
      i := i + 1;
    }
    assert reports[..|reports|] == reports;
    CostFacts(Analyses(reports));
  }

  /** The `next(...)` over the analysed files: the first currency reported. */
  method FindCurrency(reports: seq<FileReport>) returns (currency: Option<string>)
    ensures currency == FirstCurrency(Analyses(reports))
  {
    currency := None;
    var i := 0;
    while i < |reports|
      invariant 0 <= i <= |reports|
      invariant currency == FirstCurrency(Analyses(reports[..i]))
    {
      assert reports[..i + 1] == reports[..i] + [reports[i]];
      AnalysesSnoc(reports[..i], reports[i]);
      if reports[i].result.Ok? {
        TotalsSnoc(Analyses(reports[..i]), reports[i].result.value);
        assert Analyses(reports[..i + 1]) == Analyses(reports[..i]) + [reports[i].result.value];
      } else {
        assert Analyses(reports[..i + 1]) == Analyses(reports[..i]);
      }
      if reports[i].result.Ok? && currency.None? {
        currency := reports[i].result.value.currency;
      }
      i := i + 1;
    }
    assert reports[..|reports|] == reports;
  }

  /** `analyze_bom` from the file list on. */
  method AnalyzeBom(files: seq<(string, string)>, outcome: string -> Outcome) returns (r: Result<BomReport, string>)
    ensures r == AnalyzeBomSpec(files, outcome)
  {
    var bomFiles := SelectBomFiles(files);
    if bomFiles == [] {
      return Err(NoBomFiles);
    }
    var reports, unique, total := AnalyseFiles(bomFiles, outcome);
    if total == 0 {
      return Ok(BomReport(reports, None));
    }
    var cats := MergeAll(reports);
    var cost, available := AddCosts(reports);
    var currency := FindCurrency(reports);
    var summaryCost := if available then Some((cost, currency.GetOr("USD"))) else None;
    r := Ok(BomReport(reports, Some(Summary(unique, total, cats, summaryCost))));
  }
}
