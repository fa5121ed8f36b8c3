/** What both library indexes share: the directory listing they read, the rows a rebuild
    derives from it, the staleness rule, and the search wrapper around the full-text
    engine. The engine itself is abstract: for an FTS5 expression it reports the
    matching rowids in rank order, or `None` when SQLite rejects the expression. */
module IndexModel {
  import opened Wrappers
  import opened Strings
  import opened LibraryParsers
  import opened FtsQuery

  /** A directory entry as `os.scandir` reports it. `content` is what reading the entry as
      a file yields (`None` when that fails, as for a directory); `children` lists a
      directory's own entries. Times are whole seconds. */
  datatype Entry = Entry(name: string, isDir: bool, mtime: nat, content: Option<string>, children: seq<Entry>)

  /** What the file system shows at a library root: whether it is a directory, and its listing. */
  datatype RootView = RootView(isDir: bool, entries: seq<Entry>)

  function EntryName(e: Entry): string { e.name }

  datatype FootprintRow = FootprintRow(library: string, name: string, description: string, tags: string, padCount: nat)

  datatype SymbolRow = SymbolRow(library: string, name: string, libId: string, description: string, keywords: string, pinCount: nat)

  /** The two library families; each has its own unit of change on disk. */
  datatype Family = Footprints | Symbols

  const PrettySuffix := ".pretty"
  const ModSuffix := ".kicad_mod"
  const SymSuffix := ".kicad_sym"

  predicate IsPrettyDir(e: Entry) { EndsWith(e.name, PrettySuffix) && e.isDir }
  predicate IsModFile(e: Entry) { EndsWith(e.name, ModSuffix) }
  predicate IsSymFile(e: Entry) { EndsWith(e.name, SymSuffix) }

  /** A top-level entry whose modification time can make a family stale. */
  predicate IsUnit(e: Entry, fam: Family) {
    match fam
    case Footprints => IsPrettyDir(e)
    case Symbols => IsSymFile(e) && !e.isDir
  }

  /** A library root that `rebuild_*` and `*_stale` accept: set, non-empty, a directory. */
  predicate RootUsable(path: Option<string>, root: RootView) {
    path.Some? && path.value != [] && root.isDir
  }

  /** How an f-string shows an optional path: `None` for a missing one. */
  function PathText(path: Option<string>): string {
    if path.Some? then path.value else "None"
  }

  /** The `RuntimeError` a rebuild raises for an unusable root: which family, the path as
      configured, and the variable that would set it. */
  function PathNotFound(family: string, path: Option<string>, variable: string): string {
    family + " library path not found: " + PathText(path) + ". Set " + variable + " or install KiCad."
  }

  // -------------------------------------------------------------------
  // Rows derived by a rebuild
  // -------------------------------------------------------------------

  function LibraryOfDir(d: Entry): string
    requires IsPrettyDir(d)
  {
    d.name[..|d.name| - |PrettySuffix|]
  }

  /** The row for one footprint file; the file name without ".kicad_mod" stands in for a
      name the file does not declare. */
  function FootprintRowOf(library: string, f: Entry): FootprintRow
    requires IsModFile(f)
  {
    var m := ParseKicadMod(f.content);
    FootprintRow(library, if m.name == [] then f.name[..|f.name| - |ModSuffix|] else m.name,
                 m.description, m.tags, m.padCount)
  }

  function RowsOfFiles(library: string, fs: seq<Entry>): seq<FootprintRow>
  {
    if fs == [] then []
    else
      var f := fs[|fs| - 1];
      RowsOfFiles(library, fs[..|fs| - 1]) + (if IsModFile(f) then [FootprintRowOf(library, f)] else [])
  }

  /** One more file adds its row, or nothing when it is not a footprint file. */
  lemma RowsOfFilesStep(library: string, fs: seq<Entry>, j: nat)
    requires j < |fs|
    ensures IsModFile(fs[j]) ==> RowsOfFiles(library, fs[..j + 1]) == RowsOfFiles(library, fs[..j]) + [FootprintRowOf(library, fs[j])]
    ensures !IsModFile(fs[j]) ==> RowsOfFiles(library, fs[..j + 1]) == RowsOfFiles(library, fs[..j])
  {
    assert fs[..j + 1][..j] == fs[..j];
  }

  function RowsOfDir(d: Entry): seq<FootprintRow>
  {
    if IsPrettyDir(d) then RowsOfFiles(LibraryOfDir(d), SortBy(d.children, EntryName)) else []
  }

  function RowsOfDirs(ds: seq<Entry>): seq<FootprintRow>
  {
    if ds == [] then [] else RowsOfDirs(ds[..|ds| - 1]) + RowsOfDir(ds[|ds| - 1])
  }

  /** The footprint table after a rebuild over `entries`: directories and files by name. */
  function FootprintRows(entries: seq<Entry>): seq<FootprintRow>
  {
    RowsOfDirs(SortBy(entries, EntryName))
  }

  function SymbolRowOf(m: SymbolMeta): (r: SymbolRow)
    ensures r.libId == r.library + ":" + r.name
  {
    SymbolRow(m.library, m.name, m.library + ":" + m.name, m.description, m.keywords, m.pinCount)
  }

  function SymbolRowsOf(ms: seq<SymbolMeta>): (rs: seq<SymbolRow>)
    ensures |rs| == |ms|
    ensures forall i :: 0 <= i < |ms| ==> rs[i] == SymbolRowOf(ms[i])
  {
    if ms == [] then [] else SymbolRowsOf(ms[..|ms| - 1]) + [SymbolRowOf(ms[|ms| - 1])]
  }

  /** Rows made from symbols that are not sub-units are not sub-units either. */
  lemma RowsKeepNames(ms: seq<SymbolMeta>)
    requires forall m :: m in ms ==> !IsSubUnitName(m.name)
    ensures forall r :: r in SymbolRowsOf(ms) ==> r.libId == r.library + ":" + r.name && !IsSubUnitName(r.name)
  {
    var rs := SymbolRowsOf(ms);
    forall r | r in rs ensures r.libId == r.library + ":" + r.name && !IsSubUnitName(r.name) {
      var i :| 0 <= i < |rs| && rs[i] == r;
      assert ms[i] in ms;
    }
  }

  function SymbolRowsOfFile(f: Entry): (rs: seq<SymbolRow>)
    ensures forall r :: r in rs ==> r.libId == r.library + ":" + r.name && !IsSubUnitName(r.name)
  {
    if IsSymFile(f) then
      var ms := ParseKicadSym(f.name, f.content);
      RowsKeepNames(ms);
      SymbolRowsOf(ms)
    else []
  }

  function SymbolRowsOfFiles(fs: seq<Entry>): (rs: seq<SymbolRow>)
    ensures forall r :: r in rs ==> r.libId == r.library + ":" + r.name && !IsSubUnitName(r.name)
  {
    if fs == [] then [] else SymbolRowsOfFiles(fs[..|fs| - 1]) + SymbolRowsOfFile(fs[|fs| - 1])
  }

  /** The symbol table after a rebuild over `entries`: files by name, symbols in file order. */
  function SymbolRows(entries: seq<Entry>): (rs: seq<SymbolRow>)
    ensures forall r :: r in rs ==> r.libId == r.library + ":" + r.name && !IsSubUnitName(r.name)
  {
    SymbolRowsOfFiles(SortBy(entries, EntryName))
  }

  // -------------------------------------------------------------------
  // Row counts do not depend on the order of the listing
  // -------------------------------------------------------------------

  function ModOne(e: Entry): nat { if IsModFile(e) then 1 else 0 }

  function CountBy<T>(s: seq<T>, f: T -> nat): nat
  {
    if s == [] then 0 else CountBy(s[..|s| - 1], f) + f(s[|s| - 1])
  }

  lemma {:induction false} CountByAppend<T>(a: seq<T>, b: seq<T>, f: T -> nat)
    ensures CountBy(a + b, f) == CountBy(a, f) + CountBy(b, f)
    decreases |b|
  {
    if b == [] {
      assert a + b == a;
    } else {
      assert (a + b)[..|a + b| - 1] == a + b[..|b| - 1];
      CountByAppend(a, b[..|b| - 1], f);
    }
  }

  lemma {:induction false} CountByPerm<T>(a: seq<T>, b: seq<T>, f: T -> nat)
    requires multiset(a) == multiset(b)
    ensures CountBy(a, f) == CountBy(b, f)
    decreases |a|
  {
    if a != [] {
      var x := a[|a| - 1];
      assert x in multiset(b);
      var k :| 0 <= k < |b| && b[k] == x;
      var b' := b[..k] + b[k + 1..];
      assert b == b[..k] + [x] + b[k + 1..];
      assert a == a[..|a| - 1] + [x];
      assert multiset(b) == multiset(b[..k]) + multiset([x]) + multiset(b[k + 1..]);
      assert multiset(a) == multiset(a[..|a| - 1]) + multiset([x]);
      assert multiset(b') == multiset(b[..k]) + multiset(b[k + 1..]);
      assert multiset(a[..|a| - 1]) == multiset(a) - multiset{x};
      assert multiset(b') == multiset(b) - multiset{x};
      CountByPerm(a[..|a| - 1], b', f);
      CountByAppend(b[..k] + [x], b[k + 1..], f);
      CountByAppend(b[..k], [x], f);
      CountByAppend(b[..k], b[k + 1..], f);
      assert CountBy([x], f) == f(x) by { assert [x][..0] == []; }
    }
  }

  lemma {:induction false} RowsOfFilesCount(library: string, fs: seq<Entry>)
    ensures |RowsOfFiles(library, fs)| == CountBy(fs, ModOne)
  {
    if fs != [] { RowsOfFilesCount(library, fs[..|fs| - 1]); }
  }

  /** Number of footprint files a directory contributes, counted in listing order. */
  function DirMods(d: Entry): nat { if IsPrettyDir(d) then CountBy(d.children, ModOne) else 0 }

  lemma {:induction false} RowsOfDirsCount(ds: seq<Entry>)
    ensures |RowsOfDirs(ds)| == CountBy(ds, DirMods)
  {
    if ds != [] {
      RowsOfDirsCount(ds[..|ds| - 1]);
      var d := ds[|ds| - 1];
      if IsPrettyDir(d) {
        var fs := SortBy(d.children, EntryName);
        RowsOfFilesCount(LibraryOfDir(d), fs);
        CountByPerm(fs, d.children, ModOne);
      }
    }
  }

  /** A footprint rebuild yields one row per `.kicad_mod` entry inside each `.pretty`
      directory, whatever order the directories are listed in. */
  lemma FootprintRowsCount(entries: seq<Entry>)
    ensures |FootprintRows(entries)| == CountBy(entries, DirMods)
  {
    var ds := SortBy(entries, EntryName);
    RowsOfDirsCount(ds);
    CountByPerm(ds, entries, DirMods);
  }

  // -------------------------------------------------------------------
  // Every footprint row comes from one footprint file, and every file has its row
  // -------------------------------------------------------------------

  /** The file a footprint row was read from. */
  lemma {:induction false} RowsOfFilesSource(library: string, fs: seq<Entry>, r: FootprintRow) returns (f: Entry)
    requires r in RowsOfFiles(library, fs)
    ensures f in fs && IsModFile(f) && r == FootprintRowOf(library, f)
  {
    var front := fs[..|fs| - 1];
    var last := fs[|fs| - 1];
    assert fs == front + [last];
    if r in RowsOfFiles(library, front) {
      f := RowsOfFilesSource(library, front, r);
    } else {
      f := last;
    }
  }

  lemma {:induction false} RowsOfFilesHas(library: string, fs: seq<Entry>, f: Entry)
    requires f in fs && IsModFile(f)
    ensures FootprintRowOf(library, f) in RowsOfFiles(library, fs)
  {
    var front := fs[..|fs| - 1];
    assert fs == front + [fs[|fs| - 1]];
    if f != fs[|fs| - 1] {
      RowsOfFilesHas(library, front, f);
    }
  }

  lemma SortedSameMembers(es: seq<Entry>)
    ensures forall e :: e in SortBy(es, EntryName) <==> e in es
  {
    var t := SortBy(es, EntryName);
    assert multiset(t) == multiset(es);
    forall e
      ensures e in t <==> e in es
    {
      assert (e in t) == (e in multiset(t));
      assert (e in es) == (e in multiset(es));
    }
  }

  lemma {:induction false} RowsOfDirsSource(ds: seq<Entry>, r: FootprintRow) returns (d: Entry, f: Entry)
    requires r in RowsOfDirs(ds)
    ensures d in ds && IsPrettyDir(d) && f in d.children && IsModFile(f)
    ensures r == FootprintRowOf(LibraryOfDir(d), f)
  {
    var front := ds[..|ds| - 1];
    var last := ds[|ds| - 1];
    assert ds == front + [last];
    if r in RowsOfDirs(front) {
      d, f := RowsOfDirsSource(front, r);
    } else {
      d := last;
      f := RowsOfFilesSource(LibraryOfDir(d), SortBy(d.children, EntryName), r);
      SortedSameMembers(d.children);
    }
  }

  lemma {:induction false} RowsOfDirsHas(ds: seq<Entry>, d: Entry, f: Entry)
    requires d in ds && IsPrettyDir(d) && f in d.children && IsModFile(f)
    ensures FootprintRowOf(LibraryOfDir(d), f) in RowsOfDirs(ds)
  {
    var front := ds[..|ds| - 1];
    assert ds == front + [ds[|ds| - 1]];
    if d != ds[|ds| - 1] {
      RowsOfDirsHas(front, d, f);
    } else {
      SortedSameMembers(d.children);
      RowsOfFilesHas(LibraryOfDir(d), SortBy(d.children, EntryName), f);
    }
  }

  /** Every row of the footprint table comes from a `.kicad_mod` entry of a `.pretty`
      directory of the root, its library named after that directory. */
  lemma FootprintRowSource(entries: seq<Entry>, r: FootprintRow) returns (d: Entry, f: Entry)
    requires r in FootprintRows(entries)
    ensures d in entries && IsPrettyDir(d) && f in d.children && IsModFile(f)
    ensures r == FootprintRowOf(LibraryOfDir(d), f)
  {
    d, f := RowsOfDirsSource(SortBy(entries, EntryName), r);
    SortedSameMembers(entries);
  }

  /** Every `.kicad_mod` entry of every `.pretty` directory of the root has its row. */
  lemma FootprintRowPresent(entries: seq<Entry>, d: Entry, f: Entry)
    requires d in entries && IsPrettyDir(d) && f in d.children && IsModFile(f)
    ensures FootprintRowOf(LibraryOfDir(d), f) in FootprintRows(entries)
  {
    SortedSameMembers(entries);
    RowsOfDirsHas(SortBy(entries, EntryName), d, f);
  }

  // -------------------------------------------------------------------
  // Metadata and staleness
  // -------------------------------------------------------------------

  /** The metadata keys one family's rebuild writes, and the family's unit of change. */
  datatype MetaKeys = MetaKeys(timeKey: string, pathKey: string, countKey: string)

  const FootprintKeys := MetaKeys("fp_build_time", "fp_lib_path", "fp_count")
  const SymbolKeys := MetaKeys("sym_build_time", "sym_lib_path", "sym_count")

  /** The recorded build time, when it is recorded and reads back as a number. */
  function BuildTime(meta: map<string, string>, keys: MetaKeys): Option<nat>
  {
    if keys.timeKey in meta then ParseNat(meta[keys.timeKey]) else None
  }

  predicate NewerUnit(entries: seq<Entry>, fam: Family, buildTime: nat) {
    exists e :: e in entries && IsUnit(e, fam) && e.mtime > buildTime
  }

  /** The staleness rule: the store is missing, the metadata table or either key is
      missing, the time does not read as a number, the recorded root differs, or some
      unit of the family changed after the recorded build. */
  predicate StaleSpec(dbExists: bool, hasMetadata: bool, meta: map<string, string>, keys: MetaKeys,
                      libPath: string, fam: Family, entries: seq<Entry>)
  {
    !dbExists || !hasMetadata || BuildTime(meta, keys).None?
    || keys.pathKey !in meta || meta[keys.pathKey] != libPath
    || NewerUnit(entries, fam, BuildTime(meta, keys).value)
  }

  /** The loop of `_is_stale` over the root listing, returning at the first newer unit. */
  method ScanForNewer(entries: seq<Entry>, fam: Family, buildTime: nat) returns (found: bool)
    ensures found <==> NewerUnit(entries, fam, buildTime)
  {
    var i := 0;
    while i < |entries|
      invariant 0 <= i <= |entries|
      invariant forall j :: 0 <= j < i ==> !(IsUnit(entries[j], fam) && entries[j].mtime > buildTime)
    {
      if IsUnit(entries[i], fam) && entries[i].mtime > buildTime {
        return true;
      }
      i := i + 1;
    }
    return false;
  }

  /** The metadata a rebuild leaves behind: its three keys overwritten, nothing else touched. */
  function Recorded(meta: map<string, string>, keys: MetaKeys, now: nat, libPath: string, count: nat): map<string, string>
  {
    meta[keys.timeKey := NatText(now)][keys.pathKey := libPath][keys.countKey := NatText(count)]
  }

  /** Immediately after a rebuild at time `now`, with no unit modified later than `now`,
      the family is not stale. */
  lemma FreshAfterRebuild(meta: map<string, string>, keys: MetaKeys, now: nat, libPath: string,
                          count: nat, fam: Family, entries: seq<Entry>)
    requires keys.timeKey != keys.pathKey && keys.timeKey != keys.countKey && keys.pathKey != keys.countKey
    requires forall e :: e in entries && IsUnit(e, fam) ==> e.mtime <= now
    ensures !StaleSpec(true, true, Recorded(meta, keys, now, libPath, count), keys, libPath, fam, entries)
  {
    ParseNatText(now);
    assert BuildTime(Recorded(meta, keys, now, libPath, count), keys) == Some(now);
  }

  /** A rebuild of one family leaves the other family's staleness as it was. */
  lemma RebuildKeepsOtherFresh(meta: map<string, string>, now: nat, libPath: string, count: nat,
                               dbExists: bool, hasMetadata: bool, otherPath: string, entries: seq<Entry>)
    ensures StaleSpec(dbExists, hasMetadata, Recorded(meta, FootprintKeys, now, libPath, count), SymbolKeys, otherPath, Symbols, entries)
         == StaleSpec(dbExists, hasMetadata, meta, SymbolKeys, otherPath, Symbols, entries)
    ensures StaleSpec(dbExists, hasMetadata, Recorded(meta, SymbolKeys, now, libPath, count), FootprintKeys, otherPath, Footprints, entries)
         == StaleSpec(dbExists, hasMetadata, meta, FootprintKeys, otherPath, Footprints, entries)
  {
    assert BuildTime(Recorded(meta, FootprintKeys, now, libPath, count), SymbolKeys) == BuildTime(meta, SymbolKeys);
    assert BuildTime(Recorded(meta, SymbolKeys, now, libPath, count), FootprintKeys) == BuildTime(meta, FootprintKeys);
  }

  /** Touching a unit after the build makes its family stale. */
  lemma StaleAfterTouch(meta: map<string, string>, keys: MetaKeys, libPath: string, fam: Family,
                        entries: seq<Entry>, e: Entry)
    requires BuildTime(meta, keys).Some? && e in entries && IsUnit(e, fam)
    requires e.mtime > BuildTime(meta, keys).value
    ensures StaleSpec(true, true, meta, keys, libPath, fam, entries)
  {
  }

  // -------------------------------------------------------------------
  // Search
  // -------------------------------------------------------------------

  /** The full-text engine: the rowids an FTS5 expression matches, in rank order, or
      `None` when the expression is rejected (sqlite3.OperationalError). */
  type Engine = string -> Option<seq<nat>>

  /** `JOIN ... ON f.id = fts.rowid`: rowids are 1-based positions in a freshly built table;
      ids that name no row drop out, the others keep the engine's order. */
  function JoinIds<R>(ids: seq<nat>, table: seq<R>): (rows: seq<R>)
    ensures |rows| <= |ids|
    ensures forall r :: r in rows ==> r in table
  {
    if ids == [] then []
    else (if 1 <= ids[0] <= |table| then [table[ids[0] - 1]] else []) + JoinIds(ids[1..], table)
  }

  /** Every id that names a row brings that row. */
  lemma {:induction false} JoinIdsComplete<R>(ids: seq<nat>, table: seq<R>, k: nat)
    requires k < |ids| && 1 <= ids[k] <= |table|
    ensures table[ids[k] - 1] in JoinIds(ids, table)
    decreases |ids|
  {
    if k > 0 {
      assert ids[1..][k - 1] == ids[k];
      JoinIdsComplete(ids[1..], table, k - 1);
    }
  }

  /** When every id names a row, the rows are those of the ids, one for one, in the
      engine's order. */
  lemma {:induction false} JoinIdsExact<R>(ids: seq<nat>, table: seq<R>)
    requires forall k :: 0 <= k < |ids| ==> 1 <= ids[k] <= |table|
    ensures |JoinIds(ids, table)| == |ids|
    ensures forall k :: 0 <= k < |ids| ==> JoinIds(ids, table)[k] == table[ids[k] - 1]
    decreases |ids|
  {
    if ids != [] {
      var rest := ids[1..];
      assert forall k :: 0 <= k < |rest| ==> rest[k] == ids[k + 1];
      JoinIdsExact(rest, table);
    }
  }

  /** `LIMIT n`: a negative limit means no limit in SQLite. */
  function Limit<T>(s: seq<T>, limit: int): (r: seq<T>)
    ensures limit >= 0 ==> |r| <= limit
    ensures |r| <= |s| && r == s[..|r|]
    ensures limit < 0 || |s| <= limit ==> r == s
  {
    if limit < 0 || |s| <= limit then s else s[..limit]
  }

  /** The library filter is applied only when `library` is truthy. */
  predicate Filtering(library: Option<string>) { library.Some? && library.value != [] }

  /** `WHERE library = ?`: the rows of one library, in their order. */
  function Within<R(!new)>(rows: seq<R>, libraryOf: R -> string, library: string): (r: seq<R>)
    ensures |r| <= |rows|
    ensures forall x :: x in r <==> x in rows && libraryOf(x) == library
    ensures (forall k :: 0 <= k < |rows| ==> libraryOf(rows[k]) == library) ==> r == rows
  {
    if rows == [] then []
    else
      var rest := Within(rows[1..], libraryOf, library);
      assert forall k :: 0 < k < |rows| ==> rows[k] == rows[1..][k - 1];
      (if libraryOf(rows[0]) == library then [rows[0]] else []) + rest
  }

  /** The rows a search keeps: with a truthy library only that library's. */
  function Selected<R(!new)>(rows: seq<R>, libraryOf: R -> string, library: Option<string>): (r: seq<R>)
    ensures forall x :: x in r ==> x in rows && (Filtering(library) ==> libraryOf(x) == library.value)
  {
    if Filtering(library) then Within(rows, libraryOf, library.value) else rows
  }

  /** `LIMIT` on the kept rows, each turned into the hit the tool returns. */
  function Ranked<R, H>(kept: seq<R>, limit: int, hitOf: R -> H): (hits: seq<H>)
    ensures |hits| == (if limit < 0 || |kept| <= limit then |kept| else limit)
    ensures forall i :: 0 <= i < |hits| ==> hits[i] == hitOf(kept[i])
  {
    var ranked := Limit(kept, limit);
    seq(|ranked|, i requires 0 <= i < |ranked| => hitOf(ranked[i]))
  }

  function FootprintLibrary(r: FootprintRow): string { r.library }

  function SymbolLibrary(r: SymbolRow): string { r.library }

  datatype FootprintHit = FootprintHit(library: string, name: string, fullName: string,
                                       description: string, tags: string, padCount: nat)

  datatype SymbolHit = SymbolHit(libId: string, name: string, library: string,
                                 description: string, keywords: string, pinCount: nat)

  function FootprintHitOf(r: FootprintRow): FootprintHit {
    FootprintHit(r.library, r.name, r.library + ":" + r.name, r.description, r.tags, r.padCount)
  }

  function SymbolHitOf(r: SymbolRow): SymbolHit {
    SymbolHit(r.libId, r.name, r.library, r.description, r.keywords, r.pinCount)
  }

  /** `search_footprints` (and `FootprintIndex.search`) over the footprint table; `built`
      says whether the tables exist yet. */
  function SearchFootprintTable(table: seq<FootprintRow>, built: bool, query: string,
                                library: Option<string>, limit: int, engine: Engine): (hits: seq<FootprintHit>)
    ensures IsBlank(query) || !built || engine(BuildFtsQuery(query)).None? ==> hits == []
    ensures limit >= 0 ==> |hits| <= limit
    ensures forall h :: h in hits ==> h.fullName == h.library + ":" + h.name
    ensures forall h :: h in hits ==>
      FootprintRow(h.library, h.name, h.description, h.tags, h.padCount) in table
    ensures Filtering(library) ==> forall h :: h in hits ==> h.library == library.value
    ensures !IsBlank(query) && built && engine(BuildFtsQuery(query)).Some? ==>
      var kept := Selected(JoinIds(engine(BuildFtsQuery(query)).value, table), FootprintLibrary, library);
      |hits| == (if limit < 0 || |kept| <= limit then |kept| else limit)
      && forall i :: 0 <= i < |hits| ==> hits[i] == FootprintHitOf(kept[i])
  {
    if IsBlank(query) || !built then []
    else match engine(BuildFtsQuery(query))
      case None => []
      case Some(ids) =>
        var rows := JoinIds(ids, table);
        var kept := Selected(rows, FootprintLibrary, library);
        var hits := Ranked(kept, limit, FootprintHitOf);
        assert forall i :: 0 <= i < |kept| ==> kept[i] in kept;
        assert forall h :: h in hits ==> exists i :: 0 <= i < |kept| && h == FootprintHitOf(kept[i]) && FootprintRow(h.library, h.name, h.description, h.tags, h.padCount) == kept[i];
        hits
  }

  /** `search_symbols` over the symbol table. `lib_id` is read from the table, where every
      rebuild stores library + ":" + name. */
  function SearchSymbolTable(table: seq<SymbolRow>, built: bool, query: string,
                             library: Option<string>, limit: int, engine: Engine): (hits: seq<SymbolHit>)
    requires forall r :: r in table ==> r.libId == r.library + ":" + r.name
    ensures IsBlank(query) || !built || engine(BuildFtsQuery(query)).None? ==> hits == []
    ensures limit >= 0 ==> |hits| <= limit
    ensures forall h :: h in hits ==> h.libId == h.library + ":" + h.name
    ensures forall h :: h in hits ==>
      SymbolRow(h.library, h.name, h.libId, h.description, h.keywords, h.pinCount) in table
    ensures Filtering(library) ==> forall h :: h in hits ==> h.library == library.value
    ensures !IsBlank(query) && built && engine(BuildFtsQuery(query)).Some? ==>
      var kept := Selected(JoinIds(engine(BuildFtsQuery(query)).value, table), SymbolLibrary, library);
      |hits| == (if limit < 0 || |kept| <= limit then |kept| else limit)
      && forall i :: 0 <= i < |hits| ==> hits[i] == SymbolHitOf(kept[i])
  {
    if IsBlank(query) || !built then []
    else match engine(BuildFtsQuery(query))
      case None => []
      case Some(ids) =>
        var rows := JoinIds(ids, table);
        var kept := Selected(rows, SymbolLibrary, library);
        var hits := Ranked(kept, limit, SymbolHitOf);
        assert forall i :: 0 <= i < |kept| ==> kept[i] in kept;
        assert forall h :: h in hits ==> exists i :: 0 <= i < |kept| && h == SymbolHitOf(kept[i]) && SymbolRow(h.library, h.name, h.libId, h.description, h.keywords, h.pinCount) == kept[i];
        hits
  }

  /** A row the engine names and the filter admits is found, when the limit does not cut
      the list short. */
  lemma SearchFindsFootprint(table: seq<FootprintRow>, query: string, library: Option<string>, limit: int,
                             engine: Engine, k: nat)
    requires !IsBlank(query) && engine(BuildFtsQuery(query)).Some?
    requires k < |engine(BuildFtsQuery(query)).value|
    requires 1 <= engine(BuildFtsQuery(query)).value[k] <= |table|
    requires Filtering(library) ==> table[engine(BuildFtsQuery(query)).value[k] - 1].library == library.value
    requires limit < 0 || |engine(BuildFtsQuery(query)).value| <= limit
    ensures FootprintHitOf(table[engine(BuildFtsQuery(query)).value[k] - 1])
      in SearchFootprintTable(table, true, query, library, limit, engine)
  {
    var ids := engine(BuildFtsQuery(query)).value;
    var row := table[ids[k] - 1];
    JoinIdsComplete(ids, table, k);
    var kept := Selected(JoinIds(ids, table), FootprintLibrary, library);
    assert row in kept;
    var i :| 0 <= i < |kept| && kept[i] == row;
    assert SearchFootprintTable(table, true, query, library, limit, engine)[i] == FootprintHitOf(row);
  }

  /** The same for symbols. */
  lemma SearchFindsSymbol(table: seq<SymbolRow>, query: string, library: Option<string>, limit: int,
                          engine: Engine, k: nat)
    requires forall r :: r in table ==> r.libId == r.library + ":" + r.name
    requires !IsBlank(query) && engine(BuildFtsQuery(query)).Some?
    requires k < |engine(BuildFtsQuery(query)).value|
    requires 1 <= engine(BuildFtsQuery(query)).value[k] <= |table|
    requires Filtering(library) ==> table[engine(BuildFtsQuery(query)).value[k] - 1].library == library.value
    requires limit < 0 || |engine(BuildFtsQuery(query)).value| <= limit
    ensures SymbolHitOf(table[engine(BuildFtsQuery(query)).value[k] - 1])
      in SearchSymbolTable(table, true, query, library, limit, engine)
  {
    var ids := engine(BuildFtsQuery(query)).value;
    var row := table[ids[k] - 1];
    JoinIdsComplete(ids, table, k);
    var kept := Selected(JoinIds(ids, table), SymbolLibrary, library);
    assert row in kept;
    var i :| 0 <= i < |kept| && kept[i] == row;
    assert SearchSymbolTable(table, true, query, library, limit, engine)[i] == SymbolHitOf(row);
  }
}
