/** The unified index: one store holding a footprint table and a symbol table, each with
    its full-text mirror, and a metadata table whose keys are namespaced per family. */
module UnifiedIndex {
  import opened Wrappers
  import opened Strings
  import opened LibraryParsers
  import opened IndexModel
  import opened LibraryPaths

  /** `LibraryIndex`. A table that does not exist yet is `*Built == false`; the full-text
      tables are kept as the row sequences they mirror. */
  class LibraryIndex {
    var footprintLibPath: Option<string>
    var symbolLibPath: Option<string>
    var hasMetadata: bool
    var meta: map<string, string>
    var fpBuilt: bool
    var footprints: seq<FootprintRow>
    var footprintsFts: seq<FootprintRow>
    var symBuilt: bool
    var symbols: seq<SymbolRow>
    var symbolsFts: seq<SymbolRow>

    /** The metadata table exists (the constructor creates it and nothing drops it), each
        full-text table mirrors its primary table, a table that was never built is empty,
        and every stored `lib_id` is the symbol's library, ":" and its name. */
    ghost predicate Valid()
      reads this
    {
      hasMetadata && footprintsFts == footprints && symbolsFts == symbols
      && (!fpBuilt ==> footprints == []) && (!symBuilt ==> symbols == [])
      && forall r :: r in symbols ==> r.libId == r.library + ":" + r.name
    }

    /** `__init__`: an argument that is not given or empty falls back to the resolver; the
        metadata table is created, nothing else. */
    constructor (footprintArg: Option<string>, symbolArg: Option<string>, host: Host)
      ensures Valid()
      ensures footprintLibPath == if Given(footprintArg) then footprintArg
                                  else FootprintLibPath(host.footprintEnv, host.sys, host.isDir)
      ensures symbolLibPath == if Given(symbolArg) then symbolArg
                               else SymbolLibPath(host.symbolEnv, host.sys, host.isDir)
      ensures hasMetadata && meta == map[]
      ensures !fpBuilt && !symBuilt
    {
      footprintLibPath := if Given(footprintArg) then footprintArg
                          else FootprintLibPath(host.footprintEnv, host.sys, host.isDir);
      symbolLibPath := if Given(symbolArg) then symbolArg
                       else SymbolLibPath(host.symbolEnv, host.sys, host.isDir);
      hasMetadata := true;
      meta := map[];
      fpBuilt := false;
      footprints := [];
      footprintsFts := [];
      symBuilt := false;
      symbols := [];
      symbolsFts := [];
    }

    /** `_is_stale`: the checks in source order, each returning at once. */
    method IsStale(dbExists: bool, keys: MetaKeys, libPath: string, fam: Family, entries: seq<Entry>)
      returns (stale: bool)
      ensures stale == StaleSpec(dbExists, hasMetadata, meta, keys, libPath, fam, entries)
    {
      if !dbExists { return true; }
      if !hasMetadata { return true; }
      if keys.timeKey !in meta { return true; }
      var buildTime := ParseNat(meta[keys.timeKey]);
      if buildTime.None? { return true; }
      if keys.pathKey !in meta || meta[keys.pathKey] != libPath { return true; }
      stale := ScanForNewer(entries, fam, buildTime.value);
    }

    /** `footprints_stale`; `root` is what the file system shows at the footprint root. */
    method FootprintsStale(dbExists: bool, root: RootView) returns (stale: bool)
      ensures stale <==> (!RootUsable(footprintLibPath, root)
        || StaleSpec(dbExists, hasMetadata, meta, FootprintKeys, footprintLibPath.value, Footprints, root.entries))
    {
      if !RootUsable(footprintLibPath, root) { return true; }
      stale := IsStale(dbExists, FootprintKeys, footprintLibPath.value, Footprints, root.entries);
    }

    /** `symbols_stale` */
    method SymbolsStale(dbExists: bool, root: RootView) returns (stale: bool)
      ensures stale <==> (!RootUsable(symbolLibPath, root)
        || StaleSpec(dbExists, hasMetadata, meta, SymbolKeys, symbolLibPath.value, Symbols, root.entries))
    {
      if !RootUsable(symbolLibPath, root) { return true; }
      stale := IsStale(dbExists, SymbolKeys, symbolLibPath.value, Symbols, root.entries);
    }

    /** `_set_meta`: insert or replace one key. */
    method SetMeta(key: string, value: string)
      modifies this
      ensures meta == old(meta)[key := value]
      ensures footprintLibPath == old(footprintLibPath) && symbolLibPath == old(symbolLibPath)
      ensures hasMetadata == old(hasMetadata)
      ensures fpBuilt == old(fpBuilt) && footprints == old(footprints) && footprintsFts == old(footprintsFts)
      ensures symBuilt == old(symBuilt) && symbols == old(symbols) && symbolsFts == old(symbolsFts)
    {
      meta := meta[key := value];
    }

    /** The three `_set_meta` calls that end a rebuild. */
    method RecordBuild(keys: MetaKeys, now: nat, libPath: string, count: nat)
      modifies this
      ensures meta == Recorded(old(meta), keys, now, libPath, count)
      ensures footprintLibPath == old(footprintLibPath) && symbolLibPath == old(symbolLibPath)
      ensures hasMetadata == old(hasMetadata)
      ensures fpBuilt == old(fpBuilt) && footprints == old(footprints) && footprintsFts == old(footprintsFts)
      ensures symBuilt == old(symBuilt) && symbols == old(symbols) && symbolsFts == old(symbolsFts)
    {
      SetMeta(keys.timeKey, NatText(now));
      SetMeta(keys.pathKey, libPath);
      SetMeta(keys.countKey, NatText(count));
    }

    /** The inner loop of `rebuild_footprints`: one row per `.kicad_mod` entry of one
        library directory, in the given order. */
    method InsertFootprintFiles(library: string, files: seq<Entry>) returns (added: nat)
      modifies this
      ensures footprints == old(footprints) + RowsOfFiles(library, files)
      ensures added == |RowsOfFiles(library, files)|
      ensures footprintLibPath == old(footprintLibPath) && symbolLibPath == old(symbolLibPath)
      ensures hasMetadata == old(hasMetadata) && meta == old(meta) && fpBuilt == old(fpBuilt)
      ensures symBuilt == old(symBuilt) && symbols == old(symbols) && symbolsFts == old(symbolsFts)
    {
      added := 0;
      var j := 0;
      while j < |files|
        invariant 0 <= j <= |files|
        invariant footprints == old(footprints) + RowsOfFiles(library, files[..j])
        invariant added == |RowsOfFiles(library, files[..j])|
        invariant footprintLibPath == old(footprintLibPath) && symbolLibPath == old(symbolLibPath)
        invariant hasMetadata == old(hasMetadata) && meta == old(meta) && fpBuilt == old(fpBuilt)
        invariant symBuilt == old(symBuilt) && symbols == old(symbols) && symbolsFts == old(symbolsFts)
      {
        var f := files[j];
        RowsOfFilesStep(library, files, j);
        if EndsWith(f.name, ".kicad_mod") {
          var m := ParseKicadMod(f.content);
          var name := if m.name == [] then f.name[..|f.name| - 10] else m.name;
          var row := FootprintRow(library, name, m.description, m.tags, m.padCount);
          assert row == FootprintRowOf(library, f);
          AppendAssoc(old(footprints), RowsOfFiles(library, files[..j]), [row]);
          footprints := footprints + [row];
          added := added + 1;
        }
        j := j + 1;
      }
      assert files[..j] == files;
    }

    /** The outer loop of `rebuild_footprints`: the rows of every `.pretty` directory,
        directories and their files in the given order. */
    method InsertFootprintDirs(dirs: seq<Entry>) returns (count: nat)
      modifies this
      ensures footprints == old(footprints) + RowsOfDirs(dirs)
      ensures count == |RowsOfDirs(dirs)|
      ensures footprintLibPath == old(footprintLibPath) && symbolLibPath == old(symbolLibPath)
      ensures hasMetadata == old(hasMetadata) && meta == old(meta) && fpBuilt == old(fpBuilt)
      ensures symBuilt == old(symBuilt) && symbols == old(symbols) && symbolsFts == old(symbolsFts)
    {
      count := 0;
      var i := 0;
      while i < |dirs|
        invariant 0 <= i <= |dirs|
        invariant footprints == old(footprints) + RowsOfDirs(dirs[..i]) && count == |RowsOfDirs(dirs[..i])|
        invariant footprintLibPath == old(footprintLibPath) && symbolLibPath == old(symbolLibPath)
        invariant hasMetadata == old(hasMetadata) && meta == old(meta) && fpBuilt == old(fpBuilt)
        invariant symBuilt == old(symBuilt) && symbols == old(symbols) && symbolsFts == old(symbolsFts)
      {
        var d := dirs[i];
        assert dirs[..i + 1][..i] == dirs[..i] && dirs[..i + 1][i] == d;
        assert RowsOfDirs(dirs[..i + 1]) == RowsOfDirs(dirs[..i]) + RowsOfDir(d);
        if EndsWith(d.name, ".pretty") && d.isDir {
          var library := d.name[..|d.name| - 7];
          var files := SortBy(d.children, EntryName);
          assert RowsOfDir(d) == RowsOfFiles(library, files);
          ghost var before := footprints;
          var added := InsertFootprintFiles(library, files);
          count := count + added;
          assert footprints == before + RowsOfDir(d);
          AppendAssoc(old(footprints), RowsOfDirs(dirs[..i]), RowsOfDir(d));
        } else {
          assert RowsOfDir(d) == [];
        }
        i := i + 1;
      }
      assert dirs[..i] == dirs;
    }

    /** `rebuild_footprints` at time `now`. A root that is unset, empty or not a directory
        is refused before anything is touched; otherwise the footprint tables are
        recreated from the listing and the three `fp_*` keys are written. */
    method RebuildFootprints(root: RootView, now: nat) returns (r: Result<nat, string>)
      requires Valid()
      modifies this
      ensures Valid()
      ensures footprintLibPath == old(footprintLibPath) && symbolLibPath == old(symbolLibPath)
      ensures hasMetadata == old(hasMetadata)
      ensures symBuilt == old(symBuilt) && symbols == old(symbols)
      ensures r.Err? <==> !RootUsable(footprintLibPath, root)
      ensures r.Err? ==> (r.error == PathNotFound("Footprint", footprintLibPath, "KICAD_FOOTPRINT_DIR")
        && meta == old(meta) && fpBuilt == old(fpBuilt) && footprints == old(footprints))
      ensures r.Ok? ==> (fpBuilt && footprints == FootprintRows(root.entries) && r.value == |footprints|
        && meta == Recorded(old(meta), FootprintKeys, now, footprintLibPath.value, r.value))
    {
      if !RootUsable(footprintLibPath, root) {
        return Err(PathNotFound("Footprint", footprintLibPath, "KICAD_FOOTPRINT_DIR"));
      }
      var libPath := footprintLibPath.value;
      fpBuilt := true;
      footprints := [];
      footprintsFts := [];
      var dirs := SortBy(root.entries, EntryName);
      var count := InsertFootprintDirs(dirs);
      assert footprints == FootprintRows(root.entries) by {
        assert [] + RowsOfDirs(dirs) == RowsOfDirs(dirs);
      }
      footprintsFts := footprints;
      RecordBuild(FootprintKeys, now, libPath, count);
      return Ok(count);
    }

    /** The inner loop of `rebuild_symbols`: one row per record of one file, `lib_id`
        built from the record's library and name. */
    method InsertSymbols(syms: seq<SymbolMeta>) returns (added: nat)
      modifies this
      ensures symbols == old(symbols) + SymbolRowsOf(syms) && added == |syms|
      ensures footprintLibPath == old(footprintLibPath) && symbolLibPath == old(symbolLibPath)
      ensures hasMetadata == old(hasMetadata) && meta == old(meta) && symBuilt == old(symBuilt)
      ensures fpBuilt == old(fpBuilt) && footprints == old(footprints) && footprintsFts == old(footprintsFts)
    {
      added := 0;
      var j := 0;
      while j < |syms|
        invariant 0 <= j <= |syms|
        invariant symbols == old(symbols) + SymbolRowsOf(syms[..j]) && added == j
        invariant footprintLibPath == old(footprintLibPath) && symbolLibPath == old(symbolLibPath)
        invariant hasMetadata == old(hasMetadata) && meta == old(meta) && symBuilt == old(symBuilt)
        invariant fpBuilt == old(fpBuilt) && footprints == old(footprints) && footprintsFts == old(footprintsFts)
      {
        var sym := syms[j];
        assert syms[..j + 1][..j] == syms[..j] && syms[..j + 1][j] == sym;
        var libId := sym.library + ":" + sym.name;
        symbols := symbols + [SymbolRow(sym.library, sym.name, libId, sym.description, sym.keywords, sym.pinCount)];
        added := added + 1;
        j := j + 1;
      }
      assert syms[..j] == syms;
    }

    /** The outer loop of `rebuild_symbols`: the records of every `.kicad_sym` entry, in
        the given order. */
    method InsertSymbolFiles(files: seq<Entry>) returns (count: nat)
      modifies this
      ensures symbols == old(symbols) + SymbolRowsOfFiles(files) && count == |SymbolRowsOfFiles(files)|
      ensures footprintLibPath == old(footprintLibPath) && symbolLibPath == old(symbolLibPath)
      ensures hasMetadata == old(hasMetadata) && meta == old(meta) && symBuilt == old(symBuilt)
      ensures fpBuilt == old(fpBuilt) && footprints == old(footprints) && footprintsFts == old(footprintsFts)
    {
      count := 0;
      var i := 0;
      while i < |files|
        invariant 0 <= i <= |files|
        invariant symbols == old(symbols) + SymbolRowsOfFiles(files[..i]) && count == |SymbolRowsOfFiles(files[..i])|
        invariant footprintLibPath == old(footprintLibPath) && symbolLibPath == old(symbolLibPath)
        invariant hasMetadata == old(hasMetadata) && meta == old(meta) && symBuilt == old(symBuilt)
        invariant fpBuilt == old(fpBuilt) && footprints == old(footprints) && footprintsFts == old(footprintsFts)
      {
        var f := files[i];
        assert files[..i + 1][..i] == files[..i] && files[..i + 1][i] == f;
        assert SymbolRowsOfFiles(files[..i + 1]) == SymbolRowsOfFiles(files[..i]) + SymbolRowsOfFile(f);
        if EndsWith(f.name, ".kicad_sym") {
          var syms := ParseKicadSym(f.name, f.content);
          assert SymbolRowsOfFile(f) == SymbolRowsOf(syms);
          ghost var before := symbols;
          var added := InsertSymbols(syms);
          count := count + added;
          assert symbols == before + SymbolRowsOfFile(f);
          AppendAssoc(old(symbols), SymbolRowsOfFiles(files[..i]), SymbolRowsOfFile(f));
        } else {
          assert SymbolRowsOfFile(f) == [];
        }
        i := i + 1;
      }
      assert files[..i] == files;
    }

    /** `rebuild_symbols` at time `now`: the symbol tables are recreated from every
        `.kicad_sym` entry of the listing, and the three `sym_*` keys are written. */
    method RebuildSymbols(root: RootView, now: nat) returns (r: Result<nat, string>)
      requires Valid()
      modifies this
      ensures Valid()
      ensures footprintLibPath == old(footprintLibPath) && symbolLibPath == old(symbolLibPath)
      ensures hasMetadata == old(hasMetadata)
      ensures fpBuilt == old(fpBuilt) && footprints == old(footprints)
      ensures r.Err? <==> !RootUsable(symbolLibPath, root)
      ensures r.Err? ==> (r.error == PathNotFound("Symbol", symbolLibPath, "KICAD_SYMBOL_DIR")
        && meta == old(meta) && symBuilt == old(symBuilt) && symbols == old(symbols))
      ensures r.Ok? ==> (symBuilt && symbols == SymbolRows(root.entries) && r.value == |symbols|
        && meta == Recorded(old(meta), SymbolKeys, now, symbolLibPath.value, r.value))
    {
      if !RootUsable(symbolLibPath, root) {
        return Err(PathNotFound("Symbol", symbolLibPath, "KICAD_SYMBOL_DIR"));
      }
      var libPath := symbolLibPath.value;
      symBuilt := true;
      symbols := [];
      symbolsFts := [];
      var files := SortBy(root.entries, EntryName);
      var count := InsertSymbolFiles(files);
      assert symbols == SymbolRows(root.entries) by {
        assert [] + SymbolRowsOfFiles(files) == SymbolRowsOfFiles(files);
      }
      symbolsFts := symbols;
      RecordBuild(SymbolKeys, now, libPath, count);
      return Ok(count);
    }

    /** `search_footprints` with the full-text engine `engine`. */
    method SearchFootprints(query: string, library: Option<string>, limit: int, engine: Engine)
      returns (hits: seq<FootprintHit>)
      ensures hits == SearchFootprintTable(footprints, fpBuilt, query, library, limit, engine)
    {
      hits := SearchFootprintTable(footprints, fpBuilt, query, library, limit, engine);
    }

    /** `search_symbols`: every hit's `lib_id` is its library, ":" and its name, because
        that is how every rebuild stores it. */
    method SearchSymbols(query: string, library: Option<string>, limit: int, engine: Engine)
      returns (hits: seq<SymbolHit>)
      requires Valid()
      ensures hits == SearchSymbolTable(symbols, symBuilt, query, library, limit, engine)
      ensures forall h :: h in hits ==> h.libId == h.library + ":" + h.name
    {
      hits := SearchSymbolTable(symbols, symBuilt, query, library, limit, engine);
    }
  }

  /** Right after a footprint rebuild at `now`, with no `.pretty` directory modified later,
      the footprint family is not stale; the symbol family's staleness is as before. */
  method RebuildThenCheck(index: LibraryIndex, root: RootView, symRoot: RootView, now: nat)
    returns (r: Result<nat, string>, fpStale: bool, symStaleBefore: bool, symStaleAfter: bool)
    requires index.Valid()
    requires forall e :: e in root.entries && IsPrettyDir(e) ==> e.mtime <= now
    modifies index
    ensures index.Valid()
    ensures r.Ok? ==> !fpStale
    ensures symStaleAfter == symStaleBefore
  {
    symStaleBefore := index.SymbolsStale(true, symRoot);
    ghost var metaBefore := index.meta;
    r := index.RebuildFootprints(root, now);
    if r.Ok? {
      var fpPath := index.footprintLibPath.value;
      assert index.meta == Recorded(metaBefore, FootprintKeys, now, fpPath, r.value);
      FreshAfterRebuild(metaBefore, FootprintKeys, now, fpPath, r.value, Footprints, root.entries);
      if RootUsable(index.symbolLibPath, symRoot) {
        RebuildKeepsOtherFresh(metaBefore, now, fpPath, r.value, true, index.hasMetadata,
                               index.symbolLibPath.value, symRoot.entries);
      }
    }
    fpStale := index.FootprintsStale(true, root);
    symStaleAfter := index.SymbolsStale(true, symRoot);

  }
}
