/** The older footprint-only index. It shares the footprint scanner, the query builder
    and the row layout with the unified index, but keeps its metadata under un-prefixed
    keys and drops and recreates the metadata table on every rebuild. */
module FootprintOnlyIndex {
  import opened Wrappers
  import opened Strings
  import opened LibraryParsers
  import opened IndexModel
  import opened LibraryPaths

  const TwinKeys := MetaKeys("build_time", "lib_path", "footprint_count")

  /** `FootprintIndex`. No table exists until the first rebuild. */
  class FootprintIndex {
    var libPath: Option<string>
    var hasMetadata: bool
    var meta: map<string, string>
    var built: bool
    var footprints: seq<FootprintRow>
    var footprintsFts: seq<FootprintRow>

    /** The full-text table mirrors the footprint table; before the first rebuild there is
        neither a footprint table nor metadata. */
    ghost predicate Valid()
      reads this
    {
      footprintsFts == footprints && (!built ==> footprints == [] && !hasMetadata && meta == map[])
    }

    /** `__init__`: an argument that is not given or empty falls back to the resolver. */
    constructor (libArg: Option<string>, host: Host)
      ensures Valid()
      ensures libPath == if Given(libArg) then libArg else TwinFootprintLibPath(host.footprintEnv, host.sys, host.isDir)
      ensures !built && !hasMetadata && meta == map[]
    {
      libPath := if Given(libArg) then libArg else TwinFootprintLibPath(host.footprintEnv, host.sys, host.isDir);
      hasMetadata := false;
      meta := map[];
      built := false;
      footprints := [];
      footprintsFts := [];
    }

    /** `is_stale`: the store is missing, the root is unusable, reading the metadata fails
        (no table yet), a key is missing, the time does not read as a number, the root
        changed, or a `.pretty` directory is newer than the build. */
    method IsStale(dbExists: bool, root: RootView) returns (stale: bool)
      ensures stale <==> (!RootUsable(libPath, root)
        || StaleSpec(dbExists, hasMetadata, meta, TwinKeys, libPath.value, Footprints, root.entries))
    {
      if !dbExists { return true; }
      if !RootUsable(libPath, root) { return true; }
      if !hasMetadata { return true; }
      if TwinKeys.timeKey !in meta { return true; }
      var buildTime := ParseNat(meta[TwinKeys.timeKey]);
      if buildTime.None? { return true; }
      if TwinKeys.pathKey !in meta || meta[TwinKeys.pathKey] != libPath.value { return true; }
      stale := ScanForNewer(root.entries, Footprints, buildTime.value);
    }

    /** The inner loop of `rebuild_index`: one row per `.kicad_mod` entry of one library
        directory, in the given order. */
    method InsertFiles(library: string, files: seq<Entry>) returns (added: nat)
      modifies this
      ensures footprints == old(footprints) + RowsOfFiles(library, files)
      ensures added == |RowsOfFiles(library, files)|
      ensures libPath == old(libPath) && hasMetadata == old(hasMetadata) && meta == old(meta) && built == old(built)
    {
      added := 0;
      var j := 0;
      while j < |files|
        invariant 0 <= j <= |files|
        invariant footprints == old(footprints) + RowsOfFiles(library, files[..j])
        invariant added == |RowsOfFiles(library, files[..j])|
        invariant libPath == old(libPath) && hasMetadata == old(hasMetadata) && meta == old(meta) && built == old(built)
      {
        var f := files[j];
        RowsOfFilesStep(library, files, j);
        if EndsWith(f.name, ".kicad_mod") {
          var m := ParseKicadMod(f.content);
          var name := if m.name == [] then f.name[..|f.name| - 10] else m.name;
          var row := FootprintRow(library, name, m.description, m.tags, m.padCount);
          assert row == FootprintRowOf(library, f);
          AppendAssoc(old(footprints), RowsOfFiles(library, files[..j]), [row]);
          footprints := footprints + [row];
          added := added + 1;
        }
        j := j + 1;
      }
      assert files[..j] == files;
    }

    /** The outer loop of `rebuild_index` over the library directories. */
    method InsertDirs(dirs: seq<Entry>) returns (count: nat)
      modifies this
      ensures footprints == old(footprints) + RowsOfDirs(dirs)
      ensures count == |RowsOfDirs(dirs)|
      ensures libPath == old(libPath) && hasMetadata == old(hasMetadata) && meta == old(meta) && built == old(built)
    {
      count := 0;
      var i := 0;
      while i < |dirs|
        invariant 0 <= i <= |dirs|
        invariant footprints == old(footprints) + RowsOfDirs(dirs[..i]) && count == |RowsOfDirs(dirs[..i])|
        invariant libPath == old(libPath) && hasMetadata == old(hasMetadata) && meta == old(meta) && built == old(built)
      {
        var d := dirs[i];
        assert dirs[..i + 1][..i] == dirs[..i] && dirs[..i + 1][i] == d;
        assert RowsOfDirs(dirs[..i + 1]) == RowsOfDirs(dirs[..i]) + RowsOfDir(d);
        if EndsWith(d.name, ".pretty") && d.isDir {
          var library := d.name[..|d.name| - 7];
          var files := SortBy(d.children, EntryName);
          assert RowsOfDir(d) == RowsOfFiles(library, files);
          ghost var before := footprints;
          var added := InsertFiles(library, files);
          count := count + added;
          assert footprints == before + RowsOfDir(d);
          AppendAssoc(old(footprints), RowsOfDirs(dirs[..i]), RowsOfDir(d));
        } else {
          assert RowsOfDir(d) == [];
        }
        i := i + 1;
      }
      assert dirs[..i] == dirs;
    }

    /** `rebuild_index` at time `now`: refused when the root is unusable; otherwise the
        footprint, full-text and metadata tables are all recreated, and the metadata holds
        exactly the build time, the root and the row count. */
    method RebuildIndex(root: RootView, now: nat) returns (r: Result<nat, string>)
      requires Valid()
      modifies this
      ensures Valid()
      ensures libPath == old(libPath)
      ensures r.Err? <==> !RootUsable(libPath, root)
      ensures r.Err? ==> (r.error == PathNotFound("Footprint", libPath, "KICAD_FOOTPRINT_DIR")
        && built == old(built) && footprints == old(footprints) && hasMetadata == old(hasMetadata) && meta == old(meta))
      ensures r.Ok? ==> (built && hasMetadata && footprints == FootprintRows(root.entries) && r.value == |footprints|
        && meta == Recorded(map[], TwinKeys, now, libPath.value, r.value))
    {
      if !RootUsable(libPath, root) {
        return Err(PathNotFound("Footprint", libPath, "KICAD_FOOTPRINT_DIR"));
      }
      built := true;
      footprints := [];
      footprintsFts := [];
      hasMetadata := true;
      meta := map[];
      var dirs := SortBy(root.entries, EntryName);
      var count := InsertDirs(dirs);
      assert footprints == FootprintRows(root.entries) by {
        assert [] + RowsOfDirs(dirs) == RowsOfDirs(dirs);
      }
      footprintsFts := footprints;
      meta := meta[TwinKeys.timeKey := NatText(now)];
      meta := meta[TwinKeys.pathKey := libPath.value];
      meta := meta[TwinKeys.countKey := NatText(count)];
      return Ok(count);
    }

    /** `search`: the expression is the one `BuildFtsQuery` builds. */
    method Search(query: string, library: Option<string>, limit: int, engine: Engine)
      returns (hits: seq<FootprintHit>)
      ensures hits == SearchFootprintTable(footprints, built, query, library, limit, engine)
    {
      hits := SearchFootprintTable(footprints, built, query, library, limit, engine);
    }
  }

  /** Immediately after a successful rebuild, with no `.pretty` directory modified after
      `now` and the store file present, the index is not stale. */
  method RebuildThenCheck(index: FootprintIndex, root: RootView, now: nat)
    returns (r: Result<nat, string>, stale: bool)
    requires index.Valid()
    requires forall e :: e in root.entries && IsPrettyDir(e) ==> e.mtime <= now
    modifies index
    ensures index.Valid()
    ensures r.Ok? ==> !stale
    ensures r.Err? ==> stale
  {
    r := index.RebuildIndex(root, now);
    if r.Ok? {
      FreshAfterRebuild(map[], TwinKeys, now, index.libPath.value, r.value, Footprints, root.entries);
    }
    stale := index.IsStale(true, root);
  }
}
