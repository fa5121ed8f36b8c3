# kicad-mcp core, modelled in Dafny

This project models the decision logic of kicad-mcp, an MCP server that gives an assistant
tools over KiCad projects. The model covers:

- **The library search index** (`utils/library_index.py` and its older footprint-only twin
  `utils/footprint_index.py`):
  - root resolution;
  - the `.kicad_mod` and `.kicad_sym` scanners, with every regular expression written out as a
    character scanner;
  - the staleness rule;
  - the drop-and-rebuild pipeline;
  - the FTS5 query builder;
  - the search wrappers.

  The index is a class that holds per-family row sequences and a metadata map. The SQLite
  full-text engine stays abstract: a function from a query expression to the ranked row ids,
  or to an error.
- **The schematic netlist extractor** (`utils/netlist_parser.py`): the balanced-parenthesis
  S-expression reader, property routing, the net table and the netlist statistics.
- **Placement rules** (`utils/keepout_helpers.py`, `tools/pcb_keepout.py`):
  - rectangle predicates and the board outline;
  - keepout violations against warnings;
  - the pairwise courtyard audit;
  - the whole-board audit.
- **Net-table text editing and schematic-to-PCB net reconciliation** (`tools/pcb_nets.py`).
- **BOM reading and analysis** (`tools/bom.py`): delimiter and format detection, reference
  prefixes, category names and the cross-file summary.
- **Component classification** (`utils/component_utils.py`): the reference prefix, the power
  classifier, value normalisation dispatch and 78xx/79xx regulator voltages.
- **The FreeRouter driver** (`tools/pcb_autoroute.py`): the output parser, best-pass selection
  and JAR lookup.
- **The pcbnew subprocess bridge** (`utils/pcbnew_bridge.py`): the stderr filter, the
  interpreter and environment choice, and the decision over a finished run.
- **The schematic tools** (`tools/schematic.py`):
  - the loaded-schematic session;
  - position checks;
  - the `properties` string;
  - validation counts;
  - the info merge;
  - filter criteria;
  - label shapes;
  - the component search.
- **The silkscreen tools** (`tools/pcb_silkscreen.py`): the modification builder and the
  text-versus-pad overlap check.

The file system, the environment, clocks, subprocesses, pcbnew and kicad-sch-api never appear
directly. Where their answers matter, they are parameters:

- a directory listing as `(name, isDir, mtime)` entries with integer times;
- file contents as `Option<string>`, where `None` is an unreadable file;
- `isDir` and `isFile` predicates;
- the platform;
- a finished subprocess run.

Python dictionaries whose order is observable are insertion-ordered sequences of pairs (module
`PyDict`). Regular expressions are explicit scanners over `seq<char>` (module `TextScan`).
Shared string helpers are in `Strings`, and `Option`/`Result` are in `Wrappers`.

Where the code disagrees with the project's own documentation, the model follows the code. The
unified index's footprint resolver and the footprint-only index's resolver look as if they
should agree, but they do not: `LibraryPaths.ResolversDisagreeOnLinux` exhibits a machine where
they answer differently.

## Model

| member | source | states |
|---|---|---|
| LibraryPaths.FirstExisting | src/kicad_mcp/utils/footprint_index.py:58-62 | The result is None exactly when no candidate is a directory; otherwise it is the first candidate that is one, and every earlier candidate is not. |
| LibraryPaths.JoinPath | src/kicad_mcp/utils/library_index.py:57 | `os.path.join` of a root and a relative part starts with the root and ends with the part. |
| LibraryPaths.ExpandUser | src/kicad_mcp/tools/pcb_keepout.py:133 | `~/rest` expands to the home directory without trailing slashes, followed by "/rest". |
| LibraryPaths.LibPath | src/kicad_mcp/utils/library_index.py:51-76 | A set `KICAD_*_DIR` that is a directory wins. Otherwise the share directory joined with the family's sub-directory is returned when it exists. None is returned exactly when neither holds, and any result is a directory. |
| LibraryPaths.TwinFootprintLibPath | src/kicad_mcp/utils/footprint_index.py:33-62 | The environment variable is tried before the platform candidates. Any result is a directory and is the variable or a platform candidate. None is returned exactly when none of them is a directory. |
| LibraryPaths.JoinOnSeparator | src/kicad_mcp/utils/library_index.py:57 | Joining onto a root that does not end in the separator inserts exactly one separator. |
| LibraryPaths.TwinCandidatesAreJoined | src/kicad_mcp/utils/footprint_index.py:37-50 | Each footprint-only candidate is the matching share candidate joined with "footprints". |
| LibraryPaths.FirstExistingJoined | src/kicad_mcp/utils/footprint_index.py:58-62 | Probing the joined candidates gives the join of the first existing share candidate, whenever each share directory exists exactly when its footprint directory does. |
| LibraryPaths.EnvInFront | src/kicad_mcp/utils/footprint_index.py:52-56 | Inserting the variable at the front of the candidates makes it win when it is a directory. Otherwise the result is as without it. |
| LibraryPaths.ResolversAgree | src/kicad_mcp/utils/library_index.py:51-61 | The two footprint resolvers agree whenever every share directory exists exactly when its `footprints` sub-directory does. |
| LibraryPaths.ResolversDisagreeOnLinux | src/kicad_mcp/utils/footprint_index.py:40-44 | Suppose a Linux machine has both `/usr/share/kicad` and `/usr/local/share/kicad`, and only the second holds a `footprints` directory. The unified resolver stops at the first share directory and finds nothing, and the footprint-only resolver finds `/usr/local/share/kicad/footprints`. |
| LibraryParsers.ParseKicadMod | src/kicad_mcp/utils/library_index.py:82-104 | An unreadable file gives the empty record. The name is non-empty exactly when the content starts with `(footprint` and a quoted name, and it is then that quoted name. The pad count is the number of non-overlapping `(pad` plus whitespace matches. |
| LibraryParsers.NonEmptyNameGroup | src/kicad_mcp/utils/library_index.py:94 | A matched footprint head or symbol declaration always captures a non-empty name. |
| LibraryParsers.FirstGroupIsLeftmost | src/kicad_mcp/utils/library_index.py:97-102 | A searched field takes the group of its leftmost match, so a later duplicate never wins. |
| LibraryParsers.FirstGroupAbsent | src/kicad_mcp/utils/library_index.py:97-102 | With no match anywhere, the field stays empty. |
| LibraryParsers.ParseKicadModFirstDescription | src/kicad_mcp/utils/library_index.py:97-99 | The description is the group of the first `(descr "…"` match. |
| LibraryParsers.ParseKicadModFirstTags | src/kicad_mcp/utils/library_index.py:100-102 | The tags are the group of the first `(tags "…"` match. |
| LibraryParsers.UnitSuffixIff | src/kicad_mcp/utils/library_index.py:136-137 | A name is a sub-unit name exactly when it is some text, then `_`, digits, `_`, digits. |
| LibraryParsers.FileStem | src/kicad_mcp/utils/library_index.py:125 | `splitext(...)[0]` is a prefix of the name. |
| LibraryParsers.LibraryOfSymFile | src/kicad_mcp/utils/library_index.py:125 | The library of `X.kicad_sym` is `X`. |
| LibraryParsers.BlockEnd | src/kicad_mcp/utils/library_index.py:142-143 | A symbol's block ends at the first later top-level symbol line, or at the end of the content when there is none. |
| LibraryParsers.BlockEndsAtNextDecl | src/kicad_mcp/utils/library_index.py:139-144 | No block extends past the next top-level declaration, so fields come only from the symbol's own span. |
| LibraryParsers.SymbolAt | src/kicad_mcp/utils/library_index.py:130-165 | A declaration gives no record exactly when its name is a sub-unit name. Otherwise the record has that name and the file's library. Its pin count counts `(pin` in the symbol's block, including nested units. Its description and keywords are the first `Description` and `ki_keywords` property values in that block. |
| LibraryParsers.SymbolsOf | src/kicad_mcp/utils/library_index.py:130-167 | There is one record per declaration that is not a sub-unit: the count is the number of declarations minus the sub-units. Every record has the file's library, a non-empty name and no unit suffix. |
| LibraryParsers.SymbolsOfComplete | src/kicad_mcp/utils/library_index.py:130-167 | Every declaration that is not a sub-unit has its record among the records. |
| LibraryParsers.SymbolsOfSound | src/kicad_mcp/utils/library_index.py:130-167 | Every record is the record of one of the declarations. |
| LibraryParsers.SymbolsOfAppend | src/kicad_mcp/utils/library_index.py:130-167 | The records of two runs of declarations are those of the first run followed by those of the second, so the records keep the file's declaration order. |
| LibraryParsers.SomesCount | src/kicad_mcp/utils/library_index.py:130-167 | Keeping the present records of a list drops exactly the absent ones. |
| LibraryParsers.DeclsOf | src/kicad_mcp/utils/library_index.py:130 | The `finditer` over symbol declarations yields positions in increasing order, each the start of a declaration match. |
| LibraryParsers.ParseKicadSym | src/kicad_mcp/utils/library_index.py:112-167 | An unreadable file gives `[]`. Every record's library is the file stem, its name is non-empty, and it is not a sub-unit. A readable file gives as many records as it has declarations that are not sub-units. |
| LibraryParsers.ParseKicadSymMembers | src/kicad_mcp/utils/library_index.py:112-167 | The records of a readable file are exactly the records of its declarations that are not sub-units: each such declaration's record is present, and every record comes from a declaration. |
| FtsQuery.QueryTerms | src/kicad_mcp/utils/library_index.py:528-535 | There is one term per whitespace-separated word, in order, and only the last term is a prefix term. |
| FtsQuery.Tokens | src/kicad_mcp/utils/library_index.py:530-535 | There is one quoted token per term, in order. |
| FtsQuery.ReadEscaped | src/kicad_mcp/utils/library_index.py:531 | Un-doubling the quotes of an escaped term gives the term back. |
| FtsQuery.ParseJoinedTokens | src/kicad_mcp/utils/library_index.py:536 | A space-joined list of tokens reads back as exactly that list of terms. |
| FtsQuery.BuildFtsQueryRoundTrip | src/kicad_mcp/utils/library_index.py:526-536 | For a non-blank query, reading the built expression back gives the query's words, each a prefix term exactly when it is last. |
| FtsQuery.BuildFtsQueryWords | src/kicad_mcp/utils/library_index.py:526-536 | The i-th read-back term has the text of the i-th word, and it is a prefix term exactly when i is the last index. |
| IndexModel.SymbolRowOf | src/kicad_mcp/utils/library_index.py:383 | `lib_id` is the library, ":" and the name. |
| IndexModel.SymbolRowsOf | src/kicad_mcp/utils/library_index.py:382-396 | There is one row per parsed symbol, in order. |
| IndexModel.SymbolRows | src/kicad_mcp/utils/library_index.py:378-396 | Every symbol-table row has `lib_id == library:name` and a name without a unit suffix. |
| IndexModel.CountByPerm | src/kicad_mcp/utils/library_index.py:253 | A per-entry count sum does not depend on the order in which the entries are listed. |
| IndexModel.FootprintRowsCount | src/kicad_mcp/utils/library_index.py:252-268 | The number of footprint rows is the number of `.kicad_mod` files summed over the `.pretty` directories. |
| IndexModel.RowsOfDirsSource | src/kicad_mcp/utils/library_index.py:253-268 | Every row comes from a `.kicad_mod` file of a `.pretty` directory. Its library is the directory name minus ".pretty". |
| IndexModel.FootprintRowSource | src/kicad_mcp/utils/library_index.py:253-268 | Every row of a rebuild comes from a `.kicad_mod` file in some `.pretty` directory of the root. |
| IndexModel.FootprintRowPresent | src/kicad_mcp/utils/library_index.py:253-268 | Every `.kicad_mod` file of every `.pretty` directory of the root has its row, with the file-name fallback for a missing name. |
| IndexModel.SortedSameMembers | src/kicad_mcp/utils/library_index.py:253 | Sorting the listing by name neither loses nor adds entries. |
| IndexModel.ScanForNewer | src/kicad_mcp/utils/library_index.py:501-512 | The scan finds a newer unit exactly when some `.pretty` directory (for footprints) or `.kicad_sym` file (for symbols) has mtime strictly greater than the build time. |
| IndexModel.FreshAfterRebuild | src/kicad_mcp/utils/library_index.py:274-276 | Right after its metadata is recorded, a family is not stale for a root with no later mtimes. |
| IndexModel.RebuildKeepsOtherFresh | src/kicad_mcp/utils/library_index.py:274-276 | Recording one family's keys leaves the other family's staleness unchanged. |
| IndexModel.StaleAfterTouch | src/kicad_mcp/utils/library_index.py:504-507 | A unit with mtime after the build time makes its family stale. |
| IndexModel.Limit | src/kicad_mcp/utils/library_index.py:301 | `LIMIT n` keeps a prefix of at most n rows; a negative n keeps all rows. |
| IndexModel.Within | src/kicad_mcp/utils/library_index.py:300 | The library filter keeps exactly the rows of that library, and all the rows when every row is in it. |
| IndexModel.Ranked | src/kicad_mcp/utils/library_index.py:301 | `LIMIT` keeps the first `limit` rows, or all when there are fewer or the limit is negative, and each hit is made from the row at its own position. |
| IndexModel.SearchFootprintTable | src/kicad_mcp/utils/library_index.py:283-333 | A blank query, an unbuilt table or an engine error gives `[]`. Otherwise the rows are those of the engine's ids in rank order, filtered by library when one is given, and the hits are the first `limit` of them (all with a negative limit), one per row with `full_name == library:name`. |
| IndexModel.SearchFindsFootprint | src/kicad_mcp/utils/library_index.py:283-333 | Every row the engine names, in the filtered library, is found when the limit does not cut the result. |
| IndexModel.SearchSymbolTable | src/kicad_mcp/utils/library_index.py:411-461 | The same rule for symbols: the hits are the first `limit` of the engine's rows, filtered by library, with `lib_id == library:name` on every hit. |
| IndexModel.SearchFindsSymbol | src/kicad_mcp/utils/library_index.py:411-461 | Every symbol row the engine names, in the filtered library, is found when the limit does not cut the result. |
| IndexModel.JoinIdsComplete | src/kicad_mcp/utils/library_index.py:296-302 | The `JOIN ... ON f.id = fts.rowid` brings the row of every id that names one. |
| IndexModel.JoinIdsExact | src/kicad_mcp/utils/library_index.py:296-302 | When every id names a row, the join gives one row per id, in the engine's order. |
| UnifiedIndex.LibraryIndex.constructor | src/kicad_mcp/utils/library_index.py:178-188 | A root given as an argument wins, otherwise the resolver's. The metadata table exists and is empty, and no family is built. |
| UnifiedIndex.LibraryIndex.IsStale | src/kicad_mcp/utils/library_index.py:467-517 | The checks in source order (database, metadata table, time key, path key, newer unit) decide staleness as the staleness specification does. |
| UnifiedIndex.LibraryIndex.FootprintsStale | src/kicad_mcp/utils/library_index.py:214-218 | The footprints are stale when the root is unset or not a directory, and otherwise by the shared rule with the `fp_*` keys and `.pretty` units. |
| UnifiedIndex.LibraryIndex.SymbolsStale | src/kicad_mcp/utils/library_index.py:339-343 | The symbols are stale when the root is unusable, and otherwise by the shared rule with the `sym_*` keys and `.kicad_sym` units. |
| UnifiedIndex.LibraryIndex.SetMeta | src/kicad_mcp/utils/library_index.py:519-523 | Insert-or-replace of one key; nothing else in the index changes. |
| UnifiedIndex.LibraryIndex.RecordBuild | src/kicad_mcp/utils/library_index.py:274-276 | The build time, root and count are written under the family's own keys, and only there. |
| UnifiedIndex.LibraryIndex.InsertFootprintFiles | src/kicad_mcp/utils/library_index.py:257-268 | Appends one row per `.kicad_mod` file in listing order and returns how many. |
| UnifiedIndex.LibraryIndex.InsertFootprintDirs | src/kicad_mcp/utils/library_index.py:253-268 | Appends the rows of every `.pretty` directory in order and returns their number. |
| UnifiedIndex.LibraryIndex.RebuildFootprints | src/kicad_mcp/utils/library_index.py:220-281 | An unusable root is the error "Footprint library path not found: <path>. Set KICAD_FOOTPRINT_DIR or install KiCad." before anything changes. Otherwise the footprint tables hold exactly the rows of the sorted listing, the `fp_*` keys are recorded, the count is returned, and the symbol family is untouched. |
| UnifiedIndex.LibraryIndex.InsertSymbols | src/kicad_mcp/utils/library_index.py:382-396 | Appends one row per parsed symbol. |
| UnifiedIndex.LibraryIndex.InsertSymbolFiles | src/kicad_mcp/utils/library_index.py:379-396 | Appends the symbols of every `.kicad_sym` file in order and returns their number. |
| UnifiedIndex.LibraryIndex.RebuildSymbols | src/kicad_mcp/utils/library_index.py:345-409 | The same as for footprints: on an unusable root the error "Symbol library path not found: <path>. Set KICAD_SYMBOL_DIR or install KiCad.", otherwise exactly the symbol rows of the sorted listing, the `sym_*` keys recorded, and the footprint family untouched. |
| UnifiedIndex.LibraryIndex.SearchFootprints | src/kicad_mcp/utils/library_index.py:283-333 | Answers from the current footprint table with the search rule. |
| UnifiedIndex.LibraryIndex.SearchSymbols | src/kicad_mcp/utils/library_index.py:411-461 | Answers from the current symbol table with the search rule; every hit's `lib_id` is `library:name`. |
| UnifiedIndex.RebuildThenCheck | src/kicad_mcp/utils/library_index.py:214-281 | After a successful footprint rebuild over a root with no later mtimes, the footprints are not stale, and the symbols' staleness is what it was before. |
| FootprintOnlyIndex.FootprintIndex.constructor | src/kicad_mcp/utils/footprint_index.py:108-111 | A given root wins, otherwise the footprint-only resolver's. Nothing is built yet. |
| FootprintOnlyIndex.FootprintIndex.IsStale | src/kicad_mcp/utils/footprint_index.py:121-163 | The index is stale when the database is missing or the root is unusable, and otherwise by the shared rule with `build_time`/`lib_path` and `.pretty` units. |
| FootprintOnlyIndex.FootprintIndex.InsertFiles | src/kicad_mcp/utils/footprint_index.py:217-230 | Appends one row per `.kicad_mod` file and returns how many. |
| FootprintOnlyIndex.FootprintIndex.InsertDirs | src/kicad_mcp/utils/footprint_index.py:211-230 | Appends the rows of every `.pretty` directory in order. |
| FootprintOnlyIndex.FootprintIndex.RebuildIndex | src/kicad_mcp/utils/footprint_index.py:165-256 | An unusable root gives "Footprint library path not found: <path>. Set KICAD_FOOTPRINT_DIR or install KiCad." with nothing changed. Otherwise the table holds exactly the listing's rows, and the metadata is recreated holding exactly `build_time`, `lib_path` and `footprint_count`. |
| FootprintOnlyIndex.FootprintIndex.Search | src/kicad_mcp/utils/footprint_index.py:258-327 | The search rule, with the query expression built exactly as the unified index builds it. |
| FootprintOnlyIndex.RebuildThenCheck | src/kicad_mcp/utils/footprint_index.py:165-256 | Right after a successful rebuild over a root with no later mtimes, `is_stale` is false; after a failed one it is true. |
| NetlistParser.ExprEndFirstClose | src/kicad_mcp/utils/netlist_parser.py:107-118 | The depth loop stops at the first character where the depth returns to 0, or at the end of the content. |
| NetlistParser.SExprAt | src/kicad_mcp/utils/netlist_parser.py:102-120 | Each extracted expression is a prefix of the content starting at its match position. |
| NetlistParser.SExprFirstClose | src/kicad_mcp/utils/netlist_parser.py:102-120 | An expression that stops before the end of the content ends with `)` and is balanced. No shorter prefix of it closes at depth 0. |
| NetlistParser.SExprPrefixesOpen | src/kicad_mcp/utils/netlist_parser.py:107-118 | Every proper non-empty prefix of an expression that starts with `(` is still open (depth > 0). |
| NetlistParser.SchematicParser.ExtractSExpressions | src/kicad_mcp/utils/netlist_parser.py:87-122 | There is one extracted string per pattern match, in order, each read by the depth loop from its match start. |
| NetlistParser.SchematicParser.constructor | src/kicad_mcp/utils/netlist_parser.py:13-30 | A new parser holds the file text, with no components, no component info and no nets. |
| NetlistParser.SchematicParser.ReadExpr | src/kicad_mcp/utils/netlist_parser.py:103-120 | The character loop builds exactly the balanced prefix from the match position. |
| NetlistParser.RouteAllLastWins | src/kicad_mcp/utils/netlist_parser.py:157-170 | Reference/Value/Footprint take their last occurrence, and the other fields are untouched. A key is in `properties` exactly when it was there before or is a non-routed property name that occurs; its value is the last occurrence. |
| NetlistParser.SchematicParser.RouteProperties | src/kicad_mcp/utils/netlist_parser.py:154-170 | The property loop routes every `(property "k" "v"` match in order. |
| NetlistParser.SchematicParser.ReadPins | src/kicad_mcp/utils/netlist_parser.py:184-191 | The pin list holds one `(num, name)` record per pin match, in order. |
| NetlistParser.SchematicParser.ParseComponent | src/kicad_mcp/utils/netlist_parser.py:139-196 | The component record is the one given by `lib_id`, the routed properties, the position flag and the pins. `pins` is present only when a pin matched. |
| NetlistParser.NonEmptyOf | src/kicad_mcp/utils/netlist_parser.py:130-133 | Only non-empty component records are kept, in order. |
| NetlistParser.KeyedKeys | src/kicad_mcp/utils/netlist_parser.py:134-135 | `component_info` gains exactly one key per reference seen (default "Unknown"). |
| NetlistParser.KeyedLastWins | src/kicad_mcp/utils/netlist_parser.py:134-135 | A reference maps to its last component. |
| NetlistParser.SchematicParser.AddComponent | src/kicad_mcp/utils/netlist_parser.py:131-135 | An empty record changes nothing. Otherwise the record is appended to the component list and stored under its reference. |
| NetlistParser.SchematicParser.ExtractComponents | src/kicad_mcp/utils/netlist_parser.py:124-137 | The component list gains the non-empty records of every `(symbol` expression, and `component_info` is keyed by reference with later records winning. |
| NetlistParser.AddNewKeeps | src/kicad_mcp/utils/netlist_parser.py:370-379 | Adding names keeps existing nets in place and their order, adds no duplicate, and afterwards holds exactly the old nets and the names. |
| NetlistParser.SchematicParser.BuildNetlist | src/kicad_mcp/utils/netlist_parser.py:366-379 | The nets are the old nets, then the global-label texts, then the power types, each name once. |
| NetlistParser.SchematicParser.Parse | src/kicad_mcp/utils/netlist_parser.py:54-85 | `component_count` is the number of entries in `component_info`, and `net_count` is the number of nets. The returned components and nets are the parser's own. |
| NetlistParser.ExtractNetlist | src/kicad_mcp/utils/netlist_parser.py:385-405 | A missing or unreadable file gives an error with no components, no nets and zero counts. A readable file gives the parse result. |
| NetlistParser.TypeCountsCount | src/kicad_mcp/utils/netlist_parser.py:424-427 | A type is a key exactly when some reference has it as its leading `[A-Za-z_]+` run. Its value is the number of such references. |
| NetlistParser.PowerNetsMembers | src/kicad_mcp/utils/netlist_parser.py:429-434 | The power nets are exactly the net names starting with VCC, VDD, GND, +5V, +3V3 or +12V. |
| NetlistParser.StartsWithPowerPrefix | src/kicad_mcp/utils/netlist_parser.py:430-433 | The prefix loop answers exactly the power-prefix predicate. |
| NetlistParser.SumPinsBounds | src/kicad_mcp/utils/netlist_parser.py:436-438 | The total number of pin connections is at least each net's own count. |
| NetlistParser.AnalyzeNetlist | src/kicad_mcp/utils/netlist_parser.py:408-441 | The counts default to 0, the type counts are the prefix counts, the power nets are as above, and `total_pin_connections` is the sum of the net lengths. |
| NetlistParser.CountTypes | src/kicad_mcp/utils/netlist_parser.py:424-427 | The reference loop computes `TypeCounts` of the references. |
| NetlistParser.CollectPowerNets | src/kicad_mcp/utils/netlist_parser.py:429-434 | The net loop keeps, in order, the net names with a power prefix. |
| KeepoutHelpers.OverlapArea | src/kicad_mcp/utils/keepout_helpers.py:100-103 | The area is never negative, and a positive area means the boxes overlap. For proper boxes, a positive area is equivalent to overlap, and the area never exceeds either box's own area. |
| KeepoutHelpers.OverlapSymmetric | src/kicad_mcp/utils/keepout_helpers.py:96-103 | Overlap and overlap area do not depend on the order of the boxes. |
| KeepoutHelpers.ContainedOverlaps | src/kicad_mcp/utils/keepout_helpers.py:96-107 | A proper box inside another overlaps it both ways, and the overlap area is its own area. |
| KeepoutHelpers.SharedEdgeIsNoOverlap | src/kicad_mcp/utils/keepout_helpers.py:96-98 | Boxes that only share an edge do not overlap, and their overlap area is 0. |
| KeepoutHelpers.InsideOrder | src/kicad_mcp/utils/keepout_helpers.py:105-107 | Containment is reflexive and transitive. |
| KeepoutHelpers.EdgePoints | src/kicad_mcp/utils/keepout_helpers.py:79-84 | The collected coordinates are empty exactly when no drawing is on Edge.Cuts, and they include both ends of every such drawing. |
| KeepoutHelpers.SeqMin | src/kicad_mcp/utils/keepout_helpers.py:88-89 | `min` is an element of the list and no greater than any element. |
| KeepoutHelpers.SeqMax | src/kicad_mcp/utils/keepout_helpers.py:90-91 | `max` is an element of the list and no smaller than any element. |
| KeepoutHelpers.OutlineOf | src/kicad_mcp/utils/keepout_helpers.py:75-94 | None is returned exactly when there are no Edge.Cuts drawings. Otherwise width and height are max − min (both non-negative), and every Edge.Cuts end point lies inside the box. |
| KeepoutHelpers.BoardOutline | src/kicad_mcp/utils/keepout_helpers.py:78-94 | The drawing loop computes the outline specification. |
| PcbKeepout.Blocked | src/kicad_mcp/tools/pcb_keepout.py:180-185 | `blocked` names a restriction (`tracks`, `vias`, `pads`, `footprints`, `copper_pour`, the key without `no_`) exactly when it is set, in the dict's key order, and it is empty exactly when no constraint is set. |
| PcbKeepout.SetKeysOfAll | src/kicad_mcp/tools/pcb_keepout.py:180-185 | Filtering any rank-ordered list of all the keys by their values keeps exactly the set ones, in the same order. |
| PcbKeepout.OverhangOf | src/kicad_mcp/tools/pcb_keepout.py:196-205 | Each side key is present exactly when the footprint exceeds the outline on that side, with a positive amount. A footprint not inside the outline has at least one side. |
| PcbKeepout.KeepoutZones | src/kicad_mcp/tools/pcb_keepout.py:23-42 | A missing PCB file is exactly the "PCB file not found" error. Otherwise the keepouts are reported. |
| PcbKeepout.NoZoneViolations | src/kicad_mcp/tools/pcb_keepout.py:168-183 | There is no zone violation exactly when no overlapping zone forbids footprints. |
| PcbKeepout.PlacementValidity | src/kicad_mcp/tools/pcb_keepout.py:168-214 | The violations are empty exactly when no overlapping zone forbids footprints and, when an outline exists, the footprint is inside it. |
| PcbKeepout.ValidatePlacement | src/kicad_mcp/tools/pcb_keepout.py:163-219 | Violations are the zone violations followed by the outside-board violation. Warnings are the overlapping zones that only block routing. `valid` holds exactly when there is no violation. |
| PcbKeepout.ValidatePlacementTool | src/kicad_mcp/tools/pcb_keepout.py:123-149 | A missing file, a library found on none of the three search paths, and a footprint missing from the library each give their own error message. Otherwise the placement check runs. |
| PcbKeepout.LibSearchPaths | src/kicad_mcp/tools/pcb_keepout.py:131-138 | The three search directories, in order (the macOS bundle, the user's documents, the Linux share), each joined with `<library>.pretty`. |
| PcbKeepout.GapSign | src/kicad_mcp/tools/pcb_keepout.py:353-357 | For proper boxes, the gap is negative exactly when they overlap. |
| PcbKeepout.PairEntry | src/kicad_mcp/tools/pcb_keepout.py:345-378 | A pair is recorded exactly on an actual overlap, or on an expanded-box overlap when `min_clearance > 0`. The severity is "error" exactly on an actual overlap, and "warning" otherwise. |
| PcbKeepout.PairsMembers | src/kicad_mcp/tools/pcb_keepout.py:331-342 | The loops visit exactly the pairs (i, j) with i < j, each once. |
| PcbKeepout.AllPairsCount | src/kicad_mcp/tools/pcb_keepout.py:381 | `pairs_checked = n(n−1)/2` is the number of pairs visited. |
| PcbKeepout.OverlapsExactly | src/kicad_mcp/tools/pcb_keepout.py:329-378 | An entry is reported exactly when some pair i < j produces it. |
| PcbKeepout.SeverityPartition | src/kicad_mcp/tools/pcb_keepout.py:382-383 | Errors plus warnings equal the number of entries. |
| PcbKeepout.AuditRow | src/kicad_mcp/tools/pcb_keepout.py:341-378 | The inner `for j` loop appends to `overlaps` exactly the entries of row i's pairs (i, j), j > i, in order. |
| PcbKeepout.CollectRow | src/kicad_mcp/tools/pcb_keepout.py:338-378 | The entries of the pairs before a row followed by that row's pairs are the earlier entries followed by that row's entries, so the nested loops together give the entries of all pairs in order. |
| PcbKeepout.AuditOverlaps | src/kicad_mcp/tools/pcb_keepout.py:329-401 | The entries are the pair entries in loop order. `pairs_checked = n(n−1)/2`, the error and warning counts are counts by severity, and together they add up to the number of entries. |
| PcbKeepout.ZoneIssueFor | src/kicad_mcp/tools/pcb_keepout.py:439-456 | A footprint's own keepout and a non-overlapping zone give nothing. An overlapping zone gives a "violation" exactly when it forbids footprints, and a "warning" otherwise. |
| PcbKeepout.ZoneIssuesExactly | src/kicad_mcp/tools/pcb_keepout.py:439-456 | Zone issues exist exactly when some other-owned zone overlaps the footprint. |
| PcbKeepout.IssuesExactly | src/kicad_mcp/tools/pcb_keepout.py:437-472 | A footprint has issues exactly when some other-owned zone overlaps it, or an outline exists and the footprint is not inside it. |
| PcbKeepout.FootprintIssues | src/kicad_mcp/tools/pcb_keepout.py:437-472 | The keepout loop computes the issue specification. |
| PcbKeepout.AuditCountsAddUp | src/kicad_mcp/tools/pcb_keepout.py:474-487 | Flagged footprints plus clean footprints equal all footprints. |
| PcbKeepout.AuditPlacement | src/kicad_mcp/tools/pcb_keepout.py:425-498 | Every footprint with any issue, warnings included, is listed. The others are counted clean, and `violations_count + clean_count = total_footprints`. |
| PcbKeepout.AuditOverlapsTool | src/kicad_mcp/tools/pcb_keepout.py:244-402 | A missing file is exactly the "PCB file not found" error. Otherwise the report has `total_footprints` equal to the number of footprints, `pairs_checked` equal to n(n-1)/2, exactly the overlap entries of all pairs, and the error and warning counts of those entries. |
| PcbKeepout.AuditPlacementTool | src/kicad_mcp/tools/pcb_keepout.py:415-416 | A missing file is exactly the error. Otherwise the violations are the flagged footprints and the clean count is those not flagged, against the keepouts and the outline of the drawings, and the two add up to the footprint total. |
| PcbNets.NextCode | src/kicad_mcp/tools/pcb_nets.py:53-54 | The new code is greater than every code of a `(net N "` occurrence and is at least 1. It is the largest such code + 1 when there is one. |
| PcbNets.MaxCode | src/kicad_mcp/tools/pcb_nets.py:54 | `max` over the codes, or 0 for none, is an upper bound that is attained. |
| PcbNets.AddNetSpec | src/kicad_mcp/tools/pcb_nets.py:39-76 | An existing `(net N "name")` gives "already exists" and the text unchanged. No definition at all gives an error and the text unchanged. Otherwise the new code is `NextCode`, and `\n\t(net code "name")` is inserted right after the last definition with all other text kept. |
| PcbNets.NetLineMatches | src/kicad_mcp/tools/pcb_nets.py:41-64 | The inserted line matches the existence pattern for its own name. |
| PcbNets.AddNetIdempotent | src/kicad_mcp/tools/pcb_nets.py:39-76 | Adding the same net twice finds it the second time and leaves the text as the first call left it. |
| PcbNets.AddedCodeIsFresh | src/kicad_mcp/tools/pcb_nets.py:53-65 | An added net's code is used by no existing definition. |
| PcbNets.PcbText.ScanCodes | src/kicad_mcp/tools/pcb_nets.py:53-54 | The single-pass scan computes `NextCode`. |
| PcbNets.LargestCode | src/kicad_mcp/tools/pcb_nets.py:54 | The running maximum over the matched codes equals `MaxCode` of those codes. |
| PcbNets.PcbText.ScanLastNet | src/kicad_mcp/tools/pcb_nets.py:58-60 | The `finditer` loop ends on the last complete net definition. |
| PcbNets.PcbText.AddNet | src/kicad_mcp/tools/pcb_nets.py:39-76 | The result and the new file text are those of the add-net specification. |
| PcbNets.AddNetTool | src/kicad_mcp/tools/pcb_nets.py:33-76 | A missing file gives the error and leaves the text alone; otherwise `add_net` runs. |
| PcbNets.BulkAssignGuard | src/kicad_mcp/tools/pcb_nets.py:146-150 | The script runs exactly when the file exists and the list is non-empty. Otherwise the missing-file error or "No assignments provided" is returned. |
| PcbNets.SyncPrecheck | src/kicad_mcp/tools/pcb_nets.py:253-281 | The checks pass exactly when the project, schematic and PCB exist, the platform is supported, and kicad-cli exists or the platform is Linux. Each failure gives its own message in source order. |
| PcbNets.NodeAssignments | src/kicad_mcp/tools/pcb_nets.py:328-336 | Only nodes with both a reference and a pin give assignments, each to the net's cleaned name. |
| PcbNets.Definitions | src/kicad_mcp/tools/pcb_nets.py:319-326 | Each definition is a net name without its leading "/" characters. |
| PcbNets.AssignmentsUseDefinitions | src/kicad_mcp/tools/pcb_nets.py:319-336 | Every pad assignment names a reference, a pad and one of the net definitions. |
| PcbNets.NamelessNetSkipped | src/kicad_mcp/tools/pcb_nets.py:320-322 | A nameless net adds neither a definition nor an assignment. |
| PcbNets.ReadNetlist | src/kicad_mcp/tools/pcb_nets.py:319-336 | The element loops compute the definitions and the assignments. |
| PcbNets.NodePads | src/kicad_mcp/tools/pcb_nets.py:327-335 | The `<node>` loop of one net keeps, in order, every node with both a reference and a pin, as a pad of that net. |
| PcbNets.ExistingNets | src/kicad_mcp/tools/pcb_nets.py:350-352 | `existing_nets` has each name once, and a later definition of a name overwrites its code. |
| PcbNets.MaxValue | src/kicad_mcp/tools/pcb_nets.py:355 | `max(values)`, or 0 for an empty dict, is an upper bound that is attained. |
| PcbNets.ReconcileCounts | src/kicad_mcp/tools/pcb_nets.py:357-366 | Every definition lands in exactly one of created and existing. The counter ends at the start value plus the number created. |
| PcbNets.ReconcileKeys | src/kicad_mcp/tools/pcb_nets.py:360-366 | No name is lost, and every definition is known afterwards. |
| PcbNets.ReconcileFresh | src/kicad_mcp/tools/pcb_nets.py:360-366 | Created names were unknown before and are each created at most once, even when repeated in the list. |
| PcbNets.ReconcileCodes | src/kicad_mcp/tools/pcb_nets.py:355-366 | Created names get consecutive codes from max + 1, in definition order. |
| PcbNets.NewLinesNumbered | src/kicad_mcp/tools/pcb_nets.py:377-380 | The inserted lines carry the consecutive codes. |
| PcbNets.SyncTextKept | src/kicad_mcp/tools/pcb_nets.py:369-375 | With nothing created, or no definition to insert after, the file text is unchanged. |
| PcbNets.SyncTextInserted | src/kicad_mcp/tools/pcb_nets.py:369-383 | Otherwise the new definitions, numbered from max + 1 in creation order, are inserted right after the last existing definition and nothing else changes. |
| PcbNets.PcbText.ScanNets | src/kicad_mcp/tools/pcb_nets.py:350-352 | The `finditer` loop builds `existing_nets`. |
| PcbNets.PcbText.SyncNets | src/kicad_mcp/tools/pcb_nets.py:349-386 | Created, existing and the new text are those of the reconciliation specification. |
| PcbNets.PcbText.constructor | src/kicad_mcp/tools/pcb_nets.py:346-347 | The board text held is the file content read. |
| PcbNets.PcbText.ReconcileLoop | src/kicad_mcp/tools/pcb_nets.py:357-366 | The definition loop computes the reconciliation specification. |
| PcbNets.PcbText.BuildLines | src/kicad_mcp/tools/pcb_nets.py:377-380 | The line-building loop writes one `(net N "name")` line per created net, with its assigned code. |
| PcbNets.UpdateFromNetlist | src/kicad_mcp/tools/pcb_nets.py:283-386 | A failed export gives "kicad-cli netlist export failed: " plus the stripped stderr. An export or parse that raises gives "Netlist export/parse failed: " plus the message. A missing `<nets>` element, or no named net, gives its error. In each of these cases the file is left alone. Otherwise the nets are reconciled and inserted as specified, and the pad assignments are returned. |
| Bom.FirstLines | src/kicad_mcp/tools/bom.py:274 | The sample is a prefix of the file text. When it is not the whole text, it holds exactly n line breaks. |
| Bom.Delimiter | src/kicad_mcp/tools/bom.py:277-284 | The delimiter is one of `,`, `;` or tab. A comma in the sample wins. A delimiter other than the comma occurs in a sample without commas, and tab is chosen only when there is no `;`. With none of the three present, the comma is the default. |
| Bom.DelimiterFromFile | src/kicad_mcp/tools/bom.py:274-284 | A non-comma delimiter was seen within the first ten lines of the file. |
| Bom.FormatFromFields | src/kicad_mcp/tools/bom.py:293-303 | A header that mentions "reference" and "value" is KiCad. "designator" gives KiCad or Altium, and "part number" or "manufacturer part" never gives unknown. |
| Bom.ExtractPrefix | src/kicad_mcp/tools/bom.py:474-479 | A string starting with an ASCII letter gives its maximal leading run of ASCII letters. Anything else, including a non-string, gives "Other". |
| Bom.DesignatorPrefix | src/kicad_mcp/tools/bom.py:474-479 | `R12`, `SW3` and the like fall under their letters. |
| Bom.TallyCounts | src/kicad_mcp/tools/bom.py:486-489 | The tally has each key once, each key's count equals its number of occurrences, and the counts sum to the number of references. |
| Bom.StrippedPieces | src/kicad_mcp/tools/bom.py:484 | One stripped piece per comma-separated part of the cell. |
| Bom.SplitCellsCount | src/kicad_mcp/tools/bom.py:481-484 | Splitting succeeds exactly when every cell is a string. The number of references is the number of cells plus their commas. |
| Bom.RefCategoriesTotal | src/kicad_mcp/tools/bom.py:481-498 | The prefix counts have distinct keys. They sum to the number of cells (per-cell branch) or the number of comma-separated references (joined branch). The joined branch fails exactly when some cell is not a string. |
| Bom.ReferenceCategories | src/kicad_mcp/tools/bom.py:481-498 | The loops compute the reference-category specification. |
| Bom.SplitAllRefs | src/kicad_mcp/tools/bom.py:482-484 | The first loop computes the split of all cells. |
| Bom.AsWrittenLosesCounts | src/kicad_mcp/tools/bom.py:516-524 | On `{"R": 3, "Resistors": 2}` the code as written reports `{"Resistors": 2}` and loses three resistors; the corrected mapping reports 5. |
| Bom.AsWrittenAgrees | src/kicad_mcp/tools/bom.py:516-524 | With distinct input names, none of which is a descriptive name, the code as written and the corrected mapping agree. |
| Bom.MapCategoriesTotal | src/kicad_mcp/tools/bom.py:501-526 | The corrected mapping keeps the total count. It has distinct names, and no short prefix survives as a name. |
| Bom.MapCategoryNames | src/kicad_mcp/tools/bom.py:517-524 | Each reported name is the descriptive name of a known prefix, or an input category's own name. |
| Bom.RenameCategories | src/kicad_mcp/tools/bom.py:516-526 | The renaming loop, adding the count of a colliding name, computes the corrected mapping. |
| Bom.FindColumn | src/kicad_mcp/tools/bom.py:416-454 | A `for possible_col` loop picks the first candidate that is a column, or none when no candidate is. |
| Bom.ChooseCategorySource | src/kicad_mcp/tools/bom.py:466-498 | Categories come from the category column when there is one, else from the footprint column, else from the reference column, else there are none. |
| Bom.BasicAnalysis | src/kicad_mcp/tools/bom.py:388-403 | Without pandas, unique = total = number of components, with no categories and no cost data. |
| Bom.BomFiles | src/kicad_mcp/tools/bom.py:60-64 | The BOM files are exactly the project files whose type mentions "bom" or whose path ends in ".csv". |
| Bom.MergeInto | src/kicad_mcp/tools/bom.py:133-136 | Merging adds every count, so the totals add up, and the names stay distinct. |
| Bom.MergedTotal | src/kicad_mcp/tools/bom.py:130-138 | The merged categories count every category entry of every analysed file once. |
| Bom.FirstCurrency | src/kicad_mcp/tools/bom.py:150-158 | The currency is that of the first analysed file reporting one, and none exactly when no file does. |
| Bom.CostFacts | src/kicad_mcp/tools/bom.py:140-147 | The cost total sums only positive per-file totals. A cost is available exactly when that sum is positive. |
| Bom.BomReportFacts | src/kicad_mcp/tools/bom.py:66-165 | With no BOM file the result is the "No BOM files found" error. Otherwise the summary is present exactly when the component total is positive, and it carries the merged categories, the cost when one is available, and the currency or "USD". |
| Bom.SelectBomFiles | src/kicad_mcp/tools/bom.py:60-64 | The selection loop computes the BOM file list. |
| Bom.AnalyseFiles | src/kicad_mcp/tools/bom.py:86-118 | The per-file loop records a report for every file not skipped, and sums the unique and total counts of the analysed ones. |
| Bom.MergeFile | src/kicad_mcp/tools/bom.py:133-136 | The inner category loop merges one file's categories. |
| Bom.MergeAll | src/kicad_mcp/tools/bom.py:130-138 | The outer loop builds the merged categories over the analysed files. |
| Bom.AddCosts | src/kicad_mcp/tools/bom.py:140-147 | The cost loop computes the positive-cost total and whether there was one. |
| Bom.FindCurrency | src/kicad_mcp/tools/bom.py:150-158 | `next(...)` finds the first currency reported. |
| Bom.AnalyzeBom | src/kicad_mcp/tools/bom.py:57-165 | `analyze_bom`, from the project's file list on, computes the report specification. |
| ComponentUtils.TypeFromReference | src/kicad_mcp/utils/component_utils.py:333-338 | The type is the maximal leading `[A-Za-z_]` run of the reference, or "" when there is none. |
| ComponentUtils.TypeOfDesignator | src/kicad_mcp/utils/component_utils.py:333-338 | A letter prefix followed by a number has that prefix as its type. |
| ComponentUtils.FindCode | src/kicad_mcp/utils/component_utils.py:365 | A case-insensitive `re.search` finds the leftmost position where the part-number pattern matches, or reports that none does. |
| ComponentUtils.StartsWithAny | src/kicad_mcp/utils/component_utils.py:347 | `startswith` over a tuple holds exactly when some prefix matches. |
| ComponentUtils.ContainsAny | src/kicad_mcp/utils/component_utils.py:353 | The term loop holds exactly when some term is in the value or the lib_id. |
| ComponentUtils.MatchesAnyCode | src/kicad_mcp/utils/component_utils.py:356-366 | The pattern loop holds exactly when some regulator pattern matches. |
| ComponentUtils.IsPowerComponent | src/kicad_mcp/utils/component_utils.py:341-368 | A component is power exactly when its reference starts with VR, PS or REG. It also is when its upper-cased value or lib_id contains a power term, or its value matches 78dd, 79dd, LMddd, LMdddd, AMSdddd or MCPdddd, case-insensitively. |
| ComponentUtils.LongCodeSubsumed | src/kicad_mcp/utils/component_utils.py:359-360 | The `LM\d{4}` pattern adds nothing: any value it matches also matches `LM\d{3}`. |
| ComponentUtils.NormalizeValue | src/kicad_mcp/utils/component_utils.py:315-330 | Types other than R, C and L return the value unchanged. R, C and L return the reader's normalised value, or the input when extraction fails. |
| ComponentUtils.FirstSeriesCode | src/kicad_mcp/utils/component_utils.py:18 | The search finds the leftmost position where `78dd` or `79dd` matches, case-insensitively. |
| ComponentUtils.FirstSeriesAfterPrefix | src/kicad_mcp/utils/component_utils.py:18 | A series code after a prefix without digits is the one found. |
| ComponentUtils.SeriesVoltageOf | src/kicad_mcp/utils/component_utils.py:18-26 | For `<no digits>78vv…` or `79vv…`, the series reading is `vV` when vv < 50 and nothing otherwise. |
| ComponentUtils.NegativeSeriesLosesSign | src/kicad_mcp/utils/component_utils.py:18-26 | The series reading of LM7912 is "12V", while the same file's regulator table lists LM7912 as "-12V". The 79xx branch drops the sign. |
| ComponentUtils.SignedSeriesVoltage | src/kicad_mcp/utils/component_utils.py:18-26 | The corrected reading exists exactly when the series reading does, and it carries "-" exactly when the code found is a 79xx code. |
| ComponentUtils.SignedSeriesVoltageOf | src/kicad_mcp/utils/component_utils.py:18-26 | `78vv` reads `vV` and `79vv` reads `-vV` for vv < 50. |
| ComponentUtils.SignedReadsLM7905 | src/kicad_mcp/utils/component_utils.py:54 | The corrected reading agrees with the table entry for LM7905 ("-5V"). |
| ComponentUtils.SignedReadsLM7912 | src/kicad_mcp/utils/component_utils.py:55 | The corrected reading agrees with the table entry for LM7912 ("-12V"). |
| PcbAutoroute.LastFound | src/kicad_mcp/tools/pcb_autoroute.py:318-321 | Scanning lines in reverse finds nothing exactly when no line has a value. |
| PcbAutoroute.LastFoundIsLast | src/kicad_mcp/tools/pcb_autoroute.py:318-321 | A value found is that of some line after which no line has a value. |
| PcbAutoroute.IncompleteCountOrder | src/kicad_mcp/tools/pcb_autoroute.py:309-329 | The count comes from the last "N connection(s) not found" line when any exists. Only otherwise does it come from the last "N incomplete" line, and 0 when neither exists. |
| PcbAutoroute.SummaryLine | src/kicad_mcp/tools/pcb_autoroute.py:312-314 | A worked example, not a general property: the router's summary line "3 connections not found" reads as 3. The general properties are `LastFoundIsLast` and `IncompleteCountOrder`. |
| PcbAutoroute.FindJar | src/kicad_mcp/tools/pcb_autoroute.py:19-48 | An existing explicit path wins, then an existing `FREEROUTER_JAR`, then the first existing known path. Only when none exists is the `PATH` lookup used. |
| Strings.Take | src/kicad_mcp/tools/pcb_autoroute.py:218 | `s[:n]` is a prefix of at most n characters, and the whole string when it is shorter. |
| PcbAutoroute.ResultOf | src/kicad_mcp/tools/pcb_autoroute.py:198-235 | Each pass records its own number. It is "ok" exactly when the run exited with 0 and wrote its session file, so timed-out, failing and no-output passes are never "ok". |
| PcbAutoroute.PassResults | src/kicad_mcp/tools/pcb_autoroute.py:184-235 | Each pass appends exactly one entry, in pass order. |
| PcbAutoroute.BestIsEarliestMinimum | src/kicad_mcp/tools/pcb_autoroute.py:237-239 | The best pass is an "ok" pass with the fewest incomplete connections, and the earliest such pass on a tie. There is none exactly when no pass is "ok". |
| PcbAutoroute.RunPasses | src/kicad_mcp/tools/pcb_autoroute.py:180-246 | The pass loop computes the passes specification. |
| PcbAutoroute.PassesOutcomeFacts | src/kicad_mcp/tools/pcb_autoroute.py:180-246 | There is one entry per pass. "All FreeRouter passes failed" is reported exactly when no pass succeeded. A routed outcome imports the session file of a successful pass and reports that pass's count. |
| PcbnewBridge.InOrderSuffix | src/kicad_mcp/utils/pcbnew_bridge.py:22 | Words found in order in a suffix are found in order in the whole line. |
| PcbnewBridge.InOrderAfter | src/kicad_mcp/utils/pcbnew_bridge.py:22 | Suppose a text holds the first word and the remaining words come in order after it. Then the words are in order in that text. |
| PcbnewBridge.AssertLinesAreSafe | src/kicad_mcp/utils/pcbnew_bridge.py:21-25 | Any line holding "assert", "IsOk" and "wxApp" in that order, in any letter case and with any text around them, is safe. |
| PcbnewBridge.OutOfOrderIsNotAssertLine | src/kicad_mcp/utils/pcbnew_bridge.py:22 | The words must come in order: "IsOk assert" is not the wxWidgets assertion line. |
| PcbnewBridge.KicadPython | src/kicad_mcp/utils/pcbnew_bridge.py:28-50 | The result is a candidate for the platform that is a file, and the first such candidate. None means no candidate is a file, and an unknown platform has none. On macOS the bundled python3.9 wins when it exists. |
| PcbnewBridge.KicadEnv | src/kicad_mcp/utils/pcbnew_bridge.py:53-66 | Off macOS the environment is copied unchanged. On macOS exactly PYTHONPATH and DYLD_FRAMEWORK_PATH are set (both inside the KiCad app) and every other variable keeps its value. |
| PcbnewBridge.KeptIffNotSafe | src/kicad_mcp/utils/pcbnew_bridge.py:74-77 | A line is kept exactly when it matches no safe pattern. Blank lines match one, so the emptiness test never decides on its own. |
| PcbnewBridge.KeptLinesExactly | src/kicad_mcp/utils/pcbnew_bridge.py:69-77 | The kept lines are exactly the lines that match no safe pattern, and there are no more of them than lines. |
| PcbnewBridge.FilterStderrLoop | src/kicad_mcp/utils/pcbnew_bridge.py:69-78 | The loop keeps the non-safe lines in their original order, joins them with "\n", and strips the result. |
| PcbnewBridge.FilterLines | src/kicad_mcp/utils/pcbnew_bridge.py:72-77 | The `for` loop appends to `filtered` exactly the kept lines, in their original order. |
| PcbnewBridge.KeepLine | src/kicad_mcp/utils/pcbnew_bridge.py:74-77 | A line is appended exactly when no safe pattern matches it and it is not blank. |
| PcbnewBridge.SafeLinesKeepNothing | src/kicad_mcp/utils/pcbnew_bridge.py:72-77 | Only safe lines: none is kept. |
| PcbnewBridge.SafeOutputFiltersToNothing | src/kicad_mcp/utils/pcbnew_bridge.py:69-78 | Standard error that holds only KiCad's harmless noise filters to the empty string. |
| PcbnewBridge.LastLine | src/kicad_mcp/utils/pcbnew_bridge.py:135-140 | The decoded line contains no line break and is the tail of the stripped output, right after its last line break when there is one, so stray prints before it are ignored. |
| PcbnewBridge.LastPiece | src/kicad_mcp/utils/pcbnew_bridge.py:140 | The text after the last line break has no line break and ends the text; it is either the whole text or preceded by a line break. |
| PcbnewBridge.LastLineIsTail | src/kicad_mcp/utils/pcbnew_bridge.py:140 | The last piece of a split ends the joined text, and when there are several pieces a line break comes right before it. |
| PcbnewBridge.RunResult | src/kicad_mcp/utils/pcbnew_bridge.py:81-157 | A missing interpreter is an error. A timeout gives "pcbnew script timed out after Ns". A non-zero exit is an error ending with the filtered stderr, and stdout is not parsed. A clean exit with blank output is the no-output error. A success comes only from a clean exit with non-blank output and is the decoding of its last line; conversely, such a run whose last line decodes is that success. |
| PcbnewBridge.DecoderOnlyOnSuccess | src/kicad_mcp/utils/pcbnew_bridge.py:123-141 | The result of a failed, timed-out or silent run does not depend on the JSON decoder. |
| Schematic.PointOf | src/kicad_mcp/tools/schematic.py:201-202 | A position is accepted exactly when it has two coordinates, and then it becomes the point (x, y). |
| Schematic.Assignment | src/kicad_mcp/tools/schematic.py:215 | The key of a piece split at its first "=" contains no "=". |
| Schematic.AssignmentOfPiece | src/kicad_mcp/tools/schematic.py:213-216 | A piece written from a stripped key without "=" and a stripped value parses back to that key and value. |
| Schematic.SplitOnJoin | src/kicad_mcp/tools/schematic.py:213 | Splitting joined pieces that do not contain the separator gives the pieces back. |
| Schematic.AssignmentsOfPieces | src/kicad_mcp/tools/schematic.py:213-216 | The pieces of written assignments parse back to those assignments, in order. |
| Schematic.PropertiesRoundTrip | src/kicad_mcp/tools/schematic.py:212-216 | Write a non-empty list of assignments as `k=v,k=v`, with keys free of "=" and ",", values free of ",", and both stripped. It parses back to exactly that list. |
| Schematic.Applied | src/kicad_mcp/tools/schematic.py:216 | The keys after the calls are the old keys plus every assigned key, and a key no call names keeps its old value. |
| Schematic.AppliedLastWins | src/kicad_mcp/tools/schematic.py:216 | A key ends with the value of the last assignment that names it. |
| Schematic.AppliedSnoc | src/kicad_mcp/tools/schematic.py:216 | One more `set_property` call overwrites exactly its key. |
| Schematic.SetProperties | src/kicad_mcp/tools/schematic.py:212-216 | The property loop applies every piece that contains "=", in order, split at its first "=" with both sides stripped. No string, or an empty one, sets nothing. |
| Schematic.CountLevel | src/kicad_mcp/tools/schematic.py:136-141 | A level count never exceeds the number of issues. |
| Schematic.CountIssues | src/kicad_mcp/tools/schematic.py:133-150 | `issues` is the number of issues. `errors` counts levels "error"/"critical", `warnings` counts "warning", and `details` is the first min(20, n) issues. |
| Schematic.LevelsPartition | src/kicad_mcp/tools/schematic.py:138-141 | Every issue counts as an error, as a warning, or as neither, exactly once. |
| Schematic.Get | src/kicad_mcp/tools/schematic.py:121 | A lookup finds a value exactly when the key is present. |
| Schematic.GetSnoc | src/kicad_mcp/tools/schematic.py:120-122 | Appending a key that is already present does not change lookups; appending a new key adds its lookup. |
| Schematic.MergedFacts | src/kicad_mcp/tools/schematic.py:112-123 | The base info is kept as a prefix and the keys are the union. Base keys keep their values, and every other key takes the summary's value. |
| Schematic.MergeSummary | src/kicad_mcp/tools/schematic.py:120-122 | The merge loop adds the summary keys that are absent from the base info. |
| Schematic.Criteria | src/kicad_mcp/tools/schematic.py:310-318 | There are no criteria exactly when no argument is given, and every criterion's value is non-empty. |
| Schematic.CriteriaMembers | src/kicad_mcp/tools/schematic.py:310-318 | A criterion is present exactly when its argument is given and non-empty, under its own name and with that value. |
| Schematic.CriteriaOrder | src/kicad_mcp/tools/schematic.py:310-318 | The criteria come in the order lib_id, value, reference, footprint. |
| Schematic.ShapeOf | src/kicad_mcp/tools/schematic.py:585-593 | The shape is looked up by the lower-cased name. An unknown name gives input. |
| Schematic.ShapeByUpperName | src/kicad_mcp/tools/schematic.py:593 | Every shape is found by its name written in capitals. |
| Schematic.SliceTo | src/kicad_mcp/tools/schematic.py:281 | `results[:limit]` is a prefix. It has min(limit, n) items for a non-negative limit, and a negative limit drops that many items from the end. |
| Schematic.SearchIndex.Rebuild | src/kicad_mcp/tools/schematic.py:274 | A rebuild leaves the index fresh. |
| Schematic.SearchIndex.constructor | src/kicad_mcp/tools/schematic.py:270-273 | The index starts with its staleness as given and no rebuilds. |
| Schematic.SearchComponents | src/kicad_mcp/tools/schematic.py:259-292 | Without the search library the error is returned and nothing is rebuilt. Otherwise a stale index is rebuilt exactly once and a fresh one never. The items are the first results, one per result in order, and there are exactly as many as `results[:limit]` holds. |
| Schematic.Session.constructor | src/kicad_mcp/tools/schematic.py:27-31 | The server starts with no schematic loaded. |
| Schematic.Session.Create | src/kicad_mcp/tools/schematic.py:58-69 | `create_schematic` loads a new, empty schematic with the given name. |
| Schematic.Session.Load | src/kicad_mcp/tools/schematic.py:72-84 | `load_schematic` makes the loaded schematic current and reports its component count. |
| Schematic.Session.Require | src/kicad_mcp/tools/schematic.py:27-31 | With no schematic loaded the result is exactly the "No schematic loaded…" error; otherwise it is the current schematic. |
| Schematic.Session.AddComponent | src/kicad_mcp/tools/schematic.py:182-225 | With no schematic, the error. A position that is not `[x, y]` returns its error before the schematic is touched. Otherwise a component with the given fields and the parsed properties is appended, and nothing else changes. |
| Schematic.Session.AddWire | src/kicad_mcp/tools/schematic.py:502-519 | The schematic check comes first, then both ends must be `[x, y]`. Then the wire is appended. |
| Schematic.Session.AddLabel | src/kicad_mcp/tools/schematic.py:539-604 | The schematic check, then the position check. Then the label is appended, with the looked-up shape for a hierarchical label. |
| Schematic.Session.AddJunction | src/kicad_mcp/tools/schematic.py:624-636 | The schematic check, then the position check. Then the junction is appended. |
| Schematic.Session.AddText | src/kicad_mcp/tools/schematic.py:643-662 | The schematic check, then the position check. Then the text is appended. |
| Schematic.Session.Info | src/kicad_mcp/tools/schematic.py:104-123 | With no schematic, the error. Otherwise the base counts merged with the summary, or with nothing when the summary fails. |
| Schematic.Session.Validate | src/kicad_mcp/tools/schematic.py:126-150 | With no schematic, the error. Otherwise the issue counts, the level counts and the first twenty details. |
| Schematic.Session.FilterCriteria | src/kicad_mcp/tools/schematic.py:295-321 | The schematic check comes first. With no criterion the result is "At least one filter criterion required". Otherwise the criteria are non-empty. |
| PcbSilkscreen.ModsArePresent | src/kicad_mcp/tools/pcb_silkscreen.py:181-201 | The statements are those of the slots that are set, in slot order. |
| PcbSilkscreen.BuildMods | src/kicad_mcp/tools/pcb_silkscreen.py:181-201 | The chain of `if`s builds the statement list of the specification. |
| PcbSilkscreen.PresentRanked | src/kicad_mcp/tools/pcb_silkscreen.py:181-201 | The statements of ranked slots are strictly increasing in rank, and none is present exactly when every slot is empty. |
| PcbSilkscreen.ModsInOrder | src/kicad_mcp/tools/pcb_silkscreen.py:181-204 | Statements come in the fixed order: visibility, position, relative position, size, thickness, angle, layer, each at most once. There are none exactly when no field is given, where a lone relative coordinate counts as none given. |
| PcbSilkscreen.PlacedByPositionSlots | src/kicad_mcp/tools/pcb_silkscreen.py:185-191 | Of the generated statements, only the absolute and the relative position statements move the text, each applied in its place in the order. |
| PcbSilkscreen.MoveOnlyByPosition | src/kicad_mcp/tools/pcb_silkscreen.py:185-191 | A statement other than a position statement leaves the text where it is. |
| PcbSilkscreen.PositionKept | src/kicad_mcp/tools/pcb_silkscreen.py:185-191 | With both relative coordinates the text ends at `SetFPRelativePosition`'s result for them. Otherwise it ends at (x if given, else the current x) and (y if given, else the current y); with both given, that is the one absolute set. |
| PcbSilkscreen.UpdateItem | src/kicad_mcp/tools/pcb_silkscreen.py:175-206 | A missing file is an error. A field other than "reference"/"value" is an error quoting the field. No modification is "No modifications specified". Otherwise the statements are the built list, which is non-empty. |
| PcbSilkscreen.OverlapSymmetric | src/kicad_mcp/tools/pcb_silkscreen.py:325-326 | The AABB test does not depend on the order of the boxes. |
| PcbSilkscreen.TouchingIsNotOverlap | src/kicad_mcp/tools/pcb_silkscreen.py:325-326 | The comparisons are strict: boxes that share only an edge do not overlap. |
| PcbSilkscreen.CollectFieldItems | src/kicad_mcp/tools/pcb_silkscreen.py:271-286 | A footprint's reference and value texts are checked only when visible and on a silkscreen layer, in that order. |
| PcbSilkscreen.CollectSilkItems | src/kicad_mcp/tools/pcb_silkscreen.py:268-303 | The silk items are the footprint fields, then the visible standalone silkscreen texts. |
| PcbSilkscreen.CollectPads | src/kicad_mcp/tools/pcb_silkscreen.py:306-317 | Every pad of every footprint, with its footprint's reference. |
| PcbSilkscreen.FindOverlaps | src/kicad_mcp/tools/pcb_silkscreen.py:320-334 | The nested loops report the overlap specification. |
| PcbSilkscreen.CheckOverlaps | src/kicad_mcp/tools/pcb_silkscreen.py:257-342 | A missing file is an error. Otherwise the counts of items and pads checked and the overlap list are reported. |
| PcbSilkscreen.HitsExactly | src/kicad_mcp/tools/pcb_silkscreen.py:322-334 | A text is reported against a pad exactly when the pad belongs to another component and the boxes overlap. |
| PcbSilkscreen.OverlapsExactly | src/kicad_mcp/tools/pcb_silkscreen.py:320-334 | A (text, pad) report is made exactly when the text is checked, the pad exists, it belongs to another component, and the boxes overlap. |
| PcbSilkscreen.OwnPadsNotReported | src/kicad_mcp/tools/pcb_silkscreen.py:323-324 | A text is never reported against its own component's pads. |
| PcbSilkscreen.FieldItemsFacts | src/kicad_mcp/tools/pcb_silkscreen.py:269-286 | A footprint gives at most two checked texts, each on a silkscreen layer under its reference. A visible reference on silkscreen is checked first, and a visible value on silkscreen last. |
| PcbSilkscreen.FootprintItemsMembers | src/kicad_mcp/tools/pcb_silkscreen.py:269-286 | The footprints' checked texts are exactly those of each footprint. |
| PcbSilkscreen.FootprintItemsFacts | src/kicad_mcp/tools/pcb_silkscreen.py:269-286 | Every footprint text checked is on a silkscreen layer and belongs to one of the footprints, and there are at most two per footprint. |
| PcbSilkscreen.DrawingItemsFacts | src/kicad_mcp/tools/pcb_silkscreen.py:289-303 | Every checked drawing is among the items, as a standalone silkscreen text with no component. There is at most one item per drawing, and none when no drawing qualifies. |
| PcbSilkscreen.HiddenFieldsSkipped | src/kicad_mcp/tools/pcb_silkscreen.py:272-275 | A hidden footprint text, or one off the silkscreen, is never checked. |

## Left out

- SQLite and FTS5 internals (tokenizer, `MATCH`, `ORDER BY rank`, table DDL and transactions): the engine is an abstract function from a query expression to ranked row ids, or a failure standing for `OperationalError`.
- File system, environment and platform (`os.scandir`, `stat`, `isdir`, `open`, `os.makedirs`, `os.environ`, `platform.system()`): directory listings, mtimes, file contents, existence tests and environment values are parameters.
- Clocks and floating point: build times and mtimes are whole seconds, and coordinates are integers in board units. `round(...)`, `time.monotonic` logging and the `float()` coordinate parsing of the netlist parser are not modelled. NetlistParser.ExtractNetlist therefore never takes the error path that a `float()` failing on a `[\d.-]+` capture would cause (src/kicad_mcp/utils/netlist_parser.py:177-181, turned into an error record at 397-405): it ensures no error for every readable file.
- LibraryPaths.JoinPath: models `os.path.join` only for a relative second part; an absolute second part, which discards the first, never occurs in the modelled callers.
- pcbnew execution: running a script, and every pcbnew call inside the generated scripts (board loading, bounding boxes, `FootprintLoad`, saving, zone reading in `extract_keepouts`), is not modelled. The decision logic runs over given records and rectangles.
- PcbKeepout: the choice among courtyard, pad and body boxes for a footprint's rectangle (src/kicad_mcp/tools/pcb_keepout.py:254-327) is pcbnew geometry; the audits take the chosen rectangles as input.
- pcb_keepout.py `get_board_constraints` (src/kicad_mcp/tools/pcb_keepout.py:45), pcb_nets.py `assign_pad_net`, and the body of the `bulk_assign_pad_nets` script: pcbnew scripts only; the bulk-assign guard is modelled.
- PcbKeepout: the human-readable `message` and `summary` strings of the keepout tools (src/kicad_mcp/tools/pcb_keepout.py:174-193, 367-377, 385-390 and 489) are not modelled; the entries, severities and counts they describe are.
- Bom.AnalyzeBom: the early "Project not found: <path>" return of `analyze_bom` (src/kicad_mcp/tools/bom.py:45-49) is not modelled; the model starts from the project's file list.
- PcbAutoroute: the steps of `autoroute_pcb` around the passes are not modelled. These are the checks before any pass runs (the "PCB file not found" guard, the FreeRouter JAR and Java runtime not-found errors and the DSN export, src/kicad_mcp/tools/pcb_autoroute.py:99-177) and the SES import after the best pass (275-280); the model covers the JAR lookup, the passes and the choice of the best pass.
- kicad-cli and the other subprocesses (FreeRouter/java, the netlist export): their exit codes, outputs and timeouts are parameters.
- Bom: the CSV, XML and JSON readers, pandas `value_counts` ordering, and quantity and cost parsing are library behaviour. Per-file analyses are inputs to the aggregation.
- ComponentUtils: the float value parsers and formatters (`extract_resistance`, `extract_capacitance`, `extract_inductance`, `extract_frequency_value`, `format_*`), the decimal voltage patterns, and the non-78xx/79xx fallbacks of `extract_voltage_from_regulator` work on floating point and are not modelled.
- Schematic: the kicad-sch-api library (its search, filter, validation, saving and summary) is a parameter or an input. The listing, pin, removal, text-box, sheet and sheet-pin tools only forward to it.
- NetlistParser: wires, labels, junctions, no-connects and power-symbol extraction are read by regexes over coordinates in floating point. Their results (global-label texts, power types) are inputs to the net table.
- PcbSilkscreen: `SetFPRelativePosition`'s mapping from footprint-relative to board coordinates is the parameter `rel`; text bounding boxes and layer names come from pcbnew. Statements are a datatype, not generated Python text.
- Unicode: upper- and lower-casing, `\d` and `IGNORECASE` are ASCII-only. Python's `repr` of a string is modelled as single quotes around the text, without escaping.
- Logging, MCP tool registration, async progress reporting and the process-wide singletons: the singletons are explicit objects passed to the operations.

## Findings

| source | as written | input that shows it | evidently intended | confidence | as-written member | corrected member |
|---|---|---|---|---|---|---|
| src/kicad_mcp/utils/component_utils.py:18-26 | A `79xx` regulator reads as a positive voltage: the series match keeps only the digits. | "LM7912" reads "12V", while the module's own table at line 55 gives "-12V". | 79xx parts are negative regulators and read "-vV". | not executed | ComponentUtils.NegativeSeriesLosesSign | ComponentUtils.SignedSeriesVoltage |
| src/kicad_mcp/tools/bom.py:516-524 | An input category whose name is already a descriptive name overwrites the count that a prefix mapped onto that name. | `{"R": 3, "Resistors": 2}` gives `{"Resistors": 2}`. | The counts add up: `{"Resistors": 5}`. | not executed | Bom.AsWrittenLosesCounts | Bom.MapCategoriesTotal |
