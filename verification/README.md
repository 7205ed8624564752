# STALKER Anomaly game plugin: mod layout checker, content classifier, save companions

This project models the logic of the STALKER Anomaly plugin for a mod manager
(`games/game_stalkeranomaly.py`). The plugin gives the host application three
things that can be stated and proved:

- **The mod data checker.** It looks at the top level of a mod archive. The
  mod is VALID when it has one of the directories `appdata`, `bin`, `db` or
  `gamedata`. It is FIXABLE when it has loose game archives, meaning files
  whose extension starts with `db`. Otherwise it is INVALID. The fix moves
  the loose archives into `db/mods`.
- **The content classifier.** The host walks the mod's files, and each file
  adds content tags (texture, mesh, script, sound, config, interface, MCM).
  The tag depends on the lower-cased extension. Some tags also depend on the
  lower-cased file name or on the path.
- **The companion files of a save.** A `.scop` save may come with a `.scoc`
  file and a `.dds` screenshot. Their paths are made by string replacement,
  and each is listed only if it exists.

Modules:

- `Strings` (strings.dfy): the string operations the plugin uses. These are
  lower-casing, `startswith`, substring containment and `str.replace`.
- `FileTree` (file_tree.dfy): the host's virtual file tree as values.
  - An entry is a file (its name and extension) or a directory (its name and
    its entries).
  - `addDirectory` and `insert` under the REPLACE policy are functions.
  - `Tree` is the host's tree object, whose top level `fix` changes in place.
- `ModDataChecker` (mod_data_checker.dfy):
  - the loops `hasValidFolders` and `findLostData` become methods, each proved
    against a declarative predicate or function;
  - `dataLooksValid` is a method;
  - `fix` is a method on the tree, proved equal to the function `Fixed`, and
    the properties of the repair are lemmas about `Fixed`.
- `ModDataContent` (mod_data_content.dfy):
  - the per-entry rule table is the function `Classify`;
  - the classifier object, with its `content` list, is the class `Classifier`,
    whose `WalkContent` appends and whose `GetContentsFor` resets, then walks;
  - `ContentsOf` is the tag list of a whole walk, and the lemmas are about it.
- `SaveGame` (save_game.dfy): `allFiles`, with the set of existing paths as a
  parameter.

Host behaviour that the plugin relies on, and how it is modelled:

- **Names.** Names in a directory are compared case-insensitively. The host
  keeps them unique in each directory (`UniqueNames`).
- **`addDirectory(name)`.** It returns the existing directory of that name,
  or creates an empty one. It returns nothing when a file holds the name. In
  the source, `fix` then raises, before anything has changed. `Fix` returns
  `ok == false` in that case and leaves the tree unchanged. A mod that
  `dataLooksValid` calls FIXABLE can still make `fix` raise: when a file at
  the top level is called `db` (`FixableFixFails`).
- **`insert(entry, REPLACE)`.** It removes every same-named entry of the
  target directory and adds the entry there. It also takes the entry off its
  previous parent.
  - `Fix` collects the `db/mods` contents in a local. The source keeps the
    same contents in its `rfolder` object.
  - `Fix` removes the moved archives from the top level at the end. The
    source removes each one as it is inserted. No caller can observe the
    difference.
- **Extensions.** The host works out the extension (`suffix()`), so it is a
  field of a file entry.
- **Walking.** The host's `walk` hands the classifier a sequence of
  `(path, entry)` pairs, in walk order. It always continues, because
  `walkContent` always returns CONTINUE.

## Model

| member | source | states |
|---|---|---|
| `ModDataChecker.HasValidFolders` | games/game_stalkeranomaly.py:40-53 | true iff some top-level entry is a directory whose lower-cased name is appdata, bin, db or gamedata; files with those names do not count |
| `ModDataChecker.FindLostData` | games/game_stalkeranomaly.py:55-63 | returns `LostData(top)`: the top-level files whose lower-cased extension starts with "db", in iteration order |
| `ModDataChecker.LostDataMembers` | games/game_stalkeranomaly.py:55-63 | an entry is among the lost data iff it is a top-level file with a `db*` extension; directories never are; the list is no longer than the top level |
| `ModDataChecker.LostDataAppend` | games/game_stalkeranomaly.py:58-61 | the lost data keeps iteration order: that of a concatenation is the lost data of each part, one after the other |
| `ModDataChecker.LostDataNone` | games/game_stalkeranomaly.py:58-63 | a top level with no loose archive yields an empty list |
| `ModDataChecker.DataLooksValid` | games/game_stalkeranomaly.py:65-74 | VALID iff a valid folder exists, even when loose `db*` files are present too; otherwise FIXABLE iff there are loose archives; otherwise INVALID |
| `ModDataChecker.KeepUnlost` | games/game_stalkeranomaly.py:80-81 | the top level left after the archives are moved away: exactly the entries that are not loose archives |
| `ModDataChecker.Fixed` | games/game_stalkeranomaly.py:76-83 | without loose archives the tree comes back unchanged; the repair can fail only when there are loose archives |
| `ModDataChecker.FixedFails` | games/game_stalkeranomaly.py:79 | the repair fails only when a top-level file is called `db`, or the `db` directory holds a file called `mods` |
| `ModDataChecker.FixedIsValid` | games/game_stalkeranomaly.py:76-83 | after a repair that moved something, the tree has a `db` directory, so it is VALID, and no loose archive is left at the top level |
| `ModDataChecker.FixedIdempotent` | games/game_stalkeranomaly.py:76-83 | repairing a repaired tree changes nothing |
| `ModDataChecker.FixedDbMods` | games/game_stalkeranomaly.py:79-81 | after a repair, the host resolves `db/mods` to what it held before (nothing if it was missing), with every loose archive inserted in iteration order under REPLACE; the `InsertAll` lemmas then say what survives |
| `ModDataChecker.ModsBeforeFound` | games/game_stalkeranomaly.py:79 | the `mods` directory `addDirectory("db").addDirectory("mods")` gives is the existing `db/mods`, or a new empty one |
| `ModDataChecker.RelocateDbMods` | games/game_stalkeranomaly.py:80-81 | once the archives are in `mods` and gone from the top level, the host still finds that `db/mods` first |
| `ModDataChecker.FindFirst` | games/game_stalkeranomaly.py:79 | the host's lookup finds the first entry with the name |
| `ModDataChecker.KeepUnlostFind` | games/game_stalkeranomaly.py:80-81 | taking the loose archives off the top level keeps the `db` directory the first entry of that name |
| `ModDataChecker.FixedMovesLostFile` | games/game_stalkeranomaly.py:79-81 | with the host's unique names, every loose archive ends up in `db/mods` |
| `ModDataChecker.FixedKeepsOthers` | games/game_stalkeranomaly.py:76-83 | every top-level entry other than `db` and the loose archives is still there after the repair |
| `ModDataChecker.FixedOnlyAddsDb` | games/game_stalkeranomaly.py:76-83 | after a repair, every top-level entry was there before and is not a loose archive, or is the `db` directory: nothing else appears |
| `ModDataChecker.FixedKeepsDbOthers` | games/game_stalkeranomaly.py:79-81 | every entry of an existing `db` directory other than `mods` is still in `db` after the repair |
| `ModDataChecker.FixableFixFails` | games/game_stalkeranomaly.py:65-83 | for a FIXABLE mod (loose archives, no marking directory), the repair fails iff a top-level file is called `db`: then `addDirectory("db")` gives nothing and the original's `fix` raises |
| `ModDataChecker.RelocateDb` | games/game_stalkeranomaly.py:79-81 | after the relocation, the host's `db` holds its old entries with only `mods` updated |
| `ModDataChecker.LostDataUnique` | games/game_stalkeranomaly.py:58-61 | with unique top-level names, the loose archives have pairwise distinct names |
| `ModDataChecker.InsertEach` | games/game_stalkeranomaly.py:80-81 | the loop of `fix` leaves in `db/mods` what inserting each loose archive in order, with REPLACE, gives (`InsertAll`) |
| `ModDataChecker.Fix` | games/game_stalkeranomaly.py:76-83 | changes the tree in place to the state `Fixed` describes, or leaves it unchanged and reports failure where the source raises |
| `FileTree.FindName` | games/game_stalkeranomaly.py:79 | the host's lookup by name: the first entry with that name ignoring case, or none at all |
| `FileTree.AddDirectory` | games/game_stalkeranomaly.py:79 | `addDirectory` gives a directory of that name. It reuses an existing one or appends a new empty one, and changes nothing else. It fails only when a file holds the name |
| `FileTree.Without` | games/game_stalkeranomaly.py:81 | drops exactly the entries with the given name |
| `FileTree.InsertReplace` | games/game_stalkeranomaly.py:81 | after `insert(e, REPLACE)`, `e` is present; every other entry remains iff it does not share `e`'s name |
| `FileTree.InsertAllKeeps` | games/game_stalkeranomaly.py:80-81 | an entry of `db/mods` that no moved archive names survives the moves |
| `FileTree.InsertAllFrom` | games/game_stalkeranomaly.py:80-81 | each entry of `db/mods` afterwards was either moved in, or was there before and clashes with nothing moved in |
| `FileTree.InsertAllLast` | games/game_stalkeranomaly.py:80-81 | a moved archive whose name no later archive reuses is in `db/mods` afterwards |
| `FileTree.Tree.constructor` | games/game_stalkeranomaly.py:76 | the tree object holds the given top level |
| `ModDataContent.Code` | games/game_stalkeranomaly.py:86-93 | every content kind has an integer code below 7 |
| `ModDataContent.CodeInjective` | games/game_stalkeranomaly.py:86-93 | distinct kinds have distinct codes |
| `ModDataContent.AllContents` | games/game_stalkeranomaly.py:99-120 | seven descriptions, the i-th for the kind with code i, so every kind is listed exactly once |
| `ModDataContent.Classify` | games/game_stalkeranomaly.py:122-145 | an entry gets at most two tags, and directories get none. The first tag is never INTERFACE or MCM. A second tag is INTERFACE after TEXTURE or CONFIG, or MCM after SCRIPT |
| `ModDataContent.ClassifyTags` | games/game_stalkeranomaly.py:125-143 | for each kind, exactly which files carry it. TEXTURE: dds/thm. MESH: omf/ogf. SCRIPT: script. SOUND: ogg. CONFIG: ltx/xml. MCM: script with `_mcm` in the lower-cased name. INTERFACE: dds/thm under `gamedata/textures/ui` or ltx/xml under `gamedata/configs/ui`. The extension is lower-cased; the path test is case-sensitive |
| `ModDataContent.ContentsBound` | games/game_stalkeranomaly.py:126-143 | a walk of n entries yields at most 2n tags |
| `ModDataContent.ContentsMembers` | games/game_stalkeranomaly.py:147-150 | a kind is reported iff some walked entry carries it |
| `ModDataContent.PairedConcat` | games/game_stalkeranomaly.py:147-150 | appending the tags of one more entry keeps the list well paired |
| `ModDataContent.ContentsPairing` | games/game_stalkeranomaly.py:128-143 | in the whole list, INTERFACE only ever comes right after TEXTURE or CONFIG, MCM only right after SCRIPT, and neither comes first |
| `ModDataContent.Classifier.constructor` | games/game_stalkeranomaly.py:97 | a new classifier starts with an empty list |
| `ModDataContent.Classifier.WalkContent` | games/game_stalkeranomaly.py:122-145 | appends exactly the entry's tags to the list and always returns CONTINUE |
| `ModDataContent.Classifier.GetContentsFor` | games/game_stalkeranomaly.py:147-150 | returns the tags of the whole walk, in walk order, whatever the list held before, and leaves that list in the object |
| `ModDataContent.GetContentsTwice` | games/game_stalkeranomaly.py:147-150 | asking twice about the same tree gives the same list |
| `SaveGame.AllFiles` | games/game_stalkeranomaly.py:172-181 | the save path comes first. Then comes the `.scoc` companion, then the `.dds` companion, each iff it exists, so there are 1 to 3 paths. A path without ".scop" is its own companion |
| `SaveGame.SiblingsOfSave` | games/game_stalkeranomaly.py:175-178 | for a save `stem.scop` with no other ".scop" in its path, the companions are `stem.scoc` and `stem.dds` |
| `Strings.ReplaceAllAbsent` | games/game_stalkeranomaly.py:175-178 | `str.replace` changes nothing when the pattern does not occur |
| `Strings.ReplaceAllAtEnd` | games/game_stalkeranomaly.py:175-178 | `str.replace` on a path whose only occurrence of the pattern is at its end swaps that ending and keeps the stem |
| `Strings.Lower` | games/game_stalkeranomaly.py:50 | `lower()` keeps the length and leaves no upper-case letter |
| `Strings.LowerOfLowered` | games/game_stalkeranomaly.py:50 | a name without upper-case letters is its own lower-case form |

## Left out

- Lower-casing covers only the ASCII letters. Python's `str.lower` also maps
  other Unicode letters. The host's case-insensitive name comparison is
  modelled with the same ASCII lower-casing.
- The host's `IFileTree` is not part of this model. These host behaviours are
  modelled as described above, not derived:
  - how `suffix()` is worked out;
  - `addDirectory` failing on a file;
  - `insert` moving an entry;
  - the order and paths of `walk`.
- Where `Fix` puts a newly created `db` directory among the top-level
  entries, and where `insert` puts an entry, is a choice of this model: the
  end. The host keeps its own order.
- `StalkerAnomalySaveGame.getName` and the XRSave save-file reader are left
  out. The reader (`games/stalkeranomaly`) is not part of this model.
- `StalkerAnomalySaveGameInfoWidget` and `StalkerAnomalySaveGameInfo` are
  left out. They are GUI layout and label text, including float formatting of
  the health value.
- These are filesystem operations whose effect lies in the operating system,
  not in the plugin, so they are left out:
  - `move_file` and `copy_file`;
  - `StalkerAnomalyLocalSavegames.mappings` and `prepareProfile`;
  - `aboutToRun`;
  - `create_appdata_content`;
  - the `_organizer_*` and `_game_*` event handlers.
- `executables`, `mappings`, `listSaves`, `init`, `initializeProfile` and
  `_register_event_handler` are left out. They register fixed values with the
  host, or list files by glob.
- `games/game_witcher3.py` is left out. It holds configuration constants and
  a single host call.
- Whether a path exists is given to `AllFiles` as a set of paths. The
  filesystem is not modelled.
- In the source, `content` is a class attribute that every classifier shares
  until `getContentsFor` rebinds it on the instance. Each `Classifier` here
  has its own list. Through `getContentsFor` no caller can tell the
  difference, since it resets the list first.
- `getContentsFor` returns the integer values of the IntEnum. The model
  returns the kinds, and `Code` maps each kind to its integer.
