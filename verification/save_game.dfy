/** A saved game and its companion files: the `.scop` save may come with a
    `.scoc` file and a `.dds` screenshot of the same name. */
module SaveGame {
  import opened Strings

  const SaveExtension: string := ".scop"

  /** The companion path with extension `ext`: every ".scop" in the save's
      path becomes `ext`. */
  function Sibling(savePath: string, ext: string): string
  {
    ReplaceAll(savePath, SaveExtension, ext)
  }

  /** For a save `stem.scop` with no other ".scop" in its path, the
      companions are `stem.scoc` and `stem.dds`. */
  lemma SiblingsOfSave(stem: string)
    requires forall i: nat :: i < |stem| ==> !OccursAt(stem + SaveExtension, SaveExtension, i)
    ensures Sibling(stem + SaveExtension, ".scoc") == stem + ".scoc"
    ensures Sibling(stem + SaveExtension, ".dds") == stem + ".dds"
  {
    ReplaceAllAtEnd(stem, SaveExtension, ".scoc");
    ReplaceAllAtEnd(stem, SaveExtension, ".dds");
  }

  /** `allFiles`: the save first, then its `.scoc` companion and then its
      `.dds` companion, each only if it exists. `existing` is the set of paths
      present on disk. A path without ".scop" (an upper-case ".SCOP", say) is
      its own companion twice over, so an existing save of that kind is
      listed three times. */
  method AllFiles(savePath: string, existing: set<string>) returns (paths: seq<string>)
    ensures 1 <= |paths| <= 3 && paths[0] == savePath
    ensures |paths| == 1 + (if Sibling(savePath, ".scoc") in existing then 1 else 0)
                         + (if Sibling(savePath, ".dds") in existing then 1 else 0)
    ensures forall i :: 1 <= i < |paths| ==> paths[i] in existing
    ensures Sibling(savePath, ".scoc") in existing ==> paths[1] == Sibling(savePath, ".scoc")
    ensures Sibling(savePath, ".dds") in existing ==> paths[|paths| - 1] == Sibling(savePath, ".dds")
    ensures !Contains(savePath, SaveExtension) ==> forall i :: 0 <= i < |paths| ==> paths[i] == savePath
  {
    paths := [savePath];
    var scoc := ReplaceAll(savePath, SaveExtension, ".scoc");
    if scoc in existing {
      paths := paths + [scoc];
    }
    var dds := ReplaceAll(savePath, SaveExtension, ".dds");
    if dds in existing {
      paths := paths + [dds];
    }
    if !Contains(savePath, SaveExtension) {
      ReplaceAllAbsent(savePath, SaveExtension, ".scoc");
      ReplaceAllAbsent(savePath, SaveExtension, ".dds");
    }
  }
}
