/** The plugin's content classifier: while the host walks a mod's files, each
    file adds content tags chosen by its extension, and for some tags by its
    name or its path. */
module ModDataContent {
  import opened Strings
  import opened FileTree

  /** The content kinds, with the integer codes they carry for the host. */
  datatype Content = Interface | Texture | Mesh | Script | Sound | Mcm | Config

  function Code(c: Content): (n: nat)
    ensures n < 7
  {
    match c
    case Interface => 0
    case Texture => 1
    case Mesh => 2
    case Script => 3
    case Sound => 4
    case Mcm => 5
    case Config => 6
  }

  /** Distinct kinds have distinct codes. */
  lemma CodeInjective(a: Content, b: Content)
    requires Code(a) == Code(b)
    ensures a == b
  {
  }

  /** A kind as the host displays it: code, title and icon resource. */
  datatype ContentInfo = ContentInfo(id: Content, title: string, icon: string)

  /** `getAllContents`: one description per kind, listed in code order, so
      every kind appears exactly once. */
  function AllContents(): (r: seq<ContentInfo>)
    ensures |r| == 7
    ensures forall i :: 0 <= i < |r| ==> Code(r[i].id) == i
  {
    [ ContentInfo(Interface, "Interface", ":/MO/gui/content/interface"),
      ContentInfo(Texture, "Textures", ":/MO/gui/content/texture"),
      ContentInfo(Mesh, "Meshes", ":/MO/gui/content/mesh"),
      ContentInfo(Script, "Scripts", ":/MO/gui/content/script"),
      ContentInfo(Sound, "Sounds", ":/MO/gui/content/sound"),
      ContentInfo(Mcm, "MCM", ":/MO/gui/content/menu"),
      ContentInfo(Config, "Configs", ":/MO/gui/content/inifile") ]
  }

  /** What `walkContent` adds for the entry `e` found under `path`. */
  function Classify(path: string, e: Entry): (r: seq<Content>)
    ensures |r| <= 2
    ensures r != [] ==> e.File? && r[0] != Interface && r[0] != Mcm
    ensures |r| == 2 ==> ((r[1] == Interface && (r[0] == Texture || r[0] == Config)) ||
                          (r[1] == Mcm && r[0] == Script))
  {
    if e.Dir? then []
    else
      var name := Lower(e.name);
      var ext := Lower(e.suffix);
      if ext in ["dds", "thm"] then
        [Texture] + (if StartsWith(path, "gamedata/textures/ui") then [Interface] else [])
      else if ext in ["omf", "ogf"] then
        [Mesh]
      else if ext in ["script"] then
        [Script] + (if Contains(name, "_mcm") then [Mcm] else [])
      else if ext in ["ogg"] then
        [Sound]
      else if ext in ["ltx", "xml"] then
        [Config] + (if StartsWith(path, "gamedata/configs/ui") then [Interface] else [])
      else
        []
  }

  /** The tag table, one kind at a time: which entries carry each kind. The
      extension and the name are compared lower-cased, the path as given. */
  lemma ClassifyTags(path: string, e: Entry)
    ensures var ext := if e.File? then Lower(e.suffix) else ""; var r := Classify(path, e);
      && (Texture in r <==> e.File? && ext in ["dds", "thm"])
      && (Mesh in r <==> e.File? && ext in ["omf", "ogf"])
      && (Script in r <==> e.File? && ext == "script")
      && (Sound in r <==> e.File? && ext == "ogg")
      && (Config in r <==> e.File? && ext in ["ltx", "xml"])
      && (Mcm in r <==> e.File? && ext == "script" && Contains(Lower(e.name), "_mcm"))
      && (Interface in r <==>
            (e.File? &&
             ((ext in ["dds", "thm"] && StartsWith(path, "gamedata/textures/ui")) ||
              (ext in ["ltx", "xml"] && StartsWith(path, "gamedata/configs/ui")))))
  {
  }

  /** All tags for a walk, in walk order. */
  function ContentsOf(walk: seq<(string, Entry)>): seq<Content>
  {
    if walk == [] then []
    else ContentsOf(walk[..|walk| - 1]) + Classify(walk[|walk| - 1].0, walk[|walk| - 1].1)
  }

  /** Each walked entry adds at most two tags. */
  lemma {:induction false} ContentsBound(walk: seq<(string, Entry)>)
    ensures |ContentsOf(walk)| <= 2 * |walk|
  {
    if walk != [] {
      ContentsBound(walk[..|walk| - 1]);
    }
  }

  /** A kind is reported exactly when some walked entry carries it. */
  lemma {:induction false} ContentsMembers(walk: seq<(string, Entry)>, c: Content)
    ensures c in ContentsOf(walk) <==> exists i :: 0 <= i < |walk| && c in Classify(walk[i].0, walk[i].1)
  {
    if walk != [] {
      var init := walk[..|walk| - 1];
      ContentsMembers(init, c);
      if c in ContentsOf(init) {
        var i :| 0 <= i < |init| && c in Classify(init[i].0, init[i].1);
        assert walk[i] == init[i];
      }
      if exists i :: 0 <= i < |walk| && c in Classify(walk[i].0, walk[i].1) {
        var i :| 0 <= i < |walk| && c in Classify(walk[i].0, walk[i].1);
        if i < |init| {
          assert walk[i] == init[i];
        }
      }
    }
  }

  /** INTERFACE only ever comes right after TEXTURE or CONFIG, and MCM only
      right after SCRIPT; so neither comes first. */
  predicate WellPaired(r: seq<Content>)
  {
    forall k :: 0 <= k < |r| ==> PairedAt(r, k)
  }

  predicate PairedAt(r: seq<Content>, k: nat)
    requires k < |r|
  {
    && (r[k] == Interface ==> 0 < k && (r[k - 1] == Texture || r[k - 1] == Config))
    && (r[k] == Mcm ==> 0 < k && r[k - 1] == Script)
  }

  /** Joining two well-paired lists keeps them well paired. */
  lemma PairedConcat(a: seq<Content>, b: seq<Content>)
    requires WellPaired(a) && WellPaired(b)
    ensures WellPaired(a + b)
  {
    var r := a + b;
    forall k | 0 <= k < |r|
      ensures PairedAt(r, k)
    {
      if k < |a| {
        assert r[k] == a[k];
        assert PairedAt(a, k);
        if k > 0 {
          assert r[k - 1] == a[k - 1];
        }
      } else {
        var j := k - |a|;
        assert r[k] == b[j];
        assert PairedAt(b, j);
        if j > 0 {
          assert r[k - 1] == b[j - 1];
        }
      }
    }
  }

  /** In the whole tag list, INTERFACE only ever comes right after TEXTURE or
      CONFIG, and MCM only right after SCRIPT. That the two tags of such a
      pair come from the same entry follows from `Classify`'s contract (an
      entry's tags never start with INTERFACE or MCM) and from `WalkContent`
      appending one entry's tags at a time. */
  lemma {:induction false} ContentsPairing(walk: seq<(string, Entry)>)
    ensures WellPaired(ContentsOf(walk))
  {
    if walk != [] {
      var init := walk[..|walk| - 1];
      ContentsPairing(init);
      var b := Classify(walk[|walk| - 1].0, walk[|walk| - 1].1);
      assert WellPaired(b);
      PairedConcat(ContentsOf(init), b);
    }
  }

  datatype WalkReturn = Continue | Stop | Skip

  /** The plugin's classifier object, with the tag list it fills during a
      walk. */
  class Classifier {
    var content: seq<Content>

    constructor ()
      ensures content == []
    {
      content := [];
    }

    /** `walkContent`: appends the entry's tags and always lets the walk
        go on. */
    method WalkContent(path: string, e: Entry) returns (w: WalkReturn)
      modifies this
      ensures w == Continue
      ensures content == old(content) + Classify(path, e)
    {
      var name := Lower(e.name);
      if e.File? {
        var ext := Lower(e.suffix);
        if ext in ["dds", "thm"] {
          content := content + [Texture];
          if StartsWith(path, "gamedata/textures/ui") {
            content := content + [Interface];
          }
        } else if ext in ["omf", "ogf"] {
          content := content + [Mesh];
        } else if ext in ["script"] {
          content := content + [Script];
          if Contains(name, "_mcm") {
            content := content + [Mcm];
          }
        } else if ext in ["ogg"] {
          content := content + [Sound];
        } else if ext in ["ltx", "xml"] {
          content := content + [Config];
          if StartsWith(path, "gamedata/configs/ui") {
            content := content + [Interface];
          }
        }
      }
      return Continue;
    }

    /** `getContentsFor`: clears the list, lets the host's walk call
        `walkContent` for every entry in turn, and returns the list; what was
        in the list before does not matter. */
    method GetContentsFor(walk: seq<(string, Entry)>) returns (r: seq<Content>)
      modifies this
      ensures r == content == ContentsOf(walk)
    {
      content := [];
      for i := 0 to |walk|
        invariant content == ContentsOf(walk[..i])
      {
        assert walk[..i + 1][..i] == walk[..i];
        var _ := WalkContent(walk[i].0, walk[i].1);
      }
      assert walk[..|walk|] == walk;
      return content;
    }
  }

  /** Asking twice about the same tree gives the same answer, whatever the
      classifier held before. */
  method GetContentsTwice(c: Classifier, walk: seq<(string, Entry)>) returns (first: seq<Content>, second: seq<Content>)
    modifies c
    ensures first == second == ContentsOf(walk)
  {
    first := c.GetContentsFor(walk);
    second := c.GetContentsFor(walk);
  }
}
