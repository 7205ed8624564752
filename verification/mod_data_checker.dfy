/** The plugin's mod-layout checker: is the top level of a mod archive laid
    out for the game (VALID), can it be repaired (FIXABLE), or neither
    (INVALID); and the repair, which moves loose `db*` archives under
    `db/mods`. */
module ModDataChecker {
  import opened Strings
  import opened FileTree

  /** Top-level directories that mark a mod laid out for the game. */
  const ValidFolders: seq<string> := ["appdata", "bin", "db", "gamedata"]

  datatype CheckReturn = Invalid | Fixable | Valid

  predicate IsValidFolder(e: Entry)
  {
    e.Dir? && Lower(e.name) in ValidFolders
  }

  predicate HasValidFolder(top: seq<Entry>)
  {
    exists i :: 0 <= i < |top| && IsValidFolder(top[i])
  }

  /** A loose game archive: a file whose extension starts with "db". */
  predicate IsLost(e: Entry)
  {
    e.File? && StartsWith(Lower(e.suffix), "db")
  }

  /** The loose archives of `top`, in iteration order. */
  function LostData(top: seq<Entry>): seq<Entry>
  {
    if top == [] then []
    else LostData(top[..|top| - 1]) + (if IsLost(top[|top| - 1]) then [top[|top| - 1]] else [])
  }

  /** The entries of `top` that are not loose archives, in their order. */
  function KeepUnlost(top: seq<Entry>): (r: seq<Entry>)
    ensures forall x :: x in r <==> x in top && !IsLost(x)
  {
    if top == [] then []
    else (if IsLost(top[0]) then [] else [top[0]]) + KeepUnlost(top[1..])
  }

  /** LostData keeps iteration order: the loose archives of a concatenation
      are those of each part, one after the other. */
  lemma {:induction false} LostDataAppend(a: seq<Entry>, b: seq<Entry>)
    ensures LostData(a + b) == LostData(a) + LostData(b)
    decreases |b|
  {
    if b == [] {
      assert a + b == a;
    } else {
      var b' := b[..|b| - 1];
      assert (a + b)[..|a + b| - 1] == a + b';
      assert (a + b)[|a + b| - 1] == b[|b| - 1];
      LostDataAppend(a, b');
    }
  }

  /** LostData holds exactly the loose archives of the top level. */
  lemma {:induction false} LostDataMembers(top: seq<Entry>)
    ensures |LostData(top)| <= |top|
    ensures forall x :: x in LostData(top) <==> x in top && IsLost(x)
  {
    if top != [] {
      var init := top[..|top| - 1];
      LostDataMembers(init);
      assert top == init + [top[|top| - 1]];
    }
  }

  /** A top level without loose archives has nothing to repair. */
  lemma {:induction false} LostDataNone(top: seq<Entry>)
    requires forall x :: x in top ==> !IsLost(x)
    ensures LostData(top) == []
  {
    if top != [] {
      var init := top[..|top| - 1];
      assert forall x :: x in init ==> x in top;
      assert top[|top| - 1] in top;
      LostDataNone(init);
    }
  }

  /** `hasValidFolders`: scans the top level and stops at the first directory
      with one of the marking names; files with those names do not count. */
  method HasValidFolders(top: seq<Entry>) returns (found: bool)
    ensures found <==> HasValidFolder(top)
  {
    for i := 0 to |top|
      invariant forall j :: 0 <= j < i ==> !IsValidFolder(top[j])
    {
      if top[i].Dir? {
        if Lower(top[i].name) in ValidFolders {
          return true;
        }
      }
    }
    return false;
  }

  /** `findLostData`: collects the loose archives in iteration order. */
  method FindLostData(top: seq<Entry>) returns (lost: seq<Entry>)
    ensures lost == LostData(top)
  {
    lost := [];
    for i := 0 to |top|
      invariant lost == LostData(top[..i])
    {
      assert top[..i + 1][..i] == top[..i];
      if top[i].File? {
        if StartsWith(Lower(top[i].suffix), "db") {
          lost := lost + [top[i]];
        }
      }
    }
    assert top[..|top|] == top;
  }

  /** `dataLooksValid`: a marking directory makes the mod VALID even when
      loose archives are present too; otherwise loose archives make it
      FIXABLE; otherwise it is INVALID. */
  method DataLooksValid(top: seq<Entry>) returns (r: CheckReturn)
    ensures r == Valid <==> HasValidFolder(top)
    ensures r == Fixable <==> !HasValidFolder(top) && LostData(top) != []
    ensures r == Invalid <==> !HasValidFolder(top) && LostData(top) == []
  {
    var valid := HasValidFolders(top);
    if valid {
      return Valid;
    }
    var lost := FindLostData(top);
    if lost != [] {
      return Fixable;
    }
    return Invalid;
  }

  /** The top level after `fix`, or None when the host cannot give a `db/mods`
      directory because a file holds one of those names (the repair then
      raises before changing anything). Every loose archive moves into
      `db/mods`, replacing a same-named entry there. */
  function Fixed(top: seq<Entry>): (r: Option<seq<Entry>>)
    ensures LostData(top) == [] ==> r == Some(top)
    ensures r.None? ==> LostData(top) != []
  {
    var lost := LostData(top);
    if lost == [] then Some(top)
    else match AddDirectory(top, "db")
      case None => None
      case Some((top1, d)) =>
        match AddDirectory(top1[d].children, "mods")
        case None => None
        case Some((kids, m)) =>
          Some(Relocate(top1, d, kids, m, InsertAll(kids[m].children, lost)))
  }

  /** The top level `top1` once `db` (at `d`) holds `kids`, whose `mods` (at
      `m`) now holds `moved`, and the loose archives have left the top level. */
  function Relocate(top1: seq<Entry>, d: nat, kids: seq<Entry>, m: nat, moved: seq<Entry>): seq<Entry>
    requires d < |top1| && m < |kids|
  {
    KeepUnlost(top1[d := Dir(top1[d].name, kids[m := Dir(kids[m].name, moved)])])
  }

  /** The entries of `db/mods` as the host resolves that path in `top`: the
      first entry called `db`, then its first entry called `mods`; None when
      either is missing or is a file. */
  function DbModsOf(top: seq<Entry>): Option<seq<Entry>>
  {
    match FindName(top, "db")
    case None => None
    case Some(d) =>
      if top[d].File? then None
      else match FindName(top[d].children, "mods")
        case None => None
        case Some(m) =>
          if top[d].children[m].File? then None else Some(top[d].children[m].children)
  }

  /** What `db/mods` holds before the repair: nothing when it is missing. */
  function ModsBefore(top: seq<Entry>): seq<Entry>
  {
    match DbModsOf(top)
    case None => []
    case Some(kids) => kids
  }

  /** The repair fails only when a file is called `db` at the top level, or
      `mods` inside the `db` directory. */
  lemma FixedFails(top: seq<Entry>)
    requires Fixed(top).None?
    ensures exists i :: (0 <= i < |top| && SameName(top[i].name, "db") &&
                         (top[i].File? || exists j :: (0 <= j < |top[i].children| &&
                                                       top[i].children[j].File? &&
                                                       SameName(top[i].children[j].name, "mods"))))
  {
    var lost := LostData(top);
    match AddDirectory(top, "db")
    case None =>
    case Some((top1, d)) =>
  }

  /** After a repair that moved something, the mod has a `db` directory and
      hence is VALID, and no loose archive is left at the top level. */
  lemma FixedIsValid(top: seq<Entry>)
    requires LostData(top) != [] && Fixed(top).Some?
    ensures HasValidFolder(Fixed(top).value)
    ensures LostData(Fixed(top).value) == []
  {
    var lost := LostData(top);
    var t := Fixed(top).value;
    var (top1, d) := AddDirectory(top, "db").value;
    var (kids, m) := AddDirectory(top1[d].children, "mods").value;
    var mods := Dir(kids[m].name, InsertAll(kids[m].children, lost));
    var top2 := top1[d := Dir(top1[d].name, kids[m := mods])];
    assert t == Relocate(top1, d, kids, m, mods.children) == KeepUnlost(top2);
    LowerOfLowered("db");
    assert IsValidFolder(top2[d]);
    assert top2[d] in t;
    var k :| 0 <= k < |t| && t[k] == top2[d];
    assert IsValidFolder(t[k]);
    LostDataNone(t);
  }

  /** A repaired mod needs no further repair: `fix` is idempotent. */
  lemma FixedIdempotent(top: seq<Entry>)
    requires Fixed(top).Some?
    ensures Fixed(Fixed(top).value) == Fixed(top)
  {
    if LostData(top) != [] {
      FixedIsValid(top);
    }
  }

  /** Where the repair puts things: `db/mods` afterwards holds what it held
      before, or nothing, with every loose archive inserted in iteration order
      under REPLACE (see the `InsertAll` lemmas). */
  lemma FixedDbMods(top: seq<Entry>)
    requires LostData(top) != [] && Fixed(top).Some?
    ensures DbModsOf(Fixed(top).value) == Some(InsertAll(ModsBefore(top), LostData(top)))
  {
    var lost := LostData(top);
    var t := Fixed(top).value;
    var (top1, d) := AddDirectory(top, "db").value;
    var (kids, m) := AddDirectory(top1[d].children, "mods").value;
    var moved := InsertAll(kids[m].children, lost);
    assert t == Relocate(top1, d, kids, m, moved);
    RelocateDbMods(top1, d, kids, m, moved);
    ModsBeforeFound(top, top1, d, kids, m);
  }

  /** The `mods` directory `fix` obtains from the host holds what `db/mods`
      held before, or nothing when it was missing. */
  lemma ModsBeforeFound(top: seq<Entry>, top1: seq<Entry>, d: nat, kids: seq<Entry>, m: nat)
    requires AddDirectory(top, "db") == Some((top1, d))
    requires AddDirectory(top1[d].children, "mods") == Some((kids, m))
    ensures kids[m].children == ModsBefore(top)
  {
    if top1 == top {
      FindFirst(top, "db", d);
      if kids == top[d].children {
        FindFirst(kids, "mods", m);
      } else {
        assert FindName(top[d].children, "mods").None?;
      }
    } else {
      assert FindName(top, "db").None?;
    }
  }

  /** After the relocation, the host resolves `db/mods` to the moved-in
      entries. */
  lemma RelocateDbMods(top1: seq<Entry>, d: nat, kids: seq<Entry>, m: nat, moved: seq<Entry>)
    requires d < |top1| && m < |kids|
    requires SameName(top1[d].name, "db") && forall j :: 0 <= j < d ==> !SameName(top1[j].name, "db")
    requires SameName(kids[m].name, "mods") && forall j :: 0 <= j < m ==> !SameName(kids[j].name, "mods")
    ensures DbModsOf(Relocate(top1, d, kids, m, moved)) == Some(moved)
  {
    var kids2 := kids[m := Dir(kids[m].name, moved)];
    var top2 := top1[d := Dir(top1[d].name, kids2)];
    var t := KeepUnlost(top2);
    assert forall j :: 0 <= j < d ==> top2[j] == top1[j];
    FindFirst(top2, "db", d);
    KeepUnlostFind(top2, "db", d);
    var dt := FindName(t, "db").value;
    assert t[dt] == top2[d];
    FindFirst(kids2, "mods", m);
  }

  /** `name` first occurs at `d`, so that is what the host finds. */
  lemma FindFirst(es: seq<Entry>, name: string, d: nat)
    requires d < |es| && SameName(es[d].name, name)
    requires forall j :: 0 <= j < d ==> !SameName(es[j].name, name)
    ensures FindName(es, name) == Some(d)
  {
  }

  /** Taking the loose archives off keeps the first entry called `name`
      first, when it is not itself a loose archive. */
  lemma {:induction false} KeepUnlostFind(es: seq<Entry>, name: string, d: nat)
    requires d < |es| && SameName(es[d].name, name) && !IsLost(es[d])
    requires forall j :: 0 <= j < d ==> !SameName(es[j].name, name)
    ensures FindName(KeepUnlost(es), name).Some?
    ensures KeepUnlost(es)[FindName(KeepUnlost(es), name).value] == es[d]
  {
    var rest := KeepUnlost(es[1..]);
    if d == 0 {
      assert KeepUnlost(es) == [es[0]] + rest;
    } else {
      KeepUnlostFind(es[1..], name, d - 1);
      var k := FindName(rest, name).value;
      if IsLost(es[0]) {
        assert KeepUnlost(es) == rest;
      } else {
        var r := KeepUnlost(es);
        assert r == [es[0]] + rest;
        assert r[1..] == rest;
        assert FindName(r, name) == Some(k + 1);
      }
    }
  }

  /** With the host's unique names, every loose archive ends up in
      `db/mods`. */
  lemma FixedMovesLostFile(top: seq<Entry>, x: Entry)
    requires UniqueNames(top)
    requires x in top && IsLost(x) && Fixed(top).Some?
    ensures DbModsOf(Fixed(top).value).Some?
    ensures x in DbModsOf(Fixed(top).value).value
  {
    var lost := LostData(top);
    LostDataMembers(top);
    assert x in lost;
    FixedDbMods(top);
    var i :| 0 <= i < |lost| && lost[i] == x;
    forall j | i < j < |lost|
      ensures !SameName(lost[j].name, lost[i].name)
    {
      LostDataUnique(top, i, j);
    }
    InsertAllLast(ModsBefore(top), lost, i);
  }

  /** The repair leaves every top-level entry other than `db` and the loose
      archives where it was. */
  lemma FixedKeepsOthers(top: seq<Entry>, x: Entry)
    requires x in top && !IsLost(x) && !SameName(x.name, "db") && Fixed(top).Some?
    ensures x in Fixed(top).value
  {
    if LostData(top) != [] {
      var lost := LostData(top);
      var (top1, d) := AddDirectory(top, "db").value;
      var (kids, m) := AddDirectory(top1[d].children, "mods").value;
      var moved := InsertAll(kids[m].children, lost);
      var top2 := top1[d := Dir(top1[d].name, kids[m := Dir(kids[m].name, moved)])];
      assert Fixed(top).value == Relocate(top1, d, kids, m, moved) == KeepUnlost(top2);
      var p :| 0 <= p < |top| && top[p] == x;
      assert top1[p] == x;
      assert top2[p] == x;
    }
  }

  /** The repair brings nothing new to the top level but the `db` directory:
      every entry afterwards was there before and is not a loose archive, or
      is the directory called `db`. */
  lemma FixedOnlyAddsDb(top: seq<Entry>, x: Entry)
    requires Fixed(top).Some? && x in Fixed(top).value
    ensures (x in top && !IsLost(x)) || (x.Dir? && SameName(x.name, "db"))
  {
    var lost := LostData(top);
    LostDataMembers(top);
    if lost != [] {
      var (top1, d) := AddDirectory(top, "db").value;
      var (kids, m) := AddDirectory(top1[d].children, "mods").value;
      var moved := InsertAll(kids[m].children, lost);
      var top2 := top1[d := Dir(top1[d].name, kids[m := Dir(kids[m].name, moved)])];
      assert Fixed(top).value == Relocate(top1, d, kids, m, moved) == KeepUnlost(top2);
      var p :| 0 <= p < |top2| && top2[p] == x;
      if p != d {
        assert x == top1[p];
        LowerOfLowered("db");
        if p < |top| {
          assert x == top[p];
        }
      }
    }
  }

  /** A FIXABLE mod, one with loose archives and no marking directory, cannot
      be repaired exactly when a file at the top level is called `db`: the
      host then gives no `db` directory, and the original's `fix` raises. */
  lemma FixableFixFails(top: seq<Entry>)
    requires !HasValidFolder(top) && LostData(top) != []
    ensures Fixed(top).None? <==> exists i :: 0 <= i < |top| && top[i].File? && SameName(top[i].name, "db")
  {
    match FindName(top, "db")
    case None =>
      FixedWithoutDb(top);
    case Some(i) =>
      NoValidDbIsFile(top, i);
      FixedFileDb(top, i);
  }

  /** Without a marking directory, an entry called `db` is a file. */
  lemma NoValidDbIsFile(top: seq<Entry>, i: nat)
    requires !HasValidFolder(top)
    requires i < |top| && SameName(top[i].name, "db")
    ensures top[i].File?
  {
    LowerOfLowered("db");
    assert !IsValidFolder(top[i]);
  }

  /** Without an entry called `db`, the host creates `db` and then `mods`, so
      the repair cannot fail. */
  lemma FixedWithoutDb(top: seq<Entry>)
    requires FindName(top, "db").None?
    ensures Fixed(top).Some?
  {
    var top1, d: nat := top + [Dir("db", [])], |top|;
    assert AddDirectory(top, "db") == Some((top1, d));
    assert AddDirectory(top1[d].children, "mods").Some?;
  }

  /** A file called `db`, found first, makes the repair of loose archives
      fail. */
  lemma FixedFileDb(top: seq<Entry>, i: nat)
    requires LostData(top) != []
    requires FindName(top, "db") == Some(i) && top[i].File?
    ensures Fixed(top).None?
  {
  }

  /** The entries of the directory the host finds as `db` in `top`; None when
      there is none or it is a file. */
  function DbOf(top: seq<Entry>): Option<seq<Entry>>
  {
    match FindName(top, "db")
    case None => None
    case Some(d) => if top[d].File? then None else Some(top[d].children)
  }

  /** After the relocation, the host's `db` holds `kids` with `mods` updated. */
  lemma RelocateDb(top1: seq<Entry>, d: nat, kids: seq<Entry>, m: nat, moved: seq<Entry>)
    requires d < |top1| && m < |kids|
    requires SameName(top1[d].name, "db") && forall j :: 0 <= j < d ==> !SameName(top1[j].name, "db")
    ensures DbOf(Relocate(top1, d, kids, m, moved)) == Some(kids[m := Dir(kids[m].name, moved)])
  {
    var kids2 := kids[m := Dir(kids[m].name, moved)];
    var top2 := top1[d := Dir(top1[d].name, kids2)];
    assert forall j :: 0 <= j < d ==> top2[j] == top1[j];
    FindFirst(top2, "db", d);
    KeepUnlostFind(top2, "db", d);
  }

  /** The repair leaves every entry of an existing `db` directory other than
      `mods` in place. */
  lemma FixedKeepsDbOthers(top: seq<Entry>, y: Entry)
    requires Fixed(top).Some? && DbOf(top).Some?
    requires y in DbOf(top).value && !SameName(y.name, "mods")
    ensures DbOf(Fixed(top).value).Some? && y in DbOf(Fixed(top).value).value
  {
    var lost := LostData(top);
    if lost != [] {
      var (top1, d) := AddDirectory(top, "db").value;
      assert top1 == top && d == FindName(top, "db").value;
      var (kids, m) := AddDirectory(top1[d].children, "mods").value;
      var moved := InsertAll(kids[m].children, lost);
      assert Fixed(top).value == Relocate(top1, d, kids, m, moved);
      RelocateDb(top1, d, kids, m, moved);
      var p :| 0 <= p < |top[d].children| && top[d].children[p] == y;
      assert kids[p] == y && p != m;
      assert kids[m := Dir(kids[m].name, moved)][p] == y;
    }
  }

  /** Loose archives come from distinct top-level positions, so with unique
      names they have distinct names. */
  lemma {:induction false} LostDataUnique(top: seq<Entry>, i: nat, j: nat)
    requires UniqueNames(top)
    requires i < j < |LostData(top)|
    ensures !SameName(LostData(top)[i].name, LostData(top)[j].name)
  {
    var init, last := top[..|top| - 1], top[|top| - 1];
    LostDataMembers(init);
    assert UniqueNames(init);
    if j < |LostData(init)| {
      LostDataUnique(init, i, j);
    } else {
      assert LostData(top)[j] == last;
      assert LostData(top)[i] == LostData(init)[i];
      assert LostData(init)[i] in init;
      var p :| 0 <= p < |init| && init[p] == LostData(init)[i];
      assert top[p] == init[p];
    }
  }

  /** The loop of `fix`: inserts each loose archive, in order, into the
      `db/mods` directory holding `mods`, with REPLACE. */
  method InsertEach(mods: seq<Entry>, lost: seq<Entry>) returns (rfolder: seq<Entry>)
    ensures rfolder == InsertAll(mods, lost)
  {
    rfolder := mods;
    for i := 0 to |lost|
      invariant rfolder == InsertAll(mods, lost[..i])
    {
      assert lost[..i + 1][..i] == lost[..i];
      rfolder := InsertReplace(rfolder, lost[i]);
    }
    assert lost[..|lost|] == lost;
  }

  /** `fix`: when loose archives exist, obtains `db/mods` from the host, inserts
      each archive there with REPLACE (which also takes it off the top level)
      and hands the same tree back. `ok` is false where the original raises. */
  method Fix(tree: Tree) returns (ok: bool)
    modifies tree
    ensures ok == Fixed(old(tree.entries)).Some?
    ensures tree.entries == if ok then Fixed(old(tree.entries)).value else old(tree.entries)
  {
    var top := tree.entries;
    var lost := FindLostData(top);
    if lost == [] {
      return true;
    }
    var db := AddDirectory(top, "db");
    if db.None? {
      return false;
    }
    var (top1, d) := db.value;
    var modsDir := AddDirectory(top1[d].children, "mods");
    if modsDir.None? {
      return false;
    }
    var (kids, m) := modsDir.value;
    var rfolder := InsertEach(kids[m].children, lost);
    assert AddDirectory(top, "db") == Some((top1, d));
    assert AddDirectory(top1[d].children, "mods") == Some((kids, m));
    tree.entries := Relocate(top1, d, kids, m, rfolder);
    return true;
  }
}
