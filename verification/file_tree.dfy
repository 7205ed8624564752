/** The host application's virtual file tree, as far as the plugin uses it:
    entries with a name, files with an extension, directories with their
    entries, and the two editing operations `addDirectory` and `insert` under
    the REPLACE policy. Entry names are compared without regard to case, as
    the host does. */
module FileTree {
  import opened Strings

  datatype Option<T> = None | Some(value: T)

  /** A file (its name and the extension the host reports for it) or a
      directory (its name and its entries, in iteration order). */
  datatype Entry = File(name: string, suffix: string) | Dir(name: string, children: seq<Entry>)

  predicate SameName(a: string, b: string)
  {
    Lower(a) == Lower(b)
  }

  /** No two entries of one directory share a name; the host keeps every
      directory this way. */
  predicate UniqueNames(es: seq<Entry>)
  {
    forall i, j :: 0 <= i < j < |es| ==> !SameName(es[i].name, es[j].name)
  }

  /** The first entry called `name`, if any. */
  function FindName(es: seq<Entry>, name: string): (r: Option<nat>)
    ensures r.Some? ==> r.value < |es| && SameName(es[r.value].name, name)
    ensures r.Some? ==> forall j :: 0 <= j < r.value ==> !SameName(es[j].name, name)
    ensures r.None? ==> forall j :: 0 <= j < |es| ==> !SameName(es[j].name, name)
  {
    if es == [] then None
    else if SameName(es[0].name, name) then Some(0)
    else match FindName(es[1..], name)
      case None => None
      case Some(i) => Some(i + 1)
  }

  /** `addDirectory(name)` on a directory holding `es`: the entries afterwards
      and the position of the directory called `name` among them. An existing
      directory of that name is reused; otherwise a new empty one is added.
      It fails (None) when the name belongs to a file. */
  function AddDirectory(es: seq<Entry>, name: string): (r: Option<(seq<Entry>, nat)>)
    ensures r.Some? ==> r.value.1 < |r.value.0| && r.value.0[r.value.1].Dir?
                        && SameName(r.value.0[r.value.1].name, name)
    ensures r.Some? ==> r.value.0 == es || r.value.0 == es + [Dir(name, [])]
    ensures r.Some? ==> forall j :: 0 <= j < r.value.1 ==> !SameName(r.value.0[j].name, name)
    ensures r.Some? && r.value.0 != es ==> forall j :: 0 <= j < |es| ==> !SameName(es[j].name, name)
    ensures r.None? ==> exists j :: 0 <= j < |es| && es[j].File? && SameName(es[j].name, name)
  {
    match FindName(es, name)
    case None => Some((es + [Dir(name, [])], |es|))
    case Some(i) => if es[i].Dir? then Some((es, i)) else None
  }

  /** The entries of `es` not called `name`, in their order. */
  function Without(es: seq<Entry>, name: string): (r: seq<Entry>)
    ensures |r| <= |es|
    ensures forall x :: x in r <==> x in es && !SameName(x.name, name)
  {
    if es == [] then []
    else (if SameName(es[0].name, name) then [] else [es[0]]) + Without(es[1..], name)
  }

  /** `insert(e, REPLACE)`: `e` joins the directory and takes the place of
      every entry of the same name. */
  function InsertReplace(es: seq<Entry>, e: Entry): (r: seq<Entry>)
    ensures e in r
    ensures forall x :: x in r <==> x == e || (x in es && !SameName(x.name, e.name))
  {
    Without(es, e.name) + [e]
  }

  /** Inserting each of `rs`, in order, with REPLACE. */
  function InsertAll(es: seq<Entry>, rs: seq<Entry>): seq<Entry>
  {
    if rs == [] then es
    else InsertReplace(InsertAll(es, rs[..|rs| - 1]), rs[|rs| - 1])
  }

  /** An entry that no inserted entry names survives the insertions. */
  lemma {:induction false} InsertAllKeeps(es: seq<Entry>, rs: seq<Entry>, x: Entry)
    requires x in es
    requires forall r :: r in rs ==> !SameName(x.name, r.name)
    ensures x in InsertAll(es, rs)
  {
    if rs != [] {
      InsertAllKeeps(es, rs[..|rs| - 1], x);
      assert rs[|rs| - 1] in rs;
    }
  }

  /** Everything after the insertions was inserted, or was there before and
      shares its name with nothing inserted. */
  lemma {:induction false} InsertAllFrom(es: seq<Entry>, rs: seq<Entry>, x: Entry)
    requires x in InsertAll(es, rs)
    ensures x in rs || (x in es && forall r :: r in rs ==> !SameName(x.name, r.name))
  {
    if rs != [] {
      var init, last := rs[..|rs| - 1], rs[|rs| - 1];
      assert rs == init + [last];
      if x != last {
        InsertAllFrom(es, init, x);
      }
    }
  }

  /** An inserted entry whose name no later insertion reuses is present
      afterwards. */
  lemma {:induction false} InsertAllLast(es: seq<Entry>, rs: seq<Entry>, i: nat)
    requires i < |rs|
    requires forall j :: i < j < |rs| ==> !SameName(rs[j].name, rs[i].name)
    ensures rs[i] in InsertAll(es, rs)
  {
    var init, last := rs[..|rs| - 1], rs[|rs| - 1];
    if i < |rs| - 1 {
      InsertAllLast(es, init, i);
      assert !SameName(last.name, rs[i].name);
      assert init[i] == rs[i];
    }
  }

  /** The host's tree object, seen through its top-level entries, which the
      plugin changes in place. */
  class Tree {
    var entries: seq<Entry>

    constructor (entries: seq<Entry>)
      ensures this.entries == entries
    {
      this.entries := entries;
    }
  }
}
