/** The files service as it runs: walks over an index of all folders, and rows changed in place. */
module FilesService {
  import opened Wrappers
  import opened Library

  /** rows lists every folder once, in the order the index iterates over them. */
  ghost predicate Listing(f: map<Id, Folder>, rows: seq<Id>) {
    && Distinct(rows)
    && forall x: Id :: x in rows <==> x in f
  }

  predicate Distinct(s: seq<Id>) {
    forall i, j :: 0 <= i < j < |s| ==> s[i] != s[j]
  }

  function Entries(s: seq<Id>): set<Id> {
    set x | x in s
  }

  predicate ParentAmong(f: map<Id, Folder>, x: Id, s: seq<Id>) {
    x in f && f[x].parent.Some? && f[x].parent.value in s
  }

  /** Every entry after the first comes later than its parent. */
  predicate ParentsFirst(f: map<Id, Folder>, s: seq<Id>) {
    forall j :: 0 < j < |s| ==> ParentAmong(f, s[j], s[..j])
  }

  // -------------------------------------------------------------------------
  // The worklist
  // -------------------------------------------------------------------------

  /** No folder is the parent of one that it lies below. */
  lemma ParentOutside(f: map<Id, Folder>, root: Id, x: Id)
    requires Acyclic(f) && root in f && x in f && Descends(f, root, x)
    ensures f[root].parent != Some(x)
  {
    var r :| Ranked(f, r);
    var n: nat :| Reaches(f, root, x, n);
    ReachRank(f, r, root, x, n);
  }

  lemma {:induction false} DescendantsIn(f: map<Id, Folder>, root: Id, x: Id, steps: nat, s: set<Id>)
    requires root in s && forall y: Id :: y in f && Within(f[y].parent, s) ==> y in s
    requires Reaches(f, root, x, steps)
    ensures x in s
    decreases steps
  {
    if x != root {
      DescendantsIn(f, root, f[x].parent.value, steps - 1, s);
    }
  }

  lemma DistinctFits(s: seq<Id>, keys: set<Id>)
    requires Distinct(s) && forall x: Id :: x in s ==> x in keys
    ensures |s| <= |keys|
  {
    if s != [] {
      var last := s[|s| - 1];
      forall x: Id | x in s[..|s| - 1] ensures x in keys - {last} {}
      assert last in s;
      DistinctFits(s[..|s| - 1], keys - {last});
    }
  }

  /** What is on the list so far: distinct descendants of root, each after its parent, whose parents are among the
      first i entries. */
  ghost predicate Grown(f: map<Id, Folder>, root: Id, out: seq<Id>, i: nat)
    requires i <= |out|
  {
    && out != [] && out[0] == root && Distinct(out)
    && (forall y: Id :: y in out ==> y in f && Descends(f, root, y))
    && ParentsFirst(f, out)
    && (forall j :: 0 < j < |out| ==> ParentAmong(f, out[j], out[..i]))
  }

  lemma ChildIsNew(f: map<Id, Folder>, root: Id, out: seq<Id>, i: nat, c: Id)
    requires Acyclic(f) && i < |out| && Grown(f, root, out, i) && c in f && f[c].parent == Some(out[i])
    ensures c !in out
  {
    assert out[i] in out && root in out;
    ParentOutside(f, root, out[i]);
  }

  lemma ParentsStayFirst(f: map<Id, Folder>, out: seq<Id>, c: Id)
    requires ParentsFirst(f, out) && ParentAmong(f, c, out)
    ensures ParentsFirst(f, out + [c])
  {
    var n := out + [c];
    forall j | 0 < j < |n| ensures ParentAmong(f, n[j], n[..j]) {
      assert n[..j] == out[..j];
    }
  }

  lemma ChildAppended(f: map<Id, Folder>, root: Id, out: seq<Id>, i: nat, c: Id)
    requires i < |out| && Grown(f, root, out, i + 1) && c in f && f[c].parent == Some(out[i]) && c !in out
    ensures Grown(f, root, out + [c], i + 1)
  {
    assert out[i] in out && out[..i + 1][i] == out[i];
    DescendsStep(f, root, c);
    ParentsStayFirst(f, out, c);
    hide Descends, ParentsFirst;
    assert (out + [c])[..i + 1] == out[..i + 1];
  }

  lemma MoreSeen(f: map<Id, Folder>, root: Id, out: seq<Id>, i: nat)
    requires i < |out| && Grown(f, root, out, i)
    ensures Grown(f, root, out, i + 1)
  {
    hide Descends, ParentsFirst;
    assert out[..i + 1] == out[..i] + [out[i]];
  }

  function Children(f: map<Id, Folder>, parent: Id, rows: seq<Id>): seq<Id> {
    if rows == [] then []
    else
      var init, last := Children(f, parent, rows[..|rows| - 1]), rows[|rows| - 1];
      if last in f && f[last].parent == Some(parent) then init + [last] else init
  }

  lemma {:induction false} ChildrenAre(f: map<Id, Folder>, parent: Id, rows: seq<Id>, y: Id)
    ensures y in Children(f, parent, rows) <==> y in rows && y in f && f[y].parent == Some(parent)
  {
    if rows != [] {
      ChildrenAre(f, parent, rows[..|rows| - 1], y);
      assert rows == rows[..|rows| - 1] + [rows[|rows| - 1]];
    }
  }

  lemma {:induction false} GrownByChildren(f: map<Id, Folder>, root: Id, before: seq<Id>, i: nat, rows: seq<Id>)
    requires Acyclic(f) && Distinct(rows) && i < |before| && Grown(f, root, before, i)
    ensures Grown(f, root, before + Children(f, before[i], rows), i + 1)
  {
    hide Grown, Acyclic;
    if rows == [] {
      MoreSeen(f, root, before, i);
      assert before + [] == before;
    } else {
      var init, last := rows[..|rows| - 1], rows[|rows| - 1];
      var out := before + Children(f, before[i], init);
      GrownByChildren(f, root, before, i, init);
      if last in f && f[last].parent == Some(before[i]) {
        assert before + Children(f, before[i], rows) == out + [last];
        ChildIsNew(f, root, before, i, last);
        ChildrenAre(f, before[i], init, last);
        hide Children;
        ChildAppended(f, root, out, i, last);
      }
    }
  }

  /** Every folder whose parent is among the first i entries is on the list. */
  ghost predicate Covered(f: map<Id, Folder>, out: seq<Id>, i: nat)
    requires i <= |out|
  {
    forall y: Id :: ParentAmong(f, y, out[..i]) ==> y in out
  }

  lemma CoveredByChildren(f: map<Id, Folder>, before: seq<Id>, i: nat, rows: seq<Id>)
    requires Listing(f, rows) && i < |before| && Covered(f, before, i)
    ensures Covered(f, before + Children(f, before[i], rows), i + 1)
  {
    var out := before + Children(f, before[i], rows);
    assert out[..i + 1] == before[..i] + [before[i]];
    forall y: Id | ParentAmong(f, y, out[..i + 1]) ensures y in out {
      ChildrenAre(f, before[i], rows, y);
      if f[y].parent.value in before[..i] {
        assert ParentAmong(f, y, before[..i]);
      }
    }
  }

  lemma WorklistComplete(f: map<Id, Folder>, root: Id, out: seq<Id>)
    requires Grown(f, root, out, |out|) && Covered(f, out, |out|)
    ensures Entries(out) == Subtree(f, root)
  {
    assert out[..|out|] == out && out[0] in out;
    var s := Entries(out);
    forall y: Id | y in f && Within(f[y].parent, s) ensures y in s {
      assert ParentAmong(f, y, out);
    }
    forall x | x in Subtree(f, root) ensures x in s {
      var n: nat :| Reaches(f, root, x, n);
      DescendantsIn(f, root, x, n, s);
    }
  }

  /** With the entries after position k gone, nothing left has entry k for its parent. */
  lemma NoChildLeft(f: map<Id, Folder>, root: Id, list: seq<Id>, k: nat)
    requires k < |list| && list[0] == root && root in f && Distinct(list) && ParentsFirst(f, list) && Acyclic(f)
    requires Entries(list) == Subtree(f, root)
    ensures forall x :: x in f && x !in Entries(list[k + 1..]) ==> f[x].parent != Some(list[k])
  {
    var ids := Entries(list);
    assert list[k] in ids;
    ParentOutside(f, root, list[k]);
    forall x | x in f && f[x].parent == Some(list[k]) ensures x in list[k + 1..] {
      DescendsStep(f, root, x);
      assert x in ids;
      var m :| 0 <= m < |list| && list[m] == x;
      assert ParentAmong(f, list[m], list[..m]);
      assert list[m] == list[k + 1..][m - k - 1];
    }
  }

  lemma RowsWithout(f: map<Id, Folder>, list: seq<Id>, k: nat)
    requires k < |list|
    ensures f - Entries(list[k..]) == f - Entries(list[k + 1..]) - {list[k]}
  {
    assert list[k..] == [list[k]] + list[k + 1..];
  }

  class Service {
    var folders: map<Id, Folder>
    var files: map<Id, File>
    var clock: int

    function State(): Tree
      reads this
    {
      Tree(folders, files, clock)
    }

    constructor ()
      ensures State() == EMPTY
    {
      folders, files, clock := map[], map[], 0;
    }

    /** One turn of the walk: looks through all folders for the children of entry i. */
    method AppendChildren(rows: seq<Id>, before: seq<Id>, i: nat) returns (out: seq<Id>)
      requires i < |before| && forall k :: 0 <= k < |rows| ==> rows[k] in folders
      ensures out == before + Children(folders, before[i], rows)
    {
      out := before;
      for k := 0 to |rows|
        invariant out == before + Children(folders, before[i], rows[..k])
      {
        assert rows[..k + 1][..k] == rows[..k];
        if folders[rows[k]].parent == Some(out[i]) {
          out := out + [rows[k]];
        }
      }
      assert rows[..|rows|] == rows;
    }

    /** Grows the list while walking it: the children of each entry are appended in turn. */
    method CollectSubtree(root: Id, rows: seq<Id>) returns (out: seq<Id>)
      requires Acyclic(folders) && root in folders && Listing(folders, rows)
      ensures Distinct(out) && ParentsFirst(folders, out) && out != [] && out[0] == root
      ensures Entries(out) == Subtree(folders, root)
    {
      out := [root];
      assert Reaches(folders, root, root, 0);
      hide Acyclic, Descends, Subtree, Reaches, Children;
      assert forall k :: 0 <= k < |rows| ==> rows[k] in rows && rows[k] in folders;
      var i := 0;
      while i < |out|
        invariant i <= |out| && Grown(folders, root, out, i) && Covered(folders, out, i)
        decreases |folders.Keys| - i
      {
        hide Covered;
        GrownByChildren(folders, root, out, i, rows);
        CoveredByChildren(folders, out, i, rows);
        out := AppendChildren(rows, out, i);
        DistinctFits(out, folders.Keys);
        i := i + 1;
      }
      WorklistComplete(folders, root, out);
    }

    ghost predicate Outcome(before: Tree, spec: Result<Tree, Error>, error: Option<Error>)
      reads this
    {
      match spec
      case Ok(after) => error == None && State() == after
      case Err(e) => error == Some(e) && State() == before
    }

    method CreateFolder(id: Id, parent: Option<Id>) returns (error: Option<Error>)
      requires id !in folders
      modifies this
      ensures Outcome(old(State()), Library.CreateFolder(old(State()), id, parent), error)
    {
      if parent.Some? && (parent.value !in folders || folders[parent.value].deletedAt.Some?) { return Some(NotFound); }
      folders := folders[id := Folder(parent, None, 1)];
      clock := clock + 1;
      return None;
    }

    /** Walks up from the new parent and refuses when it meets the folder that moves. */
    method MoveFolder(id: Id, parent: Option<Id>, version: int) returns (error: Option<Error>)
      requires Acyclic(folders)
      modifies this
      ensures Outcome(old(State()), Library.MoveFolder(old(State()), id, parent, version), error)
    {
      if id !in folders || folders[id].deletedAt.Some? { return Some(NotFound); }
      if parent != folders[id].parent && parent.Some? {
        if parent.value !in folders || folders[parent.value].deletedAt.Some? { return Some(NotFound); }
        ghost var r :| Ranked(folders, r);
        var f := parent;
        while f.Some? && f.value in folders
          invariant Ranked(folders, r)
          invariant Descends(folders, id, parent.value) <==> f.Some? && Descends(folders, id, f.value)
          decreases if f.Some? && f.value in folders then r[f.value] + 1 else 0
          modifies {}
        {
          DescendsStep(folders, id, f.value);
          if f.value == id { return Some(BadRequest); }
          f := folders[f.value].parent;
        }
        if f.Some? { DescendsStep(folders, id, f.value); }
      }
      if folders[id].version != version { return Some(VersionConflict); }
      folders := folders[id := folders[id].(parent := parent, version := folders[id].version + 1)];
      clock := clock + 1;
      return None;
    }

    /** update folders set deleted_at = now where id in ids and deleted_at is null; the same for their files */
    method Stamp(ids: set<Id>)
      modifies this`folders, this`files
      ensures State() == Stamped(old(State()), ids)
    {
      folders := map x | x in folders ::
        if x in ids && folders[x].deletedAt.None? then folders[x].(deletedAt := Some(clock)) else folders[x];
      files := map x | x in files ::
        if Within(files[x].folder, ids) && files[x].deletedAt.None?
        then files[x].(deletedAt := Some(clock)) else files[x];
    }

    method TrashFolder(id: Id, rows: seq<Id>) returns (error: Option<Error>)
      requires Acyclic(folders) && Listing(folders, rows)
      modifies this
      ensures Outcome(old(State()), Library.TrashFolder(old(State()), id), error)
    {
      hide Acyclic, Subtree, Listing, Stamped;
      if id !in folders || folders[id].deletedAt.Some? { return Some(NotFound); }
      var list := CollectSubtree(id, rows);
      var ids := Entries(list);
      assert ids == Subtree(old(State()).folders, id);
      Stamp(ids);
      assert State() == Stamped(old(State()), ids);
      clock := clock + 1;
      return None;
    }

    /** Three updates: the folder itself, then the folders and the files that went to the trash with it. */
    method Revive(id: Id, ids: set<Id>)
      requires id in folders && folders[id].deletedAt.Some?
      modifies this`folders, this`files
      ensures State() == Revived(old(State()), id, ids)
    {
      var at, parent := folders[id].deletedAt, folders[id].parent;
      if parent.Some? && parent.value in folders && folders[parent.value].deletedAt.Some? {
        parent := None;
      }
      folders := folders[id := folders[id].(deletedAt := None, parent := parent)];
      folders := map x | x in folders ::
        if x in ids && folders[x].deletedAt == at then folders[x].(deletedAt := None) else folders[x];
      files := map x | x in files ::
        if Within(files[x].folder, ids) && files[x].deletedAt == at then files[x].(deletedAt := None) else files[x];
    }

    method RestoreFolder(id: Id, rows: seq<Id>) returns (error: Option<Error>)
      requires Acyclic(folders) && Listing(folders, rows)
      modifies this
      ensures Outcome(old(State()), Library.RestoreFolder(old(State()), id), error)
    {
      hide Acyclic, Subtree, Listing, Revived;
      if id !in folders || folders[id].deletedAt.None? { return Some(NotFound); }
      var list := CollectSubtree(id, rows);
      var ids := Entries(list);
      assert ids == Subtree(old(State()).folders, id);
      Revive(id, ids);
      assert State() == Revived(old(State()), id, ids);
      clock := clock + 1;
      return None;
    }

    /** delete from folders where id: the foreign keys refuse a folder that still holds something. */
    method DeleteFolder(id: Id)
      requires forall x :: x in folders ==> folders[x].parent != Some(id)
      requires forall x :: x in files ==> files[x].folder != Some(id)
      modifies this`folders
      ensures folders == old(folders) - {id}
    {
      folders := folders - {id};
    }

    /** From the last folder on the list to the first, so that none still has a child. */
    method DeleteFolders(root: Id, list: seq<Id>)
      requires Acyclic(folders) && root in folders && list != [] && list[0] == root && Distinct(list)
      requires ParentsFirst(folders, list) && Entries(list) == Subtree(folders, root)
      requires forall x :: x in files ==> files[x].folder.Some? ==> files[x].folder.value !in list
      modifies this`folders
      ensures folders == old(folders) - Entries(list)
    {
      var k := |list|;
      assert Entries(list[k..]) == {};
      hide Acyclic, Subtree, ParentsFirst, Distinct, Entries;
      while k > 0
        invariant 0 <= k <= |list|
        invariant folders == old(folders) - Entries(list[k..])
      {
        NoChildLeft(old(folders), root, list, k - 1);
        RowsWithout(old(folders), list, k - 1);
        assert list[k - 1] in list;
        DeleteFolder(list[k - 1]);
        k := k - 1;
      }
      assert list[0..] == list;
    }

    /** Files first, then the folders. */
    method PurgeFolder(id: Id, rows: seq<Id>) returns (error: Option<Error>)
      requires Acyclic(folders) && Listing(folders, rows)
      modifies this
      ensures Outcome(old(State()), Library.PurgeFolder(old(State()), id), error)
    {
      hide Acyclic, Subtree, ParentsFirst, Listing, Distinct;
      if id !in folders || folders[id].deletedAt.None? { return Some(Conflict); }
      var list := CollectSubtree(id, rows);
      var ids := Entries(list);
      files := map x | x in files && !Within(files[x].folder, ids) :: files[x];
      assert forall x :: x in files && files[x].folder.Some? ==> files[x].folder.value !in ids;
      DeleteFolders(id, list);
      assert State() == Without(old(State()), ids);
      clock := clock + 1;
      return None;
    }

    method CreateFile(id: Id, folder: Option<Id>) returns (error: Option<Error>)
      requires id !in files
      modifies this
      ensures Outcome(old(State()), Library.CreateFile(old(State()), id, folder), error)
    {
      if folder.Some? && (folder.value !in folders || folders[folder.value].deletedAt.Some?) { return Some(NotFound); }
      files := files[id := File(folder, None, false, 1, 1)];
      clock := clock + 1;
      return None;
    }

    /** A new version of a live file. What was read before the transaction may be out of date when it begins; `seen` is
        that number of versions. */
    method StoreVersion(id: Id, seen: nat) returns (error: Option<Error>)
      modifies this
      ensures Outcome(old(State()), Library.StoreVersion(old(State()), id, seen), error)
    {
      if id !in files { return Some(Conflict); }
      var versionNo := seen + 1;
      if files[id].versions != versionNo - 1 { return Some(Conflict); }
      files := files[id := files[id].(infected := false, versions := versionNo, version := files[id].version + 1)];
      clock := clock + 1;
      return None;
    }

    /** An upload that nothing comes between: it is stored. */
    method UploadVersion(id: Id) returns (error: Option<Error>)
      modifies this
      ensures error == if LiveFile(old(State()), id) then None else Some(NotFound)
      ensures error.None? ==> Library.StoreVersion(old(State()), id, old(files)[id].versions) == Ok(State())
      ensures error.Some? ==> State() == old(State())
    {
      if id !in files || files[id].deletedAt.Some? { return Some(NotFound); }
      error := StoreVersion(id, files[id].versions);
    }

    method MoveFile(id: Id, folder: Option<Id>, version: int) returns (error: Option<Error>)
      modifies this
      ensures Outcome(old(State()), Library.MoveFile(old(State()), id, folder, version), error)
    {
      if id !in files || files[id].deletedAt.Some? { return Some(NotFound); }
      if folder != files[id].folder && folder.Some? {
        if folder.value !in folders || folders[folder.value].deletedAt.Some? { return Some(NotFound); }
      }
      if files[id].version != version { return Some(VersionConflict); }
      files := files[id := files[id].(folder := folder, version := files[id].version + 1)];
      clock := clock + 1;
      return None;
    }

    method TrashFile(id: Id) returns (error: Option<Error>)
      modifies this
      ensures Outcome(old(State()), Library.TrashFile(old(State()), id), error)
    {
      if id !in files || files[id].deletedAt.Some? { return Some(NotFound); }
      files := files[id := files[id].(deletedAt := Some(clock))];
      clock := clock + 1;
      return None;
    }

    method RestoreFile(id: Id) returns (error: Option<Error>)
      modifies this
      ensures Outcome(old(State()), Library.RestoreFile(old(State()), id), error)
    {
      if id !in files { return Some(NotFound); }
      if files[id].deletedAt.Some? {
        if files[id].infected { return Some(Forbidden); }
        var folder := files[id].folder;
        if folder.Some? && folder.value in folders && folders[folder.value].deletedAt.Some? {
          folder := None;
        }
        files := files[id := files[id].(deletedAt := None, folder := folder)];
      }
      clock := clock + 1;
      return None;
    }

    method Quarantine(id: Id) returns (error: Option<Error>)
      modifies this
      ensures Outcome(old(State()), Library.Quarantine(old(State()), id), error)
    {
      if id !in files { return Some(NotFound); }
      files := files[id := files[id].(deletedAt := Some(clock), infected := true)];
      clock := clock + 1;
      return None;
    }

    method PurgeFile(id: Id) returns (error: Option<Error>)
      modifies this
      ensures Outcome(old(State()), Library.PurgeFile(old(State()), id), error)
    {
      if id !in files { return Some(NotFound); }
      if files[id].deletedAt.None? { return Some(Conflict); }
      files := files - {id};
      clock := clock + 1;
      return None;
    }
  }
}
