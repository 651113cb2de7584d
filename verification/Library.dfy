/** The file library: a forest of folders with files in it, moved, trashed, restored and purged. Every operation
    happens at its own clock time. */
module Library {
  import opened Wrappers

  type Id = nat

  datatype Folder = Folder(parent: Option<Id>, deletedAt: Option<int>, version: int)

  /** infected: the malware scan condemned the file's current version. versions: how many were ever stored. */
  datatype File = File(folder: Option<Id>, deletedAt: Option<int>, infected: bool, versions: nat, version: int)

  datatype Tree = Tree(folders: map<Id, Folder>, files: map<Id, File>, clock: int)

  datatype Error = NotFound | BadRequest | Forbidden | Conflict | VersionConflict

  predicate LiveFolder(l: Tree, id: Id) {
    id in l.folders && l.folders[id].deletedAt.None?
  }

  predicate LiveFile(l: Tree, id: Id) {
    id in l.files && l.files[id].deletedAt.None?
  }

  // -------------------------------------------------------------------------
  // Ancestry
  // -------------------------------------------------------------------------

  predicate Reaches(f: map<Id, Folder>, root: Id, x: Id, steps: nat)
    decreases steps
  {
    x == root || (steps > 0 && x in f && f[x].parent.Some? && Reaches(f, root, f[x].parent.value, steps - 1))
  }

  /** x is root, or lies somewhere below it. */
  ghost predicate Descends(f: map<Id, Folder>, root: Id, x: Id) {
    exists steps: nat :: Reaches(f, root, x, steps)
  }

  lemma DescendsStep(f: map<Id, Folder>, root: Id, x: Id)
    ensures Descends(f, root, x) <==> x == root || (x in f && f[x].parent.Some? && Descends(f, root, f[x].parent.value))
  {
    if x == root {
      assert Reaches(f, root, x, 0);
    } else if x in f && f[x].parent.Some? {
      var p := f[x].parent.value;
      if Descends(f, root, x) {
        var n: nat :| Reaches(f, root, x, n);
        assert Reaches(f, root, p, n - 1);
      }
      if Descends(f, root, p) {
        var n: nat :| Reaches(f, root, p, n);
        assert Reaches(f, root, x, n + 1);
      }
    }
  }

  /** A certificate that parents exist and that no folder is above itself. */
  ghost predicate Ranked(f: map<Id, Folder>, r: map<Id, nat>) {
    forall id :: id in f ==>
      && id in r
      && (f[id].parent.Some? ==>
            f[id].parent.value in f && f[id].parent.value in r && r[f[id].parent.value] < r[id])
  }

  ghost predicate Acyclic(f: map<Id, Folder>) {
    exists r :: Ranked(f, r)
  }

  ghost function Subtree(f: map<Id, Folder>, root: Id): set<Id> {
    set x | x in f && Descends(f, root, x)
  }

  // -------------------------------------------------------------------------
  // Operations
  // -------------------------------------------------------------------------

  function Tick(l: Tree): Tree {
    l.(clock := l.clock + 1)
  }

  function CreateFolder(l: Tree, id: Id, parent: Option<Id>): Result<Tree, Error>
    requires id !in l.folders
  {
    if parent.Some? && !LiveFolder(l, parent.value) then Err(NotFound)
    else Ok(Tick(l.(folders := l.folders[id := Folder(parent, None, 1)])))
  }

  /** The parent part of updateFolder: a folder cannot move into itself or below itself. */
  ghost function MoveFolder(l: Tree, id: Id, parent: Option<Id>, version: int): Result<Tree, Error> {
    if !LiveFolder(l, id) then Err(NotFound)
    else if parent != l.folders[id].parent && parent.Some? && !LiveFolder(l, parent.value) then Err(NotFound)
    else if parent != l.folders[id].parent && parent.Some? && Descends(l.folders, id, parent.value) then Err(BadRequest)
    else if l.folders[id].version != version then Err(VersionConflict)
    else Ok(Tick(l.(folders := l.folders[id := l.folders[id].(parent := parent, version := version + 1)])))
  }

  /** The live folders in ids, and the live files in them, go to the trash together. */
  function Stamped(l: Tree, ids: set<Id>): Tree {
    l.(
      folders := map x | x in l.folders ::
        if x in ids && l.folders[x].deletedAt.None? then l.folders[x].(deletedAt := Some(l.clock)) else l.folders[x],
      files := map x | x in l.files ::
        if Within(l.files[x].folder, ids) && l.files[x].deletedAt.None?
        then l.files[x].(deletedAt := Some(l.clock)) else l.files[x])
  }

  predicate Within(folder: Option<Id>, ids: set<Id>) {
    folder.Some? && folder.value in ids
  }

  ghost function TrashFolder(l: Tree, id: Id): Result<Tree, Error> {
    if !LiveFolder(l, id) then Err(NotFound)
    else Ok(Tick(Stamped(l, Subtree(l.folders, id))))
  }

  predicate Gone(l: Tree, folder: Option<Id>) {
    folder.Some? && folder.value in l.folders && l.folders[folder.value].deletedAt.Some?
  }

  /** What went into the trash together comes back together; a folder whose parent is gone comes back at the top. */
  function Revived(l: Tree, id: Id, ids: set<Id>): Tree
    requires id in l.folders
  {
    var at := l.folders[id].deletedAt;
    var parent := if Gone(l, l.folders[id].parent) then None else l.folders[id].parent;
    l.(
      folders := map x | x in l.folders ::
        if x == id then l.folders[x].(deletedAt := None, parent := parent)
        else if x in ids && l.folders[x].deletedAt == at then l.folders[x].(deletedAt := None) else l.folders[x],
      files := map x | x in l.files ::
        if Within(l.files[x].folder, ids) && l.files[x].deletedAt == at
        then l.files[x].(deletedAt := None) else l.files[x])
  }

  ghost function RestoreFolder(l: Tree, id: Id): Result<Tree, Error> {
    if id !in l.folders || l.folders[id].deletedAt.None? then Err(NotFound)
    else Ok(Tick(Revived(l, id, Subtree(l.folders, id))))
  }

  function Without(l: Tree, ids: set<Id>): Tree {
    l.(
      folders := l.folders - ids,
      files := map x | x in l.files && !Within(l.files[x].folder, ids) :: l.files[x])
  }

  ghost function PurgeFolder(l: Tree, id: Id): Result<Tree, Error> {
    if id !in l.folders || l.folders[id].deletedAt.None? then Err(Conflict)
    else Ok(Tick(Without(l, Subtree(l.folders, id))))
  }

  function CreateFile(l: Tree, id: Id, folder: Option<Id>): Result<Tree, Error>
    requires id !in l.files
  {
    if folder.Some? && !LiveFolder(l, folder.value) then Err(NotFound)
    else Ok(Tick(l.(files := l.files[id := File(folder, None, false, 1, 1)])))
  }

  /** The transaction that stores a new version of a file. `seen` is the number of versions read before it began: the
      file was live then, and may be in the trash by now. */
  function StoreVersion(l: Tree, id: Id, seen: nat): Result<Tree, Error> {
    if id !in l.files || l.files[id].versions != seen then Err(Conflict)
    else
      var f := l.files[id];
      Ok(Tick(l.(files := l.files[id := f.(infected := false, versions := seen + 1, version := f.version + 1)])))
  }

  function MoveFile(l: Tree, id: Id, folder: Option<Id>, version: int): Result<Tree, Error> {
    if !LiveFile(l, id) then Err(NotFound)
    else if folder != l.files[id].folder && folder.Some? && !LiveFolder(l, folder.value) then Err(NotFound)
    else if l.files[id].version != version then Err(VersionConflict)
    else Ok(Tick(l.(files := l.files[id := l.files[id].(folder := folder, version := version + 1)])))
  }

  function TrashFile(l: Tree, id: Id): Result<Tree, Error> {
    if !LiveFile(l, id) then Err(NotFound)
    else Ok(Tick(l.(files := l.files[id := l.files[id].(deletedAt := Some(l.clock))])))
  }

  function RestoreFile(l: Tree, id: Id): Result<Tree, Error> {
    if id !in l.files then Err(NotFound)
    else if l.files[id].deletedAt.None? then Ok(Tick(l))
    else if l.files[id].infected then Err(Forbidden)
    else
      var folder := if Gone(l, l.files[id].folder) then None else l.files[id].folder;
      Ok(Tick(l.(files := l.files[id := l.files[id].(deletedAt := None, folder := folder)])))
  }

  /** The scan condemns the current version: the file goes to the trash, even out of the trash it was in. */
  function Quarantine(l: Tree, id: Id): Result<Tree, Error> {
    if id !in l.files then Err(NotFound)
    else Ok(Tick(l.(files := l.files[id := l.files[id].(deletedAt := Some(l.clock), infected := true)])))
  }

  function PurgeFile(l: Tree, id: Id): Result<Tree, Error> {
    if id !in l.files then Err(NotFound)
    else if l.files[id].deletedAt.None? then Err(Conflict)
    else Ok(Tick(l.(files := l.files - {id})))
  }

  datatype Step =
    | DoCreateFolder(id: Id, parent: Option<Id>)
    | DoMoveFolder(id: Id, parent: Option<Id>, version: int)
    | DoTrashFolder(id: Id)
    | DoRestoreFolder(id: Id)
    | DoPurgeFolder(id: Id)
    | DoCreateFile(id: Id, folder: Option<Id>)
    | DoStoreVersion(id: Id, seen: nat)
    | DoMoveFile(id: Id, folder: Option<Id>, version: int)
    | DoTrashFile(id: Id)
    | DoRestoreFile(id: Id)
    | DoQuarantine(id: Id)
    | DoPurgeFile(id: Id)

  ghost function Apply(l: Tree, s: Step): Result<Tree, Error> {
    match s
    case DoCreateFolder(id, parent) => if id in l.folders then Err(Conflict) else CreateFolder(l, id, parent)
    case DoMoveFolder(id, parent, version) => MoveFolder(l, id, parent, version)
    case DoTrashFolder(id) => TrashFolder(l, id)
    case DoRestoreFolder(id) => RestoreFolder(l, id)
    case DoPurgeFolder(id) => PurgeFolder(l, id)
    case DoCreateFile(id, folder) => if id in l.files then Err(Conflict) else CreateFile(l, id, folder)
    case DoStoreVersion(id, seen) => StoreVersion(l, id, seen)
    case DoMoveFile(id, folder, version) => MoveFile(l, id, folder, version)
    case DoTrashFile(id) => TrashFile(l, id)
    case DoRestoreFile(id) => RestoreFile(l, id)
    case DoQuarantine(id) => Quarantine(l, id)
    case DoPurgeFile(id) => PurgeFile(l, id)
  }

  ghost function Next(l: Tree, s: Step): Tree {
    if Apply(l, s).Ok? then Apply(l, s).value else l
  }

  ghost function Run(l: Tree, steps: seq<Step>): Tree
    decreases |steps|
  {
    if steps == [] then l else Run(Next(l, steps[0]), steps[1..])
  }

  const EMPTY := Tree(map[], map[], 0)

  // -------------------------------------------------------------------------
  // What holds in every reachable state
  // -------------------------------------------------------------------------

  /** Nothing outlives what holds it: under a folder trashed at t everything was trashed at t or before. */
  predicate Under(l: Tree, folder: Option<Id>, deletedAt: Option<int>) {
    folder.Some? ==>
      && folder.value in l.folders
      && (l.folders[folder.value].deletedAt.Some? ==>
            deletedAt.Some? && deletedAt.value <= l.folders[folder.value].deletedAt.value)
  }

  predicate FolderOk(l: Tree, id: Id)
    requires id in l.folders
  {
    var f := l.folders[id];
    Under(l, f.parent, f.deletedAt) && (f.deletedAt.Some? ==> f.deletedAt.value < l.clock)
  }

  /** A file trashed alone: no folder carries the same stamp. */
  predicate OwnTime(l: Tree, deletedAt: Option<int>) {
    deletedAt.Some? && forall x :: x in l.folders ==> l.folders[x].deletedAt != deletedAt
  }

  /** A quarantined file is in the trash at a time of its own, and stays there when a new version is stored. */
  predicate FileOk(l: Tree, id: Id)
    requires id in l.files
  {
    var f := l.files[id];
    && (f.folder.Some? ==> f.folder.value in l.folders)
    && (f.deletedAt.Some? ==> f.deletedAt.value < l.clock)
    && (OwnTime(l, f.deletedAt) || (!f.infected && Under(l, f.folder, f.deletedAt)))
  }

  ghost predicate Inv(l: Tree) {
    && Acyclic(l.folders)
    && (forall id :: id in l.folders ==> FolderOk(l, id))
    && (forall id :: id in l.files ==> FileOk(l, id))
  }

  // -------------------------------------------------------------------------
  // The forest stays a forest
  // -------------------------------------------------------------------------

  lemma MoveStaysAcyclic(f: map<Id, Folder>, id: Id, p: Id, moved: Folder)
    requires Acyclic(f) && id in f && p in f && !Descends(f, id, p) && moved.parent == Some(p)
    ensures Acyclic(f[id := moved])
  {
    var r :| Ranked(f, r);
    var s := map x | x in f :: if Descends(f, id, x) then r[x] + r[p] + 1 else r[x];
    var g := f[id := moved];
    forall x | x in g
      ensures x in s
      ensures g[x].parent.Some? ==>
                g[x].parent.value in g && g[x].parent.value in s && s[g[x].parent.value] < s[x]
    {
      DescendsStep(f, id, x);
      assert f[x].parent.Some? ==> f[x].parent.value in f && r[f[x].parent.value] < r[x];
    }
    assert Ranked(g, s);
  }

  /** Changing deletion stamps, cutting folders loose or dropping whole subtrees creates no cycle. */
  lemma FewerEdgesAcyclic(f: map<Id, Folder>, g: map<Id, Folder>)
    requires Acyclic(f)
    requires forall id :: id in g ==>
               id in f && (g[id].parent == None || (g[id].parent == f[id].parent && g[id].parent.value in g))
    ensures Acyclic(g)
  {
    var r :| Ranked(f, r);
    assert Ranked(g, r);
  }

  lemma NewFolderAcyclic(f: map<Id, Folder>, id: Id, new': Folder)
    requires Acyclic(f) && id !in f && (new'.parent.Some? ==> new'.parent.value in f)
    ensures Acyclic(f[id := new'])
  {
    var r :| Ranked(f, r);
    var rank := if new'.parent.Some? then r[new'.parent.value] + 1 else 0;
    forall x | x in f ensures f[x].parent != Some(id) {
      assert f[x].parent.Some? ==> f[x].parent.value in f;
    }
    assert Ranked(f[id := new'], r[id := rank]);
  }

  // -------------------------------------------------------------------------
  // Trash and restore
  // -------------------------------------------------------------------------

  /** Below a folder trashed at t, everything is in the trash, since t or before. */
  lemma {:induction false} BelowTrashed(l: Tree, id: Id, x: Id, steps: nat)
    requires (forall y :: y in l.folders ==> FolderOk(l, y)) && id in l.folders && l.folders[id].deletedAt.Some?
    requires x in l.folders && Reaches(l.folders, id, x, steps)
    ensures l.folders[x].deletedAt.Some? && l.folders[x].deletedAt.value <= l.folders[id].deletedAt.value
    decreases steps
  {
    if x != id {
      assert FolderOk(l, x);
      BelowTrashed(l, id, l.folders[x].parent.value, steps - 1);
    }
  }

  lemma SubtreeTrashed(l: Tree, id: Id)
    requires (forall y :: y in l.folders ==> FolderOk(l, y)) && id in l.folders && l.folders[id].deletedAt.Some?
    ensures TrashedTree(l, id, Subtree(l.folders, id))
  {
    SubtreeClosed(l.folders, id);
    forall x | x in Subtree(l.folders, id)
      ensures l.folders[x].deletedAt.Some? && l.folders[x].deletedAt.value <= l.folders[id].deletedAt.value
    {
      var n: nat :| Reaches(l.folders, id, x, n);
      BelowTrashed(l, id, x, n);
    }
  }

  /** ids is root and all that hangs below it. */
  ghost predicate WholeTree(f: map<Id, Folder>, root: Id, ids: set<Id>) {
    && root in f && root in ids && ids <= f.Keys
    && forall x :: x in f && x != root ==> (x in ids <==> Within(f[x].parent, ids))
  }

  ghost predicate TrashedTree(l: Tree, root: Id, ids: set<Id>) {
    && WholeTree(l.folders, root, ids)
    && l.folders[root].deletedAt.Some?
    && forall x :: x in ids ==>
         l.folders[x].deletedAt.Some? && l.folders[x].deletedAt.value <= l.folders[root].deletedAt.value
  }

  lemma SubtreeClosed(f: map<Id, Folder>, root: Id)
    requires root in f && forall x :: x in f && f[x].parent.Some? ==> f[x].parent.value in f
    ensures WholeTree(f, root, Subtree(f, root))
  {
    forall x | x in f
      ensures Descends(f, root, x) <==> x == root || (f[x].parent.Some? && Descends(f, root, f[x].parent.value))
    {
      DescendsStep(f, root, x);
    }
  }

  lemma ParentsExist(l: Tree)
    requires Inv(l)
    ensures forall x :: x in l.folders && l.folders[x].parent.Some? ==> l.folders[x].parent.value in l.folders
  {
    hide Acyclic;
    forall x | x in l.folders && l.folders[x].parent.Some? ensures l.folders[x].parent.value in l.folders {
      assert FolderOk(l, x);
    }
  }

  lemma StampedFolderOk(l: Tree, id: Id, ids: set<Id>, x: Id)
    requires WholeTree(l.folders, id, ids) && LiveFolder(l, id) && x in l.folders && FolderOk(l, x)
    ensures FolderOk(Tick(Stamped(l, ids)), x)
  {
  }

  lemma StampedFileOk(l: Tree, id: Id, ids: set<Id>, x: Id)
    requires x in l.files && FileOk(l, x)
    ensures FileOk(Tick(Stamped(l, ids)), x)
  {
  }

  lemma TrashFolderKeeps(l: Tree, id: Id)
    requires Inv(l) && TrashFolder(l, id).Ok?
    ensures Inv(TrashFolder(l, id).value)
  {
    var n := TrashFolder(l, id).value;
    ParentsExist(l);
    SubtreeClosed(l.folders, id);
    hide Subtree, Acyclic, WholeTree, FolderOk, FileOk;
    FewerEdgesByParents(l, n);
    forall x | x in l.folders ensures FolderOk(n, x) {
      StampedFolderOk(l, id, Subtree(l.folders, id), x);
    }
    forall x | x in l.files ensures FileOk(n, x) {
      StampedFileOk(l, id, Subtree(l.folders, id), x);
    }
  }

  lemma FewerEdgesByParents(l: Tree, n: Tree)
    requires Inv(l) && n.folders.Keys == l.folders.Keys
    requires forall x :: x in n.folders ==> n.folders[x].parent == None || n.folders[x].parent == l.folders[x].parent
    ensures Acyclic(n.folders)
  {
    forall x | x in n.folders && n.folders[x].parent.Some? ensures n.folders[x].parent.value in n.folders {
      assert FolderOk(l, x);
    }
    FewerEdgesAcyclic(l.folders, n.folders);
  }

  lemma RevivedFolderOk(l: Tree, id: Id, ids: set<Id>, x: Id)
    requires TrashedTree(l, id, ids) && x in l.folders && FolderOk(l, x)
    ensures FolderOk(Tick(Revived(l, id, ids)), x)
  {
  }

  lemma RevivedFileOk(l: Tree, id: Id, ids: set<Id>, x: Id)
    requires TrashedTree(l, id, ids) && x in l.files && FileOk(l, x)
    ensures FileOk(Tick(Revived(l, id, ids)), x)
  {
    var n := Revived(l, id, ids);
    forall y | y in n.folders ensures n.folders[y].deletedAt.None? || n.folders[y].deletedAt == l.folders[y].deletedAt {
    }
    if OwnTime(l, l.files[x].deletedAt) {
      assert l.files[x].deletedAt != l.folders[id].deletedAt;
    }
  }

  lemma RestoreFolderKeeps(l: Tree, id: Id)
    requires Inv(l) && RestoreFolder(l, id).Ok?
    ensures Inv(RestoreFolder(l, id).value)
  {
    var n := RestoreFolder(l, id).value;
    SubtreeTrashed(l, id);
    hide Subtree, Acyclic, TrashedTree, FolderOk, FileOk;
    FewerEdgesByParents(l, n);
    forall x | x in l.folders ensures FolderOk(n, x) {
      RevivedFolderOk(l, id, Subtree(l.folders, id), x);
    }
    forall x | x in l.files ensures FileOk(n, x) {
      RevivedFileOk(l, id, Subtree(l.folders, id), x);
    }
  }

  lemma PurgeFolderKeeps(l: Tree, id: Id)
    requires Inv(l) && PurgeFolder(l, id).Ok?
    ensures Inv(PurgeFolder(l, id).value)
  {
    var n := PurgeFolder(l, id).value;
    ParentsExist(l);
    SubtreeClosed(l.folders, id);
    hide Subtree;
    forall x | x in n.folders
      ensures FolderOk(n, x) && (n.folders[x].parent.Some? ==> n.folders[x].parent.value in n.folders)
    {
      assert FolderOk(l, x);
    }
    FewerEdgesAcyclic(l.folders, n.folders);
    hide Acyclic;
    forall x | x in n.files ensures FileOk(n, x) {
      assert FileOk(l, x);
    }
  }

  lemma MoveFolderKeeps(l: Tree, id: Id, parent: Option<Id>, version: int)
    requires Inv(l) && MoveFolder(l, id, parent, version).Ok?
    ensures Inv(MoveFolder(l, id, parent, version).value)
  {
    var n := MoveFolder(l, id, parent, version).value;
    assert FolderOk(l, id);
    if parent.Some? && parent != l.folders[id].parent {
      MoveStaysAcyclic(l.folders, id, parent.value, n.folders[id]);
    } else {
      FewerEdgesByParents(l, n);
    }
    hide Acyclic, Descends;
    forall x | x in n.folders ensures FolderOk(n, x) {
      assert FolderOk(l, x);
    }
    forall x | x in n.files ensures FileOk(n, x) {
      assert FileOk(l, x);
    }
  }

  lemma CreateFolderKeeps(l: Tree, id: Id, parent: Option<Id>)
    requires Inv(l) && id !in l.folders && CreateFolder(l, id, parent).Ok?
    ensures Inv(CreateFolder(l, id, parent).value)
  {
    var n := CreateFolder(l, id, parent).value;
    NewFolderAcyclic(l.folders, id, n.folders[id]);
    hide Acyclic;
    forall x | x in n.folders ensures FolderOk(n, x) {
      if x != id { assert FolderOk(l, x); }
    }
    forall x | x in n.files ensures FileOk(n, x) {
      assert FileOk(l, x);
    }
  }

  predicate FileStep(s: Step) {
    || s.DoCreateFile? || s.DoStoreVersion? || s.DoMoveFile?
    || s.DoTrashFile? || s.DoRestoreFile? || s.DoQuarantine? || s.DoPurgeFile?
  }

  lemma FileStepFolders(l: Tree, s: Step)
    requires FileStep(s)
    ensures Next(l, s).folders == l.folders && Next(l, s).clock >= l.clock
  {
  }

  lemma FileStepFileOk(l: Tree, s: Step, x: Id)
    requires Inv(l) && FileStep(s) && x in Next(l, s).files
    ensures FileOk(Next(l, s), x)
  {
    hide Acyclic, FolderOk;
    if x in l.files { assert FileOk(l, x); }
    if s.DoQuarantine? || s.DoTrashFile? { FoldersTrashedBefore(l); }
  }

  lemma FoldersTrashedBefore(l: Tree)
    requires Inv(l)
    ensures forall x :: x in l.folders ==> l.folders[x].deletedAt != Some(l.clock)
  {
    hide Acyclic;
    forall x | x in l.folders ensures l.folders[x].deletedAt != Some(l.clock) {
      assert FolderOk(l, x);
    }
  }

  lemma FileStepKeeps(l: Tree, s: Step)
    requires Inv(l) && FileStep(s)
    ensures Inv(Next(l, s))
  {
    var n := Next(l, s);
    FileStepFolders(l, s);
    hide Acyclic, FileOk, Next;
    forall x | x in n.folders ensures FolderOk(n, x) {
      assert FolderOk(l, x);
    }
    forall x | x in n.files ensures FileOk(n, x) {
      FileStepFileOk(l, s, x);
    }
  }

  lemma NextKeeps(l: Tree, s: Step)
    requires Inv(l)
    ensures Inv(Next(l, s))
  {
    hide Inv, CreateFolder, MoveFolder, TrashFolder, RestoreFolder, PurgeFolder;
    if Apply(l, s).Ok? {
      match s
      case DoCreateFolder(id, parent) => CreateFolderKeeps(l, id, parent);
      case DoMoveFolder(id, parent, version) => MoveFolderKeeps(l, id, parent, version);
      case DoTrashFolder(id) => TrashFolderKeeps(l, id);
      case DoRestoreFolder(id) => RestoreFolderKeeps(l, id);
      case DoPurgeFolder(id) => PurgeFolderKeeps(l, id);
      case _ => FileStepKeeps(l, s);
    }
  }

  lemma {:induction false} RunKeeps(l: Tree, steps: seq<Step>)
    requires Inv(l)
    ensures Inv(Run(l, steps))
    decreases |steps|
  {
    if steps != [] {
      NextKeeps(l, steps[0]);
      hide Inv, Next;
      RunKeeps(Next(l, steps[0]), steps[1..]);
    }
  }

  // -------------------------------------------------------------------------
  // Main results
  // -------------------------------------------------------------------------

  /** Over every run: no cycle arises, and no live folder or file lies under a trashed folder, at any depth. */
  lemma LiveNeverUnderTrashed(steps: seq<Step>, top: Id, x: Id)
    ensures var l := Run(EMPTY, steps);
            && Acyclic(l.folders)
            && (top in l.folders && l.folders[top].deletedAt.Some? ==>
                  && (x in l.folders && Descends(l.folders, top, x) ==> l.folders[x].deletedAt.Some?)
                  && (x in l.files && l.files[x].folder.Some? && Descends(l.folders, top, l.files[x].folder.value) ==>
                        l.files[x].deletedAt.Some?))
  {
    assert Ranked(EMPTY.folders, map[]);
    RunKeeps(EMPTY, steps);
    var l := Run(EMPTY, steps);
    hide Run, Acyclic;
    if top in l.folders && l.folders[top].deletedAt.Some? {
      SubtreeTrashed(l, top);
      if x in l.files {
        assert FileOk(l, x);
      }
    }
  }

  lemma NextKeepsVersions(l: Tree, s: Step, id: Id, seen: nat)
    requires (id in l.files ==> l.files[id].versions > seen) && !(s.DoCreateFile? && s.id == id)
    ensures id in Next(l, s).files ==> Next(l, s).files[id].versions > seen
  {
  }

  lemma {:induction false} VersionsStayAhead(l: Tree, id: Id, seen: nat, steps: seq<Step>)
    requires id in l.files ==> l.files[id].versions > seen
    requires forall s :: s in steps ==> !(s.DoCreateFile? && s.id == id)
    ensures id in Run(l, steps).files ==> Run(l, steps).files[id].versions > seen
    decreases |steps|
  {
    if steps != [] {
      NextKeepsVersions(l, steps[0], id, seen);
      hide Next;
      VersionsStayAhead(Next(l, steps[0]), id, seen, steps[1..]);
    }
  }

  /** Of the uploads that read the same number of versions at most one is stored, whatever happens in between. */
  lemma OneUploadPerCount(l: Tree, id: Id, seen: nat, steps: seq<Step>)
    requires StoreVersion(l, id, seen).Ok?
    requires forall s :: s in steps ==> !(s.DoCreateFile? && s.id == id)
    ensures StoreVersion(Run(StoreVersion(l, id, seen).value, steps), id, seen) == Err(Conflict)
  {
    VersionsStayAhead(StoreVersion(l, id, seen).value, id, seen, steps);
  }

  lemma {:induction false} SameParentsReach(f: map<Id, Folder>, g: map<Id, Folder>, root: Id, x: Id, steps: nat)
    requires f.Keys == g.Keys && forall y :: y in f ==> f[y].parent == g[y].parent
    ensures Reaches(f, root, x, steps) == Reaches(g, root, x, steps)
    decreases steps
  {
    if steps > 0 && x in f && f[x].parent.Some? {
      SameParentsReach(f, g, root, f[x].parent.value, steps - 1);
    }
  }

  lemma SameParentsSubtree(f: map<Id, Folder>, g: map<Id, Folder>, root: Id)
    requires f.Keys == g.Keys && forall y :: y in f ==> f[y].parent == g[y].parent
    ensures Subtree(f, root) == Subtree(g, root)
  {
    forall x, n: nat ensures Reaches(f, root, x, n) == Reaches(g, root, x, n) {
      SameParentsReach(f, g, root, x, n);
    }
    forall x ensures Descends(f, root, x) <==> Descends(g, root, x) {
      if Descends(f, root, x) { var n: nat :| Reaches(f, root, x, n); assert Reaches(g, root, x, n); }
      if Descends(g, root, x) { var n: nat :| Reaches(g, root, x, n); assert Reaches(f, root, x, n); }
    }
  }

  lemma RevivedStamped(l: Tree, id: Id, ids: set<Id>)
    requires LiveFolder(l, id) && WholeTree(l.folders, id, ids) && !Gone(Tick(Stamped(l, ids)), l.folders[id].parent)
    requires forall x :: x in l.folders ==> FolderOk(l, x)
    requires forall x :: x in l.files ==> FileOk(l, x)
    ensures Revived(Tick(Stamped(l, ids)), id, ids) == Tick(l)
  {
    var t := Tick(Stamped(l, ids));
    var r := Revived(t, id, ids);
    forall x | x in l.folders ensures r.folders[x] == l.folders[x] {
      assert FolderOk(l, x);
    }
    hide FolderOk;
    forall x | x in l.files ensures r.files[x] == l.files[x] {
      assert FileOk(l, x);
    }
    assert r.folders == l.folders && r.files == l.files;
  }

  /** Restoring a folder that was just trashed gives back exactly the tree there was: what had been trashed earlier
      stays in the trash. */
  lemma RestoreUndoesTrash(l: Tree, id: Id)
    requires Inv(l) && TrashFolder(l, id).Ok?
    ensures RestoreFolder(TrashFolder(l, id).value, id) == Ok(l.(clock := l.clock + 2))
  {
    hide Acyclic, FolderOk, FileOk, WholeTree, Subtree, Gone, Revived;
    var t := TrashFolder(l, id).value;
    ParentsExist(l);
    SubtreeClosed(l.folders, id);
    SameParentsSubtree(l.folders, t.folders, id);
    ParentStaysLive(l, id);
    RevivedStamped(l, id, Subtree(l.folders, id));
  }

  /** The parent of a live folder is live, and trashing the folder does not trash it. */
  lemma ParentStaysLive(l: Tree, id: Id)
    requires Inv(l) && TrashFolder(l, id).Ok?
    ensures !Gone(TrashFolder(l, id).value, l.folders[id].parent)
  {
    assert FolderOk(l, id);
    if l.folders[id].parent.Some? {
      var p := l.folders[id].parent.value;
      var r :| Ranked(l.folders, r);
      if Descends(l.folders, id, p) {
        var n: nat :| Reaches(l.folders, id, p, n);
        ReachRank(l.folders, r, id, p, n);
      }
    }
  }

  lemma {:induction false} ReachRank(f: map<Id, Folder>, r: map<Id, nat>, root: Id, x: Id, steps: nat)
    requires Ranked(f, r) && x in f && Reaches(f, root, x, steps)
    ensures root in f && r[root] <= r[x]
    decreases steps
  {
    if x != root {
      ReachRank(f, r, root, f[x].parent.value, steps - 1);
    }
  }

  /** Trashing a folder takes exactly what was live in its tree out of sight, and moves nothing. */
  lemma TrashTakesTree(l: Tree, id: Id, x: Id)
    requires Inv(l) && TrashFolder(l, id).Ok?
    ensures var n := TrashFolder(l, id).value;
            && (LiveFolder(n, x) <==> LiveFolder(l, x) && !Descends(l.folders, id, x))
            && (LiveFile(n, x) <==>
                LiveFile(l, x) && !(l.files[x].folder.Some? && Descends(l.folders, id, l.files[x].folder.value)))
            && (x in l.folders ==> n.folders[x].parent == l.folders[x].parent)
            && (x in l.files ==> n.files[x].folder == l.files[x].folder)
  {
    hide Acyclic, Descends;
    if x in l.files { assert FileOk(l, x); }
  }

  /** Purging takes the whole tree and every file in it and leaves the rest as it is; all it takes was in the trash. */
  lemma PurgeTakesTrashedTree(l: Tree, id: Id, x: Id)
    requires Inv(l) && PurgeFolder(l, id).Ok?
    ensures var n := PurgeFolder(l, id).value;
            && (x in n.folders <==> x in l.folders && !Descends(l.folders, id, x))
            && (x in n.files <==>
                x in l.files && !(l.files[x].folder.Some? && Descends(l.folders, id, l.files[x].folder.value)))
            && (x in n.folders ==> n.folders[x] == l.folders[x]) && (x in n.files ==> n.files[x] == l.files[x])
            && (LiveFolder(l, x) ==> LiveFolder(n, x)) && (LiveFile(l, x) ==> LiveFile(n, x))
  {
    SubtreeTrashed(l, id);
    hide Acyclic, Descends;
    if x in l.files { assert FileOk(l, x); }
  }
}
