/** Where an operation of the library leaves the item it is about, and that it leaves every other item alone. */
module LibraryEffects {
  import opened Wrappers
  import opened Library

  ghost predicate OnlyFolder(l: Tree, n: Tree, id: Id) {
    && n.files == l.files
    && forall x: Id :: x != id ==>
         (x in n.folders <==> x in l.folders) && (x in l.folders ==> n.folders[x] == l.folders[x])
  }

  ghost predicate OnlyFile(l: Tree, n: Tree, id: Id) {
    && n.folders == l.folders
    && forall x: Id :: x != id ==> (x in n.files <==> x in l.files) && (x in l.files ==> n.files[x] == l.files[x])
  }

  /** The top of the library, or a live folder. */
  predicate LivePlace(l: Tree, place: Option<Id>) {
    place.Some? ==> LiveFolder(l, place.value)
  }

  // -------------------------------------------------------------------------
  // Creating and moving
  // -------------------------------------------------------------------------

  /** A folder is created in the requested place, exactly when that is live. */
  lemma FolderCreated(l: Tree, id: Id, place: Option<Id>)
    requires id !in l.folders
    ensures CreateFolder(l, id, place).Ok? <==> LivePlace(l, place)
    ensures CreateFolder(l, id, place) == Err(NotFound) <==> !LivePlace(l, place)
    ensures CreateFolder(l, id, place).Ok? ==>
              var n := CreateFolder(l, id, place).value;
              && LiveFolder(n, id) && n.folders[id].parent == place && n.folders[id].version == 1
              && OnlyFolder(l, n, id)
  {
  }

  /** So is a file. */
  lemma FileCreated(l: Tree, id: Id, place: Option<Id>)
    requires id !in l.files
    ensures CreateFile(l, id, place).Ok? <==> LivePlace(l, place)
    ensures CreateFile(l, id, place) == Err(NotFound) <==> !LivePlace(l, place)
    ensures CreateFile(l, id, place).Ok? ==>
              var n := CreateFile(l, id, place).value;
              && LiveFile(n, id) && n.files[id].folder == place && n.files[id].version == 1
              && n.files[id].versions == 1 && !n.files[id].infected && OnlyFile(l, n, id)
  {
  }

  /** An accepted move puts the folder, live as before, into the requested place at its next version. */
  lemma FolderMoved(l: Tree, id: Id, place: Option<Id>, version: int)
    requires MoveFolder(l, id, place, version).Ok?
    ensures var n := MoveFolder(l, id, place, version).value;
            && LiveFolder(l, id) && l.folders[id].version == version
            && (place != l.folders[id].parent ==> LivePlace(l, place))
            && LiveFolder(n, id) && n.folders[id].parent == place && n.folders[id].version == version + 1
            && OnlyFolder(l, n, id)
  {
  }

  /** An accepted move puts the file, live as before, into the requested folder at its next version; its stored versions
      are what they were. */
  lemma FileMoved(l: Tree, id: Id, place: Option<Id>, version: int)
    requires MoveFile(l, id, place, version).Ok?
    ensures var n := MoveFile(l, id, place, version).value;
            && LiveFile(l, id) && l.files[id].version == version
            && (place != l.files[id].folder ==> LivePlace(l, place))
            && LiveFile(n, id) && n.files[id].folder == place && n.files[id].version == version + 1
            && n.files[id].versions == l.files[id].versions && n.files[id].infected == l.files[id].infected
            && OnlyFile(l, n, id)
  {
  }

  // -------------------------------------------------------------------------
  // Trash, restore and purge of one file
  // -------------------------------------------------------------------------

  /** A trashed file keeps its folder; a restored one is back in its folder, or at the top if that is in the trash. */
  lemma FileTrashedAndRestored(l: Tree, id: Id)
    ensures TrashFile(l, id).Ok? <==> LiveFile(l, id)
    ensures TrashFile(l, id).Ok? ==>
              var n := TrashFile(l, id).value;
              && id in n.files && n.files[id] == l.files[id].(deletedAt := Some(l.clock)) && OnlyFile(l, n, id)
    ensures RestoreFile(l, id).Ok? <==> id in l.files && (l.files[id].deletedAt.Some? ==> !l.files[id].infected)
    ensures RestoreFile(l, id).Ok? ==>
              var n := RestoreFile(l, id).value;
              && LiveFile(n, id) && OnlyFile(l, n, id) && n.files[id].versions == l.files[id].versions
              && n.files[id].folder ==
                 (if l.files[id].deletedAt.Some? && Gone(l, l.files[id].folder) then None else l.files[id].folder)
  {
  }

  /** Restoring a file that was just trashed gives back exactly the library there was. */
  lemma RestoreUndoesTrashFile(l: Tree, id: Id)
    requires Inv(l) && TrashFile(l, id).Ok?
    ensures RestoreFile(TrashFile(l, id).value, id) == Ok(l.(clock := l.clock + 2))
  {
    assert FileOk(l, id);
    hide Acyclic;
    var t := TrashFile(l, id).value;
    assert t.files[id := l.files[id]] == l.files;
  }

  /** Purging takes one trashed file away; quarantine puts one into the trash, condemned. */
  lemma FilePurgedOrCondemned(l: Tree, id: Id)
    ensures PurgeFile(l, id).Ok? <==> id in l.files && !LiveFile(l, id)
    ensures PurgeFile(l, id).Ok? ==> id !in PurgeFile(l, id).value.files && OnlyFile(l, PurgeFile(l, id).value, id)
    ensures Quarantine(l, id).Ok? <==> id in l.files
    ensures Quarantine(l, id) == Err(NotFound) <==> id !in l.files
    ensures Quarantine(l, id).Ok? ==>
              var n := Quarantine(l, id).value;
              && id in n.files && !LiveFile(n, id) && n.files[id].infected && n.files[id].folder == l.files[id].folder
              && OnlyFile(l, n, id)
  {
  }

  /** Restoring a folder brings the folder itself back into its parent, or to the top if that is in the trash; of the
      rest of the library, only what went into the trash together with it comes back, where it was. */
  lemma FolderRestored(l: Tree, id: Id, x: Id)
    requires RestoreFolder(l, id).Ok?
    ensures var n, at := RestoreFolder(l, id).value, l.folders[id].deletedAt;
            && at.Some? && LiveFolder(n, id) && n.folders.Keys == l.folders.Keys && n.files.Keys == l.files.Keys
            && n.folders[id].parent == (if Gone(l, l.folders[id].parent) then None else l.folders[id].parent)
            && (x in l.folders && x != id ==>
                  n.folders[x] == if Descends(l.folders, id, x) && l.folders[x].deletedAt == at
                                  then l.folders[x].(deletedAt := None) else l.folders[x])
            && (x in l.files ==>
                  n.files[x] == if l.files[x].folder.Some? && l.files[x].folder.value in l.folders &&
                                   Descends(l.folders, id, l.files[x].folder.value) && l.files[x].deletedAt == at
                                then l.files[x].(deletedAt := None) else l.files[x])
  {
    hide Descends;
  }

  // -------------------------------------------------------------------------
  // Versions and quarantine over runs
  // -------------------------------------------------------------------------

  /** Moves of a folder are counted by its version. */
  predicate FolderCounted(l: Tree, n: Tree, id: Id) {
    id in n.folders ==> id in l.folders && n.folders[id].version >= l.folders[id].version
  }

  lemma FolderChangeCounted(l: Tree, s: Step, id: Id)
    requires id in l.folders
    ensures FolderCounted(l, Next(l, s), id)
  {
    hide Descends;
  }

  lemma {:induction false} FolderVersionsGrow(l: Tree, steps: seq<Step>, id: Id, version: int)
    requires id in l.folders ==> l.folders[id].version > version
    requires forall s :: s in steps ==> !(s.DoCreateFolder? && s.id == id)
    ensures id in Run(l, steps).folders ==> Run(l, steps).folders[id].version > version
    decreases |steps|
  {
    if steps != [] {
      if id in l.folders { FolderChangeCounted(l, steps[0], id); } else { FolderStaysGone(l, steps[0], id); }
      hide Next;
      FolderVersionsGrow(Next(l, steps[0]), steps[1..], id, version);
    }
  }

  lemma FolderStaysGone(l: Tree, s: Step, id: Id)
    requires id !in l.folders && !(s.DoCreateFolder? && s.id == id)
    ensures id !in Next(l, s).folders
  {
    hide Descends;
  }

  /** Of the moves of a folder sent with one version at most one is accepted. */
  lemma OneFolderMovePerVersion(l: Tree, id: Id, place: Option<Id>, version: int, steps: seq<Step>, place': Option<Id>)
    requires MoveFolder(l, id, place, version).Ok?
    requires forall s :: s in steps ==> !(s.DoCreateFolder? && s.id == id)
    ensures MoveFolder(Run(MoveFolder(l, id, place, version).value, steps), id, place', version).Err?
  {
    FolderVersionsGrow(MoveFolder(l, id, place, version).value, steps, id, version);
    hide Run, Descends;
  }

  lemma FileChangeCounted(l: Tree, s: Step, id: Id, version: int)
    requires (id in l.files ==> l.files[id].version > version) && !(s.DoCreateFile? && s.id == id)
    ensures id in Next(l, s).files ==> Next(l, s).files[id].version > version
  {
    hide Descends;
  }

  lemma {:induction false} FileVersionsGrow(l: Tree, steps: seq<Step>, id: Id, version: int)
    requires id in l.files ==> l.files[id].version > version
    requires forall s :: s in steps ==> !(s.DoCreateFile? && s.id == id)
    ensures id in Run(l, steps).files ==> Run(l, steps).files[id].version > version
    decreases |steps|
  {
    if steps != [] {
      FileChangeCounted(l, steps[0], id, version);
      hide Next;
      FileVersionsGrow(Next(l, steps[0]), steps[1..], id, version);
    }
  }

  /** Nor of the moves of a file; a stored version in between makes a move stale too. */
  lemma OneFileMovePerVersion(l: Tree, id: Id, place: Option<Id>, version: int, steps: seq<Step>, place': Option<Id>)
    requires MoveFile(l, id, place, version).Ok?
    requires forall s :: s in steps ==> !(s.DoCreateFile? && s.id == id)
    ensures MoveFile(Run(MoveFile(l, id, place, version).value, steps), id, place', version).Err?
  {
    FileVersionsGrow(MoveFile(l, id, place, version).value, steps, id, version);
    hide Run;
  }

  /** A condemned file is gone or still condemned until a new version is stored. */
  predicate Condemned(l: Tree, id: Id) {
    id in l.files ==> l.files[id].infected && l.files[id].deletedAt.Some?
  }

  lemma StaysCondemned(l: Tree, s: Step, id: Id)
    requires Inv(l) && Condemned(l, id) && !(s.DoCreateFile? && s.id == id) && !(s.DoStoreVersion? && s.id == id)
    ensures Condemned(Next(l, s), id)
  {
    hide Acyclic, Descends, FolderOk;
    if id in l.files { assert FileOk(l, id); }
  }

  /** What the scan condemned never comes back into the library: over any run in which no new version of it is stored,
      it stays in the trash, and restoring it, or any folder above it, does not bring it back. */
  lemma {:induction false} QuarantineHolds(l: Tree, id: Id, steps: seq<Step>)
    requires Inv(l) && Condemned(l, id)
    requires forall s :: s in steps ==> !(s.DoCreateFile? && s.id == id) && !(s.DoStoreVersion? && s.id == id)
    ensures Condemned(Run(l, steps), id) && RestoreFile(Run(l, steps), id).Err?
    decreases |steps|
  {
    if steps != [] {
      NextKeeps(l, steps[0]);
      StaysCondemned(l, steps[0], id);
      hide Next, Inv;
      QuarantineHolds(Next(l, steps[0]), id, steps[1..]);
    }
  }

  // -------------------------------------------------------------------------
  // What is accepted
  // -------------------------------------------------------------------------

  /** A live folder is moved, at its current version, to a live place that is not the folder itself or below it; leaving
      it where it is needs no check of the place. */
  lemma FolderMovedExactly(l: Tree, id: Id, place: Option<Id>, version: int)
    ensures var stays := LiveFolder(l, id) && place == l.folders[id].parent;
            && (MoveFolder(l, id, place, version).Ok? <==>
                  && LiveFolder(l, id) && l.folders[id].version == version
                  && (stays || (LivePlace(l, place) && !(place.Some? && Descends(l.folders, id, place.value)))))
            && (MoveFolder(l, id, place, version) == Err(NotFound) <==>
                  !LiveFolder(l, id) || (!stays && !LivePlace(l, place)))
            && (MoveFolder(l, id, place, version) == Err(BadRequest) <==>
                  LiveFolder(l, id) && !stays && LivePlace(l, place) && place.Some? &&
                  Descends(l.folders, id, place.value))
  {
    hide Descends;
  }

  /** A live file is moved, at its current version, to a live place or to where it is. */
  lemma FileMovedExactly(l: Tree, id: Id, place: Option<Id>, version: int)
    ensures var fits := LiveFile(l, id) && (place == l.files[id].folder || LivePlace(l, place));
            && (MoveFile(l, id, place, version).Ok? <==> fits && l.files[id].version == version)
            && (MoveFile(l, id, place, version) == Err(VersionConflict) <==> fits && l.files[id].version != version)
            && (MoveFile(l, id, place, version) == Err(NotFound) <==> !fits)
  {
  }

  /** Only live folders are trashed, only trashed ones restored or purged; and what each refusal says. */
  lemma FolderTrashExactly(l: Tree, id: Id)
    ensures TrashFolder(l, id).Ok? <==> LiveFolder(l, id)
    ensures TrashFolder(l, id).Err? ==> TrashFolder(l, id) == Err(NotFound)
    ensures RestoreFolder(l, id).Ok? <==> id in l.folders && !LiveFolder(l, id)
    ensures RestoreFolder(l, id).Err? ==> RestoreFolder(l, id) == Err(NotFound)
    ensures PurgeFolder(l, id).Ok? <==> id in l.folders && !LiveFolder(l, id)
    ensures PurgeFolder(l, id).Err? ==> PurgeFolder(l, id) == Err(Conflict)
  {
    hide Subtree;
  }

  /** What the refusals of file operations say. */
  lemma FileRefusalsMean(l: Tree, id: Id, seen: nat)
    ensures TrashFile(l, id).Err? ==> TrashFile(l, id) == Err(NotFound)
    ensures RestoreFile(l, id) == Err(NotFound) <==> id !in l.files
    ensures RestoreFile(l, id) == Err(Forbidden) <==> id in l.files && !LiveFile(l, id) && l.files[id].infected
    ensures PurgeFile(l, id) == Err(NotFound) <==> id !in l.files
    ensures PurgeFile(l, id) == Err(Conflict) <==> LiveFile(l, id)
    ensures StoreVersion(l, id, seen) == Err(Conflict) <==> !(id in l.files && l.files[id].versions == seen)
    ensures StoreVersion(l, id, seen).Ok? ==>
              var n := StoreVersion(l, id, seen).value;
              && id in n.files && !n.files[id].infected && n.files[id].versions == seen + 1
              && n.files[id].version == l.files[id].version + 1 && n.files[id].folder == l.files[id].folder
              && n.files[id].deletedAt == l.files[id].deletedAt && OnlyFile(l, n, id)
  {
  }

  /** Every operation that is accepted happens at a time of its own. */
  lemma TimesDiffer(l: Tree, s: Step)
    ensures Apply(l, s).Ok? ==> Next(l, s).clock == l.clock + 1
  {
    hide Subtree, Descends;
  }
}
