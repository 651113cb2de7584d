/** Moves and creations whose checks and writes have other requests in between. The checks read one state of the
    library, the write happens in a later one and looks at nothing but the row and its foreign key. */
module FolderRaces {
  import opened Wrappers
  import opened Library

  /** The checks of a move, with the ancestor walk. */
  ghost function CheckMove(l: Tree, id: Id, parent: Option<Id>): Option<Error> {
    if !LiveFolder(l, id) then Some(NotFound)
    else if parent == l.folders[id].parent || parent.None? then None
    else if !LiveFolder(l, parent.value) then Some(NotFound)
    else if Descends(l.folders, id, parent.value) then Some(BadRequest)
    else None
  }

  /** The update of a move: it goes by the version alone, and the parent has to exist. */
  function WriteMove(l: Tree, id: Id, parent: Option<Id>, version: int): Result<Tree, Error> {
    if id !in l.folders || l.folders[id].version != version then Err(VersionConflict)
    else if parent.Some? && parent.value !in l.folders then Err(Conflict)
    else Ok(Tick(l.(folders := l.folders[id := l.folders[id].(parent := parent, version := version + 1)])))
  }

  /** With nothing in between, checks and update are the move of the library. */
  lemma UninterruptedMove(l: Tree, id: Id, parent: Option<Id>, version: int)
    requires Inv(l)
    ensures MoveFolder(l, id, parent, version) ==
            if CheckMove(l, id, parent).Some? then Err(CheckMove(l, id, parent).value)
            else WriteMove(l, id, parent, version)
  {
    hide Acyclic, Descends, FileOk;
    if id in l.folders { assert FolderOk(l, id); }
  }

  /** Hanging a folder below itself closes a cycle. */
  lemma BelowItselfIsCyclic(f: map<Id, Folder>, id: Id, p: Id, moved: Folder)
    requires Acyclic(f) && id in f && Descends(f, id, p) && moved.parent == Some(p)
    ensures !Acyclic(f[id := moved])
  {
    var g := f[id := moved];
    var n: nat :| Reaches(f, id, p, n);
    StillReaches(f, id, p, n, moved);
    forall r ensures !Ranked(g, r) {
      NotRanked(g, r, id, p, n);
    }
  }

  lemma NotRanked(g: map<Id, Folder>, r: map<Id, nat>, id: Id, p: Id, n: nat)
    requires id in g && g[id].parent == Some(p) && Reaches(g, id, p, n)
    ensures !Ranked(g, r)
  {
    if Ranked(g, r) {
      ReachRank(g, r, id, p, n);
    }
  }

  lemma {:induction false} StillReaches(f: map<Id, Folder>, id: Id, x: Id, n: nat, moved: Folder)
    requires id in f && Reaches(f, id, x, n)
    ensures Reaches(f[id := moved], id, x, n)
    decreases n
  {
    if x != id { StillReaches(f, id, f[x].parent.value, n - 1, moved); }
  }

  /** The update keeps the folders a forest exactly when, at that moment, the new parent is not below the folder. */
  lemma ForestKeptExactly(l: Tree, id: Id, parent: Option<Id>, version: int)
    requires Inv(l) && WriteMove(l, id, parent, version).Ok?
    ensures Acyclic(WriteMove(l, id, parent, version).value.folders) <==>
            !(parent.Some? && Descends(l.folders, id, parent.value))
  {
    var n := WriteMove(l, id, parent, version).value;
    if parent.None? {
      FewerEdgesByParents(l, n);
    } else if Descends(l.folders, id, parent.value) {
      BelowItselfIsCyclic(l.folders, id, parent.value, n.folders[id]);
    } else {
      MoveStaysAcyclic(l.folders, id, parent.value, n.folders[id]);
    }
  }

  /** Whatever happens between the checks and the update of a move, the update keeps the library's invariant exactly
      when, at that moment, the new parent is not below the folder, and is live or went to the trash no earlier than the
      folder. */
  lemma InterruptedMove(l: Tree, steps: seq<Step>, id: Id, parent: Option<Id>, version: int)
    requires Inv(l) && WriteMove(Run(l, steps), id, parent, version).Ok?
    ensures var m := Run(l, steps);
            Inv(WriteMove(m, id, parent, version).value) <==>
              && !(parent.Some? && Descends(m.folders, id, parent.value))
              && Under(m, parent, m.folders[id].deletedAt)
  {
    RunKeeps(l, steps);
    var m := Run(l, steps);
    var n := WriteMove(m, id, parent, version).value;
    ForestKeptExactly(m, id, parent, version);
    hide Acyclic, Run, Descends;
    if Inv(n) {
      assert FolderOk(n, id);
    }
    if Acyclic(n.folders) && Under(m, parent, m.folders[id].deletedAt) {
      SelfNotParent(m, id, parent, version);
      OthersStayOk(m, id, parent, version);
    }
  }

  lemma SelfNotParent(l: Tree, id: Id, parent: Option<Id>, version: int)
    requires Inv(l) && WriteMove(l, id, parent, version).Ok?
    requires Acyclic(WriteMove(l, id, parent, version).value.folders)
    ensures parent != Some(id)
  {
    if parent == Some(id) {
      assert Reaches(l.folders, id, id, 0);
      ForestKeptExactly(l, id, parent, version);
    }
  }

  lemma OthersStayOk(l: Tree, id: Id, parent: Option<Id>, version: int)
    requires Inv(l) && WriteMove(l, id, parent, version).Ok? && parent != Some(id)
    requires Under(l, parent, l.folders[id].deletedAt)
    ensures var n := WriteMove(l, id, parent, version).value;
            && (forall x :: x in n.folders ==> FolderOk(n, x)) && (forall x :: x in n.files ==> FileOk(n, x))
  {
    var n := WriteMove(l, id, parent, version).value;
    hide Acyclic;
    forall x | x in n.folders ensures FolderOk(n, x) { assert FolderOk(l, x); }
    forall x | x in n.files ensures FileOk(n, x) { assert FileOk(l, x); }
  }

  /** The case occurs whenever two folders, neither below the other, are moved into each other at once: both checks
      pass, both updates go through, and the two form a cycle. */
  lemma CrossedMoves(l: Tree, a: Id, b: Id)
    requires Inv(l) && LiveFolder(l, a) && LiveFolder(l, b)
    requires !Descends(l.folders, a, b) && !Descends(l.folders, b, a)
    ensures CheckMove(l, a, Some(b)) == None && CheckMove(l, b, Some(a)) == None
    ensures var first := WriteMove(l, a, Some(b), l.folders[a].version);
            && first.Ok?
            && var second := WriteMove(first.value, b, Some(a), l.folders[b].version);
               second.Ok? && !Acyclic(second.value.folders)
  {
    assert a != b by { if a == b { assert Reaches(l.folders, a, b, 0); } }
    var n := WriteMove(l, a, Some(b), l.folders[a].version).value;
    assert Run(l, []) == l;
    InterruptedMove(l, [], a, Some(b), l.folders[a].version);
    assert Reaches(n.folders, b, a, 1);
    ForestKeptExactly(n, b, Some(a), l.folders[b].version);
  }

  /** The insert of a folder: the parent has to exist. */
  function WriteFolder(l: Tree, id: Id, parent: Option<Id>): Result<Tree, Error>
    requires id !in l.folders
  {
    if parent.Some? && parent.value !in l.folders then Err(Conflict)
    else Ok(Tick(l.(folders := l.folders[id := Folder(parent, None, 1)])))
  }

  /** The insert of a file. */
  function WriteFile(l: Tree, id: Id, folder: Option<Id>): Result<Tree, Error>
    requires id !in l.files
  {
    if folder.Some? && folder.value !in l.folders then Err(Conflict)
    else Ok(Tick(l.(files := l.files[id := File(folder, None, false, 1, 1)])))
  }

  /** A folder created, or a file uploaded, while its place is being trashed keeps the invariant exactly when the place
      is still live at the insert. */
  lemma InterruptedCreation(l: Tree, steps: seq<Step>, id: Id, place: Option<Id>)
    requires Inv(l)
    ensures var m := Run(l, steps);
            && (id !in m.folders && WriteFolder(m, id, place).Ok? ==>
                  (Inv(WriteFolder(m, id, place).value) <==> (place.Some? ==> LiveFolder(m, place.value))))
            && (id !in m.files && WriteFile(m, id, place).Ok? ==>
                  (Inv(WriteFile(m, id, place).value) <==> (place.Some? ==> LiveFolder(m, place.value))))
  {
    RunKeeps(l, steps);
    var m := Run(l, steps);
    hide Run;
    if id !in m.folders && WriteFolder(m, id, place).Ok? { FolderInsertExactly(m, id, place); }
    if id !in m.files && WriteFile(m, id, place).Ok? { FileInsertExactly(m, id, place); }
  }

  lemma LivePlaces(l: Tree, id: Id)
    ensures Inv(l) && LiveFolder(l, id) ==> Under(l, l.folders[id].parent, None)
    ensures Inv(l) && LiveFile(l, id) ==> Under(l, l.files[id].folder, None)
  {
    if Inv(l) && LiveFolder(l, id) { assert FolderOk(l, id); }
    if Inv(l) && LiveFile(l, id) { assert FileOk(l, id); }
  }

  lemma FolderInsertExactly(l: Tree, id: Id, parent: Option<Id>)
    requires Inv(l) && id !in l.folders && WriteFolder(l, id, parent).Ok?
    ensures Inv(WriteFolder(l, id, parent).value) <==> (parent.Some? ==> LiveFolder(l, parent.value))
  {
    var n := WriteFolder(l, id, parent).value;
    if parent.Some? ==> LiveFolder(l, parent.value) {
      CreateFolderKeeps(l, id, parent);
    } else {
      LivePlaces(n, id);
    }
  }

  lemma FileInsertExactly(l: Tree, id: Id, folder: Option<Id>)
    requires Inv(l) && id !in l.files && WriteFile(l, id, folder).Ok?
    ensures Inv(WriteFile(l, id, folder).value) <==> (folder.Some? ==> LiveFolder(l, folder.value))
  {
    var n := WriteFile(l, id, folder).value;
    if folder.Some? ==> LiveFolder(l, folder.value) {
      NextKeeps(l, DoCreateFile(id, folder));
    } else {
      LivePlaces(n, id);
    }
  }
}
