/** The table of pipeline definitions, kept in step with the pipeline files of each project. */
module Definitions {
  import opened Wrappers

  datatype Row = Row(
    id: nat, project: string, path: string, content: string, hash: string, active: bool, updatedAt: nat
  )

  /** The stored rows, the next unused id, and a logical clock. */
  datatype Table = Table(rows: seq<Row>, nextId: nat, clock: nat)

  datatype Op =
    | Upsert(project: string, path: string, content: string, hash: string)
    | DeactivateOthers(project: string, paths: set<string>)
    | DeactivateFile(project: string, path: string)
    | DeactivatePrefix(project: string, prefix: string)
    | RenameFile(project: string, oldPath: string, newPath: string)
    | RenamePrefix(project: string, oldPrefix: string, newPrefix: string)

  // ---------- what each operation does to one row ----------

  predicate Matches(r: Row, project: string, path: string) {
    r.project == project && r.path == path
  }

  /** Active rows come before inactive ones, newer before older. */
  predicate Better(a: Row, b: Row) {
    (a.active && !b.active) || (a.active == b.active && a.updatedAt > b.updatedAt)
  }

  /** The first row in the query's order. */
  function Best(rows: seq<Row>, project: string, path: string): (i: Option<nat>)
    ensures i.None? <==> forall j :: 0 <= j < |rows| ==> !Matches(rows[j], project, path)
    ensures i.Some? ==> i.value < |rows| && Matches(rows[i.value], project, path)
    ensures i.Some? ==>
      forall j :: 0 <= j < |rows| && Matches(rows[j], project, path) ==>
        && (rows[j].active ==> rows[i.value].active)
        && (rows[j].active == rows[i.value].active ==> rows[j].updatedAt <= rows[i.value].updatedAt)
  {
    if rows == [] then None
    else
      var last := |rows| - 1;
      var before := Best(rows[..last], project, path);
      if !Matches(rows[last], project, path) then before
      else if before.None? || Better(rows[last], rows[before.value]) then Some(last)
      else before
  }

  /** Which rows a bulk update selects: active ones of the project, by path. */
  predicate Selected(r: Row, op: Op)
    requires !op.Upsert?
  {
    && r.project == op.project && r.active
    && match op
       case DeactivateOthers(_, paths) => r.path !in paths
       case DeactivateFile(_, path) => r.path == path
       case DeactivatePrefix(_, prefix) => prefix <= r.path
       case RenameFile(_, oldPath, _) => r.path == oldPath
       case RenamePrefix(_, oldPrefix, _) => oldPrefix <= r.path
  }

  function Touched(r: Row, op: Op, now: nat): Row
    requires !op.Upsert?
  {
    if !Selected(r, op) then r
    else
      match op
      case RenameFile(_, _, newPath) => r.(path := newPath, updatedAt := now)
      case RenamePrefix(_, oldPrefix, newPrefix) => r.(path := newPrefix + r.path[|oldPrefix|..], updatedAt := now)
      case _ => r.(active := false, updatedAt := now)
  }

  lemma NotSelectedNotTouched(r: Row, op: Op, now: nat)
    requires !op.Upsert?
    ensures !Selected(r, op) ==> Touched(r, op, now) == r
  {
  }

  function CountSelected(rows: seq<Row>, op: Op): nat
    requires !op.Upsert?
  {
    if rows == [] then 0
    else CountSelected(rows[..|rows| - 1], op) + if Selected(rows[|rows| - 1], op) then 1 else 0
  }

  function Upserted(t: Table, op: Op): Table
    requires op.Upsert?
  {
    var i := Best(t.rows, op.project, op.path);
    if i.None? then
      var row := Row(t.nextId, op.project, op.path, op.content, op.hash, true, t.clock);
      Table(t.rows + [row], t.nextId + 1, t.clock + 1)
    else if t.rows[i.value].active && t.rows[i.value].hash == op.hash then t
    else
      t.(rows := t.rows[i.value :=
           t.rows[i.value].(content := op.content, hash := op.hash, active := true, updatedAt := t.clock)],
         clock := t.clock + 1)
  }

  function Apply(t: Table, op: Op): (r: Table)
    ensures |t.rows| <= |r.rows| <= |t.rows| + 1
  {
    if op.Upsert? then Upserted(t, op)
    else
      t.(rows := seq(|t.rows|, i requires 0 <= i < |t.rows| => Touched(t.rows[i], op, t.clock)), clock := t.clock + 1)
  }

  // ---------- the repository ----------

  class PipelineDefinitionRepository {
    var rows: seq<Row>
    var nextId: nat
    var clock: nat

    ghost function View(): Table
      reads this
    {
      Table(rows, nextId, clock)
    }

    /** Reuses the row of the same path, active or not; only a new path gets a new id. */
    method Save(project: string, path: string, content: string, hash: string) returns (id: nat, changed: bool)
      modifies this
      ensures View() == Apply(old(View()), Upsert(project, path, content, hash))
      ensures changed <==> View() != old(View())
      ensures IsListed(View(), project, path, id)
      ensures changed ==> exists i ::
        && 0 <= i < |rows|
        && rows[i] == Row(id, project, path, content, hash, true, old(clock))
        && |rows| >= |old(rows)| && forall j :: 0 <= j < |old(rows)| && j != i ==> rows[j] == old(rows)[j]
      ensures !changed ==> exists i ::
        && 0 <= i < |rows| && rows[i].id == id && rows[i].hash == hash && rows[i].active
        && rows[i].project == project && rows[i].path == path
    {
      var i := Best(rows, project, path);
      if i.Some? {
        var existing := rows[i.value];
        if existing.active && existing.hash == hash {
          return existing.id, false;
        }
        rows := rows[i.value := existing.(content := content, hash := hash, active := true, updatedAt := clock)];
        assert rows[i.value] == Row(existing.id, project, path, content, hash, true, clock);
        clock := clock + 1;
        return rows[i.value].id, true;
      }
      id, changed := nextId, true;
      rows := rows + [Row(id, project, path, content, hash, true, clock)];
      assert rows[|rows| - 1] == Row(id, project, path, content, hash, true, clock);
      nextId, clock := nextId + 1, clock + 1;
    }

    /** Runs one of the bulk updates over the selected rows, counting them. */
    method Update(op: Op) returns (count: nat)
      requires !op.Upsert?
      modifies this`rows, this`clock
      ensures View() == Apply(old(View()), op)
      ensures count == |SelectedRows(old(rows), op)|
    {
      hide Touched;
      count := 0;
      ghost var before := rows;
      for i := 0 to |rows|
        invariant |rows| == |before| && clock == old(clock) && count == CountSelected(before[..i], op)
        invariant forall j :: 0 <= j < |rows| ==> rows[j] == if j < i then Touched(before[j], op, clock) else before[j]
      {
        assert before[..i + 1][..i] == before[..i];
        NotSelectedNotTouched(before[i], op, clock);
        if Selected(rows[i], op) {
          rows := rows[i := Touched(rows[i], op, clock)];
          count := count + 1;
        }
      }
      assert before[..|before|] == before;
      CountIsSize(before, op);
      clock := clock + 1;
    }

    /**
     Brings the table in line with the files: the parsed ones are saved, all others deactivated. The
     result names, for every parsed path, the id of an active row with that path.
     */
    method Sync(project: string, files: seq<File>) returns (definitions: map<string, nat>)
      modifies this
      ensures View() == Synced(old(View()), project, files)
      ensures definitions.Keys == ParsedPaths(files)
      ensures forall p :: p in definitions ==> IsListed(View(), project, p, definitions[p])
    {
      hide SavedFiles, Apply, ParsedPaths, IsListed;
      definitions := map[];
      var paths: set<string> := {};
      NothingSaved(View(), project);
      for i := 0 to |files|
        invariant View() == SavedFiles(old(View()), project, files[..i])
        invariant definitions.Keys == paths == ParsedPaths(files[..i])
        invariant forall p :: p in definitions ==> IsListed(View(), project, p, definitions[p])
      {
        SavedOne(old(View()), project, files, i);
        if files[i].parsed.Some? {
          ghost var before := View();
          var id, changed := Save(project, files[i].path, files[i].parsed.value.0, files[i].parsed.value.1);
          UpsertKeepsListed(before, Upsert(project, files[i].path, files[i].parsed.value.0, files[i].parsed.value.1));
          definitions := definitions[files[i].path := id];
          paths := paths + {files[i].path};
        }
      }
      assert files[..|files|] == files;
      KeepsParsedListed(View(), project, paths);
      var count := Update(DeactivateOthers(project, paths));
    }
  }

  ghost function SelectedRows(rows: seq<Row>, op: Op): set<nat>
    requires !op.Upsert?
  {
    set i | 0 <= i < |rows| && Selected(rows[i], op)
  }

  lemma SelectedSnoc(rows: seq<Row>, op: Op)
    requires !op.Upsert? && rows != []
    ensures var last := |rows| - 1;
      && SelectedRows(rows, op) == SelectedRows(rows[..last], op) + (if Selected(rows[last], op) then {last} else {})
      && last !in SelectedRows(rows[..last], op)
  {
    hide Selected;
  }

  lemma {:induction false} CountIsSize(rows: seq<Row>, op: Op)
    requires !op.Upsert?
    ensures CountSelected(rows, op) == |SelectedRows(rows, op)|
  {
    if rows == [] {
      assert SelectedRows(rows, op) == {};
    } else {
      CountIsSize(rows[..|rows| - 1], op);
      SelectedSnoc(rows, op);
      hide Selected, SelectedRows;
    }
  }

  /** What each bulk update makes of a row, spelled out: only active rows of the project are concerned. */
  lemma BulkMeans(t: Table, op: Op, i: nat, tail: string)
    requires !op.Upsert? && i < |t.rows|
    ensures |Apply(t, op).rows| == |t.rows|
    ensures var r, r' := t.rows[i], Apply(t, op).rows[i];
      if !r.active || r.project != op.project then r' == r
      else
        match op
        case DeactivateOthers(_, paths) =>
          r' == if r.path in paths then r else r.(active := false, updatedAt := t.clock)
        case DeactivateFile(_, path) => r' == if r.path == path then r.(active := false, updatedAt := t.clock) else r
        case DeactivatePrefix(_, prefix) =>
          r' == if prefix <= r.path then r.(active := false, updatedAt := t.clock) else r
        case RenameFile(_, oldPath, newPath) =>
          r' == if r.path == oldPath then r.(path := newPath, updatedAt := t.clock) else r
        case RenamePrefix(_, oldPrefix, newPrefix) =>
          && (r.path == oldPrefix + tail ==> r' == r.(path := newPrefix + tail, updatedAt := t.clock))
          && (!(oldPrefix <= r.path) ==> r' == r)
  {
    if op.RenamePrefix? && t.rows[i].path == op.oldPrefix + tail {
      assert t.rows[i].path[|op.oldPrefix|..] == tail;
    }
  }

  /** The id is that of an active row with the path. */
  ghost predicate IsListed(t: Table, project: string, path: string, id: nat) {
    exists i :: 0 <= i < |t.rows| && t.rows[i].id == id && t.rows[i].active && Matches(t.rows[i], project, path)
  }

  lemma UpsertKeepsListed(t: Table, op: Op)
    requires op.Upsert?
    ensures forall project, path, id :: IsListed(t, project, path, id) ==> IsListed(Apply(t, op), project, path, id)
  {
    forall project, path, id | IsListed(t, project, path, id)
      ensures IsListed(Apply(t, op), project, path, id)
    {
      var i :| 0 <= i < |t.rows| && t.rows[i].id == id && t.rows[i].active && Matches(t.rows[i], project, path);
      var r := Apply(t, op);
      assert r.rows[i].id == id && r.rows[i].active && Matches(r.rows[i], project, path);
    }
  }

  /** Deactivating all other paths leaves the listed ones listed. */
  lemma KeepsParsedListed(t: Table, project: string, paths: set<string>)
    ensures forall path, id :: path in paths && IsListed(t, project, path, id) ==>
      IsListed(Apply(t, DeactivateOthers(project, paths)), project, path, id)
  {
    var r := Apply(t, DeactivateOthers(project, paths));
    forall path, id | path in paths && IsListed(t, project, path, id)
      ensures IsListed(r, project, path, id)
    {
      var i :| 0 <= i < |t.rows| && t.rows[i].id == id && t.rows[i].active && Matches(t.rows[i], project, path);
      assert r.rows[i].id == id && r.rows[i].active && Matches(r.rows[i], project, path);
    }
  }

  lemma NothingSaved(t: Table, project: string)
    ensures SavedFiles(t, project, []) == t && ParsedPaths([]) == {}
  {
  }

  lemma SavedOne(t: Table, project: string, files: seq<File>, i: nat)
    requires i < |files|
    ensures var f, before := files[i], SavedFiles(t, project, files[..i]);
      SavedFiles(t, project, files[..i + 1]) ==
        if f.parsed.None? then before else Apply(before, Upsert(project, f.path, f.parsed.value.0, f.parsed.value.1))
    ensures ParsedPaths(files[..i + 1]) ==
      ParsedPaths(files[..i]) + if files[i].parsed.None? then {} else {files[i].path}
  {
    assert files[..i + 1][..i] == files[..i];
    assert files[..i + 1] == files[..i] + [files[i]];
  }

  /** A pipeline file and, if it parses, its content and hash. */
  datatype File = File(path: string, parsed: Option<(string, string)>)

  function ParsedPaths(files: seq<File>): set<string> {
    set f | f in files && f.parsed.Some? :: f.path
  }

  function SavedFiles(t: Table, project: string, files: seq<File>): Table {
    if files == [] then t
    else
      var f := files[|files| - 1];
      var before := SavedFiles(t, project, files[..|files| - 1]);
      if f.parsed.None? then before else Apply(before, Upsert(project, f.path, f.parsed.value.0, f.parsed.value.1))
  }

  function Synced(t: Table, project: string, files: seq<File>): Table {
    Apply(SavedFiles(t, project, files), DeactivateOthers(project, ParsedPaths(files)))
  }

  // ---------- one row per path, and stable ids ----------

  /** Every path of a project has at most one row, and ids are never shared or reused. */
  ghost predicate Sound(t: Table) {
    && (forall i, j :: 0 <= i < j < |t.rows| ==> !SamePath(t.rows[i], t.rows[j]))
    && (forall i, j :: 0 <= i < j < |t.rows| ==> t.rows[i].id != t.rows[j].id)
    && (forall i :: 0 <= i < |t.rows| ==> t.rows[i].id < t.nextId)
  }

  predicate SamePath(a: Row, b: Row) {
    a.project == b.project && a.path == b.path
  }

  /** All rows of the earlier table are still there, under the same id and path. */
  ghost predicate Keeps(before: Table, after: Table) {
    && |before.rows| <= |after.rows|
    && forall i :: 0 <= i < |before.rows| ==>
      after.rows[i].id == before.rows[i].id && SamePath(after.rows[i], before.rows[i])
  }

  predicate IsRename(op: Op) {
    op.RenameFile? || op.RenamePrefix?
  }

  lemma SoundIfKept(t: Table, r: Table)
    requires Sound(t) && Keeps(t, r) && |r.rows| == |t.rows| && r.nextId == t.nextId
    ensures Sound(r)
  {
  }

  lemma InsertKeepsSound(t: Table, op: Op)
    requires Sound(t) && op.Upsert? && Best(t.rows, op.project, op.path).None?
    ensures Sound(Apply(t, op)) && Keeps(t, Apply(t, op))
  {
  }

  /** Saving and deactivating neither duplicate a path nor move an id. */
  lemma ApplyKeepsSound(t: Table, op: Op)
    requires Sound(t) && !IsRename(op)
    ensures Sound(Apply(t, op)) && Keeps(t, Apply(t, op))
  {
    if op.Upsert? && Best(t.rows, op.project, op.path).None? {
      InsertKeepsSound(t, op);
    } else {
      var r := Apply(t, op);
      forall i | 0 <= i < |t.rows|
        ensures r.rows[i].id == t.rows[i].id && SamePath(r.rows[i], t.rows[i])
      {
      }
      hide SamePath, Sound;
      SoundIfKept(t, r);
    }
  }

  ghost function ApplyAll(t: Table, ops: seq<Op>): Table
    decreases |ops|
  {
    if ops == [] then t else ApplyAll(Apply(t, ops[0]), ops[1..])
  }

  /** Over every sequence of saves and deactivations each path keeps its one row and its id. */
  lemma {:induction false} IdsAreStable(t: Table, ops: seq<Op>)
    requires Sound(t) && forall k :: 0 <= k < |ops| ==> !IsRename(ops[k])
    ensures Sound(ApplyAll(t, ops)) && Keeps(t, ApplyAll(t, ops))
    decreases |ops|
  {
    if ops != [] {
      ApplyKeepsSound(t, ops[0]);
      IdsAreStable(Apply(t, ops[0]), ops[1..]);
    }
  }

  /** No id is shared, and none will be given out again. */
  ghost predicate IdsApart(t: Table) {
    && (forall i, j :: 0 <= i < j < |t.rows| ==> t.rows[i].id != t.rows[j].id)
    && (forall i :: 0 <= i < |t.rows| ==> t.rows[i].id < t.nextId)
  }

  /** The rows of the earlier table are all there, under their ids and projects. */
  ghost predicate KeepsIds(before: Table, after: Table) {
    && |before.rows| <= |after.rows|
    && forall i :: 0 <= i < |before.rows| ==>
      after.rows[i].id == before.rows[i].id && after.rows[i].project == before.rows[i].project
  }

  lemma ApplyKeepsIds(t: Table, op: Op)
    requires IdsApart(t)
    ensures IdsApart(Apply(t, op)) && KeepsIds(t, Apply(t, op))
  {
    var r := Apply(t, op);
    assert forall i :: 0 <= i < |t.rows| ==> r.rows[i].id == t.rows[i].id && r.rows[i].project == t.rows[i].project;
  }

  /** Renames included, no operation ever takes a row's id away or gives it to another row. */
  lemma {:induction false} IdsSurviveRenames(t: Table, ops: seq<Op>)
    requires IdsApart(t)
    ensures IdsApart(ApplyAll(t, ops)) && KeepsIds(t, ApplyAll(t, ops))
    decreases |ops|
  {
    if ops != [] {
      ApplyKeepsIds(t, ops[0]);
      IdsSurviveRenames(Apply(t, ops[0]), ops[1..]);
    }
  }

  lemma {:induction false} SavedFilesSound(t: Table, project: string, files: seq<File>)
    requires Sound(t)
    ensures Sound(SavedFiles(t, project, files)) && Keeps(t, SavedFiles(t, project, files))
  {
    if files != [] {
      var f := files[|files| - 1];
      SavedFilesSound(t, project, files[..|files| - 1]);
      if f.parsed.Some? {
        var op := Upsert(project, f.path, f.parsed.value.0, f.parsed.value.1);
        ApplyKeepsSound(SavedFiles(t, project, files[..|files| - 1]), op);
      }
    }
  }

  /** A synchronisation keeps ids too. */
  lemma SyncKeepsIds(t: Table, project: string, files: seq<File>)
    requires Sound(t)
    ensures Sound(Synced(t, project, files)) && Keeps(t, Synced(t, project, files))
  {
    SavedFilesSound(t, project, files);
    ApplyKeepsSound(SavedFiles(t, project, files), DeactivateOthers(project, ParsedPaths(files)));
  }

  // ---------- what is active after a synchronisation ----------

  ghost predicate IsActive(t: Table, project: string, path: string) {
    exists i :: 0 <= i < |t.rows| && t.rows[i].active && Matches(t.rows[i], project, path)
  }

  lemma UpsertActivates(t: Table, op: Op, path: string)
    requires op.Upsert?
    ensures IsActive(Apply(t, op), op.project, op.path)
    ensures IsActive(t, op.project, path) ==> IsActive(Apply(t, op), op.project, path)
  {
    var r := Apply(t, op);
    var i := Best(t.rows, op.project, op.path);
    var k := if i.None? then |t.rows| else i.value;
    assert r.rows[k].active && Matches(r.rows[k], op.project, op.path);
    if IsActive(t, op.project, path) {
      var j :| 0 <= j < |t.rows| && t.rows[j].active && Matches(t.rows[j], op.project, path);
      assert r.rows[j].active && Matches(r.rows[j], op.project, path);
    }
  }

  lemma {:induction false} SavedAreActive(t: Table, project: string, files: seq<File>, path: string)
    requires path in ParsedPaths(files)
    ensures IsActive(SavedFiles(t, project, files), project, path)
  {
    var front, f := files[..|files| - 1], files[|files| - 1];
    assert files == front + [f];
    if f.parsed.Some? {
      UpsertActivates(SavedFiles(t, project, front), Upsert(project, f.path, f.parsed.value.0, f.parsed.value.1), path);
    }
    if !(f.parsed.Some? && f.path == path) {
      SavedAreActive(t, project, front, path);
    }
  }

  /** After a synchronisation the active paths of the project are exactly the files that parsed. */
  lemma ActiveAfterSync(t: Table, project: string, files: seq<File>, path: string)
    ensures IsActive(Synced(t, project, files), project, path) <==> path in ParsedPaths(files)
  {
    var saved := SavedFiles(t, project, files);
    var r := Synced(t, project, files);
    if path in ParsedPaths(files) {
      SavedAreActive(t, project, files, path);
      var i :| 0 <= i < |saved.rows| && saved.rows[i].active && Matches(saved.rows[i], project, path);
      assert r.rows[i] == saved.rows[i];
    }
    if IsActive(r, project, path) {
      var i :| 0 <= i < |r.rows| && r.rows[i].active && Matches(r.rows[i], project, path);
      assert r.rows[i] == Touched(saved.rows[i], DeactivateOthers(project, ParsedPaths(files)), saved.clock);
    }
  }

  /** Rows of other projects are left alone by every operation. */
  lemma OtherProjectsUntouched(t: Table, op: Op, i: nat)
    requires i < |t.rows| && t.rows[i].project != op.project
    ensures Apply(t, op).rows[i] == t.rows[i]
  {
  }

  // ---------- renaming a folder ----------

  /** No two active rows of the project share a path. */
  ghost predicate ActiveApart(rows: seq<Row>, project: string) {
    forall i, j :: 0 <= i < j < |rows| ==> !Clash(rows[i], rows[j], project)
  }

  predicate Clash(a: Row, b: Row, project: string) {
    a.project == project && b.project == project && a.active && b.active && a.path == b.path
  }

  /** Whether a row is moved by renaming the prefix, and where to. */
  predicate Under(r: Row, project: string, prefix: string) {
    r.project == project && r.active && prefix <= r.path
  }

  function MovedPath(path: string, oldPrefix: string, newPrefix: string): string
    requires oldPrefix <= path
  {
    newPrefix + path[|oldPrefix|..]
  }

  /** Some active row that stays put already has the path a moved row is about to get. */
  ghost predicate TargetTaken(rows: seq<Row>, project: string, oldPrefix: string, newPrefix: string) {
    exists i, j :: 0 <= i < |rows| && 0 <= j < |rows| && Taken(rows[i], rows[j], project, oldPrefix, newPrefix)
  }

  predicate Taken(moved: Row, other: Row, project: string, oldPrefix: string, newPrefix: string) {
    && Under(moved, project, oldPrefix) && !Under(other, project, oldPrefix)
    && other.project == project && other.active && other.path == MovedPath(moved.path, oldPrefix, newPrefix)
  }

  lemma SameMovedPath(a: string, b: string, oldPrefix: string, newPrefix: string)
    requires oldPrefix <= a && oldPrefix <= b
    ensures MovedPath(a, oldPrefix, newPrefix) == MovedPath(b, oldPrefix, newPrefix) <==> a == b
  {
    var x, y := a[|oldPrefix|..], b[|oldPrefix|..];
    assert a == oldPrefix + x && b == oldPrefix + y;
    assert (newPrefix + x)[|newPrefix|..] == x && (newPrefix + y)[|newPrefix|..] == y;
  }

  /** Whether two rows clash after the renaming. */
  lemma ClashAfter(a: Row, b: Row, project: string, oldPrefix: string, newPrefix: string, now: nat)
    ensures var op := RenamePrefix(project, oldPrefix, newPrefix);
      Clash(Touched(a, op, now), Touched(b, op, now), project) <==>
        if Under(a, project, oldPrefix) == Under(b, project, oldPrefix) then Clash(a, b, project)
        else Taken(a, b, project, oldPrefix, newPrefix) || Taken(b, a, project, oldPrefix, newPrefix)
  {
    if Under(a, project, oldPrefix) && Under(b, project, oldPrefix) {
      SameMovedPath(a.path, b.path, oldPrefix, newPrefix);
    }
  }

  /** Renaming a folder keeps active paths apart exactly when no path it moves to is taken. */
  lemma RenameKeepsApartIff(t: Table, project: string, oldPrefix: string, newPrefix: string)
    requires ActiveApart(t.rows, project)
    ensures ActiveApart(Apply(t, RenamePrefix(project, oldPrefix, newPrefix)).rows, project) <==>
      !TargetTaken(t.rows, project, oldPrefix, newPrefix)
  {
    var op := RenamePrefix(project, oldPrefix, newPrefix);
    var r := Apply(t, op).rows;
    hide Clash, Taken, Under, Touched;
    forall i, j | 0 <= i < |r| && 0 <= j < |r|
      ensures Clash(r[i], r[j], project) <==>
        if Under(t.rows[i], project, oldPrefix) == Under(t.rows[j], project, oldPrefix)
        then Clash(t.rows[i], t.rows[j], project)
        else
          || Taken(t.rows[i], t.rows[j], project, oldPrefix, newPrefix)
          || Taken(t.rows[j], t.rows[i], project, oldPrefix, newPrefix)
    {
      ClashAfter(t.rows[i], t.rows[j], project, oldPrefix, newPrefix, t.clock);
    }
    if TargetTaken(t.rows, project, oldPrefix, newPrefix) {
      var i, j :| 0 <= i < |t.rows| && 0 <= j < |t.rows| && Taken(t.rows[i], t.rows[j], project, oldPrefix, newPrefix);
      TakenMeans(t.rows[i], t.rows[j], project, oldPrefix, newPrefix);
      assert Clash(r[i], r[j], project);
      ClashBothWays(r[i], r[j], project);
      assert i != j;
    }
  }

  lemma TakenMeans(a: Row, b: Row, project: string, oldPrefix: string, newPrefix: string)
    requires Taken(a, b, project, oldPrefix, newPrefix)
    ensures Under(a, project, oldPrefix) && !Under(b, project, oldPrefix)
  {
  }

  lemma ClashBothWays(a: Row, b: Row, project: string)
    ensures Clash(a, b, project) <==> Clash(b, a, project)
  {
  }

  /** Some active row that was not moved already lies under the new prefix. */
  ghost predicate Squatter(rows: seq<Row>, project: string, oldPrefix: string, newPrefix: string) {
    exists i :: 0 <= i < |rows| && Squats(rows[i], project, oldPrefix, newPrefix)
  }

  predicate Squats(r: Row, project: string, oldPrefix: string, newPrefix: string) {
    Under(r, project, newPrefix) && !Under(r, project, oldPrefix)
  }

  /** Rows compared without their time stamps. */
  ghost predicate SameButTime(a: seq<Row>, b: seq<Row>) {
    |a| == |b| && forall i :: 0 <= i < |a| ==> a[i].(updatedAt := b[i].updatedAt) == b[i]
  }

  /** Renaming a folder back restores every row exactly when no other active row lay under the new name. */
  lemma RenameBackRestoresIff(t: Table, project: string, oldPrefix: string, newPrefix: string)
    requires oldPrefix != newPrefix
    ensures var there := Apply(t, RenamePrefix(project, oldPrefix, newPrefix));
      var back := Apply(there, RenamePrefix(project, newPrefix, oldPrefix));
      SameButTime(back.rows, t.rows) <==> !Squatter(t.rows, project, oldPrefix, newPrefix)
  {
  }

  // ---------- what is stored ----------

  /** The path has an active row with this hash. */
  ghost predicate Stored(t: Table, project: string, path: string, hash: string) {
    exists k ::
      && 0 <= k < |t.rows| && t.rows[k].project == project && t.rows[k].path == path
      && t.rows[k].active && t.rows[k].hash == hash
  }

  lemma SavedIsStored(t: Table, project: string, path: string, content: string, hash: string)
    ensures Stored(Apply(t, Upsert(project, path, content, hash)), project, path, hash)
  {
    var op := Upsert(project, path, content, hash);
    var i := Best(t.rows, project, path);
    var k := if i.None? then |t.rows| else i.value;
    var r := Apply(t, op).rows[k];
    assert r.project == project && r.path == path && r.active && r.hash == hash;
  }

  lemma OtherSaveKeepsStored(t: Table, project: string, path: string, hash: string, op: Op)
    requires Stored(t, project, path, hash) && op.Upsert? && op.path != path
    ensures Stored(Apply(t, op), project, path, hash)
  {
    var k :|
      && 0 <= k < |t.rows| && t.rows[k].project == project && t.rows[k].path == path
      && t.rows[k].active && t.rows[k].hash == hash;
    assert Apply(t, op).rows[k] == t.rows[k];
  }

  lemma {:induction false} SavedFilesStored(t: Table, project: string, files: seq<File>, i: nat)
    requires i < |files| && files[i].parsed.Some?
    requires forall j :: i < j < |files| ==> files[j].path != files[i].path || files[j].parsed.None?
    ensures Stored(SavedFiles(t, project, files), project, files[i].path, files[i].parsed.value.1)
    decreases |files|
  {
    var front, last := files[..|files| - 1], files[|files| - 1];
    if i == |front| {
      SavedIsStored(SavedFiles(t, project, front), project, last.path, last.parsed.value.0, last.parsed.value.1);
    } else {
      SavedFilesStored(t, project, front, i);
      if last.parsed.Some? {
        OtherSaveKeepsStored(SavedFiles(t, project, front), project, files[i].path, files[i].parsed.value.1,
          Upsert(project, last.path, last.parsed.value.0, last.parsed.value.1));
      }
    }
  }

  /** After a synchronisation every path is stored with the hash of the last file that parsed under it. */
  lemma StoredAfterSync(t: Table, project: string, files: seq<File>, i: nat)
    requires i < |files| && files[i].parsed.Some?
    requires forall j :: i < j < |files| ==> files[j].path != files[i].path || files[j].parsed.None?
    ensures Stored(Synced(t, project, files), project, files[i].path, files[i].parsed.value.1)
  {
    SavedFilesStored(t, project, files, i);
    var saved := SavedFiles(t, project, files);
    var k :|
      && 0 <= k < |saved.rows| && saved.rows[k].project == project && saved.rows[k].path == files[i].path
      && saved.rows[k].active && saved.rows[k].hash == files[i].parsed.value.1;
    assert files[i] in files;
    assert Synced(t, project, files).rows[k] == saved.rows[k];
  }

  // ---------- renaming and the one row per path ----------

  /** The path a renamed row gets. */
  function NewPath(op: Op, path: string): string
    requires op.RenameFile? || (op.RenamePrefix? && op.oldPrefix <= path)
  {
    if op.RenameFile? then op.newPath else MovedPath(path, op.oldPrefix, op.newPrefix)
  }

  /** The second row stays, active or not, and has the path the first one is about to get. */
  predicate InTheWay(moved: Row, other: Row, op: Op)
    requires IsRename(op)
  {
    && Selected(moved, op) && !Selected(other, op)
    && other.project == op.project && other.path == NewPath(op, moved.path)
  }

  ghost predicate RenameBlocked(rows: seq<Row>, op: Op)
    requires IsRename(op)
  {
    exists i, j :: 0 <= i < |rows| && 0 <= j < |rows| && InTheWay(rows[i], rows[j], op)
  }

  /** Whether two rows share a path after a rename. */
  lemma SamePathAfter(a: Row, b: Row, op: Op, now: nat)
    requires IsRename(op)
    ensures SamePath(Touched(a, op, now), Touched(b, op, now)) <==>
      if Selected(a, op) && Selected(b, op) then op.RenameFile? || SamePath(a, b)
      else if !Selected(a, op) && !Selected(b, op) then SamePath(a, b)
      else InTheWay(a, b, op) || InTheWay(b, a, op)
  {
    if op.RenamePrefix? && Selected(a, op) && Selected(b, op) {
      SameMovedPath(a.path, b.path, op.oldPrefix, op.newPrefix);
    }
  }

  lemma RowsApartAfter(t: Table, op: Op, i: nat, j: nat)
    requires Sound(t) && IsRename(op) && i < j < |t.rows|
    ensures SamePath(Apply(t, op).rows[i], Apply(t, op).rows[j]) <==>
      InTheWay(t.rows[i], t.rows[j], op) || InTheWay(t.rows[j], t.rows[i], op)
  {
    SamePathAfter(t.rows[i], t.rows[j], op, t.clock);
    assert !SamePath(t.rows[i], t.rows[j]);
  }

  /**
   A rename keeps one row per path, inactive rows included, exactly when no row that stays has a path
   that a renamed row gets. Nothing in the rename itself looks for such a row.
   */
  lemma RenameKeepsSoundIff(t: Table, op: Op)
    requires Sound(t) && IsRename(op)
    ensures Sound(Apply(t, op)) <==> !RenameBlocked(t.rows, op)
  {
    var r := Apply(t, op);
    forall i, j | 0 <= i < j < |t.rows|
      ensures SamePath(r.rows[i], r.rows[j]) <==>
        InTheWay(t.rows[i], t.rows[j], op) || InTheWay(t.rows[j], t.rows[i], op)
    {
      RowsApartAfter(t, op, i, j);
    }
    ApplyKeepsIds(t, op);
    hide Touched, SamePath, NewPath;
    if RenameBlocked(t.rows, op) {
      var i, j :| 0 <= i < |t.rows| && 0 <= j < |t.rows| && InTheWay(t.rows[i], t.rows[j], op);
      assert i != j;
      assert SamePath(r.rows[if i < j then i else j], r.rows[if i < j then j else i]);
    }
  }

  // ---------- tables on which renaming goes wrong ----------

  const EMPTY := Table([], 0, 0)

  const TWO_FOLDERS := [
    Row(0, "p", "a/x", "", "", true, 0), Row(1, "p", "b/x", "", "", true, 1), Row(2, "p", "b/y", "", "", true, 2)
  ]

  lemma TwoFoldersReachable()
    ensures var ops := [Upsert("p", "a/x", "", ""), Upsert("p", "b/x", "", ""), Upsert("p", "b/y", "", "")];
      ApplyAll(EMPTY, ops) == Table(TWO_FOLDERS, 3, 3)
  {
    var first, second, third := Upsert("p", "a/x", "", ""), Upsert("p", "b/x", "", ""), Upsert("p", "b/y", "", "");
    assert "a/x"[0] != "b/x"[0] && "b/x"[2] != "b/y"[2] && "a/x"[0] != "b/y"[0];
    var t1, t2 := Apply(EMPTY, first), Apply(Apply(EMPTY, first), second);
    assert t1 == Table(TWO_FOLDERS[..1], 1, 1);
    assert t2 == Table(TWO_FOLDERS[..2], 2, 2);
    assert Apply(t2, third) == Table(TWO_FOLDERS, 3, 3);
    assert [first, second, third][1..] == [second, third] && [second, third][1..] == [third] && [third][1..] == [];
  }

  /** Two folders with a file of the same name: after the rename two active rows share a path. */
  lemma RenameCanClash()
    ensures ActiveApart(TWO_FOLDERS, "p")
    ensures !ActiveApart(Apply(Table(TWO_FOLDERS, 3, 3), RenamePrefix("p", "a/", "b/")).rows, "p")
  {
    assert "a/x"[0] != "b/x"[0] && "b/x"[2] != "b/y"[2] && "a/x"[0] != "b/y"[0];
    assert "a/" <= "a/x" && "b/" <= "b/x" && !("a/" <= "b/x");
    assert "b/" + "a/x"[|"a/"|..] == "b/x";
    assert Taken(TWO_FOLDERS[0], TWO_FOLDERS[1], "p", "a/", "b/");
    RenameKeepsApartIff(Table(TWO_FOLDERS, 3, 3), "p", "a/", "b/");
  }

  /** Renaming back then moves the files of both folders. */
  lemma RenameBackCanMoveMore()
    ensures var t := Table(TWO_FOLDERS, 3, 3);
      !SameButTime(Apply(Apply(t, RenamePrefix("p", "a/", "b/")), RenamePrefix("p", "b/", "a/")).rows, TWO_FOLDERS)
  {
    assert "b/" <= "b/y" && "a/"[0] != "b/y"[0] && "a/"[0] != "b/"[0];
    assert Squats(TWO_FOLDERS[2], "p", "a/", "b/");
    RenameBackRestoresIff(Table(TWO_FOLDERS, 3, 3), "p", "a/", "b/");
  }

  const TWO_FILES := [Row(0, "p", "x", "", "", true, 0), Row(1, "p", "y", "", "", true, 1)]

  /** Deleting a file and renaming another to its name leaves two rows for one path: the deleted one's row stays. */
  lemma DeletedFileIsInTheWay()
    ensures var ops := [Upsert("p", "x", "", ""), Upsert("p", "y", "", ""), DeactivateFile("p", "x")];
      Sound(ApplyAll(EMPTY, ops)) && !Sound(Apply(ApplyAll(EMPTY, ops), RenameFile("p", "y", "x")))
  {
    var first, second, third := Upsert("p", "x", "", ""), Upsert("p", "y", "", ""), DeactivateFile("p", "x");
    assert "x"[0] != "y"[0];
    var t := Table([Row(0, "p", "x", "", "", false, 2), Row(1, "p", "y", "", "", true, 1)], 2, 3);
    assert Apply(EMPTY, first) == Table(TWO_FILES[..1], 1, 1);
    assert Apply(Apply(EMPTY, first), second) == Table(TWO_FILES, 2, 2);
    assert Apply(Table(TWO_FILES, 2, 2), third) == t;
    assert [first, second, third][1..] == [second, third] && [second, third][1..] == [third] && [third][1..] == [];
    assert Sound(t) && InTheWay(t.rows[1], t.rows[0], RenameFile("p", "y", "x"));
    RenameKeepsSoundIff(t, RenameFile("p", "y", "x"));
  }
}
