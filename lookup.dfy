/** Finding the live counterpart of a declared object, and creating it when there is
    none. Most types are found by name; a primary key by the columns of the
    table's key, an index by the first listed index equal to the declaration, a
    partition by its column and a user by its login. */
module Lookup {
  import opened Values
  import opened Attributes
  import opened LiveStore
  import opened Rules
  import opened Reflected
  import opened Changes
  import Declared

  // ---------------------------------------------------------------------------
  // What `from_declared` finds
  // ---------------------------------------------------------------------------

  /** The child's key attribute reads as `v` on the server. */
  predicate KeyMatches(live: Live, parent: Path, kind: EntityType, name: string, key: string, v: Value)
  {
    var row := RowAt(live, parent + [Step(kind, name)]);
    row.Some? && ReadAttribute(kind, row.value, key) == Ok(v)
  }

  /** The first of `names` whose key attribute reads as `v`: the query that finds a
      partition by its column, or a user by its login. */
  function FirstKeyed(live: Live, parent: Path, kind: EntityType, names: seq<string>, key: string, v: Value): (r: Option<nat>)
    ensures r.Some? ==> r.value < |names| && KeyMatches(live, parent, kind, names[r.value], key, v)
    ensures r.Some? ==> forall j :: 0 <= j < r.value ==> !KeyMatches(live, parent, kind, names[j], key, v)
    ensures r.None? <==> forall j :: 0 <= j < |names| ==> !KeyMatches(live, parent, kind, names[j], key, v)
    decreases |names|
  {
    if names == [] then None
    else if KeyMatches(live, parent, kind, names[0], key, v) then Some(0)
    else
      match FirstKeyed(live, parent, kind, names[1..], key, v)
      case None => None
      case Some(i) => Some(i + 1)
  }

  /** The columns the table's key query returns: those of the first key the table
      lists, none when it lists none. */
  function PkColumns(live: Live, table: Path): seq<string>
  {
    var pks := ListNames(live, table, PrimaryKeys);
    if pks == [] then []
    else
      var row := RowAt(live, table + [Step(PrimaryKeys, pks[0])]);
      if row.Some? && "columns" in row.value && row.value["columns"].VTuple? then row.value["columns"].elems else []
  }

  /** The declared key columns. */
  function DeclaredColumns(d: Declared.Decl): seq<string>
  {
    if d.Attr("columns").VTuple? then d.Attr("columns").elems else []
  }

  /** `ReflectedPrimaryKey.from_declared`: the table's key when its columns, lower-
      cased, are the declared ones; none otherwise. When the table has no key and
      none is declared either, the first row of an empty result is taken:
      IndexError. */
  function PkFound(live: Live, table: Path, d: Declared.Decl): (r: Result<Option<string>>)
    ensures r.Fail? <==> PkColumns(live, table) == [] && DeclaredColumns(d) == []
    ensures r.Fail? ==> r.error == IndexError
    ensures r.Ok? && r.value.Some? <==>
              PkColumns(live, table) != [] && LowerAll(PkColumns(live, table)) == LowerAll(DeclaredColumns(d))
    ensures r.Ok? && r.value.Some? ==> r.value.value == ListNames(live, table, PrimaryKeys)[0]
  {
    var have := LowerAll(PkColumns(live, table));
    if have != LowerAll(DeclaredColumns(d)) then Ok(None)
    else if have == [] then Fail(IndexError)
    else Ok(Some(ListNames(live, table, PrimaryKeys)[0]))
  }

  /** `ReflectedIndex.from_declared`: the first of the listed indexes that a new
      reflected object finds equal to the declaration; a comparison that fails
      ends the search with its error. */
  function IndexMatch(live: Live, table: Path, names: seq<string>, d: Declared.Decl): Result<Option<string>>
    decreases |names|
  {
    if names == [] then Ok(None)
    else
      var eq :- MatchesRow(Indexes, names[0], RowAt(live, table + [Step(Indexes, names[0])]), d);
      if eq then Ok(Some(names[0])) else IndexMatch(live, table, names[1..], d)
  }

  /** The index found is one of the listed ones and equals the declaration; when
      none is found, every listed index compared unequal. */
  lemma {:induction false} IndexMatchSound(live: Live, table: Path, names: seq<string>, d: Declared.Decl)
    ensures var f := IndexMatch(live, table, names, d);
            f.Ok? && f.value.Some? ==>
              f.value.value in names &&
              MatchesRow(Indexes, f.value.value, RowAt(live, table + [Step(Indexes, f.value.value)]), d) == Ok(true)
    ensures IndexMatch(live, table, names, d) == Ok(None) ==>
              forall n :: n in names ==> MatchesRow(Indexes, n, RowAt(live, table + [Step(Indexes, n)]), d) == Ok(false)
    decreases |names|
  {
    if names != [] {
      IndexMatchSound(live, table, names[1..], d);
    }
  }

  /** `from_declared` of the declaration's type, as the name of the object found:
      None when the server has no counterpart. Types without an override are found
      by a non-empty name the server has. */
  function Found(live: Live, parent: Path, d: Declared.Decl): Result<Option<string>>
  {
    match d.kind
    case PrimaryKeys => PkFound(live, parent, d)
    case Indexes => IndexMatch(live, parent, Listing(live, parent, Indexes), d)
    case Partitions =>
      var names := ListNames(live, parent, Partitions);
      var i := FirstKeyed(live, parent, Partitions, names, "column", d.Attr("column"));
      Ok(if i.Some? then Some(names[i.value]) else None)
    case Users =>
      var names := ListNames(live, parent, Users);
      var i := FirstKeyed(live, parent, Users, names, "login_name", d.Attr("login_name"));
      Ok(if i.Some? then Some(names[i.value]) else None)
    case _ => Ok(if d.name != "" && Exists(live, parent, d.kind, d.name) then Some(d.name) else None)
  }

  /** What `from_declared` finds, `__eq__` accepts: the object found compares equal
      to the declaration it was found for. A declared key's columns are lower-case,
      as the declaration makes them. */
  lemma FoundIsEqual(live: Live, parent: Path, d: Declared.Decl)
    requires Found(live, parent, d).Ok? && Found(live, parent, d).value.Some?
    requires d.kind == PrimaryKeys ==> d.Attr("columns").VTuple? && LowerAll(d.Attr("columns").elems) == d.Attr("columns").elems
    ensures var n := Found(live, parent, d).value.value;
            MatchesRow(d.kind, n, RowAt(live, parent + [Step(d.kind, n)]), d) == Ok(true)
  {
    var n := Found(live, parent, d).value.value;
    match d.kind
    case PrimaryKeys =>
      var pks := ListNames(live, parent, PrimaryKeys);
      var row := RowAt(live, parent + [Step(PrimaryKeys, pks[0])]);
      assert row.Some? && ReadKeyColumns(row.value) == Ok(VTuple(LowerAll(PkColumns(live, parent))));
    case Indexes =>
      IndexMatchSound(live, parent, Listing(live, parent, Indexes), d);
    case _ =>
  }

  /** The error `from_declared` raises for what was found: DBObjectDoesntExistError
      when nothing was, the lookup's own error when it failed. */
  predicate Raised(f: Result<Option<string>>, e: Error)
  {
    (f == Ok(None) && e == DBObjectDoesntExist) || f == Fail(e)
  }

  /** An absent counterpart: nothing found, or the lookup raised
      DBObjectDoesntExistError. */
  predicate Missing(f: Result<Option<string>>)
  {
    f == Ok(None) || f == Fail(DBObjectDoesntExist)
  }

  // ---------------------------------------------------------------------------
  // from_declared, get_or_create
  // ---------------------------------------------------------------------------

  /** `from_declared`: DBObjectDoesntExistError when nothing is found. An index is
      the very object that compared equal, its cache filled by the comparison;
      every other type is a new object. */
  method FromDeclared(p: ReflectedEntity, d: Declared.Decl) returns (r: Result<ReflectedEntity>)
    requires p.Linked() && HolderOf(d.kind) == Some(p.kind)
    ensures r.Fail? ==> Raised(Found(p.conn.live, p.Path(), d), r.error)
    ensures r.Ok? ==> Found(p.conn.live, p.Path(), d) == Ok(Some(r.value.name))
    ensures r.Ok? ==> fresh(r.value) && p.ChildOf(r.value, d.kind) && r.value.Coherent()
  {
    HolderMatchesChildTypes(p.kind, d.kind);
    if d.kind == Indexes {
      var listed := p.GetChildren(Indexes);
      var found := FindEqualIndex(p, listed.value, Listing(p.conn.live, p.Path(), Indexes), d);
      if found.Fail? {
        return Fail(found.error);
      }
      if found.value.None? {
        return Fail(DBObjectDoesntExist);
      }
      return Ok(found.value.value);
    }
    var f := Found(p.conn.live, p.Path(), d);
    if f.Fail? {
      return Fail(f.error);
    }
    if f.value.None? {
      return Fail(DBObjectDoesntExist);
    }
    var o := new ReflectedEntity.Child(p, d.kind, f.value.value);
    return Ok(o);
  }

  /** The first of the table's new index objects that compares equal to the
      declaration. */
  method FindEqualIndex(p: ReflectedEntity, indexes: seq<ReflectedEntity>, ghost names: seq<string>, d: Declared.Decl)
    returns (r: Result<Option<ReflectedEntity>>)
    requires p.Linked() && p.kind == Tables && d.kind == Indexes && |indexes| == |names|
    requires forall i :: 0 <= i < |indexes| ==> p.Born(indexes[i], Indexes) && indexes[i].name == names[i]
    requires forall i, j :: 0 <= i < j < |indexes| ==> indexes[i] != indexes[j]
    modifies indexes`detail, indexes`cache
    ensures var f := IndexMatch(p.conn.live, p.Path(), names, d);
            (r.Ok? <==> f.Ok?) && (r.Fail? ==> r.error == f.error) &&
            (r.Ok? ==> (r.value.Some? <==> f.value.Some?)) &&
            (r.Ok? && r.value.Some? ==> r.value.value.name == f.value.value && r.value.value in indexes)
    ensures r.Ok? && r.value.Some? ==> p.ChildOf(r.value.value, Indexes) && r.value.value.Coherent()
  {
    ghost var live, table := p.conn.live, p.Path();
    assert names[0..] == names;
    for i := 0 to |indexes|
      invariant p.conn.live == live && p.Path() == table
      invariant IndexMatch(live, table, names, d) == IndexMatch(live, table, names[i..], d)
      invariant forall j :: i <= j < |indexes| ==> indexes[j].Pristine()
    {
      assert names[i..][1..] == names[i + 1..];
      var eq := EqualsIndex(p, indexes[i], d);
      if eq.Fail? {
        return Fail(eq.error);
      }
      if eq.value {
        return Ok(Some(indexes[i]));
      }
    }
    return Ok(None);
  }

  /** `index == declared_obj` on a new index object of the table. */
  method EqualsIndex(p: ReflectedEntity, o: ReflectedEntity, d: Declared.Decl) returns (r: Result<bool>)
    requires p.Linked() && p.kind == Tables && p.Born(o, Indexes)
    modifies o`detail, o`cache
    ensures r == MatchesRow(Indexes, o.name, RowAt(p.conn.live, p.Path() + [Step(Indexes, o.name)]), d)
    ensures o.Coherent()
  {
    assert o.Path() == p.Path() + [Step(Indexes, o.name)];
    r := o.Equals(d);
  }

  /** `get_or_create`: the existing counterpart when there is one; otherwise, for a
      type that can be created, the creation followed by a second lookup, and None
      for a type that cannot. Any other failure of the lookup is raised. `made` is
      what the creation did. */
  method GetOrCreate(p: ReflectedEntity, d: Declared.Decl) returns (r: Result<Option<ReflectedEntity>>, ghost made: Outcome)
    requires p.Linked() && HolderOf(d.kind) == Some(p.kind)
    modifies p.conn`live, p.conn`trace
    ensures var f := Found(old(p.conn.live), p.Path(), d);
            !Missing(f) ==>
              Untouched(p.conn, old(p.conn.live), old(p.conn.trace)) &&
              (f.Fail? ==> r == Fail(f.error)) && (f.Ok? ==> r.Ok? && r.value.Some?)
    ensures Missing(Found(old(p.conn.live), p.Path(), d)) && !CanCreate(d.kind) ==>
              r == Ok(None) && Untouched(p.conn, old(p.conn.live), old(p.conn.trace))
    ensures Missing(Found(old(p.conn.live), p.Path(), d)) && CanCreate(d.kind) ==>
              CreatedEx(p, d, old(p.conn.live), old(p.conn.trace), made) == true &&
              (made.Failed? ==> r == Fail(made.error)) &&
              (made.Pass? ==> (r.Fail? ==> Raised(Found(p.conn.live, p.Path(), d), r.error)) &&
                              (r.Ok? ==> r.value.Some?))
    ensures r.Ok? && r.value.Some? ==>
              Found(p.conn.live, p.Path(), d) == Ok(Some(r.value.value.name)) &&
              fresh(r.value.value) && p.ChildOf(r.value.value, d.kind) && r.value.value.Coherent()
  {
    made := Pass;
    var first := FromDeclared(p, d);
    if first.Ok? {
      r := Ok(Some(first.value));
    } else if first.error != DBObjectDoesntExist {
      r := Fail(first.error);
    } else if !CanCreate(d.kind) {
      r := Ok(None);
    } else {
      r, made := CreateAndFind(p, d);
    }
  }

  /** The creation and the lookup that follows it. */
  method CreateAndFind(p: ReflectedEntity, d: Declared.Decl) returns (r: Result<Option<ReflectedEntity>>, ghost made: Outcome)
    requires p.Linked() && HolderOf(d.kind) == Some(p.kind)
    modifies p.conn`live, p.conn`trace
    ensures CreatedEx(p, d, old(p.conn.live), old(p.conn.trace), made) == true
    ensures made.Failed? ==> r == Fail(made.error)
    ensures made.Pass? && r.Fail? ==> Raised(Found(p.conn.live, p.Path(), d), r.error)
    ensures r.Ok? ==> r.value.Some?
    ensures r.Ok? ==>
              Found(p.conn.live, p.Path(), d) == Ok(Some(r.value.value.name)) &&
              fresh(r.value.value) && p.ChildOf(r.value.value, d.kind) && r.value.value.Coherent()
  {
    var created;
    created, made := Create(p, d);
    if created.Failed? {
      r := Fail(created.error);
    } else {
      var again := FromDeclared(p, d);
      r := if again.Fail? then Fail(again.error) else Ok(Some(again.value));
    }
  }

  /** `get_or_create_child`: `get_or_create` of the parent's child class for the
      declaration's type; InvalidDBEntityChildError for a type the parent does not
      hold. */
  method GetOrCreateChild(p: ReflectedEntity, d: Declared.Decl) returns (r: Result<Option<ReflectedEntity>>)
    requires p.Linked()
    modifies p.conn`live, p.conn`trace
    ensures d.kind !in ReflectedChildTypes(p.kind) ==>
              r == Fail(InvalidDBEntityChild) && p.conn.live == old(p.conn.live) && p.conn.trace == old(p.conn.trace)
    ensures d.kind in ReflectedChildTypes(p.kind) && Found(old(p.conn.live), p.Path(), d).Ok? &&
            Found(old(p.conn.live), p.Path(), d).value.Some? ==>
              r.Ok? && r.value.Some? && p.conn.live == old(p.conn.live) && p.conn.trace == old(p.conn.trace)
    ensures r.Ok? && r.value.Some? ==>
              Found(p.conn.live, p.Path(), d) == Ok(Some(r.value.value.name)) &&
              fresh(r.value.value) && p.ChildOf(r.value.value, d.kind) && r.value.value.Coherent()
  {
    var t := p.ChildClass(d.kind);
    if t.Fail? {
      return Fail(t.error);
    }
    HolderMatchesChildTypes(p.kind, d.kind);
    ghost var made;
    r, made := GetOrCreate(p, d);
  }

  // ---------------------------------------------------------------------------
  // rename_child_with_old_name
  // ---------------------------------------------------------------------------

  /** The declared old name, or the empty name `by_name` rejects. */
  function OldName(d: Declared.Decl): string
  {
    if d.oldName.Some? then d.oldName.value else ""
  }

  /** The child `rename_child_with_old_name` renames: one of the declaration's type
      under its old name. */
  predicate HasOldChild(live: Live, parent: Path, d: Declared.Decl)
  {
    OldName(d) != "" && Exists(live, parent, d.kind, OldName(d))
  }

  /** `rename_child_with_old_name`: the child under the declared old name, when the
      server has it, is renamed to the declared name (the rename's own prompt and
      check apply); when it has not, nothing happens. */
  method RenameChildWithOldName(p: ReflectedEntity, d: Declared.Decl) returns (r: Outcome)
    requires p.Linked()
    modifies p.conn`live, p.conn`trace
    ensures d.kind !in ReflectedChildTypes(p.kind) ==>
              r == Failed(InvalidDBEntityChild) && Untouched(p.conn, old(p.conn.live), old(p.conn.trace))
    ensures d.kind in ReflectedChildTypes(p.kind) && !HasOldChild(old(p.conn.live), p.Path(), d) ==>
              r == Pass && Untouched(p.conn, old(p.conn.live), old(p.conn.trace))
    ensures d.kind in ReflectedChildTypes(p.kind) && HasOldChild(old(p.conn.live), p.Path(), d) ==>
              ChildRenamed(p.conn, p.Path(), Step(d.kind, OldName(d)), d.name, old(p.conn.live), old(p.conn.trace), r) == true
  {
    var c := p.GetChild(d.kind, OldName(d));
    if c.Fail? {
      r := if c.error == DBObjectDoesntExist then Pass else Failed(c.error);
    } else {
      r := RenameOldChild(p, c.value, d);
    }
  }

  /** The rename of `o`, the child found under the declared old name. */
  method RenameOldChild(p: ReflectedEntity, o: ReflectedEntity, d: Declared.Decl) returns (r: Outcome)
    requires p.Linked() && p.ChildOf(o, d.kind) && o.name == OldName(d)
    modifies p.conn`live, p.conn`trace, o`name
    ensures ChildRenamed(p.conn, p.Path(), Step(d.kind, OldName(d)), d.name, old(p.conn.live), old(p.conn.trace), r) == true
  {
    ghost var path := p.Path();
    o.AncestorsAbove();
    assert o !in p.ancestors + {p};
    assert o.Path() == path + [Step(d.kind, OldName(d))];
    r := o.Rename(d.name);
    assert p.Path() == path;
  }

  /** The rename of the child `s` of `parent`: a declined prompt and a type without
      a rename change nothing; a new name another child of the type already has is
      refused by the server with nothing changed; otherwise the server renames the
      child, and the rename holds exactly when the new name is found (DBError
      otherwise). */
  ghost predicate ChildRenamed(conn: Server, parent: Path, s: Step, newName: string, live0: Live, trace0: seq<Stmt>, r: Outcome)
    reads conn`live, conn`trace
  {
    var path := parent + [s];
    if !conn.answer(ConfirmRename(path, newName)) then r == Pass && Untouched(conn, live0, trace0)
    else if RenameSupport(s.kind).Failed? then r == RenameSupport(s.kind) && Untouched(conn, live0, trace0)
    else if RenameRefused(live0, parent, s.kind, s.name, newName) then r == Failed(DriverError) && Untouched(conn, live0, trace0)
    else
      conn.live == Modify(live0, parent, RenameKid(s, newName)) && conn.trace == trace0 + [RenameStmt(path, newName)] &&
      r == (if Exists(conn.live, parent, s.kind, newName) then Pass else Failed(DBError))
  }
}
