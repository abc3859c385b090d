/** The reflected side: objects that stand for live server objects and talk to the
    server through one connection. A reflected object knows only its type, its
    parent and its name; it reads its attributes lazily through a cache, and every
    change it makes goes through the connection as a statement. The prompts that
    ask the operator to confirm a change are answered by the connection's
    confirmation oracle. */
module Reflected {
  import opened Values
  import opened Attributes
  import opened LiveStore
  import opened Rules
  import Declared
  import DeclaredTypes

  /** The questions put to the operator; the answer 'y' is `true`. */
  datatype Prompt =
    | ConfirmSet(path: Path, attr: string, value: Value)
    | ConfirmRename(path: Path, newName: string)
    | ConfirmDelete(kind: EntityType, path: Path)
    | ConfirmFileMove(path: Path)

  /** The statements sent to the server, each standing for one SQL text. */
  datatype Stmt =
    | CreateStmt(path: Path)
    | DropStmt(path: Path)
    | RenameStmt(path: Path, newName: string)
    | AlterStmt(path: Path, attr: string)
    | AlterColumnStmt(path: Path)
    | RebuildStmt(path: Path)
    | RecreateStmt(path: Path)
    | GrantStmt(path: Path, role: string)
    | RevokeStmt(path: Path, role: string)
    | CreatePartitionFunctionStmt(name: string, boundaries: seq<int>)
    | DropPartitionFunctionStmt(name: string)

  /** The connection: the server's objects, the statements sent so far, the
      operator's answers, the current day, the first and last day of the data held in
      a column, and the databases that belong to an availability group. */
  class Server {
    var live: Live
    var trace: seq<Stmt>
    const answer: Prompt -> bool
    const today: int
    const dataDays: Path -> Option<(int, int)>
    const inAvailabilityGroup: Path -> bool

    constructor (live: Live, answer: Prompt -> bool, today: int, dataDays: Path -> Option<(int, int)>,
                 inAvailabilityGroup: Path -> bool)
      ensures this.live == live && trace == []
      ensures this.answer == answer && this.today == today && this.dataDays == dataDays
      ensures this.inAvailabilityGroup == inAvailabilityGroup
    {
      this.live := live;
      this.trace := [];
      this.answer := answer;
      this.today := today;
      this.dataDays := dataDays;
      this.inAvailabilityGroup := inAvailabilityGroup;
    }

    /** Sends a statement whose effect on the server is the edit `e` at `path`. */
    method Exec(st: Stmt, path: Path, e: Edit)
      modifies this`live, this`trace
      ensures live == Modify(old(live), path, e) && trace == old(trace) + [st]
    {
      live := Modify(live, path, e);
      trace := trace + [st];
    }

    /** Sends a statement whose effect the object tree does not record (filegroups,
        partition functions). */
    method Send(st: Stmt)
      modifies this`trace
      ensures trace == old(trace) + [st]
    {
      trace := trace + [st];
    }
  }

  /** The type of the object that holds a reflected child type: tables hold keys,
      indexes, columns and partitions; schemas hold tables; databases hold schemas
      and users; the server holds logins and databases. Foreign keys have no
      reflected holder, and the server has none. */
  function HolderOf(c: EntityType): (r: Option<EntityType>)
    ensures r.Some? <==> c != Servers && c != ForeignKeys
  {
    match c
    case PrimaryKeys => Some(Tables)
    case Indexes => Some(Tables)
    case Columns => Some(Tables)
    case Partitions => Some(Tables)
    case Tables => Some(Schemas)
    case Schemas => Some(Databases)
    case Users => Some(Databases)
    case Logins => Some(Servers)
    case Databases => Some(Servers)
    case ForeignKeys => None
    case Servers => None
  }

  /** The holder relation is exactly the reflected `child_types` tables read the
      other way round. */
  lemma HolderMatchesChildTypes(t: EntityType, c: EntityType)
    ensures HolderOf(c) == Some(t) <==> c in ReflectedChildTypes(t)
  {
  }

  /** The names of the visible children of one type: column names come back
      lower-cased, and system objects are left out. */
  function Listing(live: Live, parent: Path, t: EntityType): seq<string>
  {
    var names := ListNames(live, parent, t);
    Visible(t, if t == Columns then LowerAll(names) else names)
  }

  class ReflectedEntity {
    const kind: EntityType
    const parent: ReflectedEntity?
    const conn: Server
    /** The number of ancestors; it bounds every walk up the parent links. */
    const depth: nat
    /** The objects on the way up from the parent to the server. */
    ghost const ancestors: set<ReflectedEntity>
    var name: string
    /** `_detail_result`: the detail row, fetched on the first attribute read. */
    var detail: Option<Record>
    /** `_attributes`: the attribute values read so far. */
    var cache: map<string, Value>

    /** Parent links end at a server after `depth` steps, all on one connection. */
    ghost predicate Linked()
      decreases depth
    {
      if parent == null then depth == 0 && kind == Servers && ancestors == {}
      else
        HolderOf(kind) == Some(parent.kind) && depth == parent.depth + 1 && parent.conn == conn &&
        ancestors == parent.ancestors + {parent} && parent.Linked()
    }

    /** Every ancestor sits strictly higher, so renaming this object leaves the
        ancestors' names, and the parent's path, as they were. */
    lemma {:induction false} AncestorsAbove()
      requires Linked()
      ensures forall a :: a in ancestors ==> a.depth < depth
      ensures this !in ancestors
      ensures parent != null ==> kind != Servers
      decreases depth
    {
      if parent != null {
        parent.AncestorsAbove();
      }
    }

    /** The path of the live object this one stands for. */
    function Path(): Path
      requires Linked()
      reads this`name, ancestors`name
      decreases depth
    {
      if parent == null then [] else parent.Path() + [Step(kind, name)]
    }

    /** No attribute has been read yet. */
    predicate Pristine()
      reads this`detail, this`cache
    {
      detail.None? && cache == map[]
    }

    /** The cache agrees with the server: a fetched row is the live row, and every
        cached value is what reading the live row gives. */
    ghost predicate Coherent()
      requires Linked()
      reads this`detail, this`cache, conn`live, this`name, ancestors`name
    {
      var row := RowAt(conn.live, Path());
      (detail.Some? ==> detail == row) &&
      (forall a :: a in cache ==> row.Some? && ReadAttribute(kind, row.value, a) == Ok(cache[a]))
    }

    constructor Root(conn: Server, name: string)
      ensures Linked() && kind == Servers && parent == null && this.conn == conn
      ensures this.name == name && Pristine() && Path() == []
    {
      kind := Servers;
      parent := null;
      this.conn := conn;
      depth := 0;
      ancestors := {};
      this.name := name;
      detail := None;
      cache := map[];
    }

    /** `cls(parent, name)`. */
    constructor Child(parent: ReflectedEntity, kind: EntityType, name: string)
      requires parent.Linked() && kind in ReflectedChildTypes(parent.kind)
      ensures Linked() && this.kind == kind && this.parent == parent && conn == parent.conn
      ensures this.name == name && Pristine()
      ensures Path() == parent.Path() + [Step(kind, name)]
    {
      this.kind := kind;
      this.parent := parent;
      conn := parent.conn;
      depth := parent.depth + 1;
      ancestors := parent.ancestors + {parent};
      this.name := name;
      detail := None;
      cache := map[];
      new;
      HolderMatchesChildTypes(parent.kind, kind);
    }

    // -------------------------------------------------------------------------
    // The attribute cache
    // -------------------------------------------------------------------------

    /** `__getattr__`: a name outside the registry raises AttributeError; the detail
        row is fetched when none is held (DBError when the object is gone); a cached
        value is returned as it is, and any other is read from the row and cached. */
    method GetAttr(item: string) returns (r: Result<Value>)
      requires Linked()
      modifies this`detail, this`cache
      ensures item !in ValidAttributes(kind) ==> r == Fail(AttributeError) && detail == old(detail) && cache == old(cache)
      ensures item in ValidAttributes(kind) && old(detail).None? && RowAt(conn.live, Path()).None? ==>
                r == Fail(DBError) && detail == old(detail) && cache == old(cache)
      ensures item in ValidAttributes(kind) && (old(detail).Some? || RowAt(conn.live, Path()).Some?) ==>
                detail == (if old(detail).Some? then old(detail) else RowAt(conn.live, Path())) &&
                (item in old(cache) ==> r == Ok(old(cache)[item]) && cache == old(cache)) &&
                (item !in old(cache) ==> r == ReadAttribute(kind, detail.value, item) &&
                                         cache == (if r.Ok? then old(cache)[item := r.value] else old(cache)))
      ensures r == CachedRead(kind, old(detail), old(cache), RowAt(conn.live, Path()), item)
      ensures r.Ok? ==> detail.Some? && item in cache && cache[item] == r.value
      ensures detail == old(detail) || (old(detail).None? && detail == RowAt(conn.live, Path()))
      ensures Kept(old(cache), cache) && forall a :: a in cache && a !in old(cache) ==> a == item
      ensures old(Coherent()) ==> Coherent()
      ensures old(Pristine()) && item in ValidAttributes(kind) ==> r == FreshRead(conn.live, Path(), kind, item)
    {
      if item !in ValidAttributes(kind) {
        return Fail(AttributeError);
      }
      if detail.None? {
        var row := RowAt(conn.live, Path());
        if row.None? {
          return Fail(DBError);
        }
        detail := row;
      }
      if item !in cache {
        var v :- ReadAttribute(kind, detail.value, item);
        cache := cache[item := v];
      }
      return Ok(cache[item]);
    }

    /** `reset_attribute`: drops the row and that one cached value. */
    method ResetAttribute(attr: string)
      modifies this`detail, this`cache
      ensures detail.None? && cache == old(cache) - {attr}
    {
      detail := None;
      cache := cache - {attr};
    }

    /** The reads of `display_details`: every registry attribute, in order, through
        `__getattr__`; the first read that fails raises its error. When all succeed,
        the row is held and every attribute is cached with the value read. */
    method DisplayDetails() returns (r: Outcome)
      requires Linked()
      modifies this`detail, this`cache
      ensures r == ReadsInOrder(kind, old(detail), old(cache), RowAt(conn.live, Path()), ValidAttributes(kind))
      ensures r.Pass? && ValidAttributes(kind) != [] ==> detail.Some?
      ensures r.Pass? ==>
                forall j :: 0 <= j < |ValidAttributes(kind)| ==>
                  ValidAttributes(kind)[j] in cache &&
                  Ok(cache[ValidAttributes(kind)[j]]) == CachedRead(kind, old(detail), old(cache), RowAt(conn.live, Path()), ValidAttributes(kind)[j])
    {
      var names := ValidAttributes(kind);
      ghost var detail0, cache0, row := detail, cache, RowAt(conn.live, Path());
      ghost var want := ReadsInOrder(kind, detail0, cache0, row, names);
      r := Pass;
      var i := 0;
      while i < |names| && r.Pass?
        invariant 0 <= i <= |names|
        invariant r.Pass? ==> ReadSoFar(kind, detail0, cache0, row, names, i, detail, cache) &&
                              want == ReadsInOrder(kind, detail0, cache0, row, names[i..])
        invariant r.Failed? ==> r == want
        decreases |names| - i, if r.Pass? then 1 else 0
      {
        var v := ReadNext(detail0, cache0, row, names, i);
        if v.Fail? {
          r := Failed(v.error);
        } else {
          i := i + 1;
        }
      }
      if r.Pass? {
        assert names[i..] == [];
      }
    }

    /** One read of `display_details`, at the i-th name, stated against the row and
        values held when the reads began. */
    method ReadNext(ghost detail0: Option<Record>, ghost cache0: map<string, Value>, ghost row: Option<Record>,
                    names: seq<string>, i: nat) returns (v: Result<Value>)
      requires Linked() && i < |names| && row == RowAt(conn.live, Path())
      requires ReadSoFar(kind, detail0, cache0, row, names, i, detail, cache)
      modifies this`detail, this`cache
      ensures v.Fail? ==> ReadsInOrder(kind, detail0, cache0, row, names[i..]) == Failed(v.error)
      ensures v.Ok? ==>
                ReadSoFar(kind, detail0, cache0, row, names, i + 1, detail, cache) &&
                ReadsInOrder(kind, detail0, cache0, row, names[i..]) == ReadsInOrder(kind, detail0, cache0, row, names[i + 1..])
    {
      ghost var detail1, cache1 := detail, cache;
      v := GetAttr(names[i]);
      ReadStep(kind, detail0, cache0, row, names, i, detail1, cache1, v, detail, cache);
    }

    /** `reset_all_attributes`: drops the row and every cached value. */
    method ResetAll()
      modifies this`detail, this`cache
      ensures Pristine()
    {
      detail := None;
      cache := map[];
    }

    /** `__eq__` with a declared object: no attribute is read unless the types agree;
        on a cache that agrees with the server the answer is the row-based rule. */
    method Equals(d: Declared.Decl) returns (r: Result<bool>)
      requires Linked()
      modifies this`detail, this`cache
      ensures kind != d.kind ==> r == Ok(false) && detail == old(detail) && cache == old(cache)
      ensures old(Coherent()) ==> Coherent() && r == MatchesRow(kind, name, RowAt(conn.live, Path()), d)
    {
      if kind != d.kind {
        return Ok(false);
      }
      if kind !in {PrimaryKeys, Indexes, Partitions, Users} {
        return Ok(NameMatches(name, d));
      }
      MatchKeysAreAttributes(kind);
      var key := MatchKey(kind);
      var v :- GetAttr(key);
      if v != d.Attr(key) {
        return Ok(false);
      }
      if kind != Indexes {
        return Ok(true);
      }
      var inc :- GetAttr("included_columns");
      return Ok(inc == d.Attr("included_columns"));
    }

    // -------------------------------------------------------------------------
    // Walking up the parent links
    // -------------------------------------------------------------------------

    /** The names from this object up to and including the nearest ancestor of type
        `top`, or up to the server when there is none. */
    function NamesUpTo(top: EntityType): (r: seq<string>)
      requires Linked()
      reads this`name, ancestors`name
      decreases depth
    {
      if kind == top || parent == null then [name] else [name] + parent.NamesUpTo(top)
    }

    /** `full_name`: the names from the nearest `top` ancestor down to this object,
        joined with dots. */
    method FullName(top: EntityType) returns (r: string)
      requires Linked()
      ensures r == Join(".", Reverse(NamesUpTo(top)))
    {
      var names: seq<string> := [];
      var current: ReflectedEntity? := this;
      while current != null && current.kind != top
        invariant current != null ==> current.Linked() && names + current.NamesUpTo(top) == NamesUpTo(top)
        invariant current == null ==> names == NamesUpTo(top)
        decreases if current == null then 0 else current.depth + 1
      {
        current.NamesStep(top);
        if current.parent != null {
          AppendAssoc(names, [current.name], current.parent.NamesUpTo(top));
        }
        names := names + [current.name];
        current := current.parent;
      }
      if current != null {
        current.NamesStep(top);
        names := names + [current.name];
      }
      return Join(".", Reverse(names));
    }

    /** One step of the walk up: below the top, the names are this one's followed
        by the parent's. */
    lemma NamesStep(top: EntityType)
      requires Linked()
      ensures kind != top && parent != null ==> parent.Linked() && NamesUpTo(top) == [name] + parent.NamesUpTo(top)
      ensures kind != top && parent == null ==> NamesUpTo(top) == [name]
      ensures kind == top ==> NamesUpTo(top) == [name]
    {
    }

    /** The nearest object of type `t` on the way up, this one included. */
    function Nearest(t: EntityType): (r: ReflectedEntity?)
      requires Linked()
      decreases depth
    {
      if kind == t then this else if parent == null then null else parent.Nearest(t)
    }

    /** The nearest object of a type is the closest such ancestor: there is one
        exactly when some object on the way up has that type. */
    lemma {:induction false} NearestAncestor(t: EntityType)
      requires Linked()
      ensures Nearest(t) != null ==> (Nearest(t) == this || Nearest(t) in ancestors) && Nearest(t).kind == t && Nearest(t).Linked()
      ensures Nearest(t) == null <==> kind != t && forall a :: a in ancestors ==> a.kind != t
      decreases depth
    {
      if kind != t && parent != null {
        parent.NearestAncestor(t);
      }
    }

    /** The top segment of the full name is the nearest `top` ancestor's name, and a
        full name without such an ancestor names every object up to the server. */
    lemma {:induction false} FullNameTop(top: EntityType)
      requires Linked()
      ensures Nearest(top) != null ==> NamesUpTo(top)[|NamesUpTo(top)| - 1] == Nearest(top).name
      ensures Nearest(top) == null ==> |NamesUpTo(top)| == depth + 1
      ensures NamesUpTo(top)[0] == name
      decreases depth
    {
      if kind != top && parent != null {
        parent.FullNameTop(top);
      }
    }

    /** `ancestor_name`: the name of the nearest object of type `t` on the way up,
        or None when the walk reaches the server first. */
    method AncestorName(t: EntityType) returns (r: Option<string>)
      requires Linked()
      ensures r == if Nearest(t) == null then None else Some(Nearest(t).name)
    {
      var ancestor: ReflectedEntity := this;
      while ancestor.kind != t
        invariant ancestor.Linked() && ancestor.Nearest(t) == Nearest(t)
        decreases ancestor.depth
      {
        if ancestor.parent == null {
          return None;
        }
        ancestor := ancestor.parent;
      }
      return Some(ancestor.name);
    }

    // -------------------------------------------------------------------------
    // Children
    // -------------------------------------------------------------------------

    /** `get_child_class_from_name`: the first of the type's child classes with that
        object type. */
    method ChildClass(t: EntityType) returns (r: Result<EntityType>)
      ensures r.Ok? <==> t in ReflectedChildTypes(kind)
      ensures r.Ok? ==> r.value == t
      ensures r.Fail? ==> r.error == InvalidDBEntityChild
    {
      var types := ReflectedChildTypes(kind);
      for i := 0 to |types|
        invariant forall j :: 0 <= j < i ==> types[j] != t
      {
        if types[i] == t {
          return Ok(types[i]);
        }
      }
      return Fail(InvalidDBEntityChild);
    }

    /** `get_children`: one new reflected object per visible child of that type, in
        listing order. */
    method GetChildren(t: EntityType) returns (r: Result<seq<ReflectedEntity>>)
      requires Linked()
      ensures r.Fail? <==> t !in ReflectedChildTypes(kind)
      ensures r.Fail? ==> r.error == InvalidDBEntityChild
      ensures r.Ok? ==> |r.value| == |Listing(conn.live, Path(), t)|
      ensures r.Ok? ==> forall i :: 0 <= i < |r.value| ==>
                fresh(r.value[i]) && Born(r.value[i], t) && r.value[i].name == Listing(conn.live, Path(), t)[i]
      ensures r.Ok? ==> forall i, j :: 0 <= i < j < |r.value| ==> r.value[i] != r.value[j]
    {
      var childType :- ChildClass(t);
      var objs := NewChildren(t, Listing(conn.live, Path(), t));
      return Ok(objs);
    }

    /** One new child object per name, in order. */
    method NewChildren(t: EntityType, names: seq<string>) returns (objs: seq<ReflectedEntity>)
      requires Linked() && t in ReflectedChildTypes(kind)
      ensures |objs| == |names|
      ensures forall i :: 0 <= i < |objs| ==> fresh(objs[i]) && Born(objs[i], t) && objs[i].name == names[i]
      ensures forall i, j :: 0 <= i < j < |objs| ==> objs[i] != objs[j]
    {
      objs := [];
      for i := 0 to |names|
        invariant |objs| == i
        invariant forall j :: 0 <= j < i ==> fresh(objs[j]) && Born(objs[j], t) && objs[j].name == names[j]
        invariant forall j, k :: 0 <= j < k < i ==> objs[j] != objs[k]
      {
        var o := new ReflectedEntity.Child(this, t, names[i]);
        objs := objs + [o];
      }
    }

    /** A child of this object of type `t`. */
    ghost predicate ChildOf(o: ReflectedEntity, t: EntityType)
    {
      o.Linked() && o.parent == this && o.kind == t && o.conn == conn
    }

    /** A new, unread child of this object of type `t`. */
    ghost predicate Born(o: ReflectedEntity, t: EntityType)
      reads o`detail, o`cache
    {
      ChildOf(o, t) && o.Pristine()
    }

    /** `get_child`: the object of that type and name, if the server has it. */
    method GetChild(t: EntityType, childName: string) returns (r: Result<ReflectedEntity>)
      requires Linked()
      ensures t !in ReflectedChildTypes(kind) ==> r == Fail(InvalidDBEntityChild)
      ensures t in ReflectedChildTypes(kind) ==>
                (r.Ok? <==> childName != "" && Exists(conn.live, Path(), t, childName))
      ensures r.Fail? && t in ReflectedChildTypes(kind) ==> r.error == DBObjectDoesntExist
      ensures r.Ok? ==> fresh(r.value) && Born(r.value, t) && r.value.name == childName
    {
      var childType :- ChildClass(t);
      r := ByName(this, childType, childName);
    }

    /** `get_child_by_name`: the first child type, in `child_types` order, that has
        an object of that name. */
    method GetChildByName(childName: string) returns (r: Result<ReflectedEntity>)
      requires Linked()
      ensures r.Ok? <==> childName != "" && exists t :: t in ReflectedChildTypes(kind) && Exists(conn.live, Path(), t, childName)
      ensures r.Fail? ==> r.error == DBObjectDoesntExist
      ensures r.Ok? ==> fresh(r.value) && Born(r.value, r.value.kind) && r.value.name == childName
      ensures r.Ok? ==> exists i :: (0 <= i < |ReflectedChildTypes(kind)| && ReflectedChildTypes(kind)[i] == r.value.kind &&
                forall j :: 0 <= j < i ==> !Exists(conn.live, Path(), ReflectedChildTypes(kind)[j], childName))
    {
      var types := ReflectedChildTypes(kind);
      for i := 0 to |types|
        invariant childName == "" || forall j :: 0 <= j < i ==> !Exists(conn.live, Path(), types[j], childName)
      {
        var c := GetChild(types[i], childName);
        if c.Ok? {
          return c;
        }
      }
      return Fail(DBObjectDoesntExist);
    }
    // -------------------------------------------------------------------------
    // Table queries
    // -------------------------------------------------------------------------

    /** `get_pk_fields`: the columns of the table's primary key, or None when the
        table has none. */
    method GetPkFields() returns (r: Result<Value>)
      requires Linked() && kind == Tables
      ensures r == PkFields(conn.live, Path())
    {
      var listed := GetChildren(PrimaryKeys);
      var pks := listed.value;
      if pks == [] {
        return Ok(VNone);
      }
      r := pks[0].GetAttr("columns");
    }

    /** `get_clustered_index`: the first listed index that reads as clustered. */
    method GetClusteredIndex() returns (r: Result<Option<ReflectedEntity>>)
      requires Linked() && kind == Tables
      ensures var f := FirstClustered(conn.live, Path(), Listing(conn.live, Path(), Indexes));
              (r.Ok? <==> f.Ok?) && (r.Fail? ==> r.error == f.error) &&
              (r.Ok? ==> (r.value.Some? <==> f.value.Some?)) &&
              (r.Ok? && r.value.Some? ==> r.value.value.name == f.value.value && ChildOf(r.value.value, Indexes))
    {
      var listed := GetChildren(Indexes);
      r := FindClustered(listed.value, Listing(conn.live, Path(), Indexes));
    }

    /** The first of `indexes` that reads as clustered. */
    method FindClustered(indexes: seq<ReflectedEntity>, ghost names: seq<string>) returns (r: Result<Option<ReflectedEntity>>)
      requires Linked() && kind == Tables && |indexes| == |names|
      requires forall i :: 0 <= i < |indexes| ==> Born(indexes[i], Indexes) && indexes[i].name == names[i]
      requires forall i, j :: 0 <= i < j < |indexes| ==> indexes[i] != indexes[j]
      modifies indexes`detail, indexes`cache
      ensures var f := FirstClustered(conn.live, Path(), names);
              (r.Ok? <==> f.Ok?) && (r.Fail? ==> r.error == f.error) &&
              (r.Ok? ==> (r.value.Some? <==> f.value.Some?)) &&
              (r.Ok? && r.value.Some? ==> r.value.value.name == f.value.value && ChildOf(r.value.value, Indexes))
    {
      ghost var live, table := conn.live, Path();
      assert names[0..] == names;
      for i := 0 to |indexes|
        invariant conn.live == live && Path() == table
        invariant FirstClustered(live, table, names) == FirstClustered(live, table, names[i..])
        invariant forall j :: i <= j < |indexes| ==> indexes[j].Pristine()
      {
        assert names[i..][1..] == names[i + 1..];
        var notClustered := TestIndex(indexes[i], NotClustered);
        if notClustered.Fail? {
          return Fail(notClustered.error);
        }
        if !notClustered.value {
          return Ok(Some(indexes[i]));
        }
      }
      return Ok(None);
    }

    /** The indexes among `indexes` that pass the test, in order; the first read that
        fails ends the selection. */
    method SelectIndexes(indexes: seq<ReflectedEntity>, ghost names: seq<string>, test: IndexTest,
                         ghost live: Live, ghost table: Path)
      returns (r: Result<seq<ReflectedEntity>>)
      requires Linked() && kind == Tables && |indexes| == |names| && conn.live == live && Path() == table
      requires forall i :: 0 <= i < |indexes| ==> Born(indexes[i], Indexes) && indexes[i].name == names[i]
      requires forall i, j :: 0 <= i < j < |indexes| ==> indexes[i] != indexes[j]
      modifies indexes`detail, indexes`cache
      ensures var f := Select(live, table, names, test);
              (r.Ok? <==> f.Ok?) && (r.Fail? ==> r.error == f.error) &&
              (r.Ok? ==> |r.value| == |f.value| &&
                         forall i :: 0 <= i < |r.value| ==> r.value[i].name == f.value[i] && ChildOf(r.value[i], Indexes))
      ensures r.Ok? ==> forall i :: 0 <= i < |r.value| ==> r.value[i] in indexes
    {
      var picked: seq<ReflectedEntity> := [];
      ghost var pickedNames: seq<string> := [];
      SelectedNone(live, table, names, test);
      for i := 0 to |indexes|
        invariant conn.live == live && Path() == table
        invariant SelectedSoFar(live, table, names, test, i, pickedNames)
        invariant PickedFrom(picked, pickedNames, indexes)
        invariant forall j :: i <= j < |indexes| ==> indexes[j].Pristine()
      {
        var keep: Result<bool>;
        keep, picked, pickedNames := PickIndex(indexes[i], indexes, names, test, i, picked, pickedNames, live, table);
        if keep.Fail? {
          return Fail(keep.error);
        }
      }
      SelectedAll(live, table, names, test, pickedNames);
      return Ok(picked);
    }

    /** The test applied to the `i`-th index, which joins the picked ones when it
        passes. */
    method PickIndex(o: ReflectedEntity, indexes: seq<ReflectedEntity>, ghost names: seq<string>, test: IndexTest, i: nat,
                     picked: seq<ReflectedEntity>, ghost pickedNames: seq<string>, ghost live: Live, ghost table: Path)
      returns (keep: Result<bool>, picked': seq<ReflectedEntity>, ghost pickedNames': seq<string>)
      requires Linked() && kind == Tables && conn.live == live && Path() == table
      requires i < |indexes| == |names| && o == indexes[i] && o.name == names[i] && Born(o, Indexes)
      requires SelectedSoFar(live, table, names, test, i, pickedNames) && PickedFrom(picked, pickedNames, indexes)
      modifies o`detail, o`cache
      ensures keep.Fail? ==> Select(live, table, names, test) == Fail(keep.error)
      ensures keep.Ok? ==> SelectedSoFar(live, table, names, test, i + 1, pickedNames') && PickedFrom(picked', pickedNames', indexes)
    {
      keep := TestIndex(o, test);
      SelectedNext(live, table, names, test, i, pickedNames, keep);
      picked', pickedNames' := picked, pickedNames;
      if keep == Ok(true) {
        PickedMore(picked, pickedNames, indexes, i);
        picked', pickedNames' := picked + [indexes[i]], pickedNames + [names[i]];
      }
    }

    lemma PickedMore(picked: seq<ReflectedEntity>, pickedNames: seq<string>, indexes: seq<ReflectedEntity>, i: nat)
      requires i < |indexes| && ChildOf(indexes[i], Indexes) && PickedFrom(picked, pickedNames, indexes)
      ensures PickedFrom(picked + [indexes[i]], pickedNames + [indexes[i].name], indexes)
    {
    }

    /** The objects picked so far are children of this table of type index, taken
        from `indexes`, named as the names picked. */
    ghost predicate PickedFrom(picked: seq<ReflectedEntity>, pickedNames: seq<string>, indexes: seq<ReflectedEntity>)
      reads picked
    {
      |picked| == |pickedNames| &&
      forall k :: 0 <= k < |picked| ==> picked[k].name == pickedNames[k] && ChildOf(picked[k], Indexes) && picked[k] in indexes
    }

    /** Reads the attribute the test needs from a new index of this table. */
    method TestIndex(o: ReflectedEntity, test: IndexTest) returns (r: Result<bool>)
      requires Linked() && kind == Tables && Born(o, Indexes)
      modifies o`detail, o`cache
      ensures r == Check(conn.live, Path(), o.name, test)
    {
      var v := o.GetAttr(TestAttribute(test));
      assert o.Path() == Path() + [Step(Indexes, o.name)];
      if v.Fail? {
        return Fail(v.error);
      }
      return Ok(Passes(test, v.value));
    }

    /** `get_nonclustered_indexes`: the listed indexes that do not read as clustered. */
    method GetNonclusteredIndexes() returns (r: Result<seq<ReflectedEntity>>)
      requires Linked() && kind == Tables
      ensures var f := Select(conn.live, Path(), Listing(conn.live, Path(), Indexes), NotClustered);
              (r.Ok? <==> f.Ok?) && (r.Fail? ==> r.error == f.error) &&
              (r.Ok? ==> |r.value| == |f.value| &&
                         forall i :: 0 <= i < |r.value| ==> r.value[i].name == f.value[i] && ChildOf(r.value[i], Indexes))
    {
      ghost var live, table := conn.live, Path();
      var listed := GetChildren(Indexes);
      r := SelectIndexes(listed.value, Listing(live, table, Indexes), NotClustered, live, table);
      assert conn.live == live && Path() == table;
    }

    /** `get_indexes_for_column`: the listed indexes whose key columns include the
        column. */
    method GetIndexesForColumn(column: string) returns (r: Result<seq<ReflectedEntity>>)
      requires Linked() && kind == Tables
      ensures var f := Select(conn.live, Path(), Listing(conn.live, Path(), Indexes), IncludesColumn(column));
              (r.Ok? <==> f.Ok?) && (r.Fail? ==> r.error == f.error) &&
              (r.Ok? ==> |r.value| == |f.value| &&
                         forall i :: 0 <= i < |r.value| ==> r.value[i].name == f.value[i] && ChildOf(r.value[i], Indexes))
      ensures r.Ok? ==> forall i :: 0 <= i < |r.value| ==> fresh(r.value[i])
    {
      ghost var live, table := conn.live, Path();
      var listed := GetChildren(Indexes);
      r := SelectIndexes(listed.value, Listing(live, table, Indexes), IncludesColumn(column), live, table);
      assert conn.live == live && Path() == table;
    }

    /** `recreate_indexes_on_filegroup`: the clustered index is rebuilt first, then
        every non-clustered one in listing order; a table without a clustered index
        fails with AttributeError before anything is sent. */
    method RecreateIndexesOnFilegroup() returns (r: Outcome)
      requires Linked() && kind == Tables
      modifies conn`trace
      ensures r.Pass? <==> RebuildOrder(conn.live, Path()).Ok?
      ensures r.Failed? ==> r.error == RebuildOrder(conn.live, Path()).error
      ensures r.Pass? ==> conn.trace == old(conn.trace) + Rebuilds(Path(), RebuildOrder(conn.live, Path()).value)
      ensures r.Failed? ==> conn.trace == old(conn.trace) + FailedRebuilds(conn.live, Path())
    {
      ghost var live, table, trace0 := conn.live, Path(), conn.trace;
      RebuildOrderParts(live, table);
      var first := RebuildClustered(live, table);
      if first.Fail? {
        r := Failed(first.error);
      } else {
        var others := RebuildNonclustered(live, table);
        if others.Fail? {
          r := Failed(others.error);
        } else {
          RebuildsConcat(table, [first.value], others.value);
          AppendAssoc(trace0, Rebuilds(table, [first.value]), Rebuilds(table, others.value));
          r := Pass;
        }
      }
      assert conn.live == live && Path() == table;
    }

    /** The rebuilds of the non-clustered indexes, in listing order. */
    method RebuildNonclustered(ghost live: Live, ghost table: Path) returns (r: Result<seq<string>>)
      requires Linked() && kind == Tables && conn.live == live && Path() == table
      modifies conn`trace
      ensures r == Select(live, table, Listing(live, table, Indexes), NotClustered)
      ensures r.Fail? ==> conn.trace == old(conn.trace)
      ensures r.Ok? ==> conn.trace == old(conn.trace) + Rebuilds(table, r.value)
    {
      ghost var f := Select(live, table, Listing(live, table, Indexes), NotClustered);
      var others := GetNonclusteredIndexes();
      if others.Fail? {
        return Fail(others.error);
      }
      var objs := others.value;
      var names := seq(|objs|, i requires 0 <= i < |objs| reads objs => objs[i].name);
      assert names == f.value;
      SendRebuilds(objs, names);
      assert Path() == table;
      return Ok(names);
    }

    /** The clustered index's rebuild, the first step of the re-creation. */
    method RebuildClustered(ghost live: Live, ghost table: Path) returns (r: Result<string>)
      requires Linked() && kind == Tables && conn.live == live && Path() == table
      modifies conn`trace
      ensures var f := FirstClustered(live, table, Listing(live, table, Indexes));
              (r.Ok? <==> f.Ok? && f.value.Some?) &&
              (r.Fail? ==> r.error == (if f.Fail? then f.error else AttributeError) && conn.trace == old(conn.trace)) &&
              (r.Ok? ==> r.value == f.value.value && conn.trace == old(conn.trace) + Rebuilds(table, [r.value]))
    {
      var clustered := GetClusteredIndex();
      if clustered.Fail? {
        return Fail(clustered.error);
      }
      if clustered.value.None? {
        return Fail(AttributeError);
      }
      var first := clustered.value.value;
      SendRebuilds([first], [first.name]);
      return Ok(first.name);
    }

    /** One rebuild statement per index, in order. */
    method SendRebuilds(indexes: seq<ReflectedEntity>, ghost names: seq<string>)
      requires Linked() && |indexes| == |names|
      requires forall i :: 0 <= i < |indexes| ==> indexes[i].name == names[i] && ChildOf(indexes[i], Indexes)
      modifies conn`trace
      ensures conn.trace == old(conn.trace) + Rebuilds(Path(), names)
    {
      for i := 0 to |indexes|
        invariant conn.trace == old(conn.trace) + Rebuilds(Path(), names[..i])
      {
        assert indexes[i].Path() == Path() + [Step(Indexes, names[i])];
        conn.Send(RebuildStmt(indexes[i].Path()));
        assert names[..i + 1][..i] == names[..i];
      }
      assert names[..|indexes|] == names;
    }
    // -------------------------------------------------------------------------
    // Deleting
    // -------------------------------------------------------------------------

    /** The operator lets the object go: its type may be deleted and the prompt is
        answered 'y'. */
    predicate DeleteApproved()
      requires Linked()
      reads this`name, ancestors`name
    {
      CanDelete(kind) && conn.answer(ConfirmDelete(kind, Path()))
    }

    /** The object has been dropped from its parent by one drop statement. */
    ghost predicate DroppedFrom(live0: Live, trace0: seq<Stmt>)
      requires Linked()
      reads this`name, ancestors`name, conn`live, conn`trace
    {
      parent != null &&
      conn.live == Modify(live0, parent.Path(), DropKid(Step(kind, name))) && conn.trace == trace0 + [DropStmt(Path())]
    }

    /** The indexes of the column's table whose key includes the column. */
    ghost function ColumnIndexes(live: Live): Result<seq<string>>
      requires Linked() && kind == Columns
      reads this`name, ancestors`name
    {
      Select(live, parent.Path(), Listing(live, parent.Path(), Indexes), IncludesColumn(name))
    }

    /** `delete`: nothing happens, and False is returned, when the type may not be
        deleted or the operator declines; otherwise the type's drop runs and, on
        success, None is returned. The result is never truthy. */
    method Delete() returns (r: Result<Value>)
      requires Linked()
      modifies conn`live, conn`trace, this`detail, this`cache
      decreases DeleteRank(kind), 2
      ensures r.Ok? ==> !Truthy(r.value)
      ensures !DeleteApproved() ==> r == Ok(VBool(false)) && conn.live == old(conn.live) && conn.trace == old(conn.trace)
      ensures DeleteApproved() ==>
                (r.Ok? ==> r.value == VNone) &&
                Deleted(old(conn.live), old(conn.trace), old(detail), old(cache),
                        if r.Ok? then Pass else Failed(r.error))
      ensures kind == Indexes ==> conn.trace == old(conn.trace) || conn.trace == old(conn.trace) + [DropStmt(Path())]
    {
      if !CanDelete(kind) || !conn.answer(ConfirmDelete(kind, Path())) {
        return Ok(VBool(false));
      }
      var done := DeleteEx();
      if done.Failed? {
        return Fail(done.error);
      }
      return Ok(VNone);
    }

    /** `_delete_ex`: schemas refuse, the server and databases have no drop; an index
        checks its constraint flag first; a column is dropped only once no index uses
        it; a partition moves the table's indexes back first and drops its scheme and
        function; every other type is dropped by one statement. */
    method DeleteEx() returns (r: Outcome)
      requires Linked()
      modifies conn`live, conn`trace, this`detail, this`cache
      decreases DeleteRank(kind), 1
      ensures Deleted(old(conn.live), old(conn.trace), old(detail), old(cache), r)
    {
      if kind == Schemas {
        return Failed(DBError);
      }
      if kind == Servers || kind == Databases {
        return Failed(NotImplemented);
      }
      if kind == Partitions {
        r := DeletePartition();
      } else if kind == Columns {
        r := DeleteColumn();
      } else if kind == Indexes {
        r := DeleteIndex();
      } else {
        DropSelf();
        r := Pass;
      }
    }

    /** What `_delete_ex` does, type by type, given the server's objects, the
        statements sent before, and the row and values the object holds. */
    ghost predicate Deleted(live0: Live, trace0: seq<Stmt>, detail0: Option<Record>, cache0: map<string, Value>, r: Outcome)
      requires Linked()
      reads this`name, ancestors`name, conn`live, conn`trace
    {
      if kind == Schemas then r == Failed(DBError) && conn.live == live0 && conn.trace == trace0
      else if kind == Servers || kind == Databases then r == Failed(NotImplemented) && conn.live == live0 && conn.trace == trace0
      else if kind == Indexes then IndexDeleted(live0, trace0, r)
      else if kind == Columns then ColumnDeleted(live0, trace0, r)
      else if kind == Partitions then PartitionDeleted(live0, trace0, detail0, cache0, r)
      else r == Pass && DroppedFrom(live0, trace0)
    }

    /** A column is dropped when no index uses it; when one does, the first such
        index is offered for deletion and the column stays. */
    ghost predicate ColumnDeleted(live0: Live, trace0: seq<Stmt>, r: Outcome)
      requires Linked() && kind == Columns
      reads this`name, ancestors`name, conn`live, conn`trace
    {
      var f := ColumnIndexes(live0);
      (f.Fail? ==> r == Failed(f.error) && conn.live == live0 && conn.trace == trace0) &&
      (f == Ok([]) ==> r == Pass && DroppedFrom(live0, trace0)) &&
      (f.Ok? && f.value != [] ==> IndexOffered(conn, parent.Path(), f.value[0], live0, trace0, r))
    }

    /** An index is dropped when its constraint flag can be read. */
    ghost predicate IndexDeleted(live0: Live, trace0: seq<Stmt>, r: Outcome)
      requires Linked() && kind == Indexes
      reads this`name, ancestors`name, conn`live, conn`trace
    {
      var row := RowAt(live0, Path());
      if row.Some? && "is_unique_constraint" in row.value then r == Pass && DroppedFrom(live0, trace0)
      else r == Failed(AttributeError) && conn.live == live0 && conn.trace == trace0
    }

    /** The column case of `_delete_ex`: the column goes only when no index uses it. */
    method DeleteColumn() returns (r: Outcome)
      requires Linked() && kind == Columns
      modifies conn`live, conn`trace
      decreases DeleteRank(kind), 0
      ensures ColumnDeleted(old(conn.live), old(conn.trace), r)
    {
      var clear := DropAssociatedIndexes();
      if clear.Fail? {
        return Failed(clear.error);
      }
      if !clear.value {
        return Pass;
      }
      DropSelf();
      return Pass;
    }

    /** The index case of `_delete_ex`: the constraint flag of the index is read from
        a fresh query first; either kind of index is then dropped. */
    method DeleteIndex() returns (r: Outcome)
      requires Linked() && kind == Indexes
      modifies conn`live, conn`trace
      ensures IndexDeleted(old(conn.live), old(conn.trace), r)
    {
      var row := RowAt(conn.live, Path());
      if row.None? || "is_unique_constraint" !in row.value {
        return Failed(AttributeError);
      }
      DropSelf();
      return Pass;
    }

    /** The drop statement of the object, sent from its parent. */
    method DropSelf()
      requires Linked() && kind != Servers
      modifies conn`live, conn`trace
      ensures DroppedFrom(old(conn.live), old(conn.trace))
    {
      conn.Exec(DropStmt(Path()), parent.Path(), DropKid(Step(kind, name)));
    }

    /** What dropping a partition does: the table's indexes are rebuilt first (a
        failure there leaves the objects as they were, with at most the clustered
        index's rebuild sent), then the scheme is dropped, and
        then the function named after the partition column. The column is read after
        the scheme is gone: when it cannot be read, the function is not dropped. */
    ghost predicate PartitionDeleted(live0: Live, trace0: seq<Stmt>, detail0: Option<Record>, cache0: map<string, Value>,
                                     r: Outcome)
      requires Linked() && kind == Partitions
      reads this`name, ancestors`name, conn`live, conn`trace
    {
      var order := RebuildOrder(live0, parent.Path());
      var column := ColumnAfterDrop(live0, detail0, cache0);
      (order.Fail? ==> r == Failed(order.error) && conn.live == live0 &&
                       conn.trace == trace0 + FailedRebuilds(live0, parent.Path())) &&
      (order.Ok? ==> conn.live == Modify(live0, parent.Path(), DropKid(Step(Partitions, name)))) &&
      (order.Ok? && column.Fail? ==>
         r == Failed(column.error) &&
         conn.trace == trace0 + Rebuilds(parent.Path(), order.value) + [DropStmt(Path())]) &&
      (order.Ok? && column.Ok? ==>
         r == Pass &&
         conn.trace == trace0 + Rebuilds(parent.Path(), order.value) + SchemeDrops(column.value))
    }

    /** The partition's `column` as `_delete_ex` reads it once the scheme is dropped:
        a cached value, else the held row, else the server's row, which is then gone. */
    ghost function ColumnAfterDrop(live0: Live, detail0: Option<Record>, cache0: map<string, Value>): Result<string>
      requires Linked() && kind == Partitions
      reads this`name, ancestors`name
    {
      ColumnText(CachedRead(Partitions, detail0, cache0,
                            RowAt(Modify(live0, parent.Path(), DropKid(Step(Partitions, name))), Path()), "column"))
    }

    /** With no row held, the column is asked of the server after the scheme is gone,
        and the read fails with DBError, so the partition function is not dropped. */
    lemma UnheldColumnLost(live0: Live, cache0: map<string, Value>)
      requires Linked() && kind == Partitions
      ensures ColumnAfterDrop(live0, None, cache0) == Fail(DBError)
    {
      var s := Step(Partitions, name);
      var after := Modify(live0, parent.Path(), DropKid(s));
      assert Path() == parent.Path() + [s];
      if Find(live0, parent.Path()).Some? {
        DropThenAbsent(live0, parent.Path(), s);
      } else {
        ModifyMissing(live0, parent.Path(), DropKid(s));
        FindLast(live0, parent.Path(), s);
      }
      ExistsIffFound(after, parent.Path(), s);
      assert RowAt(after, Path()) == None;
    }

    /** With a row held, the column comes from the cache or from that row, whatever
        the server holds; a cached text is used as it is. */
    lemma HeldColumnRead(live0: Live, row: Record, cache0: map<string, Value>)
      requires Linked() && kind == Partitions
      ensures "column" in cache0 ==> ColumnAfterDrop(live0, Some(row), cache0) == ColumnText(Ok(cache0["column"]))
      ensures "column" !in cache0 ==>
                ColumnAfterDrop(live0, Some(row), cache0) == ColumnText(ReadAttribute(Partitions, row, "column"))
      ensures var known := CachedText(Some(row), cache0, "column");
              known.Some? ==> ColumnAfterDrop(live0, Some(row), cache0) == Ok(known.value)
    {
      assert "column" in ValidAttributes(Partitions);
    }

    /** The two statements that drop the partition scheme and then the partition
        function built on `column`. */
    function SchemeDrops(column: string): seq<Stmt>
      requires Linked() && kind == Partitions
      reads this`name, ancestors`name
    {
      [DropStmt(Path()), DropPartitionFunctionStmt(parent.PartitionFunctionName(column))]
    }

    /** The name of the partition function of this table on `column`. */
    function PartitionFunctionName(column: string): string
      requires Linked() && kind == Tables
      reads this`name, ancestors`name
    {
      PartitionObjectName("pf", parent.name, name, column)
    }

    /** The name of the partition scheme of this table on `column`. */
    function PartitionSchemeName(column: string): string
      requires Linked() && kind == Tables
      reads this`name, ancestors`name
    {
      PartitionObjectName("ps", parent.name, name, column)
    }

    /** The partition case of `_delete_ex`. */
    method DeletePartition() returns (r: Outcome)
      requires Linked() && kind == Partitions
      modifies conn`live, conn`trace, this`detail, this`cache
      ensures PartitionDeleted(old(conn.live), old(conn.trace), old(detail), old(cache), r)
    {
      var table := parent;
      ghost var live0, trace0, tablePath := conn.live, conn.trace, table.Path();
      ghost var order := RebuildOrder(live0, tablePath);
      var rebuilt := table.RecreateIndexesOnFilegroup();
      if rebuilt.Failed? {
        assert order.Fail? && rebuilt == Failed(order.error) && conn.live == live0;
        return rebuilt;
      }
      ghost var mid := conn.trace;
      assert mid == trace0 + Rebuilds(tablePath, order.value);
      r := DropScheme();
      assert conn.live == Modify(live0, tablePath, DropKid(Step(Partitions, name)));
    }

    /** The drops after the indexes have moved: the scheme, then the function, whose
        name needs the partition's `column` attribute. */
    method DropScheme() returns (r: Outcome)
      requires Linked() && kind == Partitions
      modifies conn`live, conn`trace, this`detail, this`cache
      ensures conn.live == Modify(old(conn.live), parent.Path(), DropKid(Step(Partitions, name)))
      ensures var known := CachedText(old(detail), old(cache), "column");
              known.Some? ==> r == Pass && conn.trace == old(conn.trace) + SchemeDrops(known.value)
      ensures var column := ColumnAfterDrop(old(conn.live), old(detail), old(cache));
              (column.Fail? ==> r == Failed(column.error) && conn.trace == old(conn.trace) + [DropStmt(Path())]) &&
              (column.Ok? ==> r == Pass && conn.trace == old(conn.trace) + SchemeDrops(column.value))
    {
      ghost var live0, trace0, detail0, cache0 := conn.live, conn.trace, detail, cache;
      conn.Exec(DropStmt(Path()), parent.Path(), DropKid(Step(Partitions, name)));
      r := DropFunction();
      SchemeDropsFollow(live0, trace0, detail0, cache0, r);
    }

    /** The scheme drop followed by the function drop, stated on the objects and the
        statements before the scheme drop. */
    lemma SchemeDropsFollow(live0: Live, trace0: seq<Stmt>, detail0: Option<Record>, cache0: map<string, Value>,
                            r: Outcome)
      requires Linked() && kind == Partitions
      requires conn.live == Modify(live0, parent.Path(), DropKid(Step(Partitions, name)))
      requires var column := ColumnText(CachedRead(Partitions, detail0, cache0, RowAt(conn.live, Path()), "column"));
               (column.Fail? ==> r == Failed(column.error) && conn.trace == trace0 + [DropStmt(Path())]) &&
               (column.Ok? ==>
                  r == Pass &&
                  conn.trace == trace0 + [DropStmt(Path())] +
                                [DropPartitionFunctionStmt(parent.PartitionFunctionName(column.value))])
      ensures var known := CachedText(detail0, cache0, "column");
              known.Some? ==> r == Pass && conn.trace == trace0 + SchemeDrops(known.value)
      ensures var column := ColumnAfterDrop(live0, detail0, cache0);
              (column.Fail? ==> r == Failed(column.error) && conn.trace == trace0 + [DropStmt(Path())]) &&
              (column.Ok? ==> r == Pass && conn.trace == trace0 + SchemeDrops(column.value))
    {
      if detail0.Some? {
        HeldColumnRead(live0, detail0.value, cache0);
      }
    }

    /** The drop of the partition function, named after the `column` attribute; a
        failed read of that attribute is the result, and nothing is sent. */
    method DropFunction() returns (r: Outcome)
      requires Linked() && kind == Partitions
      modifies conn`trace, this`detail, this`cache
      ensures var column := ColumnText(CachedRead(Partitions, old(detail), old(cache), RowAt(conn.live, Path()), "column"));
              (column.Fail? ==> r == Failed(column.error) && conn.trace == old(conn.trace)) &&
              (column.Ok? ==>
                 r == Pass &&
                 conn.trace == old(conn.trace) + [DropPartitionFunctionStmt(parent.PartitionFunctionName(column.value))])
    {
      var column := PartitionColumn();
      if column.Fail? {
        return Failed(column.error);
      }
      conn.Send(DropPartitionFunctionStmt(parent.PartitionFunctionName(column.value)));
      return Pass;
    }

    /** The partition's `column` attribute as text; a value read earlier is taken
        from the cache. */
    method PartitionColumn() returns (r: Result<string>)
      requires Linked() && kind == Partitions
      modifies this`detail, this`cache
      ensures var known := CachedText(old(detail), old(cache), "column");
              known.Some? ==> r == Ok(known.value)
      ensures r == ColumnText(CachedRead(Partitions, old(detail), old(cache), RowAt(conn.live, Path()), "column"))
    {
      assert "column" in ValidAttributes(Partitions);
      var v := GetAttr("column");
      if v.Fail? {
        return Fail(v.error);
      }
      return ColumnText(v);
    }

    /** `drop_associated_indexes`: True when no index of the table uses the column;
        otherwise the first such index is offered for deletion, and since `delete`
        never returns a truthy value the answer is then False, whether or not the
        index went. */
    method DropAssociatedIndexes() returns (r: Result<bool>)
      requires Linked() && kind == Columns
      modifies conn`live, conn`trace
      decreases 1, 0
      ensures var f := ColumnIndexes(old(conn.live));
              (f.Fail? ==> r == Fail(f.error) && conn.live == old(conn.live) && conn.trace == old(conn.trace)) &&
              (f == Ok([]) ==> r == Ok(true) && conn.live == old(conn.live) && conn.trace == old(conn.trace)) &&
              (f.Ok? && f.value != [] ==>
                 (r == Ok(false) || r == Fail(AttributeError)) &&
                 IndexOffered(conn, parent.Path(), f.value[0], old(conn.live), old(conn.trace), if r.Ok? then Pass else Failed(r.error)))
    {
      ghost var f, table, trace0 := ColumnIndexes(conn.live), parent.Path(), conn.trace;
      var indexes := parent.GetIndexesForColumn(name);
      if indexes.Fail? {
        return Fail(indexes.error);
      }
      if indexes.value == [] {
        return Ok(true);
      }
      r := DropIndex(indexes.value[0], table, f.value[0]);
      assert parent.Path() == table;
    }

    /** The first index that uses the column is offered for deletion; `delete`
        never answers truthily. */
    static method DropIndex(index: ReflectedEntity, ghost table: Path, ghost name: string) returns (r: Result<bool>)
      requires index.Linked() && index.kind == Indexes && index.Path() == table + [Step(Indexes, name)]
      modifies index.conn`live, index.conn`trace, index`detail, index`cache
      decreases 0, 3
      ensures r == Ok(false) || r == Fail(AttributeError)
      ensures IndexOffered(index.conn, table, name, old(index.conn.live), old(index.conn.trace), if r.Ok? then Pass else Failed(r.error))
    {
      assert index.parent.Path() + [Step(Indexes, index.name)] == table + [Step(Indexes, name)];
      assert index.parent.Path() == table by {
        assert (index.parent.Path() + [Step(Indexes, index.name)])[..|table|] == table;
      }
      var deleted := index.Delete();
      if deleted.Fail? {
        return Fail(deleted.error);
      }
      return Ok(Truthy(deleted.value));
    }

    // -------------------------------------------------------------------------
    // Renaming
    // -------------------------------------------------------------------------

    /** After the rename statement. A rename onto a name another object of this type
        already has under the parent is refused by the server: the driver error
        propagates and nothing changes. Otherwise the server renamed the first object
        of this type and name, and the rename holds exactly when the new name is
        found. A key or an index takes the new name as soon as the statement is sent,
        whatever the check finds; other types only once it succeeds. */
    ghost predicate Renamed(live0: Live, trace0: seq<Stmt>, path0: Path, name0: string, newName: string, r: Outcome)
      requires Linked() && parent != null
      reads this`name, ancestors`name, conn`live, conn`trace
    {
      if RenameRefused(live0, parent.Path(), kind, name0, newName) then
        r == Failed(DriverError) && conn.live == live0 && conn.trace == trace0 && name == name0
      else
        conn.live == Modify(live0, parent.Path(), RenameKid(Step(kind, name0), newName)) &&
        conn.trace == trace0 + [RenameStmt(path0, newName)] &&
        (r.Pass? <==> Exists(conn.live, parent.Path(), kind, newName)) &&
        (r.Failed? ==> r.error == DBError) &&
        name == (if r.Pass? || kind in {PrimaryKeys, Indexes} then newName else name0) &&
        (Exists(live0, parent.Path(), kind, name0) ==> r == Pass)
    }

    /** `rename`: a declined prompt changes nothing; a type without a rename fails
        before anything is sent; otherwise the rename statement is sent and checked
        by looking the new name up. */
    method Rename(newName: string) returns (r: Outcome)
      requires Linked()
      modifies conn`live, conn`trace, this`name
      ensures !conn.answer(ConfirmRename(old(Path()), newName)) ==>
                r == Pass && conn.live == old(conn.live) && conn.trace == old(conn.trace) && name == old(name)
      ensures conn.answer(ConfirmRename(old(Path()), newName)) && RenameSupport(kind).Failed? ==>
                r == RenameSupport(kind) && conn.live == old(conn.live) && conn.trace == old(conn.trace) && name == old(name)
      ensures conn.answer(ConfirmRename(old(Path()), newName)) && RenameSupport(kind).Pass? ==>
                parent != null && Renamed(old(conn.live), old(conn.trace), old(Path()), old(name), newName, r)
    {
      AncestorsAbove();
      if !conn.answer(ConfirmRename(Path(), newName)) {
        return Pass;
      }
      var support := RenameSupport(kind);
      if support.Failed? {
        return support;
      }
      r := RenameEx(newName);
    }

    /** Takes a new name; the names above, and so the parent's path, stay. */
    method SetName(newName: string)
      requires Linked()
      modifies this`name
      ensures name == newName
      ensures parent != null ==> parent.Path() == old(parent.Path())
    {
      AncestorsAbove();
      name := newName;
    }

    /** The rename statement and the check that follows it. */
    method RenameEx(newName: string) returns (r: Outcome)
      requires Linked() && parent != null
      modifies conn`live, conn`trace, this`name
      ensures Renamed(old(conn.live), old(conn.trace), old(Path()), old(name), newName, r)
    {
      AncestorsAbove();
      var holder := parent;
      var above := holder.Path();
      ghost var live0, trace0, path0, name0 := conn.live, conn.trace, Path(), name;
      if RenameRefused(conn.live, above, kind, name, newName) {
        return Failed(DriverError);
      }
      conn.Exec(RenameStmt(Path(), newName), above, RenameKid(Step(kind, name), newName));
      if Exists(live0, above, kind, name0) {
        RenameThenExists(live0, above, Step(kind, name0), newName);
      }
      // a key or an index takes the new name inside its own rename statement
      var found := Exists(conn.live, above, kind, newName);
      if found || kind == PrimaryKeys || kind == Indexes {
        SetName(newName);
      }
      r := if found then Pass else Failed(DBError);
      assert conn.live == Modify(live0, above, RenameKid(Step(kind, name0), newName));
      assert conn.trace == trace0 + [RenameStmt(path0, newName)];
      assert r.Pass? <==> Exists(conn.live, above, kind, newName);
    }
  }

  /** The server refuses to rename an object of type `kind` under `parent` onto a
      name another object of that type already has there; a change of letter case
      of the object's own name is not a clash. */
  predicate RenameRefused(live: Live, parent: Path, kind: EntityType, name0: string, newName: string)
  {
    Exists(live, parent, kind, newName) && !SameName(name0, newName)
  }

  /** `by_name`: a reflected object for a non-empty name the server has under the
      parent; DBObjectDoesntExistError otherwise. */
  method ByName(p: ReflectedEntity, kind: EntityType, name: string) returns (r: Result<ReflectedEntity>)
    requires p.Linked() && kind in ReflectedChildTypes(p.kind)
    ensures r.Ok? <==> name != "" && Exists(p.conn.live, p.Path(), kind, name)
    ensures r.Fail? ==> r.error == DBObjectDoesntExist
    ensures r.Ok? ==> fresh(r.value) && p.Born(r.value, kind) && r.value.name == name
  {
    if name != "" && Exists(p.conn.live, p.Path(), kind, name) {
      var o := new ReflectedEntity.Child(p, kind, name);
      return Ok(o);
    }
    return Fail(DBObjectDoesntExist);
  }

  // ---------------------------------------------------------------------------
  // What the table queries find
  // ---------------------------------------------------------------------------

  /** Offering the index `name` of the table at `table` for deletion, as
      `drop_associated_indexes` does: the outcome, the objects and the statements
      afterwards. When the operator declines nothing changes and `delete` answers
      False; otherwise the index's constraint flag is read from a fresh query, and
      the index is dropped by one statement, or AttributeError is raised when the
      flag is not there. */
  ghost function OfferIndex(answer: Prompt -> bool, live0: Live, trace0: seq<Stmt>, table: Path, name: string)
    : (Outcome, Live, seq<Stmt>)
  {
    var at := table + [Step(Indexes, name)];
    var row := RowAt(live0, at);
    if !answer(ConfirmDelete(Indexes, at)) then (Pass, live0, trace0)
    else if row.Some? && "is_unique_constraint" in row.value then
      (Pass, Modify(live0, table, DropKid(Step(Indexes, name))), trace0 + [DropStmt(at)])
    else (Failed(AttributeError), live0, trace0)
  }

  /** The server as the offer of that index leaves it, with its outcome `r`. */
  ghost predicate IndexOffered(conn: Server, table: Path, name: string, live0: Live, trace0: seq<Stmt>, r: Outcome)
    reads conn`live, conn`trace
  {
    OfferIndex(conn.answer, live0, trace0, table, name) == (r, conn.live, conn.trace)
  }

  /** Whatever the operator answers, offering an index fails only with
      AttributeError, removes at most that index and sends at most its drop, and
      leaves every column of the table as it was. */
  lemma OfferKeepsColumns(answer: Prompt -> bool, live0: Live, trace0: seq<Stmt>, table: Path, name: string, column: string)
    ensures var offer := OfferIndex(answer, live0, trace0, table, name);
            (offer.0 == Pass || offer.0 == Failed(AttributeError)) &&
            (offer.1 == live0 || offer.1 == Modify(live0, table, DropKid(Step(Indexes, name)))) &&
            (offer.2 == trace0 || offer.2 == trace0 + [DropStmt(table + [Step(Indexes, name)])]) &&
            Find(offer.1, table + [Step(Columns, column)]) == Find(live0, table + [Step(Columns, column)])
  {
    DropKeepsOthers(live0, table, Step(Indexes, name), Step(Columns, column));
  }

  /** An attribute as a new reflected object reads it: DBError when the object is
      gone, else the value derived from its row. */
  function FreshRead(live: Live, path: Path, kind: EntityType, attr: string): (r: Result<Value>)
    ensures RowAt(live, path).None? ==> r == Fail(DBError)
  {
    match RowAt(live, path)
    case None => Fail(DBError)
    case Some(row) => ReadAttribute(kind, row, attr)
  }

  /** What `__getattr__` answers, given the row and values it holds and the live
      row: names outside the registry fail, a missing row fails when none is held,
      a cached value is kept, and anything else is read from the held row. */
  function CachedRead(kind: EntityType, detail: Option<Record>, cache: map<string, Value>, row: Option<Record>,
                      attr: string): (r: Result<Value>)
    ensures attr in ValidAttributes(kind) && detail.None? && cache == map[] ==> r == (if row.None? then Fail(DBError) else ReadAttribute(kind, row.value, attr))
  {
    if attr !in ValidAttributes(kind) then Fail(AttributeError)
    else if detail.None? && row.None? then Fail(DBError)
    else if attr in cache then Ok(cache[attr])
    else ReadAttribute(kind, (if detail.Some? then detail else row).value, attr)
  }

  /** Every value cached in `cache0` is still cached, unchanged, in `cache`. */
  predicate Kept(cache0: map<string, Value>, cache: map<string, Value>)
  {
    forall a :: a in cache0 ==> a in cache && cache[a] == cache0[a]
  }

  /** Reading `names` in order through `__getattr__`, from the row and values held:
      the error of the first read that fails, or Pass. The later reads answer as
      they would have from the start, since a read only fetches the row that would
      be fetched anyway and caches what it read. */
  function ReadsInOrder(kind: EntityType, detail: Option<Record>, cache: map<string, Value>, row: Option<Record>,
                        names: seq<string>): Outcome
    decreases |names|
  {
    if names == [] then Pass
    else
      var v := CachedRead(kind, detail, cache, row, names[0]);
      if v.Fail? then Failed(v.error) else ReadsInOrder(kind, detail, cache, row, names[1..])
  }

  /** The reads in order pass exactly when every read succeeds. */
  lemma {:induction false} ReadsInOrderPass(kind: EntityType, detail: Option<Record>, cache: map<string, Value>,
                                            row: Option<Record>, names: seq<string>)
    ensures ReadsInOrder(kind, detail, cache, row, names).Pass? <==>
            forall j :: 0 <= j < |names| ==> CachedRead(kind, detail, cache, row, names[j]).Ok?
    decreases |names|
  {
    if names != [] {
      var rest := names[1..];
      ReadsInOrderPass(kind, detail, cache, row, rest);
      assert forall j :: 1 <= j < |names| ==> names[j] == rest[j - 1];
    }
  }

  /** When the reads in order fail, they fail with the error of a read that fails
      after every read before it succeeded. */
  lemma {:induction false} ReadsInOrderFirstFailure(kind: EntityType, detail: Option<Record>, cache: map<string, Value>,
                                                    row: Option<Record>, names: seq<string>)
    requires ReadsInOrder(kind, detail, cache, row, names).Failed?
    ensures var e := ReadsInOrder(kind, detail, cache, row, names).error;
            exists i :: 0 <= i < |names| && CachedRead(kind, detail, cache, row, names[i]) == Fail(e) &&
                        forall j :: 0 <= j < i ==> CachedRead(kind, detail, cache, row, names[j]).Ok?
    decreases |names|
  {
    var e := ReadsInOrder(kind, detail, cache, row, names).error;
    if CachedRead(kind, detail, cache, row, names[0]).Fail? {
      assert CachedRead(kind, detail, cache, row, names[0]) == Fail(e);
    } else {
      var rest := names[1..];
      assert ReadsInOrder(kind, detail, cache, row, rest) == ReadsInOrder(kind, detail, cache, row, names);
      ReadsInOrderFirstFailure(kind, detail, cache, row, rest);
      var i :| 0 <= i < |rest| && CachedRead(kind, detail, cache, row, rest[i]) == Fail(e) &&
               forall j :: 0 <= j < i ==> CachedRead(kind, detail, cache, row, rest[j]).Ok?;
      assert names[i + 1] == rest[i];
      assert forall j :: 1 <= j < i + 1 ==> names[j] == rest[j - 1];
    }
  }

  /** Part way through reading `names` in order, before the i-th: the row held is
      the one held at the start or the one that would have been fetched, and the
      values cached since are those read, each as it would have read at the start. */
  predicate ReadSoFar(kind: EntityType, detail0: Option<Record>, cache0: map<string, Value>, row: Option<Record>,
                      names: seq<string>, i: nat, detail: Option<Record>, cache: map<string, Value>)
    requires i <= |names|
  {
    && (detail == detail0 || (detail0.None? && detail == row))
    && (i > 0 ==> detail.Some?)
    && Kept(cache0, cache)
    && (forall a :: a in cache && a !in cache0 ==> a in names[..i])
    && (forall j :: 0 <= j < i ==> names[j] in cache && Ok(cache[names[j]]) == CachedRead(kind, detail0, cache0, row, names[j]))
  }

  /** Reading `names` from position `i` on: the i-th read's error when it fails,
      else the reads from the next position on. */
  lemma ReadsInOrderFrom(kind: EntityType, detail: Option<Record>, cache: map<string, Value>, row: Option<Record>,
                         names: seq<string>, i: nat)
    requires i < |names|
    ensures var v := CachedRead(kind, detail, cache, row, names[i]);
            ReadsInOrder(kind, detail, cache, row, names[i..]) ==
              if v.Fail? then Failed(v.error) else ReadsInOrder(kind, detail, cache, row, names[i + 1..])
  {
    assert names[i..][0] == names[i];
    assert names[i..][1..] == names[i + 1..];
  }

  /** The read of the i-th name, part way through reading `names` in order, answers
      as it would have at the start. */
  lemma HeldReadAgrees(kind: EntityType, detail0: Option<Record>, cache0: map<string, Value>,
                       detail: Option<Record>, cache: map<string, Value>, row: Option<Record>, names: seq<string>, i: nat)
    requires i < |names|
    requires ReadSoFar(kind, detail0, cache0, row, names, i, detail, cache)
    ensures CachedRead(kind, detail, cache, row, names[i]) == CachedRead(kind, detail0, cache0, row, names[i])
  {
    var a := names[i];
    if a in ValidAttributes(kind) && !(detail.None? && row.None?) {
      assert !(detail0.None? && row.None?);
      if a in cache0 {
        assert cache[a] == cache0[a];
      } else if a in cache {
        assert a in names[..i];
        var j :| 0 <= j < i && names[..i][j] == a;
        assert names[j] == a;
        assert Ok(cache[a]) == CachedRead(kind, detail0, cache0, row, a);
      } else {
        assert (if detail.Some? then detail else row) == (if detail0.Some? then detail0 else row);
      }
    }
  }

  /** One read of `display_details`, at the i-th name: the read answers as it would
      have at the start; when it fails, so do the reads from there on, with its error;
      when it succeeds (fetching the row if none is held and caching the value), the
      reads so far are one longer. */
  lemma ReadStep(kind: EntityType, detail0: Option<Record>, cache0: map<string, Value>, row: Option<Record>,
                 names: seq<string>, i: nat, detail: Option<Record>, cache: map<string, Value>,
                 v: Result<Value>, detail1: Option<Record>, cache1: map<string, Value>)
    requires i < |names|
    requires ReadSoFar(kind, detail0, cache0, row, names, i, detail, cache)
    requires v == CachedRead(kind, detail, cache, row, names[i])
    ensures v.Fail? ==> ReadsInOrder(kind, detail0, cache0, row, names[i..]) == Failed(v.error)
    ensures v.Ok? && detail1.Some? && (detail1 == detail || (detail.None? && detail1 == row)) &&
            Kept(cache, cache1) && (forall a :: a in cache1 && a !in cache ==> a == names[i]) &&
            names[i] in cache1 && cache1[names[i]] == v.value ==>
              ReadSoFar(kind, detail0, cache0, row, names, i + 1, detail1, cache1) &&
              ReadsInOrder(kind, detail0, cache0, row, names[i..]) == ReadsInOrder(kind, detail0, cache0, row, names[i + 1..])
  {
    HeldReadAgrees(kind, detail0, cache0, detail, cache, row, names, i);
    ReadsInOrderFrom(kind, detail0, cache0, row, names, i);
    if v.Ok? && detail1.Some? && (detail1 == detail || (detail.None? && detail1 == row)) &&
       Kept(cache, cache1) && (forall a :: a in cache1 && a !in cache ==> a == names[i]) &&
       names[i] in cache1 && cache1[names[i]] == v.value {
      ReadSoFarStep(kind, detail0, cache0, row, names, i, detail, cache, v.value, detail1, cache1);
    }
  }

  /** The reads so far grow by one when the i-th read succeeds with `value` and
      caches it. */
  lemma ReadSoFarStep(kind: EntityType, detail0: Option<Record>, cache0: map<string, Value>, row: Option<Record>,
                      names: seq<string>, i: nat, detail: Option<Record>, cache: map<string, Value>,
                      value: Value, detail1: Option<Record>, cache1: map<string, Value>)
    requires i < |names|
    requires ReadSoFar(kind, detail0, cache0, row, names, i, detail, cache)
    requires Ok(value) == CachedRead(kind, detail0, cache0, row, names[i])
    requires detail1.Some? && (detail1 == detail || (detail.None? && detail1 == row))
    requires Kept(cache, cache1) && (forall a :: a in cache1 && a !in cache ==> a == names[i])
    requires names[i] in cache1 && cache1[names[i]] == value
    ensures ReadSoFar(kind, detail0, cache0, row, names, i + 1, detail1, cache1)
  {
    assert names[..i + 1] == names[..i] + [names[i]];
    forall a | a in cache0
      ensures a in cache1 && cache1[a] == cache0[a]
    {
      assert a in cache && cache[a] == cache0[a];
    }
    forall a | a in cache1 && a !in cache0
      ensures a in names[..i + 1]
    {
      if a in cache {
        assert a in names[..i];
      }
    }
    forall j | 0 <= j < i + 1
      ensures names[j] in cache1 && Ok(cache1[names[j]]) == CachedRead(kind, detail0, cache0, row, names[j])
    {
      if j < i {
        assert names[j] in cache;
      }
    }
  }


  /** A cache that agrees with the server answers as a fresh object would. */
  lemma CachedReadAgrees(kind: EntityType, detail: Option<Record>, cache: map<string, Value>, row: Option<Record>, attr: string)
    requires attr in ValidAttributes(kind)
    requires detail.Some? ==> detail == row
    requires attr in cache ==> row.Some? && ReadAttribute(kind, row.value, attr) == Ok(cache[attr])
    ensures CachedRead(kind, detail, cache, row, attr) == (if row.None? then Fail(DBError) else ReadAttribute(kind, row.value, attr))
  {
  }

  /** The columns of the table's first listed primary key, or None. */
  function PkFields(live: Live, table: Path): Result<Value>
  {
    var pks := Listing(live, table, PrimaryKeys);
    if pks == [] then Ok(VNone) else FreshRead(live, table + [Step(PrimaryKeys, pks[0])], PrimaryKeys, "columns")
  }

  /** A table with a key always answers truthy: a key that reads at all has a
      non-empty column tuple. So `set_attr_identity` refuses exactly the tables that
      list a key. */
  lemma PkFieldsTruthy(live: Live, table: Path)
    requires PkFields(live, table).Ok?
    ensures Truthy(PkFields(live, table).value) <==> Listing(live, table, PrimaryKeys) != []
  {
    var pks := Listing(live, table, PrimaryKeys);
    if pks != [] {
      var row := RowAt(live, table + [Step(PrimaryKeys, pks[0])]).value;
      var c := Field(row, "columns").value;
      assert |LowerAll(c.elems)| == |c.elems|;
    }
  }

  /** What an index must show to be selected. */
  datatype IndexTest = NotClustered | IncludesColumn(column: string)

  function TestAttribute(test: IndexTest): string
  {
    if test.NotClustered? then "clustered" else "columns"
  }

  /** `not index.clustered` and `index.includes_column(column)`. */
  predicate Passes(test: IndexTest, v: Value)
  {
    match test
    case NotClustered => !Truthy(v)
    case IncludesColumn(column) => v.VTuple? && column in v.elems
  }

  /** The test applied to the index of that name on a table, read as by a new object. */
  function Check(live: Live, table: Path, index: string, test: IndexTest): Result<bool>
  {
    var v :- FreshRead(live, table + [Step(Indexes, index)], Indexes, TestAttribute(test));
    Ok(Passes(test, v))
  }

  /** The names that pass, in order; the first read that fails makes it fail. */
  function Select(live: Live, table: Path, names: seq<string>, test: IndexTest): Result<seq<string>>
    decreases |names|
  {
    if names == [] then Ok([])
    else
      var keep :- Check(live, table, names[0], test);
      var rest :- Select(live, table, names[1..], test);
      Ok((if keep then [names[0]] else []) + rest)
  }

  function Prepend(pre: seq<string>, r: Result<seq<string>>): Result<seq<string>>
  {
    if r.Ok? then Ok(pre + r.value) else r
  }

  lemma PrependNothing(r: Result<seq<string>>)
    ensures Prepend([], r) == r
  {
    if r.Ok? {
      assert [] + r.value == r.value;
    }
  }

  lemma PrependTwice(a: seq<string>, b: seq<string>, r: Result<seq<string>>)
    ensures Prepend(a, Prepend(b, r)) == Prepend(a + b, r)
  {
    if r.Ok? {
      assert a + (b + r.value) == (a + b) + r.value;
    }
  }

  /** A selection that succeeds read every index, kept exactly those that pass and
      nothing else. */
  lemma {:induction false} SelectExact(live: Live, table: Path, names: seq<string>, test: IndexTest)
    requires Select(live, table, names, test).Ok?
    ensures forall n :: n in names ==> Check(live, table, n, test).Ok?
    ensures forall n :: n in Select(live, table, names, test).value <==> n in names && Check(live, table, n, test) == Ok(true)
    decreases |names|
  {
    if names != [] {
      SelectExact(live, table, names[1..], test);
      assert forall n :: n in names <==> n == names[0] || n in names[1..];
    }
  }

  /** The selection over the first `i` names kept `picked`; the rest is still to
      be read. */
  ghost predicate SelectedSoFar(live: Live, table: Path, names: seq<string>, test: IndexTest, i: nat, picked: seq<string>)
    requires i <= |names|
  {
    Select(live, table, names, test) == Prepend(picked, Select(live, table, names[i..], test))
  }

  lemma SelectedNone(live: Live, table: Path, names: seq<string>, test: IndexTest)
    ensures SelectedSoFar(live, table, names, test, 0, [])
  {
    assert names[0..] == names;
    PrependNothing(Select(live, table, names, test));
  }

  /** One more name read: a failed read is the selection's failure, a pass joins
      the names kept. */
  lemma SelectedNext(live: Live, table: Path, names: seq<string>, test: IndexTest, i: nat, picked: seq<string>,
                     keep: Result<bool>)
    requires i < |names| && SelectedSoFar(live, table, names, test, i, picked)
    requires keep == Check(live, table, names[i], test)
    ensures keep.Fail? ==> Select(live, table, names, test) == Fail(keep.error)
    ensures keep.Ok? ==> SelectedSoFar(live, table, names, test, i + 1, if keep.value then picked + [names[i]] else picked)
  {
    SelectStep(live, table, names, i, test);
    if keep == Ok(true) {
      PrependTwice(picked, [names[i]], Select(live, table, names[i + 1..], test));
    }
  }

  lemma SelectedAll(live: Live, table: Path, names: seq<string>, test: IndexTest, picked: seq<string>)
    requires SelectedSoFar(live, table, names, test, |names|, picked)
    ensures Select(live, table, names, test) == Ok(picked)
  {
    assert names[|names|..] == [];
    assert picked + [] == picked;
  }

  lemma SelectStep(live: Live, table: Path, names: seq<string>, i: nat, test: IndexTest)
    requires i < |names|
    ensures Check(live, table, names[i], test).Fail? ==>
              Select(live, table, names[i..], test) == Fail(Check(live, table, names[i], test).error)
    ensures Check(live, table, names[i], test) == Ok(true) ==>
              Select(live, table, names[i..], test) == Prepend([names[i]], Select(live, table, names[i + 1..], test))
    ensures Check(live, table, names[i], test) == Ok(false) ==>
              Select(live, table, names[i..], test) == Select(live, table, names[i + 1..], test)
  {
    assert names[i..][0] == names[i];
    assert names[i..][1..] == names[i + 1..];
    var rest := Select(live, table, names[i + 1..], test);
    if rest.Ok? {
      assert [] + rest.value == rest.value;
    }
  }

  /** The first listed index that reads as clustered. */
  function FirstClustered(live: Live, table: Path, names: seq<string>): Result<Option<string>>
    decreases |names|
  {
    if names == [] then Ok(None)
    else
      var notClustered :- Check(live, table, names[0], NotClustered);
      if !notClustered then Ok(Some(names[0])) else FirstClustered(live, table, names[1..])
  }

  lemma {:induction false} FirstClusteredFound(live: Live, table: Path, names: seq<string>)
    requires FirstClustered(live, table, names).Ok? && FirstClustered(live, table, names).value.Some?
    ensures FirstClustered(live, table, names).value.value in names
    ensures Check(live, table, FirstClustered(live, table, names).value.value, NotClustered) == Ok(false)
    decreases |names|
  {
    if Check(live, table, names[0], NotClustered) == Ok(true) {
      FirstClusteredFound(live, table, names[1..]);
    }
  }

  /** The indexes `recreate_indexes_on_filegroup` rebuilds, in order: the clustered
      one, then the non-clustered ones; AttributeError when no index is clustered. */
  function RebuildOrder(live: Live, table: Path): Result<seq<string>>
  {
    var names := Listing(live, table, Indexes);
    var first :- FirstClustered(live, table, names);
    if first.None? then Fail(AttributeError)
    else
      var others :- Select(live, table, names, NotClustered);
      Ok([first.value] + others)
  }

  /** What a failed re-creation has sent: the clustered index's rebuild when that
      first step succeeded (the later read of the other indexes failed), otherwise
      nothing. */
  function FailedRebuilds(live: Live, table: Path): seq<Stmt>
  {
    var first := FirstClustered(live, table, Listing(live, table, Indexes));
    if first.Ok? && first.value.Some? then Rebuilds(table, [first.value.value]) else []
  }

  lemma RebuildOrderParts(live: Live, table: Path)
    ensures var names := Listing(live, table, Indexes);
            var first := FirstClustered(live, table, names);
            var others := Select(live, table, names, NotClustered);
            RebuildOrder(live, table) ==
              if first.Fail? then Fail(first.error)
              else if first.value.None? then Fail(AttributeError)
              else if others.Fail? then Fail(others.error)
              else Ok([first.value.value] + others.value)
  {
  }

  /** The rebuild starts with a clustered index and then rebuilds exactly the
      listed indexes that are not clustered. */
  lemma RebuildOrderCovers(live: Live, table: Path)
    requires RebuildOrder(live, table).Ok?
    ensures var order := RebuildOrder(live, table).value;
            var names := Listing(live, table, Indexes);
            order != [] && order[0] in names && Check(live, table, order[0], NotClustered) == Ok(false) &&
            forall n :: n in order[1..] <==> n in names && Check(live, table, n, NotClustered) == Ok(true)
  {
    var names := Listing(live, table, Indexes);
    FirstClusteredFound(live, table, names);
    SelectExact(live, table, names, NotClustered);
    var order := RebuildOrder(live, table).value;
    assert order[1..] == Select(live, table, names, NotClustered).value;
  }

  lemma {:induction false} RebuildsConcat(table: Path, a: seq<string>, b: seq<string>)
    ensures Rebuilds(table, a + b) == Rebuilds(table, a) + Rebuilds(table, b)
    decreases |b|
  {
    if b == [] {
      assert a + b == a;
    } else {
      var b' := b[..|b| - 1];
      assert (a + b)[..|a + b| - 1] == a + b';
      RebuildsConcat(table, a, b');
    }
  }

  /** One rebuild statement per index name, in order. */
  function Rebuilds(table: Path, names: seq<string>): (r: seq<Stmt>)
    ensures |r| == |names|
    decreases |names|
  {
    if names == [] then [] else Rebuilds(table, names[..|names| - 1]) + [RebuildStmt(table + [Step(Indexes, names[|names| - 1])])]
  }

  /** The types whose drop is one statement with no precondition. */
  const PlainDrops: set<EntityType> := {PrimaryKeys, Tables, Users, Logins}

  /** Deleting a column may delete an index, and nothing else deletes anything. */
  function DeleteRank(kind: EntityType): nat
  {
    if kind == Columns then 2 else 0
  }

  /** A value read as the text a statement is formatted with; a value that is not
      text is taken as empty text. */
  function ColumnText(v: Result<Value>): Result<string>
  {
    if v.Fail? then Fail(v.error) else Ok(if v.value.VStr? then v.value.s else "")
  }

  /** The text an object already holds for an attribute: a cached string value,
      which is returned without going to the server again. */
  function CachedText(detail: Option<Record>, cache: map<string, Value>, attr: string): Option<string>
  {
    if detail.Some? && attr in cache && cache[attr].VStr? then Some(cache[attr].s) else None
  }
}
