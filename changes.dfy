/** Changes the reflected side makes from declarations: creating a live object for a
    declared one, changing one attribute through the type's setter, and finding the
    live object that a declared one stands for. Each step is a statement on the
    connection, so every contract here says what the server holds and which
    statements were sent. */
module Changes {
  import opened Values
  import opened Attributes
  import opened LiveStore
  import opened Rules
  import opened Reflected
  import opened ColumnTypes
  import Declared
  import DeclaredTypes

  // ---------------------------------------------------------------------------
  // What the server accepts
  // ---------------------------------------------------------------------------

  /** The server refuses a new object under a parent that is gone, one without a
      name, one whose name its type already has there, and a second primary key on
      a table. */
  predicate Refused(live: Live, parent: Path, o: Live)
  {
    Find(live, parent).None? || o.name == "" || Exists(live, parent, o.kind, o.name) ||
    (o.kind == PrimaryKeys && ListNames(live, parent, PrimaryKeys) != [])
  }

  /** A create statement: refused as above, else the new object is added last. */
  method Add(conn: Server, st: Stmt, parent: Path, o: Live) returns (r: Outcome)
    modifies conn`live, conn`trace
    ensures Refused(old(conn.live), parent, o) ==>
              r == Failed(DriverError) && conn.live == old(conn.live) && conn.trace == old(conn.trace)
    ensures !Refused(old(conn.live), parent, o) ==>
              r == Pass && conn.live == Modify(old(conn.live), parent, AddKid(o)) && conn.trace == old(conn.trace) + [st]
  {
    if Refused(conn.live, parent, o) {
      return Failed(DriverError);
    }
    conn.Exec(st, parent, AddKid(o));
    return Pass;
  }

  /** What an accepted create leaves behind: the object is found under its parent. */
  lemma AddedIsFound(live: Live, parent: Path, o: Live)
    requires !Refused(live, parent, o)
    ensures Exists(Modify(live, parent, AddKid(o)), parent, o.kind, o.name)
    ensures Find(Modify(live, parent, AddKid(o)), parent + [Step(o.kind, o.name)]) == Some(o)
    ensures Refused(Modify(live, parent, AddKid(o)), parent, o)
  {
    CreateThenExists(live, parent, o);
    var s := Step(o.kind, o.name);
    var kids := Find(live, parent).value.kids;
    ModifyAt(live, parent, AddKid(o));
    FindLast(Modify(live, parent, AddKid(o)), parent, s);
    var i := FindKid(kids + [o], s).value;
  }

  // ---------------------------------------------------------------------------
  // The objects a declaration creates
  // ---------------------------------------------------------------------------

  /** A string attribute's text; any other value gives the empty name. */
  function TextOf(v: Value): string
  {
    if v.VStr? then v.s else ""
  }

  /** The live object a declaration of a leaf type creates: its row reports every
      registry attribute as declared. */
  function NewNode(d: Declared.Decl): (o: Live)
    ensures o.kind == d.kind && o.name == d.name && o.kids == []
  {
    Live(d.kind, d.name, WriteAll(d.kind, ValidAttributes(d.kind), d.attrs), [])
  }

  /** `sql_representation` of a declared column: its definition text, or the error
      rendering its type raises. */
  function ColumnDefinition(c: Declared.Decl): (r: Result<string>)
    ensures r.Fail? ==> r.error == ValueError
  {
    ColumnSqlRepresentation(c.name, TextOf(c.Attr("data_type")), Truthy(c.Attr("identity")), Truthy(c.Attr("nullable")),
                            TypeParams(c.Attr("char_max_len"), c.Attr("datetime_precision"),
                                       c.Attr("numeric_precision"), c.Attr("numeric_scale")))
  }

  /** The definitions of all declared columns, in order; the first that cannot be
      rendered makes the table's statement fail. */
  function ColumnDefinitions(cols: seq<Declared.Decl>): (r: Result<seq<string>>)
    ensures r.Ok? ==> |r.value| == |cols|
    ensures r.Ok? <==> forall i :: 0 <= i < |cols| ==> ColumnDefinition(cols[i]).Ok?
    ensures r.Fail? ==> r.error == ValueError
  {
    if cols == [] then Ok([])
    else
      var first :- ColumnDefinition(cols[0]);
      var rest :- ColumnDefinitions(cols[1..]);
      assert forall i :: 1 <= i < |cols| ==> cols[i] == cols[1..][i - 1];
      Ok([first] + rest)
  }

  /** A new table holds its declared columns, in order, and nothing else. */
  function TableNode(d: Declared.Decl, cols: seq<Declared.Decl>): (o: Live)
    ensures o.kind == Tables && o.name == d.name && |o.kids| == |cols|
    ensures forall i :: 0 <= i < |cols| ==> o.kids[i] == NewNode(cols[i])
  {
    Live(Tables, d.name, WriteAll(Tables, ValidAttributes(Tables), d.attrs), ColumnNodes(cols))
  }

  function ColumnNodes(cols: seq<Declared.Decl>): (r: seq<Live>)
    ensures |r| == |cols|
    ensures forall i :: 0 <= i < |cols| ==> r[i] == NewNode(cols[i])
  {
    if cols == [] then [] else [NewNode(cols[0])] + ColumnNodes(cols[1..])
  }

  /** A new user: its login, and no role yet. */
  function UserNode(userName: string, login: Value): Live
  {
    Live(Users, userName, map["login_name" := login, "db_roles" := VSet({})], [])
  }

  /** `declared.name or login_name`. */
  function UserName(d: Declared.Decl): string
  {
    if d.name != "" then d.name else TextOf(d.Attr("login_name"))
  }

  /** The name a created object is looked up by afterwards: a partition by the
      scheme name its creation gives the declaration, a user by the name it was
      created under (its login's name when the declaration has none), every other
      object by its declared name. */
  function CreatedName(p: ReflectedEntity, d: Declared.Decl): string
    requires p.Linked()
    reads p`name, p.ancestors`name
  {
    if d.kind == Partitions && p.kind == Tables then p.PartitionSchemeName(TextOf(d.Attr("column")))
    else if d.kind == Users then UserName(d)
    else d.name
  }

  // ---------------------------------------------------------------------------
  // Role statements
  // ---------------------------------------------------------------------------

  /** The attribute that lists the roles of a user or a login. */
  function RoleAttribute(kind: EntityType): string
  {
    if kind == Logins then "server_roles" else "db_roles"
  }

  /** The row fields that report `held` as the roles of the object. */
  function RoleFields(kind: EntityType, held: set<string>): Record
  {
    WriteAttribute(kind, RoleAttribute(kind), VSet(held))
  }

  /** Every report of the roles writes the same fields, so the last one wins. */
  lemma RoleFieldsOverride(kind: EntityType, row: Record, a: set<string>, b: set<string>)
    ensures (row + RoleFields(kind, a)) + RoleFields(kind, b) == row + RoleFields(kind, b)
  {
    assert RoleFields(kind, a).Keys == RoleFields(kind, b).Keys;
  }

  /** After a role statement the roles read back as the roles held, for every set
      of roles a login can hold and every set a user can. */
  lemma RolesReadBack(kind: EntityType, row: Record, held: set<string>)
    requires kind == Users || kind == Logins
    requires kind == Logins ==> held <= FixedServerRoles
    ensures ReadAttribute(kind, row + RoleFields(kind, held), RoleAttribute(kind)) == Ok(VSet(held))
  {
    WriteThenRead(kind, row, RoleAttribute(kind), VSet(held));
  }

  /** The names in a sequence, as a set. */
  function SetOf(names: seq<string>): set<string>
  {
    set x | x in names
  }

  lemma NoneListed(names: seq<string>)
    ensures SetOf(names) == {} ==> names == []
  {
    if names != [] {
      assert names[0] in SetOf(names);
    }
  }

  /** One grant (or revoke) statement on `path` per role, in order. */
  function RoleStmts(path: Path, roles: seq<string>, grant: bool): (r: seq<Stmt>)
    ensures |r| == |roles|
    decreases |roles|
  {
    if roles == [] then []
    else
      var last := roles[|roles| - 1];
      RoleStmts(path, roles[..|roles| - 1], grant) + [if grant then GrantStmt(path, last) else RevokeStmt(path, last)]
  }

  /** One grant (or revoke) statement on `path` for each of `roles`, in some order:
      Python iterates a set. */
  ghost predicate RoleLog(stmts: seq<Stmt>, path: Path, roles: set<string>, grant: bool)
  {
    exists order :: NoDuplicates(order) && SetOf(order) == roles && stmts == RoleStmts(path, order, grant)
  }

  /** The grants of the roles to add, then the revokes of the roles to drop. */
  ghost predicate RolesLogged(stmts: seq<Stmt>, path: Path, declared: set<string>, current: set<string>)
  {
    exists k :: 0 <= k <= |stmts| &&
      RoleLog(stmts[..k], path, RolesToGrant(declared, current), true) &&
      RoleLog(stmts[k..], path, RolesToRevoke(declared, current), false)
  }

  /** One statement per role, each adding the role to (or dropping it from) the
      roles held; the server reports the roles held after the last one. */
  method SendRoles(conn: Server, kind: EntityType, path: Path, roles: seq<string>, held: set<string>, grant: bool)
    returns (now: set<string>)
    modifies conn`live, conn`trace
    ensures now == if grant then held + SetOf(roles) else held - SetOf(roles)
    ensures conn.trace == old(conn.trace) + RoleStmts(path, roles, grant)
    ensures roles == [] ==> conn.live == old(conn.live)
    ensures RowAt(conn.live, path) ==
              if roles == [] || RowAt(old(conn.live), path).None? then RowAt(old(conn.live), path)
              else Some(RowAt(old(conn.live), path).value + RoleFields(kind, now))
  {
    now := held;
    ghost var live0, trace0 := conn.live, conn.trace;
    for i := 0 to |roles|
      invariant RolesSent(conn, kind, path, roles, i, held, now, grant, live0, trace0)
    {
      now := SendNext(conn, kind, path, roles, i, held, now, grant, live0, trace0);
    }
    assert roles[..|roles|] == roles;
  }

  /** The first `i` role statements are sent: `now` holds the roles after them, the
      log has grown by their statements, and the row reports `now`. */
  ghost predicate RolesSent(conn: Server, kind: EntityType, path: Path, roles: seq<string>, i: nat, held: set<string>,
                            now: set<string>, grant: bool, live0: Live, trace0: seq<Stmt>)
    requires i <= |roles|
    reads conn`live, conn`trace
  {
    var row0 := RowAt(live0, path);
    now == (if grant then held + SetOf(roles[..i]) else held - SetOf(roles[..i])) &&
    conn.trace == trace0 + RoleStmts(path, roles[..i], grant) &&
    (i == 0 ==> conn.live == live0) &&
    RowAt(conn.live, path) == if i == 0 || row0.None? then row0 else Some(row0.value + RoleFields(kind, now))
  }

  /** The statement for the next role. */
  method SendNext(conn: Server, kind: EntityType, path: Path, roles: seq<string>, i: nat, held: set<string>,
                  now: set<string>, grant: bool, ghost live0: Live, ghost trace0: seq<Stmt>) returns (next: set<string>)
    requires i < |roles| && RolesSent(conn, kind, path, roles, i, held, now, grant, live0, trace0)
    modifies conn`live, conn`trace
    ensures RolesSent(conn, kind, path, roles, i + 1, held, next, grant, live0, trace0)
  {
    RoleStep(path, roles, i, grant);
    next := SendRole(conn, kind, path, roles[i], now, grant);
    if RowAt(live0, path).Some? && i > 0 {
      RoleFieldsOverride(kind, RowAt(live0, path).value, now, next);
    }
  }

  /** One more role: its name joins the set, its statement the log. */
  lemma RoleStep(path: Path, roles: seq<string>, i: nat, grant: bool)
    requires i < |roles|
    ensures SetOf(roles[..i + 1]) == SetOf(roles[..i]) + {roles[i]}
    ensures RoleStmts(path, roles[..i + 1], grant) ==
            RoleStmts(path, roles[..i], grant) + [if grant then GrantStmt(path, roles[i]) else RevokeStmt(path, roles[i])]
  {
    assert roles[..i + 1][..i] == roles[..i];
  }

  /** The statement for one role. */
  method SendRole(conn: Server, kind: EntityType, path: Path, role: string, held: set<string>, grant: bool)
    returns (now: set<string>)
    modifies conn`live, conn`trace
    ensures now == if grant then held + {role} else held - {role}
    ensures conn.trace == old(conn.trace) + [if grant then GrantStmt(path, role) else RevokeStmt(path, role)]
    ensures RowAt(conn.live, path) ==
              if RowAt(old(conn.live), path).None? then None else Some(RowAt(old(conn.live), path).value + RoleFields(kind, now))
  {
    now := if grant then held + {role} else held - {role};
    ghost var before := conn.live;
    conn.Exec(if grant then GrantStmt(path, role) else RevokeStmt(path, role), path, SetFields(RoleFields(kind, now)));
    if RowAt(before, path).Some? {
      SetFieldsAt(before, path, RoleFields(kind, now));
    } else {
      ModifyMissing(before, path, SetFields(RoleFields(kind, now)));
    }
  }

  /** `set(declared) - set(current)` granted, then `set(current) - set(declared)`
      revoked, each in some order; `granted` counts the grants. Afterwards the object
      holds the declared roles whenever a statement was sent. */
  method ReconcileRoles(conn: Server, kind: EntityType, path: Path, declared: set<string>, current: set<string>)
    modifies conn`live, conn`trace
    ensures |old(conn.trace)| <= |conn.trace| && conn.trace[..|old(conn.trace)|] == old(conn.trace)
    ensures RolesLogged(conn.trace[|old(conn.trace)|..], path, declared, current)
    ensures declared == current ==> conn.live == old(conn.live) && conn.trace == old(conn.trace)
    ensures declared != current ==>
              RowAt(conn.live, path) ==
                if RowAt(old(conn.live), path).None? then None
                else Some(RowAt(old(conn.live), path).value + RoleFields(kind, declared))
  {
    ghost var trace0, row0 := conn.trace, RowAt(conn.live, path);
    var grants := DeclaredTypes.Enumerate(RolesToGrant(declared, current));
    var revokes := DeclaredTypes.Enumerate(RolesToRevoke(declared, current));
    assert SetOf(grants) == RolesToGrant(declared, current);
    assert SetOf(revokes) == RolesToRevoke(declared, current);
    var held := SendRoles(conn, kind, path, grants, current, true);
    ghost var held1, row1 := held, RowAt(conn.live, path);
    held := SendRoles(conn, kind, path, revokes, held, false);
    RoleReconciliation(declared, current);
    assert held == declared;
    ghost var granted := |grants|;
    assert conn.trace == trace0 + RoleStmts(path, grants, true) + RoleStmts(path, revokes, false);
    ghost var sent := conn.trace[|trace0|..];
    assert sent == RoleStmts(path, grants, true) + RoleStmts(path, revokes, false);
    assert sent[..granted] == RoleStmts(path, grants, true);
    assert sent[granted..] == RoleStmts(path, revokes, false);
    assert RoleLog(sent[..granted], path, RolesToGrant(declared, current), true);
    assert RoleLog(sent[granted..], path, RolesToRevoke(declared, current), false);
    NoneListed(grants);
    NoneListed(revokes);
    if declared != current {
      assert grants != [] || revokes != [];
      if row0.Some? {
        if grants == [] {
          assert row1 == row0;
        } else if revokes == [] {
          assert held1 == held;
        } else {
          RoleFieldsOverride(kind, row0.value, held1, held);
        }
      }
    }
  }

  // ---------------------------------------------------------------------------
  // Creating
  // ---------------------------------------------------------------------------

  /** The types whose `_create_ex` is one create statement for the declared object. */
  const PlainCreates: set<EntityType> := {Schemas, Databases, Logins, PrimaryKeys, Indexes}

  /** Nothing was sent. */
  ghost predicate Untouched(conn: Server, live0: Live, trace0: seq<Stmt>)
    reads conn`live, conn`trace
  {
    conn.live == live0 && conn.trace == trace0
  }

  /** A create statement for `o` under `parent`, and what the server did with it. */
  ghost predicate AddedAs(conn: Server, parent: Path, o: Live, live0: Live, trace0: seq<Stmt>, r: Outcome)
    reads conn`live, conn`trace
  {
    (Refused(live0, parent, o) ==> r == Failed(DriverError) && Untouched(conn, live0, trace0)) &&
    (!Refused(live0, parent, o) ==>
       r == Pass && conn.live == Modify(live0, parent, AddKid(o)) &&
       conn.trace == trace0 + [CreateStmt(parent + [Step(o.kind, o.name)])])
  }

  /** `_create_ex`, type by type, from the server `live0` and the statements `trace0`. */
  ghost predicate CreatedEx(p: ReflectedEntity, d: Declared.Decl, live0: Live, trace0: seq<Stmt>, r: Outcome)
    requires p.Linked() && HolderOf(d.kind) == Some(p.kind)
    reads p`name, p.ancestors`name, p.conn`live, p.conn`trace
  {
    if d.kind == Users then UserCreated(p.conn, p.Path(), d, live0, trace0, r)
    else if d.kind == Partitions then PartitionCreated(p, TextOf(d.Attr("column")), live0, trace0, r)
    else SingleCreated(p.conn, p.Path(), d, live0, trace0, r)
  }

  /** An object created by one create statement: a table with its columns, or any
      other object on its own. */
  ghost predicate SingleCreated(conn: Server, parent: Path, d: Declared.Decl, live0: Live, trace0: seq<Stmt>, r: Outcome)
    reads conn`live, conn`trace
  {
    if d.kind == Tables then TableCreated(conn, parent, d, live0, trace0, r)
    else NodeCreated(conn, parent, d, live0, trace0, r)
  }

  /** An object created on its own; a column's definition must render first. */
  ghost predicate NodeCreated(conn: Server, parent: Path, d: Declared.Decl, live0: Live, trace0: seq<Stmt>, r: Outcome)
    reads conn`live, conn`trace
  {
    if d.kind == Columns && ColumnDefinition(d).Fail? then r == Failed(ValueError) && Untouched(conn, live0, trace0)
    else AddedAs(conn, parent, NewNode(d), live0, trace0, r)
  }

  /** A table needs at least one declared column (AssertionError otherwise), and
      every column's definition must render. */
  ghost predicate TableCreated(conn: Server, parent: Path, d: Declared.Decl, live0: Live, trace0: seq<Stmt>, r: Outcome)
    reads conn`live, conn`trace
  {
    var cols := d.ChildrenOf(Columns);
    if cols.None? || cols.value == [] then r == Failed(AssertionError) && Untouched(conn, live0, trace0)
    else if ColumnDefinitions(cols.value).Fail? then r == Failed(ValueError) && Untouched(conn, live0, trace0)
    else AddedAs(conn, parent, TableNode(d, cols.value), live0, trace0, r)
  }

  /** A user is created under its name (or its login's), then granted each declared
      role; roles that cannot be iterated raise TypeError after the user exists. */
  ghost predicate UserCreated(conn: Server, parent: Path, d: Declared.Decl, live0: Live, trace0: seq<Stmt>, r: Outcome)
    reads conn`live, conn`trace
  {
    var o := UserNode(UserName(d), d.Attr("login_name"));
    var user := parent + [Step(Users, o.name)];
    var roles := DeclaredTypes.ItemsOf(d.Attr("db_roles"));
    if Refused(live0, parent, o) then r == Failed(DriverError) && Untouched(conn, live0, trace0)
    else if roles.None? then
      r == Failed(TypeError) && conn.live == Modify(live0, parent, AddKid(o)) && conn.trace == trace0 + [CreateStmt(user)]
    else
      r == Pass && Exists(conn.live, parent, Users, o.name) &&
      RowAt(conn.live, user) == Some(o.row + RoleFields(Users, roles.value)) &&
      exists order :: SetOf(order) == roles.value && conn.trace == trace0 + [CreateStmt(user)] + RoleStmts(user, order, true)
  }

  /** The partition function's boundaries for the column at `column`. */
  function Boundaries(conn: Server, column: Path): seq<int>
  {
    var w := BoundaryWindow(conn.dataDays(column), conn.today);
    BoundaryDays(w.0, w.1)
  }

  /** The partition's column must exist and be of a datetime type; then the
      partition function and the scheme are created, and the table's indexes are
      rebuilt, which fails on a table without a clustered index. */
  ghost predicate PartitionCreated(table: ReflectedEntity, column: string, live0: Live, trace0: seq<Stmt>, r: Outcome)
    requires table.Linked() && table.kind == Tables
    reads table`name, table.ancestors`name, table.conn`live, table.conn`trace
  {
    var t := table.Path();
    var c := t + [Step(Columns, column)];
    var dataType := FreshRead(live0, c, Columns, "data_type");
    if column == "" || !Exists(live0, t, Columns, column) then
      r == Failed(DBObjectDoesntExist) && Untouched(table.conn, live0, trace0)
    else if dataType.Fail? then r == Failed(dataType.error) && Untouched(table.conn, live0, trace0)
    else if dataType.value != VStr("datetime") && dataType.value != VStr("datetime2") then
      r == Failed(ValueError) && Untouched(table.conn, live0, trace0)
    else SchemeCreated(table, column, live0, trace0, r)
  }

  /** The partition function over the column's days, then the scheme, then the
      rebuild of the table's indexes on the scheme; a failed rebuild keeps the
      scheme and what was sent before it failed. */
  ghost predicate SchemeCreated(table: ReflectedEntity, column: string, live0: Live, trace0: seq<Stmt>, r: Outcome)
    requires table.Linked() && table.kind == Tables
    reads table`name, table.ancestors`name, table.conn`live, table.conn`trace
  {
    var t := table.Path();
    var o := Live(Partitions, table.PartitionSchemeName(column), map["column_name" := VStr(column)], []);
    var partitionFunction :=
      CreatePartitionFunctionStmt(table.PartitionFunctionName(column), Boundaries(table.conn, t + [Step(Columns, column)]));
    if Refused(live0, t, o) then
      r == Failed(DriverError) && table.conn.live == live0 && table.conn.trace == trace0 + [partitionFunction]
    else
      var order := RebuildOrder(table.conn.live, t);
      table.conn.live == Modify(live0, t, AddKid(o)) &&
      (order.Fail? ==>
         r == Failed(order.error) &&
         table.conn.trace == trace0 + [partitionFunction, CreateStmt(t + [Step(Partitions, o.name)])] + FailedRebuilds(table.conn.live, t)) &&
      (order.Ok? ==>
         r == Pass &&
         table.conn.trace == trace0 + [partitionFunction, CreateStmt(t + [Step(Partitions, o.name)])] + Rebuilds(t, order.value))
  }

  /** `create`: the type's creation, then a check that the server has the object
      under the name it is looked up by (DBError when it has not). `made` is what
      the creation itself did. */
  method Create(p: ReflectedEntity, d: Declared.Decl) returns (r: Outcome, ghost made: Outcome)
    requires p.Linked() && HolderOf(d.kind) == Some(p.kind)
    modifies p.conn`live, p.conn`trace
    ensures CreatedEx(p, d, old(p.conn.live), old(p.conn.trace), made)
    ensures made.Failed? ==> r == made
    ensures made.Pass? ==> r == Pass && Exists(p.conn.live, p.Path(), d.kind, CreatedName(p, d))
  {
    var name := CreatedName(p, d);
    var done := CreateEx(p, d);
    made := done;
    if done.Failed? {
      return done, made;
    }
    var found := Exists(p.conn.live, p.Path(), d.kind, name);
    r := if found then Pass else Failed(DBError);
  }

  /** `create` as the code stands: the check after the creation looks the object up
      by its declared name, although a user declared without a name is created
      under its login's name. */
  method CreateAsWritten(p: ReflectedEntity, d: Declared.Decl) returns (r: Outcome, ghost made: Outcome)
    requires p.Linked() && HolderOf(d.kind) == Some(p.kind)
    modifies p.conn`live, p.conn`trace
    ensures CreatedEx(p, d, old(p.conn.live), old(p.conn.trace), made)
    ensures made.Failed? ==> r == made
    ensures made.Pass? ==> (r == Pass <==> Exists(p.conn.live, p.Path(), d.kind, d.name))
  {
    var done := CreateEx(p, d);
    made := done;
    if done.Failed? {
      return done, made;
    }
    var found := Exists(p.conn.live, p.Path(), d.kind, d.name);
    r := if found then Pass else Failed(DBError);
  }

  /** A user declared without a name: its create statement is accepted and the user
      is found under its login's name, but not under the empty declared name the
      check asks for, so the check fails on a user that was made. */
  lemma NamelessUserMissed(live: Live, parent: Path, d: Declared.Decl)
    requires d.kind == Users && d.name == ""
    requires !Refused(live, parent, UserNode(UserName(d), d.Attr("login_name")))
    requires !Exists(live, parent, Users, "")
    ensures Exists(Modify(live, parent, AddKid(UserNode(UserName(d), d.Attr("login_name")))), parent, Users, UserName(d))
    ensures !Exists(Modify(live, parent, AddKid(UserNode(UserName(d), d.Attr("login_name")))), parent, Users, d.name)
  {
    var o := UserNode(UserName(d), d.Attr("login_name"));
    var s := Step(Users, "");
    var kids := Find(live, parent).value.kids;
    AddedIsFound(live, parent, o);
    ModifyAt(live, parent, AddKid(o));
    assert |Lower(o.name)| > 0;
    assert !Named(o, s);
    assert FindKid(kids, s).None?;
    assert (kids + [o])[|kids|] == o;
    assert FindKid(kids + [o], s).None?;
  }

  /** `_create_ex` of the declaration's type. */
  method CreateEx(p: ReflectedEntity, d: Declared.Decl) returns (r: Outcome)
    requires p.Linked() && HolderOf(d.kind) == Some(p.kind)
    modifies p.conn`live, p.conn`trace
    ensures CreatedEx(p, d, old(p.conn.live), old(p.conn.trace), r) == true
    ensures r.Pass? ==> Exists(p.conn.live, p.Path(), d.kind, CreatedName(p, d))
  {
    var parent := p.Path();
    if d.kind == Users {
      r := CreateUser(p.conn, parent, d);
    } else if d.kind == Partitions {
      r := CreatePartition(p, TextOf(d.Attr("column")));
    } else {
      r := CreateSingle(p.conn, parent, d);
    }
  }

  /** The one create statement of a table or of an object without children. */
  method CreateSingle(conn: Server, parent: Path, d: Declared.Decl) returns (r: Outcome)
    modifies conn`live, conn`trace
    ensures SingleCreated(conn, parent, d, old(conn.live), old(conn.trace), r)
    ensures r.Pass? ==> Exists(conn.live, parent, d.kind, d.name)
  {
    if d.kind == Tables {
      r := CreateTable(conn, parent, d);
    } else {
      r := CreateNode(conn, parent, d);
    }
  }

  /** The create statement of an object without children. */
  method CreateNode(conn: Server, parent: Path, d: Declared.Decl) returns (r: Outcome)
    modifies conn`live, conn`trace
    ensures NodeCreated(conn, parent, d, old(conn.live), old(conn.trace), r)
    ensures r.Pass? ==> Exists(conn.live, parent, d.kind, d.name)
  {
    if d.kind == Columns {
      var definition := ColumnDefinition(d);
      if definition.Fail? {
        return Failed(ValueError);
      }
    }
    ghost var live0 := conn.live;
    var o := NewNode(d);
    r := Add(conn, CreateStmt(parent + [Step(d.kind, d.name)]), parent, o);
    if r.Pass? {
      AddedIsFound(live0, parent, o);
    }
  }



  /** The table's create statement, with its columns. */
  method CreateTable(conn: Server, parent: Path, d: Declared.Decl) returns (r: Outcome)
    modifies conn`live, conn`trace
    ensures TableCreated(conn, parent, d, old(conn.live), old(conn.trace), r)
    ensures r.Pass? ==> Exists(conn.live, parent, Tables, d.name)
  {
    var cols := d.ChildrenOf(Columns);
    if cols.None? || cols.value == [] {
      return Failed(AssertionError);
    }
    var definitions := ColumnDefinitions(cols.value);
    if definitions.Fail? {
      return Failed(ValueError);
    }
    var table := TableNode(d, cols.value);
    ghost var live0 := conn.live;
    r := Add(conn, CreateStmt(parent + [Step(Tables, d.name)]), parent, table);
    if r.Pass? {
      AddedIsFound(live0, parent, table);
    }
  }

  /** The user's create statement, then one grant per declared role. */
  method CreateUser(conn: Server, parent: Path, d: Declared.Decl) returns (r: Outcome)
    modifies conn`live, conn`trace
    ensures UserCreated(conn, parent, d, old(conn.live), old(conn.trace), r)
    ensures r.Pass? ==> Exists(conn.live, parent, Users, UserName(d))
  {
    var o := UserNode(UserName(d), d.Attr("login_name"));
    var user := parent + [Step(Users, o.name)];
    ghost var live0 := conn.live;
    var added := Add(conn, CreateStmt(user), parent, o);
    if added.Failed? {
      return added;
    }
    AddedIsFound(live0, parent, o);
    r := GrantDeclaredRoles(conn, user, o.row, d.Attr("db_roles"));
    ExistsIffFound(conn.live, parent, Step(Users, o.name));
  }

  /** `for role in declared.db_roles: ADD`, on a user created with no role. */
  method GrantDeclaredRoles(conn: Server, user: Path, ghost row: Record, roles: Value) returns (r: Outcome)
    requires RowAt(conn.live, user) == Some(row) && "db_roles" in row && row["db_roles"] == VSet({})
    modifies conn`live, conn`trace
    ensures var items := DeclaredTypes.ItemsOf(roles);
            if items.None? then r == Failed(TypeError) && conn.live == old(conn.live) && conn.trace == old(conn.trace)
            else
              r == Pass && RowAt(conn.live, user) == Some(row + RoleFields(Users, items.value)) &&
              exists order :: SetOf(order) == items.value && conn.trace == old(conn.trace) + RoleStmts(user, order, true)
  {
    var names := DeclaredTypes.IterateNames(roles);
    if names.Fail? {
      return Failed(names.error);
    }
    var held := SendRoles(conn, Users, user, names.value, {}, true);
    assert SetOf(names.value) == DeclaredTypes.ItemsOf(roles).value;
    assert held == DeclaredTypes.ItemsOf(roles).value;
    if names.value == [] {
      assert held == {};
      assert row + RoleFields(Users, {}) == row;
      assert RowAt(conn.live, user) == Some(row + RoleFields(Users, held));
    }
    return Pass;
  }

  /** The partition's create: the column check, the partition function, the
      scheme, and the rebuild of the table's indexes on it. */
  method CreatePartition(table: ReflectedEntity, column: string) returns (r: Outcome)
    requires table.Linked() && table.kind == Tables
    modifies table.conn`live, table.conn`trace
    ensures PartitionCreated(table, column, old(table.conn.live), old(table.conn.trace), r) == true
    ensures r.Pass? ==> Exists(table.conn.live, table.Path(), Partitions, table.PartitionSchemeName(column))
  {
    var checked := CheckPartitionColumn(table, column);
    if checked.Failed? {
      return checked;
    }
    r := CreateScheme(table, column);
  }

  /** The partition function, the scheme, and the rebuild of the indexes. */
  method CreateScheme(table: ReflectedEntity, column: string) returns (r: Outcome)
    requires table.Linked() && table.kind == Tables
    modifies table.conn`live, table.conn`trace
    ensures SchemeCreated(table, column, old(table.conn.live), old(table.conn.trace), r)
    ensures r.Pass? ==> Exists(table.conn.live, table.Path(), Partitions, table.PartitionSchemeName(column))
  {
    var added := AddScheme(table, column);
    if added.Failed? {
      return added;
    }
    r := table.RecreateIndexesOnFilegroup();
  }

  /** The partition function and the scheme. */
  method AddScheme(table: ReflectedEntity, column: string) returns (r: Outcome)
    requires table.Linked() && table.kind == Tables
    modifies table.conn`live, table.conn`trace
    ensures var t := table.Path();
            var o := Live(Partitions, table.PartitionSchemeName(column), map["column_name" := VStr(column)], []);
            var partitionFunction :=
              CreatePartitionFunctionStmt(table.PartitionFunctionName(column), Boundaries(table.conn, t + [Step(Columns, column)]));
            (Refused(old(table.conn.live), t, o) ==>
               r == Failed(DriverError) && table.conn.live == old(table.conn.live) &&
               table.conn.trace == old(table.conn.trace) + [partitionFunction]) &&
            (!Refused(old(table.conn.live), t, o) ==>
               r == Pass && table.conn.live == Modify(old(table.conn.live), t, AddKid(o)) &&
               table.conn.trace == old(table.conn.trace) + [partitionFunction, CreateStmt(t + [Step(Partitions, o.name)])])
    ensures r.Pass? ==> Exists(table.conn.live, table.Path(), Partitions, table.PartitionSchemeName(column))
  {
    var t := table.Path();
    ghost var trace0 := table.conn.trace;
    var partitionFunction :=
      CreatePartitionFunctionStmt(table.PartitionFunctionName(column), Boundaries(table.conn, t + [Step(Columns, column)]));
    table.conn.Send(partitionFunction);
    var scheme := table.PartitionSchemeName(column);
    var o := Live(Partitions, scheme, map["column_name" := VStr(column)], []);
    ghost var live0 := table.conn.live;
    r := Add(table.conn, CreateStmt(t + [Step(Partitions, scheme)]), t, o);
    if r.Pass? {
      AddedIsFound(live0, t, o);
    }
    assert r.Pass? ==> table.conn.trace == trace0 + [partitionFunction, CreateStmt(t + [Step(Partitions, scheme)])];
  }

  /** The partition column is looked up and its data type read: the column must
      exist and hold dates and times. */
  method CheckPartitionColumn(table: ReflectedEntity, column: string) returns (r: Outcome)
    requires table.Linked() && table.kind == Tables
    ensures var dataType := FreshRead(table.conn.live, table.Path() + [Step(Columns, column)], Columns, "data_type");
            r == if column == "" || !Exists(table.conn.live, table.Path(), Columns, column) then Failed(DBObjectDoesntExist)
                 else if dataType.Fail? then Failed(dataType.error)
                 else if dataType.value != VStr("datetime") && dataType.value != VStr("datetime2") then Failed(ValueError)
                 else Pass
  {
    var col := table.GetChild(Columns, column);
    if col.Fail? {
      return Failed(col.error);
    }
    assert "data_type" in ValidAttributes(Columns);
    var dataType := col.value.GetAttr("data_type");
    assert col.value.Path() == table.Path() + [Step(Columns, column)];
    if dataType.Fail? {
      return Failed(dataType.error);
    }
    if dataType.value != VStr("datetime") && dataType.value != VStr("datetime2") {
      return Failed(ValueError);
    }
    return Pass;
  }
}
