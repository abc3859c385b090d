/** Changing one attribute of a live object to its declared value. `set_attribute`
    asks the operator first; the type's setter then sends its statements, and the
    attribute is read back from the server: the change holds only when the value
    read is the declared one. */
module Setters {
  import opened Values
  import opened Attributes
  import opened LiveStore
  import opened Rules
  import opened Reflected
  import opened Changes
  import Declared
  import DeclaredTypes

  // ---------------------------------------------------------------------------
  // Which row fields a write touches
  // ---------------------------------------------------------------------------

  /** The row fields that report an attribute: the flag of a key or an index is its
      type description, a partition's column is its column name, a login's server
      roles are one field per fixed role, and every other attribute is its own
      field. */
  function WrittenFields(kind: EntityType, attr: string): set<string>
  {
    if (kind == PrimaryKeys || kind == Indexes) && attr == "clustered" then {"type_desc"}
    else if kind == Partitions && attr == "column" then {"column_name"}
    else if kind == Logins && attr == "server_roles" then FixedServerRoles
    else {attr}
  }

  /** A write touches the same fields whatever the value written. */
  lemma WriteTouches(kind: EntityType, attr: string, v: Value)
    ensures WriteAttribute(kind, attr, v).Keys == WrittenFields(kind, attr)
  {
  }

  /** Writes of attributes that keep clear of some fields leave those fields out. */
  lemma {:induction false} WriteAllMisses(kind: EntityType, names: seq<string>, attrs: map<string, Value>, fields: set<string>)
    requires forall i :: 0 <= i < |names| ==> WrittenFields(kind, names[i]) !! fields
    ensures WriteAll(kind, names, attrs).Keys !! fields
    decreases |names|
  {
    if names != [] {
      WriteTouches(kind, names[0], if names[0] in attrs then attrs[names[0]] else VNone);
      WriteAllMisses(kind, names[1..], attrs, fields);
    }
  }

  /** The fields of a whole declaration include the fields of each of its
      attributes, as that attribute alone writes them, when no other attribute
      writes the same fields. */
  lemma {:induction false} WriteAllHas(kind: EntityType, names: seq<string>, attrs: map<string, Value>, attr: string)
    requires attr in names
    requires forall i :: 0 <= i < |names| && names[i] != attr ==> WrittenFields(kind, names[i]) !! WrittenFields(kind, attr)
    ensures var v := if attr in attrs then attrs[attr] else VNone;
            WriteAll(kind, names, attrs) + WriteAttribute(kind, attr, v) == WriteAll(kind, names, attrs)
    decreases |names|
  {
    var v := if attr in attrs then attrs[attr] else VNone;
    var w := WriteAttribute(kind, attr, v);
    var rest := WriteAll(kind, names[1..], attrs);
    var first := WriteAttribute(kind, names[0], if names[0] in attrs then attrs[names[0]] else VNone);
    assert WriteAll(kind, names, attrs) == first + rest;
    if attr in names[1..] {
      WriteAllHas(kind, names[1..], attrs, attr);
      assert rest + w == rest;
      MapUnionAssoc(first, rest, w);
    } else {
      assert names[0] == attr && first == w;
      WriteTouches(kind, attr, v);
      WriteAllMisses(kind, names[1..], attrs, WrittenFields(kind, attr));
      MapUnionDisjoint(w, rest);
    }
  }

  lemma MapUnionAssoc(a: Record, b: Record, c: Record)
    requires b + c == b
    ensures (a + b) + c == a + b
  {
    assert forall f :: f in c ==> f in b && b[f] == c[f] by {
      forall f | f in c ensures f in b && b[f] == c[f] {
        assert (b + c)[f] == c[f];
      }
    }
  }

  lemma MapUnionDisjoint(w: Record, rest: Record)
    requires w.Keys !! rest.Keys
    ensures (w + rest) + w == w + rest
  {
  }

  // ---------------------------------------------------------------------------
  // Reading back what a setter wrote
  // ---------------------------------------------------------------------------

  /** The check that ends `set_attribute`: a failed read fails, the declared value
      read back means the change held, and any other value raises
      DBNotAlteredAttributeError. The answer is never False. */
  function ReadBack(read: Result<Value>, v: Value): (r: Result<bool>)
    ensures r == Ok(true) <==> read == Ok(v)
    ensures read.Fail? ==> r == Fail(read.error)
    ensures read.Ok? && read.value != v ==> r == Fail(DBNotAlteredAttribute)
    ensures r != Ok(false)
  {
    match read
    case Fail(e) => Fail(e)
    case Ok(x) => if x == v then Ok(true) else Fail(DBNotAlteredAttribute)
  }

  /** One attribute set on an object that exists reads back as written, for every
      value the read side can produce. */
  lemma AssignReadsBack(live: Live, path: Path, kind: EntityType, attr: string, v: Value)
    requires RowAt(live, path).Some?
    requires Readable(kind, RowAt(live, path).value, attr, v)
    requires kind == Columns && attr in ["numeric_precision", "numeric_scale", "datetime_precision", "char_max_len"]
             ==> "data_type" in RowAt(live, path).value
    ensures FreshRead(Modify(live, path, SetFields(WriteAttribute(kind, attr, v))), path, kind, attr) == Ok(v)
  {
    var row := RowAt(live, path).value;
    SetFieldsAt(live, path, WriteAttribute(kind, attr, v));
    WriteThenRead(kind, row, attr, v);
  }

  /** A key or an index re-created from its declaration reads back each declared
      attribute the read side can produce. */
  lemma RebuildReadsBack(live: Live, path: Path, kind: EntityType, attrs: map<string, Value>, attr: string)
    requires kind == PrimaryKeys || kind == Indexes
    requires attr in ValidAttributes(kind)
    requires RowAt(live, path).Some?
    requires Readable(kind, RowAt(live, path).value, attr, if attr in attrs then attrs[attr] else VNone)
    ensures FreshRead(Modify(live, path, SetFields(WriteAll(kind, ValidAttributes(kind), attrs))), path, kind, attr) ==
              Ok(if attr in attrs then attrs[attr] else VNone)
  {
    var v := if attr in attrs then attrs[attr] else VNone;
    KeyFieldsApart(kind, attr);
    ReadsBackAfter(live, path, kind, ValidAttributes(kind), attrs, attr);
  }

  /** The attributes of a key or an index each write fields of their own. */
  lemma KeyFieldsApart(kind: EntityType, attr: string)
    requires kind == PrimaryKeys || kind == Indexes
    requires attr in ValidAttributes(kind)
    ensures var names := ValidAttributes(kind);
            forall i :: 0 <= i < |names| && names[i] != attr ==> WrittenFields(kind, names[i]) !! WrittenFields(kind, attr)
  {
  }

  /** The column attributes an alter sets each write a field of their own. */
  lemma AlteredFieldsApart(attr: string)
    requires attr in AlteredColumnAttributes
    ensures forall i :: 0 <= i < |AlteredColumnAttributes| && AlteredColumnAttributes[i] != attr ==>
              WrittenFields(Columns, AlteredColumnAttributes[i]) !! WrittenFields(Columns, attr)
  {
  }

  /** Setting the fields of several attributes whose fields are apart reads back
      each of them as the write of that one attribute would. */
  lemma ReadsBackAfter(live: Live, path: Path, kind: EntityType, names: seq<string>, attrs: map<string, Value>, attr: string)
    requires attr in names
    requires forall i :: 0 <= i < |names| && names[i] != attr ==> WrittenFields(kind, names[i]) !! WrittenFields(kind, attr)
    requires RowAt(live, path).Some?
    requires var row := RowAt(live, path).value + WriteAll(kind, names, attrs);
             var v := if attr in attrs then attrs[attr] else VNone;
             Readable(kind, row, attr, v) &&
             (kind == Columns && attr in ["numeric_precision", "numeric_scale", "datetime_precision", "char_max_len"] ==> "data_type" in row)
    ensures FreshRead(Modify(live, path, SetFields(WriteAll(kind, names, attrs))), path, kind, attr) ==
              Ok(if attr in attrs then attrs[attr] else VNone)
  {
    var v := if attr in attrs then attrs[attr] else VNone;
    var fields := WriteAll(kind, names, attrs);
    var row0 := RowAt(live, path).value;
    SetFieldsAt(live, path, fields);
    WriteAllHas(kind, names, attrs, attr);
    MapUnionAssoc(row0, fields, WriteAttribute(kind, attr, v));
    WriteThenRead(kind, row0 + fields, attr, v);
  }

  /** A column altered from its declaration reads back each altered attribute the
      read side can produce for the declared type. */
  lemma AlterReadsBack(live: Live, path: Path, attrs: map<string, Value>, attr: string)
    requires attr in AlteredColumnAttributes
    requires RowAt(live, path).Some?
    requires Readable(Columns, RowAt(live, path).value + WriteAll(Columns, AlteredColumnAttributes, attrs), attr,
                      if attr in attrs then attrs[attr] else VNone)
    ensures FreshRead(Modify(live, path, SetFields(WriteAll(Columns, AlteredColumnAttributes, attrs))), path, Columns, attr) ==
              Ok(if attr in attrs then attrs[attr] else VNone)
  {
    AlteredFieldsApart(attr);
    AlteredFieldsApart("data_type");
    WriteAllHas(Columns, AlteredColumnAttributes, attrs, "data_type");
    WriteTouches(Columns, "data_type", if "data_type" in attrs then attrs["data_type"] else VNone);
    ReadsBackAfter(live, path, Columns, AlteredColumnAttributes, attrs, attr);
  }

  // ---------------------------------------------------------------------------
  // What each setter does
  // ---------------------------------------------------------------------------

  /** One statement that sets `fields` on the row of the object at `path`. */
  ghost predicate Wrote(conn: Server, path: Path, st: Stmt, fields: Record, live0: Live, trace0: seq<Stmt>)
    reads conn`live, conn`trace
  {
    conn.live == Modify(live0, path, SetFields(fields)) && conn.trace == trace0 + [st]
  }

  /** The database file paths, whose change moves a file. */
  predicate MovesFile(kind: EntityType, attr: string)
  {
    kind == Databases && (attr == "data_file_path" || attr == "log_file_path")
  }

  /** A setter that is one statement. A database file cannot move while the
      database is in an availability group, and moves only once the operator agrees
      to move the file by hand; declining sends nothing. */
  ghost predicate Assigned(conn: Server, path: Path, kind: EntityType, attr: string, v: Value,
                           live0: Live, trace0: seq<Stmt>, r: Outcome)
    reads conn`live, conn`trace
  {
    if MovesFile(kind, attr) && conn.inAvailabilityGroup(path) then r == Failed(PlainException) && Untouched(conn, live0, trace0)
    else if MovesFile(kind, attr) && !conn.answer(ConfirmFileMove(path)) then r == Pass && Untouched(conn, live0, trace0)
    else r == Pass && Wrote(conn, path, AlterStmt(path, attr), WriteAttribute(kind, attr, v), live0, trace0)
  }

  /** A key or an index re-created in place from the whole declaration. */
  ghost predicate Rebuilt(conn: Server, path: Path, kind: EntityType, d: Declared.Decl, live0: Live, trace0: seq<Stmt>, r: Outcome)
    reads conn`live, conn`trace
  {
    r == Pass && Wrote(conn, path, RecreateStmt(path), WriteAll(kind, ValidAttributes(kind), d.attrs), live0, trace0)
  }

  /** `_alter_column`: the declaration's definition must render; the column then
      takes every declared attribute but its identity. */
  ghost predicate ColumnAltered(conn: Server, path: Path, d: Declared.Decl, live0: Live, trace0: seq<Stmt>, r: Outcome)
    reads conn`live, conn`trace
  {
    if ColumnDefinition(d).Fail? then r == Failed(ValueError) && Untouched(conn, live0, trace0)
    else r == Pass && Wrote(conn, path, AlterColumnStmt(path), WriteAll(Columns, AlteredColumnAttributes, d.attrs), live0, trace0)
  }

  /** `set_attr_data_type`: the column is altered only when no index uses it; when
      one does, that index is offered for deletion and the column is not altered. */
  ghost predicate TypeChanged(o: ReflectedEntity, d: Declared.Decl, live0: Live, trace0: seq<Stmt>, r: Outcome)
    requires o.Linked() && o.kind == Columns
    reads o`name, o.ancestors`name, o.conn`live, o.conn`trace
  {
    var f := o.ColumnIndexes(live0);
    if f.Fail? then r == Failed(f.error) && Untouched(o.conn, live0, trace0)
    else if f.value == [] then ColumnAltered(o.conn, o.Path(), d, live0, trace0, r)
    else IndexOffered(o.conn, o.parent.Path(), f.value[0], live0, trace0, r)
  }

  /** What `self.delete()` leaves a column's `set_attr_identity` to create on: the
      outcome, the objects and the statements. When the operator declines, nothing
      changes; when no index uses the column, the column is dropped; when one does,
      that index is offered instead and the column stays. */
  ghost function ColumnOffer(o: ReflectedEntity, live0: Live, trace0: seq<Stmt>): (Outcome, Live, seq<Stmt>)
    requires o.Linked() && o.kind == Columns
    reads o`name, o.ancestors`name
  {
    var table := o.parent.Path();
    var f := o.ColumnIndexes(live0);
    if !o.DeleteApproved() then (Pass, live0, trace0)
    else if f.Fail? then (Failed(f.error), live0, trace0)
    else if f.value == [] then (Pass, Modify(live0, table, DropKid(Step(Columns, o.name))), trace0 + [DropStmt(o.Path())])
    else OfferIndex(o.conn.answer, live0, trace0, table, f.value[0])
  }

  /** A failed offer of a column's deletion changes nothing. */
  lemma FailedOfferKeeps(o: ReflectedEntity, live0: Live, trace0: seq<Stmt>)
    requires o.Linked() && o.kind == Columns
    ensures var base := ColumnOffer(o, live0, trace0);
            base.0.Failed? ==> base.1 == live0 && base.2 == trace0
  {
  }

  /** `set_attr_identity`: a table with a primary key refuses; otherwise the column
      is offered for deletion and then created from the declaration on whatever the
      offer left, unless the offer failed. */
  ghost predicate IdentityMade(o: ReflectedEntity, d: Declared.Decl, live0: Live, trace0: seq<Stmt>, r: Outcome)
    requires o.Linked() && o.kind == Columns && d.kind == Columns
    reads o`name, o.ancestors`name, o.conn`live, o.conn`trace
  {
    var pk := PkFields(live0, o.parent.Path());
    if pk.Fail? then r == Failed(pk.error) && Untouched(o.conn, live0, trace0)
    else if Truthy(pk.value) then r == Failed(PlainException) && Untouched(o.conn, live0, trace0)
    else CreatedOnOffer(o, d, live0, trace0, r)
  }

  /** The column's offer for deletion, then, unless it failed, the create of the
      column from the declaration on whatever the offer left. */
  ghost predicate CreatedOnOffer(o: ReflectedEntity, d: Declared.Decl, live0: Live, trace0: seq<Stmt>, r: Outcome)
    requires o.Linked() && o.kind == Columns && d.kind == Columns
    reads o`name, o.ancestors`name, o.conn`live, o.conn`trace
  {
    var base := ColumnOffer(o, live0, trace0);
    if base.0.Failed? then r == base.0 && Untouched(o.conn, live0, trace0)
    else NodeCreated(o.conn, o.parent.Path(), d, base.1, base.2, r)
  }

  /** The roles as both sides report them: the declared value and then the value
      read must each be iterable. */
  ghost predicate RolesReconciled(conn: Server, path: Path, kind: EntityType, declared: Value, read: Result<Value>,
                                  live0: Live, trace0: seq<Stmt>, r: Outcome)
    reads conn`live, conn`trace
  {
    var want := DeclaredTypes.ItemsOf(declared);
    if want.None? then r == Failed(TypeError) && Untouched(conn, live0, trace0)
    else if read.Fail? then r == Failed(read.error) && Untouched(conn, live0, trace0)
    else if DeclaredTypes.ItemsOf(read.value).None? then r == Failed(TypeError) && Untouched(conn, live0, trace0)
    else
      var held := DeclaredTypes.ItemsOf(read.value).value;
      r == Pass && |trace0| <= |conn.trace| && conn.trace[..|trace0|] == trace0 &&
      RolesLogged(conn.trace[|trace0|..], path, want.value, held) &&
      (want.value == held ==> Untouched(conn, live0, trace0)) &&
      (want.value != held ==>
         RowAt(conn.live, path) == if RowAt(live0, path).None? then None else Some(RowAt(live0, path).value + RoleFields(kind, want.value)))
  }

  /** `set_attr_db_roles`: nothing changes when the user's login owns the database;
      otherwise the roles are reconciled. The database's row must carry an owner. */
  ghost predicate DbRolesSet(o: ReflectedEntity, d: Declared.Decl, live0: Live, trace0: seq<Stmt>,
                             detail0: Option<Record>, cache0: map<string, Value>, r: Outcome)
    requires o.Linked() && o.kind == Users
    reads o`name, o.ancestors`name, o.conn`live, o.conn`trace
  {
    var db := RowAt(live0, o.parent.Path());
    var row := RowAt(live0, o.Path());
    var login := CachedRead(Users, detail0, cache0, row, "login_name");
    if db.None? || "owner" !in db.value then r == Failed(AttributeError) && Untouched(o.conn, live0, trace0)
    else if login.Fail? then r == Failed(login.error) && Untouched(o.conn, live0, trace0)
    else if db.value["owner"] == login.value then r == Pass && Untouched(o.conn, live0, trace0)
    else RolesReconciled(o.conn, o.Path(), Users, d.Attr("db_roles"), CachedRead(Users, detail0, cache0, row, "db_roles"),
                         live0, trace0, r)
  }

  /** What the attribute's setter does, setter by setter. */
  ghost predicate SetterRan(o: ReflectedEntity, d: Declared.Decl, attr: string, live0: Live, trace0: seq<Stmt>,
                            detail0: Option<Record>, cache0: map<string, Value>, r: Outcome)
    requires o.Linked() && d.kind == o.kind
    reads o`name, o.ancestors`name, o.conn`live, o.conn`trace
  {
    match SetterOf(o.kind, attr)
    case NoSetter => r == Pass && Untouched(o.conn, live0, trace0)
    case Assign => Assigned(o.conn, o.Path(), o.kind, attr, d.Attr(attr), live0, trace0, r)
    case Rebuild => Rebuilt(o.conn, o.Path(), o.kind, d, live0, trace0, r)
    case AlterColumn => o.kind == Columns && ColumnAltered(o.conn, o.Path(), d, live0, trace0, r)
    case ChangeType => o.kind == Columns && TypeChanged(o, d, live0, trace0, r)
    case MakeIdentity => o.kind == Columns && IdentityMade(o, d, live0, trace0, r)
    case DbRoles =>
      o.kind == Users && DbRolesSet(o, d, live0, trace0, detail0, cache0, r)
    case ServerRoles =>
      RolesReconciled(o.conn, o.Path(), Logins, d.Attr("server_roles"),
                      CachedRead(Logins, detail0, cache0, RowAt(live0, o.Path()), "server_roles"), live0, trace0, r)
  }

  // ---------------------------------------------------------------------------
  // set_attribute
  // ---------------------------------------------------------------------------

  /** The operator lets the attribute change: the type has a setter for it and the
      prompt is answered 'y'. */
  predicate SetApproved(o: ReflectedEntity, d: Declared.Decl, attr: string)
    requires o.Linked()
    reads o`name, o.ancestors`name
  {
    SetterOf(o.kind, attr) != NoSetter && o.conn.answer(ConfirmSet(o.Path(), attr, d.Attr(attr)))
  }

  /** `set_attribute`: without a setter, or when the operator declines, nothing is
      sent and the answer is False. Otherwise the setter runs, its failure is the
      answer, and the attribute is read back from the server: True exactly when it
      now reads as declared, DBNotAlteredAttributeError when it reads otherwise. */
  method SetAttribute(o: ReflectedEntity, d: Declared.Decl, attr: string) returns (r: Result<bool>, ghost ran: Outcome)
    requires o.Linked() && d.kind == o.kind
    modifies o.conn`live, o.conn`trace, o`detail, o`cache
    ensures !SetApproved(o, d, attr) ==> r == Ok(false) && Untouched(o.conn, old(o.conn.live), old(o.conn.trace))
    ensures SetApproved(o, d, attr) ==>
              SetterRan(o, d, attr, old(o.conn.live), old(o.conn.trace), old(o.detail), old(o.cache), ran) == true &&
              (ran.Failed? ==> r == Fail(ran.error)) &&
              (ran.Pass? ==> r == ReadBack(FreshRead(o.conn.live, o.Path(), o.kind, attr), d.Attr(attr)))
    ensures r == Ok(true) ==> FreshRead(o.conn.live, o.Path(), o.kind, attr) == Ok(d.Attr(attr))
  {
    ran := Pass;
    if !SetApproved(o, d, attr) {
      return Ok(false), ran;
    }
    var done := RunSetter(o, d, attr);
    ran := done;
    if done.Failed? {
      return Fail(done.error), ran;
    }
    var read := ReadFresh(o, attr);
    r := ReadBack(read, d.Attr(attr));
  }

  /** An approved change of `data_type` on a column that an index uses never takes
      effect: either the offer of the index fails with AttributeError, or the column
      keeps its row and the read-back finds the type it had. When that type is not
      the declared one, `set_attribute` raises DBNotAlteredAttributeError. The
      requirements are what SetAttribute ensures when the change is approved. */
  lemma IndexedColumnKeepsType(o: ReflectedEntity, d: Declared.Decl, live0: Live, trace0: seq<Stmt>,
                               detail0: Option<Record>, cache0: map<string, Value>, ran: Outcome, r: Result<bool>)
    requires o.Linked() && o.kind == Columns && d.kind == Columns
    requires o.ColumnIndexes(live0).Ok? && o.ColumnIndexes(live0).value != []
    requires SetterRan(o, d, "data_type", live0, trace0, detail0, cache0, ran)
    requires ran.Failed? ==> r == Fail(ran.error)
    requires ran.Pass? ==> r == ReadBack(FreshRead(o.conn.live, o.Path(), Columns, "data_type"), d.Attr("data_type"))
    ensures r == Fail(AttributeError) || r == ReadBack(FreshRead(live0, o.Path(), Columns, "data_type"), d.Attr("data_type"))
    ensures var before := FreshRead(live0, o.Path(), Columns, "data_type");
            before.Ok? && before.value != d.Attr("data_type") ==>
              r == Fail(AttributeError) || r == Fail(DBNotAlteredAttribute)
  {
    var f := o.ColumnIndexes(live0);
    assert SetterOf(Columns, "data_type") == ChangeType;
    assert o.Path() == o.parent.Path() + [Step(Columns, o.name)];
    OfferKeepsColumns(o.conn.answer, live0, trace0, o.parent.Path(), f.value[0], o.name);
  }

  /** `reset_attribute` and the read that follows it: the value a new object reads. */
  method ReadFresh(o: ReflectedEntity, attr: string) returns (r: Result<Value>)
    requires o.Linked() && attr in ValidAttributes(o.kind)
    modifies o`detail, o`cache
    ensures r == FreshRead(o.conn.live, o.Path(), o.kind, attr)
  {
    o.ResetAttribute(attr);
    r := o.GetAttr(attr);
  }

  /** `set_attr_<name>` of the type, dispatched on the setter it has. */
  method RunSetter(o: ReflectedEntity, d: Declared.Decl, attr: string) returns (r: Outcome)
    requires o.Linked() && d.kind == o.kind && SetterOf(o.kind, attr) != NoSetter
    modifies o.conn`live, o.conn`trace, o`detail, o`cache
    ensures SetterRan(o, d, attr, old(o.conn.live), old(o.conn.trace), old(o.detail), old(o.cache), r)
  {
    match SetterOf(o.kind, attr)
    case Assign => r := AssignAttribute(o, attr, d.Attr(attr));
    case Rebuild => r := RebuildFromDeclaration(o, d);
    case AlterColumn => r := AlterColumn(o, d);
    case ChangeType => r := ChangeDataType(o, d);
    case MakeIdentity => r := MakeIdentity(o, d);
    case DbRoles => r := SetDbRoles(o, d);
    case ServerRoles => r := SetServerRoles(o, d);
  }

  // ---------------------------------------------------------------------------
  // The setters
  // ---------------------------------------------------------------------------

  /** `set_attr_compression`, `set_attr_recovery_model_desc`, `set_attr_owner` and
      the file path setters with `change_db_file_path`. */
  method AssignAttribute(o: ReflectedEntity, attr: string, v: Value) returns (r: Outcome)
    requires o.Linked()
    modifies o.conn`live, o.conn`trace
    ensures Assigned(o.conn, o.Path(), o.kind, attr, v, old(o.conn.live), old(o.conn.trace), r)
  {
    var path := o.Path();
    if MovesFile(o.kind, attr) {
      if o.conn.inAvailabilityGroup(path) {
        return Failed(PlainException);
      }
      if !o.conn.answer(ConfirmFileMove(path)) {
        return Pass;
      }
    }
    o.conn.Exec(AlterStmt(path, attr), path, SetFields(WriteAttribute(o.kind, attr, v)));
    return Pass;
  }

  /** `recreate_new_attributes`: the key or index is re-created under its own name
      from the whole declaration. */
  method RebuildFromDeclaration(o: ReflectedEntity, d: Declared.Decl) returns (r: Outcome)
    requires o.Linked()
    modifies o.conn`live, o.conn`trace
    ensures Rebuilt(o.conn, o.Path(), o.kind, d, old(o.conn.live), old(o.conn.trace), r)
  {
    var path := o.Path();
    o.conn.Exec(RecreateStmt(path), path, SetFields(WriteAll(o.kind, ValidAttributes(o.kind), d.attrs)));
    return Pass;
  }

  /** `recreate_new_attributes` of a primary key as the code stands: the key's
      `create_helper` leaves `drop_existing` unused and sends only the statement that
      adds the key to its table. While the key is on the server that statement is
      refused, so the rebuild never happens. */
  method RecreateKeyAsWritten(o: ReflectedEntity, d: Declared.Decl) returns (r: Outcome)
    requires o.Linked() && o.kind == PrimaryKeys
    modifies o.conn`live, o.conn`trace
    ensures Find(old(o.conn.live), o.Path()).Some? ==>
              r == Failed(DriverError) && Untouched(o.conn, old(o.conn.live), old(o.conn.trace))
  {
    var table := o.parent.Path();
    ExistsIffFound(o.conn.live, table, Step(PrimaryKeys, o.name));
    var key := Live(PrimaryKeys, o.name, WriteAll(PrimaryKeys, ValidAttributes(PrimaryKeys), d.attrs), []);
    r := Add(o.conn, CreateStmt(o.Path()), table, key);
  }

  /** `_alter_column`: one ALTER COLUMN from the declaration's definition, then every
      cached attribute is dropped. */
  method AlterColumn(o: ReflectedEntity, d: Declared.Decl) returns (r: Outcome)
    requires o.Linked()
    modifies o.conn`live, o.conn`trace, o`detail, o`cache
    ensures ColumnAltered(o.conn, o.Path(), d, old(o.conn.live), old(o.conn.trace), r)
  {
    var path := o.Path();
    var definition := ColumnDefinition(d);
    if definition.Fail? {
      return Failed(definition.error);
    }
    o.conn.Exec(AlterColumnStmt(path), path, SetFields(WriteAll(Columns, AlteredColumnAttributes, d.attrs)));
    o.ResetAll();
    return Pass;
  }

  /** `set_attr_data_type`. */
  method ChangeDataType(o: ReflectedEntity, d: Declared.Decl) returns (r: Outcome)
    requires o.Linked() && o.kind == Columns
    modifies o.conn`live, o.conn`trace, o`detail, o`cache
    ensures TypeChanged(o, d, old(o.conn.live), old(o.conn.trace), r)
  {
    var clear := o.DropAssociatedIndexes();
    if clear.Fail? {
      return Failed(clear.error);
    }
    if !clear.value {
      return Pass;
    }
    r := AlterColumn(o, d);
  }

  /** `set_attr_identity`. */
  method MakeIdentity(o: ReflectedEntity, d: Declared.Decl) returns (r: Outcome)
    requires o.Linked() && o.kind == Columns && d.kind == Columns
    modifies o.conn`live, o.conn`trace, o`detail, o`cache
    ensures IdentityMade(o, d, old(o.conn.live), old(o.conn.trace), r)
  {
    ghost var live0, trace0 := o.conn.live, o.conn.trace;
    var keyed := CheckNoKey(o.parent);
    if keyed.Failed? {
      return keyed;
    }
    r := RecreateColumn(o, d);
    KeylessIdentity(o, d, live0, trace0, r);
  }

  /** With no primary key on the table, `set_attr_identity` is the offer and the create. */
  lemma KeylessIdentity(o: ReflectedEntity, d: Declared.Decl, live0: Live, trace0: seq<Stmt>, r: Outcome)
    requires o.Linked() && o.kind == Columns && d.kind == Columns
    requires var pk := PkFields(live0, o.parent.Path()); pk.Ok? && !Truthy(pk.value)
    requires CreatedOnOffer(o, d, live0, trace0, r)
    ensures IdentityMade(o, d, live0, trace0, r)
  {
  }

  /** The delete and the create of `set_attr_identity`. */
  method RecreateColumn(o: ReflectedEntity, d: Declared.Decl) returns (r: Outcome)
    requires o.Linked() && o.kind == Columns && d.kind == Columns
    modifies o.conn`live, o.conn`trace, o`detail, o`cache
    ensures CreatedOnOffer(o, d, old(o.conn.live), old(o.conn.trace), r)
  {
    ghost var base := ColumnOffer(o, o.conn.live, o.conn.trace);
    FailedOfferKeeps(o, o.conn.live, o.conn.trace);
    var removed := OfferColumn(o);
    if removed.Failed? {
      return removed;
    }
    var created, made := Create(o.parent, d);
    assert created == made;
    r := created;
  }

  /** `self.delete()` in `set_attr_identity`. */
  method OfferColumn(o: ReflectedEntity) returns (r: Outcome)
    requires o.Linked() && o.kind == Columns
    modifies o.conn`live, o.conn`trace, o`detail, o`cache
    ensures (r, o.conn.live, o.conn.trace) == ColumnOffer(o, old(o.conn.live), old(o.conn.trace))
  {
    var removed := o.Delete();
    r := if removed.Fail? then Failed(removed.error) else Pass;
  }

  /** The refusal of `set_attr_identity` on a table with a primary key. */
  method CheckNoKey(table: ReflectedEntity) returns (r: Outcome)
    requires table.Linked() && table.kind == Tables
    ensures var pk := PkFields(table.conn.live, table.Path());
            r == if pk.Fail? then Failed(pk.error) else if Truthy(pk.value) then Failed(PlainException) else Pass
  {
    var pk := table.GetPkFields();
    if pk.Fail? {
      return Failed(pk.error);
    }
    r := if Truthy(pk.value) then Failed(PlainException) else Pass;
  }

  /** `set_attr_db_roles`. */
  method SetDbRoles(o: ReflectedEntity, d: Declared.Decl) returns (r: Outcome)
    requires o.Linked() && o.kind == Users
    modifies o.conn`live, o.conn`trace, o`detail, o`cache
    ensures DbRolesSet(o, d, old(o.conn.live), old(o.conn.trace), old(o.detail), old(o.cache), r)
  {
    var db := RowAt(o.conn.live, o.parent.Path());
    if db.None? || "owner" !in db.value {
      return Failed(AttributeError);
    }
    r := RolesUnlessOwner(o, d, db.value["owner"], o.Path());
  }

  /** The roles are reconciled unless the user's login owns the database. */
  method RolesUnlessOwner(o: ReflectedEntity, d: Declared.Decl, owner: Value, ghost path: Path) returns (r: Outcome)
    requires o.Linked() && o.kind == Users && o.Path() == path
    modifies o.conn`live, o.conn`trace, o`detail, o`cache
    ensures var login := CachedRead(Users, old(o.detail), old(o.cache), RowAt(old(o.conn.live), path), "login_name");
            (login.Fail? ==> r == Failed(login.error) && Untouched(o.conn, old(o.conn.live), old(o.conn.trace))) &&
            (login.Ok? && owner == login.value ==> r == Pass && Untouched(o.conn, old(o.conn.live), old(o.conn.trace))) &&
            (login.Ok? && owner != login.value ==>
               RolesReconciled(o.conn, path, Users, d.Attr("db_roles"),
                               CachedRead(Users, old(o.detail), old(o.cache), RowAt(old(o.conn.live), path), "db_roles"),
                               old(o.conn.live), old(o.conn.trace), r))
  {
    var login := ReadLogin(o, path);
    if login.Fail? {
      return Failed(login.error);
    }
    if owner == login.value {
      return Pass;
    }
    r := ReconcileWithDeclared(o, Users, d.Attr("db_roles"));
  }

  /** The user's `login_name`, read without changing what `db_roles` reads. */
  method ReadLogin(o: ReflectedEntity, ghost path: Path) returns (r: Result<Value>)
    requires o.Linked() && o.kind == Users && o.Path() == path
    modifies o`detail, o`cache
    ensures r == CachedRead(Users, old(o.detail), old(o.cache), RowAt(o.conn.live, path), "login_name")
    ensures CachedRead(Users, o.detail, o.cache, RowAt(o.conn.live, path), "db_roles") ==
            CachedRead(Users, old(o.detail), old(o.cache), RowAt(o.conn.live, path), "db_roles")
  {
    ghost var detail0, cache0 := o.detail, o.cache;
    r := o.GetAttr("login_name");
    OtherReadKept(Users, detail0, cache0, o.detail, o.cache, RowAt(o.conn.live, path), "login_name", "db_roles");
  }

  /** Reading one attribute keeps what another one reads: the row held is the one
      that would have been fetched, and only the first attribute's entry is cached. */
  lemma OtherReadKept(kind: EntityType, detail0: Option<Record>, cache0: map<string, Value>,
                      detail: Option<Record>, cache: map<string, Value>, row: Option<Record>, a: string, b: string)
    requires a != b
    requires detail == detail0 || (detail0.None? && detail == row)
    requires b in cache <==> b in cache0
    requires b in cache0 ==> cache[b] == cache0[b]
    ensures CachedRead(kind, detail, cache, row, b) == CachedRead(kind, detail0, cache0, row, b)
  {
  }

  /** `set_attr_server_roles`. */
  method SetServerRoles(o: ReflectedEntity, d: Declared.Decl) returns (r: Outcome)
    requires o.Linked() && o.kind == Logins
    modifies o.conn`live, o.conn`trace, o`detail, o`cache
    ensures RolesReconciled(o.conn, o.Path(), Logins, d.Attr("server_roles"),
                            CachedRead(Logins, old(o.detail), old(o.cache), RowAt(old(o.conn.live), o.Path()), "server_roles"),
                            old(o.conn.live), old(o.conn.trace), r)
  {
    r := ReconcileWithDeclared(o, Logins, d.Attr("server_roles"));
  }

  /** `set(declared) - set(self.<roles>)` granted, then the other way round revoked. */
  method ReconcileWithDeclared(o: ReflectedEntity, kind: EntityType, declared: Value) returns (r: Outcome)
    requires o.Linked() && o.kind == kind && (kind == Users || kind == Logins)
    modifies o.conn`live, o.conn`trace, o`detail, o`cache
    ensures RolesReconciled(o.conn, o.Path(), kind, declared,
                            CachedRead(kind, old(o.detail), old(o.cache), RowAt(old(o.conn.live), o.Path()), RoleAttribute(kind)),
                            old(o.conn.live), old(o.conn.trace), r)
  {
    var want := DeclaredTypes.ItemsOf(declared);
    if want.None? {
      return Failed(TypeError);
    }
    var read := o.GetAttr(RoleAttribute(kind));
    if read.Fail? {
      return Failed(read.error);
    }
    var held := DeclaredTypes.ItemsOf(read.value);
    if held.None? {
      return Failed(TypeError);
    }
    ReconcileRoles(o.conn, kind, o.Path(), want.value, held.value);
    return Pass;
  }
}
