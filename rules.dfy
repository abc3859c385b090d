/** The per-type rules of the reflected side that are plain computations: how an
    attribute value is derived from a detail row, what the server reports after an
    attribute is written, when a live object counts as "the same" as a declared one,
    which names are system objects, which types can be created, renamed or deleted,
    how roles are reconciled and which boundary days a new partition gets. */
module Rules {
  import opened Values
  import opened Attributes
  import opened ColumnTypes
  import opened LiveStore
  import Declared

  // ---------------------------------------------------------------------------
  // Reading attributes from a detail row
  // ---------------------------------------------------------------------------

  /** `getattr(detail, field)`: the row lacks the field, AttributeError. */
  function Field(row: Record, f: string): (r: Result<Value>)
    ensures r.Ok? <==> f in row
    ensures r.Ok? ==> r.value == row[f]
  {
    if f in row then Ok(row[f]) else Fail(AttributeError)
  }

  /** `detail.data_type in types`. */
  function DataTypeIn(row: Record, types: set<string>): Result<bool>
  {
    var t :- Field(row, "data_type");
    Ok(t.VStr? && t.s in types)
  }

  /** A column field that only means something for some types, and is None for all
      other types whatever the row holds. */
  function WithinTypes(row: Record, types: set<string>, f: string): Result<Value>
  {
    var inside :- DataTypeIn(row, types);
    if inside then Field(row, f) else Ok(VNone)
  }

  /** The column getters. */
  function ReadColumn(row: Record, attr: string): Result<Value>
  {
    if attr == "nullable" || attr == "identity" then
      var v :- Field(row, attr);
      Ok(VBool(Truthy(v)))
    else if attr == "numeric_precision" then WithinTypes(row, NumericTypes + ApproxNumberTypes, attr)
    else if attr == "numeric_scale" then WithinTypes(row, NumericTypes, attr)
    else if attr == "datetime_precision" then WithinTypes(row, DatetimePrecisionTypes, attr)
    else if attr == "char_max_len" then WithinTypes(row, CharTypes, attr)
    else Field(row, attr)
  }

  /** The key columns of a primary key or index, lower-cased; a key without columns
      raises a bare Exception. */
  function ReadKeyColumns(row: Record): Result<Value>
  {
    var c :- Field(row, "columns");
    if !c.VTuple? then Fail(TypeError)
    else if c.elems == [] then Fail(PlainException)
    else Ok(VTuple(LowerAll(c.elems)))
  }

  function LowerSet(s: set<string>): set<string>
  {
    set x | x in s :: Lower(x)
  }

  /** The included columns of an index, lower-cased, or None when there are none. */
  function ReadIncluded(row: Record): Result<Value>
  {
    var v :- Field(row, "included_columns");
    if !v.VSet? then Fail(TypeError)
    else if v.items == {} then Ok(VNone)
    else Ok(VSet(LowerSet(v.items)))
  }

  /** `int(size) if size else 0` for the database file sizes, which the server
      reports as two-place decimals: `int` truncates a decimal toward zero, reads a
      numeral string, and raises ValueError for other text and TypeError for a
      collection. */
  function ReadSize(row: Record, attr: string): Result<Value>
  {
    var v :- Field(row, attr);
    if !Truthy(v) then Ok(VInt(0))
    else
      match v
      case VDecimal(h) => Ok(VInt(TruncateHundredths(h)))
      case VInt(_) => Ok(v)
      case VBool(_) => Ok(VInt(1))
      case VStr(s) => if ParseInt(s).Some? then Ok(VInt(ParseInt(s).value)) else Fail(ValueError)
      case _ => Fail(TypeError)
  }

  /** `int()` of a decimal held as `h` hundredths: the whole part, truncated toward
      zero. */
  function TruncateHundredths(h: int): (r: int)
    ensures 0 <= h ==> 0 <= r * 100 <= h < r * 100 + 100
    ensures h < 0 ==> r * 100 - 100 < h <= r * 100 <= 0
  {
    if 0 <= h then h / 100 else -((-h) / 100)
  }

  /** A truthy size reads as the decimal's whole part: 12.75 MB is read as 12. */
  lemma SizeTruncates(row: Record, attr: string, h: int)
    requires attr in row && row[attr] == VDecimal(h) && h != 0
    ensures ReadSize(row, attr) == Ok(VInt(TruncateHundredths(h)))
    ensures -100 < h < 100 ==> ReadSize(row, attr) == Ok(VInt(0))
  {
  }

  /** The fixed server roles a login's detail row carries a membership flag for. */
  const FixedServerRoles: set<string> :=
    {"sysadmin", "securityadmin", "serveradmin", "setupadmin", "processadmin", "diskadmin",
     "dbcreator", "bulkadmin"}

  /** The roles whose flag is 1. */
  function ReadServerRoles(row: Record): Result<Value>
  {
    if forall role :: role in FixedServerRoles ==> role in row then
      Ok(VSet(set role | role in FixedServerRoles && row[role] == VInt(1)))
    else Fail(AttributeError)
  }

  const DummyPassword := "dummypassword"

  /** `read_attribute`: the type's `get_attr_<name>` method when it has one, else the
      row field of that name. */
  function ReadAttribute(kind: EntityType, row: Record, attr: string): Result<Value>
  {
    match kind
    case Columns => ReadColumn(row, attr)
    case PrimaryKeys =>
      if attr == "columns" then ReadKeyColumns(row)
      else if attr == "clustered" then
        var t :- Field(row, "type_desc");
        Ok(VBool(t == VStr("CLUSTERED")))
      else Field(row, attr)
    case Indexes =>
      if attr == "columns" then ReadKeyColumns(row)
      else if attr == "clustered" then
        var t :- Field(row, "type_desc");
        Ok(VBool(t == VStr("CLUSTERED")))
      else if attr == "included_columns" then ReadIncluded(row)
      else Field(row, attr)
    case Partitions =>
      if attr == "column" then
        var c :- Field(row, "column_name");
        if c.VStr? then Ok(VStr(Lower(c.s))) else Fail(AttributeError)
      else Field(row, attr)
    case Databases =>
      if attr == "data_size" || attr == "log_size" then ReadSize(row, attr) else Field(row, attr)
    case Logins =>
      if attr == "server_roles" then ReadServerRoles(row)
      else if attr == "password" then Ok(VStr(DummyPassword))
      else Field(row, attr)
    case _ => Field(row, attr)
  }

  /** Precision, scale, fractional-second precision and length are None outside the
      type categories that take them: for a column whose row carries all four, each
      is read as the row holds it exactly when the column's category is one whose
      rendering uses it, and as None otherwise. */
  lemma ColumnParametersByCategory(row: Record, t: string)
    requires "data_type" in row && row["data_type"] == VStr(t)
    requires forall f :: f in ["numeric_precision", "numeric_scale", "datetime_precision", "char_max_len"] ==> f in row
    ensures ReadAttribute(Columns, row, "numeric_precision") ==
              Ok(if CategoryOf(t) in {Some(NumericCategory), Some(ApproxCategory)} then row["numeric_precision"] else VNone)
    ensures ReadAttribute(Columns, row, "numeric_scale") ==
              Ok(if CategoryOf(t) == Some(NumericCategory) then row["numeric_scale"] else VNone)
    ensures ReadAttribute(Columns, row, "datetime_precision") ==
              Ok(if CategoryOf(t) == Some(DatetimePrecisionCategory) then row["datetime_precision"] else VNone)
    ensures ReadAttribute(Columns, row, "char_max_len") ==
              Ok(if CategoryOf(t) == Some(CharCategory) then row["char_max_len"] else VNone)
  {
    assert "numeric_precision" in ["numeric_precision", "numeric_scale", "datetime_precision", "char_max_len"];
    assert "numeric_scale" in ["numeric_precision", "numeric_scale", "datetime_precision", "char_max_len"];
    assert "datetime_precision" in ["numeric_precision", "numeric_scale", "datetime_precision", "char_max_len"];
    assert "char_max_len" in ["numeric_precision", "numeric_scale", "datetime_precision", "char_max_len"];
    forall c2: Category | t in CategorySet(c2) ensures CategoryOf(t) == Some(c2) {
      CategoriesDisjoint(t, c2, c2);
    }
  }

  // ---------------------------------------------------------------------------
  // What the server reports after a write
  // ---------------------------------------------------------------------------

  /** The row fields that report an attribute once the server has set it to `v`. */
  function WriteAttribute(kind: EntityType, attr: string, v: Value): Record
  {
    match kind
    case PrimaryKeys =>
      if attr == "clustered" then map["type_desc" := VStr(if Truthy(v) then "CLUSTERED" else "NONCLUSTERED")]
      else map[attr := v]
    case Indexes =>
      if attr == "clustered" then map["type_desc" := VStr(if Truthy(v) then "CLUSTERED" else "NONCLUSTERED")]
      else if attr == "included_columns" then map[attr := if v.VSet? then v else VSet({})]
      else map[attr := v]
    case Partitions =>
      if attr == "column" then map["column_name" := v] else map[attr := v]
    case Logins =>
      if attr == "server_roles" then
        map role | role in FixedServerRoles :: VInt(if v.VSet? && role in v.items then 1 else 0)
      else map[attr := v]
    case Databases =>
      if (attr == "data_size" || attr == "log_size") && v.VInt? then map[attr := VDecimal(v.i * 100)]
      else map[attr := v]
    case _ => map[attr := v]
  }

  /** The values reading can produce for an attribute of a live object with the
      given row: the only values a write can be read back as. */
  predicate Readable(kind: EntityType, row: Record, attr: string, v: Value)
  {
    match kind
    case Columns =>
      if attr == "nullable" || attr == "identity" then v.VBool?
      else if attr in ["numeric_precision", "numeric_scale", "datetime_precision", "char_max_len"] then
        v == VNone || ReadColumn(row[attr := VInt(0)], attr) == Ok(VInt(0))
      else attr != "data_type" || v.VStr?
    case PrimaryKeys => KeyReadable(attr, v)
    case Indexes =>
      if attr == "included_columns" then v == VNone || (v.VSet? && v.items != {} && LowerSet(v.items) == v.items)
      else KeyReadable(attr, v)
    case Partitions => attr == "column" ==> v.VStr? && Lower(v.s) == v.s
    case Databases => (attr == "data_size" || attr == "log_size") ==> v.VInt? && v.i != 0
    case Logins =>
      attr != "password" && (attr == "server_roles" ==> v.VSet? && v.items <= FixedServerRoles)
    case _ => true
  }

  predicate KeyReadable(attr: string, v: Value)
  {
    if attr == "columns" then v.VTuple? && v.elems != [] && LowerAll(v.elems) == v.elems
    else if attr == "clustered" then v.VBool?
    else true
  }

  /** Writing a readable value and reading it back gives the value: the server model
      keeps what it is told, so a verified write fails only for a value the read side
      cannot produce. */
  lemma WriteThenRead(kind: EntityType, row: Record, attr: string, v: Value)
    requires Readable(kind, row, attr, v)
    requires kind == Columns && attr in ["numeric_precision", "numeric_scale", "datetime_precision", "char_max_len"]
             ==> "data_type" in row
    ensures ReadAttribute(kind, row + WriteAttribute(kind, attr, v), attr) == Ok(v)
  {
    var row' := row + WriteAttribute(kind, attr, v);
    match kind
    case Columns =>
      if attr in ["numeric_precision", "numeric_scale", "datetime_precision", "char_max_len"] {
        assert row'["data_type"] == row[attr := VInt(0)]["data_type"];
      }
    case Indexes =>
      if attr == "included_columns" && v.VSet? {
        assert LowerSet(v.items) == v.items;
      }
    case Databases =>
      if attr == "data_size" || attr == "log_size" {
        var h := v.i * 100;
        assert TruncateHundredths(h) == v.i;
      }
    case Logins =>
      if attr == "server_roles" {
        assert forall role :: role in FixedServerRoles ==> role in row';
        assert (set role | role in FixedServerRoles && row'[role] == VInt(1)) == v.items;
      }
    case _ =>
  }

  // ---------------------------------------------------------------------------
  // Matching a live object with a declared one
  // ---------------------------------------------------------------------------

  /** The default rule: the names agree ignoring case, or the declared object has an
      old name and that agrees ignoring case. */
  predicate NameMatches(name: string, d: Declared.Decl)
  {
    Lower(name) == Lower(d.name) || (d.HasOldName() && Lower(name) == Lower(d.oldName.value))
  }

  /** `__eq__` between a live object whose row is `row` (None: the object is gone) and
      a declared one, as a fresh reflected object evaluates it: the types must agree
      before any attribute is read; primary keys compare their columns, indexes
      their columns and then their included columns, partitions their column and
      users their login; all other types use the default name rule and read no
      attribute at all. A read that fails makes the comparison fail. */
  function MatchesRow(kind: EntityType, name: string, row: Option<Record>, d: Declared.Decl): (r: Result<bool>)
    ensures kind != d.kind ==> r == Ok(false)
    ensures kind == d.kind && kind !in {PrimaryKeys, Indexes, Partitions, Users} ==> r == Ok(NameMatches(name, d))
    ensures kind == d.kind && kind in {PrimaryKeys, Indexes, Partitions, Users} && row.None? ==> r == Fail(DBError)
    ensures r == Ok(true) && kind == Indexes ==>
              ReadAttribute(kind, row.value, "columns") == Ok(d.Attr("columns")) &&
              ReadAttribute(kind, row.value, "included_columns") == Ok(d.Attr("included_columns"))
  {
    if kind != d.kind then Ok(false)
    else if kind !in {PrimaryKeys, Indexes, Partitions, Users} then Ok(NameMatches(name, d))
    else if row.None? then Fail(DBError)
    else
      var key := MatchKey(kind);
      var v :- ReadAttribute(kind, row.value, key);
      if v != d.Attr(key) then Ok(false)
      else if kind != Indexes then Ok(true)
      else
        var inc :- ReadAttribute(kind, row.value, "included_columns");
        Ok(inc == d.Attr("included_columns"))
  }

  /** The attribute a type's `equate_declared` compares first. */
  function MatchKey(kind: EntityType): string
  {
    match kind
    case Partitions => "column"
    case Users => "login_name"
    case _ => "columns"
  }

  /** Every match key is one of the type's registry attributes, so it is read through
      the attribute cache like any other. */
  lemma MatchKeysAreAttributes(kind: EntityType)
    requires kind in {PrimaryKeys, Indexes, Partitions, Users}
    ensures MatchKey(kind) in ValidAttributes(kind)
    ensures kind == Indexes ==> "included_columns" in ValidAttributes(kind)
  {
  }

  // ---------------------------------------------------------------------------
  // System objects, creation, renaming and deletion per type
  // ---------------------------------------------------------------------------

  /** The names `all_for_parent` leaves out. */
  function SystemNames(kind: EntityType): seq<string>
  {
    match kind
    case Schemas => ["sys", "guest", "INFORMATION_SCHEMA"]
    case Users => ["dbo", "guest", "sys", "INFORMATION_SCHEMA"]
    case Databases => ["master", "tempdb", "model", "msdb", "ReportServer", "ReportServerTempDB"]
    case Logins => ["##MS_PolicyTsqlExecutionLogin##", "GCT", "##MS_PolicyEventProcessingLogin##", "sa"]
    case _ => []
  }

  /** The listed names that are not system objects, in listing order. */
  function Visible(kind: EntityType, names: seq<string>): (r: seq<string>)
    ensures forall n :: n in r <==> n in names && n !in SystemNames(kind)
    ensures |r| <= |names|
  {
    if names == [] then []
    else (if names[0] in SystemNames(kind) then [] else [names[0]]) + Visible(kind, names[1..])
  }

  /** Filtering keeps order: the visible names of a concatenation are the visible
      names of each part, one after the other. */
  lemma {:induction false} VisibleConcat(kind: EntityType, a: seq<string>, b: seq<string>)
    ensures Visible(kind, a + b) == Visible(kind, a) + Visible(kind, b)
    decreases |a|
  {
    if a == [] {
      assert a + b == b;
    } else {
      var head := if a[0] in SystemNames(kind) then [] else [a[0]];
      assert (a + b)[0] == a[0] && (a + b)[1..] == a[1..] + b;
      assert Visible(kind, a + b) == head + Visible(kind, a[1..] + b);
      VisibleConcat(kind, a[1..], b);
      AppendAssoc(head, Visible(kind, a[1..]), Visible(kind, b));
    }
  }

  /** `can_create`: logins are never created. */
  predicate CanCreate(kind: EntityType)
  {
    kind != Logins
  }

  /** `can_delete`: databases are never deleted. */
  predicate CanDelete(kind: EntityType)
  {
    kind != Databases
  }

  /** `_rename_ex`: schemas refuse to be renamed, and types without the hook are not
      implemented. */
  function RenameSupport(kind: EntityType): (r: Outcome)
    ensures r.Pass? <==> kind in {Databases, Tables, Columns, PrimaryKeys, Indexes}
  {
    match kind
    case Databases => Pass
    case Tables => Pass
    case Columns => Pass
    case PrimaryKeys => Pass
    case Indexes => Pass
    case Schemas => Failed(DBError)
    case _ => Failed(NotImplemented)
  }

  // ---------------------------------------------------------------------------
  // Setters
  // ---------------------------------------------------------------------------

  /** How a type's `set_attr_<name>` changes the server, if it has one. */
  datatype Setter =
    | NoSetter       // no method: `set_attribute` returns False
    | Assign         // one statement that sets the attribute
    | Rebuild        // the index or key is re-created from the declaration
    | AlterColumn    // ALTER COLUMN from the declaration, then the cache is cleared
    | ChangeType     // drop the column's indexes first, alter only if that succeeded
    | MakeIdentity   // refuse on a table with a key, else drop and re-create the column
    | DbRoles        // reconcile database roles unless the login owns the database
    | ServerRoles    // reconcile server roles

  function SetterOf(kind: EntityType, attr: string): (r: Setter)
    ensures r != NoSetter ==> attr in ValidAttributes(kind)
  {
    match kind
    case Databases =>
      if attr in ["recovery_model_desc", "owner", "data_file_path", "log_file_path"] then Assign else NoSetter
    case Logins => if attr == "server_roles" then ServerRoles else NoSetter
    case Columns =>
      if attr == "data_type" then ChangeType
      else if attr == "identity" then MakeIdentity
      else if attr in ["char_max_len", "datetime_precision", "numeric_precision", "numeric_scale", "nullable"] then AlterColumn
      else NoSetter
    case PrimaryKeys =>
      if attr == "compression" then Assign else if attr == "clustered" then Rebuild else NoSetter
    case Indexes =>
      if attr == "compression" then Assign
      else if attr == "clustered" || attr == "included_columns" then Rebuild
      else NoSetter
    case Users => if attr == "db_roles" then DbRoles else NoSetter
    case _ => NoSetter
  }

  /** The attributes that no type can alter: a difference in one of them is reported
      and left as it is. */
  lemma UnalterableAttributes()
    ensures SetterOf(Databases, "data_size") == NoSetter && SetterOf(Databases, "log_size") == NoSetter
    ensures SetterOf(Logins, "type_desc") == NoSetter && SetterOf(Logins, "password") == NoSetter
    ensures SetterOf(PrimaryKeys, "columns") == NoSetter
    ensures SetterOf(Indexes, "columns") == NoSetter && SetterOf(Indexes, "unique") == NoSetter
    ensures SetterOf(Users, "login_name") == NoSetter
    ensures SetterOf(Partitions, "column") == NoSetter
    ensures forall a :: SetterOf(ForeignKeys, a) == NoSetter
  {
  }

  /** The column attributes an ALTER COLUMN from the declaration sets: all but the
      identity property, which only dropping and re-adding the column can change. */
  const AlteredColumnAttributes: seq<string> :=
    ["data_type", "char_max_len", "datetime_precision", "numeric_precision", "numeric_scale", "nullable"]

  /** The row fields of a whole declaration, attribute by attribute. */
  function WriteAll(kind: EntityType, names: seq<string>, attrs: map<string, Value>): Record
  {
    if names == [] then map[]
    else
      var v := if names[0] in attrs then attrs[names[0]] else VNone;
      WriteAttribute(kind, names[0], v) + WriteAll(kind, names[1..], attrs)
  }

  // ---------------------------------------------------------------------------
  // Role reconciliation
  // ---------------------------------------------------------------------------

  /** Roles to add: declared but not held. */
  function RolesToGrant(declared: set<string>, current: set<string>): set<string>
  {
    declared - current
  }

  /** Roles to drop: held but not declared. */
  function RolesToRevoke(declared: set<string>, current: set<string>): set<string>
  {
    current - declared
  }

  /** Adding the missing roles and dropping the extra ones leaves exactly the
      declared roles, and no role is both added and dropped. */
  lemma RoleReconciliation(declared: set<string>, current: set<string>)
    ensures (current + RolesToGrant(declared, current)) - RolesToRevoke(declared, current) == declared
    ensures RolesToGrant(declared, current) * RolesToRevoke(declared, current) == {}
    ensures declared == current ==> RolesToGrant(declared, current) == {} && RolesToRevoke(declared, current) == {}
  {
  }

  // ---------------------------------------------------------------------------
  // Partition boundaries
  // ---------------------------------------------------------------------------

  const BoundaryMargin := 5

  /** The first and the last-plus-one boundary day of a new partition function: five
      days either side of the existing data, or of today when the column holds none.
      Days are counted as integers. */
  function BoundaryWindow(existing: Option<(int, int)>, today: int): (int, int)
  {
    match existing
    case Some((lo, hi)) => (lo - BoundaryMargin, hi + BoundaryMargin)
    case None => (today - BoundaryMargin, today + BoundaryMargin)
  }

  /** `[start + i for i in range(end - start)]`: one boundary per day, none when the
      window is empty. */
  function BoundaryDays(start: int, end: int): (r: seq<int>)
    ensures |r| == if end > start then end - start else 0
    ensures forall i :: 0 <= i < |r| ==> r[i] == start + i
    decreases end - start
  {
    if end <= start then [] else [start] + BoundaryDays(start + 1, end)
  }

  /** With data from day `lo` to day `hi`, every day of the data and five days before
      it are boundaries, consecutive and increasing; the last boundary is four days
      after the last day of data. */
  lemma BoundariesCoverData(lo: int, hi: int, today: int)
    requires lo <= hi
    ensures var (s, e) := BoundaryWindow(Some((lo, hi)), today);
            var days := BoundaryDays(s, e);
            |days| == hi - lo + 2 * BoundaryMargin &&
            days[0] == lo - BoundaryMargin && days[|days| - 1] == hi + BoundaryMargin - 1 &&
            (forall day :: lo - BoundaryMargin <= day < hi + BoundaryMargin ==> day in days) &&
            (forall i :: 0 <= i < |days| - 1 ==> days[i + 1] == days[i] + 1)
  {
    var days := BoundaryDays(lo - BoundaryMargin, hi + BoundaryMargin);
    forall day | lo - BoundaryMargin <= day < hi + BoundaryMargin ensures day in days {
      assert days[day - (lo - BoundaryMargin)] == day;
    }
  }

  /** Without data the function gets ten daily boundaries, from five days before
      today up to four days after it. */
  lemma BoundariesAroundToday(today: int)
    ensures var (s, e) := BoundaryWindow(None, today);
            BoundaryDays(s, e) == [today - 5, today - 4, today - 3, today - 2, today - 1,
                                   today, today + 1, today + 2, today + 3, today + 4]
  {
    var days := BoundaryDays(today - 5, today + 5);
    assert |days| == 10;
  }

  /** Data whose last day precedes its first yields no boundary at all. */
  lemma BoundariesEmptyWindow(lo: int, hi: int, today: int)
    requires hi + BoundaryMargin <= lo - BoundaryMargin
    ensures var (s, e) := BoundaryWindow(Some((lo, hi)), today);
            BoundaryDays(s, e) == []
  {
  }

  /** `'pf_{schema}_{table}_{column}'` and `'ps_{schema}_{table}_{column}'`. */
  function PartitionObjectName(prefix: string, schema: string, table: string, column: string): string
  {
    prefix + "_" + schema + "_" + table + "_" + column
  }

  /** The function and the scheme of one column share everything after their two-letter
      prefix, so they never coincide; schemes of different columns differ. */
  lemma PartitionNamesDistinct(schema: string, table: string, c1: string, c2: string)
    ensures PartitionObjectName("pf", schema, table, c1) != PartitionObjectName("ps", schema, table, c1)
    ensures c1 != c2 ==> PartitionObjectName("ps", schema, table, c1) != PartitionObjectName("ps", schema, table, c2)
  {
    var a := PartitionObjectName("pf", schema, table, c1);
    var b := PartitionObjectName("ps", schema, table, c1);
    assert a[1] != b[1];
    if c1 != c2 {
      var p := "ps" + "_" + schema + "_" + table + "_";
      assert PartitionObjectName("ps", schema, table, c1) == p + c1;
      assert PartitionObjectName("ps", schema, table, c2) == p + c2;
      assert c1 == (p + c1)[|p|..];
      assert c2 == (p + c2)[|p|..];
    }
  }
}
