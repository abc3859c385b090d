/** The container classes of the declared tree: tables, schemas, databases and the
    server, with the database shortcuts for reaching and adding tables. Keywords
    that name a parameter of a class bind to that parameter, so they never appear
    among the extra keywords a factory passes on; passing one of the keywords the
    class itself supplies to the generic constructor is a TypeError (a keyword
    given twice). */
module DeclaredTree {
  import opened Values
  import opened Attributes
  import opened Declared

  // ---------------------------------------------------------------------------
  // Tables and schemas
  // ---------------------------------------------------------------------------

  /** `[x] if x else None`: a truthy argument becomes a one-element list. */
  function WrapOne(a: Arg): (r: Arg)
    ensures ChildEntities(r) ==
            if !ArgTruthy(a) then Ok([])
            else if a.Entity? then Ok([a.e])
            else Fail(InvalidDBEntityChild)
    ensures ArgEntities(r) == ArgEntities(a) || ArgEntities(r) == []
  {
    if !ArgTruthy(a) then Val(VNone)
    else if a.Entity? then Entities([a.e])
    else Mixed
  }

  /** The keywords `Table.__init__` passes on. */
  function TableKeywords(primaryKey: Arg, partition: Arg, children: map<string, Arg>): (r: map<string, Arg>)
    ensures r.Keys == children.Keys + {TypeName(PrimaryKeys), TypeName(Partitions)}
  {
    children[TypeName(PrimaryKeys) := WrapOne(primaryKey)][TypeName(Partitions) := WrapOne(partition)]
  }

  /** `Table(name, primary_key=None, partition=None, **children)`: the primary key
      and the partition, when given, become one-element child lists; passing either
      list directly as well is a keyword given twice. */
  method NewTable(name: Option<string>, oldName: Option<string>, ignoreArg: Value,
                  primaryKey: Arg, partition: Arg, children: map<string, Arg>)
    returns (r: Result<DeclaredEntity>)
    requires forall c :: c in ArgEntities(primaryKey) + ArgEntities(partition) ==> c.Valid() && c.Ranked()
    requires forall k, c :: k in children && c in ArgEntities(children[k]) ==> c.Valid() && c.Ranked()
    ensures TypeName(PrimaryKeys) in children || TypeName(Partitions) in children ==> r == Fail(TypeError)
    ensures TypeName(PrimaryKeys) !in children && TypeName(Partitions) !in children ==>
              var built := Construction(Tables, name, TableKeywords(primaryKey, partition, children));
              (r.Fail? <==> built.Fail?) && (r.Fail? ==> r.error == built.error) &&
              (r.Ok? ==> r.value.children == built.value.0)
    ensures r.Ok? ==> fresh(r.value) && r.value.Valid() && r.value.Ranked() && r.value.WellTyped()
    ensures r.Ok? ==> r.value.kind == Tables && r.value.name == TruncateName(name.value)
  {
    if TypeName(PrimaryKeys) in children || TypeName(Partitions) in children {
      return Fail(TypeError);
    }
    var kwargs := TableKeywords(primaryKey, partition, children);
    assert forall k, c :: k in kwargs && c in ArgEntities(kwargs[k]) ==> c.Valid() && c.Ranked() by {
      forall k, c | k in kwargs && c in ArgEntities(kwargs[k]) ensures c.Valid() && c.Ranked() {
        if k == TypeName(PrimaryKeys) {
          assert c in ArgEntities(primaryKey) + ArgEntities(partition);
        } else if k == TypeName(Partitions) {
          assert c in ArgEntities(primaryKey) + ArgEntities(partition);
        } else {
          assert kwargs[k] == children[k];
        }
      }
    }
    r := New(Tables, name, oldName, ignoreArg, kwargs);
  }

  /** `Schema(name, tables=...)`: the generic constructor with tables as the only
      child type and no attributes. */
  method NewSchema(name: Option<string>, oldName: Option<string>, ignoreArg: Value, kwargs: map<string, Arg>)
    returns (r: Result<DeclaredEntity>)
    requires forall k, c :: k in kwargs && c in ArgEntities(kwargs[k]) ==> c.Valid() && c.Ranked()
    ensures r.Fail? <==> Construction(Schemas, name, kwargs).Fail?
    ensures r.Fail? ==> r.error == Construction(Schemas, name, kwargs).error
    ensures r.Ok? ==> fresh(r.value) && r.value.Valid() && r.value.Ranked() && r.value.WellTyped()
    ensures r.Ok? ==> r.value.kind == Schemas && r.value.name == TruncateName(name.value)
    ensures r.Ok? ==> r.value.attributes == map[] && r.value.children == Construction(Schemas, name, kwargs).value.0
  {
    r := New(Schemas, name, oldName, ignoreArg, kwargs);
  }

  /** A named schema declared with tables is built holding exactly those tables,
      in order. */
  lemma SchemaOfTables(name: string, tables: seq<DeclaredEntity>)
    requires forall c :: c in tables ==> c.kind == Tables
    ensures var built := Construction(Schemas, Some(name), map[TypeName(Tables) := Entities(tables)]);
            built.Ok? && KidsOf(built.value.0, Tables) == tables &&
            forall t :: t in built.value.0 ==> t == Tables
  {
    var kwargs := map[TypeName(Tables) := Entities(tables)];
    FillSorted(Schemas, DeclaredChildTypes(Schemas), kwargs, map[]);
    assert TypeName(Tables) in ConsumedKeys(Schemas);
    ConstructionSucceeds(Schemas, Some(name), kwargs);
  }

  // ---------------------------------------------------------------------------
  // Databases
  // ---------------------------------------------------------------------------

  /** The recovery models a database accepts, compared lower-cased. */
  const RecoveryModels: set<string> := {"full", "simple", "bulk_logged"}

  /** `'{}'.format(name)`: the name, or `None` for a missing one. */
  function NameText(name: Option<string>): string
  {
    if name.Some? then name.value else "None"
  }

  /** `os.path.join(dir, file)` with POSIX rules: an absolute file name replaces
      the directory; otherwise the two are joined with one `/`. */
  function PosixJoin(dir: string, file: string): (r: string)
    ensures |file| <= |r| && r[|r| - |file|..] == file
    ensures file != [] && file[0] == '/' ==> r == file
  {
    if file != [] && file[0] == '/' then file
    else if dir == [] || dir[|dir| - 1] == '/' then dir + file
    else dir + "/" + file
  }

  /** `s.replace('/', '\\')`. */
  function WindowsSeparators(s: string): (r: string)
    ensures |r| == |s|
    ensures forall i :: 0 <= i < |s| ==> r[i] == if s[i] == '/' then '\\' else s[i]
    ensures '/' !in r
  {
    if s == [] then [] else [if s[0] == '/' then '\\' else s[0]] + WindowsSeparators(s[1..])
  }

  /** Replacing separators is done piecewise, so a path keeps its file name's
      converted form as its suffix. */
  lemma {:induction false} WindowsSeparatorsAppend(a: string, b: string)
    ensures WindowsSeparators(a + b) == WindowsSeparators(a) + WindowsSeparators(b)
  {
    var l := WindowsSeparators(a + b);
    var r := WindowsSeparators(a) + WindowsSeparators(b);
    assert |l| == |r|;
    forall i | 0 <= i < |l| ensures l[i] == r[i] {
      if i < |a| {
        assert (a + b)[i] == a[i];
      } else {
        assert (a + b)[i] == b[i - |a|];
      }
    }
  }

  /** The default log size, a tenth of the data size. Python divides into a float;
      the model keeps the integer quotient. A string, set or tuple cannot be
      divided, and a decimal size is refused as well. */
  function TenthOf(dataSize: Value): (r: Result<Value>)
    ensures r.Fail? <==> !(dataSize.VInt? || dataSize.VBool?)
    ensures r.Fail? ==> r.error == TypeError
    ensures dataSize.VInt? ==> r == Ok(VInt(dataSize.i / 10))
  {
    match dataSize
    case VInt(i) => Ok(VInt(i / 10))
    case VBool(b) => Ok(VInt(0))
    case _ => Fail(TypeError)
  }

  /** The path of a database file: the given file name or the default one, joined
      to the directory, with Windows separators. A directory or file name that is
      not a string cannot be joined. */
  function FilePath(dir: Value, fileName: Value, defaultName: string): (r: Result<Value>)
    ensures r.Fail? <==> !dir.VStr? || (Truthy(fileName) && !fileName.VStr?)
    ensures r.Fail? ==> r.error == TypeError
    ensures r.Ok? ==> r.value.VStr? && '/' !in r.value.s
    ensures r.Ok? ==> var file := if Truthy(fileName) then fileName.s else defaultName;
                      |file| <= |r.value.s| && r.value.s[|r.value.s| - |file|..] == WindowsSeparators(file)
  {
    if !dir.VStr? then Fail(TypeError)
    else
      var file := if Truthy(fileName) then fileName else VStr(defaultName);
      if !file.VStr? then Fail(TypeError)
      else
        var joined := PosixJoin(dir.s, file.s);
        var prefix := joined[..|joined| - |file.s|];
        assert joined == prefix + file.s;
        WindowsSeparatorsAppend(prefix, file.s);
        Ok(VStr(WindowsSeparators(joined)))
  }

  /** The six registry attributes of a database. */
  function DatabaseRecord(owner: Value, dataFilePath: Value, logFilePath: Value, dataSize: Value,
                          logSize: Value, recovery: Value): (r: map<string, Value>)
    ensures r.Keys == set a | a in ValidAttributes(Databases)
  {
    map["recovery_model_desc" := recovery, "data_size" := dataSize, "log_size" := logSize,
        "owner" := owner, "data_file_path" := dataFilePath, "log_file_path" := logFilePath]
  }

  /** The attribute values `Database.__init__` computes: the recovery model is
      validated; when a data file directory is given, a data size is required, the
      log size defaults to a tenth of it and both file paths are built from their
      directories and (default) file names; otherwise both paths are None. */
  function DatabaseAttributes(name: Option<string>, owner: Value, dataFileDir: Value, logFileDir: Value,
                              dataSize: Value, logSize: Value, recovery: Value,
                              dataFileName: Value, logFileName: Value): (r: Result<map<string, Value>>)
    ensures !recovery.VStr? ==> r == Fail(AttributeError)
    ensures recovery.VStr? && Lower(recovery.s) !in RecoveryModels ==> r == Fail(ValueError)
    ensures recovery.VStr? && Lower(recovery.s) in RecoveryModels && dataFileDir != VNone && !Truthy(dataSize) ==>
              r == Fail(ValueError)
    ensures recovery.VStr? && Lower(recovery.s) in RecoveryModels && dataFileDir == VNone ==>
              r == Ok(DatabaseRecord(owner, VNone, VNone, dataSize, logSize, recovery))
    ensures r.Ok? ==> r.value.Keys == set a | a in ValidAttributes(Databases)
  {
    if !recovery.VStr? then Fail(AttributeError)
    else if Lower(recovery.s) !in RecoveryModels then Fail(ValueError)
    else if dataFileDir != VNone then
      if !Truthy(dataSize) then Fail(ValueError)
      else
        var log :- if Truthy(logSize) then Ok(logSize) else TenthOf(dataSize);
        var dataPath :- FilePath(dataFileDir, dataFileName, NameText(name) + ".mdf");
        var logPath :- FilePath(logFileDir, logFileName, NameText(name) + "_log.ldf");
        Ok(DatabaseRecord(owner, dataPath, logPath, dataSize, log, recovery))
    else Ok(DatabaseRecord(owner, VNone, VNone, dataSize, logSize, recovery))
  }

  /** With a data file directory, the attributes hold the given log size or a
      tenth of the data size, and both paths use Windows separators and end in
      their file names, `<name>.mdf` and `<name>_log.ldf` by default. */
  lemma DatabaseFiles(name: Option<string>, owner: Value, dataFileDir: Value, logFileDir: Value,
                      dataSize: Value, logSize: Value, recovery: Value, dataFileName: Value, logFileName: Value)
    requires dataFileDir != VNone
    ensures var r := DatabaseAttributes(name, owner, dataFileDir, logFileDir, dataSize, logSize, recovery,
                                        dataFileName, logFileName);
            var dataPath := FilePath(dataFileDir, dataFileName, NameText(name) + ".mdf");
            var logPath := FilePath(logFileDir, logFileName, NameText(name) + "_log.ldf");
            r.Ok? <==> recovery.VStr? && Lower(recovery.s) in RecoveryModels && Truthy(dataSize) &&
                       (Truthy(logSize) || dataSize.VInt? || dataSize.VBool?) && dataPath.Ok? && logPath.Ok?
    ensures var r := DatabaseAttributes(name, owner, dataFileDir, logFileDir, dataSize, logSize, recovery,
                                        dataFileName, logFileName);
            var dataPath := FilePath(dataFileDir, dataFileName, NameText(name) + ".mdf");
            var logPath := FilePath(logFileDir, logFileName, NameText(name) + "_log.ldf");
            r.Ok? ==>
              dataPath.Ok? && logPath.Ok? &&
              '/' !in dataPath.value.s && '/' !in logPath.value.s &&
              r.value == DatabaseRecord(owner, dataPath.value, logPath.value, dataSize,
                                        if Truthy(logSize) then logSize else TenthOf(dataSize).value, recovery)
  {
  }

  /** A file path given again among the keywords: `Database.__init__` passes both
      paths to the base constructor by name, so Python rejects the call. */
  predicate PathPassedTwice(kwargs: map<string, Arg>)
  {
    "data_file_path" in kwargs || "log_file_path" in kwargs
  }

  /** The keywords with the computed attributes passed alongside them. */
  function WithAttributes(kwargs: map<string, Arg>, attrs: map<string, Value>): (r: map<string, Arg>)
    ensures r.Keys == kwargs.Keys + attrs.Keys
    ensures forall a :: a in attrs ==> r[a] == Val(attrs[a])
    ensures forall k :: k in kwargs && k !in attrs ==> r[k] == kwargs[k]
    ensures forall k :: k in attrs ==> r[k].Val?
  {
    map k | k in kwargs.Keys + attrs.Keys :: if k in attrs then Val(attrs[k]) else kwargs[k]
  }

  /** A database's schemas keyword holding one schema puts that schema first in
      its schemas, whatever the users keyword adds. */
  lemma DatabaseSchemaFirst(kwargs: map<string, Arg>, schema: DeclaredEntity)
    requires TypeName(Schemas) in kwargs && kwargs[TypeName(Schemas)] == Entities([schema])
    requires schema.kind == Schemas
    requires FillChildren(Databases, DeclaredChildTypes(Databases), kwargs, map[]).Ok?
    ensures var m := FillChildren(Databases, DeclaredChildTypes(Databases), kwargs, map[]).value;
            Schemas in m && m[Schemas] != [] && m[Schemas][0] == schema
  {
    AddAllSameKind(Databases, map[], [schema], Schemas);
    var m1: map<EntityType, seq<DeclaredEntity>> := map[Schemas := [schema]];
    assert ChildEntities(kwargs[TypeName(Schemas)]) == Ok([schema]);
    assert KidsOf(map[], Schemas) + [schema] == [schema];
    assert AddAll(Databases, map[], [schema]) == Ok(m1);
    assert AddKeyword(Databases, Schemas, kwargs, map[]) == Ok(m1);
    assert FillChildren(Databases, DeclaredChildTypes(Databases), kwargs, map[])
        == FillChildren(Databases, [Users], kwargs, m1);
    FillChildrenExtends(Databases, [Users], kwargs, m1);
    assert KidsOf(m1, Schemas) == [schema];
  }

  /** A schema built from a tables keyword alone holds exactly the entities given,
      in order. */
  lemma SchemaTables(name: string, tables: Arg)
    requires Construction(Schemas, Some(name), map[TypeName(Tables) := tables]).Ok?
    ensures KidsOf(Construction(Schemas, Some(name), map[TypeName(Tables) := tables]).value.0, Tables)
            == ArgEntities(tables)
  {
    var kwargs := map[TypeName(Tables) := tables];
    var es := ArgEntities(tables);
    assert FillChildren(Schemas, DeclaredChildTypes(Schemas), kwargs, map[])
        == FillChildren(Schemas, [], kwargs, AddKeyword(Schemas, Tables, kwargs, map[]).value);
    AddAllChildTypes(Schemas, map[], es);
    AddAllSameKind(Schemas, map[], es, Tables);
  }

  /** The `tables` shorthand: truthy tables become the schemas keyword, holding a
      new schema `dbo` with those tables, which cannot be combined with a schemas
      keyword already given. */
  method ShorthandKeywords(tables: Arg, kwargs: map<string, Arg>) returns (r: Result<map<string, Arg>>)
    requires forall k, c :: k in kwargs && c in ArgEntities(kwargs[k]) ==> c.Valid() && c.Ranked()
    requires forall c :: c in ArgEntities(tables) ==> c.Valid() && c.Ranked()
    ensures !ArgTruthy(tables) ==> r == Ok(kwargs)
    ensures ArgTruthy(tables) && TypeName(Schemas) in kwargs ==> r == Fail(ValueError)
    ensures ArgTruthy(tables) && r.Ok? ==>
              TypeName(Schemas) !in kwargs && r.value.Keys == kwargs.Keys + {TypeName(Schemas)} &&
              (forall k :: k in kwargs ==> r.value[k] == kwargs[k]) &&
              r.value[TypeName(Schemas)].Entities? && |r.value[TypeName(Schemas)].es| == 1
    ensures ArgTruthy(tables) && r.Ok? ==>
              var s := r.value[TypeName(Schemas)].es[0];
              fresh(s) && s.kind == Schemas && s.name == "dbo" && KidsOf(s.children, Tables) == ArgEntities(tables)
    ensures r.Ok? ==> forall k, c :: k in r.value && c in ArgEntities(r.value[k]) ==> c.Valid() && c.Ranked()
  {
    if !ArgTruthy(tables) {
      return Ok(kwargs);
    }
    if TypeName(Schemas) in kwargs {
      return Fail(ValueError);
    }
    var schema :- NewSchema(Some("dbo"), None, VNone, map[TypeName(Tables) := tables]);
    SchemaTables("dbo", tables);
    r := Ok(kwargs[TypeName(Schemas) := Entities([schema])]);
  }

  /** `Database(...)` once its attributes are computed: the tables shorthand, then
      a file path given again among the keywords is passed twice; the rest is the
      base constructor's. */
  method BuildDatabase(name: Option<string>, attrs: map<string, Value>, tables: Arg,
                       oldName: Option<string>, ignoreArg: Value, kwargs: map<string, Arg>)
    returns (r: Result<DeclaredEntity>)
    requires attrs.Keys == set a | a in ValidAttributes(Databases)
    requires forall k, c :: k in kwargs && c in ArgEntities(kwargs[k]) ==> c.Valid() && c.Ranked()
    requires forall c :: c in ArgEntities(tables) ==> c.Valid() && c.Ranked()
    ensures ArgTruthy(tables) && TypeName(Schemas) in kwargs ==> r == Fail(ValueError)
    ensures PathPassedTwice(kwargs) ==> r.Fail?
    ensures !ArgTruthy(tables) && PathPassedTwice(kwargs) ==> r == Fail(TypeError)
    ensures !ArgTruthy(tables) && !PathPassedTwice(kwargs) ==>
              var built := Construction(Databases, name, WithAttributes(kwargs, attrs));
              (r.Fail? <==> built.Fail?) && (r.Fail? ==> r.error == built.error) &&
              (r.Ok? ==> r.value.children == built.value.0)
    ensures r.Ok? ==> fresh(r.value) && r.value.Valid() && r.value.Ranked() && r.value.WellTyped()
    ensures r.Ok? ==> name.Some? && r.value.kind == Databases && r.value.name == TruncateName(name.value)
    ensures r.Ok? ==> r.value.attributes == attrs
    ensures r.Ok? && ArgTruthy(tables) ==>
              Schemas in r.value.children && fresh(r.value.children[Schemas][0]) &&
              r.value.children[Schemas][0].name == "dbo" &&
              KidsOf(r.value.children[Schemas][0].children, Tables) == ArgEntities(tables)
  {
    var kw :- ShorthandKeywords(tables, kwargs);
    if PathPassedTwice(kwargs) {
      return Fail(TypeError);
    }
    if !ArgTruthy(tables) {
      r := NewDatabaseNode(name, attrs, oldName, ignoreArg, kw);
    } else {
      var schema := kw[TypeName(Schemas)].es[0];
      assert fresh(schema) && schema.name == "dbo" && KidsOf(schema.children, Tables) == ArgEntities(tables);
      r := NewDatabaseWithSchema(name, attrs, oldName, ignoreArg, kw, schema);
    }
  }

  /** A database whose schemas keyword holds just the schema the tables shorthand
      made: that schema comes first among its schemas. */
  method NewDatabaseWithSchema(name: Option<string>, attrs: map<string, Value>, oldName: Option<string>,
                               ignoreArg: Value, kwargs: map<string, Arg>, schema: DeclaredEntity)
    returns (r: Result<DeclaredEntity>)
    requires attrs.Keys == set a | a in ValidAttributes(Databases)
    requires forall k, c :: k in kwargs && c in ArgEntities(kwargs[k]) ==> c.Valid() && c.Ranked()
    requires TypeName(Schemas) in kwargs && kwargs[TypeName(Schemas)] == Entities([schema]) && schema.kind == Schemas
    ensures r.Ok? ==> fresh(r.value) && r.value.Valid() && r.value.Ranked() && r.value.WellTyped()
    ensures r.Ok? ==> name.Some? && r.value.kind == Databases && r.value.name == TruncateName(name.value)
    ensures r.Ok? ==> r.value.attributes == attrs
    ensures r.Ok? ==> Schemas in r.value.children && r.value.children[Schemas] != [] && r.value.children[Schemas][0] == schema
  {
    r := NewDatabaseNode(name, attrs, oldName, ignoreArg, kwargs);
    if r.Ok? {
      ChildKeysAreNotAttributes(Databases, Schemas);
      DatabaseSchemaFirst(WithAttributes(kwargs, attrs), schema);
    }
  }

  /** The base constructor of a database, given its attributes alongside the
      keywords. */
  method NewDatabaseNode(name: Option<string>, attrs: map<string, Value>, oldName: Option<string>,
                         ignoreArg: Value, kwargs: map<string, Arg>)
    returns (r: Result<DeclaredEntity>)
    requires attrs.Keys == set a | a in ValidAttributes(Databases)
    requires forall k, c :: k in kwargs && c in ArgEntities(kwargs[k]) ==> c.Valid() && c.Ranked()
    ensures var built := Construction(Databases, name, WithAttributes(kwargs, attrs));
            (r.Fail? <==> built.Fail?) && (r.Fail? ==> r.error == built.error) &&
            (r.Ok? ==> r.value.children == built.value.0)
    ensures r.Ok? ==> fresh(r.value) && r.value.Valid() && r.value.Ranked() && r.value.WellTyped()
    ensures r.Ok? ==> name.Some? && r.value.kind == Databases && r.value.name == TruncateName(name.value)
    ensures r.Ok? ==> r.value.attributes == attrs
  {
    var args := WithAttributes(kwargs, attrs);
    r := New(Databases, name, oldName, ignoreArg, args);
    if r.Ok? {
      forall a | a in attrs ensures r.value.attributes[a] == attrs[a] {
        assert a in ValidAttributes(Databases);
      }
    }
  }

  /** `Database(...)`: the attributes are computed and checked first, then the
      database is built from them. */
  method NewDatabase(name: Option<string>, owner: Value, dataFileDir: Value, logFileDir: Value,
                     dataSize: Value, logSize: Value, recovery: Value, dataFileName: Value,
                     logFileName: Value, tables: Arg, oldName: Option<string>, ignoreArg: Value,
                     kwargs: map<string, Arg>)
    returns (r: Result<DeclaredEntity>)
    requires forall k, c :: k in kwargs && c in ArgEntities(kwargs[k]) ==> c.Valid() && c.Ranked()
    requires forall c :: c in ArgEntities(tables) ==> c.Valid() && c.Ranked()
    ensures var attrs := DatabaseAttributes(name, owner, dataFileDir, logFileDir, dataSize, logSize,
                                            recovery, dataFileName, logFileName);
            attrs.Fail? ==> r == Fail(attrs.error)
    ensures var attrs := DatabaseAttributes(name, owner, dataFileDir, logFileDir, dataSize, logSize,
                                            recovery, dataFileName, logFileName);
            attrs.Ok? && ArgTruthy(tables) && TypeName(Schemas) in kwargs ==> r == Fail(ValueError)
    ensures PathPassedTwice(kwargs) ==> r.Fail?
    ensures r.Ok? ==> fresh(r.value) && r.value.Valid() && r.value.Ranked() && r.value.WellTyped()
    ensures r.Ok? ==> name.Some? && r.value.kind == Databases && r.value.name == TruncateName(name.value)
    ensures r.Ok? ==> DatabaseAttributes(name, owner, dataFileDir, logFileDir, dataSize, logSize, recovery,
                                         dataFileName, logFileName) == Ok(r.value.attributes)
    ensures r.Ok? && ArgTruthy(tables) ==>
              Schemas in r.value.children && fresh(r.value.children[Schemas][0]) &&
              r.value.children[Schemas][0].name == "dbo" &&
              KidsOf(r.value.children[Schemas][0].children, Tables) == ArgEntities(tables)
  {
    var attrs := DatabaseAttributes(name, owner, dataFileDir, logFileDir, dataSize, logSize, recovery,
                                    dataFileName, logFileName);
    r := BuildFromAttributes(name, attrs, tables, oldName, ignoreArg, kwargs);
  }

  /** The rest of `Database(...)` once its attributes are computed: their error,
      or the database built from them. */
  method BuildFromAttributes(name: Option<string>, attrs: Result<map<string, Value>>, tables: Arg,
                             oldName: Option<string>, ignoreArg: Value, kwargs: map<string, Arg>)
    returns (r: Result<DeclaredEntity>)
    requires attrs.Ok? ==> attrs.value.Keys == set a | a in ValidAttributes(Databases)
    requires forall k, c :: k in kwargs && c in ArgEntities(kwargs[k]) ==> c.Valid() && c.Ranked()
    requires forall c :: c in ArgEntities(tables) ==> c.Valid() && c.Ranked()
    ensures attrs.Fail? ==> r == Fail(attrs.error)
    ensures attrs.Ok? && ArgTruthy(tables) && TypeName(Schemas) in kwargs ==> r == Fail(ValueError)
    ensures PathPassedTwice(kwargs) ==> r.Fail?
    ensures r.Ok? ==> fresh(r.value) && r.value.Valid() && r.value.Ranked() && r.value.WellTyped()
    ensures r.Ok? ==> name.Some? && r.value.kind == Databases && r.value.name == TruncateName(name.value)
    ensures r.Ok? ==> attrs == Ok(r.value.attributes)
    ensures r.Ok? && ArgTruthy(tables) ==>
              Schemas in r.value.children && fresh(r.value.children[Schemas][0]) &&
              r.value.children[Schemas][0].name == "dbo" &&
              KidsOf(r.value.children[Schemas][0].children, Tables) == ArgEntities(tables)
  {
    if attrs.Fail? {
      return Fail(attrs.error);
    }
    r := BuildDatabase(name, attrs.value, tables, oldName, ignoreArg, kwargs);
  }

  // ---------------------------------------------------------------------------
  // Database shortcuts
  // ---------------------------------------------------------------------------

  /** `Database.get_table`: the first schema of that name, then its first table of
      that name. A database without schemas fails with TypeError, as `get_child`
      does. */
  function GetTable(db: DeclaredEntity, tableName: string, schemaName: string): (r: Result<DeclaredEntity>)
    reads db, db.Repr
    requires db.Valid()
    ensures Schemas !in db.children ==> r == Fail(TypeError)
    ensures r.Ok? ==> r.value.name == tableName
  {
    match db.GetChild(Schemas, schemaName)
    case Fail(e) => Fail(e)
    case Ok(schema) => schema.GetChild(Tables, tableName)
  }

  /** Appending an entity does not change the first match of a name already
      present, and makes the entity the first match of a name that was missing. */
  lemma FirstNamedAppend(cs: seq<DeclaredEntity>, c: DeclaredEntity, childName: string)
    ensures FirstNamed(cs + [c], childName) ==
            if FirstNamed(cs, childName).Some? then FirstNamed(cs, childName)
            else if c.name == childName then Some(|cs|)
            else None
  {
    var ds := cs + [c];
    assert forall j :: 0 <= j < |cs| ==> ds[j] == cs[j];
    match FirstNamed(cs, childName)
    case Some(i) =>
      assert FirstNamed(ds, childName) == Some(i);
    case None =>
      assert ds[|cs|] == c;
  }

  /** Adds a table to one of the schemas of a database and widens the database's
      footprint to the table's subtree. The schema's first table of the new
      table's name stays what it was, or becomes the new table. */
  method AddToSchema(db: DeclaredEntity, schema: DeclaredEntity, table: DeclaredEntity) returns (r: Outcome)
    requires db.Valid() && db.Ranked() && db.WellTyped() && db.kind == Databases
    requires Schemas in db.children && schema in db.children[Schemas]
    requires table.Ranked() && (table.kind == Tables ==> table.Valid())
    modifies schema`children, schema`Repr, db`Repr
    ensures db.Valid() && db.WellTyped() && db.children == old(db.children)
    ensures r.Failed? <==> table.kind != Tables
    ensures r.Failed? ==> r.error == InvalidDBEntityChild && schema.children == old(schema.children)
    ensures r.Pass? ==>
              schema.children == old(schema.children)[Tables := KidsOf(old(schema.children), Tables) + [table]]
    ensures r.Pass? ==>
              schema.GetChild(Tables, table.name) ==
              if old(schema.GetChild(Tables, table.name)).Ok? then old(schema.GetChild(Tables, table.name))
              else Ok(table)
  {
    if table.kind !in DeclaredChildTypes(schema.kind) {
      return Failed(InvalidDBEntityChild);
    }
    ghost var tables := KidsOf(schema.children, Tables);
    AppendBelow(db, schema, table);
    FirstNamedAppend(tables, table, table.name);
    r := Pass;
  }

  /** Appends a table to one of the schemas of a database and widens the
      database's footprint to the table's subtree; no other node changes. */
  method AppendBelow(db: DeclaredEntity, schema: DeclaredEntity, table: DeclaredEntity)
    requires db.Valid() && db.WellTyped() && db.kind == Databases && db.Ranked()
    requires Schemas in db.children && schema in db.children[Schemas]
    requires table.Valid() && table.Ranked() && table.kind == Tables
    modifies schema`children, schema`Repr, db`Repr
    ensures db.Valid() && db.children == old(db.children)
    ensures schema.children == old(schema.children)[Tables := KidsOf(old(schema.children), Tables) + [table]]
  {
    assert schema.Ranked() && schema.height == Level(Schemas);
    forall t, c | t in db.children && c in db.children[t] && c != schema
      ensures schema !in c.Repr
    {
      assert c.Valid() && c.height < db.height;
    }
    schema.Append(table);
    assert db !in table.Repr;
    db.Repr := db.Repr + table.Repr;
    forall t, c | t in db.children && c in db.children[t]
      ensures c.Valid() && c.Repr <= db.Repr && db !in c.Repr
    {
    }
  }

  /** `Schema(name)` added to a database that has no schema of that name: it
      becomes the first schema of that name, the last in the list. */
  method AddSchema(db: DeclaredEntity, schemaName: string) returns (schema: DeclaredEntity)
    requires db.Valid() && db.Ranked() && db.WellTyped() && db.kind == Databases
    requires db.GetChild(Schemas, schemaName).Fail?
    modifies db`children, db`Repr
    ensures db.Valid() && db.WellTyped() && fresh(schema)
    ensures schema.kind == Schemas && schema.name == TruncateName(schemaName) && schema.children == map[]
    ensures db.children == old(db.children)[Schemas := KidsOf(old(db.children), Schemas) + [schema]]
    ensures TruncateName(schemaName) == schemaName ==> db.GetChild(Schemas, schemaName) == Ok(schema)
  {
    FillChildrenAbsentOf(Schemas, DeclaredChildTypes(Schemas), map[], map[]);
    ConstructionSucceeds(Schemas, Some(schemaName), map[]);
    var created := NewSchema(Some(schemaName), None, VNone, map[]);
    schema := created.value;
    FirstNamedAppend(KidsOf(db.children, Schemas), schema, schemaName);
    var added := db.AddChild(schema);
  }

  /** `Database.add_table` as evidently intended: the table goes into the first
      schema of that name, which is created when the database has none of that
      name, including when it has no schemas at all. A lookup that found a table
      before still finds the same one; one that found none now finds the new
      table. `schema` is the schema the table goes into: the table is appended to
      its tables even beside a table of the same name, a new schema stays when the
      table is refused, and no other node's children change. */
  method AddTable(db: DeclaredEntity, table: DeclaredEntity, schemaName: string)
    returns (r: Outcome, ghost schema: DeclaredEntity)
    requires db.Valid() && db.Ranked() && db.WellTyped() && db.kind == Databases
    requires table.Valid() && table.Ranked()
    modifies db.Repr`children, db.Repr`Repr
    ensures db.Valid() && db.WellTyped()
    ensures r.Failed? <==> table.kind != Tables
    ensures r.Failed? ==> r.error == InvalidDBEntityChild
    ensures Schemas in db.children && schema in db.children[Schemas] && schema.kind == Schemas
    ensures var found := old(db.GetChild(Schemas, schemaName));
            found.Ok? ==>
              schema == found.value && db.children == old(db.children) &&
              schema.children == if r.Pass? then old(found.value.children)[Tables := old(KidsOf(found.value.children, Tables)) + [table]]
                                 else old(found.value.children)
    ensures old(db.GetChild(Schemas, schemaName)).Fail? ==>
              fresh(schema) && schema.name == TruncateName(schemaName) &&
              db.children == old(db.children)[Schemas := old(KidsOf(db.children, Schemas)) + [schema]] &&
              schema.children == if r.Pass? then map[Tables := [table]] else map[]
    ensures forall n :: n in old(db.Repr) && n != db && n != schema ==> n.children == old(n.children)
    ensures forall t :: t != Schemas ==> KidsOf(db.children, t) == old(KidsOf(db.children, t))
    ensures r.Pass? && old(GetTable(db, table.name, schemaName)).Ok? ==>
              GetTable(db, table.name, schemaName) == old(GetTable(db, table.name, schemaName))
    ensures r.Pass? && TruncateName(schemaName) == schemaName ==>
              GetTable(db, table.name, schemaName) ==
              if old(GetTable(db, table.name, schemaName)).Ok? then old(GetTable(db, table.name, schemaName))
              else Ok(table)
  {
    ghost var before := GetTable(db, table.name, schemaName);
    var found := db.GetChild(Schemas, schemaName);
    var target;
    if found.Ok? {
      target := found.value;
      assert before == target.GetChild(Tables, table.name);
      r := AddToSchema(db, target, table);
      assert db.GetChild(Schemas, schemaName) == Ok(target);
    } else {
      r, target := AddToNewSchema(db, table, schemaName);
    }
    schema := target;
  }

  /** `add_table` on a database without a schema of that name: `Schema(name)` is
      appended to the schemas, and the table becomes its only table unless it is
      refused, when the new schema stays empty. */
  method AddToNewSchema(db: DeclaredEntity, table: DeclaredEntity, schemaName: string)
    returns (r: Outcome, schema: DeclaredEntity)
    requires db.Valid() && db.Ranked() && db.WellTyped() && db.kind == Databases
    requires table.Valid() && table.Ranked()
    requires db.GetChild(Schemas, schemaName).Fail?
    modifies db`children, db`Repr
    ensures db.Valid() && db.WellTyped() && fresh(schema)
    ensures r.Failed? <==> table.kind != Tables
    ensures r.Failed? ==> r.error == InvalidDBEntityChild
    ensures schema.kind == Schemas && schema.name == TruncateName(schemaName)
    ensures db.children == old(db.children)[Schemas := old(KidsOf(db.children, Schemas)) + [schema]]
    ensures schema.children == if r.Pass? then map[Tables := [table]] else map[]
    ensures TruncateName(schemaName) == schemaName ==> db.GetChild(Schemas, schemaName) == Ok(schema)
    ensures r.Pass? ==> schema.GetChild(Tables, table.name) == Ok(table)
  {
    assert table.kind == Tables ==> db !in table.Repr;
    schema := AddSchema(db, schemaName);
    ghost var empty := schema.children;
    assert empty == map[] && KidsOf(empty, Tables) + [table] == [table];
    assert empty[Tables := [table]] == map[Tables := [table]];
    r := AddToSchema(db, schema, table);
  }

  /** `Database.add_table` as written: the lookup of the schema only recovers from
      a missing name, so on a database without any schema the iteration over no
      schema list fails with TypeError and nothing is added; otherwise it behaves
      as `AddTable`. */
  method AddTableAsWritten(db: DeclaredEntity, table: DeclaredEntity, schemaName: string) returns (r: Outcome)
    requires db.Valid() && db.Ranked() && db.WellTyped() && db.kind == Databases
    requires table.Valid() && table.Ranked()
    modifies db.Repr`children, db.Repr`Repr
    ensures db.Valid() && db.WellTyped()
    ensures Schemas !in old(db.children) ==> r == Failed(TypeError) && db.children == old(db.children)
    ensures Schemas in old(db.children) ==> (r.Failed? <==> table.kind != Tables)
    ensures r.Pass? && TruncateName(schemaName) == schemaName ==>
              GetTable(db, table.name, schemaName) ==
              if old(GetTable(db, table.name, schemaName)).Ok? then old(GetTable(db, table.name, schemaName))
              else Ok(table)
  {
    if Schemas !in db.children {
      return Failed(TypeError);
    }
    ghost var schema;
    r, schema := AddTable(db, table, schemaName);
  }

  // ---------------------------------------------------------------------------
  // Server
  // ---------------------------------------------------------------------------

  /** `Server(**kwargs)`: an unnamed node of logins and databases; a `name`
      keyword would be given twice. */
  method NewServer(oldName: Option<string>, ignoreArg: Value, kwargs: map<string, Arg>)
    returns (r: Result<DeclaredEntity>)
    requires forall k, c :: k in kwargs && c in ArgEntities(kwargs[k]) ==> c.Valid() && c.Ranked()
    ensures "name" in kwargs ==> r == Fail(TypeError)
    ensures "name" !in kwargs ==> (r.Fail? <==> Construction(Servers, Some(""), kwargs).Fail?)
    ensures "name" !in kwargs && r.Fail? ==> r.error == Construction(Servers, Some(""), kwargs).error
    ensures r.Ok? ==> fresh(r.value) && r.value.Valid() && r.value.Ranked() && r.value.WellTyped()
    ensures r.Ok? ==> r.value.kind == Servers && r.value.name == ""
    ensures r.Ok? ==> r.value.children == Construction(Servers, Some(""), kwargs).value.0
  {
    if "name" in kwargs {
      return Fail(TypeError);
    }
    r := New(Servers, Some(""), oldName, ignoreArg, kwargs);
  }
}
