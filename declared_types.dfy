/** The declared entity classes: each builds the keyword arguments of the generic
    constructor from its own parameters, adding defaults, derived values and its
    own validation, and then constructs the node with `Declared.New`. Keywords that
    name a parameter of a class bind to that parameter, so they never appear among
    the extra keywords a factory passes on. */
module DeclaredTypes {
  import opened Values
  import opened Attributes
  import opened Declared

  // ---------------------------------------------------------------------------
  // Iterating values
  // ---------------------------------------------------------------------------

  /** The one-character strings of a string, in order (iterating a Python `str`). */
  function Chars(s: string): (r: seq<string>)
    ensures |r| == |s|
    ensures forall i :: 0 <= i < |s| ==> r[i] == [s[i]]
  {
    if s == [] then [] else [[s[0]]] + Chars(s[1..])
  }

  /** The elements a value yields when iterated, as a set; None for a value that is
      not iterable. */
  function ItemsOf(v: Value): (r: Option<set<string>>)
    ensures r.None? <==> v.VNone? || v.VBool? || v.VInt? || v.VDecimal?
    ensures v.VTuple? ==> r == Some(set x | x in v.elems)
    ensures v.VSet? ==> r == Some(v.items)
  {
    match v
    case VStr(s) => Some(set x | x in Chars(s))
    case VTuple(elems) => Some(set x | x in elems)
    case VSet(items) => Some(items)
    case _ => None
  }

  /** The elements of a set in some order: the iteration order of a Python set is
      not specified, so any order is allowed. */
  method Enumerate(s: set<string>) returns (r: seq<string>)
    ensures forall x :: x in r <==> x in s
    ensures NoDuplicates(r)
  {
    r := [];
    var rest := s;
    while rest != {}
      invariant rest <= s
      invariant forall x :: x in r ==> x in s && x !in rest
      invariant forall x :: x in s ==> x in r || x in rest
      invariant NoDuplicates(r)
      decreases |rest|
    {
      var x :| x in rest;
      r := r + [x];
      rest := rest - {x};
    }
  }

  /** Iterating a value as a collection of names: a string yields its characters, a
      tuple its elements in order, a set its elements in an unspecified order; None,
      booleans and integers are not iterable (TypeError). */
  method IterateNames(v: Value) returns (r: Result<seq<string>>)
    ensures r.Fail? <==> ItemsOf(v).None?
    ensures r.Fail? ==> r.error == TypeError
    ensures r.Ok? ==> forall x :: x in r.value <==> x in ItemsOf(v).value
    ensures v.VTuple? ==> r == Ok(v.elems)
    ensures v.VStr? ==> r == Ok(Chars(v.s))
  {
    match v
    case VStr(s) => r := Ok(Chars(s));
    case VTuple(elems) => r := Ok(elems);
    case VSet(items) =>
      var order := Enumerate(items);
      r := Ok(order);
    case _ => r := Fail(TypeError);
  }

  /** `set(x or set())`, the role sets of users and logins: a falsy value gives the
      empty set, an iterable its elements; a truthy integer or True is not
      iterable. */
  function RoleSet(v: Value): (r: Result<set<string>>)
    ensures !Truthy(v) ==> r == Ok({})
    ensures r.Fail? <==> Truthy(v) && ItemsOf(v).None?
    ensures r.Fail? ==> r.error == TypeError
    ensures r.Ok? && Truthy(v) ==> r.value == ItemsOf(v).value
    ensures v.VSet? ==> r == Ok(v.items)
    ensures v.VTuple? ==> r == Ok(set x | x in v.elems)
  {
    if !Truthy(v) then
      assert v.VTuple? ==> (set x | x in v.elems) == {} by {
        if v.VTuple? { assert v.elems == []; }
      }
      Ok({})
    else
      match ItemsOf(v)
      case None => Fail(TypeError)
      case Some(items) => Ok(items)
  }

  /** The lower-cased elements of an iterable, as a set. */
  function LoweredSet(v: Value): (r: Result<set<string>>)
    ensures r.Fail? <==> ItemsOf(v).None?
    ensures r.Ok? ==> forall x :: x in r.value <==> exists y :: y in ItemsOf(v).value && x == Lower(y)
  {
    match ItemsOf(v)
    case None => Fail(TypeError)
    case Some(items) => Ok(set y | y in items :: Lower(y))
  }

  /** A leaf node built from plain keyword values: it succeeds exactly when it is
      named, every registry attribute is given and no other keyword is, and then
      holds those values and no children. */
  method NewPlain(kind: EntityType, name: Option<string>, oldName: Option<string>, ignoreArg: Value,
                  kwargs: map<string, Value>)
    returns (r: Result<DeclaredEntity>)
    requires DeclaredChildTypes(kind) == []
    ensures name.None? ==> r == Fail(DBError)
    ensures name.Some? ==> (r.Ok? <==> kwargs.Keys == set a | a in ValidAttributes(kind))
    ensures r.Ok? ==> fresh(r.value) && r.value.Valid() && r.value.Ranked() && r.value.WellTyped()
    ensures r.Ok? ==> r.value.kind == kind && r.value.name == TruncateName(name.value)
    ensures r.Ok? ==> r.value.oldName == oldName && r.value.ignore == NormalizeIgnore(ignoreArg)
    ensures r.Ok? ==> r.value.children == map[] && r.value.attributes == kwargs
  {
    PlainNoEntities(kwargs);
    if name.Some? && kwargs.Keys == set a | a in ValidAttributes(kind) {
      LeafConstruction(kind, name, kwargs);
    }
    r := New(kind, name, oldName, ignoreArg, Plain(kwargs));
  }

  /** A leaf node built from its registry attributes has exactly those attributes
      and no children; construction fails only for a missing name. */
  method NewLeaf(kind: EntityType, name: Option<string>, oldName: Option<string>, ignoreArg: Value,
                 attrs: map<string, Value>)
    returns (r: Result<DeclaredEntity>)
    requires attrs.Keys == set a | a in ValidAttributes(kind)
    requires DeclaredChildTypes(kind) == []
    ensures r.Fail? <==> name.None?
    ensures r.Fail? ==> r.error == DBError
    ensures r.Ok? ==> fresh(r.value) && r.value.Valid() && r.value.Ranked() && r.value.WellTyped()
    ensures r.Ok? ==> r.value.kind == kind && r.value.name == TruncateName(name.value)
    ensures r.Ok? ==> r.value.oldName == oldName && r.value.ignore == NormalizeIgnore(ignoreArg)
    ensures r.Ok? ==> r.value.children == map[] && r.value.attributes == attrs
  {
    r := NewPlain(kind, name, oldName, ignoreArg, attrs);
  }

  // ---------------------------------------------------------------------------
  // Columns
  // ---------------------------------------------------------------------------

  /** The column classes, with the parameters each takes besides the name. A
      `DateTimeColumn` without an explicit precision gets 7. */
  datatype ColumnClass =
    | PlainColumn(dataType: string)
    | IntegerColumn
    | FloatColumn(small: bool)
    | VarcharColumn(charMaxLen: Value)
    | DateColumn
    | DateTimeColumn(precision: Option<Value>)
    | IdentityColumn
    | NumericColumn(numericPrecision: int, numericScale: int)

  const DefaultDateTimePrecision: int := 7

  /** The optional keywords of `Column.__init__`, with their defaults. */
  const ColumnDefaults: map<string, Value> :=
    map["identity" := VBool(false), "nullable" := VBool(false), "char_max_len" := VNone,
        "datetime_precision" := VNone, "numeric_precision" := VNone, "numeric_scale" := VNone]

  /** The data type each class passes to `Column.__init__`. */
  function ColumnDataType(cls: ColumnClass): string
  {
    match cls
    case PlainColumn(t) => t
    case IntegerColumn => "int"
    case FloatColumn(_) => "float"
    case VarcharColumn(_) => "varchar"
    case DateColumn => "date"
    case DateTimeColumn(_) => "datetime2"
    case IdentityColumn => "int"
    case NumericColumn(_, _) => "numeric"
  }

  /** The optional keywords a class sets itself; passing one of them again is a
      TypeError (a keyword given twice). */
  function FixedOptions(cls: ColumnClass): (r: map<string, Value>)
    ensures r.Keys <= ColumnDefaults.Keys
  {
    match cls
    case FloatColumn(small) => map["numeric_precision" := VInt(if small then 24 else 53)]
    case VarcharColumn(n) => map["char_max_len" := n]
    case DateTimeColumn(p) =>
      map["datetime_precision" := if p.Some? then p.value else VInt(DefaultDateTimePrecision)]
    case IdentityColumn => map["identity" := VBool(true), "nullable" := VBool(false)]
    case NumericColumn(p, s) => map["numeric_precision" := VInt(p), "numeric_scale" := VInt(s)]
    case _ => map[]
  }

  /** A keyword the class does not accept: not an option of `Column`, or one the
      class already sets. */
  predicate RejectedKeyword(cls: ColumnClass, k: string)
  {
    k !in ColumnDefaults || k in FixedOptions(cls)
  }

  /** One optional keyword of a column: the class's own setting, else the extra
      keyword, else the default. */
  function ColumnOption(cls: ColumnClass, extra: map<string, Value>, k: string): Value
    requires k in ColumnDefaults
  {
    if k in FixedOptions(cls) then FixedOptions(cls)[k]
    else if k in extra then extra[k]
    else ColumnDefaults[k]
  }

  /** A keyword that repeats a parameter of the class's own constructor (the name,
      or a setting the class passes itself): Python refuses the call with TypeError
      before the constructor body runs. */
  predicate RepeatedParameter(cls: ColumnClass, k: string)
  {
    k == "name" || k in FixedOptions(cls)
  }

  /** The registry attributes of a column of class `cls` given the extra keywords:
      the class's data type, its own settings, the extra keywords and the defaults,
      in that priority. A keyword that repeats one of the class's parameters is a
      TypeError at the call; then a numeric column whose scale is not below its
      precision is a ValueError, raised in NumericColumn's body before
      `Column.__init__` sees the keywords; then any other keyword `Column` does not
      accept is a TypeError. */
  function ColumnAttributes(cls: ColumnClass, extra: map<string, Value>): (r: Result<map<string, Value>>)
    ensures r.Fail? <==> (exists k :: k in extra && RejectedKeyword(cls, k))
                         || (cls.NumericColumn? && cls.numericScale >= cls.numericPrecision)
    ensures (exists k :: k in extra && RepeatedParameter(cls, k)) ==> r == Fail(TypeError)
    ensures cls.NumericColumn? && cls.numericScale >= cls.numericPrecision ==>
              ((forall k :: k in extra ==> !RepeatedParameter(cls, k)) ==> r == Fail(ValueError))
    ensures r.Fail? && !(cls.NumericColumn? && cls.numericScale >= cls.numericPrecision) ==> r.error == TypeError
    ensures r.Ok? ==> r.value.Keys == ColumnDefaults.Keys + {"data_type"}
    ensures r.Ok? ==> r.value["data_type"] == VStr(ColumnDataType(cls))
    ensures r.Ok? ==> forall k :: k in ColumnDefaults ==> r.value[k] == ColumnOption(cls, extra, k)
  {
    if exists k :: k in extra && RepeatedParameter(cls, k) then Fail(TypeError)
    else if cls.NumericColumn? && cls.numericScale >= cls.numericPrecision then Fail(ValueError)
    else if exists k :: k in extra && RejectedKeyword(cls, k) then Fail(TypeError)
    else
      Ok(map["data_type" := VStr(ColumnDataType(cls)),
             "char_max_len" := ColumnOption(cls, extra, "char_max_len"),
             "datetime_precision" := ColumnOption(cls, extra, "datetime_precision"),
             "numeric_precision" := ColumnOption(cls, extra, "numeric_precision"),
             "numeric_scale" := ColumnOption(cls, extra, "numeric_scale"),
             "nullable" := ColumnOption(cls, extra, "nullable"),
             "identity" := ColumnOption(cls, extra, "identity")])
  }

  /** The column attribute names are exactly the registry's list for columns. */
  lemma ColumnAttributeNames()
    ensures ColumnDefaults.Keys + {"data_type"} == set a | a in ValidAttributes(Columns)
  {
  }

  /** An extra keyword a column accepts is kept as given. */
  lemma ColumnExtraKept(cls: ColumnClass, extra: map<string, Value>, k: string)
    requires ColumnAttributes(cls, extra).Ok?
    requires k in extra
    ensures k in ColumnDefaults && ColumnAttributes(cls, extra).value[k] == extra[k]
  {
  }

  /** What the column subclasses promise: a small float has precision 24 and a large
      one 53, a datetime column defaults to precision 7, an identity column is an
      integer identity column that is not nullable, and a numeric column is
      accepted exactly when its scale is below its precision. */
  lemma ColumnClassSettings(cls: ColumnClass, extra: map<string, Value>)
    requires forall k :: k in extra ==> !RejectedKeyword(cls, k)
    ensures cls.NumericColumn? ==>
              (ColumnAttributes(cls, extra).Fail? <==> cls.numericScale >= cls.numericPrecision)
    ensures !cls.NumericColumn? ==> ColumnAttributes(cls, extra).Ok?
    ensures cls.FloatColumn? ==>
              ColumnAttributes(cls, extra).value["numeric_precision"] == VInt(if cls.small then 24 else 53)
    ensures cls == DateTimeColumn(None) ==>
              ColumnAttributes(cls, extra).value["datetime_precision"] == VInt(7)
    ensures cls == IdentityColumn ==>
              var a := ColumnAttributes(cls, extra).value;
              a["data_type"] == VStr("int") && a["identity"] == VBool(true) && a["nullable"] == VBool(false)
  {
  }

  /** `Column` and its subclasses. The old name is Column's `old_name` keyword;
      columns take no other constructor keywords. */
  method NewColumn(cls: ColumnClass, name: Option<string>, oldName: Option<string>,
                   extra: map<string, Value>)
    returns (r: Result<DeclaredEntity>)
    ensures ColumnAttributes(cls, extra).Fail? ==> r == Fail(ColumnAttributes(cls, extra).error)
    ensures ColumnAttributes(cls, extra).Ok? ==> (r.Fail? <==> name.None?)
    ensures r.Ok? ==> fresh(r.value) && r.value.Valid() && r.value.Ranked()
    ensures r.Ok? ==> r.value.kind == Columns && r.value.name == TruncateName(name.value)
    ensures r.Ok? ==> r.value.oldName == oldName && r.value.ignore == IgnoreFlag(false)
    ensures r.Ok? ==> r.value.attributes == ColumnAttributes(cls, extra).value && r.value.children == map[]
  {
    var attrs := ColumnAttributes(cls, extra);
    if attrs.Fail? {
      return Fail(attrs.error);
    }
    r := NewLeaf(Columns, name, oldName, VNone, attrs.value);
  }

  // ---------------------------------------------------------------------------
  // Primary keys and indexes
  // ---------------------------------------------------------------------------

  /** The `name_prefix` of the two index classes. */
  function NamePrefix(kind: EntityType): string
  {
    if kind == PrimaryKeys then "PK" else "IX"
  }

  /** The synthesised index name: the prefix and the columns joined by `_`, then,
      when there are included columns, `__` and those joined by `_`. */
  function DefaultIndexName(prefix: string, columns: seq<string>, included: seq<string>): string
  {
    Join("_", [prefix] + columns) + (if included == [] then "" else "__" + Join("_", included))
  }

  /** Without included columns, and with no `_` inside the prefix or any column
      name, the synthesised name gives the column list back: splitting it on `_`
      yields the prefix followed by the columns. So two such indexes on different
      column lists get different names. */
  lemma DefaultIndexNameColumns(prefix: string, columns: seq<string>)
    requires '_' !in prefix
    requires forall i :: 0 <= i < |columns| ==> '_' !in columns[i]
    ensures Split(DefaultIndexName(prefix, columns, []), '_') == [prefix] + columns
  {
    var parts := [prefix] + columns;
    assert forall i :: 0 <= i < |parts| ==> '_' !in parts[i] by {
      forall i | 0 <= i < |parts| ensures '_' !in parts[i] {
        if i > 0 { assert parts[i] == columns[i - 1]; }
      }
    }
    assert DefaultIndexName(prefix, columns, []) == Join(['_'], parts);
    SplitJoin(parts, '_');
  }

  lemma DefaultIndexNameInjective(prefix: string, c1: seq<string>, c2: seq<string>)
    requires '_' !in prefix
    requires forall i :: 0 <= i < |c1| ==> '_' !in c1[i]
    requires forall i :: 0 <= i < |c2| ==> '_' !in c2[i]
    ensures DefaultIndexName(prefix, c1, []) == DefaultIndexName(prefix, c2, []) <==> c1 == c2
  {
    DefaultIndexNameColumns(prefix, c1);
    DefaultIndexNameColumns(prefix, c2);
    if DefaultIndexName(prefix, c1, []) == DefaultIndexName(prefix, c2, []) {
      assert [prefix] + c1 == [prefix] + c2;
      assert c1 == ([prefix] + c1)[1..];
      assert c2 == ([prefix] + c2)[1..];
    }
  }

  /** The column names of an index: a single string is one column, anything else
      is iterated. */
  method IndexColumns(columns: Value) returns (r: Result<seq<string>>)
    ensures columns.VStr? ==> r == Ok([columns.s])
    ensures columns.VTuple? ==> r == Ok(columns.elems)
    ensures r.Fail? <==> ItemsOf(columns).None?
    ensures r.Fail? ==> r.error == TypeError
  {
    if columns.VStr? {
      return Ok([columns.s]);
    }
    r := IterateNames(columns);
  }

  /** The registry attributes of a primary key or an index, as a set. */
  function IndexAttributeNames(kind: EntityType): (r: set<string>)
    requires kind == PrimaryKeys || kind == Indexes
    ensures r == set a | a in ValidAttributes(kind)
  {
    if kind == PrimaryKeys then {"columns", "clustered", "compression"}
    else {"columns", "clustered", "compression", "included_columns", "unique"}
  }

  /** The `included_columns` keyword as the name synthesis reads it. */
  function IncludedArg(kwargs: map<string, Value>): Value
  {
    if "included_columns" in kwargs then kwargs["included_columns"] else VNone
  }

  /** The name of an index: the given one unless it is missing or empty, otherwise
      synthesised from the lower-cased columns and, when the included columns are
      truthy, from those; included columns that cannot be iterated raise. */
  method IndexName(kind: EntityType, lowered: seq<string>, name: Option<string>, kwargs: map<string, Value>)
    returns (r: Result<string>)
    ensures name.Some? && name.value != "" ==> r == Ok(name.value)
    ensures r.Fail? <==> (name.None? || name.value == "") && Truthy(IncludedArg(kwargs)) &&
                         ItemsOf(IncludedArg(kwargs)).None?
    ensures r.Fail? ==> r.error == TypeError
    ensures (name.None? || name.value == "") && !Truthy(IncludedArg(kwargs)) ==>
              r == Ok(DefaultIndexName(NamePrefix(kind), lowered, []))
    ensures (name.None? || name.value == "") && IncludedArg(kwargs).VTuple? ==>
              r == Ok(DefaultIndexName(NamePrefix(kind), lowered, IncludedArg(kwargs).elems))
  {
    if name.Some? && name.value != "" {
      return Ok(name.value);
    }
    var included := IncludedArg(kwargs);
    var includedNames: seq<string> := [];
    if Truthy(included) {
      var it := IterateNames(included);
      if it.Fail? {
        return Fail(it.error);
      }
      includedNames := it.value;
    }
    r := Ok(DefaultIndexName(NamePrefix(kind), lowered, includedNames));
  }

  /** `AbstractIndex.__init__`: columns lower-cased into a tuple, the name
      synthesised when none (or an empty one) is given, then the node built with
      the columns, the compression and the remaining keywords; it succeeds exactly
      when the columns and any included columns used for the name are iterable and
      the keywords complete the registry attributes of the kind. */
  method NewAbstractIndex(kind: EntityType, columns: Value, name: Option<string>, compression: Value,
                          oldName: Option<string>, ignoreArg: Value, kwargs: map<string, Value>)
    returns (r: Result<DeclaredEntity>)
    requires kind == PrimaryKeys || kind == Indexes
    requires "columns" !in kwargs && "compression" !in kwargs
    ensures ItemsOf(columns).None? ==> r == Fail(TypeError)
    ensures ItemsOf(columns).Some? && ((name.Some? && name.value != "") || !Truthy(IncludedArg(kwargs))) ==>
              (r.Ok? <==> kwargs.Keys + {"columns", "compression"} == IndexAttributeNames(kind))
    ensures r.Ok? ==> kwargs.Keys + {"columns", "compression"} == IndexAttributeNames(kind)
    ensures r.Ok? ==> r.value.attributes.Keys == IndexAttributeNames(kind)
    ensures r.Ok? ==> fresh(r.value) && r.value.Valid() && r.value.Ranked() && r.value.kind == kind
    ensures r.Ok? ==> r.value.oldName == oldName && r.value.children == map[]
    ensures r.Ok? ==> forall k :: k in kwargs ==> k in r.value.attributes && r.value.attributes[k] == kwargs[k]
    ensures r.Ok? ==> r.value.attributes["compression"] == compression
    ensures r.Ok? && columns.VTuple? ==> r.value.attributes["columns"] == VTuple(LowerAll(columns.elems))
    ensures r.Ok? && name.Some? && name.value != "" ==> r.value.name == TruncateName(name.value)
    ensures r.Ok? && columns.VTuple? && (name.None? || name.value == "") && !Truthy(IncludedArg(kwargs)) ==>
              r.value.name == TruncateName(DefaultIndexName(NamePrefix(kind), LowerAll(columns.elems), []))
  {
    var cols := IndexColumns(columns);
    if cols.Fail? {
      return Fail(cols.error);
    }
    var lowered := LowerAll(cols.value);
    var indexName :- IndexName(kind, lowered, name, kwargs);
    r := BuildIndex(kind, lowered, indexName, compression, oldName, ignoreArg, kwargs);
  }

  /** The `super().__init__` call of an index: the node holds the columns, the
      compression and the keywords, and is built exactly when those make up the
      registry attributes of the kind. */
  method BuildIndex(kind: EntityType, columns: seq<string>, indexName: string, compression: Value,
                    oldName: Option<string>, ignoreArg: Value, kwargs: map<string, Value>)
    returns (r: Result<DeclaredEntity>)
    requires kind == PrimaryKeys || kind == Indexes
    requires "columns" !in kwargs && "compression" !in kwargs
    ensures r.Ok? <==> kwargs.Keys + {"columns", "compression"} == IndexAttributeNames(kind)
    ensures r.Ok? ==> fresh(r.value) && r.value.Valid() && r.value.Ranked() && r.value.kind == kind
    ensures r.Ok? ==> r.value.oldName == oldName && r.value.children == map[]
    ensures r.Ok? ==> r.value.name == TruncateName(indexName)
    ensures r.Ok? ==> r.value.attributes == kwargs["columns" := VTuple(columns)]["compression" := compression]
    ensures r.Ok? ==> r.value.attributes.Keys == IndexAttributeNames(kind)
    ensures r.Ok? ==> forall k :: k in kwargs ==> k in r.value.attributes && r.value.attributes[k] == kwargs[k]
    ensures r.Ok? ==> r.value.attributes["columns"] == VTuple(columns)
    ensures r.Ok? ==> r.value.attributes["compression"] == compression
  {
    var all := kwargs["columns" := VTuple(columns)]["compression" := compression];
    assert all.Keys == kwargs.Keys + {"columns", "compression"};
    r := NewPlain(kind, Some(indexName), oldName, ignoreArg, all);
  }

  /** `PrimaryKey(columns, clustered=True, **kwargs)`; `kwargs` are the keywords
      beyond the parameters of the primary key and index classes. Any of them is
      unexpected, so construction succeeds exactly when it has none and the columns
      are iterable. */
  method NewPrimaryKey(columns: Value, clustered: Value, name: Option<string>, compression: Value,
                       oldName: Option<string>, ignoreArg: Value, kwargs: map<string, Value>)
    returns (r: Result<DeclaredEntity>)
    requires forall k :: k in kwargs ==> k !in IndexAttributeNames(PrimaryKeys)
    ensures r.Ok? <==> ItemsOf(columns).Some? && kwargs == map[]
    ensures ItemsOf(columns).None? ==> r == Fail(TypeError)
    ensures r.Ok? ==> fresh(r.value) && r.value.Valid() && r.value.Ranked() && r.value.kind == PrimaryKeys
    ensures r.Ok? ==> r.value.attributes.Keys == {"columns", "clustered", "compression"}
    ensures r.Ok? ==> r.value.attributes["clustered"] == clustered && r.value.attributes["compression"] == compression
    ensures r.Ok? && columns.VTuple? ==> r.value.attributes["columns"] == VTuple(LowerAll(columns.elems))
    ensures r.Ok? && columns.VTuple? && (name.None? || name.value == "") ==>
              r.value.name == TruncateName(DefaultIndexName("PK", LowerAll(columns.elems), []))
  {
    var args := kwargs["clustered" := clustered];
    assert IncludedArg(args) == IncludedArg(kwargs);
    r := NewAbstractIndex(PrimaryKeys, columns, name, compression, oldName, ignoreArg, args);
    if r.Ok? {
      NoExtraKeywords(kwargs, args, IndexAttributeNames(PrimaryKeys));
    }
  }

  /** The keywords that remain when every key of `kwargs` is also a key of a
      map whose keys are all in `names`, and none of them is in `names`: none. */
  lemma NoExtraKeywords(kwargs: map<string, Value>, args: map<string, Value>, names: set<string>)
    requires forall k :: k in kwargs ==> k !in names
    requires kwargs.Keys <= args.Keys <= names
    ensures kwargs == map[]
  {
    assert kwargs.Keys == {};
  }

  /** The `included_columns` attribute of an index: the lower-cased set of the
      given names when they are truthy, None otherwise. */
  function IncludedValue(included: Value): (r: Result<Value>)
    ensures !Truthy(included) ==> r == Ok(VNone)
    ensures Truthy(included) ==> (r.Fail? <==> LoweredSet(included).Fail?)
    ensures r.Fail? ==> r.error == TypeError
    ensures Truthy(included) && r.Ok? ==> r.value == VSet(LoweredSet(included).value)
  {
    if Truthy(included) then
      var lowered :- LoweredSet(included);
      Ok(VSet(lowered))
    else Ok(VNone)
  }

  /** `Index(columns, clustered=False, unique=False, included_columns=None, **kwargs)`:
      included columns become a lower-cased set, or None when there are none. Any
      extra keyword is unexpected. */
  method NewIndex(columns: Value, clustered: Value, unique: Value, included: Value, name: Option<string>,
                  compression: Value, oldName: Option<string>, ignoreArg: Value, kwargs: map<string, Value>)
    returns (r: Result<DeclaredEntity>)
    requires forall k :: k in kwargs ==> k !in IndexAttributeNames(Indexes)
    ensures ItemsOf(columns).None? || IncludedValue(included).Fail? ==> r == Fail(TypeError)
    ensures ItemsOf(columns).Some? && !Truthy(included) ==> (r.Ok? <==> kwargs == map[])
    ensures r.Ok? ==> kwargs == map[]
    ensures r.Ok? ==> fresh(r.value) && r.value.Valid() && r.value.Ranked() && r.value.kind == Indexes
    ensures r.Ok? ==> r.value.attributes.Keys == IndexAttributeNames(Indexes)
    ensures r.Ok? ==> r.value.attributes["clustered"] == clustered && r.value.attributes["unique"] == unique
    ensures r.Ok? ==> IncludedValue(included) == Ok(r.value.attributes["included_columns"])
    ensures r.Ok? && columns.VTuple? && !Truthy(included) && (name.None? || name.value == "") ==>
              r.value.name == TruncateName(DefaultIndexName("IX", LowerAll(columns.elems), []))
  {
    var includedValue :- IncludedValue(included);
    var args := kwargs["clustered" := clustered]["included_columns" := includedValue]["unique" := unique];
    assert IncludedArg(args) == includedValue;
    r := NewAbstractIndex(Indexes, columns, name, compression, oldName, ignoreArg, args);
    if r.Ok? {
      NoExtraKeywords(kwargs, args, IndexAttributeNames(Indexes));
    }
  }

  // ---------------------------------------------------------------------------
  // Foreign keys, partitions, users, logins
  // ---------------------------------------------------------------------------

  /** `ForeignKey(column, foreign_table, foreign_column, foreign_schema='dbo')`: an
      unnamed node holding the four attributes. */
  method NewForeignKey(column: Value, foreignTable: Value, foreignColumn: Value, foreignSchema: Value)
    returns (r: Result<DeclaredEntity>)
    ensures r.Ok? && fresh(r.value) && r.value.Valid() && r.value.kind == ForeignKeys && r.value.name == ""
    ensures r.value.attributes == map["column" := column, "foreign_schema" := foreignSchema,
                                      "foreign_table" := foreignTable, "foreign_column" := foreignColumn]
  {
    r := NewLeaf(ForeignKeys, Some(""), None, VNone,
                 map["column" := column, "foreign_schema" := foreignSchema,
                     "foreign_table" := foreignTable, "foreign_column" := foreignColumn]);
  }

  /** `Partition(column)`: an unnamed node on the lower-cased column; a column that
      is not a string has no `lower` (AttributeError). */
  method NewPartition(column: Value) returns (r: Result<DeclaredEntity>)
    ensures r.Fail? <==> !column.VStr?
    ensures r.Fail? ==> r.error == AttributeError
    ensures r.Ok? ==> fresh(r.value) && r.value.Valid() && r.value.Ranked() && r.value.kind == Partitions
    ensures r.Ok? ==> r.value.name == "" && r.value.attributes == map["column" := VStr(Lower(column.s))]
  {
    if !column.VStr? {
      return Fail(AttributeError);
    }
    r := NewLeaf(Partitions, Some(""), None, VNone, map["column" := VStr(Lower(column.s))]);
  }

  /** `User(name, login_name, db_roles=None)`: the roles become a set. */
  method NewUser(name: Option<string>, loginName: Value, dbRoles: Value) returns (r: Result<DeclaredEntity>)
    ensures RoleSet(dbRoles).Fail? ==> r == Fail(TypeError)
    ensures RoleSet(dbRoles).Ok? ==> (r.Fail? <==> name.None?)
    ensures r.Ok? ==> fresh(r.value) && r.value.Valid() && r.value.Ranked() && r.value.kind == Users
    ensures r.Ok? ==> r.value.attributes == map["login_name" := loginName,
                                                 "db_roles" := VSet(RoleSet(dbRoles).value)]
  {
    var roles := RoleSet(dbRoles);
    if roles.Fail? {
      return Fail(roles.error);
    }
    r := NewLeaf(Users, name, None, VNone, map["login_name" := loginName, "db_roles" := VSet(roles.value)]);
  }

  const DefaultLoginType: string := "SQL_LOGIN"

  /** `Login(name, password=None, type_desc='SQL_LOGIN', server_roles=None)`: the
      server roles become a set. */
  method NewLogin(name: Option<string>, password: Value, typeDesc: Value, serverRoles: Value)
    returns (r: Result<DeclaredEntity>)
    ensures RoleSet(serverRoles).Fail? ==> r == Fail(TypeError)
    ensures RoleSet(serverRoles).Ok? ==> (r.Fail? <==> name.None?)
    ensures r.Ok? ==> fresh(r.value) && r.value.Valid() && r.value.Ranked() && r.value.kind == Logins
    ensures r.Ok? ==> r.value.attributes == map["type_desc" := typeDesc, "password" := password,
                                                 "server_roles" := VSet(RoleSet(serverRoles).value)]
  {
    var roles := RoleSet(serverRoles);
    if roles.Fail? {
      return Fail(roles.error);
    }
    r := NewLeaf(Logins, name, None, VNone,
                 map["type_desc" := typeDesc, "password" := password, "server_roles" := VSet(roles.value)]);
  }
}
