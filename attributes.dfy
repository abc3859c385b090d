/** The attribute registry: the eleven kinds of database entity the schema manager
    knows, the ordered list of attributes compared and altered for each, and the
    parent/child structure both trees share. */
module Attributes {
  import opened Values

  /** The `object_type` identifiers, in the order the registry lists them. */
  datatype EntityType =
    | Logins
    | Databases
    | Columns
    | ForeignKeys
    | PrimaryKeys
    | Indexes
    | Users
    | Partitions
    | Tables
    | Schemas
    | Servers

  const AllTypes: seq<EntityType> :=
    [Logins, Databases, Columns, ForeignKeys, PrimaryKeys, Indexes, Users, Partitions,
     Tables, Schemas, Servers]

  /** There are exactly eleven entity types and the registry lists each once. */
  lemma AllTypesListed()
    ensures |AllTypes| == 11
    ensures NoDuplicates(AllTypes)
    ensures forall t: EntityType :: t in AllTypes
  {
    forall t: EntityType ensures t in AllTypes {
      match t
      case Logins => assert AllTypes[0] == t;
      case Databases => assert AllTypes[1] == t;
      case Columns => assert AllTypes[2] == t;
      case ForeignKeys => assert AllTypes[3] == t;
      case PrimaryKeys => assert AllTypes[4] == t;
      case Indexes => assert AllTypes[5] == t;
      case Users => assert AllTypes[6] == t;
      case Partitions => assert AllTypes[7] == t;
      case Tables => assert AllTypes[8] == t;
      case Schemas => assert AllTypes[9] == t;
      case Servers => assert AllTypes[10] == t;
    }
  }

  /** The string a type is keyed by in the registry and in `child_types` lookups. */
  function TypeName(t: EntityType): string
  {
    match t
    case Logins => "logins"
    case Databases => "databases"
    case Columns => "columns"
    case ForeignKeys => "foreign_keys"
    case PrimaryKeys => "primary_keys"
    case Indexes => "indexes"
    case Users => "users"
    case Partitions => "partitions"
    case Tables => "tables"
    case Schemas => "schemas"
    case Servers => "servers"
  }

  /** The type named by a registry key, if any. */
  function TypeFromName(s: string): (r: Option<EntityType>)
    ensures r.Some? ==> TypeName(r.value) == s
  {
    if s == "logins" then Some(Logins)
    else if s == "databases" then Some(Databases)
    else if s == "columns" then Some(Columns)
    else if s == "foreign_keys" then Some(ForeignKeys)
    else if s == "primary_keys" then Some(PrimaryKeys)
    else if s == "indexes" then Some(Indexes)
    else if s == "users" then Some(Users)
    else if s == "partitions" then Some(Partitions)
    else if s == "tables" then Some(Tables)
    else if s == "schemas" then Some(Schemas)
    else if s == "servers" then Some(Servers)
    else None
  }

  /** Type names and registry keys are in one-to-one correspondence. */
  lemma TypeNameRoundTrip(t: EntityType, s: string)
    ensures TypeFromName(TypeName(t)) == Some(t)
    ensures TypeFromName(s) == Some(t) <==> TypeName(t) == s
  {
  }

  /** Distinct types have distinct registry keys. */
  lemma TypeNameInjective(t: EntityType, u: EntityType)
    ensures TypeName(t) == TypeName(u) <==> t == u
  {
    TypeNameRoundTrip(t, TypeName(u));
    TypeNameRoundTrip(u, TypeName(u));
  }

  /** `valid_attributes[t]`: the attributes compared for type `t`, in registry order. */
  function ValidAttributes(t: EntityType): (r: seq<string>)
    ensures NoDuplicates(r)
    ensures r == [] <==> t in {Tables, Schemas, Servers}
    ensures t == Partitions ==> r == ["column"]
    ensures t == Users ==> r == ["login_name", "db_roles"]
  {
    match t
    case Logins => ["type_desc", "server_roles", "password"]
    case Databases =>
      ["recovery_model_desc", "data_size", "log_size", "owner", "data_file_path", "log_file_path"]
    case Columns =>
      ["data_type", "char_max_len", "datetime_precision", "numeric_precision", "numeric_scale",
       "nullable", "identity"]
    case ForeignKeys => ["foreign_schema", "foreign_table", "foreign_column", "column"]
    case PrimaryKeys => ["columns", "clustered", "compression"]
    case Indexes => ["columns", "clustered", "compression", "included_columns", "unique"]
    case Users => ["login_name", "db_roles"]
    case Partitions => ["column"]
    case Tables => []
    case Schemas => []
    case Servers => []
  }

  /** An index is compared on everything a primary key is, then on its included
      columns and uniqueness. */
  lemma IndexAttributesExtendPrimaryKey()
    ensures ValidAttributes(Indexes) == ValidAttributes(PrimaryKeys) + ["included_columns", "unique"]
  {
  }

  /** The height of a type in the containment hierarchy; every child type sits
      strictly lower than its parent, which bounds the alignment walk. */
  function Level(t: EntityType): (r: nat)
    ensures r >= 1
    ensures r == 1 <==> t !in {Tables, Schemas, Databases, Servers}
  {
    match t
    case Servers => 5
    case Databases => 4
    case Schemas => 3
    case Tables => 2
    case _ => 1
  }

  /** `child_types` of the declared classes, in declaration order. */
  function DeclaredChildTypes(t: EntityType): (r: seq<EntityType>)
    ensures forall c :: c in r ==> Level(c) < Level(t)
    ensures NoDuplicates(r)
    ensures ForeignKeys !in r
  {
    match t
    case Tables => [Columns, PrimaryKeys, Indexes, Partitions]
    case Schemas => [Tables]
    case Databases => [Schemas, Users]
    case Servers => [Logins, Databases]
    case _ => []
  }

  /** No type uses the registry key of one of its child types as an attribute
      name, so the child keywords and the attribute keywords of `__init__` never
      collide. */
  lemma ChildKeysAreNotAttributes(kind: EntityType, t: EntityType)
    requires t in DeclaredChildTypes(kind)
    ensures TypeName(t) !in ValidAttributes(kind)
  {
  }

  /** `child_types` of the reflected classes, in declaration order. */
  function ReflectedChildTypes(t: EntityType): (r: seq<EntityType>)
    ensures forall c :: c in r ==> Level(c) < Level(t)
    ensures NoDuplicates(r)
    ensures ForeignKeys !in r
  {
    match t
    case Tables => [PrimaryKeys, Indexes, Columns, Partitions]
    case Schemas => [Tables]
    case Databases => [Schemas, Users]
    case Servers => [Logins, Databases]
    case _ => []
  }

  /** Both trees admit the same child types; only the order in which a table lists
      them differs. Foreign keys are a child type of neither table class. */
  lemma ChildTypesAgree(t: EntityType, c: EntityType)
    ensures c in DeclaredChildTypes(t) <==> c in ReflectedChildTypes(t)
    ensures c in DeclaredChildTypes(t) ==> c != ForeignKeys
  {
  }
}
