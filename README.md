# sssm schema alignment in Dafny

sssm (SQL Server schema manager) keeps a live SQL Server instance in line with a
declaration written in Python. The declaration is a tree of *declared entities*
(server, logins, databases, schemas, users, tables, columns, primary keys,
indexes, partitions). Each has a name, an optional old name, a policy for
undeclared children and the attributes listed for its type in the attribute
registry. The live instance is seen through *reflected entities*. Each one names
a live object, reads its detail row lazily, caches the attributes it reads, and
knows how to create, rename, delete and alter objects of its type.

`align_server` walks the two trees together. At each node it compares every
registry attribute and calls the type's setter where the two differ. For every
declared child type it then:

- deletes the live children that match no declared one, unless the declaration
  ignores that type;
- renames a live child that still has a declared child's old name;
- looks each declared child up, or creates it;
- recurses into it.

The project models this as follows:

- **Values and registries.** The attribute registry, the column type renderer of
  `util.py` and the declared tree are value-level modules: `Attributes`,
  `ColumnTypes`, `Declared`, `DeclaredTypes` and `DeclaredTree`. Declared nodes
  are a class whose `children` and `attributes` fields `add_child` and
  `__init__` update in place. Alignment reads the tree as a `Decl` value.
- **The live server.** It is a `Server` object holding the live object tree and
  the statements sent so far. Every statement is an edit on that tree and every
  query is a lookup in it (`LiveStore`). Operator prompts, the clock and the
  data a partition column holds are inputs of the `Server`.
- **Reflected entities.** `ReflectedEntity` is a class whose name, detail row and
  attribute cache are updated in place (`Reflected`). Creation is in `Changes`,
  the setters are in `Setters`, and lookup and get-or-create are in `Lookup`.
- **Alignment.** `align.py` is modelled in `Align`. Its statements are recorded
  as ghost `Action` traces. The lemmas prove how those traces are ordered:
  attributes before children, children type by type, deletions before the
  declared children of their type, and each child's subtree contiguous.

## Model

| member | source | states |
|---|---|---|
| Attributes.AllTypesListed | sssm/db_entities/attributes.py:1-13 | the registry has exactly eleven entity types, each listed once |
| Attributes.TypeFromName | sssm/db_entities/attributes.py:1-13 | a registry key that names a type names exactly that type |
| Attributes.TypeNameRoundTrip | sssm/db_entities/attributes.py:1-13 | type names and registry keys convert both ways |
| Attributes.TypeNameInjective | sssm/db_entities/attributes.py:1-13 | distinct types have distinct registry keys |
| Attributes.ValidAttributes | sssm/db_entities/attributes.py:1-13 | each type's attribute list has no repeats; tables, schemas and servers have none; partitions and users list theirs as the registry does |
| Attributes.IndexAttributesExtendPrimaryKey | sssm/db_entities/attributes.py:6-7 | an index is compared on a primary key's attributes, then on included columns and uniqueness |
| Attributes.DeclaredChildTypes | sssm/db_entities/declared.py:303-416 | a declared type's child types sit strictly lower in the hierarchy, have no repeats and never include foreign keys |
| Attributes.ChildKeysAreNotAttributes | sssm/db_entities/declared.py:30-42 | no child type's keyword is also an attribute of its parent, so children and attributes take disjoint keywords |
| Attributes.ReflectedChildTypes | sssm/db_entities/reflected.py:1027-1433 | a reflected type's child types sit strictly lower, have no repeats and never include foreign keys |
| Attributes.ChildTypesAgree | sssm/db_entities/reflected.py:1027-1433 | declared and reflected classes admit the same child types |
| ColumnTypes.CategoryOf | sssm/util.py:2-8 | a type name's category is the one set that contains it, and None when no set does |
| ColumnTypes.CategoriesDisjoint | sssm/util.py:2-8 | the seven type-name sets are pairwise disjoint |
| ColumnTypes.TypeNamesPlain | sssm/util.py:2-8 | no supported type name contains a parenthesis, comma or space |
| ColumnTypes.ParseIntToString | sssm/util.py:50-58 | the decimal text of an integer parameter reads back as that integer |
| ColumnTypes.ParseParamText | sssm/util.py:50-58 | the text `'{}'.format` writes for a plain parameter (an integer, `None`, a boolean, or a string that is none of these and has no comma or space) reads back as that parameter and holds no comma or space |
| ColumnTypes.PlainTexts | sssm/util.py:49-52 | no text of a list of plain parameters holds a comma or a space |
| ColumnTypes.MaxLengthRendering | sssm/util.py:55-58 | a string length such as `'max'` is written as it is: `nvarchar` with length `max` renders as `nvarchar(max)` |
| ColumnTypes.DataTypeRepresentation | sssm/util.py:43-60 | ValueError exactly for an unsupported type, a numeric or float type without a precision, or a char type without a length; types without parameters render as their bare name |
| ColumnTypes.RenderingShape | sssm/util.py:44-58 | a rendering is the bare name or the name followed by its parenthesised, comma-separated parameters |
| ColumnTypes.ParseParamTexts | sssm/util.py:49-52 | a comma-joined list of plain parameters splits back into the same parameters |
| ColumnTypes.DecodeParenthesised | sssm/util.py:50-58 | a parenthesised type text with plain parameters decodes into its name and its parameters |
| ColumnTypes.DataTypeRoundTrip | sssm/util.py:43-60 | decoding a successful rendering whose parameters are plain gives back the type name and exactly the parameters written |
| ColumnTypes.ColumnSqlRepresentation | sssm/util.py:11-40 | a column definition fails exactly when its type rendering fails |
| ColumnTypes.ColumnSqlWords | sssm/util.py:25-40 | with plain type parameters, a definition's words are the name, the decodable type text, IDENTITY(1,1) exactly for identity columns, then NULL or NOT NULL |
| ColumnTypes.DefinitionWords | sssm/util.py:25-40 | space-joined definition parts split back into those parts |
| Declared.TruncateName | sssm/db_entities/declared.py:24 | a name keeps at most its first 128 characters |
| Declared.IgnoreSemantics | sssm/db_entities/declared.py:26-28 | None ignores nothing, a boolean ignores all or nothing, a list, tuple or set ignores the types it holds, and a string ignores all types when it is not empty |
| Declared.ChildEntities | sssm/db_entities/declared.py:31-35 | a lone entity is wrapped in a list; a value that is neither an entity nor a list of them fails with InvalidDBEntityChildError |
| Declared.AddOne | sssm/db_entities/declared.py:58-69 | `add_child` fails exactly for a child of a type not admitted; otherwise the child is appended to its type's list, which is created when missing, and other lists are unchanged |
| Declared.TakeAttributes | sssm/db_entities/declared.py:40-42 | a KeyError exactly when a registry attribute is missing from the keywords; otherwise each attribute takes its keyword's value |
| Declared.Construction | sssm/db_entities/declared.py:13-45 | a missing name raises DBError; on success every keyword was consumed, the children are what the child keywords give and the attributes are the registry's; leftover keywords raise ValueError |
| Declared.ConstructionSucceeds | sssm/db_entities/declared.py:13-45 | a named node succeeds when its children phase succeeds, it has every registry attribute and no keyword is left over |
| Declared.FillChildrenAbsent | sssm/db_entities/declared.py:30-38 | absent child keywords leave the children dictionary unchanged |
| Declared.AddAllSameKind | sssm/db_entities/declared.py:37-38 | entities of one admitted type are appended to that type's list, in order |
| Declared.AddAllChildTypes | sssm/db_entities/declared.py:37-38 | a list of entities is only added when every entity has an admitted type |
| Declared.AddAllExtends | sssm/db_entities/declared.py:58-69 | adding children only appends: every earlier list is a prefix of the new one |
| Declared.FillChildrenExtends | sssm/db_entities/declared.py:30-38 | the children phase only appends to the lists it starts from |
| Declared.FillSorted | sssm/db_entities/declared.py:30-38 | when each child keyword carries entities of its own type, each type's list gains exactly those entities, and only types that were given entities appear |
| Declared.FillChildrenAbsentOf | sssm/db_entities/declared.py:30-38 | child keywords that carry no entity leave the dictionary unchanged |
| Declared.LeafConstruction | sssm/db_entities/declared.py:13-45 | a named node given exactly its registry attributes and no children is built with those attributes and no children |
| Declared.FirstNamed | sssm/db_entities/declared.py:74-79 | the first entity of a list with that name, or None when no entity has it |
| Declared.DeclaredEntity.View | sssm/db_entities/declared.py:7-45 | the value alignment reads has the node's type, name, old name, policy, attributes and children |
| Declared.DeclaredEntity.ViewWellFormed | sssm/db_entities/declared.py:58-69 | a valid node's value is well formed: every child sits under its own type and lower in the tree |
| Declared.DeclaredEntity.GetChildren | sssm/db_entities/declared.py:71-72 | None exactly for a type never added; otherwise that type's non-empty list, of an admitted type |
| Declared.DeclaredEntity.GetChild | sssm/db_entities/declared.py:74-79 | TypeError for a type never added; otherwise the first child with exactly that name, or InvalidDBEntityChildError when none has it |
| Declared.DeclaredEntity.AddChild | sssm/db_entities/declared.py:58-69 | rejects a child of a type not admitted, changing nothing; otherwise the children become AddOne's result and the node is returned |
| Declared.DeclaredEntity.Append | sssm/db_entities/declared.py:62-68 | the child is appended to the list of its type |
| Declared.AddEntities | sssm/db_entities/declared.py:37-38 | entities are added one by one with `add_child`, stopping at the first rejected one |
| Declared.AddKeywordEntities | sssm/db_entities/declared.py:31-38 | one child keyword's entities, when present, are added to the node |
| Declared.FillFromKeywords | sssm/db_entities/declared.py:29-38 | the children phase of `__init__` leaves exactly the dictionary FillChildren computes, or fails with its error |
| Declared.TakeAttributesInto | sssm/db_entities/declared.py:40-42 | the attribute phase of `__init__` leaves exactly the attributes TakeAttributes computes, or fails with its error |
| Declared.New | sssm/db_entities/declared.py:13-45 | a new node fails exactly when Construction fails, with its error; otherwise it has the truncated name, the old name, the normalised policy, and Construction's children and attributes |
| DeclaredTypes.IterateNames | sssm/db_entities/declared.py:228-230 | TypeError exactly for a value that cannot be iterated; a string yields its characters, a list its elements in order |
| DeclaredTypes.RoleSet | sssm/db_entities/declared.py:329 | `set(x or set())`: a falsy value gives the empty set, an iterable gives the set of its elements, anything else raises TypeError |
| DeclaredTypes.LoweredSet | sssm/db_entities/declared.py:272 | the set of the lower-cased elements of an iterable; TypeError for a value that cannot be iterated |
| DeclaredTypes.NewPlain | sssm/db_entities/declared.py:13-45 | a leaf node succeeds exactly when it is named and given exactly its registry attributes, which it then holds |
| DeclaredTypes.NewLeaf | sssm/db_entities/declared.py:13-45 | a leaf node built from its registry attributes fails only for a missing name, and otherwise holds them with no children |
| DeclaredTypes.ColumnAttributes | sssm/db_entities/declared.py:126-188 | a keyword that repeats `name` or an option the class fixes gives TypeError; otherwise a numeric scale not below its precision gives ValueError; otherwise an unknown keyword gives TypeError; it fails exactly in those cases, and otherwise holds the data type and every column option, defaulted or given |
| DeclaredTypes.ColumnAttributeNames | sssm/db_entities/attributes.py:4 | a column's attributes are exactly the registry's list for columns |
| DeclaredTypes.ColumnExtraKept | sssm/db_entities/declared.py:126-129 | an accepted extra keyword is kept as given |
| DeclaredTypes.ColumnClassSettings | sssm/db_entities/declared.py:146-188 | a float has precision 24 when small and 53 otherwise, a datetime defaults to precision 7, an identity column is a non-nullable int identity, and a numeric column fails exactly when its scale is not below its precision |
| DeclaredTypes.NewColumn | sssm/db_entities/declared.py:126-129 | a column has ColumnAttributes' attributes, or fails with its error (so `NumericColumn("n", 5, 7, foo=1)` gives ValueError) or, when unnamed, with DBError |
| DeclaredTypes.DefaultIndexNameColumns | sssm/db_entities/declared.py:232-233 | a generated name splits on `_` back into the prefix and the columns |
| DeclaredTypes.DefaultIndexNameInjective | sssm/db_entities/declared.py:232-233 | two column lists get the same generated name exactly when they are equal |
| DeclaredTypes.IndexColumns | sssm/db_entities/declared.py:228-230 | a single string is one column, a list keeps its columns, and a value that cannot be iterated raises TypeError |
| DeclaredTypes.IndexName | sssm/db_entities/declared.py:231-236 | a non-empty given name is kept; otherwise the name is the prefix and columns joined by `_`, followed by the included columns after `__` when there are any |
| DeclaredTypes.NewAbstractIndex | sssm/db_entities/declared.py:220-242 | the columns are lower-cased into a tuple, the name is given or generated, and the node holds exactly the key's registry attributes, failing when a keyword is missing or left over |
| DeclaredTypes.BuildIndex | sssm/db_entities/declared.py:239-242 | the node holds the keywords plus the columns and compression, and succeeds exactly when those are the registry attributes |
| DeclaredTypes.NewPrimaryKey | sssm/db_entities/declared.py:245-250 | a primary key defaults to clustered, holds columns, clustered and compression, and fails with TypeError when its columns cannot be iterated |
| DeclaredTypes.NewIndex | sssm/db_entities/declared.py:256-275 | an index holds its clustered and unique flags and its lower-cased included-column set, or None when there are none |
| DeclaredTypes.NewForeignKey | sssm/db_entities/declared.py:191-207 | a foreign key is an unnamed node holding its column and the foreign schema, table and column |
| DeclaredTypes.NewPartition | sssm/db_entities/declared.py:284-295 | a partition is an unnamed node on the lower-cased column; a column that is not a string raises AttributeError |
| DeclaredTypes.NewUser | sssm/db_entities/declared.py:325-329 | a user holds its login name and its roles as a set; roles that cannot be iterated raise TypeError |
| DeclaredTypes.NewLogin | sssm/db_entities/declared.py:342-346 | a login holds its password, type description and server roles as a set |
| DeclaredTree.WrapOne | sssm/db_entities/declared.py:308-309 | `[x] if x else None`: a truthy entity becomes a one-element list, a falsy argument adds nothing |
| DeclaredTree.TableKeywords | sssm/db_entities/declared.py:307-309 | the keywords passed on are the children plus the primary key and partition keywords |
| DeclaredTree.NewTable | sssm/db_entities/declared.py:305-309 | a primary key or partition passed again as a child keyword raises TypeError; otherwise the table is what Construction builds from the wrapped keywords |
| DeclaredTree.NewSchema | sssm/db_entities/declared.py:320-322 | a schema fails exactly as Construction does, with its error, and otherwise has Construction's children and no attributes |
| DeclaredTree.SchemaOfTables | sssm/db_entities/declared.py:320-322 | a named schema declared with tables holds exactly those tables and nothing else |
| DeclaredTree.PosixJoin | sssm/db_entities/declared.py:366-367 | a joined path ends with the file name, and an absolute file name replaces the directory |
| DeclaredTree.WindowsSeparators | sssm/db_entities/declared.py:366-367 | every `/` becomes `\` and nothing else changes |
| DeclaredTree.TenthOf | sssm/db_entities/declared.py:363 | a tenth of an integer data size, or TypeError for a size that is not a number |
| DeclaredTree.FilePath | sssm/db_entities/declared.py:364-367 | the path ends with the given file name or the default one, with Windows separators; TypeError for a directory or name that is not a string |
| DeclaredTree.DatabaseRecord | sssm/db_entities/attributes.py:3 | a database holds exactly its six registry attributes |
| DeclaredTree.DatabaseAttributes | sssm/db_entities/declared.py:355-372 | AttributeError for a recovery model that is not a string; ValueError for one outside full, simple and bulk_logged, or for a data file directory without a data size; without a directory, no file paths |
| DeclaredTree.DatabaseFiles | sssm/db_entities/declared.py:358-367 | with a data file directory, the paths are the directories joined with the given or default file names, and the log size is the given one or a tenth of the data size |
| DeclaredTree.WithAttributes | sssm/db_entities/declared.py:380-386 | the computed attributes are passed alongside the other keywords |
| DeclaredTree.DatabaseSchemaFirst | sssm/db_entities/declared.py:377-378 | a schemas keyword holding one schema puts it first in the database's schema list |
| DeclaredTree.SchemaTables | sssm/db_entities/declared.py:378 | a schema built from a tables keyword alone holds exactly the tables given |
| DeclaredTree.ShorthandKeywords | sssm/db_entities/declared.py:374-378 | truthy tables together with schemas raise ValueError; otherwise the tables become one new `dbo` schema holding them |
| DeclaredTree.BuildDatabase | sssm/db_entities/declared.py:374-386 | the tables shorthand, then the base constructor; a database built with tables has a fresh `dbo` schema first, holding them |
| DeclaredTree.NewDatabaseNode | sssm/db_entities/declared.py:380-386 | the base constructor of a database fails exactly as Construction does, and otherwise holds the computed attributes |
| DeclaredTree.NewDatabase | sssm/db_entities/declared.py:353-386 | attribute errors come first, then the shorthand check; a built database holds exactly DatabaseAttributes' result |
| DeclaredTree.GetTable | sssm/db_entities/declared.py:388-396 | TypeError when the database has no schemas; a table found has the name asked for |
| DeclaredTree.FirstNamedAppend | sssm/db_entities/declared.py:74-79 | appending does not change the first match of a name already present, and otherwise the new entity is the match when it has the name |
| DeclaredTree.AddToSchema | sssm/db_entities/declared.py:411 | a non-table is rejected; a table is appended to the schema's tables, and a lookup that found a table before still finds it |
| DeclaredTree.AddSchema | sssm/db_entities/declared.py:407-409 | a new empty schema is appended to the database's schemas and is found under its name |
| DeclaredTree.AddTable | sssm/db_entities/declared.py:398-411 | corrected `add_table`: only a non-table is refused; the table is appended to the tables of the first schema of that name, even beside a table of the same name, or becomes the only table of a new `Schema(name)` appended to the schemas, which stays when the table is refused; no other node's children change; a lookup that found a table before still finds it, and otherwise finds the new table |
| DeclaredTree.AddToNewSchema | sssm/db_entities/declared.py:407-411 | without a schema of that name, `Schema(name)` is appended to the schemas and the table becomes its only table, found under its name; a refused table leaves the new schema empty |
| DeclaredTree.AddTableAsWritten | sssm/db_entities/declared.py:398-411 | `add_table` as written: a database without any schema fails with TypeError and nothing is added |
| DeclaredTree.NewServer | sssm/db_entities/declared.py:414-423 | a server is an unnamed node of logins and databases; a `name` keyword raises TypeError |
| LiveStore.FindKid | sssm/db_entities/reflected.py:283-293 | the first child of that type whose name matches ignoring case, or None exactly when no child matches |
| LiveStore.NamesOf | sssm/db_entities/reflected.py:295-301 | a listing has no more names than the node has children |
| LiveStore.KidsOf | sssm/db_entities/reflected.py:295-301 | the objects of one type under a node, all of that type and all among its children |
| LiveStore.WithoutNamed | sssm/db_entities/reflected.py:345-350 | a drop removes exactly the children the step names and keeps every other |
| LiveStore.ModifyAt | sssm/db_entities/reflected.py:276-350 | a statement's edit lands on the object its path leads to |
| LiveStore.ModifyMissing | sssm/db_entities/reflected.py:276-350 | a statement addressed to an object that is gone changes nothing |
| LiveStore.NamesOfAppend | sssm/db_entities/reflected.py:295-301 | a new child is listed last among its type |
| LiveStore.CreateThenExists | sssm/db_entities/reflected.py:266-273 | a created object exists afterwards, is listed last among its type, and other types' listings are unchanged |
| LiveStore.NamesOfWithout | sssm/db_entities/reflected.py:345-350 | dropping a child of one type leaves other types' listings unchanged |
| LiveStore.NamesOfConcat | sssm/db_entities/reflected.py:295-301 | the listing of two runs of children is the two listings in order |
| LiveStore.DropThenAbsent | sssm/db_entities/reflected.py:326-339 | a dropped object no longer exists, and other types' listings are unchanged |
| LiveStore.RenameThenExists | sssm/db_entities/reflected.py:303-316 | a renamed object exists under its new name, and other types' listings are unchanged |
| LiveStore.NamesOfRenamed | sssm/db_entities/reflected.py:318-324 | renaming one child leaves the other children in the listing |
| LiveStore.SetFieldsAt | sssm/db_entities/reflected.py:352-356 | a write changes only the row fields written |
| LiveStore.FindLast | sssm/db_entities/reflected.py:155-158 | the object a path leads to is the child its last step names under the object the rest of the path leads to |
| LiveStore.FindKidWithout | sssm/db_entities/reflected.py:283-293 | removing the children of one type leaves the child found for a step of another type unchanged |
| LiveStore.DropKeepsOthers | sssm/db_entities/reflected.py:829-845 | dropping a child of one type under an object leaves every child of another type under it as it was |
| LiveStore.ExistsIffFound | sssm/db_entities/reflected.py:283-293 | an object exists under its parent exactly when the path to it leads somewhere |
| Rules.Field | sssm/db_entities/reflected.py:208-213 | reading a field the row lacks raises AttributeError; otherwise it gives the field's value |
| Rules.TruncateHundredths | sssm/db_entities/reflected.py:1266-1274 | `int()` of a two-place decimal is its whole part, truncated toward zero: within one unit of the decimal, on the same side of zero |
| Rules.SizeTruncates | sssm/db_entities/reflected.py:1266-1274 | a truthy decimal file size reads as its truncated whole part, and a size under one megabyte in magnitude reads as 0 |
| Rules.ColumnParametersByCategory | sssm/db_entities/reflected.py:753-783 | precision, scale, fractional-second precision and length read as the row holds them exactly in the type categories that use them, and as None otherwise |
| Rules.WriteThenRead | sssm/db_entities/reflected.py:250-257 | a value the read side can produce reads back as itself after the setter writes it, so the re-read check fails only for other values |
| Rules.MatchesRow | sssm/db_entities/reflected.py:395-409 | different types never match; name-matched types compare names ignoring case (old name too); keys, indexes, partitions and users compare their match attributes, and a gone object raises DBError |
| Rules.MatchKeysAreAttributes | sssm/db_entities/reflected.py:550-557 | every attribute a match compares is a registry attribute of its type |
| Rules.Visible | sssm/db_entities/reflected.py:87 | the listed names that are not system names of the type, in listing order |
| Rules.VisibleConcat | sssm/db_entities/reflected.py:87 | the filter keeps listing order |
| Rules.RenameSupport | sssm/db_entities/reflected.py:318-324 | databases, tables, columns, keys and indexes can be renamed; schemas raise DBError and other types are not implemented |
| Rules.SetterOf | sssm/db_entities/reflected.py:233-240 | a type has a setter only for one of its registry attributes |
| Rules.UnalterableAttributes | sssm/db_entities/reflected.py:233-240 | data and log sizes, login type and password, key and index columns, index uniqueness, a user's login and a partition's column have no setter |
| Rules.RoleReconciliation | sssm/db_entities/reflected.py:1208-1218 | adding declared-but-missing roles and dropping held-but-undeclared ones leaves exactly the declared roles, with no role both added and dropped |
| Rules.BoundaryDays | sssm/db_entities/reflected.py:919-920 | one boundary per day from the start, none when the window is empty |
| Rules.BoundariesCoverData | sssm/db_entities/reflected.py:905-921 | with data, the boundaries are consecutive days from five days before the first day of data through four days after the last, every day of the data included |
| Rules.BoundariesAroundToday | sssm/db_entities/reflected.py:912-915 | for every day, a column without data gets exactly the ten daily boundaries from five days before that day through four days after it |
| Rules.BoundariesEmptyWindow | sssm/db_entities/reflected.py:919-920 | a window whose end precedes its start yields no boundary |
| Rules.PartitionNamesDistinct | sssm/db_entities/reflected.py:922-929 | a column's partition function and scheme have distinct names, and different columns get different scheme names |
| Reflected.Server.Exec | sssm/db_entities/reflected.py:65-76 | a statement sent to the server appends to the statement trace and applies its edit to the live object tree, nothing else |
| Reflected.Server.Send | sssm/db_entities/reflected.py:65-76 | a statement with no effect on the object tree only extends the trace |
| Reflected.HolderOf | sssm/db_entities/reflected.py:1027 | every type except the server and foreign keys has a holder |
| Reflected.HolderMatchesChildTypes | sssm/db_entities/reflected.py:1027 | the holder relation is exactly the reflected child-type table, in both directions |
| Reflected.ReflectedEntity.AncestorsAbove | sssm/db_entities/reflected.py:23-39 | the parent chain is acyclic: every ancestor sits strictly higher, and only the server has no parent |
| Reflected.ReflectedEntity.Root | sssm/db_entities/reflected.py:23-39 | a server object has no parent, an empty path and no cached attributes |
| Reflected.ReflectedEntity.Child | sssm/db_entities/reflected.py:23-39 | a child object shares its parent's connection, extends the parent's path by one step and starts with no cached attributes |
| Reflected.ReflectedEntity.GetAttr | sssm/db_entities/reflected.py:41-57 | an unregistered name is AttributeError; a missing server row is DBError; otherwise a cached value is returned unchanged, else the row is read once and the value cached; a fresh object answers what the server holds, and a cache coherent with the server stays coherent |
| Reflected.ReflectedEntity.ResetAttribute | sssm/db_entities/reflected.py:216-223 | the row is dropped along with exactly that one cached value |
| Reflected.ReflectedEntity.ResetAll | sssm/db_entities/reflected.py:225-231 | no row and no cached value remain |
| Reflected.ReflectedEntity.Equals | sssm/db_entities/reflected.py:395-409 | objects of different types are unequal without any read; otherwise, on a coherent cache, equality is the declared attributes matching the server row |
| Reflected.ReflectedEntity.FullName | sssm/db_entities/reflected.py:368-380 | the dot-joined names from the nearest ancestor of the top type down to this object |
| Reflected.ReflectedEntity.NamesStep | sssm/db_entities/reflected.py:368-380 | below the top type the names are this object's followed by its parent's; the top type or the root stops the walk |
| Reflected.ReflectedEntity.NearestAncestor | sssm/db_entities/reflected.py:382-393 | the nearest object of a type is this object or an ancestor of that type, and there is none exactly when no object on the way up has that type |
| Reflected.ReflectedEntity.FullNameTop | sssm/db_entities/reflected.py:368-380 | the full name starts at the nearest top-type ancestor, or at the root when there is none, and ends with this object's name |
| Reflected.ReflectedEntity.AncestorName | sssm/db_entities/reflected.py:382-393 | the name of the nearest object of the type on the way up, None when there is none |
| Reflected.ReflectedEntity.ChildClass | sssm/db_entities/reflected.py:170-176 | succeeds exactly for the type's child types and fails with InvalidDBEntityChild otherwise |
| Reflected.ReflectedEntity.GetChildren | sssm/db_entities/reflected.py:85-87 | fails exactly for a type that is not a child type; otherwise one distinct new object per visible listed name, in listing order |
| Reflected.ReflectedEntity.NewChildren | sssm/db_entities/reflected.py:85-87 | one distinct new child object per name, in order |
| Reflected.ReflectedEntity.GetChild | sssm/db_entities/reflected.py:155-158 | an object is returned exactly when the name is non-empty and the server has that child; otherwise DBObjectDoesntExist, or InvalidDBEntityChild for a wrong type |
| Reflected.ReflectedEntity.GetChildByName | sssm/db_entities/reflected.py:160-168 | succeeds exactly when some child type has the name, and picks the first such type in child-type order |
| Reflected.ReflectedEntity.GetPkFields | sssm/db_entities/reflected.py:1083-1089 | the columns of the table's first primary key, None when the table has none |
| Reflected.ReflectedEntity.GetClusteredIndex | sssm/db_entities/reflected.py:1074-1078 | the first listed index that reads as clustered, None when none does, the first failed read's error otherwise |
| Reflected.ReflectedEntity.FindClustered | sssm/db_entities/reflected.py:1074-1078 | the scan over given index objects agrees with the first-clustered specification |
| Reflected.ReflectedEntity.SelectIndexes | sssm/db_entities/reflected.py:1058-1064 | the filtered index objects are exactly the selection specification's names, in order |
| Reflected.ReflectedEntity.PickIndex | sssm/db_entities/reflected.py:1058-1064 | one filter step keeps the selection-so-far invariant, or fails as the whole selection fails |
| Reflected.ReflectedEntity.PickedMore | sssm/db_entities/reflected.py:1058-1064 | appending an index object keeps the picked objects aligned with their names |
| Reflected.ReflectedEntity.TestIndex | sssm/db_entities/reflected.py:559-565 | the index attribute the filter needs is read as the specification's check |
| Reflected.ReflectedEntity.GetNonclusteredIndexes | sssm/db_entities/reflected.py:1080-1081 | the listed indexes that do not read as clustered, in listing order |
| Reflected.ReflectedEntity.GetIndexesForColumn | sssm/db_entities/reflected.py:1058-1064 | the listed indexes whose key columns include the column, in listing order, each a new object |
| Reflected.ReflectedEntity.RecreateIndexesOnFilegroup | sssm/db_entities/reflected.py:1066-1072 | succeeds exactly when the rebuild order exists; then the trace gains one rebuild per index, the clustered index first; a failure keeps the clustered index's rebuild when that step was sent before the read of the other indexes failed, and otherwise sends nothing |
| Reflected.ReflectedEntity.RebuildNonclustered | sssm/db_entities/reflected.py:1069-1071 | the non-clustered indexes are rebuilt in listing order; a failed read sends nothing |
| Reflected.ReflectedEntity.RebuildClustered | sssm/db_entities/reflected.py:1066-1068 | the clustered index is rebuilt first; a table with none fails with AttributeError and sends nothing |
| Reflected.ReflectedEntity.SendRebuilds | sssm/db_entities/reflected.py:541-548 | one rebuild statement per index, in order |
| Reflected.ReflectedEntity.Delete | sssm/db_entities/reflected.py:326-343 | an undeletable type or a declined prompt returns False and changes nothing; an approved delete returns None or the drop's error and never a truthy value |
| Reflected.ReflectedEntity.DeleteEx | sssm/db_entities/reflected.py:345-350 | each type's drop has the effect the deletion specification gives it: refused for schemas and databases; a column is dropped only when no index uses it, and otherwise the first such index is offered and the column stays; an index is dropped only when its constraint flag reads; a partition rebuilds the table's indexes, drops its scheme, and drops the function only when its `column` can still be read |
| Reflected.ReflectedEntity.DeleteColumn | sssm/db_entities/reflected.py:836-845 | when no index of its table uses the column, exactly its drop is sent and it leaves the tree; when one does, only that first index is offered (dropped if the operator agrees and its constraint flag reads, else AttributeError or nothing) and the column stays; a failed index query changes nothing |
| Reflected.ReflectedEntity.DeleteIndex | sssm/db_entities/reflected.py:637-646 | an index backing a unique constraint is dropped as a constraint, any other as an index; either way it leaves the table |
| Reflected.ReflectedEntity.DropSelf | sssm/db_entities/reflected.py:1117-1118 | the drop statement removes exactly this object from its parent |
| Reflected.ReflectedEntity.DeletePartition | sssm/db_entities/reflected.py:946-954 | a failed rebuild of the table's indexes is the result with the objects unchanged and the trace extended by what the rebuild sent before failing; otherwise the rebuilds, then the scheme drop, then, when the `column` read after it succeeds, the drop of the function named after it; a failed read is the result and the function stays |
| Reflected.ReflectedEntity.DropScheme | sssm/db_entities/reflected.py:950-954 | the partition leaves its table and its scheme drop is sent; the `column` is then read from the cache, the held row, or else the server; on success the function named after it is dropped, on failure the read's error is the result and nothing more is sent |
| Reflected.ReflectedEntity.DropFunction | sssm/db_entities/reflected.py:952-953 | a failed read of `column` is the result and nothing is sent; otherwise exactly the drop of the function named after the table and that column is sent |
| Reflected.ReflectedEntity.PartitionColumn | sssm/db_entities/reflected.py:41-57 | the `column` attribute as `__getattr__` answers it: a cached value without a read, else the held row, else the server's row, and DBError when there is none |
| Reflected.ReflectedEntity.UnheldColumnLost | sssm/db_entities/reflected.py:950-953 | with no row held, the `column` read after the scheme drop finds no server row and fails with DBError, so the function is not dropped |
| Reflected.ReflectedEntity.HeldColumnRead | sssm/db_entities/reflected.py:41-57 | with a row held, the `column` read after the drop comes from the cache or that row, whatever the server holds |
| Reflected.ReflectedEntity.DropAssociatedIndexes | sssm/db_entities/reflected.py:829-834 | True exactly when no index uses the column, with nothing changed; otherwise the answer is False or AttributeError and the state is that of offering the first such index alone |
| Reflected.ReflectedEntity.DropIndex | sssm/db_entities/reflected.py:829-834 | offering an index never yields True: declined, nothing changes; approved, the index is dropped with exactly its drop statement when its constraint flag reads, and otherwise AttributeError with nothing changed |
| Reflected.OfferKeepsColumns | sssm/db_entities/reflected.py:829-834 | offering an index passes or fails with AttributeError, leaves the tree or drops just that index, sends nothing or just its drop, and never changes any column of the table |
| Reflected.ReflectedEntity.Rename | sssm/db_entities/reflected.py:303-316 | a declined prompt changes nothing; a type without a rename fails with its error and changes nothing; a new name another object of the type already has under the parent is refused by the server, the driver error propagates and nothing changes; otherwise the object is renamed on the server, and in memory once the new name is found (DBError otherwise) |
| Reflected.ReflectedEntity.SetName | sssm/db_entities/reflected.py:59-63 | the new name is taken and the parent's path is unchanged |
| Reflected.ReflectedEntity.RenameEx | sssm/db_entities/reflected.py:303-324 | a rename onto a name another object of the type holds under the parent fails with the driver error, with nothing sent and the name kept; otherwise the statement moves the child to the new name and the check that follows passes; a key or an index takes the new name inside its own statement |
| Reflected.ByName | sssm/db_entities/reflected.py:98-106 | an object exactly when the name is non-empty and the server has it under the parent, DBObjectDoesntExist otherwise |
| Reflected.FreshRead | sssm/db_entities/reflected.py:352-356 | an object with no server row reads DBError |
| Reflected.CachedRead | sssm/db_entities/reflected.py:41-57 | an empty cache reads straight from the row |
| Reflected.ReflectedEntity.DisplayDetails | sssm/db_entities/reflected.py:414-415 | the registry attributes are read in order through `__getattr__`; the outcome is the first failing read's error or Pass; on Pass the row is held and every attribute is cached with the value its read gave at the start |
| Reflected.ReflectedEntity.ReadNext | sssm/db_entities/reflected.py:414-415 | one read of the log line answers as it would have at the start and keeps every earlier read cached |
| Reflected.ReadsInOrderPass | sssm/db_entities/reflected.py:414-415 | the reads in order pass exactly when every single read succeeds |
| Reflected.ReadsInOrderFirstFailure | sssm/db_entities/reflected.py:414-415 | reads in order that fail fail with the error of a read every earlier read of which succeeded |
| Reflected.HeldReadAgrees | sssm/db_entities/reflected.py:41-57 | part way through the reads, a read answers as it would have from the values and row held at the start |
| Reflected.ReadSoFarStep | sssm/db_entities/reflected.py:41-57 | a successful read that caches its value extends the reads so far by one |
| Reflected.CachedReadAgrees | sssm/db_entities/reflected.py:41-57 | a cache that agrees with the server answers as a fresh read would |
| Reflected.PkFieldsTruthy | sssm/db_entities/reflected.py:1083-1089 | the key columns are truthy exactly when the table lists a primary key |
| Reflected.PrependNothing | sssm/db_entities/reflected.py:1058-1064 | prepending nothing to a selection leaves it |
| Reflected.PrependTwice | sssm/db_entities/reflected.py:1058-1064 | prepending twice is prepending the concatenation |
| Reflected.SelectExact | sssm/db_entities/reflected.py:1058-1064 | a successful selection read every index and kept exactly those that pass the test |
| Reflected.SelectedNone | sssm/db_entities/reflected.py:1058-1064 | the selection invariant holds before any index is read |
| Reflected.SelectedNext | sssm/db_entities/reflected.py:1058-1064 | reading one more index keeps the invariant or is the selection's failure |
| Reflected.SelectedAll | sssm/db_entities/reflected.py:1058-1064 | the invariant after the last index is the selection's result |
| Reflected.SelectStep | sssm/db_entities/reflected.py:1058-1064 | the selection from an index on is decided by that index's read |
| Reflected.FirstClusteredFound | sssm/db_entities/reflected.py:1074-1078 | the first clustered index found is a listed index that reads as clustered |
| Reflected.RebuildOrderParts | sssm/db_entities/reflected.py:1066-1072 | the rebuild order is the clustered index followed by the non-clustered ones, failing as either read fails |
| Reflected.RebuildOrderCovers | sssm/db_entities/reflected.py:1066-1072 | a rebuild order starts with a clustered listed index and then holds exactly the non-clustered listed indexes |
| Reflected.RebuildsConcat | sssm/db_entities/reflected.py:1066-1072 | the rebuilds of two lists are the rebuilds of each, concatenated |
| Reflected.Rebuilds | sssm/db_entities/reflected.py:541-548 | one statement per index name |
| Changes.Add | sssm/db_entities/reflected.py:1148-1149 | a create statement the server refuses (name taken, parent missing) fails with a driver error and changes nothing; otherwise the object is added under its parent and the statement logged |
| Changes.AddedIsFound | sssm/db_entities/reflected.py:271-273 | an accepted create leaves the object found under its parent, and a second create of it is refused |
| Changes.NewNode | sssm/db_entities/reflected.py:738-740 | the created object has the declaration's type and name and no children |
| Changes.ColumnDefinition | sssm/db_entities/declared.py:131-136 | a column definition that cannot be rendered fails with ValueError |
| Changes.ColumnDefinitions | sssm/db_entities/reflected.py:1040-1046 | all column definitions render exactly when each one does, one per column, in order |
| Changes.TableNode | sssm/db_entities/reflected.py:1040-1046 | a new table holds exactly its declared columns, in order |
| Changes.ColumnNodes | sssm/db_entities/reflected.py:1040-1046 | one new column object per declared column, in order |
| Changes.RoleFieldsOverride | sssm/db_entities/reflected.py:1205-1206 | the latest role report overrides every earlier one |
| Changes.RolesReadBack | sssm/db_entities/reflected.py:1400-1401 | after the role statements the role attribute reads back as exactly the roles held |
| Changes.NoneListed | sssm/db_entities/reflected.py:1208-1218 | a role list with no members is empty |
| Changes.RoleStmts | sssm/db_entities/reflected.py:1214-1218 | one grant or revoke statement per role |
| Changes.SendRoles | sssm/db_entities/reflected.py:1191-1192 | each role is added to (or dropped from) the held set, one statement per role in order, and the row reports the new set |
| Changes.SendNext | sssm/db_entities/reflected.py:1191-1192 | one loop step keeps the roles-sent invariant |
| Changes.RoleStep | sssm/db_entities/reflected.py:1191-1192 | one more role adds its name to the set and its statement to the log |
| Changes.SendRole | sssm/db_entities/reflected.py:1192 | the statement for one role changes the held set by that role and logs one statement |
| Changes.ReconcileRoles | sssm/db_entities/reflected.py:1403-1409 | declared-minus-current roles are granted and current-minus-declared revoked; equal sets send nothing, and otherwise the row then reports exactly the declared roles |
| Changes.Create | sssm/db_entities/reflected.py:266-273 | the type's creation runs; its failure is the result; on success the object exists under its parent under the name it was created with |
| Changes.CreateAsWritten | sssm/db_entities/reflected.py:266-273 | as written, the check after creation passes exactly when the declared name exists |
| Changes.NamelessUserMissed | sssm/db_entities/reflected.py:1185-1189 | a user declared with an empty name is created under its login name, yet the empty name is not found afterwards |
| Changes.CreateEx | sssm/db_entities/reflected.py:276-281 | each type's creation has the effect its create specification states, and a success leaves the object on the server |
| Changes.CreateSingle | sssm/db_entities/reflected.py:1040-1046 | a table or a leaf object is created by one statement and then exists |
| Changes.CreateNode | sssm/db_entities/reflected.py:1148-1149 | an object without children is created by one statement and then exists |
| Changes.CreateTable | sssm/db_entities/reflected.py:1040-1046 | a table without columns fails the assertion; an unrenderable column fails with ValueError; otherwise the table is created holding its columns |
| Changes.CreateUser | sssm/db_entities/reflected.py:1185-1192 | the user is created under its name or else its login name, then granted each declared role |
| Changes.GrantDeclaredRoles | sssm/db_entities/reflected.py:1191-1192 | a role list that is not iterable fails with TypeError and sends nothing; otherwise one grant per role, and the user's row reports exactly the declared roles |
| Changes.CreatePartition | sssm/db_entities/reflected.py:897-936 | the column check comes first; then the function, the scheme and the index rebuild; a failed rebuild keeps the scheme and the statements sent before it failed; on success the scheme exists on the table |
| Changes.CreateScheme | sssm/db_entities/reflected.py:924-934 | the function and the scheme, then the rebuild of the indexes onto the scheme; a refused scheme leaves only the function's statement; a failed rebuild keeps the scheme and the trace holds the function, the scheme and any clustered rebuild sent before the failure |
| Changes.AddScheme | sssm/db_entities/reflected.py:924-931 | the partition function is sent with its daily boundaries, then the scheme is created under the name derived from the column, or refused as a duplicate |
| Changes.CheckPartitionColumn | sssm/db_entities/reflected.py:899-903 | a missing column fails with DBObjectDoesntExist, a failed read with its error, a type other than datetime or datetime2 with ValueError |
| Setters.WriteTouches | sssm/db_entities/reflected.py:517-528 | a setter's write touches the same server fields whatever value it writes |
| Setters.WriteAllMisses | sssm/db_entities/reflected.py:533-539 | writing attributes whose fields keep clear of a set of fields leaves those fields alone |
| Setters.WriteAllHas | sssm/db_entities/reflected.py:533-539 | the write of a whole declaration already contains the write of each attribute whose fields no other attribute touches |
| Setters.MapUnionAssoc | sssm/db_entities/reflected.py:533-539 | a write absorbed by a larger one stays absorbed after a further update |
| Setters.MapUnionDisjoint | sssm/db_entities/reflected.py:533-539 | repeating a write after disjoint fields changes nothing |
| Setters.ReadBack | sssm/db_entities/reflected.py:253-258 | the check after a setter passes exactly when the fresh read equals the declared value; a different value is DBNotAlteredAttribute, and it never answers False |
| Setters.AssignReadsBack | sssm/db_entities/reflected.py:517-528 | one attribute set on an existing object reads back as written |
| Setters.RebuildReadsBack | sssm/db_entities/reflected.py:533-539 | a key or index re-created from its declaration reads back each declared attribute |
| Setters.KeyFieldsApart | sssm/db_entities/reflected.py:493-515 | the attributes of a key or an index each write fields of their own |
| Setters.AlteredFieldsApart | sssm/db_entities/reflected.py:753-783 | the column attributes an alter sets each write a field of their own |
| Setters.ReadsBackAfter | sssm/db_entities/reflected.py:817-827 | after several attributes whose fields are apart are set together, each reads back as written |
| Setters.AlterReadsBack | sssm/db_entities/reflected.py:817-827 | a column altered from its declaration reads back each altered attribute as declared |
| Setters.SetAttribute | sssm/db_entities/reflected.py:233-260 | no setter or a declined prompt returns False and changes nothing; otherwise the setter runs, its failure is the result, and True means the fresh read equals the declared value |
| Setters.ReadFresh | sssm/db_entities/reflected.py:253-255 | the value after the reset is the one a new object reads from the server |
| Setters.RunSetter | sssm/db_entities/reflected.py:240-251 | the type's setter for the attribute runs with the effect the setter specification gives it |
| Setters.AssignAttribute | sssm/db_entities/reflected.py:517-528 | compression, recovery model and owner are each set by one statement that updates that attribute on an existing object |
| Setters.RebuildFromDeclaration | sssm/db_entities/reflected.py:533-539 | the key or index is re-created in place from the declaration, and so reads back every declared attribute |
| Setters.RecreateKeyAsWritten | sssm/db_entities/reflected.py:475-491 | as written, the re-creation of a primary key that is on the server is refused and changes nothing |
| Setters.AlterColumn | sssm/db_entities/reflected.py:817-827 | one ALTER COLUMN from the declaration, then every cached value dropped; an unrenderable definition fails with ValueError |
| Setters.ChangeDataType | sssm/db_entities/reflected.py:809-815 | the column is altered only when no index uses it; when one does, the state is that of offering the first such index alone and the column is not altered |
| Setters.MakeIdentity | sssm/db_entities/reflected.py:785-792 | a table with a primary key refuses with an exception and changes nothing; otherwise the column deletion is offered (declined: nothing; an index uses it: only that index is offered and the column stays), and unless it failed the column is then created from the declaration on the resulting tree |
| Setters.RecreateColumn | sssm/db_entities/reflected.py:790-792 | the deletion is offered, a failure is the result with nothing more sent, and otherwise the column is created from the declaration on the tree the offer left |
| Setters.OfferColumn | sssm/db_entities/reflected.py:791 | `self.delete()` on a column has exactly the outcome, tree and statements of offering its deletion |
| Setters.IndexedColumnKeepsType | sssm/db_entities/reflected.py:233-260 | when an index uses the column, an approved `data_type` change either fails with AttributeError or reads back the type the column had before; when that type differs from the declared one the result is DBNotAlteredAttributeError |
| Setters.CheckNoKey | sssm/db_entities/reflected.py:787-789 | a table whose key columns are truthy refuses with an exception; a failed read fails |
| Setters.SetDbRoles | sssm/db_entities/reflected.py:1208-1218 | the user's roles are reconciled with the declaration unless its login owns the database |
| Setters.RolesUnlessOwner | sssm/db_entities/reflected.py:1210-1218 | a failed login read fails and an owning login changes nothing; otherwise the roles are reconciled |
| Setters.ReadLogin | sssm/db_entities/reflected.py:1210 | the login read leaves what the roles read unchanged |
| Setters.OtherReadKept | sssm/db_entities/reflected.py:41-57 | reading one attribute keeps what another reads |
| Setters.SetServerRoles | sssm/db_entities/reflected.py:1403-1409 | the login's server roles are reconciled with the declaration |
| Setters.ReconcileWithDeclared | sssm/db_entities/reflected.py:1403-1409 | declared-minus-current roles granted, current-minus-declared revoked, reading the current roles through the cache |
| Lookup.FirstKeyed | sssm/db_entities/reflected.py:1175-1183 | the first listed object whose key attribute matches, with no earlier match; none exactly when nothing matches |
| Lookup.PkFound | sssm/db_entities/reflected.py:461-472 | the table's key is found exactly when it has one whose lower-cased columns equal the declared ones, lower-cased; an empty key against empty declared columns raises IndexError |
| Lookup.IndexMatchSound | sssm/db_entities/reflected.py:589-597 | the index found is a listed one equal to the declaration, and none is found only when no listed index is equal |
| Lookup.FoundIsEqual | sssm/db_entities/reflected.py:395-409 | whatever `from_declared` finds compares equal to the declaration |
| Lookup.FromDeclared | sssm/db_entities/reflected.py:89-95 | a new coherent child object named as the type's lookup finds it; otherwise the lookup's error, DBObjectDoesntExist when nothing is found |
| Lookup.FindEqualIndex | sssm/db_entities/reflected.py:591-595 | the scan over the table's index objects agrees with the index-match specification |
| Lookup.EqualsIndex | sssm/db_entities/reflected.py:658-664 | an index equals a declaration exactly when its row matches it, columns and included columns |
| Lookup.GetOrCreate | sssm/db_entities/reflected.py:108-122 | an existing counterpart is returned and nothing is sent; a missing one of a type that cannot be created gives None; otherwise it is created and looked up again, and any object returned is what the lookup finds |
| Lookup.CreateAndFind | sssm/db_entities/reflected.py:117-119 | the creation's failure is the result; otherwise the second lookup's object or its error |
| Lookup.GetOrCreateChild | sssm/db_entities/reflected.py:139-143 | a type that is not a child type fails with InvalidDBEntityChild and changes nothing; an existing child is returned without any change |
| Lookup.RenameChildWithOldName | sssm/db_entities/reflected.py:127-137 | without a child of the declared old name nothing happens; otherwise that child is renamed to the declared name, and a declared name another child of the type already has is refused with the driver error and nothing changed |
| Lookup.RenameOldChild | sssm/db_entities/reflected.py:134-135 | the child found under the old name is renamed to the declared name, unless another child of the type has that name, when the server refuses and nothing changes |
| Align.Level | sssm/align.py:19-41 | the calls that work on one object are a subsequence of the calls made |
| Align.LevelMembers | sssm/align.py:19-41 | a call is at an object's level exactly when it is made and works on that object |
| Align.LevelConcat | sssm/align.py:19-41 | the level of two runs of calls is the level of each, in order |
| Align.LevelBelow | sssm/align.py:78-81 | the calls made while aligning a child leave nothing at the parent's level |
| Align.LevelAll | sssm/align.py:31-36 | calls that all work on one object make up its whole level |
| Align.SetCalls | sssm/align.py:31-36 | at most one set per compared attribute |
| Align.SetCallsAtLevel | sssm/align.py:31-36 | every call of the attribute loop is a set of one of its attributes on the object itself |
| Align.SetCallsIff | sssm/align.py:32-36 | with each attribute compared once, an attribute is set exactly when the value read differs from the declared one |
| Align.AttributeSetsIff | sssm/align.py:31-36 | an attribute of the registry is set exactly when the value read differs from the declared one |
| Align.Kids | sssm/align.py:52-53 | the declared children of a type, none when the type is not declared |
| Align.AnyMatch | sssm/align.py:60 | `any` over no declared child is False |
| Align.AnyMatchFalse | sssm/align.py:60 | `any` is False exactly when every comparison is False |
| Align.AnyMatchWitness | sssm/align.py:60 | a True or a failure from `any` is the result of some comparison |
| Align.Handle | sssm/align.py:69-81 | a declared child with a truthy old name gets the rename and then the lookup or creation under its name; any other gets only the lookup or creation |
| Align.Plan | sssm/align.py:69-81 | at least one call per declared child |
| Align.PlanConcat | sssm/align.py:69-81 | the calls for two runs of declared children are the calls for each, in order |
| Align.PlanOrder | sssm/align.py:69-81 | declared children are handled one after another, in declaration order |
| Align.TypeLevel | sssm/align.py:52-81 | a type the declaration leaves out gets no call; otherwise the deletions come first, then the calls for the declared children |
| Align.Walk | sssm/align.py:38-40 | no child type, no call |
| Align.WalkConcat | sssm/align.py:38-40 | the walk over the child types is the walk over each part in turn |
| Align.WithinConcat | sssm/align.py:19-41 | calls within an object's subtree stay within it when concatenated |
| Align.AtLevelThen | sssm/align.py:19-41 | calls on the object followed by calls below it leave the first ones as its level's head |
| Align.HandleThenBelow | sssm/align.py:78-81 | the calls for one declared child followed by its own alignment put only the former at the parent's level |
| Align.HandleAtLevel | sssm/align.py:69-81 | the calls for a declared child work on the parent, name a child of that type, and set no attribute |
| Align.PrefixAtLevel | sssm/align.py:69-81 | a prefix of calls on the object stays on it |
| Align.HandledStep | sssm/align.py:69-81 | handling one more declared child keeps the loop invariant |
| Align.HandledAll | sssm/align.py:69-81 | when the loop over declared children completes, the parent's level is exactly the plan for them |
| Align.WalkedStep | sssm/align.py:38-40 | aligning one more child type keeps the loop invariant |
| Align.DeletionsFirst | sssm/align.py:53-81 | the deletions for a type come before the calls for its declared children |
| Align.AlignAttributes | sssm/align.py:31-36 | each registry attribute is read in order and set exactly when it differs from the declaration; up to and including the first set, the values compared are those cached before the loop; every set works on the object itself; nothing is sent unless a set is called |
| Align.FirstDiffMeaning | sssm/align.py:31-36 | every attribute compared before the first set was as declared, and the one set first differed |
| Align.SeenNext | sssm/align.py:31-36 | one more compare keeps the compared values tied to the cache up to the first set, and moves the first set only when this value is the first to differ |
| Align.AttributeLoop | sssm/align.py:31-36 | the loop over a cached registry list makes exactly the set calls of the attributes compared, and compares the cached values up to and including the first set |
| Align.AlignAttribute | sssm/align.py:32-36 | the value read is what the cached read of the attribute answers, the cached value when there is one; a set call is made exactly when it differs from the declared value; a failed read makes no call and fails; without a set, a held row and cache stay as they were |
| Align.AnyEquals | sssm/align.py:60 | a new child object's comparison with the declared children agrees with the `any` specification |
| Align.DeleteIfUndeclared | sssm/align.py:59-66 | the deletion offered is exactly this child when no declared child equals it and none otherwise; a failed comparison is the result, and a match passes without change |
| Align.DeleteEach | sssm/align.py:57-66 | the deletions offered are, in listing order, exactly the listed children up to where it stopped that no declared child equals; when it passes, that is every listed child |
| Align.DeleteUndeclared | sssm/align.py:55-66 | a type that is not a child type fails with InvalidDBEntityChild; when it passes, the deletions offered are, in listing order, exactly the children the server listed that no declared child equals |
| Align.OfferedExactly | sssm/align.py:55-66 | the offered deletions are all of unmatched children, each listed child that no declared child equals is among them, and each one is of a listed child with its row |
| Align.JudgedNext | sssm/align.py:59-66 | judging the next listed child appends exactly that child's offer, judged on its row, to the earlier offers |
| Align.OfferedFrom | sssm/align.py:57-66 | the deletions offered over any first part of a listing match no declared child, and each names a listed child |
| Align.AlignEntity | sssm/align.py:19-41 | the log line's reads come first: when one fails its error ends the call and nothing is sent; then different types fail the assertion and nothing is sent; the values compared up to and including the first set are those the server held at the start; the attribute sets come first; on success the object's level is the sets followed by the walk over every declared child type, and every deletion is of an undeclared child of a type not ignored |
| Align.AlignShown | sssm/align.py:29-40 | on an object whose attributes are cached: different types fail the assertion with nothing sent; the values compared up to the first set are the cached ones; the sets come before the walk over the child types |
| Align.StartValues | sssm/align.py:27-32 | the values compared before any set are those read for the log line, which are what the object held or the server's row gave at the start |
| Align.AlignChildren | sssm/align.py:38-40 | each declared child type is aligned in order, and the object's level is the walk over them |
| Align.AlignChildType | sssm/align.py:43-81 | a type the declaration leaves out is left alone; otherwise, unless the type is ignored, every listed child that no declared child equals is offered for deletion in listing order, before the declared children are handled |
| Align.HandleDeclared | sssm/align.py:69-81 | the declared children are handled in declaration order, and on success the object's level is exactly their plan |
| Align.HandleChild | sssm/align.py:70-81 | the calls for one declared child, followed by the alignment of its counterpart below it |
| Align.Counterpart | sssm/align.py:70-79 | the rename, then the lookup or creation; a counterpart returned is a new object under the parent |
| Align.AlignServer | sssm/align.py:8-16 | a declaration that is not a server fails the assertion and changes nothing; otherwise the server's level is the walk over its declared child types |
| Values.Truthy | sssm/align.py:71 | None is false, a boolean is itself, and a text is true exactly when it is not empty |
| Values.Lower | sssm/db_entities/reflected.py:466-467 | lower-casing keeps the length, maps each letter and leaves no upper-case letter |
| Reflected.Server.constructor | sssm/db_entities/reflected.py:65-76 | a connection starts with the given server state and an empty statement trace |
| Declared.DeclaredEntity.Init | sssm/db_entities/declared.py:13-45 | a new declared object has its type, name, old name and ignore policy, and no attribute or child yet |
| DeclaredTypes.ItemsOf | sssm/db_entities/reflected.py:1191 | iterating None, a boolean or a number fails; a tuple or set yields its elements |
| DeclaredTypes.IncludedValue | sssm/db_entities/declared.py:272-273 | falsy included columns become None; otherwise the lower-cased set, and a value that cannot be iterated is TypeError |

## Left out

- The SQL text of `sssm/sql.py` is not part of this model. Every statement is an opaque `Stmt` token, and its effect is the edit it makes to the live object tree. The reads that only feed that text are left out with it: `create_helper` of keys and indexes reads `columns`, `included_columns` and, when no `create_on` is given, the table's partitions (`sssm/db_entities/reflected.py:610-624`), and none of these reads is modelled in `Setters.RebuildFromDeclaration` or `Reflected.ReflectedEntity.SendRebuilds`.
- Cursor and driver plumbing is left out: `ex`, commits, `AutoCommit`, the `USE` statement sent by a database object, and `from_cursor` / `get_current_database`. `AlignServer` builds the server object directly on a `Server` connection.
- The `input()` prompts are replaced by the connection's `answer` oracle, which says for each prompt whether the operator types `y`.
- `date.today()` is the connection's `today` day number. The minimum and maximum of a column's data are the `dataDays` parameter. The availability-group query is the `inAvailabilityGroup` parameter.
- Moving database files (`change_db_file_path`) is modelled as one statement that sets the path, refused for a database in an availability group. The file move, the `OFFLINE`/`ONLINE` steps and `set_db_file_size` are left out; they are operator I/O.
- Table compression, `has_data`, `clear_data`, `truncate_partitions`, `set_identity_insert` and the CDC maximum LSN are left out. Alignment never calls them.
- Partition range maintenance (`get_function_name`, `get_boundary_values`, `get_number_for_value`, `extend_range`, `merge_unitl_date`) is left out. It is operator maintenance outside alignment, and it reads driver datetime rows.
- DeclaredTree.TenthOf: the default log size is the integer quotient of the data size by ten, where Python produces a float. A decimal data size (`VDecimal`) is refused with TypeError, where Python divides a `Decimal` or a float without error; a tenth of a two-place decimal is not a two-place decimal, and the model's values compare unequal across variants where Python's `10.0 == 10` holds.
- DeclaredTree.PosixJoin: `os.path.join` is modelled with POSIX rules only. Windows drive letters and the `ntpath` rules are not modelled.
- The declared `get_object_by_id` and `get_child_by_name` (sssm/db_entities/declared.py:81-104) are not modelled. They iterate a `child_objects` attribute that no class defines, so they raise AttributeError whatever the input.
- The reflected `get_object_by_id` and `get_child_from_declared` are not modelled separately. They are a chain of `GetChildByName` calls and a call of the type's lookup, and alignment uses neither.
- `Table.get_clustered_index_fields` (sssm/db_entities/declared.py:311-317) is not modelled; nothing in the core calls it.
- Foreign keys can be declared, but no table type lists them as a child type, so alignment never reaches them. Their reflected `_create_ex`, `from_declared` and `_delete_ex` are not modelled.
- Values compare structurally: Python's `True == 1` and `False == 0` are not reproduced. The attributes that are compared hold values of one kind on both sides.
- Logging, `__str__`, the text `display_details` builds, the configuration example and the exception class hierarchy are left out. Exceptions are the `Error` datatype, carried by `Result` and `Outcome`. The reads `display_details` makes for the log line are modelled by `Reflected.ReflectedEntity.DisplayDetails`, because they fill the attribute cache that `align_entity` then compares; the repeated read in the `log.info` line of a difference hits that cache and changes nothing.
- ColumnTypes.ParamText: a set or tuple parameter is written as empty text, where Python writes its repr. The rendering round trip is stated for plain parameters only (integers, `None`, booleans, and strings that are none of these and hold no comma or space); a string such as `'max'` is carried through as it is, and a decimal is written as Python writes a two-place `Decimal`.
- Lookups of users and partitions are key matches on the listed objects' rows (the login name; the partition column). The server-side queries they stand for are not modelled.
- A partition's creation renames the declaration to the scheme name so that the check after it passes. The model does not mutate the declaration: `CreatedName` is the name the check looks up.
- Align.AlignAttributes: after the first set, the values compared are not tied to the cache or the server by contract, because the setters' contracts do not state what they leave cached for other attributes (`_alter_column` resets them all). Each later read is tied to the state before it by `Align.AlignAttribute`.
- Align.AlignChildren: that every listed child matching no declaration is offered for deletion, in listing order, is stated per child type by `Align.AlignChildType`, against the tree as it stands when that type is reached. Across the walk over several types, `Align.AlignChildren` and `Align.AlignEntity` carry only the converse (each deletion is of an undeclared child), because deletions and alignments of earlier types change the tree the later listings read.
- Align.AlignEntity: the calls below each child are stated to lie within that child's subtree. Their exact content is stated level by level by the recursive calls, not as one trace of the whole walk.
- Lookup.GetOrCreate: after a creation, the result is stated to be what the second lookup finds. That the object then exists under the creation name is stated by `Changes.Create`, not repeated here.
- Setters.RunSetter: a primary key's `clustered` setter runs the corrected re-creation `Setters.RebuildFromDeclaration` (first row of "## Findings"). As written, the key's `ADD CONSTRAINT` is refused by the server because the key is still there; `Setters.RecreateKeyAsWritten` models and proves that behaviour.
- Setters.SetAttribute: it calls `Setters.RunSetter`, so a primary key's `clustered` change follows the corrected re-creation, not the refused one of `Setters.RecreateKeyAsWritten`.
- Lookup.CreateAndFind: the creation is the corrected `Changes.Create` (second row of "## Findings"), whose check after creation looks up the name the object was created under. As written, a user declared without a name is created under its login name and the check raises DBError; `Changes.CreateAsWritten` and `Changes.NamelessUserMissed` model and prove that behaviour.
- Lookup.GetOrCreate: it calls `Lookup.CreateAndFind`, so a nameless user is found after creation, unlike the DBError of `Changes.NamelessUserMissed`.
- Reflected.ColumnText: a cached `column` value that is not text names the partition function as if it were empty text. A value read from the server is always text, since `get_attr_column` lower-cases the column name.
- Reflected.Server.Exec: the modelled server refuses only a create (`Changes.Refused`) and a rename onto a taken name (`Reflected.RenameRefused`). Every alter, rebuild, grant, revoke and drop takes effect as its edit says; permissions, locks and dependencies that make a real server refuse one are not modelled. The partition function's creation (`CreatePartitionFunctionStmt`, sent by `Changes.AddScheme`) only extends the trace, since the live tree holds no partition functions, so it is never refused, although a real server refuses a function name that already exists.
- Rules.ReadSize: a numeral string is read by `int` only in the form `-` and digits; the signs, spaces and underscores Python's `int` also accepts are not modelled. The server reports sizes as decimals, so no string reaches this read.
- Values.Lower: strings are sequences of characters; `str.lower()` is modelled on ASCII letters only.

## Findings

| source | as written | input that shows it | evidently intended | confidence | as-written member | corrected member |
|---|---|---|---|---|---|---|
| sssm/db_entities/reflected.py:475-491 | `set_attr_clustered` on a primary key calls `recreate_new_attributes`, which passes `drop_existing=True` to the key's `create_helper`; that helper ignores the flag and sends `ALTER TABLE ... ADD CONSTRAINT` for a key that is still there | a table whose primary key is declared clustered while the live key is non-clustered | the key is rebuilt in place with the declared attributes | not executed | Setters.RecreateKeyAsWritten | Setters.RebuildFromDeclaration |
| sssm/db_entities/reflected.py:266-273 | `create` checks for the declared name after `_create_ex`, but a user declared without a name is created under its login name | `User("", "bob")`: the user is created as `bob`, then the check looks up `""` and raises DBError | the check looks up the name the object was created under | not executed | Changes.NamelessUserMissed | Changes.Create |
| sssm/db_entities/declared.py:398-411 | `add_table` calls `get_child("schemas", ...)`, which iterates the `None` that `get_children` returns for a database with no schema | a Database declared with neither `tables` nor `schemas`, then `add_table(Table(...))` | the missing schema is created and the table added to it | not executed | DeclaredTree.AddTableAsWritten | DeclaredTree.AddTable |
