/** The declared tree: the in-memory description of the schema the server should
    have. Each node is built once from keyword arguments (children and attributes
    mixed in one dictionary), validated, and then only grows by `add_child`.
    Alignment reads a node through its value `Decl`, which the tree does not change
    while alignment runs. */
module Declared {
  import opened Values
  import opened Attributes

  /** Declared names are cut to their first 128 characters. */
  const MaxNameLength: nat := 128

  function TruncateName(name: string): (r: string)
    ensures |r| == if |name| <= MaxNameLength then |name| else MaxNameLength
    ensures r == name[..|r|]
  {
    if |name| <= MaxNameLength then name else name[..MaxNameLength]
  }

  /** The normalised `ignore_extra_children` policy: a set of child type names, or
      any other value, of which only the truthiness matters. */
  datatype IgnorePolicy = IgnoreTypes(types: set<string>) | IgnoreFlag(flag: bool)

  /** A list or tuple becomes a set; a set stays a set; anything else is kept for its
      truthiness. */
  function NormalizeIgnore(arg: Value): IgnorePolicy
  {
    match arg
    case VTuple(elems) => IgnoreTypes(set x | x in elems)
    case VSet(items) => IgnoreTypes(items)
    case _ => IgnoreFlag(Truthy(arg))
  }

  predicate Ignores(p: IgnorePolicy, typeName: string)
  {
    match p
    case IgnoreTypes(types) => typeName in types
    case IgnoreFlag(flag) => flag
  }

  /** What the policy means for the argument a declaration was written with: None
      ignores nothing, True everything, a list or set exactly its members, and any
      non-empty string (not being a list) everything. */
  lemma IgnoreSemantics(arg: Value, typeName: string)
    ensures arg == VNone ==> !Ignores(NormalizeIgnore(arg), typeName)
    ensures arg.VBool? ==> (Ignores(NormalizeIgnore(arg), typeName) <==> arg.b)
    ensures arg.VTuple? ==> (Ignores(NormalizeIgnore(arg), typeName) <==> typeName in arg.elems)
    ensures arg.VSet? ==> (Ignores(NormalizeIgnore(arg), typeName) <==> typeName in arg.items)
    ensures arg.VStr? ==> (Ignores(NormalizeIgnore(arg), typeName) <==> arg.s != "")
  {
  }

  /** One keyword argument of a declaration: a plain value, one declared entity, a
      list of them, or a non-empty list holding something that is not a declared
      entity. */
  datatype Arg = Val(v: Value) | Entity(e: DeclaredEntity) | Entities(es: seq<DeclaredEntity>) | Mixed

  /** Python truthiness of a keyword argument. */
  predicate ArgTruthy(a: Arg)
  {
    match a
    case Val(v) => Truthy(v)
    case Entity(_) => true
    case Entities(es) => es != []
    case Mixed => true
  }

  /** The entities a child keyword stands for once a lone value is wrapped in a list.
      None and an empty tuple add nothing; any other plain value becomes a child that
      is not an entity, which `add_child` rejects. */
  function ChildEntities(a: Arg): (r: Result<seq<DeclaredEntity>>)
    ensures r.Fail? ==> r.error == InvalidDBEntityChild
    ensures r.Fail? <==> a.Mixed? || (a.Val? && a.v != VNone && a.v != VTuple([]))
    ensures r.Ok? ==> r.value == ArgEntities(a)
  {
    match a
    case Val(v) => if v == VNone || v == VTuple([]) then Ok([]) else Fail(InvalidDBEntityChild)
    case Entity(e) => Ok([e])
    case Entities(es) => Ok(es)
    case Mixed => Fail(InvalidDBEntityChild)
  }

  /** The declared entities a keyword argument holds. */
  function ArgEntities(a: Arg): seq<DeclaredEntity>
  {
    match a
    case Entity(e) => [e]
    case Entities(es) => es
    case _ => []
  }

  /** The children already added of type `t`, or the empty list. */
  function KidsOf(m: map<EntityType, seq<DeclaredEntity>>, t: EntityType): seq<DeclaredEntity>
  {
    if t in m then m[t] else []
  }

  /** One `add_child` on a children dictionary: rejected unless the child's type is a
      child type of `kind`, else appended to the list of its own type. */
  function AddOne(kind: EntityType, m: map<EntityType, seq<DeclaredEntity>>, c: DeclaredEntity)
    : (r: Result<map<EntityType, seq<DeclaredEntity>>>)
    ensures r.Fail? <==> c.kind !in DeclaredChildTypes(kind)
    ensures r.Fail? ==> r.error == InvalidDBEntityChild
    ensures r.Ok? ==> r.value.Keys == m.Keys + {c.kind}
    ensures r.Ok? ==> r.value[c.kind] == KidsOf(m, c.kind) + [c]
    ensures r.Ok? ==> forall t :: t in m && t != c.kind ==> r.value[t] == m[t]
  {
    if c.kind in DeclaredChildTypes(kind) then Ok(m[c.kind := KidsOf(m, c.kind) + [c]])
    else Fail(InvalidDBEntityChild)
  }

  /** `add_child` for each entity of a list, in order, stopping at the first rejection. */
  function AddAll(kind: EntityType, m: map<EntityType, seq<DeclaredEntity>>, es: seq<DeclaredEntity>)
    : (r: Result<map<EntityType, seq<DeclaredEntity>>>)
    decreases |es|
  {
    if es == [] then Ok(m)
    else
      var m' :- AddOne(kind, m, es[0]);
      AddAll(kind, m', es[1..])
  }

  /** The children one child-type keyword contributes: nothing when the keyword is
      absent, else its entities added in list order. */
  function AddKeyword(kind: EntityType, t: EntityType, kwargs: map<string, Arg>,
                      m: map<EntityType, seq<DeclaredEntity>>)
    : (r: Result<map<EntityType, seq<DeclaredEntity>>>)
  {
    if TypeName(t) !in kwargs then Ok(m)
    else
      var es :- ChildEntities(kwargs[TypeName(t)]);
      AddAll(kind, m, es)
  }

  /** The children dictionary `__init__` builds: child types visited in `child_types`
      order, each keyword's entities added in list order. */
  function FillChildren(kind: EntityType, types: seq<EntityType>, kwargs: map<string, Arg>,
                        m: map<EntityType, seq<DeclaredEntity>>)
    : (r: Result<map<EntityType, seq<DeclaredEntity>>>)
    decreases |types|
  {
    if types == [] then Ok(m)
    else
      var m' :- AddKeyword(kind, types[0], kwargs, m);
      FillChildren(kind, types[1..], kwargs, m')
  }

  /** `setattr(self, a, kwargs.pop(a))` for each registry attribute in order: a
      missing keyword is a KeyError. */
  function TakeAttributes(names: seq<string>, kwargs: map<string, Arg>, acc: map<string, Value>)
    : (r: Result<map<string, Value>>)
    requires forall a :: a in names && a in kwargs ==> kwargs[a].Val?
    ensures r.Fail? <==> exists a :: a in names && a !in kwargs
    ensures r.Fail? ==> r.error == KeyError
    ensures r.Ok? ==> r.value.Keys == acc.Keys + (set a | a in names)
    ensures r.Ok? ==> forall a :: a in names ==> r.value[a] == kwargs[a].v
    ensures r.Ok? ==> forall a :: a in acc && a !in names ==> r.value[a] == acc[a]
    decreases |names|
  {
    if names == [] then Ok(acc)
    else if names[0] !in kwargs then Fail(KeyError)
    else TakeAttributes(names[1..], kwargs, acc[names[0] := kwargs[names[0]].v])
  }

  /** The keywords `__init__` consumes for a node of type `kind`. */
  function ConsumedKeys(kind: EntityType): set<string>
  {
    (set t | t in DeclaredChildTypes(kind) :: TypeName(t)) + (set a | a in ValidAttributes(kind))
  }

  /** The outcome of `DeclaredEntity.__init__`: the error it raises, or the children
      dictionary and the attributes. The checks run in the order of the Python constructor: a None
      name, then the children, then missing attributes, then leftover keywords. */
  function Construction(kind: EntityType, name: Option<string>, kwargs: map<string, Arg>)
    : (r: Result<(map<EntityType, seq<DeclaredEntity>>, map<string, Value>)>)
    requires forall a :: a in ValidAttributes(kind) && a in kwargs ==> kwargs[a].Val?
    ensures name == None ==> r == Fail(DBError)
    ensures r.Ok? ==> kwargs.Keys <= ConsumedKeys(kind)
    ensures r.Ok? ==> FillChildren(kind, DeclaredChildTypes(kind), kwargs, map[]) == Ok(r.value.0)
    ensures r.Ok? ==> forall a :: a in ValidAttributes(kind) ==> a in kwargs
    ensures r.Ok? ==> r.value.1.Keys == set a | a in ValidAttributes(kind)
    ensures r.Ok? ==> forall a :: a in ValidAttributes(kind) ==> r.value.1[a] == kwargs[a].v
    ensures (r.Fail? && name.Some? && FillChildren(kind, DeclaredChildTypes(kind), kwargs, map[]).Ok?
             && forall a :: a in ValidAttributes(kind) ==> a in kwargs) ==> r.error == ValueError
  {
    if name.None? then Fail(DBError)
    else
      var children :- FillChildren(kind, DeclaredChildTypes(kind), kwargs, map[]);
      var attrs :- TakeAttributes(ValidAttributes(kind), kwargs, map[]);
      if kwargs.Keys - ConsumedKeys(kind) != {} then Fail(ValueError)
      else
        assert kwargs.Keys <= ConsumedKeys(kind) by {
          forall k | k in kwargs.Keys ensures k in ConsumedKeys(kind) {
            assert k !in kwargs.Keys - ConsumedKeys(kind);
          }
        }
        Ok((children, attrs))
  }

  /** Construction succeeds for a named node whose children phase succeeds, whose
      registry attributes are all given and whose keywords are all consumed. */
  lemma ConstructionSucceeds(kind: EntityType, name: Option<string>, kwargs: map<string, Arg>)
    requires forall a :: a in ValidAttributes(kind) && a in kwargs ==> kwargs[a].Val?
    requires name.Some?
    requires FillChildren(kind, DeclaredChildTypes(kind), kwargs, map[]).Ok?
    requires forall a :: a in ValidAttributes(kind) ==> a in kwargs
    requires forall k :: k in kwargs ==> k in ConsumedKeys(kind)
    ensures Construction(kind, name, kwargs).Ok?
  {
    assert kwargs.Keys - ConsumedKeys(kind) == {};
  }

  /** Child keywords that are all absent leave the children dictionary as it is. */
  lemma {:induction false} FillChildrenAbsent(kind: EntityType, types: seq<EntityType>,
                                              kwargs: map<string, Arg>,
                                              m: map<EntityType, seq<DeclaredEntity>>)
    requires forall t :: t in types ==> TypeName(t) !in kwargs
    ensures FillChildren(kind, types, kwargs, m) == Ok(m)
    decreases |types|
  {
    if types != [] {
      assert types[0] in types;
      FillChildrenAbsent(kind, types[1..], kwargs, m);
    }
  }

  lemma AppendThenConcat<T>(a: seq<T>, s: seq<T>)
    requires s != []
    ensures (a + [s[0]]) + s[1..] == a + s
  {
    assert [s[0]] + s[1..] == s;
  }

  lemma UpdateTwice<K, V>(m: map<K, V>, k: K, a: V, b: V)
    ensures m[k := a][k := b] == m[k := b]
  {
  }

  /** Entities of one admissible type are appended, in order, to that type's list. */
  lemma {:induction false} AddAllSameKind(kind: EntityType, m: map<EntityType, seq<DeclaredEntity>>,
                                          es: seq<DeclaredEntity>, t: EntityType)
    requires t in DeclaredChildTypes(kind)
    requires forall c :: c in es ==> c.kind == t
    ensures AddAll(kind, m, es) == Ok(if es == [] then m else m[t := KidsOf(m, t) + es])
    decreases |es|
  {
    if es != [] {
      assert es[0] in es;
      var m1 := m[t := KidsOf(m, t) + [es[0]]];
      assert AddOne(kind, m, es[0]) == Ok(m1);
      var tail := es[1..];
      assert forall c :: c in tail ==> c in es;
      AddAllSameKind(kind, m1, tail, t);
      var all := KidsOf(m, t) + es;
      if tail == [] {
        assert es == [es[0]];
      } else {
        AppendThenConcat(KidsOf(m, t), es);
        UpdateTwice(m, t, KidsOf(m, t) + [es[0]], all);
      }
    }
  }

  /** A list of entities is added only when every one of them has a child type. */
  lemma {:induction false} AddAllChildTypes(kind: EntityType, m: map<EntityType, seq<DeclaredEntity>>,
                                            es: seq<DeclaredEntity>)
    requires AddAll(kind, m, es).Ok?
    ensures forall c :: c in es ==> c.kind in DeclaredChildTypes(kind)
    decreases |es|
  {
    if es != [] {
      AddAllChildTypes(kind, AddOne(kind, m, es[0]).value, es[1..]);
      forall c | c in es ensures c.kind in DeclaredChildTypes(kind) {
        if c != es[0] {
          assert c in es[1..];
        }
      }
    }
  }

  /** Adding children only appends: every list of the dictionary before is a prefix
      of the list of the same type after. */
  lemma {:induction false} AddAllExtends(kind: EntityType, m: map<EntityType, seq<DeclaredEntity>>,
                                         es: seq<DeclaredEntity>)
    requires AddAll(kind, m, es).Ok?
    ensures forall t :: KidsOf(m, t) <= KidsOf(AddAll(kind, m, es).value, t)
    decreases |es|
  {
    if es != [] {
      var m1 := AddOne(kind, m, es[0]).value;
      AddAllExtends(kind, m1, es[1..]);
      forall t ensures KidsOf(m, t) <= KidsOf(m1, t) {
      }
    }
  }

  /** The children phase only appends to the lists it starts from. */
  lemma {:induction false} FillChildrenExtends(kind: EntityType, types: seq<EntityType>,
                                               kwargs: map<string, Arg>,
                                               m: map<EntityType, seq<DeclaredEntity>>)
    requires FillChildren(kind, types, kwargs, m).Ok?
    ensures forall t :: KidsOf(m, t) <= KidsOf(FillChildren(kind, types, kwargs, m).value, t)
    decreases |types|
  {
    if types != [] {
      var m1 := AddKeyword(kind, types[0], kwargs, m).value;
      if TypeName(types[0]) in kwargs {
        AddAllExtends(kind, m, ChildEntities(kwargs[TypeName(types[0])]).value);
      }
      FillChildrenExtends(kind, types[1..], kwargs, m1);
    }
  }

  /** The entities a child-type keyword contributes, or none when it is absent. */
  function KeywordEntities(kwargs: map<string, Arg>, u: EntityType): seq<DeclaredEntity>
  {
    if TypeName(u) in kwargs then ArgEntities(kwargs[TypeName(u)]) else []
  }

  /** Child-type keywords that each carry entities of their own type only. */
  predicate KeywordsSorted(types: seq<EntityType>, kwargs: map<string, Arg>)
  {
    forall u :: u in types && TypeName(u) in kwargs ==>
      ChildEntities(kwargs[TypeName(u)]).Ok? && forall c :: c in ArgEntities(kwargs[TypeName(u)]) ==> c.kind == u
  }

  /** When every child-type keyword carries entities of its own type, the
      children phase succeeds and files each keyword's entities, in order, after
      those already under that type; a type is a key exactly when it was one
      before or its keyword brought an entity. */
  lemma {:induction false} FillSorted(kind: EntityType, types: seq<EntityType>, kwargs: map<string, Arg>,
                                      m: map<EntityType, seq<DeclaredEntity>>)
    requires forall u :: u in types ==> u in DeclaredChildTypes(kind)
    requires NoDuplicates(types)
    requires KeywordsSorted(types, kwargs)
    ensures FillChildren(kind, types, kwargs, m).Ok?
    ensures forall u :: KidsOf(FillChildren(kind, types, kwargs, m).value, u) ==
                        KidsOf(m, u) + (if u in types then KeywordEntities(kwargs, u) else [])
    ensures forall u :: u in FillChildren(kind, types, kwargs, m).value <==>
                        u in m || (u in types && KeywordEntities(kwargs, u) != [])
    decreases |types|
  {
    if types != [] {
      var u := types[0];
      var rest := types[1..];
      NoDuplicatesTail(types);
      var es := KeywordEntities(kwargs, u);
      assert forall c :: c in es ==> c.kind == u;
      AddAllSameKind(kind, m, es, u);
      var m1 := if es == [] then m else m[u := KidsOf(m, u) + es];
      assert AddKeyword(kind, u, kwargs, m) == Ok(m1);
      assert KeywordsSorted(rest, kwargs);
      FillSorted(kind, rest, kwargs, m1);
    }
  }

  /** Child keywords that are absent or carry no entity leave the dictionary as it is. */
  lemma {:induction false} FillChildrenAbsentOf(kind: EntityType, types: seq<EntityType>,
                                                kwargs: map<string, Arg>,
                                                m: map<EntityType, seq<DeclaredEntity>>)
    requires forall u :: u in types && TypeName(u) in kwargs ==> ChildEntities(kwargs[TypeName(u)]) == Ok([])
    ensures FillChildren(kind, types, kwargs, m) == Ok(m)
    decreases |types|
  {
    if types != [] {
      assert types[0] in types;
      assert forall v :: v in types[1..] ==> v in types;
      FillChildrenAbsentOf(kind, types[1..], kwargs, m);
    }
  }

  /** The keyword arguments that carry plain values only. */
  function Plain(m: map<string, Value>): (r: map<string, Arg>)
    ensures r.Keys == m.Keys
    ensures forall k :: k in r ==> r[k] == Val(m[k])
  {
    map k | k in m :: Val(m[k])
  }

  /** Plain keyword arguments hold no entity. */
  lemma PlainNoEntities(m: map<string, Value>)
    ensures forall k, c :: k in Plain(m) && c in ArgEntities(Plain(m)[k]) ==> c.Valid() && c.Ranked()
    ensures forall a :: a in Plain(m) ==> Plain(m)[a].Val?
  {
    forall k | k in Plain(m) ensures ArgEntities(Plain(m)[k]) == [] {
    }
  }

  /** A named node given exactly its registry attributes, as plain values, and no
      child keywords is built without error, with no children and those values. */
  lemma LeafConstruction(kind: EntityType, name: Option<string>, attrs: map<string, Value>)
    requires name.Some?
    requires attrs.Keys == set a | a in ValidAttributes(kind)
    requires forall t :: t in DeclaredChildTypes(kind) ==> TypeName(t) !in attrs
    ensures Construction(kind, name, Plain(attrs)) == Ok((map[], attrs))
  {
    var kwargs := Plain(attrs);
    FillChildrenAbsent(kind, DeclaredChildTypes(kind), kwargs, map[]);
    TakePlain(ValidAttributes(kind), attrs);
    assert kwargs.Keys - ConsumedKeys(kind) == {};
  }

  /** Taking the names of a plain keyword map with exactly those keys gives back its values. */
  lemma TakePlain(names: seq<string>, attrs: map<string, Value>)
    requires attrs.Keys == set a | a in names
    ensures TakeAttributes(names, Plain(attrs), map[]) == Ok(attrs)
  {
    var taken := TakeAttributes(names, Plain(attrs), map[]);
    assert taken.Ok?;
    assert taken.value == attrs;
  }

  /** The value of a declared node: everything alignment reads from it. `height`
      bounds the depth of the subtree below it (the node's level in the hierarchy). */
  datatype Decl = Decl(kind: EntityType, height: nat, name: string, oldName: Option<string>,
                       ignore: IgnorePolicy, attrs: map<string, Value>,
                       children: map<EntityType, seq<Decl>>)
  {
    /** `get_children`: the list of that type, or None when none was ever added. */
    function ChildrenOf(t: EntityType): Option<seq<Decl>>
    {
      if t in children then Some(children[t]) else None
    }

    /** `ignore_extra_children_type`. */
    predicate IgnoresType(t: EntityType)
    {
      Ignores(ignore, TypeName(t))
    }

    /** `getattr` of a registry attribute. */
    function Attr(a: string): Value
    {
      if a in attrs then attrs[a] else VNone
    }

    /** `if declared_child.old_name:` */
    predicate HasOldName()
    {
      oldName.Some? && oldName.value != ""
    }
  }

  /** A declared value whose children sit under their own type, each strictly lower
      than its parent, all the way down. */
  ghost predicate WellFormed(d: Decl)
    decreases d.height
  {
    forall t, c :: t in d.children && c in d.children[t] ==>
      c.kind == t && c.height < d.height && WellFormed(c)
  }

  /** The first entity of a list with the given name (`get_child`'s loop). */
  function FirstNamed(cs: seq<DeclaredEntity>, childName: string): (r: Option<nat>)
    ensures r.Some? ==> r.value < |cs| && cs[r.value].name == childName
    ensures r.Some? ==> forall j :: 0 <= j < r.value ==> cs[j].name != childName
    ensures r.None? <==> forall j :: 0 <= j < |cs| ==> cs[j].name != childName
    decreases |cs|
  {
    if cs == [] then None
    else if cs[0].name == childName then Some(0)
    else
      match FirstNamed(cs[1..], childName)
      case None => None
      case Some(k) => Some(k + 1)
  }

  class DeclaredEntity {
    const kind: EntityType
    /** The node's level in the hierarchy, fixed at construction; it bounds the
        depth of everything that can be added below it. */
    const height: nat
    const name: string
    const oldName: Option<string>
    const ignore: IgnorePolicy
    /** The registry attributes, set once by construction. */
    var attributes: map<string, Value>
    /** `self.children`: per child type, the children in the order they were added. */
    var children: map<EntityType, seq<DeclaredEntity>>
    /** The node and every node below it. */
    ghost var Repr: set<DeclaredEntity>

    /** Children sit under their own type, in non-empty lists; the footprint holds
        the whole subtree and nothing at this node's height or above except the node
        itself. */
    ghost predicate Valid()
      reads this`children, this`Repr, Repr`children, Repr`Repr
      decreases height
    {
      this in Repr &&
      (forall o :: o in Repr ==> o == this || o.height < height) &&
      (forall t :: t in children ==> children[t] != []) &&
      (forall t, c :: t in children && c in children[t] ==>
         c.kind == t && c.height < height && c in Repr && c.Repr <= Repr && this !in c.Repr && c.Valid())
    }

    /** The height is the level of the node's type. */
    predicate Ranked()
    {
      height == Level(kind)
    }

    /** Every children key is one of this node's child types, and every child sits
        at the level of its type. */
    ghost predicate WellTyped()
      reads this
    {
      (forall t :: t in children ==> t in DeclaredChildTypes(kind)) &&
      (forall t, c :: t in children && c in children[t] ==> c.Ranked())
    }

    /** The value alignment sees. */
    function View(): (d: Decl)
      reads this, Repr
      requires Valid()
      ensures d.kind == kind && d.height == height && d.name == name && d.oldName == oldName
      ensures d.ignore == ignore && d.attrs == attributes && d.children.Keys == children.Keys
      ensures forall t :: t in children ==> d.children[t] == ViewAll(children[t])
      decreases height, 1, 0
    {
      Decl(kind, height, name, oldName, ignore, attributes,
           map t | t in children :: ViewAll(children[t]))
    }

    /** The values of a list of this node's children. */
    function ViewAll(cs: seq<DeclaredEntity>): (ds: seq<Decl>)
      reads this, Repr
      requires forall c :: c in cs ==> c in Repr && c.Repr <= Repr && c.height < height && c.Valid()
      ensures |ds| == |cs|
      ensures forall i :: 0 <= i < |cs| ==> ds[i] == cs[i].View()
      decreases height, 0, |cs|
    {
      if cs == [] then [] else [cs[0].View()] + ViewAll(cs[1..])
    }

    /** A valid node's value is well formed. */
    lemma {:induction false} ViewWellFormed()
      requires Valid()
      ensures WellFormed(View())
      decreases height
    {
      var d := View();
      forall t | t in d.children
        ensures forall i :: 0 <= i < |d.children[t]| ==>
                  d.children[t][i].kind == t && d.children[t][i].height < height &&
                  WellFormed(d.children[t][i])
      {
        var cs := children[t];
        forall i | 0 <= i < |cs|
          ensures cs[i].View().kind == t && cs[i].height < height && WellFormed(cs[i].View())
        {
          assert cs[i] in cs;
          cs[i].ViewWellFormed();
        }
      }
    }

    /** A valid node lower than this one does not reach this node. */
    lemma Below(c: DeclaredEntity)
      requires Valid() && c.Valid() && c.height < height
      ensures this !in c.Repr
    {
    }

    /** No child of a valid node reaches back to it. */
    lemma ChildrenBelow()
      requires Valid()
      ensures forall t, d :: t in children && d in children[t] ==> this !in d.Repr && d.Valid()
    {
      forall t, d | t in children && d in children[t] ensures this !in d.Repr {
        Below(d);
      }
    }

    /** `ignore_extra_children_type`. */
    predicate IgnoreExtraChildrenType(t: EntityType)
    {
      Ignores(ignore, TypeName(t))
    }

    /** `get_children`: None for a type never added. */
    function GetChildren(t: EntityType): (r: Option<seq<DeclaredEntity>>)
      reads this, Repr
      requires Valid()
      ensures r.None? <==> t !in children
      ensures r.Some? ==> r.value == children[t] && r.value != []
      ensures r.Some? && WellTyped() ==> t in DeclaredChildTypes(kind)
    {
      if t in children then Some(children[t]) else None
    }

    /** `get_child`: the first child of that type with exactly that name. Iterating
        the None of a type never added is a TypeError; no match is
        InvalidDBEntityChild. */
    function GetChild(t: EntityType, childName: string): (r: Result<DeclaredEntity>)
      reads this
      ensures t !in children ==> r == Fail(TypeError)
      ensures t in children ==> (r.Fail? <==> forall c :: c in children[t] ==> c.name != childName)
      ensures t in children && r.Fail? ==> r.error == InvalidDBEntityChild
      ensures r.Ok? ==> t in children && r.value.name == childName
      ensures r.Ok? ==> exists i :: 0 <= i < |children[t]| && children[t][i] == r.value &&
                         forall j :: 0 <= j < i ==> children[t][j].name != childName
    {
      if t !in children then Fail(TypeError)
      else
        match FirstNamed(children[t], childName)
        case None => Fail(InvalidDBEntityChild)
        case Some(i) => Ok(children[t][i])
    }

    constructor Init(kind: EntityType, name: string, oldName: Option<string>, ignore: IgnorePolicy)
      ensures this.kind == kind && this.name == name && this.oldName == oldName && this.ignore == ignore
      ensures attributes == map[] && children == map[] && Repr == {this}
      ensures Valid() && Ranked() && WellTyped()
    {
      this.kind := kind;
      this.height := Level(kind);
      this.name := name;
      this.oldName := oldName;
      this.ignore := ignore;
      attributes := map[];
      children := map[];
      Repr := {this};
    }

    /** `add_child`: rejects an entity whose type is not a child type; otherwise
        appends it to the list of its own type, leaves every other list alone, and
        returns this node. */
    method AddChild(c: DeclaredEntity) returns (r: Result<DeclaredEntity>)
      requires Valid() && c.Valid() && Ranked() && c.Ranked()
      modifies this`children, this`Repr
      ensures Valid()
      ensures r.Fail? <==> c.kind !in DeclaredChildTypes(kind)
      ensures r.Fail? ==> r.error == InvalidDBEntityChild && children == old(children) && Repr == old(Repr)
      ensures r.Ok? ==> r.value == this && Repr == old(Repr) + c.Repr
      ensures old(WellTyped()) ==> WellTyped()
      ensures AddOne(kind, old(children), c) == if r.Ok? then Ok(children) else Fail(r.error)
    {
      if c.kind !in DeclaredChildTypes(kind) {
        return Fail(InvalidDBEntityChild);
      }
      Append(c);
      r := Ok(this);
    }

    /** Appends a lower node to the list of its type. */
    method Append(c: DeclaredEntity)
      requires Valid() && c.Valid() && c.height < height
      modifies this`children, this`Repr
      ensures Valid()
      ensures children == old(children)[c.kind := KidsOf(old(children), c.kind) + [c]]
      ensures Repr == old(Repr) + c.Repr
    {
      Below(c);
      children := children[c.kind := KidsOf(children, c.kind) + [c]];
      Repr := Repr + c.Repr;
    }
  }

  /** The entities of a list added one after another with `add_child`, stopping at
      the first the node rejects. */
  method AddEntities(e: DeclaredEntity, es: seq<DeclaredEntity>) returns (r: Outcome)
    requires e.Valid() && e.Ranked()
    requires forall c :: c in es ==> c.Valid() && c.Ranked() && e !in c.Repr
    modifies e`children, e`Repr
    ensures e.Valid()
    ensures AddAll(e.kind, old(e.children), es) == if r.Pass? then Ok(e.children) else Fail(r.error)
    ensures old(e.WellTyped()) ==> e.WellTyped()
  {
    var j := 0;
    while j < |es|
      invariant 0 <= j <= |es|
      invariant e.Valid()
      invariant old(e.WellTyped()) ==> e.WellTyped()
      invariant AddAll(e.kind, old(e.children), es) == AddAll(e.kind, e.children, es[j..])
    {
      assert es[j] in es;
      var added := e.AddChild(es[j]);
      if added.Fail? {
        return Failed(added.error);
      }
      assert es[j..][1..] == es[j + 1..];
      j := j + 1;
    }
    r := Pass;
  }

  /** One child-type keyword of `__init__`: its entities, if present, are added to `e`. */
  method AddKeywordEntities(e: DeclaredEntity, t: EntityType, kwargs: map<string, Arg>)
    returns (r: Outcome)
    requires e.Valid() && e.Ranked()
    requires forall k, c :: k in kwargs && c in ArgEntities(kwargs[k]) ==>
               c.Valid() && c.Ranked() && e !in c.Repr
    modifies e`children, e`Repr
    ensures e.Valid()
    ensures AddKeyword(e.kind, t, kwargs, old(e.children)) ==
            if r.Pass? then Ok(e.children) else Fail(r.error)
    ensures old(e.WellTyped()) ==> e.WellTyped()
  {
    var key := TypeName(t);
    if key !in kwargs {
      return Pass;
    }
    var es := ChildEntities(kwargs[key]);
    if es.Fail? {
      return Failed(es.error);
    }
    r := AddEntities(e, es.value);
  }

  /** The children phase of `__init__`: the child-type keywords in `child_types`
      order. */
  method FillFromKeywords(e: DeclaredEntity, kwargs: map<string, Arg>) returns (r: Outcome)
    requires e.Valid() && e.Ranked() && e.WellTyped() && e.children == map[]
    requires forall k, c :: k in kwargs && c in ArgEntities(kwargs[k]) ==>
               c.Valid() && c.Ranked() && e !in c.Repr
    modifies e`children, e`Repr
    ensures e.Valid() && e.WellTyped()
    ensures FillChildren(e.kind, DeclaredChildTypes(e.kind), kwargs, map[]) ==
            if r.Pass? then Ok(e.children) else Fail(r.error)
  {
    var types := DeclaredChildTypes(e.kind);
    var i := 0;
    while i < |types|
      invariant 0 <= i <= |types|
      invariant e.Valid() && e.WellTyped()
      invariant forall k, c :: k in kwargs && c in ArgEntities(kwargs[k]) ==> c.Valid()
      invariant FillChildren(e.kind, types, kwargs, map[]) == FillChildren(e.kind, types[i..], kwargs, e.children)
    {
      var added := AddKeywordEntities(e, types[i], kwargs);
      if added.Failed? {
        return added;
      }
      assert types[i..][1..] == types[i + 1..];
      i := i + 1;
    }
    r := Pass;
  }

  /** The attribute phase of `__init__`: each registry attribute of the node's type
      is taken from the keywords in registry order. */
  method TakeAttributesInto(e: DeclaredEntity, kwargs: map<string, Arg>) returns (r: Outcome)
    requires forall a :: a in ValidAttributes(e.kind) && a in kwargs ==> kwargs[a].Val?
    requires e.Valid() && e.attributes == map[]
    modifies e`attributes
    ensures e.Valid()
    ensures TakeAttributes(ValidAttributes(e.kind), kwargs, map[]) ==
            if r.Pass? then Ok(e.attributes) else Fail(r.error)
  {
    var attrs := ValidAttributes(e.kind);
    var k := 0;
    while k < |attrs|
      invariant 0 <= k <= |attrs|
      invariant e.Valid()
      invariant TakeAttributes(attrs, kwargs, map[]) == TakeAttributes(attrs[k..], kwargs, e.attributes)
    {
      if attrs[k] !in kwargs {
        return Failed(KeyError);
      }
      e.attributes := e.attributes[attrs[k] := kwargs[attrs[k]].v];
      assert attrs[k..][1..] == attrs[k + 1..];
      k := k + 1;
    }
    r := Pass;
  }

  /** `DeclaredEntity.__init__`: a node of type `kind` built from keyword arguments,
      or the error `__init__` raises. The children of each child-type keyword are
      added with `add_child`, then the registry attributes are taken. */
  method New(kind: EntityType, name: Option<string>, oldName: Option<string>, ignoreArg: Value,
             kwargs: map<string, Arg>)
    returns (r: Result<DeclaredEntity>)
    requires forall a :: a in ValidAttributes(kind) && a in kwargs ==> kwargs[a].Val?
    requires forall k, c :: k in kwargs && c in ArgEntities(kwargs[k]) ==> c.Valid() && c.Ranked()
    ensures r.Fail? <==> Construction(kind, name, kwargs).Fail?
    ensures r.Fail? ==> r.error == Construction(kind, name, kwargs).error
    ensures r.Ok? ==> fresh(r.value) && r.value.Valid() && r.value.Ranked() && r.value.WellTyped()
    ensures r.Ok? ==> r.value.kind == kind && r.value.name == TruncateName(name.value)
    ensures r.Ok? ==> r.value.oldName == oldName && r.value.ignore == NormalizeIgnore(ignoreArg)
    ensures r.Ok? ==> (r.value.children, r.value.attributes) == Construction(kind, name, kwargs).value
  {
    if name.None? {
      return Fail(DBError);
    }
    var e := new DeclaredEntity.Init(kind, TruncateName(name.value), oldName, NormalizeIgnore(ignoreArg));
    var filled := FillFromKeywords(e, kwargs);
    if filled.Failed? {
      return Fail(filled.error);
    }
    var taken := TakeAttributesInto(e, kwargs);
    if taken.Failed? {
      return Fail(taken.error);
    }
    if kwargs.Keys - ConsumedKeys(kind) != {} {
      return Fail(ValueError);
    }
    r := Ok(e);
  }
}
