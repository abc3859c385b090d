/** The live server as the reflected side sees it: a tree of named objects, each with
    the detail row its queries return and its children in the order the server lists
    them. Every statement the schema manager sends is one of a handful of edits on
    this tree (add a child, drop a child, rename a child, change a row), and every
    query is a lookup in it. Names are compared as the server's default collation
    compares them, ignoring case. */
module LiveStore {
  import opened Values
  import opened Attributes

  /** A detail row: the fields the per-type detail queries return. */
  type Record = map<string, Value>

  datatype Live = Live(kind: EntityType, name: string, row: Record, kids: seq<Live>)

  /** One step of a path from the server down: the child type and the child's name. */
  datatype Step = Step(kind: EntityType, name: string)

  type Path = seq<Step>

  predicate SameName(a: string, b: string)
  {
    Lower(a) == Lower(b)
  }

  predicate Named(o: Live, s: Step)
  {
    o.kind == s.kind && SameName(o.name, s.name)
  }

  /** The position of the first child the step names. */
  function FindKid(kids: seq<Live>, s: Step): (r: Option<nat>)
    ensures r.Some? ==> r.value < |kids| && Named(kids[r.value], s)
    ensures r.Some? ==> forall j :: 0 <= j < r.value ==> !Named(kids[j], s)
    ensures r.None? <==> forall j :: 0 <= j < |kids| ==> !Named(kids[j], s)
  {
    if kids == [] then None
    else if Named(kids[0], s) then Some(0)
    else
      match FindKid(kids[1..], s)
      case None => None
      case Some(i) => Some(i + 1)
  }

  /** The object a path leads to, if every step names an existing child. */
  function Find(root: Live, path: Path): Option<Live>
    decreases |path|
  {
    if path == [] then Some(root)
    else
      match FindKid(root.kids, path[0])
      case None => None
      case Some(i) => Find(root.kids[i], path[1..])
  }

  /** `_name_exists_ex`: whether the parent has a child of that type and name. */
  predicate Exists(root: Live, parent: Path, kind: EntityType, name: string)
  {
    Find(root, parent).Some? && FindKid(Find(root, parent).value.kids, Step(kind, name)).Some?
  }

  /** `_get_details_ex`: the detail row of the object at a path. */
  function RowAt(root: Live, path: Path): Option<Record>
  {
    match Find(root, path)
    case None => None
    case Some(o) => Some(o.row)
  }

  /** The names of the children of one type, in server order. */
  function NamesOf(kids: seq<Live>, kind: EntityType): (r: seq<string>)
    ensures |r| <= |kids|
  {
    if kids == [] then []
    else (if kids[0].kind == kind then [kids[0].name] else []) + NamesOf(kids[1..], kind)
  }

  /** `_list_names_ex`: nothing when the parent itself is missing. */
  function ListNames(root: Live, parent: Path, kind: EntityType): seq<string>
  {
    match Find(root, parent)
    case None => []
    case Some(p) => NamesOf(p.kids, kind)
  }

  /** The objects of one type under a node, in server order. */
  function KidsOf(kids: seq<Live>, kind: EntityType): (r: seq<Live>)
    ensures |r| <= |kids|
    ensures forall o :: o in r ==> o in kids && o.kind == kind
  {
    if kids == [] then []
    else (if kids[0].kind == kind then [kids[0]] else []) + KidsOf(kids[1..], kind)
  }

  // ---------------------------------------------------------------------------
  // Edits
  // ---------------------------------------------------------------------------

  /** What a statement does to the object it addresses. */
  datatype Edit =
    | AddKid(o: Live)
    | DropKid(s: Step)
    | RenameKid(s: Step, newName: string)
    | SetFields(fields: Record)

  function WithoutNamed(kids: seq<Live>, s: Step): (r: seq<Live>)
    ensures forall o :: o in r ==> o in kids && !Named(o, s)
    ensures forall o :: o in kids && !Named(o, s) ==> o in r
  {
    if kids == [] then []
    else (if Named(kids[0], s) then [] else [kids[0]]) + WithoutNamed(kids[1..], s)
  }

  function ApplyEdit(node: Live, e: Edit): Live
  {
    match e
    case AddKid(o) => node.(kids := node.kids + [o])
    case DropKid(s) => node.(kids := WithoutNamed(node.kids, s))
    case RenameKid(s, newName) =>
      (match FindKid(node.kids, s)
       case None => node
       case Some(i) => node.(kids := node.kids[i := node.kids[i].(name := newName)]))
    case SetFields(fields) => node.(row := node.row + fields)
  }

  /** Applies an edit to the object a path leads to; a path that leads nowhere leaves
      the server as it was. */
  function Modify(root: Live, path: Path, e: Edit): Live
    decreases |path|
  {
    if path == [] then ApplyEdit(root, e)
    else
      match FindKid(root.kids, path[0])
      case None => root
      case Some(i) => root.(kids := root.kids[i := Modify(root.kids[i], path[1..], e)])
  }

  /** An edit below a child keeps that child's type and name. */
  lemma ModifyKeepsIdentity(root: Live, path: Path, e: Edit)
    requires path != []
    ensures Modify(root, path, e).kind == root.kind && Modify(root, path, e).name == root.name
  {
  }

  /** A child that keeps its type and name is still the first one a step finds. */
  lemma FindKidAfterUpdate(kids: seq<Live>, s: Step, i: nat, o: Live)
    requires FindKid(kids, s) == Some(i)
    requires o.kind == kids[i].kind && o.name == kids[i].name
    ensures FindKid(kids[i := o], s) == Some(i)
  {
    var k := kids[i := o];
    assert Named(k[i], s);
    assert forall j :: 0 <= j < i ==> k[j] == kids[j];
  }

  /** The edit lands on the object the path leads to. */
  lemma {:induction false} ModifyAt(root: Live, path: Path, e: Edit)
    requires Find(root, path).Some?
    ensures Find(Modify(root, path, e), path) == Some(ApplyEdit(Find(root, path).value, e))
    decreases |path|
  {
    if path != [] {
      var i := FindKid(root.kids, path[0]).value;
      var m := Modify(root.kids[i], path[1..], e);
      ModifyAt(root.kids[i], path[1..], e);
      if path[1..] != [] {
        ModifyKeepsIdentity(root.kids[i], path[1..], e);
      } else {
        match e
        case AddKid(_) =>
        case DropKid(_) =>
        case RenameKid(_, _) =>
        case SetFields(_) =>
      }
      FindKidAfterUpdate(root.kids, path[0], i, m);
    }
  }

  /** A path that leads nowhere is left alone. */
  lemma {:induction false} ModifyMissing(root: Live, path: Path, e: Edit)
    requires Find(root, path).None?
    ensures Modify(root, path, e) == root
    decreases |path|
  {
    if path != [] {
      match FindKid(root.kids, path[0])
      case None =>
      case Some(i) =>
        ModifyMissing(root.kids[i], path[1..], e);
        assert root.kids[i := root.kids[i]] == root.kids;
    }
  }

  // ---------------------------------------------------------------------------
  // What each statement does, seen through the queries
  // ---------------------------------------------------------------------------

  lemma {:induction false} NamesOfAppend(kids: seq<Live>, o: Live, kind: EntityType)
    ensures NamesOf(kids + [o], kind) == NamesOf(kids, kind) + (if o.kind == kind then [o.name] else [])
    decreases |kids|
  {
    if kids == [] {
      assert kids + [o] == [o];
    } else {
      assert (kids + [o])[1..] == kids[1..] + [o];
      NamesOfAppend(kids[1..], o, kind);
    }
  }

  /** A created object is found afterwards, listed last among its type, and the
      other types' listings are untouched. */
  lemma CreateThenExists(root: Live, parent: Path, o: Live)
    requires Find(root, parent).Some?
    ensures Exists(Modify(root, parent, AddKid(o)), parent, o.kind, o.name)
    ensures forall k :: ListNames(Modify(root, parent, AddKid(o)), parent, k) ==
              ListNames(root, parent, k) + (if o.kind == k then [o.name] else [])
  {
    var p := Find(root, parent).value;
    ModifyAt(root, parent, AddKid(o));
    var kids := p.kids + [o];
    if FindKid(kids, Step(o.kind, o.name)).None? {
      assert Named(kids[|kids| - 1], Step(o.kind, o.name));
    }
    forall k ensures NamesOf(kids, k) == NamesOf(p.kids, k) + (if o.kind == k then [o.name] else []) {
      NamesOfAppend(p.kids, o, k);
    }
  }

  lemma {:induction false} NamesOfWithout(kids: seq<Live>, s: Step, kind: EntityType)
    requires kind != s.kind
    ensures NamesOf(WithoutNamed(kids, s), kind) == NamesOf(kids, kind)
    decreases |kids|
  {
    if kids != [] {
      NamesOfWithout(kids[1..], s, kind);
      var head := if Named(kids[0], s) then [] else [kids[0]];
      assert WithoutNamed(kids, s) == head + WithoutNamed(kids[1..], s);
      NamesOfConcat(head, WithoutNamed(kids[1..], s), kind);
    }
  }

  lemma {:induction false} NamesOfConcat(a: seq<Live>, b: seq<Live>, kind: EntityType)
    ensures NamesOf(a + b, kind) == NamesOf(a, kind) + NamesOf(b, kind)
    decreases |a|
  {
    if a == [] {
      assert a + b == b;
    } else {
      var head := if a[0].kind == kind then [a[0].name] else [];
      assert (a + b)[0] == a[0];
      assert (a + b)[1..] == a[1..] + b;
      assert NamesOf(a + b, kind) == head + NamesOf(a[1..] + b, kind);
      NamesOfConcat(a[1..], b, kind);
      AppendAssoc(head, NamesOf(a[1..], kind), NamesOf(b, kind));
    }
  }

  /** A dropped object is gone afterwards, and the listings of the other types under
      the same parent are untouched. */
  lemma DropThenAbsent(root: Live, parent: Path, s: Step)
    requires Find(root, parent).Some?
    ensures !Exists(Modify(root, parent, DropKid(s)), parent, s.kind, s.name)
    ensures forall k :: k != s.kind ==>
              ListNames(Modify(root, parent, DropKid(s)), parent, k) == ListNames(root, parent, k)
  {
    var p := Find(root, parent).value;
    ModifyAt(root, parent, DropKid(s));
    var kids := WithoutNamed(p.kids, s);
    forall j | 0 <= j < |kids| ensures !Named(kids[j], s) {
      assert kids[j] in kids;
    }
    forall k | k != s.kind ensures NamesOf(kids, k) == NamesOf(p.kids, k) {
      NamesOfWithout(p.kids, s, k);
    }
  }

  /** Dropping the children a step names leaves the first child that another type's
      step finds as it was. */
  lemma {:induction false} FindKidWithout(kids: seq<Live>, s: Step, t: Step)
    requires s.kind != t.kind
    ensures var rest := WithoutNamed(kids, s);
            (match FindKid(rest, t) case None => None case Some(i) => Some(rest[i])) ==
            (match FindKid(kids, t) case None => None case Some(i) => Some(kids[i]))
    decreases |kids|
  {
    if kids != [] {
      FindKidWithout(kids[1..], s, t);
      var rest := WithoutNamed(kids[1..], s);
      if Named(kids[0], s) {
        assert WithoutNamed(kids, s) == rest;
      } else {
        assert WithoutNamed(kids, s) == [kids[0]] + rest;
        assert ([kids[0]] + rest)[0] == kids[0] && ([kids[0]] + rest)[1..] == rest;
      }
    }
  }

  /** A drop under a parent leaves every child of another type under that parent as
      it was, row and children included. */
  lemma DropKeepsOthers(root: Live, parent: Path, s: Step, t: Step)
    requires s.kind != t.kind
    ensures Find(Modify(root, parent, DropKid(s)), parent + [t]) == Find(root, parent + [t])
  {
    FindLast(root, parent, t);
    FindLast(Modify(root, parent, DropKid(s)), parent, t);
    if Find(root, parent).Some? {
      ModifyAt(root, parent, DropKid(s));
      FindKidWithout(Find(root, parent).value.kids, s, t);
    } else {
      ModifyMissing(root, parent, DropKid(s));
    }
  }

  /** A renamed object is found under its new name, keeps its row and children, and
      the other types' listings are untouched. */
  lemma RenameThenExists(root: Live, parent: Path, s: Step, newName: string)
    requires Exists(root, parent, s.kind, s.name)
    ensures Exists(Modify(root, parent, RenameKid(s, newName)), parent, s.kind, newName)
    ensures forall k :: k != s.kind ==>
              ListNames(Modify(root, parent, RenameKid(s, newName)), parent, k) == ListNames(root, parent, k)
  {
    var p := Find(root, parent).value;
    ModifyAt(root, parent, RenameKid(s, newName));
    var i := FindKid(p.kids, s).value;
    var kids := p.kids[i := p.kids[i].(name := newName)];
    if FindKid(kids, Step(s.kind, newName)).None? {
      assert Named(kids[i], Step(s.kind, newName));
    }
    forall k | k != s.kind ensures NamesOf(kids, k) == NamesOf(p.kids, k) {
      NamesOfRenamed(p.kids, i, newName, k);
    }
  }

  lemma {:induction false} NamesOfRenamed(kids: seq<Live>, i: nat, newName: string, kind: EntityType)
    requires i < |kids| && kids[i].kind != kind
    ensures NamesOf(kids[i := kids[i].(name := newName)], kind) == NamesOf(kids, kind)
    decreases |kids|
  {
    var kids' := kids[i := kids[i].(name := newName)];
    if i == 0 {
      assert kids'[1..] == kids[1..];
    } else {
      assert kids'[1..] == kids[1..][i - 1 := kids[i].(name := newName)];
      NamesOfRenamed(kids[1..], i - 1, newName, kind);
    }
  }

  /** Changing a row changes only the fields written. */
  lemma SetFieldsAt(root: Live, path: Path, fields: Record)
    requires Find(root, path).Some?
    ensures RowAt(Modify(root, path, SetFields(fields)), path) == Some(Find(root, path).value.row + fields)
  {
    ModifyAt(root, path, SetFields(fields));
  }

  /** The object a path leads to is the child its last step names under the
      object the rest of the path leads to. */
  lemma {:induction false} FindLast(root: Live, parent: Path, s: Step)
    ensures Find(root, parent + [s]) ==
              match Find(root, parent)
              case None => None
              case Some(p) => (match FindKid(p.kids, s) case None => None case Some(i) => Some(p.kids[i]))
    decreases |parent|
  {
    if parent == [] {
      assert parent + [s] == [s];
      assert [s][1..] == [];
    } else {
      assert (parent + [s])[0] == parent[0];
      assert (parent + [s])[1..] == parent[1..] + [s];
      match FindKid(root.kids, parent[0])
      case None =>
      case Some(i) => FindLast(root.kids[i], parent[1..], s);
    }
  }

  /** An object exists under its parent exactly when the path to it leads somewhere. */
  lemma ExistsIffFound(root: Live, parent: Path, s: Step)
    ensures Exists(root, parent, s.kind, s.name) <==> Find(root, parent + [s]).Some?
  {
    FindLast(root, parent, s);
  }
}
