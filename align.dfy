/** The alignment engine: a lockstep walk down a declared tree and the server's
    objects. For one object it compares the registry attributes and sets those that
    differ; then, child type by child type, it deletes the live children that match
    no declaration, renames children declared with an old name, finds or creates
    each declared child and aligns it in turn.

    The calls the walk makes on the reflected tree are returned as a ghost list of
    actions, so that their order and their gating can be stated. */
module Align {
  import opened Values
  import opened Attributes
  import opened LiveStore
  import opened Rules
  import opened Reflected
  import opened Changes
  import opened Setters
  import opened Lookup
  import Declared

  // ---------------------------------------------------------------------------
  // The calls of the walk
  // ---------------------------------------------------------------------------

  /** A call the walk makes: an attribute set on the object at `obj`, and, under the
      object at `parent`, a child offered for deletion (with the row it had when it
      was judged undeclared), the rename of a child declared with an old name, and
      the lookup (or creation) of a declared child. */
  datatype Action =
    | SetAttrCall(obj: Path, attr: string)
    | DeleteCall(parent: Path, child: Step, row: Option<Record>)
    | RenameCall(parent: Path, child: Step, newName: string)
    | GetOrCreateCall(parent: Path, child: Step)
  {
    /** The object whose attributes or children the call works on. */
    function Scope(): Path
    {
      if SetAttrCall? then obj else parent
    }
  }

  /** Every call works on the object at `path` or below it. */
  predicate Within(acts: seq<Action>, path: Path)
  {
    forall i :: 0 <= i < |acts| ==> path <= acts[i].Scope()
  }

  /** The calls that work on the object at `path` itself, in order. */
  function Level(acts: seq<Action>, path: Path): (r: seq<Action>)
    ensures |r| <= |acts|
  {
    if acts == [] then []
    else (if acts[0].Scope() == path then [acts[0]] else []) + Level(acts[1..], path)
  }

  /** The level of `path` holds exactly the calls that work on that object. */
  lemma {:induction false} LevelMembers(acts: seq<Action>, path: Path, a: Action)
    ensures a in Level(acts, path) <==> a in acts && a.Scope() == path
  {
    if acts != [] {
      LevelMembers(acts[1..], path, a);
      assert a in acts <==> a == acts[0] || a in acts[1..];
    }
  }

  lemma {:induction false} LevelConcat(a: seq<Action>, b: seq<Action>, path: Path)
    ensures Level(a + b, path) == Level(a, path) + Level(b, path)
  {
    if a == [] {
      assert a + b == b;
    } else {
      assert (a + b)[1..] == a[1..] + b;
      LevelConcat(a[1..], b, path);
      AppendAssoc(if a[0].Scope() == path then [a[0]] else [], Level(a[1..], path), Level(b, path));
    }
  }

  /** The calls made below a child of the object at `path` leave nothing at its level. */
  lemma {:induction false} LevelBelow(acts: seq<Action>, path: Path, s: Step)
    requires Within(acts, path + [s])
    ensures Level(acts, path) == []
  {
    if acts != [] {
      assert path + [s] <= acts[0].Scope();
      assert |acts[0].Scope()| > |path|;
      assert Within(acts[1..], path + [s]) by {
        forall i | 0 <= i < |acts[1..]|
          ensures path + [s] <= acts[1..][i].Scope()
        {
          assert acts[1..][i] == acts[i + 1];
        }
      }
      LevelBelow(acts[1..], path, s);
    }
  }

  /** Calls that all work on the object at `path` make up their own level. */
  lemma {:induction false} LevelAll(acts: seq<Action>, path: Path)
    requires forall i :: 0 <= i < |acts| ==> acts[i].Scope() == path
    ensures Level(acts, path) == acts
  {
    if acts != [] {
      LevelAll(acts[1..], path);
    }
  }

  // ---------------------------------------------------------------------------
  // Attributes
  // ---------------------------------------------------------------------------

  /** The set called for the attribute `attr` seen as `v`: one exactly when the
      declared value differs. */
  function SetCall(path: Path, attr: string, d: Declared.Decl, v: Value): seq<Action>
  {
    if v != d.Attr(attr) then [SetAttrCall(path, attr)] else []
  }

  /** The sets called while comparing the attributes `names`, seen as `seen`, in
      registry order. */
  function SetCalls(path: Path, names: seq<string>, d: Declared.Decl, seen: seq<Value>): (r: seq<Action>)
    requires |seen| == |names|
    ensures |r| <= |names|
    decreases |names|
  {
    if names == [] then []
    else
      var k := |names| - 1;
      SetCalls(path, names[..k], d, seen[..k]) + SetCall(path, names[k], d, seen[k])
  }

  /** Every call of the attribute loop is a set of one of its attributes, on the
      object itself. */
  lemma {:induction false} SetCallsAtLevel(path: Path, names: seq<string>, d: Declared.Decl, seen: seq<Value>)
    requires |seen| == |names|
    ensures forall a :: a in SetCalls(path, names, d, seen) ==> a.SetAttrCall? && a.obj == path && a.attr in names
    decreases |names|
  {
    if names != [] {
      var k := |names| - 1;
      SetCallsAtLevel(path, names[..k], d, seen[..k]);
      var p := SetCalls(path, names[..k], d, seen[..k]);
      var r := SetCalls(path, names, d, seen);
      assert r == p + SetCall(path, names[k], d, seen[k]);
      forall a | a in r
        ensures a.SetAttrCall? && a.obj == path && a.attr in names
      {
        if a in p {
          assert a.attr in names[..k];
        }
      }
    }
  }

  /** With each attribute compared once, the set of `names[i]` is called exactly when
      the value seen for it differs from the declared one. */
  lemma {:induction false} SetCallsIff(path: Path, names: seq<string>, d: Declared.Decl, seen: seq<Value>, i: nat)
    requires |seen| == |names| && NoDuplicates(names) && i < |names|
    ensures SetAttrCall(path, names[i]) in SetCalls(path, names, d, seen) <==> seen[i] != d.Attr(names[i])
    decreases |names|
  {
    var k := |names| - 1;
    assert NoDuplicates(names[..k]) by {
      forall a, b | 0 <= a < b < k
        ensures names[..k][a] != names[..k][b]
      {
        assert names[a] != names[b];
      }
    }
    if i < k {
      SetCallsIff(path, names[..k], d, seen[..k], i);
      assert names[k] != names[i];
    } else {
      SetCallsAtLevel(path, names[..k], d, seen[..k]);
      assert names[k] !in names[..k] by {
        forall j | 0 <= j < k
          ensures names[..k][j] != names[k]
        {
          assert names[j] != names[k];
        }
      }
    }
  }

  /** The registry has no duplicate names, so every set is called at most once and
      for the reason that it differs. */
  lemma AttributeSetsIff(path: Path, d: Declared.Decl, seen: seq<Value>, i: nat)
    requires |seen| == |ValidAttributes(d.kind)| && i < |seen|
    ensures var names := ValidAttributes(d.kind);
            SetAttrCall(path, names[i]) in SetCalls(path, names, d, seen) <==> seen[i] != d.Attr(names[i])
  {
    SetCallsIff(path, ValidAttributes(d.kind), d, seen, i);
  }

  // ---------------------------------------------------------------------------
  // Children
  // ---------------------------------------------------------------------------

  /** The declared children of type `t`, none when the type is not declared. */
  function Kids(d: Declared.Decl, t: EntityType): (r: seq<Declared.Decl>)
    ensures d.ChildrenOf(t).Some? ==> r == d.ChildrenOf(t).value
    ensures d.ChildrenOf(t).None? ==> r == []
  {
    if t in d.children then d.children[t] else []
  }

  /** `any(existing_child == declared_child for declared_child in ...)`: the first
      comparison that fails or holds decides; all false is False. */
  function AnyMatch(kind: EntityType, name: string, row: Option<Record>, cs: seq<Declared.Decl>): (r: Result<bool>)
    ensures cs == [] ==> r == Ok(false)
    decreases |cs|
  {
    if cs == [] then Ok(false)
    else
      match MatchesRow(kind, name, row, cs[0])
      case Fail(e) => Fail(e)
      case Ok(b) => if b then Ok(true) else AnyMatch(kind, name, row, cs[1..])
  }

  /** `any` is False exactly when every comparison is False. */
  lemma {:induction false} AnyMatchFalse(kind: EntityType, name: string, row: Option<Record>, cs: seq<Declared.Decl>)
    ensures AnyMatch(kind, name, row, cs) == Ok(false) <==>
            forall j :: 0 <= j < |cs| ==> MatchesRow(kind, name, row, cs[j]) == Ok(false)
    decreases |cs|
  {
    if cs != [] {
      AnyMatchFalse(kind, name, row, cs[1..]);
      if MatchesRow(kind, name, row, cs[0]) == Ok(false) {
        assert forall j :: 1 <= j < |cs| ==> cs[1..][j - 1] == cs[j];
      }
    }
  }

  /** A True or a failure from `any` comes from some comparison. */
  lemma {:induction false} AnyMatchWitness(kind: EntityType, name: string, row: Option<Record>, cs: seq<Declared.Decl>)
    requires AnyMatch(kind, name, row, cs) != Ok(false)
    ensures exists j :: 0 <= j < |cs| && MatchesRow(kind, name, row, cs[j]) == AnyMatch(kind, name, row, cs)
    decreases |cs|
  {
    if MatchesRow(kind, name, row, cs[0]) == Ok(false) {
      AnyMatchWitness(kind, name, row, cs[1..]);
      var j :| 0 <= j < |cs[1..]| && MatchesRow(kind, name, row, cs[1..][j]) == AnyMatch(kind, name, row, cs[1..]);
      assert cs[1..][j] == cs[j + 1];
    } else {
      assert MatchesRow(kind, name, row, cs[0]) == AnyMatch(kind, name, row, cs);
    }
  }

  /** Deletions offered under the object at `path`: children of type `t` whose row,
      when they were judged, matched none of the declarations `cs`. */
  predicate Unmatched(dels: seq<Action>, path: Path, t: EntityType, cs: seq<Declared.Decl>)
  {
    forall i :: 0 <= i < |dels| ==>
      dels[i].DeleteCall? && dels[i].parent == path && dels[i].child.kind == t &&
      AnyMatch(t, dels[i].child.name, dels[i].row, cs) == Ok(false)
  }

  /** The deletion offered for one listed child named `name`, judged against `row`:
      one call when it matches none of the declarations, none otherwise. */
  function OfferOne(path: Path, t: EntityType, cs: seq<Declared.Decl>, name: string, row: Option<Record>): seq<Action>
  {
    if AnyMatch(t, name, row, cs) == Ok(false) then [DeleteCall(path, Step(t, name), row)] else []
  }

  /** The deletions the loop of `align_child_type` offers over the listed children
      `names`, each judged against the row in `rows` at the same position, in
      listing order. */
  function Offered(path: Path, t: EntityType, cs: seq<Declared.Decl>, names: seq<string>, rows: seq<Option<Record>>): seq<Action>
    requires |names| == |rows|
    decreases |names|
  {
    if names == [] then []
    else
      var n := |names| - 1;
      Offered(path, t, cs, names[..n], rows[..n]) + OfferOne(path, t, cs, names[n], rows[n])
  }

  /** The offered deletions are exactly the children that matched nothing: every one
      of them matched nothing, every child that matched nothing is among them, and
      each is a listed child. */
  lemma {:induction false} OfferedExactly(path: Path, t: EntityType, cs: seq<Declared.Decl>, names: seq<string>, rows: seq<Option<Record>>)
    requires |names| == |rows|
    ensures Unmatched(Offered(path, t, cs, names, rows), path, t, cs)
    ensures forall i :: 0 <= i < |names| && AnyMatch(t, names[i], rows[i], cs) == Ok(false) ==>
              DeleteCall(path, Step(t, names[i]), rows[i]) in Offered(path, t, cs, names, rows)
    ensures forall a :: a in Offered(path, t, cs, names, rows) ==>
              exists i :: 0 <= i < |names| && a == DeleteCall(path, Step(t, names[i]), rows[i])
    decreases |names|
  {
    if names != [] {
      var n := |names| - 1;
      var front := Offered(path, t, cs, names[..n], rows[..n]);
      var last := OfferOne(path, t, cs, names[n], rows[n]);
      OfferedExactly(path, t, cs, names[..n], rows[..n]);
      assert Offered(path, t, cs, names, rows) == front + last;
      forall i | 0 <= i < n
        ensures names[..n][i] == names[i] && rows[..n][i] == rows[i]
      {
      }
    }
  }

  /** The calls for one declared child: the rename when it has a truthy old name,
      then the lookup or creation under its declared name. */
  function Handle(path: Path, t: EntityType, c: Declared.Decl): (r: seq<Action>)
    ensures |r| == (if c.HasOldName() then 2 else 1)
    ensures r[|r| - 1] == GetOrCreateCall(path, Step(t, c.name))
    ensures c.HasOldName() ==> r[0] == RenameCall(path, Step(t, c.oldName.value), c.name)
  {
    (if c.HasOldName() then [RenameCall(path, Step(t, OldName(c)), c.name)] else []) +
    [GetOrCreateCall(path, Step(t, c.name))]
  }

  /** The calls for the declared children `cs`, in declaration order. */
  function Plan(path: Path, t: EntityType, cs: seq<Declared.Decl>): (r: seq<Action>)
    ensures |r| >= |cs|
    decreases |cs|
  {
    if cs == [] then []
    else Plan(path, t, cs[..|cs| - 1]) + Handle(path, t, cs[|cs| - 1])
  }

  lemma {:induction false} PlanConcat(path: Path, t: EntityType, a: seq<Declared.Decl>, b: seq<Declared.Decl>)
    ensures Plan(path, t, a + b) == Plan(path, t, a) + Plan(path, t, b)
    decreases |b|
  {
    if b == [] {
      assert a + b == a;
    } else {
      var k := |b| - 1;
      assert (a + b)[..|a + b| - 1] == a + b[..k];
      PlanConcat(path, t, a, b[..k]);
      AppendAssoc(Plan(path, t, a), Plan(path, t, b[..k]), Handle(path, t, b[k]));
    }
  }

  /** Declared children are handled one after the other: everything for the
      children before `cs[k]` comes first, then its rename and lookup, then the
      rest. */
  lemma PlanOrder(path: Path, t: EntityType, cs: seq<Declared.Decl>, k: nat)
    requires k < |cs|
    ensures Plan(path, t, cs) == Plan(path, t, cs[..k]) + Handle(path, t, cs[k]) + Plan(path, t, cs[k + 1..])
  {
    assert cs == cs[..k] + [cs[k]] + cs[k + 1..];
    PlanConcat(path, t, cs[..k] + [cs[k]], cs[k + 1..]);
    assert (cs[..k] + [cs[k]])[..k] == cs[..k];
  }

  /** The calls at one object's level for the child type `t`: the deletions `dels`
      and then the plan of the declared children; nothing when the declaration
      leaves the type out. */
  function TypeLevel(path: Path, d: Declared.Decl, t: EntityType, dels: seq<Action>): (r: seq<Action>)
    ensures d.ChildrenOf(t).None? ==> r == []
    ensures d.ChildrenOf(t).Some? ==> dels <= r && r[|dels|..] == Plan(path, t, Kids(d, t))
  {
    if d.ChildrenOf(t).Some? then dels + Plan(path, t, Kids(d, t)) else []
  }

  /** The calls at one object's level for its child types `ts`, one type after the
      other, with `dels[i]` the deletions for `ts[i]`. */
  function Walk(path: Path, d: Declared.Decl, ts: seq<EntityType>, dels: seq<seq<Action>>): (r: seq<Action>)
    requires |dels| == |ts|
    ensures ts == [] ==> r == []
    decreases |ts|
  {
    if ts == [] then []
    else
      var k := |ts| - 1;
      Walk(path, d, ts[..k], dels[..k]) + TypeLevel(path, d, ts[k], dels[k])
  }

  /** The walk over a list of child types is the walk over each part in turn. */
  lemma {:induction false} WalkConcat(path: Path, d: Declared.Decl, ts: seq<EntityType>, dels: seq<seq<Action>>, k: nat)
    requires |dels| == |ts| && k <= |ts|
    ensures Walk(path, d, ts, dels) == Walk(path, d, ts[..k], dels[..k]) + Walk(path, d, ts[k..], dels[k..])
    decreases |ts|
  {
    if k == |ts| {
      assert ts[..k] == ts && dels[..k] == dels;
      assert Walk(path, d, ts[k..], dels[k..]) == [];
    } else {
      var n := |ts| - 1;
      var last := TypeLevel(path, d, ts[n], dels[n]);
      WalkConcat(path, d, ts[..n], dels[..n], k);
      assert ts[..n][..k] == ts[..k] && dels[..n][..k] == dels[..k];
      var front := Walk(path, d, ts[..k], dels[..k]);
      var middle := Walk(path, d, ts[..n][k..], dels[..n][k..]);
      WalkSuffixLast(path, d, ts, dels, k, n);
      AppendAssoc(front, middle, last);
    }
  }

  /** A walk over a suffix ends with the level of the last child type. */
  lemma WalkSuffixLast(path: Path, d: Declared.Decl, ts: seq<EntityType>, dels: seq<seq<Action>>, k: nat, n: nat)
    requires |dels| == |ts| && k <= n && n + 1 == |ts|
    ensures Walk(path, d, ts, dels) == Walk(path, d, ts[..n], dels[..n]) + TypeLevel(path, d, ts[n], dels[n])
    ensures Walk(path, d, ts[k..], dels[k..]) == Walk(path, d, ts[..n][k..], dels[..n][k..]) + TypeLevel(path, d, ts[n], dels[n])
  {
    var a, b := ts[k..], dels[k..];
    var a', b' := ts[..n][k..], dels[..n][k..];
    assert a[..n - k] == a' && b[..n - k] == b';
    assert a[n - k] == ts[n] && b[n - k] == dels[n];
  }

  // ---------------------------------------------------------------------------
  // How the calls of the parts add up
  // ---------------------------------------------------------------------------

  lemma WithinConcat(a: seq<Action>, b: seq<Action>, path: Path)
    requires Within(a, path) && Within(b, path)
    ensures Within(a + b, path)
  {
    forall i | 0 <= i < |a + b|
      ensures path <= (a + b)[i].Scope()
    {
      if i >= |a| {
        assert (a + b)[i] == b[i - |a|];
      }
    }
  }

  /** Calls at the level of `path`, followed by calls below it. */
  lemma AtLevelThen(a: seq<Action>, b: seq<Action>, path: Path)
    requires forall i :: 0 <= i < |a| ==> a[i].Scope() == path
    requires Within(b, path)
    ensures Within(a + b, path)
    ensures Level(a + b, path) == a + Level(b, path)
  {
    LevelConcat(a, b, path);
    LevelAll(a, path);
    WithinConcat(a, b, path);
  }

  /** The calls of one declared child followed by those of its alignment below it. */
  lemma HandleThenBelow(h: seq<Action>, sub: seq<Action>, path: Path, s: Step)
    requires forall i :: 0 <= i < |h| ==> h[i].Scope() == path
    requires Within(sub, path + [s])
    ensures Within(h + sub, path) && Level(h + sub, path) == h
    ensures h <= h + sub && (h + sub)[|h|..] == sub
  {
    assert Within(sub, path) by {
      forall i | 0 <= i < |sub|
        ensures path <= sub[i].Scope()
      {
        assert path <= path + [s];
      }
    }
    LevelBelow(sub, path, s);
    AtLevelThen(h, sub, path);
  }

  /** The calls for one declared child work on the object at `path`. */
  lemma HandleAtLevel(path: Path, t: EntityType, c: Declared.Decl)
    ensures var h := Handle(path, t, c);
            forall i :: 0 <= i < |h| ==> h[i].Scope() == path && !h[i].SetAttrCall? && h[i].child.kind == t
  {
  }

  /** A prefix of calls at the level of `path` is at that level. */
  lemma PrefixAtLevel(acts: seq<Action>, h: seq<Action>, path: Path)
    requires acts <= h && forall i :: 0 <= i < |h| ==> h[i].Scope() == path
    ensures forall i :: 0 <= i < |acts| ==> acts[i].Scope() == path
  {
    forall i | 0 <= i < |acts|
      ensures acts[i].Scope() == path
    {
      assert acts[i] == h[i];
    }
  }

  /** The calls made for the first `i` declared children: all at or below `path`,
      and at its level a prefix of their plan, the whole of it when every child
      passed. */
  predicate Handled(acts: seq<Action>, path: Path, t: EntityType, cs: seq<Declared.Decl>, i: nat, passed: bool)
    requires i <= |cs|
  {
    Within(acts, path) && Level(acts, path) <= Plan(path, t, cs[..i]) &&
    (passed ==> Level(acts, path) == Plan(path, t, cs[..i]))
  }

  /** One more declared child handled. */
  lemma HandledStep(acts: seq<Action>, one: seq<Action>, path: Path, t: EntityType, cs: seq<Declared.Decl>, i: nat, passed: bool)
    requires i < |cs| && Handled(acts, path, t, cs, i, true)
    requires Within(one, path) && Level(one, path) <= Handle(path, t, cs[i])
    requires passed ==> Level(one, path) == Handle(path, t, cs[i])
    ensures Handled(acts + one, path, t, cs, i + 1, passed)
  {
    LevelConcat(acts, one, path);
    WithinConcat(acts, one, path);
    assert cs[..i + 1][..i] == cs[..i];
  }

  /** What the declared children's loop ends with. */
  lemma HandledAll(acts: seq<Action>, path: Path, t: EntityType, cs: seq<Declared.Decl>, i: nat, passed: bool)
    requires i <= |cs| && Handled(acts, path, t, cs, i, passed) && (passed ==> i == |cs|)
    ensures Within(acts, path) && Level(acts, path) <= Plan(path, t, cs)
    ensures passed ==> Level(acts, path) == Plan(path, t, cs)
  {
    if i < |cs| {
      PlanConcat(path, t, cs[..i], cs[i..]);
      assert cs[..i] + cs[i..] == cs;
      assert Level(acts, path) <= Plan(path, t, cs[..i]) + Plan(path, t, cs[i..]);
    } else {
      assert cs[..i] == cs;
    }
  }

  /** The calls made for the first `i` child types: all at or below `path`, the
      deletions offered for each pruned, and at the level of `path` the walk over
      those types when every one passed. */
  predicate Walked(acts: seq<Action>, dels: seq<seq<Action>>, path: Path, d: Declared.Decl, ts: seq<EntityType>, i: nat, passed: bool)
    requires i <= |ts|
  {
    |dels| == i && Within(acts, path) &&
    (forall k :: 0 <= k < i ==> Pruned(dels[k], path, d, ts[k])) &&
    (passed ==> Level(acts, path) == Walk(path, d, ts[..i], dels))
  }

  /** One more child type aligned. */
  lemma WalkedStep(acts: seq<Action>, dels: seq<seq<Action>>, more: seq<Action>, del: seq<Action>,
                   path: Path, d: Declared.Decl, ts: seq<EntityType>, i: nat, passed: bool)
    requires i < |ts| && Walked(acts, dels, path, d, ts, i, true)
    requires Within(more, path) && Pruned(del, path, d, ts[i])
    requires passed ==> Level(more, path) == TypeLevel(path, d, ts[i], del)
    ensures Walked(acts + more, dels + [del], path, d, ts, i + 1, passed)
  {
    LevelConcat(acts, more, path);
    WithinConcat(acts, more, path);
    assert ts[..i + 1][..i] == ts[..i] && (dels + [del])[..i] == dels;
  }

  /** The deletions for one child type, then the calls for its declared children. */
  lemma DeletionsFirst(dels: seq<Action>, more: seq<Action>, path: Path, d: Declared.Decl, t: EntityType, passed: bool)
    requires d.ChildrenOf(t).Some? && Pruned(dels, path, d, t) && Within(more, path)
    requires passed ==> Level(more, path) == Plan(path, t, Kids(d, t))
    ensures Within(dels + more, path) && dels <= Level(dels + more, path)
    ensures passed ==> Level(dels + more, path) == TypeLevel(path, d, t, dels)
  {
    AtLevelThen(dels, more, path);
  }

  /** The deletions offered for the child type `t`: none when the type is ignored,
      otherwise only children that matched none of the declarations of that type. */
  predicate Pruned(dels: seq<Action>, path: Path, d: Declared.Decl, t: EntityType)
  {
    Unmatched(dels, path, t, Kids(d, t)) && (d.IgnoresType(t) ==> dels == [])
  }

  // ---------------------------------------------------------------------------
  // align_entity, attribute part
  // ---------------------------------------------------------------------------

  /** The position of the first attribute seen to differ from its declaration,
      which is the first one set; `|seen|` when every value seen is as declared. */
  function FirstDiff(names: seq<string>, d: Declared.Decl, seen: seq<Value>): (r: nat)
    requires |seen| <= |names|
    ensures r <= |seen|
    decreases |seen|
  {
    if seen == [] then 0
    else
      var k := |seen| - 1;
      var f := FirstDiff(names, d, seen[..k]);
      if f < k then f else if seen[k] != d.Attr(names[k]) then k else |seen|
  }

  /** Every attribute before `FirstDiff` was seen as declared, and the one at it,
      if any, was not. */
  lemma {:induction false} FirstDiffMeaning(names: seq<string>, d: Declared.Decl, seen: seq<Value>)
    requires |seen| <= |names|
    ensures forall j :: 0 <= j < FirstDiff(names, d, seen) ==> seen[j] == d.Attr(names[j])
    ensures FirstDiff(names, d, seen) < |seen| ==> seen[FirstDiff(names, d, seen)] != d.Attr(names[FirstDiff(names, d, seen)])
    decreases |seen|
  {
    if seen != [] {
      var k := |seen| - 1;
      FirstDiffMeaning(names, d, seen[..k]);
      assert forall j :: 0 <= j < k ==> seen[..k][j] == seen[j];
    }
  }

  /** Every registry attribute is cached, as `display_details` leaves the object. */
  predicate AllCached(o: ReflectedEntity, names: seq<string>)
    reads o`detail, o`cache
  {
    o.detail.Some? && forall j :: 0 <= j < |names| ==> names[j] in o.cache
  }

  /** The attribute loop of `align_entity`, on an object whose attributes are all
      cached: each registry attribute, in order, is compared and, when it differs
      from the declared value, set. A failed read or set ends the walk; the answer
      of a set is otherwise ignored. `seen` holds the values compared: up to and
      including the first attribute set, the values cached at the start. No set
      called means no statement sent. */
  method AlignAttributes(d: Declared.Decl, o: ReflectedEntity, ghost path: Path) returns (r: Outcome, ghost acts: seq<Action>, ghost seen: seq<Value>)
    requires o.Linked() && path == o.Path() && d.kind == o.kind
    requires ValidAttributes(o.kind) != [] ==> AllCached(o, ValidAttributes(o.kind))
    modifies o.conn`live, o.conn`trace, o`detail, o`cache
    ensures |seen| <= |ValidAttributes(o.kind)|
    ensures acts == SetCalls(path, ValidAttributes(o.kind)[..|seen|], d, seen)
    ensures r.Pass? ==> |seen| == |ValidAttributes(o.kind)|
    ensures acts == [] ==> Untouched(o.conn, old(o.conn.live), old(o.conn.trace))
    ensures SeenCached(ValidAttributes(o.kind), d, seen, old(o.cache))
    ensures ValidAttributes(o.kind) == [] ==> r == Pass && acts == [] && o.detail == old(o.detail) && o.cache == old(o.cache)
    ensures forall i :: 0 <= i < |acts| ==> acts[i].Scope() == path
    ensures Within(acts, path) && Level(acts, path) == acts
  {
    if ValidAttributes(o.kind) == [] {
      r, acts, seen := Pass, [], [];
    } else {
      r, acts, seen := AttributeLoop(d, o, ValidAttributes(o.kind), path);
    }
    SetsAtLevel(path, ValidAttributes(o.kind)[..|seen|], d, seen);
  }

  /** The sets of the attribute loop all work on the object itself. */
  lemma SetsAtLevel(path: Path, names: seq<string>, d: Declared.Decl, seen: seq<Value>)
    requires |seen| == |names|
    ensures var sets := SetCalls(path, names, d, seen);
            (forall i :: 0 <= i < |sets| ==> sets[i].Scope() == path) && Within(sets, path) && Level(sets, path) == sets
  {
    var sets := SetCalls(path, names, d, seen);
    SetCallsAtLevel(path, names, d, seen);
    assert forall i :: 0 <= i < |sets| ==> sets[i].Scope() == path by {
      forall i | 0 <= i < |sets|
        ensures sets[i].Scope() == path
      {
        assert sets[i] in sets;
      }
    }
    AtLevelThen(sets, [], path);
    assert sets + [] == sets;
  }

  /** The loop itself, over the attribute names `names`, in order. */
  method AttributeLoop(d: Declared.Decl, o: ReflectedEntity, names: seq<string>, ghost path: Path)
    returns (r: Outcome, ghost acts: seq<Action>, ghost seen: seq<Value>)
    requires o.Linked() && path == o.Path() && d.kind == o.kind
    requires AllCached(o, names)
    modifies o.conn`live, o.conn`trace, o`detail, o`cache
    ensures |seen| <= |names|
    ensures acts == SetCalls(path, names[..|seen|], d, seen)
    ensures r.Pass? ==> |seen| == |names|
    ensures acts == [] ==> Untouched(o.conn, old(o.conn.live), old(o.conn.trace))
    ensures SeenCached(names, d, seen, old(o.cache))
  {
    ghost var live0, trace0, detail0, cache0 := o.conn.live, o.conn.trace, o.detail, o.cache;
    r, acts, seen := Pass, [], [];
    assert detail0.Some? && forall j :: 0 <= j < |names| ==> names[j] in cache0;
    var i := 0;
    while i < |names| && r.Pass?
      invariant 0 <= i <= |names| && |seen| == i
      invariant acts == SetCalls(path, names[..i], d, seen) && SeenCached(names, d, seen, cache0)
      invariant acts == [] ==> o.conn.live == live0 && o.conn.trace == trace0
      invariant FirstDiff(names, d, seen) == i ==> o.detail == detail0 && o.cache == cache0
      decreases |names| - i, if r.Pass? then 1 else 0
    {
      var read;
      ghost var calls;
      r, read, calls := AlignAttribute(d, o, names[i], path);
      if read.Some? {
        SetCallsNext(path, names, d, seen, read.value);
        SeenNext(names, d, seen, read.value, cache0);
        acts := acts + calls;
        seen := seen + [read.value];
        i := i + 1;
      }
    }
  }

  /** The values seen up to and including the first that differs from its
      declaration are the cached ones. */
  predicate SeenCached(names: seq<string>, d: Declared.Decl, seen: seq<Value>, cache0: map<string, Value>)
    requires |seen| <= |names|
  {
    forall k :: 0 <= k < |seen| && k <= FirstDiff(names, d, seen) ==> names[k] in cache0 && seen[k] == cache0[names[k]]
  }

  /** One more value seen: it is the cached one when every earlier value was as
      declared; the first difference stays where it was, or is this value, or is
      still to come. */
  lemma SeenNext(names: seq<string>, d: Declared.Decl, seen: seq<Value>, v: Value, cache0: map<string, Value>)
    requires |seen| < |names| && SeenCached(names, d, seen, cache0)
    requires FirstDiff(names, d, seen) == |seen| ==> names[|seen|] in cache0 && v == cache0[names[|seen|]]
    ensures SeenCached(names, d, seen + [v], cache0)
    ensures FirstDiff(names, d, seen + [v]) ==
              if FirstDiff(names, d, seen) < |seen| then FirstDiff(names, d, seen)
              else if v != d.Attr(names[|seen|]) then |seen| else |seen| + 1
  {
    var n := |seen|;
    var s := seen + [v];
    FirstDiffNext(names, d, seen, v);
    var f, f1 := FirstDiff(names, d, seen), FirstDiff(names, d, s);
    forall k | 0 <= k < |s| && k <= f1
      ensures names[k] in cache0 && s[k] == cache0[names[k]]
    {
      if k < n {
        assert k <= f;
        assert s[k] == seen[k];
      } else {
        assert f == n;
        assert s[k] == v;
      }
    }
  }

  /** The first difference of one more value seen, by the definition. */
  lemma FirstDiffNext(names: seq<string>, d: Declared.Decl, seen: seq<Value>, v: Value)
    requires |seen| < |names|
    ensures FirstDiff(names, d, seen + [v]) ==
              if FirstDiff(names, d, seen) < |seen| then FirstDiff(names, d, seen)
              else if v != d.Attr(names[|seen|]) then |seen| else |seen| + 1
  {
    assert (seen + [v])[..|seen|] == seen;
  }

  /** One more attribute compared adds its set, if any, after the earlier ones. */
  lemma SetCallsNext(path: Path, names: seq<string>, d: Declared.Decl, seen: seq<Value>, v: Value)
    requires |seen| < |names|
    ensures SetCalls(path, names[..|seen| + 1], d, seen + [v]) ==
            SetCalls(path, names[..|seen|], d, seen) + SetCall(path, names[|seen|], d, v)
  {
    var i := |seen|;
    assert names[..i + 1][..i] == names[..i];
    assert (seen + [v])[..i] == seen;
  }

  /** One turn of the attribute loop: the read, and the set when the value read
      differs from the declared one. `read` is the value read, none when the read
      failed. */
  method AlignAttribute(d: Declared.Decl, o: ReflectedEntity, attr: string, ghost path: Path)
    returns (r: Outcome, read: Option<Value>, ghost calls: seq<Action>)
    requires o.Linked() && d.kind == o.kind && path == o.Path()
    modifies o.conn`live, o.conn`trace, o`detail, o`cache
    ensures var v := CachedRead(o.kind, old(o.detail), old(o.cache), RowAt(old(o.conn.live), path), attr);
            (read.None? <==> v.Fail?) && (read.Some? ==> read.value == v.value)
    ensures read.None? ==> r.Failed? && calls == []
    ensures read.Some? ==> calls == SetCall(path, attr, d, read.value)
    ensures calls == [] ==> Untouched(o.conn, old(o.conn.live), old(o.conn.trace))
    ensures read.Some? && attr in old(o.cache) ==> read.value == old(o.cache)[attr]
    ensures (read.None? || read.value == d.Attr(attr)) && old(o.detail).Some? && attr in old(o.cache) ==>
              o.detail == old(o.detail) && o.cache == old(o.cache)
  {
    calls := [];
    var v := o.GetAttr(attr);
    if v.Fail? {
      r, read := Failed(v.error), None;
    } else {
      r, read := Pass, Some(v.value);
      if v.value != d.Attr(attr) {
        calls := [SetAttrCall(path, attr)];
        var written;
        ghost var ran;
        written, ran := SetAttribute(o, d, attr);
        if written.Fail? {
          r := Failed(written.error);
        }
      }
    }
  }

  // ---------------------------------------------------------------------------
  // align_child_type, deletion part
  // ---------------------------------------------------------------------------

  /** `any(existing_child == declared_child ...)` on a new child object: the
      comparisons run in declaration order and stop at the first that fails or
      holds. */
  method AnyEquals(x: ReflectedEntity, cs: seq<Declared.Decl>) returns (r: Result<bool>)
    requires x.Linked() && x.Pristine()
    modifies x`detail, x`cache
    ensures r == AnyMatch(x.kind, x.name, RowAt(x.conn.live, x.Path()), cs)
  {
    ghost var row := RowAt(x.conn.live, x.Path());
    r := Ok(false);
    var j := 0;
    while j < |cs| && r == Ok(false)
      invariant 0 <= j <= |cs|
      invariant x.Coherent() && row == RowAt(x.conn.live, x.Path())
      invariant r == Ok(false) ==> AnyMatch(x.kind, x.name, row, cs) == AnyMatch(x.kind, x.name, row, cs[j..])
      invariant r != Ok(false) ==> r == AnyMatch(x.kind, x.name, row, cs)
    {
      assert cs[j..][1..] == cs[j + 1..];
      r := x.Equals(cs[j]);
      j := j + 1;
    }
  }

  /** One turn of the deletion loop: a new child object `x` of type `t` that equals
      none of the declarations is offered for deletion. */
  method DeleteIfUndeclared(o: ReflectedEntity, x: ReflectedEntity, t: EntityType, cs: seq<Declared.Decl>, ghost path: Path)
    returns (r: Outcome, ghost del: seq<Action>)
    requires o.Linked() && o.Born(x, t) && path == o.Path()
    modifies o.conn`live, o.conn`trace, x`detail, x`cache
    ensures del == OfferOne(path, t, cs, x.name, RowAt(old(o.conn.live), path + [Step(t, x.name)]))
    ensures var m := AnyMatch(t, x.name, RowAt(old(o.conn.live), path + [Step(t, x.name)]), cs);
            (m.Fail? ==> r == Failed(m.error)) && (m == Ok(true) ==> r.Pass?)
    ensures Unmatched(del, path, t, cs)
    ensures |del| <= 1 && (del != [] ==> del[0].child.name == x.name)
    ensures del == [] ==> Untouched(o.conn, old(o.conn.live), old(o.conn.trace))
  {
    assert x.Path() == path + [Step(t, x.name)];
    ghost var row := RowAt(o.conn.live, x.Path());
    var m := AnyEquals(x, cs);
    del := [];
    if m.Fail? {
      r := Failed(m.error);
    } else if m.value {
      r := Pass;
    } else {
      del := [DeleteCall(path, Step(t, x.name), row)];
      var gone := x.Delete();
      r := if gone.Fail? then Failed(gone.error) else Pass;
    }
  }

  /** The deletion loop over the new child objects `objs`, named `names`. */
  method DeleteEach(o: ReflectedEntity, t: EntityType, cs: seq<Declared.Decl>, objs: seq<ReflectedEntity>, ghost names: seq<string>, ghost path: Path)
    returns (r: Outcome, ghost dels: seq<Action>, ghost rows: seq<Option<Record>>)
    requires o.Linked() && path == o.Path() && |objs| == |names|
    requires forall i :: 0 <= i < |objs| ==> o.Born(objs[i], t) && objs[i].name == names[i]
    requires forall i, j :: 0 <= i < j < |objs| ==> objs[i] != objs[j]
    modifies o.conn`live, o.conn`trace, objs`detail, objs`cache
    ensures |rows| <= |names| && dels == Offered(path, t, cs, names[..|rows|], rows)
    ensures r.Pass? ==> |rows| == |names| && dels == Offered(path, t, cs, names, rows)
    ensures rows != [] ==> rows[0] == RowAt(old(o.conn.live), path + [Step(t, names[0])])
    ensures Unmatched(dels, path, t, cs)
    ensures forall k :: 0 <= k < |dels| ==> dels[k].child.name in names
    ensures dels == [] ==> Untouched(o.conn, old(o.conn.live), old(o.conn.trace))
  {
    ghost var live0, trace0 := o.conn.live, o.conn.trace;
    r, dels, rows := Pass, [], [];
    var i := 0;
    while i < |objs| && r.Pass?
      invariant 0 <= i <= |objs| && |rows| == i
      invariant forall k :: i <= k < |objs| ==> objs[k].Pristine()
      invariant Judged(dels, rows, path, t, cs, names, live0)
      invariant dels == [] ==> o.conn.live == live0 && o.conn.trace == trace0
    {
      ghost var row := RowAt(o.conn.live, path + [Step(t, names[i])]);
      ghost var del;
      r, del := DeleteIfUndeclared(o, objs[i], t, cs, path);
      JudgedNext(dels, rows, path, t, cs, names, live0, row, del);
      dels, rows := dels + del, rows + [row];
      i := i + 1;
    }
    OfferedFrom(path, t, cs, names, rows);
    assert names[..|names|] == names;
  }

  /** The invariant of the deletion loop: the first |rows| listed children have been
      judged, each against its row in `rows`, the first one against the row it had
      before the loop, and `dels` holds the offers made. */
  ghost predicate Judged(dels: seq<Action>, rows: seq<Option<Record>>, path: Path, t: EntityType, cs: seq<Declared.Decl>,
                         names: seq<string>, live0: Live)
  {
    |rows| <= |names| && dels == Offered(path, t, cs, names[..|rows|], rows) &&
    (rows != [] ==> rows[0] == RowAt(live0, path + [Step(t, names[0])]))
  }

  /** One more listed child judged: its offer goes after the earlier ones. */
  lemma JudgedNext(dels: seq<Action>, rows: seq<Option<Record>>, path: Path, t: EntityType, cs: seq<Declared.Decl>,
                   names: seq<string>, live0: Live, row: Option<Record>, del: seq<Action>)
    requires Judged(dels, rows, path, t, cs, names, live0) && |rows| < |names|
    requires del == OfferOne(path, t, cs, names[|rows|], row)
    requires rows == [] ==> row == RowAt(live0, path + [Step(t, names[0])])
    ensures Judged(dels + del, rows + [row], path, t, cs, names, live0)
  {
    var i := |rows|;
    assert names[..i + 1][..i] == names[..i] && (rows + [row])[..i] == rows;
  }

  /** The deletions offered over the first children of a listing match nothing and
      name listed children. */
  lemma OfferedFrom(path: Path, t: EntityType, cs: seq<Declared.Decl>, names: seq<string>, rows: seq<Option<Record>>)
    requires |rows| <= |names|
    ensures var dels := Offered(path, t, cs, names[..|rows|], rows);
            Unmatched(dels, path, t, cs) && forall k :: 0 <= k < |dels| ==> dels[k].child.name in names
  {
    var i := |rows|;
    var dels := Offered(path, t, cs, names[..i], rows);
    OfferedExactly(path, t, cs, names[..i], rows);
    forall k | 0 <= k < |dels|
      ensures dels[k].child.name in names
    {
      assert dels[k] in dels;
      var j :| 0 <= j < i && dels[k] == DeleteCall(path, Step(t, names[..i][j]), rows[j]);
      assert names[..i][j] == names[j];
    }
  }

  /** The deletion part of `align_child_type`: every live child of type `t` that
      equals none of the declarations `cs` is offered for deletion, in listing
      order; `rows` holds the row each listed child was compared with, which is
      read when its turn comes, after the deletions before it. */
  method DeleteUndeclared(o: ReflectedEntity, t: EntityType, cs: seq<Declared.Decl>, ghost path: Path)
    returns (r: Outcome, ghost dels: seq<Action>, ghost rows: seq<Option<Record>>)
    requires o.Linked() && path == o.Path()
    modifies o.conn`live, o.conn`trace
    ensures t !in ReflectedChildTypes(o.kind) ==> r == Failed(InvalidDBEntityChild) && dels == []
    ensures Unmatched(dels, path, t, cs)
    ensures forall k :: 0 <= k < |dels| ==> dels[k].child.name in Listing(old(o.conn.live), path, t)
    ensures dels == [] ==> Untouched(o.conn, old(o.conn.live), old(o.conn.trace))
    ensures r.Pass? ==>
              var names := Listing(old(o.conn.live), path, t);
              |rows| == |names| && dels == Offered(path, t, cs, names, rows) &&
              (rows != [] ==> rows[0] == RowAt(old(o.conn.live), path + [Step(t, names[0])]))
  {
    var listed := o.GetChildren(t);
    if listed.Fail? {
      r, dels, rows := Failed(listed.error), [], [];
    } else {
      r, dels, rows := DeleteEach(o, t, cs, listed.value, Listing(o.conn.live, path, t), path);
    }
  }

  // ---------------------------------------------------------------------------
  // align_entity and align_child_type
  // ---------------------------------------------------------------------------

  /** The reads `display_details` makes when `align_entity` logs the object: every
      registry attribute, in order, from the values and row it holds and the
      server's row. */
  function StartReads(o: ReflectedEntity, live: Live, path: Path): Outcome
    reads o`detail, o`cache
  {
    ReadsInOrder(o.kind, o.detail, o.cache, RowAt(live, path), ValidAttributes(o.kind))
  }

  /** `align_entity`: first every registry attribute of `o` is read and cached for
      the log line, and the first read that fails ends the call with its error.
      Then objects of different types fail the assertion, with nothing sent.
      Otherwise the attributes are compared and set (`seen` holds the values
      compared: up to and including the first attribute set, those read at the
      start); then, when `alignChildren` is set, the child types are aligned in the
      declared order (`dels[i]` holds the deletions offered for the i-th). Every
      call works on `o` or below it. */
  method AlignEntity(d: Declared.Decl, o: ReflectedEntity, alignChildren: bool, ghost path: Path)
    returns (r: Outcome, ghost acts: seq<Action>, ghost seen: seq<Value>, ghost dels: seq<seq<Action>>)
    requires o.Linked() && path == o.Path() && Declared.WellFormed(d)
    modifies o.conn`live, o.conn`trace, o`detail, o`cache
    decreases d.height, 4
    ensures var shown := old(StartReads(o, o.conn.live, path));
            shown.Failed? ==> r == shown && acts == [] && seen == [] && dels == []
    ensures var shown := old(StartReads(o, o.conn.live, path));
            d.kind != o.kind ==>
              r == (if shown.Failed? then shown else Failed(AssertionError)) && acts == [] && seen == [] && dels == []
    ensures old(StartReads(o, o.conn.live, path)).Failed? || d.kind != o.kind ==>
              Untouched(o.conn, old(o.conn.live), old(o.conn.trace))
    ensures Within(acts, path)
    ensures d.kind == o.kind ==>
              |seen| <= |ValidAttributes(d.kind)| &&
              SetCalls(path, ValidAttributes(d.kind)[..|seen|], d, seen) <= acts
    ensures d.kind == o.kind ==>
              forall i :: 0 <= i < |seen| && i <= FirstDiff(ValidAttributes(d.kind), d, seen) ==>
                Ok(seen[i]) == CachedRead(o.kind, old(o.detail), old(o.cache), RowAt(old(o.conn.live), path), ValidAttributes(d.kind)[i])
    ensures d.kind == o.kind && !alignChildren ==>
              acts == SetCalls(path, ValidAttributes(d.kind)[..|seen|], d, seen) && dels == []
    ensures |dels| <= |DeclaredChildTypes(d.kind)|
    ensures forall i :: 0 <= i < |dels| ==> Pruned(dels[i], path, d, DeclaredChildTypes(d.kind)[i])
    ensures r.Pass? && alignChildren ==>
              |seen| == |ValidAttributes(d.kind)| && |dels| == |DeclaredChildTypes(d.kind)| &&
              Level(acts, path) ==
                SetCalls(path, ValidAttributes(d.kind), d, seen) + Walk(path, d, DeclaredChildTypes(d.kind), dels)
  {
    ghost var detail0, cache0, row0 := o.detail, o.cache, RowAt(o.conn.live, path);
    var shown := o.DisplayDetails();
    if shown.Failed? {
      r, acts, seen, dels := shown, [], [], [];
    } else {
      ghost var cache1 := o.cache;
      r, acts, seen, dels := AlignShown(d, o, alignChildren, path);
      if d.kind == o.kind {
        StartValues(o.kind, detail0, cache0, row0, cache1, d, seen);
      }
    }
  }

  /** `align_entity` after the reads of the log line, which left every registry
      attribute cached: the assertion, the attribute loop and the child types. */
  method AlignShown(d: Declared.Decl, o: ReflectedEntity, alignChildren: bool, ghost path: Path)
    returns (r: Outcome, ghost acts: seq<Action>, ghost seen: seq<Value>, ghost dels: seq<seq<Action>>)
    requires o.Linked() && path == o.Path() && Declared.WellFormed(d)
    requires ValidAttributes(o.kind) != [] ==> AllCached(o, ValidAttributes(o.kind))
    modifies o.conn`live, o.conn`trace, o`detail, o`cache
    decreases d.height, 3
    ensures d.kind != o.kind ==>
              r == Failed(AssertionError) && acts == [] && seen == [] && dels == [] &&
              Untouched(o.conn, old(o.conn.live), old(o.conn.trace))
    ensures Within(acts, path)
    ensures d.kind == o.kind ==>
              |seen| <= |ValidAttributes(d.kind)| &&
              SetCalls(path, ValidAttributes(d.kind)[..|seen|], d, seen) <= acts
    ensures d.kind == o.kind ==> SeenCached(ValidAttributes(o.kind), d, seen, old(o.cache))
    ensures d.kind == o.kind && !alignChildren ==>
              acts == SetCalls(path, ValidAttributes(d.kind)[..|seen|], d, seen) && dels == []
    ensures |dels| <= |DeclaredChildTypes(d.kind)|
    ensures forall i :: 0 <= i < |dels| ==> Pruned(dels[i], path, d, DeclaredChildTypes(d.kind)[i])
    ensures r.Pass? && alignChildren ==>
              |seen| == |ValidAttributes(d.kind)| && |dels| == |DeclaredChildTypes(d.kind)| &&
              Level(acts, path) ==
                SetCalls(path, ValidAttributes(d.kind), d, seen) + Walk(path, d, DeclaredChildTypes(d.kind), dels)
  {
    r, acts, seen, dels := Pass, [], [], [];
    if d.kind != o.kind {
      r := Failed(AssertionError);
    } else {
      r, acts, seen := AlignAttributes(d, o, path);
      ghost var sets := acts;
      if r.Pass? && alignChildren {
        assert ValidAttributes(d.kind)[..|seen|] == ValidAttributes(d.kind);
        ghost var more;
        r, more, dels := AlignChildren(d, o, path);
        AtLevelThen(sets, more, path);
        acts := sets + more;
      }
    }
  }

  /** The values compared before any set are the cached ones, and those are the
      values read at the start. */
  lemma StartValues(kind: EntityType, detail0: Option<Record>, cache0: map<string, Value>, row0: Option<Record>,
                    cache1: map<string, Value>, d: Declared.Decl, seen: seq<Value>)
    requires |seen| <= |ValidAttributes(kind)|
    requires forall j :: 0 <= j < |ValidAttributes(kind)| ==>
               ValidAttributes(kind)[j] in cache1 &&
               Ok(cache1[ValidAttributes(kind)[j]]) == CachedRead(kind, detail0, cache0, row0, ValidAttributes(kind)[j])
    requires SeenCached(ValidAttributes(kind), d, seen, cache1)
    ensures forall i :: 0 <= i < |seen| && i <= FirstDiff(ValidAttributes(kind), d, seen) ==>
              Ok(seen[i]) == CachedRead(kind, detail0, cache0, row0, ValidAttributes(kind)[i])
  {
  }

  /** The child loop of `align_entity`: each declared child type, in order. */
  method AlignChildren(d: Declared.Decl, o: ReflectedEntity, ghost path: Path) returns (r: Outcome, ghost acts: seq<Action>, ghost dels: seq<seq<Action>>)
    requires o.Linked() && path == o.Path() && Declared.WellFormed(d)
    modifies o.conn`live, o.conn`trace
    decreases d.height, 2
    ensures Within(acts, path)
    ensures |dels| <= |DeclaredChildTypes(d.kind)|
    ensures forall i :: 0 <= i < |dels| ==> Pruned(dels[i], path, d, DeclaredChildTypes(d.kind)[i])
    ensures r.Pass? ==>
              |dels| == |DeclaredChildTypes(d.kind)| && Level(acts, path) == Walk(path, d, DeclaredChildTypes(d.kind), dels)
  {
    var types := DeclaredChildTypes(d.kind);
    r, acts, dels := Pass, [], [];
    var i := 0;
    while i < |types| && r.Pass?
      invariant i <= |types| && Walked(acts, dels, path, d, types, i, r.Pass?)
    {
      ghost var more, del, rows;
      r, more, del, rows := AlignChildType(d, o, types[i], path);
      WalkedStep(acts, dels, more, del, path, d, types, i, r.Pass?);
      acts, dels := acts + more, dels + [del];
      i := i + 1;
    }
    assert r.Pass? ==> types[..i] == types;
  }

  /** `align_child_type`: a type the declaration leaves out is left alone. Otherwise,
      unless the type is ignored, every listed live child that equals none of the
      declared children is offered for deletion first, in listing order (`rows`
      holds the row each was compared with); then the declared children are
      handled in order. */
  method AlignChildType(d: Declared.Decl, o: ReflectedEntity, t: EntityType, ghost path: Path)
    returns (r: Outcome, ghost acts: seq<Action>, ghost dels: seq<Action>, ghost rows: seq<Option<Record>>)
    requires o.Linked() && path == o.Path() && Declared.WellFormed(d)
    modifies o.conn`live, o.conn`trace
    decreases d.height, 1
    ensures d.ChildrenOf(t).None? ==> r == Pass && acts == [] && dels == [] && Untouched(o.conn, old(o.conn.live), old(o.conn.trace))
    ensures Pruned(dels, path, d, t)
    ensures r.Pass? && d.ChildrenOf(t).Some? && !d.IgnoresType(t) ==>
              var names := Listing(old(o.conn.live), path, t);
              |rows| == |names| && dels == Offered(path, t, d.ChildrenOf(t).value, names, rows)
    ensures Within(acts, path)
    ensures dels <= Level(acts, path)
    ensures r.Pass? ==> Level(acts, path) == TypeLevel(path, d, t, dels)
  {
    var cs := d.ChildrenOf(t);
    r, acts, dels, rows := Pass, [], [], [];
    if cs.Some? {
      if !d.IgnoresType(t) {
        r, dels, rows := DeleteUndeclared(o, t, cs.value, path);
      }
      ghost var more := [];
      if r.Pass? {
        r, more := HandleDeclared(d, o, t, cs.value, path);
      }
      DeletionsFirst(dels, more, path, d, t, r.Pass?);
      acts := dels + more;
    }
  }

  /** The declared children of type `t`, in declaration order. */
  method HandleDeclared(d: Declared.Decl, o: ReflectedEntity, t: EntityType, cs: seq<Declared.Decl>, ghost path: Path) returns (r: Outcome, ghost acts: seq<Action>)
    requires o.Linked() && path == o.Path() && Declared.WellFormed(d) && d.ChildrenOf(t) == Some(cs)
    modifies o.conn`live, o.conn`trace
    decreases d.height, 0
    ensures Within(acts, path)
    ensures Level(acts, path) <= Plan(path, t, cs)
    ensures r.Pass? ==> Level(acts, path) == Plan(path, t, cs)
  {
    r, acts := Pass, [];
    assert forall c :: c in cs ==> c.kind == t && c.height < d.height && Declared.WellFormed(c);
    var i := 0;
    while i < |cs| && r.Pass?
      invariant i <= |cs| && Handled(acts, path, t, cs, i, r.Pass?)
    {
      assert cs[i] in cs;
      ghost var one, into;
      r, one, into := HandleChild(o, t, cs[i], path);
      HandledStep(acts, one, path, t, cs, i, r.Pass?);
      acts := acts + one;
      i := i + 1;
    }
    HandledAll(acts, path, t, cs, i, r.Pass?);
  }

  /** One declared child `c` of type `t`: the rename when it has a truthy old name,
      then the lookup or creation, and, when that gives an object (named `into`), its
      alignment with all its children. Nothing is aligned below `o` otherwise. */
  method HandleChild(o: ReflectedEntity, t: EntityType, c: Declared.Decl, ghost path: Path)
    returns (r: Outcome, ghost acts: seq<Action>, ghost into: Option<string>)
    requires o.Linked() && path == o.Path() && Declared.WellFormed(c) && c.kind == t
    modifies o.conn`live, o.conn`trace
    decreases c.height, 5
    ensures Within(acts, path)
    ensures Level(acts, path) <= Handle(path, t, c)
    ensures r.Pass? ==> Level(acts, path) == Handle(path, t, c)
    ensures into.None? ==> acts <= Handle(path, t, c)
    ensures into.Some? ==>
              Handle(path, t, c) <= acts && Within(acts[|Handle(path, t, c)|..], path + [Step(t, into.value)])
  {
    var x;
    r, x, acts := Counterpart(o, t, c, path);
    HandleAtLevel(path, t, c);
    PrefixAtLevel(acts, Handle(path, t, c), path);
    if x.Some? {
      into := Some(x.value.name);
      ghost var s := Step(t, x.value.name);
      ghost var sub, seen, dels;
      r, sub, seen, dels := AlignEntity(c, x.value, true, path + [s]);
      HandleThenBelow(acts, sub, path, s);
      acts := acts + sub;
    } else {
      into := None;
      AtLevelThen(acts, [], path);
      assert acts + [] == acts;
    }
  }

  /** The rename when `c` has a truthy old name, then the lookup or creation: the
      object to align `c` with, if any. */
  method Counterpart(o: ReflectedEntity, t: EntityType, c: Declared.Decl, ghost path: Path)
    returns (r: Outcome, x: Option<ReflectedEntity>, ghost acts: seq<Action>)
    requires o.Linked() && path == o.Path() && c.kind == t
    modifies o.conn`live, o.conn`trace
    ensures acts <= Handle(path, t, c)
    ensures r.Pass? ==> acts == Handle(path, t, c)
    ensures x.Some? ==>
              r.Pass? && fresh(x.value) && x.value.Linked() && x.value.conn == o.conn &&
              x.value.Path() == path + [Step(t, x.value.name)]
  {
    r, x, acts := Pass, None, [];
    if c.HasOldName() {
      acts := [RenameCall(path, Step(t, OldName(c)), c.name)];
      r := RenameChildWithOldName(o, c);
    }
    if r.Pass? {
      acts := acts + [GetOrCreateCall(path, Step(t, c.name))];
      var got := GetOrCreateChild(o, c);
      if got.Fail? {
        r := Failed(got.error);
      } else {
        x := got.value;
      }
    }
  }

  // ---------------------------------------------------------------------------
  // align_server
  // ---------------------------------------------------------------------------

  /** `align_server`: the server object named `name` on the connection, aligned
      with the declared server, children included. A declaration of another type
      fails the type assertion before anything is sent. */
  method AlignServer(conn: Server, name: string, d: Declared.Decl)
    returns (r: Outcome, ghost acts: seq<Action>, ghost dels: seq<seq<Action>>)
    requires Declared.WellFormed(d)
    modifies conn`live, conn`trace
    ensures d.kind != Servers ==> r == Failed(AssertionError) && acts == [] && Untouched(conn, old(conn.live), old(conn.trace))
    ensures |dels| <= |DeclaredChildTypes(d.kind)|
    ensures forall i :: 0 <= i < |dels| ==> Pruned(dels[i], [], d, DeclaredChildTypes(d.kind)[i])
    ensures r.Pass? ==>
              d.kind == Servers && |dels| == |DeclaredChildTypes(Servers)| &&
              Level(acts, []) == Walk([], d, DeclaredChildTypes(Servers), dels)
  {
    var root := new ReflectedEntity.Root(conn, name);
    ghost var seen;
    r, acts, seen, dels := AlignEntity(d, root, true, []);
    if r.Pass? {
      assert ValidAttributes(Servers) == [];
    }
  }
}
