/** Report definitions that extend each other: LoadLibraryDir and mergeExtends in pkg/reporting/load.go. */
module Library {
  import opened Wrappers
  import opened Forest

  /** The parts of a definition a child takes over unless it declares them itself. */
  datatype Part =
    | Description | Categories | Modalities | Stances | Scope | Data
    | Summary | Timeline | Detail | Plan | Pulse | Media | Conversation

  /** A definition; base is NOBODY where it extends nothing. Parts left empty are not in `parts`. */
  datatype Definition = Definition(name: Id, kind: string, base: Id, parts: map<Part, string>)

  type Library = map<Id, Definition>

  function MergeExtends(parent: Definition, child: Definition): Definition {
    Definition(child.name, child.kind, child.base, parent.parts + child.parts)
  }

  ghost predicate Named(lib: Library) {
    NOBODY !in lib && forall name :: name in lib ==> lib[name].name == name
  }

  function Extends(lib: Library): Parents {
    map name | name in lib :: lib[name].base
  }

  /** The definition the extends chain makes of a name. */
  ghost function Inherited(lib: Library, name: Id): Definition
    requires Rooted(Extends(lib), name) && name in lib
    decreases Depth(Extends(lib), name)
  {
    var d := lib[name];
    if name == NOBODY then d
    else
      StepUp(Extends(lib), name);
      if d.base == NOBODY then d
      else
        StepUp(Extends(lib), d.base);
        MergeExtends(Inherited(lib, d.base), d)
  }

  // ----- The nearest definer wins -----

  /** What the first on the chain that declares the part says. */
  function Nearest(lib: Library, chain: seq<Id>, part: Part): Option<string>
    requires forall x :: x in chain ==> x in lib
  {
    if chain == [] then None
    else
      assert chain[0] in chain;
      if part in lib[chain[0]].parts then Some(lib[chain[0]].parts[part])
      else Nearest(lib, chain[1..], part)
  }

  function PartOf(d: Definition, part: Part): Option<string> {
    if part in d.parts then Some(d.parts[part]) else None
  }

  /**
   Each part of a resolved definition is what the nearest definition on its extends chain declares, itself
   first, and missing only where none on the chain declares it.
   */
  lemma {:induction false} NearestDefinerWins(lib: Library, name: Id, part: Part)
    requires Named(lib) && name in lib && Rooted(Extends(lib), name)
    ensures PartOf(Inherited(lib, name), part) == Nearest(lib, Chain(Extends(lib), name), part)
    ensures Inherited(lib, name).name == name && Inherited(lib, name).base == lib[name].base
    ensures Inherited(lib, name).kind == lib[name].kind
    decreases Depth(Extends(lib), name)
  {
    var p, up := Extends(lib), lib[name].base;
    StepUp(p, name);
    var rest := Chain(p, up);
    assert Chain(p, name) == [name] + rest && ([name] + rest)[1..] == rest;
    if up != NOBODY {
      StepUp(p, up);
      NearestDefinerWins(lib, up, part);
    }
  }

  // ----- Resolving -----

  datatype Problem = InCycle | ExtendsItself | NoSuchParent | NoName | DuplicateName

  /** The chain from a name ends in a name no definition has. */
  ghost predicate Dangles(p: Parents, name: Id) {
    exists n: nat, y :: Leads(p, name, n, y) && y != NOBODY && y !in p
  }

  ghost predicate RunsIntoCycle(p: Parents, name: Id) {
    exists n: nat, y :: Leads(p, name, n, y) && OnCycle(p, y)
  }

  lemma {:induction false} CycleIsNotRooted(p: Parents, name: Id)
    requires NOBODY !in p && OnCycle(p, name)
    ensures !Rooted(p, name) && RunsIntoCycle(p, name)
  {
    var n: nat :| n > 0 && Leads(p, name, n, name);
    if Rooted(p, name) {
      LeadsUp(p, name, n, name);
    }
    assert Leads(p, name, 0, name);
  }

  lemma {:induction false} NoParentDangles(p: Parents, name: Id)
    requires name in p && NOBODY !in p && p[name] != NOBODY && p[name] !in p
    ensures !Rooted(p, name) && Dangles(p, name)
  {
    if Rooted(p, name) {
      StepUp(p, name);
      StepUp(p, p[name]);
    }
    assert Leads(p, p[name], 0, p[name]);
    assert Leads(p, name, 1, p[name]);
  }

  /** What is wrong with a parent's chain is wrong with the child's. */
  lemma {:induction false} ParentsFate(p: Parents, name: Id)
    requires name in p && NOBODY !in p
    ensures Rooted(p, name) <==> Rooted(p, p[name])
    ensures Dangles(p, p[name]) ==> Dangles(p, name)
    ensures RunsIntoCycle(p, p[name]) ==> RunsIntoCycle(p, name)
  {
    if Rooted(p, name) { StepUp(p, name); }
    if Rooted(p, p[name]) { StepDown(p, name); }
    if Dangles(p, p[name]) {
      var n: nat, y :| Leads(p, p[name], n, y) && y != NOBODY && y !in p;
      assert Leads(p, name, n + 1, y);
    }
    if RunsIntoCycle(p, p[name]) {
      var n: nat, y :| Leads(p, p[name], n, y) && OnCycle(p, y);
      assert Leads(p, name, n + 1, y);
    }
  }

  /** What is being resolved extends its way to this name. */
  ghost predicate LeadHere(p: Parents, resolving: set<Id>, name: Id) {
    forall x :: x in resolving ==> LeadsTo(p, x, name)
  }

  lemma {:induction false} LeadOn(p: Parents, resolving: set<Id>, name: Id)
    requires name in p && LeadHere(p, resolving, name)
    ensures LeadHere(p, resolving + {name}, p[name])
  {
    assert Leads(p, p[name], 0, p[name]);
    assert Leads(p, name, 1, p[name]);
    forall x | x in resolving
      ensures LeadsTo(p, x, p[name])
    {
      var n: nat :| n > 0 && Leads(p, x, n, name);
      LeadsOn(p, x, n, name, 1, p[name]);
    }
  }

  class Resolver {
    const lib: Library
    /** The memo, and the names whose resolution is under way. */
    var resolved: map<Id, Definition>
    var resolving: set<Id>

    ghost predicate Valid()
      reads this
    {
      && Named(lib)
      && resolving <= lib.Keys
      && forall name :: name in resolved ==>
          name in lib && Rooted(Extends(lib), name) && resolved[name] == Inherited(lib, name)
    }

    constructor (lib: Library)
      requires Named(lib)
      ensures Valid() && this.lib == lib && resolving == {}
    {
      this.lib, resolved, resolving := lib, map[], {};
    }

    /** Resolves a name exactly if its extends chain ends, to what that chain makes of it. */
    method Resolve(name: Id) returns (r: Result<Definition, Problem>)
      requires Valid() && name in lib && LeadHere(Extends(lib), resolving, name)
      modifies this
      ensures Valid() && resolving == old(resolving)
      ensures r.Ok? <==> Rooted(Extends(lib), name)
      ensures r.Ok? ==> r.value == Inherited(lib, name)
      ensures r == Err(NoSuchParent) ==> Dangles(Extends(lib), name)
      ensures r.Err? && r != Err(NoSuchParent) ==> RunsIntoCycle(Extends(lib), name)
      decreases lib.Keys - resolving
    {
      ghost var p := Extends(lib);
      if name in resolved {
        return Ok(resolved[name]);
      }
      if name in resolving {
        CycleIsNotRooted(p, name);
        return Err(InCycle);
      }
      var d := lib[name];
      ParentsFate(p, name);
      RootIsRooted(p);
      if d.base != NOBODY {
        if d.base == name {
          assert Leads(p, name, 0, name);
          assert Leads(p, name, 1, name);
          CycleIsNotRooted(p, name);
          return Err(ExtendsItself);
        }
        if d.base !in lib {
          NoParentDangles(p, name);
          return Err(NoSuchParent);
        }
        LeadOn(p, resolving, name);
        ghost var before := resolving;
        resolving := resolving + {name};
        var parent := Resolve(d.base);
        resolving := resolving - {name};
        assert resolving == before;
        if parent.Err? {
          return parent;
        }
        d := MergeExtends(parent.value, d);
      }
      resolved := resolved[name := d];
      r := Ok(d);
    }
  }

  // ----- Loading a library -----

  /** The first n files by name; of several of a name the first counts. */
  function ByName(files: seq<Definition>, n: nat): (lib: Library)
    requires n <= |files|
    ensures NOBODY !in lib && forall name :: name in lib ==> lib[name].name == name
  {
    if n == 0 then map[]
    else
      var before, d := ByName(files, n - 1), files[n - 1];
      if d.name == NOBODY || d.name in before then before else before[d.name := d]
  }

  ghost predicate DistinctNames(files: seq<Definition>, n: nat)
    requires n <= |files|
  {
    forall i, j :: 0 <= i < j < n ==> files[i].name != files[j].name
  }

  lemma {:induction false} ByNameHas(files: seq<Definition>, n: nat, i: nat)
    requires i < n <= |files| && files[i].name != NOBODY
    ensures files[i].name in ByName(files, n)
    ensures DistinctNames(files, n) ==> ByName(files, n)[files[i].name] == files[i]
  {
    if i < n - 1 {
      ByNameHas(files, n - 1, i);
    } else {
      NotByName(files, n - 1, files[i].name);
    }
  }

  lemma {:induction false} NotByName(files: seq<Definition>, n: nat, name: Id)
    requires n <= |files|
    ensures name in ByName(files, n) ==> exists i :: 0 <= i < n && files[i].name == name
  {
    if n > 0 {
      NotByName(files, n - 1, name);
    }
  }

  ghost predicate Loadable(files: seq<Definition>) {
    && DistinctNames(files, |files|)
    && forall i :: 0 <= i < |files| ==>
        files[i].name != NOBODY && Rooted(Extends(ByName(files, |files|)), files[i].name)
  }

  /**
   Every definition has a name of its own, extends nothing or a definition of the library, and none extends its way
   back to itself.
   */
  lemma {:induction false} LoadableMeans(files: seq<Definition>)
    ensures Loadable(files) <==>
              && (forall i :: 0 <= i < |files| ==> files[i].name != NOBODY)
              && (forall i, j :: 0 <= i < j < |files| ==> files[i].name != files[j].name)
              && (forall i :: 0 <= i < |files| ==>
                    files[i].base == NOBODY || exists j :: 0 <= j < |files| && files[j].name == files[i].base)
              && (forall i :: 0 <= i < |files| ==> !OnCycle(Extends(ByName(files, |files|)), files[i].name))
  {
    if DistinctNames(files, |files|) && forall i :: 0 <= i < |files| ==> files[i].name != NOBODY {
      var p := Extends(ByName(files, |files|));
      ForestHasNoCycle(p);
      forall i | 0 <= i < |files|
        ensures files[i].name in p && p[files[i].name] == files[i].base
      {
        ByNameHas(files, |files|, i);
      }
      forall x
        ensures x in p <==> exists i :: 0 <= i < |files| && files[i].name == x
      {
        NotByName(files, |files|, x);
      }
    }
  }

  /**
   A library loads exactly if its definitions have distinct names and extends chains that end, each to what
   its chain makes of it.
   */
  method LoadLibrary(files: seq<Definition>) returns (r: Option<seq<Definition>>)
    ensures r.Some? <==> Loadable(files)
    ensures r.Some? ==> |r.value| == |files| && forall i :: 0 <= i < |files| ==>
              files[i].name in ByName(files, |files|) && r.value[i] == Inherited(ByName(files, |files|), files[i].name)
  {
    var lib := IndexFiles(files);
    if lib.None? {
      return None;
    }
    r := ResolveAll(files, lib.value);
  }

  method IndexFiles(files: seq<Definition>) returns (lib: Option<Library>)
    ensures lib.Some? <==> DistinctNames(files, |files|) && forall i :: 0 <= i < |files| ==> files[i].name != NOBODY
    ensures lib.Some? ==> lib.value == ByName(files, |files|)
  {
    var byName: Library := map[];
    for i := 0 to |files|
      invariant byName == ByName(files, i) && DistinctNames(files, i)
      invariant forall k :: 0 <= k < i ==> files[k].name != NOBODY
    {
      NotByName(files, i, files[i].name);
      if files[i].name == NOBODY || files[i].name in byName {
        return None;
      }
      forall k | 0 <= k < i
        ensures files[k].name in byName
      {
        ByNameHas(files, i, k);
      }
      byName := byName[files[i].name := files[i]];
    }
    lib := Some(byName);
  }

  method ResolveAll(files: seq<Definition>, lib: Library) returns (r: Option<seq<Definition>>)
    requires lib == ByName(files, |files|) && forall i :: 0 <= i < |files| ==> files[i].name != NOBODY
    ensures r.Some? <==> forall i :: 0 <= i < |files| ==> Rooted(Extends(lib), files[i].name)
    ensures r.Some? ==> |r.value| == |files| && forall i :: 0 <= i < |files| ==>
              files[i].name in lib && r.value[i] == Inherited(lib, files[i].name)
  {
    var defs: seq<Definition> := [];
    var resolver := new Resolver(lib);
    for i := 0 to |files|
      invariant resolver.Valid() && resolver.lib == lib && resolver.resolving == {} && |defs| == i
      invariant forall k :: 0 <= k < i ==>
                  files[k].name in lib && Rooted(Extends(lib), files[k].name)
                      && defs[k] == Inherited(lib, files[k].name)
    {
      ByNameHas(files, |files|, i);
      var d := resolver.Resolve(files[i].name);
      if d.Err? {
        return None;
      }
      defs := defs + [d.value];
    }
    r := Some(defs);
  }
}
