/** `crates/protocol-codegen/src/hoist.rs`: shortening absolute paths to imported
    names. A file is the names it binds and the paths that occur in it. */
module Hoist {
  import opened Base
  import opened Collections

  /** A path: its leading `::` and its segment names. */
  datatype PathKey = PathKey(colon: bool, segs: seq<Str>)

  /** The names a file binds, and the prelude table: what each prelude name stands
      for below the `std` root. */
  datatype Scope = Scope(imported: map<Str, PathKey>, types: set<Str>, values: set<Str>, prelude: map<Str, seq<Str>>)

  type Levels = map<PathKey, nat>

  const MAX_SEGMENTS: nat := 2

  predicate IsStdRoot(name: Str) { name == "std" || name == "core" || name == "alloc" }

  predicate StartsUpper(name: Str) { name != [] && 'A' <= name[0] <= 'Z' }

  predicate StartsLower(name: Str) { name != [] && 'a' <= name[0] <= 'z' }

  predicate IsPrelude(scope: Scope, path: PathKey)
  {
    && |path.segs| > 1 && IsStdRoot(path.segs[0])
    && path.segs[|path.segs| - 1] in scope.prelude
    && scope.prelude[path.segs[|path.segs| - 1]] == path.segs[1..]
  }

  /** The first capitalised segment from `i` on, or the last segment. */
  function FirstType(segs: seq<Str>, i: nat): (k: nat)
    requires i <= |segs|
    ensures k < |segs| || (segs == [] && k == 0)
    ensures i < |segs| ==> i <= k
    ensures forall j :: i <= j < k ==> !StartsUpper(segs[j])
    ensures segs != [] ==> StartsUpper(segs[k]) || k == |segs| - 1
    decreases |segs| - i
  {
    if i == |segs| then (if segs == [] then 0 else |segs| - 1)
    else if StartsUpper(segs[i]) then i
    else FirstType(segs, i + 1)
  }

  /** The members of a type cannot be imported, so no path imports below its
      first type-like segment. */
  function DeepestLevel(segs: seq<Str>): (k: nat)
    ensures segs != [] ==> k < |segs|
    ensures forall j :: 1 <= j < k && j < |segs| ==> !StartsUpper(segs[j])
    ensures |segs| > 1 ==> k >= 1 && (StartsUpper(segs[k]) || k == |segs| - 1)
  {
    if segs == [] then 0 else FirstType(segs, 1)
  }

  predicate IsCrateRooted(scope: Scope, path: PathKey)
  {
    path.segs != []
    && var first := path.segs[0];
       || path.colon || first == "crate" || IsStdRoot(first)
       || (StartsLower(first) && first != "self" && first != "super"
           && first !in scope.imported && first !in scope.types)
  }

  predicate IsHoistable(scope: Scope, path: PathKey)
  {
    DeepestLevel(path.segs) >= MAX_SEGMENTS && IsCrateRooted(scope, path)
  }

  // ----- choosing levels -----

  /** The import a path takes at a level. */
  function Import(path: PathKey, level: nat): (r: PathKey)
    requires level < |path.segs|
  {
    PathKey(path.colon, path.segs[..level + 1])
  }

  /** The paths that the current levels import under `name`. */
  function Claims(levels: Levels, name: Str): set<PathKey>
  {
    set p | p in levels && levels[p] < |p.segs| && p.segs[levels[p]] == name :: Import(p, levels[p])
  }

  /** The import clashes with what the file binds, or with the prelude. */
  predicate ClashesWithFile(scope: Scope, path: PathKey, level: nat)
    requires level < |path.segs|
  {
    var name := path.segs[level];
    || name in scope.types
    || (level + 1 == |path.segs| && name in scope.values)
    || (name in scope.imported && scope.imported[name] != Import(path, level))
    || (name in scope.prelude && !IsPrelude(scope, Import(path, level)))
  }

  predicate Clashes(scope: Scope, levels: Levels, path: PathKey, level: nat)
    requires level < |path.segs|
  {
    ClashesWithFile(scope, path, level) || |Claims(levels, path.segs[level])| > 1
  }

  predicate Moves(scope: Scope, levels: Levels, path: PathKey)
    requires path in levels
  {
    levels[path] < |path.segs| && Clashes(scope, levels, path, levels[path])
  }

  predicate Stays(scope: Scope, levels: Levels, path: PathKey)
    requires path in levels
  {
    levels[path] < |path.segs| && (Clashes(scope, levels, path, levels[path]) ==> levels[path] > 1)
  }

  /** One pass: every clashing path moves up a level, or out. */
  function Round(scope: Scope, levels: Levels): Levels
  {
    map p | p in levels && Stays(scope, levels, p) :: NextLevel(scope, levels, p)
  }

  function NextLevel(scope: Scope, levels: Levels, path: PathKey): nat
    requires path in levels && Stays(scope, levels, path)
  {
    if Moves(scope, levels, path) then levels[path] - 1 else levels[path]
  }

  predicate Settled(scope: Scope, levels: Levels)
  {
    forall p :: p in levels ==> !Moves(scope, levels, p)
  }

  /** The levels at and below each path's own: what a pass can only shrink. */
  ghost function Room(levels: Levels): set<(PathKey, nat)>
  {
    set p, k | p in levels && 0 <= k <= levels[p] :: (p, k)
  }

  lemma RoundShrinks(scope: Scope, levels: Levels)
    requires !Settled(scope, levels)
    ensures Room(Round(scope, levels)) < Room(levels)
  {
    var p :| p in levels && Moves(scope, levels, p);
    var next := Round(scope, levels);
    assert (p, levels[p]) in Room(levels) && (p, levels[p]) !in Room(next);
    forall e | e in Room(next) ensures e in Room(levels) { assert e.0 in next; }
  }

  /** Passes until one moves nothing. */
  function Settle(scope: Scope, levels: Levels): (r: Levels)
    decreases Room(levels)
  {
    if Settled(scope, levels) then Round(scope, levels)
    else RoundShrinks(scope, levels); Settle(scope, Round(scope, levels))
  }

  function StartLevels(paths: set<PathKey>): Levels
  {
    map p | p in paths :: DeepestLevel(p.segs)
  }

  function ChosenLevels(scope: Scope, paths: set<PathKey>): Levels
  {
    Settle(scope, StartLevels(paths))
  }

  /** `path` has been through the pass. */
  ghost predicate Passed(scope: Scope, levels: Levels, next: Levels, dropped: set<PathKey>, path: PathKey)
    requires path in levels && path in next
  {
    if Stays(scope, levels, path) then path !in dropped && next[path] == NextLevel(scope, levels, path)
    else path in dropped
  }

  /** One pass over the level map, with the claims of its start. */
  method Pass(scope: Scope, levels: Levels) returns (next: Levels, changed: bool)
    ensures next == Round(scope, levels)
    ensures changed <==> !Settled(scope, levels)
  {
    next, changed := levels, false;
    var dropped: set<PathKey> := {};
    var rest := levels.Keys;
    while rest != {}
      invariant rest <= levels.Keys && next.Keys == levels.Keys && dropped <= levels.Keys - rest
      invariant forall p :: p in rest ==> next[p] == levels[p]
      invariant forall p :: p in levels && p !in rest ==> Passed(scope, levels, next, dropped, p)
      invariant changed <==> exists p :: p in levels && p !in rest && Moves(scope, levels, p)
      decreases |rest|
    {
      var p :| p in rest;
      var level := next[p];
      if level >= |p.segs| {
        dropped := dropped + {p};
      } else if Clashes(scope, levels, p, level) {
        changed := true;
        if level > 1 {
          next := next[p := level - 1];
        } else {
          dropped := dropped + {p};
        }
      }
      rest := rest - {p};
    }
    next := next - dropped;
  }

  /** `choose_levels`. */
  method ChooseLevels(scope: Scope, paths: set<PathKey>) returns (levels: Levels)
    ensures levels == ChosenLevels(scope, paths)
  {
    levels := StartLevels(paths);
    var changed := true;
    while changed
      invariant if changed then Settle(scope, levels) == ChosenLevels(scope, paths)
                else levels == ChosenLevels(scope, paths)
      decreases changed, Room(levels)
    {
      ghost var before := levels;
      levels, changed := Pass(scope, levels);
      if changed { RoundShrinks(scope, before); }
    }
  }

  // ----- the fixpoint -----

  /** Levels lie between one and the deepest level of a collected path. */
  predicate Shaped(levels: Levels, paths: set<PathKey>)
  {
    forall p :: p in levels ==> p in paths && 1 <= levels[p] <= DeepestLevel(p.segs) && levels[p] < |p.segs|
  }

  ghost predicate AllHoistable(scope: Scope, paths: set<PathKey>)
  {
    forall p :: p in paths ==> IsHoistable(scope, p)
  }

  lemma {:induction false} SettleSettles(scope: Scope, levels: Levels, paths: set<PathKey>)
    requires Shaped(levels, paths)
    ensures Shaped(Settle(scope, levels), paths) && Settled(scope, Settle(scope, levels))
    decreases Room(levels)
  {
    if Settled(scope, levels) {
      assert Round(scope, levels) == levels;
    } else {
      RoundShrinks(scope, levels);
      SettleSettles(scope, Round(scope, levels), paths);
    }
  }

  /** The chosen levels clash with nothing. */
  lemma ChosenSettle(scope: Scope, paths: set<PathKey>)
    requires AllHoistable(scope, paths)
    ensures var levels := ChosenLevels(scope, paths);
            Shaped(levels, paths) && Settled(scope, levels)
  {
    assert Shaped(StartLevels(paths), paths);
    SettleSettles(scope, StartLevels(paths), paths);
  }

  /** Each name is imported from one place. */
  predicate NamesAgree(levels: Levels)
  {
    forall p, q ::
      (p in levels && q in levels && levels[p] < |p.segs| && levels[q] < |q.segs|
       && p.segs[levels[p]] == q.segs[levels[q]]) ==>
        Import(p, levels[p]) == Import(q, levels[q])
  }

  lemma AtMostOne<T>(s: set<T>, a: T, b: T)
    requires |s| <= 1 && a in s && b in s
    ensures a == b
  {
    assert |s - {a}| == 0;
  }

  lemma SettledNamesAgree(scope: Scope, levels: Levels)
    requires Settled(scope, levels)
    ensures NamesAgree(levels)
  {
    forall p, q | p in levels && q in levels && levels[p] < |p.segs| && levels[q] < |q.segs|
      && p.segs[levels[p]] == q.segs[levels[q]]
      ensures Import(p, levels[p]) == Import(q, levels[q])
    {
      assert !Moves(scope, levels, p);
      AtMostOne(Claims(levels, p.segs[levels[p]]), Import(p, levels[p]), Import(q, levels[q]));
    }
  }

  // ----- rewriting and resolution -----

  /** The level of `path` adds a `use` item. */
  predicate IsNew(scope: Scope, path: PathKey, level: nat)
    requires level < |path.segs|
  {
    var name := path.segs[level];
    !(name in scope.imported && scope.imported[name] == Import(path, level)) && !IsPrelude(scope, Import(path, level))
  }

  /** The names that the new `use` items bind. */
  function NewImports(scope: Scope, levels: Levels): map<Str, PathKey>
    requires NamesAgree(levels)
  {
    map p | p in levels && levels[p] < |p.segs| && IsNew(scope, p, levels[p]) :: p.segs[levels[p]] := Import(p, levels[p])
  }

  function Hoisted(scope: Scope, levels: Levels): Scope
    requires NamesAgree(levels)
  {
    scope.(imported := scope.imported + NewImports(scope, levels))
  }

  /** `Rewriter::visit_path_mut`. */
  function Rewritten(scope: Scope, levels: Levels, path: PathKey): PathKey
  {
    if IsHoistable(scope, path) && path in levels && levels[path] <= |path.segs|
    then PathKey(false, path.segs[levels[path]..]) else path
  }

  datatype Item = Local(segs: seq<Str>) | Absolute(path: PathKey)

  /** What a path names: a leading `::` is absolute; otherwise its first segment is
      looked up among the file's own names, its imports and the prelude, and a name
      bound nowhere is a crate root. A local variable answers only a bare name. */
  function Resolve(scope: Scope, path: PathKey): Item
  {
    if path.colon || path.segs == [] then Absolute(path)
    else
      var first, rest := path.segs[0], path.segs[1..];
      if first in scope.types || (rest == [] && first in scope.values) then Local(path.segs)
      else if first in scope.imported then
        Absolute(PathKey(scope.imported[first].colon, scope.imported[first].segs + rest))
      else if first in scope.prelude then Absolute(PathKey(false, ["std"] + scope.prelude[first] + rest))
      else Absolute(path)
  }

  /** The same item: the standard library facades re-export one another. */
  predicate SameItem(a: Item, b: Item)
  {
    a == b
    || (a.Absolute? && b.Absolute? && a.path.segs != [] && b.path.segs != []
        && IsStdRoot(a.path.segs[0]) && IsStdRoot(b.path.segs[0]) && a.path.segs[1..] == b.path.segs[1..])
  }

  lemma NewImportsAre(scope: Scope, levels: Levels, p: PathKey)
    requires NamesAgree(levels) && p in levels && levels[p] < |p.segs|
    ensures var name := p.segs[levels[p]];
            IsNew(scope, p, levels[p]) <==> name in NewImports(scope, levels)
    ensures var name := p.segs[levels[p]];
            name in NewImports(scope, levels) ==> NewImports(scope, levels)[name] == Import(p, levels[p])
  {
  }

  /** What the hoisted file knows of a chosen name: its import, or, for a prelude
      item, nothing but the prelude. */
  lemma ChosenName(scope: Scope, levels: Levels, p: PathKey)
    requires NamesAgree(levels) && p in levels && levels[p] < |p.segs| && !Moves(scope, levels, p)
    ensures var name, imports := p.segs[levels[p]], Hoisted(scope, levels).imported;
            if name in imports then imports[name] == Import(p, levels[p]) else IsPrelude(scope, Import(p, levels[p]))
  {
    NewImportsAre(scope, levels, p);
  }

  /** A path cut at a level, and its import, make up the path. */
  lemma Cut(p: PathKey, level: nat)
    requires level < |p.segs|
    ensures p.segs[level..] == [p.segs[level]] + p.segs[level + 1..]
    ensures PathKey(p.colon, Import(p, level).segs + p.segs[level + 1..]) == p
    ensures p.segs[1..] == Import(p, level).segs[1..] + p.segs[level + 1..]
  {
    assert p.segs == p.segs[..level + 1] + p.segs[level + 1..];
  }

  lemma LooksUp(scope: Scope, name: Str, rest: seq<Str>)
    requires name !in scope.types && !(rest == [] && name in scope.values)
    ensures name in scope.imported ==>
              Resolve(scope, PathKey(false, [name] + rest))
              == Absolute(PathKey(scope.imported[name].colon, scope.imported[name].segs + rest))
    ensures name !in scope.imported && name in scope.prelude ==>
              Resolve(scope, PathKey(false, [name] + rest)) == Absolute(PathKey(false, ["std"] + scope.prelude[name] + rest))
  {
    assert ([name] + rest)[1..] == rest;
  }

  /** A rewritten path names its original: exactly when it goes through an import,
      and up to the facade it was written with when it goes through the prelude. */
  lemma RewrittenResolves(scope: Scope, levels: Levels, paths: set<PathKey>, p: PathKey)
    requires Shaped(levels, paths) && Settled(scope, levels) && AllHoistable(scope, paths) && p in levels
    requires NamesAgree(levels)
    ensures SameItem(Resolve(Hoisted(scope, levels), Rewritten(scope, levels, p)), Absolute(p))
    ensures !IsPrelude(scope, Import(p, levels[p])) ==>
              Resolve(Hoisted(scope, levels), Rewritten(scope, levels, p)) == Absolute(p)
  {
    var level := levels[p];
    var name, rest, scope' := p.segs[level], p.segs[level + 1..], Hoisted(scope, levels);
    assert !Moves(scope, levels, p) && IsHoistable(scope, p);
    ChosenName(scope, levels, p);
    Cut(p, level);
    LooksUp(scope', name, rest);
    if name !in scope'.imported {
      var import_ := Import(p, level);
      assert import_.segs[|import_.segs| - 1] == name;
      SameFacade(import_, rest, p);
    }
  }

  lemma SameFacade(import_: PathKey, rest: seq<Str>, p: PathKey)
    requires import_.segs != [] && p.segs != [] && IsStdRoot(p.segs[0])
    requires p.segs[1..] == import_.segs[1..] + rest
    ensures SameItem(Absolute(PathKey(false, ["std"] + import_.segs[1..] + rest)), Absolute(p))
  {
    assert (["std"] + import_.segs[1..] + rest)[1..] == import_.segs[1..] + rest;
  }

  /** A path that opens with a newly imported name, and is not a local variable. */
  predicate Captured(scope: Scope, levels: Levels, q: PathKey)
    requires NamesAgree(levels)
  {
    && !q.colon && q.segs != [] && q.segs[0] in NewImports(scope, levels)
    && !(|q.segs| == 1 && q.segs[0] in scope.values)
  }

  /** A new import binds a name that the file did not know, to a path of two
      segments or more. */
  lemma NewNamesAreFresh(scope: Scope, levels: Levels, paths: set<PathKey>, name: Str)
    requires Shaped(levels, paths) && Settled(scope, levels) && NamesAgree(levels)
    requires name in NewImports(scope, levels)
    ensures name !in scope.types && name !in scope.imported && name !in scope.prelude
    ensures |NewImports(scope, levels)[name].segs| > 1
  {
    var p :| p in levels && levels[p] < |p.segs| && IsNew(scope, p, levels[p]) && p.segs[levels[p]] == name;
    NewImportsAre(scope, levels, p);
    assert !Moves(scope, levels, p);
  }

  /** New imports do not touch a path that they do not open. */
  lemma SameLookup(scope: Scope, new_: map<Str, PathKey>, q: PathKey)
    requires q.colon || q.segs == [] || q.segs[0] !in new_ || (|q.segs| == 1 && q.segs[0] in scope.values)
    ensures Resolve(scope.(imported := scope.imported + new_), q) == Resolve(scope, q)
  {
  }

  lemma OtherItem(a: PathKey, b: PathKey)
    requires |a.segs| > |b.segs|
    ensures !SameItem(Absolute(a), Absolute(b))
  {
    if b.segs != [] { assert |a.segs[1..]| > |b.segs[1..]|; }
  }

  lemma OpenedIsOther(scope: Scope, new_: map<Str, PathKey>, q: PathKey)
    requires !q.colon && q.segs != [] && q.segs[0] in new_ && !(|q.segs| == 1 && q.segs[0] in scope.values)
    requires q.segs[0] !in scope.types && q.segs[0] !in scope.imported && q.segs[0] !in scope.prelude
    requires |new_[q.segs[0]].segs| > 1
    ensures !SameItem(Resolve(scope.(imported := scope.imported + new_), q), Resolve(scope, q))
  {
    var name, rest := q.segs[0], q.segs[1..];
    OtherItem(PathKey(new_[name].colon, new_[name].segs + rest), q);
  }

  /** A path that is left as it was keeps its meaning if and only if no new import
      captures its first segment; when one does, the path names another item. */
  lemma UnrewrittenResolves(scope: Scope, levels: Levels, paths: set<PathKey>, q: PathKey)
    requires Shaped(levels, paths) && Settled(scope, levels) && NamesAgree(levels)
    ensures if Captured(scope, levels, q) then !SameItem(Resolve(Hoisted(scope, levels), q), Resolve(scope, q))
            else Resolve(Hoisted(scope, levels), q) == Resolve(scope, q)
  {
    if Captured(scope, levels, q) {
      NewNamesAreFresh(scope, levels, paths, q.segs[0]);
      OpenedIsOther(scope, NewImports(scope, levels), q);
    } else {
      SameLookup(scope, NewImports(scope, levels), q);
    }
  }

  predicate PreludeIsCapitalised(scope: Scope)
  {
    forall n :: n in scope.prelude ==> StartsUpper(n)
  }

  /** The file does not bind the root of the path to something else: neither an item of its
      own (`extern crate alloc` is one) nor an import of another root. */
  predicate RootStands(scope: Scope, p: PathKey)
    requires p.segs != []
  {
    var root := p.segs[0];
    p.colon || (&& root !in scope.types
                && (root in scope.imported ==> SameItem(Absolute(scope.imported[root]), Absolute(PathKey(false, [root])))))
  }

  lemma SameItemTransitive(a: Item, b: Item, c: Item)
    requires SameItem(a, b) && SameItem(b, c)
    ensures SameItem(a, c) && SameItem(c, a)
  {
  }

  /** An import in front of the rest of a path names what the root does exactly when the
      import alone does. */
  lemma ImportedRoot(root: Str, import_: PathKey, rest: seq<Str>)
    requires rest != []
    ensures SameItem(Absolute(PathKey(import_.colon, import_.segs + rest)), Absolute(PathKey(false, [root] + rest)))
            <==> SameItem(Absolute(import_), Absolute(PathKey(false, [root])))
  {
    var whole := import_.segs + rest;
    assert ([root] + rest)[1..] == rest && [root][1..] == [];
    if |import_.segs| == 1 {
      assert whole[0] == import_.segs[0] && whole[1..] == rest && import_.segs[1..] == [];
      assert import_.segs == [import_.segs[0]];
    } else {
      assert |whole| != |[root] + rest|;
      assert whole != [] && |whole[1..]| != |rest|;
      if import_.segs != [] { assert |import_.segs[1..]| > 0; }
    }
  }

  /** A path that can be hoisted names an item outside the file exactly when its root stands. */
  lemma RootDecides(scope: Scope, p: PathKey)
    requires IsHoistable(scope, p) && PreludeIsCapitalised(scope)
    ensures SameItem(Resolve(scope, p), Absolute(p)) <==> RootStands(scope, p)
  {
    if !p.colon {
      var root, rest := p.segs[0], p.segs[1..];
      assert root == "crate" || IsStdRoot(root) || StartsLower(root);
      assert !StartsUpper(root) && p == PathKey(false, [root] + rest);
      if root in scope.imported { ImportedRoot(root, scope.imported[root], rest); }
    }
  }

  /** Away from `self` and `super`, a path that begins in lower case starts at a crate root
      exactly when the file binds its first name to nothing. */
  lemma RootedIff(scope: Scope, p: PathKey)
    requires PreludeIsCapitalised(scope) && |p.segs| > 1 && StartsLower(p.segs[0])
    requires p.segs[0] != "self" && p.segs[0] != "super"
    ensures IsCrateRooted(scope, p) <==>
              p.colon || p.segs[0] == "crate" || IsStdRoot(p.segs[0])
              || (p.segs[0] !in scope.types && p.segs[0] !in scope.imported && Resolve(scope, p) == Absolute(p))
  {
  }

  /** A path can be hoisted exactly when it starts at a crate root and has three segments or
      more, the second of which is no type. */
  lemma HoistableIff(scope: Scope, p: PathKey)
    ensures IsHoistable(scope, p) <==> IsCrateRooted(scope, p) && |p.segs| > 2 && !StartsUpper(p.segs[1])
  {
  }

  /** A path below a std root is a prelude path exactly when its last name, looked up in a file
      that binds nothing, names the same item. */
  lemma PreludeIff(scope: Scope, path: PathKey)
    requires |path.segs| > 1 && IsStdRoot(path.segs[0])
    ensures var last := path.segs[|path.segs| - 1];
            IsPrelude(scope, path) <==>
              last in scope.prelude
              && SameItem(Resolve(Scope(map[], {}, {}, scope.prelude), PathKey(false, [last])), Absolute(path))
  {
    var last := path.segs[|path.segs| - 1];
    if last in scope.prelude {
      var whole := ["std"] + scope.prelude[last];
      assert [last][1..] == [] && whole + [] == whole && whole[1..] == scope.prelude[last];
      assert Resolve(Scope(map[], {}, {}, scope.prelude), PathKey(false, [last])) == Absolute(PathKey(false, whole));
    }
  }

  /** The paths of the file that the hoister collects. */
  function Collected(scope: Scope, file: set<PathKey>): set<PathKey>
  {
    set p | p in file && IsHoistable(scope, p)
  }

  /** `q`, as the hoister leaves it, names what it named before. */
  ghost predicate KeepsMeaning(scope: Scope, levels: Levels, q: PathKey)
    requires NamesAgree(levels)
  {
    SameItem(Resolve(Hoisted(scope, levels), Rewritten(scope, levels, q)), Resolve(scope, q))
  }

  lemma ChosenAgree(scope: Scope, paths: set<PathKey>)
    requires AllHoistable(scope, paths)
    ensures var levels := ChosenLevels(scope, paths);
            Shaped(levels, paths) && Settled(scope, levels) && NamesAgree(levels)
  {
    ChosenSettle(scope, paths);
    SettledNamesAgree(scope, ChosenLevels(scope, paths));
  }

  lemma MeaningIff(scope: Scope, levels: Levels, paths: set<PathKey>, q: PathKey)
    requires PreludeIsCapitalised(scope) && AllHoistable(scope, paths)
    requires Shaped(levels, paths) && Settled(scope, levels) && NamesAgree(levels)
    ensures q in levels ==> q.segs != []
    ensures KeepsMeaning(scope, levels, q) <==> if q in levels then RootStands(scope, q) else !Captured(scope, levels, q)
  {
    if q in levels {
      RewrittenResolves(scope, levels, paths, q);
      RootDecides(scope, q);
      var was, is_ := Resolve(scope, q), Resolve(Hoisted(scope, levels), Rewritten(scope, levels, q));
      if SameItem(is_, was) { SameItemTransitive(was, is_, Absolute(q)); }
      if SameItem(was, Absolute(q)) { SameItemTransitive(is_, Absolute(q), was); }
    } else {
      UnrewrittenResolves(scope, levels, paths, q);
    }
  }

  /** Hoisting keeps what every path of the file names, if and only if the root of every
      shortened path stands and no path that is left as it was opens with a newly imported
      name. */
  lemma HoistingPreservesResolution(scope: Scope, file: set<PathKey>)
    requires scope.prelude == PRELUDE
    ensures var levels := ChosenLevels(scope, Collected(scope, file));
            && NamesAgree(levels)
            && (forall q :: q in levels ==> q.segs != [])
            && ((forall q :: q in file ==> KeepsMeaning(scope, levels, q))
                <==> (forall q :: q in file ==> if q in levels then RootStands(scope, q) else !Captured(scope, levels, q)))
  {
    var paths := Collected(scope, file);
    var levels := ChosenLevels(scope, paths);
    SourcePreludeIsCapitalised(scope);
    ChosenAgree(scope, paths);
    forall q | q in file || q in levels
      ensures q in levels ==> q.segs != []
      ensures KeepsMeaning(scope, levels, q) <==> if q in levels then RootStands(scope, q) else !Captured(scope, levels, q)
    {
      MeaningIff(scope, levels, paths, q);
    }
  }

  // ----- a condition on the file alone -----

  /** The path looks a name up, and a local variable does not answer it. */
  predicate OpensWith(scope: Scope, q: PathKey, name: Str)
  {
    !q.colon && q.segs != [] && q.segs[0] == name && !(|q.segs| == 1 && name in scope.values)
  }

  /** Some level of the path would import the name. */
  predicate Offers(p: PathKey, name: Str)
  {
    exists k :: 1 <= k <= DeepestLevel(p.segs) && k < |p.segs| && p.segs[k] == name
  }

  /** No path of the file opens with a name that a collected path offers, and every root
      stands. This needs no levels. */
  ghost predicate Harmless(scope: Scope, file: set<PathKey>)
  {
    && (forall q :: q in Collected(scope, file) ==> q.segs != [] && RootStands(scope, q))
    && (forall p, q, name :: p in Collected(scope, file) && q in file && Offers(p, name) ==> !OpensWith(scope, q, name))
  }

  /** A captured path opens with a name that some collected path offers. */
  lemma CapturedIsOffered(scope: Scope, levels: Levels, paths: set<PathKey>, q: PathKey)
    requires Shaped(levels, paths) && NamesAgree(levels) && Captured(scope, levels, q)
    ensures OpensWith(scope, q, q.segs[0]) && exists p :: p in paths && Offers(p, q.segs[0])
  {
    var p :| p in levels && levels[p] < |p.segs| && IsNew(scope, p, levels[p]) && p.segs[levels[p]] == q.segs[0];
    assert 1 <= levels[p] <= DeepestLevel(p.segs);
    assert Offers(p, q.segs[0]);
  }

  /** A file that is harmless before the call keeps its meaning, whatever levels are chosen. */
  lemma HarmlessIsKept(scope: Scope, file: set<PathKey>, q: PathKey)
    requires scope.prelude == PRELUDE && Harmless(scope, file) && q in file
    ensures var levels := ChosenLevels(scope, Collected(scope, file));
            NamesAgree(levels) && KeepsMeaning(scope, levels, q)
  {
    var paths := Collected(scope, file);
    var levels := ChosenLevels(scope, paths);
    SourcePreludeIsCapitalised(scope);
    ChosenAgree(scope, paths);
    MeaningIff(scope, levels, paths, q);
    if q !in levels && Captured(scope, levels, q) { CapturedIsOffered(scope, levels, paths, q); }
  }

  // ----- no path moves without need -----

  /** The file leaves the name of this level to the path: it binds it to nothing else, and the
      prelude has it for nothing else. */
  predicate FileLeaves(scope: Scope, p: PathKey, k: nat)
    requires k < |p.segs|
  {
    var name := p.segs[k];
    && name !in scope.types
    && (name in scope.values ==> k < |p.segs| - 1)
    && (name in scope.imported ==> scope.imported[name] == Import(p, k))
    && (name in scope.prelude ==> IsPrelude(scope, Import(p, k)))
  }

  /** Nothing stands against `p` at level `k`: not the file, and no level of another path. */
  ghost predicate FreeAt(scope: Scope, paths: set<PathKey>, p: PathKey, k: nat)
    requires k < |p.segs|
  {
    && FileLeaves(scope, p, k)
    && (forall q, j :: q in paths && q != p && 1 <= j <= DeepestLevel(q.segs) && j < |q.segs| && q.segs[j] == p.segs[k] ==>
          Import(q, j) == Import(p, k))
  }

  ghost predicate Unrivalled(scope: Scope, paths: set<PathKey>, p: PathKey)
    requires DeepestLevel(p.segs) < |p.segs|
  {
    FreeAt(scope, paths, p, DeepestLevel(p.segs))
  }

  lemma FreeDoesNotMove(scope: Scope, levels: Levels, paths: set<PathKey>, p: PathKey)
    requires Shaped(levels, paths) && p in levels && FreeAt(scope, paths, p, levels[p])
    ensures !Moves(scope, levels, p)
  {
    var name, mine := p.segs[levels[p]], Import(p, levels[p]);
    assert Claims(levels, name) <= {mine};
    SubsetSize(Claims(levels, name), {mine});
  }

  lemma {:induction false} FreeHolds(scope: Scope, levels: Levels, paths: set<PathKey>, p: PathKey, k: nat)
    requires Shaped(levels, paths) && 1 <= k < |p.segs| && FreeAt(scope, paths, p, k)
    requires p in levels && levels[p] >= k
    ensures var r := Settle(scope, levels);
            p in r && r[p] >= k
    decreases Room(levels)
  {
    if levels[p] == k { FreeDoesNotMove(scope, levels, paths, p); }
    if !Settled(scope, levels) {
      RoundShrinks(scope, levels);
      FreeHolds(scope, Round(scope, levels), paths, p, k);
    }
  }

  /** No path moves past a level that nothing stands against: it ends there or deeper. */
  lemma NoPathMovesWithoutNeed(scope: Scope, paths: set<PathKey>, p: PathKey, k: nat)
    requires AllHoistable(scope, paths) && p in paths && 1 <= k <= DeepestLevel(p.segs) && FreeAt(scope, paths, p, k)
    ensures var levels := ChosenLevels(scope, paths);
            p in levels && levels[p] >= k
  {
    assert Shaped(StartLevels(paths), paths);
    FreeHolds(scope, StartLevels(paths), paths, p, k);
  }

  /** A path is left out only if something stands against it at its first level. */
  lemma LeftOutOnlyAtTheTop(scope: Scope, paths: set<PathKey>, p: PathKey)
    requires AllHoistable(scope, paths) && p in paths && p !in ChosenLevels(scope, paths)
    ensures !FreeAt(scope, paths, p, 1)
  {
    if FreeAt(scope, paths, p, 1) { NoPathMovesWithoutNeed(scope, paths, p, 1); }
  }

  // ----- the passes -----

  /** From one map of levels to the next: a path that clashes goes up one level, or out from
      the first; any other path keeps its level. */
  ghost predicate Passes(scope: Scope, levels: Levels, next: Levels)
  {
    && (forall p :: p in next ==> p in levels)
    && (forall p :: p in levels && levels[p] < |p.segs| ==>
          if !Clashes(scope, levels, p, levels[p]) then p in next && next[p] == levels[p]
          else if levels[p] > 1 then p in next && next[p] == levels[p] - 1
          else p !in next)
  }

  /** Passes from `levels` on, each of which changed something, until nothing clashes. */
  ghost predicate ChainFrom(scope: Scope, maps: seq<Levels>, levels: Levels)
  {
    && maps != [] && maps[0] == levels
    && (forall i :: 0 <= i < |maps| - 1 ==> Passes(scope, maps[i], maps[i + 1]) && maps[i + 1] != maps[i])
    && (forall p :: p in maps[|maps| - 1] && maps[|maps| - 1][p] < |p.segs| ==>
          !Clashes(scope, maps[|maps| - 1], p, maps[|maps| - 1][p]))
  }

  /** A chain of passes from the deepest level of every path. */
  ghost predicate Chain(scope: Scope, maps: seq<Levels>, paths: set<PathKey>)
  {
    && maps != [] && ChainFrom(scope, maps, maps[0])
    && maps[0].Keys == paths && (forall p :: p in paths ==> maps[0][p] == DeepestLevel(p.segs))
  }

  lemma RoundPasses(scope: Scope, levels: Levels, paths: set<PathKey>)
    requires Shaped(levels, paths)
    ensures Passes(scope, levels, Round(scope, levels)) && Shaped(Round(scope, levels), paths)
  {
  }

  lemma {:induction false} SettleByPasses(scope: Scope, levels: Levels, paths: set<PathKey>) returns (maps: seq<Levels>)
    requires Shaped(levels, paths)
    ensures ChainFrom(scope, maps, levels) && maps[|maps| - 1] == Settle(scope, levels)
    decreases Room(levels)
  {
    if Settled(scope, levels) {
      assert Round(scope, levels) == levels;
      maps := [levels];
    } else {
      RoundShrinks(scope, levels);
      RoundPasses(scope, levels, paths);
      var rest := SettleByPasses(scope, Round(scope, levels), paths);
      maps := [levels] + rest;
      assert maps[1] == rest[0];
      assert forall i :: 1 <= i < |maps| ==> maps[i] == rest[i - 1];
    }
  }

  lemma ChosenByPasses(scope: Scope, paths: set<PathKey>) returns (maps: seq<Levels>)
    requires AllHoistable(scope, paths)
    ensures Chain(scope, maps, paths) && maps[|maps| - 1] == ChosenLevels(scope, paths)
  {
    assert Shaped(StartLevels(paths), paths);
    maps := SettleByPasses(scope, StartLevels(paths), paths);
  }

  /** Passes leave no choice: all chains end alike. */
  lemma {:induction false} ChainsEndAlike(scope: Scope, a: seq<Levels>, b: seq<Levels>, levels: Levels, paths: set<PathKey>)
    requires Shaped(levels, paths) && ChainFrom(scope, a, levels) && ChainFrom(scope, b, levels)
    ensures a[|a| - 1] == b[|b| - 1]
    decreases |a|
  {
    if |a| == 1 || |b| == 1 {
      if |a| > 1 { NoClashNoPass(scope, levels, a[1], paths); }
      if |b| > 1 { NoClashNoPass(scope, levels, b[1], paths); }
    } else {
      PassIsDetermined(scope, levels, a[1], b[1], paths);
      PassKeepsShape(scope, levels, a[1], paths);
      assert a[1..][0] == b[1..][0];
      ChainsEndAlike(scope, a[1..], b[1..], a[1], paths);
    }
  }

  /** The chosen levels are those at the end of the passes, and no others. */
  lemma ChosenIff(scope: Scope, paths: set<PathKey>, levels: Levels)
    requires AllHoistable(scope, paths)
    ensures levels == ChosenLevels(scope, paths) <==> exists maps :: Chain(scope, maps, paths) && maps[|maps| - 1] == levels
  {
    var own := ChosenByPasses(scope, paths);
    if maps :| Chain(scope, maps, paths) && maps[|maps| - 1] == levels {
      assert maps[0] == own[0];
      assert Shaped(own[0], paths);
      ChainsEndAlike(scope, own, maps, own[0], paths);
    }
  }

  lemma PassIsDetermined(scope: Scope, levels: Levels, a: Levels, b: Levels, paths: set<PathKey>)
    requires Shaped(levels, paths) && Passes(scope, levels, a) && Passes(scope, levels, b)
    ensures a == b
  {
  }

  lemma PassKeepsShape(scope: Scope, levels: Levels, next: Levels, paths: set<PathKey>)
    requires Shaped(levels, paths) && Passes(scope, levels, next)
    ensures Shaped(next, paths)
  {
  }

  lemma NoClashNoPass(scope: Scope, levels: Levels, next: Levels, paths: set<PathKey>)
    requires Shaped(levels, paths) && Passes(scope, levels, next) && next != levels
    ensures exists p :: p in levels && levels[p] < |p.segs| && Clashes(scope, levels, p, levels[p])
  {
    if forall p :: p in levels && levels[p] < |p.segs| ==> !Clashes(scope, levels, p, levels[p]) {
      PassIsDetermined(scope, levels, next, levels, paths);
    }
  }

  lemma {:induction false} SubsetSize<T>(a: set<T>, b: set<T>)
    requires a <= b
    ensures |a| <= |b|
  {
    if |a| > 0 {
      var x := Member(a);
      SubsetSize(a - {x}, b - {x});
    }
  }

  /** A path nothing stands against is imported by its own name. */
  lemma UnrivalledIsImported(scope: Scope, paths: set<PathKey>, p: PathKey)
    requires AllHoistable(scope, paths) && p in paths && Unrivalled(scope, paths, p)
    ensures var levels := ChosenLevels(scope, paths);
            p in levels && levels[p] == DeepestLevel(p.segs)
  {
    NoPathMovesWithoutNeed(scope, paths, p, DeepestLevel(p.segs));
    ChosenSettle(scope, paths);
  }

  /** A path that nothing stands against takes a name away from every path that cannot be
      hoisted and opens with it, unless the file or the prelude has the import already. */
  lemma OpenedByUnrivalled(scope: Scope, file: set<PathKey>, p: PathKey, q: PathKey)
    requires p in Collected(scope, file) && Unrivalled(scope, Collected(scope, file), p)
    requires IsNew(scope, p, DeepestLevel(p.segs))
    requires !IsHoistable(scope, q) && OpensWith(scope, q, p.segs[DeepestLevel(p.segs)])
    ensures var levels := ChosenLevels(scope, Collected(scope, file));
            NamesAgree(levels) && !KeepsMeaning(scope, levels, q)
  {
    var paths := Collected(scope, file);
    var levels := ChosenLevels(scope, paths);
    ChosenAgree(scope, paths);
    UnrivalledIsImported(scope, paths, p);
    NewImportsAre(scope, levels, p);
    UnrewrittenResolves(scope, levels, paths, q);
  }

  /** Nothing stands against any collected path. */
  ghost predicate NoRivals(scope: Scope, file: set<PathKey>)
  {
    forall p :: p in Collected(scope, file) ==> Unrivalled(scope, Collected(scope, file), p)
  }

  /** The path takes the name: it is its deepest one, and no import has it yet. */
  ghost predicate TakesName(scope: Scope, p: PathKey, name: Str)
    requires p.segs != []
  {
    p.segs[DeepestLevel(p.segs)] == name && IsNew(scope, p, DeepestLevel(p.segs))
  }

  /** The roots stand, and no path that cannot be hoisted opens with a name that is taken. */
  ghost predicate NothingIsTaken(scope: Scope, file: set<PathKey>)
  {
    && (forall p :: p in Collected(scope, file) ==> p.segs != [] && RootStands(scope, p))
    && (forall p, q :: p in Collected(scope, file) && q in file && !IsHoistable(scope, q) ==>
          !(q.segs != [] && TakesName(scope, p, q.segs[0]) && OpensWith(scope, q, q.segs[0])))
  }

  lemma AllAtTheirDeepest(levels: Levels, paths: set<PathKey>)
    requires Shaped(levels, paths)
    requires forall p :: p in paths ==> p in levels && levels[p] == DeepestLevel(p.segs)
    ensures levels == StartLevels(paths)
  {
  }

  lemma NoRivalsAllChosen(scope: Scope, paths: set<PathKey>, levels: Levels)
    requires AllHoistable(scope, paths) && forall p :: p in paths ==> Unrivalled(scope, paths, p)
    requires levels == ChosenLevels(scope, paths)
    ensures levels == StartLevels(paths)
  {
    ChosenSettle(scope, paths);
    forall p | p in paths ensures p in levels && levels[p] == DeepestLevel(p.segs) { UnrivalledIsImported(scope, paths, p); }
    AllAtTheirDeepest(levels, paths);
  }

  lemma TakenIsCaptured(scope: Scope, paths: set<PathKey>, levels: Levels, q: PathKey)
    requires levels == StartLevels(paths) && NamesAgree(levels) && q.segs != []
    requires forall p :: p in paths ==> p.segs != []
    ensures Captured(scope, levels, q) <==>
              OpensWith(scope, q, q.segs[0]) && exists p :: p in paths && TakesName(scope, p, q.segs[0])
  {
    if p :| p in paths && TakesName(scope, p, q.segs[0]) { NewImportsAre(scope, levels, p); }
    if Captured(scope, levels, q) {
      var p :| p in levels && levels[p] < |p.segs| && IsNew(scope, p, levels[p]) && p.segs[levels[p]] == q.segs[0];
      assert TakesName(scope, p, q.segs[0]);
    }
  }

  /** For levels that are all the deepest ones, the two conditions are one. */
  lemma TakenIff(scope: Scope, file: set<PathKey>, paths: set<PathKey>, levels: Levels)
    requires paths == Collected(scope, file) && levels == StartLevels(paths) && NamesAgree(levels)
    requires forall p :: p in paths ==> p.segs != []
    ensures (forall q :: q in file ==> if q in levels then RootStands(scope, q) else !Captured(scope, levels, q))
            <==> NothingIsTaken(scope, file)
  {
    forall q | q in file && q !in levels && q.segs != []
      ensures Captured(scope, levels, q) <==>
                OpensWith(scope, q, q.segs[0]) && exists p :: p in paths && TakesName(scope, p, q.segs[0])
    {
      TakenIsCaptured(scope, paths, levels, q);
    }
  }

  /** Where no collected path has a rival, the condition on the file alone is exact. */
  lemma UnrivalledFileIff(scope: Scope, file: set<PathKey>)
    requires scope.prelude == PRELUDE && NoRivals(scope, file)
    ensures var levels := ChosenLevels(scope, Collected(scope, file));
            && NamesAgree(levels)
            && ((forall q :: q in file ==> KeepsMeaning(scope, levels, q)) <==> NothingIsTaken(scope, file))
  {
    var paths := Collected(scope, file);
    var levels := ChosenLevels(scope, paths);
    HoistingPreservesResolution(scope, file);
    NoRivalsAllChosen(scope, paths, levels);
    TakenIff(scope, file, paths, levels);
  }

  // ----- the source's prelude, and a capture -----

  const PRELUDE: map<Str, seq<Str>> := map[
    "Box" := ["boxed", "Box"],
    "Clone" := ["clone", "Clone"],
    "Default" := ["default", "Default"],
    "Err" := ["result", "Result", "Err"],
    "From" := ["convert", "From"],
    "Into" := ["convert", "Into"],
    "None" := ["option", "Option", "None"],
    "Ok" := ["result", "Result", "Ok"],
    "Option" := ["option", "Option"],
    "Result" := ["result", "Result"],
    "Some" := ["option", "Option", "Some"],
    "String" := ["string", "String"],
    "ToString" := ["string", "ToString"],
    "Vec" := ["vec", "Vec"]]

  lemma SourcePreludeIsCapitalised(scope: Scope)
    requires scope.prelude == PRELUDE
    ensures PreludeIsCapitalised(scope)
  {
  }

  const LONG: PathKey := PathKey(false, ["crate", "owned", "bytes"])
  const SHORT: PathKey := PathKey(false, ["bytes", "Buf"])

  lemma LongIsUnrivalled(scope: Scope)
    requires scope == Scope(map[], {}, {}, PRELUDE)
    ensures Collected(scope, {LONG, SHORT}) == {LONG} && DeepestLevel(LONG.segs) == 2
    ensures Unrivalled(scope, {LONG}, LONG)
  {
    assert DeepestLevel(SHORT.segs) == 1;
    assert DeepestLevel(LONG.segs) == 2;
  }

  /** Hoisting `crate::owned::bytes` imports `bytes`, and so takes the path
      `bytes::Buf`, which named the crate `bytes`, away from it. */
  lemma ShortPathIsCaptured()
    ensures var scope := Scope(map[], {}, {}, PRELUDE);
            var levels := ChosenLevels(scope, Collected(scope, {LONG, SHORT}));
            NamesAgree(levels) && !KeepsMeaning(scope, levels, SHORT)
  {
    var scope := Scope(map[], {}, {}, PRELUDE);
    LongIsUnrivalled(scope);
    OpenedByUnrivalled(scope, {LONG, SHORT}, LONG, SHORT);
  }

  const ONE: PathKey := PathKey(false, ["crate", "a", "Name"])
  const OTHER: PathKey := PathKey(false, ["crate", "b", "Name"])

  lemma BothMoveUp(scope: Scope, first: Levels, second: Levels)
    requires first == map[ONE := 2, OTHER := 2] && second == map[ONE := 1, OTHER := 1]
    requires Moves(scope, first, ONE) && Moves(scope, first, OTHER)
    ensures Round(scope, first) == second
  {
  }

  lemma BothStay(scope: Scope, second: Levels)
    requires second == map[ONE := 1, OTHER := 1]
    requires !Moves(scope, second, ONE) && !Moves(scope, second, OTHER)
    ensures Settle(scope, second) == second
  {
    assert Round(scope, second) == second;
  }

  lemma BothAreChosen(scope: Scope, first: Levels, second: Levels)
    requires !Settled(scope, first) && Round(scope, first) == second && Settle(scope, second) == second
    ensures Settle(scope, first) == second
  {
  }

  lemma BothAreHoistable(scope: Scope)
    requires scope == Scope(map[], {}, {}, PRELUDE)
    ensures IsHoistable(scope, ONE) && IsHoistable(scope, OTHER)
    ensures StartLevels({ONE, OTHER}) == map[ONE := 2, OTHER := 2]
  {
    assert DeepestLevel(ONE.segs) == 2 && DeepestLevel(OTHER.segs) == 2;
  }

  /** Two paths that clash at the type both move up to their modules, and no further: they are
      written `a::Name` and `b::Name`. */
  lemma ClashingPathsMoveUp()
    ensures var scope := Scope(map[], {}, {}, PRELUDE);
            var levels := ChosenLevels(scope, {ONE, OTHER});
            && levels == map[ONE := 1, OTHER := 1]
            && Rewritten(scope, levels, ONE) == PathKey(false, ["a", "Name"])
            && Rewritten(scope, levels, OTHER) == PathKey(false, ["b", "Name"])
  {
    var scope := Scope(map[], {}, {}, PRELUDE);
    var first, second := map[ONE := 2, OTHER := 2], map[ONE := 1, OTHER := 1];
    BothAreHoistable(scope);
    BothClash(scope, first);
    BothMoveUp(scope, first, second);
    ClashingPathsAreFreeAbove(scope);
    assert DeepestLevel(ONE.segs) == 2 && DeepestLevel(OTHER.segs) == 2;
    FreeDoesNotMove(scope, second, {ONE, OTHER}, ONE);
    FreeDoesNotMove(scope, second, {ONE, OTHER}, OTHER);
    BothStay(scope, second);
    BothAreChosen(scope, first, second);
  }

  lemma BothClash(scope: Scope, levels: Levels)
    requires levels == map[ONE := 2, OTHER := 2]
    ensures Moves(scope, levels, ONE) && Moves(scope, levels, OTHER)
  {
    var claims := Claims(levels, "Name");
    assert Import(ONE, 2).segs[1] == "a" && Import(OTHER, 2).segs[1] == "b";
    assert Import(ONE, 2) in claims && Import(OTHER, 2) in claims;
    SubsetSize({Import(ONE, 2), Import(OTHER, 2)}, claims);
  }

  lemma ClashingPathsAreFreeAbove(scope: Scope)
    requires scope == Scope(map[], {}, {}, PRELUDE)
    ensures FreeAt(scope, {ONE, OTHER}, ONE, 1) && FreeAt(scope, {ONE, OTHER}, OTHER, 1)
  {
    assert DeepestLevel(ONE.segs) == 2 && DeepestLevel(OTHER.segs) == 2;
  }
}
