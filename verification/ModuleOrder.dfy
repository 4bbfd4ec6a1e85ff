/** The check of the module list of a firmware environment. Each module is checked alone, by
    the positions of the modules that its dependency lists name; together these checks fix
    the order of all modules. */
module ModuleOrder {
  import opened Lines

  /** The name of a module, its words separated by blanks. */
  type Name = string

  /** The lists of a `[Dependencies]` section, one name in each line. */
  datatype Dependencies = Dependencies(
    unknownKeys: bool, requires_: seq<Name>, optional: seq<Name>, conflicts: seq<Name>,
    after: seq<Name>, before: seq<Name>)

  /** `known` holds the upper-case names of all modules that exist, enabled or not. */
  datatype Environment = Environment(
    modules: seq<Name>, sections: seq<Option<Dependencies>>, main: Option<Dependencies>, known: set<string>)

  function UpperChar(c: char): char {
    if 'a' <= c <= 'z' then (c as int - 32) as char else if c == ' ' then '_' else c
  }

  function Upper(name: Name): string {
    seq(|name|, i requires 0 <= i < |name| => UpperChar(name[i]))
  }

  // ---------------------------------------------------------------------------------------
  // Looking a name up

  /** The first module with a name. */
  ghost predicate IsFirst(modules: seq<Name>, name: Name, i: nat) {
    i < |modules| && modules[i] == name && forall k | 0 <= k < i :: modules[k] != name
  }

  datatype Place = Found(index: nat) | Missing | Misspelled

  ghost predicate IsPlace(modules: seq<Name>, name: Name, r: Place) {
    match r
    case Found(i) => IsFirst(modules, name, i)
    case Missing => name !in modules && forall i | 0 <= i < |modules| :: Upper(modules[i]) != Upper(name)
    case Misspelled => name !in modules && exists i :: 0 <= i < |modules| && Upper(modules[i]) == Upper(name)
  }

  method FindModuleSpace(modules: seq<Name>, name: Name) returns (r: Place)
    ensures IsPlace(modules, name, r)
  {
    for i := 0 to |modules|
      invariant forall k | 0 <= k < i :: modules[k] != name
    {
      if modules[i] == name {
        return Found(i);
      }
    }
    for i := 0 to |modules|
      invariant forall k | 0 <= k < i :: Upper(modules[k]) != Upper(name)
    {
      if Upper(modules[i]) == Upper(name) {
        return Misspelled;
      }
    }
    return Missing;
  }

  /** The entries that a list stands for: `*` stands for all other modules. */
  ghost predicate Names(modules: seq<Name>, self: Name, list: seq<Name>, name: Name) {
    if "*" in list then name in modules && name != self else name in list
  }

  predicate WellFormed(list: seq<Name>) {
    "*" in list ==> |list| == 1
  }

  method Distinct(list: seq<Name>) returns (r: seq<Name>)
    ensures forall x :: x in r <==> x in list
    ensures forall i, j | 0 <= i < j < |r| :: r[i] != r[j]
  {
    r := [];
    for i := 0 to |list|
      invariant forall x :: x in r <==> x in list[..i]
      invariant forall k, j | 0 <= k < j < |r| :: r[k] != r[j]
    {
      assert list[..i + 1] == list[..i] + [list[i]];
      if list[i] !in r {
        r := r + [list[i]];
      }
    }
    assert list[..|list|] == list;
  }

  method Others(modules: seq<Name>, self: Name) returns (r: seq<Name>)
    ensures forall x :: x in r <==> x in modules && x != self
  {
    r := [];
    for i := 0 to |modules|
      invariant forall x :: x in r <==> x in modules[..i] && x != self
    {
      assert modules[..i + 1] == modules[..i] + [modules[i]];
      if modules[i] != self {
        r := r + [modules[i]];
      }
    }
    assert modules[..|modules|] == modules;
  }

  /** `None` stands for the exit on a list with `*` and other entries. */
  method GetAndCheckDuplicates(modules: seq<Name>, self: Name, list: seq<Name>) returns (r: Option<seq<Name>>)
    ensures r.Some? <==> WellFormed(list)
    ensures r.Some? ==> forall x :: x in r.value <==> Names(modules, self, list, x)
    ensures r.Some? ==> forall i, j | 0 <= i < j < |r.value| :: r.value[i] != r.value[j]
  {
    var m := list;
    if "*" in list {
      if |list| > 1 {
        return None;
      }
      m := Others(modules, self);
    }
    var s := Distinct(m);
    return Some(s);
  }

  // ---------------------------------------------------------------------------------------
  // What one entry of each list has to satisfy. `cur` is the position of the module; the main
  // program has dependencies but no position, and crashes where it would need one.

  ghost predicate RequiresFits(e: Environment, name: Name) {
    name in e.modules
  }

  ghost predicate Spelled(e: Environment, name: Name) {
    name !in e.modules ==>
      Upper(name) in e.known && forall i | 0 <= i < |e.modules| :: Upper(e.modules[i]) != Upper(name)
  }

  ghost predicate OptionalFits(e: Environment, self: Name, required: seq<Name>, name: Name) {
    name != self && Spelled(e, name) && !(name in e.modules && Names(e.modules, self, required, name))
  }

  ghost predicate ConflictFits(e: Environment, self: Name, name: Name) {
    name != self && Spelled(e, name) && name !in e.modules
  }

  ghost predicate AfterFits(e: Environment, self: Name, cur: Option<nat>, name: Name) {
    name != self && Spelled(e, name) &&
    forall i: nat | IsFirst(e.modules, name, i) :: cur.Some? && i <= cur.value
  }

  ghost predicate BeforeFits(e: Environment, self: Name, cur: Option<nat>, name: Name) {
    name != self && Spelled(e, name) &&
    forall i: nat | IsFirst(e.modules, name, i) :: cur.Some? && cur.value <= i
  }

  /** When the check of one section passes. */
  ghost predicate Passes(e: Environment, self: Name, cur: Option<nat>, d: Dependencies) {
    && !d.unknownKeys
    && WellFormed(d.requires_) && WellFormed(d.optional) && WellFormed(d.conflicts) && WellFormed(d.after) &&
      WellFormed(d.before)
    && (forall n | Names(e.modules, self, d.requires_, n) :: RequiresFits(e, n))
    && (forall n | Names(e.modules, self, d.optional, n) :: OptionalFits(e, self, d.requires_, n))
    && (forall n | Names(e.modules, self, d.conflicts, n) :: ConflictFits(e, self, n))
    && (forall n | Names(e.modules, self, d.after, n) :: AfterFits(e, self, cur, n))
    && (forall n | Names(e.modules, self, d.before, n) :: BeforeFits(e, self, cur, n))
  }

  method CheckRequires(e: Environment, names: seq<Name>) returns (fail: bool, found: seq<Name>)
    ensures !fail <==> forall n | n in names :: RequiresFits(e, n)
    ensures !fail ==> found == names
  {
    fail, found := false, [];
    for i := 0 to |names|
      invariant !fail <==> forall n | n in names[..i] :: RequiresFits(e, n)
      invariant !fail ==> found == names[..i]
    {
      assert names[..i + 1] == names[..i] + [names[i]];
      var p := FindModuleSpace(e.modules, names[i]);
      assert RequiresFits(e, names[i]) <==> p.Found?;
      if p.Found? {
        found := found + [e.modules[p.index]];
      } else {
        fail := true;
      }
    }
    assert names[..|names|] == names;
  }

  method CheckOptional(e: Environment, self: Name, required: seq<Name>, names: seq<Name>, found: seq<Name>)
    returns (fail: bool, available: seq<Name>)
    requires forall n :: n in found <==> Names(e.modules, self, required, n)
    ensures !fail <==> forall n | n in names :: OptionalFits(e, self, required, n)
    ensures forall n :: n in available <==> n in names && n in e.modules
  {
    fail, available := false, [];
    for i := 0 to |names|
      invariant !fail <==> forall n | n in names[..i] :: OptionalFits(e, self, required, n)
      invariant forall n :: n in available <==> n in names[..i] && n in e.modules
    {
      assert names[..i + 1] == names[..i] + [names[i]];
      var p := FindModuleSpace(e.modules, names[i]);
      assert OptionalFits(e, self, required, names[i]) <==>
        names[i] != self && (p.Found? ||
          (p.Missing? && Upper(names[i]) in e.known)) && !(p.Found? && names[i] in found);
      if names[i] == self || p.Misspelled? || (p.Missing? && Upper(names[i]) !in e.known) {
        fail := true;
      }
      if p.Found? {
        if names[i] in found {
          fail := true;
        }
        available := available + [names[i]];
      }
    }
    assert names[..|names|] == names;
  }

  method CheckConflicts(e: Environment, self: Name, names: seq<Name>) returns (fail: bool)
    ensures !fail <==> forall n | n in names :: ConflictFits(e, self, n)
  {
    fail := false;
    for i := 0 to |names|
      invariant !fail <==> forall n | n in names[..i] :: ConflictFits(e, self, n)
    {
      assert names[..i + 1] == names[..i] + [names[i]];
      var p := FindModuleSpace(e.modules, names[i]);
      assert ConflictFits(e, self, names[i]) <==> names[i] != self && p.Missing? && Upper(names[i]) in e.known;
      if names[i] == self || p.Found? || p.Misspelled? || Upper(names[i]) !in e.known {
        fail := true;
      }
    }
    assert names[..|names|] == names;
  }

  method CheckAfter(e: Environment, self: Name, cur: Option<nat>, names: seq<Name>) returns (fail: bool)
    ensures !fail <==> forall n | n in names :: AfterFits(e, self, cur, n)
  {
    fail := false;
    for i := 0 to |names|
      invariant !fail <==> forall n | n in names[..i] :: AfterFits(e, self, cur, n)
    {
      assert names[..i + 1] == names[..i] + [names[i]];
      var p := FindModuleSpace(e.modules, names[i]);
      assert AfterFits(e, self, cur, names[i]) <==>
        names[i] != self &&
        (if p.Found? then cur.Some? && p.index <= cur.value else p.Missing? && Upper(names[i]) in e.known);
      if names[i] == self || p.Misspelled? || (p.Missing? && Upper(names[i]) !in e.known) {
        fail := true;
      }
      if p.Found? && (cur.None? || p.index > cur.value) {
        fail := true;
      }
    }
    assert names[..|names|] == names;
  }

  method CheckBefore(e: Environment, self: Name, cur: Option<nat>, names: seq<Name>) returns (fail: bool)
    ensures !fail <==> forall n | n in names :: BeforeFits(e, self, cur, n)
  {
    fail := false;
    for i := 0 to |names|
      invariant !fail <==> forall n | n in names[..i] :: BeforeFits(e, self, cur, n)
    {
      assert names[..i + 1] == names[..i] + [names[i]];
      var p := FindModuleSpace(e.modules, names[i]);
      assert BeforeFits(e, self, cur, names[i]) <==>
        names[i] != self &&
        (if p.Found? then cur.Some? && p.index >= cur.value else p.Missing? && Upper(names[i]) in e.known);
      if names[i] == self || p.Misspelled? || (p.Missing? && Upper(names[i]) !in e.known) {
        fail := true;
      }
      if p.Found? && (cur.None? || p.index < cur.value) {
        fail := true;
      }
    }
    assert names[..|names|] == names;
  }

  /** The check of one section; `deps` are the modules that the section gives access to. */
  method GenerateModuleDependencies(e: Environment, self: Name, cur: Option<nat>, section: Option<Dependencies>)
    returns (ok: bool, deps: seq<Name>)
    ensures ok <==> (section.Some? ==> Passes(e, self, cur, section.value))
    ensures ok && section.Some? ==> forall n :: n in deps <==>
      n in e.modules && (Names(e.modules, self, section.value.requires_, n) || Names(e.modules, self,
        section.value.optional, n))
  {
    if section.None? {
      return true, [];
    }
    var d := section.value;
    var required := GetAndCheckDuplicates(e.modules, self, d.requires_);
    var optional := GetAndCheckDuplicates(e.modules, self, d.optional);
    var conflicts := GetAndCheckDuplicates(e.modules, self, d.conflicts);
    var after := GetAndCheckDuplicates(e.modules, self, d.after);
    var before := GetAndCheckDuplicates(e.modules, self, d.before);
    if required.None? || optional.None? || conflicts.None? || after.None? || before.None? {
      return false, [];
    }
    var failR, found := CheckRequires(e, required.value);
    if failR {
      return false, [];
    }
    var failO, available := CheckOptional(e, self, d.requires_, optional.value, found);
    var failC := CheckConflicts(e, self, conflicts.value);
    var failA := CheckAfter(e, self, cur, after.value);
    var failB := CheckBefore(e, self, cur, before.value);
    ok := !(d.unknownKeys || failO || failC || failA || failB);
    deps := found + available;
  }

  const MAIN: Name := "[src/main_dependencies.ini]"

  ghost predicate AllDistinct(modules: seq<Name>) {
    forall i, j | 0 <= i < j < |modules| :: modules[i] != modules[j]
  }

  ghost predicate ModulePasses(e: Environment, k: nat)
    requires k < |e.modules| == |e.sections|
  {
    e.sections[k].Some? ==> Passes(e, e.modules[k], Some(k), e.sections[k].value)
  }

  ghost predicate Accepted(e: Environment)
    requires |e.modules| == |e.sections|
  {
    && AllDistinct(e.modules)
    && (forall k | 0 <= k < |e.modules| :: ModulePasses(e, k))
    && (e.main.Some? ==> Passes(e, MAIN, None, e.main.value))
  }

  /** The build stops at a duplicate module, and at the first section that fails. */
  method CheckEnvironment(e: Environment) returns (ok: bool)
    requires |e.modules| == |e.sections|
    ensures ok <==> Accepted(e)
  {
    var seen := {};
    for i := 0 to |e.modules|
      invariant forall x :: x in seen <==> exists k :: 0 <= k < i && e.modules[k] == x
      invariant forall j, k | 0 <= j < k < i :: e.modules[j] != e.modules[k]
    {
      if e.modules[i] in seen {
        return false;
      }
      seen := seen + {e.modules[i]};
    }
    for k := 0 to |e.modules|
      invariant forall j | 0 <= j < k :: ModulePasses(e, j)
    {
      var passes, _ := GenerateModuleDependencies(e, e.modules[k], Some(k), e.sections[k]);
      assert passes <==> ModulePasses(e, k);
      if !passes {
        return false;
      }
    }
    var main, _ := GenerateModuleDependencies(e, MAIN, None, e.main);
    return main;
  }

  // ---------------------------------------------------------------------------------------
  // What the local checks say about the whole list

  /** Some section demands that module `i` is loaded before module `j`. */
  ghost predicate Precedes(e: Environment, i: nat, j: nat)
    requires |e.modules| == |e.sections|
  {
    i < |e.modules| && j < |e.modules| &&
    ((e.sections[j].Some? && Names(e.modules, e.modules[j], e.sections[j].value.after, e.modules[i])) ||
     (e.sections[i].Some? && Names(e.modules, e.modules[i], e.sections[i].value.before, e.modules[j])))
  }

  /** The module list is a linear extension of all constraints. */
  ghost predicate Ordered(e: Environment)
    requires |e.modules| == |e.sections|
  {
    forall i: nat, j: nat | Precedes(e, i, j) :: i < j
  }

  ghost predicate ClosedUnderRequires(e: Environment)
    requires |e.modules| == |e.sections|
  {
    forall k, n | 0 <= k < |e.modules| && e.sections[k].Some? &&
      Names(e.modules, e.modules[k], e.sections[k].value.requires_, n) ::
      n in e.modules
  }

  ghost predicate ConflictFree(e: Environment)
    requires |e.modules| == |e.sections|
  {
    forall k, n | 0 <= k < |e.modules| && e.sections[k].Some? &&
      Names(e.modules, e.modules[k], e.sections[k].value.conflicts, n) ::
      n !in e.modules
  }

  /** Every section by itself is written properly: known keys, `*` alone, existing modules with
      their right capitals, no module optional that is required or the module itself. */
  ghost predicate Tidy(e: Environment, self: Name, d: Dependencies) {
    && !d.unknownKeys
    && WellFormed(d.requires_) && WellFormed(d.optional) && WellFormed(d.conflicts) && WellFormed(d.after) &&
      WellFormed(d.before)
    && (forall n | Names(e.modules, self, d.optional, n) :: OptionalFits(e, self, d.requires_, n))
    && (forall n | Names(e.modules, self, d.conflicts, n) || Names(e.modules, self, d.after, n) || Names(e.modules,
      self, d.before, n) ::
         n == self || Spelled(e, n))
  }

  ghost predicate AllTidy(e: Environment)
    requires |e.modules| == |e.sections|
  {
    && (forall k | 0 <= k < |e.modules| && e.sections[k].Some? :: Tidy(e, e.modules[k], e.sections[k].value))
    && (e.main.Some? ==> Passes(e, MAIN, None, e.main.value))
  }

  lemma InFirst(modules: seq<Name>, i: nat)
    requires AllDistinct(modules) && i < |modules|
    ensures IsFirst(modules, modules[i], i)
  {
  }

  lemma AcceptedOrder(e: Environment, i: nat, j: nat)
    requires |e.modules| == |e.sections| && Accepted(e) && Precedes(e, i, j)
    ensures i < j
  {
    InFirst(e.modules, i);
    InFirst(e.modules, j);
    assert ModulePasses(e, i) && ModulePasses(e, j);
  }

  lemma OrderedAfterFits(e: Environment, k: nat, n: Name)
    requires |e.modules| == |e.sections| && Ordered(e) && k < |e.modules| && e.sections[k].Some?
    requires Tidy(e, e.modules[k], e.sections[k].value)
    ensures Names(e.modules, e.modules[k], e.sections[k].value.after, n) ==> AfterFits(e, e.modules[k], Some(k), n)
    ensures Names(e.modules, e.modules[k], e.sections[k].value.before, n) ==> BeforeFits(e, e.modules[k], Some(k), n)
  {
    var self, d := e.modules[k], e.sections[k].value;
    forall i: nat | IsFirst(e.modules, n, i)
      ensures Names(e.modules, self, d.after, n) ==> i < k
      ensures Names(e.modules, self, d.before, n) ==> k < i
    {
      assert Names(e.modules, self, d.after, n) ==> Precedes(e, i, k);
      assert Names(e.modules, self, d.before, n) ==> Precedes(e, k, i);
    }
    assert !Precedes(e, k, k);
  }

  ghost predicate Sorted(e: Environment)
    requires |e.modules| == |e.sections|
  {
    AllDistinct(e.modules) && AllTidy(e) && Ordered(e) && ClosedUnderRequires(e) && ConflictFree(e)
  }

  lemma AcceptedIsSorted(e: Environment)
    requires |e.modules| == |e.sections| && Accepted(e)
    ensures Sorted(e)
  {
    forall i: nat, j: nat | Precedes(e, i, j) ensures i < j {
      AcceptedOrder(e, i, j);
    }
    forall k | 0 <= k < |e.modules| && e.sections[k].Some?
      ensures Passes(e, e.modules[k], Some(k), e.sections[k].value) {
      assert ModulePasses(e, k);
    }
    assert AllTidy(e);
  }

  lemma SortedPasses(e: Environment, k: nat)
    requires |e.modules| == |e.sections| && Sorted(e) && k < |e.modules| && e.sections[k].Some?
    ensures Passes(e, e.modules[k], Some(k), e.sections[k].value)
  {
    var self, d := e.modules[k], e.sections[k].value;
    forall n
      ensures Names(e.modules, self, d.after, n) ==> AfterFits(e, self, Some(k), n)
      ensures Names(e.modules, self, d.before, n) ==> BeforeFits(e, self, Some(k), n)
    {
      OrderedAfterFits(e, k, n);
    }
    assert self in e.modules;
    forall n | Names(e.modules, self, d.conflicts, n) ensures ConflictFits(e, self, n) {
      assert n !in e.modules;
      assert Spelled(e, n);
    }
  }

  /** All sections pass exactly when the list is free of duplicates, ordered as all After and
      Before constraints among enabled modules demand, closed under Requires and free of
      Conflicts, and every section by itself is tidy. */
  lemma AcceptedExactly(e: Environment)
    requires |e.modules| == |e.sections|
    ensures Accepted(e) <==>
      AllDistinct(e.modules) && AllTidy(e) && Ordered(e) && ClosedUnderRequires(e) && ConflictFree(e)
  {
    if Accepted(e) {
      AcceptedIsSorted(e);
    }
    if Sorted(e) {
      forall k | 0 <= k < |e.modules| ensures ModulePasses(e, k) {
        if e.sections[k].Some? {
          SortedPasses(e, k);
        }
      }
    }
  }

  /** A chain of constraints of any length. */
  ghost predicate IsChain(e: Environment, path: seq<nat>)
    requires |e.modules| == |e.sections|
  {
    |path| >= 2 && forall i | 0 <= i < |path| - 1 :: Precedes(e, path[i], path[i + 1])
  }

  lemma {:induction false} ChainAscends(e: Environment, path: seq<nat>)
    requires |e.modules| == |e.sections| && Accepted(e) && IsChain(e, path)
    ensures path[0] < path[|path| - 1]
  {
    AcceptedOrder(e, path[0], path[1]);
    if |path| > 2 {
      var rest := path[1..];
      forall i | 0 <= i < |rest| - 1 ensures Precedes(e, rest[i], rest[i + 1]) {
        assert Precedes(e, path[i + 1], path[i + 2]);
      }
      ChainAscends(e, rest);
    }
  }

  /** The constraints of an accepted environment have no cycle of any length. */
  lemma {:induction false} NoCycle(e: Environment, path: seq<nat>)
    requires |e.modules| == |e.sections| && Accepted(e) && IsChain(e, path)
    ensures path[0] != path[|path| - 1]
  {
    ChainAscends(e, path);
  }

  /** A module that is to be loaded before all others is the first one. */
  lemma BeforeAllIsFirst(e: Environment, k: nat)
    requires |e.modules| == |e.sections| && Accepted(e) && k < |e.modules|
    requires e.sections[k].Some? && e.sections[k].value.before == ["*"]
    ensures k == 0
  {
    AcceptedIsSorted(e);
    assert k > 0 ==> Precedes(e, k, 0);
  }
}
