/** software/pio_hooks.py `update_translation`: the nested translation dictionaries of all
    modules are merged into one, and override files may then replace existing texts. */
module TranslationMerge {
  import opened Lines

  datatype Tree = Leaf(text: string) | Dict(entries: map<string, Tree>)

  // ---- Merging two dictionaries ----

  /** Both trees are dictionaries and no key path is a text in one of them and present in the other. */
  predicate Compatible(a: Tree, b: Tree)
    decreases a
  {
    a.Dict? && b.Dict? &&
    forall k :: k in a.entries && k in b.entries ==> Compatible(a.entries[k], b.entries[k])
  }

  /** The union of two compatible dictionaries, level by level. */
  function Union(a: Tree, b: Tree): (r: Tree)
    requires Compatible(a, b)
    ensures r.Dict? && r.entries.Keys == a.entries.Keys + b.entries.Keys
    decreases a
  {
    Dict(map k | k in a.entries.Keys + b.entries.Keys ::
      if k !in b.entries then a.entries[k]
      else if k !in a.entries then b.entries[k]
      else Union(a.entries[k], b.entries[k]))
  }

  /** `update_translation(translation, update)`: succeeds exactly on compatible dictionaries
      and then returns their union, whatever the order in which the keys are visited. */
  method UpdateTranslation(translation: Tree, update: Tree) returns (r: Option<Tree>)
    requires translation.Dict? && update.Dict?
    ensures r.Some? <==> Compatible(translation, update)
    ensures r.Some? ==> r.value == Union(translation, update)
    decreases update
  {
    var entries := translation.entries;
    var todo := update.entries.Keys;
    while todo != {}
      invariant todo <= update.entries.Keys
      invariant entries.Keys == translation.entries.Keys + (update.entries.Keys - todo)
      invariant forall k :: k in translation.entries && (k in todo || k !in update.entries) ==>
        entries[k] == translation.entries[k]
      invariant forall k :: k in update.entries && k !in todo && k !in translation.entries ==>
        entries[k] == update.entries[k]
      invariant forall k :: k in update.entries && k !in todo && k in translation.entries ==>
        && Compatible(translation.entries[k], update.entries[k])
        && entries[k] == Union(translation.entries[k], update.entries[k])
    {
      var key :| key in todo;
      var value := update.entries[key];
      assert key in entries <==> key in translation.entries;
      if value.Leaf? || key !in entries {
        if key in entries {
          assert !Compatible(translation.entries[key], value);
          return None;
        }
        entries := entries[key := value];
      } else {
        if entries[key].Leaf? {
          return None;
        }
        var merged := UpdateTranslation(entries[key], value);
        if merged.None? {
          return None;
        }
        entries := entries[key := merged.value];
      }
      todo := todo - {key};
    }
    MergedIsUnion(translation, update, entries);
    r := Some(Dict(entries));
  }

  lemma {:induction false} MergedIsUnion(a: Tree, b: Tree, entries: map<string, Tree>)
    requires a.Dict? && b.Dict? && entries.Keys == a.entries.Keys + b.entries.Keys
    requires forall k :: k in a.entries && k !in b.entries ==> entries[k] == a.entries[k]
    requires forall k :: k in b.entries && k !in a.entries ==> entries[k] == b.entries[k]
    requires forall k :: k in b.entries && k in a.entries ==>
      Compatible(a.entries[k], b.entries[k]) && entries[k] == Union(a.entries[k], b.entries[k])
    ensures Compatible(a, b) && Dict(entries) == Union(a, b)
  {
    assert Compatible(a, b);
    var u := Union(a, b).entries;
    forall k | k in entries ensures entries[k] == u[k] {
      if k !in b.entries {
        assert u[k] == a.entries[k];
      } else if k !in a.entries {
        assert u[k] == b.entries[k];
      } else {
        assert u[k] == Union(a.entries[k], b.entries[k]);
      }
    }
    assert entries == u;
  }

  lemma {:induction false} CompatibleSymmetric(a: Tree, b: Tree)
    ensures Compatible(a, b) <==> Compatible(b, a)
    decreases a
  {
    if a.Dict? && b.Dict? {
      forall k | k in a.entries && k in b.entries
        ensures Compatible(a.entries[k], b.entries[k]) <==> Compatible(b.entries[k], a.entries[k])
      {
        CompatibleSymmetric(a.entries[k], b.entries[k]);
      }
    }
  }

  lemma {:induction false} UnionCommutes(a: Tree, b: Tree)
    requires Compatible(a, b)
    ensures Compatible(b, a) && Union(a, b) == Union(b, a)
    decreases a
  {
    CompatibleSymmetric(a, b);
    forall k | k in a.entries && k in b.entries
      ensures Union(a, b).entries[k] == Union(b, a).entries[k]
    {
      UnionCommutes(a.entries[k], b.entries[k]);
    }
    assert Union(a, b).entries == Union(b, a).entries;
  }

  /** A third dictionary fits a union exactly when it fits both parts. */
  lemma {:induction false} CompatibleUnion(a: Tree, b: Tree, c: Tree)
    requires Compatible(a, b)
    ensures Compatible(Union(a, b), c) <==> Compatible(a, c) && Compatible(b, c)
    decreases a
  {
    if c.Dict? {
      var u := Union(a, b);
      forall k | k in a.entries && k in b.entries && k in c.entries
        ensures Compatible(u.entries[k], c.entries[k])
           <==> Compatible(a.entries[k], c.entries[k]) && Compatible(b.entries[k], c.entries[k])
      {
        CompatibleUnion(a.entries[k], b.entries[k], c.entries[k]);
      }
      if Compatible(u, c) {
        assert forall k :: k in a.entries ==> k in u.entries;
        assert forall k :: k in b.entries ==> k in u.entries;
      }
    }
  }

  lemma {:induction false} UnionAssociates(a: Tree, b: Tree, c: Tree)
    requires Compatible(a, b) && Compatible(a, c) && Compatible(b, c)
    ensures Compatible(Union(a, b), c) && Compatible(a, Union(b, c))
    ensures Union(Union(a, b), c) == Union(a, Union(b, c))
    decreases a
  {
    CompatibleUnion(a, b, c);
    CompatibleSymmetric(a, b);
    CompatibleSymmetric(a, c);
    CompatibleUnion(b, c, a);
    CompatibleSymmetric(Union(b, c), a);
    forall k | k in a.entries && k in b.entries && k in c.entries
      ensures Union(Union(a, b), c).entries[k] == Union(a, Union(b, c)).entries[k]
    {
      UnionAssociates(a.entries[k], b.entries[k], c.entries[k]);
    }
    assert Union(Union(a, b), c).entries == Union(a, Union(b, c)).entries;
  }

  // ---- Merging all modules ----

  predicate AllDicts(ts: seq<Tree>) {
    forall i :: 0 <= i < |ts| ==> ts[i].Dict?
  }

  /** The module loop: every dictionary is merged into what was collected so far. */
  method MergeModules(base: Tree, modules: seq<Tree>) returns (r: Option<Tree>)
    requires base.Dict? && AllDicts(modules)
    ensures r == MergeAll(base, modules)
  {
    var translation := base;
    for i := 0 to |modules|
      invariant translation.Dict?
      invariant MergeAll(base, modules) == MergeAll(translation, modules[i..])
    {
      var merged := UpdateTranslation(translation, modules[i]);
      assert modules[i..][1..] == modules[i + 1..];
      if merged.None? {
        return None;
      }
      translation := merged.value;
    }
    return Some(translation);
  }

  function MergeAll(base: Tree, ts: seq<Tree>): Option<Tree>
    decreases |ts|
  {
    if ts == [] then Some(base)
    else if Compatible(base, ts[0]) then MergeAll(Union(base, ts[0]), ts[1..])
    else None
  }

  ghost predicate CompatibleWithAll(t: Tree, ts: seq<Tree>) {
    forall i :: 0 <= i < |ts| ==> Compatible(t, ts[i])
  }

  /** No two of the dictionaries collide. */
  ghost predicate Disjoint(ts: seq<Tree>) {
    ts == [] || (CompatibleWithAll(ts[0], ts[1..]) && Disjoint(ts[1..]))
  }

  /** Merging succeeds exactly when no two of all dictionaries collide. */
  lemma {:induction false} MergeAllSucceeds(base: Tree, ts: seq<Tree>)
    requires base.Dict? && AllDicts(ts)
    ensures MergeAll(base, ts).Some? <==> Disjoint([base] + ts)
    ensures MergeAll(base, ts).Some? ==> MergeAll(base, ts).value.Dict?
    decreases |ts|
  {
    assert ([base] + ts)[1..] == ts;
    if ts != [] && Compatible(base, ts[0]) {
      var u, rest := Union(base, ts[0]), ts[1..];
      MergeAllSucceeds(u, rest);
      assert ([u] + rest)[1..] == rest;
      forall i | 0 <= i < |rest|
        ensures Compatible(u, rest[i]) <==> Compatible(base, rest[i]) && Compatible(ts[0], rest[i])
      {
        CompatibleUnion(base, ts[0], rest[i]);
      }
      assert CompatibleWithAll(base, ts) <==> CompatibleWithAll(base, rest) by {
        assert forall i :: 0 <= i < |rest| ==> rest[i] == ts[i + 1];
        assert ts == [ts[0]] + rest;
      }
    }
  }

  lemma DisjointPair(ts: seq<Tree>, i: nat, j: nat)
    requires Disjoint(ts) && i < j < |ts|
    ensures Compatible(ts[i], ts[j])
    decreases i
  {
    if i == 0 {
      assert ts[1..][j - 1] == ts[j];
    } else {
      DisjointPair(ts[1..], i - 1, j - 1);
    }
  }

  /** Two neighbours may be merged in either order. */
  lemma MergeSwap(base: Tree, a: Tree, b: Tree, rest: seq<Tree>)
    requires base.Dict? && a.Dict? && b.Dict?
    ensures MergeAll(base, [a, b] + rest) == MergeAll(base, [b, a] + rest)
  {
    var ab, ba := [a, b] + rest, [b, a] + rest;
    assert ab[1..] == [b] + rest && ba[1..] == [a] + rest;
    assert ([b] + rest)[1..] == rest && ([a] + rest)[1..] == rest;
    CompatibleSymmetric(a, b);
    if Compatible(base, a) && Compatible(base, b) {
      CompatibleUnion(base, a, b);
      CompatibleUnion(base, b, a);
      if Compatible(a, b) {
        UnionAssociates(base, a, b);
        UnionAssociates(base, b, a);
        UnionCommutes(a, b);
      }
    } else if Compatible(base, a) {
      CompatibleUnion(base, a, b);
    } else if Compatible(base, b) {
      CompatibleUnion(base, b, a);
    }
  }

  /** Any dictionary may be merged first. */
  lemma {:induction false} MergeFirst(base: Tree, ts: seq<Tree>, i: nat)
    requires base.Dict? && AllDicts(ts) && i < |ts|
    ensures MergeAll(base, ts) == MergeAll(base, [ts[i]] + ts[..i] + ts[i + 1..])
    decreases |ts|
  {
    if i == 0 {
      assert [ts[0]] + ts[..0] + ts[1..] == ts;
    } else {
      var tail := ts[1..];
      var front := [ts[i]] + tail[..i - 1] + tail[i..];
      assert tail[i - 1] == ts[i];
      if Compatible(base, ts[0]) {
        MergeFirst(Union(base, ts[0]), tail, i - 1);
      }
      assert MergeAll(base, ts) == MergeAll(base, [ts[0]] + front) by {
        assert ([ts[0]] + front)[1..] == front;
      }
      var rest := tail[..i - 1] + tail[i..];
      assert [ts[0]] + front == [ts[0], ts[i]] + rest;
      MergeSwap(base, ts[0], ts[i], rest);
      assert [ts[i], ts[0]] + rest == [ts[i]] + ts[..i] + ts[i + 1..];
    }
  }

  /** The order of the modules does not matter: every order succeeds or none does, and the
      merged dictionary is the same. */
  lemma {:induction false} MergeAnyOrder(base: Tree, ts: seq<Tree>, us: seq<Tree>)
    requires base.Dict? && AllDicts(ts) && multiset(ts) == multiset(us)
    ensures MergeAll(base, ts) == MergeAll(base, us)
    decreases |ts|
  {
    if ts == [] {
      assert |multiset(us)| == 0;
    } else {
      var i, rest := PickFirst(ts, us);
      SameDicts(ts, us);
      MergeFirst(base, us, i);
      assert [us[i]] + us[..i] + us[i + 1..] == [us[i]] + rest;
      assert ([us[i]] + rest)[1..] == rest;
      if Compatible(base, ts[0]) {
        MergeAnyOrder(Union(base, ts[0]), ts[1..], rest);
      }
    }
  }

  /** The first of `ts` is somewhere in `us`, and the others are the same again. */
  lemma PickFirst(ts: seq<Tree>, us: seq<Tree>) returns (i: nat, rest: seq<Tree>)
    requires ts != [] && multiset(ts) == multiset(us)
    ensures i < |us| && us[i] == ts[0] && rest == us[..i] + us[i + 1..]
    ensures multiset(ts[1..]) == multiset(rest)
  {
    assert ts[0] in multiset(us);
    i :| 0 <= i < |us| && us[i] == ts[0];
    rest := us[..i] + us[i + 1..];
    Removed(us, i);
    Removed(ts, 0);
    assert ts[..0] + ts[1..] == ts[1..];
    Cancel(ts[0], multiset(ts[1..]), multiset(rest));
  }

  lemma Cancel(t: Tree, a: multiset<Tree>, b: multiset<Tree>)
    requires multiset{t} + a == multiset{t} + b
    ensures a == b
  {
    assert a == (multiset{t} + a) - multiset{t};
    assert b == (multiset{t} + b) - multiset{t};
  }

  lemma Removed(us: seq<Tree>, i: nat)
    requires i < |us|
    ensures multiset(us) == multiset{us[i]} + multiset(us[..i] + us[i + 1..])
  {
    assert us == us[..i] + [us[i]] + us[i + 1..];
  }

  lemma SameDicts(ts: seq<Tree>, us: seq<Tree>)
    requires AllDicts(ts) && multiset(ts) == multiset(us)
    ensures AllDicts(us)
  {
    forall j | 0 <= j < |us| ensures us[j].Dict? {
      assert us[j] in multiset(ts);
    }
  }

  // ---- Texts ----

  /** The text at a key path, if there is one. */
  function TextAt(t: Tree, path: seq<string>): Option<string>
    decreases |path|
  {
    match t
    case Leaf(text) => if path == [] then Some(text) else None
    case Dict(entries) =>
      if path == [] || path[0] !in entries then None else TextAt(entries[path[0]], path[1..])
  }

  /** Some entry, text or dictionary, stands at the key path. */
  predicate HasPath(t: Tree, path: seq<string>)
    decreases |path|
  {
    path == [] || (t.Dict? && path[0] in t.entries && HasPath(t.entries[path[0]], path[1..]))
  }

  lemma {:induction false} UnionTexts(a: Tree, b: Tree, path: seq<string>)
    requires Compatible(a, b)
    ensures TextAt(Union(a, b), path) == if TextAt(a, path).Some? then TextAt(a, path) else TextAt(b, path)
    ensures TextAt(a, path).None? || TextAt(b, path).None?
    decreases |path|
  {
    if path != [] && path[0] in a.entries && path[0] in b.entries {
      UnionTexts(a.entries[path[0]], b.entries[path[0]], path[1..]);
    }
  }

  /** The texts of the merged dictionary are the disjoint union of the texts of its parts:
      every part's text is kept unchanged, and each text comes from exactly one part. */
  lemma {:induction false} MergedTexts(base: Tree, ts: seq<Tree>, path: seq<string>)
    requires base.Dict? && AllDicts(ts) && MergeAll(base, ts).Some?
    ensures forall v :: (TextAt(MergeAll(base, ts).value, path) == Some(v))
                   <==> (exists i :: 0 <= i < |[base] + ts| && TextAt(([base] + ts)[i], path) == Some(v))
    ensures forall i, j :: 0 <= i < j < |[base] + ts| ==>
      TextAt(([base] + ts)[i], path).None? || TextAt(([base] + ts)[j], path).None?
    decreases |ts|
  {
    if ts == [] {
      assert ([base] + ts)[0] == base;
    } else {
      MergeAllSucceeds(base, ts);
      var u, all := Union(base, ts[0]), [base] + ts;
      var folded := [u] + ts[1..];
      MergedTexts(u, ts[1..], path);
      UnionTexts(base, ts[0], path);
      forall i, j | 0 <= i < j < |all| ensures TextAt(all[i], path).None? || TextAt(all[j], path).None? {
        DisjointPair(all, i, j);
        UnionTexts(all[i], all[j], path);
      }
      forall v ensures (exists i :: 0 <= i < |folded| && TextAt(folded[i], path) == Some(v))
                  <==> (exists i :: 0 <= i < |all| && TextAt(all[i], path) == Some(v))
      {
        if i :| 0 <= i < |folded| && TextAt(folded[i], path) == Some(v) {
          var j := if i > 0 then i + 1 else if TextAt(base, path).Some? then 0 else 1;
          assert TextAt(all[j], path) == Some(v);
        }
        if i :| 0 <= i < |all| && TextAt(all[i], path) == Some(v) {
          var j := if i > 1 then i - 1 else 0;
          assert TextAt(folded[j], path) == Some(v);
        }
      }
    }
  }

  // ---- Overrides ----

  /** An override can be applied: where it has a dictionary, so has the translation. */
  predicate Overridable(t: Tree, u: Tree)
    decreases u
  {
    t.Dict? && u.Dict? &&
    forall k :: k in t.entries && k in u.entries && u.entries[k].Dict? ==> Overridable(t.entries[k], u.entries[k])
  }

  function Overridden(t: Tree, u: Tree): (r: Tree)
    requires Overridable(t, u)
    ensures r.Dict? && r.entries.Keys == t.entries.Keys
    decreases u
  {
    Dict(map k | k in t.entries ::
      if k !in u.entries then t.entries[k]
      else if u.entries[k].Dict? then Overridden(t.entries[k], u.entries[k])
      else u.entries[k])
  }

  /** `update_translation(translation, update, override=True)`: unknown keys are ignored. */
  method OverrideTranslation(translation: Tree, update: Tree) returns (r: Option<Tree>)
    requires translation.Dict? && update.Dict?
    ensures r.Some? <==> Overridable(translation, update)
    ensures r.Some? ==> r.value == Overridden(translation, update)
    decreases update
  {
    var entries := translation.entries;
    var todo := update.entries.Keys;
    while todo != {}
      invariant todo <= update.entries.Keys && entries.Keys == translation.entries.Keys
      invariant forall k :: k in translation.entries && (k in todo || k !in update.entries) ==>
        entries[k] == translation.entries[k]
      invariant forall k :: k in translation.entries && k in update.entries && k !in todo ==>
        if update.entries[k].Dict? then
          Overridable(translation.entries[k], update.entries[k]) &&
            entries[k] == Overridden(translation.entries[k], update.entries[k])
        else entries[k] == update.entries[k]
    {
      var key :| key in todo;
      var value := update.entries[key];
      if value.Leaf? || key !in entries {
        if key in entries {
          entries := entries[key := value];
        }
      } else {
        if entries[key].Leaf? {
          return None;
        }
        var merged := OverrideTranslation(entries[key], value);
        if merged.None? {
          return None;
        }
        entries := entries[key := merged.value];
      }
      todo := todo - {key};
    }
    r := Some(Dict(entries));
    assert entries == Overridden(translation, update).entries;
  }

  /** Overriding never creates a key path, and a text it changes is the override's text. */
  lemma {:induction false} OverrideAddsNoPath(t: Tree, u: Tree, path: seq<string>)
    requires Overridable(t, u)
    ensures HasPath(Overridden(t, u), path) ==> HasPath(t, path)
    ensures TextAt(Overridden(t, u), path) != TextAt(t, path) ==>
      TextAt(Overridden(t, u), path) == TextAt(u, path)
    ensures HasPath(t, path) && TextAt(u, path).Some? ==> TextAt(Overridden(t, u), path) == TextAt(u, path)
    decreases |path|
  {
    if path != [] && path[0] in t.entries && path[0] in u.entries {
      var k, rest := path[0], path[1..];
      assert TextAt(u, path) == TextAt(u.entries[k], rest);
      if u.entries[k].Dict? {
        OverrideAddsNoPath(t.entries[k], u.entries[k], rest);
      } else {
        assert Overridden(t, u).entries[k] == u.entries[k];
        assert HasPath(u.entries[k], rest) <==> rest == [];
      }
    }
  }

  // ---- The conditions in terms of key paths ----

  /** One tree has a text where the other has anything at all. */
  predicate Collide(a: Tree, b: Tree, path: seq<string>) {
    (TextAt(a, path).Some? && HasPath(b, path)) || (HasPath(a, path) && TextAt(b, path).Some?)
  }

  lemma {:induction false} CompatibleTexts(a: Tree, b: Tree, path: seq<string>)
    requires Compatible(a, b)
    ensures !Collide(a, b, path)
    decreases |path|
  {
    if path != [] && path[0] in a.entries && path[0] in b.entries {
      CompatibleTexts(a.entries[path[0]], b.entries[path[0]], path[1..]);
    }
  }

  lemma {:induction false} CollisionPath(a: Tree, b: Tree) returns (path: seq<string>)
    requires a.Dict? && b.Dict? && !Compatible(a, b)
    ensures Collide(a, b, path)
    decreases a
  {
    var k :| k in a.entries && k in b.entries && !Compatible(a.entries[k], b.entries[k]);
    var rest: seq<string> := [];
    if a.entries[k].Dict? && b.entries[k].Dict? {
      rest := CollisionPath(a.entries[k], b.entries[k]);
    }
    path := [k] + rest;
    assert path[0] == k && path[1..] == rest;
    assert Collide(a.entries[k], b.entries[k], rest);
    assert TextAt(a, path) == TextAt(a.entries[k], rest) && TextAt(b, path) == TextAt(b.entries[k], rest);
    assert HasPath(a, path) == HasPath(a.entries[k], rest) && HasPath(b, path) == HasPath(b.entries[k], rest);
  }

  /** Two dictionaries can be merged if and only if no key path is a text in one and present in the
      other. */
  lemma {:induction false} CompatibleExactly(a: Tree, b: Tree)
    requires a.Dict? && b.Dict?
    ensures Compatible(a, b) <==> forall path: seq<string> :: !Collide(a, b, path)
  {
    if Compatible(a, b) {
      forall path: seq<string> ensures !Collide(a, b, path) {
        CompatibleTexts(a, b, path);
      }
    } else {
      var path := CollisionPath(a, b);
    }
  }

  predicate IsDictAt(t: Tree, path: seq<string>)
    decreases |path|
  {
    if path == [] then t.Dict? else t.Dict? && path[0] in t.entries && IsDictAt(t.entries[path[0]], path[1..])
  }

  /** The override has a dictionary where the translation has a text. */
  predicate Clash(t: Tree, u: Tree, path: seq<string>) {
    IsDictAt(u, path) && HasPath(t, path) && !IsDictAt(t, path)
  }

  lemma {:induction false} OverridableDicts(t: Tree, u: Tree, path: seq<string>)
    requires Overridable(t, u)
    ensures !Clash(t, u, path)
    decreases |path|
  {
    if path != [] && path[0] in t.entries && path[0] in u.entries {
      var k, rest := path[0], path[1..];
      assert IsDictAt(u, path) == IsDictAt(u.entries[k], rest) && IsDictAt(t, path) == IsDictAt(t.entries[k], rest);
      assert IsDictAt(u.entries[k], rest) ==> u.entries[k].Dict?;
      if u.entries[k].Dict? {
        OverridableDicts(t.entries[k], u.entries[k], rest);
      }
    }
  }

  lemma {:induction false} ClashPath(t: Tree, u: Tree) returns (path: seq<string>)
    requires t.Dict? && u.Dict? && !Overridable(t, u)
    ensures Clash(t, u, path)
    decreases u
  {
    var k :| k in t.entries && k in u.entries && u.entries[k].Dict? && !Overridable(t.entries[k], u.entries[k]);
    var rest: seq<string> := [];
    if t.entries[k].Dict? {
      rest := ClashPath(t.entries[k], u.entries[k]);
    }
    path := [k] + rest;
    assert path[0] == k && path[1..] == rest;
    assert Clash(t.entries[k], u.entries[k], rest);
    assert HasPath(t, path) == HasPath(t.entries[k], rest);
  }

  /** An override can be applied if and only if it has no dictionary where the translation has a
      text. */
  lemma {:induction false} OverridableExactly(t: Tree, u: Tree)
    requires t.Dict? && u.Dict?
    ensures Overridable(t, u) <==> forall path: seq<string> :: !Clash(t, u, path)
  {
    if Overridable(t, u) {
      forall path: seq<string> ensures !Clash(t, u, path) {
        OverridableDicts(t, u, path);
      }
    } else {
      var path := ClashPath(t, u);
    }
  }
}
