/**
 Config-script confinement (packages/proxy-core/src/script.rs).

 A user script receives the generated sing-box configuration and returns another
 one. The recursive difference of the two is checked against a whitelist of paths.
 Here the difference is related to JSON Merge Patch (RFC 7396) and the check to
 what a reader of the two documents can observe path by path.
 */
module ConfigScript {
  import opened Wrappers

  /** A JSON value. Numbers are kept as text: only equality of values matters here. */
  datatype Json =
    | Null
    | Bool(b: bool)
    | Number(text: string)
    | String(s: string)
    | Array(items: seq<Json>)
    | Object(members: map<string, Json>)

  type Path = seq<string>

  // ---------------------------------------------------------------------
  // The difference
  // ---------------------------------------------------------------------

  predicate Changed(before: map<string, Json>, after: map<string, Json>, key: string) {
    (key in before) != (key in after) || (key in before && before[key] != after[key])
  }

  /** What `config_script_delta` computes: the changed keys, removed ones marked null. */
  function Delta(before: Json, after: Json): Json
    decreases after
  {
    if before.Object? && after.Object? then
      var b, a := before.members, after.members;
      Object(map key | key in b.Keys + a.Keys && Changed(b, a, key) ::
               if key !in a then Null
               else if key in b && b[key].Object? && a[key].Object? then Delta(b[key], a[key])
               else a[key])
    else
      after
  }

  /** Two different objects never have an empty difference, so the emptiness guard
      in the recursion of the source drops nothing. */
  lemma {:induction false} DeltaOfUnequalObjectsIsNonEmpty(before: Json, after: Json)
    requires before.Object? && after.Object? && before != after
    ensures Delta(before, after).Object? && Delta(before, after).members != map[]
  {
    var b, a := before.members, after.members;
    assert b != a;
    var key :| key in b.Keys + a.Keys && Changed(b, a, key);
    assert key in Delta(before, after).members;
  }

  /** The recursive difference, filled key by key as the source does. */
  method ConfigScriptDelta(before: Json, after: Json) returns (delta: Json)
    ensures delta == Delta(before, after)
    decreases after
  {
    if !before.Object? || !after.Object? {
      return after;
    }
    var b, a := before.members, after.members;
    ghost var full := Delta(before, after).members;
    var filled: map<string, Json> := map[];
    var todo := a.Keys;
    while todo != {}
      invariant todo <= a.Keys
      invariant forall key :: key in filled <==> key in full && key in a.Keys - todo
      invariant forall key :: key in filled ==> filled[key] == full[key]
    {
      var key :| key in todo;
      todo := todo - {key};
      var afterValue := a[key];
      if key !in b {
        filled := filled[key := afterValue];
      } else if b[key] != afterValue {
        if b[key].Object? && afterValue.Object? {
          var nested := ConfigScriptDelta(b[key], afterValue);
          DeltaOfUnequalObjectsIsNonEmpty(b[key], afterValue);
          if nested.Object? && nested.members != map[] {
            filled := filled[key := nested];
          }
        } else {
          filled := filled[key := afterValue];
        }
      }
    }
    todo := b.Keys;
    while todo != {}
      invariant todo <= b.Keys
      invariant forall key :: key in filled <==> key in full && (key in a || key in b.Keys - todo)
      invariant forall key :: key in filled ==> filled[key] == full[key]
    {
      var key :| key in todo;
      todo := todo - {key};
      if key !in a {
        filled := filled[key := Null];
      }
    }
    assert filled.Keys == full.Keys;
    delta := Object(filled);
  }

  // ---------------------------------------------------------------------
  // The difference as a JSON merge patch
  // ---------------------------------------------------------------------

  /** Section 2 of RFC 7396. An undefined target member is passed as null: neither is an object. */
  function MergePatch(target: Json, patch: Json): Json
    decreases patch
  {
    if !patch.Object? then patch
    else
      var t := if target.Object? then target.members else map[];
      var p := patch.members;
      Object(map key | key in t.Keys + p.Keys && (key in p ==> p[key] != Null) ::
               if key in p then MergePatch(if key in t then t[key] else Null, p[key]) else t[key])
  }

  /** No object member anywhere outside arrays is null. */
  predicate NullFree(value: Json) {
    value.Object? ==> forall key :: key in value.members ==>
      value.members[key] != Null && NullFree(value.members[key])
  }

  /** Every null member of `after` sits inside a value that `before` already had there. */
  predicate NullsAreOld(before: Json, after: Json)
    decreases after
  {
    if before.Object? && after.Object? then
      forall key :: key in after.members && Changed(before.members, after.members, key) ==>
        after.members[key] != Null
        && NullsAreOld(if key in before.members then before.members[key] else Null, after.members[key])
    else
      NullFree(after)
  }

  lemma {:induction false} PatchOntoNonObject(target: Json, patch: Json)
    requires !target.Object?
    ensures MergePatch(target, patch) == patch <==> NullFree(patch)
    decreases patch
  {
    if patch.Object? {
      var p := patch.members;
      var r := MergePatch(target, patch).members;
      forall key | key in p ensures MergePatch(Null, p[key]) == p[key] <==> NullFree(p[key]) {
        PatchOntoNonObject(Null, p[key]);
      }
      if MergePatch(target, patch) == patch {
        forall key | key in p ensures p[key] != Null && NullFree(p[key]) {
          assert key in r && r[key] == MergePatch(Null, p[key]);
        }
      }
      if NullFree(patch) {
        assert r.Keys == p.Keys;
        assert r == p;
      }
    }
  }

  /** Applying the difference to the baseline gives the output back exactly when
      every null the output holds was already in the baseline. */
  lemma {:induction false} DeltaIsAMergePatch(before: Json, after: Json)
    ensures MergePatch(before, Delta(before, after)) == after <==> NullsAreOld(before, after)
    decreases after
  {
    if !before.Object? {
      PatchOntoNonObject(before, after);
    } else if after.Object? {
      var b, a := before.members, after.members;
      var r := MergePatch(before, Delta(before, after)).members;
      forall key | key in a && Changed(b, a, key)
        ensures (key in r && r[key] == a[key]) <==>
                (a[key] != Null && NullsAreOld(if key in b then b[key] else Null, a[key]))
      {
        MemberIsRestored(b, a, key);
      }
      forall key | key in b && key !in a ensures key !in r {
        assert Delta(before, after).members[key] == Null;
      }
      assert forall key :: key in a && !Changed(b, a, key) ==> key in r && r[key] == a[key];
      if NullsAreOld(before, after) {
        assert forall key :: key in a ==> key in r && r[key] == a[key];
        assert r.Keys == a.Keys;
        assert r == a;
      }
    }
  }

  lemma {:induction false} MemberIsRestored(b: map<string, Json>, a: map<string, Json>, key: string)
    requires key in a && Changed(b, a, key)
    ensures
      var r := MergePatch(Object(b), Delta(Object(b), Object(a))).members;
      (key in r && r[key] == a[key]) <==>
      (a[key] != Null && NullsAreOld(if key in b then b[key] else Null, a[key]))
    decreases Object(a), 0
  {
    var d := Delta(Object(b), Object(a)).members;
    var oldValue := if key in b then b[key] else Null;
    assert key in d;
    if oldValue.Object? && a[key].Object? {
      assert a[key] < Object(a);
      DeltaIsAMergePatch(oldValue, a[key]);
    } else {
      assert d[key] == a[key];
      if a[key] != Null {
        if oldValue.Object? {
          assert !a[key].Object?;
        } else {
          PatchOntoNonObject(oldValue, a[key]);
        }
      }
    }
  }

  /** In particular for every output without null members. */
  lemma {:induction false} NullFreeOutputsAreRestored(before: Json, after: Json)
    requires NullFree(after)
    ensures MergePatch(before, Delta(before, after)) == after
  {
    NullFreeIsNullsAreOld(before, after);
    DeltaIsAMergePatch(before, after);
  }

  lemma {:induction false} NullFreeIsNullsAreOld(before: Json, after: Json)
    requires NullFree(after)
    ensures NullsAreOld(before, after)
    decreases after
  {
    if before.Object? && after.Object? {
      var b, a := before.members, after.members;
      forall key | key in a && Changed(b, a, key)
        ensures a[key] != Null && NullsAreOld(if key in b then b[key] else Null, a[key])
      {
        NullFreeIsNullsAreOld(if key in b then b[key] else Null, a[key]);
      }
    }
  }

  // ---------------------------------------------------------------------
  // The whitelist
  // ---------------------------------------------------------------------

  type Whitelist = seq<Path>

  /** `ALLOWED_SCRIPT_KEYS`, with each dotted name already split into its segments. */
  const ALLOWED_SCRIPT_KEYS: Whitelist := [
    ["log", "level"],
    ["log", "disabled"],
    ["log", "timestamp"],
    ["route", "rules"],
    ["dns", "rules"],
    ["dns", "servers"],
    ["__kitty_context"]
  ]

  /** Some whitelisted path starts with `path`. */
  predicate IsAllowed(w: Whitelist, path: Path) {
    exists i :: 0 <= i < |w| && path <= w[i]
  }

  predicate IsLeaf(w: Whitelist, path: Path) {
    exists i :: 0 <= i < |w| && path == w[i]
  }

  predicate ExtendsLeaf(w: Whitelist, path: Path) {
    exists i :: 0 <= i < |w| && w[i] <= path
  }

  /** A path the whitelist says nothing about: it neither extends a whitelisted path
      nor is a prefix of one. */
  predicate Outside(w: Whitelist, path: Path) {
    !IsAllowed(w, path) && !ExtendsLeaf(w, path)
  }

  /** A path strictly above whitelisted ones. */
  predicate Container(w: Whitelist, path: Path) {
    IsAllowed(w, path) && !ExtendsLeaf(w, path)
  }

  /** `walk` reports no error below `path`. */
  predicate Accepted(w: Whitelist, value: Json, path: Path) {
    value.Object? ==> forall key :: key in value.members ==>
      IsAllowed(w, path + [key])
      && (IsLeaf(w, path + [key])
          || (value.members[key].Object? && Accepted(w, value.members[key], path + [key])))
  }

  /** The value at a path, descending through objects only. */
  function Lookup(value: Json, path: Path): Option<Json> {
    if path == [] then Some(value)
    else if value.Object? && path[0] in value.members then Lookup(value.members[path[0]], path[1..])
    else None
  }

  /** `bad` is a path of `value` that the whitelist rejects: it leads nowhere allowed, or
      it is a container that is no longer an object. */
  ghost predicate Violation(w: Whitelist, value: Json, path: Path, bad: Path) {
    path < bad && Lookup(value, bad[|path|..]).Some?
    && (!IsAllowed(w, bad) || (!IsLeaf(w, bad) && !Lookup(value, bad[|path|..]).value.Object?))
  }

  /** `walk`, with the shared path pushed before and popped after each member. It accepts
      exactly the accepted values and otherwise names a path that really offends. */
  method Walk(w: Whitelist, value: Json, path: Path) returns (error: Option<Path>, shared: Path)
    ensures error.None? <==> Accepted(w, value, path)
    ensures error.None? ==> shared == path
    ensures error.Some? ==> shared == error.value && Violation(w, value, path, error.value)
    decreases value
  {
    shared := path;
    if !value.Object? {
      return None, shared;
    }
    var todo := value.members.Keys;
    while todo != {}
      invariant todo <= value.members.Keys
      invariant shared == path
      invariant forall key :: key in value.members.Keys - todo ==>
        IsAllowed(w, path + [key])
        && (IsLeaf(w, path + [key])
            || (value.members[key].Object? && Accepted(w, value.members[key], path + [key])))
    {
      var key :| key in todo;
      todo := todo - {key};
      var child := value.members[key];
      shared := shared + [key];
      LookupStep(value, key, []);
      assert shared[|path|..] == [key] + [];
      if !IsAllowed(w, shared) {
        return Some(shared), shared;
      }
      if IsLeaf(w, shared) {
      } else if child.Object? {
        var nested, restored := Walk(w, child, shared);
        if nested.Some? {
          var bad := nested.value;
          LookupStep(value, key, bad[|path| + 1..]);
          assert bad[|path|..] == [key] + bad[|path| + 1..];
          return nested, restored;
        }
        shared := restored;
      } else {
        return Some(shared), shared;
      }
      shared := shared[..|shared| - 1];
    }
    error := None;
  }

  lemma LookupStep(value: Json, key: string, rest: Path)
    ensures Lookup(value, [key] + rest) ==
            if value.Object? && key in value.members then Lookup(value.members[key], rest) else None
  {
    assert ([key] + rest)[1..] == rest;
  }

  // ---------------------------------------------------------------------
  // What acceptance means for the two documents
  // ---------------------------------------------------------------------

  /** The two values look the same at every path below `path` the whitelist does not mention. */
  ghost predicate SameOutside(w: Whitelist, before: Json, after: Json, path: Path) {
    forall rest: Path :: rest != [] && Outside(w, path + rest) ==> Lookup(before, rest) == Lookup(after, rest)
  }

  /** Every container below `path` is untouched or still an object. */
  ghost predicate ContainersKept(w: Whitelist, before: Json, after: Json, path: Path) {
    forall rest: Path :: rest != [] && Container(w, path + rest) ==>
      Lookup(before, rest) == Lookup(after, rest)
      || (Lookup(after, rest).Some? && Lookup(after, rest).value.Object?)
  }

  /** The child against which a changed object member is compared. */
  function OldChild(before: Json, key: string): Json {
    if before.Object? && key in before.members && before.members[key].Object? then before.members[key]
    else Object(map[])
  }

  lemma {:induction false} DeltaOfChangedMember(before: Json, after: Json, key: string)
    requires before.Object? && after.Object?
    requires key in Delta(before, after).members && Delta(before, after).members[key].Object?
    ensures key in after.members && after.members[key].Object?
    ensures Delta(before, after).members[key] == Delta(OldChild(before, key), after.members[key])
  {
    if key !in before.members || !before.members[key].Object? {
      assert Delta(Object(map[]), after.members[key]).members == after.members[key].members;
    }
  }

  lemma OldChildLooksTheSame(before: Json, key: string, rest: Path)
    requires before.Object? && rest != []
    ensures Lookup(before, [key] + rest) == Lookup(OldChild(before, key), rest)
  {
    LookupStep(before, key, rest);
  }

  /** The central equivalence, at any depth of the walk and for any whitelist. */
  lemma {:induction false} AcceptedIffConfinedBelow(w: Whitelist, before: Json, after: Json, path: Path)
    requires before.Object? && after.Object?
    requires !ExtendsLeaf(w, path)
    ensures Accepted(w, Delta(before, after), path) <==>
            SameOutside(w, before, after, path) && ContainersKept(w, before, after, path)
    decreases after
  {
    var delta := Delta(before, after);
    forall key | key in delta.members && delta.members[key].Object? && !IsLeaf(w, path + [key])
      ensures Accepted(w, delta.members[key], path + [key]) <==>
              SameOutside(w, OldChild(before, key), after.members[key], path + [key])
              && ContainersKept(w, OldChild(before, key), after.members[key], path + [key])
    {
      DeltaOfChangedMember(before, after, key);
      NotBelowALeaf(w, path, key);
      AcceptedIffConfinedBelow(w, OldChild(before, key), after.members[key], path + [key]);
    }
    if Accepted(w, delta, path) {
      AcceptedIsConfined(w, before, after, path);
    }
    if SameOutside(w, before, after, path) && ContainersKept(w, before, after, path) {
      ConfinedIsAccepted(w, before, after, path);
    }
  }

  lemma NotBelowALeaf(w: Whitelist, path: Path, key: string)
    requires !ExtendsLeaf(w, path) && !IsLeaf(w, path + [key])
    ensures !ExtendsLeaf(w, path + [key])
  {
  }

  lemma {:induction false} AcceptedIsConfined(w: Whitelist, before: Json, after: Json, path: Path)
    requires before.Object? && after.Object?
    requires !ExtendsLeaf(w, path)
    requires Accepted(w, Delta(before, after), path)
    requires
      var d := Delta(before, after).members;
      forall key :: key in d && d[key].Object? && !IsLeaf(w, path + [key]) ==>
        key in after.members
        && SameOutside(w, OldChild(before, key), after.members[key], path + [key])
        && ContainersKept(w, OldChild(before, key), after.members[key], path + [key])
    ensures SameOutside(w, before, after, path) && ContainersKept(w, before, after, path)
  {
    var d := Delta(before, after).members;
    forall rest: Path | rest != []
      ensures Outside(w, path + rest) ==> Lookup(before, rest) == Lookup(after, rest)
      ensures Container(w, path + rest) ==>
                Lookup(before, rest) == Lookup(after, rest)
                || (Lookup(after, rest).Some? && Lookup(after, rest).value.Object?)
    {
      var key, tail := rest[0], rest[1..];
      assert rest == [key] + tail;
      assert path + rest == (path + [key]) + tail;
      LookupStep(before, key, tail);
      LookupStep(after, key, tail);
      if key in d {
        if IsLeaf(w, path + [key]) {
          var i :| 0 <= i < |w| && path + [key] == w[i];
          assert w[i] <= path + rest;
          assert ExtendsLeaf(w, path + rest);
        } else if tail == [] {
          assert path + rest == path + [key];
          DeltaOfChangedMember(before, after, key);
        } else {
          OldChildLooksTheSame(before, key, tail);
        }
      } else {
        assert !(key in before.members.Keys + after.members.Keys && Changed(before.members, after.members, key));
      }
    }
  }

  lemma {:induction false} ConfinedIsAccepted(w: Whitelist, before: Json, after: Json, path: Path)
    requires before.Object? && after.Object?
    requires !ExtendsLeaf(w, path)
    requires SameOutside(w, before, after, path) && ContainersKept(w, before, after, path)
    requires
      var d := Delta(before, after).members;
      forall key :: key in d && d[key].Object? && !IsLeaf(w, path + [key]) ==>
        key in after.members
        && (SameOutside(w, OldChild(before, key), after.members[key], path + [key])
            && ContainersKept(w, OldChild(before, key), after.members[key], path + [key])
            ==> Accepted(w, d[key], path + [key]))
    ensures Accepted(w, Delta(before, after), path)
  {
    forall key | key in Delta(before, after).members
      ensures IsAllowed(w, path + [key])
      ensures IsLeaf(w, path + [key])
              || (Delta(before, after).members[key].Object? && Accepted(w, Delta(before, after).members[key], path + [key]))
    {
      ConfinedMemberIsAllowed(w, before, after, path, key);
      if !IsLeaf(w, path + [key]) {
        ConfinementOfAMember(w, before, after, path, key);
      }
    }
  }

  lemma ConfinedMemberIsAllowed(w: Whitelist, before: Json, after: Json, path: Path, key: string)
    requires before.Object? && after.Object? && key in Delta(before, after).members
    requires !ExtendsLeaf(w, path)
    requires SameOutside(w, before, after, path) && ContainersKept(w, before, after, path)
    ensures IsAllowed(w, path + [key])
    ensures IsLeaf(w, path + [key]) || Delta(before, after).members[key].Object?
  {
    LookupStep(before, key, []);
    LookupStep(after, key, []);
    assert [key] + [] == [key];
    assert Lookup(before, [key]) != Lookup(after, [key]);
    if IsLeaf(w, path + [key]) {
      assert IsAllowed(w, path + [key]);
    } else {
      NotBelowALeaf(w, path, key);
      assert Container(w, path + [key]);
      assert key in after.members && after.members[key].Object?;
      DeltaOfNewObject(before, after, key);
    }
  }

  lemma DeltaOfNewObject(before: Json, after: Json, key: string)
    requires before.Object? && after.Object? && key in Delta(before, after).members
    requires key in after.members && after.members[key].Object?
    ensures Delta(before, after).members[key].Object?
  {
    var oldValue := if key in before.members then before.members[key] else Null;
    assert Delta(oldValue, after.members[key]).Object?;
  }

  lemma ConfinementOfAMember(w: Whitelist, before: Json, after: Json, path: Path, key: string)
    requires before.Object? && after.Object? && key in after.members
    requires SameOutside(w, before, after, path) && ContainersKept(w, before, after, path)
    ensures SameOutside(w, OldChild(before, key), after.members[key], path + [key])
    ensures ContainersKept(w, OldChild(before, key), after.members[key], path + [key])
  {
    forall tail: Path | tail != []
      ensures Outside(w, (path + [key]) + tail) ==>
                Lookup(OldChild(before, key), tail) == Lookup(after.members[key], tail)
      ensures Container(w, (path + [key]) + tail) ==>
                Lookup(OldChild(before, key), tail) == Lookup(after.members[key], tail)
                || (Lookup(after.members[key], tail).Some? && Lookup(after.members[key], tail).value.Object?)
    {
      assert (path + [key]) + tail == path + ([key] + tail);
      OldChildLooksTheSame(before, key, tail);
      LookupStep(after, key, tail);
    }
  }

  /** Confinement of a script, both ways: its output is accepted exactly when it agrees with the
      baseline at every path the whitelist does not mention and log, route and dns are each
      untouched or still objects. */
  lemma {:induction false} ScriptIsConfined(baseline: Json, output: Json)
    requires baseline.Object? && output.Object?
    ensures
      Accepted(ALLOWED_SCRIPT_KEYS, Delta(baseline, output), []) <==>
      && (forall path: Path :: Outside(ALLOWED_SCRIPT_KEYS, path) ==> Lookup(baseline, path) == Lookup(output, path))
      && (forall key :: key in {"log", "route", "dns"} ==>
            Lookup(baseline, [key]) == Lookup(output, [key])
            || (Lookup(output, [key]).Some? && Lookup(output, [key]).value.Object?))
  {
    hide Accepted, Delta;
    var w := ALLOWED_SCRIPT_KEYS;
    assert !ExtendsLeaf(w, []);
    AcceptedIffConfinedBelow(w, baseline, output, []);
    assert !Outside(w, []) by {
      assert [] <= w[0];
    }
    RootedPaths(w, baseline, output);
    forall path: Path | path != []
      ensures Container(w, path) <==> path in {["log"], ["route"], ["dns"]}
    {
      ContainersOfTheWhitelist(path);
    }
    hide Container, Outside, Lookup;
    assert forall path: Path :: path in {["log"], ["route"], ["dns"]} ==>
      path != [] && path[0] in {"log", "route", "dns"} && path == [path[0]];
    assert forall key :: key in {"log", "route", "dns"} ==> [key] in {["log"], ["route"], ["dns"]};
  }

  lemma RootedPaths(w: Whitelist, before: Json, after: Json)
    ensures SameOutside(w, before, after, []) <==>
            forall path: Path :: path != [] && Outside(w, path) ==> Lookup(before, path) == Lookup(after, path)
    ensures ContainersKept(w, before, after, []) <==>
            forall path: Path :: path != [] && Container(w, path) ==>
              Lookup(before, path) == Lookup(after, path)
              || (Lookup(after, path).Some? && Lookup(after, path).value.Object?)
  {
    assert forall path: Path :: [] + path == path;
  }

  lemma ContainersOfTheWhitelist(path: Path)
    requires path != []
    ensures Container(ALLOWED_SCRIPT_KEYS, path) <==> path in {["log"], ["route"], ["dns"]}
  {
    var w := ALLOWED_SCRIPT_KEYS;
    if path in {["log"], ["route"], ["dns"]} {
      assert ["log"] <= w[0] && ["route"] <= w[3] && ["dns"] <= w[4];
      assert |w[6][0]| == 15;
      forall i | 0 <= i < |w| ensures !(w[i] <= path) {
        assert i < 6 ==> |w[i]| == 2;
      }
    }
    if Container(w, path) {
      var i :| 0 <= i < |w| && path <= w[i];
      assert path != w[i];
      assert |path| == 1 && path == [w[i][0]];
    }
  }
}
