/**
 * The `CreateRole` command (src/Commands/CreateRole.php): find or create the
 * role, turn the `|`-separated permissions argument into permissions one by
 * one, and grant them to the role.
 */
module CreateRoleCommand {
  import opened Wrappers
  import opened PhpStrings
  import opened PermissionRegistry
  import GuardResolver

  /** Each piece trimmed, in order. */
  function TrimEach(pieces: seq<string>): (names: seq<string>)
    ensures |names| == |pieces|
  {
    seq(|pieces|, i requires 0 <= i < |pieces| => Trim(pieces[i]))
  }

  /** The names `makePermissions` looks up: every `|`-separated piece, trimmed; empty pieces stay. */
  function PermissionNames(arg: string): (names: seq<string>)
    ensures |names| == Occurrences('|', arg) + 1
  {
    TrimEach(Explode('|', arg))
  }

  /** No name contains the separator, and a non-empty name starts and ends with a character `trim()` keeps. */
  lemma {:induction false} PermissionNameShape(arg: string, i: nat)
    requires i < |PermissionNames(arg)|
    ensures var name := PermissionNames(arg)[i];
      && '|' !in name
      && (name == [] || (!IsTrimmable(name[0]) && !IsTrimmable(name[|name| - 1])))
  {
    var piece := Explode('|', arg)[i];
    assert PermissionNames(arg)[i] == Trim(piece);
    TrimKeepsCharacters(piece, '|');
  }

  /**
   * `findOrCreate` for each name in order under one guard: the records found
   * or created, one per name, and the table afterwards.
   */
  function FindOrCreateAll(t: Table, names: seq<string>, guard: string): (r: (seq<Record>, Table))
    ensures |r.0| == |names|
    decreases |names|
  {
    if names == [] then ([], t)
    else
      var before := FindOrCreateAll(t, names[..|names| - 1], guard);
      var step := FindOrCreateStep(before.1, names[|names| - 1], guard);
      (before.0 + [step.0], step.1)
  }

  /** The rows stored before are kept as they were, in front. */
  lemma {:induction false} FindOrCreateAllKeepsRows(t: Table, names: seq<string>, guard: string)
    ensures |t.rows| <= |FindOrCreateAll(t, names, guard).1.rows|
    ensures FindOrCreateAll(t, names, guard).1.rows[..|t.rows|] == t.rows
    decreases |names|
  {
    if names != [] {
      var n := |names| - 1;
      FindOrCreateAllKeepsRows(t, names[..n], guard);
      var t1 := FindOrCreateAll(t, names[..n], guard).1;
      var t2 := FindOrCreateStep(t1, names[n], guard).1;
      assert t2.rows[..|t1.rows|] == t1.rows;
    }
  }

  /** Record `i` carries name `i` and the guard, for every `i`. */
  predicate Answers(found: seq<Record>, names: seq<string>, guard: string) {
    |found| == |names| && forall i :: 0 <= i < |names| ==> found[i].name == names[i] && found[i].guard == guard
  }

  /** A record answering the last name extends an answer to the others. */
  lemma {:induction false} AnswersSnoc(found: seq<Record>, x: Record, names: seq<string>, guard: string)
    requires names != [] && Answers(found, names[..|names| - 1], guard)
    requires x.name == names[|names| - 1] && x.guard == guard
    ensures Answers(found + [x], names, guard)
  {
    forall i | 0 <= i < |names| - 1 ensures (found + [x])[i].name == names[i] && (found + [x])[i].guard == guard {
      assert names[..|names| - 1][i] == names[i];
    }
  }

  /** Every record carries its name and the guard. */
  lemma {:induction false} FindOrCreateAllNames(t: Table, names: seq<string>, guard: string)
    ensures Answers(FindOrCreateAll(t, names, guard).0, names, guard)
    decreases |names|
  {
    if names != [] {
      var n := |names| - 1;
      var r1 := FindOrCreateAll(t, names[..n], guard);
      var x := FindOrCreateStep(r1.1, names[n], guard).0;
      FindOrCreateAllNames(t, names[..n], guard);
      FindOrCreateAllSnoc(t, names, guard);
      AnswersSnoc(r1.0, x, names, guard);
    }
  }

  /** Record `i` is stored afterwards. */
  lemma {:induction false} FindOrCreateAllStored(t: Table, names: seq<string>, guard: string, i: nat)
    requires i < |names|
    ensures var r := FindOrCreateAll(t, names, guard);
      r.0[i] in r.1.rows
    decreases |names|
  {
    var n := |names| - 1;
    var r1 := FindOrCreateAll(t, names[..n], guard);
    FindOrCreateAllSnoc(t, names, guard);
    if i < n {
      FindOrCreateAllStored(t, names[..n], guard, i);
      var k :| 0 <= k < |r1.1.rows| && r1.1.rows[k] == r1.0[i];
      FindOrCreateKeepsRow(r1.1, names[n], guard, k);
    }
  }

  /** Record `i` carries name `i` and the guard, and is stored afterwards. */
  lemma {:induction false} FindOrCreateAllMeaning(t: Table, names: seq<string>, guard: string, i: nat)
    requires i < |names|
    ensures var r := FindOrCreateAll(t, names, guard);
      r.0[i].name == names[i] && r.0[i].guard == guard && r.0[i] in r.1.rows
  {
    FindOrCreateAllNames(t, names, guard);
    FindOrCreateAllStored(t, names, guard, i);
  }

  /** The names' `findOrCreate` calls keep `(name, guard)` unique. */
  lemma {:induction false} FindOrCreateAllKeepsWellFormed(t: Table, names: seq<string>, guard: string)
    requires WellFormed(t)
    ensures WellFormed(FindOrCreateAll(t, names, guard).1)
    decreases |names|
  {
    if names != [] {
      FindOrCreateAllKeepsWellFormed(t, names[..|names| - 1], guard);
      var t1 := FindOrCreateAll(t, names[..|names| - 1], guard).1;
      FindOrCreateKeepsWellFormed(t1, names[|names| - 1], guard);
    }
  }

  /** A stored record is what `findOrCreate` returns for its key, without a write. */
  lemma {:induction false} FindOrCreateFindsStored(t: Table, x: Record)
    requires WellFormed(t) && x in t.rows
    ensures FindOrCreateStep(t, x.name, x.guard) == (x, t)
  {
    var y := First(t.rows, ByName(x.name, x.guard)).value;
    var i :| 0 <= i < |t.rows| && t.rows[i] == x;
    var k :| 0 <= k < |t.rows| && t.rows[k] == y;
    assert i == k;
  }

  /** One more name extends the records by the one `findOrCreate` returns for it. */
  lemma {:induction false} FindOrCreateAllSnoc(t: Table, names: seq<string>, guard: string)
    requires names != []
    ensures var before := FindOrCreateAll(t, names[..|names| - 1], guard);
      var step := FindOrCreateStep(before.1, names[|names| - 1], guard);
      FindOrCreateAll(t, names, guard) == (before.0 + [step.0], step.1)
  {
  }

  /** The records and table after `i` names, extended by the step for name `i`, are those after `i + 1`. */
  lemma {:induction false} FindOrCreateAllExtend(t0: Table, names: seq<string>, guard: string, i: nat,
                                                 found: seq<Record>, t1: Table, x: Record, t2: Table)
    requires i < |names|
    requires (found, t1) == FindOrCreateAll(t0, names[..i], guard)
    requires (x, t2) == FindOrCreateStep(t1, names[i], guard)
    ensures (found + [x], t2) == FindOrCreateAll(t0, names[..i + 1], guard)
  {
    assert names[..i + 1][..i] == names[..i];
    FindOrCreateAllSnoc(t0, names[..i + 1], guard);
  }

  /** A non-empty sequence is its front followed by its last element. */
  lemma {:induction false} DropLastAppend<T>(s: seq<T>)
    requires s != []
    ensures s[..|s| - 1] + [s[|s| - 1]] == s
  {
  }

  /** Names whose records are all stored already are found, in order, and nothing is written. */
  lemma {:induction false} FindOrCreateAllOfStored(t: Table, names: seq<string>, guard: string, found: seq<Record>)
    requires WellFormed(t)
    requires |found| == |names|
    requires forall i :: 0 <= i < |names| ==> found[i] in t.rows && found[i].name == names[i] && found[i].guard == guard
    ensures FindOrCreateAll(t, names, guard) == (found, t)
    decreases |names|
  {
    if names != [] {
      var n := |names| - 1;
      var init, initFound := names[..n], found[..n];
      forall i | 0 <= i < n
        ensures initFound[i] in t.rows && initFound[i].name == init[i] && initFound[i].guard == guard
      {
        assert initFound[i] == found[i] && init[i] == names[i];
      }
      FindOrCreateAllOfStored(t, init, guard, initFound);
      FindOrCreateFindsStored(t, found[n]);
      FindOrCreateAllSnoc(t, names, guard);
      DropLastAppend(found);
    }
  }

  /** Running the command again with the same argument writes nothing and returns the same records. */
  lemma {:induction false} RerunAddsNothing(t: Table, names: seq<string>, guard: string)
    requires WellFormed(t)
    ensures var r := FindOrCreateAll(t, names, guard);
      FindOrCreateAll(r.1, names, guard) == r
  {
    var r := FindOrCreateAll(t, names, guard);
    FindOrCreateAllKeepsWellFormed(t, names, guard);
    forall i | 0 <= i < |names|
      ensures r.0[i] in r.1.rows && r.0[i].name == names[i] && r.0[i].guard == guard
    {
      FindOrCreateAllMeaning(t, names, guard, i);
    }
    FindOrCreateAllOfStored(r.1, names, guard, r.0);
  }

  /** Afterwards every name is stored exactly once under the guard. */
  lemma {:induction false} EveryNameStoredOnce(t: Table, names: seq<string>, guard: string)
    requires WellFormed(t)
    ensures var t1 := FindOrCreateAll(t, names, guard).1;
      forall n :: n in names ==> CountKey(t1.rows, n, guard) == 1
  {
    var r := FindOrCreateAll(t, names, guard);
    FindOrCreateAllKeepsWellFormed(t, names, guard);
    forall n | n in names ensures CountKey(r.1.rows, n, guard) == 1 {
      var i :| 0 <= i < |names| && names[i] == n;
      FindOrCreateAllMeaning(t, names, guard, i);
      CountKeyUnique(r.1.rows, n, guard);
    }
  }

  /**
   * The grant edges `givePermissionTo` is assumed to add (the Role model is not
   * part of this model): one (role id, permission id) pair per given
   * permission, none for a null collection.
   */
  function GrantEdges(role: Record, permissions: Option<seq<Record>>): (edges: set<(nat, nat)>)
    ensures forall e :: e in edges <==>
      permissions.Some? && exists p :: p in permissions.value && e == (role.id, p.id)
  {
    if permissions.None? then {} else set p | p in permissions.value :: (role.id, p.id)
  }

  /**
   * The roles table and the role-permission grants. The Role model is not part
   * of this model: its `findOrCreate` is taken to behave as the permission one
   * does, and `givePermissionTo` to add one grant per permission.
   */
  class RoleStore {
    const env: GuardResolver.Env
    const roleClass: string
    var table: Table
    var grants: set<(nat, nat)>

    ghost predicate Valid()
      reads this
    {
      WellFormed(table)
    }

    constructor (env: GuardResolver.Env, roleClass: string, stored: Table, grants: set<(nat, nat)>)
      requires WellFormed(stored)
      ensures Valid()
      ensures this.env == env && this.roleClass == roleClass && table == stored && this.grants == grants
    {
      this.env := env;
      this.roleClass := roleClass;
      table := stored;
      this.grants := grants;
    }

    /** `Role::findOrCreate`: the role with that name under the resolved guard, created when absent. */
    method FindOrCreate(name: string, guard: Option<string>) returns (role: Record)
      requires Valid()
      modifies this
      ensures Valid() && grants == old(grants)
      ensures (role, table) == FindOrCreateStep(old(table), name, GuardResolver.GuardOrDefault(env, roleClass, guard))
    {
      var g := GuardResolver.GuardOrDefault(env, roleClass, guard);
      FindOrCreateKeepsWellFormed(table, name, g);
      role, table := FindOrCreateStep(table, name, g).0, FindOrCreateStep(table, name, g).1;
    }

    /** `givePermissionTo`: grants each given permission to the role. */
    method GivePermissionTo(role: Record, permissions: Option<seq<Record>>)
      requires Valid()
      modifies this`grants
      ensures Valid() && table == old(table)
      ensures grants == old(grants) + GrantEdges(role, permissions)
    {
      grants := grants + GrantEdges(role, permissions);
    }
  }

  /** The loop of `makePermissions`: `findOrCreate` on each trimmed piece, in order. */
  method FindOrCreatePieces(perms: PermissionStore, pieces: seq<string>, guard: Option<string>)
    returns (found: seq<Record>)
    requires perms.Valid()
    modifies perms
    ensures perms.Valid()
    ensures (found, perms.table)
      == FindOrCreateAll(old(perms.table), TrimEach(pieces), GuardResolver.GuardOrDefault(perms.env, perms.modelClass, guard))
  {
    ghost var names := TrimEach(pieces);
    ghost var g := GuardResolver.GuardOrDefault(perms.env, perms.modelClass, guard);
    ghost var t0 := perms.table;
    found := [];
    var i := 0;
    while i < |pieces|
      invariant 0 <= i <= |pieces| && perms.Valid()
      invariant (found, perms.table) == FindOrCreateAll(t0, names[..i], g)
    {
      ghost var t1 := perms.table;
      var x := perms.FindOrCreate(Trim(pieces[i]), guard);
      FindOrCreateAllExtend(t0, names, g, i, found, t1, x, perms.table);
      found := found + [x];
      i := i + 1;
    }
    assert names[..|pieces|] == names;
  }

  /**
   * `makePermissions`: nothing for an `empty()` argument; otherwise one
   * `findOrCreate` per piece, in order, under the guard argument.
   */
  method MakePermissions(perms: PermissionStore, arg: Option<string>, guard: Option<string>)
    returns (models: Option<seq<Record>>)
    requires perms.Valid()
    modifies perms
    ensures perms.Valid()
    ensures Empty(arg) ==> models == None && perms.table == old(perms.table) && perms.cache == old(perms.cache)
    ensures !Empty(arg) ==>
      && models.Some?
      && (models.value, perms.table)
           == FindOrCreateAll(old(perms.table), PermissionNames(arg.value),
                              GuardResolver.GuardOrDefault(perms.env, perms.modelClass, guard))
  {
    if Empty(arg) {
      return None;
    }
    var found := FindOrCreatePieces(perms, Explode('|', arg.value), guard);
    models := Some(found);
  }

  /**
   * `handle`: the role is found or created first, then the permissions, which
   * are then granted to it. With a guard argument, every permission has the
   * role's guard.
   */
  method Handle(roles: RoleStore, perms: PermissionStore, name: string, guard: Option<string>,
                permissionsArg: Option<string>)
    returns (role: Record, granted: Option<seq<Record>>)
    requires roles.Valid() && perms.Valid()
    modifies roles, perms
    ensures roles.Valid() && perms.Valid()
    ensures (role, roles.table)
      == FindOrCreateStep(old(roles.table), name, GuardResolver.GuardOrDefault(roles.env, roles.roleClass, guard))
    ensures Empty(permissionsArg) ==> granted == None && perms.table == old(perms.table)
    ensures !Empty(permissionsArg) ==>
      && granted.Some?
      && (granted.value, perms.table)
           == FindOrCreateAll(old(perms.table), PermissionNames(permissionsArg.value),
                              GuardResolver.GuardOrDefault(perms.env, perms.modelClass, guard))
    ensures roles.grants == old(roles.grants) + GrantEdges(role, granted)
    ensures guard.Some? && granted.Some? ==> forall p :: p in granted.value ==> p.guard == role.guard
  {
    role := roles.FindOrCreate(name, guard);
    granted := MakePermissions(perms, permissionsArg, guard);
    roles.GivePermissionTo(role, granted);
    if guard.Some? && granted.Some? {
      forall p | p in granted.value ensures p.guard == role.guard {
        var i :| 0 <= i < |granted.value| && granted.value[i] == p;
        FindOrCreateAllMeaning(old(perms.table), PermissionNames(permissionsArg.value), guard.value, i);
      }
    }
  }
}
