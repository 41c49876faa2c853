/**
 * The `permission:show` command (src/Commands/Show.php): which guards are
 * shown, and the role × permission table built for each. The database reads
 * are inputs, twice over: the unordered `pluck('guard_name')` reads see the
 * permission and role rows in whatever order the database returns them, and
 * the per-guard reads see them (each role with the names of its permissions)
 * in the order `orderBy('name')` returns them.
 */
module ShowMatrix {
  import opened Wrappers
  import opened PhpStrings

  datatype PermissionRow = PermissionRow(name: string, guard: string)
  datatype RoleRow = RoleRow(name: string, guard: string, permissionNames: seq<string>)

  /** One printed table: its guard, the header row and the body rows. */
  datatype GuardTable = GuardTable(guard: string, header: seq<string>, body: seq<seq<string>>)

  /** The cell for a role that grants the permission, and for one that does not. */
  const Granted: string := " \U{2714}"
  const NotGranted: string := " \U{00B7}"

  predicate NoDuplicates(s: seq<string>) {
    forall i, j :: 0 <= i < j < |s| ==> s[i] != s[j]
  }

  /** `Collection::unique()`: the first occurrence of each value, in order. */
  function Unique(s: seq<string>): (r: seq<string>)
    ensures NoDuplicates(r)
    ensures forall x :: x in r <==> x in s
    decreases |s|
  {
    if s == [] then []
    else
      var u := Unique(s[..|s| - 1]);
      assert forall x :: x in s <==> x in s[..|s| - 1] || x == s[|s| - 1];
      if s[|s| - 1] in u then u else u + [s[|s| - 1]]
  }

  /** A value already seen is dropped; a new one goes last. */
  lemma {:induction false} UniqueAppend(s: seq<string>, x: string)
    ensures Unique(s + [x]) == if x in s then Unique(s) else Unique(s) + [x]
  {
    assert (s + [x])[..|s + [x]| - 1] == s;
  }

  /** `unique()` leaves a sequence without duplicates as it is. */
  lemma {:induction false} UniqueOfDistinct(s: seq<string>)
    requires NoDuplicates(s)
    ensures Unique(s) == s
    decreases |s|
  {
    if s != [] {
      var init := s[..|s| - 1];
      UniqueOfDistinct(init);
      assert s[|s| - 1] !in init;
      assert s == init + [s[|s| - 1]];
    }
  }

  /** `pluck('guard_name')` over the permission rows. */
  function PermissionGuards(perms: seq<PermissionRow>): (gs: seq<string>)
    ensures |gs| == |perms|
    ensures forall i :: 0 <= i < |perms| ==> gs[i] == perms[i].guard
    ensures forall g :: g in gs <==> exists p :: p in perms && p.guard == g
  {
    if perms == [] then []
    else
      assert forall p :: p in perms <==> p == perms[0] || p in perms[1..];
      [perms[0].guard] + PermissionGuards(perms[1..])
  }

  /** `pluck('guard_name')` over the role rows. */
  function RoleGuards(roles: seq<RoleRow>): (gs: seq<string>)
    ensures |gs| == |roles|
    ensures forall i :: 0 <= i < |roles| ==> gs[i] == roles[i].guard
    ensures forall g :: g in gs <==> exists r :: r in roles && r.guard == g
  {
    if roles == [] then []
    else
      assert forall r :: r in roles <==> r == roles[0] || r in roles[1..];
      [roles[0].guard] + RoleGuards(roles[1..])
  }

  /**
   * The guards the command walks: the argument alone when it is truthy,
   * otherwise every guard used by a permission or a role, each once, in the
   * order of first occurrence among the rows as the database returns them.
   */
  function GuardsToShow(arg: Option<string>, perms: seq<PermissionRow>, roles: seq<RoleRow>): (guards: seq<string>)
    ensures arg.Some? && Truthy(arg.value) ==> guards == [arg.value]
    ensures !(arg.Some? && Truthy(arg.value)) ==>
      && NoDuplicates(guards)
      && forall g :: g in guards <==>
           (exists p :: p in perms && p.guard == g) || (exists r :: r in roles && r.guard == g)
  {
    if arg.Some? && Truthy(arg.value) then [arg.value]
    else Unique(PermissionGuards(perms) + RoleGuards(roles))
  }

  /** `Role::whereGuardName($guard)`: the roles of guard `g`, in the given order. */
  function RolesOf(roles: seq<RoleRow>, g: string): (r: seq<RoleRow>)
    ensures forall x :: x in r <==> x in roles && x.guard == g
  {
    if roles == [] then []
    else
      assert forall x :: x in roles <==> x == roles[0] || x in roles[1..];
      (if roles[0].guard == g then [roles[0]] else []) + RolesOf(roles[1..], g)
  }

  /** The guard's roles keep their order: `RolesOf` distributes over concatenation. */
  lemma {:induction false} RolesOfConcat(a: seq<RoleRow>, b: seq<RoleRow>, g: string)
    ensures RolesOf(a + b, g) == RolesOf(a, g) + RolesOf(b, g)
  {
    if a == [] {
      assert a + b == b;
    } else {
      assert (a + b)[1..] == a[1..] + b;
      RolesOfConcat(a[1..], b, g);
    }
  }

  /** Roles all of guard `g` are all kept, once each and in order. */
  lemma {:induction false} RolesOfOneGuard(roles: seq<RoleRow>, g: string)
    requires forall i :: 0 <= i < |roles| ==> roles[i].guard == g
    ensures RolesOf(roles, g) == roles
  {
    if roles != [] {
      RolesOfOneGuard(roles[1..], g);
    }
  }

  /** Roles none of guard `g` are all dropped. */
  lemma {:induction false} RolesOfOtherGuards(roles: seq<RoleRow>, g: string)
    requires forall i :: 0 <= i < |roles| ==> roles[i].guard != g
    ensures RolesOf(roles, g) == []
  {
    if roles != [] {
      RolesOfOtherGuards(roles[1..], g);
    }
  }

  /** `Permission::whereGuardName($guard)->pluck('name')`: the permission names of guard `g`, in the given order. */
  function PermissionNamesOf(perms: seq<PermissionRow>, g: string): (names: seq<string>)
    ensures forall n :: n in names <==> exists p :: p in perms && p.guard == g && p.name == n
  {
    if perms == [] then []
    else
      assert forall p :: p in perms <==> p == perms[0] || p in perms[1..];
      (if perms[0].guard == g then [perms[0].name] else []) + PermissionNamesOf(perms[1..], g)
  }

  /** The permission names keep their order: `PermissionNamesOf` distributes over concatenation. */
  lemma {:induction false} PermissionNamesOfConcat(a: seq<PermissionRow>, b: seq<PermissionRow>, g: string)
    ensures PermissionNamesOf(a + b, g) == PermissionNamesOf(a, g) + PermissionNamesOf(b, g)
  {
    if a == [] {
      assert a + b == b;
    } else {
      assert (a + b)[1..] == a[1..] + b;
      PermissionNamesOfConcat(a[1..], b, g);
    }
  }

  /** Permissions all of guard `g` give their names, once each and in order. */
  lemma {:induction false} PermissionNamesOfOneGuard(perms: seq<PermissionRow>, g: string)
    requires forall i :: 0 <= i < |perms| ==> perms[i].guard == g
    ensures var names := PermissionNamesOf(perms, g);
      |names| == |perms| && forall i :: 0 <= i < |perms| ==> names[i] == perms[i].name
  {
    if perms != [] {
      PermissionNamesOfOneGuard(perms[1..], g);
    }
  }

  /** There is one name per permission row of guard `g`: as many as `g` occurs among the plucked guards. */
  lemma {:induction false} PermissionNamesOfCount(perms: seq<PermissionRow>, g: string)
    ensures |PermissionNamesOf(perms, g)| == multiset(PermissionGuards(perms))[g]
  {
    if perms != [] {
      PermissionNamesOfCount(perms[1..], g);
      assert PermissionGuards(perms) == [perms[0].guard] + PermissionGuards(perms[1..]);
    }
  }

  function Names(roles: seq<RoleRow>): (names: seq<string>)
    ensures |names| == |roles|
    ensures forall i :: 0 <= i < |roles| ==> names[i] == roles[i].name
  {
    seq(|roles|, i requires 0 <= i < |roles| => roles[i].name)
  }

  /** A PHP array keyed by role name: its keys in insertion order, and the value of each. */
  datatype KeyedRoles = KeyedRoles(keys: seq<string>, values: map<string, seq<string>>)

  predicate WellKeyed(m: KeyedRoles) {
    && NoDuplicates(m.keys)
    && (forall k :: k in m.keys ==> k in m.values)
    && (forall k :: k in m.values ==> k in m.keys)
  }

  /** The permission names of the last role named `k`, if any role is. */
  function LastWithName(roles: seq<RoleRow>, k: string): (r: Option<seq<string>>)
    ensures r.None? <==> k !in Names(roles)
  {
    if roles == [] then None
    else if roles[|roles| - 1].name == k then Some(roles[|roles| - 1].permissionNames)
    else
      assert Names(roles) == Names(roles[..|roles| - 1]) + [roles[|roles| - 1].name];
      LastWithName(roles[..|roles| - 1], k)
  }

  /** The value found for `k` is that of a role named `k` with no later role so named. */
  lemma {:induction false} LastWithNameIsLast(roles: seq<RoleRow>, k: string)
    requires LastWithName(roles, k).Some?
    ensures exists i ::
              && 0 <= i < |roles| && roles[i].name == k
              && LastWithName(roles, k).value == roles[i].permissionNames
              && forall j :: i < j < |roles| ==> roles[j].name != k
    decreases |roles|
  {
    var n := |roles| - 1;
    if roles[n].name != k {
      var init := roles[..n];
      LastWithNameIsLast(init, k);
      var i :|
        && 0 <= i < |init| && init[i].name == k
        && LastWithName(init, k).value == init[i].permissionNames
        && forall j :: i < j < |init| ==> init[j].name != k;
      assert roles[i] == init[i];
    }
  }

  /**
   * `mapWithKeys(fn ($role) => [$role->name => permission names])`: the keys
   * are the role names in first-occurrence order, and a name's value comes
   * from the last role carrying it.
   */
  function MapWithKeys(roles: seq<RoleRow>): (m: KeyedRoles)
    ensures WellKeyed(m)
    ensures m.keys == Unique(Names(roles))
    ensures forall k :: k in m.values ==> Some(m.values[k]) == LastWithName(roles, k)
    decreases |roles|
  {
    if roles == [] then KeyedRoles([], map[])
    else
      var init := roles[..|roles| - 1];
      var last := roles[|roles| - 1];
      var m := MapWithKeys(init);
      assert Names(roles) == Names(init) + [last.name];
      UniqueAppend(Names(init), last.name);
      assert last.name in m.values <==> last.name in Names(init);
      var r := KeyedRoles(if last.name in m.values then m.keys else m.keys + [last.name],
                          m.values[last.name := last.permissionNames]);
      assert r.keys == Unique(Names(roles));
      assert WellKeyed(r);
      assert forall k :: k in r.values ==> Some(r.values[k]) == LastWithName(roles, k) by {
        forall k | k in r.values ensures Some(r.values[k]) == LastWithName(roles, k) {
          if k != last.name {
            assert k in m.values;
          }
        }
      }
      r
  }

  /** With distinct names, the role named like role `j` is role `j`. */
  lemma {:induction false} LastWithNameOfDistinct(roles: seq<RoleRow>, j: nat)
    requires NoDuplicates(Names(roles))
    requires j < |roles|
    ensures LastWithName(roles, roles[j].name) == Some(roles[j].permissionNames)
    decreases |roles|
  {
    var n := |roles| - 1;
    if j < n {
      assert Names(roles)[j] != Names(roles)[n];
      var init := roles[..n];
      assert Names(init) == Names(roles)[..n];
      assert init[j] == roles[j];
      LastWithNameOfDistinct(init, j);
    }
  }

  /** Distinctly named roles keep their order as keys. */
  lemma {:induction false} MapWithKeysOfDistinct(roles: seq<RoleRow>)
    requires NoDuplicates(Names(roles))
    ensures MapWithKeys(roles).keys == Names(roles)
  {
    UniqueOfDistinct(Names(roles));
  }

  /** Keys that are the role names, with each value from the last role so named. */
  lemma {:induction false} KeyedValueOf(roles: seq<RoleRow>, m: KeyedRoles, j: nat)
    requires j < |roles| && LastWithName(roles, roles[j].name) == Some(roles[j].permissionNames)
    requires WellKeyed(m) && m.keys == Names(roles)
    requires forall k :: k in m.values ==> Some(m.values[k]) == LastWithName(roles, k)
    ensures roles[j].name in m.values && m.values[roles[j].name] == roles[j].permissionNames
  {
    assert m.keys[j] == roles[j].name;
  }

  /** With distinct names, the value under role `j`'s name is role `j`'s permission names. */
  lemma {:induction false} MapWithKeysValueOfDistinct(roles: seq<RoleRow>, j: nat)
    requires NoDuplicates(Names(roles))
    requires j < |roles|
    ensures MapWithKeys(roles).values[roles[j].name] == roles[j].permissionNames
  {
    MapWithKeysOfDistinct(roles);
    LastWithNameOfDistinct(roles, j);
    KeyedValueOf(roles, MapWithKeys(roles), j);
  }

  /** `contains($permission) ? ' ✔' : ' ·'`. */
  function Cell(granted: seq<string>, permission: string): (c: string)
    ensures c == Granted || c == NotGranted
    ensures c == Granted <==> permission in granted
  {
    if permission in granted then Granted else NotGranted
  }

  /** One body row: the permission name, then one cell per role key. */
  function Row(m: KeyedRoles, permission: string): (row: seq<string>)
    requires WellKeyed(m)
    ensures |row| == |m.keys| + 1 && row[0] == permission
    ensures forall j :: 1 <= j < |row| ==>
      && (row[j] == Granted || row[j] == NotGranted)
      && (row[j] == Granted <==> permission in m.values[m.keys[j - 1]])
  {
    [permission] + seq(|m.keys|, j requires 0 <= j < |m.keys| => Cell(m.values[m.keys[j]], permission))
  }

  /** The header and body printed for keyed roles `m` and permission names `names`. */
  function Layout(g: string, m: KeyedRoles, names: seq<string>): (t: GuardTable)
    requires WellKeyed(m)
    ensures t.guard == g && t.header == [""] + m.keys && |t.body| == |names|
    ensures forall i :: 0 <= i < |names| ==> t.body[i] == Row(m, names[i])
  {
    GuardTable(g, [""] + m.keys, seq(|names|, i requires 0 <= i < |names| => Row(m, names[i])))
  }

  /**
   * Every cell is ✔ or ·, and it is ✔ exactly when the row's permission name
   * is among the names held under the column's key; every row is as long as
   * the header and starts with its permission name.
   */
  lemma {:induction false} LayoutCells(g: string, m: KeyedRoles, names: seq<string>, i: nat, j: nat)
    requires WellKeyed(m)
    requires i < |names| && 1 <= j < |m.keys| + 1
    ensures var t := Layout(g, m, names);
      && |t.body[i]| == |t.header| && t.body[i][0] == names[i]
      && t.header[j] in m.values
      && (t.body[i][j] == Granted || t.body[i][j] == NotGranted)
      && (t.body[i][j] == Granted <==> names[i] in m.values[t.header[j]])
  {
    var t := Layout(g, m, names);
    assert t.body[i] == Row(m, names[i]);
    assert t.header[j] == m.keys[j - 1];
  }

  /**
   * The table for guard `g`: an empty corner cell and the names of the guard's
   * roles, then one row per permission of the guard.
   */
  function BuildTable(g: string, perms: seq<PermissionRow>, roles: seq<RoleRow>): (t: GuardTable)
    ensures t.guard == g
    ensures t.header == [""] + Unique(Names(RolesOf(roles, g)))
    ensures |t.body| == |PermissionNamesOf(perms, g)|
    ensures forall i :: 0 <= i < |t.body| ==>
      |t.body[i]| == |t.header| && t.body[i][0] == PermissionNamesOf(perms, g)[i]
  {
    Layout(g, MapWithKeys(RolesOf(roles, g)), PermissionNamesOf(perms, g))
  }

  /**
   * Every row is as long as the header and labelled with its permission name;
   * every cell is ✔ or ·, and ✔ exactly when the row's permission name is among
   * the permission names the guard's roles hold under the column's name.
   */
  lemma {:induction false} CellMeaning(g: string, perms: seq<PermissionRow>, roles: seq<RoleRow>, i: nat, j: nat)
    requires i < |PermissionNamesOf(perms, g)| && 1 <= j < |BuildTable(g, perms, roles).header|
    ensures var t := BuildTable(g, perms, roles);
      var m := MapWithKeys(RolesOf(roles, g));
      && |t.body[i]| == |t.header| && t.body[i][0] == PermissionNamesOf(perms, g)[i]
      && t.header[j] in m.values
      && (t.body[i][j] == Granted || t.body[i][j] == NotGranted)
      && (t.body[i][j] == Granted <==> PermissionNamesOf(perms, g)[i] in m.values[t.header[j]])
  {
    LayoutCells(g, MapWithKeys(RolesOf(roles, g)), PermissionNamesOf(perms, g), i, j);
  }

  /** With distinctly named roles, cell (i, j + 1) is ✔ exactly when role j grants permission i. */
  lemma {:induction false} CellFollowsRole(g: string, perms: seq<PermissionRow>, roles: seq<RoleRow>, i: nat, j: nat)
    requires NoDuplicates(Names(RolesOf(roles, g)))
    requires i < |PermissionNamesOf(perms, g)| && j < |RolesOf(roles, g)|
    ensures var t := BuildTable(g, perms, roles);
      j + 1 < |t.body[i]|
      && (t.body[i][j + 1] == Granted <==> PermissionNamesOf(perms, g)[i] in RolesOf(roles, g)[j].permissionNames)
  {
    var rs := RolesOf(roles, g);
    MapWithKeysOfDistinct(rs);
    CellMeaning(g, perms, roles, i, j + 1);
    MapWithKeysValueOfDistinct(rs, j);
  }

  /**
   * With distinctly named roles (names are unique per guard), the header lists
   * the guard's roles in order and cell (i, j) is ✔ exactly when role j grants
   * permission i.
   */
  lemma {:induction false} CellsFollowRoles(g: string, perms: seq<PermissionRow>, roles: seq<RoleRow>)
    requires NoDuplicates(Names(RolesOf(roles, g)))
    ensures var t := BuildTable(g, perms, roles);
      var rs := RolesOf(roles, g);
      && t.header == [""] + Names(rs)
      && forall i, j :: 0 <= i < |t.body| && 0 <= j < |rs| ==>
           (t.body[i][j + 1] == Granted <==> PermissionNamesOf(perms, g)[i] in rs[j].permissionNames)
  {
    var rs := RolesOf(roles, g);
    var t := BuildTable(g, perms, roles);
    MapWithKeysOfDistinct(rs);
    forall i, j | 0 <= i < |t.body| && 0 <= j < |rs|
      ensures t.body[i][j + 1] == Granted <==> PermissionNamesOf(perms, g)[i] in rs[j].permissionNames
    {
      CellFollowsRole(g, perms, roles, i, j);
    }
  }

  /** A name listed after the corner cell is the name of one of the guard's roles. */
  lemma {:induction false} ListedNamesAreRoles(h: seq<string>, roles: seq<RoleRow>, g: string, j: nat)
    requires h == [""] + Unique(Names(RolesOf(roles, g))) && 1 <= j < |h|
    ensures exists r :: r in roles && r.guard == g && r.name == h[j]
  {
    var names := Names(RolesOf(roles, g));
    assert h[j] in Unique(names);
    var l :| 0 <= l < |names| && names[l] == h[j];
    assert RolesOf(roles, g)[l] in RolesOf(roles, g);
  }

  /** Only the guard's own roles appear as columns of its table. */
  lemma {:induction false} HeaderOnlyGuardRoles(g: string, perms: seq<PermissionRow>, roles: seq<RoleRow>, j: nat)
    requires 1 <= j < |BuildTable(g, perms, roles).header|
    ensures exists r :: r in roles && r.guard == g && r.name == BuildTable(g, perms, roles).header[j]
  {
    ListedNamesAreRoles(BuildTable(g, perms, roles).header, roles, g, j);
  }

  /** Only the guard's own permissions appear as rows of its table. */
  lemma {:induction false} BodyOnlyGuardPermissions(g: string, perms: seq<PermissionRow>, roles: seq<RoleRow>, i: nat)
    requires i < |BuildTable(g, perms, roles).body|
    ensures |BuildTable(g, perms, roles).body[i]| > 0
    ensures exists p :: p in perms && p.guard == g && p.name == BuildTable(g, perms, roles).body[i][0]
  {
    var names := PermissionNamesOf(perms, g);
    var t := BuildTable(g, perms, roles);
    assert t.body[i] == Row(MapWithKeys(RolesOf(roles, g)), names[i]);
    assert names[i] in names;
  }

  /**
   * `handle`: one table per guard shown, in the order the guards are walked.
   * `permRows` and `roleRows` are the rows in the database's own order (the
   * guard pluck has no `orderBy`); `perms` and `roles` are the rows in name
   * order, as the per-guard reads return them.
   */
  function Show(arg: Option<string>, permRows: seq<PermissionRow>, roleRows: seq<RoleRow>,
                perms: seq<PermissionRow>, roles: seq<RoleRow>): (tables: seq<GuardTable>)
    ensures var guards := GuardsToShow(arg, permRows, roleRows);
      |tables| == |guards| && forall i :: 0 <= i < |tables| ==> tables[i] == BuildTable(guards[i], perms, roles)
    ensures arg.Some? && Truthy(arg.value) ==> |tables| == 1 && tables[0].guard == arg.value
  {
    var guards := GuardsToShow(arg, permRows, roleRows);
    seq(|guards|, i requires 0 <= i < |guards| => BuildTable(guards[i], perms, roles))
  }
}
