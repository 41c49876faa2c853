/**
 * The permission registry (src/Models/Permission.php): guard-scoped lookups
 * over the cached permission collection, and the create / find-or-create
 * writes. The pure part (`Table` and the step functions) says what each
 * operation does to the stored rows; the class `PermissionStore` holds the
 * rows and the cache snapshot and performs the operations in place.
 */
module PermissionRegistry {
  import opened Wrappers
  import GuardResolver
  import PhpStrings

  /** A stored row: `permission_id`, `name`, `guard_name`. Roles are keyed the same way. */
  datatype Record = Record(id: nat, name: string, guard: string)

  /** The parameters handed to the cache register: a name or an id, always with a guard. */
  datatype Query = ByName(name: string, guard: string) | ById(id: int, guard: string)

  datatype RegistryError =
    | DoesNotExistNamed(name: string, guard: string)  // PermissionDoesNotExist::create
    | DoesNotExistWithId(id: int, guard: string)      // PermissionDoesNotExist::withId
    | AlreadyExists(name: string, guard: string)      // PermissionAlreadyExists::create

  predicate Matches(x: Record, q: Query) {
    match q
    case ByName(n, g) => x.name == n && x.guard == g
    case ById(i, g) => x.id == i && x.guard == g
  }

  /** `getPermissions($params)`: the records matching every parameter, in stored order. */
  function Filter(rows: seq<Record>, q: Query): (found: seq<Record>)
    ensures |found| <= |rows|
    ensures forall x :: x in found <==> x in rows && Matches(x, q)
  {
    if rows == [] then []
    else
      var rest := Filter(rows[1..], q);
      assert forall x :: x in rows <==> x == rows[0] || x in rows[1..];
      if Matches(rows[0], q) then [rows[0]] + rest else rest
  }

  /** `->first()` of a lookup: the earliest stored match, or null. */
  function First(rows: seq<Record>, q: Query): (r: Option<Record>)
    ensures r.Some? ==> r.value in rows && Matches(r.value, q)
    ensures r.None? <==> forall x :: x in rows ==> !Matches(x, q)
    ensures r.Some? ==> exists i :: 0 <= i < |rows| && rows[i] == r.value
                                    && forall j :: 0 <= j < i ==> !Matches(rows[j], q)
  {
    if rows == [] then None
    else if Matches(rows[0], q) then Some(rows[0])
    else
      var r := First(rows[1..], q);
      assert forall x :: x in rows <==> x == rows[0] || x in rows[1..];
      assert r.Some? ==> exists i :: 0 <= i < |rows| && rows[i] == r.value
                                     && forall j :: 0 <= j < i ==> !Matches(rows[j], q) by {
        if r.Some? {
          var i :| 0 <= i < |rows[1..]| && rows[1..][i] == r.value
                   && forall j :: 0 <= j < i ==> !Matches(rows[1..][j], q);
          assert forall j :: 0 <= j < i + 1 ==> !Matches(rows[j], q) by {
            forall j | 0 <= j < i + 1 ensures !Matches(rows[j], q) {
              if j > 0 { assert rows[j] == rows[1..][j - 1]; }
            }
          }
        }
      }
      r
  }

  /** Taking the first element of the collection `getPermissions` returns is `First`. */
  lemma {:induction false} FirstIsHeadOfFilter(rows: seq<Record>, q: Query)
    ensures First(rows, q) == if Filter(rows, q) == [] then None else Some(Filter(rows, q)[0])
  {
    if rows != [] && !Matches(rows[0], q) {
      FirstIsHeadOfFilter(rows[1..], q);
    }
  }

  /** The rows stored under guard `g`. */
  function GuardRows(rows: seq<Record>, g: string): (r: seq<Record>)
    ensures forall x :: x in r <==> x in rows && x.guard == g
  {
    if rows == [] then []
    else
      assert forall x :: x in rows <==> x == rows[0] || x in rows[1..];
      (if rows[0].guard == g then [rows[0]] else []) + GuardRows(rows[1..], g)
  }

  /** Lookups are guard-scoped: rows of other guards never affect the answer. */
  lemma {:induction false} LookupIsGuardScoped(rows: seq<Record>, q: Query)
    ensures First(rows, q) == First(GuardRows(rows, q.guard), q)
  {
    if rows != [] {
      LookupIsGuardScoped(rows[1..], q);
      if rows[0].guard == q.guard {
        assert GuardRows(rows, q.guard) == [rows[0]] + GuardRows(rows[1..], q.guard);
        assert ([rows[0]] + GuardRows(rows[1..], q.guard))[1..] == GuardRows(rows[1..], q.guard);
      } else {
        assert GuardRows(rows, q.guard) == GuardRows(rows[1..], q.guard);
      }
    }
  }

  /** A row stored under another guard, appended to the rows, leaves every lookup as it was. */
  lemma {:induction false} OtherGuardInvisible(rows: seq<Record>, x: Record, q: Query)
    requires x.guard != q.guard
    ensures First(rows + [x], q) == First(rows, q)
  {
    if rows == [] {
      assert !Matches(x, q);
      assert ([x])[1..] == [];
    } else {
      assert (rows + [x])[1..] == rows[1..] + [x];
      OtherGuardInvisible(rows[1..], x, q);
    }
  }

  /** `findByName` once the guard is known: the first match, or `PermissionDoesNotExist`, never null. */
  function LookupByName(rows: seq<Record>, name: string, guard: string): (r: Result<Record, RegistryError>)
    ensures r.Success? ==> r.value in rows && r.value.name == name && r.value.guard == guard
    ensures r.Failure? <==> forall x :: x in rows ==> !(x.name == name && x.guard == guard)
    ensures r.Failure? ==> r.error == DoesNotExistNamed(name, guard)
  {
    match First(rows, ByName(name, guard))
    case Some(x) => Success(x)
    case None => Failure(DoesNotExistNamed(name, guard))
  }

  /** `findById` once the guard is known: the first row with that id and guard, or `PermissionDoesNotExist`. */
  function LookupById(rows: seq<Record>, id: int, guard: string): (r: Result<Record, RegistryError>)
    ensures r.Success? ==> r.value in rows && r.value.id == id && r.value.guard == guard
    ensures r.Failure? <==> forall x :: x in rows ==> !(x.id == id && x.guard == guard)
    ensures r.Failure? ==> r.error == DoesNotExistWithId(id, guard)
  {
    match First(rows, ById(id, guard))
    case Some(x) => Success(x)
    case None => Failure(DoesNotExistWithId(id, guard))
  }

  /** The stored table: its rows and the id the store assigns to the next insert. */
  datatype Table = Table(rows: seq<Record>, nextId: nat)

  /** `(name, guard)` is unique, and every id is below the next one. */
  predicate WellFormed(t: Table) {
    && (forall i, j :: 0 <= i < j < |t.rows| ==>
          !(t.rows[i].name == t.rows[j].name && t.rows[i].guard == t.rows[j].guard))
    && (forall i :: 0 <= i < |t.rows| ==> t.rows[i].id < t.nextId)
  }

  /** The attributes a new model is built with. */
  datatype Attributes = Attributes(name: string, guard: Option<string>)

  /** The model constructor: a missing `guard_name` is taken from `auth.defaults.guard`, which may itself be null. */
  function Construct(attrs: Attributes, configDefault: Option<string>): (r: Attributes)
    ensures r.name == attrs.name
    ensures attrs.guard.Some? ==> r.guard == attrs.guard
    ensures attrs.guard.None? ==> r.guard == configDefault
  {
    Attributes(attrs.name, if attrs.guard.Some? then attrs.guard else configDefault)
  }

  /**
   * The constructor's default and `Guard::getDefaultName` are different rules:
   * a class that declares its own `guard_name` gets that name from the resolver
   * but the configured default from the constructor.
   */
  lemma {:induction false} ConstructorDefaultIgnoresClassGuard(env: GuardResolver.Env, cls: string, name: string)
    requires cls in env.classGuards && PhpStrings.Truthy(env.classGuards[cls])
    requires env.defaultGuard != Some(env.classGuards[cls])
    ensures Construct(Attributes(name, None), env.defaultGuard).guard
            != Some(GuardResolver.GetDefaultName(env, GuardResolver.ClassName(cls)))
  {
  }

  /** `create` once the guard is known: `PermissionAlreadyExists` for a present `(name, guard)`, else one inserted row. */
  function CreateStep(t: Table, name: string, guard: string): (r: (Result<Record, RegistryError>, Table))
    ensures r.0.Failure? <==> exists x :: x in t.rows && x.name == name && x.guard == guard
    ensures r.0.Failure? ==> r.0.error == AlreadyExists(name, guard) && r.1 == t
    ensures r.0.Success? ==> r.0.value.name == name && r.0.value.guard == guard
                             && r.1.rows == t.rows + [r.0.value]
  {
    if First(t.rows, ByName(name, guard)).Some? then (Failure(AlreadyExists(name, guard)), t)
    else
      var x := Record(t.nextId, name, guard);
      (Success(x), Table(t.rows + [x], t.nextId + 1))
  }

  /** Some row carries `(name, guard)`. */
  predicate HasKey(rows: seq<Record>, name: string, guard: string) {
    exists x :: x in rows && x.name == name && x.guard == guard
  }

  /** `findOrCreate` once the guard is known: the present record without a write, else one inserted row. */
  function FindOrCreateStep(t: Table, name: string, guard: string): (r: (Record, Table))
    ensures r.0.name == name && r.0.guard == guard && r.0 in r.1.rows
    ensures HasKey(t.rows, name, guard) ==> r.1 == t
    ensures !HasKey(t.rows, name, guard) ==> r.1.rows == t.rows + [r.0]
  {
    match First(t.rows, ByName(name, guard))
    case Some(x) => (x, t)
    case None =>
      var x := Record(t.nextId, name, guard);
      (x, Table(t.rows + [x], t.nextId + 1))
  }

  /** How many rows carry `(name, guard)`. */
  function CountKey(rows: seq<Record>, name: string, guard: string): nat {
    if rows == [] then 0
    else (if rows[0].name == name && rows[0].guard == guard then 1 else 0) + CountKey(rows[1..], name, guard)
  }

  lemma {:induction false} CountKeyAppend(rows: seq<Record>, x: Record, name: string, guard: string)
    ensures CountKey(rows + [x], name, guard)
            == CountKey(rows, name, guard) + (if x.name == name && x.guard == guard then 1 else 0)
  {
    if rows == [] {
      assert [x][1..] == [];
    } else {
      assert (rows + [x])[1..] == rows[1..] + [x];
      CountKeyAppend(rows[1..], x, name, guard);
    }
  }

  /** In a well-formed table a key is stored once, and a stored key is counted once. */
  lemma {:induction false} CountKeyUnique(rows: seq<Record>, name: string, guard: string)
    requires forall i, j :: 0 <= i < j < |rows| ==>
      !(rows[i].name == rows[j].name && rows[i].guard == rows[j].guard)
    ensures CountKey(rows, name, guard) == if exists x :: x in rows && x.name == name && x.guard == guard then 1 else 0
  {
    if rows != [] {
      CountKeyUnique(rows[1..], name, guard);
      if rows[0].name == name && rows[0].guard == guard {
        assert forall x :: x in rows[1..] ==> !(x.name == name && x.guard == guard) by {
          forall x | x in rows[1..] ensures !(x.name == name && x.guard == guard) {
            var j :| 0 <= j < |rows[1..]| && rows[1..][j] == x;
            assert rows[j + 1] == x;
          }
        }
      } else {
        assert forall x :: x in rows <==> x == rows[0] || x in rows[1..];
      }
    }
  }

  /** Appending a row whose key is absent keeps the table well formed. */
  lemma {:induction false} AppendFreshKeepsWellFormed(t: Table, name: string, guard: string)
    requires WellFormed(t)
    requires forall x :: x in t.rows ==> !(x.name == name && x.guard == guard)
    ensures WellFormed(Table(t.rows + [Record(t.nextId, name, guard)], t.nextId + 1))
  {
    var rows := t.rows + [Record(t.nextId, name, guard)];
    forall i, j | 0 <= i < j < |rows|
      ensures !(rows[i].name == rows[j].name && rows[i].guard == rows[j].guard)
    {
      if j == |t.rows| {
        assert rows[i] in t.rows;
      }
    }
  }

  /** `create` keeps `(name, guard)` unique. */
  lemma {:induction false} CreateKeepsWellFormed(t: Table, name: string, guard: string)
    requires WellFormed(t)
    ensures WellFormed(CreateStep(t, name, guard).1)
  {
    if CreateStep(t, name, guard).0.Success? {
      AppendFreshKeepsWellFormed(t, name, guard);
    }
  }

  /** `findOrCreate` keeps `(name, guard)` unique. */
  lemma {:induction false} FindOrCreateKeepsWellFormed(t: Table, name: string, guard: string)
    requires WellFormed(t)
    ensures WellFormed(FindOrCreateStep(t, name, guard).1)
  {
    if First(t.rows, ByName(name, guard)).None? {
      AppendFreshKeepsWellFormed(t, name, guard);
    }
  }

  /** A successful `create` leaves exactly one row with that name and guard. */
  lemma {:induction false} CreateAddsExactlyOne(t: Table, name: string, guard: string)
    requires WellFormed(t)
    requires forall x :: x in t.rows ==> !(x.name == name && x.guard == guard)
    ensures var (r, t') := CreateStep(t, name, guard);
      r.Success? && |t'.rows| == |t.rows| + 1 && CountKey(t'.rows, name, guard) == 1
  {
    var (r, t') := CreateStep(t, name, guard);
    CountKeyUnique(t.rows, name, guard);
    CountKeyAppend(t.rows, r.value, name, guard);
  }

  /** Creating the same `(name, guard)` twice fails the second time and leaves one row. */
  lemma {:induction false} CreateTwiceFails(t: Table, name: string, guard: string)
    requires WellFormed(t)
    ensures var (_, t1) := CreateStep(t, name, guard);
      var (r2, t2) := CreateStep(t1, name, guard);
      r2 == Failure(AlreadyExists(name, guard)) && t2 == t1 && CountKey(t2.rows, name, guard) == 1
  {
    var (r1, t1) := CreateStep(t, name, guard);
    CreateKeepsWellFormed(t, name, guard);
    if r1.Success? {
      assert r1.value in t1.rows;
    }
    CountKeyUnique(t1.rows, name, guard);
  }

  /** `findOrCreate` leaves every stored row where it was. */
  lemma {:induction false} FindOrCreateKeepsRow(t: Table, name: string, guard: string, k: nat)
    requires k < |t.rows|
    ensures var t1 := FindOrCreateStep(t, name, guard).1;
      k < |t1.rows| && t1.rows[k] == t.rows[k]
  {
  }

  /** `findOrCreate` is idempotent: the second call returns the same record and writes nothing. */
  lemma {:induction false} FindOrCreateIdempotent(t: Table, name: string, guard: string)
    requires WellFormed(t)
    ensures var (x1, t1) := FindOrCreateStep(t, name, guard);
      var (x2, t2) := FindOrCreateStep(t1, name, guard);
      x2 == x1 && t2 == t1 && CountKey(t1.rows, name, guard) == 1
  {
    var (x1, t1) := FindOrCreateStep(t, name, guard);
    FindOrCreateKeepsWellFormed(t, name, guard);
    var x2 := First(t1.rows, ByName(name, guard)).value;
    var i :| 0 <= i < |t1.rows| && t1.rows[i] == x2;
    var k :| 0 <= k < |t1.rows| && t1.rows[k] == x1;
    assert i == k;
    CountKeyUnique(t1.rows, name, guard);
  }

  /** Creating `(name, g2)` neither answers nor hides a lookup of `(name, g1)` when the guards differ. */
  lemma {:induction false} GuardIsolation(t: Table, name: string, g1: string, g2: string)
    requires g1 != g2
    ensures LookupByName(CreateStep(t, name, g2).1.rows, name, g1) == LookupByName(t.rows, name, g1)
    ensures LookupByName(FindOrCreateStep(t, name, g2).1.rows, name, g1) == LookupByName(t.rows, name, g1)
  {
    var x := Record(t.nextId, name, g2);
    OtherGuardInvisible(t.rows, x, ByName(name, g1));
  }

  /**
   * The permissions as the application sees them: the stored table and the
   * register's snapshot of it, which is absent until the first lookup and
   * again after every write.
   */
  class PermissionStore {
    const env: GuardResolver.Env
    const modelClass: string
    var table: Table
    var cache: Option<seq<Record>>

    /** Keys are unique, and a snapshot, when present, is the stored rows. */
    ghost predicate Valid()
      reads this
    {
      WellFormed(table) && (cache.Some? ==> cache.value == table.rows)
    }

    constructor (env: GuardResolver.Env, modelClass: string, stored: Table)
      requires WellFormed(stored)
      ensures Valid()
      ensures this.env == env && this.modelClass == modelClass && table == stored && cache == None
    {
      this.env := env;
      this.modelClass := modelClass;
      table := stored;
      cache := None;
    }

    /** `forgetCachedPermissions`: the snapshot is dropped and rebuilt on the next lookup. */
    method Forget()
      requires Valid()
      modifies this`cache
      ensures Valid() && table == old(table) && cache == None
    {
      cache := None;
    }

    /** `getPermissions($params)`: served from the snapshot, which is loaded from storage when absent. */
    method GetPermissions(q: Query) returns (found: seq<Record>)
      requires Valid()
      modifies this`cache
      ensures Valid() && table == old(table) && cache == Some(table.rows)
      ensures found == Filter(table.rows, q)
    {
      if cache.None? {
        cache := Some(table.rows);
      }
      found := Filter(cache.value, q);
    }

    /**
     * `static::query()->create(...)`: a new model is constructed with the
     * given name and guard and stored under the next id; saving it drops the
     * snapshot.
     */
    method Insert(name: string, guard: string) returns (x: Record)
      requires Valid()
      requires forall y :: y in table.rows ==> !(y.name == name && y.guard == guard)
      modifies this
      ensures Valid() && cache == None
      ensures x == Record(old(table.nextId), name, guard)
      ensures table == Table(old(table.rows) + [x], old(table.nextId) + 1)
    {
      var attrs := Construct(Attributes(name, Some(guard)), env.defaultGuard);
      x := Record(table.nextId, attrs.name, attrs.guard.value);
      AppendFreshKeepsWellFormed(table, name, guard);
      table := Table(table.rows + [x], table.nextId + 1);
      cache := None;
    }

    /** `findByName`: the cached match under the resolved guard, or `PermissionDoesNotExist`. */
    method FindByName(name: string, guard: Option<string>) returns (r: Result<Record, RegistryError>)
      requires Valid()
      modifies this`cache
      ensures Valid() && table == old(table)
      ensures r == LookupByName(table.rows, name, GuardResolver.GuardOrDefault(env, modelClass, guard))
    {
      var g := GuardResolver.GuardOrDefault(env, modelClass, guard);
      var found := GetPermissions(ByName(name, g));
      FirstIsHeadOfFilter(table.rows, ByName(name, g));
      if found == [] {
        r := Failure(DoesNotExistNamed(name, g));
      } else {
        r := Success(found[0]);
      }
    }

    /** `findById`: the cached row with that id under the resolved guard, or `PermissionDoesNotExist`. */
    method FindById(id: int, guard: Option<string>) returns (r: Result<Record, RegistryError>)
      requires Valid()
      modifies this`cache
      ensures Valid() && table == old(table)
      ensures r == LookupById(table.rows, id, GuardResolver.GuardOrDefault(env, modelClass, guard))
    {
      var g := GuardResolver.GuardOrDefault(env, modelClass, guard);
      var found := GetPermissions(ById(id, g));
      FirstIsHeadOfFilter(table.rows, ById(id, g));
      if found == [] {
        r := Failure(DoesNotExistWithId(id, g));
      } else {
        r := Success(found[0]);
      }
    }

    /** `create`: rejects a present `(name, guard)` before inserting; only an insert drops the snapshot. */
    method Create(name: string, guard: Option<string>) returns (r: Result<Record, RegistryError>)
      requires Valid()
      modifies this
      ensures Valid()
      ensures (r, table) == CreateStep(old(table), name, GuardResolver.GuardOrDefault(env, modelClass, guard))
      ensures r.Success? ==> cache == None
      ensures r.Failure? ==> cache == Some(table.rows)
    {
      var g := GuardResolver.GuardOrDefault(env, modelClass, guard);
      var found := GetPermissions(ByName(name, g));
      FirstIsHeadOfFilter(table.rows, ByName(name, g));
      if found != [] {
        return Failure(AlreadyExists(name, g));
      }
      var x := Insert(name, g);
      r := Success(x);
    }

    /** `findOrCreate`: the cached match, or a newly inserted row. */
    method FindOrCreate(name: string, guard: Option<string>) returns (x: Record)
      requires Valid()
      modifies this
      ensures Valid()
      ensures (x, table) == FindOrCreateStep(old(table), name, GuardResolver.GuardOrDefault(env, modelClass, guard))
    {
      var g := GuardResolver.GuardOrDefault(env, modelClass, guard);
      var found := GetPermissions(ByName(name, g));
      FirstIsHeadOfFilter(table.rows, ByName(name, g));
      if found != [] {
        return found[0];
      }
      x := Insert(name, g);
    }
  }
}
