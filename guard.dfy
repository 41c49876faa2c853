/**
 * Guard-name resolution (src/Common/Guard.php). The configuration
 * (`auth.guards`, `auth.providers.*.model`, `auth.defaults.guard`) and the
 * reflection result (the default value of a class's `guard_name` property)
 * are plain inputs gathered in `Env`.
 */
module GuardResolver {
  import opened Wrappers
  import opened PhpStrings

  /** One entry of `auth.guards`: its key and its `provider` setting, when there is one. */
  datatype GuardEntry = GuardEntry(key: string, provider: Option<string>)

  datatype Env = Env(
    guards: seq<GuardEntry>,              // `auth.guards`, in configuration order
    providerModels: map<string, string>,  // `auth.providers.<provider>.model`, where set
    defaultGuard: Option<string>,         // `auth.defaults.guard`
    classGuards: map<string, string>)     // default of the `guard_name` property, for classes declaring a non-null one

  /** What `getNames` receives: an object (its class and its `guard_name` attribute) or a class name. */
  datatype Subject = Instance(cls: string, guardName: Option<string>) | ClassName(cls: string)

  /** The model class a guard's provider is configured with; null when the guard has no provider. */
  function ProviderModel(models: map<string, string>, entry: GuardEntry): Option<string> {
    match entry.provider
    case None => None
    case Some(p) => if p in models then Some(models[p]) else None
  }

  /**
   * The `map ... filter ... keys` pipeline: the keys of the configured guards
   * whose provider model is identical (`===`) to `cls`, in configuration order.
   */
  function ConfigMatches(guards: seq<GuardEntry>, models: map<string, string>, cls: Option<string>): (keys: seq<string>)
    ensures |keys| <= |guards|
    ensures forall k :: k in keys <==>
      exists i :: 0 <= i < |guards| && guards[i].key == k && ProviderModel(models, guards[i]) == cls
  {
    if guards == [] then []
    else
      var rest := ConfigMatches(guards[1..], models, cls);
      assert forall i :: 0 < i < |guards| ==> guards[i] == guards[1..][i - 1];
      if ProviderModel(models, guards[0]) == cls then [guards[0].key] + rest else rest
  }

  /** The config fallback keeps configuration order: it distributes over concatenation. */
  lemma {:induction false} ConfigMatchesConcat(g1: seq<GuardEntry>, g2: seq<GuardEntry>, models: map<string, string>, cls: Option<string>)
    ensures ConfigMatches(g1 + g2, models, cls) == ConfigMatches(g1, models, cls) + ConfigMatches(g2, models, cls)
  {
    if g1 == [] {
      assert g1 + g2 == g2;
    } else {
      assert (g1 + g2)[1..] == g1[1..] + g2;
      ConfigMatchesConcat(g1[1..], g2, models, cls);
    }
  }

  /** No guard's provider model is `cls`: the fallback is empty. */
  lemma {:induction false} NoMatchNoKeys(guards: seq<GuardEntry>, models: map<string, string>, cls: Option<string>)
    requires forall j :: 0 <= j < |guards| ==> ProviderModel(models, guards[j]) != cls
    ensures ConfigMatches(guards, models, cls) == []
  {
    if guards != [] {
      NoMatchNoKeys(guards[1..], models, cls);
    }
  }

  /**
   * The `guard_name` that `getNames` settles on before the config fallback:
   * the object's own attribute when it is set (not null), else the class default.
   */
  function DeclaredGuard(env: Env, subject: Subject): Option<string> {
    if subject.Instance? && subject.guardName.Some? then subject.guardName
    else if subject.cls in env.classGuards then Some(env.classGuards[subject.cls])
    else None
  }

  /**
   * The `$class` the filter at line 60 compares against, as written: it is
   * assigned only when the object has no `guard_name`, so an object whose
   * `guard_name` is set leaves it unassigned, which PHP evaluates as null.
   */
  function ClassAsWritten(subject: Subject): (cls: Option<string>)
    ensures cls.None? <==> subject.Instance? && subject.guardName.Some?
    ensures cls.Some? ==> cls.value == subject.cls
  {
    if subject.Instance? && subject.guardName.Some? then None else Some(subject.cls)
  }

  /**
   * `getNames` as written. When the object's `guard_name` is set but falsy
   * ("" or "0"), the config fallback runs with `$class` unassigned.
   */
  function GetNamesAsWritten(env: Env, subject: Subject): (names: seq<string>)
    ensures var d := DeclaredGuard(env, subject);
      d.Some? && Truthy(d.value) ==> names == [d.value]
    ensures var d := DeclaredGuard(env, subject);
      !(d.Some? && Truthy(d.value)) ==>
        forall k :: k in names <==>
          exists i :: 0 <= i < |env.guards| && env.guards[i].key == k
                      && ProviderModel(env.providerModels, env.guards[i]) == ClassAsWritten(subject)
  {
    var declared := DeclaredGuard(env, subject);
    if declared.Some? && Truthy(declared.value) then [declared.value]
    else ConfigMatches(env.guards, env.providerModels, ClassAsWritten(subject))
  }

  /**
   * `getNames` with `$class` always bound to the subject's class. A truthy
   * declared guard is the whole answer; otherwise the answer is the keys of the
   * configured guards whose provider model is that class, so a guard without a
   * provider is never returned.
   */
  function GetNames(env: Env, subject: Subject): (names: seq<string>)
    ensures var d := DeclaredGuard(env, subject);
      d.Some? && Truthy(d.value) ==> names == [d.value]
    ensures var d := DeclaredGuard(env, subject);
      !(d.Some? && Truthy(d.value)) ==>
        forall k :: k in names <==>
          exists i :: 0 <= i < |env.guards| && env.guards[i].key == k
                      && env.guards[i].provider.Some?
                      && env.guards[i].provider.value in env.providerModels
                      && env.providerModels[env.guards[i].provider.value] == subject.cls
  {
    var declared := DeclaredGuard(env, subject);
    if declared.Some? && Truthy(declared.value) then [declared.value]
    else ConfigMatches(env.guards, env.providerModels, Some(subject.cls))
  }

  /**
   * `getDefaultName`: the first name `getNames` (as written) resolves when it
   * is truthy, else the configured default guard cast to a string (null
   * becomes ""). Every caller passes a class name, where the written and the
   * corrected `getNames` agree (`AsWrittenAgrees`).
   */
  function GetDefaultName(env: Env, subject: Subject): (name: string)
    ensures (Truthy(name) && name in GetNamesAsWritten(env, subject)) || name == env.defaultGuard.GetOr("")
  {
    var names := GetNamesAsWritten(env, subject);
    if names != [] && Truthy(names[0]) then names[0] else env.defaultGuard.GetOr("")
  }

  /** A guard argument the caller left null becomes `Guard::getDefaultName` of the model class. */
  function GuardOrDefault(env: Env, cls: string, guard: Option<string>): (g: string)
    ensures guard.Some? ==> g == guard.value
    ensures guard.None? && cls in env.classGuards && Truthy(env.classGuards[cls]) ==> g == env.classGuards[cls]
    ensures guard.None? ==> (Truthy(g) && g in GetNames(env, ClassName(cls))) || g == env.defaultGuard.GetOr("")
  {
    AsWrittenAgrees(env, ClassName(cls));
    guard.GetOr(GetDefaultName(env, ClassName(cls)))
  }

  /** An object's own truthy `guard_name` wins over the class default and over the configuration. */
  lemma {:induction false} InstanceGuardWins(env: Env, cls: string, g: string)
    requires Truthy(g)
    ensures GetNames(env, Instance(cls, Some(g))) == [g]
    ensures GetDefaultName(env, Instance(cls, Some(g))) == g
  {
  }

  /** Without an object attribute, a truthy class default is the only name. */
  lemma {:induction false} ClassDefaultUsed(env: Env, subject: Subject)
    requires subject.ClassName? || subject.guardName.None?
    requires subject.cls in env.classGuards && Truthy(env.classGuards[subject.cls])
    ensures GetNames(env, subject) == [env.classGuards[subject.cls]]
    ensures GetDefaultName(env, subject) == env.classGuards[subject.cls]
  {
  }

  /**
   * With no truthy `guard_name` declared, the default name is the key of the
   * first configured guard whose provider model is `$class` (the class, or
   * null for an object whose falsy `guard_name` is set); a falsy key ("" or
   * "0") gives way to the configured default.
   */
  lemma {:induction false} DefaultNameFromConfig(env: Env, subject: Subject, i: nat)
    requires var d := DeclaredGuard(env, subject); !(d.Some? && Truthy(d.value))
    requires i < |env.guards| && ProviderModel(env.providerModels, env.guards[i]) == ClassAsWritten(subject)
    requires forall j :: 0 <= j < i ==> ProviderModel(env.providerModels, env.guards[j]) != ClassAsWritten(subject)
    ensures GetDefaultName(env, subject)
            == if Truthy(env.guards[i].key) then env.guards[i].key else env.defaultGuard.GetOr("")
  {
    var gs := env.guards;
    var m := env.providerModels;
    var c := ClassAsWritten(subject);
    assert gs == gs[..i] + gs[i..];
    ConfigMatchesConcat(gs[..i], gs[i..], m, c);
    NoMatchNoKeys(gs[..i], m, c);
    assert gs[i..][0] == gs[i];
  }

  /**
   * With no truthy `guard_name` declared and no guard whose provider model is
   * `$class`, the configured default is used.
   */
  lemma {:induction false} DefaultNameFallsBack(env: Env, subject: Subject)
    requires var d := DeclaredGuard(env, subject); !(d.Some? && Truthy(d.value))
    requires forall j :: 0 <= j < |env.guards| ==> ProviderModel(env.providerModels, env.guards[j]) != ClassAsWritten(subject)
    ensures GetDefaultName(env, subject) == env.defaultGuard.GetOr("")
  {
    NoMatchNoKeys(env.guards, env.providerModels, ClassAsWritten(subject));
  }

  /** For a class name, and for an object without a falsy attribute, the written code and `GetNames` agree. */
  lemma {:induction false} AsWrittenAgrees(env: Env, subject: Subject)
    requires subject.ClassName? || subject.guardName.None? || Truthy(subject.guardName.value)
    ensures GetNamesAsWritten(env, subject) == GetNames(env, subject)
  {
  }

  /**
   * The finding: an object whose `guard_name` is "" falls through to the
   * configuration with `$class` unbound, and a guard that has no provider is
   * returned, and so becomes its default name instead of the configured "web".
   */
  lemma {:induction false} ProviderlessGuardReturnedAsWritten()
    ensures var env := Env([GuardEntry("worker", None)], map[], Some("web"), map[]);
      var subject := Instance("App\\User", Some(""));
      && GetNamesAsWritten(env, subject) == ["worker"] && GetNames(env, subject) == []
      && GetDefaultName(env, subject) == "worker"
  {
    var env := Env([GuardEntry("worker", None)], map[], Some("web"), map[]);
    assert ConfigMatches(env.guards[1..], map[], None) == [];
    assert ConfigMatches(env.guards[1..], map[], Some("App\\User")) == [];
  }
}
