/** MOOSE's object registry (framework/include/base/Factory.h): object names are registered
    with the type they build, optionally restricted to a set of registerable names, with
    registration sites and deprecation data kept beside them. */
module Factories {
  import opened Wrappers

  /** The C++ type an object name builds; stands for the `buildObject<T>` and
      `validParams<T>` pointers registered together. */
  type TypeName = string

  /** One `_name_to_line.addInfo(name, file, line)` record. */
  datatype LineInfo = LineInfo(name: string, file: string, line: int)

  /** The registry's state: `_registerable_objects`, `_name_to_build_pointer`,
      `_name_to_params_pointer`, the registration sites, `_deprecated_time` (times as
      `parseTime` returns them) and `_deprecated_name`. */
  datatype Registry = Registry(
    registerable: set<string>,
    build: map<string, TypeName>,
    params: map<string, TypeName>,
    lines: seq<LineInfo>,
    deprecatedTime: map<string, int>,
    deprecatedName: map<string, string>)

  /** The errors the registry raises with `mooseError`; `NotRegistered` stands for the
      untyped `create`'s own check. */
  datatype FactoryError =
    | AlreadyRegistered(name: string)
    | NotRegistered(name: string)
    | WrongType(expected: TypeName, objName: string)

  /** The text `mooseError` reports for each error. The already-registered and wrong-type
      texts are the header's own; the not-registered one is raised by the lookup in
      framework/src/base/Factory.C, which is not part of this model, so its wording is
      assumed. */
  function Message(e: FactoryError): string
  {
    match e
    case AlreadyRegistered(name) => "Object '" + name + "' already registered."
    case NotRegistered(name) => "'" + name + "' is not a registered object."
    case WrongType(expected, objName) =>
      "We expected to create an object of type '" + expected + "'.\nInstead we received a parameters object for type '"
      + objName + "'.\nDid you call the wrong \"add\" method in your Action?"
  }

  /** The build map and the params map are filled together, with the same type. */
  predicate Consistent(r: Registry)
  {
    r.build == r.params
  }

  /** A name may be registered when there is no restriction or the restriction lists it. */
  predicate Allowed(r: Registry, name: string)
  {
    |r.registerable| == 0 || name in r.registerable
  }

  /** `reg<T>(name, file, line)`: a new allowed name enters both maps; an allowed name that is
      already there is an error that stops before anything changes; a name the restriction
      excludes is skipped silently. The site is recorded unless there was an error. */
  function Reg(r: Registry, name: string, t: TypeName, file: string, line: int): (out: Result<Registry, FactoryError>)
    ensures out.Err? <==> Allowed(r, name) && name in r.build
    ensures out.Err? ==> out.error == AlreadyRegistered(name)
    ensures out.Ok? ==> out.value.lines == r.lines + [LineInfo(name, file, line)]
    ensures out.Ok? ==> (out.value.registerable == r.registerable
      && out.value.deprecatedTime == r.deprecatedTime && out.value.deprecatedName == r.deprecatedName)
  {
    var r' := r.(lines := r.lines + [LineInfo(name, file, line)]);
    if Allowed(r, name) then
      if name in r.build then Err(AlreadyRegistered(name))
      else Ok(r'.(build := r.build[name := t], params := r.params[name := t]))
    else Ok(r')
  }

  /** Registration keeps the two maps in step. */
  lemma {:induction false} RegConsistent(r: Registry, name: string, t: TypeName, file: string, line: int)
    requires Consistent(r)
    ensures Reg(r, name, t, file, line).Ok? ==> Consistent(Reg(r, name, t, file, line).value)
  {
  }

  /** A new, allowed name builds the registered type afterwards, and every other name builds
      what it built before. */
  lemma {:induction false} RegAdds(r: Registry, name: string, t: TypeName, file: string, line: int)
    requires Allowed(r, name) && name !in r.build
    ensures var out := Reg(r, name, t, file, line);
      out.Ok? && out.value.build.Keys == r.build.Keys + {name} && out.value.build[name] == t
      && out.value.params[name] == t
      && forall n :: n in r.build ==> out.value.build[n] == r.build[n]
  {
  }

  /** Registering the same allowed name twice fails the second time, with the registry as
      the first call left it. */
  lemma {:induction false} RegTwiceFails(r: Registry, name: string, t: TypeName, t2: TypeName, file: string, line: int, file2: string, line2: int)
    requires Allowed(r, name)
    ensures var once := Reg(r, name, t, file, line);
      once.Ok? ==> Reg(once.value, name, t2, file2, line2) == Err(AlreadyRegistered(name))
  {
    var once := Reg(r, name, t, file, line);
    if once.Ok? {
      assert name in once.value.build;
      assert once.value.registerable == r.registerable;
    }
  }

  /** A name the restriction excludes registers nothing and raises nothing; only its site is
      recorded. */
  lemma {:induction false} RegSkipped(r: Registry, name: string, t: TypeName, file: string, line: int)
    requires !Allowed(r, name)
    ensures Reg(r, name, t, file, line) == Ok(r.(lines := r.lines + [LineInfo(name, file, line)]))
  {
  }

  /** `regDeprecated<T>`: register, then record the expiry time under the name, also when the
      restriction skipped it. */
  function RegDeprecated(r: Registry, name: string, t: TypeName, time: int, file: string, line: int): (out: Result<Registry, FactoryError>)
    ensures out.Err? <==> Reg(r, name, t, file, line).Err?
    ensures out.Ok? ==> out.value.deprecatedTime == r.deprecatedTime[name := time]
  {
    match Reg(r, name, t, file, line)
    case Err(e) => Err(e)
    case Ok(r') => Ok(r'.(deprecatedTime := r'.deprecatedTime[name := time]))
  }

  /** The expiry time is recorded even for a name the restriction does not register. */
  lemma {:induction false} DeprecatedTimeWithoutRegistration(r: Registry, name: string, t: TypeName, time: int, file: string, line: int)
    requires !Allowed(r, name) && name !in r.build
    ensures var out := RegDeprecated(r, name, t, time, file, line);
      out.Ok? && name !in out.value.build && out.value.deprecatedTime[name] == time
  {
  }

  /** `regReplaced<T>(obj_name, name, ...)`: the deprecated `name` is registered as
      deprecated, then mapped to its replacement `obj_name`. */
  function RegReplaced(r: Registry, objName: string, name: string, t: TypeName, time: int, file: string, line: int): (out: Result<Registry, FactoryError>)
    ensures out.Err? <==> Reg(r, name, t, file, line).Err?
    ensures out.Ok? ==> (out.value.deprecatedName == r.deprecatedName[name := objName]
      && out.value.deprecatedTime == r.deprecatedTime[name := time])
  {
    match RegDeprecated(r, name, t, time, file, line)
    case Err(e) => Err(e)
    case Ok(r') => Ok(r'.(deprecatedName := r'.deprecatedName[name := objName]))
  }

  /** The replaced name, not the replacement, is the one registered. */
  lemma {:induction false} RegReplacedRegistersOldName(r: Registry, objName: string, name: string, t: TypeName, time: int, file: string, line: int)
    requires Allowed(r, name) && name !in r.build && objName != name && objName !in r.build
    ensures var out := RegReplaced(r, objName, name, t, time, file, line);
      out.Ok? && name in out.value.build && objName !in out.value.build
      && out.value.deprecatedName[name] == objName
  {
  }

  class Factory {
    const registerable: set<string>
    var buildPointers: map<string, TypeName>
    var paramsPointers: map<string, TypeName>
    var lineInfo: seq<LineInfo>
    var deprecatedTime: map<string, int>
    var deprecatedName: map<string, string>

    /** The registry this object holds. */
    ghost function State(): Registry
      reads this
    {
      Registry(registerable, buildPointers, paramsPointers, lineInfo, deprecatedTime, deprecatedName)
    }

    ghost predicate Valid()
      reads this
    {
      Consistent(State())
    }

    /** An empty factory whose registrations are restricted to `names` when that is not
        empty. */
    constructor(names: set<string>)
      ensures Valid() && State() == Registry(names, map[], map[], [], map[], map[])
    {
      registerable := names;
      buildPointers, paramsPointers, lineInfo := map[], map[], [];
      deprecatedTime, deprecatedName := map[], map[];
    }

    method Register(name: string, t: TypeName, file: string, line: int) returns (err: Option<FactoryError>)
      requires Valid()
      modifies this
      ensures Valid()
      ensures var out := Reg(old(State()), name, t, file, line);
        (err.Some? <==> out.Err?) && (out.Err? ==> err.value == out.error && State() == old(State()))
        && (out.Ok? ==> State() == out.value)
    {
      if |registerable| == 0 || name in registerable {
        if name !in buildPointers {
          buildPointers := buildPointers[name := t];
          paramsPointers := paramsPointers[name := t];
        } else {
          return Some(AlreadyRegistered(name));
        }
      }
      lineInfo := lineInfo + [LineInfo(name, file, line)];
      return None;
    }

    method RegisterDeprecated(name: string, t: TypeName, time: int, file: string, line: int) returns (err: Option<FactoryError>)
      requires Valid()
      modifies this
      ensures Valid()
      ensures var out := RegDeprecated(old(State()), name, t, time, file, line);
        (err.Some? <==> out.Err?) && (out.Err? ==> err.value == out.error && State() == old(State()))
        && (out.Ok? ==> State() == out.value)
    {
      err := Register(name, t, file, line);
      if err.None? {
        deprecatedTime := deprecatedTime[name := time];
      }
    }

    method RegisterReplaced(objName: string, name: string, t: TypeName, time: int, file: string, line: int) returns (err: Option<FactoryError>)
      requires Valid()
      modifies this
      ensures Valid()
      ensures var out := RegReplaced(old(State()), objName, name, t, time, file, line);
        (err.Some? <==> out.Err?) && (out.Err? ==> err.value == out.error && State() == old(State()))
        && (out.Ok? ==> State() == out.value)
    {
      err := RegisterDeprecated(name, t, time, file, line);
      if err.None? {
        deprecatedName := deprecatedName[name := objName];
      }
    }

    /** `create<T>`: the object built for `objName` must be a `T` (`isA` stands for the
        `dynamic_pointer_cast`), otherwise it is an error. */
    method Create(objName: string, expected: TypeName, isA: (TypeName, TypeName) -> bool) returns (r: Result<TypeName, FactoryError>)
      ensures objName !in buildPointers ==> r == Err(NotRegistered(objName))
      ensures objName in buildPointers && isA(buildPointers[objName], expected) ==> r == Ok(buildPointers[objName])
      ensures objName in buildPointers && !isA(buildPointers[objName], expected) ==> r == Err(WrongType(expected, objName))
    {
      if objName !in buildPointers {
        return Err(NotRegistered(objName));
      }
      var built := buildPointers[objName];
      if !isA(built, expected) {
        return Err(WrongType(expected, objName));
      }
      return Ok(built);
    }
  }
}
