/** The older generation's scope chain: the interpreter's variables,
    held in frames that map names to values, searched from the innermost
    frame outwards. Frames the source shares between scopes are copied
    here (a block's frames are a fresh chain whose tail is the enclosing
    chain); operations that change a frame return the new chain.

    The interpreter's `RuntimeError` has the same fields and the same
    display form as the newer generation's, so `Errors` serves both. */
module InterpreterEnvironment {
  import opened Basics
  import opened ParserExpression
  import opened Errors

  type Frame = map<string, Value>

  /** A frame and its enclosing frames, innermost first; there is always
      at least the frame itself. */
  type Environment = chain: seq<Frame> | |chain| > 0 witness [map[]]

  /** `Environment::new`: one frame, binding nothing, with no enclosing
      frame. */
  function New(): (e: Environment)
    ensures |e| == 1 && e[0].Keys == {}
  {
    [map[]]
  }

  /** `Environment::new_with_scope`: an empty frame enclosed by `outer`. */
  function NewWithScope(outer: Environment): (e: Environment)
    ensures |e| == |outer| + 1 && e[0].Keys == {}
    ensures e[1..] == outer
  {
    [map[]] + outer
  }

  /** The error for a name no frame binds. */
  function DoesNotExist(name: string): RuntimeError
  {
    RuntimeError(0, "Variable \"" + name + "\" does not exist")
  }

  /** `define`: binds the name in the innermost frame, replacing any
      binding it had there; the enclosing frames are untouched. */
  function Define(env: Environment, name: string, value: Value): (r: Environment)
    ensures |r| == |env| && r[1..] == env[1..]
    ensures name in r[0] && r[0][name] == value
    ensures forall id :: id in env[0] && id != name ==> id in r[0] && r[0][id] == env[0][id]
    ensures r[0].Keys == env[0].Keys + {name}
  {
    [env[0][name := value]] + env[1..]
  }

  /** `assign`: rebinds the name in the innermost frame that binds it,
      asking the enclosing frame when this one does not; a name no frame
      binds is an error. */
  function Assign(env: Environment, name: string, value: Value): (r: Result<Environment, RuntimeError>)
    ensures r.Err? <==> Nearest(env, name).None?
    ensures r.Err? ==> r.error == DoesNotExist(name)
    ensures r.Ok? ==> |r.value| == |env|
    ensures r.Ok? ==> var at := Nearest(env, name).value;
      && r.value[at] == env[at][name := value]
      && (forall k :: 0 <= k < |env| && k != at ==> r.value[k] == env[k])
    decreases |env|
  {
    if name in env[0] then Ok([env[0][name := value]] + env[1..])
    else if |env| == 1 then Err(DoesNotExist(name))
    else
      match Assign(env[1..], name, value)
      case Err(e) => Err(e)
      case Ok(rest) => Ok([env[0]] + rest)
  }

  /** `retrieve`: the value in the innermost frame that binds the name,
      or the error naming it. */
  function Retrieve(env: Environment, name: string): (r: Result<Value, RuntimeError>)
    ensures r.Ok? <==> Nearest(env, name).Some?
    ensures r.Ok? ==> r.value == env[Nearest(env, name).value][name]
    ensures r.Err? ==> r.error == DoesNotExist(name)
    decreases |env|
  {
    if name in env[0] then Ok(env[0][name])
    else if |env| == 1 then Err(DoesNotExist(name))
    else Retrieve(env[1..], name)
  }

  // ---------------------------------------------------------------------
  // Properties relating the operations

  /** A new environment binds nothing: every lookup fails. */
  lemma NewIsEmpty(name: string)
    ensures Retrieve(New(), name) == Err(DoesNotExist(name))
  {
  }

  /** A defined name reads back as the value it was given. */
  lemma DefineThenRetrieve(env: Environment, name: string, value: Value)
    ensures Retrieve(Define(env, name, value), name) == Ok(value)
  {
  }

  /** Defining one name does not change what any other name reads as. */
  lemma DefineKeepsOthers(env: Environment, name: string, other: string, value: Value)
    requires other != name
    ensures Retrieve(Define(env, name, value), other) == Retrieve(env, other)
  {
    var r := Define(env, name, value);
    assert forall k :: 0 <= k < |env| ==> (other in r[k] <==> other in env[k]);
    NearestAgrees(r, env, other);
  }

  /** Assignment never adds a name to any frame. */
  lemma AssignKeepsKeys(env: Environment, name: string, value: Value)
    requires Assign(env, name, value).Ok?
    ensures forall k :: 0 <= k < |env| ==> Assign(env, name, value).value[k].Keys == env[k].Keys
  {
  }

  /** An assignment that succeeds is seen by the next lookup of that
      name. */
  lemma AssignThenRetrieve(env: Environment, name: string, value: Value)
    requires Assign(env, name, value).Ok?
    ensures Retrieve(Assign(env, name, value).value, name) == Ok(value)
  {
    AssignKeepsKeys(env, name, value);
    NearestAgrees(Assign(env, name, value).value, env, name);
  }

  /** Assignment succeeds exactly when a lookup of the name would. */
  lemma AssignWhereRetrieves(env: Environment, name: string, value: Value)
    ensures Assign(env, name, value).Ok? <==> Retrieve(env, name).Ok?
  {
  }

  /** A name that no frame binds can be neither assigned nor read, and
      both report the same error. */
  lemma UndefinedFails(env: Environment, name: string, value: Value)
    requires forall k :: 0 <= k < |env| ==> name !in env[k]
    ensures Assign(env, name, value) == Err(RuntimeError(0, "Variable \"" + name + "\" does not exist"))
    ensures Retrieve(env, name) == Err(RuntimeError(0, "Variable \"" + name + "\" does not exist"))
  {
  }

  /** A fresh scope sees exactly what its enclosing chain sees. */
  lemma NewScopeSeesEnclosing(outer: Environment, name: string)
    ensures Retrieve(NewWithScope(outer), name) == Retrieve(outer, name)
  {
  }

  /** A definition in an inner scope shadows the enclosing binding without
      touching it: dropping the inner frame gives the enclosing chain
      back. */
  lemma ShadowingIsLocal(outer: Environment, name: string, value: Value)
    ensures var inner := Define(NewWithScope(outer), name, value);
      && Retrieve(inner, name) == Ok(value)
      && inner[1..] == outer
  {
  }

  /** Assigning through an inner frame to a name only the enclosing chain
      binds changes the enclosing chain and leaves the inner frame as it
      was. */
  lemma AssignReachesEnclosing(inner: Frame, outer: Environment, name: string, value: Value)
    requires name !in inner
    ensures var r := Assign([inner] + outer, name, value);
      && (r.Ok? <==> Assign(outer, name, value).Ok?)
      && (r.Ok? ==> r.value == [inner] + Assign(outer, name, value).value)
  {
    var chain: Environment := [inner] + outer;
    assert chain[1..] == outer;
  }
}
