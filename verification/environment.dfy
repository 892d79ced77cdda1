/** The newer generation's variable environment: a chain of frames, each
    mapping names to values, searched from the innermost frame outwards.
    The shared, mutable frames of the source become an immutable sequence,
    innermost frame first; operations that change a frame return the new
    chain. The stored value type is a parameter. */
module Environment {
  import opened Basics
  import opened Tokens
  import opened Errors

  type Frame<V> = map<string, V>

  /** A frame and its enclosing frames, innermost first; there is always
      at least the frame itself. */
  type Env<V> = chain: seq<Frame<V>> | |chain| > 0 witness [map[]]

  /** `env_new`: an empty frame, enclosed by `enclosing` when given. */
  function New<V>(enclosing: Option<Env<V>>): (e: Env<V>)
    ensures |e[0]| == 0
    ensures enclosing.None? ==> |e| == 1
    ensures enclosing.Some? ==> e[1..] == enclosing.value
  {
    match enclosing
    case None => [map[]]
    case Some(outer) => [map[]] + outer
  }

  function UndefinedMessage(id: string): string
  {
    "Undefined variable '" + id + "'."
  }

  /** The error for a name no frame binds, reported at the name's line. */
  function Undefined(name: Token): RuntimeError
    requires name.lexeme.Identifier?
  {
    RuntimeError(name.line, UndefinedMessage(IdentifierName(name)))
  }

  /** `env_define`: binds the name in the innermost frame, replacing any
      binding it had there; the enclosing frames are untouched. */
  function Define<V>(env: Env<V>, name: Token, value: V): (r: Env<V>)
    requires name.lexeme.Identifier?
    ensures |r| == |env| && r[1..] == env[1..]
    ensures IdentifierName(name) in r[0] && r[0][IdentifierName(name)] == value
    ensures forall id :: id in env[0] && id != IdentifierName(name) ==> id in r[0] && r[0][id] == env[0][id]
    ensures r[0].Keys == env[0].Keys + {IdentifierName(name)}
  {
    [env[0][IdentifierName(name) := value]] + env[1..]
  }

  /** `env_assign`: rebinds the name in the innermost frame that binds it;
      a name no frame binds is an error and nothing changes. */
  function Assign<V>(env: Env<V>, name: Token, value: V): (r: Result<Env<V>, RuntimeError>)
    requires name.lexeme.Identifier?
    ensures r.Err? <==> Nearest(env, IdentifierName(name)).None?
    ensures r.Err? ==> r.error == Undefined(name)
    ensures r.Ok? ==> |r.value| == |env|
    ensures r.Ok? ==> var at := Nearest(env, IdentifierName(name)).value;
      && r.value[at] == env[at][IdentifierName(name) := value]
      && (forall k :: 0 <= k < |env| && k != at ==> r.value[k] == env[k])
    decreases |env|
  {
    var id := IdentifierName(name);
    if id in env[0] then Ok([env[0][id := value]] + env[1..])
    else if |env| == 1 then Err(Undefined(name))
    else
      match Assign(env[1..], name, value)
      case Err(e) => Err(e)
      case Ok(rest) => Ok([env[0]] + rest)
  }

  /** `env_get`: the value bound in the innermost frame that binds the
      name, or an error naming it. */
  function Get<V>(env: Env<V>, name: Token): (r: Result<V, RuntimeError>)
    requires name.lexeme.Identifier?
    ensures r.Ok? <==> Nearest(env, IdentifierName(name)).Some?
    ensures r.Ok? ==> r.value == env[Nearest(env, IdentifierName(name)).value][IdentifierName(name)]
    ensures r.Err? ==> r.error == Undefined(name)
    decreases |env|
  {
    var id := IdentifierName(name);
    if id in env[0] then Ok(env[0][id])
    else if |env| == 1 then Err(Undefined(name))
    else Get(env[1..], name)
  }

  // ---------------------------------------------------------------------
  // Properties relating the operations

  /** A defined name reads back as the value it was given. */
  lemma DefineThenGet<V>(env: Env<V>, name: Token, value: V)
    requires name.lexeme.Identifier?
    ensures Get(Define(env, name, value), name) == Ok(value)
  {
  }

  /** Defining one name does not change what any other name reads as. */
  lemma DefineKeepsOthers<V>(env: Env<V>, name: Token, other: Token, value: V)
    requires name.lexeme.Identifier? && other.lexeme.Identifier?
    requires IdentifierName(other) != IdentifierName(name)
    ensures Get(Define(env, name, value), other) == Get(env, other)
  {
    var r := Define(env, name, value);
    var id := IdentifierName(other);
    assert forall k :: 0 <= k < |env| ==> (id in r[k] <==> id in env[k]);
    NearestAgrees(r, env, id);
  }

  /** An assignment that succeeds is seen by the next read of that name. */
  lemma AssignThenGet<V>(env: Env<V>, name: Token, value: V)
    requires name.lexeme.Identifier?
    requires Assign(env, name, value).Ok?
    ensures Get(Assign(env, name, value).value, name) == Ok(value)
  {
    var r := Assign(env, name, value).value;
    var id := IdentifierName(name);
    AssignKeepsKeys(env, name, value);
    NearestAgrees(r, env, id);
  }

  /** Assignment never creates a binding: every frame keeps its set of
      names, so every name's nearest frame stays where it was. */
  lemma AssignKeepsKeys<V>(env: Env<V>, name: Token, value: V)
    requires name.lexeme.Identifier?
    requires Assign(env, name, value).Ok?
    ensures forall k :: 0 <= k < |env| ==> Assign(env, name, value).value[k].Keys == env[k].Keys
  {
  }

  /** A name that no frame binds cannot be assigned; the error is reported
      at the name's line. */
  lemma AssignUndefinedFails<V>(env: Env<V>, name: Token, value: V)
    requires name.lexeme.Identifier?
    requires forall k :: 0 <= k < |env| ==> IdentifierName(name) !in env[k]
    ensures Assign(env, name, value) == Err(RuntimeError(name.line, "Undefined variable '" + IdentifierName(name) + "'."))
    ensures Get(env, name) == Err(RuntimeError(name.line, "Undefined variable '" + IdentifierName(name) + "'."))
  {
  }

  /** A fresh frame sees exactly what its enclosing chain sees. */
  lemma NewScopeSeesEnclosing<V>(outer: Env<V>, name: Token)
    requires name.lexeme.Identifier?
    ensures Get(New(Some(outer)), name) == Get(outer, name)
  {
  }

  /** A definition in an inner frame shadows the enclosing binding
      without touching it: once the inner frame is dropped the enclosing
      value is back. */
  lemma ShadowingIsLocal<V>(outer: Env<V>, name: Token, value: V)
    requires name.lexeme.Identifier?
    ensures var inner := Define(New(Some(outer)), name, value);
      && Get(inner, name) == Ok(value)
      && inner[1..] == outer
  {
  }

  /** Assigning through an inner frame to a name only the enclosing chain
      binds changes the enclosing chain and leaves the inner frame as it
      was. */
  lemma AssignReachesEnclosing<V>(inner: Frame<V>, outer: Env<V>, name: Token, value: V)
    requires name.lexeme.Identifier?
    requires IdentifierName(name) !in inner
    ensures var r := Assign([inner] + outer, name, value);
      && (r.Ok? <==> Assign(outer, name, value).Ok?)
      && (r.Ok? ==> r.value == [inner] + Assign(outer, name, value).value)
  {
    var chain: Env<V> := [inner] + outer;
    assert chain[1..] == outer;
  }
}
