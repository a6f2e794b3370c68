/**
  The chain of scope frames of chapter-9/glox/lox/environment.go.

  A Go `Environment` is a frame (a `values` map) with a pointer to its
  enclosing frame. The model keeps the whole chain as a sequence of frames,
  innermost first: `env[0]` is the current frame's `values`, `env[1..]` is the
  chain its `enclosing` pointer leads to, and the last frame is the global one.
  The methods that update a frame in place become functions that return the
  updated chain; the interpreter stores the result back into its field.
*/
module Environment {
  import opened Values
  import opened Tokens
  import Wrappers

  type Frame = map<string, Value>
  type Env = seq<Frame>

  /** interpreter.go's RuntimeError: the token that caused it and a message. */
  datatype RuntimeError = RuntimeError(operator: Token, message: string)

  datatype Lookup = Found(value: Value) | Undefined(error: RuntimeError)

  /** What `Assign` leaves behind: the chain, and the error it returned, if any. */
  datatype Assigned = Assigned(env: Env, error: Wrappers.Option<RuntimeError>)

  function UndefinedVariable(name: Token): RuntimeError {
    RuntimeError(name, "Undefined variable '" + name.lexeme + "'.")
  }

  /** Some frame of the chain binds `x`. */
  predicate Defines(env: Env, x: string) {
    exists i :: 0 <= i < |env| && x in env[i]
  }

  /** Frame `i` is the innermost frame that binds `x`. */
  predicate InnermostAt(env: Env, x: string, i: int) {
    0 <= i < |env| && x in env[i] && forall j :: 0 <= j < i ==> x !in env[j]
  }

  /** NewEnvironment(enclosing): a frame with no bindings in front of `enclosing`. */
  function NewEnvironment(enclosing: Env): (env: Env)
    ensures |env| == |enclosing| + 1
  {
    [map[]] + enclosing
  }

  /** Define binds (or rebinds) `name` in the current frame only. */
  function Define(env: Env, name: string, value: Value): (r: Env)
    requires |env| > 0
    ensures |r| == |env|
  {
    env[0 := env[0][name := value]]
  }

  /**
    Get looks `name` up in the current frame and then outward along the chain;
    the result is the binding in the innermost frame that has one, and an
    undefined-variable error carrying the token when no frame has one.
  */
  function Get(env: Env, name: Token): (r: Lookup)
    ensures r.Found? <==> Defines(env, name.lexeme)
    ensures r.Found? ==> exists i :: InnermostAt(env, name.lexeme, i) && r.value == env[i][name.lexeme]
    ensures r.Undefined? ==> r.error == UndefinedVariable(name)
  {
    if env == [] then Undefined(UndefinedVariable(name))
    else if name.lexeme in env[0] then Found(env[0][name.lexeme])
    else
      var r := Get(env[1..], name);
      assert forall i :: 0 < i < |env| ==> env[i] == env[1..][i - 1];
      if r.Found? then
        var i :| InnermostAt(env[1..], name.lexeme, i) && r.value == env[1..][i][name.lexeme];
        assert InnermostAt(env, name.lexeme, i + 1);
        r
      else r
  }

  /** The index of the innermost frame that binds `x`, or `|env|` when none does. */
  function Innermost(env: Env, x: string): (i: nat)
    ensures i <= |env|
    ensures i < |env| <==> Defines(env, x)
    ensures i < |env| ==> InnermostAt(env, x, i)
  {
    if env == [] then 0
    else if x in env[0] then 0
    else
      assert forall i :: 0 < i < |env| ==> env[i] == env[1..][i - 1];
      1 + Innermost(env[1..], x)
  }

  /**
    Assign overwrites `name` in the innermost frame that already binds it and
    leaves every other frame as it was; when no frame binds it, nothing
    changes and the undefined-variable error is returned.
  */
  function Assign(env: Env, name: Token, value: Value): (r: Assigned)
    ensures |r.env| == |env|
    ensures r.error.None? <==> Defines(env, name.lexeme)
    ensures r.error.Some? ==> r.error.value == UndefinedVariable(name) && r.env == env
    ensures r.error.None? ==>
      var i := Innermost(env, name.lexeme);
      r.env == env[i := env[i][name.lexeme := value]]
  {
    if env == [] then Assigned(env, Wrappers.Some(UndefinedVariable(name)))
    else if name.lexeme in env[0] then Assigned(env[0 := env[0][name.lexeme := value]], Wrappers.None)
    else
      var rest := Assign(env[1..], name, value);
      assert Innermost(env, name.lexeme) == 1 + Innermost(env[1..], name.lexeme);
      Assigned([env[0]] + rest.env, rest.error)
  }

  /** A name just defined reads back as the value it was given, from the current frame. */
  lemma DefineThenGet(env: Env, name: Token, value: Value)
    requires |env| > 0
    ensures Get(Define(env, name.lexeme, value), name) == Found(value)
  {
  }

  /** Defining one name leaves every other name's lookup as it was. */
  lemma DefineKeepsOthers(env: Env, x: string, value: Value, name: Token)
    requires |env| > 0 && name.lexeme != x
    ensures Get(Define(env, x, value), name) == Get(env, name)
  {
    var env' := Define(env, x, value);
    if name.lexeme !in env[0] {
      assert env'[1..] == env[1..];
    }
  }

  /**
    Shadowing: a definition in a fresh inner frame hides an outer binding of
    the same name for lookups, and leaves the enclosing frames untouched, so
    dropping the inner frame brings the outer binding back.
  */
  lemma DefineShadows(env: Env, name: Token, value: Value)
    ensures var inner := Define(NewEnvironment(env), name.lexeme, value);
      Get(inner, name) == Found(value) && inner[1..] == env
  {
  }

  /** A frame with no bindings is transparent: lookups see through it to the enclosing chain. */
  lemma {:induction false} NewEnvironmentTransparent(env: Env, name: Token)
    ensures Get(NewEnvironment(env), name) == Get(env, name)
  {
    assert NewEnvironment(env)[1..] == env;
  }

  /** After a successful assignment, looking the name up gives the assigned value. */
  lemma {:induction false} AssignThenGet(env: Env, name: Token, value: Value)
    requires Defines(env, name.lexeme)
    ensures Get(Assign(env, name, value).env, name) == Found(value)
  {
    if name.lexeme !in env[0] {
      var rest := Assign(env[1..], name, value);
      assert Defines(env[1..], name.lexeme) by {
        var i :| 0 <= i < |env| && name.lexeme in env[i];
        assert i > 0 && env[1..][i - 1] == env[i];
      }
      AssignThenGet(env[1..], name, value);
      assert Assign(env, name, value).env[1..] == rest.env;
    }
  }

  /** Assigning one name leaves every other name's lookup as it was. */
  lemma {:induction false} AssignKeepsOthers(env: Env, x: Token, value: Value, name: Token)
    requires name.lexeme != x.lexeme
    ensures Get(Assign(env, x, value).env, name) == Get(env, name)
  {
    if env != [] && x.lexeme !in env[0] {
      var rest := Assign(env[1..], x, value);
      AssignKeepsOthers(env[1..], x, value, name);
      assert Assign(env, x, value).env[1..] == rest.env;
    }
  }

  /** Assign writes into the innermost frame that binds the name, whichever frame that is. */
  lemma AssignInnermost(env: Env, name: Token, value: Value, i: int)
    requires InnermostAt(env, name.lexeme, i)
    ensures Assign(env, name, value) == Assigned(env[i := env[i][name.lexeme := value]], Wrappers.None)
  {
    var j := Innermost(env, name.lexeme);
    assert InnermostAt(env, name.lexeme, j);
    assert !(j < i) && !(i < j);
  }

  /**
    An assignment reaches an enclosing frame only when no inner frame binds
    the name: with a binding in the current frame, the enclosing chain is
    left exactly as it was.
  */
  lemma AssignCurrentFrame(env: Env, name: Token, value: Value)
    requires |env| > 0 && name.lexeme in env[0]
    ensures Assign(env, name, value).env[1..] == env[1..]
    ensures Assign(env, name, value).env[0] == env[0][name.lexeme := value]
  {
  }

  /**
    Copy: a frame with the same bindings (filled in one key at a time, as the
    source's loop over the map does) and the same enclosing chain.
  */
  method Copy(env: Env) returns (r: Env)
    requires |env| > 0
    ensures r == env
  {
    var values: Frame := map[];
    var keys := env[0].Keys;
    while keys != {}
      invariant keys <= env[0].Keys
      invariant values.Keys == env[0].Keys - keys
      invariant forall k :: k in values ==> values[k] == env[0][k]
      decreases keys
    {
      var k :| k in keys;
      values := values[k := env[0][k]];
      keys := keys - {k};
    }
    assert values == env[0];
    r := [values] + env[1..];
  }
}
