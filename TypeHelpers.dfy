/** Lua truthiness (Lithium/Runtime/TypeHelpers.cs). */
module TypeHelpers {
  import opened Wrappers
  import opened Ir

  /** `ToBoolean(object)`: a boolean is itself; any other value is true unless it is null. */
  function ToBoolean(value: Value): (r: bool)
    ensures !r <==> value == Nil || value == Boolean(false)
    ensures value.Boolean? ==> r == value.b
  {
    if value.Boolean? then value.b else value != Nil
  }

  /** `ToBoolean(Expression)`: the conditional node that computes the truthiness of `e` at run time. */
  function ToBooleanExpr(e: Expr): (r: Expr)
    ensures TypeOf(r) == BoolType
    ensures r.Condition? && r.test == TypeEqual(e, BoolType)
  {
    Condition(
      TypeEqual(e, BoolType),
      TypeAs(e, BoolType),
      Not(Equal(e, Constant(Nil, ObjectType))))
  }

  /** The emitted condition evaluates to the truthiness of the value it is applied to. */
  lemma {:induction false} ToBooleanExprAgrees(e: Expr, env: map<Variable, Value>)
    requires Eval(e, env).Some?
    ensures Eval(ToBooleanExpr(e), env) == Some(Boolean(ToBoolean(Eval(e, env).value)))
  {
    var v := Eval(e, env).value;
    EvalTypeTest(e, env, v);
    if v.Boolean? {
      assert Eval(ToBooleanExpr(e), env) == Eval(TypeAs(e, BoolType), env);
    } else {
      EvalIsNotNull(e, env, v);
      assert Eval(ToBooleanExpr(e), env) == Eval(Not(Equal(e, Constant(Nil, ObjectType))), env);
    }
  }

  lemma {:induction false} EvalTypeTest(e: Expr, env: map<Variable, Value>, v: Value)
    requires Eval(e, env) == Some(v)
    ensures Eval(TypeEqual(e, BoolType), env) == Some(Boolean(v.Boolean?))
    ensures Eval(TypeAs(e, BoolType), env) == Some(if v.Boolean? then v else Nil)
  {
  }

  lemma {:induction false} EvalIsNotNull(e: Expr, env: map<Variable, Value>, v: Value)
    requires Eval(e, env) == Some(v)
    ensures Eval(Not(Equal(e, Constant(Nil, ObjectType))), env) == Some(Boolean(v != Nil))
  {
    assert Eval(Equal(e, Constant(Nil, ObjectType)), env) == Some(Boolean(v == Nil));
  }

  /**
   * Every number and every string is true, zero and the empty string included, as
   * section 2.1 of the Lua 5.2 Reference Manual requires; so is any other object.
   */
  lemma {:induction false} NumbersAndStringsAreTrue(x: real, s: string, handle: nat)
    ensures ToBoolean(Number(x)) && ToBoolean(Str(s)) && ToBoolean(Opaque(handle))
  {
  }
}
