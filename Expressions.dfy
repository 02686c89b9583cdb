/** Expression helpers (Lithium/Compiler/Expressions.cs). */
module Expressions {
  import opened Wrappers
  import opened Errors
  import opened Ir

  /** `EnsureObject`: the node itself when it is already typed `object`, else one `Convert` to `object`. */
  function EnsureObject(e: Expr): (r: Expr)
    ensures TypeOf(r) == ObjectType
    ensures TypeOf(e) == ObjectType ==> r == e
    ensures TypeOf(e) != ObjectType ==> r == Convert(e, ObjectType)
    ensures forall env :: Eval(r, env) == Eval(e, env)
  {
    if TypeOf(e) != ObjectType then Convert(e, ObjectType) else e
  }

  lemma {:induction false} EnsureObjectIdempotent(e: Expr)
    ensures EnsureObject(EnsureObject(e)) == EnsureObject(e)
  {
  }

  /** `MakeGlobalVariableAccessor`: not implemented, so every call throws. */
  function MakeGlobalVariableAccessor(environment: Variable, identifier: string): (r: Result<Expr, Exception>)
    ensures r == Failure(NotImplemented)
  {
    Failure(NotImplemented)
  }

  /** `MakeGlobalVariableWriter`: not implemented, so every call throws. */
  function MakeGlobalVariableWriter(environment: Variable, identifier: string, value: Expr): (r: Result<Expr, Exception>)
    ensures r == Failure(NotImplemented)
  {
    Failure(NotImplemented)
  }
}
