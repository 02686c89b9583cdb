/**
 * The intermediate representation the generator emits: a model of the
 * System.Linq.Expressions nodes it builds, their static types, and the runtime
 * values of the expression forms that conditions are made of.
 */
module Ir {
  import opened Wrappers

  /** The static CLR types the generator gives its nodes. */
  datatype ClrType = ObjectType | BoolType | DoubleType | StringType | VoidType | DelegateType | ObjectArrayType

  /** A ParameterExpression; `id` stands for its object identity. */
  datatype Variable = Variable(id: nat, name: string, ty: ClrType)

  /** A LabelTarget; `id` stands for its object identity. */
  datatype Label = Label(id: nat)

  /** A runtime value (a boxed CLR object). Closures, arrays and other objects are `Opaque`. */
  datatype Value = Nil | Boolean(b: bool) | Number(n: real) | Str(s: string) | Opaque(handle: nat)

  datatype Expr =
    | Constant(value: Value, ty: ClrType)
    | Convert(operand: Expr, ty: ClrType)
    | VarRef(variable: Variable)
    | Assign(assignee: Variable, newValue: Expr)
    | Block(ty: ClrType, variables: seq<Variable>, statements: seq<Expr>)
    | LabelDef(target: Label)
    | Goto(target: Label)
    | Break(target: Label)
    | Return(target: Label, returned: Expr)
    | IfThenElse(test: Expr, ifTrue: Expr, ifFalse: Expr)
    | Condition(test: Expr, whenTrue: Expr, whenFalse: Expr)
    | TypeEqual(operand: Expr, ty: ClrType)
    | TypeAs(operand: Expr, ty: ClrType)
    | Not(operand: Expr)
    | Equal(left: Expr, right: Expr)
    | Empty
    | Lambda(body: Expr, name: string, parameters: seq<Variable>)
    | NewArrayInit(elementType: ClrType, elements: seq<Expr>)

  /** The static type `Expression.Type` of a node. */
  function TypeOf(e: Expr): ClrType {
    match e
    case Constant(_, ty) => ty
    case Convert(_, ty) => ty
    case VarRef(v) => v.ty
    case Assign(v, _) => v.ty
    case Block(ty, _, _) => ty
    case Condition(_, t, _) => TypeOf(t)
    case TypeEqual(_, _) => BoolType
    case TypeAs(_, ty) => ty
    case Not(x) => TypeOf(x)
    case Equal(_, _) => BoolType
    case Lambda(_, _, _) => DelegateType
    case NewArrayInit(_, _) => ObjectArrayType
    case _ => VoidType
  }

  /** The exact runtime type test of `TypeEqual` and `TypeAs`; a null has no runtime type. */
  predicate HasRuntimeType(v: Value, ty: ClrType) {
    match v
    case Nil => false
    case Boolean(_) => ty == BoolType
    case Number(_) => ty == DoubleType
    case Str(_) => ty == StringType
    case Opaque(_) => false
  }

  /**
   * The value of a pure expression node under a binding of the variables in scope.
   * `None` stands for a form this model does not evaluate.
   */
  function Eval(e: Expr, env: map<Variable, Value>): Option<Value>
    decreases e
  {
    match e
    case Constant(v, _) => Some(v)
    case Convert(x, _) => Eval(x, env)
    case VarRef(v) => if v in env then Some(env[v]) else None
    case Condition(t, a, b) =>
      (match Eval(t, env)
       case Some(Boolean(c)) => if c then Eval(a, env) else Eval(b, env)
       case _ => None)
    case TypeEqual(x, ty) =>
      (match Eval(x, env)
       case Some(v) => Some(Boolean(HasRuntimeType(v, ty)))
       case None => None)
    case TypeAs(x, ty) =>
      (match Eval(x, env)
       case Some(v) => Some(if HasRuntimeType(v, ty) then v else Nil)
       case None => None)
    case Not(x) =>
      (match Eval(x, env)
       case Some(Boolean(c)) => Some(Boolean(!c))
       case _ => None)
    case Equal(a, b) =>
      (match (Eval(a, env), Eval(b, env))
       case (Some(x), Some(y)) => if x == Nil || y == Nil then Some(Boolean(x == y)) else None
       case _ => None)
    case _ => None
  }
}
