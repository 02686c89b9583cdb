/**
 * The compilation-scope stack (Lithium/Compiler/CompilationScope.cs).
 *
 * The source links each scope object to its parent, and `Generator.CurrentScope`
 * points at the innermost one. Here the chain is a sequence: index 0 is the root,
 * the last element is the current scope, and the parent of the scope at depth `d`
 * is the one at depth `d - 1`. A virtual method called on the scope at depth `d`
 * becomes a function (or method) taking `d`.
 *
 * The identity of each ParameterExpression and LabelTarget the scopes create is
 * an `id` drawn from a counter, so that two objects with the same name stay distinct.
 */
module CompilationScope {
  import opened Wrappers
  import opened Errors
  import opened Ir
  import opened Expressions

  /** The subclass of a scope and the state it owns. */
  datatype ScopeKind =
    | BlockScope(registeredLocals: seq<Variable>, gotoLabels: map<string, Label>)
    | FunctionScope(name: string, parameters: seq<Variable>, returnLabel: Label)
    | LoopScope(exitLabel: Label)
    | IteratorScope(exitLabel: Label, loopVariable: Variable)

  /** One scope: the environment parameter every scope creates, and its subclass state. */
  datatype Scope = Scope(environment: Variable, kind: ScopeKind)

  /** The whole stack, with the next unused object identity. */
  datatype Chain = Chain(scopes: seq<Scope>, nextId: nat)

  /** The outcome of an operation that may change the stack: what it returned or threw, and the new stack. */
  datatype Step<T> = Step(result: Result<T, Exception>, after: Chain)

  /** The environment parameter of a new scope: an object-typed parameter named "E". */
  function EnvironmentFor(id: nat): Variable {
    Variable(id, "E", ObjectType)
  }

  /** `LocalVariables`: none for a plain (loop) scope, the parameters of a function, the loop variable of an iterator. */
  function LocalVariables(s: Scope): seq<Variable> {
    match s.kind
    case BlockScope(locals, _) => locals
    case FunctionScope(_, parameters, _) => parameters
    case LoopScope(_) => []
    case IteratorScope(_, v) => [v]
  }

  /** `Variables`: the environment first, then the local variables in order. */
  function Variables(s: Scope): (r: seq<Variable>)
    ensures |r| == |LocalVariables(s)| + 1
    ensures r[0] == s.environment
    ensures forall i :: 0 <= i < |LocalVariables(s)| ==> r[i + 1] == LocalVariables(s)[i]
  {
    [s.environment] + LocalVariables(s)
  }

  /** The variables of `vs` named `name`, in order (a `Where` on the name). */
  function Named(vs: seq<Variable>, name: string): (r: seq<Variable>)
    ensures |r| <= |vs|
    ensures forall v :: v in r <==> v in vs && v.name == name
  {
    if |vs| == 0 then []
    else (if vs[0].name == name then [vs[0]] else []) + Named(vs[1..], name)
  }

  lemma {:induction false} NamedAppend(vs: seq<Variable>, v: Variable, name: string)
    ensures Named(vs + [v], name) == Named(vs, name) + (if v.name == name then [v] else [])
    decreases |vs|
  {
    if |vs| == 0 {
      assert vs + [v] == [v];
      assert Named([v], name) == (if v.name == name then [v] else []) + Named([], name);
    } else {
      assert (vs + [v])[1..] == vs[1..] + [v];
      NamedAppend(vs[1..], v, name);
    }
  }

  /** No two variables of `vs` share a name. */
  predicate DistinctNames(vs: seq<Variable>) {
    forall a, b :: 0 <= a < b < |vs| ==> vs[a].name != vs[b].name
  }

  lemma {:induction false} NamedOfDistinct(vs: seq<Variable>, name: string)
    requires DistinctNames(vs)
    ensures |Named(vs, name)| <= 1
    decreases |vs|
  {
    if |vs| > 0 {
      NamedOfDistinct(vs[1..], name);
      if vs[0].name == name {
        forall v | v in vs[1..]
          ensures v.name != name
        {
          var b :| 0 <= b < |vs[1..]| && vs[1..][b] == v;
          assert vs[b + 1] == v;
        }
        NamedOfNone(vs[1..], name);
      }
    }
  }

  lemma {:induction false} NamedOfNone(vs: seq<Variable>, name: string)
    requires forall v :: v in vs ==> v.name != name
    ensures Named(vs, name) == []
    decreases |vs|
  {
    if |vs| > 0 {
      assert vs[0] in vs;
      assert forall v :: v in vs[1..] ==> v in vs;
      NamedOfNone(vs[1..], name);
    }
  }

  /**
   * The invariant `BlockCompilationScope.RegisterLocal` keeps: the locals of a block
   * have distinct names.
   */
  predicate ValidChain(c: Chain) {
    forall i :: 0 <= i < |c.scopes| ==> c.scopes[i].kind.BlockScope? ==> DistinctNames(c.scopes[i].kind.registeredLocals)
  }

  /** What a walk up the parent chain is looking for. */
  datatype Want = Blocks | Functions | Loops | Declaring(name: string) | Labelled(labelName: string)

  predicate Is(s: Scope, w: Want) {
    match w
    case Blocks => s.kind.BlockScope?
    case Functions => s.kind.FunctionScope?
    case Loops => s.kind.LoopScope? || s.kind.IteratorScope?
    case Declaring(name) => |Named(LocalVariables(s), name)| > 0
    case Labelled(name) => s.kind.BlockScope? && name in s.kind.gotoLabels
  }

  /** The depth of the nearest scope, from `d` towards the root, that is what `w` looks for. */
  function Nearest(scopes: seq<Scope>, d: nat, w: Want): (r: Option<nat>)
    requires d < |scopes|
    ensures r.Some? ==> r.value <= d && Is(scopes[r.value], w)
    ensures r.Some? ==> forall j :: r.value < j <= d ==> !Is(scopes[j], w)
    ensures r.None? <==> forall j :: 0 <= j <= d ==> !Is(scopes[j], w)
    decreases d
  {
    if Is(scopes[d], w) then Some(d)
    else if d == 0 then None
    else Nearest(scopes, d - 1, w)
  }

  /** A walk that meets only scopes equal in two stacks finds the same scope in both. */
  lemma {:induction false} NearestOfAgreeing(s: seq<Scope>, t: seq<Scope>, d: nat, w: Want, k: nat)
    requires d < |s| && d < |t| && k <= d
    requires Is(s[k], w) && Is(t[k], w)
    requires forall j :: k < j <= d ==> s[j] == t[j] && !Is(s[j], w)
    ensures Nearest(s, d, w) == Some(k) && Nearest(t, d, w) == Some(k)
  {
    NearestIs(s, d, w, k);
    NearestIs(t, d, w, k);
  }

  /** The first scope on the walk that is what `w` looks for is the one `Nearest` finds. */
  lemma {:induction false} NearestIs(s: seq<Scope>, d: nat, w: Want, k: nat)
    requires d < |s| && k <= d && Is(s[k], w)
    requires forall j :: k < j <= d ==> !Is(s[j], w)
    ensures Nearest(s, d, w) == Some(k)
  {
  }

  /** A walk from depth `d` looks only at depths up to `d`. */
  lemma {:induction false} NearestOfPrefix(s: seq<Scope>, t: seq<Scope>, d: nat, w: Want)
    requires d < |s| && d < |t| && forall j :: 0 <= j <= d ==> s[j] == t[j]
    ensures Nearest(s, d, w) == Nearest(t, d, w)
  {
    match Nearest(s, d, w)
    case Some(k) => NearestIs(t, d, w, k);
    case None =>
  }

  /** Block `b` is block `a` after registrations: the same environment, more locals at the end, more labels. */
  predicate Grows(a: Scope, b: Scope) {
    a.kind.BlockScope? && b.kind.BlockScope? && a.environment == b.environment &&
    |a.kind.registeredLocals| <= |b.kind.registeredLocals| &&
    b.kind.registeredLocals[..|a.kind.registeredLocals|] == a.kind.registeredLocals &&
    (forall l :: l in a.kind.gotoLabels ==> l in b.kind.gotoLabels && b.kind.gotoLabels[l] == a.kind.gotoLabels[l])
  }

  /**
   * `after` is `before` with at most the nearest block from depth `d` grown, the only
   * scope a registration reaches.
   */
  predicate GrowsAt(before: seq<Scope>, after: seq<Scope>, d: nat)
    requires d < |before|
  {
    |after| == |before| &&
    forall j :: 0 <= j < |before| ==>
      if Nearest(before, d, Blocks) == Some(j) then Grows(before[j], after[j]) else after[j] == before[j]
  }

  /** Dropping the scopes above depth `d` keeps a growth at `d`. */
  lemma {:induction false} GrowsAtPrefix(before: seq<Scope>, after: seq<Scope>, d: nat)
    requires d < |before| && GrowsAt(before, after, d)
    ensures GrowsAt(before[..d + 1], after[..d + 1], d)
  {
    NearestOfPrefix(before, before[..d + 1], d, Blocks);
  }

  // ----- Read-only lookups (virtual methods that recurse up the parent chain) -----

  /**
   * `GetReturnLabel`: the return label of the nearest function scope; a compiler
   * error when the walk reaches the root without one.
   */
  function GetReturnLabel(scopes: seq<Scope>, d: nat): (r: Result<Label, Exception>)
    requires d < |scopes|
    ensures Nearest(scopes, d, Functions).Some? ==>
              r == Success(scopes[Nearest(scopes, d, Functions).value].kind.returnLabel)
    ensures Nearest(scopes, d, Functions).None? ==> r == Failure(CompilerException(ReturnOutsideFunction))
    decreases d
  {
    match scopes[d].kind
    case FunctionScope(_, _, returnLabel) => Success(returnLabel)
    case _ =>
      if d == 0 then Failure(CompilerException(ReturnOutsideFunction))
      else GetReturnLabel(scopes, d - 1)
  }

  /**
   * `GetExitLabel`: the exit label of the nearest loop or iterator scope; a compiler
   * error when the walk reaches the root without one.
   */
  function GetExitLabel(scopes: seq<Scope>, d: nat): (r: Result<Label, Exception>)
    requires d < |scopes|
    ensures Nearest(scopes, d, Loops).Some? ==>
              r == Success(scopes[Nearest(scopes, d, Loops).value].kind.exitLabel)
    ensures Nearest(scopes, d, Loops).None? ==> r == Failure(CompilerException(BreakOutsideLoop))
    decreases d
  {
    match scopes[d].kind
    case LoopScope(exitLabel) => Success(exitLabel)
    case IteratorScope(exitLabel, _) => Success(exitLabel)
    case _ =>
      if d == 0 then Failure(CompilerException(BreakOutsideLoop))
      else GetExitLabel(scopes, d - 1)
  }

  /**
   * `GetJumpLabel`: a block answers from its own goto table first; otherwise the
   * parent is asked, and the root reports that the label was not found.
   */
  function GetJumpLabel(scopes: seq<Scope>, d: nat, labelName: string): (r: Result<Label, Exception>)
    requires d < |scopes|
    ensures Nearest(scopes, d, Labelled(labelName)).Some? ==>
              r == Success(scopes[Nearest(scopes, d, Labelled(labelName)).value].kind.gotoLabels[labelName])
    ensures Nearest(scopes, d, Labelled(labelName)).None? ==>
              r == Failure(CompilerException(LabelNotFound(labelName)))
    decreases d
  {
    var s := scopes[d];
    if s.kind.BlockScope? && labelName in s.kind.gotoLabels then Success(s.kind.gotoLabels[labelName])
    else if d == 0 then Failure(CompilerException(LabelNotFound(labelName)))
    else GetJumpLabel(scopes, d - 1, labelName)
  }

  /**
   * `GetVariableForRead`. A parentless scope with no locals answers with the global
   * accessor. Otherwise the one local with the name is the answer (two of them make
   * `SingleOrDefault` throw); with none, the parent is asked, and at a root that has
   * locals the parent is null.
   */
  function GetVariableForRead(scopes: seq<Scope>, d: nat, identifier: string): (r: Result<Expr, Exception>)
    requires d < |scopes|
    ensures Nearest(scopes, d, Declaring(identifier)).Some? ==>
              var matches := Named(LocalVariables(scopes[Nearest(scopes, d, Declaring(identifier)).value]), identifier);
              r == if |matches| == 1 then Success(VarRef(matches[0])) else Failure(InvalidOperation)
    ensures Nearest(scopes, d, Declaring(identifier)).None? ==>
              r == if |LocalVariables(scopes[0])| == 0
                   then MakeGlobalVariableAccessor(scopes[0].environment, identifier)
                   else Failure(NullReference)
    decreases d
  {
    var s := scopes[d];
    if |LocalVariables(s)| == 0 && d == 0 then MakeGlobalVariableAccessor(s.environment, identifier)
    else
      var matches := Named(LocalVariables(s), identifier);
      if |matches| > 1 then Failure(InvalidOperation)
      else if |matches| == 1 then Success(VarRef(matches[0]))
      else if d == 0 then Failure(NullReference)
      else GetVariableForRead(scopes, d - 1, identifier)
  }

  /**
   * `WriteVariable`: the same walk as a read; the matching local is assigned the
   * value coerced to object, and a parentless scope with no locals writes through
   * the global writer.
   */
  function WriteVariable(scopes: seq<Scope>, d: nat, identifier: string, value: Expr): (r: Result<Expr, Exception>)
    requires d < |scopes|
    ensures Nearest(scopes, d, Declaring(identifier)).Some? ==>
              var matches := Named(LocalVariables(scopes[Nearest(scopes, d, Declaring(identifier)).value]), identifier);
              r == if |matches| == 1 then Success(Assign(matches[0], EnsureObject(value))) else Failure(InvalidOperation)
    ensures Nearest(scopes, d, Declaring(identifier)).None? ==>
              r == if |LocalVariables(scopes[0])| == 0
                   then MakeGlobalVariableWriter(scopes[0].environment, identifier, EnsureObject(value))
                   else Failure(NullReference)
    decreases d
  {
    var s := scopes[d];
    if |LocalVariables(s)| == 0 && d == 0 then MakeGlobalVariableWriter(s.environment, identifier, EnsureObject(value))
    else
      var matches := Named(LocalVariables(s), identifier);
      if |matches| > 0 then
        if |matches| == 1 then Success(Assign(matches[0], EnsureObject(value))) else Failure(InvalidOperation)
      else if d == 0 then Failure(NullReference)
      else WriteVariable(scopes, d - 1, identifier, value)
  }

  /** A write goes to exactly the variable a read of the same name finds. */
  lemma {:induction false} ReadWriteAgree(scopes: seq<Scope>, d: nat, identifier: string, value: Expr, v: Variable)
    requires d < |scopes|
    ensures GetVariableForRead(scopes, d, identifier) == Success(VarRef(v))
        <==> WriteVariable(scopes, d, identifier, value) == Success(Assign(v, EnsureObject(value)))
  {
  }

  // ----- Operations that change a scope in place, as transitions of the stack -----

  /** The stack with a new scope on top, made current (the constructor of every scope class). */
  function Pushed(c: Chain, kind: ScopeKind, ids: nat): Chain {
    Chain(c.scopes + [Scope(EnvironmentFor(c.nextId), kind)], c.nextId + ids)
  }

  /**
   * `RegisterLocal` at depth `d`: non-block scopes forward to their parent and the
   * root refuses; the nearest block returns its local of that name, or appends a
   * new object-typed variable.
   */
  function RegisterLocalStep(c: Chain, d: nat, identifier: string): (r: Step<Variable>)
    requires d < |c.scopes|
    ensures |r.after.scopes| == |c.scopes| && r.after.nextId >= c.nextId
    ensures r.result.Success? ==> r.result.value.name == identifier
    ensures Nearest(c.scopes, d, Blocks).None? ==> r == Step(Failure(CompilerException(CannotRegisterLocal)), c)
    ensures ValidChain(c) ==> ValidChain(r.after)
    ensures GrowsAt(c.scopes, r.after.scopes, d)
  {
    match Nearest(c.scopes, d, Blocks)
    case None => Step(Failure(CompilerException(CannotRegisterLocal)), c)
    case Some(k) =>
      var s := c.scopes[k];
      var locals := s.kind.registeredLocals;
      var existing := Named(locals, identifier);
      if |existing| > 0 then
        (if |existing| == 1 then Step(Success(existing[0]), c) else Step(Failure(InvalidOperation), c))
      else
        var v := Variable(c.nextId, identifier, ObjectType);
        assert DistinctNames(locals) ==> DistinctNames(locals + [v]) by {
          if DistinctNames(locals) {
            forall a, b | 0 <= a < b < |locals + [v]|
              ensures (locals + [v])[a].name != (locals + [v])[b].name
            {
              if b == |locals| {
                assert locals[a] in locals;
              }
            }
          }
        }
        Step(Success(v), Chain(c.scopes[k := s.(kind := s.kind.(registeredLocals := locals + [v]))], c.nextId + 1))
  }

  /**
   * `RegisterJumpTarget` at depth `d`: the nearest block creates a label and adds it
   * to its goto table, which throws on a name already present (the label was
   * created all the same); the root refuses when no block is found.
   */
  function RegisterJumpTargetStep(c: Chain, d: nat, labelName: string): (r: Step<Expr>)
    requires d < |c.scopes|
    ensures |r.after.scopes| == |c.scopes|
    ensures Nearest(c.scopes, d, Blocks).None? ==> r == Step(Failure(CompilerException(CannotRegisterJumpLabel)), c)
    ensures Nearest(c.scopes, d, Blocks).Some? ==>
              var k := Nearest(c.scopes, d, Blocks).value;
              r.after.nextId == c.nextId + 1 &&
              (labelName in c.scopes[k].kind.gotoLabels <==> r.result == Failure(DuplicateKey(labelName))) &&
              (r.result.Success? ==> r.result == Success(LabelDef(Label(c.nextId))))
    ensures ValidChain(c) ==> ValidChain(r.after)
    ensures GrowsAt(c.scopes, r.after.scopes, d)
  {
    match Nearest(c.scopes, d, Blocks)
    case None => Step(Failure(CompilerException(CannotRegisterJumpLabel)), c)
    case Some(k) =>
      var s := c.scopes[k];
      var target := Label(c.nextId);
      if labelName in s.kind.gotoLabels then Step(Failure(DuplicateKey(labelName)), c.(nextId := c.nextId + 1))
      else
        var labels := s.kind.gotoLabels[labelName := target];
        Step(Success(LabelDef(target)), Chain(c.scopes[k := s.(kind := s.kind.(gotoLabels := labels))], c.nextId + 1))
  }

  /** `FunctionScope.RegisterParameter`: appends a new object-typed parameter to the function at depth `d`. */
  function RegisterParameterStep(c: Chain, d: nat, name: string): (r: Step<Variable>)
    requires d < |c.scopes| && c.scopes[d].kind.FunctionScope?
    ensures r.result.Success? && r.result.value == Variable(c.nextId, name, ObjectType)
    ensures |r.after.scopes| == |c.scopes| && r.after.scopes[d].kind.FunctionScope?
    ensures LocalVariables(r.after.scopes[d]) == LocalVariables(c.scopes[d]) + [r.result.value]
    ensures forall j :: 0 <= j < |c.scopes| && j != d ==> r.after.scopes[j] == c.scopes[j]
    ensures ValidChain(c) ==> ValidChain(r.after)
  {
    var s := c.scopes[d];
    var p := Variable(c.nextId, name, ObjectType);
    Step(Success(p), Chain(c.scopes[d := s.(kind := s.kind.(parameters := s.kind.parameters + [p]))], c.nextId + 1))
  }

  // ----- Properties of the transitions -----

  /** Registering a name twice in the same block returns the same variable and changes nothing the second time. */
  lemma {:induction false} RegisterLocalIdempotent(c: Chain, d: nat, identifier: string)
    requires ValidChain(c) && d < |c.scopes|
    ensures var first := RegisterLocalStep(c, d, identifier);
            RegisterLocalStep(first.after, d, identifier) == Step(first.result, first.after)
  {
    var first := RegisterLocalStep(c, d, identifier);
    match Nearest(c.scopes, d, Blocks)
    case None =>
    case Some(k) =>
      var locals := c.scopes[k].kind.registeredLocals;
      NamedOfDistinct(locals, identifier);
      if |Named(locals, identifier)| == 0 {
        var v := Variable(c.nextId, identifier, ObjectType);
        var after := first.after.scopes;
        NearestOfAgreeing(c.scopes, after, d, Blocks, k);
        NamedAppend(locals, v, identifier);
        assert Named(after[k].kind.registeredLocals, identifier) == [v];
      }
  }

  /** A registration adds at most one local, at the end of the nearest block, and leaves every other scope alone. */
  lemma {:induction false} RegisterLocalAppendsOne(c: Chain, d: nat, identifier: string, k: nat)
    requires d < |c.scopes| && Nearest(c.scopes, d, Blocks) == Some(k)
    requires |Named(c.scopes[k].kind.registeredLocals, identifier)| == 0
    ensures var r := RegisterLocalStep(c, d, identifier);
            r.result == Success(Variable(c.nextId, identifier, ObjectType)) &&
            r.after.nextId == c.nextId + 1 &&
            r.after.scopes[k].environment == c.scopes[k].environment &&
            r.after.scopes[k].kind.BlockScope? &&
            r.after.scopes[k].kind.registeredLocals == c.scopes[k].kind.registeredLocals + [r.result.value] &&
            r.after.scopes[k].kind.gotoLabels == c.scopes[k].kind.gotoLabels &&
            (forall j :: 0 <= j < |c.scopes| && j != k ==> r.after.scopes[j] == c.scopes[j])
  {
  }

  /**
   * After a successful registration, a read of the name from the same depth finds the
   * registered variable, unless a scope between that depth and the block (a function
   * parameter or an iterator variable) declares the same name.
   */
  lemma {:induction false} ReadAfterRegister(c: Chain, d: nat, identifier: string, k: nat)
    requires ValidChain(c) && d < |c.scopes| && Nearest(c.scopes, d, Blocks) == Some(k)
    requires RegisterLocalStep(c, d, identifier).result.Success?
    requires forall j :: k < j <= d ==> !Is(c.scopes[j], Declaring(identifier))
    ensures var r := RegisterLocalStep(c, d, identifier);
            GetVariableForRead(r.after.scopes, d, identifier) == Success(VarRef(r.result.value))
  {
    var locals := c.scopes[k].kind.registeredLocals;
    if |Named(locals, identifier)| == 0 {
      ReadAfterNewLocal(c, d, identifier, k);
    } else {
      var r := RegisterLocalStep(c, d, identifier);
      var v := r.result.value;
      NamedOfDistinct(locals, identifier);
      assert r.after == c;
      assert LocalVariables(c.scopes[k]) == locals;
      assert Named(locals, identifier) == [v];
      NearestOfAgreeing(c.scopes, c.scopes, d, Declaring(identifier), k);
    }
  }

  /** `ReadAfterRegister` when the block had no local of that name: the new one is found. */
  lemma {:induction false} ReadAfterNewLocal(c: Chain, d: nat, identifier: string, k: nat)
    requires ValidChain(c) && d < |c.scopes| && Nearest(c.scopes, d, Blocks) == Some(k)
    requires |Named(c.scopes[k].kind.registeredLocals, identifier)| == 0
    requires forall j :: k < j <= d ==> !Is(c.scopes[j], Declaring(identifier))
    ensures var r := RegisterLocalStep(c, d, identifier);
            r.result.Success? && GetVariableForRead(r.after.scopes, d, identifier) == Success(VarRef(r.result.value))
  {
    var r := RegisterLocalStep(c, d, identifier);
    var locals := c.scopes[k].kind.registeredLocals;
    var v := r.result.value;
    NamedAppend(locals, v, identifier);
    assert Named(r.after.scopes[k].kind.registeredLocals, identifier) == [v];
    NearestIs(r.after.scopes, d, Declaring(identifier), k);
  }

  /**
   * After a successful `RegisterJumpTarget`, a goto from the same depth resolves to
   * the new label, unless a block between that depth and the nearest block already
   * has a label of that name (which cannot happen, since the nearest block is the
   * first block on the walk).
   */
  lemma {:induction false} JumpAfterRegister(c: Chain, d: nat, labelName: string)
    requires d < |c.scopes|
    requires RegisterJumpTargetStep(c, d, labelName).result.Success?
    ensures var r := RegisterJumpTargetStep(c, d, labelName);
            r.result.value.LabelDef? &&
            GetJumpLabel(r.after.scopes, d, labelName) == Success(r.result.value.target)
  {
    var r := RegisterJumpTargetStep(c, d, labelName);
    var k := Nearest(c.scopes, d, Blocks).value;
    assert forall j :: k < j <= d ==> !Is(c.scopes[j], Labelled(labelName)) by {
      forall j | k < j <= d ensures !Is(c.scopes[j], Labelled(labelName)) {
        assert !Is(c.scopes[j], Blocks);
      }
    }
    assert r.after.scopes[k].kind.gotoLabels == c.scopes[k].kind.gotoLabels[labelName := Label(c.nextId)];
    NearestIs(r.after.scopes, d, Labelled(labelName), k);
  }

  /** A label registered in a block stays reachable from the block itself: a duplicate registration fails. */
  lemma {:induction false} RegisterJumpTargetTwiceFails(c: Chain, d: nat, labelName: string)
    requires d < |c.scopes|
    requires RegisterJumpTargetStep(c, d, labelName).result.Success?
    ensures var first := RegisterJumpTargetStep(c, d, labelName);
            RegisterJumpTargetStep(first.after, d, labelName).result == Failure(DuplicateKey(labelName))
  {
    var first := RegisterJumpTargetStep(c, d, labelName);
    var k := Nearest(c.scopes, d, Blocks).value;
    NearestOfAgreeing(c.scopes, first.after.scopes, d, Blocks, k);
  }

  // ----- The mutable stack -----

  /**
   * `Generator.CurrentScope` together with the scope objects it reaches: the
   * constructors push, `Dispose` pops, and the registration methods update the
   * scope they reach in place.
   */
  class ScopeChain {
    var scopes: seq<Scope>
    var nextId: nat

    function State(): Chain
      reads this
    {
      Chain(scopes, nextId)
    }

    predicate Valid()
      reads this
    {
      ValidChain(State())
    }

    /** A generator starts with no current scope. */
    constructor()
      ensures scopes == [] && Valid()
    {
      scopes := [];
      nextId := 0;
    }

    /** `new BlockCompilationScope(...)`: a block with no locals and no labels becomes current. */
    method PushBlock()
      requires Valid()
      modifies this
      ensures Valid()
      ensures State() == Pushed(old(State()), BlockScope([], map[]), 1)
    {
      scopes := scopes + [Scope(EnvironmentFor(nextId), BlockScope([], map[]))];
      nextId := nextId + 1;
    }

    /** `new FunctionScope(..., name)`: the environment is created by the base constructor, then the return label. */
    method PushFunction(name: string)
      requires Valid()
      modifies this
      ensures Valid()
      ensures State() == Pushed(old(State()), FunctionScope(name, [], Label(old(nextId) + 1)), 2)
    {
      var environment := EnvironmentFor(nextId);
      var returnLabel := Label(nextId + 1);
      scopes := scopes + [Scope(environment, FunctionScope(name, [], returnLabel))];
      nextId := nextId + 2;
    }

    /** `new LoopScope(...)`: the environment, then the exit label. */
    method PushLoop()
      requires Valid()
      modifies this
      ensures Valid()
      ensures State() == Pushed(old(State()), LoopScope(Label(old(nextId) + 1)), 2)
    {
      var environment := EnvironmentFor(nextId);
      scopes := scopes + [Scope(environment, LoopScope(Label(nextId + 1)))];
      nextId := nextId + 2;
    }

    /** `new IteratorCompilationScope(..., loopVariableName)`: a loop scope whose only local is a double-typed loop variable. */
    method PushIterator(loopVariableName: string)
      requires Valid()
      modifies this
      ensures Valid()
      ensures State() == Pushed(old(State()),
                                IteratorScope(Label(old(nextId) + 1), Variable(old(nextId) + 2, loopVariableName, DoubleType)), 3)
    {
      var environment := EnvironmentFor(nextId);
      var exitLabel := Label(nextId + 1);
      var loopVariable := Variable(nextId + 2, loopVariableName, DoubleType);
      scopes := scopes + [Scope(environment, IteratorScope(exitLabel, loopVariable))];
      nextId := nextId + 3;
    }

    /** `Dispose` of the current scope: its parent becomes current. */
    method Pop()
      requires Valid() && |scopes| > 0
      modifies this
      ensures Valid()
      ensures scopes == old(scopes)[..|old(scopes)| - 1] && nextId == old(nextId)
    {
      scopes := scopes[..|scopes| - 1];
    }

    /** The walk up the parent chain from depth `d` to the nearest block. */
    method FindBlock(d: nat) returns (k: Option<nat>)
      requires d < |scopes|
      ensures k == Nearest(scopes, d, Blocks)
    {
      var i: nat := d;
      while !scopes[i].kind.BlockScope? && i > 0
        invariant i <= d
        invariant forall j :: i < j <= d ==> !scopes[j].kind.BlockScope?
        invariant Nearest(scopes, d, Blocks) == Nearest(scopes, i, Blocks)
        decreases i
      {
        i := i - 1;
      }
      k := if scopes[i].kind.BlockScope? then Some(i) else None;
    }

    /** `RegisterLocal` called on the scope at depth `d`. */
    method RegisterLocal(d: nat, identifier: string) returns (r: Result<Variable, Exception>)
      requires Valid() && d < |scopes|
      modifies this
      ensures Valid()
      ensures Step(r, State()) == RegisterLocalStep(old(State()), d, identifier)
    {
      ghost var before := State();
      var k := FindBlock(d);
      if k.None? {
        return Failure(CompilerException(CannotRegisterLocal));
      }
      var s := scopes[k.value];
      var existing := Named(s.kind.registeredLocals, identifier);
      if |existing| > 0 {
        if |existing| == 1 {
          r := Success(existing[0]);
        } else {
          r := Failure(InvalidOperation);
        }
        return;
      }
      var newVariable := Variable(nextId, identifier, ObjectType);
      scopes := scopes[k.value := s.(kind := s.kind.(registeredLocals := s.kind.registeredLocals + [newVariable]))];
      nextId := nextId + 1;
      r := Success(newVariable);
      assert Step(r, State()) == RegisterLocalStep(before, d, identifier);
    }

    /** `RegisterJumpTarget` called on the scope at depth `d`. */
    method RegisterJumpTarget(d: nat, labelName: string) returns (r: Result<Expr, Exception>)
      requires Valid() && d < |scopes|
      modifies this
      ensures Valid()
      ensures Step(r, State()) == RegisterJumpTargetStep(old(State()), d, labelName)
    {
      var k := FindBlock(d);
      if k.None? {
        return Failure(CompilerException(CannotRegisterJumpLabel));
      }
      var s := scopes[k.value];
      var target := Label(nextId);
      nextId := nextId + 1;
      if labelName in s.kind.gotoLabels {
        return Failure(DuplicateKey(labelName));
      }
      scopes := scopes[k.value := s.(kind := s.kind.(gotoLabels := s.kind.gotoLabels[labelName := target]))];
      r := Success(LabelDef(target));
    }

    /** `FunctionScope.RegisterParameter` on the function scope at depth `d`. */
    method RegisterParameter(d: nat, name: string) returns (p: Variable)
      requires Valid() && d < |scopes| && scopes[d].kind.FunctionScope?
      modifies this
      ensures Valid()
      ensures Step(Success(p), State()) == RegisterParameterStep(old(State()), d, name)
    {
      var s := scopes[d];
      p := Variable(nextId, name, ObjectType);
      scopes := scopes[d := s.(kind := s.kind.(parameters := s.kind.parameters + [p]))];
      nextId := nextId + 1;
    }
  }
}
