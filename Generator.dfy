/**
 * The code generator (Lithium/Compiler/Generator.cs): it walks an Irony parse tree,
 * opens and closes compilation scopes, and emits expression trees.
 */
module Generator {
  import opened Wrappers
  import opened Errors
  import opened Ir
  import opened TypeHelpers
  import opened CompilationScope
  import Grammar

  /** An Irony token: its source text and its converted value. */
  datatype Token = Token(text: string, value: Value)

  /** An Irony ParseTreeNode: the name of its grammar term, its children, and its token (null on a non-terminal). */
  datatype ParseNode = ParseNode(term: Grammar.Term, children: seq<ParseNode>, token: Option<Token>)

  /** `node.ChildNodes[0].Token.Text`: a missing child is an index error, a missing token a null dereference. */
  function FirstChildText(node: ParseNode): (r: Result<string, Exception>)
    ensures |node.children| == 0 ==> r == Failure(IndexOutOfRange)
    ensures |node.children| > 0 && node.children[0].token.None? ==> r == Failure(NullReference)
    ensures |node.children| > 0 && node.children[0].token.Some? ==> r == Success(node.children[0].token.value.text)
  {
    if |node.children| == 0 then Failure(IndexOutOfRange)
    else if node.children[0].token.None? then Failure(NullReference)
    else Success(node.children[0].token.value.text)
  }

  /** `node.Token.Text`, as `GetFunctionParameter` reads it. */
  function TokenText(node: ParseNode): (r: Result<string, Exception>)
    ensures r.Success? <==> node.token.Some?
    ensures r.Success? ==> r.value == node.token.value.text
  {
    if node.token.None? then Failure(NullReference) else Success(node.token.value.text)
  }

  // ----- Expressions -----

  /**
   * `CompileExpression`: literal terms become typed constants; `Variable` reaches
   * the unimplemented `GetVariable`; any other term is a compiler error.
   */
  function CompileExpression(node: ParseNode): (r: Result<Expr, Exception>)
    ensures node.term.Nil? ==> r == Success(Constant(Nil, ObjectType))
    ensures node.term.True? ==> r == Success(Constant(Boolean(true), BoolType))
    ensures node.term.False? ==> r == Success(Constant(Boolean(false), BoolType))
    ensures node.term.Number? || node.term.String? ==>
              r == if node.token.None? then Failure(NullReference)
                   else Success(Constant(node.token.value.value, if node.term.Number? then DoubleType else StringType))
    ensures node.term.Variable? ==> r == Failure(NotImplemented)
    ensures node.term !in ExpressionTerms ==> r == Failure(CompilerException(UnrecognizedExpression(node.term)))
    ensures r.Success? ==> forall env :: Eval(r.value, env).Some?
  {
    match node.term
    case Nil => Success(Constant(Nil, ObjectType))
    case True => Success(Constant(Boolean(true), BoolType))
    case False => Success(Constant(Boolean(false), BoolType))
    case Number =>
      if node.token.None? then Failure(NullReference) else Success(Constant(node.token.value.value, DoubleType))
    case String =>
      if node.token.None? then Failure(NullReference) else Success(Constant(node.token.value.value, StringType))
    case Variable => Failure(NotImplemented)
    case _ => Failure(CompilerException(UnrecognizedExpression(node.term)))
  }

  /** `Select(CompileExpression)`, materialised in order: the first failing element decides the outcome. */
  function CompileExpressions(nodes: seq<ParseNode>): (r: Result<seq<Expr>, Exception>)
    ensures r.Success? <==> forall i :: 0 <= i < |nodes| ==> CompileExpression(nodes[i]).Success?
    ensures r.Success? ==> |r.value| == |nodes| &&
                           forall i :: 0 <= i < |nodes| ==> CompileExpression(nodes[i]) == Success(r.value[i])
    ensures r.Failure? ==> exists i :: 0 <= i < |nodes| && CompileExpression(nodes[i]) == Failure(r.error) &&
                                       forall j :: 0 <= j < i ==> CompileExpression(nodes[j]).Success?
  {
    if |nodes| == 0 then Success([])
    else
      var first :- CompileExpression(nodes[0]);
      var rest :- CompileExpressions(nodes[1..]);
      Success([first] + rest)
  }

  /**
   * `GetMultiExpressionValue`: no expression is a null constant, one is that
   * expression, and more are an object array of them in order.
   */
  function GetMultiExpressionValue(expressionList: ParseNode): (r: Result<Expr, Exception>)
    ensures |expressionList.children| == 0 ==> r == Success(Constant(Nil, ObjectType))
    ensures |expressionList.children| == 1 ==> r == CompileExpression(expressionList.children[0])
    ensures |expressionList.children| >= 2 ==>
              (r.Success? <==> CompileExpressions(expressionList.children).Success?) &&
              (r.Success? ==> r.value.NewArrayInit? && r.value.elementType == ObjectType &&
                              |r.value.elements| == |expressionList.children| &&
                              forall i :: 0 <= i < |expressionList.children| ==>
                                CompileExpression(expressionList.children[i]) == Success(r.value.elements[i]))
  {
    var n := |expressionList.children|;
    if n == 0 then Success(Constant(Nil, ObjectType))
    else if n == 1 then CompileExpression(expressionList.children[0])
    else
      var elements :- CompileExpressions(expressionList.children);
      Success(NewArrayInit(ObjectType, elements))
  }

  // ----- The statements that only consult the scope stack -----

  /** The depth of `CurrentScope`. */
  function Top(scopes: seq<Scope>): nat
    requires |scopes| > 0
  {
    |scopes| - 1
  }

  /**
   * A `Goto` statement: the label is resolved at compile time, walking out from the
   * current scope; a null `CurrentScope` is dereferenced after the label name is read.
   */
  function GotoStatement(scopes: seq<Scope>, node: ParseNode): (r: Result<Expr, Exception>)
  {
    var labelName :- FirstChildText(node);
    if |scopes| == 0 then Failure(NullReference)
    else
      var target :- GetJumpLabel(scopes, Top(scopes), labelName);
      Success(Goto(target))
  }

  /** A `Break` statement jumps to the exit label of the nearest loop. */
  function BreakStatement(scopes: seq<Scope>): (r: Result<Expr, Exception>)
  {
    if |scopes| == 0 then Failure(NullReference)
    else
      var target :- GetExitLabel(scopes, Top(scopes));
      Success(Break(target))
  }

  /**
   * A `ReturnStatement`: the return label of the nearest function is looked up
   * before the returned expression list is compiled.
   */
  function ReturnStatement(scopes: seq<Scope>, node: ParseNode): (r: Result<Expr, Exception>)
  {
    if |scopes| == 0 then Failure(NullReference)
    else
      var target :- GetReturnLabel(scopes, Top(scopes));
      if |node.children| == 0 then Failure(IndexOutOfRange)
      else
        var value :- GetMultiExpressionValue(node.children[0]);
        Success(Return(target, value))
  }

  /** A `Label` statement registers a jump target in the nearest block. */
  function LabelStatement(c: Chain, node: ParseNode): (r: Step<Expr>)
  {
    match FirstChildText(node)
    case Failure(e) => Step(Failure(e), c)
    case Success(labelName) =>
      if |c.scopes| == 0 then Step(Failure(NullReference), c)
      else RegisterJumpTargetStep(c, Top(c.scopes), labelName)
  }

  /** Goto resolves only to a label some enclosing block has registered under that name. */
  lemma {:induction false} GotoFindsRegisteredLabel(scopes: seq<Scope>, node: ParseNode, target: Label)
    requires GotoStatement(scopes, node) == Success(Goto(target))
    ensures |node.children| > 0 && node.children[0].token.Some?
    ensures exists j :: 0 <= j < |scopes| && scopes[j].kind.BlockScope? &&
                        node.children[0].token.value.text in scopes[j].kind.gotoLabels &&
                        scopes[j].kind.gotoLabels[node.children[0].token.value.text] == target
  {
    var labelName := node.children[0].token.value.text;
    var k := Nearest(scopes, Top(scopes), Labelled(labelName)).value;
    assert Is(scopes[k], Labelled(labelName));
  }

  /** A label statement followed by a goto naming it, in the same scope, jumps to the label it defined. */
  lemma {:induction false} LabelThenGoto(c: Chain, labelNode: ParseNode, gotoNode: ParseNode)
    requires |c.scopes| > 0 && Nearest(c.scopes, Top(c.scopes), Blocks).Some?
    requires FirstChildText(labelNode).Success? && FirstChildText(gotoNode) == FirstChildText(labelNode)
    requires LabelStatement(c, labelNode).result.Success?
    ensures var step := LabelStatement(c, labelNode);
            step.result == Success(LabelDef(Label(c.nextId))) &&
            GotoStatement(step.after.scopes, gotoNode) == Success(Goto(Label(c.nextId)))
  {
    var labelName := FirstChildText(labelNode).value;
    JumpAfterRegister(c, Top(c.scopes), labelName);
  }

  /** A break with no enclosing loop is a compiler error, whatever else is on the stack. */
  lemma {:induction false} BreakOutsideLoopFails(scopes: seq<Scope>)
    requires |scopes| > 0
    requires forall j :: 0 <= j < |scopes| ==> !scopes[j].kind.LoopScope? && !scopes[j].kind.IteratorScope?
    ensures BreakStatement(scopes) == Failure(CompilerException(BreakOutsideLoop))
  {
    assert forall j :: 0 <= j <= Top(scopes) ==> !Is(scopes[j], Loops);
  }

  // ----- The if / elseif / else fold -----

  /**
   * The right fold `CompileIfStatement` builds: the first condition guards the first
   * block, and everything after it is the else branch; `otherwise` ends the chain.
   */
  function IfChain(conditions: seq<Expr>, blocks: seq<Expr>, otherwise: Expr): Expr
    requires |conditions| == |blocks|
    decreases |conditions|
  {
    if |conditions| == 0 then otherwise
    else IfThenElse(ToBooleanExpr(conditions[0]), blocks[0], IfChain(conditions[1..], blocks[1..], otherwise))
  }

  /**
   * The branch an if-chain of `depth` levels executes under `env`: a true test takes
   * its block, a false one goes on to the else branch.
   */
  function Taken(e: Expr, env: map<Variable, Value>, depth: nat): Option<Expr>
    decreases depth
  {
    if depth == 0 then Some(e)
    else
      match e
      case IfThenElse(test, ifTrue, ifFalse) =>
        (match Eval(test, env)
         case Some(Boolean(c)) => if c then Some(ifTrue) else Taken(ifFalse, env, depth - 1)
         case _ => None)
      case _ => None
  }

  /**
   * The fold picks the block of the first condition whose value is truthy (Lua
   * truthiness).
   */
  lemma {:induction false} IfChainTakesFirstTruthy(conditions: seq<Expr>, blocks: seq<Expr>, otherwise: Expr,
                                                   env: map<Variable, Value>, values: seq<Value>, i: nat)
    requires |conditions| == |blocks| == |values|
    requires forall k :: 0 <= k < |conditions| ==> Eval(conditions[k], env) == Some(values[k])
    requires i < |values| && ToBoolean(values[i]) && forall j :: 0 <= j < i ==> !ToBoolean(values[j])
    ensures Taken(IfChain(conditions, blocks, otherwise), env, |conditions|) == Some(blocks[i])
    decreases i
  {
    var chain := IfChain(conditions, blocks, otherwise);
    var rest := IfChain(conditions[1..], blocks[1..], otherwise);
    ToBooleanExprAgrees(conditions[0], env);
    assert Eval(ToBooleanExpr(conditions[0]), env) == Some(Boolean(ToBoolean(values[0])));
    if i > 0 {
      assert !ToBoolean(values[0]);
      assert Taken(chain, env, |conditions|) == Taken(rest, env, |conditions| - 1);
      assert forall k :: 0 <= k < |conditions| - 1 ==> conditions[1..][k] == conditions[k + 1] && values[1..][k] == values[k + 1];
      IfChainTakesFirstTruthy(conditions[1..], blocks[1..], otherwise, env, values[1..], i - 1);
    }
  }

  /** The fold takes the else branch when no condition's value is truthy. */
  lemma {:induction false} IfChainFallsThrough(conditions: seq<Expr>, blocks: seq<Expr>, otherwise: Expr,
                                               env: map<Variable, Value>, values: seq<Value>)
    requires |conditions| == |blocks| == |values|
    requires forall k :: 0 <= k < |conditions| ==> Eval(conditions[k], env) == Some(values[k])
    requires forall k :: 0 <= k < |values| ==> !ToBoolean(values[k])
    ensures Taken(IfChain(conditions, blocks, otherwise), env, |conditions|) == Some(otherwise)
    decreases |conditions|
  {
    if |conditions| > 0 {
      var chain := IfChain(conditions, blocks, otherwise);
      var rest := IfChain(conditions[1..], blocks[1..], otherwise);
      ToBooleanExprAgrees(conditions[0], env);
      assert Eval(ToBooleanExpr(conditions[0]), env) == Some(Boolean(ToBoolean(values[0])));
      assert Taken(chain, env, |conditions|) == Taken(rest, env, |conditions| - 1);
      assert forall k :: 0 <= k < |conditions| - 1 ==> conditions[1..][k] == conditions[k + 1] && values[1..][k] == values[k + 1];
      IfChainFallsThrough(conditions[1..], blocks[1..], otherwise, env, values[1..]);
    }
  }

  /** Each elseif clause has a condition child, compiled to the matching condition, and a block child. */
  predicate ElseIfsCompiled(elseIfs: seq<ParseNode>, conditions: seq<Expr>) {
    |elseIfs| == |conditions| &&
    forall i :: 0 <= i < |elseIfs| ==>
      |elseIfs[i].children| >= 2 && CompileExpression(elseIfs[i].children[0]) == Success(conditions[i])
  }

  /** Adding a last level to a fold is folding onto the if-then-else of that level. */
  lemma {:induction false} IfChainSnoc(conditions: seq<Expr>, blocks: seq<Expr>, otherwise: Expr, condition: Expr, block: Expr)
    requires |conditions| == |blocks|
    ensures IfChain(conditions + [condition], blocks + [block], otherwise)
         == IfChain(conditions, blocks, IfThenElse(ToBooleanExpr(condition), block, otherwise))
    decreases |conditions|
  {
    if |conditions| == 0 {
      assert conditions + [condition] == [condition] && blocks + [block] == [block];
    } else {
      assert (conditions + [condition])[1..] == conditions[1..] + [condition];
      assert (blocks + [block])[1..] == blocks[1..] + [block];
      IfChainSnoc(conditions[1..], blocks[1..], otherwise, condition, block);
    }
  }

  /**
   * One elseif clause wrapping the chain `built`: its condition (child 0) is compiled,
   * then its block (child 1) on the stack `c`.
   */
  function ClauseStep(c: Chain, clause: ParseNode, built: Expr): (r: Step<Expr>)
    ensures r.after.scopes == c.scopes
  {
    if |clause.children| == 0 then Step(Failure(IndexOutOfRange), c)
    else
      match CompileExpression(clause.children[0])
      case Failure(e) => Step(Failure(e), c)
      case Success(condition) =>
        if |clause.children| < 2 then Step(Failure(IndexOutOfRange), c)
        else
          var block := BlockStep(c, clause.children[1]);
          match block.result
          case Failure(e) => Step(Failure(e), block.after)
          case Success(b) => Step(Success(IfThenElse(ToBooleanExpr(condition), b, built)), block.after)
  }

  /**
   * The loop of `CompileElseIfs` as a transition: the last clause is compiled first
   * (`ClauseStep`), wrapping the chain `built` so far; the clauses before it follow
   * on the stack it leaves, wrapping its result. The first failure ends the loop.
   */
  function ElseIfsStep(c: Chain, elseIfs: seq<ParseNode>, built: Expr): (r: Step<Expr>)
    decreases |elseIfs|
    ensures r.after.scopes == c.scopes
  {
    if |elseIfs| == 0 then Step(Success(built), c)
    else
      var clause := ClauseStep(c, elseIfs[|elseIfs| - 1], built);
      match clause.result
      case Failure(_) => clause
      case Success(wrapped) => ElseIfsStep(clause.after, elseIfs[..|elseIfs| - 1], wrapped)
  }

  /**
   * `CompileIfStatement` as a transition: the else block (or an empty expression) on
   * the stack `c`, then the elseif clauses in reverse, and last the primary condition
   * and block. These are children 0 and 1 of the node, the places a clause has them,
   * and they are compiled as a clause is, so the primary is the first clause of
   * `ElseIfsStep`, the one compiled last.
   */
  function IfStep(c: Chain, node: ParseNode): (r: Step<Expr>)
    ensures r.after.scopes == c.scopes
  {
    if |node.children| < 4 then Step(Failure(IndexOutOfRange), c)
    else
      var otherwise := ElseStep(c, node);
      match otherwise.result
      case Failure(e) => Step(Failure(e), otherwise.after)
      case Success(o) => ElseIfsStep(otherwise.after, [node] + node.children[2].children, o)
  }

  /** The else part of an if statement: its block compiled on `c`, or an empty expression when there is none. */
  function ElseStep(c: Chain, node: ParseNode): (r: Step<Expr>)
    requires |node.children| >= 4
    ensures r.after.scopes == c.scopes
  {
    if |node.children[3].children| > 0 then BlockStep(c, node.children[3]) else Step(Success(Empty), c)
  }

  /**
   * `IfStep` in the order the statement is compiled: the else part, then the elseif
   * clauses, then the primary clause wrapping what they built.
   */
  lemma IfStepUnfolds(c: Chain, node: ParseNode)
    requires |node.children| >= 4
    ensures IfStep(c, node)
         == (var otherwise := ElseStep(c, node);
             if otherwise.result.Failure? then Step(Failure(otherwise.result.error), otherwise.after)
             else
               var rest := ElseIfsStep(otherwise.after, node.children[2].children, otherwise.result.value);
               if rest.result.Failure? then rest else ClauseStep(rest.after, node, rest.result.value))
  {
    var otherwise := ElseStep(c, node);
    if otherwise.result.Success? {
      ElseIfsStepCons(otherwise.after, node, node.children[2].children, otherwise.result.value);
      assert [node][..0] == [];
    }
  }

  /** `ElseIfsStep` of one more clause at the front: the others are compiled first, then that one. */
  lemma {:induction false} ElseIfsStepCons(c: Chain, first: ParseNode, elseIfs: seq<ParseNode>, built: Expr)
    ensures ElseIfsStep(c, [first] + elseIfs, built)
         == (var rest := ElseIfsStep(c, elseIfs, built);
             if rest.result.Failure? then rest else ElseIfsStep(rest.after, [first], rest.result.value))
    decreases |elseIfs|
  {
    var all := [first] + elseIfs;
    if elseIfs == [] {
      assert all == [first];
    } else {
      var n := |elseIfs|;
      var last := elseIfs[n - 1];
      assert all[|all| - 1] == last && all[..|all| - 1] == [first] + elseIfs[..n - 1];
      var clause := ClauseStep(c, last, built);
      if clause.result.Success? {
        ElseIfsStepCons(clause.after, first, elseIfs[..n - 1], clause.result.value);
        assert ElseIfsStep(c, elseIfs, built) == ElseIfsStep(clause.after, elseIfs[..n - 1], clause.result.value);
        assert ElseIfsStep(c, all, built) == ElseIfsStep(clause.after, [first] + elseIfs[..n - 1], clause.result.value);
      }
    }
  }

  /**
   * A successful `ElseIfsStep` is the fold of its clauses' conditions and blocks onto
   * `built`, each condition compiled from its clause's first child (`ElseIfBlockAt`
   * says where each block comes from).
   */
  lemma {:induction false} ElseIfsStepIsChain(c: Chain, elseIfs: seq<ParseNode>, built: Expr)
    returns (conditions: seq<Expr>, blocks: seq<Expr>)
    requires ElseIfsStep(c, elseIfs, built).result.Success?
    ensures |conditions| == |blocks| == |elseIfs|
    ensures ElseIfsStep(c, elseIfs, built).result.value == IfChain(conditions, blocks, built)
    ensures ElseIfsCompiled(elseIfs, conditions)
    decreases |elseIfs|
  {
    if |elseIfs| == 0 {
      return [], [];
    }
    var n := |elseIfs|;
    var condition, b, after := ElseIfsStepUnfolds(c, elseIfs, built);
    var front := elseIfs[..n - 1];
    var cs, bs := ElseIfsStepIsChain(after, front, IfThenElse(ToBooleanExpr(condition), b, built));
    IfChainSnoc(cs, bs, built, condition, b);
    conditions, blocks := cs + [condition], bs + [b];
    ConditionsSnoc(elseIfs, front, cs, condition);
  }

  /** A fold determines its blocks and its else branch. */
  lemma {:induction false} IfChainBlocks(cs1: seq<Expr>, bs1: seq<Expr>, o1: Expr, cs2: seq<Expr>, bs2: seq<Expr>, o2: Expr)
    requires |cs1| == |bs1| == |cs2| == |bs2|
    requires IfChain(cs1, bs1, o1) == IfChain(cs2, bs2, o2)
    ensures bs1 == bs2 && o1 == o2
    decreases |cs1|
  {
    if |cs1| > 0 {
      IfChainBlocks(cs1[1..], bs1[1..], o1, cs2[1..], bs2[1..], o2);
      assert bs1 == [bs1[0]] + bs1[1..] && bs2 == [bs2[0]] + bs2[1..];
    }
  }

  /**
   * Clause `k` of a successful `ElseIfsStep` whose fold has the blocks `blocks`: block
   * `k` is `BlockStep`'s result on the clause's second child, compiled on the stack the
   * clauses after it left; it leaves the stack the clauses before it are compiled on.
   */
  lemma {:induction false} ElseIfBlockAt(c: Chain, elseIfs: seq<ParseNode>, built: Expr,
                                        conditions: seq<Expr>, blocks: seq<Expr>, k: nat)
    requires ElseIfsStep(c, elseIfs, built).result.Success?
    requires |conditions| == |blocks| == |elseIfs| && k < |elseIfs|
    requires ElseIfsStep(c, elseIfs, built).result.value == IfChain(conditions, blocks, built)
    ensures |elseIfs[k].children| >= 2
    ensures BlockStep(ElseIfsStep(c, elseIfs[k + 1..], built).after, elseIfs[k].children[1])
         == Step(Success(blocks[k]), ElseIfsStep(c, elseIfs[k..], built).after)
    decreases |elseIfs|
  {
    var n := |elseIfs|;
    var front := elseIfs[..n - 1];
    var inner, after, cs, bs := ElseIfsLastBlock(c, elseIfs, built, conditions, blocks);
    ElseIfsSuffix(c, elseIfs, front, built, k, after, inner);
    if k == n - 1 {
      assert elseIfs[k + 1..] == [] && front[k..] == [];
    } else {
      ElseIfBlockAt(after, front, inner, cs, bs, k);
      ElseIfsSuffix(c, elseIfs, front, built, k + 1, after, inner);
      assert front[k] == elseIfs[k] && blocks[k] == bs[k];
    }
  }

  /**
   * The last clause of a successful `ElseIfsStep` whose fold has the blocks `blocks`:
   * it compiles to `inner`, its block is the last of `blocks`, and the clauses before
   * it fold to the other blocks around `inner`.
   */
  lemma {:induction false} ElseIfsLastBlock(c: Chain, elseIfs: seq<ParseNode>, built: Expr,
                                           conditions: seq<Expr>, blocks: seq<Expr>)
    returns (inner: Expr, after: Chain, cs: seq<Expr>, bs: seq<Expr>)
    requires ElseIfsStep(c, elseIfs, built).result.Success?
    requires |conditions| == |blocks| == |elseIfs| > 0
    requires ElseIfsStep(c, elseIfs, built).result.value == IfChain(conditions, blocks, built)
    ensures |elseIfs[|elseIfs| - 1].children| >= 2
    ensures BlockStep(c, elseIfs[|elseIfs| - 1].children[1]) == Step(Success(blocks[|elseIfs| - 1]), after)
    ensures ClauseStep(c, elseIfs[|elseIfs| - 1], built) == Step(Success(inner), after)
    ensures ElseIfsStep(after, elseIfs[..|elseIfs| - 1], inner).result.Success?
    ensures |cs| == |bs| == |elseIfs| - 1 && bs == blocks[..|elseIfs| - 1]
    ensures ElseIfsStep(after, elseIfs[..|elseIfs| - 1], inner).result.value == IfChain(cs, bs, inner)
  {
    var condition, b;
    condition, b, after := ElseIfsStepUnfolds(c, elseIfs, built);
    inner := IfThenElse(ToBooleanExpr(condition), b, built);
    cs, bs := ElseIfsStepIsChain(after, elseIfs[..|elseIfs| - 1], inner);
    IfChainSnoc(cs, bs, built, condition, b);
    IfChainBlocks(conditions, blocks, built, cs + [condition], bs + [b], built);
    assert blocks == bs + [b];
  }

  /**
   * The clauses from the `j`-th on, when the last one compiles to `inner` leaving
   * `after`: the same steps as the clauses of `front` from the `j`-th on, from `after`.
   */
  lemma {:induction false} ElseIfsSuffix(c: Chain, elseIfs: seq<ParseNode>, front: seq<ParseNode>, built: Expr,
                                        j: nat, after: Chain, inner: Expr)
    requires j < |elseIfs| && front == elseIfs[..|elseIfs| - 1]
    requires ClauseStep(c, elseIfs[|elseIfs| - 1], built) == Step(Success(inner), after)
    ensures ElseIfsStep(c, elseIfs[j..], built) == ElseIfsStep(after, front[j..], inner)
  {
    var tail := elseIfs[j..];
    assert tail[|tail| - 1] == elseIfs[|elseIfs| - 1] && tail[..|tail| - 1] == front[j..];
  }

  /** One round of `ElseIfsStep`: the last clause compiles to `condition` and the block `b`, leaving `after`. */
  lemma {:induction false} ElseIfsStepUnfolds(c: Chain, elseIfs: seq<ParseNode>, built: Expr)
    returns (condition: Expr, b: Expr, after: Chain)
    requires |elseIfs| > 0 && ElseIfsStep(c, elseIfs, built).result.Success?
    ensures |elseIfs[|elseIfs| - 1].children| >= 2
    ensures CompileExpression(elseIfs[|elseIfs| - 1].children[0]) == Success(condition)
    ensures BlockStep(c, elseIfs[|elseIfs| - 1].children[1]) == Step(Success(b), after)
    ensures ClauseStep(c, elseIfs[|elseIfs| - 1], built) == Step(Success(IfThenElse(ToBooleanExpr(condition), b, built)), after)
    ensures ElseIfsStep(c, elseIfs, built)
         == ElseIfsStep(after, elseIfs[..|elseIfs| - 1], IfThenElse(ToBooleanExpr(condition), b, built))
    ensures ElseIfsStep(after, elseIfs[..|elseIfs| - 1], IfThenElse(ToBooleanExpr(condition), b, built)).result.Success?
    ensures ElseIfsStep(after, elseIfs[..|elseIfs| - 1], IfThenElse(ToBooleanExpr(condition), b, built)).after
         == ElseIfsStep(c, elseIfs, built).after
  {
    var elseIf := elseIfs[|elseIfs| - 1];
    condition := CompileExpression(elseIf.children[0]).value;
    var block := BlockStep(c, elseIf.children[1]);
    b, after := block.result.value, block.after;
  }

  /** The conditions of the clauses, with the last clause's appended. */
  lemma {:induction false} ConditionsSnoc(elseIfs: seq<ParseNode>, front: seq<ParseNode>, cs: seq<Expr>, condition: Expr)
    requires |elseIfs| > 0 && front == elseIfs[..|elseIfs| - 1]
    requires ElseIfsCompiled(front, cs)
    requires |elseIfs[|elseIfs| - 1].children| >= 2 && CompileExpression(elseIfs[|elseIfs| - 1].children[0]) == Success(condition)
    ensures ElseIfsCompiled(elseIfs, cs + [condition])
  {
    assert forall k :: 0 <= k < |front| ==> elseIfs[k] == front[k] && (cs + [condition])[k] == cs[k];
  }

  /** The clauses after the primary one are the elseif clauses, with their conditions. */
  lemma {:induction false} ClausesAfterPrimary(node: ParseNode, elseIfs: seq<ParseNode>, conditions: seq<Expr>)
    requires ElseIfsCompiled([node] + elseIfs, conditions)
    ensures |conditions| > 0 && CompileExpression(node.children[0]) == Success(conditions[0])
    ensures ElseIfsCompiled(elseIfs, conditions[1..])
    ensures ([node] + elseIfs)[0] == node
    ensures forall k :: 0 < k <= |elseIfs| ==> ([node] + elseIfs)[k] == elseIfs[k - 1]
  {
    assert ([node] + elseIfs)[0] == node;
    assert forall k :: 0 <= k < |elseIfs| ==> ([node] + elseIfs)[k + 1] == elseIfs[k] && conditions[1..][k] == conditions[k + 1];
  }

  /**
   * A successful `IfStep` is the fold `IfChain(conditions, blocks, otherwise)`: the
   * first condition is the compiled primary condition, the others those of the elseif
   * clauses; `otherwise` is the compiled else block, or an empty expression without
   * one; and the clauses, the primary first, are compiled on the stack the else part
   * left (`IfStepBlockAt` says where each block comes from).
   */
  lemma {:induction false} IfStepIsChain(c: Chain, node: ParseNode)
    returns (conditions: seq<Expr>, blocks: seq<Expr>, otherwise: Expr)
    requires IfStep(c, node).result.Success?
    ensures |node.children| >= 4
    ensures |conditions| == |blocks| == |node.children[2].children| + 1
    ensures IfStep(c, node).result.value == IfChain(conditions, blocks, otherwise)
    ensures CompileExpression(node.children[0]) == Success(conditions[0])
    ensures ElseIfsCompiled(node.children[2].children, conditions[1..])
    ensures ElseStep(c, node).result == Success(otherwise)
    ensures |node.children[3].children| == 0 ==> otherwise == Empty
    ensures |node.children[3].children| > 0 ==> BlockStep(c, node.children[3]).result == Success(otherwise)
    ensures IfStep(c, node) == ElseIfsStep(ElseStep(c, node).after, [node] + node.children[2].children, otherwise)
  {
    otherwise := ElseStep(c, node).result.value;
    var clauses := [node] + node.children[2].children;
    conditions, blocks := ElseIfsStepIsChain(ElseStep(c, node).after, clauses, otherwise);
    ClausesAfterPrimary(node, node.children[2].children, conditions);
  }

  /**
   * Block `k` of a successful `IfStep`, the primary block for `k == 0` and the block of
   * elseif `k - 1` otherwise, is `BlockStep`'s result on that clause's second child. It
   * is compiled on the stack the else part and the clauses after it left, and leaves
   * the stack the clause before it starts on, or the final stack for the primary.
   */
  lemma {:induction false} IfStepBlockAt(c: Chain, node: ParseNode, conditions: seq<Expr>, blocks: seq<Expr>, otherwise: Expr, k: nat)
    requires |node.children| >= 4 && IfStep(c, node).result.Success?
    requires |conditions| == |blocks| == |node.children[2].children| + 1 && k < |blocks|
    requires IfStep(c, node).result.value == IfChain(conditions, blocks, otherwise)
    ensures otherwise == ElseStep(c, node).result.value
    ensures var elseIfs := node.children[2].children;
            var start := ElseStep(c, node).after;
            var clause := if k == 0 then node else elseIfs[k - 1];
            |clause.children| >= 2 &&
            BlockStep(ElseIfsStep(start, elseIfs[k..], otherwise).after, clause.children[1])
              == Step(Success(blocks[k]), if k == 0 then IfStep(c, node).after else ElseIfsStep(start, elseIfs[k - 1..], otherwise).after)
  {
    var elseIfs := node.children[2].children;
    var start := ElseStep(c, node).after;
    var cs, bs, o := IfStepIsChain(c, node);
    IfChainBlocks(conditions, blocks, otherwise, cs, bs, o);
    var clauses := [node] + elseIfs;
    ElseIfBlockAt(start, clauses, o, cs, bs, k);
    PrimaryClauseSlices(node, elseIfs, k);
  }

  /** The clauses of an if statement, the primary first, seen from clause `k` on. */
  lemma PrimaryClauseSlices(node: ParseNode, elseIfs: seq<ParseNode>, k: nat)
    requires k <= |elseIfs|
    ensures ([node] + elseIfs)[k] == if k == 0 then node else elseIfs[k - 1]
    ensures ([node] + elseIfs)[k + 1..] == elseIfs[k..]
    ensures ([node] + elseIfs)[k..] == if k == 0 then [node] + elseIfs else elseIfs[k - 1..]
  {
  }

  /** `ElseIfsStep` on the clauses up to the `i`-th: clause `i` first, then the ones before it. */
  lemma {:induction false} ElseIfsStepLast(c: Chain, elseIfs: seq<ParseNode>, i: nat, built: Expr)
    requires i < |elseIfs|
    ensures ElseIfsStep(c, elseIfs[..i + 1], built)
         == (var clause := ClauseStep(c, elseIfs[i], built);
             if clause.result.Failure? then clause else ElseIfsStep(clause.after, elseIfs[..i], clause.result.value))
  {
    var pending := elseIfs[..i + 1];
    assert pending[|pending| - 1] == elseIfs[i] && pending[..|pending| - 1] == elseIfs[..i];
  }

  /** One round of `CompileElseIfs` puts clause `i`'s condition and block in front of the later ones. */
  lemma {:induction false} ElseIfsRound(elseIfs: seq<ParseNode>, i: nat, cs: seq<Expr>, bs: seq<Expr>, condition: Expr, block: Expr)
    requires i < |elseIfs| && ElseIfsCompiled(elseIfs[i + 1..], cs) && forall j :: 0 <= j < |bs| ==> bs[j].Block?
    requires |elseIfs[i].children| >= 2 && CompileExpression(elseIfs[i].children[0]) == Success(condition) && block.Block?
    ensures ElseIfsCompiled(elseIfs[i..], [condition] + cs)
    ensures forall j :: 0 <= j < |bs| + 1 ==> ([block] + bs)[j].Block?
  {
    assert forall j :: 0 < j < |cs| + 1 ==> elseIfs[i..][j] == elseIfs[i + 1..][j - 1] && ([condition] + cs)[j] == cs[j - 1];
    assert forall j :: 0 < j < |bs| + 1 ==> ([block] + bs)[j] == bs[j - 1];
  }

  /** What a successfully compiled statement looks like, by its term. */
  predicate Corresponds(node: ParseNode, e: Expr) {
    match node.term
    case Label => e.LabelDef?
    case Goto => e.Goto?
    case Break => e.Break?
    case Scope => e.Block?
    case LocalFunction => e.Assign? && e.newValue.Lambda?
    case ReturnStatement => e.Return?
    case _ => false
  }

  /** The statement terms `CompileStatement` throws `NotImplementedException` for. */
  const NotImplementedStatements: set<Grammar.Term> :=
    {Grammar.GlobalAssignment, Grammar.LocalAssignment, Grammar.FunctionCall, Grammar.ForLoop_Enumerable,
     Grammar.ForLoop_Iterable, Grammar.WhileLoop, Grammar.RepeatLoop, Grammar.IfStatement, Grammar.GlobalFunction}

  /** The terms `CompileExpression` compiles. */
  const ExpressionTerms: set<Grammar.Term> :=
    {Grammar.Nil, Grammar.True, Grammar.False, Grammar.Number, Grammar.String, Grammar.Variable}

  /** The statement terms `CompileStatement` compiles. */
  const CompiledStatements: set<Grammar.Term> :=
    {Grammar.Label, Grammar.Goto, Grammar.Break, Grammar.Scope, Grammar.LocalFunction, Grammar.ReturnStatement}

  /** The scope stack after a statement: unchanged, or the nearest block grown by registrations. */
  predicate StatementFrame(before: seq<Scope>, after: seq<Scope>) {
    if |before| == 0 then after == before else GrowsAt(before, after, Top(before))
  }

  /** A stack left as it was is a statement frame. */
  lemma {:induction false} StatementFrameUnchanged(s: seq<Scope>)
    ensures StatementFrame(s, s)
  {
    if |s| > 0 {
      forall j | 0 <= j < |s| && Nearest(s, Top(s), Blocks) == Some(j)
        ensures Grows(s[j], s[j])
      {
        assert s[j].kind.registeredLocals[..|s[j].kind.registeredLocals|] == s[j].kind.registeredLocals;
      }
    }
  }

  // ----- The statements that compile nested code, as transitions of the scope stack -----

  /** `Dispose` of every scope above depth `depth - 1`: the scope at `depth - 1` is current again. */
  function Leave(c: Chain, depth: nat): Chain
    requires depth <= |c.scopes|
  {
    Chain(c.scopes[..depth], c.nextId)
  }

  /** The current scope is a block, as it is while `CompileBlock` compiles its children. */
  predicate InBlock(c: Chain) {
    |c.scopes| > 0 && c.scopes[Top(c.scopes)].kind.BlockScope?
  }

  /** A block only grows: it keeps its locals, in order, and its labels. */
  lemma {:induction false} GrowsTransitive(a: Scope, b: Scope, c: Scope)
    requires Grows(a, b) && Grows(b, c)
    ensures Grows(a, c)
  {
    var la, lb, lc := a.kind.registeredLocals, b.kind.registeredLocals, c.kind.registeredLocals;
    assert lc[..|la|] == lc[..|lb|][..|la|];
  }

  /** A local of a block is still a local of every later state of that block. */
  lemma {:induction false} GrowsKeepsLocals(a: Scope, b: Scope, v: Variable)
    requires Grows(a, b) && v in a.kind.registeredLocals
    ensures v in b.kind.registeredLocals
  {
    var i :| 0 <= i < |a.kind.registeredLocals| && a.kind.registeredLocals[i] == v;
    assert b.kind.registeredLocals[..|a.kind.registeredLocals|][i] == v;
  }

  /** Inside a block, a statement frame changes nothing below the block and only grows the block. */
  lemma {:induction false} FrameInBlock(before: seq<Scope>, after: seq<Scope>)
    requires |before| > 0 && before[Top(before)].kind.BlockScope? && StatementFrame(before, after)
    ensures |after| == |before| && Grows(before[Top(before)], after[Top(before)])
    ensures forall j :: 0 <= j < Top(before) ==> after[j] == before[j]
  {
    assert Nearest(before, Top(before), Blocks) == Some(Top(before));
  }

  /**
   * `CompileStatement` as a transition of the stack: the result it returns or throws,
   * and the stack it leaves.
   */
  function StatementStep(c: Chain, node: ParseNode): (r: Step<Expr>)
    decreases node, 3
    ensures StatementFrame(c.scopes, r.after.scopes)
  {
    StatementFrameUnchanged(c.scopes);
    var term := node.term;
    if term in NotImplementedStatements then Step(Failure(NotImplemented), c)
    else if term.Label? then LabelStatement(c, node)
    else if term.Goto? then Step(GotoStatement(c.scopes, node), c)
    else if term.Break? then Step(BreakStatement(c.scopes), c)
    else if term.Scope? then BlockStep(c, node)
    else if term.LocalFunction? then LocalFunctionStep(c, node)
    else if term.ReturnStatement? then Step(ReturnStatement(c.scopes, node), c)
    else Step(Failure(CompilerException(UnrecognizedStatement(term))), c)
  }

  /**
   * `CompileBlock` as a transition: a block scope is pushed, the children are compiled
   * in order, each on the stack the previous one left (`StatementsFrom`), the block's
   * variables are read once they are all compiled, and the block scope is disposed of
   * on every path.
   */
  function BlockStep(c: Chain, node: ParseNode): (r: Step<Expr>)
    decreases node, 2
    ensures r.after.scopes == c.scopes
  {
    var d := |c.scopes|;
    var pushed := Pushed(c, BlockScope([], map[]), 1);
    var body := StatementsFrom(pushed, node, 0, []);
    assert body.after.scopes[..d] == c.scopes by {
      assert forall j :: 0 <= j < d ==> body.after.scopes[j] == pushed.scopes[j] == c.scopes[j];
    }
    var block := body.after.scopes[d];
    match body.result
    case Failure(e) => Step(Failure(e), Leave(body.after, d))
    case Success(statements) => Step(Success(Block(ObjectType, Variables(block), statements)), Leave(body.after, d))
  }

  /**
   * The children of a block from the `i`-th on: child `i` is compiled by
   * `StatementStep` on the stack `c` of that moment, and the rest on the stack it
   * leaves; `compiled` holds the first `i` statements. The first failure ends the
   * block. Nothing below the block changes, and the block only grows.
   */
  function StatementsFrom(c: Chain, node: ParseNode, i: nat, compiled: seq<Expr>): (r: Step<seq<Expr>>)
    requires InBlock(c) && i <= |node.children| && |compiled| == i
    decreases node, 1, |node.children| - i
    ensures |r.after.scopes| == |c.scopes| && Grows(c.scopes[Top(c.scopes)], r.after.scopes[Top(c.scopes)])
    ensures forall j :: 0 <= j < Top(c.scopes) ==> r.after.scopes[j] == c.scopes[j]
  {
    if i == |node.children| then
      StatementFrameUnchanged(c.scopes);
      FrameInBlock(c.scopes, c.scopes);
      Step(Success(compiled), c)
    else
      var first := StatementStep(c, node.children[i]);
      FrameInBlock(c.scopes, first.after.scopes);
      match first.result
      case Failure(e) => Step(Failure(e), first.after)
      case Success(s) =>
        var rest := StatementsFrom(first.after, node, i + 1, compiled + [s]);
        GrowsTransitive(c.scopes[Top(c.scopes)], first.after.scopes[Top(c.scopes)], rest.after.scopes[Top(c.scopes)]);
        rest
  }

  /**
   * `CompileLocalFunction` as a transition: the name is read, then the rest happens
   * on a function scope of that name (`FunctionStep`).
   */
  function LocalFunctionStep(c: Chain, node: ParseNode): (r: Step<Expr>)
    decreases node, 2
    ensures StatementFrame(c.scopes, r.after.scopes)
  {
    StatementFrameUnchanged(c.scopes);
    match FirstChildText(node)
    case Failure(e) => Step(Failure(e), c)
    case Success(name) =>
      // ChildNodes[1] or ChildNodes[2] is out of range once the function scope is pushed
      if |node.children| < 3 then Step(Failure(IndexOutOfRange), Chain(c.scopes, c.nextId + 2))
      else FunctionStep(c, name, node.children[1].children, node.children[2])
  }

  /**
   * The function scope of `CompileLocalFunction`: it is pushed, the body is compiled,
   * and only then are the parameters registered and the closure bound
   * (`ClosureStep`); the scope is disposed of on every path.
   */
  function FunctionStep(c: Chain, name: string, declared: seq<ParseNode>, bodyNode: ParseNode): (r: Step<Expr>)
    decreases bodyNode, 3
    ensures StatementFrame(c.scopes, r.after.scopes)
  {
    StatementFrameUnchanged(c.scopes);
    var fs := |c.scopes|;
    var pushed := Pushed(c, FunctionScope(name, [], Label(c.nextId + 1)), 2);
    assert pushed.scopes[..fs] == c.scopes;
    var body := BlockStep(pushed, bodyNode);
    if body.result.Failure? then Step(Failure(body.result.error), Leave(body.after, fs))
    else ClosureStep(body.after, fs, name, declared, body.result.value)
  }

  /**
   * The end of `CompileLocalFunction`, on the function scope `fs`: `Expr.Lambda`
   * enumerates the parameters, which get the identities that come next, and the
   * closure is bound (`BindStep`).
   */
  function ClosureStep(c: Chain, fs: nat, name: string, declared: seq<ParseNode>, body: Expr): (r: Step<Expr>)
    requires fs < |c.scopes| && c.scopes[fs].kind.FunctionScope?
    ensures |r.after.scopes| == fs
    ensures fs > 0 ==> GrowsAt(c.scopes[..fs], r.after.scopes, fs - 1)
    ensures fs == 0 ==> r.result.Failure?
    ensures r.result.Success? ==>
              r.result.value.Assign? && r.result.value.assignee.name == name && r.result.value.newValue.Lambda? &&
              var f := r.result.value.newValue;
              f == Lambda(body, name, f.parameters) && |f.parameters| == |declared| &&
              (forall i :: 0 <= i < |declared| ==> TokenText(declared[i]) == Success(f.parameters[i].name)) &&
              forall i :: 0 <= i < |declared| ==> f.parameters[i].id == c.nextId + i
  {
    var parameters := ParametersStep(c, fs, declared, 0, []);
    assert parameters.after.scopes[..fs] == c.scopes[..fs];
    match parameters.result
    case Failure(e) =>
      StatementFrameUnchanged(c.scopes[..fs]);
      Step(Failure(e), Leave(parameters.after, fs))
    case Success(ps) => BindStep(parameters.after, fs, name, Lambda(body, name, ps))
  }

  /**
   * The `Select` over the declared parameter names, as `Expr.Lambda` enumerates it:
   * each name from the `i`-th on becomes a new parameter of the function scope `fs`
   * in order; a name that is not a token throws and ends the enumeration.
   */
  function ParametersStep(c: Chain, fs: nat, declared: seq<ParseNode>, i: nat, registered: seq<Variable>): (r: Step<seq<Variable>>)
    requires fs < |c.scopes| && c.scopes[fs].kind.FunctionScope? && i <= |declared| && |registered| == i
    requires forall k :: 0 <= k < i ==> TokenText(declared[k]) == Success(registered[k].name)
    decreases |declared| - i
    ensures |r.after.scopes| == |c.scopes| && r.after.scopes[fs].kind.FunctionScope? && r.after.nextId >= c.nextId
    ensures forall j :: 0 <= j < |c.scopes| && j != fs ==> r.after.scopes[j] == c.scopes[j]
    ensures r.result.Success? ==>
              |r.result.value| == |declared| &&
              (forall k :: 0 <= k < i ==> r.result.value[k] == registered[k]) &&
              (forall k :: 0 <= k < |declared| ==> TokenText(declared[k]) == Success(r.result.value[k].name)) &&
              forall k :: i <= k < |declared| ==> r.result.value[k] == Variable(c.nextId + (k - i), r.result.value[k].name, ObjectType)
  {
    if i == |declared| then Step(Success(registered), c)
    else
      match TokenText(declared[i])
      case Failure(e) => Step(Failure(e), c)
      case Success(parameterName) =>
        var p := RegisterParameterStep(c, fs, parameterName);
        ParametersStep(p.after, fs, declared, i + 1, registered + [p.result.value])
  }

  /**
   * The closure is assigned to a local of the function's name registered through the
   * parent of the function scope `fs` (a null parent at the root), and the function
   * scope is disposed of.
   */
  function BindStep(c: Chain, fs: nat, name: string, closure: Expr): (r: Step<Expr>)
    requires fs < |c.scopes|
    ensures |r.after.scopes| == fs
    ensures fs == 0 ==> r.result == Failure(NullReference) && r.after.scopes == []
    ensures fs > 0 ==> GrowsAt(c.scopes[..fs], r.after.scopes, fs - 1)
    ensures fs > 0 ==> (r.result.Success? <==> RegisterLocalStep(c, fs - 1, name).result.Success?)
    ensures r.result.Success? ==>
              fs > 0 && r.result.value == Assign(RegisterLocalStep(c, fs - 1, name).result.value, closure)
  {
    if fs == 0 then Step(Failure(NullReference), Leave(c, 0))
    else
      var target := RegisterLocalStep(c, fs - 1, name);
      GrowsBelow(c.scopes, target.after.scopes, fs);
      match target.result
      case Failure(e) => Step(Failure(e), Leave(target.after, fs))
      case Success(v) => Step(Success(Assign(v, closure)), Leave(target.after, fs))
  }

  /** Binding through the parent of the function scope on top of `outer` is a statement frame of `outer`. */
  lemma {:induction false} BindFrame(c: Chain, fs: nat, name: string, closure: Expr, outer: seq<Scope>)
    requires 0 < fs < |c.scopes| && c.scopes[..fs] == outer
    ensures StatementFrame(outer, BindStep(c, fs, name, closure).after.scopes)
  {
    assert Top(outer) == fs - 1;
  }

  // ----- What compiling a local function and a block registers -----

  /**
   * Block `after` is block `before` once a closure has been bound to `v`, the
   * variable of `name`: `v` is its one local of that name, it is the only local that
   * may have been added, and a name the block already declared keeps its variable.
   */
  predicate BindsLocal(before: Scope, after: Scope, name: string, v: Variable) {
    before.kind.BlockScope? && after.kind.BlockScope? &&
    var locals := after.kind.registeredLocals;
    Named(locals, name) == [v] &&
    (forall u :: u in locals ==> u in before.kind.registeredLocals || u == v) &&
    (|Named(before.kind.registeredLocals, name)| > 0 ==> v == Named(before.kind.registeredLocals, name)[0])
  }

  /**
   * What a compiled statement did to the locals of the block it is in: a local function
   * binds its closure's variable, and any other statement leaves them as they were.
   */
  predicate LocalsAfterStatement(before: Scope, after: Scope, node: ParseNode, e: Expr) {
    if node.term.LocalFunction?
    then e.Assign? && FirstChildText(node).Success? && BindsLocal(before, after, FirstChildText(node).value, e.assignee)
    else before.kind.BlockScope? && after.kind.BlockScope? && after.kind.registeredLocals == before.kind.registeredLocals
  }

  /** A growth at the parent `fs - 1` of the function scope `fs` survives disposing of the function scope. */
  lemma {:induction false} GrowsBelow(before: seq<Scope>, after: seq<Scope>, fs: nat)
    requires 0 < fs < |before| && GrowsAt(before, after, fs - 1)
    ensures GrowsAt(before[..fs], after[..fs], fs - 1)
  {
    GrowsAtPrefix(before, after, fs - 1);
  }

  /** `RegisterLocal` on a block that succeeds binds the block's one local of the name. */
  lemma {:induction false} BindsOwnLocal(c: Chain, t: nat, name: string)
    requires t < |c.scopes| && c.scopes[t].kind.BlockScope? && RegisterLocalStep(c, t, name).result.Success?
    ensures var r := RegisterLocalStep(c, t, name);
            BindsLocal(c.scopes[t], r.after.scopes[t], name, r.result.value)
  {
    var r := RegisterLocalStep(c, t, name);
    assert Nearest(c.scopes, t, Blocks) == Some(t);
    var locals := c.scopes[t].kind.registeredLocals;
    var existing := Named(locals, name);
    if |existing| == 0 {
      NamedAppend(locals, r.result.value, name);
    } else {
      assert existing == [existing[0]];
    }
  }

  /**
   * The closure compiled on the function scope `fs`, `r`, is bound to the local of its
   * name in the block just below, which the parameter registrations leave alone.
   */
  lemma {:induction false} ClosureBindsLocal(c: Chain, fs: nat, name: string, declared: seq<ParseNode>, body: Expr, r: Step<Expr>)
    requires 0 < fs < |c.scopes| && c.scopes[fs].kind.FunctionScope? && c.scopes[fs - 1].kind.BlockScope?
    requires r == ClosureStep(c, fs, name, declared, body) && r.result.Success?
    ensures r.result.value.Assign? && BindsLocal(c.scopes[fs - 1], r.after.scopes[fs - 1], name, r.result.value.assignee)
  {
    var parameters := ParametersStep(c, fs, declared, 0, []);
    assert parameters.result.Success? && parameters.after.scopes[fs - 1] == c.scopes[fs - 1];
    var closure := Lambda(body, name, parameters.result.value);
    assert ClosureStep(c, fs, name, declared, body) == BindStep(parameters.after, fs, name, closure);
    BindBindsLocal(parameters.after, fs, name, closure);
  }

  /** Binding a closure through the block below the function scope `fs` binds that block's local. */
  lemma {:induction false} BindBindsLocal(c: Chain, fs: nat, name: string, closure: Expr)
    requires 0 < fs < |c.scopes| && c.scopes[fs - 1].kind.BlockScope? && BindStep(c, fs, name, closure).result.Success?
    ensures var r := BindStep(c, fs, name, closure);
            r.result.value.Assign? && BindsLocal(c.scopes[fs - 1], r.after.scopes[fs - 1], name, r.result.value.assignee)
  {
    BindsOwnLocal(c, fs - 1, name);
    var target := RegisterLocalStep(c, fs - 1, name);
    assert BindStep(c, fs, name, closure).after.scopes[fs - 1] == target.after.scopes[fs - 1];
  }

  /**
   * A local function compiled in a block binds its closure to the block's one local of
   * its name, which a read of the name from the block then finds; a name the block
   * already declared is bound to that same variable again, and no other local appears.
   */
  lemma {:induction false} LocalFunctionBindsBlockLocal(c: Chain, node: ParseNode)
    requires InBlock(c) && LocalFunctionStep(c, node).result.Success?
    ensures var r := LocalFunctionStep(c, node);
            var t := Top(c.scopes);
            FirstChildText(node).Success? && r.result.value.Assign? &&
            var name := FirstChildText(node).value;
            var v := r.result.value.assignee;
            BindsLocal(c.scopes[t], r.after.scopes[t], name, v) &&
            GetVariableForRead(r.after.scopes, t, name) == Success(VarRef(v))
  {
    assert FirstChildText(node).Success? && |node.children| >= 3;
    var r := LocalFunctionStep(c, node);
    var t := Top(c.scopes);
    var name := FirstChildText(node).value;
    LocalFunctionUnfolds(c, node);
    assert t == |c.scopes| - 1;
    FunctionBindsLocal(c, name, node.children[1].children, node.children[2], r);
    BindsLocalNamed(c.scopes[t], r.after.scopes[t], name, r.result.value.assignee);
    BoundLocalIsRead(r.after.scopes, t, name, r.result.value.assignee);
  }

  /** `LocalFunctionBindsBlockLocal`, on the function scope of `FunctionStep`, whose step is `r`. */
  lemma {:induction false} FunctionBindsLocal(c: Chain, name: string, declared: seq<ParseNode>, bodyNode: ParseNode, r: Step<Expr>)
    requires InBlock(c) && r == FunctionStep(c, name, declared, bodyNode) && r.result.Success?
    ensures r.result.value.Assign? && |r.after.scopes| == |c.scopes| &&
            BindsLocal(c.scopes[|c.scopes| - 1], r.after.scopes[|c.scopes| - 1], name, r.result.value.assignee)
  {
    var body := FunctionBodyStep(c, name, declared, bodyNode);
    ClosureBindsLocal(body.after, |c.scopes|, name, declared, body.result.value, r);
  }

  /** A successful `FunctionStep` is `ClosureStep` on the stack its body leaves, whose function scope is on top. */
  lemma {:induction false} FunctionBodyStep(c: Chain, name: string, declared: seq<ParseNode>, bodyNode: ParseNode)
    returns (body: Step<Expr>)
    requires InBlock(c) && FunctionStep(c, name, declared, bodyNode).result.Success?
    ensures body.result.Success? && |body.after.scopes| == |c.scopes| + 1
    ensures body.after.scopes[|c.scopes| - 1] == c.scopes[|c.scopes| - 1] && body.after.scopes[|c.scopes|].kind.FunctionScope?
    ensures FunctionStep(c, name, declared, bodyNode) == ClosureStep(body.after, |c.scopes|, name, declared, body.result.value)
  {
    body := BlockStep(Pushed(c, FunctionScope(name, [], Label(c.nextId + 1)), 2), bodyNode);
    FunctionUnfolds(c, name, declared, bodyNode);
  }

  /** Binding `v` leaves it the block's one local of `name`. */
  lemma BindsLocalNamed(before: Scope, after: Scope, name: string, v: Variable)
    requires BindsLocal(before, after, name, v)
    ensures after.kind.BlockScope? && Named(after.kind.registeredLocals, name) == [v]
  {
  }

  /** A block whose one local of `name` is `v` resolves a read of `name` to `v`. */
  lemma {:induction false} BoundLocalIsRead(scopes: seq<Scope>, t: nat, name: string, v: Variable)
    requires t < |scopes| && scopes[t].kind.BlockScope? && Named(scopes[t].kind.registeredLocals, name) == [v]
    ensures GetVariableForRead(scopes, t, name) == Success(VarRef(v))
  {
    assert LocalVariables(scopes[t]) == scopes[t].kind.registeredLocals;
    assert v in Named(LocalVariables(scopes[t]), name);
    assert Nearest(scopes, t, Declaring(name)) == Some(t);
  }

  /**
   * A local function's body is compiled on a function scope that has no parameters
   * yet; the parameters are created after it, with the identities that follow the
   * body's.
   */
  lemma {:induction false} ParametersAfterBody(c: Chain, node: ParseNode)
    requires LocalFunctionStep(c, node).result.Success?
    ensures var r := LocalFunctionStep(c, node);
            FirstChildText(node).Success? && |node.children| >= 3 &&
            r.result.value.Assign? && r.result.value.newValue.Lambda? &&
            var f := r.result.value.newValue;
            var name := FirstChildText(node).value;
            var body := BlockStep(Pushed(c, FunctionScope(name, [], Label(c.nextId + 1)), 2), node.children[2]);
            body.result == Success(f.body) &&
            forall k :: 0 <= k < |f.parameters| ==> f.parameters[k].id == body.after.nextId + k
  {
    assert FirstChildText(node).Success? && |node.children| >= 3;
    var name := FirstChildText(node).value;
    LocalFunctionUnfolds(c, node);
    FunctionParametersAfterBody(c, name, node.children[1].children, node.children[2]);
  }

  /** A local function with a name and three children is compiled by `FunctionStep`. */
  lemma {:induction false} LocalFunctionUnfolds(c: Chain, node: ParseNode)
    requires FirstChildText(node).Success? && |node.children| >= 3
    ensures LocalFunctionStep(c, node) == FunctionStep(c, FirstChildText(node).value, node.children[1].children, node.children[2])
  {
  }

  /** `ParametersAfterBody`, on the function scope of `FunctionStep`. */
  lemma {:induction false} FunctionParametersAfterBody(c: Chain, name: string, declared: seq<ParseNode>, bodyNode: ParseNode)
    requires FunctionStep(c, name, declared, bodyNode).result.Success?
    ensures var r := FunctionStep(c, name, declared, bodyNode);
            r.result.value.Assign? && r.result.value.newValue.Lambda? &&
            var f := r.result.value.newValue;
            var body := BlockStep(Pushed(c, FunctionScope(name, [], Label(c.nextId + 1)), 2), bodyNode);
            body.result == Success(f.body) &&
            forall k :: 0 <= k < |f.parameters| ==> f.parameters[k].id == body.after.nextId + k
  {
    FunctionUnfolds(c, name, declared, bodyNode);
  }

  /**
   * `FunctionStep` fails when its body does, and otherwise is `ClosureStep` on the
   * stack the body leaves.
   */
  lemma {:induction false} FunctionUnfolds(c: Chain, name: string, declared: seq<ParseNode>, bodyNode: ParseNode)
    ensures var body := BlockStep(Pushed(c, FunctionScope(name, [], Label(c.nextId + 1)), 2), bodyNode);
            var r := FunctionStep(c, name, declared, bodyNode);
            (body.result.Failure? ==> r.result == Failure(body.result.error)) &&
            (body.result.Success? ==> r == ClosureStep(body.after, |c.scopes|, name, declared, body.result.value))
  {
    var body := BlockStep(Pushed(c, FunctionScope(name, [], Label(c.nextId + 1)), 2), bodyNode);
    if body.result.Failure? {
      assert FunctionStep(c, name, declared, bodyNode) == Step(Failure(body.result.error), Leave(body.after, |c.scopes|));
    } else {
      assert FunctionStep(c, name, declared, bodyNode) == ClosureStep(body.after, |c.scopes|, name, declared, body.result.value);
    }
  }

  /** What a compiled statement did to the locals of the enclosing block, by its term. */
  lemma {:induction false} StatementLocals(c: Chain, node: ParseNode)
    requires InBlock(c) && StatementStep(c, node).result.Success?
    ensures var r := StatementStep(c, node);
            |r.after.scopes| == |c.scopes| &&
            LocalsAfterStatement(c.scopes[Top(c.scopes)], r.after.scopes[Top(c.scopes)], node, r.result.value)
  {
    var r := StatementStep(c, node);
    FrameInBlock(c.scopes, r.after.scopes);
    if node.term.LocalFunction? {
      LocalFunctionBindsBlockLocal(c, node);
    } else if node.term.Label? {
      assert Nearest(c.scopes, Top(c.scopes), Blocks) == Some(Top(c.scopes));
    }
  }

  /**
   * The locals of a block after its children from the `i`-th on are compiled: each
   * local function among those children has its variable there, and every local that
   * was not there before is the variable of one of them.
   */
  lemma {:induction false} StatementsLocals(c: Chain, node: ParseNode, i: nat, compiled: seq<Expr>)
    requires InBlock(c) && i <= |node.children| && |compiled| == i
    requires StatementsFrom(c, node, i, compiled).result.Success?
    ensures var r := StatementsFrom(c, node, i, compiled);
            var before := c.scopes[Top(c.scopes)].kind.registeredLocals;
            var after := r.after.scopes[Top(c.scopes)].kind.registeredLocals;
            var statements := r.result.value;
            |statements| == |node.children| &&
            (forall k :: 0 <= k < i ==> statements[k] == compiled[k]) &&
            (forall k :: i <= k < |node.children| && node.children[k].term.LocalFunction? ==>
               statements[k].Assign? && statements[k].assignee in after) &&
            (forall v :: v in after ==>
               v in before ||
               exists k :: i <= k < |node.children| && node.children[k].term.LocalFunction? &&
                 statements[k].Assign? && statements[k].assignee == v)
    decreases |node.children| - i
  {
    if i < |node.children| {
      var t := Top(c.scopes);
      var first := StatementStep(c, node.children[i]);
      var s := first.result.value;
      FrameInBlock(c.scopes, first.after.scopes);
      StatementLocals(c, node.children[i]);
      var rest := StatementsFrom(first.after, node, i + 1, compiled + [s]);
      StatementsLocals(first.after, node, i + 1, compiled + [s]);
      assert rest.result.value[i] == s;
      if node.children[i].term.LocalFunction? {
        var name := FirstChildText(node.children[i]).value;
        assert s.assignee in Named(first.after.scopes[t].kind.registeredLocals, name);
        GrowsKeepsLocals(first.after.scopes[t], rest.after.scopes[t], s.assignee);
      }
    }
  }

  /**
   * The variables of a compiled block after its environment are exactly the variables
   * its local functions were assigned to, whatever else its statements did.
   */
  lemma {:induction false} BlockLocals(c: Chain, node: ParseNode)
    requires BlockStep(c, node).result.Success?
    ensures var b := BlockStep(c, node).result.value;
            b.Block? && |b.statements| == |node.children| && |b.variables| >= 1 &&
            (forall i :: 0 <= i < |node.children| && node.children[i].term.LocalFunction? ==>
               b.statements[i].Assign? && b.statements[i].assignee in b.variables[1..]) &&
            (forall v :: v in b.variables[1..] ==>
               exists i :: 0 <= i < |node.children| && node.children[i].term.LocalFunction? &&
                 b.statements[i].Assign? && b.statements[i].assignee == v)
  {
    var d := |c.scopes|;
    var pushed := Pushed(c, BlockScope([], map[]), 1);
    var body := StatementsFrom(pushed, node, 0, []);
    StatementsLocals(pushed, node, 0, []);
    assert Variables(body.after.scopes[d])[1..] == body.after.scopes[d].kind.registeredLocals;
  }

  /** The code generator; `chain` holds `CurrentScope` and the scopes it reaches. */
  class Generator {
    const chain: ScopeChain

    predicate Valid()
      reads this, chain
    {
      chain.Valid()
    }

    /** A generator starts with no current scope. */
    constructor()
      ensures Valid() && chain.scopes == []
    {
      chain := new ScopeChain();
    }

    /**
     * `CompileBlock`: pushes a block scope, compiles the children in order and
     * disposes of the scope on every path (`using`). The block's variables are read
     * after the statements are compiled, so they include the locals the statements
     * registered.
     */
    method CompileBlock(parseNode: ParseNode) returns (r: Result<Expr, Exception>)
      requires Valid()
      modifies chain
      decreases parseNode, 1
      ensures Valid()
      ensures forall before :: before == old(chain.State()) ==> Step(r, chain.State()) == BlockStep(before, parseNode)
      ensures chain.scopes == old(chain.scopes)
      ensures chain.nextId > old(chain.nextId)
      ensures r.Success? ==>
                r.value.Block? && r.value.ty == ObjectType &&
                |r.value.statements| == |parseNode.children| &&
                (forall i :: 0 <= i < |parseNode.children| ==> Corresponds(parseNode.children[i], r.value.statements[i])) &&
                |r.value.variables| >= 1 && r.value.variables[0] == EnvironmentFor(old(chain.nextId)) &&
                DistinctNames(r.value.variables[1..])
    {
      ghost var outer := chain.scopes;
      ghost var firstId := chain.nextId;
      chain.PushBlock();
      ghost var pushed := chain.State();
      var d := |chain.scopes| - 1;
      var statements: seq<Expr> := [];
      var i := 0;
      while i < |parseNode.children|
        invariant Valid()
        invariant 0 <= i <= |parseNode.children| && |statements| == i
        invariant |chain.scopes| == d + 1 && d == |outer|
        invariant forall j :: 0 <= j < d ==> chain.scopes[j] == outer[j]
        invariant chain.scopes[d].kind.BlockScope? && chain.scopes[d].environment == EnvironmentFor(firstId)
        invariant chain.nextId > firstId
        invariant forall k :: 0 <= k < i ==> Corresponds(parseNode.children[k], statements[k])
        invariant InBlock(chain.State())
        invariant StatementsFrom(chain.State(), parseNode, i, statements) == StatementsFrom(pushed, parseNode, 0, [])
      {
        ghost var before := chain.State();
        var compiled := CompileStatement(parseNode.children[i]);
        FrameInBlock(before.scopes, chain.scopes);
        if compiled.Failure? {
          chain.Pop();
          assert chain.scopes == outer;
          return Failure(compiled.error);
        }
        statements := statements + [compiled.value];
        i := i + 1;
      }
      var scope := chain.scopes[d];
      var variables := Variables(scope);
      assert variables[1..] == scope.kind.registeredLocals;
      chain.Pop();
      assert chain.scopes == outer;
      r := Success(Block(ObjectType, variables, statements));
    }

    /**
     * `CompileStatement`: dispatch on the term name. Label, Goto, Break and Return
     * go to the scope stack; Scope and LocalFunction compile nested code; the
     * unimplemented kinds throw, and an unknown term is a compiler error.
     */
    method CompileStatement(parseNode: ParseNode) returns (r: Result<Expr, Exception>)
      requires Valid()
      modifies chain
      decreases parseNode, 2
      ensures Valid()
      ensures forall before :: before == old(chain.State()) ==> Step(r, chain.State()) == StatementStep(before, parseNode)
      ensures StatementFrame(old(chain.scopes), chain.scopes)
      ensures chain.nextId >= old(chain.nextId)
      ensures r.Success? ==> Corresponds(parseNode, r.value)
      ensures parseNode.term in NotImplementedStatements ==>
                r == Failure(NotImplemented) && chain.State() == old(chain.State())
      ensures parseNode.term !in NotImplementedStatements && parseNode.term !in CompiledStatements ==>
                r == Failure(CompilerException(UnrecognizedStatement(parseNode.term))) && chain.State() == old(chain.State())
      ensures parseNode.term.Label? ==> Step(r, chain.State()) == LabelStatement(old(chain.State()), parseNode)
      ensures parseNode.term.Goto? ==> r == GotoStatement(old(chain.scopes), parseNode) && chain.State() == old(chain.State())
      ensures parseNode.term.Break? ==> r == BreakStatement(old(chain.scopes)) && chain.State() == old(chain.State())
      ensures parseNode.term.ReturnStatement? ==>
                r == ReturnStatement(old(chain.scopes), parseNode) && chain.State() == old(chain.State())
      ensures parseNode.term.Scope? ==> chain.scopes == old(chain.scopes)
    {
      StatementFrameUnchanged(chain.scopes);
      var term := parseNode.term;
      if term in NotImplementedStatements {
        r := Failure(NotImplemented);
      } else if term.Label? {
        var labelName := FirstChildText(parseNode);
        if labelName.Failure? {
          return Failure(labelName.error);
        }
        if |chain.scopes| == 0 {
          return Failure(NullReference);
        }
        r := chain.RegisterJumpTarget(|chain.scopes| - 1, labelName.value);
      } else if term.Goto? {
        r := GotoStatement(chain.scopes, parseNode);
      } else if term.Break? {
        r := BreakStatement(chain.scopes);
      } else if term.Scope? {
        r := CompileBlock(parseNode);
      } else if term.LocalFunction? {
        r := CompileLocalFunction(parseNode);
      } else if term.ReturnStatement? {
        r := ReturnStatement(chain.scopes, parseNode);
      } else {
        r := Failure(CompilerException(UnrecognizedStatement(term)));
      }
    }

    /**
     * `CompileLocalFunction`: the name is read, a function scope is pushed, the body
     * is compiled, and only then are the parameters registered, in declaration
     * order, as `Expr.Lambda` enumerates the lazy `Select`. The closure is assigned
     * to a local of the function's name registered through the function scope's
     * parent, and the function scope is disposed of on every path.
     */
    method CompileLocalFunction(parseNode: ParseNode) returns (r: Result<Expr, Exception>)
      requires Valid()
      modifies chain
      decreases parseNode, 0
      ensures Valid()
      ensures forall before :: before == old(chain.State()) ==> Step(r, chain.State()) == LocalFunctionStep(before, parseNode)
      ensures StatementFrame(old(chain.scopes), chain.scopes)
      ensures chain.nextId >= old(chain.nextId)
      ensures FirstChildText(parseNode).Failure? ==>
                r == Failure(FirstChildText(parseNode).error) && chain.State() == old(chain.State())
      ensures |old(chain.scopes)| == 0 && FirstChildText(parseNode).Success? ==> r.Failure?
      ensures r.Success? ==>
                |parseNode.children| >= 3 &&
                var name := FirstChildText(parseNode).value;
                var declared := parseNode.children[1].children;
                r.value.Assign? && r.value.assignee.name == name &&
                r.value.newValue.Lambda? && r.value.newValue.name == name && r.value.newValue.body.Block? &&
                |r.value.newValue.parameters| == |declared| &&
                forall i :: 0 <= i < |declared| ==>
                  TokenText(declared[i]) == Success(r.value.newValue.parameters[i].name)
    {
      var name := FirstChildText(parseNode);
      if name.Failure? {
        StatementFrameUnchanged(chain.scopes);
        return Failure(name.error);
      }
      ghost var outer := chain.scopes;
      chain.PushFunction(name.value);
      var fs := |chain.scopes| - 1;
      if |parseNode.children| < 2 {
        LeaveFunction(outer);
        return Failure(IndexOutOfRange);
      }
      var declared := parseNode.children[1].children;
      if |parseNode.children| < 3 {
        LeaveFunction(outer);
        return Failure(IndexOutOfRange);
      }
      ghost var pushed := chain.State();
      var body := CompileBlock(parseNode.children[2]);
      assert Step(body, chain.State()) == BlockStep(pushed, parseNode.children[2]);
      if body.Failure? {
        LeaveFunction(outer);
        return Failure(body.error);
      }
      // Expr.Lambda materialises the parameters only now
      var parameters := RegisterParameters(fs, declared);
      if parameters.Failure? {
        LeaveFunction(outer);
        return Failure(parameters.error);
      }
      var closure := Lambda(body.value, name.value, parameters.value);
      r := BindClosure(fs, name.value, closure, outer);
    }

    /** The function scope on top of `outer` is disposed of (`using`), leaving `outer` as it was. */
    method LeaveFunction(ghost outer: seq<Scope>)
      requires Valid() && |chain.scopes| == |outer| + 1 && chain.scopes[..|outer|] == outer
      modifies chain
      ensures Valid() && chain.State() == Leave(old(chain.State()), |outer|)
      ensures chain.scopes == outer && StatementFrame(outer, chain.scopes)
    {
      chain.Pop();
      StatementFrameUnchanged(outer);
    }

    /**
     * The end of `CompileLocalFunction`: the closure is assigned to a local of the
     * function's name registered through the parent of the function scope `fs`
     * (there is none at the root), and the function scope is disposed of.
     */
    method BindClosure(fs: nat, name: string, closure: Expr, ghost outer: seq<Scope>) returns (r: Result<Expr, Exception>)
      requires Valid() && fs == |outer| && |chain.scopes| == fs + 1 && chain.scopes[..fs] == outer
      modifies chain
      ensures Valid()
      ensures Step(r, chain.State()) == BindStep(old(chain.State()), fs, name, closure)
      ensures StatementFrame(outer, chain.scopes) && chain.nextId >= old(chain.nextId)
      ensures fs == 0 ==> r.Failure?
      ensures r.Success? ==> r.value.Assign? && r.value.assignee.name == name && r.value.newValue == closure
    {
      if fs == 0 {
        // fs.ParentScope is null
        LeaveFunction(outer);
        return Failure(NullReference);
      }
      ghost var start := chain.State();
      var targetLocal := chain.RegisterLocal(fs - 1, name);
      ghost var registered := chain.State();
      chain.Pop();
      assert chain.State() == Leave(registered, fs);
      BindFrame(start, fs, name, closure, outer);
      if targetLocal.Failure? {
        return Failure(targetLocal.error);
      }
      r := Success(Assign(targetLocal.value, closure));
    }

    /**
     * The parameter loop of `CompileLocalFunction`: each declared name, in order,
     * becomes a parameter of the function scope `fs`; a name that is not a token
     * stops the loop with its exception.
     */
    method RegisterParameters(fs: nat, declared: seq<ParseNode>) returns (r: Result<seq<Variable>, Exception>)
      requires Valid() && fs == |chain.scopes| - 1 && chain.scopes[fs].kind.FunctionScope?
      modifies chain
      ensures Valid()
      ensures Step(r, chain.State()) == ParametersStep(old(chain.State()), fs, declared, 0, [])
      ensures |chain.scopes| == fs + 1 && chain.scopes[..fs] == old(chain.scopes[..fs])
      ensures chain.scopes[fs].kind.FunctionScope?
      ensures chain.nextId >= old(chain.nextId)
      ensures r.Success? ==>
                |r.value| == |declared| &&
                forall j :: 0 <= j < |declared| ==> TokenText(declared[j]) == Success(r.value[j].name)
    {
      ghost var start := chain.State();
      ghost var outer := chain.scopes[..fs];
      var parameters: seq<Variable> := [];
      var i := 0;
      while i < |declared|
        invariant Valid()
        invariant 0 <= i <= |declared| && |parameters| == i
        invariant |chain.scopes| == fs + 1 && chain.scopes[..fs] == outer
        invariant chain.scopes[fs].kind.FunctionScope?
        invariant chain.nextId >= old(chain.nextId)
        invariant forall j :: 0 <= j < i ==> TokenText(declared[j]) == Success(parameters[j].name)
        invariant ParametersStep(chain.State(), fs, declared, i, parameters) == ParametersStep(start, fs, declared, 0, [])
      {
        var parameterName := TokenText(declared[i]);
        if parameterName.Failure? {
          return Failure(parameterName.error);
        }
        var p := chain.RegisterParameter(fs, parameterName.value);
        assert chain.scopes[..fs] == outer;
        parameters := parameters + [p];
        i := i + 1;
      }
      return Success(parameters);
    }
    /**
     * `CompileIfStatement`: the else block, or an empty expression, is compiled first;
     * then the elseif clauses in reverse, each wrapping the chain so far; then the
     * primary condition and block.
     */
    method CompileIfStatement(parseNode: ParseNode) returns (r: Result<Expr, Exception>,
                                                            ghost conditions: seq<Expr>, ghost blocks: seq<Expr>,
                                                            ghost otherwise: Expr)
      requires Valid()
      modifies chain
      ensures Valid()
      ensures forall before :: before == old(chain.State()) ==> Step(r, chain.State()) == IfStep(before, parseNode)
      ensures chain.scopes == old(chain.scopes)
      ensures r.Success? ==>
                |parseNode.children| >= 4 &&
                |conditions| == |blocks| == |parseNode.children[2].children| + 1 &&
                r.value == IfChain(conditions, blocks, otherwise) &&
                CompileExpression(parseNode.children[0]) == Success(conditions[0]) &&
                ElseIfsCompiled(parseNode.children[2].children, conditions[1..]) &&
                (forall i :: 0 <= i < |blocks| ==> blocks[i].Block?) &&
                (if |parseNode.children[3].children| == 0 then otherwise == Empty else otherwise.Block?)
    {
      conditions, blocks, otherwise := [], [], Empty;
      if |parseNode.children| < 4 {
        // ChildNodes[2] or ChildNodes[3] is out of range
        return Failure(IndexOutOfRange), conditions, blocks, otherwise;
      }
      IfStepUnfolds(chain.State(), parseNode);
      var elsePart := CompileElse(parseNode);
      if elsePart.Failure? {
        return Failure(elsePart.error), conditions, blocks, otherwise;
      }
      otherwise := elsePart.value;
      var elseIfChain;
      elseIfChain, conditions, blocks := CompileElseIfs(parseNode.children[2].children, elsePart.value);
      if elseIfChain.Failure? {
        return elseIfChain, conditions, blocks, otherwise;
      }
      // the primary clause has its condition and block where an elseif clause has them
      ghost var condition, block;
      r, condition, block := CompileElseIf(parseNode, elseIfChain.value);
      if r.Success? {
        ghost var laterConditions, laterBlocks := conditions, blocks;
        conditions, blocks := [condition] + conditions, [block] + blocks;
        assert conditions[1..] == laterConditions && blocks[1..] == laterBlocks;
      }
    }

    /** The else part of an if statement: its block, or an empty expression when it has none. */
    method CompileElse(parseNode: ParseNode) returns (r: Result<Expr, Exception>)
      requires Valid() && |parseNode.children| >= 4
      modifies chain
      ensures Valid()
      ensures forall before :: before == old(chain.State()) ==> Step(r, chain.State()) == ElseStep(before, parseNode)
      ensures chain.scopes == old(chain.scopes)
      ensures r.Success? ==> if |parseNode.children[3].children| == 0 then r.value == Empty else r.value.Block?
    {
      if |parseNode.children[3].children| > 0 {
        r := CompileBlock(parseNode.children[3]);
      } else {
        r := Success(Empty);
      }
    }

    /**
     * One round of `CompileElseIfs`: the clause's condition, then its block, wrapping
     * the chain `built`.
     */
    method CompileElseIf(elseIf: ParseNode, built: Expr) returns (r: Result<Expr, Exception>, ghost condition: Expr, ghost block: Expr)
      requires Valid()
      modifies chain
      ensures Valid()
      ensures forall before :: before == old(chain.State()) ==> Step(r, chain.State()) == ClauseStep(before, elseIf, built)
      ensures chain.scopes == old(chain.scopes)
      ensures r.Success? ==>
                |elseIf.children| >= 2 && CompileExpression(elseIf.children[0]) == Success(condition) &&
                block.Block? && r.value == IfThenElse(ToBooleanExpr(condition), block, built)
    {
      condition, block := Empty, Empty;
      ghost var before := chain.State();
      if |elseIf.children| == 0 {
        return Failure(IndexOutOfRange), condition, block;
      }
      var compiledCondition := CompileExpression(elseIf.children[0]);
      if compiledCondition.Failure? {
        return Failure(compiledCondition.error), condition, block;
      }
      if |elseIf.children| < 2 {
        return Failure(IndexOutOfRange), condition, block;
      }
      var compiledBlock := CompileBlock(elseIf.children[1]);
      assert Step(compiledBlock, chain.State()) == BlockStep(before, elseIf.children[1]);
      if compiledBlock.Failure? {
        return Failure(compiledBlock.error), condition, block;
      }
      condition, block := compiledCondition.value, compiledBlock.value;
      r := Success(IfThenElse(ToBooleanExpr(compiledCondition.value), compiledBlock.value, built));
    }

    /** The `foreach` over the reversed elseif clauses, each wrapping the chain built so far. */
    method CompileElseIfs(elseIfs: seq<ParseNode>, otherwise: Expr)
      returns (r: Result<Expr, Exception>, ghost conditions: seq<Expr>, ghost blocks: seq<Expr>)
      requires Valid()
      modifies chain
      ensures Valid()
      ensures forall before :: before == old(chain.State()) ==> Step(r, chain.State()) == ElseIfsStep(before, elseIfs, otherwise)
      ensures chain.scopes == old(chain.scopes)
      ensures r.Success? ==>
                |conditions| == |blocks| == |elseIfs| &&
                r.value == IfChain(conditions, blocks, otherwise) &&
                ElseIfsCompiled(elseIfs, conditions) &&
                (forall i :: 0 <= i < |blocks| ==> blocks[i].Block?)
    {
      conditions, blocks := [], [];
      ghost var start := chain.State();
      var ifStatement := otherwise;
      var i := |elseIfs|;
      assert elseIfs[..i] == elseIfs;
      while i > 0
        invariant Valid()
        invariant 0 <= i <= |elseIfs|
        invariant chain.scopes == old(chain.scopes)
        invariant |conditions| == |blocks| == |elseIfs| - i
        invariant ifStatement == IfChain(conditions, blocks, otherwise)
        invariant ElseIfsCompiled(elseIfs[i..], conditions)
        invariant forall j :: 0 <= j < |blocks| ==> blocks[j].Block?
        invariant ElseIfsStep(chain.State(), elseIfs[..i], ifStatement) == ElseIfsStep(start, elseIfs, otherwise)
        decreases i
      {
        i := i - 1;
        ElseIfsStepLast(chain.State(), elseIfs, i, ifStatement);
        var clause, condition, block := CompileElseIf(elseIfs[i], ifStatement);
        if clause.Failure? {
          return clause, conditions, blocks;
        }
        ElseIfsRound(elseIfs, i, conditions, blocks, condition, block);
        ifStatement := clause.value;
        conditions, blocks := [condition] + conditions, [block] + blocks;
      }
      r := Success(ifStatement);
    }
  }
}
