// Effect inference of types/effects_infer.go: the walkers that collect the
// effect labels of a function body, over the syntax they visit.
module Effects {

  datatype Label = IO | FS | Net | Time | Meta

  // A variable as the walkers see it: a function with its effects, or not.
  datatype Binding = Fun(effects: set<Label>) | Plain

  type Env = map<string, Binding>

  datatype Param = Param(name: string, binding: Binding)

  datatype Expr =
    | Chain(operands: seq<Expr>)                  // operands joined by operators, or one under a unary operator
    | Postfix(target: Expr, ops: seq<PostOp>)
    | Call(fn: string, args: seq<Expr>)
    | Group(inner: Expr)
    | Fetch | Load | Save
    | Name(id: string)                            // a selector without tail
    | FunLit(params: seq<Param>, body: seq<Stmt>)
    | Unvisited                                   // every other primary

  datatype PostOp =
    | CallOp(args: seq<Expr>)
    | IndexOp(bounds: seq<Expr>)
    | OtherOp

  datatype Stmt =
    | Eval(exprs: seq<Expr>)                      // let, var, assign, return, expression, update
    | Control(exprs: seq<Expr>, body: seq<Stmt>)  // if with all its branches, while, for
    | FetchInto(exprs: seq<Expr>)
    | UnvisitedStmt

  // GetVar, and the effects of the function it finds.
  function Lookup(env: Env, x: string): set<Label> {
    if x in env && env[x].Fun? then env[x].effects else {}
  }

  // funBodyEnv: the parameters shadow the surrounding bindings.
  function Bind(env: Env, params: seq<Param>): Env
    decreases |params|
  {
    if params == [] then env else Bind(env[params[0].name := params[0].binding], params[1..])
  }

  // A parameter that none of its name follows shadows what the name was bound to.
  lemma {:induction false} BindParam(env: Env, params: seq<Param>, i: nat)
    requires i < |params| && forall j | i < j < |params| :: params[j].name != params[i].name
    ensures params[i].name in Bind(env, params) && Bind(env, params)[params[i].name] == params[i].binding
    decreases |params|
  {
    var env', rest := env[params[0].name := params[0].binding], params[1..];
    if i == 0 {
      BindOther(env', rest, params[0].name);
    } else {
      BindParam(env', rest, i - 1);
    }
  }

  // All other names keep their bindings.
  lemma {:induction false} BindOther(env: Env, params: seq<Param>, x: string)
    requires forall i | 0 <= i < |params| :: params[i].name != x
    ensures x in Bind(env, params) <==> x in env
    ensures x in env ==> Bind(env, params)[x] == env[x]
    decreases |params|
  {
    if params != [] {
      BindOther(env[params[0].name := params[0].binding], params[1..], x);
    }
  }

  function Union<T>(ss: seq<set<T>>): set<T> {
    set i, x | 0 <= i < |ss| && x in ss[i] :: x
  }

  // ---- The walkers ----

  // exprEffects, unaryEffects, postfixEffects and primaryEffects. Building a
  // function is pure.
  function ExprEffects(e: Expr, env: Env): set<Label>
    decreases e, 0
  {
    match e
    case Chain(es) => ExprsEffects(es, env)
    case Postfix(t, ops) =>
      ExprEffects(t, env) + OpsEffects(t, ops, env)
    case Call(f, args) => Lookup(env, f) + ArgsEffects(args, env)
    case Group(e') => ExprEffects(e', env)
    case Fetch => {Net}
    case Load => {FS}
    case Save => {FS}
    case _ => {}
  }

  // One postfix operation; a call counts as a call of the target only if the
  // target is a bare name.
  function OpEffects(t: Expr, op: PostOp, env: Env): set<Label>
    decreases op, 0
  {
    match op
    case CallOp(args) =>
      (if t.Name? then Lookup(env, t.id) else {}) + ArgsEffects(args, env)
    case IndexOp(bounds) => ExprsEffects(bounds, env)
    case OtherOp => {}
  }

  // An argument: its own evaluation, and callableEffects if it is a bare
  // function, since the callee may call it.
  function ArgEffects(e: Expr, env: Env): set<Label>
    decreases e, 1
  {
    ExprEffects(e, env) +
    match e
    case FunLit(ps, body) => StmtsEffects(body, Bind(env, ps))
    case Name(x) => Lookup(env, x)
    case _ => {}
  }

  // stmtEffects and ifEffects.
  function StmtEffects(s: Stmt, env: Env): set<Label>
    decreases s, 0
  {
    match s
    case Eval(es) => ExprsEffects(es, env)
    case Control(es, body) =>
      ExprsEffects(es, env) +
      StmtsEffects(body, env)
    case FetchInto(es) => {Net} + ExprsEffects(es, env)
    case UnvisitedStmt => {}
  }

  // Lists of them.
  function ExprsEffects(xs: seq<Expr>, env: Env): set<Label>
    decreases xs, 2
  {
    Union(seq(|xs|, i requires 0 <= i < |xs| => ExprEffects(xs[i], env)))
  }

  function OpsEffects(t: Expr, xs: seq<PostOp>, env: Env): set<Label>
    decreases xs, 2
  {
    Union(seq(|xs|, i requires 0 <= i < |xs| => OpEffects(t, xs[i], env)))
  }

  function ArgsEffects(xs: seq<Expr>, env: Env): set<Label>
    decreases xs, 2
  {
    Union(seq(|xs|, i requires 0 <= i < |xs| => ArgEffects(xs[i], env)))
  }

  function StmtsEffects(xs: seq<Stmt>, env: Env): set<Label>
    decreases xs, 2
  {
    Union(seq(|xs|, i requires 0 <= i < |xs| => StmtEffects(xs[i], env)))
  }

  // ---- What a body uses ----

  // A label produced on the spot, or a function called or passed on by name.
  datatype Use = Direct(effect: Label) | Callee(name: string)

  function UseEffects(u: Use, env: Env): set<Label> {
    match u
    case Direct(l) => {l}
    case Callee(g) => Lookup(env, g)
  }

  function Total(us: set<Use>, env: Env): set<Label> {
    set u, l | u in us && l in UseEffects(u, env) :: l
  }

  // The use of a name: a parameter stands for the effects of its own type.
  function NameUses(x: string, locals: Env): set<Use> {
    if x in locals then set l | l in Lookup(locals, x) :: Direct(l) else {Callee(x)}
  }

  function ExprUses(e: Expr, locals: Env): set<Use>
    decreases e, 0
  {
    match e
    case Chain(es) => ExprsUses(es, locals)
    case Postfix(t, ops) =>
      ExprUses(t, locals) + OpsUses(t, ops, locals)
    case Call(f, args) => NameUses(f, locals) + ArgsUses(args, locals)
    case Group(e') => ExprUses(e', locals)
    case Fetch => {Direct(Net)}
    case Load => {Direct(FS)}
    case Save => {Direct(FS)}
    case _ => {}
  }

  function OpUses(t: Expr, op: PostOp, locals: Env): set<Use>
    decreases op, 0
  {
    match op
    case CallOp(args) =>
      (if t.Name? then NameUses(t.id, locals) else {}) + ArgsUses(args, locals)
    case IndexOp(bounds) => ExprsUses(bounds, locals)
    case OtherOp => {}
  }

  function ArgUses(e: Expr, locals: Env): set<Use>
    decreases e, 1
  {
    ExprUses(e, locals) +
    match e
    case FunLit(ps, body) => StmtsUses(body, Bind(locals, ps))
    case Name(x) => NameUses(x, locals)
    case _ => {}
  }

  function StmtUses(s: Stmt, locals: Env): set<Use>
    decreases s, 0
  {
    match s
    case Eval(es) => ExprsUses(es, locals)
    case Control(es, body) =>
      ExprsUses(es, locals) +
      StmtsUses(body, locals)
    case FetchInto(es) => {Direct(Net)} + ExprsUses(es, locals)
    case UnvisitedStmt => {}
  }

  function ExprsUses(xs: seq<Expr>, locals: Env): set<Use>
    decreases xs, 2
  {
    Union(seq(|xs|, i requires 0 <= i < |xs| => ExprUses(xs[i], locals)))
  }

  function OpsUses(t: Expr, xs: seq<PostOp>, locals: Env): set<Use>
    decreases xs, 2
  {
    Union(seq(|xs|, i requires 0 <= i < |xs| => OpUses(t, xs[i], locals)))
  }

  function ArgsUses(xs: seq<Expr>, locals: Env): set<Use>
    decreases xs, 2
  {
    Union(seq(|xs|, i requires 0 <= i < |xs| => ArgUses(xs[i], locals)))
  }

  function StmtsUses(xs: seq<Stmt>, locals: Env): set<Use>
    decreases xs, 2
  {
    Union(seq(|xs|, i requires 0 <= i < |xs| => StmtUses(xs[i], locals)))
  }

  lemma NameTotal(x: string, env: Env, locals: Env)
    ensures Lookup(env + locals, x) == Total(NameUses(x, locals), env)
  {
    if x in locals {
      forall l ensures l in Total(NameUses(x, locals), env) <==> l in Lookup(locals, x) {
        if l in Lookup(locals, x) {
          assert Direct(l) in NameUses(x, locals) && l in UseEffects(Direct(l), env);
        }
      }
    } else {
      assert Callee(x) in NameUses(x, locals) && UseEffects(Callee(x), env) == Lookup(env, x);
    }
  }

  lemma TotalEmpty(env: Env)
    ensures Total({}, env) == {}
  {
  }

  lemma TotalUnion(a: set<Use>, b: set<Use>, env: Env)
    ensures Total(a + b, env) == Total(a, env) + Total(b, env)
  {
  }

  lemma {:induction false} BindOverlay(env: Env, locals: Env, ps: seq<Param>)
    ensures Bind(env + locals, ps) == env + Bind(locals, ps)
    decreases |ps|
  {
    if ps != [] {
      var b := locals[ps[0].name := ps[0].binding];
      assert (env + locals)[ps[0].name := ps[0].binding] == env + b;
      BindOverlay(env, b, ps[1..]);
    }
  }

  lemma UnionTotal(us: seq<set<Use>>, ls: seq<set<Label>>, env: Env)
    requires |us| == |ls| && forall i | 0 <= i < |us| :: ls[i] == Total(us[i], env)
    ensures Union(ls) == Total(Union(us), env)
  {
    forall l | l in Total(Union(us), env) ensures l in Union(ls) {
      var u :| u in Union(us) && l in UseEffects(u, env);
      var i :| 0 <= i < |us| && u in us[i];
      assert l in ls[i];
    }
    forall l | l in Union(ls) ensures l in Total(Union(us), env) {
      var i :| 0 <= i < |ls| && l in ls[i];
      var u :| u in us[i] && l in UseEffects(u, env);
      assert u in Union(us);
    }
  }

  lemma DirectTotal(l: Label, env: Env)
    ensures Total({Direct(l)}, env) == {l}
  {
    assert UseEffects(Direct(l), env) == {l};
    assert Direct(l) in {Direct(l)};
  }

  // Each walker adds up the uses of what it walks: this makes the inference a
  // function of the uses of a body, whatever the environment says.
  lemma {:induction false} ExprTotal(e: Expr, env: Env, locals: Env)
    ensures ExprEffects(e, env + locals) == Total(ExprUses(e, locals), env)
    decreases e, 0
  {
    hide Union, Total;
    forall a, b ensures Total(a + b, env) == Total(a, env) + Total(b, env) {
      TotalUnion(a, b, env);
    }
    TotalEmpty(env);
    match e
    case Chain(es) => ExprsTotal(es, env, locals);
    case Postfix(t, ops) =>
      ExprTotal(t, env, locals);
      OpsTotal(t, ops, env, locals);
    case Call(f, args) =>
      NameTotal(f, env, locals);
      ArgsTotal(args, env, locals);
    case Group(e') => ExprTotal(e', env, locals);
    case Fetch => DirectTotal(Net, env);
    case Load => DirectTotal(FS, env);
    case Save => DirectTotal(FS, env);
    case _ =>
  }

  lemma {:induction false} ExprsTotal(es: seq<Expr>, env: Env, locals: Env)
    ensures ExprsEffects(es, env + locals) == Total(ExprsUses(es, locals), env)
    decreases es, 2
  {
    forall i | 0 <= i < |es| ensures ExprEffects(es[i], env + locals) == Total(ExprUses(es[i], locals), env) {
      ExprTotal(es[i], env, locals);
    }
    UnionTotal(seq(|es|, i requires 0 <= i < |es| => ExprUses(es[i], locals)),
               seq(|es|, i requires 0 <= i < |es| => ExprEffects(es[i], env + locals)), env);
  }

  lemma {:induction false} OpsTotal(t: Expr, ops: seq<PostOp>, env: Env, locals: Env)
    ensures OpsEffects(t, ops, env + locals) == Total(OpsUses(t, ops, locals), env)
    decreases ops, 2
  {
    forall i | 0 <= i < |ops| ensures OpEffects(t, ops[i], env + locals) == Total(OpUses(t, ops[i], locals), env) {
      OpTotal(t, ops[i], env, locals);
    }
    UnionTotal(seq(|ops|, i requires 0 <= i < |ops| => OpUses(t, ops[i], locals)),
               seq(|ops|, i requires 0 <= i < |ops| => OpEffects(t, ops[i], env + locals)), env);
  }

  lemma {:induction false} ArgsTotal(args: seq<Expr>, env: Env, locals: Env)
    ensures ArgsEffects(args, env + locals) == Total(ArgsUses(args, locals), env)
    decreases args, 2
  {
    forall i | 0 <= i < |args| ensures ArgEffects(args[i], env + locals) == Total(ArgUses(args[i], locals), env) {
      ArgTotal(args[i], env, locals);
    }
    UnionTotal(seq(|args|, i requires 0 <= i < |args| => ArgUses(args[i], locals)),
               seq(|args|, i requires 0 <= i < |args| => ArgEffects(args[i], env + locals)), env);
  }

  lemma {:induction false} StmtsTotal(body: seq<Stmt>, env: Env, locals: Env)
    ensures StmtsEffects(body, env + locals) == Total(StmtsUses(body, locals), env)
    decreases body, 2
  {
    forall i | 0 <= i < |body| ensures StmtEffects(body[i], env + locals) == Total(StmtUses(body[i], locals), env) {
      StmtTotal(body[i], env, locals);
    }
    UnionTotal(seq(|body|, i requires 0 <= i < |body| => StmtUses(body[i], locals)),
               seq(|body|, i requires 0 <= i < |body| => StmtEffects(body[i], env + locals)), env);
  }

  lemma {:induction false} OpTotal(t: Expr, op: PostOp, env: Env, locals: Env)
    ensures OpEffects(t, op, env + locals) == Total(OpUses(t, op, locals), env)
    decreases op, 0
  {
    hide Union, Total;
    forall a, b ensures Total(a + b, env) == Total(a, env) + Total(b, env) {
      TotalUnion(a, b, env);
    }
    TotalEmpty(env);
    match op
    case CallOp(args) =>
      if t.Name? {
        NameTotal(t.id, env, locals);
      }
      ArgsTotal(args, env, locals);
    case IndexOp(bounds) => ExprsTotal(bounds, env, locals);
    case OtherOp =>
  }

  lemma {:induction false} ArgTotal(e: Expr, env: Env, locals: Env)
    ensures ArgEffects(e, env + locals) == Total(ArgUses(e, locals), env)
    decreases e, 1
  {
    hide Union, Total;
    forall a, b ensures Total(a + b, env) == Total(a, env) + Total(b, env) {
      TotalUnion(a, b, env);
    }
    TotalEmpty(env);
    ExprTotal(e, env, locals);
    match e
    case FunLit(ps, body) =>
      BindOverlay(env, locals, ps);
      StmtsTotal(body, env, Bind(locals, ps));
    case Name(x) => NameTotal(x, env, locals);
    case _ =>
  }

  lemma {:induction false} StmtTotal(s: Stmt, env: Env, locals: Env)
    ensures StmtEffects(s, env + locals) == Total(StmtUses(s, locals), env)
    decreases s, 0
  {
    hide Union, Total;
    forall a, b ensures Total(a + b, env) == Total(a, env) + Total(b, env) {
      TotalUnion(a, b, env);
    }
    TotalEmpty(env);
    match s
    case Eval(es) => ExprsTotal(es, env, locals);
    case Control(es, body) =>
      ExprsTotal(es, env, locals);
      StmtsTotal(body, env, locals);
    case FetchInto(es) =>
      DirectTotal(Net, env);
      ExprsTotal(es, env, locals);
    case UnvisitedStmt =>
  }
}
