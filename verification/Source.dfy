/** What a program means before it is compiled: expressions and statements of the syntax tree, with names looked up
    in the scopes of the place where they stand. */
module Source {
  import opened Common
  import opened Ir
  import opened Ast
  import opened ScopeGraph
  import opened Elaborate
  import opened Semantics
  import Typing

  /** Values and the store are left open. `succ` and `pred` are what `++` and `--` make of a value, `element` and
      `update` read and write an element of an array, and a call is named by what is called and where it stands. */
  datatype Lang<!S, !V> = Lang(
    ofBool: bool -> V, ofInt: int -> V, ofFloat: Double -> V, ofString: string -> V,
    truth: V -> Option<bool>,
    succ: V -> Option<V>, pred: V -> Option<V>,
    unary: (UniOp, V) -> Option<V>,
    binary: (BinOp, V, V) -> Option<V>,
    read: (Handle, S) -> Option<V>,
    write: (Handle, V, S) -> Option<S>,
    element: (V, V, S) -> Option<V>,
    update: (V, V, V, S) -> Option<S>,
    call: (CallStub, seq<V>, S) -> Option<(V, S)>)

  /** A variable, or an element of an array. */
  datatype Place<+V> = Var(h: Handle) | Elem(arr: V, index: V)

  function ReadPlace<S, V>(l: Lang<S, V>, p: Place<V>, s: S): Option<V> {
    match p
    case Var(BooleanConst(_, b)) => Some(l.ofBool(b))
    case Var(IntConst(_, v)) => Some(l.ofInt(v))
    case Var(FloatConst(_, f)) => Some(l.ofFloat(f))
    case Var(StringConst(_, w)) => Some(l.ofString(w))
    case Var(h) => l.read(h, s)
    case Elem(a, i) => l.element(a, i, s)
  }

  function WritePlace<S, V>(l: Lang<S, V>, p: Place<V>, v: V, s: S): Option<S> {
    match p
    case Var(h) => l.write(h, v, s)
    case Elem(a, i) => l.update(a, i, v, s)
  }

  /** Read, change, write. */
  function ChangePlace<S, V>(l: Lang<S, V>, p: Place<V>, f: V -> Option<V>, s: S): Option<S> {
    match ReadPlace(l, p, s)
    case None => None
    case Some(x) => (match f(x) case None => None case Some(y) => WritePlace(l, p, y, s))
  }

  /** Set a place to `v`, or to what `op` makes of its contents and `v`. */
  function Put<S, V>(l: Lang<S, V>, op: Option<BinOp>, p: Place<V>, v: V, s: S): Option<S> {
    match op
    case None => WritePlace(l, p, v, s)
    case Some(o) => ChangePlace(l, p, x => l.binary(o, x, v), s)
  }

  // ----- nodes -----

  /** `calls` says what the calls of the module are calls of. */
  function NodeValue<S, V>(l: Lang<S, V>, calls: seq<CallStub>, n: Node, s: S): Option<(V, S)>
    decreases n
  {
    match n
    case UniOp(op, _, a) =>
      (match NodeValue(l, calls, a, s)
       case None => None
       case Some((x, s1)) => (match l.unary(op, x) case None => None case Some(v) => Some((v, s1))))
    case BinOp(op, _, a, b) =>
      (match NodeValue(l, calls, a, s)
       case None => None
       case Some((x, s1)) =>
         if op.LogAnd? || op.LogOr? then
           match l.truth(x)
           case None => None
           case Some(t) =>
             if t == op.LogOr? then Some((l.ofBool(t), s1)) else
               match NodeValue(l, calls, b, s1)
               case None => None
               case Some((y, s2)) => (match l.truth(y) case None => None case Some(u) => Some((l.ofBool(u), s2)))
         else
           match NodeValue(l, calls, b, s1)
           case None => None
           case Some((y, s2)) => (match l.binary(op, x, y) case None => None case Some(v) => Some((v, s2))))
    case TriOp(_, a, b, c) =>
      (match NodeValue(l, calls, a, s)
       case None => None
       case Some((x, s1)) =>
         match l.truth(x)
         case None => None
         case Some(t) => if t then NodeValue(l, calls, b, s1) else NodeValue(l, calls, c, s1))
    case Load(_, h) =>
      (match HandlePlace(l, calls, h, s)
       case None => None
       case Some((p, s1)) => (match ReadPlace(l, p, s1) case None => None case Some(v) => Some((v, s1))))
    case FuncCall(args, stub) =>
      (match NodeValues(l, calls, args, s)
       case None => None
       case Some((vs, s1)) => if stub < |calls| then l.call(calls[stub], vs, s1) else None)
    case _ => None
  }

  function NodeValues<S, V>(l: Lang<S, V>, calls: seq<CallStub>, ns: seq<Node>, s: S): Option<(seq<V>, S)>
    decreases ns
  {
    if ns == [] then Some(([], s)) else
      match NodeValue(l, calls, ns[0], s)
      case None => None
      case Some((v, s1)) =>
        match NodeValues(l, calls, ns[1..], s1)
        case None => None
        case Some((vs, s2)) => Some(([v] + vs, s2))
  }

  function HandlePlace<S, V>(l: Lang<S, V>, calls: seq<CallStub>, h: Handle, s: S): Option<(Place<V>, S)>
    decreases h
  {
    match h
    case ArrayRef(base, offset) =>
      (match NodeValue(l, calls, base, s)
       case None => None
       case Some((a, s1)) =>
         match NodeValue(l, calls, offset, s1)
         case None => None
         case Some((i, s2)) => Some((Elem(a, i), s2)))
    case _ => Some((Var(h), s))
  }

  /** The effect of a node that stands in a node list. */
  function NodeEffect<S, V>(l: Lang<S, V>, calls: seq<CallStub>, n: Node, s: S): Option<S> {
    match n
    case Store(h, val) =>
      (match NodeValue(l, calls, val, s)
       case None => None
       case Some((v, s1)) =>
         match HandlePlace(l, calls, h, s1)
         case None => None
         case Some((p, s2)) => Put(l, None, p, v, s2))
    case InplaceUniOp(inc, h) =>
      (match HandlePlace(l, calls, h, s)
       case None => None
       case Some((p, s1)) => ChangePlace(l, p, if inc then l.succ else l.pred, s1))
    case InplaceBinOp(op, h, val) =>
      (match NodeValue(l, calls, val, s)
       case None => None
       case Some((v, s1)) =>
         match HandlePlace(l, calls, h, s1)
         case None => None
         case Some((p, s2)) => Put(l, Some(op), p, v, s2))
    case NullNode => Some(s)
    case _ => (match NodeValue(l, calls, n, s) case None => None case Some((_, s1)) => Some(s1))
  }

  function NodeTruth<S, V>(l: Lang<S, V>, calls: seq<CallStub>, n: Node, s: S): Option<(bool, S)> {
    match NodeValue(l, calls, n, s)
    case None => None
    case Some((v, s1)) => (match l.truth(v) case None => None case Some(t) => Some((t, s1)))
  }

  /** The meaning of nodes that the semantics of node lists asks for. */
  function NodeSem<S, V>(l: Lang<S, V>, calls: seq<CallStub>): Sem<S, V> {
    Sem((n, s) => NodeTruth(l, calls, n, s), (n, s) => NodeValue(l, calls, n, s), (n, s) => NodeEffect(l, calls, n, s))
  }

  // ----- expressions -----

  /** Where an expression stands: its scope, all scopes, the string hash, and the calls of the module. */
  datatype Context = Context(sc: nat, scopes: seq<ScopeRec>, hash: string -> nat, calls: seq<CallStub>) {
    ghost predicate Valid() { Wf(scopes) && sc < |scopes| }
  }

  /** Operands are evaluated from left to right; `and`, `or` and if-then-else evaluate what they need. */
  ghost function Value<S, V>(l: Lang<S, V>, e: Expr, c: Context, s: S): Option<(V, S)>
    requires c.Valid()
    decreases e, 1
  {
    match e
    case True => Some((l.ofBool(true), s))
    case False => Some((l.ofBool(false), s))
    case IntLit(v) => Some((l.ofInt(v), s))
    case FloatLit(f) => Some((l.ofFloat(f), s))
    case StringLit(w) => Some((l.ofString(w), s))
    case Unary(op, a) =>
      (match Value(l, a, c, s)
       case None => None
       case Some((x, s1)) => (match l.unary(op, x) case None => None case Some(v) => Some((v, s1))))
    case Binary(LogAnd, a, b) =>
      (match Truth(l, a, c, s)
       case None => None
       case Some((false, s1)) => Some((l.ofBool(false), s1))
       case Some((true, s1)) =>
         (match Truth(l, b, c, s1) case None => None case Some((u, s2)) => Some((l.ofBool(u), s2))))
    case Binary(LogOr, a, b) =>
      (match Truth(l, a, c, s)
       case None => None
       case Some((true, s1)) => Some((l.ofBool(true), s1))
       case Some((false, s1)) =>
         (match Truth(l, b, c, s1) case None => None case Some((u, s2)) => Some((l.ofBool(u), s2))))
    case Binary(op, a, b) =>
      (match Value(l, a, c, s)
       case None => None
       case Some((x, s1)) =>
         match Value(l, b, c, s1)
         case None => None
         case Some((y, s2)) => (match l.binary(op, x, y) case None => None case Some(v) => Some((v, s2))))
    case Ite(cond, a, b) =>
      (match Truth(l, cond, c, s)
       case None => None
       case Some((true, s1)) => Value(l, a, c, s1)
       case Some((false, s1)) => Value(l, b, c, s1))
    case FuncCall(f, args) =>
      (match Values(l, args, c, s)
       case None => None
       case Some((vs, s1)) => l.call(CallStub(f, c.sc), vs, s1))
    case _ => Contents(l, e, c, s)
  }

  ghost function Truth<S, V>(l: Lang<S, V>, e: Expr, c: Context, s: S): Option<(bool, S)>
    requires c.Valid()
    decreases e, 2
  {
    match Value(l, e, c, s)
    case None => None
    case Some((v, s1)) => (match l.truth(v) case None => None case Some(t) => Some((t, s1)))
  }

  ghost function Values<S, V>(l: Lang<S, V>, es: seq<Expr>, c: Context, s: S): Option<(seq<V>, S)>
    requires c.Valid()
    decreases es, 0
  {
    if es == [] then Some(([], s)) else
      match Value(l, es[0], c, s)
      case None => None
      case Some((v, s1)) =>
        match Values(l, es[1..], c, s1)
        case None => None
        case Some((vs, s2)) => Some(([v] + vs, s2))
  }

  /** What a name, a member of an enum or a module, or an element of an array stands for. */
  ghost function PlaceOf<S, V>(l: Lang<S, V>, e: Expr, c: Context, s: S): Option<(Place<V>, S)>
    requires c.Valid()
    decreases e, 0, 0
  {
    match e
    case ArrayRef(body, index) =>
      (match Contents(l, body, c, s)
       case None => None
       case Some((a, s1)) =>
         match Value(l, index, c, s1)
         case None => None
         case Some((i, s2)) => Some((Elem(a, i), s2)))
    case _ =>
      (match Named(e, c) case None => None case Some(h) => HandlePlace(l, c.calls, h, s))
  }

  /** The handle of a name or a member. */
  ghost function Named(e: Expr, c: Context): Option<Handle>
    requires c.Valid()
  {
    match e
    case Symbol(n) => Find(c.scopes, c.sc, n, c.hash)
    case MemberRef(body, m) =>
      (match Named(body, c)
       case Some(h) =>
         if (h.ScopeHandle? || h.NamedType?) && h.scope < |c.scopes| then Find(c.scopes, h.scope, m, c.hash) else None
       case None => None)
    case _ => None
  }

  ghost function Contents<S, V>(l: Lang<S, V>, e: Expr, c: Context, s: S): Option<(V, S)>
    requires c.Valid()
    decreases e, 0, 1
  {
    match PlaceOf(l, e, c, s)
    case None => None
    case Some((p, s1)) => (match ReadPlace(l, p, s1) case None => None case Some(v) => Some((v, s1)))
  }

  // ----- which expressions there are -----

  function Rule(s: Res<Typing.Sig>): Res<Option<Ty>> {
    match s
    case Ok(sig) => Ok(Some(sig.result))
    case Null => Null
    case Abort => Abort
  }

  /** The type of an expression, which a call does not have; Null for one that is rejected with a message, and Abort
      for one with which compilation ends. */
  ghost function Kind(e: Expr, c: Context): Res<Option<Ty>>
    requires c.Valid()
    decreases e, 1
  {
    match e
    case True => Ok(Some(Boolean))
    case False => Ok(Some(Boolean))
    case IntLit(_) => Ok(Some(Int))
    case FloatLit(_) => Ok(Some(Float))
    case StringLit(_) => Ok(Some(String))
    case FuncCall(_, args) => AllKinds(args, c)
    case Unary(op, a) => (match Kind(a, c) case Ok(t) => Rule(Typing.CalcType1(op, t)) case r => r)
    case Binary(op, a, b) =>
      (match Kind(a, c)
       case Ok(t) => (match Kind(b, c) case Ok(u) => Rule(Typing.CalcType2(op, t, u)) case r => r)
       case r => r)
    case Ite(cond, a, b) =>
      (match Kind(cond, c)
       case Ok(t) =>
         (match Kind(a, c)
          case Ok(u) => (match Kind(b, c) case Ok(v) => Rule(Typing.CalcType3(t, u, v)) case r => r)
          case r => r)
       case r => r)
    case _ =>
      (match PlaceKind(e, c)
       case Ok(Ok(t)) => Ok(Some(t))
       case Ok(Null) => Null
       case Null => Null
       case _ => Abort)
  }

  /** Arguments are compiled up to the first that is not accepted. */
  ghost function AllKinds(es: seq<Expr>, c: Context): Res<Option<Ty>>
    requires c.Valid()
    decreases es, 0
  {
    if es == [] then Ok(None) else
      match Kind(es[0], c) case Ok(_) => AllKinds(es[1..], c) case r => r
  }

  /** For a place, the type of what is in it, if it can be read. */
  ghost function PlaceKind(e: Expr, c: Context): Res<Res<Ty>>
    requires c.Valid()
    decreases e, 0
  {
    match e
    case Symbol(_) => (match Named(e, c) case Some(h) => Ok(Typing.LoadType(h)) case None => Null)
    case ArrayRef(body, index) =>
      (match PlaceKind(body, c)
       case Ok(Ok(Array(elem))) =>
         (match Kind(index, c) case Ok(Some(Int)) => Ok(Ok(elem)) case Ok(Some(_)) => Null case _ => Abort)
       case Ok(Ok(_)) => Null
       case Null => Null
       case _ => Abort)
    case MemberRef(body, m) =>
      (match Named(body, c)
       case Some(h) =>
         if (h.ScopeHandle? || h.NamedType?) && h.scope < |c.scopes| then
           match Named(e, c) case Some(x) => Ok(Typing.LoadType(x)) case None => Null
         else Abort
       case None => Abort)
    case _ => Abort
  }

  // ----- statements -----

  /** Put the value of `rhs`, which is evaluated first, into the place `lhs` stands for. */
  ghost function Assigned<S, V>(l: Lang<S, V>, lhs: Expr, op: Option<BinOp>, rhs: Expr, c: Context, s: S): Option<S>
    requires c.Valid()
  {
    match Value(l, rhs, c, s)
    case None => None
    case Some((v, s1)) =>
      match PlaceOf(l, lhs, c, s1)
      case None => None
      case Some((p, s2)) => Put(l, op, p, v, s2)
  }

  ghost function Counted<S, V>(l: Lang<S, V>, lhs: Expr, f: V -> Option<V>, c: Context, s: S): Option<S>
    requires c.Valid()
  {
    match PlaceOf(l, lhs, c, s)
    case None => None
    case Some((p, s1)) => ChangePlace(l, p, f, s1)
  }

  function Finish<S, V>(r: Option<S>): Result<S, V> {
    match r case None => Stuck case Some(s) => Done(Normal, s)
  }

  /** The compiler's state behind a statement, in which the next one stands. */
  ghost function Behind(s: Stmt, sc: nat, b: nat, st: State, env: Env): (r: State)
    requires Ready(st, sc, b)
    ensures Grown(st, r)
  {
    var x := ElabStmt(s, sc, b, st, env);
    if x.Elab? then x.st else st
  }

  /** The state behind a condition. */
  ghost function Tested(cond: Expr, sc: nat, st: State, env: Env): (r: State)
    requires Wf(st.scopes) && sc < |st.scopes|
    ensures r == st.(calls := r.calls)
  {
    st.(calls := ElabExpr(cond, sc, st.scopes, st.calls, env.hash).calls)
  }

  /** The compiler rejects the expression with a message and goes on. */
  ghost predicate Rejected(e: Expr, sc: nat, st: State, env: Env)
    requires Wf(st.scopes) && sc < |st.scopes|
  {
    Kind(e, Here(sc, st, env, [])).Null?
  }

  ghost predicate NoPlace(e: Expr, sc: nat, st: State, env: Env)
    requires Wf(st.scopes) && sc < |st.scopes|
  {
    PlaceKind(e, Here(sc, st, env, [])).Null?
  }

  /** The state in which the initial value of a variable stands: the variable is declared. None if it is not. */
  ghost function Initial(name: string, t: TypeExpr, sc: nat, b: nat, st: State, env: Env): (r: Option<State>)
    requires Ready(st, sc, b)
    ensures r.Some? ==> Ready(r.value, sc, b)
  {
    var ty := ResolveType(t, sc, st.scopes, st.calls, env.hash);
    if NameFree(st, sc, name, env) && ty.r.Ok? then
      Some(DeclareVar(name, ty.r.value, sc, b, st.(calls := ty.calls), env).0)
    else None
  }

  function Here(sc: nat, st: State, env: Env, calls: seq<CallStub>): Context {
    Context(sc, st.scopes, env.hash, calls)
  }

  /** Execute `s`, which stands in scope `sc`, with at most `fuel` entries into each loop. A declaration has no effect
      but that of its initial value, which is assigned to its name. What is rejected is left out. `continue` goes
      back to the start of the loop: the test of a do-while and the step of a for are skipped. `br` says whether the
      statement is inside a loop; outside, break and continue have no effect. */
  ghost function Exec<S, V>(l: Lang<S, V>, calls: seq<CallStub>, s: Stmt, sc: nat, b: nat, st: State, env: Env,
                            br: bool, m: S, fuel: nat): Result<S, V>
    requires Ready(st, sc, b)
    decreases fuel, s, 2
  {
    var c := Here(sc, st, env, calls);
    match s
    case Block(stmts) => ExecAll(l, calls, stmts, |st.scopes|, b, Open(st, sc), env, br, m, fuel)
    case Break => Done(if br then Broke else Normal, m)
    case Continue => Done(if br then Continued else Normal, m)
    case VarDecl(name, t, Some(init)) =>
      (match Initial(name, t, sc, b, st, env)
       case None => Done(Normal, m)
       case Some(st1) =>
         if Rejected(init, sc, st1, env) then Done(Normal, m)
         else Finish(Assigned(l, Symbol(name), None, init, Here(sc, st1, env, calls), m)))
    case Incr(lhs) => if NoPlace(lhs, sc, st, env) then Done(Normal, m) else Finish(Counted(l, lhs, l.succ, c, m))
    case Decr(lhs) => if NoPlace(lhs, sc, st, env) then Done(Normal, m) else Finish(Counted(l, lhs, l.pred, c, m))
    case Assignment(lhs, rhs) =>
      if Rejected(rhs, sc, st, env) || NoPlace(lhs, sc, Tested(rhs, sc, st, env), env) then Done(Normal, m)
      else Finish(Assigned(l, lhs, None, rhs, c, m))
    case InplaceOp(op, lhs, rhs) =>
      if Rejected(rhs, sc, st, env) || NoPlace(lhs, sc, Tested(rhs, sc, st, env), env) then Done(Normal, m)
      else Finish(Assigned(l, lhs, Some(op), rhs, c, m))
    case ExprStmt(e) =>
      if Rejected(e, sc, st, env) then Done(Normal, m)
      else (match Value(l, e, c, m) case None => Stuck case Some((_, m1)) => Done(Normal, m1))
    case If(cond, thn, els) =>
      var st1 := Tested(cond, sc, st, env);
      (match Truth(l, cond, c, m)
       case None => Stuck
       case Some((true, m1)) => Exec(l, calls, thn, sc, b, st1, env, br, m1, fuel)
       case Some((false, m1)) =>
         if els.None? then Stuck
         else Exec(l, calls, els.value, sc, b, Behind(thn, sc, b, st1, env), env, br, m1, fuel))
    case While(_, _) => Loop(l, calls, s, sc, b, st, env, m, fuel)
    case DoWhile(_, _) => Loop(l, calls, s, sc, b, st, env, m, fuel)
    case For(first, _, _, _) =>
      var fs, st0 := |st.scopes|, Open(st, sc);
      (match Exec(l, calls, first, fs, b, st0, env, false, m, fuel)
       case Done(Normal, m1) => Loop(l, calls, s, fs, b, Behind(first, fs, b, st0, env), env, m1, fuel)
       case r => r)
    case Return(None) => Done(Returned(None), m)
    case Return(Some(e)) =>
      if Rejected(e, sc, st, env) then Done(Returned(None), m)
      else (match Value(l, e, c, m) case None => Stuck case Some((v, m1)) => Done(Returned(Some(v)), m1))
    case _ => Done(Normal, m)
  }

  ghost function ExecAll<S, V>(l: Lang<S, V>, calls: seq<CallStub>, stmts: seq<Stmt>, sc: nat, b: nat, st: State,
                               env: Env, br: bool, m: S, fuel: nat): Result<S, V>
    requires Ready(st, sc, b)
    decreases fuel, stmts, 0
  {
    if stmts == [] then Done(Normal, m) else
      match Exec(l, calls, stmts[0], sc, b, st, env, br, m, fuel)
      case Done(Normal, m1) =>
        ExecAll(l, calls, stmts[1..], sc, b, Behind(stmts[0], sc, b, st, env), env, br, m1, fuel)
      case r => r
  }

  /** One round of a loop whose condition, or body in a do-while, stands in state `st`, then the rest of the loop. */
  ghost function Loop<S, V>(l: Lang<S, V>, calls: seq<CallStub>, s: Stmt, sc: nat, b: nat, st: State, env: Env,
                            m: S, fuel: nat): Result<S, V>
    requires Ready(st, sc, b) && (s.While? || s.DoWhile? || s.For?)
    decreases fuel, s, 1
  {
    if fuel == 0 then Timeout else
      match s
      case DoWhile(body, cond) =>
        (match Exec(l, calls, body, sc, b, st, env, true, m, fuel)
         case Done(Normal, m1) =>
           (match Truth(l, cond, Here(sc, Behind(body, sc, b, st, env), env, calls), m1)
            case None => Stuck
            case Some((true, m2)) => Loop(l, calls, s, sc, b, st, env, m2, fuel - 1)
            case Some((false, m2)) => Done(Normal, m2))
         case Done(Broke, m1) => Done(Normal, m1)
         case Done(Continued, m1) => Loop(l, calls, s, sc, b, st, env, m1, fuel - 1)
         case r => r)
      case While(cond, body) =>
        (match Truth(l, cond, Here(sc, st, env, calls), m)
         case None => Stuck
         case Some((false, m1)) => Done(Normal, m1)
         case Some((true, m1)) =>
           match Exec(l, calls, body, sc, b, Tested(cond, sc, st, env), env, true, m1, fuel)
           case Done(Normal, m2) => Loop(l, calls, s, sc, b, st, env, m2, fuel - 1)
           case Done(Broke, m2) => Done(Normal, m2)
           case Done(Continued, m2) => Loop(l, calls, s, sc, b, st, env, m2, fuel - 1)
           case r => r)
      case For(_, cond, step, body) =>
        (match Truth(l, cond, Here(sc, st, env, calls), m)
         case None => Stuck
         case Some((false, m1)) => Done(Normal, m1)
         case Some((true, m1)) =>
           match Round(l, calls, s, sc, b, Tested(cond, sc, st, env), env, m1, fuel)
           case Done(Normal, m2) => Loop(l, calls, s, sc, b, st, env, m2, fuel - 1)
           case Done(Broke, m2) => Done(Normal, m2)
           case Done(Continued, m2) => Loop(l, calls, s, sc, b, st, env, m2, fuel - 1)
           case r => r)
  }

  /** The body of a for loop and, unless it jumped away, the step. */
  ghost function Round<S, V>(l: Lang<S, V>, calls: seq<CallStub>, s: Stmt, sc: nat, b: nat, st: State, env: Env,
                             m: S, fuel: nat): Result<S, V>
    requires Ready(st, sc, b) && s.For?
    decreases fuel, s, 0
  {
    match Exec(l, calls, s.body, sc, b, st, env, true, m, fuel)
    case Done(Normal, m1) => Exec(l, calls, s.step, sc, b, Behind(s.body, sc, b, st, env), env, true, m1, fuel)
    case r => r
  }
}
