/** The expression printer: every operator application in parentheses. */
module Printer {
  import opened Ir
  import opened Ast

  // ----- decimal numbers -----

  function Digit(d: nat): char
    requires d < 10
  {
    '0' + d as char
  }

  function NatText(n: nat): string {
    if n < 10 then [Digit(n)] else NatText(n / 10) + [Digit(n % 10)]
  }

  function IntText(v: int): string { if v < 0 then "-" + NatText(-v) else NatText(v) }

  // ----- expressions -----

  function PrefixText(op: UniOp): string {
    match op
    case UniMinus => "( - "
    case BitNeg => "( ~ "
    case LogNot => "( not "
    case CastInt => "int("
    case CastBoolean => "boolean("
    case CastFloat => "float("
  }

  function InfixText(op: BinOp): string {
    match op
    case BitAnd => " & " case BitOr => " | " case BitXor => " ^ " case LogAnd => " and " case LogOr => " or "
    case Equal => " == " case NotEq => " != " case Lt => " < " case Le => " <= "
    case Add => " + " case Sub => " - " case Mul => " * " case Div => " / " case Mod => " % "
    case Lshift => " << " case Rshift => " >> "
  }

  /** The printed form; `ftoa` is how the stream shows a floating-point number. */
  function Print(e: Expr, ftoa: Double -> string): string {
    match e
    case True => "true"
    case False => "false"
    case IntLit(v) => IntText(v)
    case FloatLit(f) => ftoa(f)
    case StringLit(w) => "\"" + w + "\""
    case Symbol(w) => w
    case MemberRef(b, m) => Print(b, ftoa) + "." + m
    case ArrayRef(b, i) => Print(b, ftoa) + "[" + Print(i, ftoa) + "]"
    case Unary(op, a) => PrefixText(op) + Print(a, ftoa) + ")"
    case Binary(op, a, b) => "(" + Print(a, ftoa) + InfixText(op) + Print(b, ftoa) + ")"
    case Ite(a, b, c) => "(" + Print(a, ftoa) + " ? " + Print(b, ftoa) + " : " + Print(c, ftoa) + ")"
    case FuncCall(f, args) => Print(f, ftoa) + "(" + PrintArgs(args, ftoa) + ")"
  }

  function PrintArgs(args: seq<Expr>, ftoa: Double -> string): string
    decreases args
  {
    if args == [] then ""
    else if |args| == 1 then Print(args[0], ftoa)
    else PrintArgs(args[..|args| - 1], ftoa) + ", " + Print(args[|args| - 1], ftoa)
  }

  lemma Appended(o: string, a: string, b: string, c: string, d: string, e: string)
    ensures o + a + b + c + d + e == o + (a + b + c + d + e)
    ensures o + a + b + c + d == o + (a + b + c + d) && o + a + b + c == o + (a + b + c)
  {
  }

  lemma AppendedMore(o: string, a: string, b: string, c: string, d: string, e: string, f: string, g: string)
    ensures o + a + b + c + d + e + f + g == o + (a + b + c + d + e + f + g)
  {
  }

  /** The printer object appends to its stream. */
  class AstPrinter {
    var stream: string
    const ftoa: Double -> string

    constructor (ftoa: Double -> string)
      ensures stream == "" && this.ftoa == ftoa
    {
      stream := "";
      this.ftoa := ftoa;
    }

    method Put(w: string)
      modifies this`stream
      ensures stream == old(stream) + w
    {
      stream := stream + w;
    }

    method PrintExpr(e: Expr)
      modifies this`stream
      ensures stream == old(stream) + Print(e, ftoa)
      decreases e, 1
    {
      hide PrefixText, InfixText, IntText, PrintArgs;
      ghost var o := stream;
      match e
      case True => Put("true");
      case False => Put("false");
      case IntLit(v) => Put(IntText(v));
      case FloatLit(f) => Put(ftoa(f));
      case StringLit(w) =>
        Put("\""); Put(w); Put("\"");
        Appended(o, "\"", w, "\"", "", "");
      case Symbol(w) => Put(w);
      case MemberRef(b, m) =>
        PrintExpr(b); Put("."); Put(m);
        Appended(o, Print(b, ftoa), ".", m, "", "");
      case ArrayRef(b, i) =>
        PrintExpr(b); Put("["); PrintExpr(i); Put("]");
        Appended(o, Print(b, ftoa), "[", Print(i, ftoa), "]", "");
      case Unary(_, _) => PrintOperation(e);
      case Binary(_, _, _) => PrintOperation(e);
      case Ite(_, _, _) => PrintOperation(e);
      case FuncCall(f, args) =>
        PrintExpr(f); Put("("); PrintArgList(e); Put(")");
        Appended(o, Print(f, ftoa), "(", PrintArgs(args, ftoa), ")", "");
    }

    /** The operators. */
    method PrintOperation(e: Expr)
      requires e.Unary? || e.Binary? || e.Ite?
      modifies this`stream
      ensures stream == old(stream) + Print(e, ftoa)
      decreases e, 0
    {
      hide PrefixText, InfixText, IntText, PrintArgs;
      ghost var o := stream;
      if e.Unary? {
        Put(PrefixText(e.uop));
        PrintExpr(e.a);
        Put(")");
      } else if e.Binary? {
        Put("(");
        PrintExpr(e.a);
        Put(InfixText(e.bop));
        PrintExpr(e.b);
        Put(")");
        Appended(o, "(", Print(e.a, ftoa), InfixText(e.bop), Print(e.b, ftoa), ")");
      } else {
        Put("(");
        PrintExpr(e.a);
        Put(" ? ");
        PrintExpr(e.b);
        Put(" : ");
        PrintExpr(e.c);
        Put(")");
        AppendedMore(o, "(", Print(e.a, ftoa), " ? ", Print(e.b, ftoa), " : ", Print(e.c, ftoa), ")");
      }
    }

    /** The argument loop, with a comma in front of every argument but the first. */
    method PrintArgList(e: Expr)
      requires e.FuncCall?
      modifies this`stream
      ensures stream == old(stream) + PrintArgs(e.args, ftoa)
      decreases e, 0
    {
      var comma := "";
      for i := 0 to |e.args|
        invariant comma == if i == 0 then "" else ", "
        invariant stream == old(stream) + PrintArgs(e.args[..i], ftoa)
      {
        assert e.args[..i + 1][..i] == e.args[..i];
        Put(comma);
        PrintExpr(e.args[i]);
        comma := ", ";
      }
      assert e.args[..|e.args|] == e.args;
    }
  }
}
