/**
 * The abstract syntax tree the walkers read. The C program links nodes
 * through first-child and next-sibling pointers; here each node label the
 * walkers distinguish is a constructor and each child list is a sequence.
 */
module Ast {
  import opened Wrappers
  import opened Symbols

  /** The child of an identifier that marks call syntax. */
  datatype CallArgs = EmptyArgs | ListExp(args: seq<Expr>)

  datatype Expr =
    | Num(num: int)                                  // integer literal
    | Character(byte: int)                           // character literal, by its code
    | Ident(ident: Name, call: Option<CallArgs>)     // a name, with call syntax when `call` is present
    | ArrayLR(ident: Name, index: Expr)              // an indexed array element
    | Addsub(op: char, left: Expr, right: Expr)      // '+' or '-'
    | Divstar(op: char, left: Expr, right: Expr)     // '*', '/' or '%'
    | OtherExpr(tag: string)                         // comparisons, logic: handled by neither walker

  datatype Stmt =
    | Return(result: Option<Expr>)
    | Assignation(target: Expr, source: Expr)
    | ExprStmt(expr: Expr)                           // an expression node directly in the statement list
    | OtherStmt(tag: string)                         // if, while, nested blocks, empty instruction

  datatype Declarator = IdentDecl(ident: Name) | DeclArray(ident: Name, length: nat)

  /** `Type` heads an ordinary declaration; `DeclFonctArray` an array parameter such as `int t[]`. */
  datatype TypeLabel = TypeKw | DeclFonctArray

  /** A type keyword node and the declarators it governs (`int a, t[10], b;`). */
  datatype TypeNode = TypeNode(head: TypeLabel, keyword: string, declarators: seq<Declarator>)

  datatype ParamList = VoidParams | ListTypVar(types: seq<TypeNode>)

  /** A function: return keyword (None for `void`), name, parameters, local declarations, statement list. */
  datatype DeclFonct = DeclFonct(retKeyword: Option<string>, ident: Name, params: ParamList,
                                 locals: seq<TypeNode>, body: seq<Stmt>)

  datatype Prog = Prog(globals: seq<TypeNode>, funcs: seq<DeclFonct>)

  /** A measure of an expression that counts the argument lists of calls, for recursion over expressions and their arguments. */
  function ExprSize(e: Expr): (n: nat)
    ensures n >= 1
  {
    match e
    case Ident(_, call) => if call.Some? && call.value.ListExp? then 1 + ArgsSize(call.value.args) else 1
    case ArrayLR(_, i) => 1 + ExprSize(i)
    case Addsub(_, l, r) => 1 + ExprSize(l) + ExprSize(r)
    case Divstar(_, l, r) => 1 + ExprSize(l) + ExprSize(r)
    case _ => 1
  }

  function ArgsSize(args: seq<Expr>): nat
    decreases args
  {
    if |args| == 0 then 0 else ArgsSize(args[..|args| - 1]) + ExprSize(args[|args| - 1])
  }

  /** The keywords the grammar puts in a type node. */
  predicate KnownKeyword(kw: string) {
    kw == "char" || kw == "int"
  }

  predicate WellTyped(tns: seq<TypeNode>) {
    forall i :: 0 <= i < |tns| ==> KnownKeyword(tns[i].keyword)
  }

  /**
   * The shape the grammar guarantees and the builders assert: every type
   * keyword is `char` or `int`, and a parameter list that is not `void`
   * has at least one entry.
   */
  predicate WellFormedFonct(d: DeclFonct) {
    (d.retKeyword.Some? ==> KnownKeyword(d.retKeyword.value)) &&
    (d.params.ListTypVar? ==> |d.params.types| > 0 && WellTyped(d.params.types)) &&
    WellTyped(d.locals)
  }

  predicate WellFormed(p: Prog) {
    WellTyped(p.globals) && forall i :: 0 <= i < |p.funcs| ==> WellFormedFonct(p.funcs[i])
  }
}
