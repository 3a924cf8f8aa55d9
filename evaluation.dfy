/** What Parser::eval_ast computes, on syntax trees as values.

    A list node is folded bottom-up: each child is evaluated first, the head
    child is dropped, and the node's token becomes the fold of the remaining
    children when the head is an operator, or `Token(NONE, "")` otherwise. The
    membership test for `token::operators` and the numeric fold are parameters:
    the fold stands for the float accumulation of the source, from the
    operator and the children's texts to whether the result is fractional and
    its printed text. */
module Evaluation {
  import opened Tokens

  /** A syntax tree node: a token and the node's children, in order. */
  datatype Tree = Tree(tok: Token, kids: seq<Tree>)

  /** The outcome of the numeric fold: `count - (int)count > 0`, and the text
      std::to_string gives the count. */
  datatype Folded = Folded(isFloat: bool, text: string)

  type Fold = (TokenType, seq<string>) -> Folded

  /** The four operators the switch of eval_list has a case for. */
  predicate IsArithmetic(k: TokenType)
  {
    k == Plus || k == Minus || k == Multiply || k == Divide
  }

  /** The texts of a sequence of tokens. */
  function Vals(ts: seq<Token>): (vs: seq<string>)
    ensures |vs| == |ts| && forall i :: 0 <= i < |ts| ==> vs[i] == ts[i].val
  {
    if ts == [] then [] else [ts[0].val] + Vals(ts[1..])
  }

  /** The token an operator head folds its arguments into. Any operator
      without a case in the switch leaves the count at zero. */
  function FoldToken(op: TokenType, vals: seq<string>, fold: Fold): (t: Token)
    ensures t.kind == Integer || t.kind == Float
    ensures !IsArithmetic(op) ==> t == Token(Integer, "0")
  {
    var r := if IsArithmetic(op) then fold(op, vals) else Folded(false, "0");
    Token(if r.isFloat then Float else Integer, r.text)
  }

  /** The token eval_list returns for children with tokens `toks`. */
  function ListToken(toks: seq<Token>, isOperator: TokenType -> bool, fold: Fold): (t: Token)
    ensures t.kind == None || t.kind == Integer || t.kind == Float
    ensures t.kind == None <==> toks == [] || !isOperator(toks[0].kind)
    ensures t.kind == None ==> t == NoneToken
  {
    if toks == [] || !isOperator(toks[0].kind) then NoneToken
    else FoldToken(toks[0].kind, Vals(toks[1..]), fold)
  }

  /** The tokens at the roots of `ts`. */
  function Roots(ts: seq<Tree>): (toks: seq<Token>)
    ensures |toks| == |ts| && forall i :: 0 <= i < |ts| ==> toks[i] == ts[i].tok
  {
    if ts == [] then [] else [ts[0].tok] + Roots(ts[1..])
  }

  /** eval_ast on a tree. */
  function Eval(t: Tree, isOperator: TokenType -> bool, fold: Fold): (r: Tree)
    ensures t.tok.kind != List ==> r == t
    ensures t.tok.kind == List ==> r.tok.kind == None || r.tok.kind == Integer || r.tok.kind == Float
    ensures t.tok.kind == List ==> |r.kids| == if t.kids == [] then 0 else |t.kids| - 1
    decreases t, 1
  {
    if t.tok.kind != List then t
    else
      var kids := EvalAll(t.kids, isOperator, fold);
      Tree(ListToken(Roots(kids), isOperator, fold), if kids == [] then [] else kids[1..])
  }

  /** Every tree of `ts` evaluated. */
  function EvalAll(ts: seq<Tree>, isOperator: TokenType -> bool, fold: Fold): (rs: seq<Tree>)
    ensures |rs| == |ts| && forall i :: 0 <= i < |ts| ==> rs[i] == Eval(ts[i], isOperator, fold)
    decreases ts, 0
  {
    if ts == [] then [] else [Eval(ts[0], isOperator, fold)] + EvalAll(ts[1..], isOperator, fold)
  }

  /** A tree in which only list nodes have children. */
  predicate Shaped(t: Tree)
    decreases t
  {
    (t.tok.kind != List ==> t.kids == []) &&
    forall i :: 0 <= i < |t.kids| ==> Shaped(t.kids[i])
  }

  /** A tree with no list token left in it. */
  predicate ListFree(t: Tree)
    decreases t
  {
    t.tok.kind != List && forall i :: 0 <= i < |t.kids| ==> ListFree(t.kids[i])
  }

  /** Evaluation leaves no list node behind in a tree whose only inner nodes
      are lists. */
  lemma {:induction false} EvalRemovesLists(t: Tree, isOperator: TokenType -> bool, fold: Fold)
    requires Shaped(t)
    ensures ListFree(Eval(t, isOperator, fold))
    decreases t
  {
    if t.tok.kind == List {
      var kids := EvalAll(t.kids, isOperator, fold);
      forall i | 0 <= i < |kids|
        ensures ListFree(kids[i])
      {
        EvalRemovesLists(t.kids[i], isOperator, fold);
      }
    }
  }

  /** Evaluating twice is evaluating once: the root of an evaluated list is
      never a list again. */
  lemma EvalIdempotent(t: Tree, isOperator: TokenType -> bool, fold: Fold)
    ensures Eval(Eval(t, isOperator, fold), isOperator, fold) == Eval(t, isOperator, fold)
  {
  }
}
