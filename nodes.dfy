/** node::Node: a syntax tree node that eval_ast updates in place. */
module Nodes {
  import opened Tokens
  import opened Evaluation

  class Node {
    var tok: Token
    var children: seq<Node>
    /** The node and every node below it. */
    ghost var Repr: set<object>
    /** The tree this node is the root of. */
    ghost var model: Tree

    /** The nodes below form a tree: each child owns a part of the footprint
        that leaves this node out and shares nothing with its siblings, and the
        model has this node's token at its root and the children's models
        below it, in order. */
    ghost predicate Valid()
      reads this, Repr
      decreases Repr
    {
      this in Repr &&
      model.tok == tok && |model.kids| == |children| &&
      (forall i :: 0 <= i < |children| ==>
         children[i] in Repr && children[i].Repr <= Repr && this !in children[i].Repr &&
         children[i].model == model.kids[i] && children[i].Valid()) &&
      (forall i, j :: 0 <= i < j < |children| ==> children[i].Repr !! children[j].Repr)
    }
  }

  /** A node whose footprint nothing touched is still valid and still the root
      of the same tree. */
  twostate lemma Untouched(n: Node)
    requires old(n.Valid())
    requires forall o :: o in old(n.Repr) ==> unchanged(o)
    ensures n.Repr == old(n.Repr) && n.Valid() && n.model == old(n.model)
  {
  }

  /** Giving a valid node a new token, with the model's root to match, keeps
      it valid when nothing below it changed. */
  twostate lemma Retokened(n: Node)
    requires old(n.Valid())
    requires n.Repr == old(n.Repr) && n.children == old(n.children)
    requires forall o :: o in old(n.Repr) && o != n ==> unchanged(o)
    requires n.model == Tree(n.tok, old(n.model).kids)
    ensures n.Valid()
  {
    forall i | 0 <= i < |n.children|
      ensures n.children[i].Valid() && n.children[i].model == old(n.model).kids[i]
    {
      Untouched(n.children[i]);
    }
  }

  /** A valid node whose children are still valid over the same footprints
      is valid again once its model has their models below it. */
  twostate lemma Regrown(n: Node)
    requires old(n.Valid())
    requires n.Repr == old(n.Repr) && n.children == old(n.children) && n.tok == old(n.tok)
    requires n.model.tok == n.tok && |n.model.kids| == |n.children|
    requires forall i :: 0 <= i < |n.children| ==>
               n.children[i].Valid() && n.children[i].Repr == old(n.children[i].Repr) &&
               n.children[i].model == n.model.kids[i]
    ensures n.Valid()
  {
  }

  /** Dropping the first child of a valid node, and the first subtree of its
      model, keeps it valid. */
  twostate lemma Beheaded(n: Node)
    requires old(n.Valid()) && old(n.children) != []
    requires n.Repr == old(n.Repr) && n.tok == old(n.tok) && n.children == old(n.children)[1..]
    requires forall o :: o in old(n.Repr) && o != n ==> unchanged(o)
    requires n.model == Tree(n.tok, old(n.model).kids[1..])
    ensures n.Valid()
  {
    forall i | 0 <= i < |n.children|
      ensures n.children[i].Valid() && n.children[i].model == n.model.kids[i]
    {
      Untouched(n.children[i]);
    }
  }

  /** The tokens of a sequence of nodes. */
  function TokensOf(cs: seq<Node>): (ts: seq<Token>)
    reads cs
    ensures |ts| == |cs| && forall i :: 0 <= i < |cs| ==> ts[i] == cs[i].tok
  {
    if cs == [] then [] else [cs[0].tok] + TokensOf(cs[1..])
  }

  /** The tokens of a valid node's children are the roots of its model's
      subtrees. */
  lemma ChildTokens(n: Node)
    requires n.Valid()
    ensures TokensOf(n.children) == Roots(n.model.kids)
  {
  }
}
