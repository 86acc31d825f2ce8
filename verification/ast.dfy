/** The typed view of the syntax tree (src/ast.rs): wrappers that check a
    node's or token's kind, and accessors that pick children by position
    and kind. Nothing is copied; every accessor reads the tree. */
module Ast {

  import opened Wrappers
  import L = Lexer
  import opened Syntax

  // ---------------------------------------------------------------------
  // Iterator adaptors over children

  /** `filter_map`: the `Some` results, in order. */
  function FilterMap<A, B>(xs: seq<A>, f: A -> Option<B>): (r: seq<B>)
    ensures |r| <= |xs|
  {
    if xs == [] then []
    else
      var rest := FilterMap(xs[1..], f);
      match f(xs[0])
      case Some(y) => [y] + rest
      case None => rest
  }

  /** Every result of `filter_map` comes from some element. */
  lemma {:induction false} FilterMapFrom<A, B>(xs: seq<A>, f: A -> Option<B>, y: B)
    requires y in FilterMap(xs, f)
    ensures exists j :: 0 <= j < |xs| && f(xs[j]) == Some(y)
  {
    if f(xs[0]) == Some(y) {
      assert 0 < |xs| && f(xs[0]) == Some(y);
    } else {
      FilterMapFrom(xs[1..], f, y);
      var j :| 0 <= j < |xs[1..]| && f(xs[1..][j]) == Some(y);
      assert xs[1..][j] == xs[j + 1];
    }
  }

  /** Every `Some` result of `filter_map` is kept. */
  lemma {:induction false} FilterMapHas<A, B>(xs: seq<A>, f: A -> Option<B>, j: nat)
    requires j < |xs| && f(xs[j]).Some?
    ensures f(xs[j]).value in FilterMap(xs, f)
  {
    if j > 0 {
      FilterMapHas(xs[1..], f, j - 1);
      assert xs[1..][j - 1] == xs[j];
    }
  }

  /** `filter_map` keeps the order: it distributes over concatenation. */
  lemma {:induction false} FilterMapAppend<A, B>(xs: seq<A>, ys: seq<A>, f: A -> Option<B>)
    ensures FilterMap(xs + ys, f) == FilterMap(xs, f) + FilterMap(ys, f)
  {
    if xs == [] {
      assert xs + ys == ys;
    } else {
      assert (xs + ys)[0] == xs[0];
      assert (xs + ys)[1..] == xs[1..] + ys;
      FilterMapAppend(xs[1..], ys, f);
    }
  }

  /** `find_map`: the first `Some` result. */
  function FindMap<A, B>(xs: seq<A>, f: A -> Option<B>): (r: Option<B>)
    ensures r.Some? <==> exists j :: 0 <= j < |xs| && f(xs[j]).Some?
    ensures r.Some? ==> exists j :: 0 <= j < |xs| && f(xs[j]) == r && forall i :: 0 <= i < j ==> f(xs[i]).None?
  {
    if xs == [] then None
    else
      assert forall j :: 1 <= j < |xs| ==> xs[j] == xs[1..][j - 1];
      match f(xs[0])
      case Some(y) => Some(y)
      case None =>
        var r := FindMap(xs[1..], f);
        assert r.Some? ==> exists j :: 1 <= j < |xs| && f(xs[j]) == r && forall i :: 0 <= i < j ==> f(xs[i]).None?;
        r
  }

  /** `find_map` is the head of `filter_map`. */
  lemma {:induction false} FindMapIsFirst<A, B>(xs: seq<A>, f: A -> Option<B>)
    ensures FindMap(xs, f) == if FilterMap(xs, f) == [] then None else Some(FilterMap(xs, f)[0])
  {
    if xs != [] {
      FindMapIsFirst(xs[1..], f);
    }
  }

  function AsNode(e: Element): Option<Node> {
    if e.NodeElem? then Some(e.node) else None
  }

  function AsToken(e: Element): Option<L.Token> {
    if e.TokenElem? then Some(e.token) else None
  }

  /** `children()`: the child nodes, in order. */
  function ChildNodes(n: Node): seq<Node> {
    FilterMap(n.children, AsNode)
  }

  /** `children_with_tokens().filter_map(into_token)`: the direct tokens. */
  function ChildTokens(n: Node): seq<L.Token> {
    FilterMap(n.children, AsToken)
  }

  /** The number of nodes in a tree. */
  function Size(n: Node): nat
    decreases n
  {
    1 + SizeAll(n.children)
  }

  function SizeAll(es: seq<Element>): nat
    decreases es
  {
    if es == [] then 0 else ElemSize(es[0]) + SizeAll(es[1..])
  }

  function ElemSize(e: Element): nat
    decreases e
  {
    match e
    case NodeElem(c) => Size(c)
    case TokenElem(_) => 0
  }

  /** A child node is smaller than its parent. */
  lemma ChildSmaller(n: Node, c: Node)
    requires c in ChildNodes(n)
    ensures Size(c) < Size(n)
  {
    FilterMapFrom(n.children, AsNode, c);
    var j :| 0 <= j < |n.children| && AsNode(n.children[j]) == Some(c);
    ElementSmaller(n.children, j);
  }

  lemma {:induction false} ElementSmaller(es: seq<Element>, j: nat)
    requires j < |es| && es[j].NodeElem?
    ensures Size(es[j].node) <= SizeAll(es)
  {
    if j > 0 {
      ElementSmaller(es[1..], j - 1);
    }
  }

  /** rowan's `first_token`: the first token of the first child, going
      down through nodes. Whatever it finds is the first leaf. */
  function FirstToken(n: Node): (r: Option<L.Token>)
    ensures r.Some? ==> Leaves(n.children) != [] && Leaves(n.children)[0] == r.value.text
    decreases n
  {
    if n.children == [] then None
    else
      match n.children[0]
      case TokenElem(t) => Some(t)
      case NodeElem(c) =>
        var r := FirstToken(c);
        assert Leaves(n.children) == Leaves(c.children) + Leaves(n.children[1..]);
        r
  }

  // ---------------------------------------------------------------------
  // Typed wrappers

  datatype Root = Root(node: Node)

  datatype Item = CharacterDef(node: Node) | StageDirection(node: Node) | Dialog(node: Node)

  datatype Sentence = Statement(node: Node) | IntOutput(node: Node) | CharOutput(node: Node)

  datatype Expr = NounExpr(node: Node) | BinExpr(node: Node) | NothingExpr(node: Node)

  datatype Direction = Enter | Exit | Exeunt

  datatype Adjective = Positive | Negative | Neutral

  datatype Noun = Positive | Negative | Neutral

  datatype Operation = Difference | Quotient | Product | Sum | Remainder

  /** The node kind each variant wraps. */
  function ItemKind(i: Item): L.SyntaxKind {
    match i
    case CharacterDef(_) => L.CharacterDef
    case StageDirection(_) => L.StageDirection
    case Dialog(_) => L.Dialog
  }

  function SentenceKind(s: Sentence): L.SyntaxKind {
    match s
    case Statement(_) => L.Statement
    case IntOutput(_) => L.IntOutput
    case CharOutput(_) => L.CharOutput
  }

  function ExprKind(e: Expr): L.SyntaxKind {
    match e
    case NounExpr(_) => L.NounExpr
    case BinExpr(_) => L.BinExpr
    case NothingExpr(_) => L.NothingExpr
  }

  function RootCast(n: Node): (r: Option<Root>)
    ensures r.Some? <==> n.kind == L.Root
    ensures r.Some? ==> r.value.node == n
  {
    if n.kind == L.Root then Some(Root(n)) else None
  }

  /** `Item::cast`: succeeds exactly on the three item kinds, wrapping the
      node in the variant of its kind. */
  function ItemCast(n: Node): (r: Option<Item>)
    ensures r.Some? <==> n.kind in {L.CharacterDef, L.StageDirection, L.Dialog}
    ensures r.Some? ==> r.value.node == n && ItemKind(r.value) == n.kind
  {
    if n.kind == L.CharacterDef then Some(CharacterDef(n))
    else if n.kind == L.StageDirection then Some(StageDirection(n))
    else if n.kind == L.Dialog then Some(Dialog(n))
    else None
  }

  function SentenceCast(n: Node): (r: Option<Sentence>)
    ensures r.Some? <==> n.kind in {L.Statement, L.IntOutput, L.CharOutput}
    ensures r.Some? ==> r.value.node == n && SentenceKind(r.value) == n.kind
  {
    if n.kind == L.Statement then Some(Statement(n))
    else if n.kind == L.IntOutput then Some(IntOutput(n))
    else if n.kind == L.CharOutput then Some(CharOutput(n))
    else None
  }

  function ExprCast(n: Node): (r: Option<Expr>)
    ensures r.Some? <==> n.kind in {L.NounExpr, L.BinExpr, L.NothingExpr}
    ensures r.Some? ==> r.value.node == n && ExprKind(r.value) == n.kind
  {
    if n.kind == L.NounExpr then Some(NounExpr(n))
    else if n.kind == L.BinExpr then Some(BinExpr(n))
    else if n.kind == L.NothingExpr then Some(NothingExpr(n))
    else None
  }

  function AdjectiveCast(t: L.Token): (r: Option<Adjective>)
    ensures r.Some? <==> t.kind in {L.PositiveAdjective, L.NegativeAdjective, L.NeutralAdjective}
    ensures r == Some(Adjective.Positive) <==> t.kind == L.PositiveAdjective
    ensures r == Some(Adjective.Negative) <==> t.kind == L.NegativeAdjective
  {
    if t.kind == L.PositiveAdjective then Some(Adjective.Positive)
    else if t.kind == L.NegativeAdjective then Some(Adjective.Negative)
    else if t.kind == L.NeutralAdjective then Some(Adjective.Neutral)
    else None
  }

  function NounCast(t: L.Token): (r: Option<Noun>)
    ensures r.Some? <==> t.kind in {L.PositiveNoun, L.NegativeNoun, L.NeutralNoun}
    ensures r == Some(Noun.Positive) <==> t.kind == L.PositiveNoun
    ensures r == Some(Noun.Negative) <==> t.kind == L.NegativeNoun
  {
    if t.kind == L.PositiveNoun then Some(Noun.Positive)
    else if t.kind == L.NegativeNoun then Some(Noun.Negative)
    else if t.kind == L.NeutralNoun then Some(Noun.Neutral)
    else None
  }

  /** The `find` on a direction keyword followed by the exhaustive match
      on its kind, as one step. */
  function DirectionCast(t: L.Token): (r: Option<Direction>)
    ensures r.Some? <==> t.kind in {L.Enter, L.Exit, L.Exeunt}
    ensures r == Some(Enter) <==> t.kind == L.Enter
    ensures r == Some(Exit) <==> t.kind == L.Exit
  {
    if t.kind == L.Enter then Some(Enter)
    else if t.kind == L.Exit then Some(Exit)
    else if t.kind == L.Exeunt then Some(Exeunt)
    else None
  }

  /** The `find` on an operator keyword followed by the match on its kind. */
  function OperationCast(t: L.Token): (r: Option<Operation>)
    ensures r.Some? <==> t.kind in {L.Remainder, L.Difference, L.Quotient, L.Product, L.Sum}
    ensures r == Some(Remainder) <==> t.kind == L.Remainder
    ensures r == Some(Difference) <==> t.kind == L.Difference
    ensures r == Some(Quotient) <==> t.kind == L.Quotient
    ensures r == Some(Product) <==> t.kind == L.Product
  {
    if t.kind == L.Remainder then Some(Remainder)
    else if t.kind == L.Difference then Some(Difference)
    else if t.kind == L.Quotient then Some(Quotient)
    else if t.kind == L.Product then Some(Product)
    else if t.kind == L.Sum then Some(Sum)
    else None
  }

  function CharacterText(t: L.Token): Option<string> {
    if t.kind == L.Character then Some(t.text) else None
  }

  // ---------------------------------------------------------------------
  // Accessors

  /** `Root::items`: the child nodes that are items, in order. */
  function Items(root: Root): (r: seq<Item>)
    ensures |r| <= |ChildNodes(root.node)|
  {
    FilterMap(ChildNodes(root.node), ItemCast)
  }

  /** Each item wraps a child node of the root, in the variant of its
      kind. */
  lemma ItemsFrom(root: Root, i: nat)
    requires i < |Items(root)|
    ensures Items(root)[i].node in ChildNodes(root.node)
    ensures ItemKind(Items(root)[i]) == Items(root)[i].node.kind
  {
    FilterMapFrom(ChildNodes(root.node), ItemCast, Items(root)[i]);
  }

  /** Each child node of an item kind is listed. */
  lemma ItemsHas(root: Root, c: Node)
    requires c in ChildNodes(root.node) && c.kind in {L.CharacterDef, L.StageDirection, L.Dialog}
    ensures ItemCast(c).value in Items(root)
  {
    var j :| 0 <= j < |ChildNodes(root.node)| && ChildNodes(root.node)[j] == c;
    FilterMapHas(ChildNodes(root.node), ItemCast, j);
  }

  /** `character()` of a definition or a dialog: the text of its first
      token, which is its first leaf. */
  function Character(n: Node): (r: Option<string>)
    ensures r.Some? ==> Leaves(n.children) != [] && r.value == Leaves(n.children)[0]
  {
    match FirstToken(n)
    case Some(t) => Some(t.text)
    case None => None
  }

  /** `StageDirection::direction`: from the first direct Enter, Exit or
      Exeunt token, if any. */
  function DirectionOf(sd: Node): (r: Option<Direction>)
    ensures r.Some? <==> exists j :: 0 <= j < |ChildTokens(sd)| && ChildTokens(sd)[j].kind in {L.Enter, L.Exit, L.Exeunt}
    ensures r.Some? ==> exists j :: 0 <= j < |ChildTokens(sd)| && DirectionCast(ChildTokens(sd)[j]) == r
  {
    FindMap(ChildTokens(sd), DirectionCast)
  }

  /** `StageDirection::characters`: the texts of the direct `Character`
      tokens, in order. */
  function Characters(sd: Node): (r: seq<string>)
    ensures |r| <= |ChildTokens(sd)|
  {
    FilterMap(ChildTokens(sd), CharacterText)
  }

  /** Each listed name is the text of a direct `Character` token. */
  lemma CharactersFrom(sd: Node, i: nat)
    requires i < |Characters(sd)|
    ensures L.Token(L.Character, Characters(sd)[i]) in ChildTokens(sd)
  {
    FilterMapFrom(ChildTokens(sd), CharacterText, Characters(sd)[i]);
    var j :| 0 <= j < |ChildTokens(sd)| && CharacterText(ChildTokens(sd)[j]) == Some(Characters(sd)[i]);
    assert ChildTokens(sd)[j] == L.Token(L.Character, Characters(sd)[i]);
  }

  /** Each direct `Character` token's text is listed. */
  lemma CharactersHas(sd: Node, t: L.Token)
    requires t in ChildTokens(sd) && t.kind == L.Character
    ensures t.text in Characters(sd)
  {
    var j :| 0 <= j < |ChildTokens(sd)| && ChildTokens(sd)[j] == t;
    FilterMapHas(ChildTokens(sd), CharacterText, j);
  }

  /** `Dialog::sentences`: the child nodes that are sentences, in order. */
  function Sentences(dialog: Node): (r: seq<Sentence>)
    ensures |r| <= |ChildNodes(dialog)|
  {
    FilterMap(ChildNodes(dialog), SentenceCast)
  }

  /** Each sentence wraps a child node of the dialog, in the variant of
      its kind. */
  lemma SentencesFrom(dialog: Node, i: nat)
    requires i < |Sentences(dialog)|
    ensures Sentences(dialog)[i].node in ChildNodes(dialog)
    ensures SentenceKind(Sentences(dialog)[i]) == Sentences(dialog)[i].node.kind
  {
    FilterMapFrom(ChildNodes(dialog), SentenceCast, Sentences(dialog)[i]);
  }

  /** Each child node of a sentence kind is listed. */
  lemma SentencesHas(dialog: Node, c: Node)
    requires c in ChildNodes(dialog) && c.kind in {L.Statement, L.IntOutput, L.CharOutput}
    ensures SentenceCast(c).value in Sentences(dialog)
  {
    var j :| 0 <= j < |ChildNodes(dialog)| && ChildNodes(dialog)[j] == c;
    FilterMapHas(ChildNodes(dialog), SentenceCast, j);
  }

  /** The child nodes that are expressions, in order. */
  function ExprChildren(n: Node): (r: seq<Expr>)
    ensures |r| <= |ChildNodes(n)|
  {
    FilterMap(ChildNodes(n), ExprCast)
  }

  /** Each expression wraps a child node, in the variant of its kind. */
  lemma ExprChildrenFrom(n: Node, i: nat)
    requires i < |ExprChildren(n)|
    ensures ExprChildren(n)[i].node in ChildNodes(n)
    ensures ExprKind(ExprChildren(n)[i]) == ExprChildren(n)[i].node.kind
  {
    FilterMapFrom(ChildNodes(n), ExprCast, ExprChildren(n)[i]);
  }

  /** `Statement::expr` and `BinExpr::lhs`: the first child node that is
      an expression. */
  function FirstExpr(n: Node): Option<Expr> {
    FindMap(ChildNodes(n), ExprCast)
  }

  /** The first expression child is the head of the expression children. */
  lemma FirstExprIsHead(n: Node)
    ensures FirstExpr(n) == if ExprChildren(n) == [] then None else Some(ExprChildren(n)[0])
  {
    FindMapIsFirst(ChildNodes(n), ExprCast);
  }

  /** `BinExpr::rhs`: the second child node that is an expression; there
      is none unless there is a first. */
  function SecondExpr(n: Node): (r: Option<Expr>)
    ensures r.Some? ==> FirstExpr(n).Some? && |ExprChildren(n)| >= 2 && r.value == ExprChildren(n)[1]
  {
    FirstExprIsHead(n);
    var es := ExprChildren(n);
    if |es| >= 2 then Some(es[1]) else None
  }

  /** Both operands are child nodes of the kinds their variants name. */
  lemma OperandsFrom(n: Node)
    ensures FirstExpr(n).Some? ==> FirstExpr(n).value.node in ChildNodes(n)
                                   && ExprKind(FirstExpr(n).value) == FirstExpr(n).value.node.kind
    ensures SecondExpr(n).Some? ==> SecondExpr(n).value.node in ChildNodes(n)
                                    && ExprKind(SecondExpr(n).value) == SecondExpr(n).value.node.kind
  {
    FirstExprIsHead(n);
    if FirstExpr(n).Some? {
      ExprChildrenFrom(n, 0);
    }
    if SecondExpr(n).Some? {
      ExprChildrenFrom(n, 1);
    }
  }

  /** `NounExpr::adjectives`: the direct adjective tokens, in order. */
  function Adjectives(ne: Node): (r: seq<Adjective>)
    ensures |r| <= |ChildTokens(ne)|
  {
    FilterMap(ChildTokens(ne), AdjectiveCast)
  }

  /** Each adjective comes from a direct adjective token of its kind. */
  lemma AdjectivesFrom(ne: Node, i: nat)
    requires i < |Adjectives(ne)|
    ensures exists j :: 0 <= j < |ChildTokens(ne)| && AdjectiveCast(ChildTokens(ne)[j]) == Some(Adjectives(ne)[i])
  {
    FilterMapFrom(ChildTokens(ne), AdjectiveCast, Adjectives(ne)[i]);
  }

  /** Each direct adjective token contributes its adjective. */
  lemma AdjectivesHas(ne: Node, j: nat)
    requires j < |ChildTokens(ne)| && AdjectiveCast(ChildTokens(ne)[j]).Some?
    ensures AdjectiveCast(ChildTokens(ne)[j]).value in Adjectives(ne)
  {
    FilterMapHas(ChildTokens(ne), AdjectiveCast, j);
  }

  /** `NounExpr::noun`: from the first direct noun token. */
  function NounOf(ne: Node): (r: Option<Noun>)
    ensures r.Some? <==> exists j :: 0 <= j < |ChildTokens(ne)| && NounCast(ChildTokens(ne)[j]).Some?
  {
    FindMap(ChildTokens(ne), NounCast)
  }

  /** `BinExpr::operation`: from the first direct operator token. */
  function OperationOf(be: Node): (r: Option<Operation>)
    ensures r.Some? <==> exists j :: 0 <= j < |ChildTokens(be)| && OperationCast(ChildTokens(be)[j]).Some?
  {
    FindMap(ChildTokens(be), OperationCast)
  }
}
