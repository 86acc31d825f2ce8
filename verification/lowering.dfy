/** Lowering the typed tree into the arena-based program (src/hir.rs:7-11
    and src/hir/database.rs). Every `unwrap` on a missing child becomes an
    error; the order of the unwraps is kept, so the error reported is the
    first one the source would panic on. The source has no case for
    `NothingExpr`, `IntOutput` or `CharOutput`, so trees holding one of
    them are excluded by precondition. */
module Lowering {

  import opened Wrappers
  import L = Lexer
  import opened Syntax
  import A = Ast
  import H = Hir

  /** Which `unwrap` would panic. */
  datatype LowerError =
    | MissingCharacter   // `character().unwrap()`
    | MissingDirection   // `direction().unwrap()`
    | MissingExpr        // `Statement::expr().unwrap()`
    | MissingNoun        // `noun().unwrap()`
    | MissingOperand     // `lhs().unwrap()` or `rhs().unwrap()`
    | MissingOperation   // `operation().unwrap()`

  /** No node anywhere in `n` is one lowering has no case for. */
  predicate Lowerable(n: Node)
    decreases n
  {
    && n.kind !in {L.NothingExpr, L.IntOutput, L.CharOutput}
    && forall i :: 0 <= i < |n.children| ==>
         (n.children[i].NodeElem? ==> Lowerable(n.children[i].node))
  }

  lemma LowerableChild(n: Node, c: Node)
    requires Lowerable(n) && c in A.ChildNodes(n)
    ensures Lowerable(c)
  {
    A.FilterMapFrom(n.children, A.AsNode, c);
    var j :| 0 <= j < |n.children| && A.AsNode(n.children[j]) == Some(c);
  }

  /** A typed wrapper whose variant agrees with its node's kind, as every
      cast and accessor of the typed tree produces. */
  predicate ExprOk(e: A.Expr) {
    A.ExprKind(e) == e.node.kind && Lowerable(e.node)
  }

  // ---------------------------------------------------------------------
  // Expressions

  /** What an expression of the typed tree denotes, as a nested value,
      reading its children in the order lowering does; the first missing
      child is the error. This is the reference lowering is measured
      against. */
  function AstTree(e: A.Expr): (r: Result<H.Tree, LowerError>)
    decreases A.Size(e.node)
  {
    match e
    case NounExpr(n) =>
      (match A.NounOf(n)
       case None => Err(MissingNoun)
       case Some(noun) => Ok(H.TNoun(A.Adjectives(n), noun)))
    case BinExpr(n) =>
      (match A.FirstExpr(n)
      case None => Err(MissingOperand)
      case Some(lhs) =>
        A.OperandsFrom(n);
        A.ChildSmaller(n, lhs.node);
        (match AstTree(lhs)
        case Err(err) => Err(err)
        case Ok(lt) =>
          (match A.SecondExpr(n)
          case None => Err(MissingOperand)
          case Some(rhs) =>
            A.ChildSmaller(n, rhs.node);
            (match AstTree(rhs)
            case Err(err) => Err(err)
            case Ok(rt) =>
              (match A.OperationOf(n)
              case None => Err(MissingOperation)
              case Some(op) => Ok(H.TBin(op, lt, rt)))))))
    case NothingExpr(_) => Ok(H.TNothing)
  }

  /** The two `alloc`s of a binary expression (src/hir/database.rs:63-64):
      the operands become the two newest entries, left first, and the
      result denotes the operation applied to what they denote. */
  function AllocBin(db: H.Database, op: A.Operation, lhs: H.Expr, rhs: H.Expr): (r: (H.Database, H.Expr))
    requires H.Wf(db) && H.IndicesBelow(lhs, |db.exprs|) && H.IndicesBelow(rhs, |db.exprs|)
    ensures H.Wf(r.0) && H.Extends(db, r.0) && |r.0.exprs| == |db.exprs| + 2
    ensures r.1 == H.Bin(op, |db.exprs|, |db.exprs| + 1)
    ensures H.IndicesBelow(r.1, |r.0.exprs|)
    ensures H.Resolve(r.0, r.1) == H.TBin(op, H.Resolve(db, lhs), H.Resolve(db, rhs))
  {
    var (db1, li) := H.Alloc(db, lhs);
    var (db2, ri) := H.Alloc(db1, rhs);
    assert H.Extends(db, db1) && H.Extends(db1, db2);
    H.ExtendsTrans(db, db1, db2);
    H.ResolveExtends(db, db2, lhs);
    H.ResolveExtends(db, db2, rhs);
    (db2, H.Bin(op, li, ri))
  }

  /** Lowering took `db` to `db'` and produced `x` for the tree `t`: the
      old entries are untouched, two entries were added per binary node,
      the operands of a binary `x` are the two newest entries, and `x`
      denotes `t`. */
  ghost predicate LowersTo(db: H.Database, db': H.Database, x: H.Expr, t: H.Tree) {
    && H.Wf(db) && H.Wf(db') && H.Extends(db, db')
    && |db'.exprs| == |db.exprs| + 2 * H.Bins(t)
    && H.IndicesBelow(x, |db'.exprs|)
    && (x.Bin? ==> x.lhs == |db'.exprs| - 2 && x.rhs == |db'.exprs| - 1)
    && H.Resolve(db', x) == t
    && H.NothingFree(t)
  }

  /** `lower_expr`: allocates both operands of every binary node, once
      they are lowered, and nothing for a noun. It fails exactly where the
      reference reports a missing child, with the same error, and
      otherwise yields an expression denoting the reference tree. */
  function LowerExpr(db: H.Database, e: A.Expr): (r: Result<(H.Database, H.Expr), LowerError>)
    requires H.Wf(db) && ExprOk(e)
    ensures r.Ok? <==> AstTree(e).Ok?
    ensures r.Err? ==> r.error == AstTree(e).error
    ensures r.Ok? ==> LowersTo(db, r.value.0, r.value.1, AstTree(e).value)
    decreases A.Size(e.node)
  {
    match e
    case NounExpr(n) =>
      (match A.NounOf(n)
       case None => Err(MissingNoun)
       case Some(noun) => Ok((db, H.Noun(A.Adjectives(n), noun))))
    case BinExpr(n) => LowerBin(db, n)
    case NothingExpr(_) => assert false; Err(MissingExpr)
  }

  /** The binary case of `lower_expr` (src/hir/database.rs:52-66): lower
      the left operand, then the right one, then look up the operation,
      then allocate. */
  function LowerBin(db: H.Database, n: Node): (r: Result<(H.Database, H.Expr), LowerError>)
    requires H.Wf(db) && ExprOk(A.BinExpr(n))
    ensures r.Ok? <==> AstTree(A.BinExpr(n)).Ok?
    ensures r.Err? ==> r.error == AstTree(A.BinExpr(n)).error
    ensures r.Ok? ==> LowersTo(db, r.value.0, r.value.1, AstTree(A.BinExpr(n)).value)
    decreases A.Size(n), 0
  {
    match A.FirstExpr(n)
    case None => Err(MissingOperand)
    case Some(lhs) =>
      A.OperandsFrom(n);
      A.ChildSmaller(n, lhs.node);
      LowerableChild(n, lhs.node);
      match LowerExpr(db, lhs)
      case Err(err) => Err(err)
      case Ok((db1, lx)) =>
        match A.SecondExpr(n)
        case None => Err(MissingOperand)
        case Some(rhs) =>
          A.ChildSmaller(n, rhs.node);
          LowerableChild(n, rhs.node);
          match LowerExpr(db1, rhs)
          case Err(err) => Err(err)
          case Ok((db2, rx)) =>
            match A.OperationOf(n)
            case None => Err(MissingOperation)
            case Some(op) =>
              var r := AllocBin(db2, op, lx, rx);
              BinLowers(db, db1, db2, op, lx, rx, AstTree(lhs).value, AstTree(rhs).value);
              Ok(r)
  }

  /** Allocating two lowered operands lowers the binary node. */
  lemma BinLowers(db: H.Database, db1: H.Database, db2: H.Database, op: A.Operation,
                  lx: H.Expr, rx: H.Expr, lt: H.Tree, rt: H.Tree)
    requires LowersTo(db, db1, lx, lt) && LowersTo(db1, db2, rx, rt)
    ensures LowersTo(db, AllocBin(db2, op, lx, rx).0, AllocBin(db2, op, lx, rx).1, H.TBin(op, lt, rt))
  {
    H.ResolveExtends(db1, db2, lx);
    var (db3, x) := AllocBin(db2, op, lx, rx);
    H.ExtendsTrans(db, db1, db2);
    H.ExtendsTrans(db, db2, db3);
  }

  // ---------------------------------------------------------------------
  // Sentences

  predicate SentenceOk(s: A.Sentence) {
    A.SentenceKind(s) == s.node.kind && Lowerable(s.node)
  }

  /** What a statement's expression denotes (`expr().unwrap()` first). */
  function StatementTree(s: A.Sentence): (r: Result<H.Tree, LowerError>)
    ensures A.FirstExpr(s.node).None? ==> r == Err(MissingExpr)
  {
    match A.FirstExpr(s.node)
    case None => Err(MissingExpr)
    case Some(e) => AstTree(e)
  }

  /** `lower_sentence`: only statements have a case. */
  function LowerSentence(db: H.Database, s: A.Sentence): (r: Result<(H.Database, H.Sentence), LowerError>)
    requires H.Wf(db) && SentenceOk(s)
    ensures r.Ok? <==> StatementTree(s).Ok?
    ensures r.Err? ==> r.error == StatementTree(s).error
    ensures r.Ok? ==> LowersTo(db, r.value.0, r.value.1.expr, StatementTree(s).value)
  {
    match s
    case Statement(n) =>
      (match A.FirstExpr(n)
       case None => Err(MissingExpr)
       case Some(e) =>
         A.OperandsFrom(n);
         LowerableChild(n, e.node);
         match LowerExpr(db, e)
         case Err(err) => Err(err)
         case Ok((db', x)) => Ok((db', H.Statement(x))))
    case IntOutput(_) => assert false; Err(MissingExpr)
    case CharOutput(_) => assert false; Err(MissingExpr)
  }

  /** The first error in `rs`, if any; the errors after it are never
      reached. */
  function FirstErr(rs: seq<Result<H.Tree, LowerError>>): (r: Option<LowerError>)
    ensures r.None? <==> forall i :: 0 <= i < |rs| ==> rs[i].Ok?
    ensures r.Some? ==> exists i :: 0 <= i < |rs| && rs[i] == Err(r.value)
                                    && forall j :: 0 <= j < i ==> rs[j].Ok?
  {
    if rs == [] then None
    else
      var rest := FirstErr(rs[1..]);
      assert forall i :: 1 <= i < |rs| ==> rs[i] == rs[1..][i - 1];
      match rs[0]
      case Err(err) => Some(err)
      case Ok(_) => rest
  }

  lemma FirstErrCons(t: Result<H.Tree, LowerError>, ts: seq<Result<H.Tree, LowerError>>)
    ensures FirstErr([t] + ts) == if t.Err? then Some(t.error) else FirstErr(ts)
  {
    assert ([t] + ts)[1..] == ts;
  }

  /** What each statement denotes, in order. */
  function StatementTrees(ss: seq<A.Sentence>): (r: seq<Result<H.Tree, LowerError>>)
    ensures |r| == |ss|
  {
    if ss == [] then [] else [StatementTree(ss[0])] + StatementTrees(ss[1..])
  }

  lemma {:induction false} StatementTreesAt(ss: seq<A.Sentence>, i: nat)
    requires i < |ss|
    ensures StatementTrees(ss)[i] == StatementTree(ss[i])
  {
    if i > 0 {
      StatementTreesAt(ss[1..], i - 1);
    }
  }

  /** Lowered sentence `i` denotes tree `i` in `db`. */
  ghost predicate SentencesDenote(db: H.Database, hs: seq<H.Sentence>, ts: seq<Result<H.Tree, LowerError>>) {
    && H.Wf(db) && |hs| == |ts|
    && forall i :: 0 <= i < |hs| ==>
         && ts[i].Ok?
         && H.IndicesBelow(hs[i].expr, |db.exprs|)
         && H.Resolve(db, hs[i].expr) == ts[i].value
  }

  lemma SentencesDenoteExtends(db: H.Database, db': H.Database, hs: seq<H.Sentence>, ts: seq<Result<H.Tree, LowerError>>)
    requires SentencesDenote(db, hs, ts) && H.Wf(db') && H.Extends(db, db')
    ensures SentencesDenote(db', hs, ts)
  {
    forall i | 0 <= i < |hs|
      ensures H.Resolve(db', hs[i].expr) == H.Resolve(db, hs[i].expr)
    {
      H.ResolveExtends(db, db', hs[i].expr);
    }
  }

  lemma SentencesCons(db: H.Database, db1: H.Database, db2: H.Database, h: H.Sentence,
                      hs: seq<H.Sentence>, t: H.Tree, ts: seq<Result<H.Tree, LowerError>>)
    requires LowersTo(db, db1, h.expr, t)
    requires H.Extends(db1, db2) && SentencesDenote(db2, hs, ts)
    ensures H.Extends(db, db2) && SentencesDenote(db2, [h] + hs, [Ok(t)] + ts)
  {
    H.ExtendsTrans(db, db1, db2);
    H.ResolveExtends(db1, db2, h.expr);
  }

  /** A dialog's sentences, lowered in order into one arena. */
  function LowerSentences(db: H.Database, ss: seq<A.Sentence>): (r: Result<(H.Database, seq<H.Sentence>), LowerError>)
    requires H.Wf(db) && AllSentencesOk(ss)
    ensures r.Ok? <==> FirstErr(StatementTrees(ss)).None?
    ensures r.Err? ==> r.error == FirstErr(StatementTrees(ss)).value
    ensures r.Ok? ==> H.Extends(db, r.value.0) && SentencesDenote(r.value.0, r.value.1, StatementTrees(ss))
    decreases |ss|
  {
    if ss == [] then Ok((db, []))
    else
      assert StatementTrees(ss) == [StatementTree(ss[0])] + StatementTrees(ss[1..]);
      FirstErrCons(StatementTree(ss[0]), StatementTrees(ss[1..]));
      match LowerSentence(db, ss[0])
      case Err(err) => Err(err)
      case Ok((db1, h)) =>
        match LowerSentences(db1, ss[1..])
        case Err(err) => Err(err)
        case Ok((db2, hs)) =>
          SentencesCons(db, db1, db2, h, hs, StatementTree(ss[0]).value, StatementTrees(ss[1..]));
          Ok((db2, [h] + hs))
  }

  /** Every sentence of a lowerable dialog is a statement wrapper. */
  lemma SentencesOk(n: Node)
    requires Lowerable(n)
    ensures AllSentencesOk(A.Sentences(n))
  {
    forall i | 0 <= i < |A.Sentences(n)|
      ensures SentenceOk(A.Sentences(n)[i])
    {
      A.SentencesFrom(n, i);
      LowerableChild(n, A.Sentences(n)[i].node);
    }
    AllSentencesOkFrom(A.Sentences(n));
  }

  predicate AllSentencesOk(ss: seq<A.Sentence>) {
    ss != [] ==> SentenceOk(ss[0]) && AllSentencesOk(ss[1..])
  }

  lemma {:induction false} AllSentencesOkFrom(ss: seq<A.Sentence>)
    requires forall i :: 0 <= i < |ss| ==> SentenceOk(ss[i])
    ensures AllSentencesOk(ss)
  {
    if ss != [] {
      assert forall i :: 1 <= i < |ss| ==> ss[1..][i - 1] == ss[i];
      AllSentencesOkFrom(ss[1..]);
    }
  }

  // ---------------------------------------------------------------------
  // Items and the program

  predicate ItemOk(a: A.Item) {
    A.ItemKind(a) == a.node.kind && Lowerable(a.node)
  }

  /** The first `unwrap` of `lower_item` that would panic, in order. */
  function ItemError(a: A.Item): (r: Option<LowerError>)
    ensures a.Dialog? && A.Character(a.node).Some? ==> r == FirstErr(StatementTrees(A.Sentences(a.node)))
  {
    match a
    case CharacterDef(n) => if A.Character(n).None? then Some(MissingCharacter) else None
    case StageDirection(n) => if A.DirectionOf(n).None? then Some(MissingDirection) else None
    case Dialog(n) => if A.Character(n).None? then Some(MissingCharacter) else FirstErr(StatementTrees(A.Sentences(n)))
  }

  /** `h` is the same-named variant as `a`, with the character copied, the
      stage direction's names in order and its direction unchanged, and
      each lowered sentence denoting its source sentence in `db`. */
  ghost predicate ItemDenotes(db: H.Database, a: A.Item, h: H.Item) {
    match a
    case CharacterDef(n) => h.CharacterDef? && A.Character(n) == Some(h.character)
    case StageDirection(n) =>
      h.StageDirection? && h.characters == A.Characters(n) && A.DirectionOf(n) == Some(h.direction)
    case Dialog(n) =>
      h.Dialog? && A.Character(n) == Some(h.character) && SentencesDenote(db, h.sentences, StatementTrees(A.Sentences(n)))
  }

  lemma ItemDenotesExtends(db: H.Database, db': H.Database, a: A.Item, h: H.Item)
    requires ItemDenotes(db, a, h) && H.Wf(db') && H.Extends(db, db')
    ensures ItemDenotes(db', a, h)
  {
    if a.Dialog? {
      SentencesDenoteExtends(db, db', h.sentences, StatementTrees(A.Sentences(a.node)));
    }
  }

  /** `lower_item`: only a dialog allocates. */
  function LowerItem(db: H.Database, a: A.Item): (r: Result<(H.Database, H.Item), LowerError>)
    requires H.Wf(db) && ItemOk(a)
    ensures r.Ok? <==> ItemError(a).None?
    ensures r.Err? ==> r.error == ItemError(a).value
    ensures r.Ok? ==> H.Wf(r.value.0) && H.Extends(db, r.value.0) && ItemDenotes(r.value.0, a, r.value.1)
    ensures r.Ok? && !a.Dialog? ==> r.value.0 == db
  {
    match a
    case CharacterDef(n) =>
      (match A.Character(n)
       case None => Err(MissingCharacter)
       case Some(c) => Ok((db, H.CharacterDef(c))))
    case StageDirection(n) =>
      (match A.DirectionOf(n)
       case None => Err(MissingDirection)
       case Some(d) => Ok((db, H.StageDirection(A.Characters(n), d))))
    case Dialog(n) => LowerDialog(db, n)
  }

  /** The dialog case of `lower_item` (src/hir/database.rs:25-31): the
      speaker first, then the sentences in order. */
  function LowerDialog(db: H.Database, n: Node): (r: Result<(H.Database, H.Item), LowerError>)
    requires H.Wf(db) && ItemOk(A.Dialog(n))
    ensures r.Ok? <==> ItemError(A.Dialog(n)).None?
    ensures r.Err? ==> r.error == ItemError(A.Dialog(n)).value
    ensures r.Ok? ==> H.Wf(r.value.0) && H.Extends(db, r.value.0) && ItemDenotes(r.value.0, A.Dialog(n), r.value.1)
  {
    match A.Character(n)
    case None => Err(MissingCharacter)
    case Some(c) =>
      SentencesOk(n);
      match LowerSentences(db, A.Sentences(n))
      case Err(err) => Err(err)
      case Ok((db', hs)) => Ok((db', H.Dialog(c, hs)))
  }

  /** The first problem in `ps`, if any. */
  function FirstProblem(ps: seq<Option<LowerError>>): (r: Option<LowerError>)
    ensures r.None? <==> forall i :: 0 <= i < |ps| ==> ps[i].None?
    ensures r.Some? ==> exists i :: 0 <= i < |ps| && ps[i] == r
                                    && forall j :: 0 <= j < i ==> ps[j].None?
  {
    if ps == [] then None
    else
      var rest := FirstProblem(ps[1..]);
      assert forall i :: 1 <= i < |ps| ==> ps[i] == ps[1..][i - 1];
      if ps[0].Some? then ps[0] else rest
  }

  lemma FirstProblemCons(p: Option<LowerError>, ps: seq<Option<LowerError>>)
    ensures FirstProblem([p] + ps) == if p.Some? then p else FirstProblem(ps)
  {
    assert ([p] + ps)[1..] == ps;
  }

  /** What stops each item from lowering, in order. */
  function ItemErrors(items: seq<A.Item>): (r: seq<Option<LowerError>>)
    ensures |r| == |items|
  {
    if items == [] then [] else [ItemError(items[0])] + ItemErrors(items[1..])
  }

  lemma {:induction false} ItemErrorsAt(items: seq<A.Item>, i: nat)
    requires i < |items|
    ensures ItemErrors(items)[i] == ItemError(items[i])
  {
    if i > 0 {
      ItemErrorsAt(items[1..], i - 1);
    }
  }

  /** Lowered item `i` corresponds to source item `i`. */
  ghost predicate ItemsDenote(db: H.Database, hs: seq<H.Item>, items: seq<A.Item>) {
    |hs| == |items| && forall i :: 0 <= i < |hs| ==> ItemDenotes(db, items[i], hs[i])
  }

  lemma ItemsCons(db1: H.Database, db2: H.Database, h: H.Item, hs: seq<H.Item>, items: seq<A.Item>)
    requires items != [] && ItemDenotes(db1, items[0], h) && H.Wf(db2) && H.Extends(db1, db2)
    requires ItemsDenote(db2, hs, items[1..])
    ensures ItemsDenote(db2, [h] + hs, items)
  {
    ItemDenotesExtends(db1, db2, items[0], h);
    var all := [h] + hs;
    forall i | 0 <= i < |all|
      ensures ItemDenotes(db2, items[i], all[i])
    {
      if i > 0 {
        assert all[i] == hs[i - 1] && items[i] == items[1..][i - 1];
      }
    }
  }

  /** The items, lowered in order into one arena. */
  function LowerItems(db: H.Database, items: seq<A.Item>): (r: Result<(H.Database, seq<H.Item>), LowerError>)
    requires H.Wf(db) && AllItemsOk(items)
    ensures r.Ok? <==> FirstProblem(ItemErrors(items)).None?
    ensures r.Err? ==> r.error == FirstProblem(ItemErrors(items)).value
    ensures r.Ok? ==> H.Wf(r.value.0) && H.Extends(db, r.value.0) && ItemsDenote(r.value.0, r.value.1, items)
    decreases |items|
  {
    if items == [] then Ok((db, []))
    else
      assert ItemErrors(items) == [ItemError(items[0])] + ItemErrors(items[1..]);
      FirstProblemCons(ItemError(items[0]), ItemErrors(items[1..]));
      match LowerItem(db, items[0])
      case Err(err) => Err(err)
      case Ok((db1, h)) =>
        match LowerItems(db1, items[1..])
        case Err(err) => Err(err)
        case Ok((db2, hs)) =>
          ItemsCons(db1, db2, h, hs, items);
          H.ExtendsTrans(db, db1, db2);
          Ok((db2, [h] + hs))
  }

  /** `lower`: one lowered item per item of the root, in order, all
      sharing one arena that starts empty. Fails with the first item's
      error when some item lacks a required part. */
  function Lower(root: A.Root): (r: Result<(seq<H.Item>, H.Database), LowerError>)
    requires Lowerable(root.node)
    ensures r.Ok? <==> FirstProblem(ItemErrors(A.Items(root))).None?
    ensures r.Err? ==> r.error == FirstProblem(ItemErrors(A.Items(root))).value
    ensures r.Ok? ==> H.Wf(r.value.1) && ItemsDenote(r.value.1, r.value.0, A.Items(root))
  {
    ItemsOk(root);
    match LowerItems(H.EmptyDatabase(), A.Items(root))
    case Err(err) => Err(err)
    case Ok((db, items)) => Ok((items, db))
  }

  lemma ItemsOk(root: A.Root)
    requires Lowerable(root.node)
    ensures AllItemsOk(A.Items(root))
  {
    forall i | 0 <= i < |A.Items(root)|
      ensures ItemOk(A.Items(root)[i])
    {
      A.ItemsFrom(root, i);
      LowerableChild(root.node, A.Items(root)[i].node);
    }
    AllItemsOkFrom(A.Items(root));
  }

  predicate AllItemsOk(items: seq<A.Item>) {
    items != [] ==> ItemOk(items[0]) && AllItemsOk(items[1..])
  }

  lemma {:induction false} AllItemsOkFrom(items: seq<A.Item>)
    requires forall i :: 0 <= i < |items| ==> ItemOk(items[i])
    ensures AllItemsOk(items)
  {
    if items != [] {
      assert forall i :: 1 <= i < |items| ==> items[1..][i - 1] == items[i];
      AllItemsOkFrom(items[1..]);
    }
  }
}
