/** The lowered program (src/hir.rs) and its expression arena
    (src/hir/database.rs). Operands of a binary expression are arena
    indices, never nested values. The adjective, noun, operation and
    direction enumerations are the typed tree's own: lowering maps each
    variant to the variant of the same name. */
module Hir {

  import A = Ast

  datatype Item =
    | CharacterDef(character: string)
    | StageDirection(characters: seq<string>, direction: A.Direction)
    | Dialog(character: string, sentences: seq<Sentence>)

  /** Only statements have a lowered form. */
  datatype Sentence = Statement(expr: Expr)

  datatype Expr =
    | Noun(adjectives: seq<A.Adjective>, noun: A.Noun)
    | Bin(operation: A.Operation, lhs: nat, rhs: nat)
    | Nothing

  /** The arena (`la_arena::Arena<Expr>`): an index is a position. */
  datatype Database = Database(exprs: seq<Expr>)

  function EmptyDatabase(): (db: Database)
    ensures Wf(db) && |db.exprs| == 0
  {
    Database([])
  }

  /** Every index stored in `e` lies below `bound`. */
  predicate IndicesBelow(e: Expr, bound: nat) {
    e.Bin? ==> e.lhs < bound && e.rhs < bound
  }

  /** Each entry refers only to entries allocated before it, so following
      indices always terminates. */
  predicate Wf(db: Database) {
    forall i :: 0 <= i < |db.exprs| ==> IndicesBelow(db.exprs[i], i)
  }

  /** `Arena::alloc`: appends, and returns the new entry's index. */
  function Alloc(db: Database, e: Expr): (r: (Database, nat))
    requires Wf(db) && IndicesBelow(e, |db.exprs|)
    ensures |r.0.exprs| == |db.exprs| + 1 && r.0.exprs[..|db.exprs|] == db.exprs
    ensures Wf(r.0) && r.1 == |db.exprs| && r.0.exprs[r.1] == e
  {
    (Database(db.exprs + [e]), |db.exprs|)
  }

  /** `db'` holds everything `db` holds, at the same indices. */
  predicate Extends(db: Database, db': Database) {
    |db.exprs| <= |db'.exprs| && db'.exprs[..|db.exprs|] == db.exprs
  }

  lemma ExtendsTrans(a: Database, b: Database, c: Database)
    requires Extends(a, b) && Extends(b, c)
    ensures Extends(a, c)
  {
    assert c.exprs[..|a.exprs|] == c.exprs[..|b.exprs|][..|a.exprs|];
  }

  // ---------------------------------------------------------------------
  // What an arena expression denotes

  /** An expression as a nested value. */
  datatype Tree =
    | TNoun(adjectives: seq<A.Adjective>, noun: A.Noun)
    | TBin(operation: A.Operation, lhs: Tree, rhs: Tree)
    | TNothing

  /** The number of binary nodes in a tree. */
  function Bins(t: Tree): nat {
    match t
    case TBin(_, l, r) => 1 + Bins(l) + Bins(r)
    case _ => 0
  }

  predicate NothingFree(t: Tree) {
    match t
    case TNothing => false
    case TBin(_, l, r) => NothingFree(l) && NothingFree(r)
    case TNoun(_, _) => true
  }

  /** The tree rooted at arena entry `i`. */
  ghost function ResolveAt(db: Database, i: nat): Tree
    requires Wf(db) && i < |db.exprs|
    decreases i
  {
    match db.exprs[i]
    case Noun(adjectives, noun) => TNoun(adjectives, noun)
    case Bin(op, l, r) => TBin(op, ResolveAt(db, l), ResolveAt(db, r))
    case Nothing => TNothing
  }

  /** The tree of an expression whose operands lie in the arena. */
  ghost function Resolve(db: Database, e: Expr): Tree
    requires Wf(db) && IndicesBelow(e, |db.exprs|)
  {
    match e
    case Noun(adjectives, noun) => TNoun(adjectives, noun)
    case Bin(op, l, r) => TBin(op, ResolveAt(db, l), ResolveAt(db, r))
    case Nothing => TNothing
  }

  /** Allocating more never changes what an existing entry denotes. */
  lemma {:induction false} ResolveAtExtends(db: Database, db': Database, i: nat)
    requires Wf(db) && Wf(db') && Extends(db, db') && i < |db.exprs|
    ensures ResolveAt(db', i) == ResolveAt(db, i)
    decreases i
  {
    assert db'.exprs[i] == db.exprs[i] by {
      assert db'.exprs[..|db.exprs|][i] == db'.exprs[i];
    }
    match db.exprs[i]
    case Bin(_, l, r) =>
      ResolveAtExtends(db, db', l);
      ResolveAtExtends(db, db', r);
    case Noun(_, _) =>
    case Nothing =>
  }

  lemma ResolveExtends(db: Database, db': Database, e: Expr)
    requires Wf(db) && Wf(db') && Extends(db, db') && IndicesBelow(e, |db.exprs|)
    ensures Resolve(db', e) == Resolve(db, e)
  {
    if e.Bin? {
      ResolveAtExtends(db, db', e.lhs);
      ResolveAtExtends(db, db', e.rhs);
    }
  }
}
