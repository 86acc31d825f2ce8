/** The parser's output: a flat event log (src/parser/event.rs together with
    the transient placeholder that `start` pushes, src/parser/imp.rs). */
module Events {

  import opened Wrappers
  import opened Lexer

  datatype Event =
    | StartNode(kind: SyntaxKind)
    | StartNodeAt(kind: SyntaxKind, checkpoint: nat)
    | FinishNode
    | AddToken(kind: SyntaxKind, text: string)
    | MarkerPlaceholder

  /** Walks the log from nesting depth `depth`: a start opens, a finish
      closes, a token leaves the depth alone. `None` if a finish closes below
      depth 0 or a placeholder or an unresolved `StartNodeAt` is met. */
  function Walk(evs: seq<Event>, depth: nat): Option<nat> {
    if evs == [] then Some(depth)
    else match evs[0]
      case StartNode(_) => Walk(evs[1..], depth + 1)
      case FinishNode => if depth == 0 then None else Walk(evs[1..], depth - 1)
      case AddToken(_, _) => Walk(evs[1..], depth)
      case _ => None
  }

  /** Start and finish events are properly nested, and every marker has
      been completed. */
  predicate Balanced(evs: seq<Event>) {
    Walk(evs, 0) == Some(0)
  }

  /** One Root node around a balanced body: the shape of every log the
      parser returns. */
  predicate RootShaped(evs: seq<Event>) {
    && |evs| >= 2 && evs[0] == StartNode(SyntaxKind.Root) && evs[|evs| - 1] == FinishNode
    && Balanced(evs[1..|evs| - 1])
  }

  /** The texts of the `AddToken` events, in order. */
  function AddedTexts(evs: seq<Event>): seq<string> {
    if evs == [] then []
    else (if evs[0].AddToken? then [evs[0].text] else []) + AddedTexts(evs[1..])
  }

  lemma {:induction false} AddedTextsAppend(a: seq<Event>, b: seq<Event>)
    ensures AddedTexts(a + b) == AddedTexts(a) + AddedTexts(b)
  {
    if a != [] {
      assert (a + b)[1..] == a[1..] + b;
      AddedTextsAppend(a[1..], b);
    } else {
      assert a + b == b;
    }
  }

  /** Walking a concatenation walks the first part, then the second from
      where the first left off. */
  lemma {:induction false} WalkAppend(a: seq<Event>, b: seq<Event>, depth: nat)
    ensures Walk(a + b, depth) ==
            (match Walk(a, depth) case None => None case Some(d) => Walk(b, d))
  {
    if a != [] {
      assert (a + b)[1..] == a[1..] + b;
      assert (a + b)[0] == a[0];
      match a[0]
      case StartNode(_) => WalkAppend(a[1..], b, depth + 1);
      case FinishNode => if depth > 0 { WalkAppend(a[1..], b, depth - 1); }
      case AddToken(_, _) => WalkAppend(a[1..], b, depth);
      case StartNodeAt(_, _) =>
      case MarkerPlaceholder =>
    } else {
      assert a + b == b;
    }
  }

  /** Starting one level deeper ends one level deeper. */
  lemma {:induction false} WalkShift(evs: seq<Event>, depth: nat)
    requires Walk(evs, depth).Some?
    ensures Walk(evs, depth + 1) == Some(Walk(evs, depth).value + 1)
  {
    if evs != [] {
      match evs[0]
      case StartNode(_) => WalkShift(evs[1..], depth + 1);
      case FinishNode => WalkShift(evs[1..], depth - 1);
      case AddToken(_, _) => WalkShift(evs[1..], depth);
    }
  }

  lemma BalancedEmpty()
    ensures Balanced([])
  {
  }

  lemma BalancedToken(kind: SyntaxKind, text: string)
    ensures Balanced([AddToken(kind, text)])
  {
    assert [AddToken(kind, text)][1..] == [];
  }

  lemma BalancedAppend(a: seq<Event>, b: seq<Event>)
    requires Balanced(a) && Balanced(b)
    ensures Balanced(a + b)
  {
    WalkAppend(a, b, 0);
  }

  /** Wrapping a balanced log in one start/finish pair keeps it balanced. */
  lemma BalancedWrap(kind: SyntaxKind, a: seq<Event>)
    requires Balanced(a)
    ensures Balanced([StartNode(kind)] + a + [FinishNode])
  {
    WalkShift(a, 0);
    WalkAppend([StartNode(kind)], a, 0);
    assert [StartNode(kind)][1..] == [];
    WalkAppend([StartNode(kind)] + a, [FinishNode], 0);
    assert [FinishNode][1..] == [];
  }

  /** A walkable log holds no placeholder and no unresolved `StartNodeAt`. */
  lemma {:induction false} WalkableIsResolved(evs: seq<Event>, depth: nat)
    requires Walk(evs, depth).Some?
    ensures forall i :: 0 <= i < |evs| ==> !evs[i].MarkerPlaceholder? && !evs[i].StartNodeAt?
  {
    if evs != [] {
      assert forall i :: 1 <= i < |evs| ==> evs[i] == evs[1..][i - 1];
      match evs[0]
      case StartNode(_) => WalkableIsResolved(evs[1..], depth + 1);
      case FinishNode => WalkableIsResolved(evs[1..], depth - 1);
      case AddToken(_, _) => WalkableIsResolved(evs[1..], depth);
    }
  }

  /** The number of start events equals the number of finish events in a
      balanced log. */
  function Starts(evs: seq<Event>): nat {
    if evs == [] then 0 else (if evs[0].StartNode? then 1 else 0) + Starts(evs[1..])
  }

  function Finishes(evs: seq<Event>): nat {
    if evs == [] then 0 else (if evs[0].FinishNode? then 1 else 0) + Finishes(evs[1..])
  }

  lemma {:induction false} WalkCounts(evs: seq<Event>, depth: nat)
    requires Walk(evs, depth).Some?
    ensures depth + Starts(evs) == Walk(evs, depth).value + Finishes(evs)
  {
    if evs != [] {
      match evs[0]
      case StartNode(_) => WalkCounts(evs[1..], depth + 1);
      case FinishNode => WalkCounts(evs[1..], depth - 1);
      case AddToken(_, _) => WalkCounts(evs[1..], depth);
    }
  }
}
