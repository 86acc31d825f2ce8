/** The sink (src/parser/sink.rs): moves each `StartNodeAt` to its
    checkpoint, then replays the events into the tree builder. The source
    tokens are never consulted, so the tree's leaves are exactly the texts
    the events carry. */
module Sink {

  import opened Wrappers
  import opened Lexer
  import opened Events
  import opened Syntax

  /** Every `StartNodeAt` names a checkpoint at or before its own index. */
  predicate CheckpointsBefore(evs: seq<Event>) {
    forall i :: 0 <= i < |evs| && evs[i].StartNodeAt? ==> evs[i].checkpoint <= i
  }

  predicate NoStartNodeAt(evs: seq<Event>) {
    forall i :: 0 <= i < |evs| ==> !evs[i].StartNodeAt?
  }

  /** The events that are not starts of either form, in order. */
  function NonStarts(evs: seq<Event>): seq<Event> {
    if evs == [] then []
    else
      match evs[0]
      case StartNode(_) => NonStarts(evs[1..])
      case StartNodeAt(_, _) => NonStarts(evs[1..])
      case _ => [evs[0]] + NonStarts(evs[1..])
  }

  /** The kinds of the starts of either form, in order. */
  function StartKinds(evs: seq<Event>): seq<SyntaxKind> {
    if evs == [] then []
    else
      match evs[0]
      case StartNode(k) => [k] + StartKinds(evs[1..])
      case StartNodeAt(k, _) => [k] + StartKinds(evs[1..])
      case _ => StartKinds(evs[1..])
  }

  lemma {:induction false} NonStartsAppend(a: seq<Event>, b: seq<Event>)
    ensures NonStarts(a + b) == NonStarts(a) + NonStarts(b)
  {
    if a == [] {
      assert a + b == b;
    } else {
      assert (a + b)[0] == a[0];
      assert (a + b)[1..] == a[1..] + b;
      NonStartsAppend(a[1..], b);
      match a[0]
      case StartNode(_) =>
      case StartNodeAt(_, _) =>
      case _ =>
        assert NonStarts(a + b) == [a[0]] + NonStarts(a[1..] + b);
    }
  }

  lemma {:induction false} StartKindsAppend(a: seq<Event>, b: seq<Event>)
    ensures StartKinds(a + b) == StartKinds(a) + StartKinds(b)
  {
    if a == [] {
      assert a + b == b;
    } else {
      assert (a + b)[0] == a[0];
      assert (a + b)[1..] == a[1..] + b;
      StartKindsAppend(a[1..], b);
      match a[0]
      case StartNode(k) =>
        assert StartKinds(a + b) == [k] + StartKinds(a[1..] + b);
      case StartNodeAt(k, _) =>
        assert StartKinds(a + b) == [k] + StartKinds(a[1..] + b);
      case _ =>
    }
  }

  /** Taking `cur[idx]` out and putting `e` in at `c` instead, with
      `c <= idx`. */
  function Rotate(cur: seq<Event>, idx: nat, c: nat, e: Event): (r: seq<Event>)
    requires c <= idx < |cur|
    ensures |r| == |cur|
    ensures forall i :: 0 <= i < c ==> r[i] == cur[i]
    ensures r[c] == e
    ensures forall i :: c < i <= idx ==> r[i] == cur[i - 1]
    ensures forall i :: idx < i < |cur| ==> r[i] == cur[i]
  {
    var removed := cur[..idx] + cur[idx + 1..];
    removed[..c] + [e] + removed[c..]
  }

  lemma RotateShape(cur: seq<Event>, idx: nat, c: nat, e: Event)
    requires c <= idx < |cur|
    ensures Rotate(cur, idx, c, e) == cur[..c] + [e] + cur[c..idx] + cur[idx + 1..]
    ensures cur == cur[..c] + cur[c..idx] + [cur[idx]] + cur[idx + 1..]
  {
    var removed := cur[..idx] + cur[idx + 1..];
    assert removed[..c] == cur[..c];
    assert removed[c..] == cur[c..idx] + cur[idx + 1..];
  }

  /** Rotating a start into place keeps the non-start events ... */
  lemma RotateKeepsNonStarts(cur: seq<Event>, idx: nat, c: nat, k: SyntaxKind)
    requires c <= idx < |cur| && (cur[idx].StartNode? || cur[idx].StartNodeAt?)
    ensures NonStarts(Rotate(cur, idx, c, StartNode(k))) == NonStarts(cur)
  {
    RotateShape(cur, idx, c, StartNode(k));
    var x, y, z := cur[..c], cur[c..idx], cur[idx + 1..];
    NonStartsAround(x, StartNode(k), y, z);
    NonStartsAround(x + y, cur[idx], [], z);
    assert x + y + [cur[idx]] + [] + z == x + y + [cur[idx]] + z;
    assert x + y + [] == x + y;
  }

  /** A start between `x + y` and `z` is invisible to `NonStarts`. */
  lemma NonStartsAround(x: seq<Event>, e: Event, y: seq<Event>, z: seq<Event>)
    requires e.StartNode? || e.StartNodeAt?
    ensures NonStarts(x + [e] + y + z) == NonStarts(x + y) + NonStarts(z)
  {
    NonStartsAppend(x, [e]);
    NonStartsAppend(x + [e], y);
    NonStartsAppend(x + [e] + y, z);
    NonStartsAppend(x, y);
    assert NonStarts([e]) == [] by {
      assert [e][1..] == [];
    }
  }

  /** ... and the started kinds, as a multiset. */
  lemma RotateKeepsStartKinds(cur: seq<Event>, idx: nat, c: nat, k: SyntaxKind)
    requires c <= idx < |cur| && (cur[idx].StartNode? || cur[idx].StartNodeAt?) && cur[idx].kind == k
    ensures multiset(StartKinds(Rotate(cur, idx, c, StartNode(k)))) == multiset(StartKinds(cur))
  {
    RotateShape(cur, idx, c, StartNode(k));
    var x, y, z := cur[..c], cur[c..idx], cur[idx + 1..];
    StartKindsAppend(x, [StartNode(k)]);
    StartKindsAppend(x + [StartNode(k)], y);
    StartKindsAppend(x + [StartNode(k)] + y, z);
    StartKindsAppend(x, y);
    StartKindsAppend(x + y, [cur[idx]]);
    StartKindsAppend(x + y + [cur[idx]], z);
    assert StartKinds([StartNode(k)]) == [k] by {
      assert [StartNode(k)][1..] == [];
    }
    assert StartKinds([cur[idx]]) == [k] by {
      assert [cur[idx]][1..] == [];
    }
  }

  /** `remove(idx)` then `insert(checkpoint, StartNode { kind })`: the start
      lands at its checkpoint, what lay between shifts one place right, and
      nothing else moves. */
  function MoveToCheckpoint(cur: seq<Event>, idx: nat): (r: seq<Event>)
    requires idx < |cur| && cur[idx].StartNodeAt? && cur[idx].checkpoint <= idx
    ensures |r| == |cur|
    ensures r[cur[idx].checkpoint] == StartNode(cur[idx].kind)
    ensures forall i :: 0 <= i < cur[idx].checkpoint ==> r[i] == cur[i]
    ensures forall i :: cur[idx].checkpoint < i <= idx ==> r[i] == cur[i - 1]
    ensures forall i :: idx < i < |cur| ==> r[i] == cur[i]
    ensures NonStarts(r) == NonStarts(cur)
    ensures multiset(StartKinds(r)) == multiset(StartKinds(cur))
  {
    RotateKeepsNonStarts(cur, idx, cur[idx].checkpoint, cur[idx].kind);
    RotateKeepsStartKinds(cur, idx, cur[idx].checkpoint, cur[idx].kind);
    Rotate(cur, idx, cur[idx].checkpoint, StartNode(cur[idx].kind))
  }

  /** The reordering loop from index `idx` on; `cur` is the working copy,
      which still agrees with `orig` from `idx` on and holds no
      `StartNodeAt` before it. */
  function ReorderFrom(orig: seq<Event>, cur: seq<Event>, idx: nat): (r: seq<Event>)
    requires CheckpointsBefore(orig) && idx <= |orig| && |cur| == |orig|
    requires forall i :: idx <= i < |orig| ==> cur[i] == orig[i]
    requires forall i :: 0 <= i < idx ==> !cur[i].StartNodeAt?
    ensures |r| == |orig| && NoStartNodeAt(r)
    ensures NonStarts(r) == NonStarts(cur)
    ensures multiset(StartKinds(r)) == multiset(StartKinds(cur))
    ensures (forall i :: idx <= i < |orig| ==> !orig[i].StartNodeAt?) ==> r == cur
    decreases |orig| - idx
  {
    if idx == |orig| then
      cur
    else if orig[idx].StartNodeAt? then
      ReorderFrom(orig, MoveToCheckpoint(cur, idx), idx + 1)
    else
      ReorderFrom(orig, cur, idx + 1)
  }

  /** The reordering pass of `finish`: no `StartNodeAt` is left, the count
      is unchanged, every other event keeps its relative order, the started
      kinds are the same, and a log without `StartNodeAt` is left alone. */
  function Reorder(evs: seq<Event>): (r: seq<Event>)
    requires CheckpointsBefore(evs)
    ensures |r| == |evs| && NoStartNodeAt(r)
    ensures NonStarts(r) == NonStarts(evs)
    ensures multiset(StartKinds(r)) == multiset(StartKinds(evs))
    ensures NoStartNodeAt(evs) ==> r == evs
  {
    ReorderFrom(evs, evs, 0)
  }

  /** The replay loop: one builder operation per event, in order. */
  function Replay(evs: seq<Event>, b: Builder): (r: Result<Builder, BuildError>)
    requires b.Wf()
    ensures r.Ok? ==> r.value.Wf()
    ensures (exists i :: 0 <= i < |evs| && (evs[i].StartNodeAt? || evs[i].MarkerPlaceholder?)) ==> r.Err?
  {
    if evs == [] then Ok(b)
    else
      assert forall i :: 1 <= i < |evs| ==> evs[i] == evs[1..][i - 1];
      match evs[0]
      case StartNode(kind) => Replay(evs[1..], b.StartNode(kind))
      case StartNodeAt(_, _) => Err(Unreachable)
      case FinishNode =>
        var b' :- b.FinishNode();
        Replay(evs[1..], b')
      case AddToken(kind, text) => Replay(evs[1..], b.AddToken(kind, text))
      case MarkerPlaceholder => Err(Unreachable)
  }

  /** `Sink::finish`: reorder, replay from an empty builder, and take the
      one finished node. A log that still holds a marker placeholder never
      builds; a Root node around a balanced body always builds a Root
      tree whose leaves are the logged texts, in order. */
  function Finish(evs: seq<Event>): (r: Result<Node, BuildError>)
    requires CheckpointsBefore(evs)
    ensures (exists i :: 0 <= i < |evs| && evs[i].MarkerPlaceholder?) ==> r.Err?
    ensures RootShaped(evs) ==> r.Ok? && r.value.kind == Root && Leaves(r.value.children) == AddedTexts(evs)
  {
    PlaceholderSurvives(evs);
    PlaceholderSurvives(Reorder(evs));
    if RootShaped(evs) then
      RootLogReplays(evs);
      var b := Replay(Reorder(evs), EmptyBuilder()).value;
      b.Finish()
    else
      var b :- Replay(Reorder(evs), EmptyBuilder());
      b.Finish()
  }

  /** A placeholder is kept among the events that are not starts. */
  lemma {:induction false} PlaceholderSurvives(evs: seq<Event>)
    ensures (exists i :: 0 <= i < |evs| && evs[i].MarkerPlaceholder?) <==> MarkerPlaceholder in NonStarts(evs)
  {
    if evs != [] {
      PlaceholderSurvives(evs[1..]);
      if exists i :: 0 <= i < |evs| && evs[i].MarkerPlaceholder? {
        var i :| 0 <= i < |evs| && evs[i].MarkerPlaceholder?;
        if i > 0 {
          assert evs[1..][i - 1].MarkerPlaceholder?;
        }
      }
      if exists i :: 0 <= i < |evs[1..]| && evs[1..][i].MarkerPlaceholder? {
        var i :| 0 <= i < |evs[1..]| && evs[1..][i].MarkerPlaceholder?;
        assert evs[i + 1].MarkerPlaceholder?;
      }
    }
  }

  /** One replay step, and what the first event adds to the texts. */
  lemma ReplayHead(evs: seq<Event>, b: Builder)
    requires b.Wf() && evs != []
    ensures evs[0].StartNode? ==>
              && Replay(evs, b) == Replay(evs[1..], b.StartNode(evs[0].kind))
              && AddedTexts(evs) == AddedTexts(evs[1..])
    ensures evs[0].FinishNode? && b.parents != [] ==>
              && Replay(evs, b) == Replay(evs[1..], b.FinishNode().value)
              && AddedTexts(evs) == AddedTexts(evs[1..])
    ensures evs[0].AddToken? ==>
              && Replay(evs, b) == Replay(evs[1..], b.AddToken(evs[0].kind, evs[0].text))
              && AddedTexts(evs) == [evs[0].text] + AddedTexts(evs[1..])
  {
  }

  /** What replaying `evs` from `b` at relative depth `d` yields: the open
      nodes below depth `d` are left alone, `Walk(evs, d)` nodes are open
      above them, and the stretch's token texts follow the old leaves. */
  ghost predicate ReplaysWalk(evs: seq<Event>, b: Builder, d: nat)
    requires b.Wf() && d <= |b.parents| && Walk(evs, d).Some?
  {
    var r := Replay(evs, b);
    var keep := |b.parents| - d;
    && r.Ok?
    && |r.value.parents| == keep + Walk(evs, d).value
    && r.value.parents[..keep] == b.parents[..keep]
    && Leaves(r.value.children) == Leaves(b.children) + AddedTexts(evs)
  }

  /** Replaying a stretch that walks from relative depth `d` leaves the
      open nodes below depth `d` alone, ends with `Walk(evs, d)` nodes open
      above them, and appends the stretch's token texts to the leaves. */
  lemma {:induction false} ReplayWalk(evs: seq<Event>, b: Builder, d: nat)
    requires b.Wf() && d <= |b.parents| && Walk(evs, d).Some?
    ensures Replay(evs, b).Ok?
    ensures var b' := Replay(evs, b).value;
            var keep := |b.parents| - d;
            && |b'.parents| == keep + Walk(evs, d).value
            && b'.parents[..keep] == b.parents[..keep]
            && Leaves(b'.children) == Leaves(b.children) + AddedTexts(evs)
    decreases |evs|, 1
  {
    if evs == [] {
    } else if evs[0].StartNode? {
      ReplayWalkStart(evs, b, d);
    } else if evs[0].FinishNode? {
      ReplayWalkFinish(evs, b, d);
    } else {
      ReplayWalkToken(evs, b, d);
    }
  }

  lemma {:induction false} ReplayWalkStart(evs: seq<Event>, b: Builder, d: nat)
    requires b.Wf() && d <= |b.parents| && evs != [] && evs[0].StartNode? && Walk(evs, d).Some?
    ensures ReplaysWalk(evs, b, d)
    decreases |evs|, 0
  {
    var keep := |b.parents| - d;
    var b1 := b.StartNode(evs[0].kind);
    ReplayHead(evs, b);
    ReplayWalk(evs[1..], b1, d + 1);
    assert b1.parents[..keep] == b.parents[..keep];
  }

  lemma {:induction false} ReplayWalkFinish(evs: seq<Event>, b: Builder, d: nat)
    requires b.Wf() && d <= |b.parents| && evs != [] && evs[0].FinishNode? && Walk(evs, d).Some?
    ensures ReplaysWalk(evs, b, d)
    decreases |evs|, 0
  {
    var keep := |b.parents| - d;
    var b1 := b.FinishNode().value;
    ReplayHead(evs, b);
    ReplayWalk(evs[1..], b1, d - 1);
    assert b1.parents[..keep] == b.parents[..keep];
  }

  lemma {:induction false} ReplayWalkToken(evs: seq<Event>, b: Builder, d: nat)
    requires b.Wf() && d <= |b.parents| && evs != [] && evs[0].AddToken? && Walk(evs, d).Some?
    ensures ReplaysWalk(evs, b, d)
    decreases |evs|, 0
  {
    ReplayHead(evs, b);
    ReplayWalk(evs[1..], b.AddToken(evs[0].kind, evs[0].text), d);
  }

  /** Replaying a balanced log wrapped in one Root start/finish pair, from
      an empty builder, finishes with that one Root node, whose leaves are
      the log's token texts. */
  lemma ReplayRootWrapped(mid: seq<Event>)
    requires Balanced(mid)
    ensures var r := Replay([StartNode(Root)] + mid + [FinishNode], EmptyBuilder());
            && r.Ok? && r.value.parents == [] && |r.value.children| == 1
            && r.value.children[0].NodeElem? && r.value.children[0].node.kind == Root
            && Leaves(r.value.children[0].node.children) == AddedTexts(mid)
  {
    var evs := [StartNode(Root)] + mid + [FinishNode];
    var b1 := EmptyBuilder().StartNode(Root);
    assert evs[0] == StartNode(Root) && evs[1..] == mid + [FinishNode];
    ReplayHead(evs, EmptyBuilder());
    ReplayUnderRoot(mid);
    var b2 := Replay(mid, b1).value;
    ReplayAppend(mid, [FinishNode], b1);
    var b3 := b2.FinishNode().value;
    ReplayHead([FinishNode], b2);
    assert [FinishNode][1..] == [];
    assert b3.children == [NodeElem(Node(Root, b2.children))] by {
      assert b2.children[..0] == [];
      assert b2.children[0..] == b2.children;
    }
  }

  /** A balanced log replayed inside an open Root node leaves just that
      node open, holding the log's token texts as leaves. */
  lemma ReplayUnderRoot(mid: seq<Event>)
    requires Balanced(mid)
    ensures var r := Replay(mid, EmptyBuilder().StartNode(Root));
            && r.Ok? && r.value.parents == [(Root, 0)] && Leaves(r.value.children) == AddedTexts(mid)
  {
    var b1 := EmptyBuilder().StartNode(Root);
    ReplayWalk(mid, b1, 0);
    var b2 := Replay(mid, b1).value;
    assert b1.parents == [(Root, 0)];
    assert |b2.parents| == 1 && b2.parents[..1] == b1.parents[..1];
    assert b2.parents == b2.parents[..1];
  }

  /** A Root-wrapped balanced log needs no reordering, and replaying it
      leaves one Root node whose leaves are the log's token texts, in
      order. */
  lemma RootLogReplays(evs: seq<Event>)
    requires RootShaped(evs)
    ensures CheckpointsBefore(evs) && Reorder(evs) == evs
    ensures var r := Replay(evs, EmptyBuilder());
            && r.Ok? && r.value.Finish().Ok?
            && r.value.Finish().value.kind == Root
            && Leaves(r.value.Finish().value.children) == AddedTexts(evs)
  {
    var mid := evs[1..|evs| - 1];
    assert evs == [StartNode(Root)] + mid + [FinishNode];
    BalancedWrap(Root, mid);
    WalkableIsResolved(evs, 0);
    ReplayRootWrapped(mid);
    RootTexts(mid);
  }

  /** The Root pair around a log adds no text. */
  lemma RootTexts(mid: seq<Event>)
    ensures AddedTexts([StartNode(Root)] + mid + [FinishNode]) == AddedTexts(mid)
  {
    AddedTextsAppend([StartNode(Root)], mid);
    AddedTextsAppend([StartNode(Root)] + mid, [FinishNode]);
    assert AddedTexts([StartNode(Root)]) == [] by {
      assert [StartNode(Root)][1..] == [];
    }
    assert AddedTexts([FinishNode]) == [] by {
      assert [FinishNode][1..] == [];
    }
  }

  /** A lone Root start/finish pair becomes a Root node with no children. */
  lemma BareRoot()
    ensures Finish([StartNode(Root), FinishNode]) == Ok(Node(Root, []))
  {
    var evs := [StartNode(Root), FinishNode];
    RootLogReplays(evs);
    assert Reorder(evs) == evs;
    var b1 := EmptyBuilder().StartNode(Root);
    ReplayHead(evs, EmptyBuilder());
    ReplayHead(evs[1..], b1);
    assert evs[1..][1..] == [];
    assert b1.FinishNode().value.children == [NodeElem(Node(Root, []))];
  }

  /** Replaying a concatenation replays the first part, then the second. */
  lemma {:induction false} ReplayAppend(a: seq<Event>, c: seq<Event>, b: Builder)
    requires b.Wf() && Replay(a, b).Ok?
    ensures Replay(a + c, b) == Replay(c, Replay(a, b).value)
  {
    if a == [] {
      assert a + c == c;
    } else {
      assert (a + c)[0] == a[0];
      assert (a + c)[1..] == a[1..] + c;
      match a[0]
      case StartNode(kind) => ReplayAppend(a[1..], c, b.StartNode(kind));
      case FinishNode => ReplayAppend(a[1..], c, b.FinishNode().value);
      case AddToken(kind, text) => ReplayAppend(a[1..], c, b.AddToken(kind, text));
    }
  }
}
