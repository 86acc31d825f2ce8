/** The concrete syntax tree the sink builds, and the tree builder it drives
    (rowan's green tree and `GreenNodeBuilder`, which src/parser/sink.rs
    uses). The builder keeps a stack of open nodes, each remembering where
    its children begin in one flat list of finished children. */
module Syntax {

  import opened Wrappers
  import opened Lexer

  datatype Node = Node(kind: SyntaxKind, children: seq<Element>)

  datatype Element = NodeElem(node: Node) | TokenElem(token: Token)

  /** The texts of the tokens under `es`, left to right. */
  function Leaves(es: seq<Element>): seq<string>
    decreases es
  {
    if es == [] then [] else ElemLeaves(es[0]) + Leaves(es[1..])
  }

  function ElemLeaves(e: Element): seq<string>
    decreases e
  {
    match e
    case TokenElem(t) => [t.text]
    case NodeElem(n) => Leaves(n.children)
  }

  lemma {:induction false} LeavesAppend(a: seq<Element>, b: seq<Element>)
    ensures Leaves(a + b) == Leaves(a) + Leaves(b)
  {
    if a == [] {
      assert a + b == b;
    } else {
      assert (a + b)[0] == a[0];
      assert (a + b)[1..] == a[1..] + b;
      LeavesAppend(a[1..], b);
    }
  }

  /** Why building failed (each is a panic in the builder or the sink). */
  datatype BuildError =
    | NoOpenNode      // `finish_node` with no node open
    | NotSingleRoot   // `finish` with other than exactly one finished node
    | Unreachable     // an event the sink has no case for

  datatype Builder = Builder(parents: seq<(SyntaxKind, nat)>, children: seq<Element>) {

    /** Every open node's first child lies within the children, and nodes
        opened later begin no earlier. */
    predicate Wf() {
      && (forall i :: 0 <= i < |parents| ==> parents[i].1 <= |children|)
      && (forall i, j :: 0 <= i < j < |parents| ==> parents[i].1 <= parents[j].1)
    }

    /** Opens a node of `kind`; its children are those added from now on. */
    function StartNode(kind: SyntaxKind): (b: Builder)
      requires Wf()
      ensures b.Wf() && b.children == children
      ensures b.parents == parents + [(kind, |children|)]
    {
      Builder(parents + [(kind, |children|)], children)
    }

    /** Adds a token leaf to the innermost open node. */
    function AddToken(kind: SyntaxKind, text: string): (b: Builder)
      requires Wf()
      ensures b.Wf() && b.parents == parents
      ensures b.children == children + [TokenElem(Token(kind, text))]
      ensures Leaves(b.children) == Leaves(children) + [text]
    {
      var t := TokenElem(Token(kind, text));
      LeavesAppend(children, [t]);
      assert Leaves([t]) == [text] by {
        assert [t][1..] == [];
      }
      Builder(parents, children + [t])
    }

    /** Closes the innermost open node: the children added since it was
        opened become its children, and it replaces them. The leaves, in
        order, are unchanged. */
    function FinishNode(): (r: Result<Builder, BuildError>)
      requires Wf()
      ensures r.Ok? <==> parents != []
      ensures r.Err? ==> r.error == NoOpenNode
      ensures r.Ok? ==> && r.value.Wf() && r.value.parents == parents[..|parents| - 1]
                        && Leaves(r.value.children) == Leaves(children)
      ensures r.Ok? ==> var (kind, first) := parents[|parents| - 1];
                        r.value.children == children[..first] + [NodeElem(Node(kind, children[first..]))]
    {
      if parents == [] then Err(NoOpenNode)
      else
        var (kind, first) := parents[|parents| - 1];
        var node := NodeElem(Node(kind, children[first..]));
        var b := Builder(parents[..|parents| - 1], children[..first] + [node]);
        LeavesAppend(children[..first], [node]);
        LeavesAppend(children[..first], children[first..]);
        assert children == children[..first] + children[first..];
        assert Leaves([node]) == Leaves(children[first..]) by {
          assert [node][1..] == [];
        }
        Ok(b)
    }

    /** The finished tree: exactly one finished child, and it is a node. */
    function Finish(): (r: Result<Node, BuildError>)
      ensures r.Ok? <==> |children| == 1 && children[0].NodeElem?
      ensures r.Ok? ==> r.value == children[0].node
      ensures r.Err? ==> r.error == NotSingleRoot
    {
      if |children| == 1 && children[0].NodeElem? then Ok(children[0].node)
      else Err(NotSingleRoot)
    }
  }

  function EmptyBuilder(): (b: Builder)
    ensures b.Wf() && b.parents == [] && b.children == []
  {
    Builder([], [])
  }
}
