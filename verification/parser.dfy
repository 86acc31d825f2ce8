/** The event-log parser engine and its markers (src/parser/imp.rs,
    src/parser/imp/marker.rs). A parser is the token cursor plus the events
    emitted so far; each primitive returns the next parser state. */
module Parser {

  import opened Wrappers
  import opened Lexer
  import S = Source
  import opened Events

  datatype Parser = Parser(source: S.Source, events: seq<Event>) {
    predicate Valid() {
      source.Valid()
    }
  }

  /** A handle on the position of a placeholder event. */
  datatype Marker = Marker(pos: nat)

  /** Why the parser panicked. */
  datatype Panic =
    | Expected(kind: SyntaxKind, found: Option<SyntaxKind>)  // `expect` on a mismatch
    | ExplicitPanic                                          // a bare `panic!()` in the grammar
    | UnexpectedEof                                          // `next_token().unwrap()` at the end
    | NeverTerminates                                        // `root` loops forever without consuming

  function New(tokens: seq<Token>): (p: Parser)
    ensures p.Valid() && p.events == [] && p.source == S.New(tokens)
  {
    Parser(S.New(tokens), [])
  }

  /** The significant tokens not yet consumed. */
  function Ahead(p: Parser): seq<Token>
    requires p.Valid()
  {
    S.Ahead(p.source)
  }

  /** How many tokens (significant or not) lie after the cursor. */
  function Remaining(p: Parser): nat
    requires p.Valid()
  {
    |p.source.tokens| - p.source.cursor
  }

  /** The marker's slot still holds its placeholder. */
  predicate CanComplete(p: Parser, m: Marker) {
    m.pos < |p.events| && p.events[m.pos] == MarkerPlaceholder
  }

  /** Pushes a placeholder and returns a marker on it. */
  function Start(p: Parser): (r: (Parser, Marker))
    requires p.Valid()
    ensures r.0.Valid() && r.0.source == p.source
    ensures |r.0.events| == |p.events| + 1 && r.0.events[..|p.events|] == p.events
    ensures r.1.pos == |p.events| && CanComplete(r.0, r.1)
  {
    (Parser(p.source, p.events + [MarkerPlaceholder]), Marker(|p.events|))
  }

  /** Rewrites the marker's placeholder into a start of `kind` and appends
      the matching finish; no other event changes. */
  function Complete(p: Parser, m: Marker, kind: SyntaxKind): (r: Parser)
    requires CanComplete(p, m)
    ensures r.source == p.source
    ensures |r.events| == |p.events| + 1
    ensures r.events[m.pos] == StartNode(kind) && r.events[|p.events|] == FinishNode
    ensures forall i :: 0 <= i < |p.events| && i != m.pos ==> r.events[i] == p.events[i]
  {
    Parser(p.source, p.events[m.pos := StartNode(kind)] + [FinishNode])
  }

  /** A marker is single-use: once completed, completing it again is refused. */
  lemma CompleteIsSingleUse(p: Parser, m: Marker, kind: SyntaxKind)
    requires CanComplete(p, m)
    ensures !CanComplete(Complete(p, m, kind), m)
  {
  }

  function Peek(p: Parser): (r: Option<SyntaxKind>)
    requires p.Valid()
    ensures r.Some? <==> Ahead(p) != []
    ensures r.Some? ==> r.value == Ahead(p)[0].kind
  {
    S.Peek(p.source)
  }

  /** Whether the next significant token has kind `kind`; nothing changes. */
  function At(p: Parser, kind: SyntaxKind): (r: bool)
    requires p.Valid()
    ensures r <==> Ahead(p) != [] && Ahead(p)[0].kind == kind
    ensures r <==> Peek(p) == Some(kind)
  {
    Peek(p) == Some(kind)
  }

  /** Whether only whitespace (or nothing) is left. */
  function AtEof(p: Parser): (r: bool)
    requires p.Valid()
    ensures r <==> Ahead(p) == []
  {
    Peek(p).None?
  }

  /** The event log grows by a balanced, placeholder-free stretch that
      records, in order, the text of each significant token consumed. */
  ghost predicate Grows(p: Parser, q: Parser) {
    && p.Valid() && q.Valid()
    && q.source.tokens == p.source.tokens
    && p.source.cursor <= q.source.cursor
    && |p.events| <= |q.events|
    && q.events[..|p.events|] == p.events
    && Balanced(q.events[|p.events|..])
    && AddedTexts(q.events[|p.events|..]) + S.Texts(Ahead(q)) == S.Texts(Ahead(p))
  }

  /** The cursor moved forward. */
  predicate Consumes(p: Parser, q: Parser) {
    p.source.cursor < q.source.cursor
  }

  lemma GrowsRefl(p: Parser)
    requires p.Valid()
    ensures Grows(p, p)
  {
    assert p.events[|p.events|..] == [];
  }

  lemma GrowsTrans(p: Parser, q: Parser, r: Parser)
    requires Grows(p, q) && Grows(q, r)
    ensures Grows(p, r)
  {
    var a, b := q.events[|p.events|..], r.events[|q.events|..];
    PrefixChain(p.events, q.events, r.events);
    BalancedAppend(a, b);
    AddedTextsAppend(a, b);
    ConcatChain(AddedTexts(a), AddedTexts(b), S.Texts(Ahead(r)), S.Texts(Ahead(q)), S.Texts(Ahead(p)));
  }

  /** Prefixes of prefixes: what `r` adds after `p` is what `q` adds after
      `p`, then what `r` adds after `q`. */
  lemma PrefixChain<T>(pe: seq<T>, qe: seq<T>, re: seq<T>)
    requires |pe| <= |qe| <= |re| && qe[..|pe|] == pe && re[..|qe|] == qe
    ensures re[..|pe|] == pe && re[|pe|..] == qe[|pe|..] + re[|qe|..]
  {
    assert re[..|pe|] == re[..|qe|][..|pe|];
    assert re == re[..|qe|] + re[|qe|..];
  }

  lemma ConcatChain<T>(x: seq<T>, y: seq<T>, z: seq<T>, tq: seq<T>, tp: seq<T>)
    requires y + z == tq && x + tq == tp
    ensures x + y + z == tp
  {
  }

  /** Appending one `AddToken` for the first significant token, and moving
      past it, grows the parser. */
  lemma TokenGrows(p: Parser, q: Parser, kind: SyntaxKind)
    requires p.Valid() && q.Valid() && Ahead(p) != []
    requires q.source.tokens == p.source.tokens && p.source.cursor <= q.source.cursor
    requires q.events == p.events + [AddToken(kind, Ahead(p)[0].text)]
    requires Ahead(q) == Ahead(p)[1..]
    ensures Grows(p, q)
  {
    var t := Ahead(p)[0];
    assert q.events[|p.events|..] == [AddToken(kind, t.text)];
    BalancedToken(kind, t.text);
    assert AddedTexts([AddToken(kind, t.text)]) == [t.text];
    assert Ahead(p) == [t] + Ahead(q);
    S.TextsAppend([t], Ahead(q));
  }

  /** Consumes the next significant token and records it; panics at the end. */
  function Bump(p: Parser): (r: Result<Parser, Panic>)
    requires p.Valid()
    ensures r.Ok? <==> Ahead(p) != []
    ensures r.Err? ==> r.error == UnexpectedEof
    ensures r.Ok? ==> r.value.events == p.events + [AddToken(Ahead(p)[0].kind, Ahead(p)[0].text)]
    ensures r.Ok? ==> r.value.Valid() && Ahead(r.value) == Ahead(p)[1..]
    ensures r.Ok? ==> Grows(p, r.value) && Consumes(p, r.value)
  {
    var (source, token) := S.NextToken(p.source);
    match token
    case None => Err(UnexpectedEof)
    case Some(t) =>
      var q := Parser(source, p.events + [AddToken(t.kind, t.text)]);
      TokenGrows(p, q, t.kind);
      Ok(q)
  }

  /** Consumes the next significant token and records it as `Skip`, whatever
      its real kind; panics at the end. */
  function SkipToken(p: Parser): (r: Result<Parser, Panic>)
    requires p.Valid()
    ensures r.Ok? <==> Ahead(p) != []
    ensures r.Err? ==> r.error == UnexpectedEof
    ensures r.Ok? ==> r.value.events == p.events + [AddToken(SyntaxKind.Skip, Ahead(p)[0].text)]
    ensures r.Ok? ==> r.value.Valid() && Ahead(r.value) == Ahead(p)[1..]
    ensures r.Ok? ==> Grows(p, r.value) && Consumes(p, r.value)
  {
    var (source, token) := S.NextToken(p.source);
    match token
    case None => Err(UnexpectedEof)
    case Some(t) =>
      var q := Parser(source, p.events + [AddToken(SyntaxKind.Skip, t.text)]);
      TokenGrows(p, q, SyntaxKind.Skip);
      Ok(q)
  }

  /** Bumps a token of kind `kind`; anything else is a panic, with no
      recovery. */
  function Expect(p: Parser, kind: SyntaxKind): (r: Result<Parser, Panic>)
    requires p.Valid()
    ensures r.Ok? <==> At(p, kind)
    ensures r.Ok? ==> r == Bump(p)
    ensures r.Err? ==> r.error == Expected(kind, Peek(p))
  {
    if At(p, kind) then Bump(p) else Err(Expected(kind, Peek(p)))
  }

  /** The kind `amount` significant tokens past the next one; `amount` must
      be positive (`peek` covers 0). */
  function Lookahead(p: Parser, amount: nat): (r: Option<SyntaxKind>)
    requires p.Valid() && amount > 0
    ensures r.Some? <==> amount < |Ahead(p)|
    ensures r.Some? ==> r.value == Ahead(p)[amount].kind
  {
    S.Lookahead(p.source, amount)
  }

  /** Rewriting the placeholder at `|pre|` and appending a finish turns
      `pre + [placeholder] + mid` into `pre` followed by `mid` wrapped in one
      start/finish pair. */
  lemma WrapPlaceholder(pre: seq<Event>, evs: seq<Event>, kind: SyntaxKind)
    requires |pre| < |evs| && evs[..|pre| + 1] == pre + [MarkerPlaceholder]
    ensures var out := evs[|pre| := StartNode(kind)] + [FinishNode];
            && out[..|pre|] == pre
            && out[|pre|..] == [StartNode(kind)] + evs[|pre| + 1..] + [FinishNode]
  {
    var n := |pre|;
    var mid := evs[n + 1..];
    assert evs == pre + [MarkerPlaceholder] + mid by {
      assert evs == evs[..n + 1] + mid;
    }
    var out := evs[n := StartNode(kind)] + [FinishNode];
    assert out == pre + ([StartNode(kind)] + mid + [FinishNode]);
  }

  /** A marker started before some growth and completed after it wraps
      that growth in one start/finish pair: markers completed in reverse
      order of starting nest properly. */
  lemma StartCompleteGrows(p: Parser, q: Parser, kind: SyntaxKind)
    requires p.Valid() && Grows(Start(p).0, q)
    ensures CanComplete(q, Start(p).1)
    ensures Grows(p, Complete(q, Start(p).1, kind))
  {
    var (p0, m) := Start(p);
    var n := |p.events|;
    var mid := q.events[n + 1..];
    assert q.events[..n + 1] == p0.events;
    assert q.events[n] == q.events[..n + 1][n];
    WrapPlaceholder(p.events, q.events, kind);
    var c := Complete(q, m, kind);
    assert c.events[n..] == [StartNode(kind)] + mid + [FinishNode];
    BalancedWrap(kind, mid);
    assert AddedTexts(c.events[n..]) == AddedTexts(mid) by {
      AddedTextsAppend([StartNode(kind)], mid);
      AddedTextsAppend([StartNode(kind)] + mid, [FinishNode]);
      assert AddedTexts([StartNode(kind)]) == [] by {
        assert [StartNode(kind)][1..] == [];
      }
      assert AddedTexts([FinishNode]) == [] by {
        assert [FinishNode][1..] == [];
      }
    }
    assert Ahead(c) == Ahead(q);
    assert Ahead(p0) == Ahead(p);
  }
}
