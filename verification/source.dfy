/** The whitespace-skipping cursor over the lexed tokens (src/parser/source.rs).
    The grammar only ever sees the significant (non-whitespace) tokens. */
module Source {

  import opened Wrappers
  import opened Lexer

  datatype Source = Source(tokens: seq<Token>, cursor: nat) {
    /** The cursor never runs past the end of the tokens. */
    predicate Valid() {
      cursor <= |tokens|
    }
  }

  function New(tokens: seq<Token>): (s: Source)
    ensures s.Valid() && s.cursor == 0 && s.tokens == tokens
  {
    Source(tokens, 0)
  }

  /** The significant tokens of `ts`, in order. */
  function Significant(ts: seq<Token>): (r: seq<Token>)
    ensures |r| <= |ts|
  {
    if ts == [] then []
    else if ts[0].kind == Whitespace then Significant(ts[1..])
    else [ts[0]] + Significant(ts[1..])
  }

  /** No whitespace token is significant. */
  lemma {:induction false} SignificantHasNoWhitespace(ts: seq<Token>)
    ensures forall i :: 0 <= i < |Significant(ts)| ==> Significant(ts)[i].kind != Whitespace
  {
    if ts != [] {
      SignificantHasNoWhitespace(ts[1..]);
    }
  }

  /** The significant tokens at or after the cursor. */
  function Ahead(s: Source): seq<Token>
    requires s.Valid()
  {
    Significant(s.tokens[s.cursor..])
  }

  /** The texts of a token sequence. */
  function Texts(ts: seq<Token>): (r: seq<string>)
    ensures |r| == |ts|
  {
    if ts == [] then [] else [ts[0].text] + Texts(ts[1..])
  }

  lemma {:induction false} TextsAppend(a: seq<Token>, b: seq<Token>)
    ensures Texts(a + b) == Texts(a) + Texts(b)
  {
    if a == [] {
      assert a + b == b;
    } else {
      assert (a + b)[1..] == a[1..] + b;
      TextsAppend(a[1..], b);
    }
  }

  /** Stepping the cursor over one token drops that token from `Ahead`
      exactly when it is significant. */
  lemma AheadStep(s: Source)
    requires s.Valid() && s.cursor < |s.tokens|
    ensures s.tokens[s.cursor..][1..] == s.tokens[s.cursor + 1..]
    ensures Ahead(s) == (if s.tokens[s.cursor].kind == Whitespace then [] else [s.tokens[s.cursor]])
                        + Ahead(Source(s.tokens, s.cursor + 1))
  {
    assert s.tokens[s.cursor..][1..] == s.tokens[s.cursor + 1..];
  }

  /** Moves the cursor over whitespace (the `skip_ws` loop). */
  function SkipWs(s: Source): (r: Source)
    requires s.Valid()
    ensures r.Valid() && r.tokens == s.tokens
    ensures s.cursor <= r.cursor
    ensures forall i :: s.cursor <= i < r.cursor ==> s.tokens[i].kind == Whitespace
    ensures r.cursor == |r.tokens| || r.tokens[r.cursor].kind != Whitespace
    ensures Ahead(r) == Ahead(s)
    decreases |s.tokens| - s.cursor
  {
    if s.cursor < |s.tokens| && s.tokens[s.cursor].kind == Whitespace then
      AheadStep(s);
      SkipWs(Source(s.tokens, s.cursor + 1))
    else
      s
  }

  /** Consumes and returns the next significant token; at the end (nothing
      but whitespace left) it returns `None`, having moved past the
      whitespace. */
  function NextToken(s: Source): (r: (Source, Option<Token>))
    requires s.Valid()
    ensures r.0.Valid() && r.0.tokens == s.tokens && s.cursor <= r.0.cursor
    ensures r.1.None? <==> Ahead(s) == []
    ensures r.1.None? ==> r.0.cursor == |s.tokens|
    ensures r.1.Some? ==> r.1.value == Ahead(s)[0] && r.1.value.kind != Whitespace
    ensures r.1.Some? ==> s.cursor < r.0.cursor && Ahead(r.0) == Ahead(s)[1..]
  {
    var t := SkipWs(s);
    if t.cursor < |t.tokens| then
      AheadStep(t);
      (Source(t.tokens, t.cursor + 1), Some(t.tokens[t.cursor]))
    else
      (t, None)
  }

  /** The `lookahead` loop, scanning from token index `idx`. */
  function LookaheadFrom(tokens: seq<Token>, idx: nat, amount: nat): (r: Option<SyntaxKind>)
    requires idx <= |tokens|
    ensures var ahead := Significant(tokens[idx..]);
            r == if amount < |ahead| then Some(ahead[amount].kind) else None
    decreases |tokens| - idx
  {
    if idx == |tokens| then None
    else
      AheadStep(Source(tokens, idx));
      var kind := tokens[idx].kind;
      if kind != Whitespace then
        if amount == 0 then Some(kind) else LookaheadFrom(tokens, idx + 1, amount - 1)
      else
        LookaheadFrom(tokens, idx + 1, amount)
  }

  /** The kind of the `amount`-th significant token at or after the cursor
      (counting from 0); the cursor does not move. */
  function Lookahead(s: Source, amount: nat): (r: Option<SyntaxKind>)
    requires s.Valid()
    ensures r.Some? <==> amount < |Ahead(s)|
    ensures r.Some? ==> r.value == Ahead(s)[amount].kind && r.value != Whitespace
  {
    SignificantHasNoWhitespace(s.tokens[s.cursor..]);
    LookaheadFrom(s.tokens, s.cursor, amount)
  }

  function Peek(s: Source): Option<SyntaxKind>
    requires s.Valid()
  {
    Lookahead(s, 0)
  }

  /** `peek` names the kind of the very token the next `next_token` returns,
      and is `None` exactly when `next_token` would return `None`. */
  lemma PeekAgreesWithNextToken(s: Source)
    requires s.Valid()
    ensures Peek(s).None? <==> NextToken(s).1.None?
    ensures Peek(s).Some? ==> Peek(s).value == NextToken(s).1.value.kind
  {
  }
}
