/** Concrete cases: the event logs of src/parser/grammar.rs's tests, over
    the tokens the lexer produces for their inputs. */
module GrammarCases {

  import opened Wrappers
  import opened Lexer
  import opened Events
  import opened Parser
  import S = Source
  import G = Grammar

  // ---------------------------------------------------------------------
  // From one pass of `root` to the whole parse

  /** Without whitespace, every token is significant. */
  lemma {:induction false} AllSignificant(ts: seq<Token>)
    requires forall i :: 0 <= i < |ts| ==> ts[i].kind != Whitespace
    ensures S.Significant(ts) == ts
  {
    if ts != [] {
      AllSignificant(ts[1..]);
      assert [ts[0]] + ts[1..] == ts;
    }
  }

  /** A fresh parser, its root marker started, sees every token of a
      stream without whitespace. */
  lemma StartSees(ts: seq<Token>)
    requires forall i :: 0 <= i < |ts| ==> ts[i].kind != Whitespace
    ensures Ahead(Start(New(ts)).0) == ts
  {
    AllSignificant(ts);
    assert ts[0..] == ts;
  }

  /** A log that one pass of `root` adds, from the start of the input to
      its end, is the whole parse once wrapped in the Root node. */
  lemma ParseOnePass(tokens: seq<Token>, body: seq<Event>)
    requires var p1 := Start(New(tokens)).0;
             var r := G.RootPass(p1);
             r.Ok? && AtEof(r.value) && r.value.events == p1.events + body
    ensures G.Parse(tokens) == Ok([StartNode(SyntaxKind.Root)] + body + [FinishNode])
  {
    var p := New(tokens);
    var q := G.RootPass(Start(p).0).value;
    var c := Complete(q, Start(p).1, SyntaxKind.Root);
    RootOnePass(p);
    ParseIsRoot(tokens);
    assert G.Parse(tokens) == Ok(c.events);
    assert c.events == q.events[0 := StartNode(SyntaxKind.Root)] + [FinishNode];
    Wrap([], body, SyntaxKind.Root);
  }

  /** One pass that reaches the end is the whole of `root`'s loop. */
  lemma RootOnePass(p: Parser)
    requires p.Valid()
    requires var r := G.RootPass(Start(p).0); r.Ok? && AtEof(r.value)
    ensures G.Root(p) == Ok(Complete(G.RootPass(Start(p).0).value, Start(p).1, SyntaxKind.Root))
  {
    assert G.RootLoop(Start(p).0) == G.RootPass(Start(p).0);
  }

  /** At `[`, a pass of `root` is one stage direction. */
  lemma PassAtBracket(p: Parser)
    requires p.Valid() && At(p, LBracket)
    ensures G.RootPass(p) == G.ParseStageDirection(p)
  {
  }

  /** `parse` returns the log `root` leaves. */
  lemma ParseIsRoot(tokens: seq<Token>)
    requires G.Root(New(tokens)).Ok?
    ensures G.Parse(tokens) == Ok(G.Root(New(tokens)).value.events)
  {
  }

  /** Completing the marker started on a log `pre`, once `mid` has been
      added, wraps `mid` in one start/finish pair. */
  lemma Wrap(pre: seq<Event>, mid: seq<Event>, kind: SyntaxKind)
    ensures (pre + [MarkerPlaceholder] + mid)[|pre| := StartNode(kind)] + [FinishNode]
            == pre + ([StartNode(kind)] + mid + [FinishNode])
  {
    var evs := pre + [MarkerPlaceholder] + mid;
    WrapPlaceholder(pre, evs, kind);
    assert evs[|pre| + 1..] == mid;
  }

  // ---------------------------------------------------------------------
  // parse_exeunt

  /** `[`, `Exeunt`, `]`, spelled `l`, `e` and `r`. */
  function ExeuntTokens(l: string, e: string, r: string): seq<Token> {
    [Token(LBracket, l), Token(Exeunt, e), Token(RBracket, r)]
  }

  /** After `[`, `Exeunt ]` is taken whole, each token recorded as itself. */
  lemma ExeuntBody(q: Parser, e: string, r: string)
    requires q.Valid() && Ahead(q) == [Token(Exeunt, e), Token(RBracket, r)]
    ensures G.StageDirectionBody(q).Ok? && Ahead(G.StageDirectionBody(q).value) == []
    ensures G.StageDirectionBody(q).value.events == q.events + [AddToken(Exeunt, e)] + [AddToken(RBracket, r)]
  {
  }

  /** `[Exeunt]` is one stage direction holding its three tokens. */
  lemma ExeuntDirection(p: Parser, l: string, e: string, r: string)
    requires p.Valid() && Ahead(p) == ExeuntTokens(l, e, r)
    ensures G.ParseStageDirection(p).Ok? && AtEof(G.ParseStageDirection(p).value)
    ensures G.ParseStageDirection(p).value.events
            == p.events + ([StartNode(StageDirection)]
                           + ([AddToken(LBracket, l)] + [AddToken(Exeunt, e)] + [AddToken(RBracket, r)])
                           + [FinishNode])
  {
    var (q1, m) := Start(p);
    var q2 := Bump(q1).value;
    ExeuntBody(q2, e, r);
    var q4 := G.StageDirectionBody(q2).value;
    var mid := [AddToken(LBracket, l)] + [AddToken(Exeunt, e)] + [AddToken(RBracket, r)];
    Regroup3(p.events + [MarkerPlaceholder], AddToken(LBracket, l), AddToken(Exeunt, e), AddToken(RBracket, r));
    Wrap(p.events, mid, StageDirection);
  }

  lemma Regroup3(x: seq<Event>, a: Event, b: Event, c: Event)
    ensures x + [a] + [b] + [c] == x + ([a] + [b] + [c])
  {
  }

  /** `[Exeunt]`, whatever its tokens' texts, parses to a Root around one
      stage direction of its three tokens. */
  lemma ParseExeuntTexts(l: string, e: string, r: string)
    ensures G.Parse(ExeuntTokens(l, e, r))
            == Ok([StartNode(SyntaxKind.Root), StartNode(StageDirection),
                   AddToken(LBracket, l), AddToken(Exeunt, e), AddToken(RBracket, r),
                   FinishNode, FinishNode])
  {
    var ts := ExeuntTokens(l, e, r);
    var p1 := Start(New(ts)).0;
    StartSees(ts);
    ExeuntDirection(p1, l, e, r);
    PassAtBracket(p1);
    var body := [StartNode(StageDirection)]
                + ([AddToken(LBracket, l)] + [AddToken(Exeunt, e)] + [AddToken(RBracket, r)])
                + [FinishNode];
    ParseOnePass(ts, body);
    Flatten7(StartNode(SyntaxKind.Root), StartNode(StageDirection),
             AddToken(LBracket, l), AddToken(Exeunt, e), AddToken(RBracket, r), FinishNode);
  }

  /** A node in a node, written flat; generic so that the solver sees
      only the sequence structure. */
  lemma Flatten7<T>(so: T, si: T, a: T, b: T, c: T, f: T)
    ensures [so] + ([si] + ([a] + [b] + [c]) + [f]) + [f] == [so, si, a, b, c, f, f]
  {
  }

  /** `parse_exeunt`: `[Exeunt]` parses to a Root around one stage
      direction of `[`, `Exeunt` and `]`. */
  lemma ParseExeunt()
    ensures G.Parse([Token(LBracket, "["), Token(Exeunt, "Exeunt"), Token(RBracket, "]")])
            == Ok([StartNode(SyntaxKind.Root), StartNode(StageDirection),
                   AddToken(LBracket, "["), AddToken(Exeunt, "Exeunt"), AddToken(RBracket, "]"),
                   FinishNode, FinishNode])
  {
    ParseExeuntTexts("[", "Exeunt", "]");
  }

  // ---------------------------------------------------------------------
  // parse_enter_characters

  /** The event recording token `t` under its own kind. */
  function Rec(t: Token): Event {
    AddToken(t.kind, t.text)
  }

  /** `Character ]` ends a character list. */
  lemma ListLast(q: Parser, c: Token, rb: Token)
    requires q.Valid() && Ahead(q) == [c, rb] && c.kind == Character && rb.kind == RBracket
    ensures G.CharacterList(q).Ok? && Ahead(G.CharacterList(q).value) == []
    ensures G.CharacterList(q).value.events == q.events + [Rec(c)] + [Rec(rb)]
  {
  }

  /** `Character and Character ]` is a character list of two. */
  lemma ListTwo(q: Parser, c1: Token, a: Token, c2: Token, rb: Token)
    requires q.Valid() && Ahead(q) == [c1, a, c2, rb]
    requires c1.kind == Character && a.kind == And && c2.kind == Character && rb.kind == RBracket
    ensures G.CharacterList(q).Ok? && Ahead(G.CharacterList(q).value) == []
    ensures G.CharacterList(q).value.events == q.events + [Rec(c1)] + [Rec(a)] + [Rec(c2)] + [Rec(rb)]
  {
    assert [c1, a, c2, rb] == [c1] + ([a] + [c2, rb]);
    var q1 := BumpOne(q, c1, [a] + [c2, rb]);
    var q2 := BumpOne(q1, a, [c2, rb]);
    ListContinues(q, q1, q2, c1, a);
    ListLast(q2, c2, rb);
  }

  /** A character, then `and` rather than `]`: the list goes on after
      both. */
  lemma ListContinues(q: Parser, q1: Parser, q2: Parser, c: Token, a: Token)
    requires Took(q, q1, c) && Took(q1, q2, a) && c.kind == Character && a.kind == And
    ensures G.CharacterList(q) == G.CharacterList(q2)
  {
    assert Expect(q, Character) == Ok(q1);
    assert !At(q1, RBracket) && Expect(q1, And) == Ok(q2);
  }

  /** `q1` is `q` after taking `t`, recorded as itself. */
  ghost predicate Took(q: Parser, q1: Parser, t: Token) {
    && q.Valid() && At(q, t.kind) && Bump(q) == Ok(q1) && q1.Valid()
    && q1.events == q.events + [Rec(t)]
  }

  /** One token taken. */
  lemma BumpOne(q: Parser, t: Token, rest: seq<Token>) returns (q1: Parser)
    requires q.Valid() && Ahead(q) == [t] + rest
    ensures Took(q, q1, t) && Ahead(q1) == rest
  {
    q1 := Bump(q).value;
    assert ([t] + rest)[1..] == rest;
  }

  /** After `[`, `Enter`, two characters joined by `and`, and `]` are taken
      whole, each token recorded as itself. */
  lemma EnterBody(q: Parser, en: Token, c1: Token, a: Token, c2: Token, rb: Token)
    requires q.Valid() && Ahead(q) == [en, c1, a, c2, rb] && en.kind == Enter
    requires c1.kind == Character && a.kind == And && c2.kind == Character && rb.kind == RBracket
    ensures G.StageDirectionBody(q).Ok? && Ahead(G.StageDirectionBody(q).value) == []
    ensures G.StageDirectionBody(q).value.events
            == q.events + [Rec(en)] + [Rec(c1)] + [Rec(a)] + [Rec(c2)] + [Rec(rb)]
  {
    var q1 := Bump(q).value;
    assert Ahead(q1) == [c1, a, c2, rb];
    ListTwo(q1, c1, a, c2, rb);
  }

  /** `[Enter c1 and c2]` is one stage direction holding its six
      significant tokens. */
  lemma EnterDirection(p: Parser, lb: Token, en: Token, c1: Token, a: Token, c2: Token, rb: Token)
    requires p.Valid() && Ahead(p) == [lb, en, c1, a, c2, rb] && lb.kind == LBracket && en.kind == Enter
    requires c1.kind == Character && a.kind == And && c2.kind == Character && rb.kind == RBracket
    ensures G.ParseStageDirection(p).Ok? && AtEof(G.ParseStageDirection(p).value)
    ensures G.ParseStageDirection(p).value.events
            == p.events + ([StartNode(StageDirection)]
                           + ([Rec(lb)] + [Rec(en)] + [Rec(c1)] + [Rec(a)] + [Rec(c2)] + [Rec(rb)])
                           + [FinishNode])
  {
    var (q1, m) := Start(p);
    var q2 := Bump(q1).value;
    assert Ahead(q2) == [en, c1, a, c2, rb];
    EnterBody(q2, en, c1, a, c2, rb);
    Regroup6(p.events + [MarkerPlaceholder], Rec(lb), Rec(en), Rec(c1), Rec(a), Rec(c2), Rec(rb));
    Wrap(p.events, [Rec(lb)] + [Rec(en)] + [Rec(c1)] + [Rec(a)] + [Rec(c2)] + [Rec(rb)], StageDirection);
  }

  lemma Regroup6(x: seq<Event>, e1: Event, e2: Event, e3: Event, e4: Event, e5: Event, e6: Event)
    ensures x + [e1] + [e2] + [e3] + [e4] + [e5] + [e6] == x + ([e1] + [e2] + [e3] + [e4] + [e5] + [e6])
  {
  }

  /** A whitespace token in front adds nothing significant; any other
      token is significant. */
  lemma SignificantCons(t: Token, ts: seq<Token>)
    ensures S.Significant([t] + ts) == (if t.kind == Whitespace then [] else [t]) + S.Significant(ts)
  {
    assert ([t] + ts)[1..] == ts;
  }

  /** `[Enter c1 and c2]` with a whitespace token before each character
      and before `and`, as the lexer splits it. */
  function EnterTokens(lb: Token, en: Token, w: Token, c1: Token, a: Token, c2: Token, rb: Token): seq<Token> {
    [lb] + ([en] + ([w] + ([c1] + ([w] + ([a] + ([w] + ([c2] + [rb])))))))
  }

  /** The same tokens, listed flat. */
  lemma EnterTokensFlat(lb: Token, en: Token, w: Token, c1: Token, a: Token, c2: Token, rb: Token)
    ensures EnterTokens(lb, en, w, c1, a, c2, rb) == [lb, en, w, c1, w, a, w, c2, rb]
  {
  }

  /** The tail ` and c2]` of an enter direction keeps its three
      significant tokens. */
  lemma EnterTailSignificant(w: Token, a: Token, c2: Token, rb: Token)
    requires w.kind == Whitespace
    requires a.kind == And && c2.kind == Character && rb.kind == RBracket
    ensures S.Significant([w] + ([a] + ([w] + ([c2] + [rb])))) == [a, c2, rb]
  {
    var t7 := [c2] + [rb];
    var t6 := [w] + t7;
    var t5 := [a] + t6;
    assert S.Significant(t7) == [c2, rb] by {
      AllSignificant([rb]);
      SignificantCons(c2, [rb]);
    }
    assert S.Significant(t6) == [c2, rb] by { SignificantCons(w, t7); }
    assert S.Significant(t5) == [a, c2, rb] by { SignificantCons(a, t6); }
    SignificantCons(w, t5);
  }

  /** ` c1 and c2]` keeps its four significant tokens. */
  lemma EnterMidSignificant(w: Token, c1: Token, a: Token, c2: Token, rb: Token)
    requires w.kind == Whitespace
    requires c1.kind == Character && a.kind == And && c2.kind == Character && rb.kind == RBracket
    ensures S.Significant([w] + ([c1] + ([w] + ([a] + ([w] + ([c2] + [rb])))))) == [c1, a, c2, rb]
  {
    var t4 := [w] + ([a] + ([w] + ([c2] + [rb])));
    var t3 := [c1] + t4;
    assert S.Significant(t3) == [c1, a, c2, rb] by {
      EnterTailSignificant(w, a, c2, rb);
      SignificantCons(c1, t4);
    }
    SignificantCons(w, t3);
  }

  lemma EnterSignificant(lb: Token, en: Token, w: Token, c1: Token, a: Token, c2: Token, rb: Token)
    requires w.kind == Whitespace
    requires lb.kind == LBracket && en.kind == Enter
    requires c1.kind == Character && a.kind == And && c2.kind == Character && rb.kind == RBracket
    ensures S.Significant(EnterTokens(lb, en, w, c1, a, c2, rb)) == [lb, en, c1, a, c2, rb]
  {
    var t2 := [w] + ([c1] + ([w] + ([a] + ([w] + ([c2] + [rb])))));
    var t1 := [en] + t2;
    var t0 := [lb] + t1;
    EnterMidSignificant(w, c1, a, c2, rb);
    assert S.Significant(t1) == [en, c1, a, c2, rb] by { SignificantCons(en, t2); }
    SignificantCons(lb, t1);
  }

  lemma Flatten10<T>(so: T, si: T, e1: T, e2: T, e3: T, e4: T, e5: T, e6: T, f: T)
    ensures [so] + ([si] + ([e1] + [e2] + [e3] + [e4] + [e5] + [e6]) + [f]) + [f]
            == [so, si, e1, e2, e3, e4, e5, e6, f, f]
  {
  }

  /** `[Enter c1 and c2]`, whatever its tokens' texts, parses to a Root
      around one stage direction of its six significant tokens; the
      whitespace is not in the log. */
  lemma ParseEnterTexts(lb: Token, en: Token, w: Token, c1: Token, a: Token, c2: Token, rb: Token)
    requires w.kind == Whitespace
    requires lb.kind == LBracket && en.kind == Enter
    requires c1.kind == Character && a.kind == And && c2.kind == Character && rb.kind == RBracket
    ensures G.Parse(EnterTokens(lb, en, w, c1, a, c2, rb))
            == Ok([StartNode(SyntaxKind.Root), StartNode(StageDirection),
                   Rec(lb), Rec(en), Rec(c1), Rec(a), Rec(c2), Rec(rb),
                   FinishNode, FinishNode])
  {
    var ts := EnterTokens(lb, en, w, c1, a, c2, rb);
    var p1 := Start(New(ts)).0;
    assert Ahead(p1) == [lb, en, c1, a, c2, rb] by {
      EnterSignificant(lb, en, w, c1, a, c2, rb);
      assert ts[0..] == ts;
    }
    EnterDirection(p1, lb, en, c1, a, c2, rb);
    PassAtBracket(p1);
    var body := [StartNode(StageDirection)]
                + ([Rec(lb)] + [Rec(en)] + [Rec(c1)] + [Rec(a)] + [Rec(c2)] + [Rec(rb)])
                + [FinishNode];
    ParseOnePass(ts, body);
    Flatten10(StartNode(SyntaxKind.Root), StartNode(StageDirection),
              Rec(lb), Rec(en), Rec(c1), Rec(a), Rec(c2), Rec(rb), FinishNode);
  }

  /** `parse_enter_characters`: `[Enter Hamlet and Romeo]` parses to a Root
      around one stage direction of `[`, `Enter`, `Hamlet`, `and`, `Romeo`
      and `]`. */
  lemma ParseEnterCharacters()
    ensures G.Parse([Token(LBracket, "["), Token(Enter, "Enter"), Token(Whitespace, " "),
                     Token(Character, "Hamlet"), Token(Whitespace, " "), Token(And, "and"),
                     Token(Whitespace, " "), Token(Character, "Romeo"), Token(RBracket, "]")])
            == Ok([StartNode(SyntaxKind.Root), StartNode(StageDirection),
                   AddToken(LBracket, "["), AddToken(Enter, "Enter"), AddToken(Character, "Hamlet"),
                   AddToken(And, "and"), AddToken(Character, "Romeo"), AddToken(RBracket, "]"),
                   FinishNode, FinishNode])
  {
    EnterTokensFlat(Token(LBracket, "["), Token(Enter, "Enter"), Token(Whitespace, " "),
                    Token(Character, "Hamlet"), Token(And, "and"), Token(Character, "Romeo"),
                    Token(RBracket, "]"));
    ParseEnterTexts(Token(LBracket, "["), Token(Enter, "Enter"), Token(Whitespace, " "),
                    Token(Character, "Hamlet"), Token(And, "and"), Token(Character, "Romeo"),
                    Token(RBracket, "]"));
  }

  // ---------------------------------------------------------------------
  // parse_exit_characters

  /** After `[`, `Exit`, one character and `]` are taken whole. */
  lemma ExitBody(q: Parser, ex: Token, c: Token, rb: Token)
    requires q.Valid() && Ahead(q) == [ex, c, rb] && ex.kind == Exit
    requires c.kind == Character && rb.kind == RBracket
    ensures G.StageDirectionBody(q).Ok? && Ahead(G.StageDirectionBody(q).value) == []
    ensures G.StageDirectionBody(q).value.events == q.events + [Rec(ex)] + [Rec(c)] + [Rec(rb)]
  {
    var q1 := Bump(q).value;
    assert Ahead(q1) == [c, rb];
    ListLast(q1, c, rb);
  }

  /** `[Exit c]` is one stage direction holding its four significant
      tokens. */
  lemma ExitDirection(p: Parser, lb: Token, ex: Token, c: Token, rb: Token)
    requires p.Valid() && Ahead(p) == [lb, ex, c, rb] && lb.kind == LBracket && ex.kind == Exit
    requires c.kind == Character && rb.kind == RBracket
    ensures G.ParseStageDirection(p).Ok? && AtEof(G.ParseStageDirection(p).value)
    ensures G.ParseStageDirection(p).value.events
            == p.events + ([StartNode(StageDirection)]
                           + ([Rec(lb)] + [Rec(ex)] + [Rec(c)] + [Rec(rb)])
                           + [FinishNode])
  {
    var (q1, m) := Start(p);
    var q2 := Bump(q1).value;
    assert Ahead(q2) == [ex, c, rb];
    ExitBody(q2, ex, c, rb);
    Regroup4e(p.events + [MarkerPlaceholder], Rec(lb), Rec(ex), Rec(c), Rec(rb));
    Wrap(p.events, [Rec(lb)] + [Rec(ex)] + [Rec(c)] + [Rec(rb)], StageDirection);
  }

  lemma Regroup4e(x: seq<Event>, a: Event, b: Event, c: Event, d: Event)
    ensures x + [a] + [b] + [c] + [d] == x + ([a] + [b] + [c] + [d])
  {
  }

  /** `[Exit c]` with a whitespace token before the character. */
  function ExitTokens(lb: Token, ex: Token, w: Token, c: Token, rb: Token): seq<Token> {
    [lb, ex, w, c, rb]
  }

  lemma ExitSignificant(lb: Token, ex: Token, w: Token, c: Token, rb: Token)
    requires w.kind == Whitespace && lb.kind == LBracket && ex.kind == Exit
    requires c.kind == Character && rb.kind == RBracket
    ensures S.Significant(ExitTokens(lb, ex, w, c, rb)) == [lb, ex, c, rb]
  {
    var t3 := [c] + [rb];
    var t2 := [w] + t3;
    var t1 := [ex] + t2;
    var t0 := [lb] + t1;
    assert S.Significant(t3) == [c, rb] by {
      AllSignificant([rb]);
      SignificantCons(c, [rb]);
    }
    assert S.Significant(t2) == [c, rb] by { SignificantCons(w, t3); }
    assert S.Significant(t1) == [ex, c, rb] by { SignificantCons(ex, t2); }
    assert S.Significant(t0) == [lb, ex, c, rb] by { SignificantCons(lb, t1); }
    assert t0 == ExitTokens(lb, ex, w, c, rb);
  }

  /** `[Exit c]`, whatever its tokens' texts, parses to a Root around one
      stage direction of its four significant tokens. */
  lemma ParseExitTexts(lb: Token, ex: Token, w: Token, c: Token, rb: Token)
    requires w.kind == Whitespace && lb.kind == LBracket && ex.kind == Exit
    requires c.kind == Character && rb.kind == RBracket
    ensures G.Parse(ExitTokens(lb, ex, w, c, rb))
            == Ok([StartNode(SyntaxKind.Root), StartNode(StageDirection),
                   Rec(lb), Rec(ex), Rec(c), Rec(rb), FinishNode, FinishNode])
  {
    var ts := ExitTokens(lb, ex, w, c, rb);
    var p1 := Start(New(ts)).0;
    assert Ahead(p1) == [lb, ex, c, rb] by {
      ExitSignificant(lb, ex, w, c, rb);
      assert ts[0..] == ts;
    }
    ExitDirection(p1, lb, ex, c, rb);
    PassAtBracket(p1);
    var body := [StartNode(StageDirection)] + ([Rec(lb)] + [Rec(ex)] + [Rec(c)] + [Rec(rb)]) + [FinishNode];
    ParseOnePass(ts, body);
    Flatten8(StartNode(SyntaxKind.Root), StartNode(StageDirection), Rec(lb), Rec(ex), Rec(c), Rec(rb), FinishNode);
  }

  lemma Flatten8<T>(so: T, si: T, e1: T, e2: T, e3: T, e4: T, f: T)
    ensures [so] + ([si] + ([e1] + [e2] + [e3] + [e4]) + [f]) + [f] == [so, si, e1, e2, e3, e4, f, f]
  {
  }

  /** `parse_exit_characters`: `[Exit Juliet]` parses to a Root around one
      stage direction of `[`, `Exit`, `Juliet` and `]`. */
  lemma ParseExitCharacters()
    ensures G.Parse([Token(LBracket, "["), Token(Exit, "Exit"), Token(Whitespace, " "),
                     Token(Character, "Juliet"), Token(RBracket, "]")])
            == Ok([StartNode(SyntaxKind.Root), StartNode(StageDirection),
                   AddToken(LBracket, "["), AddToken(Exit, "Exit"), AddToken(Character, "Juliet"),
                   AddToken(RBracket, "]"), FinishNode, FinishNode])
  {
    ParseExitTexts(Token(LBracket, "["), Token(Exit, "Exit"), Token(Whitespace, " "),
                   Token(Character, "Juliet"), Token(RBracket, "]"));
  }

  // ---------------------------------------------------------------------
  // parse_dialog_0

  /** Two expected tokens are taken and recorded as themselves. */
  lemma ExpectTwo(q: Parser, a: Token, b: Token, rest: seq<Token>)
    requires q.Valid() && Ahead(q) == [a, b] + rest
    ensures G.ExpectAll(q, [a.kind, b.kind]).Ok?
    ensures var r := G.ExpectAll(q, [a.kind, b.kind]).value;
            r.events == q.events + [Rec(a)] + [Rec(b)] && Ahead(r) == rest
  {
    assert [a, b] + rest == [a] + ([b] + rest);
    var q1 := BumpOne(q, a, [b] + rest);
    var q2 := BumpOne(q1, b, rest);
    ExpectBoth(q, q1, q2, a, b);
  }

  /** Expecting the kinds of the two tokens just taken takes both. */
  lemma ExpectBoth(q: Parser, q1: Parser, q2: Parser, a: Token, b: Token)
    requires Took(q, q1, a) && Took(q1, q2, b)
    ensures G.ExpectAll(q, [a.kind, b.kind]) == Ok(q2)
  {
    assert G.ExpectAll(q1, [b.kind]) == Ok(q2) by {
      assert [b.kind][1..] == [];
    }
    assert [a.kind, b.kind][1..] == [b.kind];
  }

  /** `nothing .` is a NothingExpr and its terminator. */
  lemma TerminatedNothing(q: Parser, no: Token, pe: Token)
    requires q.Valid() && Ahead(q) == [no, pe] && no.kind == Nothing && pe.kind == Period
    ensures G.ParseTerminated(q).Ok? && Ahead(G.ParseTerminated(q).value) == []
    ensures G.ParseTerminated(q).value.events
            == q.events + [StartNode(NothingExpr), Rec(no), FinishNode] + [Rec(pe)]
  {
    var x := G.ParseNothingExpr(q).value;
    assert x.events == q.events + [StartNode(NothingExpr), Rec(no), FinishNode] by {
      assert x.events == x.events[..|q.events|] + x.events[|q.events|..];
    }
    assert G.ParseExpr(q) == Ok(x);
  }

  /** `You are nothing.` is one statement. */
  lemma StatementNothing(q: Parser, sp: Token, be: Token, no: Token, pe: Token)
    requires q.Valid() && Ahead(q) == [sp, be, no, pe]
    requires sp.kind == SecondPerson && be.kind == Be && no.kind == Nothing && pe.kind == Period
    ensures G.ParseStatement(q).Ok? && Ahead(G.ParseStatement(q).value) == []
    ensures G.ParseStatement(q).value.events
            == q.events + ([StartNode(Statement)]
                           + ([Rec(sp)] + [Rec(be)] + [StartNode(NothingExpr), Rec(no), FinishNode] + [Rec(pe)])
                           + [FinishNode])
  {
    var (q1, m) := Start(q);
    ExpectTwo(q1, sp, be, [no, pe]);
    var q3 := G.ExpectAll(q1, [SecondPerson, Be]).value;
    TerminatedNothing(q3, no, pe);
    var mid := [Rec(sp)] + [Rec(be)] + [StartNode(NothingExpr), Rec(no), FinishNode] + [Rec(pe)];
    Regroup4(q.events + [MarkerPlaceholder], Rec(sp), Rec(be), [StartNode(NothingExpr), Rec(no), FinishNode], Rec(pe));
    Wrap(q.events, mid, Statement);
  }

  lemma Regroup4(x: seq<Event>, a: Event, b: Event, c: seq<Event>, d: Event)
    ensures x + [a] + [b] + c + [d] == x + ([a] + [b] + c + [d])
  {
  }

  /** One sentence that takes the rest of the input and logs `sent`
      after whatever was logged before it. */
  ghost predicate LastSentence(q: Parser, sent: seq<Event>)
    requires q.Valid()
  {
    var r := G.ParseSentence(q);
    && r.Ok? && r.value.1 && AtEof(r.value.0)
    && r.value.0.events == q.events + sent
  }

  /** A sentence that reaches the end of input is all the sentences. */
  lemma SentencesOne(q: Parser, sent: seq<Event>)
    requires q.Valid() && LastSentence(q, sent)
    ensures G.ParseSentences(q) == Ok(G.ParseSentence(q).value.0)
  {
    var s := G.ParseSentence(q).value.0;
    assert G.ParseSentence(s) == Ok((s, false));
    assert G.ParseSentences(s) == Ok(s);
  }

  /** `c:` followed by one sentence that logs `sent` is one dialog
      around the name, the colon and `sent`. */
  lemma DialogOne(p: Parser, ch: Token, co: Token, rest: seq<Token>, sent: seq<Event>)
    requires p.Valid() && Ahead(p) == [ch, co] + rest
    requires ch.kind == Character && co.kind == Colon
    requires forall q: Parser :: q.Valid() && Ahead(q) == rest ==> LastSentence(q, sent)
    ensures G.ParseDialog(p).Ok? && AtEof(G.ParseDialog(p).value)
    ensures G.ParseDialog(p).value.events
            == p.events + ([StartNode(Dialog)] + ([Rec(ch)] + [Rec(co)] + sent) + [FinishNode])
  {
    var (q1, m) := Start(p);
    ExpectTwo(q1, ch, co, rest);
    var q3 := G.ExpectAll(q1, [Character, Colon]).value;
    assert LastSentence(q3, sent);
    SentencesOne(q3, sent);
    var q5 := G.ParseSentence(q3).value.0;
    var mid := [Rec(ch)] + [Rec(co)] + sent;
    assert q5.events == p.events + [MarkerPlaceholder] + mid by {
      Regroup3s(p.events + [MarkerPlaceholder], Rec(ch), Rec(co), sent);
    }
    assert G.ParseDialog(p) == Ok(Complete(q5, m, Dialog));
    Wrap(p.events, mid, Dialog);
  }

  /** `You are nothing.` is one sentence: a statement. */
  lemma StatementSentence(q: Parser, sp: Token, be: Token, no: Token, pe: Token)
    requires q.Valid() && Ahead(q) == [sp, be, no, pe]
    requires sp.kind == SecondPerson && be.kind == Be && no.kind == Nothing && pe.kind == Period
    ensures LastSentence(q, StatementEvents(sp, be, no, pe))
  {
    StatementNothing(q, sp, be, no, pe);
    assert G.ParseSentence(q) == Ok((G.ParseStatement(q).value, true));
  }

  lemma Regroup3s(x: seq<Event>, a: Event, b: Event, c: seq<Event>)
    ensures x + [a] + [b] + c == x + ([a] + [b] + c)
  {
  }

  /** The events of the statement `You are nothing.`. */
  function StatementEvents(sp: Token, be: Token, no: Token, pe: Token): seq<Event> {
    [StartNode(Statement)]
    + ([Rec(sp)] + [Rec(be)] + [StartNode(NothingExpr), Rec(no), FinishNode] + [Rec(pe)])
    + [FinishNode]
  }

  /** At a character followed by a colon, a pass of `root` is one dialog
      when nothing follows it. */
  lemma PassAtDialog(p: Parser)
    requires p.Valid() && At(p, Character) && Lookahead(p, 1) == Some(Colon)
    requires G.ParseDialog(p).Ok? && AtEof(G.ParseDialog(p).value)
    ensures G.RootPass(p) == G.ParseDialog(p)
  {
  }

  /** `c:` and a four-word sentence, with a whitespace token after the
      colon and between the words, as the lexer splits `c: You are
      nothing.` or `c: Open your heart!`. */
  function DialogTokens(ch: Token, co: Token, w: Token, sp: Token, be: Token, no: Token, pe: Token): seq<Token> {
    [ch, co, w, sp, w, be, w, no, pe]
  }

  /** The tail ` are nothing.` keeps its three significant tokens. */
  lemma DialogTailSignificant(w: Token, be: Token, no: Token, pe: Token)
    requires w.kind == Whitespace && be.kind != Whitespace && no.kind != Whitespace && pe.kind != Whitespace
    ensures S.Significant([be] + ([w] + ([no] + [pe]))) == [be, no, pe]
  {
    var t2 := [no] + [pe];
    var t1 := [w] + t2;
    assert S.Significant(t2) == [no, pe] by {
      AllSignificant([pe]);
      SignificantCons(no, [pe]);
    }
    assert S.Significant(t1) == [no, pe] by { SignificantCons(w, t2); }
    SignificantCons(be, t1);
  }

  lemma DialogSignificant(ch: Token, co: Token, w: Token, sp: Token, be: Token, no: Token, pe: Token)
    requires w.kind == Whitespace && ch.kind != Whitespace && co.kind != Whitespace
    requires sp.kind != Whitespace && be.kind != Whitespace && no.kind != Whitespace && pe.kind != Whitespace
    ensures S.Significant(DialogTokens(ch, co, w, sp, be, no, pe)) == [ch, co, sp, be, no, pe]
  {
    var t5 := [be] + ([w] + ([no] + [pe]));
    var t4 := [w] + t5;
    var t3 := [sp] + t4;
    var t2 := [w] + t3;
    var t1 := [co] + t2;
    var t0 := [ch] + t1;
    assert S.Significant(t4) == [be, no, pe] by {
      DialogTailSignificant(w, be, no, pe);
      SignificantCons(w, t5);
    }
    assert S.Significant(t3) == [sp, be, no, pe] by { SignificantCons(sp, t4); }
    assert S.Significant(t2) == [sp, be, no, pe] by { SignificantCons(w, t3); }
    assert S.Significant(t1) == [co, sp, be, no, pe] by { SignificantCons(co, t2); }
    assert S.Significant(t0) == [ch, co, sp, be, no, pe] by { SignificantCons(ch, t1); }
    assert t0 == DialogTokens(ch, co, w, sp, be, no, pe);
  }

  /** `c:` and a four-word sentence that logs `sent`, whatever its
      tokens' texts, parses to a Root around one dialog of the name, the
      colon and `sent`; the whitespace is not in the log. */
  lemma ParseOneSentence(ch: Token, co: Token, w: Token, s1: Token, s2: Token, s3: Token, s4: Token, sent: seq<Event>)
    requires w.kind == Whitespace && ch.kind == Character && co.kind == Colon
    requires s1.kind != Whitespace && s2.kind != Whitespace && s3.kind != Whitespace && s4.kind != Whitespace
    requires forall q: Parser :: q.Valid() && Ahead(q) == [s1, s2, s3, s4] ==> LastSentence(q, sent)
    ensures G.Parse(DialogTokens(ch, co, w, s1, s2, s3, s4))
            == Ok([StartNode(SyntaxKind.Root)] + ([StartNode(Dialog)] + ([Rec(ch)] + [Rec(co)] + sent) + [FinishNode]) + [FinishNode])
  {
    var ts := DialogTokens(ch, co, w, s1, s2, s3, s4);
    var p1 := Start(New(ts)).0;
    assert Ahead(p1) == [ch, co] + [s1, s2, s3, s4] by {
      DialogSignificant(ch, co, w, s1, s2, s3, s4);
      assert ts[0..] == ts;
    }
    DialogOne(p1, ch, co, [s1, s2, s3, s4], sent);
    PassAtDialog(p1);
    ParseOnePass(ts, [StartNode(Dialog)] + ([Rec(ch)] + [Rec(co)] + sent) + [FinishNode]);
  }

  /** `c: You are nothing.`, whatever its tokens' texts, parses to a Root
      around one dialog holding one statement whose value is a NothingExpr;
      the whitespace is not in the log. */
  lemma ParseDialogTexts(ch: Token, co: Token, w: Token, sp: Token, be: Token, no: Token, pe: Token)
    requires w.kind == Whitespace && ch.kind == Character && co.kind == Colon
    requires sp.kind == SecondPerson && be.kind == Be && no.kind == Nothing && pe.kind == Period
    ensures G.Parse(DialogTokens(ch, co, w, sp, be, no, pe))
            == Ok([StartNode(SyntaxKind.Root), StartNode(Dialog), Rec(ch), Rec(co),
                   StartNode(Statement), Rec(sp), Rec(be),
                   StartNode(NothingExpr), Rec(no), FinishNode, Rec(pe),
                   FinishNode, FinishNode, FinishNode])
  {
    forall q: Parser | q.Valid() && Ahead(q) == [sp, be, no, pe]
      ensures LastSentence(q, StatementEvents(sp, be, no, pe))
    {
      StatementSentence(q, sp, be, no, pe);
    }
    ParseOneSentence(ch, co, w, sp, be, no, pe, StatementEvents(sp, be, no, pe));
    FlattenDialog(StartNode(SyntaxKind.Root), StartNode(Dialog), StartNode(Statement), StartNode(NothingExpr),
                  Rec(ch), Rec(co), Rec(sp), Rec(be), Rec(no), Rec(pe), FinishNode);
  }

  lemma FlattenDialog<T>(sr: T, sd: T, ss: T, sn: T, e1: T, e2: T, e3: T, e4: T, e5: T, e6: T, f: T)
    ensures [sr] + ([sd] + ([e1] + [e2] + ([ss] + ([e3] + [e4] + [sn, e5, f] + [e6]) + [f])) + [f]) + [f]
            == [sr, sd, e1, e2, ss, e3, e4, sn, e5, f, e6, f, f, f]
  {
  }

  /** `parse_dialog_0`: `Juliet: You are nothing.` parses to a Root around
      one dialog of `Juliet`, `:` and a statement of `You`, `are`, a
      NothingExpr of `nothing`, and `.`. */
  lemma ParseDialog0()
    ensures G.Parse([Token(Character, "Juliet"), Token(Colon, ":"), Token(Whitespace, " "),
                     Token(SecondPerson, "You"), Token(Whitespace, " "), Token(Be, "are"),
                     Token(Whitespace, " "), Token(Nothing, "nothing"), Token(Period, ".")])
            == Ok([StartNode(SyntaxKind.Root), StartNode(Dialog),
                   AddToken(Character, "Juliet"), AddToken(Colon, ":"),
                   StartNode(Statement), AddToken(SecondPerson, "You"), AddToken(Be, "are"),
                   StartNode(NothingExpr), AddToken(Nothing, "nothing"), FinishNode,
                   AddToken(Period, "."),
                   FinishNode, FinishNode, FinishNode])
  {
    ParseDialogTexts(Token(Character, "Juliet"), Token(Colon, ":"), Token(Whitespace, " "),
                     Token(SecondPerson, "You"), Token(Be, "are"), Token(Nothing, "nothing"),
                     Token(Period, "."));
  }

  // ---------------------------------------------------------------------
  // parse_num_output, parse_char_output

  /** The events of an output sentence: its node around its four words. */
  function OutputEvents(node: SyntaxKind, v: Token, yo: Token, t: Token, te: Token): seq<Event> {
    [StartNode(node)] + ([Rec(v)] + [Rec(yo)] + [Rec(t)] + [Rec(te)]) + [FinishNode]
  }

  /** Three expected tokens are taken and recorded as themselves. */
  lemma ExpectThree(q: Parser, a: Token, b: Token, c: Token, rest: seq<Token>)
    requires q.Valid() && Ahead(q) == [a, b, c] + rest
    ensures G.ExpectAll(q, [a.kind, b.kind, c.kind]).Ok?
    ensures var r := G.ExpectAll(q, [a.kind, b.kind, c.kind]).value;
            r.events == q.events + [Rec(a)] + [Rec(b)] + [Rec(c)] && Ahead(r) == rest
  {
    var q1 := Bump(q).value;
    assert Ahead(q1) == [b, c] + rest;
    ExpectTwo(q1, b, c, rest);
    assert [a.kind, b.kind, c.kind][1..] == [b.kind, c.kind];
  }

  /** A verb, a possessive, a target and a terminator are one output node. */
  lemma OutputLogs(q: Parser, node: SyntaxKind, v: Token, yo: Token, t: Token, te: Token) returns (r: Parser)
    requires q.Valid() && Ahead(q) == [v, yo, t, te]
    requires yo.kind == SecondPersonPossessive && G.IsTerminator(te.kind)
    ensures At(q, v.kind) && G.ParseOutput(q, v.kind, t.kind, node) == Ok(r)
    ensures AtEof(r) && r.events == q.events + OutputEvents(node, v, yo, t, te)
  {
    var (q1, m) := Start(q);
    ExpectThree(q1, v, yo, t, [te]);
    var q4 := G.ExpectAll(q1, [v.kind, SecondPersonPossessive, t.kind]).value;
    var q5 := Bump(q4).value;
    assert G.ParseTerminator(q4) == Ok(q5);
    var mid := [Rec(v)] + [Rec(yo)] + [Rec(t)] + [Rec(te)];
    assert q5.events == q.events + [MarkerPlaceholder] + mid by {
      Regroup4e(q.events + [MarkerPlaceholder], Rec(v), Rec(yo), Rec(t), Rec(te));
    }
    r := Complete(q5, m, node);
    assert G.ParseOutput(q, v.kind, t.kind, node) == Ok(r);
    Wrap(q.events, mid, node);
  }

  /** `Open your heart!` is one sentence: an integer output. */
  lemma IntOutputSentence(q: Parser, v: Token, yo: Token, t: Token, te: Token)
    requires q.Valid() && Ahead(q) == [v, yo, t, te]
    requires v.kind == Open && yo.kind == SecondPersonPossessive && t.kind == Heart
    requires G.IsTerminator(te.kind)
    ensures LastSentence(q, OutputEvents(IntOutput, v, yo, t, te))
  {
    var r := OutputLogs(q, IntOutput, v, yo, t, te);
    SentenceIntOutput(q, r, OutputEvents(IntOutput, v, yo, t, te));
  }

  /** At `Open`, a sentence is the integer output. */
  lemma SentenceIntOutput(q: Parser, r: Parser, sent: seq<Event>)
    requires q.Valid() && At(q, Open) && G.ParseOutput(q, Open, Heart, IntOutput) == Ok(r)
    requires AtEof(r) && r.events == q.events + sent
    ensures LastSentence(q, sent)
  {
    assert G.ParseSentence(q) == Ok((r, true));
  }

  /** `Speak your mind.` is one sentence: a character output. */
  lemma CharOutputSentence(q: Parser, v: Token, yo: Token, t: Token, te: Token)
    requires q.Valid() && Ahead(q) == [v, yo, t, te]
    requires v.kind == Speak && yo.kind == SecondPersonPossessive && t.kind == Mind
    requires G.IsTerminator(te.kind)
    ensures LastSentence(q, OutputEvents(CharOutput, v, yo, t, te))
  {
    var r := OutputLogs(q, CharOutput, v, yo, t, te);
    SentenceCharOutput(q, r, OutputEvents(CharOutput, v, yo, t, te));
  }

  /** At `Speak`, a sentence is the character output. */
  lemma SentenceCharOutput(q: Parser, r: Parser, sent: seq<Event>)
    requires q.Valid() && At(q, Speak) && G.ParseOutput(q, Speak, Mind, CharOutput) == Ok(r)
    requires AtEof(r) && r.events == q.events + sent
    ensures LastSentence(q, sent)
  {
    assert !At(q, SecondPerson) && !At(q, Open);
    assert G.ParseCharOutput(q) == Ok(r);
    assert G.ParseSentence(q) == Ok((r, true));
  }

  /** `c:` and one output sentence of `node`, whatever the tokens' texts,
      is a Root around one dialog holding that output node. */
  lemma ParseOutputTexts(node: SyntaxKind, ch: Token, co: Token, w: Token, v: Token, yo: Token, t: Token, te: Token)
    requires w.kind == Whitespace && ch.kind == Character && co.kind == Colon
    requires v.kind != Whitespace && yo.kind != Whitespace && t.kind != Whitespace && te.kind != Whitespace
    requires forall q: Parser :: q.Valid() && Ahead(q) == [v, yo, t, te] ==> LastSentence(q, OutputEvents(node, v, yo, t, te))
    ensures G.Parse(DialogTokens(ch, co, w, v, yo, t, te))
            == Ok([StartNode(SyntaxKind.Root), StartNode(Dialog), Rec(ch), Rec(co),
                   StartNode(node), Rec(v), Rec(yo), Rec(t), Rec(te), FinishNode,
                   FinishNode, FinishNode])
  {
    ParseOneSentence(ch, co, w, v, yo, t, te, OutputEvents(node, v, yo, t, te));
    FlattenOutput(StartNode(SyntaxKind.Root), StartNode(Dialog), StartNode(node),
                  Rec(ch), Rec(co), Rec(v), Rec(yo), Rec(t), Rec(te), FinishNode);
  }

  lemma FlattenOutput<T>(sr: T, sd: T, sn: T, e1: T, e2: T, e3: T, e4: T, e5: T, e6: T, f: T)
    ensures [sr] + ([sd] + ([e1] + [e2] + ([sn] + ([e3] + [e4] + [e5] + [e6]) + [f])) + [f]) + [f]
            == [sr, sd, e1, e2, sn, e3, e4, e5, e6, f, f, f]
  {
  }

  /** `parse_num_output`: `Juliet: Open your heart!` parses to a Root
      around one dialog of `Juliet`, `:` and an IntOutput of `Open`,
      `your`, `heart` and `!`. */
  lemma ParseNumOutput()
    ensures G.Parse([Token(Character, "Juliet"), Token(Colon, ":"), Token(Whitespace, " "),
                     Token(Open, "Open"), Token(Whitespace, " "), Token(SecondPersonPossessive, "your"),
                     Token(Whitespace, " "), Token(Heart, "heart"), Token(Exclamation, "!")])
            == Ok([StartNode(SyntaxKind.Root), StartNode(Dialog),
                   AddToken(Character, "Juliet"), AddToken(Colon, ":"),
                   StartNode(IntOutput), AddToken(Open, "Open"), AddToken(SecondPersonPossessive, "your"),
                   AddToken(Heart, "heart"), AddToken(Exclamation, "!"),
                   FinishNode, FinishNode, FinishNode])
  {
    var v, yo, t, te := Token(Open, "Open"), Token(SecondPersonPossessive, "your"), Token(Heart, "heart"), Token(Exclamation, "!");
    forall q: Parser | q.Valid() && Ahead(q) == [v, yo, t, te]
      ensures LastSentence(q, OutputEvents(IntOutput, v, yo, t, te))
    {
      IntOutputSentence(q, v, yo, t, te);
    }
    ParseOutputTexts(IntOutput, Token(Character, "Juliet"), Token(Colon, ":"), Token(Whitespace, " "), v, yo, t, te);
  }

  /** `parse_char_output`: `Juliet: Speak your mind.` parses to a Root
      around one dialog of `Juliet`, `:` and a CharOutput of `Speak`,
      `your`, `mind` and `.`. */
  lemma ParseCharOutput()
    ensures G.Parse([Token(Character, "Juliet"), Token(Colon, ":"), Token(Whitespace, " "),
                     Token(Speak, "Speak"), Token(Whitespace, " "), Token(SecondPersonPossessive, "your"),
                     Token(Whitespace, " "), Token(Mind, "mind"), Token(Period, ".")])
            == Ok([StartNode(SyntaxKind.Root), StartNode(Dialog),
                   AddToken(Character, "Juliet"), AddToken(Colon, ":"),
                   StartNode(CharOutput), AddToken(Speak, "Speak"), AddToken(SecondPersonPossessive, "your"),
                   AddToken(Mind, "mind"), AddToken(Period, "."),
                   FinishNode, FinishNode, FinishNode])
  {
    var v, yo, t, te := Token(Speak, "Speak"), Token(SecondPersonPossessive, "your"), Token(Mind, "mind"), Token(Period, ".");
    forall q: Parser | q.Valid() && Ahead(q) == [v, yo, t, te]
      ensures LastSentence(q, OutputEvents(CharOutput, v, yo, t, te))
    {
      CharOutputSentence(q, v, yo, t, te);
    }
    ParseOutputTexts(CharOutput, Token(Character, "Juliet"), Token(Colon, ":"), Token(Whitespace, " "), v, yo, t, te);
  }
}
