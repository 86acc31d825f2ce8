/** The recursive-descent grammar (src/parser/grammar.rs). Every rule maps a
    parser state to the next one, or to the panic that ends the parse: this
    revision has no error recovery. Each successful rule grows the event log
    by a balanced stretch that records the tokens it consumed (`Grows`). */
module Grammar {

  import opened Wrappers
  import opened Lexer
  import opened Events
  import opened Parser
  import S = Source

  /** The event at `pos` starts a node of `kind`. */
  predicate Opens(evs: seq<Event>, pos: nat, kind: SyntaxKind) {
    pos < |evs| && evs[pos] == StartNode(kind)
  }

  /** The next significant token starts a sentence. */
  predicate StartsSentence(p: Parser)
    requires p.Valid()
  {
    At(p, SecondPerson) || At(p, Open) || At(p, Speak)
  }

  predicate IsNoun(k: SyntaxKind) {
    k == PositiveNoun || k == NegativeNoun || k == NeutralNoun
  }

  predicate IsAdjective(k: SyntaxKind) {
    k == PositiveAdjective || k == NegativeAdjective || k == NeutralAdjective
  }

  predicate IsOperator(k: SyntaxKind) {
    k == Difference || k == Product || k == Quotient || k == Remainder || k == Sum
  }

  // ---------------------------------------------------------------------
  // What each rule accepts. Each function below reads only the kinds of
  // the significant tokens ahead and gives how many of them the rule
  // consumes, or `None` when the rule panics on them; the rules further
  // down are proved to agree with them (`Takes`).

  predicate IsTerminator(k: SyntaxKind) {
    k == Period || k == Exclamation
  }

  /** `ts` begins with ‘.’ or ‘!’. */
  predicate TerminatorAhead(ts: seq<Token>) {
    ts != [] && IsTerminator(ts[0].kind)
  }

  /** One token of kind `k`. */
  function KindLen(ts: seq<Token>, k: SyntaxKind): (r: Option<nat>) {
    if ts != [] && ts[0].kind == k then Some(1) else None
  }

  /** A terminator is one token. */
  function TerminatorLen(ts: seq<Token>): (r: Option<nat>) {
    if TerminatorAhead(ts) then Some(1) else None
  }

  /** `r` succeeds exactly when `n` is a length, and then it has consumed
      exactly the first `n` significant tokens ahead of `p`. */
  ghost predicate Takes(p: Parser, r: Result<Parser, Panic>, n: Option<nat>)
    requires p.Valid()
  {
    && (r.Ok? <==> n.Some?)
    && (r.Ok? ==> r.value.Valid() && n.value <= |Ahead(p)| && Ahead(r.value) == Ahead(p)[n.value..])
  }

  /** A comment: every token before the first terminator, or all of them. */
  function CommentLen(ts: seq<Token>): (n: nat)
    ensures n <= |ts|
    ensures n == |ts| || IsTerminator(ts[n].kind)
  {
    if ts == [] || IsTerminator(ts[0].kind) then 0 else 1 + CommentLen(ts[1..])
  }

  /** No terminator comes before the comment's end: it is the first one. */
  lemma {:induction false} CommentLenMeans(ts: seq<Token>)
    ensures forall i :: 0 <= i < CommentLen(ts) ==> !IsTerminator(ts[i].kind)
  {
    if ts != [] && !IsTerminator(ts[0].kind) {
      CommentLenMeans(ts[1..]);
      assert forall i :: 1 <= i < CommentLen(ts) ==> ts[i] == ts[1..][i - 1];
    }
  }

  /** `Character , comment terminator`. */
  function CharacterDefLen(ts: seq<Token>): (r: Option<nat>)
    ensures r.Some? ==> 3 <= r.value <= |ts|
  {
    if !Matches(ts, [Character, Comma]) then None
    else
      var n := 2 + CommentLen(ts[2..]);
      Shift(TerminatorLen(ts[n..]), n)
  }

  /** An output sentence: `verb SecondPersonPossessive target terminator`. */
  function OutputLen(ts: seq<Token>, verb: SyntaxKind, target: SyntaxKind): (r: Option<nat>)
    ensures r.Some? ==> r.value == 4 <= |ts|
  {
    if Matches(ts, [verb, SecondPersonPossessive, target]) then Shift(TerminatorLen(ts[3..]), 3)
    else None
  }

  /** `SecondPerson Be`, then an expression and a terminator. */
  function StatementLen(ts: seq<Token>): (r: Option<nat>)
    ensures r.Some? ==> 3 <= r.value <= |ts|
  {
    if Matches(ts, [SecondPerson, Be]) then Shift(TerminatedLen(ts[2..]), 2) else None
  }

  /** An expression and the terminator after it. */
  function TerminatedLen(ts: seq<Token>): (r: Option<nat>)
    ensures r.Some? ==> 1 <= r.value <= |ts|
  {
    match ExprLen(ts)
    case None => None
    case Some(e) => Shift(TerminatorLen(ts[e..]), e)
  }

  /** A length `n` counted after `k` tokens already taken. */
  function Shift(n: Option<nat>, k: nat): (r: Option<nat>)
    ensures r.Some? <==> n.Some?
    ensures r.Some? ==> r.value == n.value + k
  {
    if n.Some? then Some(n.value + k) else None
  }

  /** An expression: `Nothing`; nothing at all before a terminator; or an
      article and then a noun phrase or a binary expression. */
  function ExprLen(ts: seq<Token>): (r: Option<nat>)
    ensures r.Some? ==> r.value <= |ts|
    decreases |ts|, 1
  {
    if ts == [] then None
    else if ts[0].kind == Nothing then Some(1)
    else if IsTerminator(ts[0].kind) then Some(0)
    else if ts[0].kind != Article || |ts| == 1 then None
    else if IsNoun(ts[1].kind) || IsAdjective(ts[1].kind) then Shift(NounPhraseLen(ts[1..]), 1)
    else if IsOperator(ts[1].kind) then Shift(BinLen(ts[1..]), 1)
    else None
  }

  /** The words that must follow an operator word. */
  function OperatorFollowers(k: SyntaxKind): seq<SyntaxKind> {
    if k == Difference || k == Quotient then [Between]
    else if k == Product || k == Sum then [Of]
    else if k == Remainder then [Of, Article, Quotient, Between]
    else []
  }

  /** How many words an operator takes before its first operand. */
  function OperatorWordCount(k: SyntaxKind): nat {
    1 + |OperatorFollowers(k)|
  }

  /** Operator words, then the operands. */
  function BinLen(ts: seq<Token>): (r: Option<nat>)
    ensures r.Some? ==> 3 <= r.value <= |ts|
    decreases |ts|, 0
  {
    if !BinShape(ts) then None
    else
      var k := OperatorWordCount(ts[0].kind);
      assert k <= |ts|;
      Shift(OperandsLen(ts[k..]), k)
  }

  /** An expression, `And`, an expression. */
  function OperandsLen(ts: seq<Token>): (r: Option<nat>)
    ensures r.Some? ==> 1 <= r.value <= |ts|
    decreases |ts|, 2
  {
    match ExprLen(ts)
    case None => None
    case Some(e) =>
      if e < |ts| && ts[e].kind == And then Shift(ExprLen(ts[e + 1..]), e + 1)
      else None
  }

  /** `ts` begins with a word that starts a sentence. */
  predicate SentenceAhead(ts: seq<Token>) {
    ts != [] && (ts[0].kind == SecondPerson || ts[0].kind == Open || ts[0].kind == Speak)
  }

  /** One sentence, chosen by its first word; zero tokens when none starts. */
  function SentenceLen(ts: seq<Token>): (r: Option<nat>)
    ensures r.Some? ==> r.value <= |ts|
    ensures r.Some? ==> (r.value == 0 <==> !SentenceAhead(ts))
  {
    if ts == [] then Some(0)
    else if ts[0].kind == SecondPerson then StatementLen(ts)
    else if ts[0].kind == Open then OutputLen(ts, Open, Heart)
    else if ts[0].kind == Speak then OutputLen(ts, Speak, Mind)
    else Some(0)
  }

  /** Sentences for as long as one starts; what follows starts none. */
  function SentencesLen(ts: seq<Token>): (r: Option<nat>)
    ensures r.Some? ==> r.value <= |ts| && !SentenceAhead(ts[r.value..])
    decreases |ts|
  {
    if !SentenceAhead(ts) then Some(0)
    else
      match SentenceLen(ts)
      case None => None
      case Some(n) =>
        var r := Shift(SentencesLen(ts[n..]), n);
        assert r.Some? ==> ts[n..][r.value - n..] == ts[r.value..];
        r
  }

  /** `Character :` and the sentences after it. */
  function DialogLen(ts: seq<Token>): (r: Option<nat>)
    ensures r.Some? ==> 2 <= r.value <= |ts|
  {
    if Matches(ts, [Character, Colon]) then Shift(SentencesLen(ts[2..]), 2) else None
  }

  /** `Character (And Character)* ]`. */
  function CharacterListLen(ts: seq<Token>): (r: Option<nat>)
    ensures r.Some? ==> 2 <= r.value <= |ts|
    decreases |ts|
  {
    if |ts| < 2 || ts[0].kind != Character then None
    else if ts[1].kind == RBracket then Some(2)
    else if ts[1].kind == And then Shift(CharacterListLen(ts[2..]), 2)
    else None
  }

  /** `[` then Enter or Exit and a character list, or `[ Exeunt ]`. */
  function StageDirectionLen(ts: seq<Token>): (r: Option<nat>)
    ensures r.Some? ==> 3 <= r.value <= |ts|
  {
    if ts != [] && ts[0].kind == LBracket then Shift(StageBodyLen(ts[1..]), 1) else None
  }

  /** What follows the `[` of a stage direction. */
  function StageBodyLen(ts: seq<Token>): (r: Option<nat>)
    ensures r.Some? ==> 2 <= r.value <= |ts|
  {
    if ts == [] then None
    else if ts[0].kind == Enter || ts[0].kind == Exit then Shift(CharacterListLen(ts[1..]), 1)
    else if ts[0].kind == Exeunt then Shift(KindLen(ts[1..], RBracket), 1)
    else None
  }

  /** A character followed by `:` starts a dialog, by `,` a definition. */
  function CharacterItemLen(ts: seq<Token>): (r: Option<nat>)
    ensures r.Some? ==> 2 <= r.value <= |ts|
  {
    if |ts| >= 2 && ts[1].kind == Colon then DialogLen(ts)
    else if |ts| >= 2 && ts[1].kind == Comma then CharacterDefLen(ts)
    else None
  }

  /** One pass of `root`'s loop: an item that begins with a character, then
      a stage direction, each only if it is next. */
  function PassLen(ts: seq<Token>): (r: Option<nat>)
    ensures r.Some? ==> r.value <= |ts|
    ensures r == Some(0) <==> !(ts != [] && (ts[0].kind == Character || ts[0].kind == LBracket))
  {
    var a := if ts != [] && ts[0].kind == Character then CharacterItemLen(ts) else Some(0);
    if a.None? then None
    else
      var rest := ts[a.value..];
      Shift(if rest != [] && rest[0].kind == LBracket then StageDirectionLen(rest) else Some(0), a.value)
  }

  /** The whole input as `root` reads it: passes until the end; a pass that
      takes nothing before the end never finishes. */
  predicate RootAccepts(ts: seq<Token>)
    decreases |ts|
  {
    if ts == [] then true
    else
      match PassLen(ts)
      case None => false
      case Some(n) => n == |ts| || (0 < n && RootAccepts(ts[n..]))
  }

  // ---------------------------------------------------------------------
  // The rules

  /** Dropping `a` tokens, then `b` more, drops `a + b`. */
  lemma DropTwice(ts: seq<Token>, a: nat, b: nat)
    requires a + b <= |ts|
    ensures ts[a..][b..] == ts[a + b..]
  {
  }

  /** A rule started `k` tokens in: whatever it takes from there, it takes
      from `p` together with those `k`. */
  lemma TakesThen(p: Parser, q: Parser, r: Result<Parser, Panic>, k: nat, n: Option<nat>)
    requires p.Valid() && q.Valid() && k <= |Ahead(p)| && Ahead(q) == Ahead(p)[k..]
    requires Takes(q, r, n)
    ensures Takes(p, r, Shift(n, k))
  {
    if r.Ok? {
      DropTwice(Ahead(p), k, n.value);
    }
  }

  /** `expect` takes one token of its kind, or panics. */
  lemma ExpectTakes(p: Parser, k: SyntaxKind)
    requires p.Valid()
    ensures Takes(p, Expect(p, k), KindLen(Ahead(p), k))
  {
  }

  /** Completing markers changes no outcome and moves no cursor. */
  lemma TakesSame(p: Parser, r: Result<Parser, Panic>, s: Result<Parser, Panic>, n: Option<nat>)
    requires p.Valid() && Takes(p, r, n)
    requires s.Ok? <==> r.Ok?
    requires s.Ok? ==> s.value.source == r.value.source
    ensures Takes(p, s, n)
  {
  }

  /** A terminator is only ‘.’ or ‘!’. */
  function ParseTerminator(p: Parser): (r: Result<Parser, Panic>)
    requires p.Valid()
    ensures r.Ok? <==> Peek(p) == Some(Period) || Peek(p) == Some(Exclamation)
    ensures r.Ok? ==> r == Bump(p)
    ensures r.Err? ==> r.error == ExplicitPanic
  {
    if Peek(p) == Some(Period) || Peek(p) == Some(Exclamation) then Bump(p)
    else Err(ExplicitPanic)
  }

  /** A terminator is taken exactly when one is ahead. */
  lemma TerminatorTakes(p: Parser)
    requires p.Valid()
    ensures Takes(p, ParseTerminator(p), TerminatorLen(Ahead(p)))
  {
  }

  /** Every event is a token recorded as `Skip`. */
  predicate AllSkipped(evs: seq<Event>) {
    forall i :: 0 <= i < |evs| ==> evs[i].AddToken? && evs[i].kind == SyntaxKind.Skip
  }

  lemma SkippedStep(pe: seq<Event>, qe: seq<Event>, re: seq<Event>, e: Event)
    requires qe == pe + [e] && |qe| <= |re| && re[..|qe|] == qe
    requires e.AddToken? && e.kind == SyntaxKind.Skip && AllSkipped(re[|qe|..])
    ensures AllSkipped(re[|pe|..])
  {
    assert re[|pe|..] == [e] + re[|qe|..] by {
      assert re == re[..|qe|] + re[|qe|..];
    }
  }

  /** The comment of a character definition: every token up to the first
      ‘.’ or ‘!’ (or the end) is recorded as `Skip`. It never fails. */
  function SkipComment(p: Parser): (r: Result<Parser, Panic>)
    requires p.Valid()
    ensures r.Ok? && Grows(p, r.value)
    ensures AtEof(r.value) || At(r.value, Period) || At(r.value, Exclamation)
    ensures AllSkipped(r.value.events[|p.events|..])
    decreases Remaining(p)
  {
    if !At(p, Period) && !At(p, Exclamation) && !AtEof(p) then
      var q := SkipToken(p).value;
      var r := SkipComment(q);
      GrowsTrans(p, q, r.value);
      SkippedStep(p.events, q.events, r.value.events, q.events[|p.events|]);
      r
    else
      GrowsRefl(p);
      Ok(p)
  }

  /** The comment runs up to the first terminator, or to the end. */
  lemma {:induction false} CommentTakes(p: Parser)
    requires p.Valid()
    ensures Ahead(SkipComment(p).value) == Ahead(p)[CommentLen(Ahead(p))..]
    decreases Remaining(p)
  {
    if !At(p, Period) && !At(p, Exclamation) && !AtEof(p) {
      var q := SkipToken(p).value;
      CommentTakes(q);
      CommentStep(p);
      assert Ahead(p) != [] && !IsTerminator(Ahead(p)[0].kind);
      assert CommentLen(Ahead(p)) == 1 + CommentLen(Ahead(p)[1..]);
      DropTwice(Ahead(p), 1, CommentLen(Ahead(q)));
    } else {
      assert SkipComment(p) == Ok(p);
    }
  }

  /** Before a terminator, the comment skips one token and goes on. */
  lemma CommentStep(p: Parser)
    requires p.Valid() && !At(p, Period) && !At(p, Exclamation) && !AtEof(p)
    ensures var q := SkipToken(p).value;
            && SkipComment(p) == SkipComment(q)
            && Ahead(q) == Ahead(p)[1..]
  {
  }

  /** `Character`, `,`, a comment of skipped tokens, a terminator; the
      `Comment` node spans from the comma to the terminator. */
  function ParseCharacterDef(p: Parser): (r: Result<Parser, Panic>)
    requires p.Valid() && At(p, Character)
    ensures r.Ok? ==> Grows(p, r.value) && Consumes(p, r.value)
    ensures r.Ok? ==> Opens(r.value.events, |p.events|, CharacterDef)
                      && Opens(r.value.events, |p.events| + 2, Comment)
  {
    var (p1, mDef) := Start(p);
    var p2 := Bump(p1).value;
    var (p3, mComment) := Start(p2);
    var p4 :- Expect(p3, Comma);
    var p5 := SkipComment(p4).value;
    var p6 :- ParseTerminator(p5);
    GrowsTrans(p3, p4, p5);
    GrowsTrans(p3, p5, p6);
    StartCompleteGrows(p2, p6, Comment);
    var p7 := Complete(p6, mComment, Comment);
    GrowsTrans(p1, p2, p7);
    StartCompleteGrows(p, p7, CharacterDef);
    Ok(Complete(p7, mDef, CharacterDef))
  }

  /** A definition succeeds exactly on `Character ,`, a comment and a
      terminator, and then consumes them. */
  lemma CharacterDefTakes(p: Parser)
    requires p.Valid() && At(p, Character)
    ensures Takes(p, ParseCharacterDef(p), CharacterDefLen(Ahead(p)))
  {
    var ts := Ahead(p);
    var p2 := Bump(Start(p).0).value;
    var e := Expect(Start(p2).0, Comma);
    if e.Err? {
      assert ParseCharacterDef(p).Err?;
      assert !Matches(ts, [Character, Comma]);
    } else {
      CharacterDefAfterComma(p);
    }
  }

  lemma CharacterDefAfterComma(p: Parser)
    requires p.Valid() && At(p, Character)
    requires Expect(Start(Bump(Start(p).0).value).0, Comma).Ok?
    ensures Takes(p, ParseCharacterDef(p), CharacterDefLen(Ahead(p)))
  {
    var ts := Ahead(p);
    var e := Expect(Start(Bump(Start(p).0).value).0, Comma);
    var p5 := SkipComment(e.value).value;
    var n := 2 + CommentLen(ts[2..]);
    assert Ahead(e.value) == ts[2..] && Matches(ts, [Character, Comma]) by {
      DropTwice(ts, 1, 1);
    }
    assert Ahead(p5) == ts[n..] by {
      CommentTakes(e.value);
      DropTwice(ts, 2, n - 2);
    }
    var t := ParseTerminator(p5);
    assert Takes(p, t, CharacterDefLen(ts)) by {
      TerminatorTakes(p5);
      TakesThen(p, p5, t, n, TerminatorLen(ts[n..]));
    }
    CharacterDefEndsWithTerminator(p);
    TakesSame(p, t, ParseCharacterDef(p), CharacterDefLen(ts));
  }

  /** After its comment, a definition ends as its terminator does. */
  lemma CharacterDefEndsWithTerminator(p: Parser)
    requires p.Valid() && At(p, Character)
    requires Expect(Start(Bump(Start(p).0).value).0, Comma).Ok?
    ensures var e := Expect(Start(Bump(Start(p).0).value).0, Comma);
            var t := ParseTerminator(SkipComment(e.value).value);
            var s := ParseCharacterDef(p);
            && (s.Ok? <==> t.Ok?)
            && (s.Ok? ==> s.value.source == t.value.source)
  {
  }

  /** `Character`, `:`, then sentences for as long as one starts. */
  function ParseDialog(p: Parser): (r: Result<Parser, Panic>)
    requires p.Valid() && At(p, Character)
    ensures r.Ok? ==> Grows(p, r.value) && Consumes(p, r.value)
    ensures r.Ok? ==> Opens(r.value.events, |p.events|, Dialog)
  {
    var (p1, m) := Start(p);
    var p2 :- ExpectAll(p1, [Character, Colon]);
    var p3 :- ParseSentences(p2);
    GrowsTrans(p1, p2, p3);
    StartCompleteGrows(p, p3, Dialog);
    Ok(Complete(p3, m, Dialog))
  }

  /** A dialog succeeds exactly on what `DialogLen` accepts, and then
      consumes that many tokens; what is left starts no sentence. */
  lemma DialogTakes(p: Parser)
    requires p.Valid() && At(p, Character)
    ensures Takes(p, ParseDialog(p), DialogLen(Ahead(p)))
  {
    var ts := Ahead(p);
    var e := ExpectAll(Start(p).0, [Character, Colon]);
    if e.Err? {
      assert ParseDialog(p).Err?;
    } else {
      SentencesTakes(e.value);
      var t := ParseSentences(e.value);
      TakesThen(p, e.value, t, 2, SentencesLen(ts[2..]));
      var s := ParseDialog(p);
      assert s.Ok? <==> t.Ok?;
      assert s.Ok? ==> s.value.source == t.value.source;
      TakesSame(p, t, s, DialogLen(ts));
    }
  }

  /** A dialog stops only where no sentence starts. */
  lemma DialogEndsSentences(p: Parser)
    requires p.Valid() && At(p, Character)
    ensures ParseDialog(p).Ok? ==> !StartsSentence(ParseDialog(p).value)
  {
    DialogTakes(p);
    DialogStops(p, ParseDialog(p));
  }

  lemma DialogStops(p: Parser, r: Result<Parser, Panic>)
    requires p.Valid() && Takes(p, r, DialogLen(Ahead(p)))
    ensures r.Ok? ==> !StartsSentence(r.value)
  {
    var ts := Ahead(p);
    if r.Ok? {
      var n := DialogLen(ts).value;
      DropTwice(ts, 2, n - 2);
      assert !SentenceAhead(Ahead(r.value));
    }
  }

  /** Sentences succeed exactly on what `SentencesLen` accepts, and then
      consume that many tokens. */
  lemma {:induction false} SentencesTakes(p: Parser)
    requires p.Valid()
    ensures Takes(p, ParseSentences(p), SentencesLen(Ahead(p)))
    decreases Remaining(p)
  {
    var ts := Ahead(p);
    SentenceTakes(p);
    var s := ParseSentence(p);
    if !SentenceAhead(ts) {
      assert s == Ok((p, false));
      assert ts[0..] == ts;
    } else if s.Ok? {
      var n := SentenceLen(ts).value;
      var q := s.value.0;
      SentencesTakes(q);
      TakesThen(p, q, ParseSentences(q), n, SentencesLen(ts[n..]));
      assert ParseSentences(p) == ParseSentences(q);
    }
  }

  /** One sentence succeeds exactly on what `SentenceLen` accepts, and then
      has consumed that many tokens; it reports whether it parsed one. */
  lemma SentenceTakes(p: Parser)
    requires p.Valid()
    ensures ParseSentence(p).Ok? <==> SentenceLen(Ahead(p)).Some?
    ensures ParseSentence(p).Ok? ==>
              && ParseSentence(p).value.0.Valid()
              && Ahead(ParseSentence(p).value.0) == Ahead(p)[SentenceLen(Ahead(p)).value..]
              && (ParseSentence(p).value.1 <==> SentenceAhead(Ahead(p)))
  {
    var ts := Ahead(p);
    if At(p, SecondPerson) {
      StatementTakes(p);
    } else if At(p, Open) {
    } else if At(p, Speak) {
    } else {
      assert ts[0..] == ts;
    }
  }

  /** The `while parse_sentence(p) {}` loop: zero or more sentences. */
  function ParseSentences(p: Parser): (r: Result<Parser, Panic>)
    requires p.Valid()
    ensures r.Ok? ==> Grows(p, r.value)
    ensures r.Ok? ==> !StartsSentence(r.value)
    decreases Remaining(p)
  {
    var s :- ParseSentence(p);
    if s.1 then
      var r := ParseSentences(s.0);
      if r.Ok? then GrowsTrans(p, s.0, r.value); r else r
    else
      GrowsRefl(s.0);
      Ok(s.0)
  }

  /** A sentence is chosen by its first token alone: SecondPerson starts a
      statement, Open an integer output, Speak a character output; anything
      else ends the dialog (false) and changes nothing. */
  function ParseSentence(p: Parser): (r: Result<(Parser, bool), Panic>)
    requires p.Valid()
    ensures !StartsSentence(p) <==> r == Ok((p, false))
    ensures r.Ok? && !r.value.1 ==> r.value.0 == p && !StartsSentence(p)
    ensures r.Ok? && r.value.1 ==> Grows(p, r.value.0) && Consumes(p, r.value.0)
    ensures r.Ok? && r.value.1 && At(p, SecondPerson) ==> Opens(r.value.0.events, |p.events|, Statement)
    ensures r.Ok? && r.value.1 && At(p, Open) ==> Opens(r.value.0.events, |p.events|, IntOutput)
    ensures r.Ok? && r.value.1 && At(p, Speak) ==> Opens(r.value.0.events, |p.events|, CharOutput)
  {
    if At(p, SecondPerson) then
      var q :- ParseStatement(p);
      Ok((q, true))
    else if At(p, Open) then
      var q :- ParseIntOutput(p);
      Ok((q, true))
    else if At(p, Speak) then
      var q :- ParseCharOutput(p);
      Ok((q, true))
    else
      Ok((p, false))
  }

  /** SecondPerson, Be, an expression, a terminator. */
  function ParseStatement(p: Parser): (r: Result<Parser, Panic>)
    requires p.Valid() && At(p, SecondPerson)
    ensures r.Ok? ==> Grows(p, r.value) && Consumes(p, r.value)
    ensures r.Ok? ==> Opens(r.value.events, |p.events|, Statement)
  {
    var (p1, m) := Start(p);
    var p2 :- ExpectAll(p1, [SecondPerson, Be]);
    var p3 :- ParseTerminated(p2);
    GrowsTrans(p1, p2, p3);
    StartCompleteGrows(p, p3, Statement);
    Ok(Complete(p3, m, Statement))
  }

  /** An expression, then a terminator. */
  function ParseTerminated(p: Parser): (r: Result<Parser, Panic>)
    requires p.Valid()
    ensures r.Ok? ==> Grows(p, r.value)
  {
    var p1 :- ParseExpr(p);
    var p2 :- ParseTerminator(p1);
    GrowsTrans(p, p1, p2);
    Ok(p2)
  }

  /** A statement succeeds exactly on what `StatementLen` accepts, and
      then consumes that many tokens. */
  lemma StatementTakes(p: Parser)
    requires p.Valid() && At(p, SecondPerson)
    ensures Takes(p, ParseStatement(p), StatementLen(Ahead(p)))
  {
    var ts := Ahead(p);
    var e := ExpectAll(Start(p).0, [SecondPerson, Be]);
    if e.Err? {
      assert ParseStatement(p).Err?;
    } else {
      TerminatedTakes(e.value);
      var t := ParseTerminated(e.value);
      TakesThen(p, e.value, t, 2, TerminatedLen(ts[2..]));
      var s := ParseStatement(p);
      assert s.Ok? <==> t.Ok?;
      assert s.Ok? ==> s.value.source == t.value.source;
      TakesSame(p, t, s, StatementLen(ts));
    }
  }

  /** An expression and its terminator succeed exactly on what
      `TerminatedLen` accepts, and then consume that many tokens. */
  lemma TerminatedTakes(p: Parser)
    requires p.Valid()
    ensures Takes(p, ParseTerminated(p), TerminatedLen(Ahead(p)))
  {
    var ts := Ahead(p);
    ExprTakes(p);
    var x := ParseExpr(p);
    if x.Ok? {
      var e := ExprLen(ts).value;
      TerminatorTakes(x.value);
      TakesThen(p, x.value, ParseTerminator(x.value), e, TerminatorLen(ts[e..]));
      assert ParseTerminated(p) == ParseTerminator(x.value);
    }
  }

  /** An expression: `Nothing` as a NothingExpr; nothing at all before a
      terminator; otherwise an article followed by a noun expression or a
      binary expression. */
  function ParseExpr(p: Parser): (r: Result<Parser, Panic>)
    requires p.Valid()
    ensures r.Ok? ==> Grows(p, r.value)
    ensures At(p, Period) || At(p, Exclamation) ==> r == Ok(p)
    ensures r.Ok? && !At(p, Period) && !At(p, Exclamation) ==> Consumes(p, r.value)
    ensures r.Ok? && At(p, Nothing) ==> Opens(r.value.events, |p.events|, NothingExpr)
    ensures r.Ok? && !At(p, Nothing) && !At(p, Period) && !At(p, Exclamation) ==>
              At(p, Article)
              && (Opens(r.value.events, |p.events|, NounExpr) || Opens(r.value.events, |p.events|, BinExpr))
    decreases Remaining(p), 1
  {
    if At(p, Nothing) then
      ParseNothingExpr(p)
    else if At(p, Period) || At(p, Exclamation) then
      GrowsRefl(p);
      Ok(p)
    else
      var (p1, m) := Start(p);
      var p2 :- Expect(p1, Article);
      var next := Peek(p2);
      if next.Some? && (IsNoun(next.value) || IsAdjective(next.value)) then
        ParseNounExpr(p2, m, p)
      else if next.Some? && IsOperator(next.value) then
        ParseBinExpr(p2, m, p)
      else
        Err(ExplicitPanic)
  }

  /** `Nothing` alone, as a NothingExpr node holding its one token. */
  function ParseNothingExpr(p: Parser): (r: Result<Parser, Panic>)
    requires p.Valid() && At(p, Nothing)
    ensures r.Ok? && Grows(p, r.value) && Consumes(p, r.value)
    ensures Ahead(r.value) == Ahead(p)[1..]
    ensures r.value.events[|p.events|..] ==
              [StartNode(NothingExpr), AddToken(Nothing, Ahead(p)[0].text), FinishNode]
  {
    var (p1, m) := Start(p);
    var p2 := Bump(p1).value;
    StartCompleteGrows(p, p2, NothingExpr);
    WrapPlaceholder(p.events, p2.events, NothingExpr);
    var q := Complete(p2, m, NothingExpr);
    assert p2.events[|p1.events|..] == [AddToken(Nothing, Ahead(p)[0].text)];
    Ok(q)
  }

  /** The length of the noun phrase that `ts` begins with: zero or more
      adjectives, then exactly one noun; `None` if `ts` does not begin
      with one. */
  function NounPhraseLen(ts: seq<Token>): (r: Option<nat>)
    ensures r.Some? ==> 1 <= r.value <= |ts|
  {
    if ts == [] then None
    else if IsNoun(ts[0].kind) then Some(1)
    else if IsAdjective(ts[0].kind) then
      match NounPhraseLen(ts[1..])
      case None => None
      case Some(n) => Some(n + 1)
    else None
  }

  /** A noun phrase of length `n` is `n - 1` adjectives and a noun. */
  lemma {:induction false} NounPhraseLenMeans(ts: seq<Token>)
    requires NounPhraseLen(ts).Some?
    ensures var n := NounPhraseLen(ts).value;
            && IsNoun(ts[n - 1].kind)
            && forall i :: 0 <= i < n - 1 ==> IsAdjective(ts[i].kind)
  {
    if !IsNoun(ts[0].kind) {
      NounPhraseLenMeans(ts[1..]);
    }
  }

  /** An adjective in front of a noun phrase lengthens it by one. */
  lemma NounStep(ts: seq<Token>, tail: seq<Token>, rest: seq<Token>)
    requires ts != [] && IsAdjective(ts[0].kind) && tail == ts[1..]
    requires NounPhraseLen(tail).Some? && rest == tail[NounPhraseLen(tail).value..]
    ensures NounPhraseLen(ts).Some? && rest == ts[NounPhraseLen(ts).value..]
  {
    var n := NounPhraseLen(tail).value;
    assert ts[1..][n..] == ts[n + 1..];
  }

  /** The adjectives and the noun of a noun expression, each recorded by one
      token event. */
  function NounWords(p: Parser): (r: Result<Parser, Panic>)
    requires p.Valid()
    ensures r.Ok? <==> NounPhraseLen(Ahead(p)).Some?
    ensures r.Ok? ==> Grows(p, r.value) && Consumes(p, r.value)
                      && Ahead(r.value) == Ahead(p)[NounPhraseLen(Ahead(p)).value..]
    decreases Remaining(p)
  {
    var next := Peek(p);
    if next.Some? && IsNoun(next.value) then
      Bump(p)
    else if next.Some? && IsAdjective(next.value) then
      var q := Bump(p).value;
      var r := NounWords(q);
      assert Ahead(q) == Ahead(p)[1..];
      if r.Ok? then
        NounStep(Ahead(p), Ahead(q), Ahead(r.value));
        GrowsTrans(p, q, r.value);
        r
      else r
    else
      Err(ExplicitPanic)
  }

  /** What `ExprLen` makes of the token after an article. */
  lemma ExprLenAfterArticle(ts: seq<Token>)
    requires ts != [] && ts[0].kind == Article
    ensures |ts| == 1 ==> ExprLen(ts).None?
    ensures |ts| > 1 && (IsNoun(ts[1].kind) || IsAdjective(ts[1].kind)) ==>
              ExprLen(ts) == Shift(NounPhraseLen(ts[1..]), 1)
    ensures |ts| > 1 && IsOperator(ts[1].kind) ==> ExprLen(ts) == Shift(BinLen(ts[1..]), 1)
    ensures |ts| > 1 && !IsNoun(ts[1].kind) && !IsAdjective(ts[1].kind) && !IsOperator(ts[1].kind) ==>
              ExprLen(ts).None?
  {
    assert ts[0].kind != Nothing && !IsTerminator(ts[0].kind);
  }

  /** An expression succeeds exactly on what `ExprLen` accepts, and then
      consumes that many tokens. */
  lemma {:induction false} ExprTakes(p: Parser)
    requires p.Valid()
    ensures Takes(p, ParseExpr(p), ExprLen(Ahead(p)))
    decreases Remaining(p), 2
  {
    var ts := Ahead(p);
    if At(p, Nothing) {
      assert ParseExpr(p) == ParseNothingExpr(p);
      assert ExprLen(ts) == Some(1);
    } else if At(p, Period) || At(p, Exclamation) {
      assert ExprLen(ts) == Some(0);
      assert ts[0..] == ts;
    } else {
      var e := Expect(Start(p).0, Article);
      if e.Err? {
        assert ParseExpr(p).Err?;
        assert ExprLen(ts).None?;
      } else {
        ArticleExprTakes(p, e.value);
      }
    }
  }

  /** The part of `ExprTakes` after the article. */
  lemma {:induction false} ArticleExprTakes(p: Parser, q: Parser)
    requires p.Valid() && !At(p, Nothing) && !At(p, Period) && !At(p, Exclamation)
    requires Expect(Start(p).0, Article) == Ok(q)
    ensures Takes(p, ParseExpr(p), ExprLen(Ahead(p)))
    decreases Remaining(p), 1
  {
    var ts := Ahead(p);
    var m := Start(p).1;
    assert Ahead(q) == ts[1..];
    ExprLenAfterArticle(ts);
    var next := Peek(q);
    if next.Some? && (IsNoun(next.value) || IsAdjective(next.value)) {
      assert ParseExpr(p) == ParseNounExpr(q, m, p);
      TakesThen(p, q, ParseExpr(p), 1, NounPhraseLen(ts[1..]));
    } else if next.Some? && IsOperator(next.value) {
      assert ParseExpr(p) == ParseBinExpr(q, m, p);
      BinTakes(q, m, p);
      TakesThen(p, q, ParseExpr(p), 1, BinLen(ts[1..]));
    } else {
      assert ParseExpr(p).Err?;
    }
  }

  /** A binary expression succeeds exactly on what `BinLen` accepts, and
      then consumes that many tokens. */
  lemma {:induction false} BinTakes(p: Parser, m: Marker, o: Parser)
    requires o.Valid() && m == Start(o).1 && Grows(Start(o).0, p)
    ensures Takes(p, ParseBinExpr(p, m, o), BinLen(Ahead(p)))
    decreases Remaining(p), 0
  {
    var ts := Ahead(p);
    var p1 := BinOperator(p);
    if p1.Err? {
      assert ParseBinExpr(p, m, o).Err?;
      assert BinLen(ts).None?;
    } else {
      var k := OperatorWordCount(ts[0].kind);
      OperandsTakes(p1.value);
      var p2 := ParseOperands(p1.value);
      TakesThen(p, p1.value, p2, k, OperandsLen(ts[k..]));
      assert BinLen(ts) == Shift(OperandsLen(ts[k..]), k);
      var s := ParseBinExpr(p, m, o);
      assert s.Ok? <==> p2.Ok?;
      assert s.Ok? ==> s.value.source == p2.value.source;
      TakesSame(p, p2, s, BinLen(ts));
    }
  }

  /** The operands succeed exactly on what `OperandsLen` accepts, and then
      consume that many tokens. */
  lemma {:induction false} OperandsTakes(p: Parser)
    requires p.Valid()
    ensures Takes(p, ParseOperands(p), OperandsLen(Ahead(p)))
    decreases Remaining(p), 3
  {
    var ts := Ahead(p);
    ExprTakes(p);
    var p1 := ParseExpr(p);
    if p1.Err? {
      assert ParseOperands(p).Err?;
      assert OperandsLen(ts).None?;
    } else {
      var e := ExprLen(ts).value;
      assert ExprThen(p, p1.value, e);
      if !At(p1.value, And) {
        OperandsWithoutAnd(p, p1.value, e);
      } else {
        var q := Expect(p1.value, And).value;
        ExprTakes(q);
        OperandsBoth(p, p1.value, q);
      }
    }
  }

  /** The first expression parsed from `p` to `p1`, taking `e` tokens. */
  ghost predicate ExprThen(p: Parser, p1: Parser, e: nat) {
    && p.Valid() && ParseExpr(p) == Ok(p1) && ExprLen(Ahead(p)) == Some(e)
    && p1.Valid() && e <= |Ahead(p)| && Ahead(p1) == Ahead(p)[e..]
  }

  /** The first expression is not followed by `and`. */
  lemma OperandsWithoutAnd(p: Parser, p1: Parser, e: nat)
    requires ExprThen(p, p1, e) && !At(p1, And)
    ensures ParseOperands(p).Err? && OperandsLen(Ahead(p)).None?
  {
    NotAt(Ahead(p), e, And);
  }

  /** What follows the first `e` tokens is not `k` when the rest does not
      begin with `k`. */
  lemma NotAt(ts: seq<Token>, e: nat, k: SyntaxKind)
    requires e <= |ts| && !(ts[e..] != [] && ts[e..][0].kind == k)
    ensures !(e < |ts| && ts[e].kind == k)
  {
    if e < |ts| {
      assert ts[e..][0] == ts[e];
    }
  }

  /** Both expressions parsed, `and` between them. */
  lemma OperandsBoth(p: Parser, p1: Parser, q: Parser)
    requires p.Valid() && ParseExpr(p) == Ok(p1) && Takes(p, ParseExpr(p), ExprLen(Ahead(p)))
    requires Expect(p1, And) == Ok(q) && Takes(q, ParseExpr(q), ExprLen(Ahead(q)))
    ensures Takes(p, ParseOperands(p), OperandsLen(Ahead(p)))
  {
    var ts := Ahead(p);
    var e := ExprLen(ts).value;
    DropTwice(ts, e, 1);
    TakesThen(p, q, ParseExpr(q), e + 1, ExprLen(ts[e + 1..]));
    assert ParseOperands(p) == ParseExpr(q);
    assert OperandsLen(ts) == Shift(ExprLen(ts[e + 1..]), e + 1);
  }

  /** Completes the expression marker `m` (started on `o`) as a NounExpr. */
  function ParseNounExpr(p: Parser, m: Marker, ghost o: Parser): (r: Result<Parser, Panic>)
    requires o.Valid() && m == Start(o).1 && Grows(Start(o).0, p)
    ensures Takes(p, r, NounPhraseLen(Ahead(p)))
    ensures r.Ok? ==> Grows(o, r.value) && Consumes(p, r.value)
    ensures r.Ok? ==> Opens(r.value.events, m.pos, NounExpr)
  {
    var q :- NounWords(p);
    GrowsTrans(Start(o).0, p, q);
    StartCompleteGrows(o, q, NounExpr);
    Ok(Complete(q, m, NounExpr))
  }

  /** The significant tokens `ts` begin with the kinds `ks`, in order. */
  predicate Matches(ts: seq<Token>, ks: seq<SyntaxKind>) {
    |ks| <= |ts| && forall i :: 0 <= i < |ks| ==> ts[i].kind == ks[i]
  }

  /** Consecutive `expect` calls for the kinds `ks`: succeeds exactly when
      the next significant tokens have those kinds, and consumes them. */
  function ExpectAll(p: Parser, ks: seq<SyntaxKind>): (r: Result<Parser, Panic>)
    requires p.Valid()
    ensures r.Ok? <==> Matches(Ahead(p), ks)
    ensures r.Ok? ==> Grows(p, r.value) && Ahead(r.value) == Ahead(p)[|ks|..]
    ensures r.Ok? && ks != [] ==> Consumes(p, r.value)
    ensures r.Err? ==> r.error.Expected?
    decreases |ks|
  {
    if ks == [] then
      GrowsRefl(p);
      Ok(p)
    else
      var q := Expect(p, ks[0]);
      MatchesStep(Ahead(p), ks);
      if q.Err? then Err(q.error)
      else
        assert Ahead(q.value) == Ahead(p)[1..];
        var r := ExpectAll(q.value, ks[1..]);
        if r.Ok? then
          GrowsTrans(p, q.value, r.value);
          DropStep(Ahead(p), |ks| - 1);
          r
        else r
  }

  /** Matching a non-empty kind list is matching its head, then its tail. */
  lemma MatchesStep(ts: seq<Token>, ks: seq<SyntaxKind>)
    requires ks != []
    ensures Matches(ts, ks) <==> ts != [] && ts[0].kind == ks[0] && Matches(ts[1..], ks[1..])
  {
    if ts != [] && ts[0].kind == ks[0] && Matches(ts[1..], ks[1..]) {
      assert forall i :: 1 <= i < |ks| ==> ks[i] == ks[1..][i - 1] && ts[i] == ts[1..][i - 1];
    }
  }

  lemma DropStep(ts: seq<Token>, k: nat)
    requires 1 <= k + 1 <= |ts|
    ensures ts[1..][k..] == ts[k + 1..]
  {
  }

  /** The operator words of a binary expression: Difference or Quotient then
      Between; Product or Sum then Of; Remainder then Of, Article, Quotient,
      Between. */
  predicate BinShape(ts: seq<Token>) {
    && |ts| >= 1
    && var k := ts[0].kind;
    || ((k == Difference || k == Quotient) && Matches(ts[1..], [Between]))
    || ((k == Product || k == Sum) && Matches(ts[1..], [Of]))
    || (k == Remainder && Matches(ts[1..], [Of, Article, Quotient, Between]))
  }

  /** Which words must follow is decided by the operator word alone. */
  lemma BinShapeByHead(ts: seq<Token>)
    ensures ts == [] ==> !BinShape(ts)
    ensures ts != [] && (ts[0].kind == Difference || ts[0].kind == Quotient) ==>
              (BinShape(ts) <==> Matches(ts[1..], [Between]))
    ensures ts != [] && (ts[0].kind == Product || ts[0].kind == Sum) ==>
              (BinShape(ts) <==> Matches(ts[1..], [Of]))
    ensures ts != [] && ts[0].kind == Remainder ==>
              (BinShape(ts) <==> Matches(ts[1..], [Of, Article, Quotient, Between]))
    ensures ts != [] && !IsOperator(ts[0].kind) ==> !BinShape(ts)
  {
  }

  /** Bumps the operator word, then expects the words `ks` that follow it. */
  function OperatorWords(p: Parser, ks: seq<SyntaxKind>): (r: Result<Parser, Panic>)
    requires p.Valid() && Ahead(p) != []
    ensures r.Ok? <==> Matches(Ahead(p)[1..], ks)
    ensures r.Ok? ==> Grows(p, r.value) && Consumes(p, r.value)
    ensures r.Ok? ==> Ahead(r.value) == Ahead(p)[1 + |ks|..]
  {
    var p1 := Bump(p).value;
    var r := ExpectAll(p1, ks);
    if r.Ok? then
      GrowsTrans(p, p1, r.value);
      DropTwice(Ahead(p), 1, |ks|);
      r
    else r
  }

  function BinOperator(p: Parser): (r: Result<Parser, Panic>)
    requires p.Valid()
    ensures r.Ok? <==> BinShape(Ahead(p))
    ensures r.Ok? ==> Grows(p, r.value) && Consumes(p, r.value)
    ensures r.Ok? ==> Ahead(r.value) == Ahead(p)[OperatorWordCount(Ahead(p)[0].kind)..]
  {
    var next := Peek(p);
    BinShapeByHead(Ahead(p));
    if next.Some? && IsOperator(next.value) then OperatorWords(p, OperatorFollowers(next.value))
    else Err(ExplicitPanic)
  }

  /** Operator words, then the operands; completes the expression marker
      `m` (started on `o`) as a BinExpr. */
  function ParseBinExpr(p: Parser, m: Marker, ghost o: Parser): (r: Result<Parser, Panic>)
    requires o.Valid() && m == Start(o).1 && Grows(Start(o).0, p)
    ensures r.Ok? ==> Grows(o, r.value) && Consumes(p, r.value)
    ensures r.Ok? ==> Opens(r.value.events, m.pos, BinExpr)
    decreases Remaining(p), 0
  {
    var p1 :- BinOperator(p);
    var p2 :- ParseOperands(p1);
    GrowsTrans(Start(o).0, p, p1);
    GrowsTrans(Start(o).0, p1, p2);
    StartCompleteGrows(o, p2, BinExpr);
    Ok(Complete(p2, m, BinExpr))
  }

  /** The operands of a binary expression: an expression, `and`, an
      expression. */
  function ParseOperands(p: Parser): (r: Result<Parser, Panic>)
    requires p.Valid()
    ensures r.Ok? ==> Grows(p, r.value) && Consumes(p, r.value)
    decreases Remaining(p), 2
  {
    var p1 :- ParseExpr(p);
    var p2 :- Expect(p1, And);
    var p3 :- ParseExpr(p2);
    GrowsTrans(p, p1, p2);
    GrowsTrans(p, p2, p3);
    Ok(p3)
  }

  /** The shape shared by both output sentences: `verb`, then
      SecondPersonPossessive and `target`, then a terminator, as a `node`. */
  function ParseOutput(p: Parser, verb: SyntaxKind, target: SyntaxKind, node: SyntaxKind): (r: Result<Parser, Panic>)
    requires p.Valid() && At(p, verb)
    ensures r.Ok? ==> Grows(p, r.value) && Consumes(p, r.value)
    ensures r.Ok? ==> Opens(r.value.events, |p.events|, node)
  {
    var (p1, m) := Start(p);
    var p2 :- ExpectAll(p1, [verb, SecondPersonPossessive, target]);
    var p3 :- ParseTerminator(p2);
    GrowsTrans(p1, p2, p3);
    StartCompleteGrows(p, p3, node);
    Ok(Complete(p3, m, node))
  }

  /** An output sentence succeeds exactly on its four words, and then
      consumes them. */
  lemma OutputTakes(p: Parser, verb: SyntaxKind, target: SyntaxKind, node: SyntaxKind)
    requires p.Valid() && At(p, verb)
    ensures Takes(p, ParseOutput(p, verb, target, node), OutputLen(Ahead(p), verb, target))
  {
    var ts := Ahead(p);
    var e := ExpectAll(Start(p).0, [verb, SecondPersonPossessive, target]);
    if e.Err? {
      assert ParseOutput(p, verb, target, node).Err?;
    } else {
      var t := ParseTerminator(e.value);
      TerminatorTakes(e.value);
      TakesThen(p, e.value, t, 3, TerminatorLen(ts[3..]));
      OutputEndsWithTerminator(p, verb, target, node);
      TakesSame(p, t, ParseOutput(p, verb, target, node), OutputLen(ts, verb, target));
    }
  }

  /** After its three words, an output sentence ends as its terminator does. */
  lemma OutputEndsWithTerminator(p: Parser, verb: SyntaxKind, target: SyntaxKind, node: SyntaxKind)
    requires p.Valid() && At(p, verb)
    requires ExpectAll(Start(p).0, [verb, SecondPersonPossessive, target]).Ok?
    ensures var t := ParseTerminator(ExpectAll(Start(p).0, [verb, SecondPersonPossessive, target]).value);
            var s := ParseOutput(p, verb, target, node);
            && (s.Ok? <==> t.Ok?)
            && (s.Ok? ==> s.value.source == t.value.source)
  {
  }

  /** `int_output`: Open, SecondPersonPossessive, Heart, a terminator. */
  function ParseIntOutput(p: Parser): (r: Result<Parser, Panic>)
    requires p.Valid() && At(p, Open)
    ensures Takes(p, r, OutputLen(Ahead(p), Open, Heart))
    ensures r.Ok? ==> Grows(p, r.value) && Consumes(p, r.value)
    ensures r.Ok? ==> Opens(r.value.events, |p.events|, IntOutput)
  {
    OutputTakes(p, Open, Heart, IntOutput);
    ParseOutput(p, Open, Heart, IntOutput)
  }

  /** `char_output`: Speak, SecondPersonPossessive, Mind, a terminator. */
  function ParseCharOutput(p: Parser): (r: Result<Parser, Panic>)
    requires p.Valid() && At(p, Speak)
    ensures Takes(p, r, OutputLen(Ahead(p), Speak, Mind))
    ensures r.Ok? ==> Grows(p, r.value) && Consumes(p, r.value)
    ensures r.Ok? ==> Opens(r.value.events, |p.events|, CharOutput)
  {
    OutputTakes(p, Speak, Mind, CharOutput);
    ParseOutput(p, Speak, Mind, CharOutput)
  }

  /** `Character (And Character)*` up to and including the closing `]`. */
  function CharacterList(p: Parser): (r: Result<Parser, Panic>)
    requires p.Valid()
    ensures r.Ok? ==> Grows(p, r.value) && Consumes(p, r.value)
    decreases Remaining(p)
  {
    var q :- Expect(p, Character);
    if At(q, RBracket) then
      var r := Bump(q).value;
      GrowsTrans(p, q, r);
      Ok(r)
    else
      var q2 :- Expect(q, And);
      var r := CharacterList(q2);
      if r.Ok? then GrowsTrans(p, q, q2); GrowsTrans(p, q2, r.value); r else r
  }

  /** A character list succeeds exactly on what `CharacterListLen` accepts,
      and then consumes that many tokens. */
  lemma {:induction false} CharacterListTakes(p: Parser)
    requires p.Valid()
    ensures Takes(p, CharacterList(p), CharacterListLen(Ahead(p)))
    decreases Remaining(p)
  {
    var ts := Ahead(p);
    var q := Expect(p, Character);
    if q.Ok? && !At(q.value, RBracket) {
      var q2 := Expect(q.value, And);
      if q2.Ok? {
        DropTwice(ts, 1, 1);
        CharacterListTakes(q2.value);
        TakesThen(p, q2.value, CharacterList(q2.value), 2, CharacterListLen(ts[2..]));
      }
    }
  }

  /** The shape `CharacterListLen` accepts: characters at the even
      positions, `And` between them, and the first `]` closing the list. */
  lemma {:induction false} CharacterListLenMeans(ts: seq<Token>)
    requires CharacterListLen(ts).Some?
    ensures var n := CharacterListLen(ts).value;
            && n % 2 == 0
            && ts[n - 1].kind == RBracket
            && (forall i :: 0 <= i < n - 1 && i % 2 == 0 ==> ts[i].kind == Character)
            && (forall i :: 0 <= i < n - 1 && i % 2 == 1 ==> ts[i].kind == And)
  {
    if ts[1].kind != RBracket {
      var tail := ts[2..];
      CharacterListLenMeans(tail);
      var n := CharacterListLen(ts).value;
      assert forall i :: 2 <= i < n ==> ts[i] == tail[i - 2];
    }
  }

  /** `[`, then Enter or Exit with a character list, or Exeunt and `]`. */
  function ParseStageDirection(p: Parser): (r: Result<Parser, Panic>)
    requires p.Valid() && At(p, LBracket)
    ensures r.Ok? ==> Grows(p, r.value) && Consumes(p, r.value)
    ensures r.Ok? ==> Opens(r.value.events, |p.events|, StageDirection)
  {
    var (p1, m) := Start(p);
    var p2 := Bump(p1).value;
    var p3 :- StageDirectionBody(p2);
    GrowsTrans(p1, p2, p3);
    StartCompleteGrows(p, p3, StageDirection);
    Ok(Complete(p3, m, StageDirection))
  }

  /** What follows `[`: Enter or Exit with a character list, or Exeunt and
      `]`; any other word panics. */
  function StageDirectionBody(p: Parser): (r: Result<Parser, Panic>)
    requires p.Valid()
    ensures r.Ok? ==> Grows(p, r.value) && Consumes(p, r.value)
  {
    if At(p, Enter) || At(p, Exit) then
      var q := Bump(p).value;
      var r := CharacterList(q);
      if r.Ok? then GrowsTrans(p, q, r.value); r else r
    else if At(p, Exeunt) then
      var q := Bump(p).value;
      var r := Expect(q, RBracket);
      if r.Ok? then GrowsTrans(p, q, r.value); r else r
    else
      Err(ExplicitPanic)
  }

  /** A stage direction succeeds exactly on what `StageDirectionLen`
      accepts, and then consumes that many tokens. */
  lemma StageDirectionTakes(p: Parser)
    requires p.Valid() && At(p, LBracket)
    ensures Takes(p, ParseStageDirection(p), StageDirectionLen(Ahead(p)))
  {
    var ts := Ahead(p);
    var p2 := Bump(Start(p).0).value;
    StageBodyTakes(p2);
    var t := StageDirectionBody(p2);
    TakesThen(p, p2, t, 1, StageBodyLen(ts[1..]));
    var s := ParseStageDirection(p);
    assert s.Ok? <==> t.Ok?;
    assert s.Ok? ==> s.value.source == t.value.source;
    TakesSame(p, t, s, StageDirectionLen(ts));
  }

  /** What follows `[` succeeds exactly on what `StageBodyLen` accepts,
      and then consumes that many tokens. */
  lemma StageBodyTakes(p: Parser)
    requires p.Valid()
    ensures Takes(p, StageDirectionBody(p), StageBodyLen(Ahead(p)))
  {
    var ts := Ahead(p);
    if At(p, Enter) || At(p, Exit) {
      var q := Bump(p).value;
      CharacterListTakes(q);
      TakesThen(p, q, CharacterList(q), 1, CharacterListLen(ts[1..]));
      assert StageDirectionBody(p) == CharacterList(q);
      assert StageBodyLen(ts) == Shift(CharacterListLen(ts[1..]), 1);
    } else if At(p, Exeunt) {
      var q := Bump(p).value;
      ExpectTakes(q, RBracket);
      TakesThen(p, q, Expect(q, RBracket), 1, KindLen(ts[1..], RBracket));
      assert StageDirectionBody(p) == Expect(q, RBracket);
    } else {
      assert StageDirectionBody(p).Err? && StageBodyLen(ts).None?;
    }
  }

  /** An item that begins with a character: the token after it picks a
      dialog (a colon) or a definition (a comma); anything else panics. */
  function ParseCharacterItem(p: Parser): (r: Result<Parser, Panic>)
    requires p.Valid() && At(p, Character)
    ensures r.Ok? ==> Grows(p, r.value) && Consumes(p, r.value)
    ensures Lookahead(p, 1) == Some(Colon) ==> r == ParseDialog(p)
    ensures Lookahead(p, 1) == Some(Comma) ==> r == ParseCharacterDef(p)
    ensures Lookahead(p, 1) != Some(Colon) && Lookahead(p, 1) != Some(Comma) ==> r == Err(ExplicitPanic)
  {
    var next := Lookahead(p, 1);
    if next == Some(Colon) then ParseDialog(p)
    else if next == Some(Comma) then ParseCharacterDef(p)
    else Err(ExplicitPanic)
  }

  /** An item succeeds exactly on what `CharacterItemLen` accepts, and then
      consumes that many tokens. */
  lemma CharacterItemTakes(p: Parser)
    requires p.Valid() && At(p, Character)
    ensures Takes(p, ParseCharacterItem(p), CharacterItemLen(Ahead(p)))
  {
    var next := Lookahead(p, 1);
    if next == Some(Colon) {
      DialogTakes(p);
    } else if next == Some(Comma) {
      CharacterDefTakes(p);
    }
  }

  /** One pass of `root`'s loop body: an item if a character is next, then
      a stage direction if `[` is next. */
  function RootPass(p: Parser): (r: Result<Parser, Panic>)
    requires p.Valid()
    ensures r.Ok? ==> Grows(p, r.value)
    ensures r.Ok? && r.value != p ==> Consumes(p, r.value)
  {
    GrowsRefl(p);
    var p1 :- if At(p, Character) then ParseCharacterItem(p) else Ok(p);
    GrowsRefl(p1);
    var p2 :- if At(p1, LBracket) then ParseStageDirection(p1) else Ok(p1);
    GrowsTrans(p, p1, p2);
    Ok(p2)
  }

  /** A pass succeeds exactly on what `PassLen` accepts, and then consumes
      that many tokens; it takes nothing exactly when it changes nothing. */
  lemma PassTakes(p: Parser)
    requires p.Valid()
    ensures Takes(p, RootPass(p), PassLen(Ahead(p)))
    ensures RootPass(p).Ok? ==> (RootPass(p).value == p <==> PassLen(Ahead(p)) == Some(0))
  {
    var ts := Ahead(p);
    assert ts[0..] == ts;
    var r1 := if At(p, Character) then ParseCharacterItem(p) else Ok(p);
    var a := if ts != [] && ts[0].kind == Character then CharacterItemLen(ts) else Some(0);
    if At(p, Character) {
      CharacterItemTakes(p);
    }
    assert Takes(p, r1, a);
    if r1.Ok? {
      PassAfterItem(p, r1.value, a.value);
    }
  }

  /** The part of `PassTakes` after the item, which ends `a` tokens in. */
  lemma PassAfterItem(p: Parser, p1: Parser, a: nat)
    requires p.Valid() && (if At(p, Character) then ParseCharacterItem(p) else Ok(p)) == Ok(p1)
    requires p1.Valid() && a <= |Ahead(p)| && Ahead(p1) == Ahead(p)[a..]
    requires (if At(p, Character) then CharacterItemLen(Ahead(p)) else Some(0)) == Some(a)
    ensures Takes(p, RootPass(p), PassLen(Ahead(p)))
    ensures RootPass(p).Ok? ==> (RootPass(p).value == p <==> PassLen(Ahead(p)) == Some(0))
  {
    var ts := Ahead(p);
    var rest := ts[a..];
    var b := if rest != [] && rest[0].kind == LBracket then StageDirectionLen(rest) else Some(0);
    var r2 := if At(p1, LBracket) then ParseStageDirection(p1) else Ok(p1);
    if At(p1, LBracket) {
      StageDirectionTakes(p1);
    } else {
      assert rest[0..] == rest;
    }
    assert Takes(p1, r2, b);
    TakesThen(p, p1, r2, a, b);
    assert RootPass(p) == r2;
    assert PassLen(ts) == Shift(b, a);
    if r2.Ok? && r2.value == p {
      assert |Ahead(r2.value)| == |ts|;
    }
  }

  /** `root`'s loop: passes until the end. A pass that is not at the end
      and consumed nothing leaves the parser exactly as it was, so the loop
      would repeat it forever: `NeverTerminates`. */
  function RootLoop(p: Parser): (r: Result<Parser, Panic>)
    requires p.Valid()
    ensures r.Ok? ==> Grows(p, r.value) && AtEof(r.value)
    decreases Remaining(p)
  {
    var p2 :- RootPass(p);
    if AtEof(p2) then Ok(p2)
    else if p2 == p then Err(NeverTerminates)
    else
      var r := RootLoop(p2);
      if r.Ok? then GrowsTrans(p, p2, r.value); r else r
  }

  /** The loop succeeds exactly on the inputs `RootAccepts`. */
  lemma {:induction false} RootLoopAccepts(p: Parser)
    requires p.Valid()
    ensures RootLoop(p).Ok? <==> RootAccepts(Ahead(p))
    decreases Remaining(p)
  {
    var ts := Ahead(p);
    PassTakes(p);
    var r := RootPass(p);
    if ts == [] {
      assert PassLen(ts) == Some(0);
    } else if r.Ok? && !AtEof(r.value) && r.value != p {
      RootLoopAccepts(r.value);
      assert RootLoop(p) == RootLoop(r.value);
    }
  }

  /** `root`: one Root node around everything up to the end of input. */
  function Root(p: Parser): (r: Result<Parser, Panic>)
    requires p.Valid()
    ensures r.Ok? ==> Grows(p, r.value) && AtEof(r.value)
    ensures r.Ok? ==> RootShaped(r.value.events[|p.events|..])
  {
    var (p1, m) := Start(p);
    var p2 :- RootLoop(p1);
    StartCompleteGrows(p, p2, SyntaxKind.Root);
    WrapPlaceholder(p.events, p2.events, SyntaxKind.Root);
    var q := Complete(p2, m, SyntaxKind.Root);
    assert q.events[|p.events|..][1..|q.events| - |p.events| - 1] == p2.events[|p1.events|..];
    Ok(q)
  }

  /** `root` succeeds exactly on the inputs `RootAccepts`. */
  lemma RootAcceptsExactly(p: Parser)
    requires p.Valid()
    ensures Root(p).Ok? <==> RootAccepts(Ahead(p))
  {
    RootLoopAccepts(Start(p).0);
  }

  /** `Parser::parse`: runs `root` over the tokens and returns the events.
      The log is one Root node around a balanced body, no marker is left
      uncompleted, and it records the text of every significant token
      exactly once, in order. */
  function Parse(tokens: seq<Token>): (r: Result<seq<Event>, Panic>)
    ensures r.Ok? ==> RootShaped(r.value)
    ensures r.Ok? ==> Balanced(r.value)
    ensures r.Ok? ==> forall i :: 0 <= i < |r.value| ==> !r.value[i].MarkerPlaceholder?
    ensures r.Ok? ==> AddedTexts(r.value) == S.Texts(S.Significant(tokens))
  {
    var p := New(tokens);
    var q :- Root(p);
    var evs := q.events;
    assert evs == evs[|p.events|..];
    WalkableIsResolved(evs, 0);
    assert S.Texts(Ahead(q)) == [];
    assert Ahead(p) == S.Significant(tokens) by {
      assert tokens[0..] == tokens;
    }
    Ok(evs)
  }

  /** Parsing succeeds exactly on the token streams whose significant
      tokens `RootAccepts`. */
  lemma ParseAccepts(tokens: seq<Token>)
    ensures Parse(tokens).Ok? <==> RootAccepts(S.Significant(tokens))
  {
    var p := New(tokens);
    RootAcceptsExactly(p);
    assert Ahead(p) == S.Significant(tokens) by {
      assert tokens[0..] == tokens;
    }
  }

  /** At a character, the token after it picks the item: anything but a
      colon or a comma is a panic. */
  lemma RootDispatchPanics(p: Parser)
    requires p.Valid() && At(p, Character)
    requires Lookahead(p, 1) != Some(Colon) && Lookahead(p, 1) != Some(Comma)
    ensures RootLoop(p) == Err(ExplicitPanic)
  {
  }

  /** Not at the end, and at neither a character nor `[`: `root`'s loop
      body consumes nothing, so the loop never ends. */
  lemma RootStuck(p: Parser)
    requires p.Valid() && !AtEof(p) && !At(p, Character) && !At(p, LBracket)
    ensures RootLoop(p) == Err(NeverTerminates)
  {
  }

  /** Empty input (or only whitespace) parses to a lone Root node. */
  lemma ParseNothing(tokens: seq<Token>)
    requires S.Significant(tokens) == []
    ensures Parse(tokens) == Ok([StartNode(SyntaxKind.Root), FinishNode])
  {
    var p := New(tokens);
    assert Ahead(p) == [] by {
      assert tokens[0..] == tokens;
    }
    var (p1, m) := Start(p);
    assert Ahead(p1) == [];
    assert RootLoop(p1) == Ok(p1);
    assert p1.events == [MarkerPlaceholder];
    assert Complete(p1, m, SyntaxKind.Root).events == [StartNode(SyntaxKind.Root), FinishNode];
  }
}
