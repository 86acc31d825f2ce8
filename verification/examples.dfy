/** Concrete cases: the error messages of src/parser/parse_error.rs's
    tests, and the noun, sum and dialog values the evaluator is meant to
    produce. */
module Cases {

  import opened Wrappers
  import opened Lexer
  import opened Decimal
  import opened ParseErrors
  import A = Ast
  import H = Hir
  import E = Eval
  import I64

  // ---------------------------------------------------------------------
  // Keywords in any case

  /** A word whose lower-case spelling is listed under a keyword class is
      lexed as that class. */
  lemma FoldsTo(w: string, l: string, k: SyntaxKind)
    requires |w| == |l| && forall i :: 0 <= i < |w| ==> ToLower(w[i]) == l[i]
    requires k != Error && l in WordsOf(k)
    ensures Classify(w) == k
  {
    assert Lower(w) == l;
    ClassifyAcceptsExactlyListed(w, k);
  }

  lemma LexBe()
    ensures Classify("am") == Be && Classify("Are") == Be && Classify("aRT") == Be
    ensures Classify("be") == Be && Classify("iS") == Be
  {
    FoldsTo("am", "am", Be);
    FoldsTo("Are", "are", Be);
    FoldsTo("aRT", "art", Be);
    FoldsTo("be", "be", Be);
    FoldsTo("iS", "is", Be);
  }

  lemma LexArticle()
    ensures Classify("a") == Article && Classify("aN") == Article && Classify("The") == Article
  {
    FoldsTo("a", "a", Article);
    FoldsTo("aN", "an", Article);
    FoldsTo("The", "the", Article);
  }

  lemma LexFirstPerson()
    ensures Classify("I") == FirstPerson && Classify("me") == FirstPerson
  {
    FoldsTo("I", "i", FirstPerson);
    FoldsTo("me", "me", FirstPerson);
  }

  lemma LexFirstPersonReflexive()
    ensures Classify("myself") == FirstPersonReflexive && Classify("Myself") == FirstPersonReflexive
  {
    FoldsTo("myself", "myself", FirstPersonReflexive);
    FoldsTo("Myself", "myself", FirstPersonReflexive);
  }

  lemma LexFirstPersonPossessive()
    ensures Classify("mine") == FirstPersonPossessive && Classify("My") == FirstPersonPossessive
  {
    FoldsTo("mine", "mine", FirstPersonPossessive);
    FoldsTo("My", "my", FirstPersonPossessive);
  }

  lemma LexSecondPerson()
    ensures Classify("thee") == SecondPerson && Classify("Thou") == SecondPerson
    ensures Classify("yOu") == SecondPerson
  {
    FoldsTo("thee", "thee", SecondPerson);
    FoldsTo("Thou", "thou", SecondPerson);
    FoldsTo("yOu", "you", SecondPerson);
  }

  lemma LexSecondPersonReflexive()
    ensures Classify("thyself") == SecondPersonReflexive && Classify("Yourself") == SecondPersonReflexive
  {
    FoldsTo("thyself", "thyself", SecondPersonReflexive);
    FoldsTo("Yourself", "yourself", SecondPersonReflexive);
  }

  lemma LexSecondPersonPossessive()
    ensures Classify("thine") == SecondPersonPossessive && Classify("Thy") == SecondPersonPossessive
    ensures Classify("yoUR") == SecondPersonPossessive
  {
    FoldsTo("thine", "thine", SecondPersonPossessive);
    FoldsTo("Thy", "thy", SecondPersonPossessive);
    FoldsTo("yoUR", "your", SecondPersonPossessive);
  }

  lemma LexThirdPersonPossessive()
    ensures Classify("his") == ThirdPersonPossessive && Classify("Her") == ThirdPersonPossessive
    ensures Classify("iTs") == ThirdPersonPossessive && Classify("theIR") == ThirdPersonPossessive
  {
    FoldsTo("his", "his", ThirdPersonPossessive);
    FoldsTo("Her", "her", ThirdPersonPossessive);
    FoldsTo("iTs", "its", ThirdPersonPossessive);
    FoldsTo("theIR", "their", ThirdPersonPossessive);
  }

  // ---------------------------------------------------------------------
  // Error messages

  /** The spellings the tests rely on. */
  predicate Punctuation(toStrs: SyntaxKind -> seq<string>) {
    && toStrs(Period) == ["‘.’"]
    && toStrs(Exclamation) == ["‘!’"]
    && toStrs(Comma) == ["‘,’"]
    && toStrs(Question) == ["‘?’"]
  }

  lemma NinetyOne()
    ensures NatToString(91) == "91" && NatToString(92) == "92"
  {
    assert NatToString(9) == "9";
  }

  /** A strictly ascending listing of a set is its `BTreeSet` order. */
  lemma SortedIs(s: set<SyntaxKind>, r: seq<SyntaxKind>)
    requires StrictlySorted(r) && forall k :: k in r <==> k in s
    ensures Sorted(s) == r
  {
    StrictlySortedUnique(Sorted(s), r);
  }

  lemma SortedOne()
    ensures Sorted({Period}) == [Period]
  {
    SortedIs({Period}, [Period]);
  }

  lemma SortedTwo()
    ensures Sorted({Period, Exclamation}) == [Period, Exclamation]
  {
    var r := [Period, Exclamation];
    assert Ordinal(r[0]) == 34 && Ordinal(r[1]) == 35;
    SortedIs({Period, Exclamation}, r);
  }

  lemma SortedThree()
    ensures Sorted({Period, Exclamation, Comma}) == [Period, Exclamation, Comma]
  {
    var r := [Period, Exclamation, Comma];
    assert Ordinal(r[0]) == 34 && Ordinal(r[1]) == 35 && Ordinal(r[2]) == 36;
    SortedIs({Period, Exclamation, Comma}, r);
  }

  lemma HeaderAt91(e: ParseError)
    requires e.start == 91 && e.end == 92
    ensures Header(e) == "error at 91..92: expected "
  {
    NinetyOne();
  }

  // The four messages, assembled from their parts.

  lemma OneFoundAssembled()
    ensures "error at 91..92: expected " + "‘.’" + " but found " + "‘?’" == "error at 91..92: expected ‘.’ but found ‘?’"
  {
  }

  lemma OneAssembled()
    ensures "error at 91..92: expected " + "‘.’" == "error at 91..92: expected ‘.’"
  {
  }

  lemma ThreeFoundAssembled()
    ensures "error at 91..92: expected " + "‘.’, ‘!’ or ‘,’" + " but found " + "‘?’"
            == "error at 91..92: expected ‘.’, ‘!’ or ‘,’ but found ‘?’"
  {
  }

  lemma TwoAssembled()
    ensures "error at 91..92: expected " + "‘.’ or ‘!’" == "error at 91..92: expected ‘.’ or ‘!’"
  {
  }

  lemma OneExpectedDidFind(toStrs: SyntaxKind -> seq<string>)
    requires Punctuation(toStrs)
    ensures Display(ParseError({Period}, Some(Question), 91, 92), toStrs)
            == "error at 91..92: expected ‘.’ but found ‘?’"
  {
    var e := ParseError({Period}, Some(Question), 91, 92);
    HeaderAt91(e);
    SortedOne();
    assert OrList(Spellings([Period], toStrs)) == "‘.’";
    assert OrList(toStrs(Question)) == "‘?’";
    OneFoundAssembled();
  }

  lemma OneExpectedDidntFind(toStrs: SyntaxKind -> seq<string>)
    requires Punctuation(toStrs)
    ensures Display(ParseError({Period}, None, 91, 92), toStrs) == "error at 91..92: expected ‘.’"
  {
    var e := ParseError({Period}, None, 91, 92);
    HeaderAt91(e);
    SortedOne();
    assert OrList(Spellings([Period], toStrs)) == "‘.’";
    OneAssembled();
  }

  lemma MultipleExpectedDidFind(toStrs: SyntaxKind -> seq<string>)
    requires Punctuation(toStrs)
    ensures Display(ParseError({Period, Exclamation, Comma}, Some(Question), 91, 92), toStrs)
            == "error at 91..92: expected ‘.’, ‘!’ or ‘,’ but found ‘?’"
  {
    var e := ParseError({Period, Exclamation, Comma}, Some(Question), 91, 92);
    HeaderAt91(e);
    SortedThree();
    SpellThree(toStrs);
    ThreeJoined();
    assert OrList(toStrs(Question)) == "‘?’";
    ThreeFoundAssembled();
  }

  lemma SpellThree(toStrs: SyntaxKind -> seq<string>)
    requires Punctuation(toStrs)
    ensures Spellings([Period, Exclamation, Comma], toStrs) == ["‘.’", "‘!’", "‘,’"]
  {
    assert Spellings([Comma], toStrs) == ["‘,’"];
    assert [Period, Exclamation, Comma][1..] == [Exclamation, Comma];
    assert [Exclamation, Comma][1..] == [Comma];
  }

  lemma ThreeJoined()
    ensures OrList(["‘.’", "‘!’", "‘,’"]) == "‘.’, ‘!’ or ‘,’"
  {
    var items := ["‘.’", "‘!’", "‘,’"];
    assert items[..2] == ["‘.’", "‘!’"] && items[..2][..1] == ["‘.’"];
    assert Join(items[..2], ", ") == "‘.’" + ", " + "‘!’";
  }

  lemma TwoJoined()
    ensures OrList(["‘.’", "‘!’"]) == "‘.’ or ‘!’"
  {
    assert ["‘.’", "‘!’"][..1] == ["‘.’"];
  }

  lemma MultipleExpectedDidntFind(toStrs: SyntaxKind -> seq<string>)
    requires Punctuation(toStrs)
    ensures Display(ParseError({Period, Exclamation}, None, 91, 92), toStrs) == "error at 91..92: expected ‘.’ or ‘!’"
  {
    var e := ParseError({Period, Exclamation}, None, 91, 92);
    HeaderAt91(e);
    SortedTwo();
    assert Spellings([Period, Exclamation], toStrs) == ["‘.’", "‘!’"] by {
      assert [Period, Exclamation][1..] == [Exclamation];
    }
    TwoJoined();
    TwoAssembled();
  }

  // ---------------------------------------------------------------------
  // Evaluation

  /** "a fine lord" is 2, "a fine fine lord" is 4, a bare negative noun
      is -1, and "the sum of a fellow and a fine lord" is 3. */
  lemma NounValues()
    ensures E.EvalTree(H.TNoun([A.Adjective.Positive], A.Noun.Positive)) == Ok(2)
    ensures E.EvalTree(H.TNoun([A.Adjective.Positive, A.Adjective.Positive], A.Noun.Positive)) == Ok(4)
    ensures E.EvalTree(H.TNoun([], A.Noun.Negative)) == Ok(-1)
    ensures E.EvalTree(H.TBin(A.Sum, H.TNoun([], A.Noun.Neutral), H.TNoun([A.Adjective.Positive], A.Noun.Positive))) == Ok(3)
  {
    assert I64.Pow2(2) == 4 by {
      assert I64.Pow2(1) == 2;
    }
  }

  /** Dividing by a noun never hits zero, but a quotient of `MIN` by a bare
      negative noun overflows. */
  lemma QuotientOverflows()
    ensures E.Apply(A.Quotient, I64.MIN, -1) == Err(E.Arith(I64.Overflow))
    ensures E.Apply(A.Remainder, 7, -2) == Ok(1) && E.Apply(A.Quotient, -7, 2) == Ok(-3)
  {
  }

  /** Romeo and Juliet are declared and enter; Romeo tells Juliet she is a
      fine lord; everyone leaves. */
  function Scene(): seq<H.Item> {
    [ H.CharacterDef("Romeo"),
      H.CharacterDef("Juliet"),
      H.StageDirection(["Romeo", "Juliet"], A.Enter),
      H.Dialog("Romeo", [H.Statement(H.Noun([A.Adjective.Positive], A.Noun.Positive))]),
      H.StageDirection([], A.Exeunt) ]
  }

  function Stage(romeo: E.CharacterState, juliet: E.CharacterState, onStage: seq<string>): E.Evaluator {
    E.Evaluator(map["Romeo" := romeo, "Juliet" := juliet], onStage)
  }

  lemma SceneDeclares()
    ensures E.Define(E.Define(E.NewEvaluator(), "Romeo"), "Juliet") == Stage(E.CharacterState(0, false), E.CharacterState(0, false), [])
  {
  }

  lemma SceneEnters()
    ensures E.EnterAll(Stage(E.CharacterState(0, false), E.CharacterState(0, false), []), ["Romeo", "Juliet"])
            == Ok(Stage(E.CharacterState(0, true), E.CharacterState(0, true), ["Romeo", "Juliet"]))
  {
    var ev := Stage(E.CharacterState(0, false), E.CharacterState(0, false), []);
    var ev1 := E.Evaluator(map["Romeo" := E.CharacterState(0, true), "Juliet" := E.CharacterState(0, false)], ["Romeo"]);
    assert |"Romeo"| != |"Juliet"|;
    assert ev.states["Romeo" := E.CharacterState(0, true)] == ev1.states;
    assert ev.onStage + ["Romeo"] == ["Romeo"];
    assert ev1.onStage + ["Juliet"] == ["Romeo", "Juliet"];
    assert E.EnterOne(ev, "Romeo") == Ok(ev1);
    assert ev1.states["Juliet" := E.CharacterState(0, true)] == map["Romeo" := E.CharacterState(0, true), "Juliet" := E.CharacterState(0, true)];
    assert E.EnterOne(ev1, "Juliet") == Ok(Stage(E.CharacterState(0, true), E.CharacterState(0, true), ["Romeo", "Juliet"]));
    assert ["Romeo", "Juliet"][1..] == ["Juliet"];
  }

  lemma SceneSpeaks()
    ensures E.Statements(Stage(E.CharacterState(0, true), E.CharacterState(0, true), ["Romeo", "Juliet"]), H.EmptyDatabase(),
                         [H.Statement(H.Noun([A.Adjective.Positive], A.Noun.Positive))], "Romeo", "Juliet")
            == E.Outcome(["Juliet set to 2 by Romeo"], Ok(Stage(E.CharacterState(0, true), E.CharacterState(2, true), ["Romeo", "Juliet"])))
  {
    var ev := Stage(E.CharacterState(0, true), E.CharacterState(0, true), ["Romeo", "Juliet"]);
    var st := H.Statement(H.Noun([A.Adjective.Positive], A.Noun.Positive));
    assert E.EvalTree(H.Resolve(H.EmptyDatabase(), st.expr)) == Ok(2);
    assert NatToString(2) == "2";
    assert E.Line("Juliet", 2, "Romeo") == "Juliet set to 2 by Romeo";
    var o := E.Statement(ev, H.EmptyDatabase(), st, "Romeo", "Juliet");
    assert |"Romeo"| != |"Juliet"|;
    assert ev.states["Juliet" := E.CharacterState(2, true)] == map["Romeo" := E.CharacterState(0, true), "Juliet" := E.CharacterState(2, true)];
    assert o == E.Outcome(["Juliet set to 2 by Romeo"], Ok(Stage(E.CharacterState(0, true), E.CharacterState(2, true), ["Romeo", "Juliet"])));
    assert [st][1..] == [];
  }

  /** The source's `Exeunt` clears both flags and keeps the list; the
      intended one empties it. */
  lemma SceneLeaves()
    ensures E.ExeuntAsWritten(Stage(E.CharacterState(0, true), E.CharacterState(2, true), ["Romeo", "Juliet"]))
            == Stage(E.CharacterState(0, false), E.CharacterState(2, false), ["Romeo", "Juliet"])
    ensures E.Exeunt(Stage(E.CharacterState(0, true), E.CharacterState(2, true), ["Romeo", "Juliet"]))
            == Stage(E.CharacterState(0, false), E.CharacterState(2, false), [])
  {
  }

  /** A run whose first item finishes is that item's output, then the
      run of the rest from where it left off. */
  lemma RunFirst(ev: E.Evaluator, db: H.Database, item: H.Item, rest: seq<H.Item>,
                 out: seq<string>, ev1: E.Evaluator, after: E.Outcome)
    requires H.Wf(db)
    requires E.EvalItem(E.AsWritten, ev, db, item) == E.Outcome(out, Ok(ev1))
    requires E.Run(E.AsWritten, ev1, db, rest) == after
    ensures E.Run(E.AsWritten, ev, db, [item] + rest) == E.Outcome(out + after.output, after.result)
  {
    E.RunCons(E.AsWritten, ev, db, [item] + rest);
    assert ([item] + rest)[1..] == rest;
  }

  /** Declaring Romeo, then Juliet, on a fresh evaluator. */
  lemma SceneDefines(rest: seq<H.Item>, after: E.Outcome)
    requires E.Run(E.AsWritten, Stage(E.CharacterState(0, false), E.CharacterState(0, false), []), H.EmptyDatabase(), rest) == after
    ensures E.Evaluate([H.CharacterDef("Romeo"), H.CharacterDef("Juliet")] + rest, H.EmptyDatabase()) == after
  {
    var db := H.EmptyDatabase();
    var s1 := E.Define(E.NewEvaluator(), "Romeo");
    SceneDeclares();
    RunFirst(s1, db, H.CharacterDef("Juliet"), rest, [], Stage(E.CharacterState(0, false), E.CharacterState(0, false), []), after);
    RunFirst(E.NewEvaluator(), db, H.CharacterDef("Romeo"), [H.CharacterDef("Juliet")] + rest, [], s1, after);
    assert [H.CharacterDef("Romeo")] + ([H.CharacterDef("Juliet")] + rest) == [H.CharacterDef("Romeo"), H.CharacterDef("Juliet")] + rest;
  }

  /** Romeo and Juliet enter an empty stage. */
  lemma SceneEntersItem()
    ensures E.EvalItem(E.AsWritten, Stage(E.CharacterState(0, false), E.CharacterState(0, false), []), H.EmptyDatabase(),
                       H.StageDirection(["Romeo", "Juliet"], A.Enter))
            == E.Outcome([], Ok(Stage(E.CharacterState(0, true), E.CharacterState(0, true), ["Romeo", "Juliet"])))
  {
    SceneEnters();
  }

  /** Romeo tells Juliet she is a fine lord. */
  lemma SceneSpeaksItem()
    ensures E.EvalItem(E.AsWritten, Stage(E.CharacterState(0, true), E.CharacterState(0, true), ["Romeo", "Juliet"]), H.EmptyDatabase(),
                       H.Dialog("Romeo", [H.Statement(H.Noun([A.Adjective.Positive], A.Noun.Positive))]))
            == E.Outcome(["Juliet set to 2 by Romeo"], Ok(Stage(E.CharacterState(0, true), E.CharacterState(2, true), ["Romeo", "Juliet"])))
  {
    assert E.Listener(Stage(E.CharacterState(0, true), E.CharacterState(0, true), ["Romeo", "Juliet"]), "Romeo") == Ok(("Romeo", "Juliet"));
    SceneSpeaks();
  }

  /** The source's `Exeunt` after the dialog. */
  lemma SceneLeavesItem()
    ensures E.EvalItem(E.AsWritten, Stage(E.CharacterState(0, true), E.CharacterState(2, true), ["Romeo", "Juliet"]), H.EmptyDatabase(),
                       H.StageDirection([], A.Exeunt))
            == E.Outcome([], Ok(Stage(E.CharacterState(0, false), E.CharacterState(2, false), ["Romeo", "Juliet"])))
  {
    SceneLeaves();
  }

  /** The whole scene prints one line and leaves Juliet with 2; both
      flags end cleared, but the source's `Exeunt` leaves both names
      listed. */
  lemma SceneSetsJuliet()
    ensures E.Evaluate(Scene(), H.EmptyDatabase())
            == E.Outcome(["Juliet set to 2 by Romeo"],
                         Ok(Stage(E.CharacterState(0, false), E.CharacterState(2, false), ["Romeo", "Juliet"])))
  {
    var enter := H.StageDirection(["Romeo", "Juliet"], A.Enter);
    var dialog := H.Dialog("Romeo", [H.Statement(H.Noun([A.Adjective.Positive], A.Noun.Positive))]);
    var exeunt := H.StageDirection([], A.Exeunt);
    SceneRuns();
    SceneDefines([enter] + ([dialog] + [exeunt]),
                 E.Outcome(["Juliet set to 2 by Romeo"],
                           Ok(Stage(E.CharacterState(0, false), E.CharacterState(2, false), ["Romeo", "Juliet"]))));
    FiveItems(H.CharacterDef("Romeo"), H.CharacterDef("Juliet"), enter, dialog, exeunt);
  }

  /** The scene after its two declarations: both enter, Romeo speaks,
      and everyone leaves. */
  lemma SceneRuns()
    ensures E.Run(E.AsWritten, Stage(E.CharacterState(0, false), E.CharacterState(0, false), []), H.EmptyDatabase(),
                  [H.StageDirection(["Romeo", "Juliet"], A.Enter)]
                  + ([H.Dialog("Romeo", [H.Statement(H.Noun([A.Adjective.Positive], A.Noun.Positive))])]
                     + [H.StageDirection([], A.Exeunt)]))
            == E.Outcome(["Juliet set to 2 by Romeo"],
                         Ok(Stage(E.CharacterState(0, false), E.CharacterState(2, false), ["Romeo", "Juliet"])))
  {
    var db := H.EmptyDatabase();
    var s2 := Stage(E.CharacterState(0, false), E.CharacterState(0, false), []);
    var s3 := Stage(E.CharacterState(0, true), E.CharacterState(0, true), ["Romeo", "Juliet"]);
    var s4 := Stage(E.CharacterState(0, true), E.CharacterState(2, true), ["Romeo", "Juliet"]);
    var s5 := Stage(E.CharacterState(0, false), E.CharacterState(2, false), ["Romeo", "Juliet"]);
    var enter := H.StageDirection(["Romeo", "Juliet"], A.Enter);
    var dialog := H.Dialog("Romeo", [H.Statement(H.Noun([A.Adjective.Positive], A.Noun.Positive))]);
    var exeunt := H.StageDirection([], A.Exeunt);
    SceneLeavesItem();
    SceneSpeaksItem();
    SceneEntersItem();
    RunThree(s2, db, enter, dialog, exeunt, [], ["Juliet set to 2 by Romeo"], [], s3, s4, s5);
  }

  /** One item that finishes, run alone. */
  lemma RunOne(ev0: E.Evaluator, db: H.Database, a: H.Item, oa: seq<string>, ev1: E.Evaluator)
    requires H.Wf(db)
    requires E.EvalItem(E.AsWritten, ev0, db, a) == E.Outcome(oa, Ok(ev1))
    ensures E.Run(E.AsWritten, ev0, db, [a]) == E.Outcome(oa, Ok(ev1))
  {
    RunFirst(ev0, db, a, [], oa, ev1, E.Outcome([], Ok(ev1)));
    assert [a] + [] == [a] && oa + [] == oa;
  }

  /** Two items that each finish, run one after the other. */
  lemma RunTwo(ev0: E.Evaluator, db: H.Database, a: H.Item, b: H.Item,
               oa: seq<string>, ob: seq<string>, ev1: E.Evaluator, ev2: E.Evaluator)
    requires H.Wf(db)
    requires E.EvalItem(E.AsWritten, ev0, db, a) == E.Outcome(oa, Ok(ev1))
    requires E.EvalItem(E.AsWritten, ev1, db, b) == E.Outcome(ob, Ok(ev2))
    ensures E.Run(E.AsWritten, ev0, db, [a] + [b]) == E.Outcome(oa + ob, Ok(ev2))
  {
    RunOne(ev1, db, b, ob, ev2);
    RunFirst(ev0, db, a, [b], oa, ev1, E.Outcome(ob, Ok(ev2)));
  }

  /** Three items that each finish, run one after the other. */
  lemma RunThree(ev0: E.Evaluator, db: H.Database, a: H.Item, b: H.Item, c: H.Item,
                 oa: seq<string>, ob: seq<string>, oc: seq<string>, ev1: E.Evaluator, ev2: E.Evaluator, ev3: E.Evaluator)
    requires H.Wf(db)
    requires E.EvalItem(E.AsWritten, ev0, db, a) == E.Outcome(oa, Ok(ev1))
    requires E.EvalItem(E.AsWritten, ev1, db, b) == E.Outcome(ob, Ok(ev2))
    requires E.EvalItem(E.AsWritten, ev2, db, c) == E.Outcome(oc, Ok(ev3))
    ensures E.Run(E.AsWritten, ev0, db, [a] + ([b] + [c])) == E.Outcome(oa + ob + oc, Ok(ev3))
  {
    RunTwo(ev1, db, b, c, ob, oc, ev2, ev3);
    RunFirst(ev0, db, a, [b] + [c], oa, ev1, E.Outcome(ob + oc, Ok(ev3)));
    Assoc(oa, ob, oc);
  }

  lemma Assoc(a: seq<string>, b: seq<string>, c: seq<string>)
    ensures a + (b + c) == a + b + c
  {
  }

  lemma FiveItems(a: H.Item, b: H.Item, c: H.Item, d: H.Item, e: H.Item)
    ensures [a, b, c, d, e] == [a, b] + ([c] + ([d] + [e]))
  {
  }

  /** Romeo and Juliet are declared and enter; everyone leaves; Romeo
      tells Juliet she is a lord. */
  function SpeakAfterExeunt(): seq<H.Item> {
    [ H.CharacterDef("Romeo"),
      H.CharacterDef("Juliet"),
      H.StageDirection(["Romeo", "Juliet"], A.Enter),
      H.StageDirection([], A.Exeunt),
      H.Dialog("Romeo", [H.Statement(H.Noun([], A.Noun.Positive))]) ]
  }

  /** The source's `Exeunt` right after the entrance. */
  lemma LeaveAtOnceItem()
    ensures E.EvalItem(E.AsWritten, Stage(E.CharacterState(0, true), E.CharacterState(0, true), ["Romeo", "Juliet"]), H.EmptyDatabase(),
                       H.StageDirection([], A.Exeunt))
            == E.Outcome([], Ok(Stage(E.CharacterState(0, false), E.CharacterState(0, false), ["Romeo", "Juliet"])))
  {
    var ev := Stage(E.CharacterState(0, true), E.CharacterState(0, true), ["Romeo", "Juliet"]);
    assert E.ExeuntAsWritten(ev) == Stage(E.CharacterState(0, false), E.CharacterState(0, false), ["Romeo", "Juliet"]);
  }

  /** Romeo, off stage by his flag but still listed, tells Juliet she is
      a lord. */
  lemma SpeakOffStageItem()
    ensures E.EvalItem(E.AsWritten, Stage(E.CharacterState(0, false), E.CharacterState(0, false), ["Romeo", "Juliet"]), H.EmptyDatabase(),
                       H.Dialog("Romeo", [H.Statement(H.Noun([], A.Noun.Positive))]))
            == E.Outcome(["Juliet set to 1 by Romeo"], Ok(Stage(E.CharacterState(0, false), E.CharacterState(1, false), ["Romeo", "Juliet"])))
  {
    var db := H.EmptyDatabase();
    var s4 := Stage(E.CharacterState(0, false), E.CharacterState(0, false), ["Romeo", "Juliet"]);
    var s5 := Stage(E.CharacterState(0, false), E.CharacterState(1, false), ["Romeo", "Juliet"]);
    var st := H.Statement(H.Noun([], A.Noun.Positive));
    assert E.Listener(s4, "Romeo") == Ok(("Romeo", "Juliet"));
    assert E.EvalTree(H.Resolve(db, st.expr)) == Ok(1);
    assert NatToString(1) == "1";
    assert E.Line("Juliet", 1, "Romeo") == "Juliet set to 1 by Romeo";
    assert |"Romeo"| != |"Juliet"|;
    assert s4.states["Juliet" := E.CharacterState(1, false)] == s5.states;
    assert E.Statement(s4, db, st, "Romeo", "Juliet") == E.Outcome(["Juliet set to 1 by Romeo"], Ok(s5));
    assert [st][1..] == [];
  }

  /** The dialog after the source's `Exeunt` still finds two names
      listed, so it runs and prints as if nobody had left. */
  lemma ExeuntThenSpeak()
    ensures E.Evaluate(SpeakAfterExeunt(), H.EmptyDatabase())
            == E.Outcome(["Juliet set to 1 by Romeo"],
                         Ok(Stage(E.CharacterState(0, false), E.CharacterState(1, false), ["Romeo", "Juliet"])))
  {
    var db := H.EmptyDatabase();
    var s2 := Stage(E.CharacterState(0, false), E.CharacterState(0, false), []);
    var s3 := Stage(E.CharacterState(0, true), E.CharacterState(0, true), ["Romeo", "Juliet"]);
    var s4 := Stage(E.CharacterState(0, false), E.CharacterState(0, false), ["Romeo", "Juliet"]);
    var s5 := Stage(E.CharacterState(0, false), E.CharacterState(1, false), ["Romeo", "Juliet"]);
    var enter := H.StageDirection(["Romeo", "Juliet"], A.Enter);
    var exeunt := H.StageDirection([], A.Exeunt);
    var dialog := H.Dialog("Romeo", [H.Statement(H.Noun([], A.Noun.Positive))]);
    SpeakOffStageItem();
    LeaveAtOnceItem();
    SceneEntersItem();
    RunThree(s2, db, enter, exeunt, dialog, [], [], ["Juliet set to 1 by Romeo"], s3, s4, s5);
    SceneDefines([enter] + ([exeunt] + [dialog]), E.Outcome(["Juliet set to 1 by Romeo"], Ok(s5)));
    FiveItems(H.CharacterDef("Romeo"), H.CharacterDef("Juliet"), enter, exeunt, dialog);
  }

  // ---------------------------------------------------------------------
  // Exeunt as written leaves the stage full

  const Romeo: string := "Romeo"
  const Juliet: string := "Juliet"
  const Hamlet: string := "Hamlet"

  /** Three declared characters, Romeo and Juliet on stage. */
  function TwoOnStage(): (ev: E.Evaluator)
    ensures E.Consistent(ev) && ev.onStage == [Romeo, Juliet]
  {
    E.Evaluator(map[Romeo := E.CharacterState(0, true), Juliet := E.CharacterState(0, true), Hamlet := E.CharacterState(0, false)],
                [Romeo, Juliet])
  }

  /** After the source's `Exeunt` nobody is on stage by the flags, yet the
      list still holds two names: the state is no longer consistent and
      the next `Enter` panics on the full list. */
  lemma ExeuntAsWrittenBlocksEnter()
    ensures !E.Consistent(E.ExeuntAsWritten(TwoOnStage()))
    ensures E.EnterOne(E.ExeuntAsWritten(TwoOnStage()), Hamlet) == Err(E.StageFull(Hamlet))
  {
    var ev := E.ExeuntAsWritten(TwoOnStage());
    assert Romeo in ev.onStage && !ev.states[Romeo].onStage;
  }

  /** With `Exeunt` emptying the list, the same `Enter` succeeds. */
  lemma ExeuntLetsEnter()
    ensures E.EnterOne(E.Exeunt(TwoOnStage()), Hamlet).Ok?
    ensures E.EnterOne(E.Exeunt(TwoOnStage()), Hamlet).value.onStage == [Hamlet]
  {
  }
}
