/** The evaluator (src/eval.rs): a map from character name to state, an
    on-stage list of at most two names, and expression arithmetic on
    `i64`. Every panic of the source is an error result; what `println!`
    writes is collected as an output trace. */
module Eval {

  import opened Wrappers
  import A = Ast
  import H = Hir
  import I = I64
  import D = Decimal

  /** `CharacterState::default()` is value 0, off stage. */
  datatype CharacterState = CharacterState(value: int, onStage: bool)

  /** The capacity of the `ArrayVec` holding the on-stage names. */
  const Capacity: nat := 2

  datatype Evaluator = Evaluator(states: map<string, CharacterState>, onStage: seq<string>)

  function NewEvaluator(): (ev: Evaluator)
    ensures ev.states == map[] && ev.onStage == []
  {
    Evaluator(map[], [])
  }

  /** Why evaluation panicked. */
  datatype EvalError =
    | Undeclared(name: string)          // `get_mut(..).unwrap()` on an unknown name
    | AlreadyOnStage(name: string)      // `assert!(!state.on_stage)`
    | StageFull(name: string)           // `ArrayVec::push` past capacity
    | NotOnStage(name: string)          // `assert!(state.on_stage)`
    | NotListed(name: string)           // `position(..).unwrap()` on exit
    | NotTwoOnStage                     // `assert_eq!(self.on_stage.len(), 2)`
    | SpeakerNotOnStage(name: string)   // `position(..).unwrap()` on the speaker
    | Arith(error: I.ArithError)        // overflow or a zero divisor
    | NoValue                           // `eval_expr` reached a `Nothing` expression
    | BadIndex                          // an arena index past the end (`Index` panics)

  /** What a run printed, and whether it finished or panicked. Lines
      printed before a panic stay printed. */
  datatype Outcome = Outcome(output: seq<string>, result: Result<Evaluator, EvalError>)

  // ---------------------------------------------------------------------
  // Expressions

  function Sign(noun: A.Noun): int {
    if noun == A.Noun.Negative then -1 else 1
  }

  /** A noun is worth its sign times two to the number of adjectives
      (`2_i64.pow(len as u32)`), whatever the adjectives are; the power
      overflows from exponent 63 on. */
  function EvalNoun(adjectives: seq<A.Adjective>, noun: A.Noun): (r: Result<int, EvalError>)
    ensures r.Ok? <==> I.AsU32(|adjectives|) < 63
    ensures r.Err? ==> r.error == Arith(I.Overflow)
    ensures |adjectives| < 63 ==> r == Ok(Sign(noun) * I.Pow2(|adjectives|))
    ensures r.Ok? ==> I.InRange(r.value) && r.value != 0
  {
    match I.CheckedPow2(I.AsU32(|adjectives|))
    case Err(e) => Err(Arith(e))
    case Ok(p) => Ok(Sign(noun) * p)
  }

  /** The arithmetic of one binary operation, with Rust's truncating
      division and remainder, failing on a zero divisor or overflow. */
  function Apply(op: A.Operation, lhs: int, rhs: int): (r: Result<int, EvalError>)
    requires I.InRange(lhs) && I.InRange(rhs)
    ensures r.Ok? ==> I.InRange(r.value)
    ensures op == A.Sum ==> (r.Ok? <==> I.InRange(lhs + rhs)) && (r.Ok? ==> r.value == lhs + rhs)
    ensures op == A.Difference ==> (r.Ok? <==> I.InRange(lhs - rhs)) && (r.Ok? ==> r.value == lhs - rhs)
    ensures op == A.Product ==> (r.Ok? <==> I.InRange(lhs * rhs)) && (r.Ok? ==> r.value == lhs * rhs)
    ensures op in {A.Quotient, A.Remainder} ==>
              (r == Err(Arith(I.DivideByZero)) <==> rhs == 0)
              && (r == Err(Arith(I.Overflow)) <==> lhs == I.MIN && rhs == -1)
    ensures op == A.Quotient && r.Ok? ==> r.value == I.TruncDiv(lhs, rhs)
    ensures op == A.Remainder && r.Ok? ==> r.value == I.TruncRem(lhs, rhs)
  {
    var v := match op
      case Remainder => I.Rem(lhs, rhs)
      case Difference => I.Sub(lhs, rhs)
      case Quotient => I.Div(lhs, rhs)
      case Product => I.Mul(lhs, rhs)
      case Sum => I.Add(lhs, rhs);
    match v
    case Ok(x) => Ok(x)
    case Err(e) => Err(Arith(e))
  }

  /** The value of a nested expression tree: the reference the arena
      evaluation is measured against. Left operand first, then right; a
      tree holding `Nothing` never has a value. */
  function EvalTree(t: H.Tree): (r: Result<int, EvalError>)
    ensures r.Ok? ==> I.InRange(r.value)
    ensures !H.NothingFree(t) ==> r.Err?
  {
    match t
    case TNoun(adjectives, noun) => EvalNoun(adjectives, noun)
    case TBin(op, l, r) =>
      var lv :- EvalTree(l);
      var rv :- EvalTree(r);
      Apply(op, lv, rv)
    case TNothing => Err(NoValue)
  }

  /** `eval_expr` on the arena entry at index `i`: the operands are looked
      up by index (never out of range in a well-formed arena), and the
      result is that of the tree the entry denotes. */
  function EvalAt(db: H.Database, i: nat): (r: Result<int, EvalError>)
    requires H.Wf(db) && i < |db.exprs|
    ensures r == EvalTree(H.ResolveAt(db, i))
    decreases i
  {
    match db.exprs[i]
    case Noun(adjectives, noun) => EvalNoun(adjectives, noun)
    case Bin(op, l, r) =>
      var lv :- EvalAt(db, l);
      var rv :- EvalAt(db, r);
      Apply(op, lv, rv)
    case Nothing => Err(NoValue)
  }

  /** `eval_expr` on an expression outside the arena: the value of the
      tree it denotes when its operands lie in the arena, and a panic on
      the first index past the end otherwise. */
  function EvalExpr(db: H.Database, e: H.Expr): (r: Result<int, EvalError>)
    requires H.Wf(db)
    ensures H.IndicesBelow(e, |db.exprs|) ==> r == EvalTree(H.Resolve(db, e))
    ensures !H.IndicesBelow(e, |db.exprs|) ==> r.Err?
  {
    match e
    case Noun(adjectives, noun) => EvalNoun(adjectives, noun)
    case Bin(op, l, r) =>
      if l >= |db.exprs| then Err(BadIndex)
      else
        var lv :- EvalAt(db, l);
        if r >= |db.exprs| then Err(BadIndex)
        else
          var rv :- EvalAt(db, r);
          Apply(op, lv, rv)
    case Nothing => Err(NoValue)
  }

  // ---------------------------------------------------------------------
  // The on-stage list

  /** `iter().position(|c| c == name)`: the first index holding `name`. */
  function Position(xs: seq<string>, name: string): (r: Option<nat>)
    ensures r.None? <==> name !in xs
    ensures r.Some? ==> r.value < |xs| && xs[r.value] == name && name !in xs[..r.value]
  {
    if xs == [] then None
    else if xs[0] == name then Some(0)
    else
      match Position(xs[1..], name)
      case None => None
      case Some(i) =>
        assert xs[..i + 1] == [xs[0]] + xs[1..][..i];
        Some(i + 1)
  }

  /** The well-formed evaluator: the list holds at most two names, none
      twice, and a name is listed exactly when it is declared and its
      flag says it is on stage. */
  predicate Consistent(ev: Evaluator) {
    && |ev.onStage| <= Capacity
    && (forall i, j :: 0 <= i < j < |ev.onStage| ==> ev.onStage[i] != ev.onStage[j])
    && (forall c :: c in ev.onStage ==> c in ev.states && ev.states[c].onStage)
    && (forall c :: c in ev.states && ev.states[c].onStage ==> c in ev.onStage)
  }

  // ---------------------------------------------------------------------
  // Items

  /** A `CharacterDef` item: the name gets a fresh state, replacing any
      earlier one; nothing else changes. */
  function Define(ev: Evaluator, name: string): (r: Evaluator)
    ensures r.states.Keys == ev.states.Keys + {name}
    ensures r.states[name] == CharacterState(0, false)
    ensures forall c :: c in ev.states && c != name ==> r.states[c] == ev.states[c]
    ensures r.onStage == ev.onStage
  {
    ev.(states := ev.states[name := CharacterState(0, false)])
  }

  /** Every flag cleared, every value kept. */
  function AllOffStage(states: map<string, CharacterState>): (r: map<string, CharacterState>)
    ensures r.Keys == states.Keys
    ensures forall c :: c in r ==> r[c] == CharacterState(states[c].value, false)
  {
    map c | c in states :: states[c].(onStage := false)
  }

  /** `Exeunt` as the source has it (src/eval.rs:23-27): the flags are
      cleared but the on-stage list is left as it was. */
  function ExeuntAsWritten(ev: Evaluator): (r: Evaluator)
    ensures r.states == AllOffStage(ev.states)
    ensures r.onStage == ev.onStage
  {
    ev.(states := AllOffStage(ev.states))
  }

  /** `Exeunt` as intended: everyone leaves, so the list empties too. */
  function Exeunt(ev: Evaluator): (r: Evaluator)
    ensures r.states == AllOffStage(ev.states)
    ensures r.onStage == []
    ensures Consistent(r)
  {
    Evaluator(AllOffStage(ev.states), [])
  }

  /** Which `Exeunt` an evaluator runs: the source's, which only clears
      the flags, or the intended one, which also empties the list. */
  datatype ExeuntRule = AsWritten | Emptying

  function ExeuntBy(rule: ExeuntRule, ev: Evaluator): (r: Evaluator)
    ensures r.states == AllOffStage(ev.states)
    ensures rule == AsWritten ==> r.onStage == ev.onStage
    ensures rule == Emptying ==> r.onStage == []
  {
    match rule
    case AsWritten => ExeuntAsWritten(ev)
    case Emptying => Exeunt(ev)
  }

  /** One name of an `Enter` (src/eval.rs:29-34): it must be declared and
      off stage, and the list must have room. */
  function EnterOne(ev: Evaluator, name: string): (r: Result<Evaluator, EvalError>)
    ensures name !in ev.states ==> r == Err(Undeclared(name))
    ensures name in ev.states && ev.states[name].onStage ==> r == Err(AlreadyOnStage(name))
    ensures name in ev.states && !ev.states[name].onStage && |ev.onStage| >= Capacity ==> r == Err(StageFull(name))
    ensures r.Ok? <==> name in ev.states && !ev.states[name].onStage && |ev.onStage| < Capacity
    ensures r.Ok? ==> r.value.onStage == ev.onStage + [name]
                      && r.value.states == ev.states[name := ev.states[name].(onStage := true)]
  {
    if name !in ev.states then Err(Undeclared(name))
    else if ev.states[name].onStage then Err(AlreadyOnStage(name))
    else if |ev.onStage| >= Capacity then Err(StageFull(name))
    else Ok(Evaluator(ev.states[name := ev.states[name].(onStage := true)], ev.onStage + [name]))
  }

  /** One name of an `Exit` (src/eval.rs:37-43): it must be declared and
      on stage; its flag is cleared and its first list entry removed,
      the others keeping their order. */
  function ExitOne(ev: Evaluator, name: string): (r: Result<Evaluator, EvalError>)
    ensures name !in ev.states ==> r == Err(Undeclared(name))
    ensures name in ev.states && !ev.states[name].onStage ==> r == Err(NotOnStage(name))
    ensures r.Ok? <==> name in ev.states && ev.states[name].onStage && name in ev.onStage
    ensures r.Ok? ==> r.value.states == ev.states[name := ev.states[name].(onStage := false)]
    ensures r.Ok? ==> multiset(r.value.onStage) == multiset(ev.onStage) - multiset{name}
    ensures r.Ok? ==> |r.value.onStage| == |ev.onStage| - 1
  {
    if name !in ev.states then Err(Undeclared(name))
    else if !ev.states[name].onStage then Err(NotOnStage(name))
    else
      match Position(ev.onStage, name)
      case None => Err(NotListed(name))
      case Some(i) =>
        var xs := ev.onStage;
        assert xs == xs[..i] + [name] + xs[i + 1..];
        Ok(Evaluator(ev.states[name := ev.states[name].(onStage := false)], xs[..i] + xs[i + 1..]))
  }

  /** `ev'` declares the names `ev` does, with the same values; each of
      `names` is declared and its flag is `flag`; every other state is
      unchanged. */
  predicate FlagsSet(ev: Evaluator, ev': Evaluator, names: seq<string>, flag: bool) {
    && ev'.states.Keys == ev.states.Keys
    && (forall c :: c in names ==> c in ev.states && ev'.states[c].onStage == flag)
    && (forall c :: c in ev.states && c !in names ==> ev'.states[c] == ev.states[c])
    && (forall c :: c in ev.states ==> ev'.states[c].value == ev.states[c].value)
  }

  /** Setting the flag of the head, then of the tail, sets the flags of
      the whole list. */
  lemma FlagsSetStep(ev: Evaluator, ev1: Evaluator, ev2: Evaluator, names: seq<string>, flag: bool)
    requires names != [] && names[0] in ev.states
    requires ev1.states == ev.states[names[0] := ev.states[names[0]].(onStage := flag)]
    requires FlagsSet(ev1, ev2, names[1..], flag)
    ensures FlagsSet(ev, ev2, names, flag)
  {
    assert forall c :: c in names <==> c == names[0] || c in names[1..];
  }

  /** The names of an `Enter`, one after the other, until one fails. */
  function EnterAll(ev: Evaluator, names: seq<string>): (r: Result<Evaluator, EvalError>)
    ensures r.Ok? ==> r.value.onStage == ev.onStage + names
    ensures r.Ok? && names != [] ==> |r.value.onStage| <= Capacity
    ensures r.Ok? ==> FlagsSet(ev, r.value, names, true)
    decreases |names|
  {
    if names == [] then Ok(ev)
    else
      var ev1 :- EnterOne(ev, names[0]);
      var r := EnterAll(ev1, names[1..]);
      if r.Ok? then
        FlagsSetStep(ev, ev1, r.value, names, true);
        assert ev.onStage + [names[0]] + names[1..] == ev.onStage + names;
        r
      else r
  }

  /** The names of an `Exit`, one after the other, until one fails. */
  function ExitAll(ev: Evaluator, names: seq<string>): (r: Result<Evaluator, EvalError>)
    ensures r.Ok? ==> multiset(r.value.onStage) == multiset(ev.onStage) - multiset(names)
    ensures r.Ok? ==> |r.value.onStage| == |ev.onStage| - |names|
    ensures r.Ok? ==> FlagsSet(ev, r.value, names, false)
    decreases |names|
  {
    if names == [] then Ok(ev)
    else
      var ev1 :- ExitOne(ev, names[0]);
      var r := ExitAll(ev1, names[1..]);
      if r.Ok? then
        FlagsSetStep(ev, ev1, r.value, names, false);
        MinusHead(multiset(ev.onStage), names);
        r
      else r
  }

  /** Removing the head of a list, then its tail, removes the list. */
  lemma MinusHead(m: multiset<string>, names: seq<string>)
    requires names != []
    ensures m - multiset{names[0]} - multiset(names[1..]) == m - multiset(names)
  {
    assert names == [names[0]] + names[1..];
  }

  /** The speaker and the listener of a dialog (src/eval.rs:50-57): the
      list must hold exactly two names, one of them the speaker; the
      listener is the other. */
  function Listener(ev: Evaluator, speaker: string): (r: Result<(string, string), EvalError>)
    ensures r.Ok? <==> |ev.onStage| == 2 && speaker in ev.onStage
    ensures |ev.onStage| != 2 ==> r == Err(NotTwoOnStage)
    ensures |ev.onStage| == 2 && speaker !in ev.onStage ==> r == Err(SpeakerNotOnStage(speaker))
    ensures r.Ok? ==> r.value.0 == speaker
    ensures r.Ok? && ev.onStage[0] == speaker ==> r.value.1 == ev.onStage[1]
    ensures r.Ok? && ev.onStage[0] != speaker ==> r.value.1 == ev.onStage[0]
  {
    if |ev.onStage| != 2 then Err(NotTwoOnStage)
    else
      match Position(ev.onStage, speaker)
      case None => Err(SpeakerNotOnStage(speaker))
      case Some(i) =>
        if i == 0 then Ok((ev.onStage[0], ev.onStage[1]))
        else Ok((ev.onStage[1], ev.onStage[0]))
  }

  /** The line `println!` writes for a statement. */
  function Line(listener: string, value: int, speaker: string): string {
    listener + " set to " + D.IntToString(value) + " by " + speaker
  }

  /** Whether expression `e` has a value: its operands lie in the arena
      and evaluating the tree it denotes does not panic. */
  ghost predicate HasValue(db: H.Database, e: H.Expr)
    requires H.Wf(db)
  {
    H.IndicesBelow(e, |db.exprs|) && EvalTree(H.Resolve(db, e)).Ok?
  }

  /** The value of an expression that has one. */
  ghost function ValueOf(db: H.Database, e: H.Expr): int
    requires H.Wf(db) && HasValue(db, e)
  {
    EvalTree(H.Resolve(db, e)).value
  }

  /** One statement (src/eval.rs:61-67): the value is computed first,
      then stored as the listener's, and a line is printed; nothing but
      the listener's value changes. */
  function Statement(ev: Evaluator, db: H.Database, s: H.Sentence, speaker: string, listener: string): (r: Outcome)
    requires H.Wf(db)
    ensures r.result.Ok? <==> HasValue(db, s.expr) && listener in ev.states
    ensures r.result.Ok? ==>
              && r.output == [Line(listener, ValueOf(db, s.expr), speaker)]
              && r.result.value == ev.(states := ev.states[listener := ev.states[listener].(value := ValueOf(db, s.expr))])
    ensures r.result.Err? ==> r.output == []
  {
    match EvalExpr(db, s.expr)
    case Err(e) => Outcome([], Err(e))
    case Ok(v) =>
      if listener !in ev.states then Outcome([], Err(Undeclared(listener)))
      else
        var ev' := ev.(states := ev.states[listener := ev.states[listener].(value := v)]);
        Outcome([Line(listener, v, speaker)], Ok(ev'))
  }

  /** The lines a dialog prints: one per statement, in order, each naming
      the listener, the statement's value and the speaker. */
  ghost predicate Printed(db: H.Database, ss: seq<H.Sentence>, out: seq<string>, speaker: string, listener: string)
    requires H.Wf(db)
  {
    && |out| <= |ss|
    && forall i :: 0 <= i < |out| ==>
         HasValue(db, ss[i].expr) && out[i] == Line(listener, ValueOf(db, ss[i].expr), speaker)
  }

  /** The statements of a dialog, in order; a failing one stops the run
      after the lines already printed. The names on stage never change. */
  function Statements(ev: Evaluator, db: H.Database, ss: seq<H.Sentence>, speaker: string, listener: string): (r: Outcome)
    requires H.Wf(db)
    ensures |r.output| <= |ss|
    ensures r.result.Ok? ==> |r.output| == |ss|
    ensures r.result.Ok? ==> OnlyValueOf(ev, r.result.value, listener)
    decreases |ss|
  {
    if ss == [] then Outcome([], Ok(ev))
    else
      var o := Statement(ev, db, ss[0], speaker, listener);
      match o.result
      case Err(_) => o
      case Ok(ev1) =>
        var rest := Statements(ev1, db, ss[1..], speaker, listener);
        Outcome(o.output + rest.output, rest.result)
  }

  /** What the statements of a dialog print and leave: every statement
      that ran printed its line; after all of them the listener holds the
      value of the last; the statement that failed had no value, or the
      listener is undeclared. */
  lemma StatementsPrint(ev: Evaluator, db: H.Database, ss: seq<H.Sentence>, speaker: string, listener: string)
    requires H.Wf(db)
    ensures var r := Statements(ev, db, ss, speaker, listener);
            && Printed(db, ss, r.output, speaker, listener)
            && (r.result.Err? ==> |r.output| < |ss| && !(HasValue(db, ss[|r.output|].expr) && listener in ev.states))
  {
    StatementsPrinted(ev, db, ss, speaker, listener);
    StatementsStop(ev, db, ss, speaker, listener);
  }

  /** Every statement that ran printed its line. */
  lemma {:induction false} StatementsPrinted(ev: Evaluator, db: H.Database, ss: seq<H.Sentence>, speaker: string, listener: string)
    requires H.Wf(db)
    ensures Printed(db, ss, Statements(ev, db, ss, speaker, listener).output, speaker, listener)
    decreases |ss|
  {
    if ss != [] {
      var o := Statement(ev, db, ss[0], speaker, listener);
      if o.result.Ok? {
        var ev1 := o.result.value;
        StatementsPrinted(ev1, db, ss[1..], speaker, listener);
        PrintedCons(db, ss, o.output, Statements(ev1, db, ss[1..], speaker, listener).output, speaker, listener);
      }
    }
  }

  /** Statement `k` is where a dialog stops: it has no value, or the
      listener is undeclared. */
  ghost predicate StopsAt(db: H.Database, ss: seq<H.Sentence>, k: nat, ev: Evaluator, listener: string)
    requires H.Wf(db)
  {
    k < |ss| && !(HasValue(db, ss[k].expr) && listener in ev.states)
  }

  /** A failing run stopped at the statement after the last line printed. */
  lemma {:induction false} StatementsStop(ev: Evaluator, db: H.Database, ss: seq<H.Sentence>, speaker: string, listener: string)
    requires H.Wf(db)
    ensures var r := Statements(ev, db, ss, speaker, listener);
            r.result.Err? ==> StopsAt(db, ss, |r.output|, ev, listener)
    decreases |ss|
  {
    if ss != [] {
      var o := Statement(ev, db, ss[0], speaker, listener);
      if o.result.Ok? {
        var ev1 := o.result.value;
        var rest := Statements(ev1, db, ss[1..], speaker, listener);
        assert Statements(ev, db, ss, speaker, listener) == Outcome(o.output + rest.output, rest.result);
        StatementsStop(ev1, db, ss[1..], speaker, listener);
        assert listener in ev1.states && |o.output| == 1;
        if rest.result.Err? {
          assert ss[1..][|rest.output|] == ss[|rest.output| + 1];
        }
      }
    }
  }

  /** After a dialog's statements have all run, the listener holds the
      value of the last one. */
  lemma {:induction false} StatementsLast(ev: Evaluator, db: H.Database, ss: seq<H.Sentence>, speaker: string, listener: string)
    requires H.Wf(db) && ss != []
    requires Statements(ev, db, ss, speaker, listener).result.Ok?
    ensures listener in ev.states && HasValue(db, ss[|ss| - 1].expr)
    ensures Statements(ev, db, ss, speaker, listener).result.value.states[listener].value == ValueOf(db, ss[|ss| - 1].expr)
    decreases |ss|
  {
    var ev1 := Statement(ev, db, ss[0], speaker, listener).result.value;
    if |ss| > 1 {
      StatementsLast(ev1, db, ss[1..], speaker, listener);
      assert ss[1..][|ss| - 2] == ss[|ss| - 1];
    }
  }

  /** The line of the first statement, then the lines of the rest. */
  lemma PrintedCons(db: H.Database, ss: seq<H.Sentence>, first: seq<string>, rest: seq<string>, speaker: string, listener: string)
    requires H.Wf(db) && ss != []
    requires HasValue(db, ss[0].expr) && first == [Line(listener, ValueOf(db, ss[0].expr), speaker)]
    requires Printed(db, ss[1..], rest, speaker, listener)
    ensures Printed(db, ss, first + rest, speaker, listener)
  {
    forall i | 0 <= i < |first + rest|
      ensures HasValue(db, ss[i].expr) && (first + rest)[i] == Line(listener, ValueOf(db, ss[i].expr), speaker)
    {
      if i > 0 {
        assert ss[1..][i - 1] == ss[i];
      }
    }
  }

  /** `ev'` differs from `ev` at most in the value of `listener`: the same
      names are declared, with the same flags, and the same are listed. */
  predicate OnlyValueOf(ev: Evaluator, ev': Evaluator, listener: string) {
    && ev'.onStage == ev.onStage
    && ev'.states.Keys == ev.states.Keys
    && (forall c :: c in ev.states ==> ev'.states[c].onStage == ev.states[c].onStage)
    && (forall c :: c in ev.states && c != listener ==> ev'.states[c] == ev.states[c])
  }

  /** One item of `Evaluator::eval` (src/eval.rs:13-72), under `rule`.
      A definition resets the name's state; `Exeunt` clears every flag
      and, under `Emptying` only, the list; `Enter` lists the names after
      those already there and sets their flags; `Exit` removes them and
      clears their flags. A dialog needs two on stage, the speaker among
      them, and prints one line per statement, to the other one; no other
      item prints. */
  function EvalItem(rule: ExeuntRule, ev: Evaluator, db: H.Database, item: H.Item): (r: Outcome)
    requires H.Wf(db)
    ensures !item.Dialog? ==> r.output == []
    ensures item.CharacterDef? ==> r.result == Ok(Define(ev, item.character))
    ensures item.StageDirection? && item.direction == A.Exeunt ==>
              && r.result.Ok?
              && r.result.value.states == AllOffStage(ev.states)
              && r.result.value.onStage == (if rule == AsWritten then ev.onStage else [])
    ensures item.StageDirection? && item.direction == A.Enter && r.result.Ok? ==>
              && r.result.value.onStage == ev.onStage + item.characters
              && FlagsSet(ev, r.result.value, item.characters, true)
    ensures item.StageDirection? && item.direction == A.Exit && r.result.Ok? ==>
              && multiset(r.result.value.onStage) == multiset(ev.onStage) - multiset(item.characters)
              && FlagsSet(ev, r.result.value, item.characters, false)
    ensures item.Dialog? && Listener(ev, item.character).Err? ==>
              r == Outcome([], Err(Listener(ev, item.character).error))
    ensures item.Dialog? && Listener(ev, item.character).Ok? ==>
              var listener := Listener(ev, item.character).value.1;
              && Printed(db, item.sentences, r.output, item.character, listener)
              && (r.result.Ok? ==> |r.output| == |item.sentences| && OnlyValueOf(ev, r.result.value, listener))
  {
    match item
    case CharacterDef(c) => Outcome([], Ok(Define(ev, c)))
    case StageDirection(names, direction) =>
      (match direction
       case Exeunt => Outcome([], Ok(ExeuntBy(rule, ev)))
       case Enter => Outcome([], EnterAll(ev, names))
       case Exit => Outcome([], ExitAll(ev, names)))
    case Dialog(c, ss) =>
      match Listener(ev, c)
      case Err(e) => Outcome([], Err(e))
      case Ok((speaker, listener)) =>
        StatementsPrint(ev, db, ss, speaker, listener);
        Statements(ev, db, ss, speaker, listener)
  }

  /** `Evaluator::eval` from a given state: the items in order, the output
      of each after that of the one before, stopping at the first panic.
      Only dialogs print. */
  function Run(rule: ExeuntRule, ev: Evaluator, db: H.Database, items: seq<H.Item>): (r: Outcome)
    requires H.Wf(db)
    ensures items == [] ==> r == Outcome([], Ok(ev))
    decreases |items|
  {
    if items == [] then Outcome([], Ok(ev))
    else
      var o := EvalItem(rule, ev, db, items[0]);
      match o.result
      case Err(_) => o
      case Ok(ev1) =>
        var rest := Run(rule, ev1, db, items[1..]);
        Outcome(o.output + rest.output, rest.result)
  }

  /** Only dialogs print: a run without one prints nothing. */
  lemma {:induction false} SilentWithoutDialogs(rule: ExeuntRule, ev: Evaluator, db: H.Database, items: seq<H.Item>)
    requires H.Wf(db)
    requires forall i :: 0 <= i < |items| ==> !items[i].Dialog?
    ensures Run(rule, ev, db, items).output == []
    decreases |items|
  {
    if items != [] {
      var o := EvalItem(rule, ev, db, items[0]);
      if o.result.Ok? {
        assert forall i :: 0 <= i < |items| - 1 ==> items[1..][i] == items[i + 1];
        SilentWithoutDialogs(rule, o.result.value, db, items[1..]);
      }
    }
  }

  /** `eval` on a fresh evaluator, with the source's `Exeunt`. Nothing is
      on stage at first, so a leading dialog panics on the stage count
      and a leading `Enter` or `Exit` on its first, undeclared, name.
      Whenever the run finishes, its state is covered. */
  function Evaluate(items: seq<H.Item>, db: H.Database): (r: Outcome)
    requires H.Wf(db)
    ensures items == [] ==> r == Outcome([], Ok(NewEvaluator()))
    ensures items != [] && items[0].Dialog? ==> r == Outcome([], Err(NotTwoOnStage))
    ensures items != [] && items[0].StageDirection? && items[0].direction != A.Exeunt && items[0].characters != [] ==>
              r == Outcome([], Err(Undeclared(items[0].characters[0])))
    ensures r.result.Ok? ==> Covered(r.result.value)
  {
    RunKeepsCovered(AsWritten, NewEvaluator(), db, items);
    Run(AsWritten, NewEvaluator(), db, items)
  }

  // ---------------------------------------------------------------------
  // The stage stays consistent

  lemma DefineKeepsConsistent(ev: Evaluator, name: string)
    requires Consistent(ev) && name !in ev.onStage
    ensures Consistent(Define(ev, name))
  {
  }

  lemma EnterOneKeepsConsistent(ev: Evaluator, name: string)
    requires Consistent(ev) && EnterOne(ev, name).Ok?
    ensures Consistent(EnterOne(ev, name).value)
  {
    assert name !in ev.onStage;
    var r := EnterOne(ev, name).value;
    forall i, j | 0 <= i < j < |r.onStage|
      ensures r.onStage[i] != r.onStage[j]
    {
      if j == |ev.onStage| {
        assert r.onStage[i] in ev.onStage;
      }
    }
  }

  lemma ExitOneKeepsConsistent(ev: Evaluator, name: string)
    requires Consistent(ev) && ExitOne(ev, name).Ok?
    ensures Consistent(ExitOne(ev, name).value)
  {
    var r := ExitOne(ev, name).value;
    assert |r.onStage| <= 1;
    forall c | c in r.onStage
      ensures c != name && c in ev.onStage
    {
      assert c in multiset(r.onStage);
      assert multiset(r.onStage)[c] <= multiset(ev.onStage)[c] - (if c == name then 1 else 0);
      assert multiset(ev.onStage)[c] <= 1 by {
        DistinctCount(ev.onStage, c);
      }
    }
    forall c | c in r.states && r.states[c].onStage
      ensures c in r.onStage
    {
      assert c in ev.onStage && c != name;
      assert c in multiset(ev.onStage);
    }
  }

  /** A name occurs at most once in a list of at most two distinct names. */
  lemma DistinctCount(xs: seq<string>, c: string)
    requires |xs| <= 2 && forall i, j :: 0 <= i < j < |xs| ==> xs[i] != xs[j]
    ensures multiset(xs)[c] <= 1
  {
    if |xs| == 2 {
      assert xs == [xs[0]] + [xs[1]];
    } else if |xs| == 1 {
      assert xs == [xs[0]];
    }
  }

  /** In a covered evaluator a name whose flag is set is listed, so the
      `unwrap` of its position on exit never panics. */
  lemma ExitNeverUnlisted(ev: Evaluator, name: string)
    requires Covered(ev)
    ensures ExitOne(ev, name) != Err(NotListed(name))
  {
  }

  lemma {:induction false} EnterAllKeepsConsistent(ev: Evaluator, names: seq<string>)
    requires Consistent(ev) && EnterAll(ev, names).Ok?
    ensures Consistent(EnterAll(ev, names).value)
    decreases |names|
  {
    if names != [] {
      EnterOneKeepsConsistent(ev, names[0]);
      EnterAllKeepsConsistent(EnterOne(ev, names[0]).value, names[1..]);
    }
  }

  lemma {:induction false} ExitAllKeepsConsistent(ev: Evaluator, names: seq<string>)
    requires Consistent(ev) && ExitAll(ev, names).Ok?
    ensures Consistent(ExitAll(ev, names).value)
    decreases |names|
  {
    if names != [] {
      ExitOneKeepsConsistent(ev, names[0]);
      ExitAllKeepsConsistent(ExitOne(ev, names[0]).value, names[1..]);
    }
  }

  /** In a consistent evaluator the listener is never the speaker. */
  lemma ListenerIsOther(ev: Evaluator, speaker: string)
    requires Consistent(ev) && Listener(ev, speaker).Ok?
    ensures Listener(ev, speaker).value.1 != speaker
    ensures Listener(ev, speaker).value.1 in ev.onStage
  {
  }

  /** Every item but the redefinition of a character on stage keeps the
      evaluator consistent, except the source's `Exeunt`, which leaves
      listed names with their flags cleared. */
  lemma EvalItemKeepsConsistent(rule: ExeuntRule, ev: Evaluator, db: H.Database, item: H.Item)
    requires H.Wf(db) && Consistent(ev)
    requires item.CharacterDef? ==> item.character !in ev.onStage
    requires rule == AsWritten ==> !(item.StageDirection? && item.direction == A.Exeunt)
    requires EvalItem(rule, ev, db, item).result.Ok?
    ensures Consistent(EvalItem(rule, ev, db, item).result.value)
  {
    match item
    case CharacterDef(c) => DefineKeepsConsistent(ev, c);
    case StageDirection(names, direction) =>
      if direction == A.Enter {
        EnterAllKeepsConsistent(ev, names);
      } else if direction == A.Exit {
        ExitAllKeepsConsistent(ev, names);
      }
    case Dialog(c, ss) =>
  }

  // ---------------------------------------------------------------------
  // What the source's evaluator keeps

  /** What every state of the source's evaluator satisfies: at most two
      names listed, each of them declared, and every name whose flag is
      set listed. After its `Exeunt` the list may hold a name whose flag
      is clear, and a later `Enter` of that name lists it twice. */
  predicate Covered(ev: Evaluator) {
    && |ev.onStage| <= Capacity
    && (forall c :: c in ev.onStage ==> c in ev.states)
    && (forall c :: c in ev.states && ev.states[c].onStage ==> c in ev.onStage)
  }

  lemma ConsistentIsCovered(ev: Evaluator)
    requires Consistent(ev)
    ensures Covered(ev)
  {
  }

  lemma ExitOneKeepsCovered(ev: Evaluator, name: string)
    requires Covered(ev) && ExitOne(ev, name).Ok?
    ensures Covered(ExitOne(ev, name).value)
  {
    var r := ExitOne(ev, name).value;
    forall c | c in r.onStage
      ensures c in ev.onStage
    {
      assert c in multiset(r.onStage);
    }
    forall c | c in r.states && r.states[c].onStage
      ensures c in r.onStage
    {
      assert c != name && c in multiset(ev.onStage);
      assert c in multiset(r.onStage);
    }
  }

  lemma {:induction false} EnterAllKeepsCovered(ev: Evaluator, names: seq<string>)
    requires Covered(ev) && EnterAll(ev, names).Ok?
    ensures Covered(EnterAll(ev, names).value)
    decreases |names|
  {
    if names != [] {
      EnterAllKeepsCovered(EnterOne(ev, names[0]).value, names[1..]);
    }
  }

  lemma {:induction false} ExitAllKeepsCovered(ev: Evaluator, names: seq<string>)
    requires Covered(ev) && ExitAll(ev, names).Ok?
    ensures Covered(ExitAll(ev, names).value)
    decreases |names|
  {
    if names != [] {
      ExitOneKeepsCovered(ev, names[0]);
      ExitAllKeepsCovered(ExitOne(ev, names[0]).value, names[1..]);
    }
  }

  /** Every item keeps the evaluator covered, under either `Exeunt`. */
  lemma EvalItemKeepsCovered(rule: ExeuntRule, ev: Evaluator, db: H.Database, item: H.Item)
    requires H.Wf(db) && Covered(ev)
    requires EvalItem(rule, ev, db, item).result.Ok?
    ensures Covered(EvalItem(rule, ev, db, item).result.value)
  {
    match item
    case CharacterDef(c) =>
    case StageDirection(names, direction) =>
      if direction == A.Enter {
        EnterAllKeepsCovered(ev, names);
      } else if direction == A.Exit {
        ExitAllKeepsCovered(ev, names);
      }
    case Dialog(c, ss) =>
  }

  /** A whole run keeps the evaluator covered. */
  lemma {:induction false} RunKeepsCovered(rule: ExeuntRule, ev: Evaluator, db: H.Database, items: seq<H.Item>)
    requires H.Wf(db) && Covered(ev)
    ensures Run(rule, ev, db, items).result.Ok? ==> Covered(Run(rule, ev, db, items).result.value)
    decreases |items|
  {
    if items != [] {
      var o := EvalItem(rule, ev, db, items[0]);
      if o.result.Ok? {
        EvalItemKeepsCovered(rule, ev, db, items[0]);
        RunKeepsCovered(rule, o.result.value, db, items[1..]);
      }
    }
  }

  // ---------------------------------------------------------------------
  // Runs compose

  /** What running `ys` adds after an outcome: nothing after a panic,
      otherwise the output of `ys` from the state reached, after the
      output so far. */
  function Then(rule: ExeuntRule, o: Outcome, db: H.Database, ys: seq<H.Item>): (r: Outcome)
    requires H.Wf(db)
    ensures o.result.Err? ==> r == o
    ensures o.result.Ok? ==> |o.output| <= |r.output| && r.output[..|o.output|] == o.output
  {
    match o.result
    case Err(_) => o
    case Ok(ev) =>
      var second := Run(rule, ev, db, ys);
      Outcome(o.output + second.output, second.result)
  }

  /** Running two item lists one after the other is running their
      concatenation: the output of the first, then that of the second,
      and a panic in the first stops everything. */
  lemma {:induction false} RunAppend(rule: ExeuntRule, ev: Evaluator, db: H.Database, xs: seq<H.Item>, ys: seq<H.Item>)
    requires H.Wf(db)
    ensures Run(rule, ev, db, xs + ys) == Then(rule, Run(rule, ev, db, xs), db, ys)
    decreases |xs|
  {
    if xs == [] {
      assert xs + ys == ys;
    } else {
      var zs := xs + ys;
      assert zs[0] == xs[0] && zs[1..] == xs[1..] + ys;
      var o := EvalItem(rule, ev, db, xs[0]);
      RunCons(rule, ev, db, zs);
      RunCons(rule, ev, db, xs);
      if o.result.Ok? {
        RunAppend(rule, o.result.value, db, xs[1..], ys);
      }
      ThenAssoc(rule, o, db, xs[1..], ys);
    }
  }

  /** Running `xs` then `ys` after an outcome is running `xs + ys` after
      it, once that holds from the state the outcome reached. */
  lemma ThenAssoc(rule: ExeuntRule, o: Outcome, db: H.Database, xs: seq<H.Item>, ys: seq<H.Item>)
    requires H.Wf(db)
    requires o.result.Ok? ==>
               Run(rule, o.result.value, db, xs + ys) == Then(rule, Run(rule, o.result.value, db, xs), db, ys)
    ensures Then(rule, o, db, xs + ys) == Then(rule, Then(rule, o, db, xs), db, ys)
  {
    if o.result.Ok? {
      ThenAssocFrom(rule, o.output, o.result.value, db, xs, ys);
    }
  }

  /** `ThenAssoc` after output `out` and state `ev`. */
  lemma ThenAssocFrom(rule: ExeuntRule, out: seq<string>, ev: Evaluator, db: H.Database, xs: seq<H.Item>, ys: seq<H.Item>)
    requires H.Wf(db)
    requires Run(rule, ev, db, xs + ys) == Then(rule, Run(rule, ev, db, xs), db, ys)
    ensures Then(rule, Outcome(out, Ok(ev)), db, xs + ys) == Then(rule, Then(rule, Outcome(out, Ok(ev)), db, xs), db, ys)
  {
    var first := Run(rule, ev, db, xs);
    if first.result.Ok? {
      var second := Run(rule, first.result.value, db, ys);
      assert out + (first.output + second.output) == (out + first.output) + second.output;
    }
  }

  /** One step of `Run`: the first item, then the rest from where it left
      off. */
  lemma RunCons(rule: ExeuntRule, ev: Evaluator, db: H.Database, items: seq<H.Item>)
    requires H.Wf(db) && items != []
    ensures Run(rule, ev, db, items) == Then(rule, EvalItem(rule, ev, db, items[0]), db, items[1..])
  {
  }

}
