/** Token kinds shared by the lexer, the parser and the syntax tree, and the
    whole-word keyword classifier of the lexer (src/lexer.rs). */
module Lexer {

  import opened Wrappers

  /** One closed enumeration of terminal and non-terminal kinds. The
      declaration order is the derived `Ord` used by the sorted "expected"
      sets of parse errors; ‘.’ comes before ‘!’ and ‘!’ before ‘,’. */
  datatype SyntaxKind =
    | Whitespace | Error
    | Be | Article
    | FirstPerson | FirstPersonReflexive | FirstPersonPossessive
    | SecondPerson | SecondPersonReflexive | SecondPersonPossessive
    | ThirdPersonPossessive
    | Character | Nothing
    | PositiveNoun | NegativeNoun | NeutralNoun
    | PositiveAdjective | NegativeAdjective | NeutralAdjective
    | Difference | Product | Quotient | Remainder | Sum
    | Between | Of | And
    | Open | Heart | Speak | Mind
    | Enter | Exit | Exeunt
    | Period | Exclamation | Comma | Question | Colon | LBracket | RBracket
    | Skip
    | Root | CharacterDef | Comment | StageDirection | Dialog | Statement
    | NounExpr | BinExpr | NothingExpr | IntOutput | CharOutput

  /** A lexed token: its kind and the slice of input it covers. */
  datatype Token = Token(kind: SyntaxKind, text: string)

  /** The position of a kind in the declaration order (the derived `Ord`). */
  function Ordinal(k: SyntaxKind): nat {
    match k
    case Whitespace => 0 case Error => 1
    case Be => 2 case Article => 3
    case FirstPerson => 4 case FirstPersonReflexive => 5 case FirstPersonPossessive => 6
    case SecondPerson => 7 case SecondPersonReflexive => 8 case SecondPersonPossessive => 9
    case ThirdPersonPossessive => 10
    case Character => 11 case Nothing => 12
    case PositiveNoun => 13 case NegativeNoun => 14 case NeutralNoun => 15
    case PositiveAdjective => 16 case NegativeAdjective => 17 case NeutralAdjective => 18
    case Difference => 19 case Product => 20 case Quotient => 21 case Remainder => 22 case Sum => 23
    case Between => 24 case Of => 25 case And => 26
    case Open => 27 case Heart => 28 case Speak => 29 case Mind => 30
    case Enter => 31 case Exit => 32 case Exeunt => 33
    case Period => 34 case Exclamation => 35 case Comma => 36 case Question => 37
    case Colon => 38 case LBracket => 39 case RBracket => 40
    case Skip => 41
    case Root => 42 case CharacterDef => 43 case Comment => 44 case StageDirection => 45
    case Dialog => 46 case Statement => 47
    case NounExpr => 48 case BinExpr => 49 case NothingExpr => 50 case IntOutput => 51
    case CharOutput => 52
  }

  /** The number of kinds. */
  const KindCount: nat := 53

  /** The kind at a given ordinal, if there is one. */
  function KindOf(n: nat): Option<SyntaxKind> {
    match n
    case 0 => Some(Whitespace)
    case 1 => Some(Error)
    case 2 => Some(Be)
    case 3 => Some(Article)
    case 4 => Some(FirstPerson)
    case 5 => Some(FirstPersonReflexive)
    case 6 => Some(FirstPersonPossessive)
    case 7 => Some(SecondPerson)
    case 8 => Some(SecondPersonReflexive)
    case 9 => Some(SecondPersonPossessive)
    case 10 => Some(ThirdPersonPossessive)
    case 11 => Some(Character)
    case 12 => Some(Nothing)
    case 13 => Some(PositiveNoun)
    case 14 => Some(NegativeNoun)
    case 15 => Some(NeutralNoun)
    case 16 => Some(PositiveAdjective)
    case 17 => Some(NegativeAdjective)
    case 18 => Some(NeutralAdjective)
    case 19 => Some(Difference)
    case 20 => Some(Product)
    case 21 => Some(Quotient)
    case 22 => Some(Remainder)
    case 23 => Some(Sum)
    case 24 => Some(Between)
    case 25 => Some(Of)
    case 26 => Some(And)
    case 27 => Some(Open)
    case 28 => Some(Heart)
    case 29 => Some(Speak)
    case 30 => Some(Mind)
    case 31 => Some(Enter)
    case 32 => Some(Exit)
    case 33 => Some(Exeunt)
    case 34 => Some(Period)
    case 35 => Some(Exclamation)
    case 36 => Some(Comma)
    case 37 => Some(Question)
    case 38 => Some(Colon)
    case 39 => Some(LBracket)
    case 40 => Some(RBracket)
    case 41 => Some(Skip)
    case 42 => Some(Root)
    case 43 => Some(CharacterDef)
    case 44 => Some(Comment)
    case 45 => Some(StageDirection)
    case 46 => Some(Dialog)
    case 47 => Some(Statement)
    case 48 => Some(NounExpr)
    case 49 => Some(BinExpr)
    case 50 => Some(NothingExpr)
    case 51 => Some(IntOutput)
    case 52 => Some(CharOutput)
    case _ => None
  }

  /** `KindOf` inverts `Ordinal`: every kind sits at its ordinal, below
      `KindCount`, and no other ordinal names it. */
  lemma OrdinalRoundTrip(k: SyntaxKind)
    ensures Ordinal(k) < KindCount
    ensures KindOf(Ordinal(k)) == Some(k)
  {
    match k
    case Whitespace =>
    case Error =>
    case Be =>
    case Article =>
    case FirstPerson =>
    case FirstPersonReflexive =>
    case FirstPersonPossessive =>
    case SecondPerson =>
    case SecondPersonReflexive =>
    case SecondPersonPossessive =>
    case ThirdPersonPossessive =>
    case Character =>
    case Nothing =>
    case PositiveNoun =>
    case NegativeNoun =>
    case NeutralNoun =>
    case PositiveAdjective =>
    case NegativeAdjective =>
    case NeutralAdjective =>
    case Difference =>
    case Product =>
    case Quotient =>
    case Remainder =>
    case Sum =>
    case Between =>
    case Of =>
    case And =>
    case Open =>
    case Heart =>
    case Speak =>
    case Mind =>
    case Enter =>
    case Exit =>
    case Exeunt =>
    case Period =>
    case Exclamation =>
    case Comma =>
    case Question =>
    case Colon =>
    case LBracket =>
    case RBracket =>
    case Skip =>
    case Root =>
    case CharacterDef =>
    case Comment =>
    case StageDirection =>
    case Dialog =>
    case Statement =>
    case NounExpr =>
    case BinExpr =>
    case NothingExpr =>
    case IntOutput =>
    case CharOutput =>
  }

  lemma KindOfOrdinal(n: nat)
    ensures KindOf(n).Some? <==> n < KindCount
    ensures KindOf(n).Some? ==> Ordinal(KindOf(n).value) == n
  {
    KindOfDefined(n);
    if n < KindCount {
      KindOfInverse(n);
    }
  }

  lemma KindOfDefined(n: nat)
    ensures KindOf(n).Some? <==> n < KindCount
  {
  }

  lemma KindOfInverse(n: nat)
    requires n < KindCount
    ensures KindOf(n).Some? && Ordinal(KindOf(n).value) == n
  {
  }

  /** The derived order is antisymmetric: distinct kinds have distinct
      ordinals. */
  lemma OrdinalInjective(a: SyntaxKind, b: SyntaxKind)
    ensures Ordinal(a) == Ordinal(b) ==> a == b
  {
    OrdinalRoundTrip(a);
    OrdinalRoundTrip(b);
  }

  /** ASCII case folding of one character. */
  function ToLower(c: char): char {
    if 'A' <= c <= 'Z' then (c as int + 32) as char else c
  }

  function Lower(w: string): (r: string)
    ensures |r| == |w|
    ensures forall i :: 0 <= i < |w| ==> r[i] == ToLower(w[i])
  {
    if w == [] then [] else [ToLower(w[0])] + Lower(w[1..])
  }

  /** Lower-casing twice changes nothing more. */
  lemma LowerIdempotent(w: string)
    ensures Lower(Lower(w)) == Lower(w)
  {
  }

  /** Classifies one whole word, ignoring letter case; a word in none of the
      keyword lists is an `Error`. */
  function Classify(w: string): SyntaxKind {
    ClassifyLower(Lower(w))
  }

  /** The keyword patterns, matched against an already lower-cased word. */
  function ClassifyLower(w: string): SyntaxKind {
    match w
    case "am" => Be
    case "are" => Be
    case "art" => Be
    case "be" => Be
    case "is" => Be
    case "a" => Article
    case "an" => Article
    case "the" => Article
    case "i" => FirstPerson
    case "me" => FirstPerson
    case "myself" => FirstPersonReflexive
    case "mine" => FirstPersonPossessive
    case "my" => FirstPersonPossessive
    case "thee" => SecondPerson
    case "thou" => SecondPerson
    case "you" => SecondPerson
    case "thyself" => SecondPersonReflexive
    case "yourself" => SecondPersonReflexive
    case "thine" => SecondPersonPossessive
    case "thy" => SecondPersonPossessive
    case "your" => SecondPersonPossessive
    case "his" => ThirdPersonPossessive
    case "her" => ThirdPersonPossessive
    case "its" => ThirdPersonPossessive
    case "their" => ThirdPersonPossessive
    case _ => Error
  }

  /** The lower-case word list of each keyword class, as listed in the
      lexer's patterns; every other kind has none. */
  function WordsOf(k: SyntaxKind): set<string> {
    match k
    case Be => {"am", "are", "art", "be", "is"}
    case Article => {"a", "an", "the"}
    case FirstPerson => {"i", "me"}
    case FirstPersonReflexive => {"myself"}
    case FirstPersonPossessive => {"mine", "my"}
    case SecondPerson => {"thee", "thou", "you"}
    case SecondPersonReflexive => {"thyself", "yourself"}
    case SecondPersonPossessive => {"thine", "thy", "your"}
    case ThirdPersonPossessive => {"his", "her", "its", "their"}
    case _ => {}
  }

  /** A word belongs to at most one class: the word lists are pairwise
      disjoint, so "i" and "is", "my" and "myself" land in different classes. */
  lemma WordListsDisjoint(k1: SyntaxKind, k2: SyntaxKind)
    requires k1 != k2
    ensures WordsOf(k1) !! WordsOf(k2)
  {
    forall s | s in WordsOf(k1)
      ensures s !in WordsOf(k2)
    {
      if k1 != Error && k2 != Error {
        PatternsAreWordLists(s, k1);
        PatternsAreWordLists(s, k2);
      }
    }
  }

  /** Each class accepts exactly its listed words, compared case-insensitively. */
  lemma ClassifyAcceptsExactlyListed(w: string, k: SyntaxKind)
    requires k != Error
    ensures Classify(w) == k <==> Lower(w) in WordsOf(k)
  {
    PatternsAreWordLists(Lower(w), k);
  }

  lemma PatternsAreWordLists(s: string, k: SyntaxKind)
    requires k != Error
    ensures ClassifyLower(s) == k <==> s in WordsOf(k)
  {
  }

  /** A word in no list is an `Error`, and only such a word. */
  lemma ClassifyErrorIffUnlisted(w: string)
    ensures Classify(w) == Error <==> forall k: SyntaxKind :: Lower(w) !in WordsOf(k)
  {
    var s := Lower(w);
    if ClassifyLower(s) != Error {
      PatternsAreWordLists(s, ClassifyLower(s));
    } else {
      forall k: SyntaxKind | k != Error
        ensures s !in WordsOf(k)
      {
        PatternsAreWordLists(s, k);
      }
    }
  }

  /** Classification ignores letter case. */
  lemma ClassifyIgnoresCase(w: string, v: string)
    requires Lower(w) == Lower(v)
    ensures Classify(w) == Classify(v)
    ensures Classify(w) == Classify(Lower(w))
  {
    LowerIdempotent(w);
  }
}
