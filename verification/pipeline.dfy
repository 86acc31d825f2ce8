/** The composition in src/parser.rs: parse the tokens into an event log,
    then hand the log to the sink. Scanning the input text into tokens is
    not modelled; the tokens are given. */
module Pipeline {

  import opened Wrappers
  import opened Lexer
  import S = Source
  import opened Events
  import Parser
  import Grammar
  import opened Syntax
  import Sink

  /** Where the pipeline stopped: a parser panic or a builder panic. */
  datatype Failure = ParsePanic(panic: Parser.Panic) | BuildPanic(error: BuildError)

  /** `parse`: whenever the grammar accepts the tokens, the sink builds one
      Root node, and its leaves are the significant tokens' texts, in order
      and each exactly once; the builder never panics on a parser log. */
  function ParseTree(tokens: seq<Token>): (r: Result<Node, Failure>)
    ensures r.Ok? <==> Grammar.Parse(tokens).Ok?
    ensures r.Err? ==> r.error == ParsePanic(Grammar.Parse(tokens).error)
    ensures r.Ok? ==> r.value.kind == Root
    ensures r.Ok? ==> Leaves(r.value.children) == S.Texts(S.Significant(tokens))
  {
    match Grammar.Parse(tokens)
    case Err(panic) => Err(ParsePanic(panic))
    case Ok(evs) =>
      Sink.RootLogReplays(evs);
      match Sink.Finish(evs)
      case Err(e) => assert false; Err(BuildPanic(e))
      case Ok(node) => Ok(node)
  }

  /** Input with no significant token parses to a Root node with no
      children. */
  lemma EmptyInputIsBareRoot(tokens: seq<Token>)
    requires S.Significant(tokens) == []
    ensures ParseTree(tokens) == Ok(Node(Root, []))
  {
    Grammar.ParseNothing(tokens);
    Sink.BareRoot();
  }
}
