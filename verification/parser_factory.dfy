/** `ParserFactory`: choosing the AST factory for a mode, and building parsers,
    scanners and preprocessors with a missing mode or callback replaced by its
    default. The Scanner, Preprocessor, Parser, the AST factories and the null
    requestor are not part of this model; they appear as tags and records of
    the arguments they are built from. */
module ParserFactory {
  import opened Wrappers
  import opened ParserModes

  datatype AstFactory = QuickParseAstFactory | FullParseAstFactory

  /** A parser callback: the do-nothing requestor or one supplied by a client. */
  datatype Callback = NullSourceElementRequestor | ClientCallback(id: nat)

  datatype LexerKind = ScannerKind | PreprocessorKind

  /** A scanner or preprocessor. `mode` and `includePath` are `None` while they
      hold the lexer's own initial settings, which are outside this model. */
  datatype Lexer = Lexer(
    kind: LexerKind,
    input: string,
    fileName: string,
    definitions: map<string, string>,
    mode: Option<ParserMode>,
    includePath: Option<seq<string>>)

  datatype Parser = Parser(scanner: Lexer, callback: Callback, mode: ParserMode)

  /** `createASTFactory`: the quick factory for QUICK_PARSE, the full one for
      every other mode and for a null mode. */
  function CreateAstFactory(mode: Option<ParserMode>): (f: AstFactory)
    ensures f == QuickParseAstFactory <==> mode == Some(QuickParse)
    ensures f == FullParseAstFactory <==> mode != Some(QuickParse)
  {
    if mode == Some(QuickParse) then QuickParseAstFactory else FullParseAstFactory
  }

  /** A null mode means COMPLETE_PARSE. */
  function DefaultMode(mode: Option<ParserMode>): (m: ParserMode)
    ensures mode.Some? ==> m == mode.value
    ensures mode.None? ==> m == CompleteParse
  {
    if mode.None? then CompleteParse else mode.value
  }

  /** A null callback means a fresh null requestor. */
  function DefaultCallback(callback: Option<Callback>): (c: Callback)
    ensures callback.Some? ==> c == callback.value
    ensures callback.None? ==> c == NullSourceElementRequestor
  {
    if callback.None? then NullSourceElementRequestor else callback.value
  }

  /** `new Scanner(...)` or `new Preprocessor(...)` before any setting. */
  function NewLexer(kind: LexerKind, input: string, fileName: string, definitions: map<string, string>): Lexer
  {
    Lexer(kind, input, fileName, definitions, None, None)
  }

  function SetMode(l: Lexer, mode: ParserMode): (r: Lexer)
    ensures r.mode == Some(mode)
    ensures r == l.(mode := r.mode)
  {
    l.(mode := Some(mode))
  }

  function OverwriteIncludePath(l: Lexer, inclusions: seq<string>): (r: Lexer)
    ensures r.includePath == Some(inclusions)
    ensures r == l.(includePath := r.includePath)
  {
    l.(includePath := Some(inclusions))
  }

  /** `createParser`. */
  function CreateParser(scanner: Lexer, callback: Option<Callback>, mode: Option<ParserMode>): (p: Parser)
    ensures p.scanner == scanner
    ensures p.mode == (if mode.Some? then mode.value else CompleteParse)
    ensures p.callback == (if callback.Some? then callback.value else NullSourceElementRequestor)
  {
    Parser(scanner, DefaultCallback(callback), DefaultMode(mode))
  }

  function CreateLexer(kind: LexerKind, input: string, fileName: string, definitions: map<string, string>,
                       inclusions: seq<string>, mode: Option<ParserMode>): Lexer
  {
    var l := NewLexer(kind, input, fileName, definitions);
    OverwriteIncludePath(SetMode(l, DefaultMode(mode)), inclusions)
  }

  /** `createScanner`: the defaulted mode is set and the include path is replaced. */
  function CreateScanner(input: string, fileName: string, definitions: map<string, string>,
                         inclusions: seq<string>, mode: Option<ParserMode>): (s: Lexer)
    ensures s.kind == ScannerKind
    ensures s.input == input && s.fileName == fileName && s.definitions == definitions
    ensures s.mode == Some(if mode.Some? then mode.value else CompleteParse)
    ensures s.includePath == Some(inclusions)
  {
    CreateLexer(ScannerKind, input, fileName, definitions, inclusions, mode)
  }

  /** `createPreprocesor`: the same settings on a preprocessor. */
  function CreatePreprocessor(input: string, fileName: string, definitions: map<string, string>,
                              inclusions: seq<string>, mode: Option<ParserMode>): (s: Lexer)
    ensures s.kind == PreprocessorKind
    ensures s.input == input && s.fileName == fileName && s.definitions == definitions
    ensures s.mode == Some(if mode.Some? then mode.value else CompleteParse)
    ensures s.includePath == Some(inclusions)
  {
    CreateLexer(PreprocessorKind, input, fileName, definitions, inclusions, mode)
  }

  /** Defaulting a mode twice changes nothing. */
  lemma DefaultModeIdempotent(mode: Option<ParserMode>)
    ensures DefaultMode(Some(DefaultMode(mode))) == DefaultMode(mode)
  {
  }

  /** The factory for a mode is the factory for its default, and it is the
      quick one exactly when the defaulted mode does not follow inclusions. */
  lemma FactoryAgreesWithPolicy(mode: Option<ParserMode>)
    ensures CreateAstFactory(mode) == CreateAstFactory(Some(DefaultMode(mode)))
    ensures CreateAstFactory(mode) == QuickParseAstFactory <==> !FollowsInclusions(DefaultMode(mode))
  {
  }

  /** A scanner and a preprocessor built from the same arguments differ only in kind. */
  lemma ScannerAndPreprocessorAgree(input: string, fileName: string, definitions: map<string, string>,
                                    inclusions: seq<string>, mode: Option<ParserMode>)
    ensures var s := CreateScanner(input, fileName, definitions, inclusions, mode);
            var p := CreatePreprocessor(input, fileName, definitions, inclusions, mode);
            s.mode == p.mode && s.includePath == p.includePath && s == p.(kind := ScannerKind)
  {
  }

  /** A parser and the scanner it reads from, built from the same mode, agree on it. */
  lemma ParserAndScannerAgree(input: string, fileName: string, definitions: map<string, string>,
                              inclusions: seq<string>, callback: Option<Callback>, mode: Option<ParserMode>)
    ensures var s := CreateScanner(input, fileName, definitions, inclusions, mode);
            s.mode == Some(CreateParser(s, callback, mode).mode)
  {
  }
}
