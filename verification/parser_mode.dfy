/** `ParserMode`: how much work one parse does. There are exactly three modes,
    fixed once and compared by identity; each says whether included files are
    followed and whether function and method bodies are parsed. */
module ParserModes {
  import opened Wrappers

  datatype ParserMode =
    | CompleteParse    // the full job: included files and every body
    | StructuralParse  // included files, but bodies skipped
    | QuickParse       // the file alone, bodies skipped

  /** The private value each constant is built with. */
  function Value(m: ParserMode): (v: int)
    ensures 1 <= v <= 3
  {
    match m
    case CompleteParse => 1
    case StructuralParse => 2
    case QuickParse => 3
  }

  /** The mode built with value `v`, if one is: the constructor is private,
      so these three are the only values ever passed to it. */
  function FromValue(v: int): (m: Option<ParserMode>)
    ensures m.Some? <==> 1 <= v <= 3
    ensures m.Some? ==> Value(m.value) == v
  {
    if v == 1 then Some(CompleteParse)
    else if v == 2 then Some(StructuralParse)
    else if v == 3 then Some(QuickParse)
    else None
  }

  /** Whether the scanner opens included files under mode `m`. */
  function FollowsInclusions(m: ParserMode): (b: bool)
    ensures b <==> m != QuickParse
  {
    match m
    case CompleteParse => true
    case StructuralParse => true
    case QuickParse => false
  }

  /** Whether the parser builds function and method bodies under mode `m`. */
  function ParsesBodies(m: ParserMode): (b: bool)
    ensures b <==> m == CompleteParse
  {
    match m
    case CompleteParse => true
    case StructuralParse => false
    case QuickParse => false
  }

  /** The values tell the modes apart, and every mode is recovered from its value. */
  lemma ValuesDistinct(m: ParserMode, n: ParserMode)
    ensures Value(m) == Value(n) <==> m == n
    ensures FromValue(Value(m)) == Some(m)
  {
  }

  /** There is no fourth mode. */
  lemma ClosedSet(m: ParserMode)
    ensures exists v :: 1 <= v <= 3 && FromValue(v) == Some(m)
  {
    assert FromValue(Value(m)) == Some(m);
  }

  /** Parsing bodies implies following inclusions, and a higher value never
      does more work than a lower one. */
  lemma PolicyMonotone(m: ParserMode, n: ParserMode)
    ensures ParsesBodies(m) ==> FollowsInclusions(m)
    ensures Value(m) <= Value(n) ==>
              (FollowsInclusions(n) ==> FollowsInclusions(m)) && (ParsesBodies(n) ==> ParsesBodies(m))
  {
  }
}
