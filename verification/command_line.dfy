/** The remote command array and its rendering as one line of text
    (`RemoteCommandLauncher.constructCommandArray`, `getCommandLine` and
    `getCommandLineQuoted`). */
module CommandLine {
  import opened Wrappers
  import opened Strings
  import opened Paths
  import opened RemotePaths

  /** Applies `f` to each element in order, stopping at the first failure. */
  method MapEach(f: string -> Result<string, Fault>, given: seq<string>)
    returns (r: Result<seq<string>, Fault>)
    ensures r.Success? ==>
              && |r.value| == |given|
              && forall i :: 0 <= i < |given| ==> f(given[i]) == Success(r.value[i])
    ensures r.Failure? ==>
              exists k :: && 0 <= k < |given| && f(given[k]) == Failure(r.error)
                          && forall j :: 0 <= j < k ==> f(given[j]).Success?
  {
    var mapped := [];
    var i := 0;
    while i < |given|
      invariant 0 <= i <= |given|
      invariant |mapped| == i
      invariant forall j :: 0 <= j < i ==> f(given[j]) == Success(mapped[j])
    {
      var m := f(given[i]);
      if m.Failure? {
        return Failure(m.error);
      }
      mapped := mapped + [m.value];
      i := i + 1;
    }
    return Success(mapped);
  }

  /** `constructCommandArray`: the command and then every argument, each mapped
      onto the remote host. Reading the length of a null argument array throws
      first; otherwise the first element whose mapping throws ends the build. */
  method ConstructCommandArray(command: string, commandArgs: Option<seq<string>>, remote: RemoteResource)
    returns (r: Result<seq<string>, Fault>)
    ensures commandArgs.None? ==> r == Failure(NullPointer)
    ensures r.Success? ==>
              && commandArgs.Some?
              && var all := [command] + commandArgs.value;
                 && |r.value| == |all|
                 && forall i :: 0 <= i < |all| ==> MakeRemoteString(all[i], remote) == Success(r.value[i])
    ensures r.Failure? && commandArgs.Some? ==>
              var all := [command] + commandArgs.value;
              exists k :: && 0 <= k < |all| && MakeRemoteString(all[k], remote) == Failure(r.error)
                          && forall j :: 0 <= j < k ==> MakeRemoteString(all[j], remote).Success?
  {
    if commandArgs.None? {
      return Failure(NullPointer);
    }
    r := MapEach(s => MakeRemoteString(s, remote), [command] + commandArgs.value);
  }

  const Space: char := ' '
  const Quote: char := '"'

  /** An argument is quoted when it holds a space, a double quote or a backslash. */
  predicate NeedsQuoting(arg: string) {
    Space in arg || Quote in arg || Backslash in arg
  }

  /** The first `replaceAll`: every backslash doubled. */
  function DoubleBackslashes(s: string): string
  {
    if |s| == 0 then ""
    else (if s[0] == Backslash then [Backslash, Backslash] else [s[0]]) + DoubleBackslashes(s[1..])
  }

  /** The second `replaceAll`: every double quote preceded by a backslash. */
  function EscapeQuotes(s: string): string
  {
    if |s| == 0 then ""
    else (if s[0] == Quote then [Backslash, Quote] else [s[0]]) + EscapeQuotes(s[1..])
  }

  /** Both passes, backslashes first and quotes second. */
  function Escape(s: string): string
  {
    EscapeQuotes(DoubleBackslashes(s))
  }

  /** One argument as it appears on the line. */
  function Render(arg: string, quote: bool): string
  {
    if quote && NeedsQuoting(arg) then [Quote] + Escape(arg) + [Quote] else arg
  }

  /** Every argument followed by exactly one space. */
  function Layout(args: seq<string>, quote: bool): string
  {
    if |args| == 0 then "" else Render(args[0], quote) + [Space] + Layout(args[1..], quote)
  }

  /** The layout of a suffix is its first argument rendered, a space, and the
      layout of the rest. */
  lemma LayoutStep(args: seq<string>, i: nat, quote: bool)
    requires i < |args|
    ensures Layout(args[i..], quote) == Render(args[i], quote) + [Space] + Layout(args[i + 1..], quote)
  {
    assert args[i..][0] == args[i];
    assert args[i..][1..] == args[i + 1..];
  }

  /** Appending the next rendered argument to a prefix of the layout gives a
      longer prefix of it. */
  lemma LayoutPrefixStep(buf: string, args: seq<string>, i: nat, quote: bool)
    requires i < |args|
    requires buf + Layout(args[i..], quote) == Layout(args, quote)
    ensures (buf + Render(args[i], quote) + [Space]) + Layout(args[i + 1..], quote) == Layout(args, quote)
  {
    LayoutStep(args, i, quote);
    var r := Render(args[i], quote);
    var tail := Layout(args[i + 1..], quote);
    assert buf + (r + [Space] + tail) == (buf + r + [Space]) + tail;
  }

  /** `getCommandLineQuoted`, with the line separator given by the caller. */
  method GetCommandLineQuoted(commandArgs: Option<seq<string>>, quote: bool, nl: string)
    returns (line: string)
    ensures commandArgs.None? ==> line == ""
    ensures commandArgs.Some? ==> line == Layout(commandArgs.value, quote) + nl
  {
    var buf := "";
    if commandArgs.Some? {
      var args := commandArgs.value;
      var i := 0;
      while i < |args|
        invariant 0 <= i <= |args|
        invariant buf + Layout(args[i..], quote) == Layout(args, quote)
      {
        var arg := Render(args[i], quote);
        LayoutPrefixStep(buf, args, i, quote);
        buf := buf + arg + [Space];
        i := i + 1;
      }
      assert args[i..] == [];
      buf := buf + nl;
    }
    line := buf;
  }

  /** `getCommandLine`: the unquoted form, every argument verbatim. */
  method GetCommandLine(commandArgs: Option<seq<string>>, nl: string) returns (line: string)
    ensures commandArgs.None? ==> line == ""
    ensures commandArgs.Some? ==> line == Layout(commandArgs.value, false) + nl
  {
    line := GetCommandLineQuoted(commandArgs, false, nl);
  }

  // ---------------------------------------------------------------------------
  // Reading a rendered line back

  /** The body of a quoted argument up to its closing quote, with `\c` read as
      `c`; gives the argument and the text after the closing quote. */
  function ReadQuoted(s: string): (r: Option<(string, string)>)
    ensures r.Some? ==> |r.value.1| < |s|
    decreases |s|
  {
    if |s| == 0 then None
    else if s[0] == Quote then Some(("", s[1..]))
    else if s[0] == Backslash then
      if |s| < 2 then None
      else match ReadQuoted(s[2..])
        case None => None
        case Some((a, rest)) => Some(([s[1]] + a, rest))
    else match ReadQuoted(s[1..])
      case None => None
      case Some((a, rest)) => Some(([s[0]] + a, rest))
  }

  /** The text up to the first space, and the text after that space. */
  function ReadBare(s: string): (r: Option<(string, string)>)
    ensures r.Some? ==> |r.value.1| < |s|
  {
    var n := IndexOf(s, Space);
    if n < |s| then Some((s[..n], s[n + 1..])) else None
  }

  /** One argument and its terminating space. */
  function ReadArg(s: string): (r: Option<(string, string)>)
    ensures r.Some? ==> |r.value.1| < |s|
  {
    if |s| > 0 && s[0] == Quote then
      match ReadQuoted(s[1..])
      case None => None
      case Some((a, rest)) =>
        if |rest| > 0 && rest[0] == Space then Some((a, rest[1..])) else None
    else ReadBare(s)
  }

  /** All arguments of a quoted line (without its separator). */
  function ReadArgs(s: string): Option<seq<string>>
    decreases |s|
  {
    if |s| == 0 then Some([])
    else match ReadArg(s)
      case None => None
      case Some((a, rest)) =>
        match ReadArgs(rest)
        case None => None
        case Some(more) => Some([a] + more)
  }

  /** All arguments of an unquoted line (without its separator). */
  function ReadBareArgs(s: string): Option<seq<string>>
    decreases |s|
  {
    if |s| == 0 then Some([])
    else match ReadBare(s)
      case None => None
      case Some((a, rest)) =>
        match ReadBareArgs(rest)
        case None => None
        case Some(more) => Some([a] + more)
  }

  function EscapeChar(c: char): string
  {
    if c == Backslash then [Backslash, Backslash]
    else if c == Quote then [Backslash, Quote]
    else [c]
  }

  lemma {:induction false} EscapeQuotesConcat(x: string, y: string)
    ensures EscapeQuotes(x + y) == EscapeQuotes(x) + EscapeQuotes(y)
    decreases |x|
  {
    if |x| > 0 {
      assert (x + y)[1..] == x[1..] + y;
      EscapeQuotesConcat(x[1..], y);
    } else {
      assert x + y == y;
    }
  }

  /** Doubling backslashes before escaping quotes escapes each character on its
      own: the backslashes the second pass adds are never doubled. */
  lemma EscapeFirstChar(s: string)
    requires |s| > 0
    ensures Escape(s) == EscapeChar(s[0]) + Escape(s[1..])
  {
    var first := if s[0] == Backslash then [Backslash, Backslash] else [s[0]];
    assert DoubleBackslashes(s) == first + DoubleBackslashes(s[1..]);
    EscapeQuotesConcat(first, DoubleBackslashes(s[1..]));
    if s[0] == Backslash {
      assert first[1..] == [Backslash];
    }
  }

  /** Unescaping the body of a quoted argument restores the argument. */
  lemma {:induction false} ReadQuotedEscape(a: string, rest: string)
    ensures ReadQuoted(Escape(a) + [Quote] + rest) == Some((a, rest))
    decreases |a|
  {
    var s := Escape(a) + [Quote] + rest;
    if |a| == 0 {
      assert s == [Quote] + rest;
    } else {
      EscapeFirstChar(a);
      ReadQuotedEscape(a[1..], rest);
      var tail := Escape(a[1..]) + [Quote] + rest;
      assert s == EscapeChar(a[0]) + tail;
      if a[0] == Backslash || a[0] == Quote {
        assert s[2..] == tail;
      } else {
        assert s[1..] == tail;
      }
      assert [a[0]] + a[1..] == a;
    }
  }

  lemma ReadBareSpaceFree(a: string, rest: string)
    requires Space !in a
    ensures ReadBare(a + [Space] + rest) == Some((a, rest))
  {
    var s := a + [Space] + rest;
    assert forall j :: 0 <= j < |a| ==> s[j] == a[j];
    IndexOfAt(s, Space, |a|);
    assert s[..|a|] == a;
    assert s[|a| + 1..] == rest;
  }

  /** A quoted argument followed by its space reads back as the argument. */
  lemma ReadArgQuoted(a: string, rest: string)
    ensures ReadArg([Quote] + Escape(a) + [Quote] + [Space] + rest) == Some((a, rest))
  {
    var s := [Quote] + Escape(a) + [Quote] + [Space] + rest;
    ReadQuotedEscape(a, [Space] + rest);
    assert s[1..] == Escape(a) + [Quote] + ([Space] + rest);
    assert ([Space] + rest)[1..] == rest;
  }

  /** An argument that needs no quoting, followed by its space, reads back as
      the argument. */
  lemma ReadArgBare(a: string, rest: string)
    requires !NeedsQuoting(a)
    ensures ReadArg(a + [Space] + rest) == Some((a, rest))
  {
    ReadBareSpaceFree(a, rest);
    if |a| > 0 {
      assert (a + [Space] + rest)[0] == a[0];
    }
  }

  /** A rendered argument followed by its space reads back as the argument. */
  lemma ReadArgRendered(a: string, rest: string)
    ensures ReadArg(Render(a, true) + [Space] + rest) == Some((a, rest))
  {
    if NeedsQuoting(a) {
      ReadArgQuoted(a, rest);
    } else {
      ReadArgBare(a, rest);
    }
  }

  lemma ReadArgsCons(line: string, a: string, rest: string, more: seq<string>)
    requires ReadArg(line) == Some((a, rest))
    requires ReadArgs(rest) == Some(more)
    ensures ReadArgs(line) == Some([a] + more)
  {
  }

  /** The quoted line loses nothing: reading it back yields exactly the arguments. */
  lemma {:induction false} ReadArgsLayout(args: seq<string>)
    ensures ReadArgs(Layout(args, true)) == Some(args)
    decreases |args|
  {
    if |args| > 0 {
      var rest := Layout(args[1..], true);
      var line := Layout(args, true);
      assert line == Render(args[0], true) + [Space] + rest;
      ReadArgRendered(args[0], rest);
      ReadArgsLayout(args[1..]);
      ReadArgsCons(line, args[0], rest, args[1..]);
      assert [args[0]] + args[1..] == args;
    }
  }

  /** Without quoting the arguments are written verbatim: splitting the line at
      its spaces yields them back whenever none of them holds a space. */
  lemma {:induction false} ReadBareArgsLayout(args: seq<string>)
    requires forall i :: 0 <= i < |args| ==> Space !in args[i]
    ensures ReadBareArgs(Layout(args, false)) == Some(args)
    decreases |args|
  {
    if |args| > 0 {
      ReadBareSpaceFree(args[0], Layout(args[1..], false));
      ReadBareArgsLayout(args[1..]);
      assert [args[0]] + args[1..] == args;
    }
  }

  /** Arguments without a space, quote or backslash are written verbatim even
      when quoting is asked for. */
  lemma {:induction false} LayoutPlainArgs(args: seq<string>)
    requires forall i :: 0 <= i < |args| ==> !NeedsQuoting(args[i])
    ensures Layout(args, true) == Layout(args, false)
    decreases |args|
  {
    if |args| > 0 {
      LayoutPlainArgs(args[1..]);
    }
  }
}
