# Remote command launching and parser-mode policy of the Eclipse CDT, in Dafny

This project models two small pure-logic cores of the Eclipse C/C++ Development Tooling.

1. **`RemoteCommandLauncher`** runs a build command on a remote host. Before spawning anything, it does the following:
   - maps every local workspace path in the command onto the project's remote location, rewriting a Windows drive for Cygwin (`C:` to `/cygdrive/C`) or MinGW (`C:` to `/C`) when the workspace sits on a drive and the command's paths do not;
   - builds the argument array;
   - renders the command as one line of text, with or without quoting;
   - turns `"KEY=value"` environment entries into its properties.
2. **`ParserMode`** and **`ParserFactory`** cover the parser's modes and its factory:
   - there are three parser modes: complete, structural and quick;
   - each mode says whether included files are followed and whether function bodies are parsed;
   - the factory picks the quick or full AST factory, and gives a missing mode or callback its default.

Modules:

- `Wrappers` (`wrappers.dfy`): `Option` for Java's nullable references, `Result` for calls that throw, and `Fault` for the exceptions involved.
- `Strings` (`strings.dfy`): `String.indexOf(char)`.
- `Paths` (`paths.dfy`): the part of Eclipse's `IPath` the launcher uses. A path is a device, a leading-separator flag and segments. Strings are parsed the Windows way: the device is everything through the first `:`, less a leading `/` (so `/C:/ws`, the path part of a `file:` URI, has device `C:`), and the segments are the non-empty pieces between `/`. `makeRelativeTo` and `append` work on segments.
- `RemotePaths` (`remote_paths.dfy`): `makeRemote` (both overloads) and `getPathString`.
- `CommandLine` (`command_line.dfy`): the following pieces.
  - `constructCommandArray`.
  - `getCommandLine` and `getCommandLineQuoted`, with the line separator passed in by the caller.
  - Readers that parse a rendered line back into its arguments. They are used to state that nothing is lost.
- `Environment` (`environment.dfy`): `parseEnvironment`, as written and as evidently intended (see Findings).
- `ParserModes` (`parser_mode.dfy`) and `ParserFactory` (`parser_factory.dfy`): the mode policy and the factory rules. The Scanner, Preprocessor, Parser, AST factories and null requestor are tags and records.

Java `null` becomes `Option.None`. A thrown `NullPointerException` or `StringIndexOutOfBoundsException` becomes a `Result.Failure` or an outcome field.

## Model

| member | source | states |
|---|---|---|
| `Paths.ParseToString` | remote/org.eclipse.cdt.remote.core/src/org/eclipse/cdt/remote/core/RemoteCommandLauncher.java:56-58 | printing a valid path and parsing the text again gives back the same device, separator flag and segments |
| `Paths.ParseLeadingSeparator` | remote/org.eclipse.cdt.remote.core/src/org/eclipse/cdt/remote/core/RemoteCommandLauncher.java:78 | the path part of a `file:` URI, a `/` in front of a printed path with a device, parses to that same path: the `/` before the device is dropped |
| `Paths.MakeRelativeTo` | remote/org.eclipse.cdt.remote.core/src/org/eclipse/cdt/remote/core/RemoteCommandLauncher.java:87 | a path on another device is returned unchanged; on the same device the result is relative and device-less; when the base's segments are a prefix, the result's segments are exactly what follows that prefix |
| `Paths.Append` | remote/org.eclipse.cdt.remote.core/src/org/eclipse/cdt/remote/core/RemoteCommandLauncher.java:89 | appending keeps the device and leading separator, keeps the original segments first and puts the tail's segments after them |
| `Paths.CommonPrefixLength` | remote/org.eclipse.cdt.remote.core/src/org/eclipse/cdt/remote/core/RemoteCommandLauncher.java:87 | the result is the length of the longest common prefix: both sequences agree below it and differ at it |
| `RemotePaths.GetPathString` | remote/org.eclipse.cdt.remote.core/src/org/eclipse/cdt/remote/core/RemoteCommandLauncher.java:94-103 | a leading ASCII letter plus `:` becomes `/cygdrive/X` (Cygwin) or `/X` (MinGW) and the rest of the text is unchanged; any other text is returned verbatim |
| `RemotePaths.GetPathStringRestores` | remote/org.eclipse.cdt.remote.core/src/org/eclipse/cdt/remote/core/RemoteCommandLauncher.java:97-99 | the drive rewrite can be undone: restoring the drive gives back the original text |
| `RemotePaths.RewriteDrivePath` | remote/org.eclipse.cdt.remote.core/src/org/eclipse/cdt/remote/core/RemoteCommandLauncher.java:80-85 | an absolute path on drive `X:`, once printed, rewritten and parsed again, has no device; its segments are `cygdrive`, `X` (or just `X`) and then the original segments |
| `RemotePaths.RewriteDevicelessPath` | remote/org.eclipse.cdt.remote.core/src/org/eclipse/cdt/remote/core/RemoteCommandLauncher.java:94-103 | a valid path without a device is left unchanged by the rewrite |
| `RemotePaths.MakeRemote` | remote/org.eclipse.cdt.remote.core/src/org/eclipse/cdt/remote/core/RemoteCommandLauncher.java:72-92 | a non-absolute local path is returned unchanged, before the remote resource is consulted; for an absolute one the call throws (a `NullPointerException`) exactly when the resource's location is null, the active location path is null, or the path is device-less with no segments while the location has a device, because `segment(0)` is then null |
| `RemotePaths.RerootUnderLocation` | remote/org.eclipse.cdt.remote.core/src/org/eclipse/cdt/remote/core/RemoteCommandLauncher.java:87-91 | the segments that follow the location in the local path follow the remote path in the result, in the same order; no segments means exactly the remote path |
| `RemotePaths.MakeRemoteUnderLocation` | remote/org.eclipse.cdt.remote.core/src/org/eclipse/cdt/remote/core/RemoteCommandLauncher.java:64-66 | the doc comment's case: a local path under the workspace location maps to the remote active path followed by the same extra segments |
| `RemotePaths.MakeRemoteAtLocation` | remote/org.eclipse.cdt.remote.core/src/org/eclipse/cdt/remote/core/RemoteCommandLauncher.java:87-91 | the workspace location itself maps to exactly the remote active path |
| `RemotePaths.MakeRemoteCygwin` | remote/org.eclipse.cdt.remote.core/src/org/eclipse/cdt/remote/core/RemoteCommandLauncher.java:80-91 | Cygwin case: the workspace at `X:/<loc>`, the active location URI path `/Y:/<q>` and the local path `/cygdrive/X/<loc>/<extra>` give `/cygdrive/Y/<q>/<extra>`: both sides are rewritten and the extra segments carried over |
| `RemotePaths.MakeRemoteCygwinExample` | remote/org.eclipse.cdt.remote.core/src/org/eclipse/cdt/remote/core/RemoteCommandLauncher.java:80-91 | with the workspace at `C:/ws/proj` and the URI path `/C:/ws/proj`, the local path `/cygdrive/C/ws/proj/sub` maps to `/cygdrive/C/ws/proj/sub` |
| `RemotePaths.MakeRemoteMinGW` | remote/org.eclipse.cdt.remote.core/src/org/eclipse/cdt/remote/core/RemoteCommandLauncher.java:80-91 | MinGW case: the workspace at `X:/<loc>`, the active location URI path `/Y:/<q>` and the local path `/X/<loc>/<extra>` give `/Y/<q>/<extra>` |
| `RemotePaths.MakeRemoteStringUnderLocation` | remote/org.eclipse.cdt.remote.core/src/org/eclipse/cdt/remote/core/RemoteCommandLauncher.java:44-58 | the doc comment's case on strings: the printed workspace location followed by more segments maps to the remote active path followed by the same segments, where the active path is a printed path `q` or, when `q` has a device, `q` behind one more `/` as in a `file:` URI; the result is `q` with the segments appended |
| `RemotePaths.MakeRemoteStringRelative` | remote/org.eclipse.cdt.remote.core/src/org/eclipse/cdt/remote/core/RemoteCommandLauncher.java:73-75 | on strings, a printed relative path comes back as the very same text |
| `CommandLine.MapEach` | remote/org.eclipse.cdt.remote.core/src/org/eclipse/cdt/remote/core/RemoteCommandLauncher.java:122-125 | every element is mapped in order, into the same position; on a failure, the error is that of the first element whose mapping fails, all earlier ones having succeeded |
| `CommandLine.ConstructCommandArray` | remote/org.eclipse.cdt.remote.core/src/org/eclipse/cdt/remote/core/RemoteCommandLauncher.java:120-127 | a null argument array throws first; otherwise the array is the command followed by its `n` arguments, each mapped in place (`1 + n` elements, element 0 the mapped command, element `i+1` the mapped argument `i`), and a failure carries the error of the first of them whose mapping throws |
| `CommandLine.GetCommandLineQuoted` | remote/org.eclipse.cdt.remote.core/src/org/eclipse/cdt/remote/core/RemoteCommandLauncher.java:184-201 | a null array gives the empty string; otherwise every rendered argument is followed by exactly one space, and one line separator ends the line |
| `CommandLine.GetCommandLine` | remote/org.eclipse.cdt.remote.core/src/org/eclipse/cdt/remote/core/RemoteCommandLauncher.java:174-181 | the unquoted line: every argument verbatim, each followed by one space, then the separator |
| `CommandLine.EscapeFirstChar` | remote/org.eclipse.cdt.remote.core/src/org/eclipse/cdt/remote/core/RemoteCommandLauncher.java:193 | because backslashes are doubled before quotes are escaped, each character is escaped independently: `\` becomes `\\`, `"` becomes `\"`, and any other character stays |
| `CommandLine.ReadQuotedEscape` | remote/org.eclipse.cdt.remote.core/src/org/eclipse/cdt/remote/core/RemoteCommandLauncher.java:193 | reading an escaped body back up to its closing quote restores the original argument |
| `CommandLine.ReadArgsLayout` | remote/org.eclipse.cdt.remote.core/src/org/eclipse/cdt/remote/core/RemoteCommandLauncher.java:191-197 | the quoted line loses nothing: reading it back yields exactly the original arguments, whatever spaces, quotes or backslashes they hold |
| `CommandLine.ReadBareArgsLayout` | remote/org.eclipse.cdt.remote.core/src/org/eclipse/cdt/remote/core/RemoteCommandLauncher.java:189-200 | when no argument contains a space, splitting the unquoted line at its spaces gives the arguments back |
| `CommandLine.LayoutPlainArgs` | remote/org.eclipse.cdt.remote.core/src/org/eclipse/cdt/remote/core/RemoteCommandLauncher.java:192-195 | arguments with no space, quote or backslash are written verbatim even when quoting is on |
| `Environment.SplitEntry` | remote/org.eclipse.cdt.remote.core/src/org/eclipse/cdt/remote/core/RemoteCommandLauncher.java:226-231 | the split fails exactly when the entry has no `=`; on success the key has no `=` and key, `=`, value put together give the entry back, so the value may itself contain `=` |
| `Environment.LastWriterWinsStep` | remote/org.eclipse.cdt.remote.core/src/org/eclipse/cdt/remote/core/RemoteCommandLauncher.java:232 | storing one more entry keeps the reading "each key holds the value of its last entry" |
| `Environment.ParseEntries` | remote/org.eclipse.cdt.remote.core/src/org/eclipse/cdt/remote/core/RemoteCommandLauncher.java:224-233 | the loop throws exactly when some entry has no `=`, and the index it throws at is the first such entry |
| `Environment.ParseEnvironment` | remote/org.eclipse.cdt.remote.core/src/org/eclipse/cdt/remote/core/RemoteCommandLauncher.java:221-235 | a null array leaves the properties untouched; otherwise the loop throws exactly when an entry has no `=`, at the first such entry |
| `Environment.ParseEnvironmentLastWriterWins` | remote/org.eclipse.cdt.remote.core/src/org/eclipse/cdt/remote/core/RemoteCommandLauncher.java:221-235 | after clearing, the properties hold exactly the keys of the entries processed, each mapped to the value of its last entry (later duplicates overwrite earlier ones); after a throw, only the entries before the failing one count |
| `Environment.ParseEntriesAgree` | remote/org.eclipse.cdt.remote.core/src/org/eclipse/cdt/remote/core/RemoteCommandLauncher.java:224-233 | the properties left by the loop as written equal the intended parse of the entries it got through |
| `Environment.ParseEnvironmentAgrees` | remote/org.eclipse.cdt.remote.core/src/org/eclipse/cdt/remote/core/RemoteCommandLauncher.java:221-235 | when the code as written does not throw, it agrees with the intended version |
| `Environment.ParseEntriesIntendedLastWriterWins` | remote/org.eclipse.cdt.remote.core/src/org/eclipse/cdt/remote/core/RemoteCommandLauncher.java:227-232 | the intended parse keeps, for every key, the value of its last entry; an entry without `=` maps the whole entry to the empty value |
| `Environment.ParseEnvironmentIntendedLastWriterWins` | remote/org.eclipse.cdt.remote.core/src/org/eclipse/cdt/remote/core/RemoteCommandLauncher.java:221-235 | the corrected `parseEnvironment`: a null array leaves the properties alone; otherwise last writer wins over all entries |
| `Environment.BareNameThrows` | remote/org.eclipse.cdt.remote.core/src/org/eclipse/cdt/remote/core/RemoteCommandLauncher.java:227-231 | as written, `["A=1", "B"]` stores `A=1` and then throws at entry 1 |
| `Environment.BareNameIntended` | remote/org.eclipse.cdt.remote.core/src/org/eclipse/cdt/remote/core/RemoteCommandLauncher.java:227-229 | intended: the same entries give `A` the value `1` and `B` the empty value |
| `ParserModes.Value` | core/org.eclipse.cdt.core/parser/org/eclipse/cdt/core/parser/ParserMode.java:20-26 | each mode carries one of the internal values 1, 2, 3 |
| `ParserModes.FromValue` | core/org.eclipse.cdt.core/parser/org/eclipse/cdt/core/parser/ParserMode.java:28-31 | exactly the values 1, 2 and 3 name a mode, and the mode named by `v` carries value `v` |
| `ParserModes.FollowsInclusions` | core/org.eclipse.cdt.core/parser/org/eclipse/cdt/core/parser/ParserMode.java:19-26 | inclusions are followed in every mode except QUICK_PARSE |
| `ParserModes.ParsesBodies` | core/org.eclipse.cdt.core/parser/org/eclipse/cdt/core/parser/ParserMode.java:19-26 | function and method bodies are parsed only in COMPLETE_PARSE |
| `ParserModes.ValuesDistinct` | core/org.eclipse.cdt.core/parser/org/eclipse/cdt/core/parser/ParserMode.java:20-26 | two modes have the same value only if they are the same mode, and every mode is recovered from its value |
| `ParserModes.ClosedSet` | core/org.eclipse.cdt.core/parser/org/eclipse/cdt/core/parser/ParserMode.java:28-31 | every mode is named by one of the values 1 to 3 |
| `ParserModes.PolicyMonotone` | core/org.eclipse.cdt.core/parser/org/eclipse/cdt/core/parser/ParserMode.java:19-26 | parsing bodies implies following inclusions, and a mode with a higher value never does work that a lower one skips |
| `ParserFactory.CreateAstFactory` | core/org.eclipse.cdt.core/parser/org/eclipse/cdt/core/parser/ParserFactory.java:31-37 | the quick factory exactly for QUICK_PARSE; the full factory for the other two modes and for a null mode |
| `ParserFactory.DefaultMode` | core/org.eclipse.cdt.core/parser/org/eclipse/cdt/core/parser/ParserFactory.java:41 | a null mode becomes COMPLETE_PARSE and any other mode passes through unchanged |
| `ParserFactory.DefaultCallback` | core/org.eclipse.cdt.core/parser/org/eclipse/cdt/core/parser/ParserFactory.java:42 | a null callback becomes the null requestor and any other callback passes through unchanged |
| `ParserFactory.SetMode` | core/org.eclipse.cdt.core/parser/org/eclipse/cdt/core/parser/ParserFactory.java:50 | setting the mode changes only the mode |
| `ParserFactory.OverwriteIncludePath` | core/org.eclipse.cdt.core/parser/org/eclipse/cdt/core/parser/ParserFactory.java:51 | overwriting the include path replaces it with the given inclusions and changes nothing else |
| `ParserFactory.CreateParser` | core/org.eclipse.cdt.core/parser/org/eclipse/cdt/core/parser/ParserFactory.java:39-44 | the parser reads from the given scanner, with the mode defaulted to COMPLETE_PARSE and the callback to the null requestor |
| `ParserFactory.CreateScanner` | core/org.eclipse.cdt.core/parser/org/eclipse/cdt/core/parser/ParserFactory.java:46-53 | the scanner keeps its input, file name and definitions, gets the defaulted mode, and has its include path overwritten with the given inclusions |
| `ParserFactory.CreatePreprocessor` | core/org.eclipse.cdt.core/parser/org/eclipse/cdt/core/parser/ParserFactory.java:55-62 | the same defaulting and include-path rule, applied to a preprocessor |
| `ParserFactory.DefaultModeIdempotent` | core/org.eclipse.cdt.core/parser/org/eclipse/cdt/core/parser/ParserFactory.java:41 | defaulting an already defaulted mode gives the same mode |
| `ParserFactory.FactoryAgreesWithPolicy` | core/org.eclipse.cdt.core/parser/org/eclipse/cdt/core/parser/ParserFactory.java:31-37 | a mode gets the same factory as its default; the factory is the quick one exactly when the defaulted mode does not follow inclusions |
| `ParserFactory.ScannerAndPreprocessorAgree` | core/org.eclipse.cdt.core/parser/org/eclipse/cdt/core/parser/ParserFactory.java:46-62 | a scanner and a preprocessor built from the same arguments agree on mode and include path, and differ only in kind |
| `ParserFactory.ParserAndScannerAgree` | core/org.eclipse.cdt.core/parser/org/eclipse/cdt/core/parser/ParserFactory.java:39-53 | a parser and a scanner built from the same mode argument run in the same mode |

## Left out

- `execute`, both `waitAndRead` methods and `printCommandLine` are left out. They look up connections and services, spawn remote processes, poll with `Thread.sleep`, handle cancellation and write to output streams. All of this is I/O and concurrency.
- The plain accessors and delegations to the local launcher are left out: `getCommandArgs`, `getEnvironment`, `getErrorMessage`, `getProject`, `setErrorMessage`, `setProject` and `showCommand`.
- The line separator is a parameter. Looking it up in the system properties or on the connection is left out. So is the case of a connection that returns no separator, where Java would append the text `null`.
- `Paths` is a simplified Eclipse `IPath`. The Eclipse runtime library is not part of this model. Left out:
  - backslash-to-slash conversion;
  - UNC paths;
  - trailing separators;
  - removal of `.` and `..` segments, including when `append` collapses them. A valid segment therefore excludes `.`, `..` and any backslash, and a valid device excludes any backslash, so the round-trip and string-level lemmas (`Paths.ParseToString`, `Paths.ParseLeadingSeparator`, `RemotePaths.MakeRemoteStringRelative`, `RemotePaths.MakeRemoteStringUnderLocation`) are claimed only for paths that parsing keeps unchanged. `MakeRemoteStringUnderLocation` also takes its remote active path in that printed form, so an active path with a trailing `/`, a `..` segment or a leading `//` is not covered;
  - case-insensitive comparison of devices;
  - device-free parsing on non-Windows hosts.
- `Paths.MakeRelativeTo`: its contract states only the other-device case and the prefix case. It does not describe the `..` segments produced when the base is not a prefix of the path.
- The Java regular-expression engine is left out. The single anchored `^([a-zA-Z]):` rewrite is modelled directly.
- `null` elements inside the argument array and the environment array are left out.
- `Properties` is a `map<string, string>`. Its hashtable behaviour beyond put, clear and overwrite is left out.
- The C/C++ Scanner, Preprocessor, Parser, quick and full AST factories, binding resolution and null requestor are not part of this model. They appear only as tags and as records of their construction arguments. The mode and include path a fresh Scanner starts with are recorded as "not set".
- `NewModelProjectWizard`, `AddIncludeAction`, `ASTNodeFactoryFactory` and `CLISource` are left out. They are UI, editor and debugger glue, or they only return singletons of classes that are not part of this model.

## Findings

| source | as written | input that shows it | evidently intended | confidence | as-written member | corrected member |
|---|---|---|---|---|---|---|
| remote/org.eclipse.cdt.remote.core/src/org/eclipse/cdt/remote/core/RemoteCommandLauncher.java:227-231 | when an entry has no `=`, `pos` is set to the entry's length, and `substring(pos + 1)` then throws `StringIndexOutOfBoundsException`; the properties are left cleared and hold only the entries before it | `env = ["A=1", "B"]` | the guard at lines 227-229 exists to handle this case: `B` maps to the empty value and parsing goes on | high (not executed) | `Environment.BareNameThrows` (over `Environment.ParseEnvironment`) | `Environment.ParseEnvironmentIntendedLastWriterWins` (over `Environment.ParseEnvironmentIntended`), with `Environment.BareNameIntended` |
