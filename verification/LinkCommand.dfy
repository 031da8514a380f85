/** The gcc driver's command-line parser and the link command the executor rebuilds from it. */
module LinkCommands {
  import opened Wrappers
  import opened Strings

  datatype Mode = CompileOnly | Link | CompileAndLink

  datatype ParsedArgs = ParsedArgs(
    mode: Mode, shared: bool, output: string, sources: seq<string>, objects: seq<string>, includes: seq<string>,
    defines: seq<string>, libraries: seq<string>, libraryFiles: seq<string>, libraryDirs: seq<string>,
    compilerFlags: seq<string>, linkerFlags: seq<string>)

  const NOTHING := ParsedArgs(CompileAndLink, false, "", [], [], [], [], [], [], [], [], [])

  // ---------- Classifying one argument ----------

  datatype Kind = DashC | Shared | Output | Include | Define | Library | LibraryDir
                | CompilerFlag | LinkerFlag | Source | Object | LibraryFile | Ignored

  predicate IsCompilerOnlyFlag(flag: string) {
    || flag in {"-c", "-S", "-E", "-M", "-MM", "-fPIC", "-fPIE", "-fno-PIC", "-fno-PIE", "-nostdinc", "-nostdinc++",
      "-trigraphs", "-notrigraphs"}
    || HasPrefix(flag, "-std=") || HasPrefix(flag, "-march=") || HasPrefix(flag, "-mtune=") || HasPrefix(flag, "-m64")
    || HasPrefix(flag, "-m32") || HasPrefix(flag, "-O") || HasPrefix(flag, "-g") || HasPrefix(flag, "-W")
  }

  predicate IsSourceName(s: string) {
    HasSuffix(s, ".c") || HasSuffix(s, ".cpp") || HasSuffix(s, ".cc") || HasSuffix(s, ".cxx") || HasSuffix(s, ".C") ||
      HasSuffix(s, ".c++")
  }

  predicate IsLibraryName(s: string) {
    HasSuffix(s, ".a") || HasSuffix(s, ".so") || HasSuffix(s, ".lib") || HasSuffix(s, ".dll")
  }

  /** The case of the parser's switch an argument falls into. */
  function Classify(arg: string): Kind {
    if arg == "-c" then DashC
    else if arg == "-shared" then Shared
    else if arg == "-o" then Output
    else if HasPrefix(arg, "-I") then Include
    else if HasPrefix(arg, "-D") then Define
    else if HasPrefix(arg, "-l") then Library
    else if HasPrefix(arg, "-L") then LibraryDir
    else if arg == "--version" || arg == "-v" || arg == "-print-version" then CompilerFlag
    else if HasPrefix(arg, "-") then (if IsCompilerOnlyFlag(arg) then CompilerFlag else LinkerFlag)
    else if IsSourceName(arg) then Source
    else if HasSuffix(arg, ".o") then Object
    else if IsLibraryName(arg) then LibraryFile
    else Ignored
  }

  // ---------- The parse as a function ----------

  /** The kinds whose value is attached to the argument or is the next argument. */
  predicate TakesValue(k: Kind) { k == Include || k == Define || k == Library || k == LibraryDir }

  function AddValue(acc: ParsedArgs, k: Kind, value: string): ParsedArgs {
    match k
    case Output => acc.(output := value)
    case Include => acc.(includes := acc.includes + [value])
    case Define => acc.(defines := acc.defines + [value])
    case Library => acc.(libraries := acc.libraries + [value])
    case LibraryDir => acc.(libraryDirs := acc.libraryDirs + [value])
    case _ => acc
  }

  function AddArg(acc: ParsedArgs, k: Kind, arg: string): ParsedArgs {
    match k
    case DashC => acc.(mode := CompileOnly)
    case Shared => acc.(shared := true, linkerFlags := acc.linkerFlags + [arg])
    case CompilerFlag => acc.(compilerFlags := acc.compilerFlags + [arg])
    case LinkerFlag => acc.(linkerFlags := acc.linkerFlags + [arg])
    case Source => acc.(sources := acc.sources + [arg])
    case Object => acc.(objects := acc.objects + [arg])
    case LibraryFile => acc.(libraryFiles := acc.libraryFiles + [arg])
    case _ => acc
  }

  /** An argument with its kind. */
  datatype Token = Token(kind: Kind, text: string)

  function Tokens(args: seq<string>): (ts: seq<Token>)
    ensures |ts| == |args|
  {
    seq(|args|, i requires 0 <= i < |args| => Token(Classify(args[i]), args[i]))
  }

  /** Whether the argument's value is the next argument. */
  predicate ValueIsNext(t: Token) {
    t.kind == Output || (TakesValue(t.kind) && |t.text| == 2)
  }

  /** What one argument is read as, given the one after it, and how many are read. An attached
      value follows the two characters of its option. */
  function ConsumeOne(t: Token, following: Option<string>, acc: ParsedArgs): (r: (ParsedArgs, nat))
    ensures 1 <= r.1 <= 2 && (r.1 == 2 ==> following.Some?)
  {
    if ValueIsNext(t) then
      match following
      case Some(value) => (AddValue(acc, t.kind, value), 2)
      case None => (acc, 1)
    else if TakesValue(t.kind) then (AddValue(acc, t.kind, if |t.text| >= 2 then t.text[2..] else ""), 1)
    else (AddArg(acc, t.kind, t.text), 1)
  }

  function Consume(ts: seq<Token>, acc: ParsedArgs): (r: (ParsedArgs, nat))
    requires ts != []
    ensures 1 <= r.1 <= |ts|
  {
    ConsumeOne(ts[0], if |ts| > 1 then Some(ts[1].text) else None, acc)
  }

  function ParseTokens(ts: seq<Token>, acc: ParsedArgs): ParsedArgs
    decreases |ts|
  {
    if ts == [] then acc
    else
      var (acc', n) := Consume(ts, acc);
      ParseTokens(ts[n..], acc')
  }

  /** Objects but neither sources nor -c make a pure link. */
  function WithMode(p: ParsedArgs): ParsedArgs {
    if p.mode != CompileOnly && p.sources == [] && p.objects != [] then p.(mode := Link) else p
  }

  function Parse(args: seq<string>): ParsedArgs { WithMode(ParseTokens(Tokens(args), NOTHING)) }

  // ---------- The parser's loop ----------

  function Following(args: seq<string>, i: nat): Option<string> {
    if i + 1 < |args| then Some(args[i + 1]) else None
  }

  lemma ParseFrom(args: seq<string>, i: nat, acc: ParsedArgs)
    requires i < |args|
    ensures var (acc', read) := ConsumeOne(Token(Classify(args[i]), args[i]), Following(args, i), acc);
      i + read <= |args| && ParseTokens(Tokens(args)[i..], acc) == ParseTokens(Tokens(args)[i + read..], acc')
  {
    var rest := Tokens(args)[i..];
    assert rest[0] == Token(Classify(args[i]), args[i]);
    assert rest[1..] == Tokens(args)[i + 1..] && (i + 1 < |args| ==> rest[2..] == Tokens(args)[i + 2..]);
  }

  method ParseCommandLine(args: seq<string>) returns (parsed: ParsedArgs)
    ensures parsed == Parse(args)
  {
    parsed := NOTHING;
    var i := 0;
    while i < |args|
      invariant i <= |args|
      invariant ParseTokens(Tokens(args), NOTHING) == ParseTokens(Tokens(args)[i..], parsed)
      decreases |args| - i
    {
      ParseFrom(args, i, parsed);
      var read;
      parsed, read := ParseOne(args[i], Following(args, i), parsed);
      i := i + read;
    }
    if parsed.mode != CompileOnly && |parsed.sources| == 0 && |parsed.objects| > 0 {
      parsed := parsed.(mode := Link);
    }
  }

  /** One turn of the loop: an argument, and the one after it when it is a value. */
  method ParseOne(arg: string, following: Option<string>, acc: ParsedArgs) returns (parsed: ParsedArgs, read: nat)
    ensures (parsed, read) == ConsumeOne(Token(Classify(arg), arg), following, acc)
  {
    parsed, read := acc, 1;
    if arg == "-c" {
      parsed := parsed.(mode := CompileOnly);
    } else if arg == "-shared" {
      parsed := parsed.(shared := true, linkerFlags := parsed.linkerFlags + [arg]);
    } else if arg == "-o" {
      if following.Some? {
        parsed, read := parsed.(output := following.value), 2;
      }
    } else if HasPrefix(arg, "-I") || HasPrefix(arg, "-D") || HasPrefix(arg, "-l") || HasPrefix(arg, "-L") {
      var value;
      value, read := OptionValue(arg, following);
      if value.Some? {
        parsed := AddOptionValue(arg, value.value, parsed);
      }
    } else {
      parsed := ParsePlain(arg, parsed);
    }
  }

  /** The value attached to a two-character option, else the next argument, if there is one. */
  method OptionValue(arg: string, following: Option<string>) returns (value: Option<string>, read: nat)
    requires |arg| >= 2
    ensures (value, read) == if |arg| > 2 then (Some(arg[2..]), 1) else (following, if following.Some? then 2 else 1)
  {
    if |arg| > 2 {
      return Some(arg[2..]), 1;
    } else if following.Some? {
      return following, 2;
    }
    return None, 1;
  }

  method AddOptionValue(arg: string, value: string, acc: ParsedArgs) returns (parsed: ParsedArgs)
    requires HasPrefix(arg, "-I") || HasPrefix(arg, "-D") || HasPrefix(arg, "-l") || HasPrefix(arg, "-L")
    requires arg != "-c" && arg != "-shared" && arg != "-o"
    ensures parsed == AddValue(acc, Classify(arg), value) && TakesValue(Classify(arg))
  {
    if HasPrefix(arg, "-I") {
      parsed := acc.(includes := acc.includes + [value]);
    } else if HasPrefix(arg, "-D") {
      parsed := acc.(defines := acc.defines + [value]);
    } else if HasPrefix(arg, "-l") {
      parsed := acc.(libraries := acc.libraries + [value]);
    } else {
      parsed := acc.(libraryDirs := acc.libraryDirs + [value]);
    }
  }

  /** The cases that look at one argument only. */
  method ParsePlain(arg: string, acc: ParsedArgs) returns (parsed: ParsedArgs)
    requires arg != "-c" && arg != "-shared" && arg != "-o"
    requires !HasPrefix(arg, "-I") && !HasPrefix(arg, "-D") && !HasPrefix(arg, "-l") && !HasPrefix(arg, "-L")
    ensures var kind := Classify(arg); !TakesValue(kind) && kind != Output && parsed == AddArg(acc, kind, arg)
  {
    parsed := acc;
    if arg == "--version" || arg == "-v" || arg == "-print-version" {
      parsed := parsed.(compilerFlags := parsed.compilerFlags + [arg]);
    } else if HasPrefix(arg, "-") {
      if IsCompilerOnlyFlag(arg) {
        parsed := parsed.(compilerFlags := parsed.compilerFlags + [arg]);
      } else {
        parsed := parsed.(linkerFlags := parsed.linkerFlags + [arg]);
      }
    } else if IsSourceName(arg) {
      parsed := parsed.(sources := parsed.sources + [arg]);
    } else if HasSuffix(arg, ".o") {
      parsed := parsed.(objects := parsed.objects + [arg]);
    } else if IsLibraryName(arg) {
      parsed := parsed.(libraryFiles := parsed.libraryFiles + [arg]);
    }
  }

  // ---------- The rebuilt command ----------

  function LibraryArgs(libraries: seq<string>): (args: seq<string>)
    ensures |args| == |libraries|
  {
    seq(|libraries|, i requires 0 <= i < |libraries| => "-l" + libraries[i])
  }

  /** The arguments ExecuteLinkJob passes to the compiler; library directories are not passed. */
  function Rebuild(p: ParsedArgs): seq<string> {
    (if p.shared then ["-shared"] else []) + p.objects + p.libraryFiles + LibraryArgs(p.libraries) + p.linkerFlags
    + (if p.output != "" then ["-o", p.output] else [])
  }

  /** The order in which the linker sees them: objects, library files, named libraries, linker flags
      and last the output; -shared comes before all of them. */
  lemma InputsComeInOrder(p: ParsedArgs)
    ensures var args, at := Rebuild(p), if p.shared then 1 else 0;
      var files := at + |p.objects|;
      var libs := files + |p.libraryFiles|;
      var flags := libs + |p.libraries|;
      var end := flags + |p.linkerFlags|;
      && |args| == end + (if p.output == "" then 0 else 2)
      && (p.shared ==> args[0] == "-shared")
      && args[at..files] == p.objects && args[files..libs] == p.libraryFiles
      && (forall i :: 0 <= i < |p.libraries| ==> args[libs + i] == "-l" + p.libraries[i])
      && args[flags..end] == p.linkerFlags
      && (p.output != "" ==> args[end] == "-o" && args[end + 1] == p.output)
  {
    var head := if p.shared then ["-shared"] else [];
    var tail := if p.output != "" then ["-o", p.output] else [];
    var libs := LibraryArgs(p.libraries);
    MiddlePart(head, p.objects, p.libraryFiles + libs + p.linkerFlags + tail);
    MiddlePart(head + p.objects, p.libraryFiles, libs + p.linkerFlags + tail);
    MiddlePart(head + p.objects + p.libraryFiles, libs, p.linkerFlags + tail);
    MiddlePart(head + p.objects + p.libraryFiles + libs, p.linkerFlags, tail);
    RebuildGrouped(p, head, libs, tail);
  }

  lemma MiddlePart<T>(a: seq<T>, b: seq<T>, c: seq<T>)
    ensures (a + b + c)[|a|..|a| + |b|] == b
    ensures forall i :: 0 <= i < |b| ==> (a + b + c)[|a| + i] == b[i]
  {
  }

  lemma RebuildGrouped(p: ParsedArgs, head: seq<string>, libs: seq<string>, tail: seq<string>)
    requires Rebuild(p) == head + p.objects + p.libraryFiles + libs + p.linkerFlags + tail
    ensures Rebuild(p) == head + p.objects + (p.libraryFiles + libs + p.linkerFlags + tail)
    ensures Rebuild(p) == head + p.objects + p.libraryFiles + (libs + p.linkerFlags + tail)
    ensures Rebuild(p) == head + p.objects + p.libraryFiles + libs + (p.linkerFlags + tail)
  {
  }

  method BuildLinkArgs(p: ParsedArgs) returns (args: seq<string>)
    ensures args == Rebuild(p)
  {
    args := [];
    if p.shared {
      args := args + ["-shared"];
    }
    args := args + p.objects;
    args := args + p.libraryFiles;
    ghost var before := args;
    for i := 0 to |p.libraries|
      invariant args == before + LibraryArgs(p.libraries)[..i]
    {
      args := args + ["-l" + p.libraries[i]];
    }
    assert LibraryArgs(p.libraries)[..|p.libraries|] == LibraryArgs(p.libraries);
    args := args + p.linkerFlags;
    if p.output != "" {
      args := args + ["-o", p.output];
    }
  }

  // ---------- What a parse holds ----------

  /** These arguments, each taken as kind k. */
  function WithKind(args: seq<string>, k: Kind): (ts: seq<Token>)
    ensures |ts| == |args|
  {
    seq(|args|, i requires 0 <= i < |args| => Token(k, args[i]))
  }

  ghost predicate AllLinker(ts: seq<Token>) {
    forall i :: 0 <= i < |ts| ==> ts[i].kind == LinkerFlag || ts[i].kind == Shared
  }

  ghost predicate HasShared(ts: seq<Token>) {
    exists i :: 0 <= i < |ts| && ts[i].kind == Shared
  }

  /** Lists hold only arguments of their own kind, and -shared is recorded as a linker flag. */
  ghost predicate Sorted(p: ParsedArgs) {
    && Tokens(p.objects) == WithKind(p.objects, Object)
    && Tokens(p.libraryFiles) == WithKind(p.libraryFiles, LibraryFile)
    && AllLinker(Tokens(p.linkerFlags))
    && (p.shared <==> HasShared(Tokens(p.linkerFlags)))
  }

  /** Tokens that come from classifying their text. */
  ghost predicate Classified(ts: seq<Token>) {
    forall i :: 0 <= i < |ts| ==> ts[i].kind == Classify(ts[i].text)
  }

  lemma TokensSnoc(args: seq<string>, arg: string)
    ensures Tokens(args + [arg]) == Tokens(args) + [Token(Classify(arg), arg)]
  {
  }

  lemma HasSharedSnoc(ts: seq<Token>, t: Token)
    ensures HasShared(ts + [t]) <==> HasShared(ts) || t.kind == Shared
  {
    assert (ts + [t])[|ts|] == t;
    assert forall i :: 0 <= i < |ts| ==> (ts + [t])[i] == ts[i];
  }

  lemma AddArgKeepsSorted(acc: ParsedArgs, t: Token)
    requires Sorted(acc) && t.kind == Classify(t.text)
    ensures Sorted(AddArg(acc, t.kind, t.text))
  {
    TokensSnoc(acc.objects, t.text);
    TokensSnoc(acc.libraryFiles, t.text);
    TokensSnoc(acc.linkerFlags, t.text);
    HasSharedSnoc(Tokens(acc.linkerFlags), t);
    assert t.kind == Object ==> WithKind(acc.objects + [t.text], Object) == WithKind(acc.objects, Object) + [t];
    assert t.kind == LibraryFile ==>
      WithKind(acc.libraryFiles + [t.text], LibraryFile) == WithKind(acc.libraryFiles, LibraryFile) + [t];
  }

  lemma {:induction false} ParseKeepsSorted(ts: seq<Token>, acc: ParsedArgs)
    requires Sorted(acc) && Classified(ts)
    ensures Sorted(ParseTokens(ts, acc))
    decreases |ts|
  {
    if ts != [] {
      AddArgKeepsSorted(acc, ts[0]);
      var (acc', n) := Consume(ts, acc);
      ParseKeepsSorted(ts[n..], acc');
    }
  }

  lemma ParseIsSorted(args: seq<string>)
    ensures Sorted(Parse(args))
  {
    ParseKeepsSorted(Tokens(args), NOTHING);
  }

  lemma WarningPrefixIsCompilerFlag(flag: string)
    requires HasPrefix(flag, "-W")
    ensures Classify(flag) == CompilerFlag
  {
    assert flag[..2] == "-W" && flag[1] == 'W';
    assert "-c"[1] == 'c' && "-shared"[1] == 's' && "-o"[1] == 'o';
    assert flag[..2][1] != "-I"[1] && flag[..2][1] != "-D"[1] && flag[..2][1] != "-l"[1] && flag[..2][1] != "-L"[1];
    assert HasPrefix(flag, "-") by { assert flag[..1] == "-"; }
  }

  /** Linker pass-through options ("-Wl,...") count as compiler flags, so none ever reaches a
      link command. */
  lemma PassThroughNeverLinks(args: seq<string>, i: nat)
    requires i < |Parse(args).linkerFlags|
    ensures !HasPrefix(Parse(args).linkerFlags[i], "-W")
  {
    ParseIsSorted(args);
    var flag := Parse(args).linkerFlags[i];
    var kind := Tokens(Parse(args).linkerFlags)[i].kind;
    assert kind == Classify(flag) && (kind == LinkerFlag || kind == Shared);
    if HasPrefix(flag, "-W") {
      WarningPrefixIsCompilerFlag(flag);
    }
  }

  // ---------- Parsing the rebuilt command ----------

  /** An argument without a value is added by its kind. */
  lemma ParseStep(t: Token, rest: seq<Token>, acc: ParsedArgs)
    requires !ValueIsNext(t) && !TakesValue(t.kind)
    ensures ParseTokens([t] + rest, acc) == ParseTokens(rest, AddArg(acc, t.kind, t.text))
  {
    assert ([t] + rest)[1..] == rest;
  }

  ghost predicate AllPlain(ts: seq<Token>) {
    forall i :: 0 <= i < |ts| ==> !ValueIsNext(ts[i]) && !TakesValue(ts[i].kind)
  }

  /** The arguments without a value, added one after the other. */
  function AddAll(ts: seq<Token>, acc: ParsedArgs): ParsedArgs
    decreases |ts|
  {
    if ts == [] then acc else AddAll(ts[1..], AddArg(acc, ts[0].kind, ts[0].text))
  }

  lemma {:induction false} ParseOfPlain(ts: seq<Token>, rest: seq<Token>, acc: ParsedArgs)
    requires AllPlain(ts)
    ensures ParseTokens(ts + rest, acc) == ParseTokens(rest, AddAll(ts, acc))
    decreases |ts|
  {
    if ts == [] {
      assert ts + rest == rest;
    } else {
      assert ts + rest == [ts[0]] + (ts[1..] + rest);
      ParseStep(ts[0], ts[1..] + rest, acc);
      ParseOfPlain(ts[1..], rest, AddArg(acc, ts[0].kind, ts[0].text));
    }
  }

  lemma {:induction false} AddObjects(objects: seq<string>, acc: ParsedArgs)
    ensures AddAll(WithKind(objects, Object), acc) == acc.(objects := acc.objects + objects)
    decreases |objects|
  {
    if objects == [] {
      assert acc.objects + objects == acc.objects;
    } else {
      assert WithKind(objects, Object)[1..] == WithKind(objects[1..], Object);
      AddObjects(objects[1..], acc.(objects := acc.objects + [objects[0]]));
      assert acc.objects + [objects[0]] + objects[1..] == acc.objects + objects;
    }
  }

  lemma {:induction false} AddLibraryFiles(files: seq<string>, acc: ParsedArgs)
    ensures AddAll(WithKind(files, LibraryFile), acc) == acc.(libraryFiles := acc.libraryFiles + files)
    decreases |files|
  {
    if files == [] {
      assert acc.libraryFiles + files == acc.libraryFiles;
    } else {
      assert WithKind(files, LibraryFile)[1..] == WithKind(files[1..], LibraryFile);
      AddLibraryFiles(files[1..], acc.(libraryFiles := acc.libraryFiles + [files[0]]));
      assert acc.libraryFiles + [files[0]] + files[1..] == acc.libraryFiles + files;
    }
  }

  function TextsOf(ts: seq<Token>): (r: seq<string>)
    ensures |r| == |ts|
  {
    seq(|ts|, i requires 0 <= i < |ts| => ts[i].text)
  }

  lemma HasSharedCons(t: Token, ts: seq<Token>)
    ensures HasShared([t] + ts) <==> t.kind == Shared || HasShared(ts)
  {
    assert ([t] + ts)[0] == t;
    assert forall i :: 0 <= i < |ts| ==> ([t] + ts)[i + 1] == ts[i];
  }

  lemma {:induction false} AddLinkerFlags(flags: seq<Token>, acc: ParsedArgs)
    requires AllLinker(flags)
    ensures AddAll(flags, acc) ==
      acc.(linkerFlags := acc.linkerFlags + TextsOf(flags), shared := acc.shared || HasShared(flags))
    decreases |flags|
  {
    if flags == [] {
      assert acc.linkerFlags + TextsOf(flags) == acc.linkerFlags;
    } else {
      var t, rest := flags[0], flags[1..];
      assert flags == [t] + rest;
      HasSharedCons(t, rest);
      var acc' := AddArg(acc, t.kind, t.text);
      AddLinkerFlags(rest, acc');
      assert acc'.linkerFlags == acc.linkerFlags + [t.text] && acc'.shared == (acc.shared || t.kind == Shared);
      assert acc.linkerFlags + [t.text] + TextsOf(rest) == acc.linkerFlags + TextsOf(flags);
    }
  }

  /** The tokens of rebuilt -l arguments. */
  function LibraryTokens(libraries: seq<string>): seq<Token> { WithKind(LibraryArgs(libraries), Library) }

  lemma LibraryArgsClassify(libraries: seq<string>)
    ensures Tokens(LibraryArgs(libraries)) == LibraryTokens(libraries)
  {
    forall i | 0 <= i < |libraries| ensures Classify("-l" + libraries[i]) == Library
    {
      LibraryArgIsLibrary(libraries[i]);
    }
  }

  lemma LibraryArgIsLibrary(name: string)
    ensures Classify("-l" + name) == Library && ("-l" + name)[2..] == name
  {
    var arg := "-l" + name;
    assert arg[..2] == "-l" && arg[1] == 'l';
    assert "-shared"[1] == 's' && "-I"[1] == 'I' && "-D"[1] == 'D' && "-c"[1] == 'c' && "-o"[1] == 'o';
  }

  lemma ParseConsumed(t: Token, rest: seq<Token>, acc: ParsedArgs, acc': ParsedArgs)
    requires ConsumeOne(t, if rest == [] then None else Some(rest[0].text), acc) == (acc', 1)
    ensures ParseTokens([t] + rest, acc) == ParseTokens(rest, acc')
  {
    var ts := [t] + rest;
    assert ts[0] == t && ts[1..] == rest;
    assert rest != [] ==> ts[1] == rest[0];
  }

  lemma ParseLibraryStep(name: string, rest: seq<Token>, acc: ParsedArgs)
    requires name != ""
    ensures ParseTokens([Token(Library, "-l" + name)] + rest, acc) ==
      ParseTokens(rest, acc.(libraries := acc.libraries + [name]))
  {
    var t := Token(Library, "-l" + name);
    assert t.text[2..] == name;
    var following := if rest == [] then None else Some(rest[0].text);
    assert ConsumeOne(t, following, acc) == (acc.(libraries := acc.libraries + [name]), 1);
    ParseConsumed(t, rest, acc, acc.(libraries := acc.libraries + [name]));
  }

  lemma LibraryTokensCons(libraries: seq<string>, rest: seq<Token>)
    requires libraries != []
    ensures LibraryTokens(libraries) + rest ==
      [Token(Library, "-l" + libraries[0])] + (LibraryTokens(libraries[1..]) + rest)
  {
    assert LibraryTokens(libraries) == [Token(Library, "-l" + libraries[0])] + LibraryTokens(libraries[1..]);
  }

  lemma {:induction false} ParseLibraries(libraries: seq<string>, rest: seq<Token>, acc: ParsedArgs)
    requires forall i :: 0 <= i < |libraries| ==> libraries[i] != ""
    ensures ParseTokens(LibraryTokens(libraries) + rest, acc) ==
      ParseTokens(rest, acc.(libraries := acc.libraries + libraries))
    decreases |libraries|
  {
    if libraries == [] {
      assert LibraryTokens(libraries) + rest == rest && acc.libraries + libraries == acc.libraries;
    } else {
      var more := LibraryTokens(libraries[1..]) + rest;
      LibraryTokensCons(libraries, rest);
      ParseLibraryStep(libraries[0], more, acc);
      ParseLibraries(libraries[1..], rest, acc.(libraries := acc.libraries + [libraries[0]]));
      assert acc.libraries + [libraries[0]] + libraries[1..] == acc.libraries + libraries;
    }
  }

  function OutputArgs(p: ParsedArgs): seq<string> { if p.output != "" then ["-o", p.output] else [] }

  function OutputTokens(p: ParsedArgs): seq<Token> {
    if p.output != "" then [Token(Output, "-o"), Token(Classify(p.output), p.output)] else []
  }

  /** The end of every rebuilt command: linker flags, then the output if there is one. */
  function Tail(p: ParsedArgs): seq<Token> { Tokens(p.linkerFlags) + OutputTokens(p) }

  lemma ParseTail(p: ParsedArgs, acc: ParsedArgs)
    requires Sorted(p) && acc.output == ""
    ensures ParseTokens(Tail(p), acc) ==
      acc.(linkerFlags := acc.linkerFlags + p.linkerFlags, shared := acc.shared || p.shared, output := p.output)
  {
    var last := OutputTokens(p);
    ParseOfPlain(Tokens(p.linkerFlags), last, acc);
    AddLinkerFlags(Tokens(p.linkerFlags), acc);
    assert TextsOf(Tokens(p.linkerFlags)) == p.linkerFlags;
    assert p.output != "" ==> last[2..] == [];
  }

  function SharedHead(p: ParsedArgs): seq<string> { if p.shared then ["-shared"] else [] }

  /** The kinds of the rebuilt arguments. */
  function RebuiltTokens(p: ParsedArgs): seq<Token> {
    WithKind(SharedHead(p), Shared) +
    (WithKind(p.objects, Object) + (WithKind(p.libraryFiles, LibraryFile) + (LibraryTokens(p.libraries) + Tail(p))))
  }

  lemma TokensOfRebuild(p: ParsedArgs)
    requires Sorted(p)
    ensures Tokens(Rebuild(p)) == RebuiltTokens(p)
  {
    LibraryArgsClassify(p.libraries);
    assert Classify("-shared") == Shared by { assert "-shared"[1] == 's'; }
    assert Classify("-o") == Output by { assert "-o"[1] == 'o' && "-c"[1] == 'c'; }
    assert Tokens(SharedHead(p)) == WithKind(SharedHead(p), Shared);
    assert Tokens(OutputArgs(p)) == OutputTokens(p);
    var d := p.linkerFlags + OutputArgs(p);
    var c := LibraryArgs(p.libraries) + d;
    var b := p.libraryFiles + c;
    var a := p.objects + b;
    assert Rebuild(p) == SharedHead(p) + a;
    TokensConcat(SharedHead(p), a);
    TokensConcat(p.objects, b);
    TokensConcat(p.libraryFiles, c);
    TokensConcat(LibraryArgs(p.libraries), d);
    TokensConcat(p.linkerFlags, OutputArgs(p));
  }

  lemma TokensConcat(a: seq<string>, b: seq<string>)
    ensures Tokens(a + b) == Tokens(a) + Tokens(b)
  {
  }

  function AfterShared(p: ParsedArgs): ParsedArgs {
    NOTHING.(shared := p.shared, linkerFlags := SharedHead(p))
  }

  /** Everything up to the libraries. */
  function BeforeLibraries(p: ParsedArgs): ParsedArgs {
    AfterShared(p).(objects := p.objects, libraryFiles := p.libraryFiles)
  }

  lemma ParseSharedHead(p: ParsedArgs, rest: seq<Token>)
    ensures ParseTokens(WithKind(SharedHead(p), Shared) + rest, NOTHING) == ParseTokens(rest, AfterShared(p))
  {
    var head := WithKind(SharedHead(p), Shared);
    ParseOfPlain(head, rest, NOTHING);
    AddLinkerFlags(head, NOTHING);
    assert NOTHING.linkerFlags + TextsOf(head) == SharedHead(p);
    assert HasShared(head) <==> p.shared by {
      assert p.shared ==> head[0].kind == Shared;
    }
  }

  lemma ParseInputs(p: ParsedArgs, rest: seq<Token>)
    ensures ParseTokens(WithKind(p.objects, Object) + (WithKind(p.libraryFiles, LibraryFile) + rest), AfterShared(p)) ==
      ParseTokens(rest, BeforeLibraries(p))
  {
    ParseOfPlain(WithKind(p.objects, Object), WithKind(p.libraryFiles, LibraryFile) + rest, AfterShared(p));
    AddFirstObjects(p.objects, AfterShared(p));
    var acc := AfterShared(p).(objects := p.objects);
    ParseOfPlain(WithKind(p.libraryFiles, LibraryFile), rest, acc);
    AddFirstLibraryFiles(p.libraryFiles, acc);
  }

  lemma AddFirstObjects(objects: seq<string>, acc: ParsedArgs)
    requires acc.objects == []
    ensures AddAll(WithKind(objects, Object), acc) == acc.(objects := objects)
  {
    AddObjects(objects, acc);
    assert [] + objects == objects;
  }

  lemma AddFirstLibraryFiles(files: seq<string>, acc: ParsedArgs)
    requires acc.libraryFiles == []
    ensures AddAll(WithKind(files, LibraryFile), acc) == acc.(libraryFiles := files)
  {
    AddLibraryFiles(files, acc);
    assert [] + files == files;
  }

  lemma ParseUpToLibraries(p: ParsedArgs)
    ensures ParseTokens(RebuiltTokens(p), NOTHING) ==
      ParseTokens(LibraryTokens(p.libraries) + Tail(p), BeforeLibraries(p))
  {
    var rest := LibraryTokens(p.libraries) + Tail(p);
    ParseSharedHead(p, WithKind(p.objects, Object) + (WithKind(p.libraryFiles, LibraryFile) + rest));
    ParseInputs(p, rest);
  }

  /** The rebuilt link command parses to the same mode, shared flag, objects, library files,
      libraries and output; only one -shared is added in front of the linker flags. Compiler
      flags, sources and search directories are gone. */
  lemma LinkCommandIsStable(args: seq<string>)
    requires Parse(args).mode == Link
    requires forall i :: 0 <= i < |Parse(args).libraries| ==> Parse(args).libraries[i] != ""
    ensures var p := Parse(args);
      Parse(Rebuild(p)) ==
        NOTHING.(mode := Link, shared := p.shared, output := p.output, objects := p.objects, libraries := p.libraries,
                 libraryFiles := p.libraryFiles, linkerFlags := (if p.shared then ["-shared"] else []) + p.linkerFlags)
  {
    var p := Parse(args);
    ParseIsSorted(args);
    LinkModeHasObjects(args);
    TokensOfRebuild(p);
    ParseUpToLibraries(p);
    var acc := BeforeLibraries(p);
    ParseLibraries(p.libraries, Tail(p), acc);
    assert acc.libraries + p.libraries == p.libraries;
    ParseTail(p, acc.(libraries := p.libraries));
  }

  lemma LinkModeHasObjects(args: seq<string>)
    requires Parse(args).mode == Link
    ensures Parse(args).objects != []
  {
    NeverLinkBeforeEnd(Tokens(args), NOTHING);
  }

  lemma {:induction false} NeverLinkBeforeEnd(ts: seq<Token>, acc: ParsedArgs)
    requires acc.mode != Link
    ensures ParseTokens(ts, acc).mode != Link
    decreases |ts|
  {
    if ts != [] {
      var (acc', n) := Consume(ts, acc);
      NeverLinkBeforeEnd(ts[n..], acc');
    }
  }

  // ---------- When it is not stable ----------

  lemma {:induction false} LibrariesOnlyGrow(ts: seq<Token>, acc: ParsedArgs)
    ensures acc.libraries <= ParseTokens(ts, acc).libraries
    decreases |ts|
  {
    if ts != [] {
      var (acc', n) := Consume(ts, acc);
      LibrariesOnlyGrow(ts[n..], acc');
    }
  }

  /** A bare -l swallows the argument after it. */
  lemma BareLibraryTakesNext(rest: seq<Token>, acc: ParsedArgs) returns (found: seq<string>)
    requires rest != []
    ensures found == ParseTokens([Token(Library, "-l")] + rest, acc).libraries
    ensures |found| > |acc.libraries| && found[|acc.libraries|] == rest[0].text
  {
    var ts := [Token(Library, "-l")] + rest;
    assert ts[1] == rest[0] && ts[2..] == rest[1..];
    var acc2 := acc.(libraries := acc.libraries + [rest[0].text]);
    LibrariesOnlyGrow(rest[1..], acc2);
    found := ParseTokens(ts, acc).libraries;
  }

  /** Whatever follows a rebuilt -l argument is not empty: another -l, a flag, or -o. */
  lemma NextIsNotEmpty(after: seq<string>, p: ParsedArgs)
    requires Sorted(p)
    ensures var rest := LibraryTokens(after) + Tail(p); rest != [] ==> rest[0].text != ""
  {
    var rest := LibraryTokens(after) + Tail(p);
    if after == [] && p.linkerFlags != [] {
      assert rest[0] == Tokens(p.linkerFlags)[0];
      assert Classify("") == Ignored;
    }
  }

  /** An empty library name is rebuilt as a bare -l, so what follows takes its place, or the name
      is lost at the end of the command. */
  lemma EmptyLibraryIsReplaced(p: ParsedArgs, i: nat, acc: ParsedArgs)
    requires Sorted(p) && acc.libraries == []
    requires i < |p.libraries| && p.libraries[i] == "" && forall j :: 0 <= j < i ==> p.libraries[j] != ""
    ensures ParseTokens(LibraryTokens(p.libraries) + Tail(p), acc).libraries != p.libraries
  {
    var before, after := p.libraries[..i], p.libraries[i + 1..];
    var rest := LibraryTokens(after) + Tail(p);
    assert "-l" + "" == "-l";
    assert LibraryTokens(p.libraries) == LibraryTokens(before) + [Token(Library, "-l")] + LibraryTokens(after);
    assert LibraryTokens(p.libraries) + Tail(p) == LibraryTokens(before) + ([Token(Library, "-l")] + rest);
    ParseLibraries(before, [Token(Library, "-l")] + rest, acc);
    assert acc.libraries + before == before;
    var acc' := acc.(libraries := before);
    if rest == [] {
      BareLibraryAtEndIsLost(acc');
      assert [Token(Library, "-l")] + rest == [Token(Library, "-l")];
    } else {
      NextIsNotEmpty(after, p);
      var found := BareLibraryTakesNext(rest, acc');
      assert found[i] != "";
    }
  }

  lemma BareLibraryAtEndIsLost(acc: ParsedArgs)
    ensures ParseTokens([Token(Library, "-l")], acc) == acc
  {
    var ts := [Token(Library, "-l")];
    assert ts[1..] == [];
  }

  /** The libraries survive exactly when none of them has an empty name. */
  lemma LibrariesSurviveIffNamed(args: seq<string>)
    requires Parse(args).mode == Link
    ensures Parse(Rebuild(Parse(args))).libraries == Parse(args).libraries <==>
      forall i :: 0 <= i < |Parse(args).libraries| ==> Parse(args).libraries[i] != ""
  {
    var p := Parse(args);
    if forall i :: 0 <= i < |p.libraries| ==> p.libraries[i] != "" {
      LinkCommandIsStable(args);
    } else {
      ParseIsSorted(args);
      TokensOfRebuild(p);
      ParseUpToLibraries(p);
      var i := FirstEmpty(p.libraries);
      EmptyLibraryIsReplaced(p, i, BeforeLibraries(p));
    }
  }

  lemma {:induction false} FirstEmpty(names: seq<string>) returns (i: nat)
    requires exists k :: 0 <= k < |names| && names[k] == ""
    ensures i < |names| && names[i] == "" && forall j :: 0 <= j < i ==> names[j] != ""
  {
    if names[0] == "" {
      i := 0;
    } else {
      var k := FirstEmpty(names[1..]);
      i := k + 1;
    }
  }
}
