/** gcc command lines as they are written: what each argument means, independently of the parser. */
module LinkSyntax {
  import opened Wrappers
  import opened Strings
  import opened LinkCommands

  /** One option or input. A value is attached to its option or follows it. */
  datatype Item =
    | CompileFlag
    | SharedFlag
    | OutputTo(path: string)
    | IncludeDir(value: string, attached: bool)
    | Definition(value: string, attached: bool)
    | NamedLibrary(value: string, attached: bool)
    | SearchDir(value: string, attached: bool)
    | CompilerOption(flag: string)
    | LinkerOption(flag: string)
    | SourceFile(name: string)
    | ObjectFile(name: string)
    | LibraryPath(name: string)
    | OtherInput(name: string)

  function WithValue(option: string, value: string, attached: bool): seq<string> {
    if attached then [option + value] else [option, value]
  }

  function Written(item: Item): (texts: seq<string>)
    ensures 1 <= |texts| <= 2
  {
    match item
    case CompileFlag => ["-c"]
    case SharedFlag => ["-shared"]
    case OutputTo(path) => ["-o", path]
    case IncludeDir(v, a) => WithValue("-I", v, a)
    case Definition(v, a) => WithValue("-D", v, a)
    case NamedLibrary(v, a) => WithValue("-l", v, a)
    case SearchDir(v, a) => WithValue("-L", v, a)
    case CompilerOption(f) => [f]
    case LinkerOption(f) => [f]
    case SourceFile(n) => [n]
    case ObjectFile(n) => [n]
    case LibraryPath(n) => [n]
    case OtherInput(n) => [n]
  }

  /** An option that is none of those with a place of their own. */
  predicate IsOtherOption(f: string) {
    && HasPrefix(f, "-") && f != "-c" && f != "-shared" && f != "-o"
    && !HasPrefix(f, "-I") && !HasPrefix(f, "-D") && !HasPrefix(f, "-l") && !HasPrefix(f, "-L")
  }

  predicate IsCompilerOption(f: string) {
    f == "--version" || f == "-v" || f == "-print-version" || IsCompilerOnlyFlag(f)
  }

  predicate EndsLikeSource(n: string) {
    || HasSuffix(n, ".c") || HasSuffix(n, ".cpp") || HasSuffix(n, ".cc")
    || HasSuffix(n, ".cxx") || HasSuffix(n, ".C") || HasSuffix(n, ".c++")
  }

  predicate EndsLikeLibrary(n: string) {
    HasSuffix(n, ".a") || HasSuffix(n, ".so") || HasSuffix(n, ".lib") || HasSuffix(n, ".dll")
  }

  /** An attached value is not empty; options and inputs are of the kind they are listed as. */
  predicate Fits(item: Item) {
    match item
    case IncludeDir(v, a) => a ==> v != ""
    case Definition(v, a) => a ==> v != ""
    case NamedLibrary(v, a) => a ==> v != ""
    case SearchDir(v, a) => a ==> v != ""
    case CompilerOption(f) => IsOtherOption(f) && IsCompilerOption(f)
    case LinkerOption(f) => IsOtherOption(f) && !IsCompilerOption(f)
    case SourceFile(n) => !HasPrefix(n, "-") && EndsLikeSource(n)
    case ObjectFile(n) => !HasPrefix(n, "-") && HasSuffix(n, ".o")
    case LibraryPath(n) => !HasPrefix(n, "-") && EndsLikeLibrary(n)
    case OtherInput(n) => !HasPrefix(n, "-") && !EndsLikeSource(n) && !HasSuffix(n, ".o") && !EndsLikeLibrary(n)
    case _ => true
  }

  /** What an item adds to a parse. */
  function Add(acc: ParsedArgs, item: Item): ParsedArgs {
    match item
    case CompileFlag => acc.(mode := CompileOnly)
    case SharedFlag => acc.(shared := true, linkerFlags := acc.linkerFlags + ["-shared"])
    case OutputTo(path) => acc.(output := path)
    case IncludeDir(v, _) => acc.(includes := acc.includes + [v])
    case Definition(v, _) => acc.(defines := acc.defines + [v])
    case NamedLibrary(v, _) => acc.(libraries := acc.libraries + [v])
    case SearchDir(v, _) => acc.(libraryDirs := acc.libraryDirs + [v])
    case CompilerOption(f) => acc.(compilerFlags := acc.compilerFlags + [f])
    case LinkerOption(f) => acc.(linkerFlags := acc.linkerFlags + [f])
    case SourceFile(n) => acc.(sources := acc.sources + [n])
    case ObjectFile(n) => acc.(objects := acc.objects + [n])
    case LibraryPath(n) => acc.(libraryFiles := acc.libraryFiles + [n])
    case OtherInput(_) => acc
  }

  function AddItems(acc: ParsedArgs, items: seq<Item>): ParsedArgs
    decreases |items|
  {
    if items == [] then acc else AddItems(Add(acc, items[0]), items[1..])
  }

  function CommandLine(items: seq<Item>): seq<string> {
    if items == [] then [] else Written(items[0]) + CommandLine(items[1..])
  }

  /** An option whose value is missing at the end of the command line. */
  predicate IsBareEnd(args: seq<string>) {
    args == [] || (|args| == 1 && args[0] in {"-o", "-I", "-D", "-l", "-L"})
  }

  // ---------- Reading one item ----------

  lemma EndsDiffer(n: string)
    ensures HasSuffix(n, ".o") ==> !EndsLikeSource(n) && !EndsLikeLibrary(n)
    ensures EndsLikeLibrary(n) ==> !EndsLikeSource(n)
  {
    if HasSuffix(n, ".o") || EndsLikeLibrary(n) || EndsLikeSource(n) {
      var last := n[|n| - 1];
      LastOf(n, ".o");
      LastOf(n, ".a");
      LastOf(n, ".so");
      LastOf(n, ".lib");
      LastOf(n, ".dll");
      LastOf(n, ".c");
      LastOf(n, ".cpp");
      LastOf(n, ".cc");
      LastOf(n, ".cxx");
      LastOf(n, ".C");
      LastOf(n, ".c++");
    }
  }

  /** A suffix fixes the last two characters. */
  lemma LastOf(n: string, suffix: string)
    requires |suffix| >= 2
    ensures HasSuffix(n, suffix) ==>
      && |n| >= 2 && n[|n| - 1] == suffix[|suffix| - 1] && n[|n| - 2] == suffix[|suffix| - 2]
  {
    if HasSuffix(n, suffix) {
      var tail := n[|n| - |suffix|..];
      assert tail[|suffix| - 1] == n[|n| - 1] && tail[|suffix| - 2] == n[|n| - 2];
    }
  }

  lemma InputKinds(n: string)
    requires !HasPrefix(n, "-")
    ensures Classify(n) ==
      if EndsLikeSource(n) then Source
      else if HasSuffix(n, ".o") then Object
      else if EndsLikeLibrary(n) then LibraryFile
      else Ignored
  {
    assert n != "" ==> n[..1] == [n[0]];
    PrefixBegins(n, "-I");
    PrefixBegins(n, "-D");
    PrefixBegins(n, "-l");
    PrefixBegins(n, "-L");
  }

  lemma PrefixBegins(n: string, p: string)
    requires p != ""
    ensures HasPrefix(n, p) ==> n != "" && n[0] == p[0]
  {
    if HasPrefix(n, p) {
      assert n[..|p|][0] == n[0];
    }
  }

  /** Each two-letter option is read as itself, with or without its value attached. */
  lemma ValueOptionKinds(value: string)
    ensures Classify("-I" + value) == Include && Classify("-D" + value) == Define
    ensures Classify("-l" + value) == Library && Classify("-L" + value) == LibraryDir
  {
    SecondLetter("-I", value);
    SecondLetter("-D", value);
    SecondLetter("-l", value);
    SecondLetter("-L", value);
  }

  lemma SecondLetter(option: string, value: string)
    requires |option| == 2
    ensures (option + value)[..2] == option && (option + value)[1] == option[1]
    ensures HasPrefix(option + value, option)
    ensures forall p: string :: |p| == 2 && HasPrefix(option + value, p) ==> p == option
  {
  }

  lemma FixedKinds()
    ensures Classify("-c") == DashC && Classify("-shared") == Shared && Classify("-o") == Output
  {
    assert "-shared"[1] == 's' && "-o"[1] == 'o' && "-c"[1] == 'c';
  }

  function KindOf(item: Item): Kind {
    match item
    case CompileFlag => DashC
    case SharedFlag => Shared
    case OutputTo(_) => Output
    case IncludeDir(_, _) => Include
    case Definition(_, _) => Define
    case NamedLibrary(_, _) => Library
    case SearchDir(_, _) => LibraryDir
    case CompilerOption(_) => CompilerFlag
    case LinkerOption(_) => LinkerFlag
    case SourceFile(_) => Source
    case ObjectFile(_) => Object
    case LibraryPath(_) => LibraryFile
    case OtherInput(_) => Ignored
  }

  predicate IsInput(item: Item) { item.SourceFile? || item.ObjectFile? || item.LibraryPath? || item.OtherInput? }

  predicate HasValue(item: Item) {
    item.IncludeDir? || item.Definition? || item.NamedLibrary? || item.SearchDir?
  }

  /** The first text of a written item is of the item's kind. */
  lemma FirstTextKind(item: Item)
    requires Fits(item)
    ensures Classify(Written(item)[0]) == KindOf(item)
  {
    if IsInput(item) {
      EndsDiffer(item.name);
      InputKinds(item.name);
    } else if HasValue(item) {
      ValueIsRead(item.value);
    } else {
      FixedKinds();
    }
  }

  /** The parser reads a written item as what it adds, whatever follows. */
  lemma ItemIsConsumed(item: Item, following: Option<string>, acc: ParsedArgs)
    requires Fits(item) && (|Written(item)| == 2 ==> following == Some(Written(item)[1]))
    ensures ConsumeOne(Token(KindOf(item), Written(item)[0]), following, acc) == (Add(acc, item), |Written(item)|)
  {
    if HasValue(item) {
      ValueItemIsConsumed(item, following, acc);
    } else {
      PlainItemIsConsumed(item, following, acc);
    }
  }

  lemma PlainItemIsConsumed(item: Item, following: Option<string>, acc: ParsedArgs)
    requires !HasValue(item) && (item.OutputTo? ==> following == Some(item.path))
    ensures ConsumeOne(Token(KindOf(item), Written(item)[0]), following, acc) == (Add(acc, item), |Written(item)|)
  {
  }

  lemma ValueItemIsConsumed(item: Item, following: Option<string>, acc: ParsedArgs)
    requires HasValue(item) && (if item.attached then item.value != "" else following == Some(item.value))
    ensures ConsumeOne(Token(KindOf(item), Written(item)[0]), following, acc) == (Add(acc, item), |Written(item)|)
  {
    ValueIsRead(item.value);
  }

  lemma ValueIsRead(value: string)
    ensures Classify("-I" + value) == Include && Classify("-D" + value) == Define
    ensures Classify("-l" + value) == Library && Classify("-L" + value) == LibraryDir
    ensures Classify("-I") == Include && Classify("-D") == Define
    ensures Classify("-l") == Library && Classify("-L") == LibraryDir
    ensures ("-I" + value)[2..] == value && ("-D" + value)[2..] == value
    ensures ("-l" + value)[2..] == value && ("-L" + value)[2..] == value
  {
    ValueOptionKinds(value);
    ValueOptionKinds("");
    assert "-I" + "" == "-I" && "-D" + "" == "-D" && "-l" + "" == "-l" && "-L" + "" == "-L";
  }

  // ---------- Whole command lines ----------

  lemma ParseAfter(first: seq<string>, rest: seq<string>, acc: ParsedArgs, acc': ParsedArgs)
    requires first != []
    requires ConsumeOne(Token(Classify(first[0]), first[0]), Following(first + rest, 0), acc) == (acc', |first|)
    ensures ParseTokens(Tokens(first + rest), acc) == ParseTokens(Tokens(rest), acc')
  {
    ParseFrom(first + rest, 0, acc);
    assert Tokens(first + rest)[0..] == Tokens(first + rest) && Tokens(first + rest)[|first|..] == Tokens(rest);
  }

  lemma ItemIsParsed(item: Item, rest: seq<string>, acc: ParsedArgs)
    requires Fits(item)
    ensures ParseTokens(Tokens(Written(item) + rest), acc) == ParseTokens(Tokens(rest), Add(acc, item))
  {
    FirstTextKind(item);
    ItemIsConsumed(item, Following(Written(item) + rest, 0), acc);
    ParseAfter(Written(item), rest, acc, Add(acc, item));
  }

  lemma {:induction false} ItemsAreParsed(items: seq<Item>, end: seq<string>, acc: ParsedArgs)
    requires (forall i :: 0 <= i < |items| ==> Fits(items[i])) && IsBareEnd(end)
    ensures ParseTokens(Tokens(CommandLine(items) + end), acc) == AddItems(acc, items)
    decreases |items|
  {
    var args := CommandLine(items) + end;
    if items == [] {
      assert args == end;
      BareEndAddsNothing(end, acc);
    } else {
      var rest := CommandLine(items[1..]) + end;
      assert args == Written(items[0]) + rest;
      ItemIsParsed(items[0], rest, acc);
      ItemsAreParsed(items[1..], end, Add(acc, items[0]));
    }
  }

  lemma BareEndAddsNothing(end: seq<string>, acc: ParsedArgs)
    requires IsBareEnd(end)
    ensures ParseTokens(Tokens(end), acc) == acc
  {
    if end != [] {
      FixedKinds();
      ValueIsRead("");
      ParseFrom(end, 0, acc);
      assert Tokens(end)[0..] == Tokens(end) && Tokens(end)[1..] == [];
    }
  }

  /** A command line is parsed to what its items say, in order, and to a link exactly when it names
      objects but neither sources nor -c. */
  lemma CommandLineMeansItsItems(items: seq<Item>, end: seq<string>)
    requires (forall i :: 0 <= i < |items| ==> Fits(items[i])) && IsBareEnd(end)
    ensures var said, p := AddItems(NOTHING, items), Parse(CommandLine(items) + end);
      && p == said.(mode := p.mode)
      && (p.mode == CompileOnly <==> CompileFlag in items)
      && (p.mode == Link <==> CompileFlag !in items && p.sources == [] && p.objects != [])
  {
    ItemsAreParsed(items, end, NOTHING);
    ModeOfItems(NOTHING, items);
  }

  lemma {:induction false} ModeOfItems(acc: ParsedArgs, items: seq<Item>)
    requires acc.mode != Link
    ensures AddItems(acc, items).mode == if CompileFlag in items then CompileOnly else acc.mode
    decreases |items|
  {
    if items != [] {
      ModeOfItems(Add(acc, items[0]), items[1..]);
    }
  }

  /** Every argument list is a command line of fitting items, possibly ending in an option without
      its value: so the meaning above covers everything the parser can be given. */
  lemma {:induction false} EveryArgumentListIsWritten(args: seq<string>) returns (items: seq<Item>, end: seq<string>)
    ensures forall i :: 0 <= i < |items| ==> Fits(items[i])
    ensures IsBareEnd(end) && args == CommandLine(items) + end
    decreases |args|
  {
    if IsBareEnd(args) {
      items, end := [], args;
    } else {
      var item := FirstItem(args);
      var rest := args[|Written(item)|..];
      var more;
      more, end := EveryArgumentListIsWritten(rest);
      items := [item] + more;
      CommandLineCons(item, more, end);
      assert args == Written(item) + rest;
    }
  }

  lemma CommandLineCons(item: Item, more: seq<Item>, end: seq<string>)
    ensures CommandLine([item] + more) + end == Written(item) + (CommandLine(more) + end)
  {
    assert ([item] + more)[1..] == more;
  }

  lemma ValueItem(args: seq<string>) returns (item: Item)
    requires !IsBareEnd(args)
    requires var arg := args[0];
      HasPrefix(arg, "-I") || HasPrefix(arg, "-D") || HasPrefix(arg, "-l") || HasPrefix(arg, "-L")
    ensures Fits(item) && |Written(item)| <= |args| && Written(item) == args[..|Written(item)|]
  {
    var arg := args[0];
    assert arg == arg[..2] + arg[2..];
    if |arg| > 2 {
      item := OptionWith(arg[..2], arg[2..], true);
      assert Written(item) == [arg];
    } else {
      assert arg == arg[..2];
      item := OptionWith(arg[..2], args[1], false);
      assert Written(item) == [arg, args[1]];
    }
  }

  function OptionWith(option: string, value: string, attached: bool): Item {
    if option == "-I" then IncludeDir(value, attached)
    else if option == "-D" then Definition(value, attached)
    else if option == "-l" then NamedLibrary(value, attached)
    else SearchDir(value, attached)
  }

  lemma FirstItem(args: seq<string>) returns (item: Item)
    requires !IsBareEnd(args)
    ensures Fits(item) && |Written(item)| <= |args| && Written(item) == args[..|Written(item)|]
  {
    var arg := args[0];
    if arg == "-c" {
      item := CompileFlag;
    } else if arg == "-shared" {
      item := SharedFlag;
    } else if arg == "-o" {
      item := OutputTo(args[1]);
    } else if HasPrefix(arg, "-I") || HasPrefix(arg, "-D") || HasPrefix(arg, "-l") || HasPrefix(arg, "-L") {
      item := ValueItem(args);
    } else if HasPrefix(arg, "-") {
      item := if IsCompilerOption(arg) then CompilerOption(arg) else LinkerOption(arg);
    } else {
      item := if EndsLikeSource(arg) then SourceFile(arg)
      else if HasSuffix(arg, ".o") then ObjectFile(arg)
      else if EndsLikeLibrary(arg) then LibraryPath(arg)
      else OtherInput(arg);
    }
  }
}
