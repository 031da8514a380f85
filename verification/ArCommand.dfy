/** The ar driver's command-line parser and the command the executor rebuilds from it. */
module ArCommands {
  import opened Strings

  datatype Mode = Write | Update | Create | Verbose | Quick

  datatype ParsedArgs = ParsedArgs(flags: seq<string>, inputs: seq<string>, output: string, mode: Mode)

  // ---------- Recognising arguments ----------

  predicate IsCommandChar(c: char) {
    c in ['d', 'D', 'm', 'M', 'p', 'P', 'q', 'Q', 'r', 'R', 's', 'S', 't', 'T', 'x', 'X']
  }

  predicate IsModifierChar(c: char) {
    c in ['a', 'A', 'b', 'B', 'c', 'C', 'D', 'f', 'F', 'i', 'I', 'l', 'L', 'M', 'N', 'o', 'O', 'P', 's', 'S', 'T', 'u',
      'U', 'v', 'V']
  }

  function WithoutDash(s: string): string { if HasPrefix(s, "-") then s[1..] else s }

  ghost predicate AllModifiers(s: string) { forall i :: 0 <= i < |s| ==> IsModifierChar(s[i]) }

  /** A command letter, after an optional dash, followed only by modifier letters. */
  ghost predicate IsCommandString(s: string) {
    var str := WithoutDash(s);
    str != "" && IsCommandChar(str[0]) && AllModifiers(str[1..])
  }

  predicate TakesValue(arg: string) { arg == "--plugin" || arg == "--target" || arg == "--output" }

  /** What skipOption accepts. */
  ghost predicate IsOption(arg: string) {
    HasPrefix(arg, "--") || HasPrefix(arg, "@") || (HasPrefix(arg, "-") && !IsCommandString(arg))
  }

  /** How many arguments an option occupies; "--name=value" never takes a second one. */
  function OptionWidth(args: seq<string>, i: nat): (n: nat)
    requires i < |args|
    ensures 1 <= n <= 2 && i + n <= |args|
  {
    if TakesValue(args[i]) && i + 1 < |args| then 2 else 1
  }

  // ---------- The parse as a function ----------

  /** Each character of the command string as a flag of its own. */
  function SplitFlags(s: string): (flags: seq<string>)
    ensures |flags| == |s|
  {
    seq(|s|, i requires 0 <= i < |s| => [s[i]])
  }

  /** Options up to the command, the command's flags if there is one, and where it ends. */
  ghost function FindCommand(args: seq<string>, i: nat): (seq<string>, nat)
    requires i <= |args|
    decreases |args| - i
  {
    if i == |args| then ([], i)
    else if IsCommandString(args[i]) then (SplitFlags(WithoutDash(args[i])), i + 1)
    else if IsOption(args[i]) then FindCommand(args, i + OptionWidth(args, i))
    else ([], i)
  }

  ghost function SkipOptions(args: seq<string>, i: nat): (j: nat)
    requires i <= |args|
    ensures i <= j <= |args| && (j < |args| ==> !IsOption(args[j]))
    decreases |args| - i
  {
    if i < |args| && IsOption(args[i]) then SkipOptions(args, i + OptionWidth(args, i)) else i
  }

  function ToLower(c: char): char {
    if 'A' <= c <= 'Z' then ((c as int) + 32) as char else c
  }

  /** The mode set by the last flag that sets one. */
  function ModeOf(flags: seq<string>): Mode {
    if flags == [] then Write
    else
      var before := ModeOf(flags[..|flags| - 1]);
      var last := flags[|flags| - 1];
      if |last| != 1 then before
      else
        match ToLower(last[0])
        case 'r' => Write
        case 'u' => Update
        case 'c' => Create
        case 'v' => Verbose
        case 'q' => Quick
        case _ => before
  }

  /** What remains of a parse once it is known where the flags end. */
  ghost function ParseBehind(flags: seq<string>, args: seq<string>, i: nat): ParsedArgs
    requires i <= |args|
  {
    var j := SkipOptions(args, i);
    ParsedArgs(flags, if j < |args| then args[j + 1..] else [], if j < |args| then args[j] else "", ModeOf(flags))
  }

  ghost function Parse(args: seq<string>): ParsedArgs {
    FindCommandEnds(args, 0);
    ParseBehind(FindCommand(args, 0).0, args, FindCommand(args, 0).1)
  }

  lemma {:induction false} FindCommandEnds(args: seq<string>, i: nat)
    requires i <= |args|
    ensures var (flags, j) := FindCommand(args, i);
      && i <= j <= |args|
      && (flags == [] && j < |args| ==> !IsCommandString(args[j]) && !IsOption(args[j]))
      && (flags != [] ==> exists s :: IsCommandString(s) && s == WithoutDash(s) && flags == SplitFlags(s))
    decreases |args| - i
  {
    if i < |args| {
      if IsCommandString(args[i]) {
        var s := WithoutDash(args[i]);
        assert s == WithoutDash(s) by { assert s[0] != '-'; }
        assert FindCommand(args, i) == (SplitFlags(s), i + 1);
        assert IsCommandString(s);
      } else if IsOption(args[i]) {
        FindCommandEnds(args, i + OptionWidth(args, i));
      }
    }
  }

  // ---------- The parser's loops ----------

  method IsCommand(s: string) returns (r: bool)
    ensures r <==> IsCommandString(s)
  {
    if s == "" {
      return false;
    }
    var str := s;
    if HasPrefix(str, "-") {
      str := str[1..];
    }
    if str == "" {
      return false;
    }
    if !IsCommandChar(str[0]) {
      return false;
    }
    for i := 1 to |str|
      invariant forall k :: 1 <= k < i ==> IsModifierChar(str[k])
    {
      if !IsModifierChar(str[i]) {
        assert str[1..][i - 1] == str[i];
        return false;
      }
    }
    return true;
  }

  /** Advances past an option, and past its value if it takes one. */
  method SkipOption(arg: string, args: seq<string>, i: nat) returns (skipped: bool, next: nat)
    requires i < |args| && arg == args[i]
    ensures skipped <==> IsOption(arg)
    ensures next == if skipped then i + OptionWidth(args, i) else i
  {
    if HasPrefix(arg, "--") && '=' in arg {
      return true, i + 1;
    }
    if arg == "--plugin" || arg == "--target" || arg == "--output" {
      next := i + 1;
      if next < |args| {
        next := next + 1;
      }
      return true, next;
    }
    if HasPrefix(arg, "@") {
      return true, i + 1;
    }
    if HasPrefix(arg, "--") {
      return true, i + 1;
    }
    var command := IsCommand(arg);
    if HasPrefix(arg, "-") && !command {
      return true, i + 1;
    }
    return false, i;
  }

  method ExtractCommandAndModifiers(s: string) returns (flags: seq<string>)
    ensures flags == SplitFlags(WithoutDash(s))
  {
    flags := [];
    var str := WithoutDash(s);
    for i := 0 to |str|
      invariant flags == SplitFlags(str)[..i]
    {
      flags := flags + [[str[i]]];
    }
  }

  method UpdateModeFromFlags(flags: seq<string>) returns (mode: Mode)
    ensures mode == ModeOf(flags)
  {
    mode := Write;
    for i := 0 to |flags|
      invariant mode == ModeOf(flags[..i])
    {
      assert flags[..i + 1][..i] == flags[..i];
      if |flags[i]| == 1 {
        match ToLower(flags[i][0]) {
          case 'r' => mode := Write;
          case 'u' => mode := Update;
          case 'c' => mode := Create;
          case 'v' => mode := Verbose;
          case 'q' => mode := Quick;
          case _ =>
        }
      }
    }
    assert flags[..|flags|] == flags;
  }

  method ParseCommandLine(args: seq<string>) returns (parsed: ParsedArgs)
    ensures parsed == Parse(args)
  {
    if |args| == 0 {
      return ParsedArgs([], [], "", Write);
    }
    var flags: seq<string> := [];
    var i := 0;
    FindCommandEnds(args, 0);
    while i < |args|
      invariant i <= |args| && flags == []
      invariant FindCommand(args, 0) == FindCommand(args, i)
      decreases |args| - i
    {
      var command := IsCommand(args[i]);
      if command {
        flags := ExtractCommandAndModifiers(args[i]);
        i := i + 1;
        break;
      }
      var skipped, next := SkipOption(args[i], args, i);
      if !skipped {
        break;
      }
      i := next;
    }
    assert FindCommand(args, 0) == (flags, i);
    ghost var start := i;
    while i < |args|
      invariant i <= |args|
      invariant SkipOptions(args, start) == SkipOptions(args, i)
      decreases |args| - i
    {
      var skipped, next := SkipOption(args[i], args, i);
      if !skipped {
        break;
      }
      i := next;
    }
    var output := "";
    if i < |args| {
      output := args[i];
      i := i + 1;
    }
    var mode := UpdateModeFromFlags(flags);
    return ParsedArgs(flags, args[i..], output, mode);
  }

  // ---------- The rebuilt command ----------

  function Concat(flags: seq<string>): string {
    if flags == [] then "" else Concat(flags[..|flags| - 1]) + flags[|flags| - 1]
  }

  /** The arguments ExecuteArchiveJob passes to ar. */
  function Rebuild(p: ParsedArgs): seq<string> {
    (if p.flags != [] then [Concat(p.flags)] else []) + [p.output] + p.inputs
  }

  method BuildArchiveArgs(p: ParsedArgs) returns (args: seq<string>)
    ensures args == Rebuild(p)
  {
    args := [];
    if |p.flags| > 0 {
      var command := "";
      for i := 0 to |p.flags|
        invariant command == Concat(p.flags[..i])
      {
        assert p.flags[..i + 1][..i] == p.flags[..i];
        command := command + p.flags[i];
      }
      assert p.flags[..|p.flags|] == p.flags;
      args := args + [command];
    }
    args := args + [p.output];
    args := args + p.inputs;
  }

  lemma {:induction false} ConcatOfSplit(s: string)
    ensures Concat(SplitFlags(s)) == s
  {
    if s != "" {
      var front := s[..|s| - 1];
      assert SplitFlags(s)[..|s| - 1] == SplitFlags(front);
      ConcatOfSplit(front);
    }
  }

  /** Archive and inputs are a suffix of the arguments, or both are empty. */
  lemma ArchiveAndInputsAreSuffix(args: seq<string>)
    ensures var p := Parse(args);
      (p.output == "" && p.inputs == []) || exists k :: 0 <= k < |args| && args[k..] == [p.output] + p.inputs
  {
    FindCommandEnds(args, 0);
    var j := SkipOptions(args, FindCommand(args, 0).1);
    if j < |args| {
      assert args[j..] == [args[j]] + args[j + 1..];
    }
  }

  lemma OutputIsNoOption(args: seq<string>)
    ensures !IsOption(Parse(args).output)
    ensures Parse(args).flags == [] ==> !IsCommandString(Parse(args).output)
  {
    FindCommandEnds(args, 0);
    var (flags, i) := FindCommand(args, 0);
    var j := SkipOptions(args, i);
    if flags == [] && j < |args| {
      assert i < |args| ==> j == i;
    }
  }

  lemma ParseAtArchive(flags: seq<string>, args: seq<string>, i: nat)
    requires i < |args| && !IsOption(args[i])
    ensures ParseBehind(flags, args, i) == ParsedArgs(flags, args[i + 1..], args[i], ModeOf(flags))
  {
    assert SkipOptions(args, i) == i;
  }

  /** Parsing the rebuilt command gives back the same flags, mode, archive and inputs. */
  lemma ArCommandIsStable(args: seq<string>)
    ensures Parse(Rebuild(Parse(args))) == Parse(args)
  {
    var p := Parse(args);
    var again := Rebuild(p);
    OutputIsNoOption(args);
    FindCommandEnds(args, 0);
    if p.flags == [] {
      assert again == [p.output] + p.inputs;
      assert FindCommand(again, 0) == ([], 0);
      ParseAtArchive([], again, 0);
    } else {
      var s :| IsCommandString(s) && s == WithoutDash(s) && p.flags == SplitFlags(s);
      ConcatOfSplit(s);
      assert again[0] == s && again[1] == p.output && again[2..] == p.inputs;
      assert FindCommand(again, 0) == (p.flags, 1);
      ParseAtArchive(p.flags, again, 1);
    }
  }
}
