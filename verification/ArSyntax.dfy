/** ar command lines as they are written: what each argument means, independently of the parser. */
module ArSyntax {
  import opened Strings
  import opened ArCommands

  /** An option as it is written: --plugin, --target and --output take the argument after them. */
  datatype Option = Valued(name: string, value: string) | Alone(text: string)

  predicate NamesValue(text: string) { text == "--plugin" || text == "--target" || text == "--output" }

  predicate IsWrittenOption(o: Option) {
    match o
    case Valued(name, _) => NamesValue(name)
    case Alone(text) =>
      && !NamesValue(text) && text != ""
      && (text[0] == '@' || (text[0] == '-' && (HasPrefix(text, "--") || !IsCommandLetters(text[1..]))))
  }

  /** A command letter followed only by modifier letters. */
  predicate IsCommandLetters(s: string) {
    && s != "" && s[0] in "dDmMpPqQrRsStTxX"
    && forall i :: 1 <= i < |s| ==> s[i] in "aAbBcCDfFiIlLMNoOPsSTuUvV"
  }

  function TextsOf(o: Option): (texts: seq<string>)
    ensures 1 <= |texts| <= 2
  {
    match o case Valued(n, v) => [n, v] case Alone(t) => [t]
  }

  // ---------- Recognising what is written ----------

  lemma CommandIsLetters(s: string)
    ensures IsCommandString(s) <==> IsCommandLetters(WithoutDash(s))
  {
    var str := WithoutDash(s);
    if str != "" {
      assert forall i :: 1 <= i < |str| ==> str[1..][i - 1] == str[i];
    }
  }

  lemma DoubleDashIsNoCommand(text: string)
    requires HasPrefix(text, "--")
    ensures !IsCommandString(text)
  {
    assert text[..2][0] == '-' && text[..2][1] == '-' && text[..1] == "-";
    assert WithoutDash(text) == text[1..] && text[1..][0] == '-';
  }

  lemma OptionIsOption(o: Option)
    requires IsWrittenOption(o)
    ensures var text := TextsOf(o)[0];
      IsOption(text) && !IsCommandString(text) && (TakesValue(text) <==> o.Valued?)
  {
    var text := TextsOf(o)[0];
    if NamesValue(text) || HasPrefix(text, "--") {
      assert NamesValue(text) ==> text[..2] == "--";
      DoubleDashIsNoCommand(text);
    } else {
      assert text[..1] == [text[0]];
      CommandIsLetters(text);
    }
  }

  // ---------- Arguments in front ----------

  lemma {:induction false} FindCommandBehind(first: seq<string>, rest: seq<string>, i: nat)
    requires i <= |rest|
    ensures FindCommand(first + rest, |first| + i) == (FindCommand(rest, i).0, |first| + FindCommand(rest, i).1)
    decreases |rest| - i
  {
    var args, k := first + rest, |first| + i;
    if i < |rest| {
      assert args[k] == rest[i];
      assert OptionWidth(args, k) == OptionWidth(rest, i);
      if !IsCommandString(rest[i]) && IsOption(rest[i]) {
        FindCommandBehind(first, rest, i + OptionWidth(rest, i));
      }
    }
  }

  lemma {:induction false} SkipOptionsBehind(first: seq<string>, rest: seq<string>, i: nat)
    requires i <= |rest|
    ensures SkipOptions(first + rest, |first| + i) == |first| + SkipOptions(rest, i)
    decreases |rest| - i
  {
    var args, k := first + rest, |first| + i;
    if i < |rest| {
      assert args[k] == rest[i];
      assert OptionWidth(args, k) == OptionWidth(rest, i);
      if IsOption(rest[i]) {
        SkipOptionsBehind(first, rest, i + OptionWidth(rest, i));
      }
    }
  }

  lemma SplitBehind<T>(first: seq<T>, rest: seq<T>, j: nat)
    requires j < |rest|
    ensures (first + rest)[|first| + j] == rest[j] && (first + rest)[|first| + j + 1..] == rest[j + 1..]
  {
  }

  lemma ParseBehindFirst(flags: seq<string>, first: seq<string>, rest: seq<string>, i: nat)
    requires i <= |rest|
    ensures ParseBehind(flags, first + rest, |first| + i) == ParseBehind(flags, rest, i)
  {
    var j := SkipOptions(rest, i);
    SkipOptionsBehind(first, rest, i);
    if j < |rest| {
      SplitBehind(first, rest, j);
    } else {
      assert SkipOptions(first + rest, |first| + i) == |first + rest|;
    }
  }

  // ---------- What a command line means ----------

  /** An option, with its value if it takes one, changes nothing, wherever it stands in front of the
      command. */
  lemma OptionInFrontIsSkipped(o: Option, rest: seq<string>)
    requires IsWrittenOption(o)
    ensures Parse(TextsOf(o) + rest) == Parse(rest)
  {
    var first := TextsOf(o);
    var args := first + rest;
    OptionIsOption(o);
    assert args[0] == first[0] && OptionWidth(args, 0) == |first|;
    FindCommandBehind(first, rest, 0);
    FindCommandEnds(rest, 0);
    ParseBehindFirst(FindCommand(rest, 0).0, first, rest, FindCommand(rest, 0).1);
  }

  /** A command gives its letters as flags, and what follows is the archive and its inputs. */
  lemma CommandMeans(command: string, rest: seq<string>)
    requires IsCommandLetters(WithoutDash(command))
    ensures Parse([command] + rest) == ParseBehind(SplitFlags(WithoutDash(command)), rest, 0)
  {
    CommandIsLetters(command);
    var args := [command] + rest;
    assert args[0] == command;
    ParseBehindFirst(SplitFlags(WithoutDash(command)), [command], rest, 0);
  }

  /** An option behind the command changes nothing either. */
  lemma OptionBehindIsSkipped(flags: seq<string>, o: Option, rest: seq<string>)
    requires IsWrittenOption(o)
    ensures ParseBehind(flags, TextsOf(o) + rest, 0) == ParseBehind(flags, rest, 0)
  {
    var first := TextsOf(o);
    var args := first + rest;
    OptionIsOption(o);
    assert args[0] == first[0] && OptionWidth(args, 0) == |first|;
    assert ParseBehind(flags, args, 0) == ParseBehind(flags, args, |first|);
    ParseBehindFirst(flags, first, rest, 0);
  }

  /** The first argument that is no option is the archive, and all behind it are inputs. */
  lemma ArchiveThenInputs(flags: seq<string>, archive: string, inputs: seq<string>)
    requires !IsOption(archive)
    ensures ParseBehind(flags, [archive] + inputs, 0) == ParsedArgs(flags, inputs, archive, ModeOf(flags))
  {
    var args := [archive] + inputs;
    assert args[0] == archive && args[1..] == inputs;
  }

  /** Without a command the archive comes first. */
  lemma ArchiveWithoutCommand(archive: string, inputs: seq<string>)
    requires !IsCommandLetters(WithoutDash(archive)) && !IsOption(archive)
    ensures Parse([archive] + inputs) == ParsedArgs([], inputs, archive, Write)
  {
    CommandIsLetters(archive);
    var args := [archive] + inputs;
    assert args[0] == archive;
    ArchiveThenInputs([], archive, inputs);
  }

  /** The texts of these options, then the rest. */
  function WithOptions(options: seq<Option>, rest: seq<string>): seq<string> {
    if options == [] then rest else TextsOf(options[0]) + WithOptions(options[1..], rest)
  }

  lemma {:induction false} OptionsInFrontAreSkipped(options: seq<Option>, rest: seq<string>)
    requires forall k :: 0 <= k < |options| ==> IsWrittenOption(options[k])
    ensures Parse(WithOptions(options, rest)) == Parse(rest)
  {
    if options != [] {
      OptionInFrontIsSkipped(options[0], WithOptions(options[1..], rest));
      OptionsInFrontAreSkipped(options[1..], rest);
    }
  }

  lemma {:induction false} OptionsBehindAreSkipped(flags: seq<string>, options: seq<Option>, rest: seq<string>)
    requires forall k :: 0 <= k < |options| ==> IsWrittenOption(options[k])
    ensures ParseBehind(flags, WithOptions(options, rest), 0) == ParseBehind(flags, rest, 0)
  {
    if options != [] {
      OptionBehindIsSkipped(flags, options[0], WithOptions(options[1..], rest));
      OptionsBehindAreSkipped(flags, options[1..], rest);
    }
  }

  /** Options, a command, more options, then the archive and its inputs: the flags are the letters of
      the command, the archive is the first argument after it that is no option, and everything
      behind the archive is input. */
  lemma CommandLineMeans(before: seq<Option>, command: string, after: seq<Option>, archive: string, inputs: seq<string>)
    requires forall k :: 0 <= k < |before| ==> IsWrittenOption(before[k])
    requires forall k :: 0 <= k < |after| ==> IsWrittenOption(after[k])
    requires IsCommandLetters(WithoutDash(command)) && !IsOption(archive)
    ensures var flags := SplitFlags(WithoutDash(command));
      Parse(WithOptions(before, [command] + WithOptions(after, [archive] + inputs))) ==
        ParsedArgs(flags, inputs, archive, ModeOf(flags))
  {
    var flags, rest := SplitFlags(WithoutDash(command)), WithOptions(after, [archive] + inputs);
    OptionsInFrontAreSkipped(before, [command] + rest);
    CommandMeans(command, rest);
    OptionsBehindAreSkipped(flags, after, [archive] + inputs);
    ArchiveThenInputs(flags, archive, inputs);
  }

  /** The letters that set a mode. */
  predicate SetsMode(flag: string, mode: Mode) {
    match mode
    case Write => flag == "r" || flag == "R"
    case Update => flag == "u" || flag == "U"
    case Create => flag == "c" || flag == "C"
    case Verbose => flag == "v" || flag == "V"
    case Quick => flag == "q" || flag == "Q"
  }

  predicate SetsNoMode(flag: string) {
    !SetsMode(flag, Write) && !SetsMode(flag, Update) && !SetsMode(flag, Create)
    && !SetsMode(flag, Verbose) && !SetsMode(flag, Quick)
  }

  lemma LowerCase(c: char)
    ensures ToLower(c) == 'r' <==> c == 'r' || c == 'R'
    ensures ToLower(c) == 'u' <==> c == 'u' || c == 'U'
    ensures ToLower(c) == 'c' <==> c == 'c' || c == 'C'
    ensures ToLower(c) == 'v' <==> c == 'v' || c == 'V'
    ensures ToLower(c) == 'q' <==> c == 'q' || c == 'Q'
  {
  }

  lemma LastFlag(flags: seq<string>)
    requires flags != []
    ensures var n := |flags| - 1;
      && (forall m :: SetsMode(flags[n], m) ==> ModeOf(flags) == m)
      && (SetsNoMode(flags[n]) ==> ModeOf(flags) == ModeOf(flags[..n]))
  {
    var flag := flags[|flags| - 1];
    if |flag| == 1 {
      assert flag == [flag[0]];
      LowerCase(flag[0]);
    }
  }

  /** The last flag that sets a mode decides. */
  lemma {:induction false} LastModeFlagDecides(flags: seq<string>, i: nat, mode: Mode)
    requires i < |flags| && SetsMode(flags[i], mode)
    requires forall j :: i < j < |flags| ==> SetsNoMode(flags[j])
    ensures ModeOf(flags) == mode
    decreases |flags|
  {
    var n := |flags| - 1;
    LastFlag(flags);
    if i < n {
      LastModeFlagDecides(flags[..n], i, mode);
    }
  }

  /** Without any, the mode is to write. */
  lemma {:induction false} NoModeFlagWrites(flags: seq<string>)
    requires forall j :: 0 <= j < |flags| ==> SetsNoMode(flags[j])
    ensures ModeOf(flags) == Write
  {
    if flags != [] {
      LastFlag(flags);
      NoModeFlagWrites(flags[..|flags| - 1]);
    }
  }

  /** The flags are the characters of the command, one by one. */
  lemma FlagsAreLetters(command: string)
    ensures var letters, flags := WithoutDash(command), SplitFlags(WithoutDash(command));
      && |flags| == |letters| && (forall i :: 0 <= i < |flags| ==> flags[i] == [letters[i]])
      && (command == letters || command == "-" + letters)
  {
    if HasPrefix(command, "-") {
      assert command == command[..1] + command[1..];
    }
  }
}
