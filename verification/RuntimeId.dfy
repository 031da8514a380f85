/** Runtime identifiers: the parser, and the printer that is meant to be its inverse. */
module RuntimeIds {
  import opened Wrappers
  import opened Strings

  datatype Platform = PlatformUnspecified | NativeLinux | DockerLinux
  datatype Toolchain = ToolchainUnspecified | ToolchainC | ToolchainCpp | ToolchainGo | ToolchainRust
  datatype Language = LanguageUnspecified | LanguageC | LanguageCpp
  datatype Compiler = CompilerUnspecified | Gcc | Clang
  datatype Architecture = ArchitectureUnspecified | X86_64 | Aarch64 | Arm
  datatype CRuntime = CRuntimeUnspecified | Glibc | Musl
  datatype Abi = AbiUnspecified | Itanium
  datatype Stdlib = StdlibUnspecified | Libstdcxx | Libcxx

  newtype uint32 = x: int | 0 <= x < 0x1_0000_0000

  datatype Version = Version(major: uint32, minor: Option<uint32>, patch: Option<uint32>, prerelease: Option<string>)

  datatype CppToolchain = CppToolchain(
    language: Language, compiler: Compiler, compilerVersion: Option<Version>, architecture: Architecture,
    cRuntime: CRuntime, cRuntimeVersion: Option<Version>, abi: Abi, stdlib: Stdlib, abiModifiers: seq<string>)

  /** `cpp` is the toolchain spec when it is the C/C++ one. */
  datatype Runtime = Runtime(id: string, platform: Platform, toolchain: Toolchain, cpp: Option<CppToolchain>)

  datatype Error = Empty | TooFewParts | UnknownPlatform | UnknownToolchain | NoParser
                 | WrongPartCount | InvalidCompiler | InvalidCRuntime | InvalidStdlib | InvalidArchitecture

  // ---------- Fields to text ----------

  function LanguageText(l: Language): string {
    match l case LanguageC => "c" case LanguageCpp => "cpp" case _ => "unknown"
  }

  function CompilerText(c: Compiler): string {
    match c case Gcc => "gcc" case Clang => "clang" case _ => "unknown"
  }

  function ArchitectureText(a: Architecture): string {
    match a case X86_64 => "x86_64" case Aarch64 => "aarch64" case Arm => "arm" case _ => "unknown"
  }

  function CRuntimeText(c: CRuntime): string {
    match c case Glibc => "glibc" case Musl => "musl" case _ => "unknown"
  }

  function StdlibText(s: Stdlib): string {
    match s case Libstdcxx => "libstdc++" case Libcxx => "libc++" case _ => "unknown"
  }

  function Number(n: uint32): string { FormatUint(n as nat) }

  /** major[.minor][.patch]; a missing version prints as "0". */
  function VersionText(v: Option<Version>): string {
    match v
    case None => "0"
    case Some(v) =>
      Number(v.major)
      + (match v.minor case Some(m) => "." + Number(m) case None => "")
      + (match v.patch case Some(p) => "." + Number(p) case None => "")
  }

  /** The dash-separated parts after the platform. */
  function IdParts(c: CppToolchain): seq<string> {
    [LanguageText(c.language), CompilerText(c.compiler), VersionText(c.compilerVersion),
     CRuntimeText(c.cRuntime), VersionText(c.cRuntimeVersion)]
    + (if c.language == LanguageCpp then [StdlibText(c.stdlib)] else [])
    + [ArchitectureText(c.architecture)]
  }

  /** RuntimeToID. */
  function RuntimeToId(rt: Runtime): string {
    match rt.cpp
    case None => rt.id
    case Some(c) => Join([if rt.platform == DockerLinux then "docker_linux" else "native_linux"] + IdParts(c), '-')
  }

  // ---------- Text to fields ----------

  function ParseCompiler(s: string): Compiler {
    if s == "gcc" then Gcc else if s == "clang" then Clang else CompilerUnspecified
  }

  function ParseArchitecture(s: string): Architecture {
    if s == "x86_64" then X86_64
    else if s == "aarch64" then Aarch64
    else if s == "arm" then Arm
    else ArchitectureUnspecified
  }

  function ParseCRuntime(s: string): CRuntime {
    if s == "glibc" then Glibc else if s == "musl" then Musl else CRuntimeUnspecified
  }

  function ParseStdlib(s: string): Stdlib {
    if s == "libstdc++" then Libstdcxx else if s == "libc++" then Libcxx else StdlibUnspecified
  }

  /** A part that is absent or no uint32 numeral leaves its field unset. */
  function PartNumber(parts: seq<string>, i: nat): Option<uint32> {
    if i < |parts| then
      match ParseUint32(parts[i])
      case Some(n) => Some(n as uint32)
      case None => None
    else None
  }

  function ParseVersion(s: string): Version {
    if s == "" || s == "unknown" then Version(0, None, None, None)
    else
      var parts := Split(s, '.');
      var major := match PartNumber(parts, 0) case Some(n) => n case None => 0;
      Version(major, PartNumber(parts, 1), PartNumber(parts, 2), None)
  }

  /** CppRuntimeParser.Parse: five parts for C, six for C++; the toolchain is always C. */
  function ParseCppParts(parts: seq<string>): Result<Runtime, Error> {
    if |parts| < 5 then Failure(WrongPartCount)
    else
      var compiler := ParseCompiler(parts[0]);
      if compiler == CompilerUnspecified then Failure(InvalidCompiler)
      else
        var cRuntime := ParseCRuntime(parts[2]);
        if cRuntime == CRuntimeUnspecified then Failure(InvalidCRuntime)
        else if |parts| > 6 then Failure(WrongPartCount)
        else
          var isCpp := |parts| == 6;
          var stdlib := if isCpp then ParseStdlib(parts[4]) else StdlibUnspecified;
          var arch := ParseArchitecture(parts[|parts| - 1]);
          if isCpp && stdlib == StdlibUnspecified then Failure(InvalidStdlib)
          else if arch == ArchitectureUnspecified then Failure(InvalidArchitecture)
          else Success(Runtime("", PlatformUnspecified, ToolchainC,
                 Some(CppToolchain(if isCpp then LanguageCpp else LanguageC,
                                   compiler, Some(ParseVersion(parts[1])), arch,
                                   cRuntime, Some(ParseVersion(parts[3])), AbiUnspecified, stdlib, []))))
  }

  function ParsePlatform(s: string): Option<Platform> {
    if s == "native_linux" then Some(NativeLinux) else if s == "docker_linux" then Some(DockerLinux) else None
  }

  /** The platform and the index of the part after it; "native-linux" may span two parts. */
  function ParsePlatformParts(parts: seq<string>): Option<(Platform, nat)>
    requires |parts| >= 2
  {
    var two := ParsePlatform(parts[0] + "_" + parts[1]);
    var one := ParsePlatform(parts[0]);
    if (parts[0] == "native" || parts[0] == "docker") && two.Some? then Some((two.value, 2))
    else if one.Some? then Some((one.value, 1))
    else None
  }

  /** ParseRuntimeID; parsers are registered for native C and C++ only. */
  function ParseRuntimeId(id: string): Result<Runtime, Error> {
    if id == "" then Failure(Empty) else ParseIdParts(id, Split(id, '-'))
  }

  function ParseIdParts(id: string, parts: seq<string>): Result<Runtime, Error> {
    if |parts| < 4 then Failure(TooFewParts)
    else
      match ParsePlatformParts(parts)
      case None => Failure(UnknownPlatform)
      case Some((platform, start)) =>
        if parts[start] != "c" && parts[start] != "cpp" then Failure(UnknownToolchain)
        else if platform != NativeLinux then Failure(NoParser)
        else
          match ParseCppParts(parts[start + 1..])
          case Failure(e) => Failure(e)
          case Success(rt) => Success(rt.(id := id, platform := platform))
  }

  // ---------- Versions ----------

  predicate DashAndDotFree(s: string) { '-' !in s && '.' !in s }

  lemma NumberIsPlain(n: uint32)
    ensures Number(n) != "" && Number(n) != "unknown" && DashAndDotFree(Number(n))
    ensures ParseUint32(Number(n)) == Some(n as nat)
  {
    ParseOfFormat(n as nat);
    assert !IsDigit("unknown"[0]);
  }

  /** A version whose printed text determines it: present, no prerelease label, and no patch
      number without a minor number before it. */
  ghost predicate Printable(v: Option<Version>) {
    v.Some? && v.value.prerelease.None? && (v.value.patch.Some? ==> v.value.minor.Some?)
  }

  /** The numbers of a version in printing order. */
  function Numbers(v: Version): seq<uint32> {
    [v.major] + (match v.minor case Some(m) => [m] case None => []) +
      (match v.patch case Some(p) => [p] case None => [])
  }

  function Texts(ns: seq<uint32>): (r: seq<string>)
    ensures |r| == |ns|
  {
    seq(|ns|, i requires 0 <= i < |ns| => Number(ns[i]))
  }

  lemma VersionTextIsJoin(v: Version)
    ensures VersionText(Some(v)) == Join(Texts(Numbers(v)), '.')
  {
    var ts := Texts(Numbers(v));
    if |ts| >= 2 {
      assert Join(ts[1..], '.') == if |ts| == 2 then ts[1] else ts[1] + "." + ts[2] by {
        assert |ts| == 3 ==> ts[1..][1..] == [ts[2]];
      }
    }
  }

  lemma {:induction false} JoinedNumbersHaveNoDash(ns: seq<uint32>)
    requires ns != []
    ensures Join(Texts(ns), '.') != "" && Join(Texts(ns), '.') != "unknown"
    ensures '-' !in Join(Texts(ns), '.')
    ensures Split(Join(Texts(ns), '.'), '.') == Texts(ns)
  {
    forall i | 0 <= i < |ns| ensures '.' !in Texts(ns)[i]
    {
      NumberIsPlain(ns[i]);
    }
    SplitOfJoin(Texts(ns), '.');
    NumberIsPlain(ns[0]);
    assert IsDigit(Join(Texts(ns), '.')[0]) && !IsDigit("unknown"[0]);
    NoDashInJoin(ns);
  }

  lemma {:induction false} NoDashInJoin(ns: seq<uint32>)
    ensures '-' !in Join(Texts(ns), '.')
  {
    if ns != [] {
      NumberIsPlain(ns[0]);
      assert Texts(ns)[1..] == Texts(ns[1..]);
      NoDashInJoin(ns[1..]);
    }
  }

  /** The first three numbers as major, minor and patch. */
  function FromNumbers(ns: seq<uint32>): Version
    requires ns != []
  {
    Version(ns[0], if |ns| > 1 then Some(ns[1]) else None, if |ns| > 2 then Some(ns[2]) else None, None)
  }

  /** Listing a version's numbers loses exactly a prerelease label and a gap before the patch. */
  lemma NumbersDetermine(v: Version)
    ensures FromNumbers(Numbers(v)) == v <==> Printable(Some(v))
  {
  }

  /** Reading back a printed version puts its numbers into major, minor, patch in order. */
  lemma ParseOfVersionText(v: Version)
    ensures VersionText(Some(v)) != "" && '-' !in VersionText(Some(v))
    ensures ParseVersion(VersionText(Some(v))) == FromNumbers(Numbers(v))
  {
    var ns := Numbers(v);
    VersionTextIsJoin(v);
    JoinedNumbersHaveNoDash(ns);
    forall i | 0 <= i < |ns| ensures PartNumber(Texts(ns), i) == Some(ns[i])
    {
      NumberIsPlain(ns[i]);
    }
  }

  lemma VersionTextHasNoDash(v: Option<Version>)
    ensures '-' !in VersionText(v)
  {
    if v.Some? {
      ParseOfVersionText(v.value);
    }
  }

  /** Printing and reading back a version returns it exactly when it is printable. */
  lemma VersionRoundTrip(v: Option<Version>)
    ensures Some(ParseVersion(VersionText(v))) == v <==> Printable(v)
  {
    if v.Some? {
      ParseOfVersionText(v.value);
      NumbersDetermine(v.value);
    }
  }

  // ---------- Whole identifiers ----------

  ghost predicate Specified(c: CppToolchain) {
    && c.language != LanguageUnspecified && c.compiler != CompilerUnspecified
    && c.cRuntime != CRuntimeUnspecified && c.architecture != ArchitectureUnspecified
    && (c.language == LanguageCpp ==> c.stdlib != StdlibUnspecified)
  }

  /** What an identifier can carry of a toolchain: the ABI data is dropped, and so is the
      standard library of a C toolchain. */
  function Carried(c: CppToolchain): CppToolchain {
    c.(abi := AbiUnspecified, abiModifiers := [],
       stdlib := if c.language == LanguageCpp then c.stdlib else StdlibUnspecified)
  }

  lemma IdPartsAreDashFree(c: CppToolchain)
    ensures SeparatorFree(IdParts(c), '-')
  {
    VersionTextHasNoDash(c.compilerVersion);
    VersionTextHasNoDash(c.cRuntimeVersion);
  }

  lemma SplitOfRuntimeId(rt: Runtime)
    requires rt.cpp.Some? && rt.platform == NativeLinux
    ensures RuntimeToId(rt) != ""
    ensures Split(RuntimeToId(rt), '-') == ["native_linux"] + IdParts(rt.cpp.value)
  {
    IdPartsAreDashFree(rt.cpp.value);
    SplitOfJoin(["native_linux"] + IdParts(rt.cpp.value), '-');
  }

  /** The toolchain an identifier printed for c is read back as. */
  function ReadBack(c: CppToolchain): CppToolchain {
    Carried(c).(compilerVersion := Some(ParseVersion(VersionText(c.compilerVersion))),
                cRuntimeVersion := Some(ParseVersion(VersionText(c.cRuntimeVersion))))
  }

  lemma ParseOfIdParts(c: CppToolchain)
    requires Specified(c)
    ensures ParseCppParts(IdParts(c)[1..]) == Success(Runtime("", PlatformUnspecified, ToolchainC, Some(ReadBack(c))))
  {
    var parts := IdParts(c)[1..];
    assert parts[0] == CompilerText(c.compiler) && parts[2] == CRuntimeText(c.cRuntime);
    assert parts[|parts| - 1] == ArchitectureText(c.architecture);
  }

  /** Every printed native identifier with specified fields parses, to the toolchain it was
      printed from up to what an identifier carries, with versions re-read. */
  lemma ParseOfRuntimeId(rt: Runtime)
    requires rt.cpp.Some? && rt.platform == NativeLinux && Specified(rt.cpp.value)
    ensures ParseRuntimeId(RuntimeToId(rt)) ==
      Success(Runtime(RuntimeToId(rt), NativeLinux, ToolchainC, Some(ReadBack(rt.cpp.value))))
  {
    var c := rt.cpp.value;
    SplitOfRuntimeId(rt);
    var parts := ["native_linux"] + IdParts(c);
    assert parts[1] == LanguageText(c.language);
    assert parts[2..] == IdParts(c)[1..];
    ParseOfIdParts(c);
  }

  /** The round trip returns the same platform and toolchain fields exactly when both versions
      are printable. */
  lemma RuntimeIdRoundTrip(rt: Runtime)
    requires rt.cpp.Some? && rt.platform == NativeLinux && Specified(rt.cpp.value)
    ensures ParseRuntimeId(RuntimeToId(rt)).Success?
    ensures var back := ParseRuntimeId(RuntimeToId(rt)).value;
      (back.platform == rt.platform && back.cpp == Some(Carried(rt.cpp.value)) <==>
        Printable(rt.cpp.value.compilerVersion) && Printable(rt.cpp.value.cRuntimeVersion))
  {
    ParseOfRuntimeId(rt);
    VersionRoundTrip(rt.cpp.value.compilerVersion);
    VersionRoundTrip(rt.cpp.value.cRuntimeVersion);
  }

  /** So two such runtimes with one identifier carry the same toolchain. */
  lemma RuntimeIdInjective(a: Runtime, b: Runtime)
    requires a.cpp.Some? && a.platform == NativeLinux && Specified(a.cpp.value)
    requires Printable(a.cpp.value.compilerVersion) && Printable(a.cpp.value.cRuntimeVersion)
    requires b.cpp.Some? && b.platform == NativeLinux && Specified(b.cpp.value)
    requires Printable(b.cpp.value.compilerVersion) && Printable(b.cpp.value.cRuntimeVersion)
    requires RuntimeToId(a) == RuntimeToId(b)
    ensures Carried(a.cpp.value) == Carried(b.cpp.value)
  {
    RuntimeIdRoundTrip(a);
    RuntimeIdRoundTrip(b);
  }

  /** Identifiers of container runtimes are printed but never parsed: no parser is registered. */
  lemma DockerIdsDoNotParse(rt: Runtime)
    requires rt.cpp.Some? && rt.platform == DockerLinux && Specified(rt.cpp.value)
    ensures ParseRuntimeId(RuntimeToId(rt)) == Failure(NoParser)
  {
    IdPartsAreDashFree(rt.cpp.value);
    SplitOfJoin(["docker_linux"] + IdParts(rt.cpp.value), '-');
  }

  ghost predicate SameUpToId(a: Result<Runtime, Error>, b: Result<Runtime, Error>) {
    (a.Success? <==> b.Success?) && (a.Success? ==> a.value.(id := "") == b.value.(id := ""))
  }

  /** "native-linux-" and "native_linux-" before the same rest: both fail, or both parse to the
      same runtime up to its Id. */
  lemma BothSpellingsAgree(rest: string)
    ensures SameUpToId(ParseRuntimeId("native_linux" + "-" + rest),
      ParseRuntimeId("native" + "-" + ("linux" + "-" + rest)))
  {
    SplitSkipsWord("native_linux", rest, '-');
    SplitSkipsWord("linux", rest, '-');
    SplitSkipsWord("native", "linux" + "-" + rest, '-');
    SpellingsAgreeOnParts("native_linux" + "-" + rest, "native" + "-" + ("linux" + "-" + rest), Split(rest, '-'));
  }

  lemma SpellingsAgreeOnParts(id1: string, id2: string, tail: seq<string>)
    requires |tail| >= 1
    ensures SameUpToId(ParseIdParts(id1, ["native_linux"] + tail), ParseIdParts(id2, ["native"] + (["linux"] + tail)))
  {
    var one, two := ["native_linux"] + tail, ["native"] + (["linux"] + tail);
    assert two[0] + "_" + two[1] == "native_linux";
    assert one[1] == tail[0] && two[2] == tail[0];
    assert one[2..] == tail[1..] && two[3..] == tail[1..];
  }

  // ---------- Which texts parse, and to what ----------

  /** The parts are a native platform, in one or two parts, a language, a compiler and its version, a
      C runtime and its version, for C++ a standard library, and an architecture; `start` is where
      the language stands. */
  ghost predicate WellFormed(parts: seq<string>, start: nat) {
    && ((start == 1 && |parts| > 1 && parts[0] == "native_linux") ||
        (start == 2 && |parts| > 2 && parts[0] == "native" && parts[1] == "linux"))
    && (|parts| == start + 6 || |parts| == start + 7)
    && parts[start] in {"c", "cpp"}
    && parts[start + 1] in {"gcc", "clang"}
    && parts[start + 3] in {"glibc", "musl"}
    && (|parts| == start + 7 ==> parts[start + 5] in {"libstdc++", "libc++"})
    && parts[|parts| - 1] in {"x86_64", "aarch64", "arm"}
  }

  lemma NativeNeedsLinux(part: string)
    ensures "native" + "_" + part == "native_linux" <==> part == "linux"
    ensures "native" + "_" + part != "docker_linux" && "docker" + "_" + part != "native_linux"
  {
    assert "native_linux" == "native" + "_" + "linux";
    if "native" + "_" + part == "native_linux" {
      assert part == ("native" + "_" + part)[7..] && "linux" == "native_linux"[7..];
    }
    assert ("native" + "_" + part)[0] == 'n' && "docker_linux"[0] == 'd';
    assert ("docker" + "_" + part)[0] == 'd' && "native_linux"[0] == 'n';
  }

  lemma CppPartsParseExactly(parts: seq<string>)
    ensures ParseCppParts(parts).Success? <==>
      && (|parts| == 5 || |parts| == 6)
      && parts[0] in {"gcc", "clang"} && parts[2] in {"glibc", "musl"}
      && (|parts| == 6 ==> parts[4] in {"libstdc++", "libc++"})
      && parts[|parts| - 1] in {"x86_64", "aarch64", "arm"}
  {
  }

  lemma PlatformStartsAt(parts: seq<string>)
    requires |parts| >= 4
    ensures var p := ParsePlatformParts(parts);
      && (p == Some((NativeLinux, 1)) <==> parts[0] == "native_linux")
      && (p == Some((NativeLinux, 2)) <==> parts[0] == "native" && parts[1] == "linux")
      && (p.Some? ==> p.value.0 == NativeLinux || p.value.0 == DockerLinux)
      && (p.Some? ==> p.value.1 == 1 || p.value.1 == 2)
  {
    NativeNeedsLinux(parts[1]);
    assert "native" != "native_linux" && "docker" != "native_linux" by {
      assert |"native"| == 6 && |"docker"| == 6 && |"native_linux"| == 12;
    }
  }

  /** An identifier parses exactly when its dash-separated parts are well formed. */
  lemma ParsesExactlyWellFormed(id: string)
    ensures ParseRuntimeId(id).Success? <==>
      WellFormed(Split(id, '-'), 1) || WellFormed(Split(id, '-'), 2)
  {
    var parts := Split(id, '-');
    if |parts| >= 4 && id != "" {
      PlatformStartsAt(parts);
      CppPartsParseExactly(parts[2..]);
      CppPartsParseExactly(parts[3..]);
    }
    if id == "" {
      assert parts == [""];
    }
  }

  lemma CppPartsPrintBack(parts: seq<string>)
    requires ParseCppParts(parts).Success?
    ensures ParseCppParts(parts).value.cpp.Some?
    ensures var c := ParseCppParts(parts).value.cpp.value;
      && CompilerText(c.compiler) == parts[0] && CRuntimeText(c.cRuntime) == parts[2]
      && ArchitectureText(c.architecture) == parts[|parts| - 1]
      && c.compilerVersion == Some(ParseVersion(parts[1])) && c.cRuntimeVersion == Some(ParseVersion(parts[3]))
      && c.abi == AbiUnspecified && c.abiModifiers == []
      && (if |parts| == 6 then c.language == LanguageCpp && StdlibText(c.stdlib) == parts[4]
          else c.language == LanguageC && c.stdlib == StdlibUnspecified)
  {
  }

  lemma ParsedPartsFollowLanguage(id: string, start: nat)
    requires WellFormed(Split(id, '-'), start)
    ensures var cpp := ParseCppParts(Split(id, '-')[start + 1..]);
      cpp.Success? && ParseRuntimeId(id) == Success(cpp.value.(id := id, platform := NativeLinux))
  {
    assert id != "" by {
      assert Split("", '-') == [""];
    }
    PartsFollowLanguage(id, Split(id, '-'), start);
  }

  lemma PartsFollowLanguage(id: string, parts: seq<string>, start: nat)
    requires WellFormed(parts, start)
    ensures var cpp := ParseCppParts(parts[start + 1..]);
      cpp.Success? && ParseIdParts(id, parts) == Success(cpp.value.(id := id, platform := NativeLinux))
  {
    PlatformStartsAt(parts);
    CppPartsParseExactly(parts[start + 1..]);
  }

  /** And then it means what its parts say: printing each parsed field gives the part back. Six
      parts after the language are C++ and five are C, whatever the language part says. */
  lemma ParsedFieldsPrintBack(id: string, start: nat)
    requires WellFormed(Split(id, '-'), start)
    ensures var parts, r := Split(id, '-'), ParseRuntimeId(id);
      && r.Success? && r.value.id == id && r.value.platform == NativeLinux && r.value.cpp.Some?
      && var c := r.value.cpp.value;
      && CompilerText(c.compiler) == parts[start + 1] && CRuntimeText(c.cRuntime) == parts[start + 3]
      && ArchitectureText(c.architecture) == parts[|parts| - 1]
      && c.compilerVersion == Some(ParseVersion(parts[start + 2]))
      && c.cRuntimeVersion == Some(ParseVersion(parts[start + 4]))
      && c.abi == AbiUnspecified && c.abiModifiers == []
      && (if |parts| == start + 7 then c.language == LanguageCpp && StdlibText(c.stdlib) == parts[start + 5]
          else c.language == LanguageC && c.stdlib == StdlibUnspecified)
  {
    ParsedPartsFollowLanguage(id, start);
    CppPartsPrintBack(Split(id, '-')[start + 1..]);
  }

  /** A version is read part by part: each of its first three parts is a uint32 numeral or leaves its
      field unset, the major number being zero then. */
  lemma VersionReadsParts(parts: seq<string>)
    requires parts != [] && SeparatorFree(parts, '.') && Join(parts, '.') != "" && Join(parts, '.') != "unknown"
    ensures var v := ParseVersion(Join(parts, '.'));
      && v.prerelease == None
      && (match ParseUint32(parts[0]) case Some(n) => v.major as nat == n case None => v.major == 0)
      && (if |parts| <= 1 then v.minor == None
          else match ParseUint32(parts[1]) case Some(n) => v.minor == Some(n as uint32) case None => v.minor == None)
      && (if |parts| <= 2 then v.patch == None
          else match ParseUint32(parts[2]) case Some(n) => v.patch == Some(n as uint32) case None => v.patch == None)
  {
    SplitOfJoin(parts, '.');
  }
}
