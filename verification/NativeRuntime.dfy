/** A detected native toolchain, its two printed identifiers, and the driver's. */
module NativeRuntimes {
  import opened Wrappers
  import opened Strings
  import opened RuntimeIds

  /** Every field is text, as detected or configured. */
  datatype NativeToolchain = NativeToolchain(
    language: string, compiler: string, compilerVersion: string, architecture: string,
    cRuntime: string, cRuntimeVersion: string, cppAbi: string, cppStdlib: string, abiModifiers: seq<string>)

  // ---------- The native runtime's own identifier ----------

  function CompilerName(t: NativeToolchain): string {
    if t.compiler == "gcc" || t.compiler == "clang" then t.compiler else "unknown"
  }

  function CRuntimeName(t: NativeToolchain): string {
    if t.cRuntime == "glibc" || t.cRuntime == "musl" then t.cRuntime else "unknown"
  }

  function StdlibName(t: NativeToolchain): string {
    if t.cppStdlib == "libstdc++" || t.cppStdlib == "libc++" then t.cppStdlib else "unknown"
  }

  function NativeIdParts(t: NativeToolchain): seq<string> {
    ["native_linux", if t.language == "cpp" then "cpp" else "c",
     CompilerName(t), t.compilerVersion, CRuntimeName(t), t.cRuntimeVersion]
    + (if t.language == "cpp" then [StdlibName(t)] else [])
    + [t.architecture]
  }

  /** NativeCppRuntime.RuntimeID. */
  function RuntimeId(t: NativeToolchain): string { Join(NativeIdParts(t), '-') }

  // ---------- Its proto form ----------

  predicate IsBreak(c: char) { c == '.' || c == '-' }

  /** strings.FieldsFunc on dots and dashes: the non-empty stretches between them. */
  function Fields(s: string): seq<string> {
    var n := WordLength(s);
    if s == "" then []
    else if n == 0 then Fields(s[1..])
    else [s[..n]] + Fields(s[n..])
  }

  /** How far s runs before the first break. */
  function WordLength(s: string): (n: nat)
    ensures n <= |s|
    ensures forall i :: 0 <= i < n ==> !IsBreak(s[i])
    ensures n < |s| ==> IsBreak(s[n])
  {
    if s == "" || IsBreak(s[0]) then 0 else 1 + WordLength(s[1..])
  }

  predicate IsNumeric(s: string) { s != "" && forall i :: 0 <= i < |s| ==> IsDigit(s[i]) }

  /** The native package's ParseVersionString: a part that is no number is a prerelease label. */
  function NativeVersion(s: string): Version {
    if s == "" || s == "unknown" then Version(0, None, None, None)
    else
      var parts := Fields(s);
      var major := match PartNumber(parts, 0) case Some(n) => n case None => 0;
      var minor := if |parts| > 1 && IsNumeric(parts[1]) then PartNumber(parts, 1) else None;
      var patch := if |parts| > 2 && IsNumeric(parts[2]) then PartNumber(parts, 2) else None;
      var label1 := if |parts| > 1 && !IsNumeric(parts[1]) then Some(parts[1]) else None;
      var label2 := if |parts| > 2 && !IsNumeric(parts[2]) && parts[2] != "" then Some(parts[2]) else label1;
      Version(major, minor, patch, label2)
  }

  function ProtoLanguage(t: NativeToolchain): Language {
    if t.language == "c" then LanguageC else if t.language == "cpp" then LanguageCpp else LanguageUnspecified
  }

  function ProtoToolchain(t: NativeToolchain): Toolchain {
    if t.language == "c" then ToolchainC else if t.language == "cpp" then ToolchainCpp else ToolchainUnspecified
  }

  function ProtoCpp(t: NativeToolchain): CppToolchain {
    CppToolchain(ProtoLanguage(t), ParseCompiler(t.compiler), Some(NativeVersion(t.compilerVersion)),
                 ParseArchitecture(t.architecture), ParseCRuntime(t.cRuntime), Some(NativeVersion(t.cRuntimeVersion)),
                 if t.cppAbi == "itanium" then Itanium else AbiUnspecified, ParseStdlib(t.cppStdlib), t.abiModifiers)
  }

  /** NativeCppRuntime.Proto. */
  function Proto(t: NativeToolchain): Runtime {
    Runtime(RuntimeId(t), NativeLinux, ProtoToolchain(t), Some(ProtoCpp(t)))
  }

  // ---------- The driver's identifiers ----------

  datatype GccConfig = GccConfig(compilerVersion: string, cRuntime: string, cRuntimeVersion: string,
    architecture: string)
  datatype GxxConfig = GxxConfig(compilerVersion: string, cRuntime: string, cRuntimeVersion: string,
    architecture: string, cppStdlib: string)

  function DriverCId(compiler: string, cfg: GccConfig): string {
    "native_linux-c-" + compiler + "-" + cfg.compilerVersion + "-" + cfg.cRuntime + "-" + cfg.cRuntimeVersion + "-" +
      cfg.architecture
  }

  function DriverCppId(compiler: string, cfg: GxxConfig): string {
    "native_linux-cpp-" + compiler + "-" + cfg.compilerVersion + "-" + cfg.cRuntime + "-" + cfg.cRuntimeVersion
      + "-" + cfg.cppStdlib + "-" + cfg.architecture
  }

  function IdFromGccConfig(cfg: GccConfig): string { DriverCId("gcc", cfg) }

  function IdFromClangConfig(cfg: GccConfig): string { DriverCId("clang", cfg) }

  function IdFromGxxConfig(cfg: GxxConfig): string { DriverCppId("gcc", cfg) }

  function IdFromClangxxConfig(cfg: GxxConfig): string { DriverCppId("clang", cfg) }

  /** The identifier the driver for this language and compiler builds from the same settings. */
  function DriverId(t: NativeToolchain): string {
    var c := GccConfig(t.compilerVersion, t.cRuntime, t.cRuntimeVersion, t.architecture);
    var cxx := GxxConfig(t.compilerVersion, t.cRuntime, t.cRuntimeVersion, t.architecture, t.cppStdlib);
    if t.language == "cpp" then (if t.compiler == "clang" then IdFromClangxxConfig(cxx) else IdFromGxxConfig(cxx))
    else (if t.compiler == "clang" then IdFromClangConfig(c) else IdFromGccConfig(c))
  }

  // ---------- Canonical versions ----------

  /** One to three uint32 numerals as Go prints them, joined by dots. */
  ghost predicate CanonicalVersion(s: string) {
    exists ns: seq<uint32> :: 1 <= |ns| <= 3 && s == Join(Texts(ns), '.')
  }

  lemma {:induction false} FieldsOfJoin(ns: seq<uint32>)
    requires ns != []
    ensures Fields(Join(Texts(ns), '.')) == Texts(ns)
  {
    var s, first := Join(Texts(ns), '.'), Number(ns[0]);
    NumberIsPlain(ns[0]);
    if |ns| == 1 {
      WordLengthOf(s, |s|);
      assert s[|s|..] == "" && s[..|s|] == s && Texts(ns) == [s];
    } else {
      assert Texts(ns)[1..] == Texts(ns[1..]);
      FieldsSkipWord(first, Join(Texts(ns[1..]), '.'));
      FieldsOfJoin(ns[1..]);
      assert Texts(ns) == [first] + Texts(ns[1..]);
    }
  }

  lemma FieldsSkipWord(w: string, rest: string)
    requires w != "" && forall i :: 0 <= i < |w| ==> !IsBreak(w[i])
    ensures Fields(w + "." + rest) == [w] + Fields(rest)
  {
    var s := w + "." + rest;
    WordLengthOf(s, |w|);
    var tail := s[|w|..];
    assert s[..|w|] == w && tail == "." + rest && tail[1..] == rest;
    WordLengthOf(tail, 0);
  }

  lemma {:induction false} WordLengthOf(s: string, n: nat)
    requires n <= |s| && (forall i :: 0 <= i < n ==> !IsBreak(s[i])) && (n < |s| ==> IsBreak(s[n]))
    ensures WordLength(s) == n
  {
    if n > 0 {
      WordLengthOf(s[1..], n - 1);
    }
  }

  lemma NativeVersionOfCanonical(ns: seq<uint32>)
    requires 1 <= |ns| <= 3
    ensures NativeVersion(Join(Texts(ns), '.')) == FromNumbers(ns)
  {
    JoinedNumbersHaveNoDash(ns);
    FieldsOfJoin(ns);
    forall i | 0 <= i < |ns| ensures PartNumber(Texts(ns), i) == Some(ns[i]) && IsNumeric(Texts(ns)[i])
    {
      NumberIsPlain(ns[i]);
    }
  }

  lemma FromNumbersReprints(ns: seq<uint32>)
    requires 1 <= |ns| <= 3
    ensures VersionText(Some(FromNumbers(ns))) == Join(Texts(ns), '.') && Printable(Some(FromNumbers(ns)))
  {
    VersionTextIsJoin(FromNumbers(ns));
    assert Numbers(FromNumbers(ns)) == ns;
  }

  lemma CanonicalReprints(s: string)
    requires CanonicalVersion(s)
    ensures VersionText(Some(NativeVersion(s))) == s && Printable(Some(NativeVersion(s)))
  {
    var ns: seq<uint32> :| 1 <= |ns| <= 3 && s == Join(Texts(ns), '.');
    NativeVersionOfCanonical(ns);
    FromNumbersReprints(ns);
  }

  lemma VersionTextIsCanonical(v: Version)
    ensures CanonicalVersion(VersionText(Some(v)))
  {
    VersionTextIsJoin(v);
    assert 1 <= |Numbers(v)| <= 3 && VersionText(Some(v)) == Join(Texts(Numbers(v)), '.');
  }

  /** Re-printing a detected version through its proto form keeps it exactly when it is canonical. */
  lemma NativeVersionReprints(s: string)
    ensures VersionText(Some(NativeVersion(s))) == s <==> CanonicalVersion(s)
  {
    VersionTextIsCanonical(NativeVersion(s));
    if CanonicalVersion(s) {
      CanonicalReprints(s);
    }
  }

  // ---------- The printers agree ----------

  ghost predicate SpecifiedNative(t: NativeToolchain) { Specified(ProtoCpp(t)) }

  lemma NativePartsMatch(t: NativeToolchain)
    requires SpecifiedNative(t)
    ensures var p, q := NativeIdParts(t), ["native_linux"] + IdParts(ProtoCpp(t));
      && |p| == |q|
      && (p == q <==> t.compilerVersion == q[3] && t.cRuntimeVersion == q[5])
      && q[3] == VersionText(Some(NativeVersion(t.compilerVersion)))
      && q[5] == VersionText(Some(NativeVersion(t.cRuntimeVersion)))
  {
    var p, q := NativeIdParts(t), ["native_linux"] + IdParts(ProtoCpp(t));
    assert |p| == |q| && forall i :: 0 <= i < |p| && i != 3 && i != 5 ==> p[i] == q[i];
    assert p[3] == t.compilerVersion && p[5] == t.cRuntimeVersion;
  }

  /** The runtime's own identifier equals the one printed from its proto form exactly when both
      detected versions are canonical. */
  lemma NativeAndProtoIdsAgree(t: NativeToolchain)
    requires SpecifiedNative(t)
    ensures RuntimeId(t) == RuntimeToId(Proto(t)) <==>
      CanonicalVersion(t.compilerVersion) && CanonicalVersion(t.cRuntimeVersion)
  {
    var p, q := NativeIdParts(t), ["native_linux"] + IdParts(ProtoCpp(t));
    NativePartsMatch(t);
    NativeVersionReprints(t.compilerVersion);
    NativeVersionReprints(t.cRuntimeVersion);
    if RuntimeId(t) == RuntimeToId(Proto(t)) {
      IdPartsAreDashFree(ProtoCpp(t));
      JoinDetermines(p, q, '-');
    }
  }

  lemma DriverCIdIsJoin(compiler: string, cfg: GccConfig)
    ensures DriverCId(compiler, cfg) ==
      Join(["native_linux", "c", compiler, cfg.compilerVersion, cfg.cRuntime, cfg.cRuntimeVersion, cfg.architecture],
        '-')
  {
    var p := ["native_linux", "c"];
    assert Join(p, '-') + "-" == "native_linux-c-" by { assert p[1..] == ["c"]; }
    JoinSnoc(p, compiler, '-');
    JoinSnoc(p + [compiler], cfg.compilerVersion, '-');
    JoinSnoc(p + [compiler] + [cfg.compilerVersion], cfg.cRuntime, '-');
    JoinSnoc(p + [compiler] + [cfg.compilerVersion] + [cfg.cRuntime], cfg.cRuntimeVersion, '-');
    JoinSnoc(p + [compiler] + [cfg.compilerVersion] + [cfg.cRuntime] + [cfg.cRuntimeVersion], cfg.architecture, '-');
    assert p + [compiler] + [cfg.compilerVersion] + [cfg.cRuntime] + [cfg.cRuntimeVersion] + [cfg.architecture] ==
      ["native_linux", "c", compiler, cfg.compilerVersion, cfg.cRuntime, cfg.cRuntimeVersion, cfg.architecture];
  }

  lemma DriverCppIdIsJoin(compiler: string, cfg: GxxConfig)
    ensures DriverCppId(compiler, cfg) ==
      Join(["native_linux", "cpp", compiler, cfg.compilerVersion, cfg.cRuntime, cfg.cRuntimeVersion, cfg.cppStdlib,
        cfg.architecture], '-')
  {
    var p := ["native_linux", "cpp"];
    assert Join(p, '-') + "-" == "native_linux-cpp-" by { assert p[1..] == ["cpp"]; }
    JoinSnoc(p, compiler, '-');
    JoinSnoc(p + [compiler], cfg.compilerVersion, '-');
    JoinSnoc(p + [compiler] + [cfg.compilerVersion], cfg.cRuntime, '-');
    JoinSnoc(p + [compiler] + [cfg.compilerVersion] + [cfg.cRuntime], cfg.cRuntimeVersion, '-');
    JoinSnoc(p + [compiler] + [cfg.compilerVersion] + [cfg.cRuntime] + [cfg.cRuntimeVersion], cfg.cppStdlib, '-');
    JoinSnoc(p + [compiler] + [cfg.compilerVersion] + [cfg.cRuntime] + [cfg.cRuntimeVersion] + [cfg.cppStdlib],
      cfg.architecture, '-');
    assert p + [compiler] + [cfg.compilerVersion] + [cfg.cRuntime] + [cfg.cRuntimeVersion] + [cfg.cppStdlib] +
      [cfg.architecture] ==
      ["native_linux", "cpp", compiler, cfg.compilerVersion, cfg.cRuntime, cfg.cRuntimeVersion, cfg.cppStdlib,
        cfg.architecture];
  }

  /** The driver builds the same identifier from the same settings, whatever the versions. */
  lemma NativeAndDriverIdsAgree(t: NativeToolchain)
    requires SpecifiedNative(t)
    ensures RuntimeId(t) == DriverId(t)
  {
    if t.language == "cpp" {
      DriverCppIdIsJoin(t.compiler,
        GxxConfig(t.compilerVersion, t.cRuntime, t.cRuntimeVersion, t.architecture, t.cppStdlib));
      assert NativeIdParts(t) ==
        ["native_linux", "cpp", t.compiler, t.compilerVersion, t.cRuntime, t.cRuntimeVersion, t.cppStdlib,
          t.architecture];
    } else {
      DriverCIdIsJoin(t.compiler, GccConfig(t.compilerVersion, t.cRuntime, t.cRuntimeVersion, t.architecture));
      assert NativeIdParts(t) ==
        ["native_linux", "c", t.compiler, t.compilerVersion, t.cRuntime, t.cRuntimeVersion, t.architecture];
    }
  }

  /** Parsing a native identifier with canonical versions gives back what Proto reports, except
      the ABI data, and except the toolchain family of C++ runtimes, which is read as C. */
  lemma ParsedNativeIdIsProto(t: NativeToolchain)
    requires SpecifiedNative(t) && CanonicalVersion(t.compilerVersion) && CanonicalVersion(t.cRuntimeVersion)
    ensures ParseRuntimeId(RuntimeId(t)).Success?
    ensures var back := ParseRuntimeId(RuntimeId(t)).value;
      && back.id == Proto(t).id && back.platform == Proto(t).platform
      && back.cpp == Some(Carried(ProtoCpp(t)))
      && (back.toolchain == Proto(t).toolchain <==> t.language == "c")
  {
    NativeAndProtoIdsAgree(t);
    ParseOfRuntimeId(Proto(t));
    CanonicalReprints(t.compilerVersion);
    CanonicalReprints(t.cRuntimeVersion);
    RuntimeIdRoundTrip(Proto(t));
  }
}
