/** Job data and what staging does with it, as functions on a file store. */
module StagingModel {
  import opened Wrappers

  newtype byte = x: int | 0 <= x < 256
  type Bytes = seq<byte>
  type Path = string

  /** Regular files by resolved path. */
  type Files = map<Path, Bytes>

  /** The hexadecimal SHA-256 digest, of which only this much is used: it is never empty. */
  type Hasher = h: Bytes -> string | forall c :: h(c) != "" witness ((c: Bytes) => "0")

  /** The digest function, and the paths at which creating directories or writing fails. */
  datatype Disk = Disk(hash: Hasher, blocked: set<Path>)

  datatype FileData = FileData(path: Path, content: Option<Bytes>, hash: Option<string>)

  /** A JobData message by its kind; Missing is a message without data. */
  datatype JobData =
    | File(id: string, size: nat, file: FileData)
    | Reference(id: string, path: Path)
    | Directory(id: string, path: Path)
    | Chunk(id: string)
    | Missing(id: string)

  /** A list element may be a nil pointer. */
  type DataList = seq<Option<JobData>>

  datatype Error =
    | AbsolutePath(path: Path)
    | NotFound(path: Path)
    | WriteFailed(path: Path)
    | HashMismatch(path: Path)
    | EmptyFile(path: Path)
    | NotInResult
    | NoData
    | NotAFile
    | NilData

  predicate IsAbs(p: Path) { p != "" && p[0] == '/' }

  /** filepath.Join of a directory and a relative path, both already clean. */
  function Join(dir: Path, rel: Path): Path {
    if dir == "" || dir == "." then rel
    else if dir[|dir| - 1] == '/' then dir + rel
    else dir + "/" + rel
  }

  lemma JoinInjective(dir: Path, a: Path, b: Path)
    requires Join(dir, a) == Join(dir, b)
    ensures a == b
  {
    if dir != "" && dir != "." {
      var d := if dir[|dir| - 1] == '/' then dir else dir + "/";
      assert a == Join(dir, a)[|d|..] && b == Join(dir, b)[|d|..];
    }
  }

  function Resolve(dir: Path, p: Path): Path { if IsAbs(p) then p else Join(dir, p) }

  // ---------- Directories ----------

  /** a is a directory on the way to b. */
  predicate Above(a: Path, b: Path) { a + "/" <= b }

  /** The directories are those on the way to a stored file. */
  predicate IsDirectory(files: Files, abs: Path) { exists p :: p in files && Above(abs, p) }

  /** Some stored file stands where abs needs a directory. */
  predicate IsBelowFile(files: Files, abs: Path) { exists p :: p in files && Above(p, abs) }

  /** When creating the parent directories and writing the file both succeed. */
  predicate Writable(disk: Disk, files: Files, abs: Path) {
    abs !in disk.blocked && !IsDirectory(files, abs) && !IsBelowFile(files, abs)
  }

  /** No stored file is a directory of another, as in any file system. */
  ghost predicate TreeShaped(files: Files) {
    forall p, q :: p in files && q in files ==> !Above(p, q)
  }

  lemma AboveIsIrreflexive(p: Path)
    ensures !Above(p, p)
  {
  }

  /** In a file system, a path can be written unless it is blocked or a file there would stand in
      the way of another, or of its own directories. */
  lemma WritableKeepsTree(disk: Disk, files: Files, abs: Path, bytes: Bytes)
    requires TreeShaped(files)
    ensures Writable(disk, files, abs) <==> abs !in disk.blocked && TreeShaped(files[abs := bytes])
  {
    AboveIsIrreflexive(abs);
    var after := files[abs := bytes];
    if TreeShaped(after) {
      forall p | p in files ensures !Above(abs, p) && !Above(p, abs) {
        assert p in after && abs in after;
      }
    }
  }

  /** Paths are above one another wherever they are resolved. */
  lemma JoinKeepsAbove(dir: Path, a: Path, b: Path)
    ensures Above(Join(dir, a), Join(dir, b)) <==> Above(a, b)
  {
    if dir != "" && dir != "." {
      var d := if dir[|dir| - 1] == '/' then dir else dir + "/";
      assert Join(dir, a) + "/" == d + (a + "/") && Join(dir, b) == d + b;
      if Above(a, b) {
        assert d + b == d + (a + "/") + b[|a| + 1..];
      }
      if Above(Join(dir, a), Join(dir, b)) {
        assert (d + b)[..|d + (a + "/")|][|d|..] == a + "/";
        assert b[..|a| + 1] == (d + b)[|d|..|d| + |a| + 1];
      }
    }
  }

  // ---------- Validation ----------

  predicate ValidPath(d: Option<JobData>) {
    match d
    case Some(File(_, _, f)) => !IsAbs(f.path)
    case Some(Reference(_, p)) => !IsAbs(p)
    case Some(Directory(_, p)) => !IsAbs(p)
    case _ => true
  }

  ghost predicate ValidPaths(ds: DataList) { forall i :: 0 <= i < |ds| ==> ValidPath(ds[i]) }

  // ---------- Outputs ----------

  /** createFileJobDataProto without content: what is on disk, by path, size and digest. */
  function OnDisk(path: Path, size: nat, digest: string): JobData {
    File(digest, size, FileData(path, None, Some(digest)))
  }

  function HasContent(f: FileData): bool { f.content.Some? && f.content.value != [] }

  /** The recorded digest, "" standing for none. */
  function Expected(f: FileData): string { match f.hash case Some(h) => h case None => "" }

  predicate DigestAgrees(disk: Disk, f: FileData, bytes: Bytes) {
    Expected(f) == "" || Expected(f) == disk.hash(bytes)
  }

  predicate IsFileAt(ds: DataList, i: nat) {
    i < |ds| && ds[i].Some? && ds[i].value.File?
  }

  /** Element i is a file at this path. */
  predicate IsEntry(ds: DataList, i: nat, path: Path) {
    IsFileAt(ds, i) && ds[i].value.file.path == path
  }

  ghost predicate IsFirstEntry(ds: DataList, i: nat, path: Path) {
    IsEntry(ds, i, path) && forall j :: 0 <= j < i ==> !IsEntry(ds, j, path)
  }

  ghost predicate HasEntry(ds: DataList, path: Path) {
    exists i: nat :: IsEntry(ds, i, path)
  }

  /** The first result output for this path. */
  function FindOutput(result: DataList, path: Path): (r: Option<FileData>)
    ensures r.Some? <==> HasEntry(result, path)
    ensures forall i: nat :: IsFirstEntry(result, i, path) ==> r == Some(result[i].value.file)
    decreases |result|
  {
    if result == [] then None
    else
      var n := |result| - 1;
      var earlier := FindOutput(result[..n], path);
      assert forall i :: 0 <= i < n ==> (IsEntry(result[..n], i, path) <==> IsEntry(result, i, path));
      assert forall i :: 0 <= i < n ==> (IsFirstEntry(result[..n], i, path) <==> IsFirstEntry(result, i, path));
      if earlier.Some? then earlier
      else
        assert forall i :: 0 <= i < n ==> !IsEntry(result, i, path);
        if IsEntry(result, n, path) then Some(result[n].value.file) else None
  }

  lemma FirstEntryExists(ds: DataList, path: Path) returns (i: nat)
    requires HasEntry(ds, path)
    ensures IsFirstEntry(ds, i, path)
  {
    var k: nat :| IsEntry(ds, k, path);
    i := 0;
    while !IsEntry(ds, i, path)
      invariant i <= k && forall j :: 0 <= j < i ==> !IsEntry(ds, j, path)
      decreases k - i
    {
      i := i + 1;
    }
  }

  /** One declared output: written from embedded content, or checked where it already is. */
  function MaterializeOne(disk: Disk, files: Files, dir: Path, path: Path, chosen: FileData)
    : (Files, Result<JobData, Error>)
  {
    var abs := Resolve(dir, path);
    if HasContent(chosen) then
      var bytes := chosen.content.value;
      if !Writable(disk, files, abs) then (files, Failure(WriteFailed(path)))
      else if !DigestAgrees(disk, chosen, bytes) then (files[abs := bytes], Failure(HashMismatch(path)))
      else (files[abs := bytes], Success(OnDisk(path, |bytes|, disk.hash(bytes))))
    else if abs !in files then (files, Failure(NotFound(path)))
    else if !DigestAgrees(disk, chosen, files[abs]) then (files, Failure(HashMismatch(path)))
    else (files, Success(OnDisk(path, |files[abs]|, disk.hash(files[abs]))))
  }

  /** The output to process for a declared file: the result's entry if it has one. */
  function Chosen(result: DataList, declared: FileData): (r: FileData)
    ensures forall i: nat :: IsFirstEntry(result, i, declared.path) ==> r == result[i].value.file
    ensures !HasEntry(result, declared.path) ==> r == declared
  {
    match FindOutput(result, declared.path)
    case Some(f) => f
    case None => declared
  }

  /** One more declared output on top of those already materialised; only files are considered. */
  function MaterializeNext(disk: Disk, files: Files, sofar: DataList, dir: Path, d: Option<JobData>,
                           result: DataList): (Files, Result<DataList, Error>) {
    match d
    case Some(File(_, _, f)) =>
      var (files', one) := MaterializeOne(disk, files, dir, f.path, Chosen(result, f));
      (match one
       case Success(o) => (files', Success(sofar + [Some(o)]))
       case Failure(e) => (files', Failure(e)))
    case _ => (files, Success(sofar))
  }

  /** The declared outputs in order, stopping at the first failure. */
  function MaterializeEach(disk: Disk, files: Files, dir: Path, declared: DataList, result: DataList)
    : (Files, Result<DataList, Error>)
  {
    if declared == [] then (files, Success([]))
    else
      var (files1, outputs) := MaterializeEach(disk, files, dir, declared[..|declared| - 1], result);
      match outputs
      case Failure(_) => (files1, outputs)
      case Success(sofar) => MaterializeNext(disk, files1, sofar, dir, declared[|declared| - 1], result)
  }

  /** The paths of the declared file outputs, in declaration order. */
  function DeclaredFiles(declared: DataList): seq<Path> {
    if declared == [] then []
    else
      DeclaredFiles(declared[..|declared| - 1]) +
      match declared[|declared| - 1]
      case Some(File(_, _, f)) => [f.path]
      case _ => []
  }

  function WorkDirOf(workDir: Path, cwd: Path): Path {
    if workDir != "" then workDir else if cwd != "" then cwd else "."
  }

  /** Every declared file appears in the result, unless the result lists nothing at all. */
  ghost predicate AllInResult(declared: DataList, result: DataList) {
    || result == []
    || forall d :: 0 <= d < |declared| && IsFileAt(declared, d) ==> HasEntry(result, declared[d].value.file.path)
  }

  lemma EntriesOfPrefix(ds: DataList, path: Path)
    requires ds != []
    ensures var n := |ds| - 1; HasEntry(ds, path) <==> HasEntry(ds[..n], path) || IsEntry(ds, n, path)
  {
    var n := |ds| - 1;
    if HasEntry(ds, path) {
      var i: nat :| IsEntry(ds, i, path);
      assert i < n ==> IsEntry(ds[..n], i, path);
    }
    if HasEntry(ds[..n], path) {
      var i: nat :| IsEntry(ds[..n], i, path);
      assert IsEntry(ds, i, path);
    }
  }

  /** The declared paths are those of the file elements. */
  lemma {:induction false} DeclaredFilesAreEntries(declared: DataList, path: Path)
    ensures path in DeclaredFiles(declared) <==> HasEntry(declared, path)
  {
    if declared != [] {
      var n := |declared| - 1;
      DeclaredFilesAreEntries(declared[..n], path);
      EntriesOfPrefix(declared, path);
    }
  }

  lemma AllInResultByPath(declared: DataList, result: DataList)
    ensures AllInResult(declared, result) <==>
      result == [] || forall p :: p in DeclaredFiles(declared) ==> HasEntry(result, p)
  {
    if AllInResult(declared, result) {
      forall p | p in DeclaredFiles(declared) && result != [] ensures HasEntry(result, p) {
        DeclaredFilesAreEntries(declared, p);
      }
    }
    if forall p :: p in DeclaredFiles(declared) ==> HasEntry(result, p) {
      forall d | 0 <= d < |declared| && IsFileAt(declared, d) ensures HasEntry(result, declared[d].value.file.path) {
        assert IsEntry(declared, d, declared[d].value.file.path);
        DeclaredFilesAreEntries(declared, declared[d].value.file.path);
      }
    }
  }

  ghost function Materialize(disk: Disk, files: Files, declared: DataList, cwd: Path, result: DataList,
                             workDir: Path): (Files, Result<DataList, Error>) {
    if declared == [] then (files, Success([]))
    else if exists i :: 0 <= i < |declared| && !ValidPath(declared[i]) then
      (files, Failure(FirstInvalid(declared)))
    else if exists i :: 0 <= i < |result| && !ValidPath(result[i]) then
      (files, Failure(FirstInvalid(result)))
    else
      var (files1, outputs) := MaterializeEach(disk, files, WorkDirOf(workDir, cwd), declared, result);
      if outputs.Success? && !AllInResult(declared, result) then (files1, Failure(NotInResult))
      else (files1, outputs)
  }

  function PathOf(d: Option<JobData>): Path {
    match d
    case Some(File(_, _, f)) => f.path
    case Some(Reference(_, p)) => p
    case Some(Directory(_, p)) => p
    case _ => ""
  }

  /** The error for the first element whose path is absolute. */
  function FirstInvalid(ds: DataList): Error {
    if ds == [] then NoData
    else if !ValidPath(ds[0]) then AbsolutePath(PathOf(ds[0]))
    else FirstInvalid(ds[1..])
  }

  // ---------- Verification ----------

  datatype VerificationMode = Saved | Integrity

  function VerifyOnDisk(disk: Disk, files: Files, f: FileData, abs: Path): Result<(), Error> {
    if abs !in files then Failure(NotFound(f.path))
    else if !DigestAgrees(disk, f, files[abs]) then Failure(HashMismatch(f.path))
    else Success(())
  }

  function VerifyFile(disk: Disk, files: Files, f: FileData, workDir: Path, mode: VerificationMode): Result<(), Error> {
    var abs := if !IsAbs(f.path) && workDir != "" then Join(workDir, f.path) else f.path;
    match mode
    case Saved =>
      var saved := VerifyOnDisk(disk, files, f, abs);
      if saved.Failure? then saved
      else if files[abs] == [] then Failure(EmptyFile(f.path))
      else Success(())
    case Integrity =>
      if HasContent(f) then
        if DigestAgrees(disk, f, f.content.value) then Success(()) else Failure(HashMismatch(f.path))
      else VerifyOnDisk(disk, files, f, abs)
  }

  function VerifyData(disk: Disk, files: Files, d: Option<JobData>, workDir: Path, mode: VerificationMode)
    : Result<(), Error>
  {
    match d
    case None => Failure(NilData)
    case Some(Missing(_)) => Failure(NoData)
    case Some(File(_, _, f)) => VerifyFile(disk, files, f, workDir, mode)
    case _ => Success(())
  }

  /** The first failure in list order, if any. */
  function VerifyList(disk: Disk, files: Files, ds: DataList, workDir: Path, mode: VerificationMode)
    : Result<(), Error>
  {
    if ds == [] then Success(())
    else
      var earlier := VerifyList(disk, files, ds[..|ds| - 1], workDir, mode);
      if earlier.Failure? then earlier else VerifyData(disk, files, ds[|ds| - 1], workDir, mode)
  }

  lemma {:induction false} VerifyListIsAll(disk: Disk, files: Files, ds: DataList, workDir: Path,
          mode: VerificationMode)
    ensures VerifyList(disk, files, ds, workDir, mode).Success? <==>
      forall i :: 0 <= i < |ds| ==> VerifyData(disk, files, ds[i], workDir, mode).Success?
  {
    if ds != [] {
      VerifyListIsAll(disk, files, ds[..|ds| - 1], workDir, mode);
    }
  }

  /** A recorded digest is that of these bytes, if there is one. */
  ghost predicate FitsRecord(disk: Disk, hash: Option<string>, bytes: Bytes) {
    hash == None || hash == Some("") || hash == Some(disk.hash(bytes))
  }

  /** What passes verification: in Saved mode a non-empty file on disk with a fitting digest; in
      Integrity mode content with a fitting digest, or else a file on disk with one; and anything
      but a file, unless there is no data at all. */
  lemma VerificationMeans(disk: Disk, files: Files, d: Option<JobData>, workDir: Path)
    ensures d == None || d.value.Missing? ==>
      forall mode :: VerifyData(disk, files, d, workDir, mode).Failure?
    ensures d.Some? && (d.value.Reference? || d.value.Directory? || d.value.Chunk?) ==>
      forall mode :: VerifyData(disk, files, d, workDir, mode).Success?
    ensures d.Some? && d.value.File? ==>
      var f := d.value.file;
      var abs := if IsAbs(f.path) || workDir == "" then f.path else Join(workDir, f.path);
      && (VerifyData(disk, files, d, workDir, Saved).Success? <==>
            abs in files && files[abs] != [] && FitsRecord(disk, f.hash, files[abs]))
      && (VerifyData(disk, files, d, workDir, Integrity).Success? <==>
            if f.content == None || f.content == Some([]) then abs in files && FitsRecord(disk, f.hash, files[abs])
            else FitsRecord(disk, f.hash, f.content.value))
  {
  }

  // ---------- What materialised outputs say ----------

  /** outputs lists exactly the declared files, in order, each as something on disk. */
  ghost predicate ListsDeclared(outputs: DataList, declared: DataList) {
    && |outputs| == |DeclaredFiles(declared)|
    && forall k :: 0 <= k < |outputs| ==>
         && outputs[k].Some? && outputs[k].value.File?
         && outputs[k].value.file.path == DeclaredFiles(declared)[k]
         && outputs[k].value.file.content.None?
         && outputs[k].value.file.hash.Some? && outputs[k].value.file.hash.value != ""
  }

  lemma {:induction false} MaterializeEachListsDeclared(disk: Disk, files: Files, dir: Path, declared: DataList,
          result: DataList)
    requires MaterializeEach(disk, files, dir, declared, result).1.Success?
    ensures ListsDeclared(MaterializeEach(disk, files, dir, declared, result).1.value, declared)
  {
    if declared != [] {
      var front, last := declared[..|declared| - 1], declared[|declared| - 1];
      var (files1, outputs) := MaterializeEach(disk, files, dir, front, result);
      MaterializeEachListsDeclared(disk, files, dir, front, result);
      NextListsDeclared(disk, files1, outputs.value, dir, front, last, result);
      assert front + [last] == declared;
    }
  }

  lemma NextListsDeclared(disk: Disk, files: Files, sofar: DataList, dir: Path, front: DataList, d: Option<JobData>,
                          result: DataList)
    requires ListsDeclared(sofar, front) && MaterializeNext(disk, files, sofar, dir, d, result).1.Success?
    ensures ListsDeclared(MaterializeNext(disk, files, sofar, dir, d, result).1.value, front + [d])
  {
    assert (front + [d])[..|front|] == front;
  }

  lemma {:induction false} DeclaredFilesAreRelative(declared: DataList)
    requires ValidPaths(declared)
    ensures forall k :: 0 <= k < |DeclaredFiles(declared)| ==> !IsAbs(DeclaredFiles(declared)[k])
  {
    if declared != [] {
      DeclaredFilesAreRelative(declared[..|declared| - 1]);
    }
  }

  /** Every declared file lies on disk under cwd, is not empty, and has the digest the result
      reports for it; the result lists the declared files in declaration order. */
  ghost predicate Delivered(disk: Disk, files: Files, declared: DataList, cwd: Path, outputs: DataList) {
    && ListsDeclared(outputs, declared)
    && forall k :: 0 <= k < |outputs| ==>
         var f := outputs[k].value.file;
         var abs := Join(cwd, f.path);
         abs in files && files[abs] != [] && f.hash == Some(disk.hash(files[abs]))
  }

  /** Materialised and then verified as saved means delivered. */
  lemma MaterializedAndVerifiedIsDelivered(disk: Disk, files: Files, declared: DataList, cwd: Path, result: DataList)
    requires Materialize(disk, files, declared, cwd, result, cwd).1.Success?
    requires var (files', outputs) := Materialize(disk, files, declared, cwd, result, cwd);
      VerifyList(disk, files', outputs.value, cwd, Saved).Success?
    ensures var (files', outputs) := Materialize(disk, files, declared, cwd, result, cwd);
      Delivered(disk, files', declared, cwd, outputs.value)
  {
    if declared != [] {
      var (files', outputs) := Materialize(disk, files, declared, cwd, result, cwd);
      MaterializeEachListsDeclared(disk, files, WorkDirOf(cwd, cwd), declared, result);
      DeclaredFilesAreRelative(declared);
      VerifyListIsAll(disk, files', outputs.value, cwd, Saved);
      forall k | 0 <= k < |outputs.value|
        ensures var f := outputs.value[k].value.file; var abs := Join(cwd, f.path);
          abs in files' && files'[abs] != [] && f.hash == Some(disk.hash(files'[abs]))
      {
        assert VerifyData(disk, files', outputs.value[k], cwd, Saved).Success?;
      }
    }
  }

  // ---------- When materialisation succeeds, and what it leaves on disk ----------

  /** The files with the content of every declared output that comes with some, later ones over
      earlier ones. */
  function Overlay(files: Files, dir: Path, declared: DataList, result: DataList): Files {
    if declared == [] then files
    else
      var before := Overlay(files, dir, declared[..|declared| - 1], result);
      match declared[|declared| - 1]
      case Some(File(_, _, f)) =>
        var chosen := Chosen(result, f);
        if HasContent(chosen) then before[Resolve(dir, f.path) := chosen.content.value] else before
      case _ => before
  }

  /** What it takes to get a file in place: writable and fitting content, or a fitting file there. */
  ghost predicate Obtainable(disk: Disk, files: Files, abs: Path, f: FileData) {
    if f.content == None || f.content == Some([]) then abs in files && FitsRecord(disk, f.hash, files[abs])
    else Writable(disk, files, abs) && FitsRecord(disk, f.hash, f.content.value)
  }

  /** The first entry of the result for the declared path is obtainable, or the declaration itself
      if the result has none. */
  ghost predicate ObtainableAt(disk: Disk, files: Files, dir: Path, declared: DataList, d: nat, result: DataList)
    requires IsFileAt(declared, d)
  {
    var f := declared[d].value.file;
    var before := Overlay(files, dir, declared[..d], result);
    && (forall i: nat :: IsFirstEntry(result, i, f.path) ==>
          Obtainable(disk, before, Resolve(dir, f.path), result[i].value.file))
    && (!HasEntry(result, f.path) ==> Obtainable(disk, before, Resolve(dir, f.path), f))
  }

  lemma ObtainableAtIsChosen(disk: Disk, files: Files, dir: Path, declared: DataList, d: nat, result: DataList)
    requires IsFileAt(declared, d)
    ensures var f := declared[d].value.file;
      ObtainableAt(disk, files, dir, declared, d, result) <==>
        Obtainable(disk, Overlay(files, dir, declared[..d], result), Resolve(dir, f.path), Chosen(result, f))
  {
    var f := declared[d].value.file;
    if HasEntry(result, f.path) {
      var i := FirstEntryExists(result, f.path);
    }
  }

  lemma MaterializeOneNeeds(disk: Disk, files: Files, dir: Path, path: Path, f: FileData)
    ensures MaterializeOne(disk, files, dir, path, f).1.Success? <==> Obtainable(disk, files, Resolve(dir, path), f)
  {
  }

  /** The output reported for a materialised file describes what then lies on disk, without its
      content; a failure names the path and what was wrong with it. */
  lemma MaterializeOneReports(disk: Disk, files: Files, dir: Path, path: Path, f: FileData)
    ensures var (files', r) := MaterializeOne(disk, files, dir, path, f);
      var abs := Resolve(dir, path);
      && (r.Success? ==>
            && abs in files' && r.value.File? && r.value.size == |files'[abs]|
            && r.value.file == FileData(path, None, Some(disk.hash(files'[abs]))))
      && (r.Failure? ==>
            r.error ==
              if f.content != None && f.content != Some([]) && !Writable(disk, files, abs) then WriteFailed(path)
              else if abs !in files' then NotFound(path)
              else HashMismatch(path))
  {
  }

  ghost predicate AllObtainable(disk: Disk, files: Files, dir: Path, declared: DataList, result: DataList) {
    forall i :: 0 <= i < |declared| && IsFileAt(declared, i) ==> ObtainableAt(disk, files, dir, declared, i, result)
  }

  /** Materialisation succeeds exactly when each declared file is obtainable in its turn, and
      then changes nothing on disk but the outputs that came with content. */
  lemma {:induction false} MaterializeSucceedsIffObtainable(disk: Disk, files: Files, dir: Path, declared: DataList,
          result: DataList)
    ensures MaterializeEach(disk, files, dir, declared, result).1.Success? <==>
      AllObtainable(disk, files, dir, declared, result)
    ensures MaterializeEach(disk, files, dir, declared, result).1.Success? ==>
      MaterializeEach(disk, files, dir, declared, result).0 == Overlay(files, dir, declared, result)
  {
    if declared != [] {
      var n := |declared| - 1;
      var front := declared[..n];
      MaterializeSucceedsIffObtainable(disk, files, dir, front, result);
      FrontObtainable(disk, files, dir, declared, result);
      if IsFileAt(declared, n) {
        var f := declared[n].value.file;
        ObtainableAtIsChosen(disk, files, dir, declared, n, result);
        MaterializeOneNeeds(disk, Overlay(files, dir, front, result), dir, f.path, Chosen(result, f));
      }
    }
  }

  lemma FrontObtainable(disk: Disk, files: Files, dir: Path, declared: DataList, result: DataList)
    requires declared != []
    ensures var n := |declared| - 1;
      AllObtainable(disk, files, dir, declared, result) <==>
        && AllObtainable(disk, files, dir, declared[..n], result)
        && (IsFileAt(declared, n) ==> ObtainableAt(disk, files, dir, declared, n, result))
  {
    var n := |declared| - 1;
    var front := declared[..n];
    forall i | 0 <= i < n
      ensures IsFileAt(front, i) <==> IsFileAt(declared, i)
      ensures IsFileAt(front, i) ==>
        (ObtainableAt(disk, files, dir, front, i, result) <==> ObtainableAt(disk, files, dir, declared, i, result))
    {
      assert front[..i] == declared[..i];
    }
  }

  // ---------- Which content ends up on disk ----------

  /** Declared file d comes with this content: in the first entry of the result for its path, or in
      the declaration if the result has none. */
  ghost predicate Brings(declared: DataList, d: nat, result: DataList, content: Bytes) {
    && IsFileAt(declared, d) && content != []
    && var f := declared[d].value.file;
    && (forall i: nat :: IsFirstEntry(result, i, f.path) ==> result[i].value.file.content == Some(content))
    && (!HasEntry(result, f.path) ==> f.content == Some(content))
  }

  lemma BringsIsChosen(declared: DataList, d: nat, result: DataList, content: Bytes)
    requires IsFileAt(declared, d)
    ensures Brings(declared, d, result, content) <==>
      content != [] && Chosen(result, declared[d].value.file).content == Some(content)
  {
    if HasEntry(result, declared[d].value.file.path) {
      var i := FirstEntryExists(result, declared[d].value.file.path);
    }
  }

  /** Nothing from element d on comes with content for this place. */
  ghost predicate UntouchedFrom(declared: DataList, d: nat, result: DataList, dir: Path, abs: Path) {
    forall e, c :: d <= e < |declared| && Brings(declared, e, result, c) ==>
      Resolve(dir, declared[e].value.file.path) != abs
  }

  lemma BringsInFront(declared: DataList, n: nat, d: nat, result: DataList, content: Bytes)
    requires d < n <= |declared|
    ensures Brings(declared[..n], d, result, content) <==> Brings(declared, d, result, content)
  {
  }

  /** A place nothing comes with content for holds what it held before. */
  lemma {:induction false} UntouchedStays(files: Files, dir: Path, declared: DataList, result: DataList, abs: Path)
    requires UntouchedFrom(declared, 0, result, dir, abs)
    ensures var after := Overlay(files, dir, declared, result);
      (abs in after <==> abs in files) && (abs in files ==> after[abs] == files[abs])
  {
    if declared != [] {
      var n := |declared| - 1;
      forall e, c | 0 <= e < n && Brings(declared[..n], e, result, c)
        ensures Resolve(dir, declared[..n][e].value.file.path) != abs
      {
        BringsInFront(declared, n, e, result, c);
      }
      UntouchedStays(files, dir, declared[..n], result, abs);
      LastElement(declared, dir, result, abs);
    }
  }

  /** The last declared element changes the place only by bringing content for it. */
  lemma LastElement(declared: DataList, dir: Path, result: DataList, abs: Path)
    requires declared != []
    ensures var n := |declared| - 1;
      UntouchedFrom(declared, n, result, dir, abs) ==>
        (IsFileAt(declared, n) && HasContent(Chosen(result, declared[n].value.file)) ==>
           Resolve(dir, declared[n].value.file.path) != abs)
  {
    var n := |declared| - 1;
    if IsFileAt(declared, n) && HasContent(Chosen(result, declared[n].value.file)) {
      BringsIsChosen(declared, n, result, Chosen(result, declared[n].value.file).content.value);
    }
  }

  /** A place holds the content of the last declared file that comes with some for it. */
  lemma {:induction false} LastContentWins(files: Files, dir: Path, declared: DataList, result: DataList,
                                           d: nat, content: Bytes)
    requires Brings(declared, d, result, content)
    requires UntouchedFrom(declared, d + 1, result, dir, Resolve(dir, declared[d].value.file.path))
    ensures var abs, after := Resolve(dir, declared[d].value.file.path), Overlay(files, dir, declared, result);
      abs in after && after[abs] == content
    decreases |declared|
  {
    var n, abs := |declared| - 1, Resolve(dir, declared[d].value.file.path);
    if d == n {
      BringsIsChosen(declared, d, result, content);
    } else {
      BringsInFront(declared, n, d, result, content);
      forall e, c | d + 1 <= e < n && Brings(declared[..n], e, result, c)
        ensures Resolve(dir, declared[..n][e].value.file.path) != abs
      {
        BringsInFront(declared, n, e, result, c);
      }
      LastContentWins(files, dir, declared[..n], result, d, content);
      LastElement(declared, dir, result, abs);
    }
  }

  /** When the call succeeds, content that came with the first entry of the result for a declared
      path, or with the declaration if the result has none, is what the file holds, unless a later
      output overwrites it; every place nothing came with content for is as it was. */
  lemma MaterializedContent(disk: Disk, files: Files, declared: DataList, cwd: Path, result: DataList, workDir: Path)
    requires Materialize(disk, files, declared, cwd, result, workDir).1.Success?
    ensures var after, dir := Materialize(disk, files, declared, cwd, result, workDir).0, WorkDirOf(workDir, cwd);
      && (forall d: nat, c ::
            (Brings(declared, d, result, c) &&
             UntouchedFrom(declared, d + 1, result, dir, Resolve(dir, declared[d].value.file.path))) ==>
              && Resolve(dir, declared[d].value.file.path) in after
              && after[Resolve(dir, declared[d].value.file.path)] == c)
      && (forall abs :: UntouchedFrom(declared, 0, result, dir, abs) ==>
            (abs in after <==> abs in files) && (abs in files ==> after[abs] == files[abs]))
  {
    var dir := WorkDirOf(workDir, cwd);
    if declared != [] {
      MaterializeSucceedsIffObtainable(disk, files, dir, declared, result);
      assert Materialize(disk, files, declared, cwd, result, workDir).0 == Overlay(files, dir, declared, result);
    }
    forall d: nat, c | Brings(declared, d, result, c)
        && UntouchedFrom(declared, d + 1, result, dir, Resolve(dir, declared[d].value.file.path))
      ensures var abs, after := Resolve(dir, declared[d].value.file.path), Overlay(files, dir, declared, result);
        abs in after && after[abs] == c
    {
      LastContentWins(files, dir, declared, result, d, c);
    }
    forall abs | UntouchedFrom(declared, 0, result, dir, abs)
      ensures var after := Overlay(files, dir, declared, result);
        (abs in after <==> abs in files) && (abs in files ==> after[abs] == files[abs])
    {
      UntouchedStays(files, dir, declared, result, abs);
    }
  }

  /** The call succeeds exactly when nothing is declared, or all paths are relative, every declared
      file has an entry in the result (unless the result lists nothing), and each is obtainable in
      its turn from its first entry, or from its declaration if it has none. */
  lemma MaterializeSucceedsExactly(disk: Disk, files: Files, declared: DataList, cwd: Path, result: DataList,
                                   workDir: Path)
    ensures Materialize(disk, files, declared, cwd, result, workDir).1.Success? <==>
      declared == [] ||
      (ValidPaths(declared) && ValidPaths(result) && AllInResult(declared, result) &&
       AllObtainable(disk, files, WorkDirOf(workDir, cwd), declared, result))
  {
    MaterializeSucceedsIffObtainable(disk, files, WorkDirOf(workDir, cwd), declared, result);
  }
}
