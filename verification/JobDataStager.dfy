/** The stager as the source writes it: loops over job data that read and write a file store. */
module JobDataStagers {
  import opened Wrappers
  import opened StagingModel
  import opened StagingTransfer

  class FileStore {
    const disk: Disk
    var files: Files

    constructor (disk: Disk, files: Files)
      ensures this.disk == disk && this.files == files
    {
      this.disk, this.files := disk, files;
    }

    /** MkdirAll on the parent, then WriteFile. */
    method WriteFile(path: Path, content: Bytes) returns (ok: bool)
      modifies this
      ensures ok <==> Writable(disk, old(files), path)
      ensures files == if ok then old(files)[path := content] else old(files)
    {
      ok := Writable(disk, files, path);
      if ok {
        files := files[path := content];
      }
    }
  }

  lemma FirstInvalidIsFirst(ds: DataList, i: nat)
    requires i < |ds| && !ValidPath(ds[i]) && ValidPaths(ds[..i])
    ensures FirstInvalid(ds) == AbsolutePath(PathOf(ds[i]))
  {
    if i > 0 {
      assert ds[1..][..i - 1] == ds[..i][1..];
      assert ValidPath(ds[..i][0]);
      FirstInvalidIsFirst(ds[1..], i - 1);
    }
  }

  class JobDataStager {
    const workDir: Path
    const store: FileStore

    constructor (workDir: Path, store: FileStore)
      ensures this.workDir == workDir && this.store == store
    {
      this.workDir, this.store := workDir, store;
    }

    static method ValidateJobDataPathList(ds: DataList) returns (error: Option<Error>)
      ensures error.None? <==> ValidPaths(ds)
      ensures error.Some? ==> error.value == FirstInvalid(ds)
      ensures error.None? <==> forall i :: 0 <= i < |ds| && ds[i].Some? ==>
        match ds[i].value
        case File(_, _, f) => f.path == "" || f.path[0] != '/'
        case Reference(_, p) => p == "" || p[0] != '/'
        case Directory(_, p) => p == "" || p[0] != '/'
        case _ => true
    {
      for i := 0 to |ds|
        invariant ValidPaths(ds[..i])
      {
        if !ValidPath(ds[i]) {
          FirstInvalidIsFirst(ds, i);
          return Some(AbsolutePath(PathOf(ds[i])));
        }
      }
      assert ds[..|ds|] == ds;
      return None;
    }

    // ---------- Materialising outputs ----------

    /** The set of declared file paths, filled by a loop over the declared outputs. */
    static method ExpectedPaths(declared: DataList) returns (expected: set<Path>)
      ensures expected == set p | p in DeclaredFiles(declared)
    {
      expected := {};
      for i := 0 to |declared|
        invariant expected == set p | p in DeclaredFiles(declared[..i])
      {
        assert declared[..i + 1][..i] == declared[..i];
        match declared[i] {
          case Some(File(_, _, f)) => expected := expected + {f.path};
          case _ =>
        }
      }
      assert declared[..|declared|] == declared;
    }

    static method FindInResult(result: DataList, path: Path) returns (found: Option<FileData>)
      ensures found == FindOutput(result, path)
      ensures found.None? ==> forall i :: 0 <= i < |result| ==> !IsEntry(result, i, path)
      ensures found.Some? ==>
        exists i :: 0 <= i < |result| && IsFirstEntry(result, i, path) && found == Some(result[i].value.file)
    {
      for i := 0 to |result|
        invariant forall j :: 0 <= j < i ==> !IsEntry(result, j, path)
      {
        match result[i] {
          case Some(File(_, _, f)) =>
            if f.path == path {
              assert IsFirstEntry(result, i, path);
              return Some(f);
            }
          case _ =>
        }
      }
      return None;
    }

    /** One declared file: written from its content, or found and hashed on disk. */
    method MaterializeFile(dir: Path, path: Path, chosen: FileData) returns (r: Result<JobData, Error>)
      modifies store
      ensures (store.files, r) == MaterializeOne(store.disk, old(store.files), dir, path, chosen)
    {
      var abs := Resolve(dir, path);
      if HasContent(chosen) {
        var bytes := chosen.content.value;
        var written := store.WriteFile(abs, bytes);
        if !written {
          return Failure(WriteFailed(path));
        }
        var computed := store.disk.hash(bytes);
        if chosen.hash.Some? && chosen.hash.value != "" && computed != chosen.hash.value {
          return Failure(HashMismatch(path));
        }
        return Success(OnDisk(path, |store.files[abs]|, computed));
      }
      if abs !in store.files {
        return Failure(NotFound(path));
      }
      var computed := store.disk.hash(store.files[abs]);
      var expected := Expected(chosen);
      if expected != "" && computed != expected {
        return Failure(HashMismatch(path));
      }
      return Success(OnDisk(path, |store.files[abs]|, computed));
    }

    method MaterializeJobOutputs(declared: DataList, cwd: Path, result: DataList, workDir: Path)
        returns (r: Result<DataList, Error>)
      modifies store
      ensures (store.files, r) == Materialize(store.disk, old(store.files), declared, cwd, result, workDir)
    {
      if |declared| == 0 {
        return Success([]);
      }
      var error := ValidateJobDataPathList(declared);
      if error.Some? {
        return Failure(error.value);
      }
      error := ValidateJobDataPathList(result);
      if error.Some? {
        return Failure(error.value);
      }
      var dir := if workDir != "" then workDir else if cwd != "" then cwd else ".";
      var expected := ExpectedPaths(declared);
      r := MaterializeAll(dir, declared, result);
      if r.Success? && |result| > 0 {
        var missing := AnyMissing(expected, declared, result);
        if missing {
          return Failure(NotInResult);
        }
      }
    }

    method MaterializeAll(dir: Path, declared: DataList, result: DataList) returns (r: Result<DataList, Error>)
      modifies store
      ensures (store.files, r) == MaterializeEach(store.disk, old(store.files), dir, declared, result)
    {
      var outputs: DataList := [];
      for i := 0 to |declared|
        invariant (store.files, Success(outputs)) ==
          MaterializeEach(store.disk, old(store.files), dir, declared[..i], result)
      {
        assert declared[..i + 1][..i] == declared[..i];
        match declared[i] {
          case Some(File(_, _, f)) =>
            var found := FindInResult(result, f.path);
            var one := MaterializeFile(dir, f.path, if found.Some? then found.value else f);
            match one {
              case Success(o) => outputs := outputs + [Some(o)];
              case Failure(e) =>
                FailurePersists(store.disk, old(store.files), dir, declared, result, i + 1);
                return Failure(e);
            }
          case _ =>
        }
      }
      assert declared[..|declared|] == declared;
      return Success(outputs);
    }

    /** The final loop over the expected paths. */
    static method AnyMissing(expected: set<Path>, declared: DataList, result: DataList) returns (missing: bool)
      requires expected == set p | p in DeclaredFiles(declared)
      requires result != []
      ensures missing <==> !AllInResult(declared, result)
    {
      missing := false;
      var todo := expected;
      while todo != {}
        invariant todo <= expected
        invariant !missing <==> forall p :: p in expected - todo ==> HasEntry(result, p)
        decreases todo
      {
        var p :| p in todo;
        var found := FindInResult(result, p);
        if found.None? {
          missing := true;
        }
        assert expected - (todo - {p}) == expected - todo + {p};
        todo := todo - {p};
      }
      assert expected - todo == expected;
      assert forall p :: p in DeclaredFiles(declared) <==> p in expected;
      if missing {
        ghost var p :| p in expected && !HasEntry(result, p);
        assert p in DeclaredFiles(declared);
      }
      AllInResultByPath(declared, result);
    }

    // ---------- Verification ----------

    method VerifyJobData(d: Option<JobData>, dir: Path, mode: VerificationMode) returns (r: Result<(), Error>)
      ensures r == VerifyData(store.disk, store.files, d, dir, mode)
    {
      match d {
        case None => return Failure(NilData);
        case Some(Missing(_)) => return Failure(NoData);
        case Some(File(_, _, f)) => r := VerifyFileJobData(f, dir, mode);
        case _ => return Success(());
      }
    }

    method VerifyFileJobData(f: FileData, dir: Path, mode: VerificationMode) returns (r: Result<(), Error>)
      ensures r == VerifyFile(store.disk, store.files, f, dir, mode)
    {
      var path := f.path;
      if !IsAbs(path) && dir != "" {
        path := Join(dir, path);
      }
      match mode {
        case Saved =>
          r := VerifyFileJobDataOnDisk(f, path);
          if r.Success? && |store.files[path]| == 0 {
            return Failure(EmptyFile(f.path));
          }
        case Integrity =>
          if HasContent(f) {
            var computed := store.disk.hash(f.content.value);
            if f.hash.Some? && f.hash.value != "" && computed != f.hash.value {
              return Failure(HashMismatch(f.path));
            }
            return Success(());
          }
          r := VerifyFileJobDataOnDisk(f, path);
      }
    }

    method VerifyFileJobDataOnDisk(f: FileData, path: Path) returns (r: Result<(), Error>)
      ensures r == VerifyOnDisk(store.disk, store.files, f, path)
    {
      if path !in store.files {
        return Failure(NotFound(f.path));
      }
      var computed := store.disk.hash(store.files[path]);
      var expected := if f.hash.Some? then f.hash.value else "";
      if expected != "" && computed != expected {
        return Failure(HashMismatch(f.path));
      }
      return Success(());
    }

    method VerifyJobDataList(ds: DataList, dir: Path, mode: VerificationMode) returns (r: Result<(), Error>)
      ensures r == VerifyList(store.disk, store.files, ds, dir, mode)
    {
      for i := 0 to |ds|
        invariant VerifyList(store.disk, store.files, ds[..i], dir, mode).Success?
      {
        assert ds[..i + 1][..i] == ds[..i];
        r := VerifyJobData(ds[i], dir, mode);
        if r.Failure? {
          VerifyFailurePersists(store.disk, store.files, ds, dir, mode, i + 1);
          return;
        }
      }
      assert ds[..|ds|] == ds;
      return Success(());
    }

    // ---------- Embedding and writing ----------

    method EmbedJobData(d: JobData) returns (r: Result<JobData, Error>)
      ensures r == EmbedOne(store.disk, store.files, workDir, d)
    {
      if !ValidPath(Some(d)) {
        return Failure(AbsolutePath(PathOf(Some(d))));
      }
      match d {
        case Reference(id, p) =>
          var abs := Resolve(workDir, p);
          if abs !in store.files {
            return Failure(NotFound(p));
          }
          var content := store.files[abs];
          return Success(File(id, |content|, FileData(p, Some(content), Some(store.disk.hash(content)))));
        case File(id, _, f) =>
          if f.content.None? || |f.content.value| == 0 {
            var abs := Resolve(workDir, f.path);
            if abs !in store.files {
              return Failure(NotFound(f.path));
            }
            var content := store.files[abs];
            return Success(File(id, |content|, FileData(f.path, Some(content), f.hash)));
          }
          return Success(d);
        case _ => return Success(d);
      }
    }

    method EmbedJobDataList(ds: DataList) returns (r: Result<DataList, Error>)
      ensures r == EmbedList(store.disk, store.files, workDir, ds)
    {
      if |ds| == 0 {
        return Success(ds);
      }
      var error := ValidateJobDataPathList(ds);
      if error.Some? {
        return Failure(error.value);
      }
      var embedded: DataList := [];
      for i := 0 to |ds|
        invariant EmbedEach(store.disk, store.files, workDir, ds[..i]) == Success(embedded)
      {
        assert ds[..i + 1][..i] == ds[..i];
        if ds[i].None? {
          embedded := embedded + [None];
        } else {
          var one := EmbedJobData(ds[i].value);
          if one.Failure? {
            EmbedFailurePersists(store.disk, store.files, workDir, ds, i + 1);
            return Failure(one.error);
          }
          embedded := embedded + [Some(one.value)];
        }
      }
      assert ds[..|ds|] == ds;
      return Success(embedded);
    }

    method WriteJobDataToFile(d: JobData, outDir: Path) returns (r: Result<(), Error>)
      modifies store
      ensures (store.files, r) == WriteOne(store.disk, old(store.files), workDir, outDir, d)
    {
      if !ValidPath(Some(d)) {
        return Failure(AbsolutePath(PathOf(Some(d))));
      }
      match d {
        case Missing(_) => return Failure(NoData);
        case File(_, _, f) =>
          r := PlaceFile(f, outDir);
          if r.Failure? {
            return;
          }
          if f.hash.Some? && f.hash.value != "" {
            var out := Resolve(outDir, f.path);
            if out !in store.files {
              return Failure(NotFound(f.path));
            }
            if store.disk.hash(store.files[out]) != f.hash.value {
              return Failure(HashMismatch(f.path));
            }
          }
        case _ => return Failure(NotAFile);
      }
    }

    method PlaceFile(f: FileData, outDir: Path) returns (r: Result<(), Error>)
      modifies store
      ensures (store.files, r) == Place(store.disk, old(store.files), workDir, outDir, f)
    {
      var out := Resolve(outDir, f.path);
      var present := out in store.files || IsDirectory(store.files, out);
      r := Success(());
      if !present && f.content.Some? {
        var written := store.WriteFile(out, f.content.value);
        if !written {
          return Failure(WriteFailed(f.path));
        }
      } else if !present {
        var source := Resolve(workDir, f.path);
        if source !in store.files {
          return Failure(NotFound(f.path));
        }
        var written := store.WriteFile(out, store.files[source]);
        if !written {
          return Failure(WriteFailed(f.path));
        }
      }
    }

    method WriteJobDataListToFiles(ds: seq<JobData>, outDir: Path) returns (r: Result<(), Error>)
      modifies store
      ensures (store.files, r) == WriteList(store.disk, old(store.files), workDir, outDir, ds)
    {
      var error := ValidateJobDataPathList(Somes(ds));
      assert forall i :: 0 <= i < |ds| ==> Somes(ds)[i] == Some(ds[i]);
      if error.Some? {
        return Failure(error.value);
      }
      for i := 0 to |ds|
        invariant (store.files, Success(())) == WriteEach(store.disk, old(store.files), workDir, outDir, ds[..i])
      {
        assert ds[..i + 1][..i] == ds[..i];
        r := WriteJobDataToFile(ds[i], outDir);
        if r.Failure? {
          WriteFailurePersists(store.disk, old(store.files), workDir, outDir, ds, i + 1);
          return;
        }
      }
      assert ds[..|ds|] == ds;
      return Success(());
    }
  }

  // ---------- An early return is the result of the whole list ----------

  lemma {:induction false} FailurePersists(disk: Disk, files: Files, dir: Path, declared: DataList, result: DataList,
          i: nat)
    requires i <= |declared| && MaterializeEach(disk, files, dir, declared[..i], result).1.Failure?
    ensures MaterializeEach(disk, files, dir, declared, result) ==
      MaterializeEach(disk, files, dir, declared[..i], result)
    decreases |declared| - i
  {
    if i == |declared| {
      assert declared[..i] == declared;
    } else {
      assert declared[..i + 1][..i] == declared[..i];
      FailurePersists(disk, files, dir, declared, result, i + 1);
    }
  }

  lemma {:induction false} VerifyFailurePersists(disk: Disk, files: Files, ds: DataList, dir: Path,
          mode: VerificationMode, i: nat)
    requires i <= |ds| && VerifyList(disk, files, ds[..i], dir, mode).Failure?
    ensures VerifyList(disk, files, ds, dir, mode) == VerifyList(disk, files, ds[..i], dir, mode)
    decreases |ds| - i
  {
    if i == |ds| {
      assert ds[..i] == ds;
    } else {
      assert ds[..i + 1][..i] == ds[..i];
      VerifyFailurePersists(disk, files, ds, dir, mode, i + 1);
    }
  }

  lemma {:induction false} EmbedFailurePersists(disk: Disk, files: Files, workDir: Path, ds: DataList, i: nat)
    requires i <= |ds| && EmbedEach(disk, files, workDir, ds[..i]).Failure?
    ensures EmbedEach(disk, files, workDir, ds) == EmbedEach(disk, files, workDir, ds[..i])
    decreases |ds| - i
  {
    if i == |ds| {
      assert ds[..i] == ds;
    } else {
      assert ds[..i + 1][..i] == ds[..i];
      EmbedFailurePersists(disk, files, workDir, ds, i + 1);
    }
  }

  lemma {:induction false} WriteFailurePersists(disk: Disk, files: Files, workDir: Path, outDir: Path,
          ds: seq<JobData>, i: nat)
    requires i <= |ds| && WriteEach(disk, files, workDir, outDir, ds[..i]).1.Failure?
    ensures WriteEach(disk, files, workDir, outDir, ds) == WriteEach(disk, files, workDir, outDir, ds[..i])
    decreases |ds| - i
  {
    if i == |ds| {
      assert ds[..i] == ds;
    } else {
      assert ds[..i + 1][..i] == ds[..i];
      WriteFailurePersists(disk, files, workDir, outDir, ds, i + 1);
    }
  }
}
