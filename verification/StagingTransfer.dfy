/** Embedding job data for another machine and writing it out there. */
module StagingTransfer {
  import opened Wrappers
  import opened StagingModel

  // ---------- Embedding ----------

  /** EmbedJobData: references and files without content get their bytes from the source. */
  function EmbedOne(disk: Disk, files: Files, workDir: Path, d: JobData): Result<JobData, Error> {
    if !ValidPath(Some(d)) then Failure(AbsolutePath(PathOf(Some(d))))
    else
      match d
      case Reference(id, p) =>
        var abs := Resolve(workDir, p);
        if abs !in files then Failure(NotFound(p))
        else Success(File(id, |files[abs]|, FileData(p, Some(files[abs]), Some(disk.hash(files[abs])))))
      case File(id, _, f) =>
        var abs := Resolve(workDir, f.path);
        if HasContent(f) then Success(d)
        else if abs !in files then Failure(NotFound(f.path))
        else Success(File(id, |files[abs]|, f.(content := Some(files[abs]))))
      case _ => Success(d)
  }

  /** A nil element stays nil. */
  function EmbedNext(disk: Disk, files: Files, workDir: Path, sofar: DataList, d: Option<JobData>)
    : Result<DataList, Error>
  {
    match d
    case None => Success(sofar + [None])
    case Some(data) =>
      match EmbedOne(disk, files, workDir, data)
      case Failure(e) => Failure(e)
      case Success(embedded) => Success(sofar + [Some(embedded)])
  }

  function EmbedEach(disk: Disk, files: Files, workDir: Path, ds: DataList): Result<DataList, Error> {
    if ds == [] then Success([])
    else
      match EmbedEach(disk, files, workDir, ds[..|ds| - 1])
      case Failure(e) => Failure(e)
      case Success(sofar) => EmbedNext(disk, files, workDir, sofar, ds[|ds| - 1])
  }

  ghost function EmbedList(disk: Disk, files: Files, workDir: Path, ds: DataList): Result<DataList, Error> {
    if exists i :: 0 <= i < |ds| && !ValidPath(ds[i]) then Failure(FirstInvalid(ds))
    else EmbedEach(disk, files, workDir, ds)
  }

  // ---------- Writing ----------

  /** Write the content, copy from the stager's own directory, or keep what is already there, be
      it a file or a directory. */
  function Place(disk: Disk, files: Files, workDir: Path, outDir: Path, f: FileData): (Files, Result<(), Error>) {
    var out := Resolve(outDir, f.path);
    var source := Resolve(workDir, f.path);
    if out in files || IsDirectory(files, out) then (files, Success(()))
    else if f.content.Some? then
      if Writable(disk, files, out) then (files[out := f.content.value], Success(()))
      else (files, Failure(WriteFailed(f.path)))
    else if source !in files then (files, Failure(NotFound(f.path)))
    else if !Writable(disk, files, out) then (files, Failure(WriteFailed(f.path)))
    else (files[out := files[source]], Success(()))
  }

  /** WriteJobDataToFile: place the file, then check a recorded digest whoever wrote it. */
  function WriteOne(disk: Disk, files: Files, workDir: Path, outDir: Path, d: JobData): (Files, Result<(), Error>) {
    if !ValidPath(Some(d)) then (files, Failure(AbsolutePath(PathOf(Some(d)))))
    else
      match d
      case Missing(_) => (files, Failure(NoData))
      case File(_, _, f) =>
        var (files', placed) := Place(disk, files, workDir, outDir, f);
        var out := Resolve(outDir, f.path);
        if placed.Failure? then (files', placed)
        else if Expected(f) != "" && out !in files' then (files', Failure(NotFound(f.path)))
        else if Expected(f) != "" && Expected(f) != disk.hash(files'[out]) then (files', Failure(HashMismatch(f.path)))
        else (files', Success(()))
      case _ => (files, Failure(NotAFile))
  }

  function WriteEach(disk: Disk, files: Files, workDir: Path, outDir: Path, ds: seq<JobData>)
    : (Files, Result<(), Error>)
  {
    if ds == [] then (files, Success(()))
    else
      var (files1, written) := WriteEach(disk, files, workDir, outDir, ds[..|ds| - 1]);
      if written.Failure? then (files1, written) else WriteOne(disk, files1, workDir, outDir, ds[|ds| - 1])
  }

  function Somes(ds: seq<JobData>): (r: DataList)
    ensures |r| == |ds|
  {
    seq(|ds|, i requires 0 <= i < |ds| => Some(ds[i]))
  }

  ghost function WriteList(disk: Disk, files: Files, workDir: Path, outDir: Path, ds: seq<JobData>)
    : (Files, Result<(), Error>)
  {
    if exists i :: 0 <= i < |ds| && !ValidPath(Some(ds[i])) then (files, Failure(FirstInvalid(Somes(ds))))
    else WriteEach(disk, files, workDir, outDir, ds)
  }

  /** When one element is written and what then changed: an element that is not a relative file is
      refused; a place that is taken is left alone; a free one gets the content, or the file of that
      path in the stager's own directory; and a recorded digest must fit what then lies there. */
  lemma WriteOneMeans(disk: Disk, files: Files, workDir: Path, outDir: Path, d: JobData)
    ensures var (files', r) := WriteOne(disk, files, workDir, outDir, d);
      && (!d.File? || IsAbs(d.file.path) ==> r.Failure? && files' == files)
      && (d.File? && !IsAbs(d.file.path) ==>
            var out, source := Join(outDir, d.file.path), Resolve(workDir, d.file.path);
            var taken := out in files || IsDirectory(files, out);
            && (taken ==> files' == files)
            && (!taken && d.file.content.Some? && Writable(disk, files, out) ==>
                  files' == files[out := d.file.content.value])
            && (!taken && d.file.content.None? && source in files && Writable(disk, files, out) ==>
                  files' == files[out := files[source]])
            && (r.Success? <==>
                  && (taken || (Writable(disk, files, out) && (d.file.content.Some? || source in files)))
                  && (d.file.hash == None || d.file.hash == Some("") ||
                      (out in files' && d.file.hash == Some(disk.hash(files'[out]))))))
  {
  }

  /** Embedding keeps the id of everything, and all of what is neither a reference nor a file
      without content; what it loads it records with its size. */
  lemma EmbedOneKeeps(disk: Disk, files: Files, workDir: Path, d: JobData)
    ensures var r := EmbedOne(disk, files, workDir, d);
      && (r.Success? ==> r.value.id == d.id)
      && (d.Chunk? || d.Missing? ==> r == Success(d))
      && (d.Directory? ==> (if IsAbs(d.path) then r.Failure? else r == Success(d)))
      && (d.File? && d.file.content != None && d.file.content != Some([]) && !IsAbs(d.file.path) ==> r == Success(d))
      && (r.Success? && (d.Reference? || (d.File? && (d.file.content == None || d.file.content == Some([])))) ==>
            r.value.File? && r.value.file.content.Some? && r.value.size == |r.value.file.content.value|)
  {
  }

  // ---------- Embed then write is a copy ----------

  /** The bytes an element stands for at the source: its own content, or the file it names. */
  function SourceBytes(files: Files, workDir: Path, d: JobData): Option<Bytes> {
    match d
    case Reference(_, p) => if Resolve(workDir, p) in files then Some(files[Resolve(workDir, p)]) else None
    case File(_, _, f) =>
      if f.content != None && f.content != Some([]) then f.content
      else if Resolve(workDir, f.path) in files then Some(files[Resolve(workDir, f.path)])
      else None
    case _ => None
  }

  /** A recorded digest is right or absent; a reference records none. */
  ghost predicate RecordedRight(disk: Disk, d: JobData, bytes: Bytes) {
    d.File? ==> FitsRecord(disk, d.file.hash, bytes)
  }

  /** Files or references at distinct relative paths, all present at the source. */
  ghost predicate Sendable(files: Files, workDir: Path, ds: seq<JobData>) {
    && (forall i :: 0 <= i < |ds| ==> ValidPath(Some(ds[i])) && SourceBytes(files, workDir, ds[i]).Some?)
    && (forall i, j :: 0 <= i < j < |ds| ==> PathOf(Some(ds[i])) != PathOf(Some(ds[j])))
  }

  /** What embedding makes of an element: a file with its source bytes. */
  ghost predicate EmbeddedAs(disk: Disk, d: JobData, bytes: Bytes, e: JobData) {
    && e.File?
    && e.file.path == PathOf(Some(d)) && e.file.content == Some(bytes)
    && e.file.hash == (if d.File? then d.file.hash else Some(disk.hash(bytes)))
  }

  ghost predicate Embedding(disk: Disk, source: Files, workDir: Path, ds: seq<JobData>, es: seq<JobData>) {
    && Sendable(source, workDir, ds) && |es| == |ds|
    && forall i :: 0 <= i < |es| ==> EmbeddedAs(disk, ds[i], SourceBytes(source, workDir, ds[i]).value, es[i])
  }

  lemma EmbedOneEmbeds(disk: Disk, source: Files, workDir: Path, d: JobData) returns (e: JobData)
    requires ValidPath(Some(d)) && SourceBytes(source, workDir, d).Some?
    ensures EmbedOne(disk, source, workDir, d) == Success(e)
    ensures EmbeddedAs(disk, d, SourceBytes(source, workDir, d).value, e)
  {
    e := EmbedOne(disk, source, workDir, d).value;
  }

  lemma EmbeddingGrows(disk: Disk, source: Files, workDir: Path, front: seq<JobData>, es: seq<JobData>, d: JobData,
                       e: JobData)
    requires Embedding(disk, source, workDir, front, es) && Sendable(source, workDir, front + [d])
    requires SourceBytes(source, workDir, d).Some? && EmbeddedAs(disk, d, SourceBytes(source, workDir, d).value, e)
    ensures Embedding(disk, source, workDir, front + [d], es + [e])
  {
    var ds, all := front + [d], es + [e];
    forall i | 0 <= i < |all| ensures EmbeddedAs(disk, ds[i], SourceBytes(source, workDir, ds[i]).value, all[i])
    {
      if i < |es| {
        assert EmbeddedAs(disk, front[i], SourceBytes(source, workDir, front[i]).value, es[i]);
      }
    }
  }

  lemma EmbedEachSnoc(disk: Disk, source: Files, workDir: Path, front: seq<JobData>, es: seq<JobData>, d: JobData,
                      e: JobData)
    requires EmbedEach(disk, source, workDir, Somes(front)) == Success(Somes(es))
    requires EmbedOne(disk, source, workDir, d) == Success(e)
    ensures EmbedEach(disk, source, workDir, Somes(front + [d])) == Success(Somes(es + [e]))
  {
    var all := Somes(front + [d]);
    assert all[..|all| - 1] == Somes(front);
    assert Somes(es + [e]) == Somes(es) + [Some(e)];
  }

  lemma {:induction false} EmbedEachEmbeds(disk: Disk, source: Files, workDir: Path, ds: seq<JobData>)
      returns (es: seq<JobData>)
    requires Sendable(source, workDir, ds)
    ensures EmbedEach(disk, source, workDir, Somes(ds)) == Success(Somes(es))
    ensures Embedding(disk, source, workDir, ds, es)
  {
    if ds == [] {
      es := [];
    } else {
      var front, last := ds[..|ds| - 1], ds[|ds| - 1];
      assert Sendable(source, workDir, front) by {
        assert forall i :: 0 <= i < |front| ==> front[i] == ds[i];
      }
      var es1 := EmbedEachEmbeds(disk, source, workDir, front);
      var e := EmbedOneEmbeds(disk, source, workDir, last);
      es := es1 + [e];
      assert ds == front + [last];
      EmbeddingGrows(disk, source, workDir, front, es1, last, e);
      EmbedEachSnoc(disk, source, workDir, front, es1, last, e);
    }
  }

  /** The place of an element under the output directory. */
  function PlaceOf(outDir: Path, d: JobData): Path { Join(outDir, PathOf(Some(d))) }

  /** No element's path is a directory of another's. */
  ghost predicate NoneNested(ds: seq<JobData>) {
    forall i, j :: 0 <= i < |ds| && 0 <= j < |ds| ==> !Above(PathOf(Some(ds[i])), PathOf(Some(ds[j])))
  }

  /** Embedded files bound for distinct places that are free and writable. */
  ghost predicate Landable(disk: Disk, files: Files, outDir: Path, es: seq<JobData>) {
    && (forall i :: 0 <= i < |es| ==> es[i].File? && ValidPath(Some(es[i])) && es[i].file.content.Some?)
    && (forall i :: 0 <= i < |es| ==> PlaceOf(outDir, es[i]) !in files && Writable(disk, files, PlaceOf(outDir, es[i])))
    && (forall i, j :: 0 <= i < j < |es| ==> PlaceOf(outDir, es[i]) != PlaceOf(outDir, es[j]))
    && (forall i, j :: 0 <= i < |es| && 0 <= j < |es| ==> !Above(PlaceOf(outDir, es[i]), PlaceOf(outDir, es[j])))
  }

  ghost predicate DigestsAgree(disk: Disk, es: seq<JobData>) {
    forall i :: 0 <= i < |es| && es[i].File? && es[i].file.content.Some? ==>
      DigestAgrees(disk, es[i].file, es[i].file.content.value)
  }

  /** files' is files with every embedded file at its place, and nothing else changed. */
  ghost predicate Landed(files: Files, files': Files, outDir: Path, es: seq<JobData>) {
    && (forall i :: 0 <= i < |es| ==>
         && es[i].File? && PlaceOf(outDir, es[i]) in files'
         && es[i].file.content == Some(files'[PlaceOf(outDir, es[i])]))
    && (forall abs :: (forall i :: 0 <= i < |es| && es[i].File? ==> PlaceOf(outDir, es[i]) != abs)
          ==> (abs in files' <==> abs in files) && (abs in files ==> files'[abs] == files[abs]))
  }

  /** After the earlier files have landed, the next one's place is still free and writable. */
  lemma NextIsWritable(disk: Disk, files: Files, files1: Files, outDir: Path, front: seq<JobData>, e: JobData)
    requires Landable(disk, files, outDir, front + [e]) && Landed(files, files1, outDir, front)
    ensures PlaceOf(outDir, e) !in files1 && Writable(disk, files1, PlaceOf(outDir, e))
  {
    var all, out := front + [e], PlaceOf(outDir, e);
    assert all[|front|] == e;
    forall i | 0 <= i < |front|
      ensures PlaceOf(outDir, front[i]) != out
      ensures !Above(PlaceOf(outDir, front[i]), out) && !Above(out, PlaceOf(outDir, front[i]))
    {
      assert all[i] == front[i];
    }
    forall p | p in files1 ensures !Above(p, out) && !Above(out, p) {
      if forall i :: 0 <= i < |front| && front[i].File? ==> PlaceOf(outDir, front[i]) != p {
        assert p in files;
      }
    }
  }

  lemma WriteNextLands(disk: Disk, files: Files, files1: Files, workDir: Path, outDir: Path,
                       front: seq<JobData>, e: JobData)
    requires Landable(disk, files, outDir, front + [e]) && Landed(files, files1, outDir, front)
    requires e.File? && ValidPath(Some(e)) && e.file.content.Some?
    ensures var (files', r) := WriteOne(disk, files1, workDir, outDir, e);
      && (r.Success? <==> DigestAgrees(disk, e.file, e.file.content.value))
      && (r.Success? ==> Landed(files, files', outDir, front + [e]))
  {
    var all := front + [e];
    assert all[|front|] == e;
    assert forall i :: 0 <= i < |front| ==> all[i] == front[i] && PlaceOf(outDir, front[i]) != PlaceOf(outDir, e);
    NextIsWritable(disk, files, files1, outDir, front, e);
  }

  /** Writing succeeds exactly when every recorded digest fits, and then everything has landed. */
  lemma {:induction false} WriteEachLands(disk: Disk, files: Files, workDir: Path, outDir: Path, es: seq<JobData>)
    requires Landable(disk, files, outDir, es)
    ensures var (files', r) := WriteEach(disk, files, workDir, outDir, es);
      && (r.Success? <==> DigestsAgree(disk, es))
      && (r.Success? ==> Landed(files, files', outDir, es))
  {
    if es != [] {
      var front, last := es[..|es| - 1], es[|es| - 1];
      assert es == front + [last];
      assert forall i :: 0 <= i < |front| ==> front[i] == es[i];
      WriteEachLands(disk, files, workDir, outDir, front);
      var (files1, written) := WriteEach(disk, files, workDir, outDir, front);
      if written.Success? {
        WriteNextLands(disk, files, files1, workDir, outDir, front, last);
      }
    }
  }

  /** The sent files and where they land. */
  ghost predicate Copied(source: Files, workDir: Path, ds: seq<JobData>, files: Files, files': Files, outDir: Path)
    requires Sendable(source, workDir, ds)
  {
    && (forall i :: 0 <= i < |ds| ==>
         var abs := PlaceOf(outDir, ds[i]);
         abs in files' && files'[abs] == SourceBytes(source, workDir, ds[i]).value)
    && (forall abs :: (forall i :: 0 <= i < |ds| ==> PlaceOf(outDir, ds[i]) != abs)
          ==> (abs in files' <==> abs in files) && (abs in files ==> files'[abs] == files[abs]))
  }

  /** The places are free and writable at the destination. */
  ghost predicate Vacant(disk: Disk, files: Files, outDir: Path, ds: seq<JobData>) {
    forall i :: 0 <= i < |ds| ==> PlaceOf(outDir, ds[i]) !in files && Writable(disk, files, PlaceOf(outDir, ds[i]))
  }

  ghost predicate AllRecordedRight(disk: Disk, source: Files, workDir: Path, ds: seq<JobData>)
    requires Sendable(source, workDir, ds)
  {
    forall i :: 0 <= i < |ds| ==> RecordedRight(disk, ds[i], SourceBytes(source, workDir, ds[i]).value)
  }

  ghost predicate NoneEmpty(source: Files, workDir: Path, ds: seq<JobData>)
    requires Sendable(source, workDir, ds)
  {
    forall i :: 0 <= i < |ds| ==> SourceBytes(source, workDir, ds[i]).value != []
  }

  lemma EmbeddingIsLandable(disk: Disk, source: Files, workDir: Path, ds: seq<JobData>, es: seq<JobData>,
                            files: Files, outDir: Path)
    requires Embedding(disk, source, workDir, ds, es) && Vacant(disk, files, outDir, ds) && NoneNested(ds)
    ensures Landable(disk, files, outDir, es)
    ensures DigestsAgree(disk, es) <==> AllRecordedRight(disk, source, workDir, ds)
  {
    forall i | 0 <= i < |es|
      ensures EmbeddedAs(disk, ds[i], SourceBytes(source, workDir, ds[i]).value, es[i]) && ValidPath(Some(ds[i]))
      ensures PlaceOf(outDir, es[i]) == PlaceOf(outDir, ds[i])
    {
    }
    forall i, j | 0 <= i < j < |es| ensures PlaceOf(outDir, es[i]) != PlaceOf(outDir, es[j])
    {
      if PlaceOf(outDir, es[i]) == PlaceOf(outDir, es[j]) {
        JoinInjective(outDir, es[i].file.path, es[j].file.path);
      }
    }
    forall i, j | 0 <= i < |es| && 0 <= j < |es| ensures !Above(PlaceOf(outDir, es[i]), PlaceOf(outDir, es[j]))
    {
      JoinKeepsAbove(outDir, PathOf(Some(ds[i])), PathOf(Some(ds[j])));
    }
  }

  lemma LandedIsCopied(disk: Disk, source: Files, workDir: Path, ds: seq<JobData>, es: seq<JobData>,
                       files: Files, files': Files, outDir: Path)
    requires Embedding(disk, source, workDir, ds, es) && Landed(files, files', outDir, es)
    ensures Copied(source, workDir, ds, files, files', outDir)
  {
    assert forall i :: 0 <= i < |es| ==> es[i].File? && es[i].file.path == PathOf(Some(ds[i]));
  }

  lemma CopiedVerifies(disk: Disk, source: Files, workDir: Path, ds: seq<JobData>, es: seq<JobData>,
                       files: Files, files': Files, outDir: Path)
    requires Embedding(disk, source, workDir, ds, es) && AllRecordedRight(disk, source, workDir, ds)
    requires Copied(source, workDir, ds, files, files', outDir)
    ensures VerifyList(disk, files', Somes(es), outDir, Saved).Success? <==> NoneEmpty(source, workDir, ds)
  {
    forall i | 0 <= i < |es|
      ensures VerifyData(disk, files', Somes(es)[i], outDir, Saved).Success? <==>
        SourceBytes(source, workDir, ds[i]).value != []
    {
      assert EmbeddedAs(disk, ds[i], SourceBytes(source, workDir, ds[i]).value, es[i]);
      assert RecordedRight(disk, ds[i], SourceBytes(source, workDir, ds[i]).value);
      assert ValidPath(Some(ds[i]));
    }
    VerifyListIsAll(disk, files', Somes(es), outDir, Saved);
  }

  // ---------- Nothing else makes a copy ----------

  ghost predicate Extends(files: Files, files': Files) {
    forall p :: p in files ==> p in files' && files'[p] == files[p]
  }

  /** What a recorded digest guarantees about the place of its file. */
  ghost predicate DigestFits(disk: Disk, files: Files, outDir: Path, e: JobData) {
    e.File? && Expected(e.file) != "" ==>
      Resolve(outDir, e.file.path) in files && disk.hash(files[Resolve(outDir, e.file.path)]) == Expected(e.file)
  }

  lemma WriteOneExtends(disk: Disk, files: Files, workDir: Path, outDir: Path, e: JobData)
    ensures var (files', r) := WriteOne(disk, files, workDir, outDir, e);
      && Extends(files, files')
      && (TreeShaped(files) ==> TreeShaped(files'))
      && (r.Success? ==> DigestFits(disk, files', outDir, e))
  {
    if e.File? {
      var out := Resolve(outDir, e.file.path);
      var (files', _) := WriteOne(disk, files, workDir, outDir, e);
      if files' != files && TreeShaped(files) {
        WritableKeepsTree(disk, files, out, files'[out]);
      }
    }
  }

  ghost predicate AllDigestsFit(disk: Disk, files: Files, outDir: Path, es: seq<JobData>) {
    forall i :: 0 <= i < |es| ==> DigestFits(disk, files, outDir, es[i])
  }

  lemma DigestsStayFitting(disk: Disk, files: Files, files': Files, outDir: Path, front: seq<JobData>, e: JobData)
    requires AllDigestsFit(disk, files, outDir, front) && Extends(files, files') && DigestFits(disk, files', outDir, e)
    ensures AllDigestsFit(disk, files', outDir, front + [e])
  {
    var all := front + [e];
    forall i | 0 <= i < |all| ensures DigestFits(disk, files', outDir, all[i]) {
      if i < |front| {
        assert DigestFits(disk, files, outDir, front[i]);
      }
    }
  }

  /** Writing a list never overwrites or removes anything, keeps a tree a tree, and succeeds only
      if every recorded digest fits what then lies at its place. */
  lemma {:induction false} WriteEachExtends(disk: Disk, files: Files, workDir: Path, outDir: Path, es: seq<JobData>)
    ensures var (files', r) := WriteEach(disk, files, workDir, outDir, es);
      && Extends(files, files')
      && (TreeShaped(files) ==> TreeShaped(files'))
      && (r.Success? ==> AllDigestsFit(disk, files', outDir, es))
  {
    if es != [] {
      var n := |es| - 1;
      WriteEachExtends(disk, files, workDir, outDir, es[..n]);
      var (files1, written) := WriteEach(disk, files, workDir, outDir, es[..n]);
      if written.Success? {
        WriteOneExtends(disk, files1, workDir, outDir, es[n]);
        var (files', r) := WriteOne(disk, files1, workDir, outDir, es[n]);
        if r.Success? {
          assert es == es[..n] + [es[n]];
          DigestsStayFitting(disk, files1, files', outDir, es[..n], es[n]);
        }
      }
    }
  }

  /** A successful write that is a copy had right digests and no nested paths. */
  lemma CopyNeedsTree(disk: Disk, source: Files, workDir: Path, ds: seq<JobData>, es: seq<JobData>,
                      files: Files, otherDir: Path, outDir: Path)
    requires Embedding(disk, source, workDir, ds, es) && TreeShaped(files)
    requires var (files', r) := WriteEach(disk, files, otherDir, outDir, es);
      r.Success? && Copied(source, workDir, ds, files, files', outDir)
    ensures AllRecordedRight(disk, source, workDir, ds) && NoneNested(ds)
  {
    var (files', _) := WriteEach(disk, files, otherDir, outDir, es);
    WriteEachExtends(disk, files, otherDir, outDir, es);
    forall i | 0 <= i < |ds| ensures RecordedRight(disk, ds[i], SourceBytes(source, workDir, ds[i]).value) {
      assert EmbeddedAs(disk, ds[i], SourceBytes(source, workDir, ds[i]).value, es[i]);
      assert DigestFits(disk, files', outDir, es[i]) && ValidPath(Some(ds[i]));
    }
    forall i, j | 0 <= i < |ds| && 0 <= j < |ds| ensures !Above(PathOf(Some(ds[i])), PathOf(Some(ds[j]))) {
      JoinKeepsAbove(outDir, PathOf(Some(ds[i])), PathOf(Some(ds[j])));
      assert PlaceOf(outDir, ds[i]) in files' && PlaceOf(outDir, ds[j]) in files';
    }
  }

  /** Embedding at the source always works for files that are there; writing them into free places
      elsewhere succeeds with a copy (each path holds its source bytes, nothing else has changed)
      exactly when every recorded digest is right or absent and no path is a directory of another.
      Such a copy passes Saved verification exactly when no file is empty. */
  lemma EmbedThenWriteCopies(disk: Disk, source: Files, workDir: Path, ds: seq<JobData>,
                             files: Files, otherDir: Path, outDir: Path)
      returns (es: seq<JobData>)
    requires Sendable(source, workDir, ds) && Vacant(disk, files, outDir, ds) && TreeShaped(files)
    ensures EmbedList(disk, source, workDir, Somes(ds)) == Success(Somes(es))
    ensures var (files', written) := WriteList(disk, files, otherDir, outDir, es);
      && (written.Success? && Copied(source, workDir, ds, files, files', outDir) <==>
            AllRecordedRight(disk, source, workDir, ds) && NoneNested(ds))
      && (NoneNested(ds) ==> (written.Success? <==> AllRecordedRight(disk, source, workDir, ds)))
      && (written.Success? && Copied(source, workDir, ds, files, files', outDir) ==>
            (VerifyList(disk, files', Somes(es), outDir, Saved).Success? <==> NoneEmpty(source, workDir, ds)))
  {
    es := EmbedEachEmbeds(disk, source, workDir, ds);
    var (files', written) := WriteEach(disk, files, otherDir, outDir, es);
    assert WriteList(disk, files, otherDir, outDir, es) == (files', written) by {
      forall i | 0 <= i < |es| ensures ValidPath(Some(es[i])) {
        assert EmbeddedAs(disk, ds[i], SourceBytes(source, workDir, ds[i]).value, es[i]) && ValidPath(Some(ds[i]));
      }
    }
    if NoneNested(ds) {
      EmbeddingIsLandable(disk, source, workDir, ds, es, files, outDir);
      WriteEachLands(disk, files, otherDir, outDir, es);
      if written.Success? {
        LandedIsCopied(disk, source, workDir, ds, es, files, files', outDir);
      }
    }
    if written.Success? && Copied(source, workDir, ds, files, files', outDir) {
      CopyNeedsTree(disk, source, workDir, ds, es, files, otherDir, outDir);
      CopiedVerifies(disk, source, workDir, ds, es, files, files', outDir);
    }
  }

  /** Writing "d/x" and then "d", neither with a digest, reports success without writing "d": a
      directory counts as the file already being there. */
  lemma NestedFileCanBeSkipped(disk: Disk) returns (es: seq<JobData>)
    requires disk.blocked == {}
    ensures |es| == 2 && PathOf(Some(es[1])) == "d" && SourceBytes(map[], "", es[1]).Some?
    ensures var (files', written) := WriteList(disk, map[], "", "", es); written.Success? && "d" !in files'
  {
    var x, d := File("", 1, FileData("d/x", Some([1]), None)), File("", 1, FileData("d", Some([1]), None));
    es := [x, d];
    var files1: Files := map["d/x" := [1]];
    assert Above("d", "d/x");
    assert IsDirectory(files1, "d");
    assert es[..1] == [x] && [x][..0] == [];
    assert WriteOne(disk, map[], "", "", x) == (files1, Success(()));
    assert WriteEach(disk, map[], "", "", [x]) == (files1, Success(()));
    assert WriteEach(disk, map[], "", "", es) == WriteOne(disk, files1, "", "", d);
  }
}
