/** The local logging configuration manager: adding sinks and switching a logger's file sink. */
module LogConfigManager {
  import opened LogRegistry

  /** slog.LevelDebug. */
  const LEVEL_DEBUG := -4

  // ---------- Adding a sink ----------

  predicate KnownKind(kind: string) {
    kind == "stdout" || kind == "stderr" || kind == "file"
  }

  predicate Overlaps(kind: string, filePath: string, sink: Sink) {
    || (kind == "stdout" && sink.kind == "stdout")
    || (kind == "stderr" && sink.kind == "stderr")
    || (kind == "file" && sink.kind == "file" && sink.filePath == filePath)
  }

  /** When a sink can be added; handlerOk says whether the file handler could be created. */
  ghost predicate CanAdd(st: State, sinkName: string, kind: string, filePath: string, handlerOk: bool) {
    && KnownKind(kind)
    && (forall n :: n in st.sinks ==> !Overlaps(kind, filePath, st.sinks[n]))
    && (kind == "file" ==> filePath != "" && handlerOk)
    && sinkName !in st.sinks
  }

  /** Sinks that write to different places. */
  ghost predicate PlacesApart(st: State) {
    forall m, n :: m in st.sinks && n in st.sinks && m != n ==>
      !Overlaps(st.sinks[m].kind, st.sinks[m].filePath, st.sinks[n])
  }

  function NewSink(sinkName: string, kind: string, filePath: string, level: int): Sink {
    Sink(sinkName, kind, filePath, level, if kind == "file" then level else LEVEL_INFO)
  }

  /** Registering a sink keeps the places apart exactly when nothing overlaps it at that moment,
      which a check made in an earlier critical section does not ensure. */
  lemma RegisteringKeepsPlacesApartExactly(st: State, sink: Sink)
    requires PlacesApart(st) && sink.name !in st.sinks
    ensures PlacesApart(After(st, RegisterSink(sink))) <==>
      forall n :: n in st.sinks ==> !Overlaps(sink.kind, sink.filePath, st.sinks[n])
  {
    var after := After(st, RegisterSink(sink));
    if PlacesApart(after) {
      forall n | n in st.sinks ensures !Overlaps(sink.kind, sink.filePath, st.sinks[n]) {
        assert after.sinks[sink.name] == sink && after.sinks[n] == st.sinks[n];
      }
    }
    if forall n :: n in st.sinks ==> !Overlaps(sink.kind, sink.filePath, st.sinks[n]) {
      forall m, n | m in after.sinks && n in after.sinks && m != n
        ensures !Overlaps(after.sinks[m].kind, after.sinks[m].filePath, after.sinks[n])
      {
        if n == sink.name {
          assert !Overlaps(sink.kind, sink.filePath, st.sinks[m]);
        }
      }
    }
  }

  /** Two sinks never write to the same stream or file, as long as calls do not overlap. */
  lemma AddingKeepsPlacesApart(st: State, sinkName: string, kind: string, filePath: string, level: int, handlerOk: bool)
    requires PlacesApart(st) && CanAdd(st, sinkName, kind, filePath, handlerOk)
    ensures PlacesApart(After(st, RegisterSink(NewSink(sinkName, kind, filePath, level))))
  {
    RegisteringKeepsPlacesApartExactly(st, NewSink(sinkName, kind, filePath, level));
  }

  /** Two calls that both check before either registers can add two sinks for one file. */
  lemma OverlappingAddsShareAFile(filePath: string, level: int)
    requires filePath != ""
    ensures var st, a, b := State(map[], map[]), NewSink("a", "file", filePath, level),
      NewSink("b", "file", filePath, level);
      && CanAdd(st, "a", "file", filePath, true) && CanAdd(st, "b", "file", filePath, true)
      && !PlacesApart(After(After(st, RegisterSink(a)), RegisterSink(b)))
  {
    var st, a, b := State(map[], map[]), NewSink("a", "file", filePath, level), NewSink("b", "file", filePath, level);
    var one := After(st, RegisterSink(a));
    assert one.sinks["a"] == a && Overlaps("file", filePath, a);
    RegisteringKeepsPlacesApartExactly(one, b);
  }

  // ---------- Dropping a logger's file sinks ----------

  predicate IsFile(st: State, sinkName: string) {
    sinkName in st.sinks && st.sinks[sinkName].kind == "file"
  }

  function FileNames(st: State, names: seq<string>): set<string> {
    set n | n in names && IsFile(st, n)
  }

  /** The registered file sinks a logger names. */
  function FileSinksOf(st: State, logger: string): set<string> {
    if logger in st.configs then FileNames(st, st.configs[logger].sinkNames) else {}
  }

  ghost predicate UsedByOther(st: State, logger: string, sinkName: string) {
    exists l :: l in st.configs && l != logger && sinkName in st.configs[l].sinkNames
  }

  /** The logger without the given sinks, and the registry without those nobody else uses. */
  ghost function Dropped(st: State, logger: string, gone: set<string>): State
    requires logger in st.configs
  {
    State(
      map n | n in st.sinks && !(n in gone && !UsedByOther(st, logger, n)) :: st.sinks[n],
      WithSinkNames(st, logger, Remaining(st.configs[logger].sinkNames, gone)).configs)
  }

  lemma {:induction false} RemainingTwice(names: seq<string>, a: set<string>, b: set<string>)
    ensures Remaining(Remaining(names, a), b) == Remaining(names, a + b)
  {
    if names != [] {
      var front, last := names[..|names| - 1], names[|names| - 1];
      RemainingTwice(front, a, b);
      if last !in a {
        assert (Remaining(front, a) + [last])[..|Remaining(front, a)|] == Remaining(front, a);
      }
    }
  }

  lemma {:induction false} RemainingNone(names: seq<string>, gone: set<string>)
    requires forall n :: n in names ==> n !in gone
    ensures Remaining(names, gone) == names
  {
    if names != [] {
      RemainingNone(names[..|names| - 1], gone);
    }
  }

  lemma NothingDropped(st: State, logger: string)
    requires logger in st.configs
    ensures Dropped(st, logger, {}) == st
  {
    RemainingNone(st.configs[logger].sinkNames, {});
    assert Dropped(st, logger, {}).sinks == st.sinks;
    assert Dropped(st, logger, {}).configs == st.configs;
  }

  lemma UsesAfterDrop(st: State, logger: string, gone: set<string>, sinkName: string)
    requires logger in st.configs
    ensures Uses(Dropped(st, logger, gone), sinkName) <==>
      UsedByOther(st, logger, sinkName) || (sinkName in st.configs[logger].sinkNames && sinkName !in gone)
  {
    var after := Dropped(st, logger, gone);
    if UsedByOther(st, logger, sinkName) {
      var l :| l in st.configs && l != logger && sinkName in st.configs[l].sinkNames;
      assert after.configs[l] == st.configs[l];
    }
    if sinkName in st.configs[logger].sinkNames && sinkName !in gone {
      assert sinkName in after.configs[logger].sinkNames;
    }
  }

  lemma DetachOneMore(st: State, logger: string, gone: set<string>, sinkName: string)
    requires logger in st.configs && sinkName in st.configs[logger].sinkNames && sinkName !in gone
    ensures After(Dropped(st, logger, gone), DetachSink(logger, sinkName)) ==
      State(Dropped(st, logger, gone).sinks, Dropped(st, logger, gone + {sinkName}).configs)
  {
    RemainingTwice(st.configs[logger].sinkNames, gone, {sinkName});
  }

  /** Detaching and removing one more of the logger's file sinks, errors ignored. */
  lemma DropOneMore(st: State, logger: string, gone: set<string>, sinkName: string)
    requires logger in st.configs && sinkName in st.configs[logger].sinkNames
    requires sinkName in Dropped(st, logger, gone).sinks
    ensures After(After(Dropped(st, logger, gone), DetachSink(logger, sinkName)), RemoveSink(sinkName)) ==
      Dropped(st, logger, gone + {sinkName})
  {
    var now, next := Dropped(st, logger, gone), Dropped(st, logger, gone + {sinkName});
    var detached := After(now, DetachSink(logger, sinkName));
    if sinkName in gone {
      assert gone + {sinkName} == gone;
      UsesAfterDrop(st, logger, gone, sinkName);
    } else {
      DetachOneMore(st, logger, gone, sinkName);
      UsesAfterDrop(st, logger, gone + {sinkName}, sinkName);
      assert Uses(detached, sinkName) <==> Uses(next, sinkName);
      if UsedByOther(st, logger, sinkName) {
        assert next.sinks == now.sinks;
      } else {
        assert next.sinks == now.sinks - {sinkName};
      }
    }
  }

  lemma DroppingKeepsIntact(st: State, logger: string, gone: set<string>)
    requires logger in st.configs && Intact(st)
    ensures Intact(Dropped(st, logger, gone))
  {
    var after := Dropped(st, logger, gone);
    forall l, n | l in after.configs && n in after.configs[l].sinkNames ensures n in after.sinks {
      assert n in st.configs[l].sinkNames;
      if l != logger {
        assert UsedByOther(st, logger, n);
      }
    }
  }

  // ---------- Enabling a file sink ----------

  function FileSinkName(logger: string): string {
    "file-" + logger
  }

  /** The state a call works on once the old file sinks are gone. */
  ghost function WithoutFileSinks(st: State, logger: string): State {
    if logger in st.configs then Dropped(st, logger, FileSinksOf(st, logger)) else st
  }

  ghost predicate CanEnable(st: State, logger: string, filePath: string, handlerOk: bool) {
    && logger in st.configs
    && CanAdd(WithoutFileSinks(st, logger), FileSinkName(logger), "file", filePath, handlerOk)
  }

  /** What the call leaves behind when it succeeds. */
  ghost function WithFileSink(st: State, logger: string, filePath: string): State
    requires logger in st.configs
  {
    var bare, name := WithoutFileSinks(st, logger), FileSinkName(logger);
    State(
      bare.sinks[name := NewSink(name, "file", filePath, LEVEL_DEBUG)],
      WithSinkNames(bare, logger, bare.configs[logger].sinkNames + [name]).configs)
  }

  /** Success leaves exactly one file sink attached to the logger: the new one. Its other sinks,
      their order and every other logger are as before. */
  lemma OneFileSinkAfterEnable(st: State, logger: string, filePath: string, handlerOk: bool)
    requires Intact(st) && CanEnable(st, logger, filePath, handlerOk)
    ensures var after := WithFileSink(st, logger, filePath);
      && Intact(after)
      && FileSinksOf(after, logger) == {FileSinkName(logger)}
      && after.configs[logger].sinkNames ==
           Remaining(st.configs[logger].sinkNames, FileSinksOf(st, logger)) + [FileSinkName(logger)]
      && after.sinks[FileSinkName(logger)].filePath == filePath
      && (forall l :: l in st.configs && l != logger ==> l in after.configs && after.configs[l] == st.configs[l])
      && (forall l :: l in after.configs && l != logger ==>
            (forall n :: n in after.configs[l].sinkNames ==> n in after.sinks && after.sinks[n] == st.sinks[n]))
  {
    var after, bare, name := WithFileSink(st, logger, filePath), WithoutFileSinks(st, logger), FileSinkName(logger);
    DroppingKeepsIntact(st, logger, FileSinksOf(st, logger));
    var names := after.configs[logger].sinkNames;
    assert names == bare.configs[logger].sinkNames + [name];
    assert name in names && IsFile(after, name);
    forall n | n in names && n != name ensures !IsFile(after, n) {
      assert n in bare.configs[logger].sinkNames;
    }
    forall l, n | l in after.configs && l != logger && n in after.configs[l].sinkNames
      ensures n in after.sinks && after.sinks[n] == st.sinks[n]
    {
      assert after.configs[l] == bare.configs[l] == st.configs[l];
      assert n in bare.sinks && n != name;
    }
  }

  /** A failed call restores everything exactly when the logger had no file sink to lose. */
  lemma FailedEnableKeepsStateExactly(st: State, logger: string)
    requires Intact(st)
    ensures WithoutFileSinks(st, logger) == st <==> FileSinksOf(st, logger) == {}
  {
    if logger in st.configs {
      var gone := FileSinksOf(st, logger);
      if gone == {} {
        NothingDropped(st, logger);
      } else {
        var n :| n in gone;
        assert n in st.configs[logger].sinkNames && n !in WithoutFileSinks(st, logger).configs[logger].sinkNames;
      }
    }
  }

  /** Two loggers share a file sink: enabling another file for one of them fails, because the
      shared sink keeps the name, and the logger is left without any. */
  lemma FailedEnableCanLoseFileSink() returns (st: State)
    ensures Intact(st) && FileSinksOf(st, "a") == {"file-a"}
    ensures !CanEnable(st, "a", "new.log", true) && FileSinksOf(WithoutFileSinks(st, "a"), "a") == {}
  {
    var shared := Config(LEVEL_INFO, ["file-a"]);
    st := State(map["file-a" := NewSink("file-a", "file", "a.log", LEVEL_DEBUG)], map["a" := shared, "b" := shared]);
    assert "file-a" in shared.sinkNames;
    assert "b" in st.configs && UsedByOther(st, "a", "file-a");
    assert "file-a" in WithoutFileSinks(st, "a").sinks;
    assert FileSinkName("a") == "file-a";
  }

  class LocalConfigManager {
    const registry: Registry

    constructor (registry: Registry)
      ensures this.registry == registry
    {
      this.registry := registry;
    }

    method AddSinkInternal(sinkName: string, kind: string, filePath: string, level: int, handlerOk: bool)
        returns (ok: bool)
      modifies registry`sinks
      ensures ok <==> CanAdd(old(registry.Contents()), sinkName, kind, filePath, handlerOk)
      ensures registry.Contents() ==
        if ok then After(old(registry.Contents()), RegisterSink(NewSink(sinkName, kind, filePath, level)))
        else old(registry.Contents())
      ensures ok <==>
        && kind in {"stdout", "stderr", "file"} && sinkName !in old(registry.sinks)
        && (kind == "file" ==> filePath != "" && handlerOk)
        && (forall n :: n in old(registry.sinks) && old(registry.sinks)[n].kind == kind ==>
              kind == "file" && old(registry.sinks)[n].filePath != filePath)
      ensures ok ==>
        registry.sinks == old(registry.sinks)[sinkName :=
          Sink(sinkName, kind, filePath, level, if kind == "file" then level else LEVEL_INFO)]
      ensures !ok ==> registry.sinks == old(registry.sinks)
    {
      if !KnownKind(kind) {
        return false;
      }
      var left := registry.sinks.Keys;
      while left != {}
        invariant left <= registry.sinks.Keys
        invariant forall n :: n in registry.sinks.Keys - left ==> !Overlaps(kind, filePath, registry.sinks[n])
        decreases left
      {
        var n :| n in left;
        if Overlaps(kind, filePath, registry.sinks[n]) {
          return false;
        }
        left := left - {n};
      }
      if kind == "file" && (filePath == "" || !handlerOk) {
        return false;
      }
      ok := registry.RegisterSink(NewSink(sinkName, kind, filePath, level));
    }

    /** The loop over a snapshot of the logger's sinks; errors are only logged. */
    method DropFileSinks(loggerName: string, sinkNames: seq<string>)
      requires loggerName in registry.loggerConfigs && sinkNames == registry.loggerConfigs[loggerName].sinkNames
      modifies registry`sinks, registry`loggerConfigs
      ensures registry.Contents() == WithoutFileSinks(old(registry.Contents()), loggerName)
    {
      ghost var before := registry.Contents();
      NothingDropped(before, loggerName);
      assert FileNames(before, sinkNames[..0]) == {};
      for i := 0 to |sinkNames|
        invariant registry.Contents() == Dropped(before, loggerName, FileNames(before, sinkNames[..i]))
      {
        var name := sinkNames[i];
        ghost var gone := FileNames(before, sinkNames[..i]);
        assert FileNames(before, sinkNames[..i + 1]) == if IsFile(before, name) then gone + {name} else gone;
        var sink := registry.GetSink(name);
        if sink.Some? && sink.value.kind == "file" {
          DropOneMore(before, loggerName, gone, name);
          var detached := registry.DetachSink(loggerName, name);
          var removed := registry.RemoveSink(name);
        } else if IsFile(before, name) {
          assert gone + {name} == gone;
        }
      }
      assert sinkNames[..|sinkNames|] == sinkNames;
    }

    method EnableFileSink(loggerName: string, filePath: string, handlerOk: bool) returns (ok: bool)
      requires Intact(registry.Contents())
      modifies registry`sinks, registry`loggerConfigs
      ensures ok <==> CanEnable(old(registry.Contents()), loggerName, filePath, handlerOk)
      ensures registry.Contents() ==
        if ok then WithFileSink(old(registry.Contents()), loggerName, filePath)
        else WithoutFileSinks(old(registry.Contents()), loggerName)
      ensures loggerName !in old(registry.loggerConfigs) ==> registry.Contents() == old(registry.Contents())
    {
      var sinkName := FileSinkName(loggerName);
      ghost var before := registry.Contents();
      var sinkNames := registry.GetLoggerSinks(loggerName);
      if sinkNames.Some? {
        DroppingKeepsIntact(before, loggerName, FileSinksOf(before, loggerName));
        DropFileSinks(loggerName, sinkNames.value);
      }
      ghost var bare := registry.Contents();
      ok := AddSinkInternal(sinkName, "file", filePath, LEVEL_DEBUG, handlerOk);
      if !ok {
        return false;
      }
      ghost var added := registry.Contents();
      NewNameIsUnused(bare, sinkName);
      ok := registry.AttachSink(loggerName, sinkName);
      if !ok {
        var removed := registry.RemoveSink(sinkName);
        assert registry.Contents().sinks == bare.sinks;
      }
    }

    /** Drops the first file sink of a logger, or fails: leaving the registry alone if there is
        none, and keeping the sink registered if another logger uses it. */
    method DisableFileSink(loggerName: string) returns (ok: bool)
      modifies registry`sinks, registry`loggerConfigs
      ensures FileSinksOf(old(registry.Contents()), loggerName) == {} ==>
        !ok && registry.Contents() == old(registry.Contents())
      ensures FileSinksOf(old(registry.Contents()), loggerName) != {} ==>
        exists i: nat ::
          && IsFirstFile(old(registry.Contents()), old(registry.loggerConfigs)[loggerName].sinkNames, i)
          && var name := old(registry.loggerConfigs)[loggerName].sinkNames[i];
          && registry.Contents() == Dropped(old(registry.Contents()), loggerName, {name})
          && (ok <==> !UsedByOther(old(registry.Contents()), loggerName, name))
    {
      ghost var before := registry.Contents();
      var found := registry.GetLoggerSinks(loggerName);
      if found.None? {
        return false;
      }
      var names := found.value;
      var i := 0;
      while i < |names|
        invariant 0 <= i <= |names| && registry.Contents() == before
        invariant forall j :: 0 <= j < i ==> !IsFile(before, names[j])
      {
        var sink := registry.GetSink(names[i]);
        if sink.Some? && sink.value.kind == "file" {
          break;
        }
        i := i + 1;
      }
      if i == |names| {
        return false;
      }
      assert IsFirstFile(before, names, i) && names[i] in FileSinksOf(before, loggerName);
      NothingDropped(before, loggerName);
      DropOneMore(before, loggerName, {}, names[i]);
      DetachOneMore(before, loggerName, {}, names[i]);
      UsesAfterDrop(before, loggerName, {} + {names[i]}, names[i]);
      assert {} + {names[i]} == {names[i]};
      var detached := registry.DetachSink(loggerName, names[i]);
      ghost var middle := registry.Contents();
      assert Uses(middle, names[i]) <==> Uses(Dropped(before, loggerName, {names[i]}), names[i]);
      ok := registry.RemoveSink(names[i]);
    }
  }

  ghost predicate IsFirstFile(st: State, names: seq<string>, i: nat) {
    i < |names| && IsFile(st, names[i]) && forall j :: 0 <= j < i ==> !IsFile(st, names[j])
  }

  /** In an intact registry nobody names a sink that is not registered. */
  lemma NewNameIsUnused(st: State, sinkName: string)
    requires Intact(st) && sinkName !in st.sinks
    ensures !Uses(st, sinkName)
  {
  }
}
