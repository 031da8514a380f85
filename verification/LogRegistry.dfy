/** The logging registry: sinks, configured loggers, hierarchical lookup and routing. */
module LogRegistry {
  import opened Wrappers
  import opened Strings

  datatype Sink = Sink(name: string, kind: string, filePath: string, level: int, handlerLevel: int)

  datatype Config = Config(level: int, sinkNames: seq<string>)

  /** What the registry's lock protects. */
  datatype State = State(sinks: map<string, Sink>, configs: map<string, Config>)

  /** slog.LevelInfo. */
  const LEVEL_INFO := 0

  /** One critical section of the registry. */
  datatype Op =
    | RegisterSink(sink: Sink)
    | SetLoggerSinks(logger: string, sinkNames: seq<string>)
    | SetLoggerLevel(logger: string, level: int)
    | SetSinkLevel(sinkName: string, level: int)
    | AttachSink(logger: string, sinkName: string)
    | DetachSink(logger: string, sinkName: string)
    | RemoveSink(sinkName: string)
    | RemoveLogger(logger: string)

  // ---------- The operations as functions ----------

  /** The names that are left without those in gone. */
  function Remaining(names: seq<string>, gone: set<string>): (r: seq<string>)
    ensures forall n :: n in r <==> n in names && n !in gone
  {
    if names == [] then []
    else
      var rest := Remaining(names[..|names| - 1], gone);
      assert forall n :: n in names <==> n in names[..|names| - 1] || n == names[|names| - 1];
      if names[|names| - 1] in gone then rest else rest + [names[|names| - 1]]
  }

  /** Names are left in order: what is left of two lists in a row is what is left of each. */
  lemma {:induction false} RemainingSplits(a: seq<string>, b: seq<string>, gone: set<string>)
    ensures Remaining(a + b, gone) == Remaining(a, gone) + Remaining(b, gone)
  {
    if b == [] {
      assert a + b == a;
    } else {
      var front, last := b[..|b| - 1], b[|b| - 1];
      RemainingSplits(a, front, gone);
      assert (a + b)[..|a + b| - 1] == a + front && (a + b)[|a + b| - 1] == last;
    }
  }

  /** A name loses every occurrence or none. */
  lemma {:induction false} RemainingCounts(names: seq<string>, gone: set<string>, n: string)
    ensures multiset(Remaining(names, gone))[n] == if n in gone then 0 else multiset(names)[n]
  {
    if names != [] {
      var front, last := names[..|names| - 1], names[|names| - 1];
      RemainingCounts(front, gone, n);
      assert names == front + [last];
    }
  }

  ghost predicate Uses(st: State, sinkName: string) {
    exists l :: l in st.configs && sinkName in st.configs[l].sinkNames
  }

  ghost predicate Accepts(st: State, op: Op) {
    match op
    case RegisterSink(s) => s.name !in st.sinks
    case SetLoggerSinks(_, names) => forall n :: n in names ==> n in st.sinks
    case SetLoggerLevel(l, _) => l in st.configs
    case SetSinkLevel(n, _) => n in st.sinks
    case AttachSink(l, n) => n in st.sinks && l in st.configs && n !in st.configs[l].sinkNames
    case DetachSink(l, n) => l in st.configs && n in st.configs[l].sinkNames
    case RemoveSink(n) => n in st.sinks && !Uses(st, n)
    case RemoveLogger(l) => l in st.configs
  }

  /** A refused operation changes nothing. */
  ghost function After(st: State, op: Op): State {
    if !Accepts(st, op) then st
    else
      match op
      case RegisterSink(s) => st.(sinks := st.sinks[s.name := s])
      case SetLoggerSinks(l, names) =>
        st.(configs := st.configs[l := Config(if l in st.configs then st.configs[l].level else LEVEL_INFO, names)])
      case SetLoggerLevel(l, level) => st.(configs := st.configs[l := st.configs[l].(level := level)])
      case SetSinkLevel(n, level) => st.(sinks := st.sinks[n := st.sinks[n].(level := level)])
      case AttachSink(l, n) => WithSinkNames(st, l, st.configs[l].sinkNames + [n])
      case DetachSink(l, n) => WithSinkNames(st, l, Remaining(st.configs[l].sinkNames, {n}))
      case RemoveSink(n) => st.(sinks := st.sinks - {n})
      case RemoveLogger(l) => st.(configs := st.configs - {l})
  }

  function WithSinkNames(st: State, logger: string, names: seq<string>): State
    requires logger in st.configs
  {
    st.(configs := st.configs[logger := st.configs[logger].(sinkNames := names)])
  }

  // ---------- Integrity ----------

  /** Every sink a configured logger names is registered. */
  ghost predicate Intact(st: State) {
    forall l, n :: l in st.configs && n in st.configs[l].sinkNames ==> n in st.sinks
  }

  lemma OperationKeepsIntact(st: State, op: Op)
    requires Intact(st)
    ensures Intact(After(st, op))
  {
    if Accepts(st, op) && op.RemoveSink? {
      forall l, n | l in st.configs && n in st.configs[l].sinkNames ensures n in After(st, op).sinks {
        assert n != op.sinkName;
      }
    }
  }

  ghost function Run(st: State, ops: seq<Op>): State {
    if ops == [] then st else After(Run(st, ops[..|ops| - 1]), ops[|ops| - 1])
  }

  /** Critical sections in any order, so any interleaving of callers, keep the registry intact. */
  lemma {:induction false} RegistryStaysIntact(ops: seq<Op>)
    ensures Intact(Run(State(map[], map[]), ops))
  {
    if ops != [] {
      RegistryStaysIntact(ops[..|ops| - 1]);
      OperationKeepsIntact(Run(State(map[], map[]), ops[..|ops| - 1]), ops[|ops| - 1]);
    }
  }

  lemma UsedSinkIsNeeded(st: State, sinkName: string)
    requires Uses(st, sinkName)
    ensures !Intact(st.(sinks := st.sinks - {sinkName}))
  {
    var removed := st.(sinks := st.sinks - {sinkName});
    var l :| l in st.configs && sinkName in st.configs[l].sinkNames;
    assert l in removed.configs && sinkName in removed.configs[l].sinkNames && sinkName !in removed.sinks;
  }

  /** The guards on sinks are exactly what integrity needs: a registered sink may be removed, a
      list of sinks set or a sink attached, just when the effect would leave the registry intact. */
  lemma GuardsAreExact(st: State, logger: string, sinkName: string, names: seq<string>)
    requires Intact(st) && logger in st.configs
    ensures sinkName in st.sinks ==>
      (Accepts(st, RemoveSink(sinkName)) <==> Intact(st.(sinks := st.sinks - {sinkName})))
    ensures Accepts(st, SetLoggerSinks(logger, names)) <==> Intact(WithSinkNames(st, logger, names))
    ensures sinkName !in st.configs[logger].sinkNames ==>
      (Accepts(st, AttachSink(logger, sinkName)) <==>
       Intact(WithSinkNames(st, logger, st.configs[logger].sinkNames + [sinkName])))
  {
    if Uses(st, sinkName) {
      UsedSinkIsNeeded(st, sinkName);
    }
    var chosen := WithSinkNames(st, logger, names);
    assert Intact(chosen) ==> forall n :: n in chosen.configs[logger].sinkNames ==> n in chosen.sinks;
    var attached := WithSinkNames(st, logger, st.configs[logger].sinkNames + [sinkName]);
    assert sinkName in attached.configs[logger].sinkNames;
  }

  // ---------- Hierarchical lookup ----------

  /** name itself, or name cut before one of its dots. */
  ghost predicate IsAncestor(a: string, name: string) {
    a == name || a + "." <= name
  }

  /** Splitting a dotted name after its first i parts. */
  lemma {:induction false} JoinSplitsAt(parts: seq<string>, i: nat)
    requires 1 <= i < |parts|
    ensures Join(parts, '.') == Join(parts[..i], '.') + "." + Join(parts[i..], '.')
  {
    if i == 1 {
      assert parts[..1] == [parts[0]];
    } else {
      JoinSplitsAt(parts[1..], i - 1);
      assert parts[..i][1..] == parts[1..][..i - 1];
      assert parts[1..][i - 1..] == parts[i..];
    }
  }

  /** Parent i of a dotted name: its first i parts. */
  function Parent(name: string, i: nat): string
    requires 1 <= i <= |Split(name, '.')|
  {
    Join(Split(name, '.')[..i], '.')
  }

  lemma ParentIsAncestor(name: string, i: nat)
    requires 1 <= i <= |Split(name, '.')|
    ensures IsAncestor(Parent(name, i), name)
  {
    var parts := Split(name, '.');
    if i < |parts| {
      JoinSplitsAt(parts, i);
    } else {
      assert parts[..i] == parts;
    }
  }

  /** A parent of more parts is a longer name. */
  lemma LaterParentIsLonger(name: string, i: nat, j: nat)
    requires 1 <= i < j <= |Split(name, '.')|
    ensures |Parent(name, i)| < |Parent(name, j)|
  {
    var parts := Split(name, '.')[..j];
    JoinSplitsAt(parts, i);
    assert parts[..i] == Split(name, '.')[..i];
  }

  /** Every ancestor is one of the parents the loops try. */
  lemma AncestorIsParent(a: string, name: string) returns (i: nat)
    requires IsAncestor(a, name)
    ensures 1 <= i <= |Split(name, '.')| && Parent(name, i) == a
  {
    i := |Split(a, '.')|;
    if a == name {
      assert Split(name, '.')[..i] == Split(name, '.');
    } else {
      var rest := name[|a| + 1..];
      assert name == a + "." + rest;
      SplitConcat(a, rest, '.');
      assert Split(name, '.')[..i] == Split(a, '.');
    }
  }

  /** The longest configured ancestor, if there is one. */
  ghost predicate Resolves(configs: map<string, Config>, name: string, r: Option<string>) {
    match r
    case None => forall a :: IsAncestor(a, name) ==> a !in configs
    case Some(a) =>
      && a in configs && IsAncestor(a, name)
      && forall b :: b in configs && IsAncestor(b, name) ==> |b| <= |a|
  }

  /** No name resolves two ways. */
  lemma ResolutionIsUnique(configs: map<string, Config>, name: string, r: Option<string>, s: Option<string>)
    requires Resolves(configs, name, r) && Resolves(configs, name, s)
    ensures r == s
  {
    if r.Some? && s.Some? {
      assert |r.value| == |s.value|;
      assert r.value == name[..|r.value|] && s.value == name[..|s.value|];
    }
  }

  /** The loops stop at the first configured parent from the longest down. */
  lemma FirstParentResolves(configs: map<string, Config>, name: string, i: nat)
    requires i <= |Split(name, '.')|
    requires forall j :: i < j <= |Split(name, '.')| ==> Parent(name, j) !in configs
    ensures i == 0 ==> Resolves(configs, name, None)
    ensures i > 0 && Parent(name, i) in configs ==> Resolves(configs, name, Some(Parent(name, i)))
  {
    forall b | b in configs && IsAncestor(b, name) ensures i > 0 && |b| <= |Parent(name, i)| {
      var j := AncestorIsParent(b, name);
      assert j <= i;
      if j < i {
        LaterParentIsLonger(name, j, i);
      }
    }
    if i > 0 {
      ParentIsAncestor(name, i);
    }
  }

  lemma WholeNameIsLastParent(name: string)
    ensures Parent(name, |Split(name, '.')|) == name
  {
    assert Split(name, '.')[..|Split(name, '.')|] == Split(name, '.');
  }

  class Registry {
    var sinks: map<string, Sink>
    var loggerConfigs: map<string, Config>
    var globalLevel: int

    ghost function Contents(): State
      reads this
    {
      State(sinks, loggerConfigs)
    }

    constructor ()
      ensures Contents() == State(map[], map[]) && globalLevel == LEVEL_INFO
    {
      sinks, loggerConfigs, globalLevel := map[], map[], LEVEL_INFO;
    }

    method GetLoggerConfig(name: string) returns (config: Option<Config>)
      ensures config.None? ==> Resolves(loggerConfigs, name, None)
      ensures config.Some? ==> exists a :: Resolves(loggerConfigs, name, Some(a)) && config.value == loggerConfigs[a]
    {
      var parts := Split(name, '.');
      WholeNameIsLastParent(name);
      if name in loggerConfigs {
        FirstParentResolves(loggerConfigs, name, |parts|);
        return Some(loggerConfigs[name]);
      }
      var i := |parts| - 1;
      while i > 0
        invariant 0 <= i < |parts|
        invariant forall j :: i < j <= |parts| ==> Parent(name, j) !in loggerConfigs
      {
        var parentName := Join(parts[..i], '.');
        if parentName in loggerConfigs {
          FirstParentResolves(loggerConfigs, name, i);
          return Some(loggerConfigs[parentName]);
        }
        i := i - 1;
      }
      FirstParentResolves(loggerConfigs, name, 0);
      return None;
    }

    /** The empty string stands for no configured ancestor. */
    method FindResolvedLoggerName(name: string) returns (resolved: string)
      ensures Resolves(loggerConfigs, name, Some(resolved)) || (resolved == "" && Resolves(loggerConfigs, name, None))
    {
      var parts := Split(name, '.');
      WholeNameIsLastParent(name);
      if name in loggerConfigs {
        FirstParentResolves(loggerConfigs, name, |parts|);
        return name;
      }
      var i := |parts| - 1;
      while i > 0
        invariant 0 <= i < |parts|
        invariant forall j :: i < j <= |parts| ==> Parent(name, j) !in loggerConfigs
      {
        var parentName := Join(parts[..i], '.');
        if parentName in loggerConfigs {
          FirstParentResolves(loggerConfigs, name, i);
          return parentName;
        }
        i := i - 1;
      }
      FirstParentResolves(loggerConfigs, name, 0);
      return "";
    }

    method GetSink(name: string) returns (sink: Option<Sink>)
      ensures sink == if name in sinks then Some(sinks[name]) else None
    {
      sink := if name in sinks then Some(sinks[name]) else None;
    }

    method GetLoggerSinks(loggerName: string) returns (names: Option<seq<string>>)
      ensures names == if loggerName in loggerConfigs then Some(loggerConfigs[loggerName].sinkNames) else None
    {
      names := if loggerName in loggerConfigs then Some(loggerConfigs[loggerName].sinkNames) else None;
    }

    method RegisterSink(sink: Sink) returns (ok: bool)
      modifies this`sinks
      ensures ok <==> Accepts(old(Contents()), Op.RegisterSink(sink))
      ensures Contents() == After(old(Contents()), Op.RegisterSink(sink))
      ensures ok <==> sink.name !in old(sinks)
      ensures sinks == if ok then old(sinks)[sink.name := sink] else old(sinks)
    {
      if sink.name in sinks {
        return false;
      }
      sinks := sinks[sink.name := sink];
      return true;
    }

    method SetLoggerSinks(loggerName: string, sinkNames: seq<string>) returns (ok: bool)
      modifies this`loggerConfigs
      ensures ok <==> Accepts(old(Contents()), Op.SetLoggerSinks(loggerName, sinkNames))
      ensures Contents() == After(old(Contents()), Op.SetLoggerSinks(loggerName, sinkNames))
      ensures ok <==> forall n :: n in sinkNames ==> n in sinks
      ensures ok ==>
        var level := if loggerName in old(loggerConfigs) then old(loggerConfigs)[loggerName].level else LEVEL_INFO;
        loggerConfigs == old(loggerConfigs)[loggerName := Config(level, sinkNames)]
      ensures !ok ==> loggerConfigs == old(loggerConfigs)
    {
      for i := 0 to |sinkNames|
        invariant forall j :: 0 <= j < i ==> sinkNames[j] in sinks
      {
        if sinkNames[i] !in sinks {
          return false;
        }
      }
      var level := LEVEL_INFO;
      if loggerName in loggerConfigs {
        level := loggerConfigs[loggerName].level;
      }
      loggerConfigs := loggerConfigs[loggerName := Config(level, sinkNames)];
      return true;
    }

    method SetLoggerLevel(loggerName: string, level: int) returns (ok: bool)
      modifies this`loggerConfigs
      ensures ok <==> Accepts(old(Contents()), Op.SetLoggerLevel(loggerName, level))
      ensures Contents() == After(old(Contents()), Op.SetLoggerLevel(loggerName, level))
      ensures ok <==> loggerName in old(loggerConfigs)
      ensures ok ==>
        loggerConfigs == old(loggerConfigs)[loggerName := Config(level, old(loggerConfigs)[loggerName].sinkNames)]
      ensures !ok ==> loggerConfigs == old(loggerConfigs)
    {
      if loggerName !in loggerConfigs {
        return false;
      }
      loggerConfigs := loggerConfigs[loggerName := loggerConfigs[loggerName].(level := level)];
      return true;
    }

    method SetSinkLevel(sinkName: string, level: int) returns (ok: bool)
      modifies this`sinks
      ensures ok <==> Accepts(old(Contents()), Op.SetSinkLevel(sinkName, level))
      ensures Contents() == After(old(Contents()), Op.SetSinkLevel(sinkName, level))
      ensures ok <==> sinkName in old(sinks)
      ensures ok ==> sinks == old(sinks)[sinkName := old(sinks)[sinkName].(level := level)]
      ensures !ok ==> sinks == old(sinks)
    {
      if sinkName !in sinks {
        return false;
      }
      sinks := sinks[sinkName := sinks[sinkName].(level := level)];
      return true;
    }

    method AttachSink(loggerName: string, sinkName: string) returns (ok: bool)
      modifies this`loggerConfigs
      ensures ok <==> Accepts(old(Contents()), Op.AttachSink(loggerName, sinkName))
      ensures Contents() == After(old(Contents()), Op.AttachSink(loggerName, sinkName))
      ensures ok <==>
        && sinkName in sinks && loggerName in old(loggerConfigs)
        && sinkName !in old(loggerConfigs)[loggerName].sinkNames
      ensures ok ==>
        var was := old(loggerConfigs)[loggerName];
        loggerConfigs == old(loggerConfigs)[loggerName := Config(was.level, was.sinkNames + [sinkName])]
      ensures !ok ==> loggerConfigs == old(loggerConfigs)
    {
      if sinkName !in sinks || loggerName !in loggerConfigs {
        return false;
      }
      var config := loggerConfigs[loggerName];
      for i := 0 to |config.sinkNames|
        invariant sinkName !in config.sinkNames[..i]
      {
        if config.sinkNames[i] == sinkName {
          return false;
        }
      }
      loggerConfigs := loggerConfigs[loggerName := config.(sinkNames := config.sinkNames + [sinkName])];
      return true;
    }

    method DetachSink(loggerName: string, sinkName: string) returns (ok: bool)
      modifies this`loggerConfigs
      ensures ok <==> Accepts(old(Contents()), Op.DetachSink(loggerName, sinkName))
      ensures Contents() == After(old(Contents()), Op.DetachSink(loggerName, sinkName))
      ensures ok <==> loggerName in old(loggerConfigs) && sinkName in old(loggerConfigs)[loggerName].sinkNames
      ensures ok ==>
        var was := old(loggerConfigs)[loggerName];
        loggerConfigs == old(loggerConfigs)[loggerName := Config(was.level, Remaining(was.sinkNames, {sinkName}))]
      ensures !ok ==> loggerConfigs == old(loggerConfigs)
    {
      if loggerName !in loggerConfigs {
        return false;
      }
      var config := loggerConfigs[loggerName];
      var newSinkNames: seq<string> := [];
      var found := false;
      for i := 0 to |config.sinkNames|
        invariant newSinkNames == Remaining(config.sinkNames[..i], {sinkName})
        invariant found <==> sinkName in config.sinkNames[..i]
      {
        assert config.sinkNames[..i + 1][..i] == config.sinkNames[..i];
        if config.sinkNames[i] != sinkName {
          newSinkNames := newSinkNames + [config.sinkNames[i]];
        } else {
          found := true;
        }
      }
      assert config.sinkNames[..|config.sinkNames|] == config.sinkNames;
      if !found {
        return false;
      }
      loggerConfigs := loggerConfigs[loggerName := config.(sinkNames := newSinkNames)];
      return true;
    }

    method RemoveSink(sinkName: string) returns (ok: bool)
      modifies this`sinks
      ensures ok <==> Accepts(old(Contents()), Op.RemoveSink(sinkName))
      ensures Contents() == After(old(Contents()), Op.RemoveSink(sinkName))
      ensures ok <==>
        sinkName in old(sinks) && forall l :: l in loggerConfigs ==> sinkName !in loggerConfigs[l].sinkNames
      ensures sinks == if ok then old(sinks) - {sinkName} else old(sinks)
    {
      if sinkName !in sinks {
        return false;
      }
      var loggersUsingSink: seq<string> := [];
      var left := loggerConfigs.Keys;
      while left != {}
        invariant left <= loggerConfigs.Keys
        invariant loggersUsingSink != [] <==>
          exists l :: l in loggerConfigs.Keys - left && sinkName in loggerConfigs[l].sinkNames
        decreases left
      {
        var l :| l in left;
        left := left - {l};
        if sinkName in loggerConfigs[l].sinkNames {
          loggersUsingSink := loggersUsingSink + [l];
        }
      }
      if |loggersUsingSink| > 0 {
        return false;
      }
      sinks := sinks - {sinkName};
      return true;
    }

    method RemoveLogger(loggerName: string) returns (ok: bool)
      modifies this`loggerConfigs
      ensures ok <==> Accepts(old(Contents()), Op.RemoveLogger(loggerName))
      ensures Contents() == After(old(Contents()), Op.RemoveLogger(loggerName))
      ensures ok <==> loggerName in old(loggerConfigs)
      ensures loggerConfigs == if ok then old(loggerConfigs) - {loggerName} else old(loggerConfigs)
    {
      if loggerName !in loggerConfigs {
        return false;
      }
      loggerConfigs := loggerConfigs - {loggerName};
      return true;
    }

    /** The routing test of log: which sinks get a record of the given level. In an intact
        registry none of the configured sinks is skipped for want of being registered. */
    method Route(name: string, level: int) returns (handled: seq<Sink>)
      requires Intact(Contents())
      ensures forall found :: Resolves(loggerConfigs, name, found) ==>
        handled == Receivers(Contents(), globalLevel, found, level)
    {
      var config := GetLoggerConfig(name);
      if config.Some? {
        ghost var at :| Resolves(loggerConfigs, name, Some(at)) && config.value == loggerConfigs[at];
        OnlyResolution(loggerConfigs, name, Some(at));
        var effectiveLevel := globalLevel;
        if config.value.level > globalLevel {
          effectiveLevel := config.value.level;
        }
        handled := [];
        if effectiveLevel <= level {
          handled := HandleRecord(config.value.sinkNames, level);
        }
      } else {
        OnlyResolution(loggerConfigs, name, None);
        handled := [];
      }
    }

    method HandleRecord(names: seq<string>, level: int) returns (handled: seq<Sink>)
      requires forall n :: n in names ==> n in sinks
      ensures handled == Enabled(sinks, names, level)
    {
      handled := [];
      for i := 0 to |names|
        invariant handled == Enabled(sinks, names[..i], level)
      {
        assert names[..i + 1][..i] == names[..i];
        var sink := GetSink(names[i]);
        if sink.Some? && sink.value.handlerLevel <= level {
          handled := handled + [sink.value];
        }
      }
      assert names[..|names|] == names;
    }
  }

  lemma OnlyResolution(configs: map<string, Config>, name: string, r: Option<string>)
    requires Resolves(configs, name, r)
    ensures forall s :: Resolves(configs, name, s) ==> s == r
  {
    forall s | Resolves(configs, name, s) ensures s == r {
      ResolutionIsUnique(configs, name, r, s);
    }
  }

  /** The named sinks whose handler takes the level, in order; every name must be registered. */
  function Enabled(sinks: map<string, Sink>, names: seq<string>, level: int): seq<Sink>
    requires forall n :: n in names ==> n in sinks
  {
    if names == [] then []
    else
      var last := sinks[names[|names| - 1]];
      Enabled(sinks, names[..|names| - 1], level) + if last.handlerLevel <= level then [last] else []
  }

  /** All enabled sinks of the configuration in force, if the record passes both levels. */
  ghost function Receivers(st: State, globalLevel: int, found: Option<string>, level: int): seq<Sink>
    requires Intact(st) && (found.Some? ==> found.value in st.configs)
  {
    if found.Some? && globalLevel <= level && st.configs[found.value].level <= level
    then Enabled(st.sinks, st.configs[found.value].sinkNames, level)
    else []
  }

  /** The indices at of the names whose handlers take the level, in order, and their sinks r. */
  ghost predicate IsSelection(sinks: map<string, Sink>, names: seq<string>, level: int, at: seq<nat>, r: seq<Sink>)
    requires forall n :: n in names ==> n in sinks
  {
    && |at| == |r|
    && (forall k :: 0 <= k < |at| ==> at[k] < |names| && r[k] == sinks[names[at[k]]])
    && (forall k, l :: 0 <= k < l < |at| ==> at[k] < at[l])
    && (forall i :: 0 <= i < |names| ==> (i in at <==> sinks[names[i]].handlerLevel <= level))
  }

  lemma SelectionGrows(
      sinks: map<string, Sink>, names: seq<string>, last: string, level: int, at: seq<nat>, r: seq<Sink>)
    requires last in sinks && (forall n :: n in names ==> n in sinks) && IsSelection(sinks, names, level, at, r)
    ensures forall n :: n in names + [last] ==> n in sinks
    ensures sinks[last].handlerLevel > level ==> IsSelection(sinks, names + [last], level, at, r)
    ensures sinks[last].handlerLevel <= level ==>
      IsSelection(sinks, names + [last], level, at + [|names|], r + [sinks[last]])
  {
    var more := names + [last];
    forall i | 0 <= i < |more|
      ensures sinks[more[i]].handlerLevel <= level <==> i in at || (i == |names| && sinks[last].handlerLevel <= level)
    {
      assert i < |names| ==> more[i] == names[i];
    }
  }

  lemma {:induction false} EnabledIsSelection(sinks: map<string, Sink>, names: seq<string>, level: int)
      returns (at: seq<nat>)
    requires forall n :: n in names ==> n in sinks
    ensures IsSelection(sinks, names, level, at, Enabled(sinks, names, level))
  {
    at := [];
    if names != [] {
      var front, last := names[..|names| - 1], names[|names| - 1];
      at := EnabledIsSelection(sinks, front, level);
      assert names == front + [last];
      SelectionGrows(sinks, front, last, level, at, Enabled(sinks, front, level));
      at := at + if sinks[last].handlerLevel <= level then [|front|] else [];
    }
  }

  /** A record reaches nobody unless its level is at least the global one and that of the
      configuration in force; then it reaches each named sink whose handler takes its level, in the
      order of the names. */
  lemma ReceiversAreSelected(st: State, globalLevel: int, found: Option<string>, level: int) returns (at: seq<nat>)
    requires Intact(st) && (found.Some? ==> found.value in st.configs)
    ensures var r := Receivers(st, globalLevel, found, level);
      if found.Some? && level >= globalLevel && level >= st.configs[found.value].level
      then IsSelection(st.sinks, st.configs[found.value].sinkNames, level, at, r)
      else r == []
  {
    at := [];
    if found.Some? {
      at := EnabledIsSelection(st.sinks, st.configs[found.value].sinkNames, level);
    }
  }

  /** Sinks that differ at most in their level. */
  predicate SameButLevel(s: Sink, t: Sink) {
    s.name == t.name && s.kind == t.kind && s.filePath == t.filePath && s.handlerLevel == t.handlerLevel
  }

  lemma {:induction false} EnabledIgnoresLevel(
      sinks: map<string, Sink>, sinks': map<string, Sink>, names: seq<string>, level: int)
    requires forall n :: n in names ==> n in sinks && n in sinks' && SameButLevel(sinks[n], sinks'[n])
    ensures var r, r' := Enabled(sinks, names, level), Enabled(sinks', names, level);
      |r| == |r'| && forall k :: 0 <= k < |r| ==> SameButLevel(r[k], r'[k])
  {
    if names != [] {
      EnabledIgnoresLevel(sinks, sinks', names[..|names| - 1], level);
    }
  }

  /** Setting a sink's level changes nothing about which sinks get a record: the handler keeps the
      level it was made with. */
  lemma SinkLevelNeverRoutes(
      st: State, sinkName: string, sinkLevel: int, globalLevel: int, found: Option<string>, level: int)
    requires Intact(st) && (found.Some? ==> found.value in st.configs)
    ensures Intact(After(st, SetSinkLevel(sinkName, sinkLevel)))
    ensures var r := Receivers(st, globalLevel, found, level);
      var r' := Receivers(After(st, SetSinkLevel(sinkName, sinkLevel)), globalLevel, found, level);
      |r| == |r'| && forall k :: 0 <= k < |r| ==> SameButLevel(r[k], r'[k])
  {
    var after := After(st, SetSinkLevel(sinkName, sinkLevel));
    OperationKeepsIntact(st, SetSinkLevel(sinkName, sinkLevel));
    if found.Some? {
      EnabledIgnoresLevel(st.sinks, after.sinks, st.configs[found.value].sinkNames, level);
    }
  }

  /** Setting a logger's level changes no lookup. Records of loggers that resolve to it now need the
      new level, and reach the same sinks; those of other loggers are not affected. */
  lemma LoggerLevelRoutes(
      st: State, logger: string, loggerLevel: int, globalLevel: int, found: Option<string>, name: string, level: int)
    requires Intact(st) && logger in st.configs && Resolves(st.configs, name, found)
    ensures var after := After(st, SetLoggerLevel(logger, loggerLevel));
      && Intact(after) && Resolves(after.configs, name, found)
      && Receivers(after, globalLevel, found, level) ==
           if found != Some(logger) then Receivers(st, globalLevel, found, level)
           else if level < loggerLevel || level < globalLevel then []
           else Enabled(st.sinks, st.configs[logger].sinkNames, level)
  {
    OperationKeepsIntact(st, SetLoggerLevel(logger, loggerLevel));
    assert After(st, SetLoggerLevel(logger, loggerLevel)).configs.Keys == st.configs.Keys;
  }

  /** What FindResolvedLoggerName returns. */
  ghost predicate ReportsAs(configs: map<string, Config>, name: string, reported: string) {
    Resolves(configs, name, Some(reported)) || (reported == "" && Resolves(configs, name, None))
  }

  /** The reported name tells the configuration in force for every logger exactly when the empty
      name is not configured: otherwise the logger "" is configured yet reported as having none. */
  lemma LookupsAgreeExactly(configs: map<string, Config>)
    ensures "" !in configs <==>
      forall name, reported, found :: ReportsAs(configs, name, reported) && Resolves(configs, name, found) ==>
        found == if reported == "" then None else Some(reported)
  {
    if "" in configs {
      var here := Some("");
      assert Resolves(configs, "", here) && ReportsAs(configs, "", "");
    } else {
      forall name, reported, found | ReportsAs(configs, name, reported) && Resolves(configs, name, found)
        ensures found == if reported == "" then None else Some(reported)
      {
        ResolutionIsUnique(configs, name, found,
          if Resolves(configs, name, Some(reported)) then Some(reported) else None);
      }
    }
  }
}
