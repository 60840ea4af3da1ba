/**
 * `main`: the default configuration path, `parse_args`, reading the
 * configuration, one `Target` per `[target]` section, the checks on the
 * requested targets, the selection (which asks for passphrases), and the
 * loop that runs every selected target.
 *
 * The file system becomes a map from path to contents; the passphrase a
 * user confirms for a target is a function of its name; whether the
 * process runs as root, whether a destination directory can be created and
 * what `fork` returns for the n-th selected target are parameters.
 */
module Backman {
  import opened Wrappers
  import opened IniParser
  import opened PathEnv
  import opened Commands
  import opened Targets
  import opened Arguments
  import Hooks

  // ---------------------------------------------------------------------------
  // One `Target` per `[target]` section
  // ---------------------------------------------------------------------------

  /** The global section the constructor reads `default_dest` from: the first one, which the parser always names `""`. */
  function GlobalOf(sections: seq<Section>): Section {
    if sections == [] then Section("", []) else sections[0]
  }

  /** The sections named `target`, in order. */
  function TargetSections(sections: seq<Section>): (r: seq<Section>)
    ensures |r| <= |sections|
  {
    if sections == [] then []
    else TargetSections(sections[..|sections| - 1])
         + (if sections[|sections| - 1].name == "target" then [sections[|sections| - 1]] else [])
  }

  /** How one section becomes a target's settings or an error. */
  type Maker = Section -> Result<Settings, ConfigError>

  /** `Target::Target`, with what it reads besides its section fixed. */
  function Constructor(global: Section, cliDestdir: string, env: Env, date: string): Maker {
    section => Configure(section, global, cliDestdir, env, date)
  }

  /**
   * The section loop of `main`: a `[target]` section is constructed, the
   * global one and any other name are skipped. The first target that fails
   * to construct ends the program.
   */
  function ConfigureAll(sections: seq<Section>, make: Maker): Result<seq<Settings>, ConfigError> {
    if sections == [] then Ok([])
    else
      var done :- ConfigureAll(sections[..|sections| - 1], make);
      var last := sections[|sections| - 1];
      if last.name == "target" then
        var s :- make(last);
        Ok(done + [s])
      else Ok(done)
  }

  /** Every one of the given sections constructs. */
  predicate AllConstruct(ts: seq<Section>, make: Maker) {
    forall k :: 0 <= k < |ts| ==> make(ts[k]).Ok?
  }

  /**
   * The loop succeeds exactly when every `[target]` section constructs, and
   * then holds one set of settings per such section, in order.
   */
  lemma {:induction false} ConfigureAllOk(sections: seq<Section>, make: Maker)
    ensures ConfigureAll(sections, make).Ok? <==> AllConstruct(TargetSections(sections), make)
    ensures ConfigureAll(sections, make).Ok? ==>
              && |ConfigureAll(sections, make).value| == |TargetSections(sections)|
              && forall k :: 0 <= k < |TargetSections(sections)| ==>
                   ConfigureAll(sections, make).value[k] == make(TargetSections(sections)[k]).value
  {
    if sections != [] {
      var front := sections[..|sections| - 1];
      var last := sections[|sections| - 1];
      ConfigureAllOk(front, make);
      var ts := TargetSections(sections);
      var fs := TargetSections(front);
      assert ts == fs + (if last.name == "target" then [last] else []);
      assert forall k :: 0 <= k < |fs| ==> ts[k] == fs[k];
      if ConfigureAll(front, make).Err? {
        assert ConfigureAll(sections, make).Err?;
        var bad :| 0 <= bad < |fs| && make(fs[bad]).Err?;
        assert make(ts[bad]).Err?;
      } else if last.name == "target" {
        assert ts[|fs|] == last;
        if make(last).Err? {
          assert make(ts[|fs|]).Err?;
        }
      } else {
        assert ts == fs;
      }
    }
  }

  /** When the loop fails, it is with the error of the first `[target]` section that does not construct. */
  lemma {:induction false} ConfigureAllFirstError(sections: seq<Section>, make: Maker)
    ensures ConfigureAll(sections, make).Err? ==>
              exists k :: 0 <= k < |TargetSections(sections)|
                          && make(TargetSections(sections)[k]) == Err(ConfigureAll(sections, make).error)
                          && AllConstruct(TargetSections(sections)[..k], make)
  {
    if sections != [] {
      var front := sections[..|sections| - 1];
      var r := ConfigureAll(sections, make);
      var ts := TargetSections(sections);
      var fs := TargetSections(front);
      assert forall m :: 0 <= m < |fs| ==> ts[m] == fs[m];
      if r.Err? && ConfigureAll(front, make).Err? {
        assert r == ConfigureAll(front, make);
        ConfigureAllFirstError(front, make);
        var bad :| 0 <= bad < |fs| && make(fs[bad]) == Err(r.error) && AllConstruct(fs[..bad], make);
        assert ts[bad] == fs[bad];
        assert ts[..bad] == fs[..bad];
      } else if r.Err? {
        ConfigureAllOk(front, make);
        assert ts[|fs|] == sections[|sections| - 1];
        assert ts[..|fs|] == fs;
      }
    }
  }

  /** A failure among the first sections is the failure of the whole loop. */
  lemma {:induction false} ConfigureAllStops(sections: seq<Section>, n: nat, make: Maker)
    requires n <= |sections|
    requires ConfigureAll(sections[..n], make).Err?
    ensures ConfigureAll(sections, make) == ConfigureAll(sections[..n], make)
    decreases |sections| - n
  {
    if n < |sections| {
      assert sections[..n + 1][..n] == sections[..n];
      ConfigureAllStops(sections, n + 1, make);
    } else {
      assert sections[..n] == sections;
    }
  }

  /** The section loop of `main`, constructing each target as its section comes. */
  method LoadTargets(sections: seq<Section>, cliDestdir: string, env: Env, date: string) returns (r: Result<seq<Target>, ConfigError>)
    ensures var spec := ConfigureAll(sections, Constructor(GlobalOf(sections), cliDestdir, env, date));
            && (r.Err? <==> spec.Err?)
            && (r.Err? ==> r.error == spec.error)
            && (r.Ok? ==> && |r.value| == |spec.value|
                          && (forall k :: 0 <= k < |r.value| ==> fresh(r.value[k]))
                          && (forall a, b :: 0 <= a < b < |r.value| ==> r.value[a] != r.value[b])
                          && forall k :: 0 <= k < |r.value| ==> r.value[k].State() == TargetState(spec.value[k], "", []))
  {
    var global := GlobalOf(sections);
    ghost var make := Constructor(global, cliDestdir, env, date);
    var targets: seq<Target> := [];
    var done: seq<Settings> := [];
    for n := 0 to |sections|
      invariant ConfigureAll(sections[..n], make) == Ok(done)
      invariant Holding(targets, done)
      invariant forall k :: 0 <= k < |targets| ==> fresh(targets[k])
    {
      ConfigureAllStep(sections, n, make);
      var stop;
      stop, targets, done := LoadOne(sections[n], global, cliDestdir, env, date, targets, done);
      if stop.Some? {
        ConfigureAllStops(sections, n + 1, make);
        return Err(stop.value);
      }
    }
    assert sections[..|sections|] == sections;
    r := Ok(targets);
  }

  /** Distinct targets, each freshly constructed from the corresponding settings. */
  ghost predicate Holding(targets: seq<Target>, done: seq<Settings>)
    reads set t: Target | t in targets
  {
    && |targets| == |done|
    && (forall a, b :: 0 <= a < b < |targets| ==> targets[a] != targets[b])
    && forall k :: 0 <= k < |targets| ==> targets[k].State() == TargetState(done[k], "", [])
  }

  /** What one section adds to the settings so far: its own when it is a `[target]`, nothing otherwise. */
  function LoadStep(done: seq<Settings>, section: Section, make: Maker): Result<seq<Settings>, ConfigError> {
    if section.name == "target" then
      var s :- make(section);
      Ok(done + [s])
    else Ok(done)
  }

  /** The section loop after `n + 1` sections is one step after `n`. */
  lemma ConfigureAllStep(sections: seq<Section>, n: nat, make: Maker)
    requires n < |sections| && ConfigureAll(sections[..n], make).Ok?
    ensures ConfigureAll(sections[..n + 1], make) == LoadStep(ConfigureAll(sections[..n], make).value, sections[n], make)
  {
    assert sections[..n + 1][..n] == sections[..n];
  }

  /** One pass of the section loop: the global section and other names are skipped, a `[target]` is constructed and appended. */
  method LoadOne(section: Section, global: Section, cliDestdir: string, env: Env, date: string,
                 targets: seq<Target>, done: seq<Settings>)
    returns (stop: Option<ConfigError>, targets': seq<Target>, done': seq<Settings>)
    requires Holding(targets, done)
    ensures var step := LoadStep(done, section, Constructor(global, cliDestdir, env, date));
            && (stop.Some? <==> step.Err?)
            && (stop.Some? ==> stop.value == step.error)
            && (stop.None? ==> step == Ok(done') && Holding(targets', done'))
    ensures forall k :: 0 <= k < |targets'| ==> targets'[k] in targets || fresh(targets'[k])
  {
    if section.name == "" {
      // the global section
      stop, targets', done' := None, targets, done;
    } else if section.name == "target" {
      stop, targets', done' := AddTarget(section, global, cliDestdir, env, date, targets, done);
    } else {
      stop, targets', done' := None, targets, done;
    }
  }

  /** A `[target]` section: its target is constructed and appended, or the constructor's error stops the loop. */
  method AddTarget(section: Section, global: Section, cliDestdir: string, env: Env, date: string,
                   targets: seq<Target>, done: seq<Settings>)
    returns (stop: Option<ConfigError>, targets': seq<Target>, done': seq<Settings>)
    requires Holding(targets, done)
    ensures var spec := Configure(section, global, cliDestdir, env, date);
            && (stop.Some? <==> spec.Err?)
            && (stop.Some? ==> stop.value == spec.error)
            && (stop.None? ==> done' == done + [spec.value] && Holding(targets', done'))
    ensures forall k :: 0 <= k < |targets'| ==> targets'[k] in targets || fresh(targets'[k])
  {
    var t := Construct(section, global, cliDestdir, env, date);
    if t.Err? {
      return Some(t.error), targets, done;
    }
    var settings := t.value.State().settings;
    HoldingAppend(targets, done, t.value, settings);
    stop, targets', done' := None, targets + [t.value], done + [settings];
  }

  /** A new target, distinct from those held, extends what is held. */
  lemma HoldingAppend(targets: seq<Target>, done: seq<Settings>, t: Target, s: Settings)
    requires Holding(targets, done) && t !in targets && t.State() == TargetState(s, "", [])
    ensures Holding(targets + [t], done + [s])
  {
    var targets', done' := targets + [t], done + [s];
    assert forall k :: 0 <= k < |targets| ==> targets'[k] == targets[k] && done'[k] == done[k];
  }

  /** `targets.emplace_back(section)`: a new target, or the constructor's error. */
  method Construct(section: Section, global: Section, cliDestdir: string, env: Env, date: string)
    returns (r: Result<Target, ConfigError>)
    ensures var spec := Constructor(global, cliDestdir, env, date)(section);
            && (r.Err? <==> spec.Err?)
            && (r.Err? ==> r.error == spec.error)
            && (r.Ok? ==> fresh(r.value) && r.value.State() == TargetState(spec.value, "", []))
  {
    r := NewTarget(section, global, cliDestdir, env, date);
  }

  // ---------------------------------------------------------------------------
  // Checks on the requested names
  // ---------------------------------------------------------------------------

  /** The first name requested again later, in the order the nested loop of `main` finds it. */
  function FirstDuplicate(names: seq<string>): Option<string> {
    if names == [] then None
    else if names[0] in names[1..] then Some(names[0])
    else FirstDuplicate(names[1..])
  }

  /** No name occurs twice. */
  predicate Distinct(names: seq<string>) {
    forall i, j :: 0 <= i < j < |names| ==> names[i] != names[j]
  }

  /** No duplicate is reported exactly when the names are distinct; a reported name occurs twice. */
  lemma {:induction false} FirstDuplicateDistinct(names: seq<string>)
    ensures FirstDuplicate(names) == None <==> Distinct(names)
    ensures FirstDuplicate(names).Some? ==> exists i, j :: 0 <= i < j < |names| && names[i] == names[j] == FirstDuplicate(names).value
  {
    if names != [] {
      var rest := names[1..];
      FirstDuplicateDistinct(rest);
      if names[0] in rest {
        var j :| 0 <= j < |rest| && rest[j] == names[0];
        assert names[j + 1] == names[0];
      } else if FirstDuplicate(rest).Some? {
        var i, j :| 0 <= i < j < |rest| && rest[i] == rest[j] == FirstDuplicate(rest).value;
        assert names[i + 1] == names[j + 1];
      } else {
        forall i, j | 0 <= i < j < |names|
          ensures names[i] != names[j]
        {
          if i > 0 {
            assert names[i] == rest[i - 1] && names[j] == rest[j - 1];
          } else {
            assert names[j] == rest[j - 1];
          }
        }
      }
    }
  }

  /** The duplicate check of `main`: for each name, compare it with every later one. */
  method FindDuplicate(names: seq<string>) returns (r: Option<string>)
    ensures r == FirstDuplicate(names)
  {
    for i := 0 to |names|
      invariant FirstDuplicate(names) == FirstDuplicate(names[i..])
    {
      var later := false;
      for j := i + 1 to |names|
        invariant later <==> names[i] in names[i + 1..j]
      {
        if names[i] == names[j] {
          later := true;
        }
      }
      assert names[i + 1..|names|] == names[i..][1..];
      if later {
        return Some(names[i]);
      }
      assert names[i + 1..] == names[i..][1..];
    }
    r := None;
  }

  /** The first requested name that no selected target has. */
  function FirstMissing(requested: seq<string>, names: seq<string>): Option<string> {
    if requested == [] then None
    else if requested[0] !in names then Some(requested[0])
    else FirstMissing(requested[1..], names)
  }

  /** Nothing is missing exactly when every requested name is some selected target's name; a reported name is requested and absent. */
  lemma {:induction false} FirstMissingAll(requested: seq<string>, names: seq<string>)
    ensures FirstMissing(requested, names) == None <==> forall j :: 0 <= j < |requested| ==> requested[j] in names
    ensures FirstMissing(requested, names).Some? ==>
              FirstMissing(requested, names).value in requested && FirstMissing(requested, names).value !in names
  {
    if requested != [] {
      FirstMissingAll(requested[1..], names);
      assert forall j :: 1 <= j < |requested| ==> requested[j] == requested[1..][j - 1];
    }
  }

  /** The not-found check of `main`: for each requested name, look through the selected targets. */
  method FindMissing(requested: seq<string>, names: seq<string>) returns (r: Option<string>)
    ensures r == FirstMissing(requested, names)
  {
    for j := 0 to |requested|
      invariant FirstMissing(requested, names) == FirstMissing(requested[j..], names)
    {
      var found := false;
      for i := 0 to |names|
        invariant found <==> requested[j] in names[..i]
      {
        if names[i] == requested[j] {
          found := true;
        }
      }
      assert names[..|names|] == names;
      if !found {
        return Some(requested[j]);
      }
      assert requested[j + 1..] == requested[j..][1..];
    }
    r := None;
  }

  // ---------------------------------------------------------------------------
  // Selection
  // ---------------------------------------------------------------------------

  /**
   * A target is kept when some requested name is its own, or when `all` was
   * requested; with no name requested at all, nothing is kept.
   */
  predicate Wanted(name: string, requested: seq<string>, all: bool) {
    (all && requested != []) || name in requested
  }

  /** The positions of the kept targets, in order. */
  function KeptIndices(names: seq<string>, requested: seq<string>, all: bool): (r: seq<nat>)
    ensures forall m :: 0 <= m < |r| ==> r[m] < |names|
    ensures forall a, b :: 0 <= a < b < |r| ==> r[a] < r[b]
  {
    if names == [] then []
    else KeptIndices(names[..|names| - 1], requested, all)
         + (if Wanted(names[|names| - 1], requested, all) then [|names| - 1] else [])
  }

  /** A target is kept exactly when it is wanted. */
  lemma {:induction false} KeptExactly(names: seq<string>, requested: seq<string>, all: bool)
    ensures forall i :: 0 <= i < |names| ==> (i in KeptIndices(names, requested, all) <==> Wanted(names[i], requested, all))
  {
    if names != [] {
      var front := names[..|names| - 1];
      KeptExactly(front, requested, all);
      assert forall i :: 0 <= i < |front| ==> front[i] == names[i];
    }
  }

  /** The elements at the given positions. */
  function Pick<T>(xs: seq<T>, idx: seq<nat>): (r: seq<T>)
    requires forall m :: 0 <= m < |idx| ==> idx[m] < |xs|
    ensures |r| == |idx| && forall m :: 0 <= m < |idx| ==> r[m] == xs[idx[m]]
  {
    seq(|idx|, m requires 0 <= m < |idx| => xs[idx[m]])
  }

  /** The image of each element, in order. */
  function Map<T, U>(xs: seq<T>, f: T -> U): (r: seq<U>)
    ensures |r| == |xs| && forall k :: 0 <= k < |xs| ==> r[k] == f(xs[k])
  {
    seq(|xs|, k requires 0 <= k < |xs| => f(xs[k]))
  }

  /** The name of each target, in order. */
  function Names(ts: seq<Target>): (r: seq<string>)
    ensures |r| == |ts| && forall k :: 0 <= k < |ts| ==> r[k] == ts[k].name
  {
    Map(ts, (t: Target) => t.name)
  }

  /** The name of each set of settings, in order. */
  function SettingsNames(ss: seq<Settings>): (r: seq<string>)
    ensures |r| == |ss| && forall k :: 0 <= k < |ss| ==> r[k] == ss[k].name
  {
    Map(ss, (s: Settings) => s.name)
  }

  /** What a kept target's passphrase becomes: the confirmed entry when it encrypts. */
  function Prompted(t: TargetState, entered: string -> string): TargetState {
    if t.settings.encrypt then t.(passphrase := entered(t.settings.name)) else t
  }

  /** The membership loop inside the selection loop. */
  method IsWanted(name: string, requested: seq<string>, all: bool) returns (b: bool)
    ensures b == Wanted(name, requested, all)
  {
    for j := 0 to |requested|
      invariant forall m :: 0 <= m < j ==> !all && requested[m] != name
    {
      if all || requested[j] == name {
        return true;
      }
    }
    if requested != [] {
      assert !all && requested[0] != name;
    }
    b := false;
  }

  /** One more target looked at: its position is added exactly when it is wanted. */
  lemma KeptStep(names: seq<string>, n: nat, requested: seq<string>, all: bool)
    requires n < |names|
    ensures KeptIndices(names[..n + 1], requested, all)
            == KeptIndices(names[..n], requested, all) + (if Wanted(names[n], requested, all) then [n] else [])
  {
    assert names[..n + 1][..n] == names[..n];
  }

  /**
   * The vector during the selection loop: the kept targets among the first
   * `n`, then the targets not yet looked at. Keeping or erasing the next one
   * gives the same shape for `n + 1`.
   */
  lemma EraseStep<T>(ts: seq<T>, names: seq<string>, n: nat, requested: seq<string>, all: bool, targets: seq<T>, i: nat)
    requires |names| == |ts| && n < |ts|
    requires i == |KeptIndices(names[..n], requested, all)|
    requires targets == Pick(ts, KeptIndices(names[..n], requested, all)) + ts[n..]
    ensures targets[i] == ts[n]
    ensures Wanted(names[n], requested, all) ==>
              targets == Pick(ts, KeptIndices(names[..n + 1], requested, all)) + ts[n + 1..]
    ensures !Wanted(names[n], requested, all) ==>
              targets[..i] + targets[i + 1..] == Pick(ts, KeptIndices(names[..n + 1], requested, all)) + ts[n + 1..]
  {
    KeptStep(names, n, requested, all);
    var before := KeptIndices(names[..n], requested, all);
    var after := KeptIndices(names[..n + 1], requested, all);
    if Wanted(names[n], requested, all) {
      assert Pick(ts, after) == Pick(ts, before) + [ts[n]];
      assert ts[n..] == [ts[n]] + ts[n + 1..];
    } else {
      assert Pick(ts, after) == Pick(ts, before);
      assert targets[..i] == Pick(ts, before);
      assert targets[i + 1..] == ts[n + 1..];
    }
  }

  /**
   * The selection loop of `main`: a wanted target is asked for its
   * passphrase and kept, any other is erased from the vector in place.
   */
  method SelectTargets(ts: seq<Target>, requested: seq<string>, all: bool, entered: string -> string) returns (kept: seq<Target>)
    requires forall a, b :: 0 <= a < b < |ts| ==> ts[a] != ts[b]
    modifies set t: Target | t in ts
    ensures kept == Pick(ts, KeptIndices(Names(ts), requested, all))
    ensures StatesOf(ts) == SelectedUpTo(old(StatesOf(ts)), Names(ts), |ts|, requested, all, entered)
  {
    var names := Names(ts);
    var before := StatesOf(ts);
    var targets := ts;
    var i: nat := 0;
    var n: nat := 0;
    assert names[..0] == [] && KeptIndices([], requested, all) == [];
    assert targets == Pick(ts, []) + ts[0..];
    assert SelectedUpTo(before, names, 0, requested, all, entered) == before;
    while i < |targets|
      invariant Selecting(ts, names, n, targets, i, requested, all)
      invariant StatesOf(ts) == SelectedUpTo(before, names, n, requested, all, entered)
      decreases |ts| - n
    {
      targets, i := SelectOne(ts, names, before, n, targets, i, requested, all, entered);
      n := n + 1;
    }
    assert |targets| == i + |ts| - n;
    assert n == |ts| && names[..|ts|] == names;
    kept := targets;
  }

  /**
   * The selection loop after `n` targets: `i` kept among them, and the
   * vector holding those, then the targets not yet looked at.
   */
  ghost predicate Selecting(ts: seq<Target>, names: seq<string>, n: nat, targets: seq<Target>, i: nat,
                            requested: seq<string>, all: bool)
  {
    && |names| == |ts| && n <= |ts|
    && i == |KeptIndices(names[..n], requested, all)|
    && targets == Pick(ts, KeptIndices(names[..n], requested, all)) + ts[n..]
  }

  /** One pass of the selection loop: the target at `i` is asked and kept, or erased. */
  method SelectOne(ts: seq<Target>, names: seq<string>, before: seq<TargetState>, n: nat,
                   targets: seq<Target>, i: nat, requested: seq<string>, all: bool, entered: string -> string)
    returns (targets': seq<Target>, i': nat)
    requires Selecting(ts, names, n, targets, i, requested, all) && n < |ts| && |before| == |ts|
    requires forall k :: 0 <= k < |ts| ==> names[k] == ts[k].name
    requires forall a, b :: 0 <= a < b < |ts| ==> ts[a] != ts[b]
    requires StatesOf(ts) == SelectedUpTo(before, names, n, requested, all, entered)
    modifies ts[n]
    ensures Selecting(ts, names, n + 1, targets', i', requested, all)
    ensures StatesOf(ts) == SelectedUpTo(before, names, n + 1, requested, all, entered)
  {
    EraseStep(ts, names, n, requested, all, targets, i);
    KeptStep(names, n, requested, all);
    SelectedStep(before, names, n, requested, all, entered);
    assert targets[i] == ts[n];
    var wanted := IsWanted(targets[i].name, requested, all);
    if wanted {
      Ask(targets[i], entered);
      targets', i' := targets, i + 1;
    } else {
      targets', i' := targets[..i] + targets[i + 1..], i;
    }
    forall k | 0 <= k < |ts| && k != n
      ensures ts[k] != ts[n]
    {
      if k < n { assert ts[k] != ts[n]; } else { assert ts[n] != ts[k]; }
    }
  }

  /** The states during the selection loop: the first `n` targets asked when wanted, the rest as they were. */
  ghost function SelectedUpTo(before: seq<TargetState>, names: seq<string>, n: nat, requested: seq<string>, all: bool,
                              entered: string -> string): (r: seq<TargetState>)
    requires |names| == |before|
    ensures |r| == |before|
  {
    seq(|before|, k requires 0 <= k < |before| =>
          if k < n && Wanted(names[k], requested, all) then Prompted(before[k], entered) else before[k])
  }

  /** One more target looked at changes at most its own state. */
  lemma SelectedStep(before: seq<TargetState>, names: seq<string>, n: nat, requested: seq<string>, all: bool,
                     entered: string -> string)
    requires |names| == |before| && n < |before|
    ensures SelectedUpTo(before, names, n + 1, requested, all, entered)
            == if Wanted(names[n], requested, all)
               then SelectedUpTo(before, names, n, requested, all, entered)[n := Prompted(before[n], entered)]
               else SelectedUpTo(before, names, n, requested, all, entered)
  {
  }

  /** Asks a kept target for its passphrase: `set_passphrase` with the confirmed entry. */
  method Ask(t: Target, entered: string -> string)
    modifies t
    ensures t.State() == Prompted(old(t.State()), entered)
  {
    t.SetPassphrase(entered(t.name));
  }

  /** After the selection the kept targets, and only they, were asked for their passphrase. */
  lemma SelectedStates(before: seq<TargetState>, names: seq<string>, requested: seq<string>, all: bool,
                       entered: string -> string)
    requires |names| == |before|
    ensures var idx := KeptIndices(names, requested, all);
            var after := SelectedUpTo(before, names, |before|, requested, all, entered);
            && (forall m :: 0 <= m < |idx| ==> after[idx[m]] == Prompted(before[idx[m]], entered))
            && (forall k :: 0 <= k < |before| && k !in idx ==> after[k] == before[k])
  {
    KeptExactly(names, requested, all);
    var idx := KeptIndices(names, requested, all);
    forall m | 0 <= m < |idx|
      ensures Wanted(names[idx[m]], requested, all)
    {
      assert idx[m] in idx;
    }
  }

  // ---------------------------------------------------------------------------
  // Running the selected targets
  // ---------------------------------------------------------------------------

  /** What the run loop does for a target, in order. */
  datatype Step = BeforeHooks(target: string) | StartMain(target: string) | WaitMain(target: string) | EndHooks(target: string)

  /** The four steps of a target that `run_main` does not end. */
  function FullRun(name: string): seq<Step> {
    [BeforeHooks(name), StartMain(name), WaitMain(name), EndHooks(name)]
  }

  /**
   * What the environment answers a run:
   * - whether the process runs as root;
   * - which directories can be created;
   * - `fork`'s results for the n-th target's `tar` and `gpg`;
   * - what the operating system answers the n-th target's before hooks and end hooks;
   * - the number of polling rounds a hook run is followed for.
   */
  datatype World = World(isRoot: bool, mkdirOk: string -> bool, forks: nat -> (ForkResult, ForkResult),
                         beforeOs: nat -> Hooks.HookOracle, endOs: nat -> Hooks.HookOracle, fuel: nat)

  /** `run_main` for the n-th selected target. */
  function MainOutcome(t: TargetState, n: nat, w: World): Result<Launch, RunError> {
    RunMainSpec(t, w.isRoot, w.mkdirOk(t.settings.destdir), w.forks(n).0, w.forks(n).1).0
  }

  /** `run_hooks` returns within the fuel, with the scheduler as written. `main` ignores what it returns. */
  predicate HooksReturn(hooks: seq<string>, jobs: int, o: Hooks.HookOracle, fuel: nat) {
    Hooks.RunHooksSpec(hooks, jobs, o, false, fuel).Finished?
  }

  /** With a job count of zero or less, `run_hooks` returns exactly for an empty list. */
  lemma HooksReturnNoJobs(hooks: seq<string>, jobs: int, o: Hooks.HookOracle, fuel: nat)
    requires jobs <= 0
    ensures HooksReturn(hooks, jobs, o, fuel) <==> hooks == []
  {
  }

  /** Why the run loop ends early: a fatal `run_main`, or hooks that do not return within the fuel. */
  datatype RunEnd = Fatal(error: RunError) | HooksOutOfFuel

  /** The n-th target's before hooks, `run_main` and end hooks all return. */
  predicate TargetRuns(t: TargetState, n: nat, jobs: int, w: World) {
    && HooksReturn(t.settings.beforeHooks, jobs, w.beforeOs(n), w.fuel)
    && MainOutcome(t, n, w).Ok?
    && HooksReturn(t.settings.endHooks, jobs, w.endOs(n), w.fuel)
  }

  /**
   * One turn of the run loop on the n-th target: the steps taken, and why
   * the loop ends there, if it does. A target that ends the loop took part
   * of its four steps; a fatal `run_main` comes after the before hooks.
   */
  function TargetRun(t: TargetState, n: nat, jobs: int, w: World): (r: (seq<Step>, Option<RunEnd>))
    ensures r.1 == None <==> TargetRuns(t, n, jobs, w)
    ensures r.1 == None ==> r.0 == FullRun(t.settings.name)
    ensures r.1.Some? ==> 0 < |r.0| <= 4 && r.0 == FullRun(t.settings.name)[..|r.0|]
    ensures (r.1.Some? && r.1.value.Fatal?) <==>
            HooksReturn(t.settings.beforeHooks, jobs, w.beforeOs(n), w.fuel) && MainOutcome(t, n, w).Err?
    ensures r.1.Some? && r.1.value.Fatal? ==>
            r.1.value.error == MainOutcome(t, n, w).error && r.0 == [BeforeHooks(t.settings.name), StartMain(t.settings.name)]
  {
    var name := t.settings.name;
    if !HooksReturn(t.settings.beforeHooks, jobs, w.beforeOs(n), w.fuel) then ([BeforeHooks(name)], Some(HooksOutOfFuel))
    else match MainOutcome(t, n, w)
      case Err(e) => ([BeforeHooks(name), StartMain(name)], Some(Fatal(e)))
      case Ok(_) =>
        (FullRun(name), if HooksReturn(t.settings.endHooks, jobs, w.endOs(n), w.fuel) then None else Some(HooksOutOfFuel))
  }

  /** What one turn of the run loop gives: the steps taken, and why the loop ends there, if it does. */
  type Turn = (seq<Step>, Option<RunEnd>)

  /** The turn each selected target would take, in order. */
  function Turns(states: seq<TargetState>, jobs: int, w: World): (r: seq<Turn>)
    ensures |r| == |states| && forall k :: 0 <= k < |states| ==> r[k] == TargetRun(states[k], k, jobs, w)
  {
    seq(|states|, k requires 0 <= k < |states| => TargetRun(states[k], k, jobs, w))
  }

  /** The loop over the turns from the n-th on: each turn's steps in order, until a turn ends the loop. */
  function RunOf(turns: seq<Turn>, n: nat): (r: Turn)
    requires n <= |turns|
    ensures r.1 == None <==> forall k :: n <= k < |turns| ==> turns[k].1 == None
    decreases |turns| - n
  {
    if n == |turns| then ([], None)
    else if turns[n].1.Some? then turns[n]
    else
      var rest := RunOf(turns, n + 1);
      (turns[n].0 + rest.0, rest.1)
  }

  /**
   * When every turn that goes on has four steps: a loop that goes through
   * is the turns' steps one after another, and a loop that ends early ends
   * at the first turn that ends it, with that turn's steps last.
   */
  lemma {:induction false} RunOfLayout(turns: seq<Turn>, n: nat)
    requires n <= |turns|
    requires forall k :: n <= k < |turns| && turns[k].1 == None ==> |turns[k].0| == 4
    ensures var (trace, stop) := RunOf(turns, n);
            && (stop == None ==> |trace| == 4 * (|turns| - n) &&
                                 forall k :: n <= k < |turns| ==> trace[4 * (k - n)..4 * (k - n) + 4] == turns[k].0)
            && (stop.Some? ==> exists k :: n <= k < |turns| && turns[k].1 == stop
                                           && (forall m :: n <= m < k ==> turns[m].1 == None)
                                           && |trace| == 4 * (k - n) + |turns[k].0|
                                           && trace[4 * (k - n)..] == turns[k].0)
    decreases |turns| - n
  {
    if n < |turns| && turns[n].1 == None {
      RunOfLayout(turns, n + 1);
      var (trace, stop) := RunOf(turns, n);
      var rest := RunOf(turns, n + 1).0;
      assert trace == turns[n].0 + rest;
      if stop == None {
        forall k | n < k < |turns|
          ensures trace[4 * (k - n)..4 * (k - n) + 4] == turns[k].0
        {
          assert trace[4 * (k - n)..4 * (k - n) + 4] == rest[4 * (k - n - 1)..4 * (k - n - 1) + 4];
        }
      } else {
        var k :| n + 1 <= k < |turns| && turns[k].1 == stop
                 && (forall m :: n + 1 <= m < k ==> turns[m].1 == None)
                 && |rest| == 4 * (k - n - 1) + |turns[k].0|
                 && rest[4 * (k - n - 1)..] == turns[k].0;
        assert trace[4 * (k - n)..] == rest[4 * (k - n - 1)..];
      }
    }
  }

  /**
   * The run loop from the n-th selected target on, on a copy of each
   * target. Hook results do not stop the loop. A fatal `run_main` ends the
   * program, and hooks that never return keep it waiting.
   */
  function RunFrom(states: seq<TargetState>, n: nat, jobs: int, w: World): (r: Turn)
    requires n <= |states|
    ensures |r.0| <= 4 * (|states| - n)
    ensures r.1 == None ==> |r.0| == 4 * (|states| - n)
    decreases |states| - n
  {
    if n == |states| then ([], None)
    else
      var turn := TargetRun(states[n], n, jobs, w);
      if turn.1.Some? then turn
      else
        var rest := RunFrom(states, n + 1, jobs, w);
        (turn.0 + rest.0, rest.1)
  }

  /** The run loop over the targets is the loop over their turns. */
  lemma {:induction false} RunFromIsRunOf(states: seq<TargetState>, n: nat, jobs: int, w: World)
    requires n <= |states|
    ensures RunFrom(states, n, jobs, w) == RunOf(Turns(states, jobs, w), n)
    decreases |states| - n
  {
    if n < |states| && TargetRun(states[n], n, jobs, w).1 == None {
      RunFromIsRunOf(states, n + 1, jobs, w);
    }
  }

  /** Every target runs its four steps in turn exactly when every target's hooks and `run_main` return. */
  lemma RunCompletes(states: seq<TargetState>, n: nat, jobs: int, w: World)
    requires n <= |states|
    ensures var (trace, stop) := RunFrom(states, n, jobs, w);
            && (stop == None <==> forall k :: n <= k < |states| ==> TargetRuns(states[k], k, jobs, w))
            && (stop == None ==>
                  forall k :: n <= k < |states| ==> trace[4 * (k - n)..4 * (k - n) + 4] == FullRun(states[k].settings.name))
  {
    RunFromIsRunOf(states, n, jobs, w);
    RunOfLayout(Turns(states, jobs, w), n);
  }

  /**
   * An early end stops the loop at the first target where it happens:
   * every earlier target ran its four steps, the trace ends with the steps
   * this target took, and no later target ran at all.
   */
  lemma RunStopsAtFirstFailure(states: seq<TargetState>, n: nat, jobs: int, w: World)
    requires n <= |states|
    ensures var (trace, stop) := RunFrom(states, n, jobs, w);
            stop.Some? ==> exists k :: n <= k < |states| && TargetRun(states[k], k, jobs, w).1 == stop
                                       && (forall m :: n <= m < k ==> TargetRuns(states[m], m, jobs, w))
                                       && |trace| == 4 * (k - n) + |TargetRun(states[k], k, jobs, w).0|
                                       && trace[4 * (k - n)..] == TargetRun(states[k], k, jobs, w).0
  {
    RunFromIsRunOf(states, n, jobs, w);
    RunOfLayout(Turns(states, jobs, w), n);
  }

  /** A selected target that encrypts with an empty passphrase ends the run early. */
  lemma EmptyPassphraseStops(states: seq<TargetState>, k: nat, jobs: int, w: World)
    requires k < |states| && states[k].settings.encrypt && states[k].passphrase == ""
    ensures RunFrom(states, 0, jobs, w).1.Some?
  {
    RunCompletes(states, 0, jobs, w);
  }

  /**
   * With a job count of zero or less, the loop completes exactly when no
   * selected target has a before or end hook and no `run_main` is fatal:
   * any hook keeps the program waiting.
   */
  lemma NoJobsNeedNoHooks(states: seq<TargetState>, n: nat, jobs: int, w: World)
    requires n <= |states| && jobs <= 0
    ensures RunFrom(states, n, jobs, w).1 == None <==>
            forall k :: n <= k < |states| ==>
              states[k].settings.beforeHooks == [] && states[k].settings.endHooks == [] && MainOutcome(states[k], k, w).Ok?
  {
    RunCompletes(states, n, jobs, w);
    forall k | n <= k < |states|
      ensures TargetRuns(states[k], k, jobs, w) <==>
              states[k].settings.beforeHooks == [] && states[k].settings.endHooks == [] && MainOutcome(states[k], k, w).Ok?
    {
      HooksReturnNoJobs(states[k].settings.beforeHooks, jobs, w.beforeOs(k), w.fuel);
      HooksReturnNoJobs(states[k].settings.endHooks, jobs, w.endOs(k), w.fuel);
    }
  }

  /** The state of each target, in order. */
  function StatesOf(ts: seq<Target>): (r: seq<TargetState>)
    reads set t: Target | t in ts
    ensures |r| == |ts| && forall k :: 0 <= k < |ts| ==> r[k] == ts[k].State()
  {
    seq(|ts|, k requires 0 <= k < |ts| reads set t: Target | t in ts => ts[k].State())
  }

  /**
   * One turn of the run loop, on a copy of the target as `auto target`
   * makes: `run_before_hooks`, `run_main`, `wait_main` and `run_end_hooks`.
   */
  method RunTarget(t: Target, n: nat, jobs: int, w: World) returns (steps: seq<Step>, stop: Option<RunEnd>)
    ensures steps == TargetRun(t.State(), n, jobs, w).0
    ensures stop == TargetRun(t.State(), n, jobs, w).1
  {
    var target := new Target.Copy(t);
    var name := target.name;
    var before := Hooks.RunHooks(target.beforeHooks, jobs, w.beforeOs(n), w.fuel);
    if before.OutOfFuel? {
      return [BeforeHooks(name)], Some(HooksOutOfFuel);
    }
    var r := target.RunMain(w.isRoot, w.mkdirOk(target.destdir), w.forks(n).0, w.forks(n).1);
    if r.Err? {
      return [BeforeHooks(name), StartMain(name)], Some(Fatal(r.error));
    }
    var after := Hooks.RunHooks(target.endHooks, jobs, w.endOs(n), w.fuel);
    steps := FullRun(name);
    stop := if after.OutOfFuel? then Some(HooksOutOfFuel) else None;
  }

  /** turns[k] is the turn the k-th target takes. */
  predicate TurnsOf(turns: seq<Turn>, states: seq<TargetState>, jobs: int, w: World) {
    && |turns| == |states|
    && forall k: nat {:trigger TargetRun(states[k], k, jobs, w)} :: k < |states| ==> turns[k] == TargetRun(states[k], k, jobs, w)
  }

  /** The run loop of `main`: `for (auto target : targets)`. */
  method RunTargets(ts: seq<Target>, jobs: int, w: World) returns (trace: seq<Step>, stop: Option<RunEnd>)
    ensures trace == RunFrom(StatesOf(ts), 0, jobs, w).0
    ensures stop == RunFrom(StatesOf(ts), 0, jobs, w).1
  {
    var states := StatesOf(ts);
    ghost var turns := Turns(states, jobs, w);
    RunFromIsRunOf(states, 0, jobs, w);
    trace, stop := RunTurns(ts, states, turns, jobs, w);
  }

  /** The loop itself, over the targets' turns. */
  method RunTurns(ts: seq<Target>, states: seq<TargetState>, ghost turns: seq<Turn>, jobs: int, w: World)
    returns (trace: seq<Step>, stop: Option<RunEnd>)
    requires states == StatesOf(ts) && TurnsOf(turns, states, jobs, w)
    ensures trace == RunOf(turns, 0).0 && stop == RunOf(turns, 0).1
  {
    trace := [];
    for n := 0 to |ts|
      invariant RunOf(turns, 0).0 == trace + RunOf(turns, n).0
      invariant RunOf(turns, 0).1 == RunOf(turns, n).1
      invariant StatesOf(ts) == states
    {
      var steps, ended := RunStep(ts, states, turns, n, jobs, w);
      if ended.Some? {
        return trace + steps, ended;
      }
      trace := trace + steps;
    }
    stop := None;
  }

  /** One turn of the run loop, on the n-th target: the n-th of the targets' turns. */
  method RunStep(ts: seq<Target>, states: seq<TargetState>, ghost turns: seq<Turn>, n: nat, jobs: int, w: World)
    returns (steps: seq<Step>, ended: Option<RunEnd>)
    requires n < |ts| && states == StatesOf(ts) && TurnsOf(turns, states, jobs, w)
    ensures steps == turns[n].0 && ended == turns[n].1
  {
    assert states[n] == ts[n].State();
    steps, ended := RunTarget(ts[n], n, jobs, w);
  }

  // ---------------------------------------------------------------------------
  // `main`
  // ---------------------------------------------------------------------------

  /** Why `main` ends before running a target. */
  datatype Stop =
    | Help
    | BadArguments(error: ArgError)
    | NoConfigFile(path: string)
    | BadConfig(parseError: ParseError)
    | ParserHangs
    | BadTarget(configError: ConfigError)
    | AllWithOthers
    | RequestedTwice(name: string)
    | NotFound(name: string)

  /** `parse_args` as a step of `main`. */
  function ParsedOptions(a: ArgOutcome): Result<Options, Stop> {
    match a
    case Proceed(o) => Ok(o)
    case ShowHelp => Err(Help)
    case Fail(e) => Err(BadArguments(e))
  }

  /** The parsed configuration as a step of `main`. */
  function ParsedSections(p: IniOutcome): Result<seq<Section>, Stop> {
    match p
    case Sections(s) => Ok(s)
    case Failed(e) => Err(BadConfig(e))
    case Diverges => Err(ParserHangs)
  }

  /** Reading and parsing the configuration file, then the section loop. */
  function Loaded(o: Options, files: map<string, string>, env: Env, date: string, fixed: bool): Result<seq<Settings>, Stop> {
    if o.configFile !in files then Err(NoConfigFile(o.configFile))
    else
      var sections :- ParsedSections(IniParseText(files[o.configFile], fixed));
      match ConfigureAll(sections, Constructor(GlobalOf(sections), o.destdir, env, date))
      case Err(e) => Err(BadTarget(e))
      case Ok(all) => Ok(all)
  }

  /** The targets' states right after construction: no passphrase, no children. */
  function Unprompted(all: seq<Settings>): (r: seq<TargetState>)
    ensures |r| == |all| && forall k :: 0 <= k < |all| ==> r[k] == TargetState(all[k], "", [])
  {
    seq(|all|, k requires 0 <= k < |all| => TargetState(all[k], "", []))
  }

  /** The states the selection loop leaves on the kept targets are the prompted states of their settings. */
  lemma KeptPrompted(all: seq<Settings>, requested: seq<string>, allTargets: bool, entered: string -> string)
    ensures var names := SettingsNames(all);
            var idx := KeptIndices(names, requested, allTargets);
            && Pick(SelectedUpTo(Unprompted(all), names, |all|, requested, allTargets, entered), idx)
               == PromptedAll(Pick(all, idx), entered)
            && SettingsNames(Pick(all, idx)) == Pick(names, idx)
  {
    SelectedStates(Unprompted(all), SettingsNames(all), requested, allTargets, entered);
  }

  /** Picking targets, then reading their states, is picking among the states. */
  lemma StatesOfPick(ts: seq<Target>, idx: seq<nat>)
    requires forall m :: 0 <= m < |idx| ==> idx[m] < |ts|
    ensures StatesOf(Pick(ts, idx)) == Pick(StatesOf(ts), idx)
  {
  }

  /** The same for names. */
  lemma NamesPick(ts: seq<Target>, idx: seq<nat>)
    requires forall m :: 0 <= m < |idx| ==> idx[m] < |ts|
    ensures Names(Pick(ts, idx)) == Pick(Names(ts), idx)
  {
  }

  /** Each selected target's state once its passphrase has been asked for. */
  function PromptedAll(kept: seq<Settings>, entered: string -> string): (r: seq<TargetState>)
    ensures |r| == |kept| && forall k :: 0 <= k < |kept| ==> r[k] == Prompted(TargetState(kept[k], "", []), entered)
  {
    seq(|kept|, k requires 0 <= k < |kept| => Prompted(TargetState(kept[k], "", []), entered))
  }

  /**
   * The checks on the requested names and the selection: `all` with another
   * name, a name requested twice, then the selection, then a requested name
   * no selected target has (unless `all` was requested). A selection that
   * passes had no name requested twice, and each selected target carries
   * the confirmed passphrase for its name exactly when it encrypts, and no
   * children yet.
   */
  function Chosen(o: Options, all: seq<Settings>, entered: string -> string): (r: Result<seq<TargetState>, Stop>)
    ensures r.Ok? ==> Distinct(o.targets) && !(o.allTargets && |o.targets| > 1)
    ensures r.Ok? ==> forall k :: 0 <= k < |r.value| ==>
                        && r.value[k].children == []
                        && r.value[k].passphrase == (if r.value[k].settings.encrypt then entered(r.value[k].settings.name) else "")
  {
    FirstDuplicateDistinct(o.targets);
    if o.allTargets && |o.targets| > 1 then Err(AllWithOthers)
    else if FirstDuplicate(o.targets).Some? then Err(RequestedTwice(FirstDuplicate(o.targets).value))
    else
      var kept := Pick(all, KeptIndices(SettingsNames(all), o.targets, o.allTargets));
      var missing := FirstMissing(o.targets, SettingsNames(kept));
      if !o.allTargets && missing.Some? then Err(NotFound(missing.value))
      else Ok(PromptedAll(kept, entered))
  }

  /** What the run loop is given: the job count for the hooks, and the selected targets' states. */
  datatype Plan = Plan(jobs: int, states: seq<TargetState>)

  /** `main` up to the run loop: the options, the configuration, the targets, the checks and the selection. */
  function Selection(argv: seq<string>, env: Env, files: map<string, string>, date: string,
                     entered: string -> string, fixed: bool): Result<Plan, Stop>
  {
    var o :- ParsedOptions(ParseArgsSpec(argv, DefaultConfigFile(env), fixed));
    Planned(o, files, env, date, entered, fixed)
  }

  /** `main` after `parse_args`, up to the run loop. */
  function Planned(o: Options, files: map<string, string>, env: Env, date: string,
                   entered: string -> string, fixed: bool): Result<Plan, Stop>
  {
    var all :- Loaded(o, files, env, date, fixed);
    var states :- Chosen(o, all, entered);
    Ok(Plan(o.jobs, states))
  }

  /**
   * How `main` ends: before the run loop, or in it, with the steps it took
   * and, when the loop did not get through every target, why.
   */
  datatype Outcome = Stopped(reason: Stop) | Ran(trace: seq<Step>, stop: Option<RunEnd>)

  /**
   * What `main` does, from the command line, the environment and the files
   * to its end. It reaches the run loop exactly when the selection passes;
   * the loop then takes at most four steps per selected target, and all
   * four for each when it gets through them all.
   */
  function BackmanSpec(argv: seq<string>, env: Env, files: map<string, string>, date: string,
                       entered: string -> string, w: World, fixed: bool): (r: Outcome)
    ensures r.Ran? <==> Selection(argv, env, files, date, entered, fixed).Ok?
    ensures r.Ran? ==> |r.trace| <= 4 * |Selection(argv, env, files, date, entered, fixed).value.states|
    ensures r.Ran? && r.stop == None ==> |r.trace| == 4 * |Selection(argv, env, files, date, entered, fixed).value.states|
  {
    Ended(Selection(argv, env, files, date, entered, fixed), w)
  }

  /** How `main` ends once it has stopped before the run loop, or has planned it. */
  function Ended(plan: Result<Plan, Stop>, w: World): Outcome {
    match plan
    case Err(s) => Stopped(s)
    case Ok(p) => var (trace, stop) := RunFrom(p.states, 0, p.jobs, w); Ran(trace, stop)
  }

  /**
   * Nothing checks the job count. When `main` reaches the run loop with a
   * job count of zero or less, the run gets through every selected target
   * exactly when none of them has a hook and no `run_main` is fatal.
   */
  lemma NoJobsMainWaits(argv: seq<string>, env: Env, files: map<string, string>, date: string,
                        entered: string -> string, w: World, fixed: bool)
    requires Selection(argv, env, files, date, entered, fixed).Ok?
    requires Selection(argv, env, files, date, entered, fixed).value.jobs <= 0
    ensures var p := Selection(argv, env, files, date, entered, fixed).value;
            var r := BackmanSpec(argv, env, files, date, entered, w, fixed);
            && r.Ran?
            && (r.stop == None <==>
                  forall k :: 0 <= k < |p.states| ==>
                    p.states[k].settings.beforeHooks == [] && p.states[k].settings.endHooks == [] && MainOutcome(p.states[k], k, w).Ok?)
  {
    var p := Selection(argv, env, files, date, entered, fixed).value;
    NoJobsNeedNoHooks(p.states, 0, p.jobs, w);
  }

  /**
   * Without `all`, the selected targets are exactly the requested ones:
   * each selected target was requested by name, and each requested name is
   * a selected target's.
   */
  lemma ChosenMatchesRequest(o: Options, all: seq<Settings>, entered: string -> string)
    requires !o.allTargets
    ensures var r := Chosen(o, all, entered);
            r.Ok? ==> && (forall k :: 0 <= k < |r.value| ==> r.value[k].settings.name in o.targets)
                      && (forall j :: 0 <= j < |o.targets| ==> exists k :: 0 <= k < |r.value| && r.value[k].settings.name == o.targets[j])
  {
    ChosenOnlyRequested(o, all, entered);
    ChosenEveryRequested(o, all, entered);
  }

  /** Every selected target was requested by name. */
  lemma ChosenOnlyRequested(o: Options, all: seq<Settings>, entered: string -> string)
    requires !o.allTargets
    ensures var r := Chosen(o, all, entered);
            r.Ok? ==> forall k :: 0 <= k < |r.value| ==> r.value[k].settings.name in o.targets
  {
    var r := Chosen(o, all, entered);
    if r.Ok? {
      var allNames := SettingsNames(all);
      var idx := KeptIndices(allNames, o.targets, false);
      KeptExactly(allNames, o.targets, false);
      forall k | 0 <= k < |r.value|
        ensures r.value[k].settings.name in o.targets
      {
        assert idx[k] in idx;
        assert Wanted(allNames[idx[k]], o.targets, false);
      }
    }
  }

  /** Every requested name is the name of a selected target. */
  lemma ChosenEveryRequested(o: Options, all: seq<Settings>, entered: string -> string)
    requires !o.allTargets
    ensures var r := Chosen(o, all, entered);
            r.Ok? ==> forall j :: 0 <= j < |o.targets| ==> exists k :: 0 <= k < |r.value| && r.value[k].settings.name == o.targets[j]
  {
    var r := Chosen(o, all, entered);
    if r.Ok? {
      var kept := Pick(all, KeptIndices(SettingsNames(all), o.targets, false));
      FirstMissingAll(o.targets, SettingsNames(kept));
      forall j | 0 <= j < |o.targets|
        ensures exists k :: 0 <= k < |r.value| && r.value[k].settings.name == o.targets[j]
      {
        var k :| 0 <= k < |kept| && SettingsNames(kept)[k] == o.targets[j];
        assert r.value[k].settings.name == o.targets[j];
      }
    }
  }

  /** With `all` alone, every target is selected, in configuration order. */
  lemma ChosenAll(o: Options, all: seq<Settings>, entered: string -> string)
    requires o.allTargets && Consistent(o)
    ensures var r := Chosen(o, all, entered);
            && r.Ok? == (|o.targets| == 1)
            && (r.Ok? ==> |r.value| == |all| && forall k :: 0 <= k < |all| ==> r.value[k].settings == all[k])
  {
    var r := Chosen(o, all, entered);
    assert "all" in o.targets;
    if |o.targets| == 1 {
      FirstDuplicateDistinct(o.targets);
      var names := SettingsNames(all);
      var idx := KeptIndices(names, o.targets, true);
      KeptExactly(names, o.targets, true);
      assert forall i :: 0 <= i < |names| ==> Wanted(names[i], o.targets, true);
      AllIndices(names, o.targets);
    }
  }

  /** With no target named on the command line, nothing is selected and nothing runs. */
  lemma NothingRequested(o: Options, all: seq<Settings>, entered: string -> string)
    requires o.targets == []
    ensures Chosen(o, all, entered) == Ok([])
  {
    NoneKept(SettingsNames(all), o.allTargets);
  }

  /** No requested name keeps no position, `all` or not. */
  lemma {:induction false} NoneKept(names: seq<string>, all: bool)
    ensures KeptIndices(names, [], all) == []
  {
    if names != [] {
      NoneKept(names[..|names| - 1], all);
    }
  }

  /** When every name is wanted, every position is kept. */
  lemma {:induction false} AllIndices(names: seq<string>, requested: seq<string>)
    requires |requested| > 0
    ensures KeptIndices(names, requested, true) == seq(|names|, k => k)
  {
    if names != [] {
      var front := names[..|names| - 1];
      AllIndices(front, requested);
      assert requested[0] in requested;
      assert Wanted(names[|names| - 1], requested, true);
    }
  }

  /** Reading the configuration and constructing the targets. */
  method LoadConfig(o: Options, files: map<string, string>, env: Env, date: string, fixed: bool) returns (r: Result<seq<Target>, Stop>)
    ensures var spec := Loaded(o, files, env, date, fixed);
            && (r.Err? <==> spec.Err?)
            && (r.Err? ==> r.error == spec.error)
            && (r.Ok? ==> && |r.value| == |spec.value|
                          && (forall k :: 0 <= k < |r.value| ==> fresh(r.value[k]))
                          && (forall a, b :: 0 <= a < b < |r.value| ==> r.value[a] != r.value[b])
                          && forall k :: 0 <= k < |r.value| ==> r.value[k].State() == TargetState(spec.value[k], "", []))
  {
    if o.configFile !in files {
      return Err(NoConfigFile(o.configFile));
    }
    var p := IniParseString(files[o.configFile], fixed);
    var sections :- ParsedSections(p);
    var loaded := LoadTargets(sections, o.destdir, env, date);
    if loaded.Err? {
      return Err(BadTarget(loaded.error));
    }
    r := Ok(loaded.value);
  }

  /** The checks on the requested names and the selection, on the constructed targets. */
  method Choose(o: Options, targets: seq<Target>, all: seq<Settings>, entered: string -> string) returns (r: Result<seq<Target>, Stop>)
    requires forall a, b :: 0 <= a < b < |targets| ==> targets[a] != targets[b]
    requires |all| == |targets| && forall k :: 0 <= k < |targets| ==> targets[k].State() == TargetState(all[k], "", [])
    modifies set t: Target | t in targets
    ensures var spec := Chosen(o, all, entered);
            && (r.Err? <==> spec.Err?)
            && (r.Err? ==> r.error == spec.error)
            && (r.Ok? ==> StatesOf(r.value) == spec.value)
  {
    if o.allTargets && |o.targets| > 1 {
      return Err(AllWithOthers);
    }
    var dup := FindDuplicate(o.targets);
    if dup.Some? {
      return Err(RequestedTwice(dup.value));
    }
    assert StatesOf(targets) == Unprompted(all);
    assert Names(targets) == SettingsNames(all);
    ghost var idx := KeptIndices(SettingsNames(all), o.targets, o.allTargets);
    var kept := SelectTargets(targets, o.targets, o.allTargets, entered);
    StatesOfPick(targets, idx);
    NamesPick(targets, idx);
    KeptPrompted(all, o.targets, o.allTargets, entered);
    assert StatesOf(kept) == PromptedAll(Pick(all, idx), entered);
    assert Names(kept) == SettingsNames(Pick(all, idx));
    if !o.allTargets {
      var missing := FindMissing(o.targets, Names(kept));
      if missing.Some? {
        return Err(NotFound(missing.value));
      }
    }
    r := Ok(kept);
  }

  /**
   * `main`. Among the ways it ends before the run:
   * - the help text exits with status 0;
   * - `BadConfig` is the parser's exception escaping `main`, so the program ends in `std::terminate`;
   * - `ParserHangs` never ends;
   * - every other `Stop` exits with status 1.
   */
  method Run(argv: seq<string>, env: Env, files: map<string, string>, date: string,
             entered: string -> string, w: World, fixed: bool) returns (r: Outcome)
    ensures r == BackmanSpec(argv, env, files, date, entered, w, fixed)
  {
    var configFile := ResolvePathWithEnvironment(env, "$" + XdgVar + XdgTail);
    if XdgVar !in env {
      configFile := ResolvePathWithEnvironment(env, "$" + HomeVar + HomeTail);
    }
    var parsed := ParseArgs(argv, configFile, fixed);
    var po := ParsedOptions(parsed);
    if po.Err? {
      return Stopped(po.error);
    }
    r := RunOptions(po.value, env, files, date, entered, w, fixed);
  }

  /** `main` after `parse_args`: the configuration, the checks, the selection and the run loop. */
  method RunOptions(o: Options, env: Env, files: map<string, string>, date: string,
                    entered: string -> string, w: World, fixed: bool) returns (r: Outcome)
    ensures r == Ended(Planned(o, files, env, date, entered, fixed), w)
  {
    var loaded := LoadConfig(o, files, env, date, fixed);
    if loaded.Err? {
      return Stopped(loaded.error);
    }
    var all := Loaded(o, files, env, date, fixed).value;
    var chosen := Choose(o, loaded.value, all, entered);
    if chosen.Err? {
      return Stopped(chosen.error);
    }
    var trace, stop := RunTargets(chosen.value, o.jobs, w);
    r := Ran(trace, stop);
  }
}
