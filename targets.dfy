/**
 * A backup target: the `Target` constructor, which reads one `[target]`
 * section and fails with exit status 1 on a malformed one, the archive file
 * name, the hook commands, and `run_main`, which builds the `tar` and `gpg`
 * command lines and hands the passphrase to `gpg`.
 *
 * The globals the constructor reads become parameters: the `--destdir`
 * option, the global section of the configuration, and the process
 * environment. The date `strftime` formats and the effective user's being
 * root are parameters too, and so are the outcomes of
 * `fs::create_directories` and `fork` in `run_main`.
 */
module Targets {
  import opened Wrappers
  import opened IniParser
  import opened PathEnv
  import opened Commands

  // ---------------------------------------------------------------------------
  // Values and booleans
  // ---------------------------------------------------------------------------

  /** Why the constructor calls `std::exit(1)`: a key given the wrong number of times, or a boolean that is neither. */
  datatype ConfigError = WrongCount(key: string, count: nat) | NotBool(key: string, value: string)

  /** `std::tolower` in the C locale: only `A` to `Z` change. */
  function LowerChar(c: char): char {
    if 'A' <= c <= 'Z' then (c as int + 32) as char else c
  }

  function UpperChar(c: char): char {
    if 'a' <= c <= 'z' then (c as int - 32) as char else c
  }

  /** `toLower`. */
  function ToLower(s: string): string {
    seq(|s|, k requires 0 <= k < |s| => LowerChar(s[k]))
  }

  /** Lower-casing twice changes nothing more. */
  lemma ToLowerIdempotent(s: string)
    ensures ToLower(ToLower(s)) == ToLower(s)
  {
    assert forall k :: 0 <= k < |s| ==> LowerChar(LowerChar(s[k])) == LowerChar(s[k]);
  }

  predicate IsLowerWord(word: string) {
    forall k :: 0 <= k < |word| ==> 'a' <= word[k] <= 'z'
  }

  /** `v` spells `word` with any mix of upper and lower case letters. */
  predicate IsCaseOf(v: string, word: string) {
    |v| == |word| && forall k :: 0 <= k < |v| ==> v[k] == word[k] || v[k] == UpperChar(word[k])
  }

  /** A string lower-cases to a lower-case word exactly when it spells that word in some mix of cases. */
  lemma LowerIsCaseOf(v: string, word: string)
    requires IsLowerWord(word)
    ensures ToLower(v) == word <==> IsCaseOf(v, word)
  {
    if IsCaseOf(v, word) {
      assert forall k :: 0 <= k < |v| ==> ToLower(v)[k] == word[k];
    }
    if ToLower(v) == word {
      assert forall k :: 0 <= k < |v| ==> LowerChar(v[k]) == word[k];
    }
  }

  /** A configuration boolean: `true` or `false`, in any case. */
  function ParseBool(key: string, v: string): Result<bool, ConfigError> {
    if ToLower(v) == "true" then Ok(true)
    else if ToLower(v) == "false" then Ok(false)
    else Err(NotBool(key, v))
  }

  /** `true` in any case reads as true, `false` in any case as false, and anything else is an error. */
  lemma ParseBoolCases(key: string, v: string)
    ensures ParseBool(key, v) == Ok(true) <==> IsCaseOf(v, "true")
    ensures ParseBool(key, v) == Ok(false) <==> IsCaseOf(v, "false")
    ensures ParseBool(key, v).Err? <==> !IsCaseOf(v, "true") && !IsCaseOf(v, "false")
  {
    LowerIsCaseOf(v, "true");
    LowerIsCaseOf(v, "false");
  }

  /** A key that may be given at most once, holding a boolean. */
  function OptionalBool(key: string, values: seq<string>, default: bool): Result<bool, ConfigError> {
    if |values| > 1 then Err(WrongCount(key, |values|))
    else if |values| == 1 then ParseBool(key, values[0])
    else Ok(default)
  }

  /** A key that may be given at most once, holding a string. */
  function OptionalString(key: string, values: seq<string>, default: string): Result<string, ConfigError> {
    if |values| > 1 then Err(WrongCount(key, |values|))
    else if |values| == 1 then Ok(values[0])
    else Ok(default)
  }

  /** A key that must be given exactly once. */
  function Required(key: string, values: seq<string>): Result<string, ConfigError> {
    if |values| != 1 then Err(WrongCount(key, |values|)) else Ok(values[0])
  }

  /**
   * The destination directory: `--destdir` as given, else the target's
   * `dest`, else the global `default_dest`, else `$HOME/Backups`, each of
   * the last three with its environment references expanded.
   */
  function DestDir(cliDestdir: string, dests: seq<string>, defaultDests: seq<string>, env: Env): Result<string, ConfigError> {
    if cliDestdir != "" then Ok(cliDestdir)
    else if |dests| > 1 then Err(WrongCount("dest", |dests|))
    else if |dests| == 1 then Ok(Expand(env, dests[0]))
    else if |defaultDests| == 1 then Ok(Expand(env, defaultDests[0]))
    else if |defaultDests| > 1 then Err(WrongCount("default_dest", |defaultDests|))
    else Ok(Expand(env, "$HOME/Backups"))
  }

  // ---------------------------------------------------------------------------
  // Paths, file names and hooks
  // ---------------------------------------------------------------------------

  /**
   * `fs::path` `operator/` on POSIX paths: an absolute right-hand side
   * replaces the left, and a separator is added only when the left is
   * non-empty and does not already end in one.
   */
  function JoinPath(dir: string, file: string): (r: string)
    ensures |file| > 0 && file[0] == '/' ==> r == file
    ensures (file == [] || file[0] != '/') ==>
              && |dir| + |file| <= |r| <= |dir| + |file| + 1
              && r[..|dir|] == dir && r[|r| - |file|..] == file
  {
    if |file| > 0 && file[0] == '/' then file
    else if dir == "" || dir[|dir| - 1] == '/' then dir + file
    else dir + "/" + file
  }

  /** `get_file_name`, with the `%Y-%m-%d` date as a parameter. */
  function FileName(name: string, date: string, compressProgram: string, encrypt: bool): (r: string)
    ensures |r| == |name| + 1 + |date| + 5 + |compressProgram| + (if encrypt then 4 else 0)
    ensures r[..|name|] == name && r[|name|] == '_' && r[|name| + 1..|name| + 1 + |date|] == date
    ensures r[|name| + 1 + |date|..|name| + 6 + |date|] == ".tar."
    ensures r[|name| + 6 + |date|..|name| + 6 + |date| + |compressProgram|] == compressProgram
    ensures encrypt ==> r[|r| - 4..] == ".gpg"
  {
    name + "_" + date + ".tar." + compressProgram + (if encrypt then ".gpg" else "")
  }

  /** Two targets with different names but names of the same length get different archive names. */
  lemma FileNameSeparates(a: string, b: string, date: string, c1: string, c2: string, e1: bool, e2: bool)
    requires |a| == |b| && a != b
    ensures FileName(a, date, c1, e1) != FileName(b, date, c2, e2)
  {
    assert FileName(a, date, c1, e1)[..|a|] == a;
    assert FileName(b, date, c2, e2)[..|b|] == b;
  }

  /** What every hook command is prefixed with: three environment assignments, the last one closed by a quote. */
  function HookPrefix(destfile: string, name: string, destdir: string): string {
    "BACKMAN_TARGET_DESTFILE=\"" + destfile + "\" BACKMAN_TARGET_NAME=\"" + name
      + "\" BACKMAN_TARGET_DESTDIR=\"" + destdir + "\""
  }

  /** Every hook with the prefix in front, in order. */
  function Prefixed(prefix: string, hooks: seq<string>): (r: seq<string>)
    ensures |r| == |hooks|
  {
    if hooks == [] then [] else Prefixed(prefix, hooks[..|hooks| - 1]) + [prefix + hooks[|hooks| - 1]]
  }

  /** Each hook, in order, behind the prefix: count and order are kept. */
  lemma {:induction false} PrefixedAt(prefix: string, hooks: seq<string>)
    ensures var r := Prefixed(prefix, hooks);
            forall k :: 0 <= k < |r| ==> r[k] == prefix + hooks[k]
  {
    if hooks != [] {
      PrefixedAt(prefix, hooks[..|hooks| - 1]);
    }
  }

  /** The hook comes back from a prefixed command by dropping the prefix. */
  lemma StripPrefix(prefix: string, hook: string)
    ensures (prefix + hook)[..|prefix|] == prefix && (prefix + hook)[|prefix|..] == hook
  {
  }

  /** The hook loops of the constructor: `emplace_back` of the prefixed command, one hook at a time. */
  method PrefixHooks(prefix: string, hooks: seq<string>) returns (r: seq<string>)
    ensures r == Prefixed(prefix, hooks)
  {
    r := [];
    for i := 0 to |hooks|
      invariant r == Prefixed(prefix, hooks[..i])
    {
      assert hooks[..i + 1][..i] == hooks[..i];
      r := r + [prefix + hooks[i]];
    }
    assert hooks[..|hooks|] == hooks;
  }

  /** The `excludes` and `tar_flags` loops: each value copied in order. */
  method CopyAll(values: seq<string>) returns (r: seq<string>)
    ensures r == values
  {
    r := [];
    for i := 0 to |values|
      invariant r == values[..i]
    {
      r := r + [values[i]];
    }
  }

  // ---------------------------------------------------------------------------
  // The constructor
  // ---------------------------------------------------------------------------

  /** What the constructor sets. */
  datatype Settings = Settings(
    path: string,
    elavated: bool,
    name: string,
    destdir: string,
    compressProgram: string,
    encrypt: bool,
    oneFileSystem: bool,
    elavateProgram: string,
    excludes: seq<string>,
    tarFlags: seq<string>,
    destfile: string,
    beforeHooks: seq<string>,
    endHooks: seq<string>)

  const DefaultCompressProgram: string := "xz -9e --threads=0"
  const DefaultElavateProgram: string := "su"

  /** The values the constructor looks up first, one list per key, the last from the global section. */
  datatype Entries = Entries(
    paths: seq<string>,
    elavateds: seq<string>,
    names: seq<string>,
    dests: seq<string>,
    compressPrograms: seq<string>,
    encrypts: seq<string>,
    oneFileSystems: seq<string>,
    beforeHooks: seq<string>,
    endHooks: seq<string>,
    excludes: seq<string>,
    elavatePrograms: seq<string>,
    tarFlags: seq<string>,
    defaultDests: seq<string>)

  function EntriesOf(config: Section, global: Section): Entries {
    Entries(Lookup(config, "path"), Lookup(config, "elavated"), Lookup(config, "name"), Lookup(config, "dest"),
            Lookup(config, "compress_program"), Lookup(config, "encrypt"), Lookup(config, "one_file_system"),
            Lookup(config, "before_hook"), Lookup(config, "end_hook"), Lookup(config, "exclude"),
            Lookup(config, "elavate_program"), Lookup(config, "add_tar_flag"), Lookup(global, "default_dest"))
  }

  /**
   * `Target::Target` on the looked-up values: the keys checked in the
   * order the constructor checks them, the first problem being the error;
   * then the archive path and the hook commands, which use the final name,
   * directory, compression command and encryption flag.
   */
  function Assemble(e: Entries, cliDestdir: string, env: Env, date: string): (r: Result<Settings, ConfigError>)
    ensures r.Ok? ==> |e.paths| == 1 && |e.names| == 1 && r.value.name == e.names[0] && |r.value.beforeHooks| == |e.beforeHooks| && |r.value.endHooks| == |e.endHooks|
  {
    var path :- Required("path", e.paths);
    var elavated :- OptionalBool("elavated", e.elavateds, false);
    var name :- Required("name", e.names);
    var destdir :- DestDir(cliDestdir, e.dests, e.defaultDests, env);
    var compressProgram :- OptionalString("compress_program", e.compressPrograms, DefaultCompressProgram);
    var encrypt :- OptionalBool("encrypt", e.encrypts, elavated);
    var oneFileSystem :- OptionalBool("one_file_system", e.oneFileSystems, true);
    var elavateProgram :- OptionalString("elavate_program", e.elavatePrograms, DefaultElavateProgram);
    var destfile := JoinPath(destdir, FileName(name, date, compressProgram, encrypt));
    var prefix := HookPrefix(destfile, name, destdir);
    Ok(Settings(Expand(env, path), elavated, name, destdir, compressProgram, encrypt, oneFileSystem, elavateProgram,
                e.excludes, e.tarFlags, destfile, Prefixed(prefix, e.beforeHooks), Prefixed(prefix, e.endHooks)))
  }

  /** `Target::Target(target_config)`, with the global section of the configuration as a parameter. */
  function Configure(config: Section, global: Section, cliDestdir: string, env: Env, date: string): (r: Result<Settings, ConfigError>)
    ensures r.Ok? <==> WellFormed(EntriesOf(config, global), cliDestdir)
  {
    ConfigureOk(EntriesOf(config, global), cliDestdir, env, date);
    Assemble(EntriesOf(config, global), cliDestdir, env, date)
  }

  /** A key given at most once whose value, if given, spells `true` or `false`. */
  predicate BoolKey(vs: seq<string>) {
    |vs| <= 1 && (|vs| == 1 ==> IsCaseOf(vs[0], "true") || IsCaseOf(vs[0], "false"))
  }

  /**
   * The rules a target section must follow: `path` and `name` exactly
   * once; the booleans well spelled; every other scalar key at most once;
   * and, only when `--destdir` is not given, `dest` at most once and, when
   * `dest` is absent, the global `default_dest` at most once.
   */
  predicate WellFormed(e: Entries, cliDestdir: string) {
    && |e.paths| == 1
    && |e.names| == 1
    && BoolKey(e.elavateds)
    && BoolKey(e.encrypts)
    && BoolKey(e.oneFileSystems)
    && |e.compressPrograms| <= 1
    && |e.elavatePrograms| <= 1
    && (cliDestdir == "" ==> |e.dests| <= 1)
    && (cliDestdir == "" && e.dests == [] ==> |e.defaultDests| <= 1)
  }

  lemma OptionalBoolOk(key: string, vs: seq<string>, default: bool)
    ensures OptionalBool(key, vs, default).Ok? <==> BoolKey(vs)
  {
    if |vs| == 1 {
      ParseBoolCases(key, vs[0]);
    }
  }

  /** The constructor succeeds exactly on a well-formed section. */
  lemma ConfigureOk(e: Entries, cliDestdir: string, env: Env, date: string)
    ensures Assemble(e, cliDestdir, env, date).Ok? <==> WellFormed(e, cliDestdir)
  {
    OptionalBoolOk("elavated", e.elavateds, false);
    OptionalBoolOk("one_file_system", e.oneFileSystems, true);
    var el := OptionalBool("elavated", e.elavateds, false);
    if el.Ok? {
      OptionalBoolOk("encrypt", e.encrypts, el.value);
    }
  }

  /** A section that is not well formed names the first offending key, checked in the constructor's order. */
  lemma ConfigureFirstError(e: Entries, cliDestdir: string, env: Env, date: string)
    ensures var r := Assemble(e, cliDestdir, env, date);
            && (|e.paths| != 1 ==> r == Err(WrongCount("path", |e.paths|)))
            && (|e.paths| == 1 && |e.elavateds| > 1 ==> r == Err(WrongCount("elavated", |e.elavateds|)))
            && (|e.paths| == 1 && BoolKey(e.elavateds) && |e.names| != 1 ==> r == Err(WrongCount("name", |e.names|)))
  {
    OptionalBoolOk("elavated", e.elavateds, false);
  }

  /** Keys left out take their defaults: not elevated, `xz -9e --threads=0`, encrypted when elevated, one file system, `su`. */
  lemma ConfigureDefaults(e: Entries, cliDestdir: string, env: Env, date: string)
    ensures var r := Assemble(e, cliDestdir, env, date);
            r.Ok? ==> && (e.elavateds == [] ==> !r.value.elavated)
                      && (e.compressPrograms == [] ==> r.value.compressProgram == "xz -9e --threads=0")
                      && (e.encrypts == [] ==> r.value.encrypt == r.value.elavated)
                      && (e.oneFileSystems == [] ==> r.value.oneFileSystem)
                      && (e.elavatePrograms == [] ==> r.value.elavateProgram == "su")
  {
  }

  /** Values given once are taken as given: the path expanded, the rest verbatim. */
  lemma ConfigureValues(e: Entries, cliDestdir: string, env: Env, date: string)
    ensures var r := Assemble(e, cliDestdir, env, date);
            r.Ok? ==> && r.value.path == Expand(env, e.paths[0])
                      && r.value.name == e.names[0]
                      && (|e.compressPrograms| == 1 ==> r.value.compressProgram == e.compressPrograms[0])
                      && (|e.elavatePrograms| == 1 ==> r.value.elavateProgram == e.elavatePrograms[0])
                      && r.value.excludes == e.excludes
                      && r.value.tarFlags == e.tarFlags
  {
  }

  /** A boolean given once is true exactly when it reads `true` in any case. */
  lemma ConfigureFlags(e: Entries, cliDestdir: string, env: Env, date: string)
    ensures var r := Assemble(e, cliDestdir, env, date);
            r.Ok? ==> && (|e.elavateds| == 1 ==> (r.value.elavated <==> IsCaseOf(e.elavateds[0], "true")))
                      && (|e.encrypts| == 1 ==> (r.value.encrypt <==> IsCaseOf(e.encrypts[0], "true")))
                      && (|e.oneFileSystems| == 1 ==> (r.value.oneFileSystem <==> IsCaseOf(e.oneFileSystems[0], "true")))
  {
    if |e.encrypts| == 1 {
      ParseBoolCases("encrypt", e.encrypts[0]);
    }
    if |e.elavateds| == 1 {
      ParseBoolCases("elavated", e.elavateds[0]);
    }
    if |e.oneFileSystems| == 1 {
      ParseBoolCases("one_file_system", e.oneFileSystems[0]);
    }
  }

  /**
   * The destination directory: `--destdir` wins and is used verbatim;
   * otherwise the target's `dest`, then the global `default_dest`, then
   * `$HOME/Backups`, expanded.
   */
  lemma DestDirPrecedence(e: Entries, cliDestdir: string, env: Env, date: string)
    ensures var r := Assemble(e, cliDestdir, env, date);
            r.Ok? ==> r.value.destdir == (if cliDestdir != "" then cliDestdir
                                          else if e.dests != [] then Expand(env, e.dests[0])
                                          else if e.defaultDests != [] then Expand(env, e.defaultDests[0])
                                          else Expand(env, "$HOME/Backups"))
  {
  }

  /** With `--destdir` given, neither `dest` nor `default_dest` is looked at, however often they appear. */
  lemma OverrideSkipsDestChecks(cliDestdir: string, dests: seq<string>, defaultDests: seq<string>, env: Env)
    requires cliDestdir != ""
    ensures DestDir(cliDestdir, dests, defaultDests, env) == Ok(cliDestdir)
  {
  }

  /**
   * The archive path is the directory joined with the file name built from
   * the final settings, and every hook command is that hook behind the
   * prefix naming the archive, the target and the directory.
   */
  lemma ConfigureArchive(e: Entries, cliDestdir: string, env: Env, date: string)
    ensures var r := Assemble(e, cliDestdir, env, date);
            r.Ok? ==> var s := r.value;
                      var prefix := HookPrefix(s.destfile, s.name, s.destdir);
                      && s.destfile == JoinPath(s.destdir, FileName(s.name, date, s.compressProgram, s.encrypt))
                      && |s.beforeHooks| == |e.beforeHooks| && |s.endHooks| == |e.endHooks|
                      && (forall k :: 0 <= k < |s.beforeHooks| ==> s.beforeHooks[k] == prefix + e.beforeHooks[k])
                      && (forall k :: 0 <= k < |s.endHooks| ==> s.endHooks[k] == prefix + e.endHooks[k])
  {
    var r := Assemble(e, cliDestdir, env, date);
    if r.Ok? {
      var s := r.value;
      var prefix := HookPrefix(s.destfile, s.name, s.destdir);
      PrefixedAt(prefix, e.beforeHooks);
      PrefixedAt(prefix, e.endHooks);
    }
  }

  // ---------------------------------------------------------------------------
  // Command lines
  // ---------------------------------------------------------------------------

  /** `--exclude="<pattern>"`, quotes included. */
  function ExcludeArg(pattern: string): string {
    "--exclude=\"" + pattern + "\""
  }

  /** The pattern back from an `--exclude` argument. */
  function ExcludePattern(arg: string): string
    requires |arg| >= 12
  {
    arg[11..|arg| - 1]
  }

  lemma ExcludeRoundTrip(pattern: string)
    ensures ExcludePattern(ExcludeArg(pattern)) == pattern
  {
  }

  function ExcludeArgs(excludes: seq<string>): (r: seq<string>)
    ensures |r| == |excludes|
  {
    if excludes == [] then [] else ExcludeArgs(excludes[..|excludes| - 1]) + [ExcludeArg(excludes[|excludes| - 1])]
  }

  lemma {:induction false} ExcludeArgsAt(excludes: seq<string>)
    ensures forall k :: 0 <= k < |excludes| ==> ExcludeArgs(excludes)[k] == ExcludeArg(excludes[k])
  {
    if excludes != [] {
      ExcludeArgsAt(excludes[..|excludes| - 1]);
    }
  }

  /** Everything up to and including the compression command. */
  function TarHead(s: Settings): seq<string> {
    (if s.elavated then [s.elavateProgram, "--"] else []) + ["tar"]
      + (if s.oneFileSystem then ["--one-file-system"] else [])
      + ["-cp", "--xattrs", "--acls", "-I", s.compressProgram]
  }

  /** Where `tar` sits: after the elevation program and `--` when elevating. */
  function TarIndex(s: Settings): nat {
    if s.elavated then 2 else 0
  }

  /** Where the compression command sits. */
  function CompressIndex(s: Settings): nat {
    TarIndex(s) + (if s.oneFileSystem then 6 else 5)
  }

  /** The head: the elevation prefix exactly when elevating, `tar`, `--one-file-system` exactly when set, `-I` and the compression command last. */
  lemma TarHeadLayout(s: Settings)
    ensures var h := TarHead(s);
            var c := CompressIndex(s);
            && |h| == c + 1
            && (s.elavated ==> h[0] == s.elavateProgram && h[1] == "--")
            && h[TarIndex(s)] == "tar"
            && (h[TarIndex(s) + 1] == "--one-file-system" <==> s.oneFileSystem)
            && h[c - 1] == "-I" && h[c] == s.compressProgram
  {
    var h := TarHead(s);
    if !s.oneFileSystem {
      assert h[TarIndex(s) + 1] == "-cp";
      assert "-cp"[1] != "--one-file-system"[1];
    }
  }

  /** The `tar` command line is the head followed by the part after the compression command. */
  function TarTail(s: Settings): seq<string> {
    ExcludeArgs(s.excludes) + s.tarFlags + [s.path] + (if s.encrypt then [] else ["-f", s.destfile])
  }

  /**
   * After the compression command: one quoted `--exclude` per pattern in
   * order, the extra flags in order, the path, and `-f` with the archive
   * path exactly when not encrypting.
   */
  lemma TarTailLayout(s: Settings)
    ensures var t := TarTail(s);
            var p := |s.excludes| + |s.tarFlags|;
            && |t| == p + 1 + (if s.encrypt then 0 else 2)
            && (forall k :: 0 <= k < |s.excludes| ==> t[k] == ExcludeArg(s.excludes[k]))
            && t[|s.excludes|..p] == s.tarFlags
            && t[p] == s.path
            && (!s.encrypt ==> t[p + 1] == "-f" && t[p + 2] == s.destfile)
  {
    ExcludeArgsAt(s.excludes);
    var x := ExcludeArgs(s.excludes);
    var t := TarTail(s);
    assert t == x + (s.tarFlags + [s.path] + (if s.encrypt then [] else ["-f", s.destfile]));
  }

  /**
   * The `tar` command line: the head, then the tail, so that by position
   * the head is as `TarHeadLayout` states, the tail as `TarTailLayout`
   * states, and the path comes after every pattern and flag. Without
   * encryption `tar` writes the archive itself.
   */
  function TarArgv(s: Settings): (r: seq<string>)
    ensures var c := CompressIndex(s);
            var p := c + 1 + |s.excludes| + |s.tarFlags|;
            && |r| == p + 1 + (if s.encrypt then 0 else 2)
            && r[TarIndex(s)] == "tar"
            && r[c] == s.compressProgram
            && (forall k :: 0 <= k < |s.excludes| ==> r[c + 1 + k] == ExcludeArg(s.excludes[k]))
            && r[p] == s.path
            && (!s.encrypt ==> r[p + 1] == "-f" && r[p + 2] == s.destfile)
  {
    TarHeadLayout(s);
    TarTailLayout(s);
    var h := TarHead(s);
    var t := TarTail(s);
    assert forall k :: 0 <= k < |s.excludes| ==> (h + t)[CompressIndex(s) + 1 + k] == t[k];
    h + t
  }

  /** The `tar` command-line loops of `run_main`, one `push_back` at a time. */
  method BuildTarArgv(s: Settings) returns (argv: seq<string>)
    ensures argv == TarArgv(s)
  {
    argv := [];
    if s.elavated {
      argv := argv + [s.elavateProgram, "--"];
    }
    argv := argv + ["tar"];
    if s.oneFileSystem {
      argv := argv + ["--one-file-system"];
    }
    argv := argv + ["-cp", "--xattrs", "--acls", "-I"];
    argv := argv + [s.compressProgram];
    assert argv == TarHead(s);
    argv := PushTail(s, argv);
  }

  /** The pushes after the compression command: the patterns, the extra flags, the path and, unencrypted, `-f` and the archive. */
  method PushTail(s: Settings, head: seq<string>) returns (argv: seq<string>)
    ensures argv == head + TarTail(s)
  {
    argv := head;
    for i := 0 to |s.excludes|
      invariant argv == head + ExcludeArgs(s.excludes[..i])
    {
      assert s.excludes[..i + 1][..i] == s.excludes[..i];
      argv := argv + [ExcludeArg(s.excludes[i])];
    }
    assert s.excludes[..|s.excludes|] == s.excludes;
    ghost var patterns := argv;
    for i := 0 to |s.tarFlags|
      invariant argv == patterns + s.tarFlags[..i]
    {
      argv := argv + [s.tarFlags[i]];
    }
    assert s.tarFlags[..|s.tarFlags|] == s.tarFlags;
    argv := argv + [s.path];
    if !s.encrypt {
      argv := argv + ["-f", s.destfile];
    }
  }

  /** The index of the `--passphrase-fd` argument, which the `gpg` child replaces by its pipe's descriptor. */
  const PassphraseFdIndex: nat := 6

  /** The `gpg` command line, with `0` in the descriptor slot. */
  function GpgArgv(destfile: string): (r: seq<string>)
    ensures |r| == 12 && r[PassphraseFdIndex - 1] == "--passphrase-fd" && r[PassphraseFdIndex] == "0"
    ensures r[..PassphraseFdIndex - 1] == ["gpg", "--batch", "--yes", "--pinentry-mode", "loopback"]
    ensures r[PassphraseFdIndex + 1..] == ["--symmetric", "--cipher-algo", "AES256", "-o", destfile]
  {
    ["gpg", "--batch", "--yes", "--pinentry-mode", "loopback", "--passphrase-fd", "0",
     "--symmetric", "--cipher-algo", "AES256", "-o", destfile]
  }

  // ---------------------------------------------------------------------------
  // `run_main`
  // ---------------------------------------------------------------------------

  /** Why `run_main` calls `std::exit(1)`. */
  datatype RunError = NoPassphrase | CannotCreateDir | CannotFork

  /** What `run_main` starts: `tar` alone, or `tar` piped into `gpg` with the bytes written to `gpg`'s passphrase pipe. */
  datatype Launch = Plain(tar: seq<string>) | Piped(tar: seq<string>, gpg: seq<string>, payload: string)

  /** A target's settings and the fields `run_main` and `set_passphrase` change. */
  datatype TargetState = TargetState(settings: Settings, passphrase: string, children: seq<int>)

  /**
   * `run_main`: encrypting without a passphrase is fatal before anything
   * else; as root the elevation prefix is dropped; the command lines are
   * built; the destination directory is created; then `tar` is started,
   * and when encrypting `gpg` too, whose passphrase pipe receives the
   * passphrase followed by a newline. A started process's id is recorded
   * in `children`.
   */
  function RunMainSpec(t: TargetState, isRoot: bool, mkdirOk: bool, tarFork: ForkResult, gpgFork: ForkResult): (r: (Result<Launch, RunError>, TargetState))
    ensures r.0.Ok? <==> !(t.settings.encrypt && t.passphrase == "") && mkdirOk && tarFork.Forked? &&
                         (t.settings.encrypt ==> gpgFork.Forked?)
    ensures t.settings.encrypt && t.passphrase == "" ==> r == (Err(NoPassphrase), t)
  {
    if t.settings.encrypt && t.passphrase == "" then (Err(NoPassphrase), t)
    else
      var s := t.settings.(elavated := t.settings.elavated && !isRoot);
      var t1 := t.(settings := s);
      if !mkdirOk then (Err(CannotCreateDir), t1)
      else Forks(t1, TarArgv(s), GpgArgv(s.destfile), tarFork, gpgFork)
  }

  /**
   * The part of `run_main` that starts the processes, once the command
   * lines are built and the directory exists: `tar`, then, when
   * encrypting, `gpg` with the passphrase and a newline as its payload.
   */
  function Forks(t: TargetState, tar: seq<string>, gpg: seq<string>, tarFork: ForkResult, gpgFork: ForkResult): (Result<Launch, RunError>, TargetState) {
    match tarFork
    case ForkFailed => (Err(CannotFork), t)
    case Forked(tarPid) =>
      var t2 := t.(children := t.children + [tarPid]);
      if !t.settings.encrypt then (Ok(Plain(tar)), t2)
      else match gpgFork
        case ForkFailed => (Err(CannotFork), t2)
        case Forked(gpgPid) =>
          var payload := t2.passphrase + "\n";
          (Ok(Piped(tar, gpg, payload)), t2.(children := t2.children + [gpgPid], passphrase := payload))
  }

  /**
   * An encrypting run pipes `tar` into `gpg` and writes exactly the
   * passphrase and a newline, which is also what the target's passphrase
   * becomes; a plain run writes nothing and keeps the passphrase.
   */
  lemma PassphrasePayload(t: TargetState, isRoot: bool, mkdirOk: bool, tarFork: ForkResult, gpgFork: ForkResult)
    ensures var (r, t') := RunMainSpec(t, isRoot, mkdirOk, tarFork, gpgFork);
            r.Ok? ==> && (r.value.Piped? <==> t.settings.encrypt)
                      && (r.value.Piped? ==> r.value.payload == t.passphrase + "\n" && t.passphrase != ""
                                             && t'.passphrase == r.value.payload
                                             && r.value.gpg[|r.value.gpg| - 1] == t.settings.destfile)
                      && (r.value.Plain? ==> t'.passphrase == t.passphrase)
  {
  }

  /** Run as root, `tar` is started directly and the target stops elevating; otherwise elevation is as configured. */
  lemma RootRunsTarDirectly(t: TargetState, isRoot: bool, mkdirOk: bool, tarFork: ForkResult, gpgFork: ForkResult)
    ensures var (r, t') := RunMainSpec(t, isRoot, mkdirOk, tarFork, gpgFork);
            r.Ok? ==> && (t'.settings.elavated <==> t.settings.elavated && !isRoot)
                      && (r.value.tar[0] == "tar" <==> !t'.settings.elavated || t.settings.elavateProgram == "tar")
  {
  }

  /** The started processes' ids are appended to `children`: `tar`'s, then `gpg`'s. */
  lemma ChildrenRecorded(t: TargetState, isRoot: bool, mkdirOk: bool, tarFork: ForkResult, gpgFork: ForkResult)
    ensures var (r, t') := RunMainSpec(t, isRoot, mkdirOk, tarFork, gpgFork);
            r.Ok? ==> t'.children == t.children + [tarFork.pid] + (if t.settings.encrypt then [gpgFork.pid] else [])
  {
  }

  // ---------------------------------------------------------------------------
  // The `Target` object
  // ---------------------------------------------------------------------------

  class Target {
    const path: string
    var elavated: bool
    const name: string
    const destdir: string
    const compressProgram: string
    const encrypt: bool
    const oneFileSystem: bool
    var passphrase: string
    const beforeHooks: seq<string>
    const endHooks: seq<string>
    const excludes: seq<string>
    var children: seq<int>
    const elavateProgram: string
    const tarFlags: seq<string>
    const destfile: string

    function Config(): Settings
      reads this
    {
      Settings(path, elavated, name, destdir, compressProgram, encrypt, oneFileSystem, elavateProgram,
               excludes, tarFlags, destfile, beforeHooks, endHooks)
    }

    function State(): TargetState
      reads this
    {
      TargetState(Config(), passphrase, children)
    }

    /** The fields once the checks have passed; the passphrase starts empty. */
    constructor(s: Settings)
      ensures State() == TargetState(s, "", [])
    {
      path := s.path;
      elavated := s.elavated;
      name := s.name;
      destdir := s.destdir;
      compressProgram := s.compressProgram;
      encrypt := s.encrypt;
      oneFileSystem := s.oneFileSystem;
      passphrase := "";
      beforeHooks := s.beforeHooks;
      endHooks := s.endHooks;
      excludes := s.excludes;
      children := [];
      elavateProgram := s.elavateProgram;
      tarFlags := s.tarFlags;
      destfile := s.destfile;
    }

    /** The implicit copy constructor: the same fields, which the copy then changes on its own. */
    constructor Copy(other: Target)
      ensures State() == other.State()
    {
      path := other.path;
      elavated := other.elavated;
      name := other.name;
      destdir := other.destdir;
      compressProgram := other.compressProgram;
      encrypt := other.encrypt;
      oneFileSystem := other.oneFileSystem;
      passphrase := other.passphrase;
      beforeHooks := other.beforeHooks;
      endHooks := other.endHooks;
      excludes := other.excludes;
      children := other.children;
      elavateProgram := other.elavateProgram;
      tarFlags := other.tarFlags;
      destfile := other.destfile;
    }

    /** `set_passphrase`, with the confirmed entry as a parameter: only an encrypting target keeps it. */
    method SetPassphrase(entered: string)
      modifies this
      ensures State() == old(State()).(passphrase := if encrypt then entered else old(passphrase))
    {
      if encrypt {
        passphrase := entered;
      }
    }

    /** `run_main`, with root, directory creation and `fork` outcomes as parameters. */
    method RunMain(isRoot: bool, mkdirOk: bool, tarFork: ForkResult, gpgFork: ForkResult) returns (r: Result<Launch, RunError>)
      modifies this
      ensures (r, State()) == RunMainSpec(old(State()), isRoot, mkdirOk, tarFork, gpgFork)
    {
      if encrypt && passphrase == "" {
        return Err(NoPassphrase);
      }
      if isRoot {
        elavated := false;
      }
      var tar := BuildTarArgv(Config());
      var gpg := GpgArgv(destfile);
      if !mkdirOk {
        return Err(CannotCreateDir);
      }
      r := StartProcesses(tar, gpg, tarFork, gpgFork);
    }

    /** The `fork` branches of `run_main`: `tar`, then `gpg` when encrypting, each id recorded in `children`. */
    method StartProcesses(tar: seq<string>, gpg: seq<string>, tarFork: ForkResult, gpgFork: ForkResult) returns (r: Result<Launch, RunError>)
      modifies this
      ensures (r, State()) == Forks(old(State()), tar, gpg, tarFork, gpgFork)
    {
      if encrypt {
        if tarFork.Forked? {
          children := children + [tarFork.pid];
        }
        if tarFork.ForkFailed? {
          return Err(CannotFork);
        }
        if gpgFork.Forked? {
          children := children + [gpgFork.pid];
          passphrase := passphrase + "\n";
        }
        if gpgFork.ForkFailed? {
          return Err(CannotFork);
        }
        r := Ok(Piped(tar, gpg, passphrase));
      } else {
        if tarFork.Forked? {
          children := children + [tarFork.pid];
        }
        if tarFork.ForkFailed? {
          return Err(CannotFork);
        }
        r := Ok(Plain(tar));
      }
    }
  }

  /** `Target::Target`: the lookups, the checks in order, then the fields, with the copying and prefixing loops. */
  method NewTarget(config: Section, global: Section, cliDestdir: string, env: Env, date: string)
    returns (r: Result<Target, ConfigError>)
    ensures var spec := Configure(config, global, cliDestdir, env, date);
            && (r.Err? <==> spec.Err?)
            && (r.Err? ==> r.error == spec.error)
            && (r.Ok? ==> fresh(r.value) && r.value.State() == TargetState(spec.value, "", []))
  {
    var e := EntriesOf(config, global);
    r := Build(e, cliDestdir, env, date);
  }

  /** The constructor's body once every key has been looked up. */
  method Build(e: Entries, cliDestdir: string, env: Env, date: string) returns (r: Result<Target, ConfigError>)
    ensures var spec := Assemble(e, cliDestdir, env, date);
            && (r.Err? <==> spec.Err?)
            && (r.Err? ==> r.error == spec.error)
            && (r.Ok? ==> fresh(r.value) && r.value.State() == TargetState(spec.value, "", []))
  {
    var path :- Required("path", e.paths);
    path := ResolvePathWithEnvironment(env, path);
    var elavated :- OptionalBool("elavated", e.elavateds, false);
    var name :- Required("name", e.names);
    var destdir :- ReadDestDir(cliDestdir, e.dests, e.defaultDests, env);
    var compressProgram :- OptionalString("compress_program", e.compressPrograms, DefaultCompressProgram);
    var encrypt :- OptionalBool("encrypt", e.encrypts, elavated);
    var oneFileSystem :- OptionalBool("one_file_system", e.oneFileSystems, true);
    var elavateProgram :- OptionalString("elavate_program", e.elavatePrograms, DefaultElavateProgram);
    var excludes := CopyAll(e.excludes);
    var tarFlags := CopyAll(e.tarFlags);
    var destfile := JoinPath(destdir, FileName(name, date, compressProgram, encrypt));
    var prefix := HookPrefix(destfile, name, destdir);
    var beforeHooks := PrefixHooks(prefix, e.beforeHooks);
    var endHooks := PrefixHooks(prefix, e.endHooks);
    var t := new Target(Settings(path, elavated, name, destdir, compressProgram, encrypt, oneFileSystem, elavateProgram,
                                 excludes, tarFlags, destfile, beforeHooks, endHooks));
    r := Ok(t);
  }

  /** The destination-directory branch of the constructor. */
  method ReadDestDir(cliDestdir: string, dests: seq<string>, defaultDests: seq<string>, env: Env)
    returns (r: Result<string, ConfigError>)
    ensures r == DestDir(cliDestdir, dests, defaultDests, env)
  {
    if cliDestdir != "" {
      return Ok(cliDestdir);
    }
    if |dests| > 1 {
      return Err(WrongCount("dest", |dests|));
    }
    if |dests| == 1 {
      var d := ResolvePathWithEnvironment(env, dests[0]);
      return Ok(d);
    }
    if |defaultDests| == 1 {
      var d := ResolvePathWithEnvironment(env, defaultDests[0]);
      return Ok(d);
    }
    if |defaultDests| > 1 {
      return Err(WrongCount("default_dest", |defaultDests|));
    }
    var d := ResolvePathWithEnvironment(env, "$HOME/Backups");
    r := Ok(d);
  }
}
