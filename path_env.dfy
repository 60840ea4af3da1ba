/**
 * `resolve_path_with_environment`: one left-to-right pass over a path that
 * replaces `${NAME}` and `$NAME` by the value of the environment variable
 * NAME. The process environment is the parameter `env`; a name that is not
 * a key of `env` is one for which `getenv` returns null. The empty name is
 * never a key, as `getenv("")` is null, so `${}` always stays as written.
 */
module PathEnv {
  import opened Wrappers
  import opened StdString

  /** An environment: no variable has the empty name. */
  type Env = env: map<string, string> | "" !in env

  /** `isalnum` on an unsigned char in the C locale, or `_`. */
  predicate IsVarChar(c: char) {
    ('a' <= c <= 'z') || ('A' <= c <= 'Z') || ('0' <= c <= '9') || c == '_'
  }

  predicate AllVarChars(s: string) {
    forall k :: 0 <= k < |s| ==> IsVarChar(s[k])
  }

  /** The end of the run of variable-name characters that starts at `j`: the run is maximal. */
  function VarRunEnd(s: string, j: nat): (e: nat)
    requires j <= |s|
    decreases |s| - j
    ensures j <= e <= |s|
    ensures forall k :: j <= k < e ==> IsVarChar(s[k])
    ensures e < |s| ==> !IsVarChar(s[e])
  {
    if j < |s| && IsVarChar(s[j]) then VarRunEnd(s, j + 1) else j
  }

  /** What a `${name}` reference turns into: the value, or the reference itself. */
  function Braced(env: Env, name: string): string {
    if name in env then env[name] else "${" + name + "}"
  }

  /** What a `$name` reference turns into: the value, or the reference itself. */
  function Bare(env: Env, name: string): string {
    if name in env then env[name] else "$" + name
  }

  /**
   * One turn of the expansion loop at index `i < |s|`: the index the loop
   * goes on from and the text it appends. A `$` starts a reference: `${` up
   * to the next `}` is a braced name (with no `}` the `$` is kept and
   * scanning resumes at the `{`), otherwise the run of name characters after
   * `$` is a bare name (an empty run keeps the `$`).
   */
  function Step(env: Env, s: string, i: nat): (r: (nat, string))
    requires i < |s|
    ensures i < r.0 <= |s|
  {
    if s[i] != '$' then (i + 1, [s[i]])
    else if i + 1 < |s| && s[i + 1] == '{' then
      match Find(s, '}', i + 2)
      case None => (i + 1, "$")
      case Some(e) => (e + 1, Braced(env, s[i + 2..e]))
    else
      var j := VarRunEnd(s, i + 1);
      if j == i + 1 then (i + 1, "$")
      else (j, Bare(env, s[i + 1..j]))
  }

  /** The expansion loop from index `i`, with `acc` the text produced so far. Substituted values are not scanned again. */
  function ExpandFrom(env: Env, s: string, i: nat, acc: string): string
    requires i <= |s|
    decreases |s| - i
  {
    if i == |s| then acc
    else
      var (n, out) := Step(env, s, i);
      ExpandFrom(env, s, n, acc + out)
  }

  /** The expansion of a whole path; a path naming no variable the environment defines comes back unchanged. */
  function Expand(env: Env, path: string): (r: string)
    ensures LookedUp(path, 0) !! env.Keys ==> r == path
  {
    ExpandUnbound(env, path);
    ExpandFrom(env, path, 0, [])
  }

  /** The source's `resolve_path_with_environment`; the `std::filesystem::path` it returns is its string. */
  method ResolvePathWithEnvironment(env: Env, path: string) returns (r: string)
    ensures r == Expand(env, path)
  {
    var result := "";
    var i := 0;
    while i < |path|
      invariant 0 <= i <= |path|
      invariant ExpandFrom(env, path, i, result) == Expand(env, path)
    {
      var next, out := ExpandAt(env, path, i);
      result := result + out;
      i := next;
    }
    r := result;
  }

  /**
   * The body of the loop at index `i`: the text it appends to the result
   * and the index it continues from (`i = end` or `i = j - 1`, then `++i`).
   */
  method ExpandAt(env: Env, path: string, i: nat) returns (next: nat, out: string)
    requires i < |path|
    ensures (next, out) == Step(env, path, i)
  {
    if path[i] != '$' {
      return i + 1, [path[i]];
    }
    if i + 1 < |path| && path[i + 1] == '{' {
      var end := Find(path, '}', i + 2);
      if end.None? {
        return i + 1, "$";
      }
      var name := path[i + 2..end.value];
      if name in env {
        out := env[name];
      } else {
        out := "${" + name + "}";
      }
      return end.value + 1, out;
    }
    var start := i + 1;
    var j := ScanName(path, start);
    if j == start {
      return i + 1, "$";
    }
    var name := path[start..j];
    if name in env {
      out := env[name];
    } else {
      out := "$" + name;
    }
    next := j;
  }

  /** The inner loop for a bare name: skip name characters from `start`. */
  method ScanName(path: string, start: nat) returns (j: nat)
    requires start <= |path|
    ensures j == VarRunEnd(path, start)
  {
    j := start;
    while j < |path| && IsVarChar(path[j])
      invariant start <= j <= |path|
      invariant VarRunEnd(path, j) == VarRunEnd(path, start)
    {
      j := j + 1;
    }
  }

  // ---------------------------------------------------------------------------
  // Properties
  // ---------------------------------------------------------------------------

  /** The text produced so far is never revisited: it stays a prefix of the result. */
  lemma {:induction false} ExpandKeepsAcc(env: Env, s: string, i: nat, acc: string)
    requires i <= |s|
    ensures ExpandFrom(env, s, i, acc) == acc + ExpandFrom(env, s, i, [])
    decreases |s| - i
  {
    if i < |s| {
      var (n, out) := Step(env, s, i);
      ExpandKeepsAcc(env, s, n, acc + out);
      ExpandKeepsAcc(env, s, n, out);
      assert [] + out == out;
      assert acc + out + ExpandFrom(env, s, n, []) == acc + (out + ExpandFrom(env, s, n, []));
    }
  }

  /** The name the turn of the loop at `i` looks up, if it looks one up. */
  function LookupAt(s: string, i: nat): Option<string>
    requires i < |s|
  {
    if s[i] != '$' then None
    else if i + 1 < |s| && s[i + 1] == '{' then
      match Find(s, '}', i + 2)
      case None => None
      case Some(e) => Some(s[i + 2..e])
    else
      var j := VarRunEnd(s, i + 1);
      if j == i + 1 then None else Some(s[i + 1..j])
  }

  /**
   * The names the loop looks up from index `i` on. Where a turn goes on
   * from does not depend on the environment, so the empty one is used.
   */
  function LookedUp(s: string, i: nat): set<string>
    requires i <= |s|
    decreases |s| - i
  {
    if i == |s| then {}
    else
      var rest := LookedUp(s, Step(map[], s, i).0);
      match LookupAt(s, i)
      case None => rest
      case Some(name) => {name} + rest
  }

  /** A turn whose name, if any, has no value takes the same step as with no environment at all. */
  lemma StepUnbound(env: Env, s: string, i: nat)
    requires i < |s|
    requires LookupAt(s, i).Some? ==> LookupAt(s, i).value !in env
    ensures Step(env, s, i) == Step(map[], s, i)
  {
  }

  /** With no environment, one turn of the loop copies the text it consumes. */
  lemma StepEmptyEnv(s: string, i: nat)
    requires i < |s|
    ensures Step(map[], s, i).1 == s[i..Step(map[], s, i).0]
  {
    if s[i] == '$' && i + 1 < |s| && s[i + 1] == '{' {
      match Find(s, '}', i + 2)
      case None =>
      case Some(e) =>
        assert s[i..e + 1] == "${" + s[i + 2..e] + "}";
    } else if s[i] == '$' {
      var j := VarRunEnd(s, i + 1);
      assert s[i..j] == "$" + s[i + 1..j];
    }
  }

  /** When the environment gives none of the names the loop looks up a value, every reference is kept as written. */
  lemma {:induction false} UnboundKeeps(env: Env, s: string, i: nat, acc: string)
    requires i <= |s|
    requires LookedUp(s, i) !! env.Keys
    ensures ExpandFrom(env, s, i, acc) == acc + s[i..]
    decreases |s| - i
  {
    if i < |s| {
      StepUnbound(env, s, i);
      var (n, out) := Step(map[], s, i);
      StepEmptyEnv(s, i);
      UnboundKeeps(env, s, n, acc + out);
      assert s[i..] == s[i..n] + s[n..];
    }
  }

  /** A path is returned unchanged by every environment that has none of the names it refers to. */
  lemma ExpandUnbound(env: Env, path: string)
    ensures LookedUp(path, 0) !! env.Keys ==> ExpandFrom(env, path, 0, []) == path
  {
    if LookedUp(path, 0) !! env.Keys {
      UnboundKeeps(env, path, 0, []);
    }
  }

  /** In particular, with an empty environment every path is returned unchanged. */
  lemma ExpandEmptyEnv(path: string)
    ensures Expand(map[], path) == path
  {
  }

  /** A path without `$` is returned unchanged, whatever the environment. */
  lemma {:induction false} LiteralKeeps(env: Env, s: string, i: nat, acc: string)
    requires i <= |s|
    requires forall k :: i <= k < |s| ==> s[k] != '$'
    ensures ExpandFrom(env, s, i, acc) == acc + s[i..]
    decreases |s| - i
  {
    if i < |s| {
      LiteralKeeps(env, s, i + 1, acc + [s[i]]);
      assert s[i..] == [s[i]] + s[i + 1..];
    }
  }

  lemma ExpandLiteral(env: Env, path: string)
    requires '$' !in path
    ensures Expand(env, path) == path
  {
    LiteralKeeps(env, path, 0, []);
  }

  /** Expanding from inside a longer string sees only what follows: the prefix does not matter. */
  lemma {:induction false} ExpandShift(env: Env, p: string, t: string, k: nat, acc: string)
    requires k <= |t|
    ensures ExpandFrom(env, p + t, |p| + k, acc) == ExpandFrom(env, t, k, acc)
    decreases |t| - k
  {
    if k < |t| {
      StepShift(env, p, t, k);
      var (n, out) := Step(env, t, k);
      ExpandShift(env, p, t, n, acc + out);
    }
  }

  /** One turn of the loop inside `p + t` at `|p| + k` is the turn inside `t` at `k`, shifted. */
  lemma StepShift(env: Env, p: string, t: string, k: nat)
    requires k < |t|
    ensures Step(env, p + t, |p| + k) == (|p| + Step(env, t, k).0, Step(env, t, k).1)
  {
    assert (p + t)[|p| + k] == t[k];
    if t[k] == '$' {
      if k + 1 < |t| && t[k + 1] == '{' {
        StepShiftBraced(env, p, t, k);
      } else {
        StepShiftBare(env, p, t, k);
      }
    }
  }

  lemma StepShiftBraced(env: Env, p: string, t: string, k: nat)
    requires k + 1 < |t| && t[k] == '$' && t[k + 1] == '{'
    ensures Step(env, p + t, |p| + k) == (|p| + Step(env, t, k).0, Step(env, t, k).1)
  {
    var s := p + t;
    var i := |p| + k;
    assert s[i] == '$' && s[i + 1] == '{';
    ShiftFind(p, t, k + 2);
    match Find(t, '}', k + 2)
    case None =>
    case Some(e) =>
      assert s[i + 2..|p| + e] == t[k + 2..e];
  }

  lemma StepShiftBare(env: Env, p: string, t: string, k: nat)
    requires k < |t| && t[k] == '$' && !(k + 1 < |t| && t[k + 1] == '{')
    ensures Step(env, p + t, |p| + k) == (|p| + Step(env, t, k).0, Step(env, t, k).1)
  {
    var s := p + t;
    var i := |p| + k;
    assert s[i] == '$';
    assert !(i + 1 < |s| && s[i + 1] == '{') by {
      if i + 1 < |s| {
        assert s[i + 1] == t[k + 1];
      }
    }
    ShiftVarRun(p, t, k + 1);
    var j := VarRunEnd(t, k + 1);
    assert s[i + 1..|p| + j] == t[k + 1..j];
  }

  lemma ShiftFind(p: string, t: string, k: nat)
    requires k <= |t|
    ensures Find(p + t, '}', |p| + k) == (match Find(t, '}', k)
                                         case None => None
                                         case Some(e) => Some(|p| + e))
  {
    FindInSuffix(p + t, '}', |p|, k);
    assert (p + t)[|p|..] == t;
  }

  lemma {:induction false} ShiftVarRun(p: string, t: string, k: nat)
    requires k <= |t|
    ensures VarRunEnd(p + t, |p| + k) == |p| + VarRunEnd(t, k)
    decreases |t| - k
  {
    if k < |t| {
      assert (p + t)[|p| + k] == t[k];
      ShiftVarRun(p, t, k + 1);
    }
  }

  /** Expansion of a concatenation continues with the second part exactly where the first part's references have been consumed. */
  lemma ExpandAfter(env: Env, p: string, t: string, acc: string)
    ensures ExpandFrom(env, p + t, |p|, acc) == acc + Expand(env, t)
  {
    ExpandShift(env, p, t, 0, acc);
    ExpandKeepsAcc(env, t, 0, acc);
  }

  /** Text without `$` in front of a path passes through untouched. */
  lemma ExpandLiteralPrefix(env: Env, p: string, t: string)
    requires '$' !in p
    ensures Expand(env, p + t) == p + Expand(env, t)
  {
    LiteralPrefix(env, p, t, 0, []);
    assert [] + p[0..] == p;
    ExpandAfter(env, p, t, p);
  }

  lemma {:induction false} LiteralPrefix(env: Env, p: string, t: string, i: nat, acc: string)
    requires i <= |p|
    requires '$' !in p
    ensures ExpandFrom(env, p + t, i, acc) == ExpandFrom(env, p + t, |p|, acc + p[i..])
    decreases |p| - i
  {
    if i < |p| {
      assert (p + t)[i] == p[i];
      assert Step(env, p + t, i) == (i + 1, [p[i]]);
      LiteralPrefix(env, p, t, i + 1, acc + [p[i]]);
      assert acc + [p[i]] + p[i + 1..] == acc + p[i..];
    } else {
      assert acc + p[i..] == acc;
    }
  }

  /** `${name}` is replaced by the variable's value (or kept), and expansion goes on after the `}`. */
  lemma ExpandBraced(env: Env, name: string, t: string)
    requires '}' !in name
    ensures Expand(env, "${" + name + "}" + t) == Braced(env, name) + Expand(env, t)
  {
    var p := "${" + name + "}";
    BracedStep(env, name, t);
    assert [] + Braced(env, name) == Braced(env, name);
    ExpandAfter(env, p, t, Braced(env, name));
  }

  lemma BracedStep(env: Env, name: string, t: string)
    requires '}' !in name
    ensures Step(env, "${" + name + "}" + t, 0) == (|name| + 3, Braced(env, name))
  {
    var p := "${" + name + "}";
    var s := p + t;
    assert s[0] == '$' && s[1] == '{';
    assert forall k :: 2 <= k < |name| + 2 ==> s[k] == name[k - 2];
    assert s[|name| + 2] == '}';
    FindSkips(s, '}', 2, |name| + 2);
    assert s[2..|name| + 2] == name;
  }

  /**
   * `$name` is replaced by the variable's value (or kept) when the name is
   * the whole run of name characters after `$`; expansion goes on after it.
   */
  lemma ExpandBare(env: Env, name: string, t: string)
    requires name != [] && AllVarChars(name)
    requires t == [] || !IsVarChar(t[0])
    ensures Expand(env, "$" + name + t) == Bare(env, name) + Expand(env, t)
  {
    var p := "$" + name;
    BareStep(env, name, t);
    assert [] + Bare(env, name) == Bare(env, name);
    ExpandAfter(env, p, t, Bare(env, name));
  }

  lemma BareStep(env: Env, name: string, t: string)
    requires name != [] && AllVarChars(name)
    requires t == [] || !IsVarChar(t[0])
    ensures Step(env, "$" + name + t, 0) == (|name| + 1, Bare(env, name))
  {
    var p := "$" + name;
    var s := p + t;
    assert s[0] == '$' && s[1] == name[0];
    assert forall k :: 1 <= k < |p| ==> s[k] == name[k - 1];
    assert s[1..|p|] == name;
  }

  /** A `$` that no name follows is kept, and so is one whose `${` is never closed. */
  lemma ExpandLoneDollar(env: Env, t: string)
    requires t == [] || (t[0] != '{' && !IsVarChar(t[0])) || (t[0] == '{' && '}' !in t)
    ensures Expand(env, "$" + t) == "$" + Expand(env, t)
  {
    var s := "$" + t;
    assert s[0] == '$';
    if |t| > 0 && t[0] == '{' {
      assert forall k :: 2 <= k < |s| ==> s[k] == t[k - 1];
      assert Find(s, '}', 2) == None;
    } else if |t| > 0 {
      assert s[1] == t[0];
    }
    assert Step(env, s, 0) == (1, "$");
    assert [] + "$" == "$";
    ExpandAfter(env, "$", t, "$");
  }
}
