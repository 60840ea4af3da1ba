/**
 * The `std::string` search operations the parser and the path expander call.
 * `std::string::npos` is `None`; the arithmetic the source does on `npos`
 * (`npos + 1 == 0`) is written out where it is used.
 */
module StdString {
  import opened Wrappers

  /** `s.find(c, from)`: the first index at or after `from` that holds `c`. */
  function Find(s: string, c: char, from: nat): (r: Option<nat>)
    decreases |s| - from
    ensures r.Some? ==> from <= r.value < |s| && s[r.value] == c
    ensures r.Some? ==> forall k :: from <= k < r.value ==> s[k] != c
    ensures r.None? ==> forall k :: from <= k < |s| ==> s[k] != c
  {
    if from >= |s| then None
    else if s[from] == c then Some(from)
    else Find(s, c, from + 1)
  }

  /** `s.find_first_not_of(t, from)`: the first index at or after `from` whose character is not in `t`. */
  function FindFirstNotOf(s: string, t: set<char>, from: nat): (r: Option<nat>)
    decreases |s| - from
    ensures r.Some? ==> from <= r.value < |s| && s[r.value] !in t
    ensures r.Some? ==> forall k :: from <= k < r.value ==> s[k] in t
    ensures r.None? ==> forall k :: from <= k < |s| ==> s[k] in t
  {
    if from >= |s| then None
    else if s[from] !in t then Some(from)
    else FindFirstNotOf(s, t, from + 1)
  }

  /** `s.find_last_not_of(t)`: the last index whose character is not in `t`. */
  function FindLastNotOf(s: string, t: set<char>): (r: Option<nat>)
    ensures r.Some? ==> r.value < |s| && s[r.value] !in t
    ensures r.Some? ==> forall k :: r.value < k < |s| ==> s[k] in t
    ensures r.None? ==> forall k :: 0 <= k < |s| ==> s[k] in t
  {
    LastNotOfBelow(s, t, |s|)
  }

  /** The last index below `bound` whose character is not in `t`. */
  function LastNotOfBelow(s: string, t: set<char>, bound: nat): (r: Option<nat>)
    requires bound <= |s|
    ensures r.Some? ==> r.value < bound && s[r.value] !in t
    ensures r.Some? ==> forall k :: r.value < k < bound ==> s[k] in t
    ensures r.None? ==> forall k :: 0 <= k < bound ==> s[k] in t
  {
    if bound == 0 then None
    else if s[bound - 1] !in t then Some(bound - 1)
    else LastNotOfBelow(s, t, bound - 1)
  }

  /** Searching a suffix finds the same occurrence, shifted by the suffix's offset. */
  lemma {:induction false} FindInSuffix(s: string, c: char, i: nat, from: nat)
    requires i <= |s|
    ensures Find(s[i..], c, from) == (match Find(s, c, i + from)
                                      case None => None
                                      case Some(p) => Some(p - i))
    decreases |s| - i - from
  {
    if from < |s| - i && s[i + from] != c {
      FindInSuffix(s, c, i, from + 1);
    }
  }

  /** `find` skips a stretch that does not hold the character. */
  lemma {:induction false} FindSkips(s: string, c: char, from: nat, to: nat)
    requires from <= to <= |s|
    requires forall k :: from <= k < to ==> s[k] != c
    ensures Find(s, c, from) == Find(s, c, to)
    decreases |s| - from
  {
    if from < to {
      FindSkips(s, c, from + 1, to);
    }
  }

  /** `find_first_not_of` skips a stretch made only of characters in `t`. */
  lemma {:induction false} FirstNotOfSkips(s: string, t: set<char>, from: nat, to: nat)
    requires from <= to <= |s|
    requires forall k :: from <= k < to ==> s[k] in t
    ensures FindFirstNotOf(s, t, from) == FindFirstNotOf(s, t, to)
    decreases |s| - from
  {
    if from < to {
      FirstNotOfSkips(s, t, from + 1, to);
    }
  }
}
