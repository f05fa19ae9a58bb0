/** `sanitize_disk_path` of src/outgoing_downloader.rs: string replacements repeated at most ten times. */
module Sanitizer {
  import opened Common

  const MAX_ATTEMPTS := 10
  const BACKSLASH: char := '\\'
  const NUL: char := '\0'

  // ---------------------------------------------------------------- the two replacements

  /** `replace` of one character by another. */
  function Swapped(s: string, c: char, d: char): (r: string)
    ensures |r| == |s|
    ensures forall i :: 0 <= i < |s| ==> r[i] == if s[i] == c then d else s[i]
  {
    if s == "" then "" else [if s[0] == c then d else s[0]] + Swapped(s[1..], c, d)
  }

  /** `replace` of two backslashes by one, from left to right without overlaps. */
  function Halved(s: string): string {
    if |s| >= 2 && s[0] == BACKSLASH && s[1] == BACKSLASH then [BACKSLASH] + Halved(s[2..])
    else if s == "" then ""
    else [s[0]] + Halved(s[1..])
  }

  // ---------------------------------------------------------------- runs of backslashes

  /** The length of the run of backslashes that the string starts with. */
  function LeadingRun(s: string): (n: nat)
    ensures n <= |s|
    ensures forall i :: 0 <= i < n ==> s[i] == BACKSLASH
    ensures n < |s| ==> s[n] != BACKSLASH
  {
    if s == "" || s[0] != BACKSLASH then 0 else 1 + LeadingRun(s[1..])
  }

  function Max(a: nat, b: nat): nat {
    if a >= b then a else b
  }

  function LongestRun(s: string): nat {
    if s == "" then 0 else Max(LeadingRun(s), LongestRun(s[1..]))
  }

  /** Every run made a single backslash. */
  function Collapsed(s: string): string {
    if s == "" then ""
    else if |s| >= 2 && s[0] == BACKSLASH && s[1] == BACKSLASH then Collapsed(s[1..])
    else [s[0]] + Collapsed(s[1..])
  }

  function Run(n: nat): string {
    seq(n, _ => BACKSLASH)
  }

  ghost predicate NoRun(t: string) {
    t == "" || t[0] != BACKSLASH
  }

  /** A string is a run and what follows it. */
  lemma Split(s: string)
    ensures var n := LeadingRun(s);
      s == Run(n) + s[n..] && NoRun(s[n..])
  {
  }

  lemma TwoFirst(s: string)
    requires |s| >= 2 && s[0] == BACKSLASH && s[1] == BACKSLASH
    ensures Halved(s) == [BACKSLASH] + Halved(s[2..])
    ensures LongestRun(s) >= 2
  {
    assert LeadingRun(s) == 1 + LeadingRun(s[1..]);
  }

  lemma OneFirst(s: string)
    requires s != "" && !(|s| >= 2 && s[0] == BACKSLASH && s[1] == BACKSLASH)
    ensures Halved(s) == [s[0]] + Halved(s[1..])
  {
  }

  lemma {:induction false} HalvedRun(n: nat, t: string)
    requires NoRun(t)
    ensures Halved(Run(n) + t) == Run((n + 1) / 2) + Halved(t)
  {
    hide Halved, LongestRun;
    var s := Run(n) + t;
    if n >= 2 {
      assert s[2..] == Run(n - 2) + t;
      TwoFirst(s);
      HalvedRun(n - 2, t);
      assert Run((n + 1) / 2) == [BACKSLASH] + Run((n - 1) / 2);
    } else if n == 1 {
      assert s[1..] == t;
      OneFirst(s);
    } else {
      assert s == t;
    }
  }

  lemma {:induction false} LongestOfRun(n: nat, t: string)
    requires NoRun(t)
    ensures LongestRun(Run(n) + t) == Max(n, LongestRun(t))
    ensures LeadingRun(Run(n) + t) == n
  {
    var s := Run(n) + t;
    if n == 0 {
      assert s == t;
    } else {
      assert s[1..] == Run(n - 1) + t;
      LongestOfRun(n - 1, t);
    }
  }

  lemma {:induction false} CollapsedRun(n: nat, t: string)
    requires NoRun(t) && n >= 1
    ensures Collapsed(Run(n) + t) == [BACKSLASH] + Collapsed(t)
  {
    var s := Run(n) + t;
    if n >= 2 {
      assert s[1..] == Run(n - 1) + t;
      CollapsedRun(n - 1, t);
    } else {
      assert s[1..] == t;
    }
  }

  lemma HalvedStart(t: string)
    requires NoRun(t)
    ensures NoRun(Halved(t))
  {
  }

  /** Every longest stretch of n backslashes replaced by one of n/2, rounded up, and all else kept. */
  function RunsHalved(s: string): string
    decreases |s|
  {
    if s == "" then ""
    else
      var n := LeadingRun(s);
      if n == 0 then [s[0]] + RunsHalved(s[1..]) else Run((n + 1) / 2) + RunsHalved(s[n..])
  }

  /** That is what one pass does; so the longest run is halved, and the collapsed form stays the same. */
  lemma {:induction false} HalvedRuns(s: string)
    ensures Halved(s) == RunsHalved(s)
    ensures LongestRun(Halved(s)) == (LongestRun(s) + 1) / 2
    ensures Collapsed(Halved(s)) == Collapsed(s)
    decreases |s|
  {
    hide LongestRun, Halved, Collapsed;
    if s == "" {
      Empty();
    } else {
      var n := LeadingRun(s);
      var t := s[n..];
      Split(s);
      if n == 0 {
        HalvedRuns(s[1..]);
        OtherStart(s);
        OtherStart([s[0]] + Halved(s[1..]));
      } else {
        HalvedRuns(t);
        HalvedRun(n, t);
        HalvedStart(t);
        LongestOfRun(n, t);
        LongestOfRun((n + 1) / 2, Halved(t));
        CollapsedRun(n, t);
        CollapsedRun((n + 1) / 2, Halved(t));
      }
    }
  }

  lemma Empty()
    ensures LongestRun("") == 0 && Halved("") == "" && Collapsed("") == ""
  {
  }

  lemma OtherStart(s: string)
    requires s != "" && s[0] != BACKSLASH
    ensures LongestRun(s) == LongestRun(s[1..]) && Halved(s) == [s[0]] + Halved(s[1..])
    ensures Collapsed(s) == [s[0]] + Collapsed(s[1..])
  {
  }

  lemma NotTwoFirst(s: string)
    requires LongestRun(s) <= 1
    ensures !(|s| >= 2 && s[0] == BACKSLASH && s[1] == BACKSLASH)
  {
    if |s| >= 2 && s[0] == BACKSLASH && s[1] == BACKSLASH {
      TwoFirst(s);
      assert false;
    }
  }

  lemma {:induction false} ShortRuns(s: string)
    requires LongestRun(s) <= 1
    ensures Halved(s) == s && Collapsed(s) == s
  {
    if s != "" {
      ShortRuns(s[1..]);
      NotTwoFirst(s);
    }
  }

  /** The replacement changes nothing exactly when no two backslashes are adjacent. */
  lemma FixedExactly(s: string)
    ensures Halved(s) == s <==> LongestRun(s) <= 1
  {
    HalvedRuns(s);
    if LongestRun(s) <= 1 {
      ShortRuns(s);
    }
  }

  /** Putting characters that are no backslashes for others leaves the runs alone. */
  lemma {:induction false} SwappedRuns(s: string, c: char, d: char)
    requires c != BACKSLASH && d != BACKSLASH
    ensures LongestRun(Swapped(s, c, d)) == LongestRun(s)
    ensures LeadingRun(Swapped(s, c, d)) == LeadingRun(s)
  {
    if s != "" {
      SwappedRuns(s[1..], c, d);
      assert Swapped(s, c, d)[1..] == Swapped(s[1..], c, d);
    }
  }

  lemma {:induction false} NoBackslashNoRun(s: string)
    requires BACKSLASH !in s
    ensures LongestRun(s) == 0
  {
    if s != "" {
      NoBackslashNoRun(s[1..]);
    }
  }

  lemma SwappedTwice(s: string, c: char, d: char)
    requires c != d
    ensures c !in Swapped(s, c, d)
    ensures c !in s ==> Swapped(s, c, d) == s
    ensures c in s ==> Swapped(s, c, d) != s
  {
  }

  lemma {:induction false} HalvedKeeps(s: string, c: char)
    ensures c in Halved(s) <==> c in s
    decreases |s|
  {
    if |s| >= 2 && s[0] == BACKSLASH && s[1] == BACKSLASH {
      HalvedKeeps(s[2..], c);
      assert s == [s[0], s[1]] + s[2..];
    } else if s != "" {
      HalvedKeeps(s[1..], c);
      assert s == [s[0]] + s[1..];
    }
  }

  // ---------------------------------------------------------------- the loop

  function Pow2(k: nat): nat {
    if k == 0 then 1 else 2 * Pow2(k - 1)
  }

  /** The path that the loop starts with: on unix every backslash is a slash. */
  function Start(path: string, unix: bool): string {
    if unix then Swapped(path, BACKSLASH, '/') else path
  }

  /** What a path is sanitized to. */
  function Sanitized(path: string, unix: bool): string {
    Collapsed(Swapped(Start(path, unix), NUL, '0'))
  }

  /** This many attempts suffice: one for the NULs, one for each halving, and one to see that nothing changes. */
  ghost predicate Suffices(s: string, attempts: int) {
    var left := attempts - if NUL in s then 1 else 0;
    left >= 1 && LongestRun(s) <= Pow2(left - 1)
  }

  lemma AfterSwap(s: string, attempts: nat)
    requires NUL in s
    ensures var t := Swapped(s, NUL, '0');
      t != s && (Suffices(t, attempts - 1) <==> Suffices(s, attempts)) && Swapped(t, NUL, '0') == t
  {
    hide LongestRun, Pow2, Swapped, Suffices;
    var t := Swapped(s, NUL, '0');
    SwappedTwice(s, NUL, '0');
    SwappedTwice(t, NUL, '0');
    SwappedRuns(s, NUL, '0');
    OneAttemptLess(s, t, attempts);
  }

  lemma OneAttemptLess(s: string, t: string, attempts: nat)
    requires NUL in s && NUL !in t && LongestRun(s) == LongestRun(t)
    ensures Suffices(t, attempts - 1) <==> Suffices(s, attempts)
  {
  }

  lemma AfterHalving(s: string, attempts: nat)
    requires NUL !in s && attempts >= 1
    ensures Halved(s) != s ==> (Suffices(Halved(s), attempts - 1) <==> Suffices(s, attempts))
    ensures Halved(s) == s ==> Suffices(s, attempts) && Collapsed(s) == s
    ensures Collapsed(Halved(s)) == Collapsed(s) && NUL !in Halved(s)
  {
    hide LongestRun, Halved, Collapsed;
    HalvedRuns(s);
    FixedExactly(s);
    HalvedKeeps(s, NUL);
    if Halved(s) == s {
      ShortRuns(s);
      AtLeastOne(attempts - 1);
    }
  }

  lemma {:induction false} AtLeastOne(k: nat)
    ensures Pow2(k) >= 1
  {
    if k > 0 {
      AtLeastOne(k - 1);
    }
  }

  /** None is the error after ten attempts. */
  method SanitizeDiskPath(path: string, unix: bool) returns (r: Option<string>)
    ensures r == if Suffices(Start(path, unix), MAX_ATTEMPTS) then Some(Sanitized(path, unix)) else None
  {
    hide LongestRun, Halved, Collapsed, Suffices, Swapped;
    var counter := 0;
    var comparePath := path;
    if unix {
      comparePath := Swapped(comparePath, BACKSLASH, '/');
    }
    var newPath := comparePath;
    while counter < MAX_ATTEMPTS
      invariant 0 <= counter <= MAX_ATTEMPTS
      invariant Suffices(newPath, MAX_ATTEMPTS - counter) <==> Suffices(Start(path, unix), MAX_ATTEMPTS)
      invariant Collapsed(Swapped(newPath, NUL, '0')) == Sanitized(path, unix)
    {
      counter := counter + 1;
      comparePath := newPath;
      // Replace null bytes
      newPath := Swapped(newPath, NUL, '0');
      SwappedTwice(comparePath, NUL, '0');
      if newPath != comparePath {
        AfterSwap(comparePath, MAX_ATTEMPTS - counter + 1);
        continue;
      }
      // Replace the network path, double slash, with a single slash
      newPath := Halved(newPath);
      AfterHalving(comparePath, MAX_ATTEMPTS - counter + 1);
      SwappedTwice(newPath, NUL, '0');
      if newPath != comparePath {
        continue;
      }
      // Nothing has changed, path sanitized
      return Some(newPath);
    }
    NoAttempts(newPath);
    return None;
  }

  lemma NoAttempts(s: string)
    ensures !Suffices(s, 0)
  {
  }

  /**
   Exactly which paths are sanitized: on unix all of them; elsewhere those whose longest run of
   backslashes is at most 512, or at most 256 if there is a NUL to replace as well.
   */
  lemma SucceedsExactly(path: string, unix: bool)
    ensures Suffices(Start(path, unix), MAX_ATTEMPTS)
      <==> unix || LongestRun(path) <= if NUL in path then 256 else 512
  {
    hide LongestRun;
    assert Pow2(4) == 16;
    assert Pow2(8) == 256;
    assert Pow2(9) == 512;
    if unix {
      SwappedTwice(path, BACKSLASH, '/');
      NoBackslashNoRun(Start(path, unix));
    }
  }

  lemma {:induction false} CollapsedIsShort(s: string)
    ensures LongestRun(Collapsed(s)) <= 1
    ensures forall c :: c in Collapsed(s) ==> c in s
    ensures Collapsed(s) != "" ==> Collapsed(s)[0] == s[0]
    ensures s != "" ==> Collapsed(s) != ""
  {
    if s != "" {
      CollapsedIsShort(s[1..]);
      var r := Collapsed(s);
      if !(|s| >= 2 && s[0] == BACKSLASH && s[1] == BACKSLASH) {
        assert r[1..] == Collapsed(s[1..]);
        if s[0] == BACKSLASH && |s| >= 2 {
          assert Collapsed(s[1..])[0] == s[1];
        }
      }
    }
  }

  /** No two adjacent characters of the string are backslashes. */
  ghost predicate NoDouble(s: string) {
    forall i :: 0 <= i < |s| - 1 ==> !(s[i] == BACKSLASH && s[i + 1] == BACKSLASH)
  }

  lemma {:induction false} ShortHasNoDouble(s: string)
    requires LongestRun(s) <= 1
    ensures NoDouble(s)
  {
    if |s| >= 2 {
      ShortHasNoDouble(s[1..]);
      assert LeadingRun(s) <= 1;
      forall i | 0 <= i < |s| - 1
        ensures !(s[i] == BACKSLASH && s[i + 1] == BACKSLASH)
      {
        if i > 0 {
          assert s[1..][i - 1] == s[i] && s[1..][i] == s[i + 1];
        }
      }
    }
  }

  /** A sanitized path has no NUL and no two adjacent backslashes, and is sanitized to itself. */
  lemma SanitizedIsClean(path: string, unix: bool)
    ensures var r := Sanitized(path, unix);
      && NUL !in r && NoDouble(r)
      && Sanitized(r, false) == r && Suffices(r, MAX_ATTEMPTS)
  {
    hide LongestRun, Collapsed;
    var s := Swapped(Start(path, unix), NUL, '0');
    SwappedTwice(Start(path, unix), NUL, '0');
    CollapsedIsShort(s);
    ShortHasNoDouble(Collapsed(s));
    ShortRuns(Collapsed(s));
    SwappedTwice(Collapsed(s), NUL, '0');
    AtLeastOne(9);
  }
}
