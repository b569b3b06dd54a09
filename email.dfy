/** The e-mail shape check of the register handler, the regular expression
    `^\S+@\S+\.\S+$`. `MatchesPattern` is the language of that expression,
    read off its structure: three non-empty runs of non-space characters
    separated by one `@` and one `.`. `Test` decides it with two scans
    (the first `@` after the first character, the last `.` before the last
    character) and is proved to accept exactly that language.

    The handler runs the expression without the `u` flag, so it sees UTF-16
    code units; both surrogate halves of a character outside the Basic
    Multilingual Plane are non-space, and `@`, `.` and every space lie in
    that plane, so working on Unicode scalar values accepts the same
    strings. */
module EmailPattern {
  import opened JsText

  /** `s` is matched by `^\S+@\S+\.\S+$`: `s == a + "@" + b + "." + c`
      with `a`, `b`, `c` non-empty and free of `\s` characters. */
  ghost predicate MatchesPattern(s: string) {
    exists i, j ::
      && 1 <= i && i + 2 <= j <= |s| - 2
      && s[i] == '@' && s[j] == '.'
      && NoSpace(s[..i]) && NoSpace(s[i + 1..j]) && NoSpace(s[j + 1..])
  }

  /** Index of the first `c` in `s` at or after `k`, or `|s|` if none. */
  function IndexFrom(s: string, c: char, k: nat): (r: nat)
    requires k <= |s|
    ensures k <= r <= |s|
    ensures r < |s| ==> s[r] == c
    ensures forall m :: k <= m < r ==> s[m] != c
    decreases |s| - k
  {
    if k == |s| || s[k] == c then k else IndexFrom(s, c, k + 1)
  }

  /** Index of the last `c` in `s` strictly before `k`, or -1 if none. */
  function LastIndexBefore(s: string, c: char, k: nat): (r: int)
    requires k <= |s|
    ensures -1 <= r < k
    ensures 0 <= r ==> s[r] == c
    ensures forall m :: r < m < k ==> s[m] != c
  {
    if k == 0 then -1 else if s[k - 1] == c then k - 1 else LastIndexBefore(s, c, k - 1)
  }

  /** The scan: no space anywhere, and the first `@` at index 1 or later is
      followed, at least two places on, by a `.` that is not the last
      character. */
  predicate Scan(s: string) {
    && NoSpace(s)
    && 1 <= |s|
    && var at := IndexFrom(s, '@', 1);
       var dot := LastIndexBefore(s, '.', |s| - 1);
       at < |s| && at + 2 <= dot
  }

  lemma ScanSound(s: string)
    requires Scan(s)
    ensures MatchesPattern(s)
  {
  }

  lemma ScanComplete(s: string)
    requires MatchesPattern(s)
    ensures Scan(s)
  {
  }

  lemma ScanExact(s: string)
    ensures Scan(s) <==> MatchesPattern(s)
  {
    if Scan(s) { ScanSound(s); }
    if MatchesPattern(s) { ScanComplete(s); }
  }

  /** `/^\S+@\S+\.\S+$/.test(s)`: accepts exactly the strings of the
      pattern's language. */
  predicate Test(s: string)
    ensures Test(s) <==> MatchesPattern(s)
  {
    ScanExact(s);
    Scan(s)
  }

  /** The same language described without splitting: no space anywhere, an
      `@` that is not the first character, and a later `.` with at least
      one character between them and at least one after it. */
  lemma PatternByPositions(s: string)
    ensures MatchesPattern(s) <==>
              && NoSpace(s)
              && exists i, j :: 1 <= i && i + 2 <= j <= |s| - 2 && s[i] == '@' && s[j] == '.'
  {
  }
}
