/**
 * The contact form's email format test, the regular expression
 * `^[^\s@]+@[^\s@]+\.[^\s@]+$`, applied to the field value as typed.
 * `MatchesEmailRegex` is the language of that expression, written as a split of
 * the whole string into its three runs; `EmailShape` is a direct check of the
 * same language, and `EmailShapeIsRegex` proves the two agree on every string.
 */
module EmailPattern {
  import opened Wrappers
  import Text

  /** The character class `[^\s@]`. */
  predicate IsRunChar(c: char) {
    !Text.IsWs(c) && c != '@'
  }

  /** `s` is made only of `[^\s@]` characters. */
  predicate AllRun(s: string) {
    forall k :: 0 <= k < |s| ==> IsRunChar(s[k])
  }

  /** Printable ASCII other than `@` (`!` through `~`) is never whitespace, so a
      string of such characters is a `[^\s@]` run. */
  lemma PrintableRun(s: string)
    requires forall k :: 0 <= k < |s| ==> '!' <= s[k] <= '~' && s[k] != '@'
    ensures AllRun(s)
  {
  }

  /** Position of the first occurrence of `c` in `s`, if there is one. */
  function IndexOf(s: string, c: char): (r: Option<nat>)
    ensures r.None? <==> c !in s
    ensures r.Some? ==> r.value < |s| && s[r.value] == c && c !in s[..r.value]
  {
    if s == [] then None
    else if s[0] == c then Some(0)
    else
      match IndexOf(s[1..], c)
      case None => None
      case Some(i) =>
        assert s[..i + 1] == [s[0]] + s[1..][..i];
        Some(i + 1)
  }

  /** The regular expression as a language: `s` splits as a non-empty run, `@`,
      a non-empty run, `.`, a non-empty run, each run drawn from `[^\s@]`. */
  ghost predicate MatchesEmailRegex(s: string) {
    exists i, j ::
      && 0 < i && i + 1 < j && j + 1 < |s|
      && s[i] == '@' && s[j] == '.'
      && AllRun(s[..i]) && AllRun(s[i + 1..j]) && AllRun(s[j + 1..])
  }

  /** The part after the `@`, `[^\s@]+\.[^\s@]+`: one `[^\s@]` run with a dot
      strictly inside it. */
  predicate DomainShape(d: string) {
    AllRun(d) && exists j :: 0 < j < |d| - 1 && d[j] == '.'
  }

  /** The executable format test: the first `@` has something before it, nothing
      before it is whitespace or `@`, and what follows it has the domain shape. */
  predicate EmailShape(s: string) {
    match IndexOf(s, '@')
    case None => false
    case Some(i) => 0 < i && AllRun(s[..i]) && DomainShape(s[i + 1..])
  }

  /** The format test accepts exactly the strings the regular expression matches. */
  lemma EmailShapeIsRegex(s: string)
    ensures EmailShape(s) <==> MatchesEmailRegex(s)
  {
    if EmailShape(s) {
      ShapeMatches(s);
    }
    if MatchesEmailRegex(s) {
      var i, j :| && 0 < i && i + 1 < j && j + 1 < |s|
                  && s[i] == '@' && s[j] == '.'
                  && AllRun(s[..i]) && AllRun(s[i + 1..j]) && AllRun(s[j + 1..]);
      MatchHasShape(s, i, j);
    }
  }

  /** The format test's witnesses are a split of the regular expression. */
  lemma ShapeMatches(s: string)
    requires EmailShape(s)
    ensures MatchesEmailRegex(s)
  {
    var i := IndexOf(s, '@').value;
    var d := s[i + 1..];
    var j' :| 0 < j' < |d| - 1 && d[j'] == '.';
    var j := i + 1 + j';
    assert s[i + 1..j] == d[..j'];
    assert s[j + 1..] == d[j' + 1..];
    assert AllRun(s[..i]) && AllRun(s[i + 1..j]) && AllRun(s[j + 1..]);
  }

  /** A split of the regular expression puts its `@` first, so the format test
      finds it and accepts. */
  lemma MatchHasShape(s: string, i: int, j: int)
    requires 0 < i && i + 1 < j && j + 1 < |s|
    requires s[i] == '@' && s[j] == '.'
    requires AllRun(s[..i]) && AllRun(s[i + 1..j]) && AllRun(s[j + 1..])
    ensures EmailShape(s)
  {
    var found := IndexOf(s, '@');
    assert found.Some? by { assert s[i] in s; }
    var k := found.value;
    assert k == i;
    var d := s[i + 1..];
    forall m | 0 <= m < |d| ensures IsRunChar(d[m]) {
      if i + 1 + m < j {
        assert d[m] == s[i + 1..j][m];
      } else if i + 1 + m > j {
        assert d[m] == s[j + 1..][m - (j - i)];
      }
    }
    assert d[j - i - 1] == '.';
  }

  /** A string of the email shape is never blank, so the "required" and the
      "invalid format" messages of the form can never both apply. */
  lemma MatchIsNotBlank(s: string)
    ensures MatchesEmailRegex(s) ==> !Text.AllWs(s)
  {
  }

  /** A string that starts with whitespace never matches: the first run may not
      contain whitespace, and the pattern is anchored at the start. */
  lemma LeadingWsNeverMatches(s: string)
    requires |s| > 0 && Text.IsWs(s[0])
    ensures !MatchesEmailRegex(s)
  {
  }
}
