/**
 * The application-number check of scraper.js: the trimmed anchor text must
 * match `^[0-9][0-9][0-9]\/[0-9][0-9][0-9][0-9]\/[0-9][0-9]$`.
 */
module Reference {
  import opened Text

  /** One atom of the anchored pattern: a `[0-9]` class or a literal character. */
  datatype Atom = AnyDigit | Literal(c: char)

  predicate AtomMatches(a: Atom, c: char) {
    match a
    case AnyDigit => IsDigit(c)
    case Literal(l) => c == l
  }

  /** The regular expression of scraper.js, atom by atom. */
  const ApplicationNumberPattern: seq<Atom> :=
    [AnyDigit, AnyDigit, AnyDigit, Literal('/'),
     AnyDigit, AnyDigit, AnyDigit, AnyDigit, Literal('/'),
     AnyDigit, AnyDigit]

  /** An anchored match (`^` … `$`) of a pattern made of single-character atoms. */
  predicate Matches(p: seq<Atom>, s: string)
    decreases |p|
  {
    if p == [] then s == []
    else s != [] && AtomMatches(p[0], s[0]) && Matches(p[1..], s[1..])
  }

  /**
   * The test applied to the trimmed anchor text, stated position by position:
   * eleven characters, `/` at positions 3 and 8, an ASCII digit elsewhere.
   */
  predicate IsApplicationNumber(s: string) {
    |s| == 11 && s[3] == '/' && s[8] == '/'
    && forall i :: 0 <= i < 11 && i != 3 && i != 8 ==> IsDigit(s[i])
  }

  lemma {:induction false} MatchesAtEveryPosition(p: seq<Atom>, s: string)
    ensures Matches(p, s) <==> |s| == |p| && forall i :: 0 <= i < |p| ==> AtomMatches(p[i], s[i])
    decreases |p|
  {
    if p != [] && s != [] {
      MatchesAtEveryPosition(p[1..], s[1..]);
      if |s| == |p| && forall i :: 0 <= i < |p| ==> AtomMatches(p[i], s[i]) {
        forall i | 0 <= i < |p| - 1 ensures AtomMatches(p[1..][i], s[1..][i]) {
          assert AtomMatches(p[i + 1], s[i + 1]);
        }
      }
    }
  }

  /** The positional test accepts exactly what the regular expression matches. */
  lemma ApplicationNumberIsPattern(s: string)
    ensures IsApplicationNumber(s) <==> Matches(ApplicationNumberPattern, s)
  {
    MatchesAtEveryPosition(ApplicationNumberPattern, s);
    var p := ApplicationNumberPattern;
    assert forall i :: 0 <= i < 11 ==> p[i] == if i == 3 || i == 8 then Literal('/') else AnyDigit;
  }

  /** An application number has no whitespace at either end, so trimming keeps it. */
  lemma ApplicationNumberIsTrimmed(s: string)
    requires IsApplicationNumber(s)
    ensures Trim(s) == s
  {
    TrimOfTrimmed(s);
  }

  /**
   * Whitespace around the anchor text never changes whether it is accepted
   * nor which number is taken.
   */
  lemma AcceptanceIgnoresPadding(w1: string, s: string, w2: string)
    requires AllWhitespace(w1) && AllWhitespace(w2)
    ensures IsApplicationNumber(Trim(w1 + s + w2)) == IsApplicationNumber(Trim(s))
    ensures IsApplicationNumber(s) ==> Trim(w1 + s + w2) == s
  {
    TrimIgnoresPadding(w1, s, w2);
    if IsApplicationNumber(s) {
      ApplicationNumberIsTrimmed(s);
    }
  }

  /** Examples of accepted and refused texts, as the regular expression judges them. */
  lemma AcceptedExample()
    ensures Matches(ApplicationNumberPattern, "123/4567/89")
  {
    var s := "123/4567/89";
    assert IsApplicationNumber(s);
    ApplicationNumberIsPattern(s);
  }

  /** A short first group, a long last group and letters are all refused. */
  lemma RejectedExamples()
    ensures !Matches(ApplicationNumberPattern, "12/4567/89")
    ensures !Matches(ApplicationNumberPattern, "123/4567/890")
    ensures !Matches(ApplicationNumberPattern, "abc/4567/89")
  {
    ApplicationNumberIsPattern("12/4567/89");
    ApplicationNumberIsPattern("123/4567/890");
    ApplicationNumberIsPattern("abc/4567/89");
    assert !IsDigit("abc/4567/89"[0]);
  }
}
