/** The part of `re.match` the validators rely on, over a fragment of
    regular expressions: a sequence of items, each a literal character or
    `.` (any character but a newline), taken once, optionally (`?`) or any
    number of times (`*`). `re.match` anchors at the start of the text only:
    it succeeds when SOME prefix of the text is matched by the pattern. */
module Regex {

  datatype CharClass = Lit(c: char) | AnyButNewline

  datatype Repeat = Once | ZeroOrOne | ZeroOrMore

  datatype Item = Item(chars: CharClass, repeat: Repeat)

  type Pattern = seq<Item>

  predicate Admits(chars: CharClass, c: char) {
    match chars
    case Lit(d) => c == d
    case AnyButNewline => c != '\n'
  }

  /** The language of a pattern: `p` matches the whole of `s`. */
  predicate Matches(p: Pattern, s: string)
    decreases |p|, |s|
  {
    if p == [] then s == []
    else
      var head := |s| > 0 && Admits(p[0].chars, s[0]);
      match p[0].repeat
      case Once => head && Matches(p[1..], s[1..])
      case ZeroOrOne => Matches(p[1..], s) || (head && Matches(p[1..], s[1..]))
      case ZeroOrMore => Matches(p[1..], s) || (head && Matches(p, s[1..]))
  }

  /** The backtracking search `re.match` performs: it stops with success as
      soon as the pattern is used up, whatever text remains. */
  predicate MatchAtStart(p: Pattern, t: string)
    decreases |p|, |t|
  {
    if p == [] then true
    else
      var head := |t| > 0 && Admits(p[0].chars, t[0]);
      match p[0].repeat
      case Once => head && MatchAtStart(p[1..], t[1..])
      case ZeroOrOne => (head && MatchAtStart(p[1..], t[1..])) || MatchAtStart(p[1..], t)
      case ZeroOrMore => (head && MatchAtStart(p, t[1..])) || MatchAtStart(p[1..], t)
  }

  /** Some prefix of `t` is in the language of `p`. */
  ghost predicate PrefixMatches(p: Pattern, t: string) {
    exists k :: 0 <= k <= |t| && Matches(p, t[..k])
  }

  /** Prefix semantics, first half: a successful search found a prefix in the
      pattern's language. */
  lemma {:induction false} SearchFindsPrefix(p: Pattern, t: string)
    requires MatchAtStart(p, t)
    ensures PrefixMatches(p, t)
    decreases |p|, |t|
  {
    if p == [] {
      assert Matches(p, t[..0]);
    } else {
      var head := |t| > 0 && Admits(p[0].chars, t[0]);
      match p[0].repeat
      case Once =>
        SearchFindsPrefix(p[1..], t[1..]);
        var k :| 0 <= k <= |t[1..]| && Matches(p[1..], t[1..][..k]);
        assert t[..k + 1][1..] == t[1..][..k];
        assert Matches(p, t[..k + 1]);
      case ZeroOrOne =>
        if head && MatchAtStart(p[1..], t[1..]) {
          SearchFindsPrefix(p[1..], t[1..]);
          var k :| 0 <= k <= |t[1..]| && Matches(p[1..], t[1..][..k]);
          assert t[..k + 1][1..] == t[1..][..k];
          assert Matches(p, t[..k + 1]);
        } else {
          SearchFindsPrefix(p[1..], t);
          var k :| 0 <= k <= |t| && Matches(p[1..], t[..k]);
          assert Matches(p, t[..k]);
        }
      case ZeroOrMore =>
        if head && MatchAtStart(p, t[1..]) {
          SearchFindsPrefix(p, t[1..]);
          var k :| 0 <= k <= |t[1..]| && Matches(p, t[1..][..k]);
          assert t[..k + 1][1..] == t[1..][..k];
          assert Matches(p, t[..k + 1]);
        } else {
          SearchFindsPrefix(p[1..], t);
          var k :| 0 <= k <= |t| && Matches(p[1..], t[..k]);
          assert Matches(p, t[..k]);
        }
    }
  }

  /** Prefix semantics, second half: if a prefix of `t` is in the language,
      the search succeeds. */
  lemma {:induction false} PrefixIsFound(p: Pattern, t: string, k: nat)
    requires k <= |t| && Matches(p, t[..k])
    ensures MatchAtStart(p, t)
    decreases |p|, |t|
  {
    if p != [] {
      var s := t[..k];
      match p[0].repeat
      case Once =>
        assert s[1..] == t[1..][..k - 1];
        PrefixIsFound(p[1..], t[1..], k - 1);
      case ZeroOrOne =>
        if Matches(p[1..], s) {
          PrefixIsFound(p[1..], t, k);
        } else {
          assert s[1..] == t[1..][..k - 1];
          PrefixIsFound(p[1..], t[1..], k - 1);
        }
      case ZeroOrMore =>
        if Matches(p[1..], s) {
          PrefixIsFound(p[1..], t, k);
        } else {
          assert s[1..] == t[1..][..k - 1];
          PrefixIsFound(p, t[1..], k - 1);
        }
    }
  }

  /** `re.match(p, t)` succeeds exactly when some prefix of `t` matches `p`. */
  lemma MatchAtStartIsPrefixMatch(p: Pattern, t: string)
    ensures MatchAtStart(p, t) <==> PrefixMatches(p, t)
  {
    if MatchAtStart(p, t) {
      SearchFindsPrefix(p, t);
    }
    if PrefixMatches(p, t) {
      var k :| 0 <= k <= |t| && Matches(p, t[..k]);
      PrefixIsFound(p, t, k);
    }
  }

  /** A match at the start survives any text appended after it. */
  lemma MatchAtStartExtends(p: Pattern, t: string, rest: string)
    requires MatchAtStart(p, t)
    ensures MatchAtStart(p, t + rest)
  {
    SearchFindsPrefix(p, t);
    var k :| 0 <= k <= |t| && Matches(p, t[..k]);
    assert (t + rest)[..k] == t[..k];
    PrefixIsFound(p, t + rest, k);
  }

  /** The pattern that matches the characters of `s` literally (what
      `re.escape(s)` stands for). */
  function Literal(s: string): (p: Pattern)
    ensures |p| == |s|
    ensures forall i :: 0 <= i < |s| ==> p[i] == Item(Lit(s[i]), Once)
  {
    seq(|s|, i requires 0 <= i < |s| => Item(Lit(s[i]), Once))
  }

  /** A literal pattern matches at the start of `t` exactly when `t` begins
      with it: a longer text that starts with the pattern is accepted. */
  lemma {:induction false} LiteralMatchesPrefix(s: string, t: string)
    ensures MatchAtStart(Literal(s), t) <==> (|s| <= |t| && t[..|s|] == s)
  {
    if s != [] {
      assert Literal(s)[1..] == Literal(s[1..]);
      if |t| > 0 {
        LiteralMatchesPrefix(s[1..], t[1..]);
        if |s| <= |t| {
          assert t[..|s|] == [t[0]] + t[1..][..|s| - 1];
          assert s == [s[0]] + s[1..];
        }
      }
    }
  }

  /** A literal pattern matches the whole of `s` only: the full-match reading
      that `re.match` does NOT use. */
  lemma {:induction false} LiteralLanguage(s: string, u: string)
    ensures Matches(Literal(s), u) <==> u == s
  {
    if s != [] {
      assert Literal(s)[1..] == Literal(s[1..]);
      if |u| > 0 {
        LiteralLanguage(s[1..], u[1..]);
        assert u == [u[0]] + u[1..];
        assert s == [s[0]] + s[1..];
      }
    }
  }
}
