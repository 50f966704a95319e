/** Message filters. A validator holds only its pattern (or, for a plain
    callable, its test) and reads one field of the message value it is
    given; `get_messages` takes an ordered list of them and keeps a message
    when all of them accept it. */
module Validators {
  import opened Regex
  import opened Messages

  /** `RegexValidator(pattern)(text)`: `re.match(pattern, text) is not None`. */
  function RegexValidator(pattern: Pattern, text: string): (accepted: bool)
    ensures accepted <==> exists k :: 0 <= k <= |text| && Matches(pattern, text[..k])
  {
    MatchAtStartIsPrefixMatch(pattern, text);
    MatchAtStart(pattern, text)
  }

  datatype Validator =
    | FromAddressValidator(pattern: Pattern)
    | SubjectValidator(pattern: Pattern)
    /** Any other callable `get_messages` is given, as a pure test. */
    | Callable(test: Message -> bool)

  /** `validator(message)`. */
  function Apply(v: Validator, m: Message): (accepted: bool)
    ensures v.FromAddressValidator? ==>
      (accepted <==> exists k :: 0 <= k <= |m.fromAddress| && Matches(v.pattern, m.fromAddress[..k]))
    ensures v.SubjectValidator? ==>
      (accepted <==> exists k :: 0 <= k <= |m.content.subject|
                                 && Matches(v.pattern, m.content.subject[..k]))
    ensures v.Callable? ==> accepted == v.test(m)
  {
    match v
    case FromAddressValidator(p) => RegexValidator(p, m.fromAddress)
    case SubjectValidator(p) => RegexValidator(p, m.content.subject)
    case Callable(test) => test(m)
  }

  /** Every validator accepts the message: the AND the loop computes. */
  predicate AllPass(vs: seq<Validator>, m: Message) {
    forall i :: 0 <= i < |vs| ==> Apply(vs[i], m)
  }

  /** How many validators the short-circuit loop calls: up to and including
      the first one that rejects, or all of them. */
  function Evaluated(vs: seq<Validator>, m: Message): (n: nat)
    ensures n <= |vs|
    ensures forall i :: 0 <= i < n - 1 ==> Apply(vs[i], m)
    ensures n < |vs| ==> n > 0 && !Apply(vs[n - 1], m)
    ensures n == |vs| && n > 0 ==> (AllPass(vs, m) || !Apply(vs[n - 1], m))
    ensures AllPass(vs, m) ==> n == |vs|
  {
    if vs == [] then 0
    else if !Apply(vs[0], m) then 1
    else 1 + Evaluated(vs[1..], m)
  }

  /** A sender filter reads the sender only. */
  lemma FromAddressReadsSender(p: Pattern, m1: Message, m2: Message)
    requires m1.fromAddress == m2.fromAddress
    ensures Apply(FromAddressValidator(p), m1) == Apply(FromAddressValidator(p), m2)
  {
  }

  /** A subject filter reads the current subject only, so after a content
      refresh it judges the refreshed subject. */
  lemma SubjectReadsSubject(p: Pattern, m: Message, data: Payload)
    ensures Apply(SubjectValidator(p), m.(content := Merge(m.content, data)))
            == RegexValidator(p, data.subject.GetOr(m.content.subject))
  {
  }

  /** A literal subject pattern accepts any subject that starts with it, and
      only those. */
  lemma SubjectLiteral(s: string, m: Message)
    ensures Apply(SubjectValidator(Literal(s)), m) <==>
      (|s| <= |m.content.subject| && m.content.subject[..|s|] == s)
  {
    LiteralMatchesPrefix(s, m.content.subject);
  }

  /** A sender pattern that accepts a message keeps accepting it whatever is
      appended to the sender. */
  lemma FromAddressPrefix(p: Pattern, m: Message, rest: string)
    requires Apply(FromAddressValidator(p), m)
    ensures Apply(FromAddressValidator(p), m.(fromAddress := m.fromAddress + rest))
  {
    MatchAtStartIsPrefixMatch(p, m.fromAddress);
    MatchAtStartExtends(p, m.fromAddress, rest);
    MatchAtStartIsPrefixMatch(p, m.fromAddress + rest);
  }
}
