/** Mailbox addresses: `user@domain`, and the split of an address back into
    its user and domain. */
module Addresses {
  import opened Wrappers
  import opened Errors

  /** The `address` property: user, "@", domain. */
  function Address(user: string, domain: string): (address: string)
    ensures |address| == |user| + 1 + |domain|
    ensures address[..|user|] == user && address[|user|] == '@'
    ensures address[|user| + 1..] == domain
  {
    user + "@" + domain
  }

  /** `s.split(sep)`: the runs of `s` between occurrences of `sep`. */
  function Split(s: string, sep: char): (parts: seq<string>)
    ensures |parts| >= 1
    ensures sep !in s ==> parts == [s]
  {
    if s == [] then [""]
    else
      var rest := Split(s[1..], sep);
      if s[0] == sep then [""] + rest
      else
        assert sep !in s ==> [s[0]] + s[1..] == s;
        [[s[0]] + rest[0]] + rest[1..]
  }

  /** `sep.join(parts)`. */
  function Join(parts: seq<string>, sep: char): string
    requires |parts| >= 1
  {
    if |parts| == 1 then parts[0] else parts[0] + [sep] + Join(parts[1..], sep)
  }

  /** Splitting a non-empty text: a leading separator opens a new empty
      part, any other first character joins the first part of the rest. */
  lemma SplitCons(s: string, sep: char)
    requires s != []
    ensures var rest := Split(s[1..], sep);
      if s[0] == sep then Split(s, sep) == [""] + rest
      else Split(s, sep)[0] == [s[0]] + rest[0] && Split(s, sep)[1..] == rest[1..]
  {
  }

  /** Joining parts whose first one is `x` + the first of `rest`. */
  lemma JoinCons(x: string, rest: seq<string>, sep: char)
    requires |rest| >= 1
    ensures Join([x + rest[0]] + rest[1..], sep) == x + Join(rest, sep)
  {
    var parts := [x + rest[0]] + rest[1..];
    if |rest| > 1 {
      assert parts[1..] == rest[1..];
      assert Join(parts, sep) == (x + rest[0]) + [sep] + Join(rest[1..], sep);
    }
  }

  /** Joining the parts of a split gives the text back. */
  lemma {:induction false} SplitJoin(s: string, sep: char)
    ensures Join(Split(s, sep), sep) == s
  {
    if s != [] {
      SplitJoin(s[1..], sep);
      SplitCons(s, sep);
      var rest := Split(s[1..], sep);
      var parts := Split(s, sep);
      assert s == [s[0]] + s[1..];
      if s[0] == sep {
        assert parts[1..] == rest;
      } else {
        assert parts == [[s[0]] + rest[0]] + rest[1..];
        JoinCons([s[0]], rest, sep);
      }
    }
  }

  /** No part of a split holds the separator. */
  lemma {:induction false} SplitParts(s: string, sep: char)
    ensures forall i :: 0 <= i < |Split(s, sep)| ==> sep !in Split(s, sep)[i]
  {
    if s != [] {
      SplitParts(s[1..], sep);
      SplitCons(s, sep);
      var rest := Split(s[1..], sep);
      var parts := Split(s, sep);
      forall i | 0 <= i < |parts|
        ensures sep !in parts[i]
      {
        if s[0] == sep {
          if i > 0 { assert parts[i] == rest[i - 1]; }
        } else if i > 0 {
          assert parts[i] == rest[1..][i - 1] == rest[i];
        }
      }
    }
  }

  /** A split has one part more than the text has separators. */
  lemma {:induction false} SplitCount(s: string, sep: char)
    ensures |Split(s, sep)| == multiset(s)[sep] + 1
  {
    if s != [] {
      SplitCount(s[1..], sep);
      SplitCons(s, sep);
      assert s == [s[0]] + s[1..];
      assert multiset(s) == multiset{s[0]} + multiset(s[1..]);
    }
  }

  /** `user, domain = address.split("@")`: exactly two parts, else the
      unpacking raises ValueError. */
  function ParseAddress(address: string): (r: Result<(string, string), Error>)
    ensures r.Failure? ==> r.error.UnpackError? && r.error.parts != 2
    ensures r.Success? ==> Address(r.value.0, r.value.1) == address
    ensures r.Success? ==> '@' !in r.value.0 && '@' !in r.value.1
  {
    SplitJoin(address, '@');
    SplitParts(address, '@');
    var parts := Split(address, '@');
    assert |parts| == 2 ==> Join(parts, '@') == parts[0] + "@" + Join(parts[1..], '@');
    if |parts| == 2 then Success((parts[0], parts[1])) else Failure(UnpackError(|parts|))
  }

  /** The split succeeds exactly when the address holds one "@"; then the
      two parts rebuild the address and hold no "@". */
  lemma ParseAddressSound(address: string)
    ensures ParseAddress(address).Success? <==> multiset(address)['@'] == 1
    ensures ParseAddress(address).Failure? ==>
      ParseAddress(address).error == UnpackError(multiset(address)['@'] + 1)
    ensures ParseAddress(address).Success? ==>
      var (user, domain) := ParseAddress(address).value;
      Address(user, domain) == address && '@' !in user && '@' !in domain
  {
    SplitJoin(address, '@');
    SplitParts(address, '@');
    SplitCount(address, '@');
    var parts := Split(address, '@');
    if |parts| == 2 {
      assert Join(parts, '@') == parts[0] + "@" + Join(parts[1..], '@');
    }
  }

  /** Any user and domain free of "@" are recovered from their address. */
  lemma ParseAddressRoundTrip(user: string, domain: string)
    requires '@' !in user && '@' !in domain
    ensures ParseAddress(Address(user, domain)) == Success((user, domain))
  {
    var address := Address(user, domain);
    assert multiset(address) == multiset(user) + multiset{'@'} + multiset(domain);
    assert multiset(user)['@'] == 0 && multiset(domain)['@'] == 0;
    ParseAddressSound(address);
    var (u, d) := ParseAddress(address).value;
    PrefixUnique(u, d, user, domain);
  }

  /** Two "x@y" spellings of the same text with "@"-free parts agree. */
  lemma PrefixUnique(u1: string, d1: string, u2: string, d2: string)
    requires '@' !in u1 && '@' !in u2
    requires Address(u1, d1) == Address(u2, d2)
    ensures u1 == u2 && d1 == d2
  {
    var a := Address(u1, d1);
    if |u1| < |u2| {
      assert false;
    } else if |u2| < |u1| {
      assert false;
    }
  }
}
