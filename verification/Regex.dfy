/** Regular expressions as a nondeterministic match relation on whole strings.

    This is the meaning of `re.fullmatch`: a concatenation or a repetition may
    split its input anywhere, and one successful split is enough. */
module Regex {

  datatype Re =
    | Class(chars: set<char>)
    | Cat(first: Re, second: Re)
    | Alt(left: Re, right: Re)
    | Opt(body: Re)
    | Star(body: Re)

  /** One or more repetitions. */
  function Plus(body: Re): Re {
    Cat(body, Star(body))
  }

  ghost predicate Matches(re: Re, s: string)
    decreases re, |s|
  {
    match re
    case Class(chars) => |s| == 1 && s[0] in chars
    case Cat(first, second) =>
      exists k | 0 <= k <= |s| :: Matches(first, s[..k]) && Matches(second, s[k..])
    case Alt(left, right) => Matches(left, s) || Matches(right, s)
    case Opt(body) => s == "" || Matches(body, s)
    case Star(body) =>
      s == "" || exists k | 0 < k <= |s| :: Matches(body, s[..k]) && Matches(re, s[k..])
  }

  predicate Over(chars: set<char>, s: string) {
    forall i | 0 <= i < |s| :: s[i] in chars
  }

  lemma {:induction false} StarOfClass(chars: set<char>, s: string)
    ensures Matches(Star(Class(chars)), s) <==> Over(chars, s)
  {
    if s != "" {
      StarOfClass(chars, s[1..]);
      assert s == [s[0]] + s[1..];
      if Over(chars, s) {
        assert Matches(Class(chars), s[..1]) && Matches(Star(Class(chars)), s[1..]);
      }
    }
  }

  lemma PlusOfClass(chars: set<char>, s: string)
    ensures Matches(Plus(Class(chars)), s) <==> s != "" && Over(chars, s)
  {
    if Matches(Plus(Class(chars)), s) {
      var k :| 0 <= k <= |s| && Matches(Class(chars), s[..k]) && Matches(Star(Class(chars)), s[k..]);
      StarOfClass(chars, s[k..]);
      assert s == s[..k] + s[k..];
    }
    if s != "" && Over(chars, s) {
      StarOfClass(chars, s[1..]);
      assert Matches(Class(chars), s[..1]);
    }
  }

  lemma OneOfThree(a: Re, b: Re, c: Re, s: string)
    ensures Matches(Alt(a, Alt(b, c)), s) <==> Matches(a, s) || Matches(b, s) || Matches(c, s)
  {
    assert Matches(Alt(b, c), s) <==> Matches(b, s) || Matches(c, s);
  }

  lemma CharThen(c: char, rest: Re, s: string)
    ensures Matches(Cat(Class({c}), rest), s) <==> s != "" && s[0] == c && Matches(rest, s[1..])
  {
    if Matches(Cat(Class({c}), rest), s) {
      var k :| 0 <= k <= |s| && Matches(Class({c}), s[..k]) && Matches(rest, s[k..]);
      assert s[..k][0] == s[0];
    }
    if s != "" && s[0] == c && Matches(rest, s[1..]) {
      assert Matches(Class({c}), s[..1]);
      Concatenated(Class({c}), rest, s, 1);
    }
  }

  lemma OptCharThen(c: char, rest: Re, s: string)
    ensures Matches(Cat(Opt(Class({c})), rest), s)
            <==> Matches(rest, s) || (s != "" && s[0] == c && Matches(rest, s[1..]))
  {
    if Matches(Cat(Opt(Class({c})), rest), s) {
      var k :| 0 <= k <= |s| && Matches(Opt(Class({c})), s[..k]) && Matches(rest, s[k..]);
      if k == 0 {
        assert s[0..] == s;
      } else {
        assert s[..k] != "" && Matches(Class({c}), s[..k]);
        assert k == 1 && s[..k][0] == s[0];
      }
    }
    if s != "" && s[0] == c && Matches(rest, s[1..]) {
      assert Matches(Class({c}), s[..1]) && Matches(Opt(Class({c})), s[..1]);
      Concatenated(Opt(Class({c})), rest, s, 1);
    }
    if Matches(rest, s) {
      assert s[..0] == "" && s[0..] == s && Matches(Opt(Class({c})), s[..0]);
      Concatenated(Opt(Class({c})), rest, s, 0);
    }
  }

  lemma Concatenated(a: Re, b: Re, s: string, k: nat)
    requires k <= |s| && Matches(a, s[..k]) && Matches(b, s[k..])
    ensures Matches(Cat(a, b), s)
  {
  }
}
