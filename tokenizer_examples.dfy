/** Worked inputs for `get_token_groups`, each showing one rule of the
    expression: matches may start inside a word, a token must end at a space
    or at the end of the text, every surrounding quote is stripped, an
    escaped quote does not close a value, and `$` accepts a final newline. */
module TokenizerExamples {
  import opened Wrappers
  import opened Tokenizer
  import opened TokenizerProperties

  /** `WordRun` is pinned down by its contract. */
  lemma WordRunIs(t: string, n: nat)
    requires n <= |t| && forall i :: 0 <= i < n ==> IsWordChar(t[i])
    requires n < |t| ==> !IsWordChar(t[n])
    ensures WordRun(t) == n
  {
  }

  /** No match where the run of word characters is not followed by `=`. */
  lemma SkipNoName(t: string, n: nat)
    requires t != [] && WordRun(t) == n
    requires n == 0 || n == |t| || t[n] != '='
    ensures FindAll(t) == FindAll(t[1..])
  {
  }

  /** No match where a bare value is not followed by a space or the end. */
  lemma SkipUnended(t: string, n: nat, m: nat)
    requires 0 < n && n + 1 < |t| && WordRun(t) == n && t[n] == '=' && t[n + 1] != '"'
    requires WordRun(t[n + 1..]) == m && !EndOfToken(t, n + 1 + m)
    ensures FindAll(t) == FindAll(t[1..])
  {
  }

  /** A match that takes the rest of the text is the last one. */
  lemma LastMatch(t: string, m: Match)
    requires MatchAt(t) == Some(m) && Length(m) == |t|
    ensures FindAll(t) == [m]
  {
    assert t[Length(m)..] == [];
  }

  /** The pairs of one or two matches. */
  lemma GroupsOfOne(m: Match)
    ensures Groups([m]) == [(m.name, Value(m))]
  {
    assert [m][..0] == [];
  }

  lemma GroupsOfTwo(m1: Match, m2: Match)
    ensures Groups([m1, m2]) == [(m1.name, Value(m1)), (m2.name, Value(m2))]
  {
    assert [m1, m2][..1] == [m1];
    GroupsOfOne(m1);
  }

  // Each example takes its text as a parameter fixed by the precondition:
  // with the literal written into the contract itself, the solver tries to
  // evaluate the recursive scanner on it and runs out of resources.

  // "ab=cd=e": the scan restarts inside words, and only "cd=e" ends at the
  // end of the text.

  lemma MidWordSkips(t: string)
    requires t == "ab=cd=e"
    ensures FindAll(t) == FindAll(t[2..])
  {
    WordRunIs(t, 2);
    WordRunIs(t[3..], 2);
    SkipUnended(t, 2, 2);
    var t1 := t[1..];
    WordRunIs(t1, 1);
    WordRunIs(t1[2..], 2);
    SkipUnended(t1, 1, 2);
    assert t1[1..] == t[2..];
  }

  lemma MidWordMatches(t: string)
    requires t == "ab=cd=e"
    ensures FindAll(t) == [Match("cd", "", "e")]
  {
    MidWordSkips(t);
    var t2 := t[2..];
    WordRunIs(t2, 0);
    SkipNoName(t2, 0);
    CdMatches(t2[1..]);
  }

  lemma CdMatches(c: string)
    requires c == "cd=e"
    ensures FindAll(c) == [Match("cd", "", "e")]
  {
    assert BareMatch(c, 2, 4);
    MatchAtBare(c, 2, 4);
    assert c[..2] == "cd" && c[3..4] == "e";
    LastMatch(c, Match("cd", "", "e"));
  }

  lemma ExampleMidWord(t: string)
    requires t == "ab=cd=e"
    ensures TokenGroups(t) == [("cd", "e")]
  {
    MidWordMatches(t);
    GroupsOfOne(Match("cd", "", "e"));
  }

  // "a=b,c=d": "a=b" is not followed by a space, so it is dropped silently.

  lemma BadSeparatorSkips(t: string)
    requires t == "a=b,c=d"
    ensures FindAll(t) == FindAll(t[2..])
  {
    WordRunIs(t, 1);
    WordRunIs(t[2..], 1);
    SkipUnended(t, 1, 1);
    var t1 := t[1..];
    WordRunIs(t1, 0);
    SkipNoName(t1, 0);
    assert t1[1..] == t[2..];
  }

  lemma BadSeparatorMatches(t: string)
    requires t == "a=b,c=d"
    ensures FindAll(t) == [Match("c", "", "d")]
  {
    BadSeparatorSkips(t);
    var t2 := t[2..];
    WordRunIs(t2, 1);
    SkipNoName(t2, 1);
    var t3 := t2[1..];
    WordRunIs(t3, 0);
    SkipNoName(t3, 0);
    CMatches(t3[1..]);
  }

  lemma CMatches(c: string)
    requires c == "c=d"
    ensures FindAll(c) == [Match("c", "", "d")]
  {
    assert BareMatch(c, 1, 3);
    MatchAtBare(c, 1, 3);
    assert c[..1] == "c" && c[2..3] == "d";
    LastMatch(c, Match("c", "", "d"));
  }

  lemma ExampleBadSeparator(t: string)
    requires t == "a=b,c=d"
    ensures TokenGroups(t) == [("c", "d")]
  {
    BadSeparatorMatches(t);
    GroupsOfOne(Match("c", "", "d"));
  }

  // x="": an empty quoted value is taken by the quoted branch and gives "".

  lemma EmptyQuotedMatches(t: string)
    requires t == "x=\"\""
    ensures FindAll(t) == [Match("x", "\"\"", "")]
  {
    assert QuotedMatch(t, 1, 3);
    MatchAtQuoted(t, 1, 3);
    assert t[..1] == "x" && t[2..4] == "\"\"";
    LastMatch(t, Match("x", "\"\"", ""));
  }

  lemma ExampleEmptyQuoted(t: string)
    requires t == "x=\"\""
    ensures TokenGroups(t) == [("x", "")]
  {
    EmptyQuotedMatches(t);
    GroupsOfOne(Match("x", "\"\"", ""));
    StripWrapped("");
  }

  // x=""a"": every leading and trailing quote is stripped.

  lemma AllQuotesMatches(t: string)
    requires t == "x=\"\"a\"\""
    ensures FindAll(t) == [Match("x", t[2..], "")]
  {
    assert QuotedMatch(t, 1, 6);
    assert forall k: nat :: k < 6 ==> !QuotedMatch(t, 1, k);
    MatchAtQuoted(t, 1, 6);
    assert t[..1] == "x" && t[2..7] == t[2..];
    LastMatch(t, Match("x", t[2..], ""));
  }

  lemma StripAllQuotes(v: string)
    requires v == "\"\"a\"\""
    ensures StripQuotes(v) == "a"
  {
    assert StripLeading(v) == StripLeading(v[1..]);
    assert StripLeading(v[1..]) == StripLeading(v[2..]);
    StripTrailingA(v[2..]);
  }

  lemma StripTrailingA(w: string)
    requires w == "a\"\""
    ensures StripLeading(w) == w && StripTrailing(w) == "a"
  {
    assert StripTrailing(w) == StripTrailing(w[..2]);
    assert StripTrailing(w[..2]) == StripTrailing(w[..1]);
    assert w[..1] == "a";
  }

  lemma ExampleAllQuotesStripped(t: string)
    requires t == "x=\"\"a\"\""
    ensures TokenGroups(t) == [("x", "a")]
  {
    var m := Match("x", t[2..], "");
    AllQuotesMatches(t);
    StripAllQuotes(m.quoted);
    assert Value(m) == "a";
    GroupsOfOne(m);
    assert TokenGroups(t) == Groups([m]);
  }

  // a="x\" y": the quote after a backslash cannot close the value.

  lemma EscapedQuoteMatches(t: string)
    requires t == "a=\"x\\\" y\""
    ensures FindAll(t) == [Match("a", t[2..], "")]
  {
    assert QuotedMatch(t, 1, 8);
    assert forall k: nat :: k < 8 ==> !QuotedMatch(t, 1, k);
    MatchAtQuoted(t, 1, 8);
    assert t[..1] == "a" && t[2..9] == t[2..];
    LastMatch(t, Match("a", t[2..], ""));
  }

  lemma StripEscaped(q: string)
    requires q == "\"x\\\" y\""
    ensures StripQuotes(q) == "x\\\" y"
  {
    var v := "x\\\" y";
    assert q == "\"" + v + "\"";
    StripWrapped(v);
  }

  lemma ExampleEscapedQuote(t: string)
    requires t == "a=\"x\\\" y\""
    ensures TokenGroups(t) == [("a", "x\\\" y")]
  {
    EscapedQuoteMatches(t);
    EscapedQuoteGroups(t[2..]);
  }

  lemma EscapedQuoteGroups(q: string)
    requires q == "\"x\\\" y\""
    ensures Groups([Match("a", q, "")]) == [("a", "x\\\" y")]
  {
    GroupsOfOne(Match("a", q, ""));
    StripEscaped(q);
  }

  // "a=b\n": `$` also matches just before a final newline.

  lemma FinalNewlineMatches(t: string)
    requires t == "a=b\n"
    ensures FindAll(t) == [Match("a", "", "b")]
  {
    assert BareMatch(t, 1, 3);
    MatchAtBare(t, 1, 3);
    assert t[..1] == "a" && t[2..3] == "b";
    var rest := t[3..];
    assert FindAll(t) == [Match("a", "", "b")] + FindAll(rest);
    WordRunIs(rest, 0);
    SkipNoName(rest, 0);
    assert rest[1..] == [];
  }

  lemma ExampleFinalNewline(t: string)
    requires t == "a=b\n"
    ensures TokenGroups(t) == [("a", "b")]
  {
    FinalNewlineMatches(t);
    GroupsOfOne(Match("a", "", "b"));
  }

  // The tag text of `{% variable greeting="Hi {[ u ]}" count=3 %}` after the
  // tag name: the private markers pass through untouched.

  lemma GreetingMatches(t: string)
    requires t == "greeting=\"Hi {[ u ]}\" count=3"
    ensures FindAll(t) == [QuotedMatchOf(("greeting", "Hi {[ u ]}")), Match("count", "", "3")]
  {
    var p := ("greeting", "Hi {[ u ]}");
    var c := "count=3";
    GreetingEncodable(p);
    GreetingLayout(t, p, c);
    FindAllEncodedThen(p, c);
    CountMatches(c);
  }

  lemma GreetingEncodable(p: (string, string))
    requires p == ("greeting", "Hi {[ u ]}")
    ensures Encodable(p)
  {
    assert IsWord(p.0);
  }

  lemma GreetingLayout(t: string, p: (string, string), c: string)
    requires t == "greeting=\"Hi {[ u ]}\" count=3"
    requires p == ("greeting", "Hi {[ u ]}") && c == "count=3"
    ensures t == Encode(p) + " " + c
  {
  }

  lemma CountMatches(c: string)
    requires c == "count=3"
    ensures FindAll(c) == [Match("count", "", "3")]
  {
    assert BareMatch(c, 5, 7);
    MatchAtBare(c, 5, 7);
    assert c[..5] == "count" && c[6..7] == "3";
    LastMatch(c, Match("count", "", "3"));
  }

  lemma ExampleGreeting(t: string)
    requires t == "greeting=\"Hi {[ u ]}\" count=3"
    ensures TokenGroups(t) == [("greeting", "Hi {[ u ]}"), ("count", "3")]
  {
    GreetingMatches(t);
    var p := ("greeting", "Hi {[ u ]}");
    GroupsOfTwo(QuotedMatchOf(p), Match("count", "", "3"));
    StripWrapped(p.1);
  }
}
