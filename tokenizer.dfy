/** The attribute tokenizer of the `{% variable %}` tag: the regular
    expression TOKEN_REGEX, the left-to-right search that `re.findall`
    performs with it, and `get_token_groups`, which turns each match into a
    `(name, value)` pair.

    The expression is `(\w+)=(?:(".*?")(?<!\\")|(\w+))(?:(?= )|$)`, compiled
    under Python 2 without flags: `\w` is ASCII `[A-Za-z0-9_]`, `.` is any
    character but a newline, and `$` matches at the end of the text or just
    before a newline that ends it. */
module Tokenizer {
  import opened Wrappers

  /** `\w` without `re.UNICODE`. */
  predicate IsWordChar(c: char) {
    ('a' <= c <= 'z') || ('A' <= c <= 'Z') || ('0' <= c <= '9') || c == '_'
  }

  /** A non-empty run of `\w` characters, what `\w+` matches. */
  predicate IsWord(s: string) {
    |s| > 0 && forall i :: 0 <= i < |s| ==> IsWordChar(s[i])
  }

  /** The end-of-token group `(?:(?= )|$)` holds at position `p` of `t`:
      a space follows, or `p` is the end, or only a final newline follows. */
  predicate EndOfToken(t: string, p: nat) {
    (p < |t| && t[p] == ' ') || p == |t| || (p + 1 == |t| && t[p] == '\n')
  }

  /** One match as `findall` reports it: the three groups, where a group that
      did not take part in the match is the empty string. */
  datatype Match = Match(name: string, quoted: string, bare: string)

  /** The number of characters the match consumes. */
  function Length(m: Match): nat {
    |m.name| + 1 + |m.quoted| + |m.bare|
  }

  /** The length of the longest run of word characters at the start of `t`. */
  function WordRun(t: string): (n: nat)
    ensures n <= |t|
    ensures forall i :: 0 <= i < n ==> IsWordChar(t[i])
    ensures n < |t| ==> !IsWordChar(t[n])
  {
    if |t| > 0 && IsWordChar(t[0]) then 1 + WordRun(t[1..]) else 0
  }

  // ---------------------------------------------------------------------
  // What the expression matches, stated declaratively, for a match that
  // starts at position 0 of `t`.

  /** `(\w+)=` matches `t[..n]` followed by the `=` at `n`. */
  ghost predicate NameAt(t: string, n: nat) {
    0 < n < |t| && (forall i :: 0 <= i < n ==> IsWordChar(t[i])) && t[n] == '='
  }

  /** A `"` at `q` can close the quoted value opened at `o`: the lazy `.*?`
      crossed no newline, the look-behind `(?<!\\")` sees no backslash before
      it, and the token ends right after it. */
  ghost predicate ClosesAt(t: string, o: nat, q: nat) {
    o < q < |t| && t[q] == '"' && t[q - 1] != '\\' && EndOfToken(t, q + 1) &&
    forall k :: o < k < q ==> t[k] != '\n'
  }

  /** The quoted branch matches `t[..q + 1]`, with the name `t[..n]`. */
  ghost predicate QuotedMatch(t: string, n: nat, q: nat) {
    NameAt(t, n) && n + 1 < |t| && t[n + 1] == '"' && ClosesAt(t, n + 1, q)
  }

  /** The bare branch matches `t[..e]`, with the name `t[..n]`. */
  ghost predicate BareMatch(t: string, n: nat, e: nat) {
    NameAt(t, n) && n + 1 < e <= |t| &&
    (forall i :: n + 1 <= i < e ==> IsWordChar(t[i])) && EndOfToken(t, e)
  }

  // ---------------------------------------------------------------------
  // The matcher.

  /** The lazy `.*?"` search for the closing quote of a value opened at `o`,
      trying candidate `q` and then the later ones; every character between
      the quotes must have been consumed by `.`, so a newline ends the search. */
  function FindClose(t: string, o: nat, q: nat): (r: Option<nat>)
    requires o < q <= |t|
    requires forall k :: o < k < q ==> t[k] != '\n'
    ensures r.Some? ==> q <= r.value && ClosesAt(t, o, r.value)
    ensures forall q' :: q <= q' && ClosesAt(t, o, q') ==> r.Some? && r.value <= q'
    decreases |t| - q
  {
    if q == |t| then None
    else if t[q] == '"' && t[q - 1] != '\\' && EndOfToken(t, q + 1) then Some(q)
    else if t[q] == '\n' then None
    else FindClose(t, o, q + 1)
  }

  /** The only name `(\w+)=` can match at the start of `t`: the whole run of
      word characters, which backtracking cannot shorten since `=` is not one. */
  lemma NameIsWordRun(t: string, n: nat)
    requires NameAt(t, n)
    ensures n == WordRun(t)
  {
  }

  /** When neither branch matches after the only possible name, nothing
      matches at all. */
  lemma NeitherBranch(t: string, n: nat)
    requires NameAt(t, n)
    requires forall q :: !QuotedMatch(t, n, q)
    requires forall e :: !BareMatch(t, n, e)
    ensures forall n', q :: !QuotedMatch(t, n', q)
    ensures forall n', e :: !BareMatch(t, n', e)
  {
    forall n' | NameAt(t, n') ensures n' == n {
      NameIsWordRun(t, n);
      NameIsWordRun(t, n');
    }
  }

  /** The quoted branch for the name `t[..n]`: the position of the nearest
      quote that can close the value, if any. */
  function MatchQuoted(t: string, n: nat): (q: Option<nat>)
    requires NameAt(t, n)
    ensures q.Some? ==> QuotedMatch(t, n, q.value) && forall q': nat :: q' < q.value ==> !QuotedMatch(t, n, q')
    ensures q.None? ==> forall q' :: !QuotedMatch(t, n, q')
  {
    if n + 1 < |t| && t[n + 1] == '"' then FindClose(t, n + 1, n + 2) else None
  }

  /** The bare branch for the name `t[..n]`: the end of the greedy `\w+`
      value, if the token ends there. */
  function MatchBare(t: string, n: nat): (e: Option<nat>)
    requires NameAt(t, n)
    ensures e.Some? ==> BareMatch(t, n, e.value)
    ensures e.None? ==> forall e' :: !BareMatch(t, n, e')
  {
    var rest := t[n + 1..];
    var m := WordRun(rest);
    assert forall e: nat :: BareMatch(t, n, e) ==> e == n + 1 + m by {
      forall e: nat | BareMatch(t, n, e) ensures e == n + 1 + m {
        forall i | 0 <= i < e - n - 1 ensures IsWordChar(rest[i]) {
          assert rest[i] == t[n + 1 + i];
        }
      }
    }
    if m > 0 && EndOfToken(t, n + 1 + m) then
      assert forall i :: n + 1 <= i < n + 1 + m ==> t[i] == rest[i - n - 1];
      Some(n + 1 + m)
    else
      None
  }

  /** TOKEN_REGEX matched at the start of `t`, in the order the backtracking
      engine tries it: the only name `\w+` can take before `=`, then the
      quoted branch with the nearest closing quote, then the bare branch. */
  function MatchAt(t: string): (r: Option<Match>)
    ensures r.Some? ==> 0 < Length(r.value) <= |t|
    ensures r.Some? && r.value.quoted != [] ==>
      var m := r.value; var n := |m.name|; var q := n + |m.quoted|;
      m.bare == [] && QuotedMatch(t, n, q) && m.name == t[..n] && m.quoted == t[n + 1..q + 1] &&
      forall q': nat :: q' < q ==> !QuotedMatch(t, n, q')
    ensures r.Some? && r.value.quoted == [] ==>
      var m := r.value; var n := |m.name|; var e := n + 1 + |m.bare|;
      BareMatch(t, n, e) && m.name == t[..n] && m.bare == t[n + 1..e] &&
      forall q :: !QuotedMatch(t, n, q)
    ensures r.None? ==> (forall n, q :: !QuotedMatch(t, n, q)) && (forall n, e :: !BareMatch(t, n, e))
  {
    var n := WordRun(t);
    if !(0 < n < |t| && t[n] == '=') then
      assert forall n' :: !NameAt(t, n') by {
        forall n' | NameAt(t, n') ensures false { NameIsWordRun(t, n'); }
      }
      None
    else
      match MatchQuoted(t, n)
      case Some(q) => Some(Match(t[..n], t[n + 1..q + 1], ""))
      case None =>
        match MatchBare(t, n)
        case Some(e) => Some(Match(t[..n], "", t[n + 1..e]))
        case None =>
          NeitherBranch(t, n);
          None
  }

  /** Every match is made of the pieces the expression allows. */
  ghost predicate WellFormed(m: Match) {
    IsWord(m.name) &&
    if m.quoted != [] then
      m.bare == [] && |m.quoted| >= 2 && m.quoted[0] == '"' && m.quoted[|m.quoted| - 1] == '"'
    else
      IsWord(m.bare)
  }

  /** `TOKEN_REGEX.findall(t)`: try a match at every position from the left;
      after a match, resume where it ended, otherwise one character later. */
  function FindAll(t: string): (ms: seq<Match>)
    ensures forall i :: 0 <= i < |ms| ==> WellFormed(ms[i])
    decreases |t|
  {
    if t == [] then []
    else
      match MatchAt(t)
      case Some(m) =>
        assert WellFormed(m) by {
          assert forall i :: 0 <= i < |m.name| ==> m.name[i] == t[i];
          if m.quoted == [] {
            assert forall i :: 0 <= i < |m.bare| ==> m.bare[i] == t[|m.name| + 1 + i];
          }
        }
        [m] + FindAll(t[Length(m)..])
      case None => FindAll(t[1..])
  }

  // ---------------------------------------------------------------------
  // `strip('"')`

  /** `lstrip('"')`: drop every leading double quote. */
  function StripLeading(s: string): (r: string)
    ensures |r| <= |s| && r == s[|s| - |r|..]
    ensures forall i :: 0 <= i < |s| - |r| ==> s[i] == '"'
    ensures |r| > 0 ==> r[0] != '"'
    decreases |s|
  {
    if |s| > 0 && s[0] == '"' then StripLeading(s[1..]) else s
  }

  /** `rstrip('"')`: drop every trailing double quote. */
  function StripTrailing(s: string): (r: string)
    ensures |r| <= |s| && r == s[..|r|]
    ensures forall i :: |r| <= i < |s| ==> s[i] == '"'
    ensures |r| > 0 ==> r[|r| - 1] != '"'
    decreases |s|
  {
    if |s| > 0 && s[|s| - 1] == '"' then StripTrailing(s[..|s| - 1]) else s
  }

  /** `strip('"')`: every leading and every trailing double quote removed,
      not just one of each. */
  function StripQuotes(s: string): (r: string)
    ensures |r| <= |s|
    ensures var k := |s| - |StripLeading(s)|;
      k + |r| <= |s| && r == s[k..k + |r|] &&
      (forall i :: 0 <= i < k ==> s[i] == '"') && (forall i :: k + |r| <= i < |s| ==> s[i] == '"')
    ensures |r| > 0 ==> r[0] != '"' && r[|r| - 1] != '"'
  {
    StripTrailing(StripLeading(s))
  }

  // ---------------------------------------------------------------------
  // get_token_groups

  /** The value of a match: `match[1].strip('"') if match[1] else match[2]`. */
  function Value(m: Match): string {
    if m.quoted != [] then StripQuotes(m.quoted) else m.bare
  }

  /** The value of a well-formed match: a bare value is a word; a quoted
      value is shorter than its group by at least the two quotes; and no
      value starts or ends with a quote. */
  lemma ValueShape(m: Match)
    requires WellFormed(m)
    ensures m.quoted == [] ==> IsWord(Value(m))
    ensures m.quoted != [] ==> |Value(m)| <= |m.quoted| - 2
    ensures Value(m) != [] ==> Value(m)[0] != '"' && Value(m)[|Value(m)| - 1] != '"'
  {
    if m.quoted == [] {
      assert !IsWordChar('"');
    } else {
      StripQuotesShorter(m.quoted);
    }
  }

  /** A group opened and closed by a quote loses at least those two. */
  lemma StripQuotesShorter(q: string)
    requires |q| >= 2 && q[0] == '"' && q[|q| - 1] == '"'
    ensures |StripQuotes(q)| <= |q| - 2
  {
    var rest := StripLeading(q);
    LeadingQuoteDropped(q);
    if rest != [] {
      assert rest[|rest| - 1] == q[|q| - 1];
      TrailingQuoteDropped(rest);
    }
  }

  /** A leading quote is always stripped. */
  lemma LeadingQuoteDropped(s: string)
    requires s != [] && s[0] == '"'
    ensures |StripLeading(s)| < |s|
  {
    assert StripLeading(s) == StripLeading(s[1..]);
  }

  /** A trailing quote is always stripped. */
  lemma TrailingQuoteDropped(s: string)
    requires s != [] && s[|s| - 1] == '"'
    ensures |StripTrailing(s)| < |s|
  {
    assert StripTrailing(s) == StripTrailing(s[..|s| - 1]);
  }

  /** The pairs built from a list of matches, in order: one per match. */
  function Groups(ms: seq<Match>): (gs: seq<(string, string)>)
    ensures |gs| == |ms|
    decreases |ms|
  {
    if ms == [] then [] else Groups(ms[..|ms| - 1]) + [(ms[|ms| - 1].name, Value(ms[|ms| - 1]))]
  }

  /** One more match adds its pair at the end. */
  lemma GroupsAppend(ms: seq<Match>, m: Match)
    ensures Groups(ms + [m]) == Groups(ms) + [(m.name, Value(m))]
  {
    assert (ms + [m])[..|ms|] == ms;
  }

  /** The `i`-th pair comes from the `i`-th match. */
  lemma {:induction false} GroupsAt(ms: seq<Match>)
    ensures |Groups(ms)| == |ms|
    ensures forall i :: 0 <= i < |ms| ==> Groups(ms)[i] == (ms[i].name, Value(ms[i]))
    decreases |ms|
  {
    if ms != [] {
      GroupsAt(ms[..|ms| - 1]);
    }
  }

  /** What `get_token_groups(text)` returns. */
  function TokenGroups(text: string): (gs: seq<(string, string)>)
    ensures forall i :: 0 <= i < |gs| ==> IsWord(gs[i].0)
    ensures forall i :: 0 <= i < |gs| && gs[i].1 != [] ==> gs[i].1[0] != '"' && gs[i].1[|gs[i].1| - 1] != '"'
  {
    GroupsShape(FindAll(text));
    Groups(FindAll(text))
  }

  /** The pairs of well-formed matches have word names and values that
      neither start nor end with a quote. */
  lemma GroupsShape(ms: seq<Match>)
    requires forall i :: 0 <= i < |ms| ==> WellFormed(ms[i])
    ensures forall i :: 0 <= i < |ms| ==> IsWord(Groups(ms)[i].0)
    ensures forall i :: 0 <= i < |ms| && Groups(ms)[i].1 != [] ==>
      Groups(ms)[i].1[0] != '"' && Groups(ms)[i].1[|Groups(ms)[i].1| - 1] != '"'
  {
    GroupsAt(ms);
    forall i | 0 <= i < |ms|
      ensures IsWord(Groups(ms)[i].0)
      ensures Groups(ms)[i].1 != [] ==> Groups(ms)[i].1[0] != '"' && Groups(ms)[i].1[|Groups(ms)[i].1| - 1] != '"'
    {
      var m := ms[i];
      assert WellFormed(m);
      ValueShape(m);
      assert Groups(ms)[i] == (m.name, Value(m));
    }
  }

  /** `get_token_groups`: append one pair per match of `findall`. It cannot
      fail. */
  method GetTokenGroups(text: string) returns (tokenGroups: seq<(string, string)>)
    ensures tokenGroups == TokenGroups(text)
  {
    var matches := FindAll(text);
    assert TokenGroups(text) == Groups(matches);
    tokenGroups := [];
    for i := 0 to |matches|
      invariant tokenGroups == Groups(matches[..i])
    {
      var m := matches[i];
      tokenGroups := tokenGroups + [(m.name, Value(m))];
      assert matches[..i + 1] == matches[..i] + [m];
      GroupsAppend(matches[..i], m);
    }
    assert matches[..|matches|] == matches;
  }
}
