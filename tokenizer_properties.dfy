/** What `get_token_groups` promises, proved about the model in
    tokenizer.dfy: the results it builds, when it returns nothing, what the
    quote stripping does, and that it reads back what a well-formed
    attribute list writes. */
module TokenizerProperties {
  import opened Wrappers
  import opened Tokenizer

  // ---------------------------------------------------------------------
  // When nothing is found

  /** `findall` finds nothing exactly when the expression matches at no
      position of the text. */
  lemma {:induction false} FindAllEmpty(t: string)
    ensures FindAll(t) == [] <==> forall i :: 0 <= i <= |t| ==> MatchAt(t[i..]).None?
    decreases |t|
  {
    if t == [] {
      assert forall i :: 0 <= i <= |t| ==> t[i..] == [];
    } else if MatchAt(t).Some? {
      assert t[0..] == t;
    } else {
      FindAllEmpty(t[1..]);
      assert forall i :: 0 <= i <= |t| - 1 ==> t[1..][i..] == t[i + 1..];
      assert t[0..] == t;
      if FindAll(t) == [] {
        forall i | 0 <= i <= |t| ensures MatchAt(t[i..]).None? {
          if i > 0 {
            assert MatchAt(t[1..][i - 1..]).None?;
          }
        }
      }
    }
  }

  /** `get_token_groups` gives the empty list exactly when no `name=value`
      token matches anywhere in the text. */
  lemma TokenGroupsEmpty(text: string)
    ensures TokenGroups(text) == [] <==> forall i :: 0 <= i <= |text| ==> MatchAt(text[i..]).None?
  {
    FindAllEmpty(text);
    GroupsAt(FindAll(text));
  }

  /** `findall` passes over a stretch of positions at none of which the
      expression matches. */
  lemma {:induction false} SkipAll(t: string, k: nat)
    requires k <= |t|
    requires forall i :: 0 <= i < k ==> MatchAt(t[i..]).None?
    ensures FindAll(t) == FindAll(t[k..])
    decreases k
  {
    if k > 0 {
      assert t[0..] == t;
      SkipAll(t[1..], k - 1) by {
        forall i | 0 <= i < k - 1 ensures MatchAt(t[1..][i..]).None? {
          assert t[1..][i..] == t[i + 1..];
        }
      }
      assert t[1..][k - 1..] == t[k..];
    }
  }

  /** A leading space is never part of a token. */
  lemma SpaceSkipped(t: string)
    ensures FindAll(" " + t) == FindAll(t)
  {
    assert (" " + t)[1..] == t;
  }

  // ---------------------------------------------------------------------
  // Quote stripping

  /** `strip('"')` applied to a value between one pair of quotes gives back
      the value, when the value itself neither starts nor ends with a quote. */
  lemma StripWrapped(v: string)
    requires |v| > 0 ==> v[0] != '"' && v[|v| - 1] != '"'
    ensures StripQuotes("\"" + v + "\"") == v
  {
    var s := "\"" + v + "\"";
    var l := StripLeading(s);
    if v == [] {
      assert StripLeading(s) == StripLeading(s[1..]);
      assert s[1..][1..] == [];
    } else {
      assert s[1] == v[0];
      assert |s| - |l| == 1;
      assert l == v + "\"";
      var r := StripTrailing(l);
      assert l[|l| - 2] == v[|v| - 1];
      assert |r| == |v|;
      assert r == v;
    }
  }

  /** Stripping twice is stripping once. */
  lemma StripIdempotent(s: string)
    ensures StripQuotes(StripQuotes(s)) == StripQuotes(s)
  {
    var r := StripQuotes(s);
    if r != [] {
      assert StripLeading(r) == r;
      assert StripTrailing(r) == r;
    }
  }

  // ---------------------------------------------------------------------
  // Round trip: writing `name="value"` pairs separated by single spaces and
  // tokenizing the result gives the pairs back.

  /** A pair that can be written in the quoted form and read back: a word as
      name, a value with no double quote, no newline and no final backslash. */
  ghost predicate Encodable(p: (string, string)) {
    IsWord(p.0) &&
    (forall i :: 0 <= i < |p.1| ==> p.1[i] != '"' && p.1[i] != '\n') &&
    (|p.1| > 0 ==> p.1[|p.1| - 1] != '\\')
  }

  /** `name="value"`. */
  function Encode(p: (string, string)): string {
    p.0 + "=\"" + p.1 + "\""
  }

  /** The pairs written out, separated by single spaces. */
  function Join(ps: seq<(string, string)>): string
    decreases |ps|
  {
    if ps == [] then ""
    else if |ps| == 1 then Encode(ps[0])
    else Encode(ps[0]) + " " + Join(ps[1..])
  }

  /** The match the expression makes on an encoded pair. */
  function QuotedMatchOf(p: (string, string)): Match {
    Match(p.0, "\"" + p.1 + "\"", "")
  }

  /** When the expression can close a quoted value at `q` and at no earlier
      quote, the match is that quoted value. */
  lemma MatchAtQuoted(t: string, n: nat, q: nat)
    requires QuotedMatch(t, n, q)
    requires forall k: nat :: k < q ==> !QuotedMatch(t, n, k)
    ensures MatchAt(t) == Some(Match(t[..n], t[n + 1..q + 1], ""))
  {
    NameIsWordRun(t, n);
    var m := MatchAt(t).value;
    NameIsWordRun(t, |m.name|);
    if m.quoted != [] {
      assert |m.name| + |m.quoted| == q;
    }
  }

  /** The bare value can end at one place only: `\w+` is greedy and a word
      character cannot end a token. */
  lemma BareEndUnique(t: string, n: nat, e1: nat, e2: nat)
    requires BareMatch(t, n, e1) && BareMatch(t, n, e2)
    ensures e1 == e2
  {
  }

  /** When the bare branch matches `t[..e]` with the name `t[..n]`, that is
      the match (the quoted branch cannot, since a word character follows `=`). */
  lemma MatchAtBare(t: string, n: nat, e: nat)
    requires BareMatch(t, n, e)
    ensures MatchAt(t) == Some(Match(t[..n], "", t[n + 1..e]))
  {
    NameIsWordRun(t, n);
    assert !IsWordChar('"');
    var m := MatchAt(t).value;
    NameIsWordRun(t, |m.name|);
    BareEndUnique(t, n, e, n + 1 + |m.bare|);
  }

  /** The positions of an encoded pair followed by `rest`. */
  lemma EncodedLayout(p: (string, string), rest: string)
    ensures var t := Encode(p) + rest; var n := |p.0|; var q := n + 2 + |p.1|;
      |t| == q + 1 + |rest| && t[..n] == p.0 && t[n] == '=' && t[n + 1] == '"' && t[q] == '"' &&
      (forall k :: n + 2 <= k < q ==> t[k] == p.1[k - n - 2]) &&
      t[q + 1..] == rest && t[n + 1..q + 1] == "\"" + p.1 + "\""
  {
    var t := Encode(p) + rest;
    assert t == p.0 + ("=\"" + p.1 + "\"" + rest);
  }

  /** An encoded pair followed by a space or by nothing matches with its own
      name and the whole quoted value. */
  lemma MatchEncoded(p: (string, string), rest: string)
    requires Encodable(p)
    requires rest == [] || rest[0] == ' '
    ensures MatchAt(Encode(p) + rest) == Some(QuotedMatchOf(p))
  {
    var t := Encode(p) + rest;
    var n := |p.0|;
    var q := n + 2 + |p.1|;
    EncodedLayout(p, rest);
    assert forall k :: 0 <= k < n ==> IsWordChar(t[k]) by {
      forall k | 0 <= k < n ensures IsWordChar(t[k]) { assert t[k] == t[..n][k]; }
    }
    assert t[q - 1] != '\\' by {
      if |p.1| > 0 { assert t[q - 1] == p.1[|p.1| - 1]; }
    }
    assert EndOfToken(t, q + 1) by {
      if rest != [] { assert t[q + 1] == rest[0]; }
    }
    assert QuotedMatch(t, n, q);
    forall k: nat | k < q ensures !QuotedMatch(t, n, k) {
      if n + 1 < k < q { assert t[k] == p.1[k - n - 2]; }
    }
    MatchAtQuoted(t, n, q);
  }

  /** The matches `findall` makes on a joined list, one per pair. */
  function QuotedMatches(ps: seq<(string, string)>): (ms: seq<Match>)
    ensures |ms| == |ps| && forall i :: 0 <= i < |ps| ==> ms[i] == QuotedMatchOf(ps[i])
    decreases |ps|
  {
    if ps == [] then [] else [QuotedMatchOf(ps[0])] + QuotedMatches(ps[1..])
  }

  /** After a match, `findall` resumes where the match ended. */
  lemma FindAllStep(t: string, m: Match)
    requires MatchAt(t) == Some(m)
    ensures FindAll(t) == [m] + FindAll(t[Length(m)..])
  {
  }

  /** Tokenizing one encoded pair followed by a space and more text. */
  lemma FindAllEncodedThen(p: (string, string), more: string)
    requires Encodable(p)
    ensures FindAll(Encode(p) + " " + more) == [QuotedMatchOf(p)] + FindAll(more)
  {
    var rest := " " + more;
    var t := Encode(p) + rest;
    assert Encode(p) + " " + more == t;
    MatchEncoded(p, rest);
    FindAllStep(t, QuotedMatchOf(p));
    assert Length(QuotedMatchOf(p)) == |Encode(p)|;
    assert t[|Encode(p)|..] == rest;
    SpaceSkipped(more);
  }

  /** `findall` on a joined list makes one quoted match per pair, in order. */
  lemma {:induction false} FindAllJoin(ps: seq<(string, string)>)
    requires forall i :: 0 <= i < |ps| ==> Encodable(ps[i])
    ensures FindAll(Join(ps)) == QuotedMatches(ps)
    decreases |ps|
  {
    if ps == [] {
    } else if |ps| == 1 {
      MatchEncoded(ps[0], "");
      assert Encode(ps[0]) + "" == Join(ps);
      FindAllStep(Join(ps), QuotedMatchOf(ps[0]));
      assert Join(ps)[|Join(ps)|..] == [];
    } else {
      assert Join(ps) == Encode(ps[0]) + " " + Join(ps[1..]);
      FindAllEncodedThen(ps[0], Join(ps[1..]));
      FindAllJoin(ps[1..]);
    }
  }

  /** Round trip: `get_token_groups` reads back exactly the pairs that were
      written as `name="value"` separated by single spaces. */
  lemma RoundTrip(ps: seq<(string, string)>)
    requires forall i :: 0 <= i < |ps| ==> Encodable(ps[i])
    ensures TokenGroups(Join(ps)) == ps
  {
    FindAllJoin(ps);
    GroupsAt(QuotedMatches(ps));
    forall i | 0 <= i < |ps| ensures TokenGroups(Join(ps))[i] == ps[i] {
      StripWrapped(ps[i].1);
    }
  }
}
