/** The private tag markers of a variable's logic: `{[` and `]}` stand for
    `{%` and `%}` so that the outer tag's own text is not cut short, and are
    turned back into real tag delimiters when a `LazyVariable` is built. */
module Markers {

  /** Python's `s.replace(a + b, c + d)` for a two-character pattern: scan
      from the left, replace each occurrence and resume after it, so that
      occurrences never overlap. */
  function ReplacePair(s: string, a: char, b: char, c: char, d: char): (r: string)
    ensures |r| == |s|
    decreases |s|
  {
    if |s| < 2 then s
    else if s[0] == a && s[1] == b then [c, d] + ReplacePair(s[2..], a, b, c, d)
    else [s[0]] + ReplacePair(s[1..], a, b, c, d)
  }

  /** `s` holds no `a` immediately followed by `b`. */
  predicate NoPair(s: string, a: char, b: char) {
    forall i :: 0 <= i < |s| - 1 ==> !(s[i] == a && s[i + 1] == b)
  }

  /** Each character of the result is the one in the input, or the pattern's
      character turned into the replacement's at the same offset. */
  lemma {:induction false} ReplacePairPointwise(s: string, a: char, b: char, c: char, d: char)
    ensures var r := ReplacePair(s, a, b, c, d);
      forall i :: 0 <= i < |s| ==>
        r[i] == s[i] || (s[i] == a && r[i] == c) || (s[i] == b && r[i] == d)
    decreases |s|
  {
    var r := ReplacePair(s, a, b, c, d);
    if |s| < 2 {
    } else if s[0] == a && s[1] == b {
      ReplacePairPointwise(s[2..], a, b, c, d);
      forall i | 0 <= i < |s|
        ensures r[i] == s[i] || (s[i] == a && r[i] == c) || (s[i] == b && r[i] == d)
      {
        if i >= 2 {
          assert r[i] == ReplacePair(s[2..], a, b, c, d)[i - 2] && s[i] == s[2..][i - 2];
        }
      }
    } else {
      ReplacePairPointwise(s[1..], a, b, c, d);
      forall i | 0 <= i < |s|
        ensures r[i] == s[i] || (s[i] == a && r[i] == c) || (s[i] == b && r[i] == d)
      {
        if i >= 1 {
          assert r[i] == ReplacePair(s[1..], a, b, c, d)[i - 1] && s[i] == s[1..][i - 1];
        }
      }
    }
  }

  /** The first character of the result: unchanged, or the start of a
      replacement. */
  lemma ReplacePairHead(s: string, a: char, b: char, c: char, d: char)
    requires s != []
    ensures var r := ReplacePair(s, a, b, c, d);
      (r[0] == s[0] && (|s| < 2 || !(s[0] == a && s[1] == b))) ||
      (|s| >= 2 && s[0] == a && s[1] == b && r[0] == c && r[1] == d)
  {
  }

  /** Text without the pattern comes back unchanged. */
  lemma {:induction false} ReplacePairIdentity(s: string, a: char, b: char, c: char, d: char)
    requires NoPair(s, a, b)
    ensures ReplacePair(s, a, b, c, d) == s
    decreases |s|
  {
    if |s| >= 2 {
      assert !(s[0] == a && s[1] == b);
      assert NoPair(s[1..], a, b) by {
        forall i | 0 <= i < |s[1..]| - 1
          ensures !(s[1..][i] == a && s[1..][i + 1] == b)
        {
          assert s[1..][i] == s[i + 1] && s[1..][i + 1] == s[i + 2];
        }
      }
      ReplacePairIdentity(s[1..], a, b, c, d);
      assert s == [s[0]] + s[1..];
    }
  }

  /** No occurrence of the pattern survives, provided the replacement cannot
      form one with its neighbours: it differs from the pattern, does not end
      with the pattern's first character and does not start with its second. */
  lemma {:induction false} ReplacePairRemoves(s: string, a: char, b: char, c: char, d: char)
    requires (c, d) != (a, b) && d != a && c != b
    ensures NoPair(ReplacePair(s, a, b, c, d), a, b)
    decreases |s|
  {
    var r := ReplacePair(s, a, b, c, d);
    if |s| < 2 {
    } else if s[0] == a && s[1] == b {
      var rest := s[2..];
      var tail := ReplacePair(rest, a, b, c, d);
      ReplacePairRemoves(rest, a, b, c, d);
      assert r == [c, d] + tail;
      forall i | 0 <= i < |r| - 1
        ensures !(r[i] == a && r[i + 1] == b)
      {
        if i == 1 && tail != [] {
          assert r[i] == d;
        } else if i >= 2 {
          assert r[i] == tail[i - 2] && r[i + 1] == tail[i - 1];
        }
      }
    } else {
      var rest := s[1..];
      var tail := ReplacePair(rest, a, b, c, d);
      ReplacePairRemoves(rest, a, b, c, d);
      assert r == [s[0]] + tail;
      forall i | 0 <= i < |r| - 1
        ensures !(r[i] == a && r[i + 1] == b)
      {
        if i == 0 {
          ReplacePairHead(rest, a, b, c, d);
          assert rest[0] == s[1];
        } else {
          assert r[i] == tail[i - 1] && r[i + 1] == tail[i];
        }
      }
    }
  }

  /** `_replace_django_tags`: `{[` becomes `{%`, then `]}` becomes `%}`. */
  function ReplaceDjangoTags(logic: string): (r: string)
    ensures |r| == |logic|
  {
    ReplacePair(ReplacePair(logic, '{', '[', '{', '%'), ']', '}', '%', '}')
  }

  /** Only brackets change, and only into `%`; no marker is left behind; and
      the text comes back unchanged exactly when it holds no marker. */
  lemma ReplaceDjangoTagsSpec(logic: string)
    ensures var r := ReplaceDjangoTags(logic);
      && (forall i :: 0 <= i < |logic| ==>
            r[i] == logic[i] || (logic[i] in "[]" && r[i] == '%'))
      && NoPair(r, '{', '[') && NoPair(r, ']', '}')
      && (r == logic <==> NoPair(logic, '{', '[') && NoPair(logic, ']', '}'))
  {
    var openTags := ReplacePair(logic, '{', '[', '{', '%');
    ReplacePairPointwise(logic, '{', '[', '{', '%');
    ReplacePairPointwise(openTags, ']', '}', '%', '}');
    ReplacePairRemoves(logic, '{', '[', '{', '%');
    ReplacePairRemoves(openTags, ']', '}', '%', '}');
    if NoPair(logic, '{', '[') && NoPair(logic, ']', '}') {
      ReplacePairIdentity(logic, '{', '[', '{', '%');
      ReplacePairIdentity(openTags, ']', '}', '%', '}');
    }
  }

  /** `{[x]}` becomes `{%x%}`. */
  lemma ExampleMarkers(logic: string)
    requires logic == "{[x]}"
    ensures ReplaceDjangoTags(logic) == "{%x%}"
  {
    var rest := logic[2..];
    assert rest == "x]}";
    assert ReplacePair(rest, '{', '[', '{', '%') == [rest[0]] + ReplacePair(rest[1..], '{', '[', '{', '%');
    assert ReplacePair(rest[1..], '{', '[', '{', '%') == [rest[1]] + ReplacePair(rest[2..], '{', '[', '{', '%');
    var openTags := ReplacePair(logic, '{', '[', '{', '%');
    assert openTags == "{%x]}";
    var tail := openTags[3..];
    assert tail == "]}";
    assert ReplacePair(tail, ']', '}', '%', '}') == "%}" + ReplacePair(tail[2..], ']', '}', '%', '}');
    assert ReplacePair(openTags, ']', '}', '%', '}') == [openTags[0]] + ReplacePair(openTags[1..], ']', '}', '%', '}');
    assert ReplacePair(openTags[1..], ']', '}', '%', '}') == [openTags[1]] + ReplacePair(openTags[2..], ']', '}', '%', '}');
    assert ReplacePair(openTags[2..], ']', '}', '%', '}') == [openTags[2]] + ReplacePair(tail, ']', '}', '%', '}');
  }
}
