# The `{% variable %}` template tag, modelled in Dafny

`variable.py` adds one block tag to Django templates:

```
{% variable greeting="Hello {[ user.name ]}!" count=3 %}
  ... {{ greeting }} ... {{ greeting }} ...
{% endvariable %}
```

Each `name=value` attribute becomes a `LazyVariable`. This object holds a
fragment of template logic, renders it the first time it is used and returns
the kept output after that. A fragment cannot contain real `{% %}` tags,
because they would end the outer tag, so it writes them as `{[ ]}`. The
variable turns them back into `{% %}` before rendering. While the tag's body
renders, the variables sit in a new frame pushed onto the template context.
The frame is popped again when the body has rendered or has failed.

The project has six files:

- `wrappers.dfy`: the `Option` and `Result` types.
- `tokenizer.dfy`: the attribute tokenizer. It contains `TOKEN_REGEX` as a
  dedicated matcher (`MatchAt`), stated against a declarative reading of the
  expression (`QuotedMatch`, `BareMatch`). It also contains the left-to-right
  scan of `re.findall` (`FindAll`), `strip('"')` (`StripQuotes`), and
  `get_token_groups` (the loop `GetTokenGroups`, specified by the function
  `TokenGroups`).
- `tokenizer_properties.dfy`: what the tokenizer promises. It finds nothing
  exactly when nothing matches, it cannot fail, it strips quotes, and it
  reads back (round trip) what a well-formed attribute list writes.
- `tokenizer_examples.dfy`: worked inputs. Each one shows a rule of the
  expression: a match can start inside a word, a token must be followed by a
  space or the end, every surrounding quote is stripped, a quote after a
  backslash does not close a value, and a final newline is accepted.
- `markers.dfy`: `_replace_django_tags`. It is built on a model of Python's
  `str.replace` with a two-character pattern.
- `variable.dfy`: the tag itself.
  - `Context` is the template context's stack of dictionaries: push, update
    of the top, pop.
  - `LazyVariable` has `resolve`, with its cache, and `__str__`.
  - `RenderNodes` is the in-order join of the body's output.
  - `TemplateVariableNode` has `render` and `managed_custom_context`.
  - `AttributeText` and `DoVariable` are `do_variable`.

Failures are values. A render that raises becomes `Err`. The `ValueError` of
`str.index`, raised when the tag's contents hold no space, becomes `None`.

Where the tag's documentation and its code differ, the model follows the
code:

- `strip('"')` removes every leading and every trailing double quote, not
  just one pair. So `x=""a""` gives `a` (`ExampleAllQuotesStripped`).
- `{% variable %}` without attributes has no space in its contents.
  `token_text.index(' ')` then raises, so the tag does not compile and the
  body is never rendered. `AttributeText` and `DoVariable` give `None` for
  it.
- The docstring of `get_token_groups` says a value must be quoted. The
  expression also accepts a bare `\w+` value (`count=3`).

## Model

| member | source | states |
|---|---|---|
| Tokenizer.WordRun | variable.py:16 | `\w+` at the start of the text takes the longest run of ASCII word characters: every character before the returned length is one and the next one is not |
| Tokenizer.NameIsWordRun | variable.py:16 | the only name `(\w+)=` can match is the whole leading word run, so backtracking never shortens it |
| Tokenizer.FindClose | variable.py:18-19 | the lazy `".*?"` with its look-behind closes a value at the nearest quote that has no backslash before it, is followed by a token end and has no newline before it; no later quote is chosen when an earlier one qualifies, and the result is `None` only when no quote qualifies |
| Tokenizer.MatchQuoted | variable.py:18-28 | the quoted branch succeeds exactly when some closing quote qualifies, and then at the first one |
| Tokenizer.MatchBare | variable.py:21-28 | the bare branch succeeds exactly when the greedy `\w+` value is followed by a space, the end, or a final newline |
| Tokenizer.MatchAt | variable.py:14-29 | a match at the start of the text consumes at least one character and no more than the text; a quoted match is the first valid closing quote; a bare match is produced only when no quoted match exists; no match means neither branch can match for any name or end |
| Tokenizer.NeitherBranch | variable.py:14-29 | when neither the quoted nor the bare branch matches after the only name `\w+` can take, no name and no end gives a match of either branch |
| Tokenizer.FindAll | variable.py:46 | every match `findall` reports has a word name and either a quoted group that starts and ends with `"` or a word as bare value |
| Tokenizer.StripLeading | variable.py:48 | `lstrip('"')` returns a suffix of its input; everything cut off is a quote and the result does not start with one |
| Tokenizer.StripTrailing | variable.py:48 | `rstrip('"')` returns a prefix of its input; everything cut off is a quote and the result does not end with one |
| Tokenizer.StripQuotes | variable.py:48 | `strip('"')` returns the middle of its input with only quotes cut from either end, and the result neither starts nor ends with a quote |
| Tokenizer.StripQuotesShorter | variable.py:48 | `strip('"')` of a group that opens and closes with a quote removes at least those two characters |
| Tokenizer.GroupsAt | variable.py:46-48 | the `i`-th pair comes from the `i`-th match: its name, and the stripped quoted group if that is non-empty, else the bare group |
| Tokenizer.ValueShape | variable.py:48 | the value taken from a well-formed match: a bare value is a word; a quoted value is at least two characters shorter than its group; no value starts or ends with a quote |
| Tokenizer.Groups | variable.py:45-50 | the pairs built from the matches: exactly one pair per match |
| Tokenizer.GroupsAppend | variable.py:46-48 | one more match appends exactly its own pair, its name and its value, after the pairs already built |
| Tokenizer.GroupsShape | variable.py:46-48 | for well-formed matches, every pair has a word as name and a value that neither starts nor ends with a quote |
| Tokenizer.TokenGroups | variable.py:34-50 | every returned name is a non-empty word, and no returned value starts or ends with a quote |
| Tokenizer.GetTokenGroups | variable.py:45-50 | the append loop returns exactly the pairs of all matches in order, for every input (it never fails) |
| TokenizerProperties.FindAllEmpty | variable.py:46 | `findall` returns nothing if and only if the expression matches at no position of the text |
| TokenizerProperties.TokenGroupsEmpty | variable.py:34-50 | `get_token_groups` returns the empty list if and only if no token matches anywhere |
| TokenizerProperties.SkipAll | variable.py:46 | the scan passes over any stretch of positions where nothing matches |
| TokenizerProperties.SpaceSkipped | variable.py:24-28 | a leading space never starts or changes any token |
| TokenizerProperties.StripWrapped | variable.py:48 | stripping a value written between one pair of quotes gives the value back when it neither starts nor ends with a quote; `""` gives the empty string |
| TokenizerProperties.StripIdempotent | variable.py:48 | stripping twice is stripping once |
| TokenizerProperties.MatchAtQuoted | variable.py:18-28 | when a quoted value can close at `q` and at no earlier position, the match is exactly that name and that quoted value |
| TokenizerProperties.BareEndUnique | variable.py:21-28 | a bare value can end at one position only |
| TokenizerProperties.MatchAtBare | variable.py:21-28 | when the bare branch matches, the match is exactly that name and word value |
| TokenizerProperties.EncodedLayout | variable.py:16-18 | where the name, `=`, the quotes and the value sit in `name="value"` |
| TokenizerProperties.MatchEncoded | variable.py:14-29 | `name="value"`, followed by a space or nothing, matches with its own name and whole quoted value when the value holds no quote or newline and does not end in a backslash |
| TokenizerProperties.QuotedMatches | variable.py:46 | one quoted match per pair, in order |
| TokenizerProperties.FindAllStep | variable.py:46 | after a match, the scan resumes where the match ended |
| TokenizerProperties.FindAllEncodedThen | variable.py:46 | an encoded pair, a space and more text gives that pair's match followed by the matches of the rest |
| TokenizerProperties.FindAllJoin | variable.py:46 | `findall` on pairs encoded and joined by single spaces gives one quoted match per pair, in order |
| TokenizerProperties.RoundTrip | variable.py:34-50 | `get_token_groups` reads back exactly the pairs written as `name="value"` joined by single spaces, for word names and values with no quote, no newline and no final backslash |
| TokenizerExamples.ExampleMidWord | variable.py:14-29 | `ab=cd=e` gives only `("cd", "e")`: the scan restarts inside words, and `ab=cd` is not followed by a token end |
| TokenizerExamples.ExampleBadSeparator | variable.py:24-28 | `a=b,c=d` gives only `("c", "d")`: a pair not followed by a space or the end is dropped silently |
| TokenizerExamples.ExampleEmptyQuoted | variable.py:48 | `x=""` gives `("x", "")` |
| TokenizerExamples.ExampleAllQuotesStripped | variable.py:48 | `x=""a""` gives `("x", "a")`: every surrounding quote is stripped |
| TokenizerExamples.ExampleEscapedQuote | variable.py:18-19 | in `a="x\" y"` the quote after the backslash does not close the value, which is `x\" y` |
| TokenizerExamples.ExampleFinalNewline | variable.py:27 | `a=b` followed by a final newline gives `("a", "b")`: `$` matches before it |
| TokenizerExamples.ExampleGreeting | variable.py:34-50 | `greeting="Hi {[ u ]}" count=3` gives both pairs in order, with the markers untouched |
| Markers.ReplacePair | variable.py:82 | `str.replace` with a two-character pattern and replacement keeps the length of the text |
| Markers.ReplacePairPointwise | variable.py:82 | every character of the result is the input's character, or a pattern character turned into the replacement character at the same offset |
| Markers.ReplacePairIdentity | variable.py:82 | text without the pattern comes back unchanged |
| Markers.ReplacePairRemoves | variable.py:82 | no occurrence of the pattern is left when the replacement cannot form one with its neighbours |
| Markers.ReplaceDjangoTags | variable.py:81-82 | keeps the length of the logic |
| Markers.ReplaceDjangoTagsSpec | variable.py:81-82 | only `[` and `]` change, and only into `%`; no `{[` and no `]}` is left; the logic is unchanged if and only if it holds neither marker |
| Markers.ExampleMarkers | variable.py:81-82 | `{[x]}` becomes `{%x%}` |
| Variable.Lookup | variable.py:155-158 | looking a name up in the stack gives `None` exactly when no frame binds it; otherwise the value bound by the topmost frame that binds it |
| Variable.LookupPushed | variable.py:155-158 | inside the body, a name bound by the pushed frame resolves to that binding; other names resolve as they did before the push |
| Variable.Context.Push | variable.py:155 | pushes one empty dictionary on top of the stack |
| Variable.Context.UpdateTop | variable.py:157 | the top dictionary gains the given bindings, which override its own; the frames below do not change |
| Variable.Context.Pop | variable.py:160 | removes the top dictionary, and refuses when it is the only one |
| Variable.LazyVariable.constructor | variable.py:76-79 | keeps the tag library and the context, and stores the logic with its markers replaced; nothing is cached yet |
| Variable.LazyVariable.Resolve | variable.py:98-104 | with a kept value, returns it whatever the context, without rendering; otherwise renders once against the given context and keeps the output only when the render succeeds, so a failure leaves nothing kept; a kept value is always what a render of the logic produced |
| Variable.LazyVariable.Str | variable.py:106-107 | resolves against the context captured at construction, as that context stands at the time of the call |
| Variable.ResolveTwice | variable.py:98-104 | two resolves against any two contexts: after a first success the second returns the same output and the logic has rendered once; after a failure the second renders afresh against its own context |
| Variable.RenderNodes | variable.py:138 | the join succeeds if and only if every node renders; on failure, the error is that of the first node that fails |
| Variable.RenderNodesJoin | variable.py:138 | when every node renders, the output is their outputs concatenated in order |
| Variable.Staged | variable.py:150-153 | the dictionary holds one entry per distinct attribute name, and each entry holds the logic of that name's last occurrence |
| Variable.TemplateVariableNode.constructor | variable.py:112-123 | keeps the body, the tag library and the attribute pairs |
| Variable.TemplateVariableNode.StageVariables | variable.py:150-153 | one new, uncached variable per distinct name, holding the logic of the name's last occurrence and bound to the given context; different names get different variables |
| Variable.TemplateVariableNode.EnterCustomContext | variable.py:150-158 | stages the variables and pushes them as a new frame, on top of the unchanged stack; each pushed variable is a new, uncached one for its name, holding that name's last logic with the markers replaced, the node's tag library, the given context and the fragment renderer, and different names get different variables |
| Variable.TemplateVariableNode.ExitCustomContext | variable.py:159-160 | pops the frame pushed on entry |
| Variable.TemplateVariableNode.Render | variable.py:130-160 | the body's output is the in-order join of its nodes rendered against the stack with the variables on top; each variable is a new, uncached one for its name, holding that name's last logic with the markers replaced, the node's tag library, the rendered context and the fragment renderer, and different names get different variables; afterwards the stack is exactly as before, whether the body succeeded or failed |
| Variable.IndexOf | variable.py:62 | `str.index` gives the first position of the character, and `None` exactly when it is absent |
| Variable.AttributeText | variable.py:62 | `None` exactly when the contents hold no space; otherwise everything after the first space |
| Variable.DoVariable | variable.py:54-69 | no node exactly when the contents hold no space; otherwise a new node whose attribute pairs are `get_token_groups` of the text after the tag name |

## Left out

- Django's lexer, parser and nodes are not modelled. The body and the
  rendering of a variable's logic are parameters: `NodeRenderer` and
  `FragmentRenderer`, pure functions of the context's stack that may fail.
- Variable.TemplateVariableNode.Render: a body node is a pure function of
  the stack. So the model does not capture a body node that resolves a
  variable (and so fills its cache), or that changes the context itself.
  The cache is modelled through `LazyVariable.Resolve` alone.
- Variable.LazyVariable.Resolve: the choice between the debug lexer/parser
  and the plain ones (lines 85-94) is left out, because both render the same
  output. `mark_safe` is the identity, because the model has no notion of
  escaping.
- Variable.DoVariable: `parser.parse(('endvariable',))` and
  `delete_first_token` are left out. The parsed body is given as a parameter.
  Registration with `register.tag` is left out too.
- Variable.TemplateVariableNode: the node keeps the parser only to read
  `parser.tags` at render time. The model keeps the tag library itself,
  fixed when the node is built.
- The `contextmanager` generator is modelled by its two halves,
  `EnterCustomContext` and `ExitCustomContext`. `Render` calls them around
  the body. Its `try`/`finally` becomes an unconditional pop, because a
  failing body is an `Err` value rather than an exception.
- The `nodelist` property is the constant field `nodelist`.
- Django's `Context` is modelled only as far as the tag uses it: a
  non-empty stack of dictionaries with push, update of the top and pop.
  Autoescaping, the render context and the other context features are left
  out.
- Tokenizer.MatchAt: this is a matcher for this one expression, not a
  general regular-expression engine. Characters are Dafny characters, and
  `\w` is the ASCII class that Python 2 uses without `re.UNICODE`.
