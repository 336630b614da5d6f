/** The `{% variable name="logic" ... %} ... {% endvariable %}` tag: each
    attribute becomes a `LazyVariable` that renders its logic at most once,
    the variables are pushed as a new frame of the template context while the
    tag's body renders, and the frame is popped again afterwards. */
module Variable {
  import opened Wrappers
  import opened Markers
  import opened Tokenizer

  /** The names of the tags the template parser knows. */
  type TagLibrary = set<string>

  /** Whatever a render raises; the model only carries it through. */
  datatype RenderError = RenderError(message: string)

  /** A context value: plain text, or a variable made by this tag. */
  datatype Value = Text(text: string) | Variable(cell: LazyVariable)

  /** One dictionary of the context's stack. */
  type Frame = map<string, Value>

  /** Renders a fragment of template text with the given tag library against
      the context's stack, as Django's lexer, parser and nodes do. */
  type FragmentRenderer = (string, TagLibrary, seq<Frame>) -> Result<string, RenderError>

  /** One node of the tag's body: its output for the context's stack. */
  type NodeRenderer = seq<Frame> -> Result<string, RenderError>

  /** Name lookup in a stack of frames: the topmost frame that binds the
      name decides. */
  function Lookup(frames: seq<Frame>, name: string): (r: Option<Value>)
    ensures r.None? <==> forall i :: 0 <= i < |frames| ==> name !in frames[i]
    ensures r.Some? ==> exists i :: (0 <= i < |frames| && name in frames[i] && frames[i][name] == r.value
      && forall j :: i < j < |frames| ==> name !in frames[j])
    decreases |frames|
  {
    if frames == [] then None
    else if name in frames[|frames| - 1] then Some(frames[|frames| - 1][name])
    else
      var below := frames[..|frames| - 1];
      var r := Lookup(below, name);
      assert forall i :: 0 <= i < |below| ==> below[i] == frames[i];
      r
  }

  /** A pushed frame shadows every frame below it, and leaves visible the
      names it does not bind. */
  lemma LookupPushed(frames: seq<Frame>, top: Frame, name: string)
    ensures Lookup(frames + [top], name) ==
      if name in top then Some(top[name]) else Lookup(frames, name)
  {
    assert (frames + [top])[..|frames|] == frames;
  }

  /** The template context: a stack of dictionaries that is never empty. */
  class Context {
    var frames: seq<Frame>

    ghost predicate Valid()
      reads this
    {
      |frames| >= 1
    }

    constructor (base: Frame)
      ensures Valid() && frames == [base]
    {
      frames := [base];
    }

    /** `context.push()`: a new, empty dictionary on top. */
    method Push()
      requires Valid()
      modifies this
      ensures Valid() && frames == old(frames) + [map[]]
    {
      frames := frames + [map[]];
    }

    /** `update` on the topmost dictionary. */
    method UpdateTop(bindings: Frame)
      requires Valid()
      modifies this
      ensures Valid()
      ensures frames == old(frames)[..|old(frames)| - 1] + [old(frames)[|old(frames)| - 1] + bindings]
    {
      frames := frames[..|frames| - 1] + [frames[|frames| - 1] + bindings];
    }

    /** `context.pop()`: refused when only one dictionary is left. */
    method Pop() returns (popped: bool)
      requires Valid()
      modifies this
      ensures Valid()
      ensures popped <==> |old(frames)| > 1
      ensures frames == if popped then old(frames)[..|old(frames)| - 1] else old(frames)
    {
      if |frames| == 1 {
        popped := false;
      } else {
        frames := frames[..|frames| - 1];
        popped := true;
      }
    }
  }

  /** A piece of template logic that renders on first use and keeps the
      output. */
  class LazyVariable {
    const tagLibrary: TagLibrary
    /** The logic with its private markers turned into tag delimiters. */
    const logic: string
    /** The context in effect when the variable was made. */
    const context: Context
    const resolveValue: FragmentRenderer
    /** `_cached_value`; `None` while the attribute is unset. */
    var cachedValue: Option<string>
    /** How often the logic has been rendered. */
    ghost var renders: nat
    /** The stack the successful render saw. */
    ghost var renderedFrom: seq<Frame>

    /** A kept value is what rendering the logic once produced. */
    ghost predicate Valid()
      reads this
    {
      cachedValue.Some? ==>
        renders > 0 && resolveValue(logic, tagLibrary, renderedFrom) == Ok(cachedValue.value)
    }

    constructor (logic: string, tagLibrary: TagLibrary, context: Context, resolveValue: FragmentRenderer)
      ensures this.logic == ReplaceDjangoTags(logic)
      ensures this.tagLibrary == tagLibrary && this.context == context && this.resolveValue == resolveValue
      ensures cachedValue == None && renders == 0 && Valid()
    {
      this.tagLibrary := tagLibrary;
      this.logic := ReplaceDjangoTags(logic);
      this.context := context;
      this.resolveValue := resolveValue;
      cachedValue := None;
      renders := 0;
      renderedFrom := [];
    }

    /** `resolve`: the kept value whatever the context, or else one render
        against `ctx`, kept only when it succeeds. */
    method Resolve(ctx: Context) returns (r: Result<string, RenderError>)
      requires Valid()
      modifies this
      ensures Valid()
      ensures old(cachedValue).Some? ==>
        r == Ok(old(cachedValue).value) && cachedValue == old(cachedValue) && renders == old(renders)
      ensures old(cachedValue).None? ==>
        r == resolveValue(logic, tagLibrary, ctx.frames) && renders == old(renders) + 1 &&
        cachedValue == (if r.Ok? then Some(r.value) else None)
    {
      match cachedValue
      case Some(value) =>
        r := Ok(value);
      case None =>
        r := resolveValue(logic, tagLibrary, ctx.frames);
        renders := renders + 1;
        if r.Ok? {
          cachedValue := Some(r.value);
          renderedFrom := ctx.frames;
        }
    }

    /** `__str__`: resolve against the context captured at construction, as
        it stands now. */
    method Str() returns (r: Result<string, RenderError>)
      requires Valid()
      modifies this
      ensures Valid()
      ensures old(cachedValue).Some? ==>
        r == Ok(old(cachedValue).value) && cachedValue == old(cachedValue) && renders == old(renders)
      ensures old(cachedValue).None? ==>
        r == resolveValue(logic, tagLibrary, context.frames) && renders == old(renders) + 1 &&
        cachedValue == (if r.Ok? then Some(r.value) else None)
    {
      r := Resolve(context);
    }
  }

  /** Two resolves in a row, against any two contexts: after a success the
      second gives the same output without rendering again; after a failure
      it renders afresh. */
  method ResolveTwice(v: LazyVariable, first: Context, second: Context)
    returns (r1: Result<string, RenderError>, r2: Result<string, RenderError>)
    requires v.Valid() && v.cachedValue.None?
    modifies v
    ensures v.Valid()
    ensures r1 == v.resolveValue(v.logic, v.tagLibrary, first.frames)
    ensures r1.Ok? ==> r2 == r1 && v.renders == old(v.renders) + 1
    ensures r1.Err? ==> r2 == v.resolveValue(v.logic, v.tagLibrary, second.frames) && v.renders == old(v.renders) + 2
  {
    r1 := v.Resolve(first);
    r2 := v.Resolve(second);
  }

  /** `''.join(node.render(context) for node in nodelist)`: the nodes render
      from left to right and the first failure ends the join. */
  function RenderNodes(nodes: seq<NodeRenderer>, frames: seq<Frame>): (r: Result<string, RenderError>)
    ensures r.Ok? <==> forall i :: 0 <= i < |nodes| ==> nodes[i](frames).Ok?
    ensures r.Err? ==> exists i :: (0 <= i < |nodes| && nodes[i](frames) == Err(r.error) &&
      forall j :: 0 <= j < i ==> nodes[j](frames).Ok?)
    decreases |nodes|
  {
    if nodes == [] then Ok("")
    else
      var rest := nodes[1..];
      assert forall i :: 0 <= i < |rest| ==> rest[i] == nodes[i + 1];
      match nodes[0](frames)
      case Err(e) => Err(e)
      case Ok(head) =>
        match RenderNodes(rest, frames)
        case Err(e) => Err(e)
        case Ok(tail) => Ok(head + tail)
  }

  /** The strings of a list, one after another. */
  function Concat(parts: seq<string>): string
    decreases |parts|
  {
    if parts == [] then "" else parts[0] + Concat(parts[1..])
  }

  /** The output of each node, when all of them succeed. */
  function Outputs(nodes: seq<NodeRenderer>, frames: seq<Frame>): (outs: seq<string>)
    requires forall i :: 0 <= i < |nodes| ==> nodes[i](frames).Ok?
    ensures |outs| == |nodes| && forall i :: 0 <= i < |nodes| ==> Ok(outs[i]) == nodes[i](frames)
  {
    seq(|nodes|, i requires 0 <= i < |nodes| => nodes[i](frames).value)
  }

  /** When every node succeeds, the output is the join of their outputs in
      order. */
  lemma {:induction false} RenderNodesJoin(nodes: seq<NodeRenderer>, frames: seq<Frame>)
    requires forall i :: 0 <= i < |nodes| ==> nodes[i](frames).Ok?
    ensures RenderNodes(nodes, frames) == Ok(Concat(Outputs(nodes, frames)))
    decreases |nodes|
  {
    if nodes != [] {
      var rest := nodes[1..];
      assert forall i :: 0 <= i < |rest| ==> rest[i] == nodes[i + 1];
      RenderNodesJoin(rest, frames);
      assert Outputs(nodes, frames)[1..] == Outputs(rest, frames);
    }
  }

  /** The dictionary the attribute loop builds, name to logic: one entry per
      distinct name, holding the logic of the name's last occurrence. */
  function Staged(tokens: seq<(string, string)>): (m: map<string, string>)
    ensures m.Keys == set i | 0 <= i < |tokens| :: tokens[i].0
    ensures forall j :: 0 <= j < |tokens| && (forall k :: j < k < |tokens| ==> tokens[k].0 != tokens[j].0) ==>
      m[tokens[j].0] == tokens[j].1
    decreases |tokens|
  {
    if tokens == [] then map[]
    else
      var init := tokens[..|tokens| - 1];
      var last := tokens[|tokens| - 1];
      var m := Staged(init);
      assert forall i :: 0 <= i < |init| ==> init[i] == tokens[i];
      m[last.0 := last.1]
  }

  /** The node the tag compiles to. */
  class TemplateVariableNode {
    const nodelist: seq<NodeRenderer>
    /** The parser's tag library, handed to every variable. */
    const tags: TagLibrary
    const variableGroupTokens: seq<(string, string)>
    /** How a variable's logic is rendered. */
    const resolveValue: FragmentRenderer

    constructor (nodelist: seq<NodeRenderer>, tags: TagLibrary, variableGroupTokens: seq<(string, string)>,
                 resolveValue: FragmentRenderer)
      ensures this.nodelist == nodelist && this.tags == tags
      ensures this.variableGroupTokens == variableGroupTokens && this.resolveValue == resolveValue
    {
      this.nodelist := nodelist;
      this.tags := tags;
      this.variableGroupTokens := variableGroupTokens;
      this.resolveValue := resolveValue;
    }

    /** The loop of `managed_custom_context`: one new variable per attribute,
        each bound to `context`, a later attribute replacing an earlier one
        of the same name. */
    method StageVariables(context: Context) returns (variables: Frame)
      ensures variables.Keys == Staged(variableGroupTokens).Keys
      ensures forall name :: name in variables ==>
        && variables[name].Variable?
        && fresh(variables[name].cell)
        && variables[name].cell.logic == ReplaceDjangoTags(Staged(variableGroupTokens)[name])
        && variables[name].cell.tagLibrary == tags
        && variables[name].cell.context == context
        && variables[name].cell.resolveValue == resolveValue
        && variables[name].cell.cachedValue.None?
        && variables[name].cell.Valid()
      ensures forall n, m :: n in variables && m in variables && n != m ==>
        variables[n].cell != variables[m].cell
    {
      var tokens := variableGroupTokens;
      variables := map[];
      for i := 0 to |tokens|
        invariant variables.Keys == Staged(tokens[..i]).Keys
        invariant forall name :: name in variables ==>
          && variables[name].Variable?
          && fresh(variables[name].cell)
          && variables[name].cell.logic == ReplaceDjangoTags(Staged(tokens[..i])[name])
          && variables[name].cell.tagLibrary == tags
          && variables[name].cell.context == context
          && variables[name].cell.resolveValue == resolveValue
          && variables[name].cell.cachedValue.None?
          && variables[name].cell.Valid()
        invariant forall n, m :: n in variables && m in variables && n != m ==>
          variables[n].cell != variables[m].cell
      {
        var (name, logic) := tokens[i];
        var cell := new LazyVariable(logic, tags, context, resolveValue);
        variables := variables[name := Variable(cell)];
        assert tokens[..i + 1][..i] == tokens[..i];
      }
      assert tokens[..|tokens|] == tokens;
    }

    /** Entering `managed_custom_context`: stage the variables, push a frame
        and fill it with them. */
    method EnterCustomContext(context: Context) returns (variables: Frame)
      requires context.Valid()
      modifies context
      ensures context.Valid() && context.frames == old(context.frames) + [variables]
      ensures variables.Keys == Staged(variableGroupTokens).Keys
      ensures forall name :: name in variables ==>
        && variables[name].Variable?
        && fresh(variables[name].cell)
        && variables[name].cell.logic == ReplaceDjangoTags(Staged(variableGroupTokens)[name])
        && variables[name].cell.tagLibrary == tags
        && variables[name].cell.context == context
        && variables[name].cell.resolveValue == resolveValue
        && variables[name].cell.cachedValue.None?
      ensures forall n, m :: n in variables && m in variables && n != m ==>
        variables[n].cell != variables[m].cell
    {
      variables := StageVariables(context);
      context.Push();
      context.UpdateTop(variables);
      assert map[] + variables == variables;
    }

    /** Leaving `managed_custom_context`: pop the frame pushed on entry. */
    method ExitCustomContext(context: Context)
      requires context.Valid() && |context.frames| > 1
      modifies context
      ensures context.Valid() && context.frames == old(context.frames)[..|old(context.frames)| - 1]
    {
      var popped := context.Pop();
    }

    /** `render`: the body's nodes render in order against the stack with the
        variables on top; the stack is as before afterwards, whether the body
        succeeded or failed. */
    method Render(context: Context) returns (r: Result<string, RenderError>, ghost variables: Frame)
      requires context.Valid()
      modifies context
      ensures context.Valid() && context.frames == old(context.frames)
      ensures r == RenderNodes(nodelist, old(context.frames) + [variables])
      ensures variables.Keys == Staged(variableGroupTokens).Keys
      ensures forall name :: name in variables ==>
        && variables[name].Variable?
        && fresh(variables[name].cell)
        && variables[name].cell.logic == ReplaceDjangoTags(Staged(variableGroupTokens)[name])
        && variables[name].cell.tagLibrary == tags
        && variables[name].cell.context == context
        && variables[name].cell.resolveValue == resolveValue
        && variables[name].cell.cachedValue.None?
      ensures forall n, m :: n in variables && m in variables && n != m ==>
        variables[n].cell != variables[m].cell
    {
      var staged := EnterCustomContext(context);
      variables := staged;
      r := RenderNodes(nodelist, context.frames);
      ExitCustomContext(context);
      assert (old(context.frames) + [variables])[..|old(context.frames)|] == old(context.frames);
    }
  }

  /** The first index of `c` in `s`, as `str.index`; `None` where Python
      raises `ValueError`. */
  function IndexOf(s: string, c: char): (r: Option<nat>)
    ensures r.None? <==> c !in s
    ensures r.Some? ==> r.value < |s| && s[r.value] == c && c !in s[..r.value]
    decreases |s|
  {
    if s == [] then None
    else if s[0] == c then Some(0)
    else match IndexOf(s[1..], c)
      case None => None
      case Some(k) =>
        assert s[..k + 1] == [s[0]] + s[1..][..k];
        Some(k + 1)
  }

  /** Line 62 of `do_variable`: the tag's contents after the first space,
      that is without the tag name. */
  function AttributeText(contents: string): (r: Option<string>)
    ensures r.None? <==> ' ' !in contents
    ensures r.Some? ==> var k := |contents| - |r.value| - 1;
      0 <= k && contents[k] == ' ' && ' ' !in contents[..k] && contents[k + 1..] == r.value
  {
    match IndexOf(contents, ' ')
    case None => None
    case Some(k) => Some(contents[k + 1..])
  }

  /** `do_variable`: read the attributes after the tag name and build the
      node around the parsed body; no node when the contents have no space. */
  method DoVariable(contents: string, nodelist: seq<NodeRenderer>, tags: TagLibrary,
                    resolveValue: FragmentRenderer)
    returns (node: Option<TemplateVariableNode>)
    ensures node.None? <==> ' ' !in contents
    ensures node.Some? ==>
      && fresh(node.value)
      && node.value.variableGroupTokens == TokenGroups(AttributeText(contents).value)
      && node.value.nodelist == nodelist
      && node.value.tags == tags
      && node.value.resolveValue == resolveValue
  {
    var text := AttributeText(contents);
    if text.None? {
      return None;
    }
    var groups := GetTokenGroups(text.value);
    var n := new TemplateVariableNode(nodelist, tags, groups, resolveValue);
    return Some(n);
  }
}
