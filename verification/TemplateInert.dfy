/** What the values of the variables can do to a rendering: for every template text, only whether they
    are truthy decides its shape, and the values are then put in as they are. */
module TemplateInert {
  import opened Wrappers
  import opened Template
  import opened TemplatePieces
  import opened TemplateMeaning
  import opened TemplateExact

  ghost predicate SameTruths(a: Env, b: Env) {
    forall name :: a.Truthy(name) == b.Truthy(name)
  }

  /** A text cut into single characters and variable uses, as `VariablePass` reads it. */
  function Uses(s: string): (ps: seq<Piece>)
    ensures forall p :: p in ps ==> p.Literal? || (p.Use? && p.name != "")
    decreases |s|
  {
    if s == "" then []
    else if !("{{" <= s) || MatchName(s[2..]).None? then [Literal([s[0]])] + Uses(s[1..])
    else [Use(MatchName(s[2..]).value.0)] + Uses(s[2..][MatchName(s[2..]).value.1..])
  }

  lemma {:induction false} VariablePassShows(env: Env, s: string)
    ensures VariablePass(env, s) == ShowPieces(env, Uses(s))
    decreases |s|
  {
    if s != "" {
      if !("{{" <= s) || MatchName(s[2..]).None? {
        VariablePassShows(env, s[1..]);
      } else {
        VariablePassShows(env, s[2..][MatchName(s[2..]).value.1..]);
      }
    }
  }

  lemma {:induction false} BlocksReadTruths(kind: Kind, a: Env, b: Env, s: string)
    requires SameTruths(a, b)
    ensures BlockPass(kind, a, s) == BlockPass(kind, b, s)
    decreases |s|
  {
    if s != "" {
      var block := MatchBlock(kind, s);
      if block.None? {
        BlocksReadTruths(kind, a, b, s[1..]);
      } else {
        assert kind.Keeps(a, block.value.name) == kind.Keeps(b, block.value.name);
        BlocksReadTruths(kind, a, b, block.value.rest);
      }
    }
  }

  /** The template after its block passes. */
  function Skeleton(s: string, env: Env): seq<Piece> {
    Uses(BlockPass(Unless, env, BlockPass(If, env, s)))
  }

  /** Two environments with the same truths fill in one skeleton, each with its own values: no value
      opens a block, is substituted in, or changes the text around it. */
  lemma ValuesAreInert(s: string, a: Env, b: Env)
    requires SameTruths(a, b)
    ensures Render(s, a) == ShowPieces(a, Skeleton(s, a)) && Render(s, b) == ShowPieces(b, Skeleton(s, a))
  {
    BlocksReadTruths(If, a, b, s);
    BlocksReadTruths(Unless, a, b, BlockPass(If, a, s));
    VariablePassShows(a, BlockPass(Unless, a, BlockPass(If, a, s)));
    VariablePassShows(b, BlockPass(Unless, b, BlockPass(If, b, s)));
  }

  // ---------- Values ----------

  lemma NodeThen(node: Node, rest: seq<Node>, env: Env)
    ensures Print([node] + rest) == PrintNode(node) + Print(rest)
    ensures Eval([node] + rest, env) == EvalNode(node, env) + Eval(rest, env)
    ensures Spelled([node] + rest) <==> SpelledNode(node) && Spelled(rest)
    ensures forall kind :: Nests(kind, [node] + rest) <==> NestsNode(kind, node) || Nests(kind, rest)
    ensures forall kind :: Without(kind, [node] + rest) <==> WithoutNode(kind, node) && Without(kind, rest)
  {
    assert ([node] + rest)[1..] == rest;
  }

  lemma ThreeNodes(before: string, node: Node, after: string, env: Env) returns (nodes: seq<Node>)
    ensures Print(nodes) == before + (PrintNode(node) + after)
            && Eval(nodes, env) == before + (EvalNode(node, env) + after)
    ensures Spelled(nodes) <==> IsPlain(before) && SpelledNode(node) && IsPlain(after)
    ensures Nests(If, nodes) == NestsNode(If, node) && Nests(Unless, nodes) == NestsNode(Unless, node)
  {
    var last := [Plain(after)];
    NodeThen(Plain(after), [], env);
    assert last + [] == last;
    NodeThen(node, last, env);
    NodeThen(Plain(before), [node] + last, env);
    nodes := [Plain(before)] + ([node] + last);
  }

  lemma BetweenTexts(before: string, node: Node, after: string, env: Env)
    requires IsPlain(before) && IsPlain(after) && SpelledNode(node) && !NestsNode(If, node) && !NestsNode(Unless, node)
    ensures Render(before + PrintNode(node) + after, env) == before + EvalNode(node, env) + after
  {
    var nodes := ThreeNodes(before, node, after, env);
    RenderIsEval(nodes, env);
    Assoc(before, PrintNode(node), after);
    Assoc(before, EvalNode(node, env), after);
  }

  /** A text appears as it is and a flag as its word, between any texts without braces. */
  lemma ValueAppears(before: string, name: string, after: string, env: Env)
    requires IsPlain(before) && IsPlain(after) && IsName(name) && name in env.own
    ensures Render(before + "{{" + name + "}}" + after, env)
         == before + (match env.own[name] case Text(s) => s case Flag(b) => if b then "true" else "false") + after
  {
    BetweenTexts(before, Variable(name), after, env);
    Assoc(before + "{{", name, "}}");
    Assoc(before, "{{", name + "}}");
    Assoc(before, "{{" + name, "}}");
    assert before + PrintNode(Variable(name)) == before + "{{" + name + "}}";
  }

  /** A block on a text is kept if the text is not empty, one on a flag if the flag is set; the negated
      block is kept in the other case. */
  lemma BlockOnValue(before: string, space: string, name: string, body: string, after: string, env: Env)
    requires IsPlain(before) && IsPlain(body) && IsPlain(after) && IsGap(space) && IsName(name) && name in env.own
    ensures
      var kept := match env.own[name] case Text(s) => s != "" case Flag(b) => b;
      && Render(before + ("{{#if" + space + name + "}}" + body + "{{/if}}") + after, env)
         == before + (if kept then body else "") + after
      && Render(before + ("{{#unless" + space + name + "}}" + body + "{{/unless}}") + after, env)
         == before + (if kept then "" else body) + after
  {
    PlainBlock(If, space, name, body, env);
    BetweenTexts(before, Block(If, space, name, [Plain(body)]), after, env);
    PlainBlock(Unless, space, name, body, env);
    BetweenTexts(before, Block(Unless, space, name, [Plain(body)]), after, env);
  }

  lemma PlainBlock(kind: Kind, space: string, name: string, body: string, env: Env)
    requires IsPlain(body) && IsGap(space) && IsName(name)
    ensures
      var block := Block(kind, space, name, [Plain(body)]);
      && SpelledNode(block) && !NestsNode(If, block) && !NestsNode(Unless, block)
      && EvalNode(block, env) == (if kind.Keeps(env, name) then body else "")
      && PrintNode(block) == kind.Opening() + space + name + "}}" + body + kind.Closing()
  {
    NodeThen(Plain(body), [], env);
    assert [Plain(body)] + [] == [Plain(body)];
  }

  // ---------- Inherited names ----------

  lemma AloneRenders(node: Node, env: Env)
    requires SpelledNode(node) && !NestsNode(If, node) && !NestsNode(Unless, node)
    ensures Render(PrintNode(node), env) == EvalNode(node, env)
  {
    assert [node][1..] == [];
    assert Print([node]) == PrintNode(node) + Print([node][1..]) == PrintNode(node);
    assert Eval([node], env) == EvalNode(node, env) + Eval([node][1..], env) == EvalNode(node, env);
    NestsOne(If, node);
    NestsOne(Unless, node);
    RenderIsEval([node], env);
  }

  /** A use of a name that is not held survives if the name is not inherited either; otherwise it
      shows what is inherited. */
  lemma InheritedUseResolves(env: Env, name: string)
    requires IsName(name) && name !in env.own
    ensures Render("{{" + name + "}}", env) == if name in env.inherited then env.inherited[name] else "{{" + name + "}}"
  {
    AloneRenders(Variable(name), env);
  }

  /** A block on a name that is not held is kept exactly when the name is inherited. */
  lemma InheritedBlockKept(env: Env, name: string, space: string, body: seq<Node>)
    requires IsName(name) && IsGap(space) && name !in env.own
    requires Spelled(body) && Without(If, body) && !Nests(Unless, body)
    ensures Render(PrintNode(Block(If, space, name, body)), env)
         == if name in env.inherited then Eval(body, env) else ""
  {
    WithoutNestsNot(If, body);
    AloneRenders(Block(If, space, name, body), env);
  }
}
