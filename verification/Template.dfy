/** The three rewriting passes of `renderTemplate` in `src/agents/prompt-builder.ts`, and a one-pass
    evaluator for the templates they are meant for. */
module Template {
  import opened Characters
  import opened Wrappers

  // ---------- Characters and variables ----------

  predicate IsWord(c: char) {
    'a' <= c <= 'z' || 'A' <= c <= 'Z' || '0' <= c <= '9' || c == '_'
  }

  /** The letters, the digits and the underscore. */
  lemma IsWordExactly(c: char)
    ensures IsWord(c) <==>
            c in "ABCDEFGHIJKLMNOPQRSTUVWXYZ" || c in "abcdefghijklmnopqrstuvwxyz" || c in "0123456789" || c == '_'
  {
    UpperExactly(c);
    LowerExactly(c);
    DigitExactly(c);
  }

  datatype Value = Text(s: string) | Flag(b: bool)

  /** The variables of a rendering. `inherited` holds what a plain object finds on its prototype,
      such as `constructor`, by the text it converts to. */
  datatype Env = Env(own: map<string, Value>, inherited: map<string, string>) {

    predicate Knows(name: string) {
      name in own || name in inherited
    }

    predicate Truthy(name: string) {
      if name in own then (match own[name] case Text(s) => s != "" case Flag(b) => b)
      else name in inherited
    }

    function Shown(name: string): string
      requires Knows(name)
    {
      if name in own then (match own[name] case Text(s) => s case Flag(b) => if b then "true" else "false")
      else inherited[name]
    }
  }

  datatype Kind = If | Unless {
    function Opening(): string { if If? then "{{#if" else "{{#unless" }
    function Closing(): string { if If? then "{{/if}}" else "{{/unless}}" }
    function Other(): Kind { if If? then Unless else If }
    predicate Keeps(env: Env, name: string) {
      if If? then env.Truthy(name) else !env.Truthy(name)
    }
  }

  // ---------- The passes ----------

  function SpaceLength(s: string): (n: nat)
    ensures n <= |s|
  {
    if s != "" && IsSpace(s[0]) then 1 + SpaceLength(s[1..]) else 0
  }

  function WordLength(s: string): (n: nat)
    ensures n <= |s|
  {
    if s != "" && IsWord(s[0]) then 1 + WordLength(s[1..]) else 0
  }

  /** A word between two pairs of braces: the word and the length of the match. */
  function MatchName(s: string): (r: Option<(string, nat)>)
    ensures r.Some? ==> 2 < r.value.1 <= |s|
  {
    var n := WordLength(s);
    if 0 < n && "}}" <= s[n..] then Some((s[..n], n + 2)) else None
  }

  /** The header of a block at the start of `s`. */
  function MatchHeader(kind: Kind, s: string): (r: Option<(string, nat)>)
    ensures r.Some? ==> 2 < r.value.1 <= |s|
  {
    if !(kind.Opening() <= s) then None
    else
      var t := s[|kind.Opening()|..];
      var n := SpaceLength(t);
      if n == 0 then None
      else
        var name := MatchName(t[n..]);
        if name.None? then None else Some((name.value.0, |kind.Opening()| + n + name.value.1))
  }

  /** Where `mark` first occurs. */
  function Find(s: string, mark: string): (r: Option<nat>)
    requires mark != ""
    ensures r.Some? ==> r.value + |mark| <= |s|
  {
    if mark <= s then Some(0)
    else if s == "" then None
    else
      var r := Find(s[1..], mark);
      if r.None? then None else Some(r.value + 1)
  }

  datatype Match = Match(name: string, content: string, rest: string)

  function MatchContent(kind: Kind, name: string, t: string): (r: Option<Match>)
    ensures r.Some? ==> |r.value.rest| < |t|
  {
    var end := Find(t, kind.Closing());
    if end.None? then None else Some(Match(name, t[..end.value], t[end.value + |kind.Closing()|..]))
  }

  /** The block at the start of `s`: a header and the first closing tag after it. */
  function MatchBlock(kind: Kind, s: string): (r: Option<Match>)
    ensures r.Some? ==> |r.value.rest| < |s|
  {
    var header := MatchHeader(kind, s);
    if header.None? then None else MatchContent(kind, header.value.0, s[header.value.1..])
  }

  /** `{{#if V}}...{{/if}}` or `{{#unless V}}...{{/unless}}`, leftmost first, shortest content. */
  function BlockPass(kind: Kind, env: Env, s: string): string
    decreases |s|
  {
    if s == "" then ""
    else
      var block := MatchBlock(kind, s);
      if block.None? then [s[0]] + BlockPass(kind, env, s[1..])
      else
        (if kind.Keeps(env, block.value.name) then block.value.content else "") + BlockPass(kind, env, block.value.rest)
  }

  /** `{{V}}` */
  function VariablePass(env: Env, s: string): string
    decreases |s|
  {
    if s == "" then ""
    else if !("{{" <= s) || MatchName(s[2..]).None? then [s[0]] + VariablePass(env, s[1..])
    else
      var (name, n) := MatchName(s[2..]).value;
      (if env.Knows(name) then env.Shown(name) else "{{" + name + "}}") + VariablePass(env, s[2..][n..])
  }

  function Render(s: string, env: Env): string {
    VariablePass(env, BlockPass(Unless, env, BlockPass(If, env, s)))
  }

  // ---------- Templates as trees ----------

  datatype Node =
    | Plain(text: string)
    | Variable(name: string)
    | Block(kind: Kind, space: string, name: string, body: seq<Node>)

  function Header(kind: Kind, space: string, name: string): string {
    kind.Opening() + space + name + "}}"
  }

  function Print(nodes: seq<Node>): string
    decreases nodes
  {
    if nodes == [] then "" else PrintNode(nodes[0]) + Print(nodes[1..])
  }

  function PrintNode(node: Node): string
    decreases node
  {
    match node
    case Plain(text) => text
    case Variable(name) => "{{" + name + "}}"
    case Block(kind, space, name, body) => Header(kind, space, name) + Print(body) + kind.Closing()
  }

  /** The one-pass meaning. */
  function Eval(nodes: seq<Node>, env: Env): string
    decreases nodes
  {
    if nodes == [] then "" else EvalNode(nodes[0], env) + Eval(nodes[1..], env)
  }

  function EvalNode(node: Node, env: Env): string
    decreases node
  {
    match node
    case Plain(text) => text
    case Variable(name) => if env.Knows(name) then env.Shown(name) else "{{" + name + "}}"
    case Block(kind, _, name, body) => if kind.Keeps(env, name) then Eval(body, env) else ""
  }

  predicate IsName(s: string) {
    s != "" && forall c :: c in s ==> IsWord(c)
  }

  predicate IsGap(s: string) {
    s != "" && forall c :: c in s ==> IsSpace(c)
  }

  predicate IsPlain(s: string) {
    forall c :: c in s ==> c != '{' && c != '}'
  }

  lemma PlainExactly(s: string)
    ensures IsPlain(s) <==> '{' !in s && '}' !in s
  {}

  /** No block of this kind at any depth. */
  predicate Without(kind: Kind, nodes: seq<Node>)
    decreases nodes
  {
    nodes == [] || (WithoutNode(kind, nodes[0]) && Without(kind, nodes[1..]))
  }

  predicate WithoutNode(kind: Kind, node: Node)
    decreases node
  {
    match node
    case Block(k, _, _, body) => k != kind && Without(kind, body)
    case _ => true
  }

  /** Names, gaps and brace-free text in the right places. */
  predicate Spelled(nodes: seq<Node>)
    decreases nodes
  {
    nodes == [] || (SpelledNode(nodes[0]) && Spelled(nodes[1..]))
  }

  predicate SpelledNode(node: Node)
    decreases node
  {
    match node
    case Plain(text) => IsPlain(text)
    case Variable(name) => IsName(name)
    case Block(kind, space, name, body) => IsGap(space) && IsName(name) && Spelled(body)
  }

  /** Some block of this kind stands inside another one, at any depth. */
  predicate Nests(kind: Kind, nodes: seq<Node>)
    decreases nodes
  {
    nodes != [] && (NestsNode(kind, nodes[0]) || Nests(kind, nodes[1..]))
  }

  predicate NestsNode(kind: Kind, node: Node)
    decreases node
  {
    match node
    case Block(k, _, _, body) => (k == kind && !Without(kind, body)) || Nests(kind, body)
    case _ => false
  }

  // ---------- Text in which a mark cannot start ----------

  /** No occurrence of the mark can start inside the text, whatever follows the text. */
  ghost predicate Clear(text: string, mark: string) {
    forall k :: 0 <= k < |text| ==> Blocked(text, mark, k)
  }

  ghost predicate Blocked(text: string, mark: string, k: nat) {
    exists j :: 0 <= j < |mark| && k + j < |text| && text[k + j] != mark[j]
  }

  lemma ClearConcat(a: string, b: string, mark: string)
    requires Clear(a, mark) && Clear(b, mark)
    ensures Clear(a + b, mark)
  {
    forall k | 0 <= k < |a + b| ensures Blocked(a + b, mark, k) {
      if k < |a| {
        assert Blocked(a, mark, k);
        var j :| 0 <= j < |mark| && k + j < |a| && a[k + j] != mark[j];
        assert (a + b)[k + j] != mark[j];
      } else {
        assert Blocked(b, mark, k - |a|);
        var j :| 0 <= j < |mark| && k - |a| + j < |b| && b[k - |a| + j] != mark[j];
        assert (a + b)[k + j] != mark[j];
      }
    }
  }

  lemma ClearTail(text: string, mark: string)
    requires text != "" && Clear(text, mark)
    ensures Clear(text[1..], mark)
  {
    forall k | 0 <= k < |text[1..]| ensures Blocked(text[1..], mark, k) {
      assert Blocked(text, mark, k + 1);
      var j :| 0 <= j < |mark| && k + 1 + j < |text| && text[k + 1 + j] != mark[j];
      assert text[1..][k + j] != mark[j];
    }
  }

  lemma ClearNotPrefix(text: string, mark: string, rest: string)
    requires text != "" && Clear(text, mark)
    ensures !(mark <= text + rest)
  {
    assert Blocked(text, mark, 0);
    var j :| 0 <= j < |mark| && 0 + j < |text| && text[0 + j] != mark[j];
    assert (text + rest)[j] != mark[j];
  }

  lemma {:induction false} FindAfterClear(text: string, mark: string, rest: string)
    requires mark != "" && Clear(text, mark)
    ensures Find(text + mark + rest, mark) == Some(|text|)
    decreases |text|
  {
    var s := text + mark + rest;
    if text == "" {
      assert s == mark + rest;
    } else {
      assert s == text + (mark + rest);
      ClearNotPrefix(text, mark, mark + rest);
      ClearTail(text, mark);
      FindAfterClear(text[1..], mark, rest);
      assert s[1..] == text[1..] + mark + rest;
    }
  }

  lemma NoHeaderCopied(kind: Kind, env: Env, c: char, rest: string)
    requires !(kind.Opening() <= [c] + rest)
    ensures BlockPass(kind, env, [c] + rest) == [c] + BlockPass(kind, env, rest)
  {
    assert ([c] + rest)[1..] == rest;
  }

  /** A pass copies text in which no header can start. */
  lemma {:induction false} PassCopies(kind: Kind, env: Env, text: string, rest: string)
    requires Clear(text, kind.Opening())
    ensures BlockPass(kind, env, text + rest) == text + BlockPass(kind, env, rest)
    decreases |text|
  {
    if text == "" {
      assert text + rest == rest;
    } else {
      var c, more := text[0], text[1..];
      ClearNotPrefix(text, kind.Opening(), rest);
      ClearTail(text, kind.Opening());
      PassCopies(kind, env, more, rest);
      assert text == [c] + more;
      AssocText([c], more, rest);
      NoHeaderCopied(kind, env, c, more + rest);
      AssocText([c], more, BlockPass(kind, env, rest));
    }
  }

  lemma AssocText(a: string, b: string, c: string)
    ensures (a + b) + c == a + (b + c)
  {}

  /** Brace-free text, variables, and the tags of other blocks are clear of a block's tags. */
  lemma PlainClear(text: string, kind: Kind)
    requires IsPlain(text)
    ensures Clear(text, kind.Opening()) && Clear(text, kind.Closing())
  {
    forall k | 0 <= k < |text| ensures Blocked(text, kind.Opening(), k) && Blocked(text, kind.Closing(), k) {
      assert text[k] in text;
      assert text[k + 0] != kind.Opening()[0] && text[k + 0] != kind.Closing()[0];
    }
  }

  /** A tag: two braces, then text without opening braces whose start tells it from the mark. */
  lemma TagClear(tag: string, mark: string, d: nat)
    requires |mark| > 2 && mark[..2] == "{{" && |tag| > 2 && tag[1] == '{'
    requires 2 <= d < |mark| && d < |tag| && tag[d] != mark[d]
    requires forall k :: 2 <= k < |tag| ==> tag[k] != '{'
    ensures Clear(tag, mark)
  {
    assert mark[0] == '{' && mark[1] == '{';
    forall k | 0 <= k < |tag| ensures Blocked(tag, mark, k) {
      if k == 0 {
        assert tag[k + d] != mark[d];
      } else if k == 1 {
        assert tag[k + 1] != mark[1];
      } else {
        assert tag[k + 0] != mark[0];
      }
    }
  }
}
