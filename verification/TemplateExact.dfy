/** A template with a self-nested block is rendered wrongly for some variables. */
module TemplateExact {
  import opened Wrappers
  import opened Template
  import opened TemplatePieces
  import opened TemplateMeaning

  // ---------- Counting tags ----------

  function Opens(kind: Kind, ps: seq<Piece>): nat {
    if ps == [] then 0 else (if ps[0].Head? && ps[0].kind == kind then 1 else 0) + Opens(kind, ps[1..])
  }

  function Closes(kind: Kind, ps: seq<Piece>): nat {
    if ps == [] then 0 else (if ps[0] == Tail(kind) then 1 else 0) + Closes(kind, ps[1..])
  }

  /** In every suffix, at least as many tags close as open. */
  predicate Closable(kind: Kind, ps: seq<Piece>) {
    ps == [] || (Opens(kind, ps) <= Closes(kind, ps) && Closable(kind, ps[1..]))
  }

  lemma {:induction false} CountConcat(kind: Kind, a: seq<Piece>, b: seq<Piece>)
    ensures Opens(kind, a + b) == Opens(kind, a) + Opens(kind, b)
    ensures Closes(kind, a + b) == Closes(kind, a) + Closes(kind, b)
    decreases |a|
  {
    if a == [] {
      assert a + b == b;
    } else {
      CountConcat(kind, a[1..], b);
      assert (a + b)[1..] == a[1..] + b && (a + b)[0] == a[0];
    }
  }

  lemma {:induction false} ClosableSuffix(kind: Kind, ps: seq<Piece>, i: nat)
    requires Closable(kind, ps) && i <= |ps|
    ensures Closable(kind, ps[i..]) && Opens(kind, ps[i..]) <= Closes(kind, ps[i..])
    decreases i
  {
    if i == 0 {
      assert ps[0..] == ps;
    } else {
      ClosableSuffix(kind, ps[1..], i - 1);
      assert ps[1..][i - 1..] == ps[i..];
    }
  }

  lemma {:induction false} NoTailNoClose(kind: Kind, ps: seq<Piece>)
    requires Tail(kind) !in ps
    ensures Closes(kind, ps) == 0
    decreases |ps|
  {
    if ps != [] { NoTailNoClose(kind, ps[1..]); }
  }

  /** Counts around the first closing tag. */
  lemma CountAtTail(kind: Kind, ps: seq<Piece>, i: nat)
    requires i < |ps| && ps[i] == Tail(kind) && Tail(kind) !in ps[..i]
    ensures Closes(kind, ps) == 1 + Closes(kind, ps[i + 1..])
    ensures Opens(kind, ps) == Opens(kind, ps[..i]) + Opens(kind, ps[i + 1..])
  {
    var rest := ps[i + 1..];
    assert ps == ps[..i] + ([Tail(kind)] + rest);
    CountConcat(kind, ps[..i], [Tail(kind)] + rest);
    CountConcat(kind, [Tail(kind)], rest);
    NoTailNoClose(kind, ps[..i]);
    assert [Tail(kind)][1..] == [];
    assert Closes(kind, [Tail(kind)][1..]) == 0 && Opens(kind, [Tail(kind)][1..]) == 0;
  }

  /** With more closing than opening tags, some closing tag survives the pass. */
  lemma {:induction false} TagLeftOver(kind: Kind, env: Env, ps: seq<Piece>)
    requires Closable(kind, ps) && Opens(kind, ps) < Closes(kind, ps)
    ensures Tail(kind) in PiecePass(kind, env, ps)
    decreases |ps|
  {
    var more := ps[1..];
    if ps[0].Head? && ps[0].kind == kind {
      if Tail(kind) !in more { NoTailNoClose(kind, more); }
      var i := FindTail(kind, more).value;
      CountAtTail(kind, more, i);
      ClosableSuffix(kind, more, i + 1);
      TagLeftOver(kind, env, more[i + 1..]);
    } else if ps[0] != Tail(kind) {
      TagLeftOver(kind, env, more);
    }
  }

  // ---------- Pieces of a template ----------

  lemma {:induction false} TemplateClosable(kind: Kind, nodes: seq<Node>, rest: seq<Piece>)
    requires Closable(kind, rest)
    ensures Closable(kind, Pieces(nodes) + rest)
    ensures Opens(kind, Pieces(nodes)) == Closes(kind, Pieces(nodes))
    decreases nodes
  {
    if nodes == [] {
      assert Pieces(nodes) + rest == rest;
    } else {
      TemplateClosable(kind, nodes[1..], rest);
      NodeClosable(kind, nodes[0], Pieces(nodes[1..]) + rest);
      CountConcat(kind, NodePieces(nodes[0]), Pieces(nodes[1..]));
      Assoc(NodePieces(nodes[0]), Pieces(nodes[1..]), rest);
    }
  }

  lemma {:induction false} NodeClosable(kind: Kind, node: Node, rest: seq<Piece>)
    requires Closable(kind, rest)
    ensures Closable(kind, NodePieces(node) + rest)
    ensures Opens(kind, NodePieces(node)) == Closes(kind, NodePieces(node))
    decreases node
  {
    match node
    case Block(k, space, name, body) =>
      TailClosable(kind, k, rest);
      TemplateClosable(kind, body, [Tail(k)] + rest);
      HeadClosable(kind, Head(k, space, name), Pieces(body), Tail(k), rest);
    case _ =>
      var ps := NodePieces(node);
      assert ps[1..] == [];
      assert Opens(kind, ps[1..]) == 0 && Closes(kind, ps[1..]) == 0;
      TextClosable(kind, ps[0], rest);
      assert ps == [ps[0]];
  }

  lemma TextClosable(kind: Kind, p: Piece, rest: seq<Piece>)
    requires Closable(kind, rest) && !OfKind(kind, p)
    ensures Closable(kind, [p] + rest)
  {
    var all := [p] + rest;
    assert all[1..] == rest;
    ClosableSuffix(kind, rest, 0);
    assert rest[0..] == rest;
  }

  lemma TailClosable(kind: Kind, k: Kind, rest: seq<Piece>)
    requires Closable(kind, rest)
    ensures Closable(kind, [Tail(k)] + rest)
  {
    var all := [Tail(k)] + rest;
    assert all[1..] == rest;
    ClosableSuffix(kind, rest, 0);
    assert rest[0..] == rest;
  }

  lemma CountOne(kind: Kind, p: Piece)
    ensures Opens(kind, [p]) == if p.Head? && p.kind == kind then 1 else 0
    ensures Closes(kind, [p]) == if p == Tail(kind) then 1 else 0
  {
    assert [p][1..] == [];
    assert Opens(kind, [p][1..]) == 0 && Closes(kind, [p][1..]) == 0;
  }

  lemma BlockCounts(kind: Kind, h: Piece, content: seq<Piece>, t: Piece)
    requires h.Head? && t == Tail(h.kind) && Opens(kind, content) == Closes(kind, content)
    ensures Opens(kind, [h] + content + [t]) == Closes(kind, [h] + content + [t])
  {
    CountConcat(kind, [h] + content, [t]);
    CountConcat(kind, [h], content);
    CountOne(kind, h);
    CountOne(kind, t);
  }

  lemma HeadClosable(kind: Kind, h: Piece, content: seq<Piece>, t: Piece, rest: seq<Piece>)
    requires h.Head? && t == Tail(h.kind) && Closable(kind, rest) && Opens(kind, content) == Closes(kind, content)
    requires Closable(kind, content + ([t] + rest))
    ensures Closable(kind, [h] + content + [t] + rest)
    ensures Opens(kind, [h] + content + [t]) == Closes(kind, [h] + content + [t])
  {
    BlockCounts(kind, h, content, t);
    CountConcat(kind, [h] + content + [t], rest);
    ClosableSuffix(kind, rest, 0);
    assert rest[0..] == rest;
    assert ([h] + content + [t] + rest)[1..] == content + ([t] + rest);
  }

  /** If a template has a block of a kind, its first tag of that kind opens. */
  lemma {:induction false} FirstTagOpens(kind: Kind, nodes: seq<Node>, rest: seq<Piece>, i: nat)
    requires !Without(kind, nodes)
    requires
      var all := Pieces(nodes) + rest;
      i < |all| && all[i] == Tail(kind) && Tail(kind) !in all[..i]
    ensures 0 < Opens(kind, (Pieces(nodes) + rest)[..i])
    decreases nodes
  {
    var more := Pieces(nodes[1..]) + rest;
    Assoc(NodePieces(nodes[0]), Pieces(nodes[1..]), rest);
    if !WithoutNode(kind, nodes[0]) {
      FirstTagOpensNode(kind, nodes[0], more, i);
    } else {
      var head := NodePieces(nodes[0]);
      WithoutNodePieces(kind, nodes[0]);
      SkipToTail(kind, head, more, i);
      FirstTagOpens(kind, nodes[1..], rest, i - |head|);
      assert (head + more)[..i] == head + more[..i - |head|];
      CountConcat(kind, head, more[..i - |head|]);
    }
  }

  /** The first closing tag stands after pieces that are no tags of its kind. */
  lemma SkipToTail(kind: Kind, head: seq<Piece>, more: seq<Piece>, i: nat)
    requires forall p :: p in head ==> !OfKind(kind, p)
    requires i < |head + more| && (head + more)[i] == Tail(kind) && Tail(kind) !in (head + more)[..i]
    ensures |head| <= i && more[i - |head|] == Tail(kind) && Tail(kind) !in more[..i - |head|]
  {
    assert OfKind(kind, Tail(kind));
    forall j | 0 <= j < |head| ensures (head + more)[j] != Tail(kind) { assert head[j] in head; }
    assert (head + more)[..i] == head + more[..i - |head|];
  }

  lemma {:induction false} FirstTagOpensNode(kind: Kind, node: Node, more: seq<Piece>, i: nat)
    requires !WithoutNode(kind, node)
    requires
      var all := NodePieces(node) + more;
      i < |all| && all[i] == Tail(kind) && Tail(kind) !in all[..i]
    ensures 0 < Opens(kind, (NodePieces(node) + more)[..i])
    decreases node
  {
    var Block(k, space, name, body) := node;
    var h := Head(k, space, name);
    var after := Pieces(body) + ([Tail(k)] + more);
    var all := NodePieces(node) + more;
    assert all == [h] + after;
    assert all[0] == h && i > 0;
    assert all[..i] == [h] + after[..i - 1];
    CountConcat(kind, [h], after[..i - 1]);
    assert [h][1..] == [];
    if k != kind {
      SkipToTail(kind, [h], after, i);
      FirstTagOpens(kind, body, [Tail(k)] + more, i - 1);
    }
  }

  lemma {:induction false} WithoutNestsNot(kind: Kind, nodes: seq<Node>)
    requires Without(kind, nodes)
    ensures !Nests(kind, nodes)
    decreases nodes
  {
    if nodes != [] {
      if nodes[0].Block? { WithoutNestsNot(kind, nodes[0].body); }
      WithoutNestsNot(kind, nodes[1..]);
    }
  }

  /** A pass over a template that nests its kind leaves a closing tag behind, for all variables. */
  lemma {:induction false} NestedLeavesTag(kind: Kind, env: Env, nodes: seq<Node>, rest: seq<Piece>)
    requires Nests(kind, nodes) && Closable(kind, rest)
    ensures Tail(kind) in PiecePass(kind, env, Pieces(nodes) + rest)
    decreases nodes
  {
    var more := Pieces(nodes[1..]) + rest;
    Assoc(NodePieces(nodes[0]), Pieces(nodes[1..]), rest);
    TemplateClosable(kind, nodes[1..], rest);
    if NestsNode(kind, nodes[0]) {
      NestedNodeLeavesTag(kind, env, nodes[0], more);
    } else {
      PassStripsNode(kind, env, nodes[0], more);
      NestedLeavesTag(kind, env, nodes[1..], rest);
    }
  }

  lemma {:induction false} NestedNodeLeavesTag(kind: Kind, env: Env, node: Node, more: seq<Piece>)
    requires NestsNode(kind, node) && Closable(kind, more)
    ensures Tail(kind) in PiecePass(kind, env, NodePieces(node) + more)
    decreases node
  {
    var Block(k, space, name, body) := node;
    var h := Head(k, space, name);
    var after := Pieces(body) + ([Tail(k)] + more);
    FourPieces([h], Pieces(body), [Tail(k)], more);
    TailClosable(kind, k, more);
    if k == kind {
      if Without(kind, body) { WithoutNestsNot(kind, body); }
      SwallowedOpening(kind, env, h, body, more);
    } else {
      NestedLeavesTag(kind, env, body, [Tail(k)] + more);
      PassCopiesOne(kind, env, h, after);
    }
  }

  lemma SwallowedOpening(kind: Kind, env: Env, h: Piece, body: seq<Node>, more: seq<Piece>)
    requires h.Head? && h.kind == kind && !Without(kind, body) && Closable(kind, more)
    ensures Tail(kind) in PiecePass(kind, env, [h] + (Pieces(body) + ([Tail(kind)] + more)))
  {
    var after := Pieces(body) + ([Tail(kind)] + more);
    var all := [h] + after;
    assert all[0] == h && all[1..] == after;
    assert after[|Pieces(body)|] == Tail(kind);
    var i := FindTail(kind, after).value;
    TailClosable(kind, kind, more);
    TemplateClosable(kind, body, [Tail(kind)] + more);
    FirstTagOpens(kind, body, [Tail(kind)] + more, i);
    CountAtTail(kind, after, i);
    CountAfter(kind, body, more);
    ClosableSuffix(kind, after, i + 1);
    TagLeftOver(kind, env, after[i + 1..]);
  }

  lemma CountAfter(kind: Kind, body: seq<Node>, more: seq<Piece>)
    requires Closable(kind, more)
    ensures
      var after := Pieces(body) + ([Tail(kind)] + more);
      Opens(kind, after) + 1 <= Closes(kind, after)
  {
    TailClosable(kind, kind, more);
    TemplateClosable(kind, body, [Tail(kind)] + more);
    CountConcat(kind, Pieces(body), [Tail(kind)] + more);
    assert ([Tail(kind)] + more)[1..] == more;
    ClosableSuffix(kind, more, 0);
    assert more[0..] == more;
  }

  // ---------- A brace in the output ----------

  lemma {:induction false} KeptPiecesStay(kind: Kind, env: Env, ps: seq<Piece>, p: Piece)
    requires forall h :: h in ps && h.Head? && h.kind == kind ==> kind.Keeps(env, h.name)
    requires p in ps && !OfKind(kind, p)
    ensures p in PiecePass(kind, env, ps)
    decreases |ps|
  {
    var more := ps[1..];
    assert ps == [ps[0]] + more;
    var end := if ps[0].Head? && ps[0].kind == kind then FindTail(kind, more) else None;
    if end.None? {
      if p != ps[0] { KeptPiecesStay(kind, env, more, p); }
    } else {
      var i := end.value;
      AroundIndex(more, i, p);
      assert forall h :: h in more[i + 1..] ==> h in ps;
      if p !in more[..i] { KeptPiecesStay(kind, env, more[i + 1..], p); }
      assert PiecePass(kind, env, ps) == more[..i] + PiecePass(kind, env, more[i + 1..]);
    }
  }

  lemma AroundIndex(ps: seq<Piece>, i: nat, p: Piece)
    requires p in ps && i < |ps| && ps[i] != p
    ensures p in ps[..i] || p in ps[i + 1..]
  {
    var j :| 0 <= j < |ps| && ps[j] == p;
    if j < i { assert ps[..i][j] == p; } else { assert ps[i + 1..][j - i - 1] == p; }
  }

  lemma {:induction false} TagShowsBrace(env: Env, ps: seq<Piece>, kind: Kind)
    requires Tail(kind) in ps
    ensures '{' in ShowPieces(env, ps)
    decreases |ps|
  {
    if ps[0] == Tail(kind) {
      assert kind.Closing()[0] == '{';
    } else {
      TagShowsBrace(env, ps[1..], kind);
    }
  }

  function Names(nodes: seq<Node>): set<string>
    decreases nodes
  {
    if nodes == [] then {} else NodeNames(nodes[0]) + Names(nodes[1..])
  }

  function NodeNames(node: Node): set<string>
    decreases node
  {
    match node
    case Plain(_) => {}
    case Variable(name) => {name}
    case Block(_, _, name, body) => {name} + Names(body)
  }

  /** Every name of the template has the same value. */
  function Uniform(nodes: seq<Node>, value: string): Env {
    Env(map n | n in Names(nodes) :: Text(value), map[])
  }

  lemma {:induction false} EvalWithoutBrace(nodes: seq<Node>, env: Env)
    requires Spelled(nodes) && forall n :: n in Names(nodes) ==> env.Knows(n) && '{' !in env.Shown(n)
    ensures '{' !in Eval(nodes, env)
    decreases nodes
  {
    if nodes != [] {
      EvalNodeWithoutBrace(nodes[0], env);
      EvalWithoutBrace(nodes[1..], env);
    }
  }

  lemma {:induction false} EvalNodeWithoutBrace(node: Node, env: Env)
    requires SpelledNode(node) && forall n :: n in NodeNames(node) ==> env.Knows(n) && '{' !in env.Shown(n)
    ensures '{' !in EvalNode(node, env)
    decreases node
  {
    match node
    case Block(_, _, _, body) => EvalWithoutBrace(body, env);
    case _ =>
  }

  lemma {:induction false} HeadsAreNamed(nodes: seq<Node>)
    ensures forall p :: p in Pieces(nodes) && p.Head? ==> p.name in Names(nodes)
    decreases nodes
  {
    if nodes != [] {
      NodeHeadsAreNamed(nodes[0]);
      HeadsAreNamed(nodes[1..]);
    }
  }

  lemma {:induction false} NodeHeadsAreNamed(node: Node)
    ensures forall p :: p in NodePieces(node) && p.Head? ==> p.name in NodeNames(node)
    decreases node
  {
    match node
    case Block(_, _, _, body) => HeadsAreNamed(body);
    case _ =>
  }

  lemma {:induction false} TruthyKeepsAll(nodes: seq<Node>, env: Env)
    requires forall n :: n in Names(nodes) ==> env.Truthy(n)
    ensures KeepsAll(If, nodes, env)
    decreases nodes
  {
    if nodes != [] {
      assert Names(nodes) == NodeNames(nodes[0]) + Names(nodes[1..]);
      match nodes[0] {
        case Block(k, space, name, body) =>
          assert NodeNames(nodes[0]) == {name} + Names(body);
          TruthyKeepsAll(body, env);
        case _ =>
      }
      TruthyKeepsAll(nodes[1..], env);
    }
  }

  // ---------- Main result ----------

  lemma NestedIfFails(nodes: seq<Node>)
    requires Spelled(nodes) && Nests(If, nodes)
    ensures Render(Print(nodes), Uniform(nodes, "")) != Eval(nodes, Uniform(nodes, ""))
  {
    var env := Uniform(nodes, "");
    var ps := Pieces(nodes);
    PiecesPrint(nodes);
    RenderPieces(ps, env);
    NestedLeavesTag(If, env, nodes, []);
    assert ps + [] == ps;
    var p1 := PiecePass(If, env, ps);
    forall p | p in p1 ensures p in ps { PassKeepsPieces(If, env, ps, p); }
    HeadsAreNamed(nodes);
    KeptPiecesStay(Unless, env, p1, Tail(If));
    TagShowsBrace(env, PiecePass(Unless, env, p1), If);
    EvalWithoutBrace(nodes, env);
  }

  lemma NestedUnlessFails(nodes: seq<Node>)
    requires Spelled(nodes) && !Nests(If, nodes) && Nests(Unless, nodes)
    ensures Render(Print(nodes), Uniform(nodes, "x")) != Eval(nodes, Uniform(nodes, "x"))
  {
    var env := Uniform(nodes, "x");
    var ps, n1 := Pieces(nodes), Strip(If, nodes, env);
    PiecesPrint(nodes);
    RenderPieces(ps, env);
    TruthyKeepsAll(nodes, env);
    PassStrips(If, env, nodes, []);
    StripNests(If, nodes, env);
    assert ps + [] == ps && Pieces(n1) + [] == Pieces(n1) && PiecePass(If, env, []) == [];
    NestedLeavesTag(Unless, env, n1, []);
    TagShowsBrace(env, PiecePass(Unless, env, Pieces(n1)), Unless);
    EvalWithoutBrace(nodes, env);
  }

  /** The three passes compute the one-pass meaning for all variables exactly when no block of the
      template stands inside another of its own kind. */
  lemma RenderRightExactlyWithoutNesting(nodes: seq<Node>)
    requires Spelled(nodes)
    ensures (forall env :: Render(Print(nodes), env) == Eval(nodes, env))
            <==> !Nests(If, nodes) && !Nests(Unless, nodes)
  {
    if Nests(If, nodes) {
      NestedIfFails(nodes);
    } else if Nests(Unless, nodes) {
      NestedUnlessFails(nodes);
    } else {
      forall env ensures Render(Print(nodes), env) == Eval(nodes, env) { RenderIsEval(nodes, env); }
    }
  }
}
