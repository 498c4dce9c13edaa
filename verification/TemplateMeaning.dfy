/** When the three passes of `renderTemplate` compute the one-pass meaning of a template: exactly
    when no block stands inside another of its own kind. */
module TemplateMeaning {
  import opened Wrappers
  import opened Template
  import opened TemplatePieces

  // ---------- Templates as pieces ----------

  function Pieces(nodes: seq<Node>): seq<Piece>
    decreases nodes
  {
    if nodes == [] then [] else NodePieces(nodes[0]) + Pieces(nodes[1..])
  }

  function NodePieces(node: Node): seq<Piece>
    decreases node
  {
    match node
    case Plain(text) => [Literal(text)]
    case Variable(name) => [Use(name)]
    case Block(kind, space, name, body) => [Head(kind, space, name)] + Pieces(body) + [Tail(kind)]
  }

  lemma {:induction false} PiecesPrint(nodes: seq<Node>)
    requires Spelled(nodes)
    ensures PiecesOk(Pieces(nodes)) && Written(Pieces(nodes)) == Print(nodes)
    decreases nodes
  {
    if nodes != [] {
      NodePiecesPrint(nodes[0]);
      PiecesPrint(nodes[1..]);
      WrittenConcat(NodePieces(nodes[0]), Pieces(nodes[1..]));
    }
  }

  lemma {:induction false} NodePiecesPrint(node: Node)
    requires SpelledNode(node)
    ensures PiecesOk(NodePieces(node)) && Written(NodePieces(node)) == PrintNode(node)
    decreases node
  {
    match node
    case Plain(text) => OnePiece(Literal(text));
    case Variable(name) => OnePiece(Use(name));
    case Block(kind, space, name, body) =>
      PiecesPrint(body);
      OnePiece(Head(kind, space, name));
      OnePiece(Tail(kind));
      WrittenConcat([Head(kind, space, name)], Pieces(body));
      WrittenConcat([Head(kind, space, name)] + Pieces(body), [Tail(kind)]);
  }

  lemma {:induction false} PiecesConcat(a: seq<Node>, b: seq<Node>)
    ensures Pieces(a + b) == Pieces(a) + Pieces(b)
    decreases |a|
  {
    if a == [] {
      assert a + b == b;
    } else {
      PiecesConcat(a[1..], b);
      assert (a + b)[1..] == a[1..] + b && (a + b)[0] == a[0];
    }
  }

  lemma PiecesOne(node: Node)
    ensures Pieces([node]) == NodePieces(node)
  {
    assert [node][1..] == [];
    assert Pieces([node][1..]) == [];
  }

  // ---------- One pass on a template that does not nest its kind ----------

  /** What a pass leaves: its own blocks replaced by their kept content. */
  function Strip(kind: Kind, nodes: seq<Node>, env: Env): seq<Node>
    decreases nodes
  {
    if nodes == [] then [] else StripNode(kind, nodes[0], env) + Strip(kind, nodes[1..], env)
  }

  function StripNode(kind: Kind, node: Node, env: Env): seq<Node>
    decreases node
  {
    match node
    case Block(k, space, name, body) =>
      if k != kind then [Block(k, space, name, Strip(kind, body, env))]
      else if kind.Keeps(env, name) then body else []
    case _ => [node]
  }

  predicate OfKind(kind: Kind, p: Piece) {
    (p.Head? || p.Tail?) && p.kind == kind
  }

  lemma {:induction false} WithoutPieces(kind: Kind, nodes: seq<Node>)
    ensures Without(kind, nodes) <==> forall p :: p in Pieces(nodes) ==> !OfKind(kind, p)
    decreases nodes
  {
    if nodes != [] {
      WithoutNodePieces(kind, nodes[0]);
      WithoutPieces(kind, nodes[1..]);
      assert forall p :: p in Pieces(nodes) <==> p in NodePieces(nodes[0]) || p in Pieces(nodes[1..]);
    }
  }

  lemma {:induction false} WithoutNodePieces(kind: Kind, node: Node)
    ensures WithoutNode(kind, node) <==> forall p :: p in NodePieces(node) ==> !OfKind(kind, p)
    decreases node
  {
    match node
    case Block(k, space, name, body) =>
      WithoutPieces(kind, body);
      assert Tail(k) in NodePieces(node);
      assert forall p :: p in NodePieces(node) <==> p == Head(k, space, name) || p in Pieces(body) || p == Tail(k);
    case _ =>
  }

  lemma PassCopiesOne(kind: Kind, env: Env, p: Piece, rest: seq<Piece>)
    requires !OfKind(kind, p)
    ensures PiecePass(kind, env, [p] + rest) == [p] + PiecePass(kind, env, rest)
  {
    assert ([p] + rest)[1..] == rest;
  }

  /** A pass copies pieces that are not its own. */
  lemma {:induction false} PassCopiesPieces(kind: Kind, env: Env, ps: seq<Piece>, rest: seq<Piece>)
    requires forall p :: p in ps ==> !OfKind(kind, p)
    ensures PiecePass(kind, env, ps + rest) == ps + PiecePass(kind, env, rest)
    decreases |ps|
  {
    if ps == [] {
      assert ps + rest == rest;
    } else {
      var p, more := ps[0], ps[1..];
      assert ps == [p] + more && forall x :: x in more ==> x in ps;
      Assoc([p], more, rest);
      PassCopiesOne(kind, env, p, more + rest);
      PassCopiesPieces(kind, env, more, rest);
      Assoc([p], more, PiecePass(kind, env, rest));
    }
  }

  lemma {:induction false} FindTailAfter(kind: Kind, ps: seq<Piece>, rest: seq<Piece>)
    requires Tail(kind) !in ps
    ensures FindTail(kind, ps + [Tail(kind)] + rest) == Some(|ps|)
    decreases |ps|
  {
    var all := ps + [Tail(kind)] + rest;
    if ps == [] {
      assert all[0] == Tail(kind);
    } else {
      assert all[0] == ps[0] && ps[0] in ps && all[1..] == ps[1..] + [Tail(kind)] + rest;
      FindTailAfter(kind, ps[1..], rest);
    }
  }

  lemma OwnBlockPassed(kind: Kind, env: Env, space: string, name: string, content: seq<Piece>, rest: seq<Piece>)
    requires Tail(kind) !in content
    ensures PiecePass(kind, env, [Head(kind, space, name)] + content + [Tail(kind)] + rest)
            == (if kind.Keeps(env, name) then content else []) + PiecePass(kind, env, rest)
  {
    var all := [Head(kind, space, name)] + content + [Tail(kind)] + rest;
    var more := content + [Tail(kind)] + rest;
    assert all[0] == Head(kind, space, name) && all[1..] == more;
    FindTailAfter(kind, content, rest);
    assert more[..|content|] == content && more[|content| + 1..] == rest;
  }

  lemma {:induction false} PassStrips(kind: Kind, env: Env, nodes: seq<Node>, rest: seq<Piece>)
    requires !Nests(kind, nodes)
    ensures PiecePass(kind, env, Pieces(nodes) + rest) == Pieces(Strip(kind, nodes, env)) + PiecePass(kind, env, rest)
    decreases nodes
  {
    if nodes == [] {
      assert Pieces(nodes) + rest == rest;
    } else {
      var head, tail := nodes[0], nodes[1..];
      PassStrips(kind, env, tail, rest);
      PassStripsNode(kind, env, head, Pieces(tail) + rest);
      PiecesConcat(StripNode(kind, head, env), Strip(kind, tail, env));
      Assoc(NodePieces(head), Pieces(tail), rest);
      Assoc(Pieces(StripNode(kind, head, env)), Pieces(Strip(kind, tail, env)), PiecePass(kind, env, rest));
    }
  }

  lemma {:induction false} PassStripsNode(kind: Kind, env: Env, node: Node, more: seq<Piece>)
    requires !NestsNode(kind, node)
    ensures PiecePass(kind, env, NodePieces(node) + more)
            == Pieces(StripNode(kind, node, env)) + PiecePass(kind, env, more)
    decreases node
  {
    match node
    case Block(k, space, name, body) =>
      if k == kind {
        WithoutPieces(kind, body);
        assert OfKind(kind, Tail(kind));
        OwnBlockPassed(kind, env, space, name, Pieces(body), more);
      } else {
        PassStrips(kind, env, body, [Tail(k)] + more);
        OtherBlockPassed(kind, env, Head(k, space, name), Tail(k), Pieces(body), Pieces(Strip(kind, body, env)), more);
        PiecesOne(Block(k, space, name, Strip(kind, body, env)));
      }
    case _ =>
      PassCopiesPieces(kind, env, NodePieces(node), more);
      PiecesOne(node);
  }

  lemma OtherBlockPassed(kind: Kind, env: Env, h: Piece, t: Piece, content: seq<Piece>, left: seq<Piece>,
                         more: seq<Piece>)
    requires !OfKind(kind, h) && !OfKind(kind, t)
    requires PiecePass(kind, env, content + ([t] + more)) == left + PiecePass(kind, env, [t] + more)
    ensures PiecePass(kind, env, [h] + content + [t] + more) == [h] + left + [t] + PiecePass(kind, env, more)
  {
    PassCopiesOne(kind, env, h, content + ([t] + more));
    PassCopiesOne(kind, env, t, more);
    FourPieces([h], content, [t], more);
    FourPieces([h], left, [t], PiecePass(kind, env, more));
  }

  lemma FourPieces<T>(a: seq<T>, b: seq<T>, c: seq<T>, d: seq<T>)
    ensures a + b + c + d == a + (b + (c + d))
  {}

  // ---------- Stripping keeps meaning and adds no nesting ----------

  lemma {:induction false} EvalConcat(a: seq<Node>, b: seq<Node>, env: Env)
    ensures Eval(a + b, env) == Eval(a, env) + Eval(b, env)
    decreases |a|
  {
    if a == [] {
      assert a + b == b;
    } else {
      EvalConcat(a[1..], b, env);
      assert (a + b)[1..] == a[1..] + b && (a + b)[0] == a[0];
      Assoc(EvalNode(a[0], env), Eval(a[1..], env), Eval(b, env));
    }
  }

  lemma {:induction false} StripMeaning(kind: Kind, nodes: seq<Node>, env: Env)
    ensures Eval(Strip(kind, nodes, env), env) == Eval(nodes, env)
    decreases nodes
  {
    if nodes != [] {
      StripMeaning(kind, nodes[1..], env);
      StripNodeMeaning(kind, nodes[0], env);
      EvalConcat(StripNode(kind, nodes[0], env), Strip(kind, nodes[1..], env), env);
    }
  }

  lemma {:induction false} StripNodeMeaning(kind: Kind, node: Node, env: Env)
    ensures Eval(StripNode(kind, node, env), env) == EvalNode(node, env)
    decreases node
  {
    var r := StripNode(kind, node, env);
    assert |r| == 1 ==> r[1..] == [];
    assert Eval([], env) == "";
    match node
    case Block(k, _, _, body) => StripMeaning(kind, body, env);
    case _ =>
  }

  lemma {:induction false} NestsConcat(kind: Kind, a: seq<Node>, b: seq<Node>)
    ensures Nests(kind, a + b) <==> Nests(kind, a) || Nests(kind, b)
    ensures Without(kind, a + b) <==> Without(kind, a) && Without(kind, b)
    decreases |a|
  {
    if a == [] {
      assert a + b == b;
    } else {
      NestsConcat(kind, a[1..], b);
      assert (a + b)[1..] == a[1..] + b && (a + b)[0] == a[0];
    }
  }

  lemma NestsOne(kind: Kind, node: Node)
    ensures Nests(kind, [node]) == NestsNode(kind, node) && Without(kind, [node]) == WithoutNode(kind, node)
  {
    assert [node][1..] == [];
  }

  /** Stripping one kind adds no block of the other kind and no nesting; with everything kept it
      loses none either. */
  lemma {:induction false} StripNests(kind: Kind, nodes: seq<Node>, env: Env)
    requires !Nests(kind, nodes)
    ensures
      var r := Strip(kind, nodes, env);
      && Without(kind, r)
      && (Nests(kind.Other(), r) ==> Nests(kind.Other(), nodes))
      && (Without(kind.Other(), nodes) ==> Without(kind.Other(), r))
      && (KeepsAll(kind, nodes, env) ==>
            (Nests(kind.Other(), r) <==> Nests(kind.Other(), nodes))
            && (Without(kind.Other(), r) <==> Without(kind.Other(), nodes)))
    decreases nodes
  {
    if nodes != [] {
      var head, tail := StripNode(kind, nodes[0], env), Strip(kind, nodes[1..], env);
      StripNests(kind, nodes[1..], env);
      StripNodeNests(kind, nodes[0], env);
      NestsConcat(kind, head, tail);
      NestsConcat(kind.Other(), head, tail);
    }
  }

  lemma {:induction false} StripNodeNests(kind: Kind, node: Node, env: Env)
    requires !NestsNode(kind, node)
    ensures
      var r := StripNode(kind, node, env);
      && Without(kind, r)
      && (Nests(kind.Other(), r) ==> NestsNode(kind.Other(), node))
      && (WithoutNode(kind.Other(), node) ==> Without(kind.Other(), r))
      && (KeepsAllNode(kind, node, env) ==>
            (Nests(kind.Other(), r) <==> NestsNode(kind.Other(), node))
            && (Without(kind.Other(), r) <==> WithoutNode(kind.Other(), node)))
    decreases node
  {
    match node
    case Block(k, space, name, body) =>
      if k != kind {
        StripNests(kind, body, env);
        NestsOne(kind, Block(k, space, name, Strip(kind, body, env)));
        NestsOne(kind.Other(), Block(k, space, name, Strip(kind, body, env)));
      }
    case _ =>
      NestsOne(kind, node);
      NestsOne(kind.Other(), node);
  }

  /** Every block of this kind keeps its content. */
  predicate KeepsAll(kind: Kind, nodes: seq<Node>, env: Env)
    decreases nodes
  {
    nodes == [] || (KeepsAllNode(kind, nodes[0], env) && KeepsAll(kind, nodes[1..], env))
  }

  predicate KeepsAllNode(kind: Kind, node: Node, env: Env)
    decreases node
  {
    match node
    case Block(k, _, name, body) => (k == kind ==> kind.Keeps(env, name)) && KeepsAll(kind, body, env)
    case _ => true
  }

  // ---------- Without self-nesting the passes are right ----------

  lemma {:induction false} ShownIsEval(env: Env, nodes: seq<Node>)
    requires Without(If, nodes) && Without(Unless, nodes)
    ensures ShowPieces(env, Pieces(nodes)) == Eval(nodes, env)
    decreases |nodes|
  {
    if nodes != [] {
      ShownIsEval(env, nodes[1..]);
      match nodes[0] {
        case Block(If, _, _, _) =>
        case Block(Unless, _, _, _) =>
        case _ => assert Pieces(nodes) == [NodePieces(nodes[0])[0]] + Pieces(nodes[1..]);
      }
    }
  }

  lemma RenderIsEval(nodes: seq<Node>, env: Env)
    requires Spelled(nodes) && !Nests(If, nodes) && !Nests(Unless, nodes)
    ensures Render(Print(nodes), env) == Eval(nodes, env)
  {
    var n1 := Strip(If, nodes, env);
    var n2 := Strip(Unless, n1, env);
    PiecesPrint(nodes);
    RenderPieces(Pieces(nodes), env);
    PassStrips(If, env, nodes, []);
    StripNests(If, nodes, env);
    PassStrips(Unless, env, n1, []);
    StripNests(Unless, n1, env);
    assert Pieces(nodes) + [] == Pieces(nodes) && Pieces(n1) + [] == Pieces(n1) && Pieces(n2) + [] == Pieces(n2);
    assert PiecePass(If, env, []) == [] && PiecePass(Unless, env, []) == [];
    ShownIsEval(env, n2);
    StripMeaning(If, nodes, env);
    StripMeaning(Unless, n1, env);
  }
}
