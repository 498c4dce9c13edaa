/** The three passes on a template cut into pieces: each pass works piece by piece, whatever the
    order of the pieces. */
module TemplatePieces {
  import opened Wrappers
  import opened Template
  import opened Characters

  // ---------- Tags ----------

  lemma VariableClear(name: string, kind: Kind)
    requires IsName(name)
    ensures Clear("{{" + name + "}}", kind.Opening()) && Clear("{{" + name + "}}", kind.Closing())
  {
    var tag := "{{" + name + "}}";
    assert tag[2] == name[0] && name[0] in name;
    forall k | 2 <= k < |tag| ensures tag[k] != '{' {
      if k < 2 + |name| { assert tag[k] == name[k - 2] && name[k - 2] in name; }
    }
    TagClear(tag, kind.Opening(), 2);
    TagClear(tag, kind.Closing(), 2);
  }

  lemma HeaderPlain(kind: Kind, space: string, name: string)
    requires IsGap(space) && IsName(name)
    ensures
      var tag := Header(kind, space, name);
      && |tag| > 3 && tag[1] == '{' && tag[2] == '#' && tag[3] == kind.Opening()[3]
      && forall k :: 2 <= k < |tag| ==> tag[k] != '{'
  {
    var tag := Header(kind, space, name);
    var n := |kind.Opening()|;
    forall k | 2 <= k < |tag| ensures tag[k] != '{' {
      if k < n {
        assert tag[k] == kind.Opening()[k];
      } else if k < n + |space| {
        assert tag[k] == space[k - n] && space[k - n] in space;
      } else if k < n + |space| + |name| {
        assert tag[k] == name[k - n - |space|] && name[k - n - |space|] in name;
      }
    }
  }

  lemma HeaderClear(kind: Kind, space: string, name: string)
    requires IsGap(space) && IsName(name)
    ensures Clear(Header(kind, space, name), kind.Other().Opening())
    ensures Clear(Header(kind, space, name), If.Closing()) && Clear(Header(kind, space, name), Unless.Closing())
  {
    HeaderPlain(kind, space, name);
    TagClear(Header(kind, space, name), kind.Other().Opening(), 3);
    TagClear(Header(kind, space, name), If.Closing(), 2);
    TagClear(Header(kind, space, name), Unless.Closing(), 2);
  }

  lemma ClosingClear(kind: Kind)
    ensures Clear(kind.Closing(), If.Opening()) && Clear(kind.Closing(), Unless.Opening())
    ensures Clear(kind.Closing(), kind.Other().Closing())
  {
    TagClear(kind.Closing(), If.Opening(), 2);
    TagClear(kind.Closing(), Unless.Opening(), 2);
    TagClear(kind.Closing(), kind.Other().Closing(), 3);
  }

  lemma {:induction false} SpaceThenWord(space: string, rest: string)
    requires (forall c :: c in space ==> IsSpace(c)) && rest != "" && !IsSpace(rest[0])
    ensures SpaceLength(space + rest) == |space|
    decreases |space|
  {
    if space == "" {
      assert space + rest == rest;
    } else {
      assert (space + rest)[1..] == space[1..] + rest;
      SpaceThenWord(space[1..], rest);
    }
  }

  lemma {:induction false} WordThenEnd(name: string, rest: string)
    requires (forall c :: c in name ==> IsWord(c)) && rest != "" && !IsWord(rest[0])
    ensures WordLength(name + rest) == |name|
    decreases |name|
  {
    if name == "" {
      assert name + rest == rest;
    } else {
      assert (name + rest)[1..] == name[1..] + rest;
      WordThenEnd(name[1..], rest);
    }
  }

  lemma NameMatches(name: string, rest: string)
    requires IsName(name)
    ensures MatchName(name + "}}" + rest) == Some((name, |name| + 2))
  {
    var s := name + "}}" + rest;
    assert s == name + ("}}" + rest);
    WordThenEnd(name, "}}" + rest);
    assert s[..|name|] == name && s[|name|..] == "}}" + rest;
  }

  lemma Assoc<T>(a: seq<T>, b: seq<T>, c: seq<T>)
    ensures (a + b) + c == a + (b + c)
  {}

  lemma HeaderMatches(kind: Kind, space: string, name: string, rest: string)
    requires IsGap(space) && IsName(name)
    ensures MatchHeader(kind, Header(kind, space, name) + rest) == Some((name, |Header(kind, space, name)|))
  {
    var tail := name + "}}" + rest;
    NameMatches(name, rest);
    NameNoSpace(name, rest);
    OpeningMatches(kind, space, tail, name);
    HeaderSplits(kind, space, name, rest);
  }

  lemma HeaderSplits(kind: Kind, space: string, name: string, rest: string)
    ensures Header(kind, space, name) + rest == kind.Opening() + (space + (name + "}}" + rest))
    ensures |Header(kind, space, name)| == |kind.Opening()| + |space| + |name| + 2
  {}

  lemma NameNoSpace(name: string, rest: string)
    requires IsName(name)
    ensures !IsSpace((name + "}}" + rest)[0])
  {
    assert (name + "}}" + rest)[0] == name[0] && name[0] in name;
  }

  lemma OpeningMatches(kind: Kind, space: string, tail: string, name: string)
    requires IsGap(space) && tail != "" && !IsSpace(tail[0]) && MatchName(tail) == Some((name, |name| + 2))
    ensures MatchHeader(kind, kind.Opening() + (space + tail)) == Some((name, |kind.Opening()| + |space| + |name| + 2))
  {
    var s := kind.Opening() + (space + tail);
    assert s[|kind.Opening()|..] == space + tail;
    SpaceThenWord(space, tail);
    assert (space + tail)[|space|..] == tail;
  }

  // ---------- Pieces ----------

  datatype Piece = Literal(text: string) | Use(name: string) | Head(kind: Kind, space: string, name: string)
    | Tail(kind: Kind)

  function PieceText(p: Piece): string {
    match p
    case Literal(text) => text
    case Use(name) => "{{" + name + "}}"
    case Head(kind, space, name) => Header(kind, space, name)
    case Tail(kind) => kind.Closing()
  }

  /** The texts of the items, one after the other. */
  function Glue<T>(f: T -> string, xs: seq<T>): string {
    if xs == [] then "" else f(xs[0]) + Glue(f, xs[1..])
  }

  function Written(ps: seq<Piece>): string {
    Glue(PieceText, ps)
  }

  predicate PieceOk(p: Piece) {
    match p
    case Literal(text) => IsPlain(text)
    case Use(name) => IsName(name)
    case Head(_, space, name) => IsGap(space) && IsName(name)
    case Tail(_) => true
  }

  ghost predicate PiecesOk(ps: seq<Piece>) {
    forall p :: p in ps ==> PieceOk(p)
  }

  /** Where the first closing tag of a kind stands. */
  function FindTail(kind: Kind, ps: seq<Piece>): (r: Option<nat>)
    ensures r.Some? ==> r.value < |ps| && ps[r.value] == Tail(kind) && Tail(kind) !in ps[..r.value]
    ensures r.None? ==> Tail(kind) !in ps
  {
    if ps == [] then None
    else if ps[0] == Tail(kind) then Some(0)
    else
      var r := FindTail(kind, ps[1..]);
      if r.None? then None
      else
        assert ps[..r.value + 1] == [ps[0]] + ps[1..][..r.value];
        Some(r.value + 1)
  }

  /** `BlockPass` on pieces. */
  function PiecePass(kind: Kind, env: Env, ps: seq<Piece>): seq<Piece>
    decreases |ps|
  {
    if ps == [] then []
    else
      var end := if ps[0].Head? && ps[0].kind == kind then FindTail(kind, ps[1..]) else None;
      if end.None? then [ps[0]] + PiecePass(kind, env, ps[1..])
      else
        (if kind.Keeps(env, ps[0].name) then ps[1..][..end.value] else [])
        + PiecePass(kind, env, ps[1..][end.value + 1..])
  }

  /** `VariablePass` on pieces. */
  function ShowPieces(env: Env, ps: seq<Piece>): string {
    if ps == [] then ""
    else
      (if ps[0].Use? && env.Knows(ps[0].name) then env.Shown(ps[0].name) else PieceText(ps[0]))
        + ShowPieces(env, ps[1..])
  }

  lemma {:induction false} GlueConcat<T>(f: T -> string, a: seq<T>, b: seq<T>)
    ensures Glue(f, a + b) == Glue(f, a) + Glue(f, b)
    decreases |a|
  {
    if a == [] {
      assert a + b == b;
    } else {
      GlueConcat(f, a[1..], b);
      assert (a + b)[1..] == a[1..] + b;
      Assoc(f(a[0]), Glue(f, a[1..]), Glue(f, b));
    }
  }

  lemma GlueOne<T>(f: T -> string, x: T)
    ensures Glue(f, [x]) == f(x)
  {
    assert [x][1..] == [];
    assert Glue(f, [x][1..]) == "";
  }

  lemma GlueSplit<T>(f: T -> string, xs: seq<T>, i: nat)
    requires i < |xs|
    ensures Glue(f, xs) == Glue(f, xs[..i]) + (f(xs[i]) + Glue(f, xs[i + 1..]))
  {
    assert xs == xs[..i] + xs[i..] && xs[i..] == [xs[i]] + xs[i + 1..];
    GlueConcat(f, xs[..i], xs[i..]);
    GlueConcat(f, [xs[i]], xs[i + 1..]);
    GlueOne(f, xs[i]);
  }

  lemma WrittenConcat(a: seq<Piece>, b: seq<Piece>)
    ensures Written(a + b) == Written(a) + Written(b)
  {
    GlueConcat(PieceText, a, b);
  }

  lemma HeadClear(k: Kind, space: string, name: string, kind: Kind)
    requires IsGap(space) && IsName(name)
    ensures k != kind ==> Clear(Header(k, space, name), kind.Opening())
    ensures Clear(Header(k, space, name), kind.Closing())
  {
    HeaderClear(k, space, name);
    assert k != kind ==> kind == k.Other();
  }

  lemma TailClear(k: Kind, kind: Kind)
    ensures Clear(k.Closing(), kind.Opening())
    ensures k != kind ==> Clear(k.Closing(), kind.Closing())
  {
    ClosingClear(k);
    assert k != kind ==> kind == k.Other();
  }

  lemma PieceClear(p: Piece, kind: Kind)
    requires PieceOk(p)
    ensures !(p.Head? && p.kind == kind) ==> Clear(PieceText(p), kind.Opening())
    ensures p != Tail(kind) ==> Clear(PieceText(p), kind.Closing())
  {
    match p
    case Literal(text) => PlainClear(text, kind);
    case Use(name) => VariableClear(name, kind);
    case Head(k, space, name) => HeadClear(k, space, name, kind);
    case Tail(k) => TailClear(k, kind);
  }

  lemma {:induction false} WrittenClear(ps: seq<Piece>, kind: Kind)
    requires PiecesOk(ps) && Tail(kind) !in ps
    ensures Clear(Written(ps), kind.Closing())
    decreases |ps|
  {
    if ps != [] {
      WrittenClear(ps[1..], kind);
      PieceClear(ps[0], kind);
      ClearConcat(PieceText(ps[0]), Written(ps[1..]), kind.Closing());
    }
  }

  // ---------- The block passes ----------

  lemma PassMatched(kind: Kind, env: Env, s: string, m: Match)
    requires MatchBlock(kind, s) == Some(m)
    ensures BlockPass(kind, env, s) == (if kind.Keeps(env, m.name) then m.content else "")
            + BlockPass(kind, env, m.rest)
  {}

  lemma BlockFound(kind: Kind, s: string, name: string, n: nat, end: nat)
    requires MatchHeader(kind, s) == Some((name, n)) && Find(s[n..], kind.Closing()) == Some(end)
    ensures MatchBlock(kind, s) == Some(Match(name, s[n..][..end], s[n..][end + |kind.Closing()|..]))
  {
    ContentFound(kind, name, s[n..], end);
  }

  lemma ContentFound(kind: Kind, name: string, t: string, end: nat)
    requires Find(t, kind.Closing()) == Some(end)
    ensures MatchContent(kind, name, t) == Some(Match(name, t[..end], t[end + |kind.Closing()|..]))
  {}

  lemma Cuts(content: string, mark: string, rest: string)
    ensures (content + mark + rest)[..|content|] == content && (content + mark + rest)[|content| + |mark|..] == rest
  {}

  lemma HeaderCut(header: string, content: string, mark: string, rest: string)
    ensures header + content + mark + rest == header + (content + mark + rest)
    ensures (header + content + mark + rest)[|header|..] == content + mark + rest
  {}

  lemma BlockMatched(kind: Kind, env: Env, space: string, name: string, content: string, rest: string)
    requires IsGap(space) && IsName(name) && Clear(content, kind.Closing())
    ensures BlockPass(kind, env, Header(kind, space, name) + content + kind.Closing() + rest)
            == (if kind.Keeps(env, name) then content else "") + BlockPass(kind, env, rest)
  {
    var header, mark := Header(kind, space, name), kind.Closing();
    HeaderMatches(kind, space, name, content + mark + rest);
    HeaderCut(header, content, mark, rest);
    FindAfterClear(content, mark, rest);
    Cuts(content, mark, rest);
    BlockFound(kind, header + content + mark + rest, name, |header|, |content|);
    PassMatched(kind, env, header + content + mark + rest, Match(name, content, rest));
  }

  lemma {:induction false} FindNothing(text: string, mark: string)
    requires mark != "" && Clear(text, mark)
    ensures Find(text, mark).None?
    decreases |text|
  {
    if text != "" {
      ClearNotPrefix(text, mark, "");
      assert text + "" == text;
      ClearTail(text, mark);
      FindNothing(text[1..], mark);
    }
  }

  lemma PassUnclosed(kind: Kind, env: Env, s: string, name: string, n: nat)
    requires s != "" && MatchHeader(kind, s) == Some((name, n)) && Find(s[n..], kind.Closing()).None?
    ensures BlockPass(kind, env, s) == [s[0]] + BlockPass(kind, env, s[1..])
  {
    assert MatchBlock(kind, s).None?;
  }

  lemma HeaderTailClear(kind: Kind, space: string, name: string)
    requires IsGap(space) && IsName(name)
    ensures Clear(Header(kind, space, name)[1..], kind.Opening())
  {
    HeaderPlain(kind, space, name);
    var tail := Header(kind, space, name)[1..];
    forall k | 0 <= k < |tail| ensures Blocked(tail, kind.Opening(), k) {
      if k == 0 { assert tail[0 + 1] != kind.Opening()[1]; } else { assert tail[k + 0] != kind.Opening()[0]; }
    }
  }

  lemma FirstOff(header: string, rest: string)
    requires header != ""
    ensures (header + rest)[0] == header[0] && (header + rest)[1..] == header[1..] + rest
    ensures (header + rest)[|header|..] == rest && header == [header[0]] + header[1..]
  {}

  /** A header that nothing closes is copied. */
  lemma OpenHeaderCopied(kind: Kind, env: Env, space: string, name: string, rest: string)
    requires IsGap(space) && IsName(name) && Clear(rest, kind.Closing())
    ensures BlockPass(kind, env, Header(kind, space, name) + rest)
            == Header(kind, space, name) + BlockPass(kind, env, rest)
  {
    var header := Header(kind, space, name);
    HeaderMatches(kind, space, name, rest);
    FirstOff(header, rest);
    FindNothing(rest, kind.Closing());
    PassUnclosed(kind, env, header + rest, name, |header|);
    HeaderTailClear(kind, space, name);
    PassCopies(kind, env, header[1..], rest);
    Assoc([header[0]], header[1..], BlockPass(kind, env, rest));
  }

  /** A block pass works piece by piece. */
  lemma {:induction false} PassPieces(kind: Kind, env: Env, ps: seq<Piece>)
    requires PiecesOk(ps)
    ensures BlockPass(kind, env, Written(ps)) == Written(PiecePass(kind, env, ps))
    decreases |ps|
  {
    if ps != [] {
      var p, more := ps[0], ps[1..];
      var end := if p.Head? && p.kind == kind then FindTail(kind, more) else None;
      if end.None? {
        PassPieces(kind, env, more);
        PieceClear(p, kind);
        if p.Head? && p.kind == kind {
          WrittenClear(more, kind);
          OpenHeaderCopied(kind, env, p.space, p.name, Written(more));
        } else {
          PassCopies(kind, env, PieceText(p), Written(more));
        }
        WrittenConcat([p], PiecePass(kind, env, more));
        OnePiece(p);
      } else {
        ClosedBlock(kind, env, p, more, end.value);
        PassPieces(kind, env, more[end.value + 1..]);
        var kept := if kind.Keeps(env, p.name) then more[..end.value] else [];
        WrittenConcat(kept, PiecePass(kind, env, more[end.value + 1..]));
      }
    }
  }

  lemma OnePiece(p: Piece)
    ensures Written([p]) == PieceText(p)
  {
    GlueOne(PieceText, p);
  }

  lemma ClosedBlock(kind: Kind, env: Env, p: Piece, more: seq<Piece>, i: nat)
    requires p.Head? && p.kind == kind && PieceOk(p) && PiecesOk(more)
    requires i < |more| && more[i] == Tail(kind) && Tail(kind) !in more[..i]
    ensures BlockPass(kind, env, PieceText(p) + Written(more))
            == Written(if kind.Keeps(env, p.name) then more[..i] else []) + BlockPass(kind, env, Written(more[i + 1..]))
  {
    var content, rest := more[..i], more[i + 1..];
    WrittenClear(content, kind);
    BlockMatched(kind, env, p.space, p.name, Written(content), Written(rest));
    WrittenSplit(kind, more, i);
    FourParts(PieceText(p), Written(content), kind.Closing(), Written(rest));
  }

  lemma WrittenSplit(kind: Kind, ps: seq<Piece>, i: nat)
    requires i < |ps| && ps[i] == Tail(kind)
    ensures Written(ps) == Written(ps[..i]) + (kind.Closing() + Written(ps[i + 1..]))
  {
    GlueSplit(PieceText, ps, i);
  }

  lemma FourParts(a: string, b: string, c: string, d: string)
    ensures a + b + c + d == a + (b + (c + d))
  {}

  // ---------- The variable pass ----------

  lemma CopyOne(env: Env, c: char, rest: string)
    requires c != '{'
    ensures VariablePass(env, [c] + rest) == [c] + VariablePass(env, rest)
  {
    var s := [c] + rest;
    assert s[0] == c && s[1..] == rest;
    assert !("{{" <= s);
  }

  lemma {:induction false} VariablesCopy(env: Env, text: string, rest: string)
    requires IsPlain(text)
    ensures VariablePass(env, text + rest) == text + VariablePass(env, rest)
    decreases |text|
  {
    if text == "" {
      assert text + rest == rest;
    } else {
      var c, tail := text[0], text[1..];
      assert c in text && forall x :: x in tail ==> x in text;
      VariablesCopy(env, tail, rest);
      CopyOne(env, c, tail + rest);
      assert text == [c] + tail;
      Assoc([c], tail, rest);
      Assoc([c], tail, VariablePass(env, rest));
    }
  }

  lemma VariableMatched(env: Env, name: string, rest: string)
    requires IsName(name)
    ensures VariablePass(env, "{{" + name + "}}" + rest)
            == (if env.Knows(name) then env.Shown(name) else "{{" + name + "}}") + VariablePass(env, rest)
  {
    var s := "{{" + name + "}}" + rest;
    assert s[2..] == name + "}}" + rest;
    NameMatches(name, rest);
    assert s[2..][|name| + 2..] == rest;
  }

  lemma {:induction false} NoBraceCopied(env: Env, text: string, rest: string)
    requires forall c :: c in text ==> c != '{'
    ensures VariablePass(env, text + rest) == text + VariablePass(env, rest)
    decreases |text|
  {
    if text == "" {
      assert text + rest == rest;
    } else {
      var c, tail := text[0], text[1..];
      assert c in text && forall x :: x in tail ==> x in text;
      NoBraceCopied(env, tail, rest);
      CopyOne(env, c, tail + rest);
      assert text == [c] + tail;
      Assoc([c], tail, rest);
      Assoc([c], tail, VariablePass(env, rest));
    }
  }

  lemma NotVariableCopied(env: Env, c: char, rest: string)
    requires rest != "" && (rest[0] != '{' || (rest[1..] != "" && !IsWord(rest[1])))
    ensures VariablePass(env, [c] + rest) == [c] + VariablePass(env, rest)
  {
    var s := [c] + rest;
    assert s[1..] == rest;
    if "{{" <= s {
      assert s[2..] == rest[1..];
      assert WordLength(s[2..]) == 0;
    }
  }

  /** A tag is no variable. */
  lemma TagCopied(env: Env, tag: string, rest: string)
    requires |tag| > 3 && tag[..2] == "{{" && !IsWord(tag[2]) && forall k :: 2 <= k < |tag| ==> tag[k] != '{'
    ensures VariablePass(env, tag + rest) == tag + VariablePass(env, rest)
  {
    var inner := tag[2..];
    forall c | c in inner ensures c != '{' {
      var k :| 0 <= k < |inner| && inner[k] == c;
      assert tag[k + 2] == c;
    }
    NoBraceCopied(env, inner, rest);
    TwoOff(tag, rest);
    NotVariableCopied(env, '{', inner + rest);
    NotVariableCopied(env, '{', ['{'] + (inner + rest));
    Assoc(['{'], ['{'], inner + VariablePass(env, rest));
    TwoOff(tag, VariablePass(env, rest));
  }

  lemma TwoOff(tag: string, rest: string)
    requires |tag| > 3 && tag[..2] == "{{"
    ensures tag + rest == ['{'] + (['{'] + (tag[2..] + rest))
    ensures (tag[2..] + rest)[0] == tag[2]
    ensures (['{'] + (tag[2..] + rest))[1] == tag[2]
  {
    assert tag[0] == tag[..2][0] && tag[1] == tag[..2][1];
  }

  lemma PieceShown(env: Env, p: Piece, rest: string)
    requires PieceOk(p)
    ensures VariablePass(env, PieceText(p) + rest)
            == (if p.Use? && env.Knows(p.name) then env.Shown(p.name) else PieceText(p)) + VariablePass(env, rest)
  {
    match p
    case Literal(text) => VariablesCopy(env, text, rest);
    case Use(name) => VariableMatched(env, name, rest);
    case Head(kind, space, name) =>
      HeaderPlain(kind, space, name);
      assert PieceText(p)[..2] == "{{";
      TagCopied(env, PieceText(p), rest);
    case Tail(kind) => TagCopied(env, PieceText(p), rest);
  }

  lemma {:induction false} VariablesShown(env: Env, ps: seq<Piece>)
    requires PiecesOk(ps)
    ensures VariablePass(env, Written(ps)) == ShowPieces(env, ps)
    decreases |ps|
  {
    if ps != [] {
      VariablesShown(env, ps[1..]);
      PieceShown(env, ps[0], Written(ps[1..]));
    }
  }

  lemma {:induction false} PassKeepsPieces(kind: Kind, env: Env, ps: seq<Piece>, p: Piece)
    requires p in PiecePass(kind, env, ps)
    ensures p in ps
    decreases |ps|
  {
    if ps != [] {
      var more := ps[1..];
      var end := if ps[0].Head? && ps[0].kind == kind then FindTail(kind, more) else None;
      if end.None? {
        if p != ps[0] { PassKeepsPieces(kind, env, more, p); }
      } else if p in PiecePass(kind, env, more[end.value + 1..]) {
        PassKeepsPieces(kind, env, more[end.value + 1..], p);
      }
    }
  }

  lemma PassKeepsOk(kind: Kind, env: Env, ps: seq<Piece>)
    requires PiecesOk(ps)
    ensures PiecesOk(PiecePass(kind, env, ps))
  {
    forall p | p in PiecePass(kind, env, ps) ensures PieceOk(p) { PassKeepsPieces(kind, env, ps, p); }
  }

  /** A whole rendering works piece by piece, for every list of pieces. */
  lemma RenderPieces(ps: seq<Piece>, env: Env)
    requires PiecesOk(ps)
    ensures Render(Written(ps), env) == ShowPieces(env, PiecePass(Unless, env, PiecePass(If, env, ps)))
  {
    var p1 := PiecePass(If, env, ps);
    PassPieces(If, env, ps);
    PassKeepsOk(If, env, ps);
    PassPieces(Unless, env, p1);
    PassKeepsOk(Unless, env, p1);
    VariablesShown(env, PiecePass(Unless, env, p1));
  }
}
