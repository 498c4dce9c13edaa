/** The newline-delimited JSON-RPC loop of `mcp/al-tools-server.ts`. */
module StdioTransport {
  import opened Characters
  import opened Wrappers

  // ---------- Lines ----------

  ghost predicate AllSpace(s: string) {
    forall i :: 0 <= i < |s| ==> IsSpace(s[i])
  }

  function TrimStart(s: string): string {
    if s != "" && IsSpace(s[0]) then TrimStart(s[1..]) else s
  }

  function TrimEnd(s: string): string {
    if s != "" && IsSpace(s[|s| - 1]) then TrimEnd(s[..|s| - 1]) else s
  }

  function Trim(s: string): string {
    TrimEnd(TrimStart(s))
  }

  lemma {:induction false} TrimStartCuts(s: string) returns (before: string)
    ensures s == before + TrimStart(s) && AllSpace(before)
    ensures TrimStart(s) != "" ==> !IsSpace(TrimStart(s)[0])
  {
    if s != "" && IsSpace(s[0]) {
      var b := TrimStartCuts(s[1..]);
      before := [s[0]] + b;
    } else {
      before := "";
    }
  }

  lemma {:induction false} TrimEndCuts(s: string) returns (after: string)
    ensures s == TrimEnd(s) + after && AllSpace(after)
    ensures TrimEnd(s) != "" ==> !IsSpace(TrimEnd(s)[|TrimEnd(s)| - 1])
  {
    if s != "" && IsSpace(s[|s| - 1]) {
      var a := TrimEndCuts(s[..|s| - 1]);
      after := a + [s[|s| - 1]];
    } else {
      after := "";
    }
  }

  /** Trimming cuts space off both ends and leaves none there. */
  lemma TrimCuts(s: string) returns (before: string, after: string)
    ensures s == before + Trim(s) + after && AllSpace(before) && AllSpace(after)
    ensures Trim(s) != "" ==> !IsSpace(Trim(s)[0]) && !IsSpace(Trim(s)[|Trim(s)| - 1])
  {
    before := TrimStartCuts(s);
    after := TrimEndCuts(TrimStart(s));
    assert TrimStart(s) == Trim(s) + after;
    if Trim(s) != "" { assert TrimStart(s)[0] == Trim(s)[0]; }
  }

  /** Where the first newline from `i` on is, or the length. */
  function NewlineFrom(s: string, i: nat): (r: nat)
    requires i <= |s|
    ensures i <= r <= |s|
    decreases |s| - i
  {
    if i == |s| || s[i] == '\n' then i else NewlineFrom(s, i + 1)
  }

  function LineEnd(s: string): (i: nat)
    ensures i <= |s|
  {
    NewlineFrom(s, 0)
  }

  lemma {:induction false} NewlineFromIs(s: string, i: nat)
    requires i <= |s|
    ensures NewlineFrom(s, i) < |s| ==> s[NewlineFrom(s, i)] == '\n'
    ensures forall j :: i <= j < NewlineFrom(s, i) ==> s[j] != '\n'
    decreases |s| - i
  {
    if i < |s| && s[i] != '\n' { NewlineFromIs(s, i + 1); }
  }

  lemma LineEndIs(s: string)
    ensures LineEnd(s) < |s| ==> s[LineEnd(s)] == '\n'
    ensures forall j :: 0 <= j < LineEnd(s) ==> s[j] != '\n'
  {
    NewlineFromIs(s, 0);
  }

  /** The newline-terminated lines of a text, without their newlines. */
  function Lines(s: string): (r: seq<string>)
    decreases |s|
  {
    var i := LineEnd(s);
    if i == |s| then [] else [s[..i]] + Lines(s[i + 1..])
  }

  /** What follows the last newline. */
  function Tail(s: string): string
    decreases |s|
  {
    var i := LineEnd(s);
    if i == |s| then s else Tail(s[i + 1..])
  }

  lemma LinesStep(buffer: string)
    requires LineEnd(buffer) < |buffer|
    ensures
      var i := LineEnd(buffer);
      Lines(buffer) == [buffer[..i]] + Lines(buffer[i + 1..]) && Tail(buffer) == Tail(buffer[i + 1..])
  {}

  function Unlines(lines: seq<string>): string {
    if lines == [] then "" else lines[0] + ['\n'] + Unlines(lines[1..])
  }

  ghost predicate NoNewlines(lines: seq<string>) {
    forall i :: 0 <= i < |lines| ==> '\n' !in lines[i]
  }

  lemma LineEndAt(line: string, rest: string)
    requires '\n' !in line
    ensures LineEnd(line + ['\n'] + rest) == |line|
  {
    var s := line + ['\n'] + rest;
    LineEndIs(s);
    assert s[|line|] == '\n';
    assert forall j :: 0 <= j < |line| ==> s[j] == line[j];
  }

  /** The lines and the tail are the only way to cut a text at its newlines. */
  lemma {:induction false} LinesUnique(lines: seq<string>, tail: string)
    requires NoNewlines(lines) && '\n' !in tail
    ensures Lines(Unlines(lines) + tail) == lines && Tail(Unlines(lines) + tail) == tail
  {
    var s := Unlines(lines) + tail;
    if lines == [] {
      assert s == tail;
      LineEndIs(s);
      assert forall j :: 0 <= j < |s| ==> s[j] in tail;
    } else {
      var rest := Unlines(lines[1..]) + tail;
      assert s == lines[0] + ['\n'] + rest;
      LineEndAt(lines[0], rest);
      LinesUnique(lines[1..], tail);
      assert s[|lines[0]| + 1..] == rest && s[..|lines[0]|] == lines[0];
    }
  }

  lemma {:induction false} CutAtNewlines(s: string) returns (lines: seq<string>, tail: string)
    ensures s == Unlines(lines) + tail && NoNewlines(lines) && '\n' !in tail
  {
    if s == "" {
      lines, tail := [], "";
    } else {
      lines, tail := CutAtNewlines(s[1..]);
      assert s == [s[0]] + s[1..];
      if s[0] == '\n' {
        UnlinesStep("", lines);
        lines := [""] + lines;
      } else if lines == [] {
        tail := [s[0]] + tail;
      } else {
        UnlinesStep([s[0]] + lines[0], lines[1..]);
        lines := [[s[0]] + lines[0]] + lines[1..];
      }
    }
  }

  lemma UnlinesStep(line: string, lines: seq<string>)
    ensures Unlines([line] + lines) == line + ['\n'] + Unlines(lines)
  {
    assert ([line] + lines)[1..] == lines;
  }

  /** Lines and tail are the text, cut at its newlines. */
  lemma LinesRebuild(s: string)
    ensures Unlines(Lines(s)) + Tail(s) == s && NoNewlines(Lines(s)) && '\n' !in Tail(s)
  {
    var lines, tail := CutAtNewlines(s);
    LinesUnique(lines, tail);
  }

  lemma FirstLine(line: string, rest: string)
    requires '\n' !in line
    ensures Lines(line + ['\n'] + rest) == [line] + Lines(rest) && Tail(line + ['\n'] + rest) == Tail(rest)
  {
    var s := line + ['\n'] + rest;
    LineEndAt(line, rest);
    assert s[..|line|] == line && s[|line| + 1..] == rest;
  }

  /** A text that arrives in two parts has the lines of the first, then those of its tail and the rest. */
  lemma {:induction false} LinesSplit(a: string, b: string)
    ensures Lines(a + b) == Lines(a) + Lines(Tail(a) + b) && Tail(a + b) == Tail(Tail(a) + b)
    decreases |a|
  {
    var i := LineEnd(a);
    LineEndIs(a);
    if i == |a| {
      assert Lines(a) == [] && Tail(a) == a;
    } else {
      var line, rest := a[..i], a[i + 1..];
      assert a == line + ['\n'] + rest && a + b == line + ['\n'] + (rest + b);
      FirstLine(line, rest);
      FirstLine(line, rest + b);
      LinesSplit(rest, b);
      Regroup([line], Lines(rest), Lines(Tail(rest) + b));
    }
  }

  lemma Regroup<T>(a: seq<T>, b: seq<T>, c: seq<T>)
    ensures a + (b + c) == a + b + c
  {}

  // ---------- Requests and responses ----------

  /** A request's `id`; an absent one is left out of the printed response. */
  datatype Id = Absent | Null | Given(text: string)

  datatype Request = Request(id: Id, method_: string, params: string)

  /** What `JSON.parse` gives: an error, `null`, or a value whose fields are read as a request. */
  datatype Parsed = Malformed(detail: string) | NullValue | Value(request: Request)

  datatype Body = ServerInfo | ToolList | ToolResult(text: string)

  datatype Response = Result(id: Id, body: Body) | Error(id: Id, code: int, message: string)

  /** The outcome of `dispatchToolCall`, which answers under the request's id. */
  datatype ToolOutcome = Returned(body: Body) | Refused(code: int, message: string) | Raised(message: string)

  /** The parts of the server outside the loop: parsing, the tools with their state, and the text of
      the error for reading fields of `null`. */
  datatype Server<!S> = Server(parse: string -> Parsed, callTool: (S, Request) -> (S, ToolOutcome), nullDetail: string)

  function BuildParseErrorResponse(detail: string): Response {
    Error(Null, -32700, "Parse error: " + detail)
  }

  /** The new state of the tools and the response, if there is one. */
  function HandleRequest<S>(server: Server<S>, state: S, request: Request): (S, Option<Response>) {
    if request.method_ == "initialize" then (state, Some(Result(request.id, ServerInfo)))
    else if request.method_ == "notifications/initialized" then (state, None)
    else if request.method_ == "tools/list" then (state, Some(Result(request.id, ToolList)))
    else if request.method_ == "tools/call" then
      var (next, outcome) := server.callTool(state, request);
      (next, Some(match outcome
        case Returned(body) => Result(request.id, body)
        case Refused(code, message) => Error(request.id, code, message)
        case Raised(message) => Error(request.id, -32603, "Internal error: " + message)))
    else (state, Some(Error(request.id, -32601, "Method not found: " + request.method_)))
  }

  /** The state of the tools and all responses so far. */
  datatype Session<S> = Session(state: S, output: seq<Response>)

  function AfterLine<S>(server: Server<S>, s: Session<S>, rawLine: string): Session<S> {
    var line := Trim(rawLine);
    if line == "" then s
    else
      match server.parse(line)
      case Malformed(detail) => s.(output := s.output + [BuildParseErrorResponse(detail)])
      case NullValue => s.(output := s.output + [BuildParseErrorResponse(server.nullDetail)])
      case Value(request) =>
        var (next, response) := HandleRequest(server, s.state, request);
        Session(next, s.output + if response.Some? then [response.value] else [])
  }

  function AfterLines<S>(server: Server<S>, s: Session<S>, lines: seq<string>): Session<S>
    decreases |lines|
  {
    if lines == [] then s
    else AfterLine(server, AfterLines(server, s, lines[..|lines| - 1]), lines[|lines| - 1])
  }

  lemma AppendOne(done: seq<string>, line: string, rest: seq<string>)
    ensures done + ([line] + rest) == (done + [line]) + rest
  {}

  lemma OneMoreLine<S>(server: Server<S>, s: Session<S>, done: seq<string>, rawLine: string)
    ensures AfterLines(server, s, done + [rawLine]) == AfterLine(server, AfterLines(server, s, done), rawLine)
  {
    assert (done + [rawLine])[..|done|] == done;
  }

  class StdioLoop<S> {
    const server: Server<S>
    var buffer: string
    var session: Session<S>

    constructor (server: Server<S>, state: S)
      ensures this.server == server && buffer == "" && session == Session(state, [])
    {
      this.server := server;
      buffer := "";
      session := Session(state, []);
    }

    /** One chunk of input: every line it completes is handled, the rest stays in the buffer. */
    method Feed(chunk: string)
      modifies this
      ensures session == AfterLines(server, old(session), Lines(old(buffer) + chunk))
      ensures buffer == Tail(old(buffer) + chunk)
    {
      buffer := buffer + chunk;
      ghost var all := buffer;
      ghost var done: seq<string> := [];
      var newlineIndex := LineEnd(buffer);
      while newlineIndex < |buffer|
        invariant newlineIndex == LineEnd(buffer)
        invariant Lines(all) == done + Lines(buffer) && Tail(all) == Tail(buffer)
        invariant session == AfterLines(server, old(session), done)
        decreases |buffer|
      {
        ghost var rawLine := buffer[..newlineIndex];
        LinesStep(buffer);
        AppendOne(done, rawLine, Lines(buffer[newlineIndex + 1..]));
        OneMoreLine(server, old(session), done, rawLine);
        done := done + [rawLine];
        var line := Trim(buffer[..newlineIndex]);
        buffer := buffer[newlineIndex + 1..];
        newlineIndex := LineEnd(buffer);
        if line != "" { HandleLine(line); }
      }
      assert done + [] == done;
    }

    method HandleLine(line: string)
      requires line != ""
      modifies this`session
      ensures forall raw :: Trim(raw) == line ==> session == AfterLine(server, old(session), raw)
    {
      match server.parse(line)
      case Malformed(detail) =>
        session := session.(output := session.output + [BuildParseErrorResponse(detail)]);
      case NullValue =>
        session := session.(output := session.output + [BuildParseErrorResponse(server.nullDetail)]);
      case Value(request) =>
        var (next, response) := HandleRequest(server, session.state, request);
        session := session.(state := next);
        if response.Some? { session := session.(output := session.output + [response.value]); }
    }
  }

  // ---------- Chunking does not matter ----------

  function Joined(chunks: seq<string>): string {
    if chunks == [] then "" else Joined(chunks[..|chunks| - 1]) + chunks[|chunks| - 1]
  }

  /** Session and buffer after a sequence of chunks, one `Feed` at a time. */
  function AfterChunks<S>(server: Server<S>, s: Session<S>, chunks: seq<string>): (Session<S>, string)
    decreases |chunks|
  {
    if chunks == [] then (s, "")
    else
      var (before, buffer) := AfterChunks(server, s, chunks[..|chunks| - 1]);
      var text := buffer + chunks[|chunks| - 1];
      (AfterLines(server, before, Lines(text)), Tail(text))
  }

  lemma {:induction false} AfterLinesSplits<S>(server: Server<S>, s: Session<S>, a: seq<string>, b: seq<string>)
    ensures AfterLines(server, s, a + b) == AfterLines(server, AfterLines(server, s, a), b)
    decreases |b|
  {
    if b == [] {
      assert a + b == a;
    } else {
      var n := |b| - 1;
      assert (a + b)[..|a + b| - 1] == a + b[..n];
      AfterLinesSplits(server, s, a, b[..n]);
    }
  }

  /** However the input is cut into chunks, the loop handles the newline-terminated lines of the whole
      in order and keeps the unfinished tail. */
  lemma {:induction false} ChunkingIndependent<S>(server: Server<S>, s: Session<S>, chunks: seq<string>)
    ensures AfterChunks(server, s, chunks) == (AfterLines(server, s, Lines(Joined(chunks))), Tail(Joined(chunks)))
    decreases |chunks|
  {
    if chunks != [] {
      var n := |chunks| - 1;
      ChunkingIndependent(server, s, chunks[..n]);
      var whole := Joined(chunks[..n]);
      LinesSplit(whole, chunks[n]);
      AfterLinesSplits(server, s, Lines(whole), Lines(Tail(whole) + chunks[n]));
    }
  }

  // ---------- One response a line ----------

  /** A line that is answered: not blank, and not the one notification the server knows. */
  predicate IsAnswered<S>(server: Server<S>, rawLine: string) {
    var line := Trim(rawLine);
    line != "" && !(server.parse(line).Value? && server.parse(line).request.method_ == "notifications/initialized")
  }

  /** The id its response carries. */
  function ReplyId<S>(server: Server<S>, rawLine: string): Id {
    var p := server.parse(Trim(rawLine));
    if p.Value? then p.request.id else Null
  }

  /** The positions of the answered lines, in order. */
  function AnsweredAt<S>(server: Server<S>, lines: seq<string>): (r: seq<nat>)
    ensures forall k :: 0 <= k < |r| ==> r[k] < |lines| && IsAnswered(server, lines[r[k]])
    ensures forall a, b :: 0 <= a < b < |r| ==> r[a] < r[b]
    ensures forall i :: 0 <= i < |lines| && IsAnswered(server, lines[i]) ==> i in r
  {
    if lines == [] then []
    else
      var n := |lines| - 1;
      AnsweredAt(server, lines[..n]) + if IsAnswered(server, lines[n]) then [n] else []
  }

  /** The state of the tools after the `tools/call` requests among the lines, and after nothing else. */
  function ToolState<S>(server: Server<S>, state: S, lines: seq<string>): S {
    if lines == [] then state
    else
      var n := |lines| - 1;
      var before, p := ToolState(server, state, lines[..n]), server.parse(Trim(lines[n]));
      if Trim(lines[n]) != "" && p.Value? && p.request.method_ == "tools/call"
      then server.callTool(before, p.request).0 else before
  }

  /** `r` is a right answer to the line, asked in state `state`. */
  ghost predicate Answers<S>(server: Server<S>, state: S, rawLine: string, r: Response) {
    var p := server.parse(Trim(rawLine));
    && r.id == ReplyId(server, rawLine)
    && (!p.Value? ==>
          && r.Error? && r.code == -32700
          && r.message == "Parse error: " + (if p.Malformed? then p.detail else server.nullDetail))
    && (p.Value? && p.request.method_ == "initialize" ==> r.Result? && r.body == ServerInfo)
    && (p.Value? && p.request.method_ == "tools/list" ==> r.Result? && r.body == ToolList)
    && (p.Value? && p.request.method_ == "tools/call" ==>
          match server.callTool(state, p.request).1
          case Returned(body) => r.Result? && r.body == body
          case Refused(code, message) => r.Error? && r.code == code && r.message == message
          case Raised(message) => r.Error? && r.code == -32603 && r.message == "Internal error: " + message)
    && (p.Value? && p.request.method_ !in {"initialize", "tools/list", "tools/call"} ==>
          r.Error? && r.code == -32601 && r.message == "Method not found: " + p.request.method_)
  }

  /** Output `k` is for answered line `k`, asked in the state that the tool calls before it left. */
  ghost predicate AllAnswered<S>(server: Server<S>, state: S, lines: seq<string>, output: seq<Response>) {
    var at := AnsweredAt(server, lines);
    && |output| == |at|
    && forall k :: 0 <= k < |at| ==> Answers(server, ToolState(server, state, lines[..at[k]]), lines[at[k]], output[k])
  }

  lemma LineAnswered<S>(server: Server<S>, s: Session<S>, rawLine: string)
    ensures
      var r := AfterLine(server, s, rawLine).output;
      if IsAnswered(server, rawLine) then
        && |r| == |s.output| + 1 && r[..|s.output|] == s.output
        && Answers(server, s.state, rawLine, r[|s.output|])
      else r == s.output
  {}

  lemma StateIsToolState<S>(server: Server<S>, state: S, s: Session<S>, lines: seq<string>)
    requires lines != [] && s.state == ToolState(server, state, lines[..|lines| - 1])
    ensures AfterLine(server, s, lines[|lines| - 1]).state == ToolState(server, state, lines)
  {}

  /** Every answered line gets exactly one right response, in order, and only the tool calls change
      the state of the tools. */
  lemma {:induction false} OneResponsePerLine<S>(server: Server<S>, state: S, lines: seq<string>)
    ensures
      var s := AfterLines(server, Session(state, []), lines);
      s.state == ToolState(server, state, lines) && AllAnswered(server, state, lines, s.output)
    decreases |lines|
  {
    if lines != [] {
      var n := |lines| - 1;
      OneResponsePerLine(server, state, lines[..n]);
      var s := AfterLines(server, Session(state, []), lines[..n]);
      StateIsToolState(server, state, s, lines);
      assert lines == lines[..n] + [lines[n]];
      NextAnswered(server, state, s, lines[..n], lines[n]);
    }
  }

  lemma EarlierAnswers<S>(server: Server<S>, state: S, lines: seq<string>, more: string, output: seq<Response>,
                          r: seq<Response>)
    requires AllAnswered(server, state, lines, output) && output <= r
    ensures
      var at := AnsweredAt(server, lines);
      forall k :: 0 <= k < |at| ==>
        Answers(server, ToolState(server, state, (lines + [more])[..at[k]]), (lines + [more])[at[k]], r[k])
  {
    var at := AnsweredAt(server, lines);
    forall k | 0 <= k < |at|
      ensures Answers(server, ToolState(server, state, (lines + [more])[..at[k]]), (lines + [more])[at[k]], r[k])
    {
      assert (lines + [more])[..at[k]] == lines[..at[k]];
    }
  }

  lemma NextAnswered<S>(server: Server<S>, state: S, s: Session<S>, before: seq<string>, line: string)
    requires s.state == ToolState(server, state, before) && AllAnswered(server, state, before, s.output)
    ensures AllAnswered(server, state, before + [line], AfterLine(server, s, line).output)
  {
    var lines := before + [line];
    assert lines[..|before|] == before;
    LineAnswered(server, s, line);
    EarlierAnswers(server, state, before, line, s.output, AfterLine(server, s, line).output);
  }

  /** A request without an id, which JSON-RPC calls a notification. */
  ghost predicate IsNotification<S>(server: Server<S>, rawLine: string) {
    var p := server.parse(Trim(rawLine));
    Trim(rawLine) != "" && p.Value? && p.request.id == Absent
  }

  /** Every notification of the input is the one the server knows. */
  ghost predicate KnownOnly<S>(server: Server<S>, lines: seq<string>) {
    forall i :: 0 <= i < |lines| && IsNotification(server, lines[i]) ==>
                  server.parse(Trim(lines[i])).request.method_ == "notifications/initialized"
  }

  /** Over any list of lines no notification is answered exactly when each is the one known method: the
      loop answers all the others, without an id. */
  lemma NoNotificationAnsweredExactly<S>(server: Server<S>, state: S, lines: seq<string>)
    ensures (forall r :: r in AfterLines(server, Session(state, []), lines).output ==> r.id != Absent)
            <==> KnownOnly(server, lines)
  {
    var output, at := AfterLines(server, Session(state, []), lines).output, AnsweredAt(server, lines);
    OneResponsePerLine(server, state, lines);
    if KnownOnly(server, lines) {
      forall r | r in output ensures r.id != Absent {
        var k :| 0 <= k < |output| && output[k] == r;
        assert r.id == ReplyId(server, lines[at[k]]);
      }
    } else {
      var i :| 0 <= i < |lines| && IsNotification(server, lines[i])
               && server.parse(Trim(lines[i])).request.method_ != "notifications/initialized";
      assert IsAnswered(server, lines[i]);
      var k :| 0 <= k < |at| && at[k] == i;
      assert output[k] in output && output[k].id == Absent;
    }
  }
}
