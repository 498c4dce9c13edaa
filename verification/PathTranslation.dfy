/** `translatePath` of `mcp/path-translation.ts` for ASCII paths: what it accepts and returns, segment
    by segment, for every host path and current directory. */
module PathTranslation {
  import opened Wrappers
  import opened Segments
  import opened Characters

  datatype Mapping = Mapping(containerPath: string, hostPath: string)

  datatype Translation = Translated(path: string) | OutsideContainer | EscapesHost

  // ---------- The code ----------

  function Backslashes(s: string): (r: string)
    ensures |r| == |s| && forall i :: 0 <= i < |s| ==> r[i] == if s[i] == '/' then SEP else s[i]
  {
    seq(|s|, i requires 0 <= i < |s| => if s[i] == '/' then SEP else s[i])
  }

  function StripTrailing(s: string): string {
    if s != "" && s[|s| - 1] == SEP then StripTrailing(s[..|s| - 1]) else s
  }

  function Normalize(s: string): string {
    StripTrailing(Backslashes(s))
  }

  /** Resolves one segment against the segments so far; nothing goes above the root. */
  function Push(done: seq<string>, segment: string): seq<string> {
    if segment == "" || segment == "." then done
    else if segment == ".." then (if done == [] then [] else done[..|done| - 1])
    else done + [segment]
  }

  function PushAll(done: seq<string>, segs: seq<string>): seq<string>
    decreases |segs|
  {
    if segs == [] then done else PushAll(Push(done, segs[0]), segs[1..])
  }

  // ---------- `resolve` on Windows ----------

  /** A drive such as `C:`. */
  predicate IsDrive(d: string) {
    |d| == 2 && ('A' <= d[0] <= 'Z' || 'a' <= d[0] <= 'z') && d[1] == ':'
  }

  /** A letter and a colon. */
  lemma IsDriveExactly(c: char, d: string)
    ensures IsDrive([c] + ":") <==> c in "ABCDEFGHIJKLMNOPQRSTUVWXYZ" || c in "abcdefghijklmnopqrstuvwxyz"
    ensures IsDrive(d) ==> |d| == 2 && d[1] == ':'
  {
    UpperExactly(c);
    LowerExactly(c);
  }

  function Share(server: string, share: string): string {
    [SEP, SEP] + server + [SEP] + share
  }

  predicate IsPart(s: string) {
    s != "" && SEP !in s
  }

  ghost predicate IsDevice(d: string) {
    IsDrive(d) || exists server, share :: d == Share(server, share) && IsPart(server) && IsPart(share)
  }

  /** An absolute path: a drive or a network share, and the segments below its root. */
  datatype Place = Place(device: string, segs: seq<string>) {
    ghost predicate Valid() {
      IsDevice(device) && Resolved(segs)
    }

    function Show(): string {
      device + [SEP] + Join(segs)
    }
  }

  /** How many characters at the start are separators, or how many are not. */
  function Span(s: string, separators: bool): (n: nat)
    ensures n <= |s| && (forall i :: 0 <= i < n ==> (s[i] == SEP) == separators)
    ensures n < |s| ==> (s[n] == SEP) != separators
  {
    if s == "" || (s[0] == SEP) != separators then 0 else 1 + Span(s[1..], separators)
  }

  /** The part of a path up to its first separator. */
  function Part(s: string): (r: string)
    ensures SEP !in r && r <= s && (|r| < |s| ==> s[|r|] == SEP)
  {
    s[..Span(s, false)]
  }

  datatype ShareRoot = ShareRoot(server: string, share: string, rest: string)

  /** The network share at the start of a path, and what follows it. */
  function ShareOf(p: string): (r: Option<ShareRoot>)
    ensures r.Some? ==> IsPart(r.value.server) && IsPart(r.value.share)
  {
    if !([SEP, SEP] <= p) then None
    else
      var server := Part(p[2..]);
      var after := p[2..][|server|..];
      var below := after[Span(after, true)..];
      var share := Part(below);
      if server == "" || share == "" then None else Some(ShareRoot(server, share, below[|share|..]))
  }

  datatype Root = Root(device: string, absolute: bool, rest: string)

  function RootOf(p: string): Root {
    var share := ShareOf(p);
    if share.Some? then Root(Share(share.value.server, share.value.share), true, share.value.rest)
    else if p != "" && p[0] == SEP then Root("", true, p)
    else if |p| >= 2 && IsDrive(p[..2]) then Root(p[..2], 2 < |p| && p[2] == SEP, p[2..])
    else Root("", false, p)
  }

  /** A path without a device is on that of the current directory; one that is not absolute starts at
      the current directory, if that is on its device. */
  function Resolve(p: string, cwd: Place): Place {
    var root := RootOf(p);
    var device := if root.device == "" then cwd.device else root.device;
    var start := if root.absolute || Lower(device) != Lower(cwd.device) then [] else cwd.segs;
    Place(device, PushAll(start, Split(root.rest)))
  }

  function TranslatePath(inputPath: string, mapping: Option<Mapping>, cwd: Place): (r: Translation) {
    if mapping.None? then Translated(inputPath)
    else
      var input := Backslashes(inputPath);
      var containerRoot := Normalize(mapping.value.containerPath);
      var inputLower := StripTrailing(Lower(input));
      var rootLower := Lower(containerRoot);
      var isRoot := inputLower == rootLower;
      var isChild := rootLower + [SEP] <= inputLower;
      if !isRoot && !isChild then OutsideContainer
      else
        StripLower(input);
        var relativePart := if isRoot then "" else StripTrailing(input)[|containerRoot|..];
        var hostRoot := Resolve(Normalize(mapping.value.hostPath), cwd).Show();
        var translated := Resolve(hostRoot + relativePart, cwd).Show();
        var translatedLower := Lower(translated);
        var hostRootLower := Lower(hostRoot);
        if translatedLower != hostRootLower && !(hostRootLower + [SEP] <= translatedLower) then EscapesHost
        else Translated(translated)
  }

  lemma {:induction false} StripLower(s: string)
    ensures StripTrailing(Lower(s)) == Lower(StripTrailing(s))
    decreases |s|
  {
    if s != "" {
      assert Lower(s)[..|s| - 1] == Lower(s[..|s| - 1]);
      if s[|s| - 1] == SEP { StripLower(s[..|s| - 1]); }
    }
  }

  // ---------- Segment view ----------

  /** Segments that a resolved path can have. */
  ghost predicate Resolved(segs: seq<string>) {
    forall x :: x in segs ==> x != "" && x != "." && x != ".." && SEP !in x
  }

  lemma {:induction false} PushAllResolved(done: seq<string>, segs: seq<string>)
    requires Resolved(done) && Plain(segs)
    ensures Resolved(PushAll(done, segs))
    decreases |segs|
  {
    if segs != [] {
      assert segs[0] in segs && forall x :: x in segs[1..] ==> x in segs;
      var next := Push(done, segs[0]);
      assert forall x :: x in next ==> x in done || x == segs[0];
      PushAllResolved(next, segs[1..]);
    }
  }

  lemma {:induction false} PushAllConcat(done: seq<string>, a: seq<string>, b: seq<string>)
    ensures PushAll(done, a + b) == PushAll(PushAll(done, a), b)
    decreases |a|
  {
    if a == [] {
      assert a + b == b;
    } else {
      assert (a + b)[1..] == a[1..] + b && (a + b)[0] == a[0];
      PushAllConcat(Push(done, a[0]), a[1..], b);
    }
  }

  /** Ordinary segments are appended as they are. */
  lemma {:induction false} PushOrdinary(done: seq<string>, segs: seq<string>)
    requires Resolved(segs)
    ensures PushAll(done, segs) == done + segs
    decreases |segs|
  {
    if segs == [] {
      assert done + segs == done;
    } else {
      assert segs[0] in segs && forall x :: x in segs[1..] ==> x in segs;
      PushOrdinary(done + [segs[0]], segs[1..]);
      assert done + [segs[0]] + segs[1..] == done + segs;
    }
  }

  function NonEmpty(segs: seq<string>): seq<string> {
    if segs == [] then []
    else (if segs[0] == "" then [] else [segs[0]]) + NonEmpty(segs[1..])
  }

  lemma PushOne(done: seq<string>, seg: string, more: seq<string>)
    requires seg != "." && seg != ".."
    ensures Push(done, seg) + more == done + ((if seg == "" then [] else [seg]) + more)
  {
    if seg == "" {
      assert [] + more == more;
    } else {
      assert done + [seg] + more == done + ([seg] + more);
    }
  }

  /** Without dot segments, resolving only drops the empty ones. */
  lemma {:induction false} PushWithoutDots(done: seq<string>, segs: seq<string>)
    requires "." !in segs && ".." !in segs
    ensures PushAll(done, segs) == done + NonEmpty(segs)
    decreases |segs|
  {
    if segs == [] {
      assert done + NonEmpty(segs) == done;
    } else {
      assert segs[0] in segs && forall x :: x in segs[1..] ==> x in segs;
      PushWithoutDots(Push(done, segs[0]), segs[1..]);
      PushOne(done, segs[0], NonEmpty(segs[1..]));
    }
  }

  /** The segments of a container path or an input path. */
  function PathSegments(p: string): seq<string> {
    Split(Normalize(p))
  }

  /** The host root. */
  function Host(m: Mapping, cwd: Place): Place {
    Resolve(Normalize(m.hostPath), cwd)
  }

  /** The host root itself or something below it; below the root of a device the string test never holds. */
  predicate Inside(host: seq<string>, segs: seq<string>) {
    if host == [] then segs == [] else LowerAll(host) <= LowerAll(segs)
  }

  /** What the input asks for: the host segments with the rest of the input resolved against them. */
  function Target(inputPath: string, m: Mapping, cwd: Place): seq<string>
    requires |PathSegments(m.containerPath)| <= |PathSegments(inputPath)|
  {
    PushAll(Host(m, cwd).segs, PathSegments(inputPath)[|PathSegments(m.containerPath)|..])
  }

  lemma ResolveValid(p: string, cwd: Place)
    requires cwd.Valid()
    ensures Resolve(p, cwd).Valid()
  {
    var root := RootOf(p);
    SplitPlain(root.rest);
    PushAllResolved([], Split(root.rest));
    PushAllResolved(cwd.segs, Split(root.rest));
  }

  lemma PartFound(part: string, rest: string)
    requires SEP !in part && (rest == "" || rest[0] == SEP)
    ensures Part(part + rest) == part && (part + rest)[|part|..] == rest
  {
    var s := part + rest;
    assert forall i :: 0 <= i < |part| ==> s[i] == part[i] && part[i] in part;
    assert rest != "" ==> s[|part|] == rest[0];
    assert Span(s, false) == |part|;
  }

  lemma GapFound(rest: string)
    requires rest != "" && rest[0] != SEP
    ensures Span([SEP] + rest, true) == 1 && ([SEP] + rest)[1..] == rest
  {}

  lemma ShareCuts(server: string, share: string, rest: string)
    ensures [SEP, SEP] <= Share(server, share) + rest
    ensures (Share(server, share) + rest)[2..] == server + ([SEP] + (share + rest))
  {}

  /** A share is found again at the start of a longer path. */
  lemma ShareFound(server: string, share: string, rest: string)
    requires IsPart(server) && IsPart(share) && (rest == "" || rest[0] == SEP)
    ensures ShareOf(Share(server, share) + rest) == Some(ShareRoot(server, share, rest))
  {
    ShareCuts(server, share, rest);
    PartFound(server, [SEP] + (share + rest));
    assert share[0] in share && (share + rest)[0] == share[0];
    GapFound(share + rest);
    PartFound(share, rest);
  }

  lemma NoShare(p: string)
    requires p == "" || p[0] != SEP
    ensures ShareOf(p).None?
  {}

  lemma DriveFound(drive: string, rest: string)
    requires IsDrive(drive)
    ensures RootOf(drive + rest) == Root(drive, rest != "" && rest[0] == SEP, rest)
  {
    var p := drive + rest;
    assert p[0] == drive[0] && p[..2] == drive && p[2..] == rest;
    NoShare(p);
  }

  lemma RootFound(device: string, rest: string)
    requires IsDevice(device) && rest != "" && rest[0] == SEP
    ensures RootOf(device + rest) == Root(device, true, rest) && device != ""
  {
    if IsDrive(device) {
      DriveFound(device, rest);
    } else {
      var server, share :| device == Share(server, share) && IsPart(server) && IsPart(share);
      ShareFound(server, share, rest);
    }
  }

  /** Resolving a resolved root followed by more segments. */
  lemma ResolveBelow(host: Place, more: string, cwd: Place)
    requires host.Valid()
    ensures Resolve(host.Show() + [SEP] + more, cwd) == Place(host.device, PushAll(host.segs, Split(more)))
  {
    var rest := Join(host.segs) + [SEP] + more;
    assert host.Show() + [SEP] + more == host.device + ([SEP] + rest);
    RootFound(host.device, [SEP] + rest);
    SplitAgain(rest);
    SplitConcat(Join(host.segs), more);
    PushAllConcat([], Split(Join(host.segs)), Split(more));
    ResolvedAgain(host.segs);
  }

  /** A separator at the start adds an empty segment, which resolving drops. */
  lemma SplitAgain(rest: string)
    ensures PushAll([], Split([SEP] + rest)) == PushAll([], Split(rest))
  {
    assert ([SEP] + rest)[1..] == rest;
    assert Split([SEP] + rest) == [""] + Split(rest);
    assert ([""] + Split(rest))[1..] == Split(rest);
  }

  lemma ResolvedAgain(host: seq<string>)
    requires Resolved(host)
    ensures PushAll([], Split(Join(host))) == host
  {
    if host != [] {
      SplitJoin(host);
      PushOrdinary([], host);
      assert [] + host == host;
    } else {
      assert Split("")[1..] == [];
    }
  }

  lemma ResolveRoot(host: Place, cwd: Place)
    requires host.Valid()
    ensures Resolve(host.Show(), cwd) == host
  {
    assert host.Show() == host.device + ([SEP] + Join(host.segs));
    RootFound(host.device, [SEP] + Join(host.segs));
    SplitAgain(Join(host.segs));
    ResolvedAgain(host.segs);
  }

  /** The final string test is the segment test. */
  lemma InsideByStrings(drive: string, host: seq<string>, segs: seq<string>)
    requires Resolved(host) && Resolved(segs)
    ensures
      var (a, b) := (Lower(Place(drive, host).Show()), Lower(Place(drive, segs).Show()));
      b == a || a + [SEP] <= b <==> Inside(host, segs)
  {
    var a, b := Place(drive, host).Show(), Place(drive, segs).Show();
    var x, y := Lower(Join(host)), Lower(Join(segs));
    var d := Lower(drive + [SEP]);
    assert Lower(a) == d + x && Lower(b) == d + y;
    assert Lower(b) == Lower(a) <==> x == y by {
      if Lower(b) == Lower(a) { assert x == (d + x)[|d|..] && y == (d + y)[|d|..]; }
    }
    assert Lower(a) + [SEP] <= Lower(b) <==> x + [SEP] <= y by {
      assert Lower(a) + [SEP] == d + (x + [SEP]);
      CommonPrefix(d, x + [SEP], y);
    }
    PrefixBySegments(x, y);
    LowerSplit(Join(host));
    LowerSplit(Join(segs));
    SplitShown(host);
    SplitShown(segs);
    InsideCases(host, segs);
  }

  lemma CommonPrefix(d: string, x: string, y: string)
    ensures d + x <= d + y <==> x <= y
  {
    if d + x <= d + y {
      assert x == (d + x)[|d|..] && y == (d + y)[|d|..];
      assert (d + y)[..|d + x|] == d + x;
      assert y[..|x|] == (d + y)[|d|..|d + x|] == x;
    }
    if x <= y { assert (d + y)[..|d + x|] == d + y[..|x|]; }
  }

  lemma SplitShown(segs: seq<string>)
    requires Resolved(segs)
    ensures Split(Join(segs)) == if segs == [] then [""] else segs
  {
    if segs != [] { SplitJoin(segs); }
  }

  lemma InsideCases(host: seq<string>, segs: seq<string>)
    requires Resolved(host) && Resolved(segs)
    ensures
      var (h, s) := (if host == [] then [""] else host, if segs == [] then [""] else segs);
      LowerAll(h) <= LowerAll(s) <==> Inside(host, segs)
  {
    var h, s := if host == [] then [""] else host, if segs == [] then [""] else segs;
    assert host != [] ==> host[0] in host;
    assert segs != [] ==> segs[0] in segs;
    if LowerAll(h) <= LowerAll(s) { assert LowerAll(h)[0] == LowerAll(s)[0]; }
  }

  // ---------- What the parts do ----------

  /** Normalising turns slashes into backslashes and cuts the separators at the end. */
  lemma NormalizeExactly(s: string)
    ensures
      var r := Normalize(s);
      && |r| <= |s| && (forall i :: 0 <= i < |r| ==> r[i] == if s[i] == '/' then '\\' else s[i])
      && (forall i :: |r| <= i < |s| ==> s[i] == '/' || s[i] == '\\')
      && (r != "" ==> r[|r| - 1] != '\\')
  {
    StripExactly(Backslashes(s));
    assert forall i :: 0 <= i < |s| ==> Backslashes(s)[i] == if s[i] == '/' then '\\' else s[i];
  }

  lemma {:induction false} StripExactly(s: string)
    ensures StripTrailing(s) <= s && (forall i :: |StripTrailing(s)| <= i < |s| ==> s[i] == '\\')
    ensures StripTrailing(s) != "" ==> StripTrailing(s)[|StripTrailing(s)| - 1] != '\\'
    decreases |s|
  {
    if s != "" && s[|s| - 1] == SEP { StripExactly(s[..|s| - 1]); }
  }

  /** A segment and the two dots after it cancel; one dot and an empty segment do nothing; two dots at
      the root stay there. */
  lemma DotsResolve(start: seq<string>, before: seq<string>, x: string, after: seq<string>)
    ensures x !in {"", ".", ".."} ==> PushAll(start, before + [x] + [".."] + after) == PushAll(start, before + after)
    ensures PushAll(start, before + ["."] + after) == PushAll(start, before + after)
    ensures PushAll(start, before + [""] + after) == PushAll(start, before + after)
    ensures PushAll([], [".."] + after) == PushAll([], after)
  {
    var at := PushAll(start, before);
    PushAllConcat(start, before, after);
    DotStep(start, before, ["."], after);
    DotStep(start, before, [""], after);
    assert ([".."] + after)[1..] == after;
    if x !in {"", ".", ".."} {
      assert before + [x] + [".."] + after == before + ([x] + [".."]) + after;
      DotStep(start, before, [x] + [".."], after);
      UpAgain(at, x);
    }
  }

  lemma UpAgain(at: seq<string>, x: string)
    requires x !in {"", ".", ".."}
    ensures PushAll(at, [x] + [".."]) == at
  {
    assert ([x] + [".."])[1..] == [".."] && [".."][1..] == [];
    assert (at + [x])[..|at|] == at;
    assert PushAll(at + [x], [".."]) == PushAll(Push(at + [x], ".."), []);
  }

  lemma DotStep(start: seq<string>, before: seq<string>, segs: seq<string>, after: seq<string>)
    ensures PushAll(start, before + segs + after) == PushAll(PushAll(PushAll(start, before), segs), after)
  {
    PushAllConcat(start, before + segs, after);
    PushAllConcat(start, before, segs);
  }

  /** Ordinary segments, at least one, the first no drive. */
  ghost predicate Relative(segs: seq<string>) {
    segs != [] && Resolved(segs) && !(|segs[0]| >= 2 && IsDrive(segs[0][..2]))
  }

  lemma RelativeStarts(segs: seq<string>)
    requires Relative(segs)
    ensures Join(segs) != "" && Join(segs)[0] != '\\' && !(|Join(segs)| >= 2 && IsDrive(Join(segs)[..2]))
  {
    var p := Join(segs);
    assert segs[0] in segs && segs[0][0] in segs[0];
    assert segs[0] <= p;
    if |segs[0]| >= 2 {
      assert p[..2] == segs[0][..2];
    } else if |segs| > 1 {
      assert p[1] == '\\';
    }
  }

  /** The five kinds of paths that `resolve` tells apart on Windows, and the empty one. */
  lemma ResolveRules(drive: string, server: string, share: string, segs: seq<string>, cwd: Place)
    requires cwd.Valid() && IsDrive(drive) && IsPart(server) && IsPart(share) && Relative(segs)
    ensures Resolve(drive + "\\" + Join(segs), cwd) == Place(drive, segs)
    ensures Resolve("\\\\" + server + "\\" + share + "\\" + Join(segs), cwd)
            == Place("\\\\" + server + "\\" + share, segs)
    ensures Resolve(drive + Join(segs), cwd)
         == Place(drive, if Lower(drive) == Lower(cwd.device) then cwd.segs + segs else segs)
    ensures Resolve("\\" + Join(segs), cwd) == Place(cwd.device, segs)
    ensures Resolve(Join(segs), cwd) == Place(cwd.device, cwd.segs + segs)
    ensures Resolve("", cwd) == cwd
  {
    var p := Join(segs);
    RelativeStarts(segs);
    SplitJoin(segs);
    PushOrdinary([], segs);
    assert [] + segs == segs;
    PushOrdinary(cwd.segs, segs);
    SplitAgain(p);
    AbsoluteRules(drive, server, share, segs, cwd);
    DriveFound(drive, p);
    RootedFound(p);
    NoShare(p);
    NoShare("");
    assert Split("")[1..] == [];
  }

  lemma AbsoluteRules(drive: string, server: string, share: string, segs: seq<string>, cwd: Place)
    requires IsDrive(drive) && IsPart(server) && IsPart(share) && Resolved(segs)
    ensures Resolve(drive + "\\" + Join(segs), cwd) == Place(drive, segs)
    ensures Resolve("\\\\" + server + "\\" + share + "\\" + Join(segs), cwd)
            == Place("\\\\" + server + "\\" + share, segs)
  {
    var device := Share(server, share);
    assert device == "\\\\" + server + "\\" + share;
    ResolveRoot(Place(drive, segs), cwd);
    ResolveRoot(Place(device, segs), cwd);
    assert Place(drive, segs).Show() == drive + "\\" + Join(segs);
    assert Place(device, segs).Show() == "\\\\" + server + "\\" + share + "\\" + Join(segs);
  }

  lemma RootedFound(p: string)
    requires p != "" && p[0] != SEP
    ensures RootOf([SEP] + p) == Root("", true, [SEP] + p)
  {
    var q := [SEP] + p;
    assert q[0] == SEP && q[1] == p[0];
    assert !([SEP, SEP] <= q);
  }

  /** Without a mapping a path is handed on as it is. */
  lemma NoMapping(inputPath: string, cwd: Place)
    ensures TranslatePath(inputPath, None, cwd) == Translated(inputPath)
  {}

  // ---------- Main results ----------

  /** With a mapping, the translation succeeds exactly when the container's segments are a prefix of
      the input's, whatever the case of the letters, and the rest, resolved against the host root,
      stays at or below it; it then returns that resolved path. */
  lemma TranslateBySegments(inputPath: string, m: Mapping, cwd: Place)
    requires cwd.Valid()
    ensures
      var r := TranslatePath(inputPath, Some(m), cwd);
      var (input, container, host) := (PathSegments(inputPath), PathSegments(m.containerPath), Host(m, cwd));
      if !(LowerAll(container) <= LowerAll(input)) then r == OutsideContainer
      else if !Inside(host.segs, Target(inputPath, m, cwd)) then r == EscapesHost
      else r == Translated(Place(host.device, Target(inputPath, m, cwd)).Show())
  {
    var input, container := Normalize(inputPath), Normalize(m.containerPath);
    StripLower(Backslashes(inputPath));
    LowerSplit(input);
    LowerSplit(container);
    PrefixBySegments(Lower(container), Lower(input));
    if LowerAll(Split(container)) <= LowerAll(Split(input)) {
      var host := Host(m, cwd);
      assert host.Show() + "" == host.Show();
      if Lower(input) == Lower(container) { RootTarget(inputPath, m, cwd); } else { ChildTarget(inputPath, m, cwd); }
      TargetResolved(inputPath, m, cwd);
      InsideByStrings(host.device, host.segs, Target(inputPath, m, cwd));
    }
  }

  lemma TargetResolved(inputPath: string, m: Mapping, cwd: Place)
    requires cwd.Valid() && |PathSegments(m.containerPath)| <= |PathSegments(inputPath)|
    ensures Host(m, cwd).Valid() && Resolved(Target(inputPath, m, cwd))
  {
    ResolveValid(Normalize(m.hostPath), cwd);
    SplitPlain(Normalize(inputPath));
    var rest := PathSegments(inputPath)[|PathSegments(m.containerPath)|..];
    assert forall x :: x in rest ==> x in PathSegments(inputPath);
    PushAllResolved(Host(m, cwd).segs, rest);
  }

  /** The input is the container root: the host root is resolved again. */
  lemma RootTarget(inputPath: string, m: Mapping, cwd: Place)
    requires cwd.Valid() && Lower(Normalize(inputPath)) == Lower(Normalize(m.containerPath))
    ensures |PathSegments(inputPath)| == |PathSegments(m.containerPath)|
    ensures Resolve(Host(m, cwd).Show(), cwd) == Place(Host(m, cwd).device, Target(inputPath, m, cwd))
  {
    LowerSplit(Normalize(inputPath));
    LowerSplit(Normalize(m.containerPath));
    assert |PathSegments(inputPath)| == |LowerAll(PathSegments(inputPath))|;
    ResolveValid(Normalize(m.hostPath), cwd);
    ResolveRoot(Host(m, cwd), cwd);
    assert PathSegments(inputPath)[|PathSegments(m.containerPath)|..] == [];
  }

  /** The input lies below the container root: the rest is resolved below the host root. */
  lemma ChildTarget(inputPath: string, m: Mapping, cwd: Place)
    requires cwd.Valid() && Lower(Normalize(m.containerPath)) + [SEP] <= Lower(Normalize(inputPath))
    ensures |PathSegments(m.containerPath)| <= |PathSegments(inputPath)|
    ensures Resolve(Host(m, cwd).Show() + Normalize(inputPath)[|Normalize(m.containerPath)|..], cwd)
            == Place(Host(m, cwd).device, Target(inputPath, m, cwd))
  {
    var c := SplitBelow(Normalize(m.containerPath), Normalize(inputPath));
    ResolveValid(Normalize(m.hostPath), cwd);
    ResolveBelow(Host(m, cwd), c, cwd);
    SeparatorMoves(Host(m, cwd).Show(), c);
  }

  lemma SeparatorMoves(a: string, c: string)
    ensures a + ([SEP] + c) == a + [SEP] + c
  {}

  lemma SplitBelow(container: string, input: string) returns (c: string)
    requires Lower(container) + [SEP] <= Lower(input)
    ensures |container| < |input| && input[|container|..] == [SEP] + c
    ensures |Split(container)| <= |Split(input)| && Split(input)[|Split(container)|..] == Split(c)
  {
    c := input[|container| + 1..];
    var first := input[..|container|];
    assert Lower(input)[|container|] == SEP;
    LowerSeparator(input[|container|]);
    assert input == first + [SEP] + c;
    SplitConcat(first, c);
    LowerSplit(first);
    LowerSplit(container);
    assert Lower(first) == Lower(container);
    assert |Split(first)| == |LowerAll(Split(first))| == |Split(container)|;
  }

  lemma LowerSeparator(c: char)
    ensures LowerChar(c) == SEP ==> c == SEP
  {}

  /** Whatever the input, a translated path is a resolved path, without dot segments, at or below
      the host root up to the case of letters. */
  lemma NeverEscapes(inputPath: string, m: Mapping, cwd: Place)
    requires cwd.Valid() && TranslatePath(inputPath, Some(m), cwd).Translated?
    ensures exists segs :: Resolved(segs) && LowerAll(Host(m, cwd).segs) <= LowerAll(segs)
                           && TranslatePath(inputPath, Some(m), cwd).path == Place(Host(m, cwd).device, segs).Show()
  {
    TranslateBySegments(inputPath, m, cwd);
    TargetResolved(inputPath, m, cwd);
  }

  lemma AppendedInside(host: seq<string>, rest: seq<string>)
    requires host != [] && "." !in rest && ".." !in rest
    ensures PushAll(host, rest) == host + NonEmpty(rest) && Inside(host, host + NonEmpty(rest))
  {
    PushWithoutDots(host, rest);
    assert LowerAll(host) <= LowerAll(host + NonEmpty(rest));
  }

  /** If the rest of the input has no dot segments and the host root is not the root of its device,
      the result is the host root with the non-empty segments of the rest appended. */
  lemma WithoutDotsAlwaysTranslated(inputPath: string, m: Mapping, cwd: Place)
    requires cwd.Valid() && Host(m, cwd).segs != []
    requires LowerAll(PathSegments(m.containerPath)) <= LowerAll(PathSegments(inputPath))
    requires
      var rest := PathSegments(inputPath)[|PathSegments(m.containerPath)|..];
      "." !in rest && ".." !in rest
    ensures
      var rest := PathSegments(inputPath)[|PathSegments(m.containerPath)|..];
      TranslatePath(inputPath, Some(m), cwd)
      == Translated(Place(Host(m, cwd).device, Host(m, cwd).segs + NonEmpty(rest)).Show())
  {
    TranslateBySegments(inputPath, m, cwd);
    AppendedInside(Host(m, cwd).segs, PathSegments(inputPath)[|PathSegments(m.containerPath)|..]);
  }

  /** Below the root of a drive or share nothing is ever translated but the root itself. */
  lemma RootHostRefusesChildren(inputPath: string, m: Mapping, cwd: Place)
    requires cwd.Valid() && Host(m, cwd).segs == []
    requires LowerAll(PathSegments(m.containerPath)) <= LowerAll(PathSegments(inputPath))
    ensures TranslatePath(inputPath, Some(m), cwd).Translated? <==> Target(inputPath, m, cwd) == []
  {
    TranslateBySegments(inputPath, m, cwd);
  }

  /** Normalising cuts the separator off a drive root, and what is left means the current directory
      if that is on the drive: the workspace is then that directory, and not the drive. */
  lemma DriveRootMeansCwd(drive: string, m: Mapping, cwd: Place)
    requires cwd.Valid() && IsDrive(drive) && Normalize(m.hostPath) == drive
    ensures Host(m, cwd) == Place(drive, if Lower(drive) == Lower(cwd.device) then cwd.segs else [])
  {
    assert drive + "" == drive;
    DriveFound(drive, "");
    assert Split("")[1..] == [];
  }

  /** Slash direction and trailing separators of the input do not matter. */
  lemma OnlyNormalFormMatters(a: string, b: string, m: Mapping, cwd: Place)
    requires cwd.Valid() && Normalize(a) == Normalize(b)
    ensures TranslatePath(a, Some(m), cwd) == TranslatePath(b, Some(m), cwd)
  {
    TranslateBySegments(a, m, cwd);
    TranslateBySegments(b, m, cwd);
  }

  lemma {:induction false} NormalizeIgnoresTrailing(s: string, tail: string)
    requires forall c :: c in tail ==> c == '/' || c == SEP
    ensures Normalize(s + tail) == Normalize(s)
    decreases |tail|
  {
    if tail == "" {
      assert s + tail == s;
    } else {
      var shorter := tail[..|tail| - 1];
      assert tail[|tail| - 1] in tail && forall c :: c in shorter ==> c in tail;
      NormalizeIgnoresTrailing(s, shorter);
      var b := Backslashes(s + tail);
      assert b[|b| - 1] == SEP && b[..|b| - 1] == Backslashes(s + shorter);
    }
  }
}
