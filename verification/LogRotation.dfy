/** `appendTextWithRotation` of `mcp/server-utils.ts`: a log with one rotation slot. */
module LogRotation {
  import opened Wrappers

  /** The log and its `.1` file, if they exist. */
  datatype Files = Files(current: Option<Bytes>, rotated: Option<Bytes>) {
    function Kept(): Bytes {
      BytesOf(rotated) + BytesOf(current)
    }
  }

  function BytesOf(file: Option<Bytes>): Bytes {
    if file.Some? then file.value else []
  }

  /** Which file operations of a call fail, and how much of the text reaches the disk. */
  datatype Faults = Faults(stat: bool, remove: bool, rename: bool, reaches: nat)

  datatype Call = Call(text: Bytes, faults: Faults) {
    function Written(): Bytes {
      if faults.reaches < |text| then text[..faults.reaches] else text
    }

    predicate Throws() {
      faults.reaches < |text|
    }
  }

  predicate Full(files: Files, maxBytes: int) {
    files.current.Some? && |files.current.value| >= maxBytes
  }

  function Rotate(files: Files, maxBytes: int, faults: Faults): Files {
    if faults.stat || !Full(files, maxBytes) then files
    else
      var removed := if faults.remove then files else files.(rotated := None);
      if faults.rename then removed else Files(None, files.current)
  }

  function AfterCall(files: Files, call: Call, maxBytes: int): Files {
    var r := Rotate(files, maxBytes, call.faults);
    r.(current := Some(BytesOf(r.current) + call.Written()))
  }

  class LogDisk {
    var files: Files

    constructor (files: Files)
      ensures this.files == files
    {
      this.files := files;
    }

    method AppendTextWithRotation(call: Call, maxBytes: int) returns (threw: bool)
      modifies this
      ensures files == AfterCall(old(files), call, maxBytes)
      ensures threw == call.Throws()
    {
      var faults := call.faults;
      if files.current.Some? && !faults.stat {
        if |files.current.value| >= maxBytes {
          if !faults.remove { files := files.(rotated := None); }
          if !faults.rename { files := Files(None, files.current); }
        }
      }
      var held: Bytes := if files.current.Some? then files.current.value else [];
      files := files.(current := Some(held + call.Written()));
      threw := call.Throws();
    }
  }

  function AfterCalls(files: Files, calls: seq<Call>, maxBytes: int): Files
    decreases |calls|
  {
    if calls == [] then files
    else AfterCall(AfterCalls(files, calls[..|calls| - 1], maxBytes), calls[|calls| - 1], maxBytes)
  }

  /** A call appends a part of its text from the start, and throws exactly when that is not all of it;
      only a full file that can be looked at and renamed is moved to the slot first. If it cannot be
      renamed, the slot is empty all the same, unless that failed too. */
  lemma CallEffect(files: Files, call: Call, maxBytes: int)
    ensures
      var c, held := AfterCall(files, call, maxBytes), if files.current.Some? then files.current.value else [];
      var full := files.current.Some? && |held| >= maxBytes;
      var moves := full && !call.faults.stat && !call.faults.rename;
      exists part ::
        && part <= call.text
        && |part| == (if call.faults.reaches < |call.text| then call.faults.reaches else |call.text|)
        && (call.Throws() <==> part != call.text)
        && c.current == Some(if moves then part else held + part)
        && c.rotated == if moves then files.current
                        else if full && !call.faults.stat && !call.faults.remove then None
                        else files.rotated
  {
    assert call.Written() <= call.text;
    assert [] + call.Written() == call.Written();
  }

  /** Without faults the whole text is appended, after a full file has become the slot. */
  lemma FaultlessCall(files: Files, text: Bytes, more: nat, maxBytes: int)
    ensures
      var call := Call(text, Faults(false, false, false, |text| + more));
      var held := if files.current.Some? then files.current.value else [];
      var c := AfterCall(files, call, maxBytes);
      && !call.Throws()
      && c == if files.current.Some? && |held| >= maxBytes then Files(Some(text), files.current)
              else Files(Some(held + text), files.rotated)
  {
    assert [] + text == text;
  }

  /** Everything that was ever appended, in order. */
  function History(calls: seq<Call>): Bytes {
    if calls == [] then [] else History(calls[..|calls| - 1]) + calls[|calls| - 1].Written()
  }

  ghost predicate IsSuffix(s: Bytes, whole: Bytes) {
    |s| <= |whole| && s == whole[|whole| - |s|..]
  }

  lemma SuffixOfSuffix(a: Bytes, b: Bytes, whole: Bytes)
    requires IsSuffix(a + b, whole)
    ensures IsSuffix(b, whole)
  {
    var n := |whole| - |a + b|;
    assert forall i :: 0 <= i < |b| ==> b[i] == (a + b)[|a| + i] == whole[n + |a| + i];
  }

  lemma SuffixGrows(s: Bytes, whole: Bytes, more: Bytes)
    requires IsSuffix(s, whole)
    ensures IsSuffix(s + more, whole + more)
  {
    assert (whole + more)[|whole| - |s|..] == whole[|whole| - |s|..] + more;
  }

  lemma RotateKeepsSuffix(files: Files, whole: Bytes, maxBytes: int, faults: Faults)
    requires IsSuffix(files.Kept(), whole)
    ensures IsSuffix(Rotate(files, maxBytes, faults).Kept(), whole)
  {
    var r := Rotate(files, maxBytes, faults);
    if r != files {
      SuffixOfSuffix(BytesOf(files.rotated), BytesOf(files.current), whole);
      assert r.Kept() == BytesOf(files.current);
    }
  }

  lemma CallKeepsSuffix(files: Files, call: Call, whole: Bytes, maxBytes: int)
    requires IsSuffix(files.Kept(), whole)
    ensures IsSuffix(AfterCall(files, call, maxBytes).Kept(), whole + call.Written())
  {
    var r := Rotate(files, maxBytes, call.faults);
    RotateKeepsSuffix(files, whole, maxBytes, call.faults);
    SuffixGrows(r.Kept(), whole, call.Written());
    assert AfterCall(files, call, maxBytes).Kept() == r.Kept() + call.Written();
  }

  /** Whatever operations fail, the rotated file followed by the current one is the end of
      everything ever appended: no gap, no repetition, no reordering. */
  lemma {:induction false} KeptIsSuffix(calls: seq<Call>, maxBytes: int)
    ensures IsSuffix(AfterCalls(Files(None, None), calls, maxBytes).Kept(), History(calls))
    decreases |calls|
  {
    if calls != [] {
      var n := |calls| - 1;
      KeptIsSuffix(calls[..n], maxBytes);
      CallKeepsSuffix(AfterCalls(Files(None, None), calls[..n], maxBytes), calls[n], History(calls[..n]), maxBytes);
    }
  }

  /** The file can be looked at and renamed; removing the old slot may fail, for renaming replaces it. */
  ghost predicate Rotates(calls: seq<Call>) {
    forall i :: 0 <= i < |calls| ==> !calls[i].faults.stat && !calls[i].faults.rename
  }

  /** Nothing has been dropped yet, or the rotated file is full. */
  ghost predicate SlotFull(files: Files, history: Bytes, maxBytes: int) {
    if files.rotated.None? then files.Kept() == history else |files.rotated.value| >= maxBytes
  }

  lemma CallKeepsFull(files: Files, call: Call, whole: Bytes, maxBytes: int)
    requires !call.faults.stat && !call.faults.rename && SlotFull(files, whole, maxBytes)
    ensures SlotFull(AfterCall(files, call, maxBytes), whole + call.Written(), maxBytes)
  {
    if !Full(files, maxBytes) && files.rotated.None? {
      assert AfterCall(files, call, maxBytes).Kept() == files.Kept() + call.Written();
    }
  }

  /** From the first rotation on, the rotated file alone holds at least `maxBytes`. */
  lemma {:induction false} RotatedIsFull(calls: seq<Call>, maxBytes: int)
    requires Rotates(calls)
    ensures SlotFull(AfterCalls(Files(None, None), calls, maxBytes), History(calls), maxBytes)
    decreases |calls|
  {
    if calls != [] {
      var n := |calls| - 1;
      RotatedIsFull(calls[..n], maxBytes);
      CallKeepsFull(AfterCalls(Files(None, None), calls[..n], maxBytes), calls[n], History(calls[..n]), maxBytes);
    }
  }

  /** The last `maxBytes` appended bytes, or all if there are fewer, are always on disk. */
  lemma RecentBytesKept(calls: seq<Call>, maxBytes: int)
    requires Rotates(calls)
    ensures
      var kept, whole := AfterCalls(Files(None, None), calls, maxBytes).Kept(), History(calls);
      IsSuffix(kept, whole) && (kept == whole || |kept| >= maxBytes)
  {
    KeptIsSuffix(calls, maxBytes);
    RotatedIsFull(calls, maxBytes);
  }

  /** If the last call could look at the file and rename it, the current file is shorter than `maxBytes`
      plus the last text, whatever failed before; with no room at all it is the last text. */
  lemma CurrentIsShort(calls: seq<Call>, maxBytes: int)
    requires calls != [] && !calls[|calls| - 1].faults.stat && !calls[|calls| - 1].faults.rename
    ensures
      var current := AfterCalls(Files(None, None), calls, maxBytes).current;
      var last := calls[|calls| - 1].Written();
      current.Some? && if maxBytes > 0 then |current.value| < maxBytes + |last| else current.value == last
  {
    var n := |calls| - 1;
    var before := AfterCalls(Files(None, None), calls[..n], maxBytes);
    var r := Rotate(before, maxBytes, calls[n].faults);
    assert BytesOf(r.current) + calls[n].Written() == AfterCall(before, calls[n], maxBytes).current.value;
    if maxBytes <= 0 { assert BytesOf(r.current) == []; }
  }
}
