/** `readBodyCapped` of `mcp/server-utils.ts`: reading a request body up to a limit. */
module BodyCap {
  import opened Wrappers

  datatype CappedBody = Body(bytes: Bytes) | TooLarge

  function Concat(chunks: seq<Bytes>): Bytes {
    if chunks == [] then [] else Concat(chunks[..|chunks| - 1]) + chunks[|chunks| - 1]
  }

  /** The declared length, if there is one that reads as a finite number. */
  predicate DeclaredTooLarge(contentLength: Option<string>, number: string -> Option<real>, maxBytes: nat) {
    contentLength.Some? && contentLength.value != "" && number(contentLength.value).Some?
    && number(contentLength.value).value > maxBytes as real
  }

  /** A missing or empty header and one that is no number refuse nothing; a number refuses if it is over the limit. */
  lemma DeclaredLength(length: string, number: string -> Option<real>, maxBytes: nat)
    ensures !DeclaredTooLarge(None, number, maxBytes) && !DeclaredTooLarge(Some(""), number, maxBytes)
    ensures length != "" && number(length) == None ==> !DeclaredTooLarge(Some(length), number, maxBytes)
    ensures forall n :: length != "" && number(length) == Some(n) ==>
              (DeclaredTooLarge(Some(length), number, maxBytes) <==> !(n <= maxBytes as real))
  {}

  lemma {:induction false} ConcatGrows(chunks: seq<Bytes>, i: nat)
    requires i <= |chunks|
    ensures Concat(chunks[..i]) <= Concat(chunks)
    decreases |chunks| - i
  {
    if i == |chunks| {
      assert chunks[..i] == chunks;
    } else {
      ConcatStep(chunks, i);
      ConcatGrows(chunks, i + 1);
    }
  }

  lemma ConcatStep(chunks: seq<Bytes>, i: nat)
    requires i < |chunks|
    ensures Concat(chunks[..i + 1]) == Concat(chunks[..i]) + chunks[i]
  {
    assert chunks[..i + 1][..i] == chunks[..i];
  }

  /** The body is accepted exactly when neither the declared nor the real length is over the limit,
      and then it is the chunks in order. What was taken in before a refusal never exceeds the limit. */
  method ReadBodyCapped(contentLength: Option<string>, number: string -> Option<real>, chunks: Option<seq<Bytes>>,
                        maxBytes: nat)
    returns (r: CappedBody, held: nat)
    ensures r.Body? <==> !DeclaredTooLarge(contentLength, number, maxBytes)
                         && (chunks.Some? ==> |Concat(chunks.value)| <= maxBytes)
    ensures r.Body? ==> r.bytes == if chunks.Some? then Concat(chunks.value) else []
    ensures held <= maxBytes
  {
    held := 0;
    if contentLength.Some? && contentLength.value != "" {
      var length := number(contentLength.value);
      if length.Some? && length.value > maxBytes as real { return TooLarge, 0; }
    }
    if chunks.None? { return Body([]), 0; }
    var taken: seq<Bytes> := [];
    var total := 0;
    for i := 0 to |chunks.value|
      invariant taken == chunks.value[..i]
      invariant total == held == |Concat(taken)| <= maxBytes
    {
      ConcatStep(chunks.value, i);
      ConcatGrows(chunks.value, i + 1);
      var value := chunks.value[i];
      total := total + |value|;
      if total > maxBytes { return TooLarge, held; }
      taken := taken + [value];
      held := total;
    }
    assert taken == chunks.value;
    var bytes := Merge(taken, total);
    r := Body(bytes);
  }

  /** The chunks copied into one buffer at running offsets. */
  method Merge(chunks: seq<Bytes>, total: nat) returns (bytes: Bytes)
    requires total == |Concat(chunks)|
    ensures bytes == Concat(chunks)
  {
    var merged := new Byte[total](_ => 0);
    var offset := 0;
    for i := 0 to |chunks|
      invariant offset == |Concat(chunks[..i])| <= total
      invariant merged[..offset] == Concat(chunks[..i])
    {
      ConcatStep(chunks, i);
      ConcatGrows(chunks, i + 1);
      SetAt(merged, chunks[i], offset);
      offset := offset + |chunks[i]|;
    }
    assert chunks[..|chunks|] == chunks;
    bytes := merged[..];
  }

  /** `merged.set(chunk, offset)` */
  method SetAt(merged: array<Byte>, chunk: Bytes, offset: nat)
    requires offset + |chunk| <= merged.Length
    modifies merged
    ensures merged[..offset + |chunk|] == old(merged[..offset]) + chunk
    ensures merged[offset + |chunk|..] == old(merged[offset + |chunk|..])
  {
    for j := 0 to |chunk|
      invariant merged[..offset] == old(merged[..offset])
      invariant merged[offset..offset + j] == chunk[..j]
      invariant merged[offset + |chunk|..] == old(merged[offset + |chunk|..])
    {
      merged[offset + j] := chunk[j];
    }
  }
}
