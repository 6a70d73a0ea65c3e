/** Splitting a request into bounded UTF-8 chunks, and the helper's reassembly. */
module KustoChunks {
  import opened Concatenation
  import opened Utf8
  import opened Wrappers

  const MAXIMUM_CHUNK_BYTES := 61440
  const MAXIMUM_CHUNKS := 8
  const MAXIMUM_INPUT_BYTES := 1048576

  /** The longest valid prefix of at most `end` bytes. */
  function LongestValid(s: seq<Byte>, end: nat): (e: nat)
    requires end <= |s|
    ensures e <= end && Valid(s[..e])
    ensures forall k | e < k <= end :: !Valid(s[..k])
  {
    if end == 0 || Valid(s[..end]) then end else LongestValid(s, end - 1)
  }

  function ChunkEnd(s: seq<Byte>): nat {
    LongestValid(s, if |s| <= MAXIMUM_CHUNK_BYTES then |s| else MAXIMUM_CHUNK_BYTES)
  }

  /** A chunk takes everything left, or stops at the last boundary, at most three bytes early. */
  lemma ChunkEndBounds(s: seq<Byte>)
    requires Valid(s) && s != []
    ensures Boundary(s, ChunkEnd(s)) && Valid(s[ChunkEnd(s)..]) && 0 < ChunkEnd(s) <= MAXIMUM_CHUNK_BYTES
    ensures if |s| <= MAXIMUM_CHUNK_BYTES then ChunkEnd(s) == |s| else ChunkEnd(s) >= MAXIMUM_CHUNK_BYTES - 3
    ensures MAXIMUM_CHUNK_BYTES <= |s| ==> (ChunkEnd(s) == MAXIMUM_CHUNK_BYTES <==> Boundary(s, MAXIMUM_CHUNK_BYTES))
  {
    var end := if |s| <= MAXIMUM_CHUNK_BYTES then |s| else MAXIMUM_CHUNK_BYTES;
    CutsAtBoundaries(s, ChunkEnd(s));
    CutsAtBoundaries(s, end);
    assert s[..|s|] == s;
    var near := BoundaryIsNear(s, end);
    CutsAtBoundaries(s, near);
  }

  function Split(s: seq<Byte>): seq<seq<Byte>>
    requires Valid(s)
    decreases |s|
  {
    if s == [] then []
    else
      ChunkEndBounds(s);
      [s[..ChunkEnd(s)]] + Split(s[ChunkEnd(s)..])
  }

  predicate GoodChunk(c: seq<Byte>) {
    0 < |c| <= MAXIMUM_CHUNK_BYTES && Valid(c)
  }

  /** The chunks are non-empty, valid, bounded, and join to the request. */
  lemma {:induction false} SplitIsExact(s: seq<Byte>)
    requires Valid(s)
    ensures (forall c <- Split(s) :: GoodChunk(c)) && Joined(Split(s)) == s
    decreases |s|
  {
    if s != [] {
      ChunkEndBounds(s);
      var e := ChunkEnd(s);
      var rest := Split(s[e..]);
      SplitIsExact(s[e..]);
      OneMoreExact(s, e, rest);
    }
  }

  lemma OneMoreExact(s: seq<Byte>, e: nat, rest: seq<seq<Byte>>)
    requires e <= |s| && GoodChunk(s[..e]) && Joined(rest) == s[e..] && forall c <- rest :: GoodChunk(c)
    ensures Joined([s[..e]] + rest) == s && forall c <- [s[..e]] + rest :: GoodChunk(c)
  {
    JoinedFirst(s[..e], rest);
    OneMoreGood(s[..e], rest);
  }

  lemma OneMoreGood(first: seq<Byte>, rest: seq<seq<Byte>>)
    requires GoodChunk(first) && forall c <- rest :: GoodChunk(c)
    ensures forall c <- [first] + rest :: GoodChunk(c)
  {
  }

  /** Splitting as the sender does it; the zero-length error is never returned. */
  method SplitUtf8(input: seq<Byte>) returns (r: Result<seq<seq<Byte>>>)
    ensures if 0 < |input| <= MAXIMUM_CHUNKS * MAXIMUM_CHUNK_BYTES && Valid(input) then r == Ok(Split(input))
            else r == Err("kusto native request exceeds transport")
  {
    if |input| == 0 || |input| > MAXIMUM_CHUNKS * MAXIMUM_CHUNK_BYTES || !Valid(input) {
      return Err("kusto native request exceeds transport");
    }
    var chunks: seq<seq<Byte>> := [];
    var rest := input;
    while |rest| > 0
      invariant Valid(rest) && Split(input) == chunks + Split(rest)
      decreases |rest|
    {
      var end: nat := if |rest| <= MAXIMUM_CHUNK_BYTES then |rest| else MAXIMUM_CHUNK_BYTES;
      while end > 0 && !Valid(rest[..end])
        invariant end <= |rest| && LongestValid(rest, end) == ChunkEnd(rest)
      {
        end := end - 1;
      }
      ChunkEndBounds(rest);
      if end == 0 {
        assert false;
      }
      assert chunks + ([rest[..end]] + Split(rest[end..])) == chunks + [rest[..end]] + Split(rest[end..]);
      chunks := chunks + [rest[..end]];
      rest := rest[end..];
    }
    assert chunks + [] == chunks;
    r := Ok(chunks);
  }

  // ----- how many chunks

  /** `s` can be cut at character boundaries into at most `k` chunks of the allowed size. */
  ghost predicate Fits(s: seq<Byte>, k: nat)
    decreases k
  {
    s == [] || (k > 0 && exists c: nat :: Cut(s, c) && Fits(s[c..], k - 1))
  }

  predicate Cut(s: seq<Byte>, c: nat) {
    0 < c <= |s| && c <= MAXIMUM_CHUNK_BYTES && Boundary(s, c)
  }

  lemma FitsByCut(s: seq<Byte>, c: nat, k: nat)
    requires k > 0 && Cut(s, c) && Fits(s[c..], k - 1)
    ensures Fits(s, k)
  {
  }

  lemma {:induction false} FitsMore(s: seq<Byte>, k: nat)
    requires Fits(s, k)
    ensures Fits(s, k + 1)
    decreases k
  {
    if s != [] {
      var c: nat :| Cut(s, c) && Fits(s[c..], k - 1);
      FitsMore(s[c..], k - 1);
      FitsByCut(s, c, k + 1);
    }
  }

  lemma DropTwice(s: seq<Byte>, c: nat, d: nat)
    requires Valid(s) && c <= d <= |s| && Boundary(s, c) && Boundary(s, d)
    ensures Valid(s[c..]) && d - c <= |s[c..]| && Boundary(s[c..], d - c) && s[c..][d - c..] == s[d..]
  {
    CutsAtBoundaries(s, c);
    ShiftTo(s, c, d - c, d, s[c..]);
    DropDrop(s, c, d - c);
  }

  lemma FirstCut(s: seq<Byte>, k: nat) returns (c: nat)
    requires Fits(s, k) && s != []
    ensures k > 0 && Cut(s, c) && Fits(s[c..], k - 1)
  {
    c :| Cut(s, c) && Fits(s[c..], k - 1);
  }

  /** Dropping whole characters from the front never needs more chunks. */
  lemma {:induction false} DropKeepsFit(s: seq<Byte>, k: nat, d: nat, rest: seq<Byte>)
    requires Valid(s) && Fits(s, k) && d <= |s| && Boundary(s, d) && rest == s[d..]
    ensures Fits(rest, k)
    decreases k
  {
    if rest != [] {
      var c := FirstCut(s, k);
      if d < c {
        DropInside(s, k, c, d, rest);
      } else {
        DropBeyond(s, k, c, d, rest);
      }
    }
  }

  lemma {:induction false} DropBeyond(s: seq<Byte>, k: nat, c: nat, d: nat, rest: seq<Byte>)
    requires k > 0 && Valid(s) && Cut(s, c) && Fits(s[c..], k - 1) && c <= d <= |s| && Boundary(s, d) && rest == s[d..]
    ensures Fits(rest, k)
    decreases k, 0
  {
    DropTwice(s, c, d);
    DropKeepsFit(s[c..], k - 1, d - c, rest);
    FitsMore(rest, k - 1);
  }

  lemma DropInside(s: seq<Byte>, k: nat, c: nat, d: nat, rest: seq<Byte>)
    requires k > 0 && Valid(s) && Cut(s, c) && Fits(s[c..], k - 1) && d < c && Boundary(s, d) && rest == s[d..]
    ensures Fits(rest, k)
  {
    DropTwice(s, d, c);
    assert Cut(rest, c - d) && rest[c - d..] == s[c..];
    FitsByCut(rest, c - d, k);
  }

  /** The sender cuts as far back as any other cut could be. */
  lemma ChunkEndIsFurthest(s: seq<Byte>, c: nat)
    requires Valid(s) && Cut(s, c)
    ensures c <= ChunkEnd(s) && Cut(s, ChunkEnd(s))
  {
    ChunkEndBounds(s);
    CutsAtBoundaries(s, c);
  }

  lemma FurthestCutFits(s: seq<Byte>, k: nat)
    requires Valid(s) && s != [] && Fits(s, k)
    ensures k > 0 && Fits(s[ChunkEnd(s)..], k - 1)
  {
    var c := FirstCut(s, k);
    ChunkEndIsFurthest(s, c);
    CutBack(s, k - 1, c, ChunkEnd(s));
  }

  lemma CutBack(s: seq<Byte>, k: nat, c: nat, d: nat)
    requires Valid(s) && Cut(s, c) && Cut(s, d) && c <= d && Fits(s[c..], k)
    ensures Fits(s[d..], k)
  {
    DropTwice(s, c, d);
    DropKeepsFit(s[c..], k, d - c, s[d..]);
  }

  lemma SplitLength(s: seq<Byte>)
    requires Valid(s) && s != []
    ensures Valid(s[ChunkEnd(s)..]) && |Split(s)| == 1 + |Split(s[ChunkEnd(s)..])| && Cut(s, ChunkEnd(s))
  {
    ChunkEndBounds(s);
  }

  lemma {:induction false} SplitFits(s: seq<Byte>, k: nat)
    requires Valid(s)
    ensures |Split(s)| <= k <==> Fits(s, k)
    decreases |s|
  {
    if s != [] {
      SplitLength(s);
      if k > 0 {
        SplitFits(s[ChunkEnd(s)..], k - 1);
        if Fits(s, k) {
          FurthestCutFits(s, k);
        }
        if Fits(s[ChunkEnd(s)..], k - 1) {
          FitsByCut(s, ChunkEnd(s), k);
        }
      }
    }
  }

  /** Any list of good chunks shows that its text fits. */
  lemma {:induction false} GoodChunksFit(chunks: seq<seq<Byte>>)
    requires forall c <- chunks :: GoodChunk(c)
    ensures Valid(Joined(chunks)) && Fits(Joined(chunks), |chunks|)
  {
    if chunks != [] {
      var first, rest := chunks[0], Joined(chunks[1..]);
      assert forall c <- chunks[1..] :: c in chunks;
      GoodChunksFit(chunks[1..]);
      assert GoodChunk(first);
      ValidConcat(first, rest);
      assert (first + rest)[|first|..] == rest;
      FitsByCut(first + rest, |first|, |chunks|);
    }
  }

  /**
    A request needs at most `k` chunks exactly when some list of at most `k` non-empty, valid chunks
    of the allowed size joins to it: no other way of splitting beats the sender's.
   */
  lemma SplitIsShortest(s: seq<Byte>, k: nat)
    requires Valid(s)
    ensures |Split(s)| <= k
       <==> exists chunks: seq<seq<Byte>> :: |chunks| <= k && Joined(chunks) == s && forall c <- chunks :: GoodChunk(c)
  {
    if |Split(s)| <= k {
      SplitIsExact(s);
      assert Joined(Split(s)) == s;
    }
    if chunks: seq<seq<Byte>> :|
      |chunks| <= k && Joined(chunks) == s && forall c <- chunks :: GoodChunk(c)
    {
      GoodChunksFit(chunks);
      SplitFits(s, |chunks|);
    }
  }

  lemma {:induction false} FitsWhenShort(s: seq<Byte>, k: nat)
    requires Valid(s) && |s| <= k * (MAXIMUM_CHUNK_BYTES - 3)
    ensures Fits(s, k)
    decreases |s|
  {
    if s != [] {
      SplitLength(s);
      ChunkEndBounds(s);
      assert k > 0;
      FitsWhenShort(s[ChunkEnd(s)..], k - 1);
      FitsByCut(s, ChunkEnd(s), k);
    }
  }

  lemma {:induction false} FitsCarries(s: seq<Byte>, k: nat)
    requires Fits(s, k)
    ensures |s| <= k * MAXIMUM_CHUNK_BYTES
    decreases k
  {
    if s != [] {
      var c := FirstCut(s, k);
      FitsCarries(s[c..], k - 1);
    }
  }

  /** Every request of at most 8 · 61437 bytes fits in eight chunks. */
  lemma SmallRequestsFit(s: seq<Byte>)
    requires Valid(s) && |s| <= 8 * 61437
    ensures |Split(s)| <= MAXIMUM_CHUNKS
  {
    FitsWhenShort(s, 8);
    SplitFits(s, 8);
  }

  /** Every multiple of the chunk size inside `s` is a character boundary. */
  predicate AlignedUpTo(s: seq<Byte>, k: nat) {
    forall i: nat | 1 <= i < k :: Boundary(s, i * MAXIMUM_CHUNK_BYTES)
  }

  lemma AlignedRest(s: seq<Byte>, k: nat)
    requires Valid(s) && k >= 2 && |s| == k * MAXIMUM_CHUNK_BYTES && Boundary(s, MAXIMUM_CHUNK_BYTES)
    ensures AlignedUpTo(s, k) <==> AlignedUpTo(s[MAXIMUM_CHUNK_BYTES..], k - 1)
  {
    var rest := s[MAXIMUM_CHUNK_BYTES..];
    forall i: nat | 1 <= i < k - 1
      ensures Boundary(rest, i * MAXIMUM_CHUNK_BYTES) <==> Boundary(s, (i + 1) * MAXIMUM_CHUNK_BYTES)
    {
      BoundaryShifts(s, MAXIMUM_CHUNK_BYTES, i * MAXIMUM_CHUNK_BYTES);
    }
    if AlignedUpTo(s, k) {
      forall i: nat | 1 <= i < k - 1 ensures Boundary(rest, i * MAXIMUM_CHUNK_BYTES) {
        assert Boundary(s, (i + 1) * MAXIMUM_CHUNK_BYTES);
      }
    }
    if AlignedUpTo(rest, k - 1) {
      forall i: nat | 1 <= i < k ensures Boundary(s, i * MAXIMUM_CHUNK_BYTES) {
        if i > 1 {
          assert Boundary(rest, (i - 1) * MAXIMUM_CHUNK_BYTES);
        }
      }
    }
  }

  /** Text of exactly `k` full chunks fits exactly when it can be cut at every multiple. */
  lemma {:induction false} FullTextFits(s: seq<Byte>, k: nat)
    requires Valid(s) && k >= 1 && |s| == k * MAXIMUM_CHUNK_BYTES
    ensures Fits(s, k) <==> AlignedUpTo(s, k)
    decreases k
  {
    if Fits(s, k) {
      var c := FirstCut(s, k);
      FitsCarries(s[c..], k - 1);
      assert c == MAXIMUM_CHUNK_BYTES;
    }
    if k == 1 {
      WholeIsBoundary(s);
      assert s[MAXIMUM_CHUNK_BYTES..] == [];
      FitsByCut(s, MAXIMUM_CHUNK_BYTES, 1);
    } else if Boundary(s, MAXIMUM_CHUNK_BYTES) {
      CutsAtBoundaries(s, MAXIMUM_CHUNK_BYTES);
      FullTextFits(s[MAXIMUM_CHUNK_BYTES..], k - 1);
      AlignedRest(s, k);
      if AlignedUpTo(s, k) {
        FitsByCut(s, MAXIMUM_CHUNK_BYTES, k);
      }
    } else {
      assert !Boundary(s, 1 * MAXIMUM_CHUNK_BYTES);
    }
  }

  lemma WholeIsBoundary(s: seq<Byte>)
    requires Valid(s)
    ensures Boundary(s, |s|)
  {
    CutsAtBoundaries(s, |s|);
    assert s[..|s|] == s;
  }

  /** At the sender's own size limit eight chunks suffice exactly when every cut falls between characters. */
  lemma LargestRequestsFit(s: seq<Byte>)
    requires Valid(s) && |s| == MAXIMUM_CHUNKS * MAXIMUM_CHUNK_BYTES
    ensures |Split(s)| <= MAXIMUM_CHUNKS <==> AlignedUpTo(s, 8)
  {
    FullTextFits(s, 8);
    SplitFits(s, 8);
  }

  lemma {:induction false} AsciiIsValid(s: seq<Byte>)
    requires forall b <- s :: b <= 0x7F
    ensures Valid(s)
  {
    if s != [] {
      assert s[0] in s && forall b <- s[1..] :: b in s;
      AsciiIsValid(s[1..]);
    }
  }

  /** A two-byte character across the first cut makes a request the sender accepts need a ninth chunk. */
  lemma ARequestCanNeedNine() returns (s: seq<Byte>)
    ensures Valid(s) && |s| == MAXIMUM_CHUNKS * MAXIMUM_CHUNK_BYTES && |Split(s)| > MAXIMUM_CHUNKS
  {
    var cut := MAXIMUM_CHUNK_BYTES - 1;
    var before: seq<Byte> := seq(cut, _ => 0x61);
    var wide: seq<Byte> := [0xC3, 0xA9];
    var after: seq<Byte> := seq(7 * MAXIMUM_CHUNK_BYTES - 1, _ => 0x61);
    AsciiIsValid(before);
    AsciiIsValid(after);
    assert wide[2..] == [];
    ValidConcat(wide, after);
    ValidConcat(before, wide + after);
    s := before + (wide + after);
    assert s[cut..] == wide + after;
    assert CharLength(s[cut..]) == 2;
    BoundaryShifts(s, cut, 1);
    assert !Boundary(s, 1 * MAXIMUM_CHUNK_BYTES);
    LargestRequestsFit(s);
  }

  // ----- reassembly

  /** The helper's eight chunk slots, as strings; a missing one is None. */
  function Slots(chunks: seq<seq<Byte>>): (slots: seq<Option<seq<Unit>>>)
    requires |chunks| <= MAXIMUM_CHUNKS && forall c <- chunks :: Valid(c)
    ensures |slots| == MAXIMUM_CHUNKS
  {
    seq(MAXIMUM_CHUNKS, i requires 0 <= i < MAXIMUM_CHUNKS => if i < |chunks| then Some(Units(chunks[i])) else None)
  }

  predicate GoodSlot(slot: Option<seq<Unit>>) {
    slot.Some? ==> 0 < |slot.value| <= MAXIMUM_CHUNK_BYTES
  }

  /** Chunks come first, without a gap, none empty or too long. */
  predicate GoodSlots(slots: seq<Option<seq<Unit>>>) {
    && slots != [] && slots[0].Some? && (forall slot <- slots :: GoodSlot(slot))
    && forall i, j | 0 <= i < j < |slots| && slots[j].Some? :: slots[i].Some?
  }

  function SlotText(slots: seq<Option<seq<Unit>>>): seq<Unit> {
    if slots == [] then []
    else SlotText(slots[..|slots| - 1]) + (if slots[|slots| - 1].Some? then slots[|slots| - 1].value else [])
  }

  /** The helper's loop over the slots. */
  method Reassemble(slots: seq<Option<seq<Unit>>>) returns (r: Result<seq<Byte>>)
    requires |slots| == MAXIMUM_CHUNKS
    ensures r.Ok? <==> GoodSlots(slots) && 0 < |GetBytes(SlotText(slots))| <= MAXIMUM_INPUT_BYTES
    ensures r.Ok? ==> r.value == GetBytes(SlotText(slots))
    ensures r == Err("transport_chunks") <==> !GoodSlots(slots)
  {
    if slots[0].None? || slots[0].value == [] {
      assert slots[0] in slots;
      return Err("transport_chunks");
    }
    var text: seq<Unit> := [];
    var missing := false;
    for index := 0 to |slots|
      invariant text == SlotText(slots[..index])
      invariant missing <==> exists i | 0 <= i < index :: slots[i].None?
      invariant forall i | 0 <= i < index :: GoodSlot(slots[i])
      invariant forall i, j | 0 <= i < j < index && slots[j].Some? :: slots[i].Some?
    {
      assert slots[..index + 1][..index] == slots[..index];
      var chunk := slots[index];
      if chunk.None? {
        missing := true;
      } else {
        if missing || |chunk.value| == 0 || |chunk.value| > MAXIMUM_CHUNK_BYTES {
          assert slots[index] in slots;
          return Err("transport_chunks");
        }
        text := text + chunk.value;
      }
    }
    assert slots[..|slots|] == slots;
    var bytes := GetBytes(text);
    if |bytes| == 0 || |bytes| > MAXIMUM_INPUT_BYTES {
      return Err("request_size");
    }
    r := Ok(bytes);
  }

  lemma {:induction false} TextOfChunks(chunks: seq<seq<Byte>>, slots: seq<Option<seq<Unit>>>, rest: seq<Unit>)
    requires |chunks| <= |slots| && forall c <- chunks :: Valid(c)
    requires forall i | 0 <= i < |slots| :: slots[i] == if i < |chunks| then Some(Units(chunks[i])) else None
    ensures GetBytes(SlotText(slots) + rest) == Joined(chunks) + GetBytes(rest)
    decreases |slots|
  {
    if slots == [] {
      assert SlotText(slots) + rest == rest;
    } else {
      var front := slots[..|slots| - 1];
      if |chunks| < |slots| {
        assert SlotText(slots) == SlotText(front);
        TextOfChunks(chunks, front, rest);
      } else {
        var last := chunks[|chunks| - 1];
        TextOfChunks(chunks[..|chunks| - 1], front, Units(last) + rest);
        Assoc(SlotText(front), Units(last), rest);
        GetBytesOfUnits(last, rest);
        JoinedLast(chunks);
        Assoc(Joined(chunks[..|chunks| - 1]), last, GetBytes(rest));
      }
    }
  }

  lemma {:induction false} JoinedLast<T>(chunks: seq<seq<T>>)
    requires chunks != []
    ensures Joined(chunks) == Joined(chunks[..|chunks| - 1]) + chunks[|chunks| - 1]
  {
    if |chunks| > 1 {
      JoinedLast(chunks[1..]);
      assert chunks[1..][..|chunks| - 2] == chunks[..|chunks| - 1][1..];
    }
  }

  lemma SlotsAreGood(chunks: seq<seq<Byte>>)
    requires 0 < |chunks| <= MAXIMUM_CHUNKS && forall c <- chunks :: GoodChunk(c) && Valid(c)
    ensures GoodSlots(Slots(chunks))
  {
    var slots := Slots(chunks);
    forall i | 0 <= i < |chunks| ensures GoodSlot(slots[i]) {
      GetBytesOfUnits(chunks[i], []);
    }
  }

  /** What the sender splits into at most eight chunks, the helper accepts and reassembles byte for byte. */
  lemma ReassemblesExactly(s: seq<Byte>)
    requires 0 < |s| <= MAXIMUM_CHUNKS * MAXIMUM_CHUNK_BYTES && Valid(s) && |Split(s)| <= MAXIMUM_CHUNKS
    ensures forall c <- Split(s) :: Valid(c)
    ensures GoodSlots(Slots(Split(s))) && GetBytes(SlotText(Slots(Split(s)))) == s && |s| <= MAXIMUM_INPUT_BYTES
  {
    SplitIsExact(s);
    var slots := Slots(Split(s));
    TextOfChunks(Split(s), slots, []);
    assert SlotText(slots) + [] == SlotText(slots) && s + [] == s;
    SlotsAreGood(Split(s));
  }
}
