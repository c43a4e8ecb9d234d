// Splitting a training result into chunks (the Rust and the Python SDK) and putting it back together
// in whatever order the chunks arrive (the server's dispatcher).
module Chunks {
  import opened Integers
  import opened Wrappers
  import opened Sorting

  type byte = bv8

  /** The four little-endian bytes of one f32. */
  datatype Word = Word(b0: byte, b1: byte, b2: byte, b3: byte)

  // ----- the wire codec -----

  function EncodeWeights(ws: seq<Word>): (bytes: seq<byte>)
    ensures |bytes| == 4 * |ws|
  {
    if |ws| == 0 then []
    else
      var w := ws[|ws|-1];
      EncodeWeights(ws[..|ws|-1]) + [w.b0, w.b1, w.b2, w.b3]
  }

  /** Fails only on a length that is not a multiple of four. */
  function DecodeWeights(bytes: seq<byte>): Option<seq<Word>> {
    if |bytes| % 4 != 0 then None
    else Some(Words(bytes))
  }

  function Words(bytes: seq<byte>): (ws: seq<Word>)
    requires |bytes| % 4 == 0
    ensures |ws| == |bytes| / 4
  {
    seq(|bytes| / 4, k requires 0 <= k < |bytes| / 4 =>
      Word(bytes[4 * k], bytes[4 * k + 1], bytes[4 * k + 2], bytes[4 * k + 3]))
  }

  lemma {:induction false} EncodeDecode(ws: seq<Word>)
    ensures DecodeWeights(EncodeWeights(ws)) == Some(ws)
  {
    if |ws| > 0 {
      var k := |ws| - 1;
      EncodeDecode(ws[..k]);
      var bytes, rest := EncodeWeights(ws), EncodeWeights(ws[..k]);
      var last := ws[k];
      assert bytes == rest + [last.b0, last.b1, last.b2, last.b3];
      hide EncodeWeights;
      assert Words(rest) == ws[..k];
      forall i | 0 <= i < |ws| ensures Words(bytes)[i] == ws[i] {
        if i < k {
          assert Words(rest)[i] == ws[..k][i];
        } else {
          assert bytes[4 * k] == last.b0 && bytes[4 * k + 1] == last.b1;
          assert bytes[4 * k + 2] == last.b2 && bytes[4 * k + 3] == last.b3;
        }
      }
      assert Words(bytes) == ws;
    }
  }

  // ----- splitting -----

  const TWO_TO_THE_32: nat := 0x1_0000_0000

  /** The scalars repeated on every chunk. */
  datatype Header =
    Header(clientId: string, round: nat, numSamples: nat, localSteps: Option<nat>, localLoss: Option<real>)

  datatype DeltaChunk =
    DeltaChunk(header: Header, chunkIndex: nat, totalChunks: nat, data: seq<byte>, variate: Option<seq<byte>>)

  function AtMost(x: nat, y: nat): nat {
    if x <= y then x else y
  }

  /** `chunk_bytes.max(4) / 4 * 4` */
  function StepOf(chunkBytes: nat): (step: nat)
    ensures step >= 4 && step % 4 == 0
  {
    (if chunkBytes >= 4 then chunkBytes else 4) / 4 * 4
  }

  /** `payload.len().div_ceil(step).max(1)` */
  function TotalOf(len: nat, step: nat): (total: nat)
    requires step > 0
    ensures total >= 1
  {
    var t := (len + step - 1) / step;
    if t >= 1 then t else 1
  }

  /** Where the first k chunks of a payload of length len end. */
  function Cut(k: nat, step: nat, len: nat): (c: nat)
    ensures c <= len
  {
    ProdNonNegative(k, step);
    AtMost(Prod(k, step), len)
  }

  lemma CutsGrow(k: nat, step: nat, len: nat)
    ensures Cut(k, step, len) <= Cut(k + 1, step, len)
  {
    ProdDistributes(k, 1, step);
    ProdUnit(step);
  }

  /** Chunk `index`: `payload[lo.min(len)..hi]`, the variate cut at the same offsets, and the index
      and the count cast to u32. */
  function ChunkAt(h: Header, payload: seq<byte>, variate: Option<seq<byte>>, step: nat, total: nat,
        index: nat): DeltaChunk {
    CutsGrow(index, step, |payload|);
    var lo, hi := Cut(index, step, |payload|), Cut(index + 1, step, |payload|);
    DeltaChunk(h, index % TWO_TO_THE_32, total % TWO_TO_THE_32, payload[lo..hi],
      match variate
      case None => None
      case Some(v) => Some(v[AtMost(lo, |v|)..AtMost(hi, |v|)]))
  }

  /** `build_chunks` on encoded bytes. */
  function Split(h: Header, payload: seq<byte>, variate: Option<seq<byte>>, chunkBytes: nat): (cs: seq<DeltaChunk>)
    ensures |cs| == TotalOf(|payload|, StepOf(chunkBytes))
  {
    var step := StepOf(chunkBytes);
    var total := TotalOf(|payload|, step);
    seq(total, i requires 0 <= i < total => ChunkAt(h, payload, variate, step, total, i))
  }

  function BuildChunks(h: Header, weights: seq<Word>, variate: Option<seq<Word>>, chunkBytes: nat): seq<DeltaChunk> {
    Split(h, EncodeWeights(weights), if variate.None? then None else Some(EncodeWeights(variate.value)), chunkBytes)
  }

  /** `_chunks` of the Python SDK, whose test for a variate is the truth of the list. */
  function PythonStep(chunkBytes: nat): nat {
    var s := (chunkBytes / 4) * 4;
    if s >= 4 then s else 4
  }

  /** Python's slice clamps both ends. */
  function Slice(s: seq<byte>, lo: nat, hi: nat): seq<byte> {
    var a, b := AtMost(lo, |s|), AtMost(hi, |s|);
    if a <= b then s[a..b] else []
  }

  function PythonChunkAt(h: Header, payload: seq<byte>, variate: Option<seq<byte>>, step: nat, total: nat,
        index: nat): DeltaChunk {
    ProdNonNegative(index, step);
    ProdNonNegative(index + 1, step);
    var lo, hi := Prod(index, step), AtMost(Prod(index + 1, step), |payload|);
    DeltaChunk(h, index, total, Slice(payload, lo, hi),
      if variate.None? then None else Some(Slice(variate.value, lo, hi)))
  }

  /** None where protobuf refuses a count that does not fit its uint32 field. */
  function PythonChunks(h: Header, weights: seq<Word>, variate: Option<seq<Word>>,
        chunkBytes: nat): Option<seq<DeltaChunk>> {
    var payload := EncodeWeights(weights);
    var coded := if variate.Some? && |variate.value| > 0 then Some(EncodeWeights(variate.value)) else None;
    var step := PythonStep(chunkBytes);
    var t := (|payload| + step - 1) / step;
    var total := if t >= 1 then t else 1;
    if total >= TWO_TO_THE_32 then None
    else Some(seq(total, i requires 0 <= i < total => PythonChunkAt(h, payload, coded, step, total, i)))
  }

  // ----- putting it back together -----

  datatype Submission = Submission(header: Header, data: seq<byte>, variate: Option<seq<byte>>)

  function ChunkKey(): DeltaChunk -> real {
    (c: DeltaChunk) => c.chunkIndex as real
  }

  function JoinData(cs: seq<DeltaChunk>, n: nat): seq<byte>
    requires n <= |cs|
  {
    if n == 0 then [] else JoinData(cs, n - 1) + cs[n-1].data
  }

  function JoinVariate(cs: seq<DeltaChunk>, n: nat): Option<seq<byte>>
    requires n <= |cs|
  {
    if n == 0 then None
    else
      var before := JoinVariate(cs, n - 1);
      match cs[n-1].variate
      case None => before
      case Some(slice) => Some((if before.None? then [] else before.value) + slice)
  }

  /** `submit_delta`: the scalars from whichever chunk came first, the rest in index order. */
  method Reassemble(arrived: seq<DeltaChunk>) returns (r: Option<Submission>)
    ensures |arrived| == 0 <==> r.None?
    ensures r.Some? ==>
      var sorted := SortBy(arrived, ChunkKey());
      r.value == Submission(arrived[0].header, JoinData(sorted, |sorted|), JoinVariate(sorted, |sorted|))
  {
    if |arrived| == 0 { return None; }
    var sorted := SortBy(arrived, ChunkKey());
    var data: seq<byte> := [];
    var variate: Option<seq<byte>> := None;
    for n := 0 to |sorted|
      invariant data == JoinData(sorted, n) && variate == JoinVariate(sorted, n)
    {
      data := data + sorted[n].data;
      if sorted[n].variate.Some? {
        variate := Some((if variate.None? then [] else variate.value) + sorted[n].variate.value);
      }
    }
    r := Some(Submission(arrived[0].header, data, variate));
  }

  // ----- round trip -----

  lemma {:induction false} JoinedPrefix(h: Header, payload: seq<byte>, variate: Option<seq<byte>>, chunkBytes: nat,
        n: nat)
    requires n <= TotalOf(|payload|, StepOf(chunkBytes))
    ensures var cs, cut := Split(h, payload, variate, chunkBytes), Cut(n, StepOf(chunkBytes), |payload|);
      && JoinData(cs, n) == payload[..cut]
      && JoinVariate(cs, n)
         == (if variate.None? || n == 0 then None else Some(variate.value[..AtMost(cut, |variate.value|)]))
  {
    var step, len := StepOf(chunkBytes), |payload|;
    if n == 0 {
      FirstCut(step, len);
    } else {
      JoinedPrefix(h, payload, variate, chunkBytes, n - 1);
      CutsGrow(n - 1, step, len);
      FirstCut(step, len);
      var cs := Split(h, payload, variate, chunkBytes);
      assert cs[n-1] == ChunkAt(h, payload, variate, step, |cs|, n - 1);
      hide Cut, StepOf, TotalOf, Split;
      var lo, hi := Cut(n - 1, step, len), Cut(n, step, len);
      SplitJoins(payload, lo, hi);
      if variate.Some? {
        SplitJoins(variate.value, AtMost(lo, |variate.value|), AtMost(hi, |variate.value|));
      }
    }
  }

  lemma SplitJoins(s: seq<byte>, a: nat, b: nat)
    requires a <= b <= |s|
    ensures s[..a] + s[a..b] == s[..b]
    ensures a == 0 ==> s[..a] == []
  {
    assert (s[..a] + s[a..b]) == s[..b];
  }

  lemma FirstCut(step: nat, len: nat)
    ensures Cut(0, step, len) == 0
  {
    ProdUnit(step);
  }

  /** The last cut is the end of the payload. */
  lemma LastCut(len: nat, step: nat)
    requires step > 0
    ensures Cut(TotalOf(len, step), step, len) == len
  {
    var q := (len + step - 1) / step;
    DivBounds(len + step - 1, step);
    ProdPositive(1, step);
    ProdUnit(step);
  }

  /** The chunks carry the indices 0..total−1 in order, as long as the count fits in a u32. */
  lemma IndicesAreStrict(h: Header, payload: seq<byte>, variate: Option<seq<byte>>, chunkBytes: nat)
    requires TotalOf(|payload|, StepOf(chunkBytes)) <= TWO_TO_THE_32
    ensures var cs := Split(h, payload, variate, chunkBytes);
      && (forall i | 0 <= i < |cs| :: cs[i].chunkIndex == i)
      && (forall i, j | 0 <= i < j < |cs| :: ChunkKey()(cs[i]) < ChunkKey()(cs[j]))
  {
    hide StepOf, TotalOf, Cut;
  }

  /** Beyond that the cast wraps: two different chunks carry the index 0. */
  lemma IndicesWrap(h: Header, payload: seq<byte>, variate: Option<seq<byte>>, chunkBytes: nat)
    requires TotalOf(|payload|, StepOf(chunkBytes)) > TWO_TO_THE_32
    ensures var cs := Split(h, payload, variate, chunkBytes);
      cs[0].chunkIndex == cs[TWO_TO_THE_32].chunkIndex == 0
  {
    hide StepOf, TotalOf, Cut;
  }

  /** Whatever the order of arrival, the payload comes back whole, with the header, and the variate
      comes back cut to the payload's length. */
  lemma ArrivalOrderIsIrrelevant(h: Header, payload: seq<byte>, variate: Option<seq<byte>>, chunkBytes: nat,
        arrived: seq<DeltaChunk>)
    requires TotalOf(|payload|, StepOf(chunkBytes)) <= TWO_TO_THE_32
    requires multiset(arrived) == multiset(Split(h, payload, variate, chunkBytes))
    ensures |arrived| > 0 && arrived[0].header == h
    ensures var sorted := SortBy(arrived, ChunkKey());
      && JoinData(sorted, |sorted|) == payload
      && JoinVariate(sorted, |sorted|)
         == (if variate.None? then None else Some(variate.value[..AtMost(|payload|, |variate.value|)]))
  {
    var cs := Split(h, payload, variate, chunkBytes);
    SomeArrival(h, payload, variate, chunkBytes, arrived);
    IndicesAreStrict(h, payload, variate, chunkBytes);
    hide Split, SortBy, StepOf, TotalOf, Cut, JoinData, JoinVariate, ChunkKey;
    SortRestores(arrived, cs, ChunkKey());
    JoinedPrefix(h, payload, variate, chunkBytes, |cs|);
    LastCut(|payload|, StepOf(chunkBytes));
    assert payload[..|payload|] == payload;
  }

  lemma SomeArrival(h: Header, payload: seq<byte>, variate: Option<seq<byte>>, chunkBytes: nat,
        arrived: seq<DeltaChunk>)
    requires multiset(arrived) == multiset(Split(h, payload, variate, chunkBytes))
    ensures |arrived| > 0 && arrived[0].header == h
  {
    hide StepOf, TotalOf, Cut;
    var cs := Split(h, payload, variate, chunkBytes);
    SameLength(arrived, cs);
    assert arrived[0] in multiset(cs);
    var k :| 0 <= k < |cs| && cs[k] == arrived[0];
  }

  /** The round trip to weights: they come back exactly, and so does a control variate exactly when it
      is no longer than the weights. */
  lemma RoundTrip(h: Header, weights: seq<Word>, variate: Option<seq<Word>>, chunkBytes: nat, arrived: seq<DeltaChunk>)
    requires TotalOf(4 * |weights|, StepOf(chunkBytes)) <= TWO_TO_THE_32
    requires multiset(arrived) == multiset(BuildChunks(h, weights, variate, chunkBytes))
    ensures var sorted := SortBy(arrived, ChunkKey());
      && DecodeWeights(JoinData(sorted, |sorted|)) == Some(weights)
      && (variate.None? <==> JoinVariate(sorted, |sorted|).None?)
    ensures variate.Some? ==>
      var sorted := SortBy(arrived, ChunkKey());
      DecodeWeights(JoinVariate(sorted, |sorted|).value) == Some(variate.value) <==> |variate.value| <= |weights|
  {
    var payload := EncodeWeights(weights);
    var coded := if variate.None? then None else Some(EncodeWeights(variate.value));
    ArrivalOrderIsIrrelevant(h, payload, coded, chunkBytes, arrived);
    EncodeDecode(weights);
    if variate.Some? {
      EncodeDecode(variate.value);
      var v := coded.value;
      assert v[..|v|] == v;
    }
  }

  /** No chunk cuts an f32 in half: every chunk decodes by itself, in data and in variate. */
  lemma ChunksAreAligned(h: Header, weights: seq<Word>, variate: Option<seq<Word>>, chunkBytes: nat, i: nat)
    requires i < |BuildChunks(h, weights, variate, chunkBytes)|
    ensures DecodeWeights(BuildChunks(h, weights, variate, chunkBytes)[i].data).Some?
    ensures var v := BuildChunks(h, weights, variate, chunkBytes)[i].variate;
      v.Some? ==> DecodeWeights(v.value).Some?
  {
    hide EncodeWeights, StepOf, TotalOf, ChunkAt, Words;
    var step, payload := StepOf(chunkBytes), EncodeWeights(weights);
    var coded := if variate.None? then None else Some(EncodeWeights(variate.value));
    var cs := BuildChunks(h, weights, variate, chunkBytes);
    assert cs[i] == ChunkAt(h, payload, coded, step, |cs|, i);
    ChunkIsAligned(h, payload, coded, step, |cs|, i);
  }

  lemma ChunkIsAligned(h: Header, payload: seq<byte>, variate: Option<seq<byte>>, step: nat, total: nat, i: nat)
    requires |payload| % 4 == 0 && step % 4 == 0 && (variate.Some? ==> |variate.value| % 4 == 0)
    ensures var c := ChunkAt(h, payload, variate, step, total, i);
      |c.data| % 4 == 0 && (c.variate.Some? ==> |c.variate.value| % 4 == 0)
  {
    var lo, hi := Cut(i, step, |payload|), Cut(i + 1, step, |payload|);
    CutsGrow(i, step, |payload|);
    CutAligned(i, step, |payload|);
    CutAligned(i + 1, step, |payload|);
    AlignedDifference(lo, hi);
    if variate.Some? { AlignedDifference(AtMost(lo, |variate.value|), AtMost(hi, |variate.value|)); }
  }

  lemma AlignedDifference(lo: nat, hi: nat)
    requires lo <= hi && lo % 4 == 0 && hi % 4 == 0
    ensures (hi - lo) % 4 == 0
  {
  }

  lemma CutAligned(k: nat, step: nat, len: nat)
    requires step % 4 == 0 && len % 4 == 0
    ensures Cut(k, step, len) % 4 == 0
  {
    MultipleAligned(k, step);
  }

  lemma SumAligned(x: int, y: int)
    requires x % 4 == 0 && y % 4 == 0
    ensures (x + y) % 4 == 0
  {
  }

  lemma {:induction false} MultipleAligned(k: nat, step: nat)
    requires step % 4 == 0
    ensures Prod(k, step) >= 0 && Prod(k, step) % 4 == 0
  {
    ProdUnit(step);
    if k > 0 {
      MultipleAligned(k - 1, step);
      ProdDistributes(k - 1, 1, step);
      hide Prod;
      SumAligned(Prod(k - 1, step), step);
    }
  }

  // ----- the two SDKs -----

  lemma StepsAgree(chunkBytes: nat)
    ensures PythonStep(chunkBytes) == StepOf(chunkBytes)
  {
  }

  /** The Rust and the Python chunker agree exactly when the variate is absent or non-empty (an empty
      one is sent by the first and dropped by the second) and the count fits in a uint32 (which the
      first wraps and the second refuses). */
  lemma ChunkersAgreeIff(h: Header, weights: seq<Word>, variate: Option<seq<Word>>, chunkBytes: nat)
    ensures PythonChunks(h, weights, variate, chunkBytes) == Some(BuildChunks(h, weights, variate, chunkBytes))
      <==> (variate.None? || |variate.value| > 0) && TotalOf(4 * |weights|, StepOf(chunkBytes)) < TWO_TO_THE_32
  {
    StepsAgree(chunkBytes);
    var step, payload := StepOf(chunkBytes), EncodeWeights(weights);
    var total := TotalOf(|payload|, step);
    if total < TWO_TO_THE_32 {
      var rust := BuildChunks(h, weights, variate, chunkBytes);
      var python := PythonChunks(h, weights, variate, chunkBytes).value;
      hide EncodeWeights, StepOf, PythonStep, TotalOf, ChunkAt, PythonChunkAt;
      var coded := if variate.None? then None else Some(EncodeWeights(variate.value));
      var sent := if variate.Some? && |variate.value| > 0 then coded else None;
      assert |rust| == |python| == total;
      forall i | 0 <= i < total
        ensures rust[i] == ChunkAt(h, payload, coded, step, total, i)
        ensures python[i] == ChunkAt(h, payload, sent, step, total, i)
      {
        assert python[i] == PythonChunkAt(h, payload, sent, step, total, i);
        ChunksAgree(h, payload, sent, step, total, i);
      }
      if variate.Some? && |variate.value| == 0 {
        VariateIsKept(h, payload, step, total, coded, sent);
        assert rust[0].variate.Some? && python[0].variate.None?;
      } else {
        assert rust == python;
      }
    }
  }

  lemma VariateIsKept(h: Header, payload: seq<byte>, step: nat, total: nat, coded: Option<seq<byte>>,
        sent: Option<seq<byte>>)
    ensures ChunkAt(h, payload, coded, step, total, 0).variate.Some? <==> coded.Some?
    ensures ChunkAt(h, payload, sent, step, total, 0).variate.Some? <==> sent.Some?
  {
  }

  lemma ChunksAgree(h: Header, payload: seq<byte>, variate: Option<seq<byte>>, step: nat, total: nat, i: nat)
    requires i < total < TWO_TO_THE_32
    ensures PythonChunkAt(h, payload, variate, step, total, i) == ChunkAt(h, payload, variate, step, total, i)
  {
    SlicesAgree(payload, i, step, payload);
    if variate.Some? { SlicesAgree(payload, i, step, variate.value); }
    hide Cut, Slice;
  }

  /** Python leaves the lower end unclamped, and slices the same bytes. */
  lemma SlicesAgree(payload: seq<byte>, i: nat, step: nat, s: seq<byte>)
    ensures 0 <= Prod(i, step) && 0 <= Prod(i + 1, step)
    ensures Cut(i, step, |payload|) <= Cut(i + 1, step, |payload|)
    ensures var lo, hi := Cut(i, step, |payload|), Cut(i + 1, step, |payload|);
      Slice(s, Prod(i, step), AtMost(Prod(i + 1, step), |payload|)) == s[AtMost(lo, |s|)..AtMost(hi, |s|)]
  {
    CutsGrow(i, step, |payload|);
    ProdNonNegative(i, step);
    ProdNonNegative(i + 1, step);
    ProdDistributes(i, 1, step);
    ProdUnit(step);
  }
}
