/** Greedy batching of embedding requests and the routing of the answers back to the inputs
    (backend/scripts/embed_existing_profiles.py). */
module EmbeddingBatches {
  import opened Wrappers
  import opened Sorting
  import Slices

  datatype Chunk = Chunk(text: string, tokens: nat)
  type Vector = seq<real>

  class PendingInput {
    const chunks: seq<Chunk>
    var chunkVectors: seq<Vector>

    constructor (chunks: seq<Chunk>)
      ensures this.chunks == chunks && chunkVectors == []
    {
      this.chunks := chunks;
      chunkVectors := [];
    }
  }

  /** One entry of a batch: a chunk and the input it belongs to. */
  datatype Entry = Entry(item: PendingInput, chunk: Chunk)
  type Batch = seq<Entry>

  datatype Caps = Caps(inputs: nat, tokens: nat)

  // ---------------------------------------------------------------- splits of the request list

  function Tokens(batch: Batch): (n: nat) {
    if batch == [] then 0 else Tokens(batch[..|batch| - 1]) + batch[|batch| - 1].chunk.tokens
  }

  function Concat<T>(parts: seq<seq<T>>): (all: seq<T>) {
    if parts == [] then [] else Concat(parts[..|parts| - 1]) + parts[|parts| - 1]
  }

  /** The entries of one input, in chunk order. */
  function EntriesOf(item: PendingInput): (entries: Batch) {
    seq(|item.chunks|, k requires 0 <= k < |item.chunks| => Entry(item, item.chunks[k]))
  }

  /** Every chunk of every input, in order. */
  function Flat(pending: seq<PendingInput>): (entries: Batch) {
    if pending == [] then [] else Flat(pending[..|pending| - 1]) + EntriesOf(pending[|pending| - 1])
  }

  /** A batch that may be sent: within both caps, or a single chunk that no split could help. */
  ghost predicate Sendable(batch: Batch, caps: Caps) {
    |batch| == 1 || (batch != [] && |batch| <= caps.inputs && Tokens(batch) <= caps.tokens)
  }

  ghost predicate Splits(batches: seq<Batch>, entries: Batch, caps: Caps) {
    && Concat(batches) == entries
    && forall b :: b in batches ==> Sendable(b, caps)
  }

  /** No batch could have taken the first entry of the next one as well. */
  ghost predicate Full(batches: seq<Batch>, caps: Caps) {
    forall k :: 0 < k < |batches| && batches[k] != [] ==> !Sendable(batches[k - 1] + [batches[k][0]], caps)
  }

  // ---------------------------------------------------------------- _batched_chunks

  lemma ConcatGrows<T>(parts: seq<seq<T>>, part: seq<T>)
    ensures Concat(parts + [part]) == Concat(parts) + part
  {
    assert (parts + [part])[..|parts|] == parts;
  }

  lemma TokensGrow(batch: Batch, entry: Entry)
    ensures Tokens(batch + [entry]) == Tokens(batch) + entry.chunk.tokens
  {
    assert (batch + [entry])[..|batch|] == batch;
  }

  /** What the generator has yielded so far and the batch it is filling. */
  ghost predicate Filling(batches: seq<Batch>, batch: Batch, done: Batch, caps: Caps) {
    && (batch == [] ==> batches == [])
    && Concat(batches) + batch == done
    && (forall b :: b in batches ==> Sendable(b, caps))
    && (batch != [] ==> Sendable(batch, caps))
    && Full(batches + [batch], caps)
  }

  /** Taking the next entry into the batch while the caps allow it ... */
  lemma EntryJoins(batches: seq<Batch>, batch: Batch, done: Batch, entry: Entry, caps: Caps)
    requires Filling(batches, batch, done, caps) && Sendable(batch + [entry], caps)
    ensures Filling(batches, batch + [entry], done + [entry], caps)
  {
    var (before, after) := (batches + [batch], batches + [batch + [entry]]);
    assert Concat(batches) + (batch + [entry]) == Concat(batches) + batch + [entry];
    forall k | 0 < k < |after| && after[k] != [] ensures !Sendable(after[k - 1] + [after[k][0]], caps) {
      assert after[k - 1] == before[k - 1] && (k < |batches| ==> after[k] == before[k]);
      assert batch != [] && after[k][0] == before[k][0];
    }
  }

  /** ... and starting a new batch with it when they do not. */
  lemma EntryStarts(batches: seq<Batch>, batch: Batch, done: Batch, entry: Entry, caps: Caps)
    requires Filling(batches, batch, done, caps) && batch != [] && !Sendable(batch + [entry], caps)
    ensures Filling(batches + [batch], [entry], done + [entry], caps)
  {
    ConcatGrows(batches, batch);
    var (before, after) := (batches + [batch], batches + [batch] + [[entry]]);
    forall k | 0 < k < |after| && after[k] != [] ensures !Sendable(after[k - 1] + [after[k][0]], caps) {
      assert after[k - 1] == before[k - 1] && (k < |before| ==> after[k] == before[k]);
    }
  }

  /** The batches, in the order in which the generator yields them. */
  method BatchedChunks(pending: seq<PendingInput>, caps: Caps) returns (batches: seq<Batch>)
    ensures Splits(batches, Flat(pending), caps)
    ensures Full(batches, caps)
  {
    hide Filling;
    batches := [];
    var batch: Batch, tokens := [], 0;
    ghost var done: Batch := [];
    assert Filling(batches, batch, done, caps) by { StartsEmpty(caps); }
    for i := 0 to |pending|
      invariant done == Flat(pending[..i])
      invariant Filling(batches, batch, done, caps) && tokens == Tokens(batch)
    {
      var item := pending[i];
      assert pending[..i + 1][..i] == pending[..i];
      for j := 0 to |item.chunks|
        invariant done == Flat(pending[..i]) + EntriesOf(item)[..j]
        invariant Filling(batches, batch, done, caps) && tokens == Tokens(batch)
      {
        var entry := Entry(item, item.chunks[j]);
        TokensGrow(batch, entry);
        if batch != [] && (|batch| >= caps.inputs || tokens + entry.chunk.tokens > caps.tokens) {
          EntryStarts(batches, batch, done, entry, caps);
          batches := batches + [batch];
          batch, tokens := [], 0;
          TokensGrow([], entry);
          assert [] + [entry] == [entry];
        } else {
          EntryJoins(batches, batch, done, entry, caps);
        }
        batch := batch + [entry];
        tokens := tokens + entry.chunk.tokens;
        done := done + [entry];
      }
    }
    assert pending[..|pending|] == pending;
    Filled(batches, batch, done, caps);
    if batch != [] {
      batches := batches + [batch];
    }
  }

  lemma StartsEmpty(caps: Caps)
    ensures Filling([], [], [], caps)
  {
  }

  lemma Filled(batches: seq<Batch>, batch: Batch, done: Batch, caps: Caps)
    requires Filling(batches, batch, done, caps)
    ensures var all := if batch != [] then batches + [batch] else batches;
            Splits(all, done, caps) && Full(all, caps)
  {
    ConcatGrows(batches, batch);
  }

  // ---------------------------------------------------------------- no split is smaller

  lemma {:induction false} TokensAppend(a: Batch, b: Batch)
    ensures Tokens(a + b) == Tokens(a) + Tokens(b)
  {
    if b == [] {
      assert a + b == a;
    } else {
      TokensAppend(a, b[..|b| - 1]);
      assert (a + b)[..|a + b| - 1] == a + b[..|b| - 1];
    }
  }

  lemma {:induction false} ConcatAppend<T>(a: seq<seq<T>>, b: seq<seq<T>>)
    ensures Concat(a + b) == Concat(a) + Concat(b)
  {
    if b == [] {
      assert a + b == a;
    } else {
      ConcatAppend(a, b[..|b| - 1]);
      assert (a + b)[..|a + b| - 1] == a + b[..|b| - 1];
    }
  }

  lemma FirstPart<T>(parts: seq<seq<T>>)
    requires parts != []
    ensures Concat(parts) == parts[0] + Concat(parts[1..])
  {
    assert parts == [parts[0]] + parts[1..] && [parts[0]][..0] == [];
    ConcatAppend([parts[0]], parts[1..]);
  }

  /** A stretch of a sendable batch is sendable. */
  lemma StretchIsSendable(batch: Batch, from: nat, to: nat, caps: Caps)
    requires Sendable(batch, caps) && from < to <= |batch|
    ensures Sendable(batch[from..to], caps)
  {
    assert batch == batch[..from] + batch[from..to] + batch[to..];
    TokensAppend(batch[..from] + batch[from..to], batch[to..]);
    TokensAppend(batch[..from], batch[from..to]);
  }

  /** A full split of what is left of a list never needs more batches than any split of the list. */
  lemma {:induction false} FullSplitIsSmallest(full: seq<Batch>, other: seq<Batch>, entries: Batch, skip: nat,
                                               caps: Caps)
    requires skip <= |entries| && Splits(other, entries, caps)
    requires Splits(full, entries[skip..], caps) && Full(full, caps)
    ensures |full| <= |other|
    decreases |other|
  {
    hide Sendable;
    if full != [] {
      FirstPart(full);
      assert full[0] != [] by { SendableIsNotEmpty(full[0], caps); }
      if other != [] {
        FirstPart(other);
        var (g, o) := (|full[0]|, |other[0]|);
        assert entries[..o] == other[0] && entries[o..] == Concat(other[1..]);
        assert entries[skip..][..g] == full[0] && entries[skip..][g..] == Concat(full[1..]);
        ReachesFurther(full, other[0], entries, skip, caps);
        assert entries[o..][skip + g - o..] == entries[skip..][g..];
        FullSplitIsSmallest(full[1..], other[1..], entries[o..], skip + g - o, caps);
      }
    }
  }

  lemma SendableIsNotEmpty(batch: Batch, caps: Caps)
    requires Sendable(batch, caps)
    ensures batch != []
  {
  }

  /** The first batch of a full split reaches at least as far as that of any other split. */
  lemma ReachesFurther(full: seq<Batch>, first: Batch, entries: Batch, skip: nat, caps: Caps)
    requires skip <= |entries| && Splits(full, entries[skip..], caps) && Full(full, caps)
    requires full != [] && first <= entries && Sendable(first, caps)
    ensures skip + |full[0]| >= |first|
  {
    hide Sendable;
    FirstPart(full);
    if skip + |full[0]| < |first| {
      Slices.StretchPast(entries, skip, full[0], Concat(full[1..]), first);
      assert full[1..] != [];
      FirstPart(full[1..]);
      SendableIsNotEmpty(full[1], caps);
      StretchIsSendable(first, skip, skip + |full[0]| + 1, caps);
    }
  }

  /** The generator's batches: whatever other way there is to cut the same list, in the same
      order, into sendable batches, it takes at least as many requests. */
  lemma NoSplitIsSmaller(batches: seq<Batch>, other: seq<Batch>, pending: seq<PendingInput>, caps: Caps)
    requires Splits(batches, Flat(pending), caps) && Full(batches, caps)
    requires Splits(other, Flat(pending), caps)
    ensures |batches| <= |other|
  {
    assert Flat(pending)[0..] == Flat(pending);
    FullSplitIsSmallest(batches, other, Flat(pending), 0, caps);
  }

  // ---------------------------------------------------------------- routing the answers

  datatype Data = Data(index: int, embedding: Vector)

  /** The embedding service: any answer to the k-th request, or an error. */
  type Service = (nat, seq<string>) -> Option<seq<Data>>

  function Texts(batch: Batch): (texts: seq<string>) {
    seq(|batch|, k requires 0 <= k < |batch| => batch[k].chunk.text)
  }

  predicate ByIndex(a: Data, b: Data) {
    a.index <= b.index
  }

  function Embeddings(data: seq<Data>): (vectors: seq<Vector>)
    ensures |vectors| == |data| && forall k :: 0 <= k < |data| ==> vectors[k] == data[k].embedding
  {
    seq(|data|, k requires 0 <= k < |data| => data[k].embedding)
  }

  /** The vectors a batch gets, in the batch's own order, or why the run stops. */
  function BatchVectors(answer: Option<seq<Data>>, size: nat, dimensions: nat): (r: Result<seq<Vector>>)
    ensures r.Ok? ==> |r.value| == size
  {
    if answer.None? then Result<seq<Vector>>.Err("OpenAI embeddings request failed")
    else
      var ordered := SortBy(answer.value, ByIndex);
      if |ordered| != size then Result<seq<Vector>>.Err("OpenAI returned an incomplete embedding batch")
      else if exists d :: d in ordered && |d.embedding| != dimensions then
        Result<seq<Vector>>.Err("OpenAI returned another number of dimensions")
      else Ok(Embeddings(ordered))
  }

  /** The vectors of all batches, one request after the other. */
  function Answers(service: Service, batches: seq<Batch>, dimensions: nat): (r: Result<seq<Vector>>)
    ensures r.Ok? ==> |r.value| == |Concat(batches)|
  {
    if batches == [] then Ok([])
    else
      var last := batches[|batches| - 1];
      match Answers(service, batches[..|batches| - 1], dimensions)
      case Err(message) => Err(message)
      case Ok(vectors) =>
        match BatchVectors(service(|batches| - 1, Texts(last)), |last|, dimensions)
        case Err(message) => Err(message)
        case Ok(more) => Ok(vectors + more)
  }

  /** The vectors of the entries that belong to one input. */
  ghost function Routed(entries: Batch, vectors: seq<Vector>, item: PendingInput): (own: seq<Vector>)
    requires |entries| == |vectors|
  {
    if entries == [] then []
    else
      var n := |entries| - 1;
      var own := Routed(entries[..n], vectors[..n], item);
      if entries[n].item == item then own + [vectors[n]] else own
  }

  ghost predicate Distinct(pending: seq<PendingInput>) {
    forall i, j :: 0 <= i < j < |pending| ==> pending[i] != pending[j]
  }

  lemma OneMoreRouted(done: Batch, earlier: seq<Vector>, batch: Batch, vectors: seq<Vector>, k: nat, item: PendingInput)
    requires |batch| == |vectors| && |done| == |earlier| && k < |batch|
    ensures Routed(done + batch[..k + 1], earlier + vectors[..k + 1], item)
            == Routed(done + batch[..k], earlier + vectors[..k], item)
              + (if batch[k].item == item then [vectors[k]] else [])
  {
    var (entries, values) := (done + batch[..k + 1], earlier + vectors[..k + 1]);
    assert entries[..|entries| - 1] == done + batch[..k] && values[..|values| - 1] == earlier + vectors[..k];
  }

  /** Appends a batch's vectors to the inputs they belong to. */
  method RouteBatch(ghost pending: seq<PendingInput>, batch: Batch, vectors: seq<Vector>, ghost done: Batch,
                    ghost earlier: seq<Vector>)
    requires |batch| == |vectors| && |done| == |earlier|
    requires forall e :: e in batch ==> e.item in pending
    requires forall item :: item in pending ==> item.chunkVectors == Routed(done, earlier, item)
    modifies pending
    ensures forall item :: item in pending ==> item.chunkVectors == Routed(done + batch, earlier + vectors, item)
  {
    assert done + batch[..0] == done && earlier + vectors[..0] == earlier;
    for k := 0 to |batch|
      invariant forall item :: item in pending ==>
                  item.chunkVectors == Routed(done + batch[..k], earlier + vectors[..k], item)
    {
      hide Routed;
      var item := batch[k].item;
      assert item in pending by { assert batch[k] in batch; }
      forall other ensures Routed(done + batch[..k + 1], earlier + vectors[..k + 1], other)
                           == Routed(done + batch[..k], earlier + vectors[..k], other)
                             + (if item == other then [vectors[k]] else []) {
        OneMoreRouted(done, earlier, batch, vectors, k, other);
      }
      item.chunkVectors := item.chunkVectors + [vectors[k]];
    }
    assert batch[..|batch|] == batch && vectors[..|vectors|] == vectors;
  }

  /** Where the chunks of the i-th input start in the request list. */
  function Offset(pending: seq<PendingInput>, i: nat): (offset: nat)
    requires i <= |pending|
  {
    |Flat(pending[..i])|
  }

  /** The i-th input holds one vector per chunk, in chunk order: its stretch of the vectors. */
  ghost predicate Held(pending: seq<PendingInput>, vectors: seq<Vector>, i: nat)
    requires i < |pending|
    reads pending[i]
  {
    var from := Offset(pending, i);
    && from + |pending[i].chunks| <= |vectors|
    && pending[i].chunkVectors == vectors[from..from + |pending[i].chunks|]
  }

  /** The request loop of main: on success every input holds one vector per chunk. */
  method EmbedPending(pending: seq<PendingInput>, caps: Caps, service: Service, dimensions: nat)
    returns (requests: Result<nat>, batches: seq<Batch>)
    requires Distinct(pending)
    requires forall item :: item in pending ==> item.chunkVectors == []
    modifies pending
    ensures Splits(batches, Flat(pending), caps) && Full(batches, caps)
    ensures match Answers(service, batches, dimensions)
            case Err(message) => requests == Err(message)
            case Ok(vectors) =>
              && requests == Ok(|batches|) && |vectors| == |Flat(pending)|
              && forall i :: 0 <= i < |pending| ==> Held(pending, vectors, i)
  {
    hide Sendable, Full;
    batches := BatchedChunks(pending, caps);
    ghost var done: Batch, earlier: seq<Vector> := [], [];
    for k := 0 to |batches|
      invariant done == Concat(batches[..k]) && Answers(service, batches[..k], dimensions) == Ok(earlier)
      invariant forall item :: item in pending ==> item.chunkVectors == Routed(done, earlier, item)
    {
      var batch := batches[k];
      assert batches[..k + 1][..k] == batches[..k] && batches[..k + 1][k] == batch;
      var vectors := BatchVectors(service(k, Texts(batch)), |batch|, dimensions);
      if vectors.Err? {
        FirstErrorStays(service, batches, k + 1, dimensions);
        return Err(vectors.message), batches;
      }
      ComesFromPending(pending, batches, k);
      RouteBatch(pending, batch, vectors.value, done, earlier);
      done, earlier := done + batch, earlier + vectors.value;
    }
    assert batches[..|batches|] == batches;
    requests := Ok(|batches|);
    forall i | 0 <= i < |pending| ensures Held(pending, earlier, i) {
      RoutedIsAStretch(pending, earlier, i);
    }
  }

  lemma {:induction false} FirstErrorStays(service: Service, batches: seq<Batch>, k: nat, dimensions: nat)
    requires k <= |batches| && Answers(service, batches[..k], dimensions).Err?
    ensures Answers(service, batches, dimensions) == Answers(service, batches[..k], dimensions)
    decreases |batches|
  {
    var init := if batches == [] then [] else batches[..|batches| - 1];
    if k < |batches| {
      assert init[..k] == batches[..k];
      FirstErrorStays(service, init, k, dimensions);
    } else {
      assert batches[..k] == batches;
    }
  }

  lemma {:induction false} ComesFromPending(pending: seq<PendingInput>, batches: seq<Batch>, k: nat)
    requires k < |batches| && Concat(batches) == Flat(pending)
    ensures forall e :: e in batches[k] ==> e.item in pending
  {
    assert batches == batches[..k] + [batches[k]] + batches[k + 1..];
    ConcatAppend(batches[..k] + [batches[k]], batches[k + 1..]);
    ConcatGrows(batches[..k], batches[k]);
    FlatIsFromPending(pending);
    assert forall e :: e in batches[k] ==> e in Flat(pending);
  }

  lemma {:induction false} FlatIsFromPending(pending: seq<PendingInput>)
    ensures forall e :: e in Flat(pending) ==> e.item in pending
  {
    if pending != [] {
      FlatIsFromPending(pending[..|pending| - 1]);
    }
  }

  lemma {:induction false} RoutedAppend(a: Batch, b: Batch, v: seq<Vector>, w: seq<Vector>, item: PendingInput)
    requires |a| == |v| && |b| == |w|
    ensures Routed(a + b, v + w, item) == Routed(a, v, item) + Routed(b, w, item)
  {
    if b == [] {
      assert a + b == a && v + w == v;
    } else {
      var n := |b| - 1;
      RoutedAppend(a, b[..n], v, w[..n], item);
      assert (a + b)[..|a + b| - 1] == a + b[..n] && (v + w)[..|a + b| - 1] == v + w[..n];
    }
  }

  lemma {:induction false} RoutedToOne(entries: Batch, vectors: seq<Vector>, item: PendingInput)
    requires |entries| == |vectors|
    ensures (forall e :: e in entries ==> e.item == item) ==> Routed(entries, vectors, item) == vectors
    ensures (forall e :: e in entries ==> e.item != item) ==> Routed(entries, vectors, item) == []
  {
    if entries != [] {
      var n := |entries| - 1;
      RoutedToOne(entries[..n], vectors[..n], item);
      assert entries[n] in entries && vectors == vectors[..n] + [vectors[n]];
    }
  }

  lemma {:induction false} FlatAppend(a: seq<PendingInput>, b: seq<PendingInput>)
    ensures Flat(a + b) == Flat(a) + Flat(b)
  {
    if b == [] {
      assert a + b == a;
    } else {
      FlatAppend(a, b[..|b| - 1]);
      assert (a + b)[..|a + b| - 1] == a + b[..|b| - 1];
    }
  }

  lemma FlatOneMore(pending: seq<PendingInput>, i: nat)
    requires i < |pending|
    ensures Flat(pending[..i + 1]) == Flat(pending[..i]) + EntriesOf(pending[i])
  {
    hide EntriesOf;
    Slices.TakeOfTake(pending, i, i + 1);
  }

  lemma {:induction false} FlatAround(pending: seq<PendingInput>, i: nat)
    requires i < |pending|
    ensures Flat(pending) == Flat(pending[..i]) + EntriesOf(pending[i]) + Flat(pending[i + 1..])
  {
    var upTo := pending[..i + 1];
    FlatOneMore(pending, i);
    hide *;
    Slices.TwoParts(pending, i + 1);
    FlatAppend(upTo, pending[i + 1..]);
  }

  /** Routing by identity gives each input exactly the stretch of the vectors that its chunks
      take up in the request list. */
  lemma RoutedIsAStretch(pending: seq<PendingInput>, vectors: seq<Vector>, i: nat)
    requires Distinct(pending) && i < |pending| && |vectors| == |Flat(pending)|
    ensures var from := Offset(pending, i);
            && from + |pending[i].chunks| <= |vectors|
            && Routed(Flat(pending), vectors, pending[i]) == vectors[from..from + |pending[i].chunks|]
  {
    var (item, from, to) := (pending[i], Offset(pending, i), Offset(pending, i) + |pending[i].chunks|);
    var (before, own, after) := (Flat(pending[..i]), EntriesOf(item), Flat(pending[i + 1..]));
    FlatAround(pending, i);
    FlatIsFromPending(pending[..i]);
    FlatIsFromPending(pending[i + 1..]);
    assert forall other :: other in pending[..i] || other in pending[i + 1..] ==> other != item;
    assert |own| == |item.chunks| && (forall e :: e in own ==> e.item == item) && from == |before|;
    hide *;
    Slices.ThreeParts(vectors, from, to);
    RoutedAppend(before + own, after, vectors[..from] + vectors[from..to], vectors[to..], item);
    RoutedAppend(before, own, vectors[..from], vectors[from..to], item);
    RoutedToOne(before, vectors[..from], item);
    RoutedToOne(own, vectors[from..to], item);
    RoutedToOne(after, vectors[to..], item);
  }

  // ---------------------------------------------------------------- honest answers, in any order

  function IndexOf(data: Data): (index: int) {
    data.index
  }

  /** The service answered every text once, under the text's own index; the order is free. */
  ghost predicate Honest(answer: Option<seq<Data>>, texts: seq<string>, embed: string -> Vector, dimensions: nat) {
    && answer.Some? && |answer.value| == |texts|
    && (forall d :: d in answer.value ==>
         0 <= d.index < |texts| && d.embedding == embed(texts[d.index]) && |d.embedding| == dimensions)
    && DistinctKeys(answer.value, IndexOf)
  }

  /** What each entry should get. */
  function Wanted(entries: Batch, embed: string -> Vector): (vectors: seq<Vector>)
    ensures |vectors| == |entries| && forall k :: 0 <= k < |entries| ==> vectors[k] == embed(entries[k].chunk.text)
  {
    seq(|entries|, k requires 0 <= k < |entries| => embed(entries[k].chunk.text))
  }

  lemma WantedAppend(a: Batch, b: Batch, embed: string -> Vector)
    ensures Wanted(a + b, embed) == Wanted(a, embed) + Wanted(b, embed)
  {
  }

  /** Sorting puts an honest answer in the order of the texts. */
  lemma HonestAnswerIsSortedBack(answer: Option<seq<Data>>, batch: Batch, embed: string -> Vector, dimensions: nat)
    requires Honest(answer, Texts(batch), embed, dimensions)
    ensures BatchVectors(answer, |batch|, dimensions) == Ok(Wanted(batch, embed))
  {
    var (data, ordered) := (answer.value, SortBy(answer.value, ByIndex));
    SortingSorts(data, ByIndex);
    RearrangedKeysStayDistinct(data, ordered, IndexOf);
    StrictlyByIndex(ordered);
    hide SortBy, Ascending, DistinctKeys;
    forall k | 0 <= k < |ordered| ensures ordered[k] in data {
      assert ordered[k] in multiset(ordered);
    }
    Pigeons(ordered);
    hide Ascending, DistinctKeys;
    assert forall k :: 0 <= k < |ordered| ==> ordered[k].embedding == embed(batch[k].chunk.text);
    assert Embeddings(ordered) == Wanted(batch, embed);
  }

  /** The answer re-ordered: all of it, by its indexes, and the vectors in that order. */
  ghost predicate InIndexOrder(data: seq<Data>, ordered: seq<Data>, vectors: seq<Vector>) {
    && multiset(ordered) == multiset(data) && |ordered| == |vectors|
    && (forall i, j :: 0 <= i < j < |ordered| ==> ordered[i].index <= ordered[j].index)
    && (forall k :: 0 <= k < |ordered| ==> vectors[k] == ordered[k].embedding)
  }

  /** Any answer: taken exactly if it has one vector of the right size for each text, and then in the
      order of its indexes; otherwise the run stops. */
  lemma AnswersAreTakenExactly(answer: Option<seq<Data>>, size: nat, dimensions: nat)
    ensures BatchVectors(answer, size, dimensions).Ok?
            <==> answer.Some? && |answer.value| == size && forall d :: d in answer.value ==> |d.embedding| == dimensions
    ensures BatchVectors(answer, size, dimensions).Ok? ==>
              exists ordered :: InIndexOrder(answer.value, ordered, BatchVectors(answer, size, dimensions).value)
  {
    if answer.Some? {
      var ordered := SortBy(answer.value, ByIndex);
      SortingSorts(answer.value, ByIndex);
      hide SortBy, Ascending;
      var r := BatchVectors(answer, size, dimensions);
      if r.Ok? {
        ByIndexMeans(ordered);
        assert InIndexOrder(answer.value, ordered, r.value);
      }
    }
  }

  lemma ByIndexMeans(ordered: seq<Data>)
    requires Ascending(ordered, ByIndex)
    ensures forall i, j :: 0 <= i < j < |ordered| ==> ordered[i].index <= ordered[j].index
  {
    forall i, j | 0 <= i < j < |ordered| ensures ordered[i].index <= ordered[j].index {
      assert ByIndex(ordered[i], ordered[j]);
    }
  }

  lemma StrictlyByIndex(ordered: seq<Data>)
    requires Ascending(ordered, ByIndex) && DistinctKeys(ordered, IndexOf)
    ensures forall i, j :: 0 <= i < j < |ordered| ==> ordered[i].index < ordered[j].index
  {
    forall i, j | 0 <= i < j < |ordered| ensures ordered[i].index < ordered[j].index {
      assert ByIndex(ordered[i], ordered[j]) && IndexOf(ordered[i]) != IndexOf(ordered[j]);
    }
  }

  /** Strictly growing indexes below their number are 0, 1, 2, ... */
  lemma Pigeons(ordered: seq<Data>)
    requires forall i, j :: 0 <= i < j < |ordered| ==> ordered[i].index < ordered[j].index
    requires forall k :: 0 <= k < |ordered| ==> 0 <= ordered[k].index < |ordered|
    ensures forall k :: 0 <= k < |ordered| ==> ordered[k].index == k
  {
    for k := 0 to |ordered|
      invariant forall i :: 0 <= i < k ==> ordered[i].index >= i
    {
      assert k > 0 ==> ordered[k - 1].index < ordered[k].index;
    }
    for k := |ordered| downto 0
      invariant forall i :: k <= i < |ordered| ==> ordered[i].index <= i
    {
      assert k + 1 < |ordered| ==> ordered[k].index < ordered[k + 1].index;
    }
  }

  ghost predicate AllHonest(service: Service, batches: seq<Batch>, embed: string -> Vector, dimensions: nat) {
    forall k {:trigger batches[k]} :: 0 <= k < |batches| ==>
       Honest(service(k, Texts(batches[k])), Texts(batches[k]), embed, dimensions)
  }

  /** However the requests were cut and whatever order the answers came in: vector k is the
      embedding of the k-th chunk of the request list. */
  lemma {:induction false} HonestServiceEmbedsEveryChunk(service: Service, batches: seq<Batch>,
                                                         embed: string -> Vector, dimensions: nat)
    requires AllHonest(service, batches, embed, dimensions)
    ensures Answers(service, batches, dimensions) == Ok(Wanted(Concat(batches), embed))
  {
    if batches != [] {
      var n := |batches| - 1;
      assert AllHonest(service, batches[..n], embed, dimensions) by {
        assert forall k :: 0 <= k < n ==> batches[..n][k] == batches[k];
      }
      HonestServiceEmbedsEveryChunk(service, batches[..n], embed, dimensions);
      HonestAnswerIsSortedBack(service(n, Texts(batches[n])), batches[n], embed, dimensions);
      hide Honest, BatchVectors, Wanted, AllHonest;
      WantedAppend(Concat(batches[..n]), batches[n], embed);
    }
  }

  lemma SplitsConcat(batches: seq<Batch>, entries: Batch, caps: Caps)
    requires Splits(batches, entries, caps)
    ensures Concat(batches) == entries
  {
  }

  /** Batching is invisible: with an honest service, chunk k of input i gets its own embedding. */
  lemma {:induction false} EveryChunkGetsItsVector(pending: seq<PendingInput>, batches: seq<Batch>, caps: Caps,
                                                   service: Service,
                                embed: string -> Vector, dimensions: nat, i: nat, k: nat)
    requires Splits(batches, Flat(pending), caps) && AllHonest(service, batches, embed, dimensions)
    requires i < |pending| && k < |pending[i].chunks|
    ensures var vectors := Answers(service, batches, dimensions);
            && vectors.Ok? && Offset(pending, i) + k < |vectors.value|
            && vectors.value[Offset(pending, i) + k] == embed(pending[i].chunks[k].text)
  {
    HonestServiceEmbedsEveryChunk(service, batches, embed, dimensions);
    FlatAround(pending, i);
    hide Flat, Answers, Sendable, AllHonest, Concat;
    SplitsConcat(batches, Flat(pending), caps);
    var entry := EntriesOf(pending[i])[k];
    assert entry.chunk == pending[i].chunks[k];
    hide EntriesOf;
    assert Flat(pending)[Offset(pending, i) + k] == entry;
  }
}
