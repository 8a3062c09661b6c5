/** What goes through a double-mapped pipe (OSTask/pipes.c), over whole runs: all there is to a state are the
    bytes of its memory and two 32-bit words. */
module PipeStreams {
  import opened PipeIndices

  datatype Stream = Stream(memory: seq<Byte>, writeIndex: nat, readIndex: nat)

  function Size(s: Stream): nat { |s.memory| }

  /** data_in_pipe and space_in_pipe */
  function Data(s: Stream): nat { (s.writeIndex - s.readIndex) % WRAP }
  function Space(s: Stream): int { Size(s) - Data(s) }

  /** A pipe of a size that does not divide 2^32 is all right as long as the indices have not wrapped. */
  predicate Ok(s: Stream) {
    && 0 < Size(s) < WRAP && s.writeIndex < WRAP && s.readIndex < WRAP && Data(s) <= Size(s)
    && (WRAP % Size(s) == 0 || s.readIndex <= s.writeIndex)
  }

  /** So it is with the indices of a pipe through which w bytes have gone in, and r out. */
  lemma FromCounts(memory: seq<Byte>, w: nat, r: nat)
    requires 0 < |memory| < WRAP && 0 <= w - r <= |memory| && (WRAP % |memory| == 0 || w < WRAP)
    ensures Ok(Stream(memory, w % WRAP, r % WRAP)) && Data(Stream(memory, w % WRAP, r % WRAP)) == w - r
  {
    Difference(w, r);
  }

  /** The byte k places into what an end sees from its index on, through the doubled mapping */
  function Place(index: nat, size: nat, k: nat): (p: nat)
    requires size > 0
    ensures p < size
  {
    (index % size + k) % size
  }

  function Seen(s: Stream, index: nat, n: nat): (bytes: seq<Byte>)
    requires Size(s) > 0
    ensures |bytes| == n
  {
    SeenIn(s.memory, index, n)
  }

  function SeenIn(memory: seq<Byte>, index: nat, n: nat): (bytes: seq<Byte>)
    requires |memory| > 0
    ensures |bytes| == n && forall k :: 0 <= k < n ==> bytes[k] == memory[Place(index, |memory|, k)]
  {
    seq(n, k requires 0 <= k < n => memory[Place(index, |memory|, k)])
  }

  /** The sender writes a byte k places into its space, or tells that n bytes are filled; the receiver tells
      that it has read n bytes. */
  datatype Event = Put(k: nat, byte: Byte) | Filled(n: nat) | Consumed(n: nat)

  predicate Enabled(s: Stream, e: Event) {
    match e
    case Put(k, _) => k < Space(s)
    case Filled(n) => n <= Space(s) && (Size(s) > 0 ==> WRAP % Size(s) == 0 || s.writeIndex + n < WRAP)
    case Consumed(n) => n <= Data(s)
  }

  function Step(s: Stream, e: Event): Stream
    requires Size(s) > 0
  {
    match e
    case Put(k, b) => s.(memory := s.memory[Place(s.writeIndex, Size(s), k) := b])
    case Filled(n) => s.(writeIndex := (s.writeIndex + n) % WRAP)
    case Consumed(n) => s.(readIndex := (s.readIndex + n) % WRAP)
  }

  /** What a step commits, and what it hands over */
  function Sent(s: Stream, e: Event): seq<Byte>
    requires Ok(s)
  {
    if e.Filled? then Seen(s, s.writeIndex, e.n) else []
  }

  function Got(s: Stream, e: Event): seq<Byte>
    requires Ok(s)
  {
    if e.Consumed? then Seen(s, s.readIndex, e.n) else []
  }

  function Unread(s: Stream): seq<Byte>
    requires Ok(s)
  {
    Seen(s, s.readIndex, Data(s))
  }

  /** The place k on from the sum of an index and n, which may have wrapped, is the place n + k on from it. */
  lemma PlaceFurther(index: nat, n: nat, size: nat, k: nat)
    requires 0 < size && (WRAP % size == 0 || index + n < WRAP)
    ensures Place((index + n) % WRAP, size, k) == Place(index, size, n + k)
  {
    WrapIsHarmless(index + n, size);
    SamePlace((index + n) % WRAP, index + n, size, k);
    FromStart(index + n, index + n + k, size, k);
    FromStart(index, index + n + k, size, n + k);
  }

  lemma SamePlace(a: nat, b: nat, size: nat, k: nat)
    requires 0 < size && a % size == b % size
    ensures Place(a, size, k) == Place(b, size, k)
  {
  }

  lemma FromStart(index: nat, end: nat, size: nat, k: nat)
    requires 0 < size && end == index + k
    ensures Place(index, size, k) == end % size
  {
    ModFrom(index, k, size);
  }

  /** The write index is the read index and the data. */
  lemma WriteIndexIs(s: Stream)
    requires Ok(s)
    ensures s.writeIndex == (s.readIndex + Data(s)) % WRAP
  {
  }

  /** No place of the space is one of unread data. */
  lemma SpaceIsApart(s: Stream, j: nat, k: nat)
    requires Ok(s) && j < Data(s) && k < Space(s)
    ensures Place(s.writeIndex, Size(s), k) != Place(s.readIndex, Size(s), j)
  {
    WriteIndexIs(s);
    PlaceFurther(s.readIndex, Data(s), Size(s), k);
    var a := s.readIndex % Size(s);
    Apart(a + Data(s) + k, a + j, Size(s));
  }

  lemma PutStep(s: Stream, k: nat, b: Byte)
    requires Ok(s) && k < Space(s)
    ensures Ok(Step(s, Put(k, b))) && Unread(Step(s, Put(k, b))) == Unread(s)
  {
    forall j: nat | j < Data(s) ensures Unread(Step(s, Put(k, b)))[j] == Unread(s)[j] {
      SpaceIsApart(s, j, k);
    }
  }

  lemma DataAfter(s: Stream, n: nat)
    requires Ok(s)
    ensures Enabled(s, Filled(n)) ==> Ok(Step(s, Filled(n))) && Data(Step(s, Filled(n))) == Data(s) + n
    ensures n <= Data(s) ==> Ok(Step(s, Consumed(n))) && Data(Step(s, Consumed(n))) == Data(s) - n
  {
    Indices(s.writeIndex, s.readIndex, n);
  }

  lemma Indices(w: nat, r: nat, n: nat)
    requires w < WRAP && r < WRAP
    ensures r <= w ==> (w - r) % WRAP == w - r
    ensures w + n < WRAP ==> (w + n) % WRAP == w + n
    ensures r <= w && n <= w - r ==> (r + n) % WRAP == r + n
    ensures (w - r) % WRAP + n < WRAP ==> ((w + n) % WRAP - r) % WRAP == (w - r) % WRAP + n
    ensures n <= (w - r) % WRAP ==> (w - (r + n) % WRAP) % WRAP == (w - r) % WRAP - n
  {
  }

  /** What is seen from an index on is what is seen of the first n places, and then from the index n on. */
  lemma SeenSplits(memory: seq<Byte>, index: nat, n: nat, m: nat)
    requires |memory| > 0 && (WRAP % |memory| == 0 || index + n < WRAP)
    ensures SeenIn(memory, index, n + m) == SeenIn(memory, index, n) + SeenIn(memory, (index + n) % WRAP, m)
  {
    var all, rest := SeenIn(memory, index, n + m), SeenIn(memory, (index + n) % WRAP, m);
    forall k: nat | k < m ensures all[n..][k] == rest[k] {
      PlaceFurther(index, n, |memory|, k);
    }
    assert all[n..] == rest && all[..n] == SeenIn(memory, index, n);
  }

  lemma FilledStep(s: Stream, n: nat)
    requires Ok(s) && Enabled(s, Filled(n))
    ensures Ok(Step(s, Filled(n))) && Unread(Step(s, Filled(n))) == Unread(s) + Sent(s, Filled(n))
  {
    DataAfter(s, n);
    WriteIndexIs(s);
    DataDoesNotWrap(s);
    SeenSplits(s.memory, s.readIndex, Data(s), n);
  }

  lemma ConsumedStep(s: Stream, n: nat)
    requires Ok(s) && n <= Data(s)
    ensures Ok(Step(s, Consumed(n))) && Unread(s) == Got(s, Consumed(n)) + Unread(Step(s, Consumed(n)))
  {
    DataAfter(s, n);
    NoWrap(s, n);
    SeenSplits(s.memory, s.readIndex, n, Data(s) - n);
  }

  lemma DataDoesNotWrap(s: Stream)
    requires Ok(s)
    ensures WRAP % Size(s) == 0 || s.readIndex + Data(s) < WRAP
  {
    Indices(s.writeIndex, s.readIndex, 0);
  }

  lemma NoWrap(s: Stream, n: nat)
    requires Ok(s) && n <= Data(s)
    ensures WRAP % Size(s) == 0 || s.readIndex + n < WRAP
  {
    Indices(s.writeIndex, s.readIndex, n);
  }

  lemma StepKeepsStream(s: Stream, e: Event)
    requires Ok(s) && Enabled(s, e)
    ensures Ok(Step(s, e)) && Unread(s) + Sent(s, e) == Got(s, e) + Unread(Step(s, e))
  {
    match e
    case Put(k, b) => PutStep(s, k, b);
    case Filled(n) => FilledStep(s, n);
    case Consumed(n) => ConsumedStep(s, n);
  }

  // ----- runs

  predicate IsRun(s: Stream, es: seq<Event>)
    decreases |es|
  {
    Ok(s) && (es == [] || (Enabled(s, es[0]) && IsRun(Step(s, es[0]), es[1..])))
  }

  function End(s: Stream, es: seq<Event>): Stream
    requires IsRun(s, es)
    decreases |es|
  {
    if es == [] then s else End(Step(s, es[0]), es[1..])
  }

  function AllSent(s: Stream, es: seq<Event>): seq<Byte>
    requires IsRun(s, es)
    decreases |es|
  {
    if es == [] then [] else Sent(s, es[0]) + AllSent(Step(s, es[0]), es[1..])
  }

  function AllGot(s: Stream, es: seq<Event>): seq<Byte>
    requires IsRun(s, es)
    decreases |es|
  {
    if es == [] then [] else Got(s, es[0]) + AllGot(Step(s, es[0]), es[1..])
  }

  /** Over a run of any length, however often the indices wrap and whatever the sender writes when: what was
      unread at the start, and then what was sent, is what was received, and then what is unread. */
  lemma {:induction false} BytesInOrder(s: Stream, es: seq<Event>)
    requires IsRun(s, es)
    ensures Ok(End(s, es)) && Unread(s) + AllSent(s, es) == AllGot(s, es) + Unread(End(s, es))
    decreases |es|
  {
    if es != [] {
      var t := Step(s, es[0]);
      StepKeepsStream(s, es[0]);
      BytesInOrder(t, es[1..]);
      Chain(Unread(s), Sent(s, es[0]), Got(s, es[0]), Unread(t), AllSent(t, es[1..]), AllGot(t, es[1..]), Unread(End(t, es[1..])));
    }
  }

  lemma Chain(u: seq<Byte>, sent: seq<Byte>, got: seq<Byte>, v: seq<Byte>, moreSent: seq<Byte>,
        moreGot: seq<Byte>, w: seq<Byte>)
    requires u + sent == got + v && v + moreSent == moreGot + w
    ensures u + (sent + moreSent) == got + moreGot + w
  {
    assert u + (sent + moreSent) == u + sent + moreSent;
    assert got + v + moreSent == got + (v + moreSent);
    assert got + (moreGot + w) == got + moreGot + w;
  }

  /** So from an empty pipe the receiver gets exactly the bytes sent, in order, but for those it has yet to read. */
  lemma ReceivedIsSent(s: Stream, es: seq<Event>)
    requires IsRun(s, es) && Data(s) == 0
    ensures Ok(End(s, es)) && AllSent(s, es) == AllGot(s, es) + Unread(End(s, es))
  {
    BytesInOrder(s, es);
    NothingBefore(Unread(s), AllSent(s, es));
  }

  lemma NothingBefore(u: seq<Byte>, sent: seq<Byte>)
    requires u == []
    ensures u + sent == sent
  {
  }
}
