/** The `log2bag` program: drive a log reader to its end, copy what it hands out into a bag. */
module Log2Bag {
  import opened Basics
  import opened ByteCodec
  import opened LogFormat
  import opened LogReading

  datatype RosMessage<RM, VM> = RosReferee(referee: RM) | RosVision(vision: VM)

  datatype BagMessage<RM, VM> =
    BagMessage(message: RosMessage<RM, VM>, topic: string, typeName: string, time: int)

  /** `fromProto` for the two translated message types. */
  datatype Converter<!R, !V, RM, VM> = Converter(referee: R -> RM, vision: V -> VM)

  const REFEREE_TOPIC := "/referee_messages"
  const REFEREE_TYPE := "ssl_league_msgs/msg/Referee"
  const VISION_TOPIC := "/vision_messages"
  const VISION_TYPE := "ssl_league_msgs/msg/VisionWrapper"

  /** The one bag message that stands for a log entry. */
  function BagMessageOf<R, V, RM, VM>(c: Converter<R, V, RM, VM>, entry: LogEntry<R, V>)
    : BagMessage<RM, VM>
    requires !entry.message.Nothing?
  {
    match entry.message
    case RefereeMessage(m) =>
      BagMessage(RosReferee(c.referee(m)), REFEREE_TOPIC, REFEREE_TYPE, entry.receivedTimeNs)
    case VisionMessage(m) =>
      BagMessage(RosVision(c.vision(m)), VISION_TOPIC, VISION_TYPE, entry.receivedTimeNs)
  }

  /** One bag message per entry, in the same order. */
  ghost predicate Mirrors<R, V, RM, VM>(c: Converter<R, V, RM, VM>, bag: seq<BagMessage<RM, VM>>,
                                        entries: seq<LogEntry<R, V>>)
  {
    && |bag| == |entries|
    && forall i | 0 <= i < |entries| ::
         !entries[i].message.Nothing? && bag[i] == BagMessageOf(c, entries[i])
  }

  // ---------------------------------------------------------------------------------------------
  // Progress bar
  // ---------------------------------------------------------------------------------------------

  const TWO_64: int := 0x1_0000_0000_0000_0000
  const BAR_WIDTH: nat := 20

  datatype Bar = Bar(filled: nat, blank: nat, percent: nat)

  /** `(bytes_read * 100) / bytes_total` in 64-bit unsigned arithmetic. */
  function Percent(bytesRead: nat, bytesTotal: nat): nat
    requires bytesTotal > 0
  {
    bytesRead * 100 % TWO_64 / bytesTotal
  }

  lemma ProductIsMonotone(a: nat, b: nat, d: nat)
    requires a <= b
    ensures a * d <= b * d
  {
    assert (b - a) * d >= 0;
  }

  lemma QuotientAtMost(n: nat, d: nat, q: nat)
    requires d > 0 && n < (q + 1) * d
    ensures n / d <= q
  {
    if n / d > q {
      ProductIsMonotone(q + 1, n / d, d);
      assert false;
    }
  }

  lemma QuotientIsMonotone(m: nat, n: nat, d: nat)
    requires d > 0 && m <= n
    ensures m / d <= n / d
  {
    QuotientAtMost(m, d, n / d);
  }

  /** Without a wrap, percent is the whole hundredths of the file that have been read. */
  lemma PercentIsFloor(bytesRead: nat, bytesTotal: nat)
    requires 0 < bytesTotal && bytesRead <= bytesTotal && bytesTotal * 100 < TWO_64
    ensures Percent(bytesRead, bytesTotal) * bytesTotal <= bytesRead * 100
    ensures bytesRead * 100 < (Percent(bytesRead, bytesTotal) + 1) * bytesTotal
    ensures Percent(bytesRead, bytesTotal) == 100 <==> bytesRead == bytesTotal
  {
    assert bytesRead * 100 % TWO_64 == bytesRead * 100;
    PercentInRange(bytesRead, bytesTotal);
    var p := Percent(bytesRead, bytesTotal);
    assert p * bytesTotal + bytesRead * 100 % bytesTotal == bytesRead * 100;
    if p < 100 {
      ProductIsMonotone(p + 1, 100, bytesTotal);
    }
  }

  /** Even where the product wraps around, a position inside the file stays within 100 percent. */
  lemma PercentInRange(bytesRead: nat, bytesTotal: nat)
    requires 0 < bytesTotal && bytesRead <= bytesTotal
    ensures Percent(bytesRead, bytesTotal) <= 100
  {
    assert bytesRead * 100 % TWO_64 <= bytesTotal * 100;
    QuotientAtMost(bytesRead * 100 % TWO_64, bytesTotal, 100);
  }

  lemma PercentGrowsWithoutWrap(p: nat, q: nat, bytesTotal: nat)
    requires 0 < bytesTotal && p <= q <= bytesTotal && bytesTotal * 100 < TWO_64
    ensures Percent(p, bytesTotal) <= Percent(q, bytesTotal)
  {
    assert p * 100 % TWO_64 == p * 100 && q * 100 % TWO_64 == q * 100;
    QuotientIsMonotone(p * 100, q * 100, bytesTotal);
  }

  /** The last position before the product wraps. */
  const LAST_BEFORE_WRAP: nat := 184467440737095516

  lemma PercentDropsAtWrap(bytesTotal: nat)
    requires 0 < bytesTotal < TWO_63 && TWO_64 <= bytesTotal * 100
    ensures LAST_BEFORE_WRAP + 1 <= bytesTotal
    ensures Percent(LAST_BEFORE_WRAP, bytesTotal) > Percent(LAST_BEFORE_WRAP + 1, bytesTotal)
  {
    assert LAST_BEFORE_WRAP * 100 % TWO_64 == 18446744073709551600;
    assert (LAST_BEFORE_WRAP + 1) * 100 % TWO_64 == 84;
    QuotientAtMost(84, bytesTotal, 0);
    QuotientIsMonotone(bytesTotal, 18446744073709551600, bytesTotal);
  }

  /** A file size is a non-negative `off_t`: below 2^63. */
  lemma PercentNeverDropsIff(bytesTotal: nat)
    requires 0 < bytesTotal < TWO_63
    ensures (forall p: nat, q: nat | p <= q <= bytesTotal ::
               Percent(p, bytesTotal) <= Percent(q, bytesTotal))
            <==> bytesTotal * 100 < TWO_64
  {
    if bytesTotal * 100 < TWO_64 {
      forall p: nat, q: nat | p <= q <= bytesTotal
        ensures Percent(p, bytesTotal) <= Percent(q, bytesTotal)
      {
        PercentGrowsWithoutWrap(p, q, bytesTotal);
      }
    } else {
      PercentDropsAtWrap(bytesTotal);
    }
  }

  lemma BarCells(percent: nat)
    requires percent <= 100
    ensures var filled := percent * BAR_WIDTH % TWO_64 / 100;
            5 * filled <= percent < 5 * (filled + 1) && filled + (BAR_WIDTH - filled) % TWO_64 == BAR_WIDTH
  {
    assert percent * BAR_WIDTH % TWO_64 == percent * 20;
    assert 0 <= BAR_WIDTH - percent * 20 / 100 < TWO_64;
  }

  method RenderProgressBar(bytesRead: nat, bytesTotal: nat) returns (bar: Bar)
    requires 0 < bytesTotal < TWO_64 && bytesRead < TWO_64
    ensures bar.percent == Percent(bytesRead, bytesTotal)
    ensures bytesRead <= bytesTotal ==>
      && bar.percent <= 100
      && bar.filled + bar.blank == 20
      && 5 * bar.filled <= bar.percent < 5 * (bar.filled + 1)
  {
    var percent := bytesRead * 100 % TWO_64 / bytesTotal;
    var numFilledChars := percent * BAR_WIDTH % TWO_64 / 100;
    bar := Bar(numFilledChars, (BAR_WIDTH - numFilledChars) % TWO_64, percent);
    if bytesRead <= bytesTotal {
      PercentInRange(bytesRead, bytesTotal);
      BarCells(percent);
    }
  }

  // ---------------------------------------------------------------------------------------------
  // Driver
  // ---------------------------------------------------------------------------------------------

  class Writer<RM, VM> {
    var messages: seq<BagMessage<RM, VM>>

    constructor ()
      ensures messages == []
    {
      messages := [];
    }

    method Write(message: RosMessage<RM, VM>, topic: string, typeName: string, time: int)
      modifies this
      ensures messages == old(messages) + [BagMessage(message, topic, typeName, time)]
    {
      messages := messages + [BagMessage(message, topic, typeName, time)];
    }
  }

  function HeldReferee<R, V>(message: Message<R, V>): Option<R> {
    if message.RefereeMessage? then Some(message.referee) else None
  }

  function HeldVision<R, V>(message: Message<R, V>): Option<V> {
    if message.VisionMessage? then Some(message.vision) else None
  }

  /** Writes the message of an entry if it is of the wanted type, and does nothing otherwise. */
  method WriteMessageIfExists<R, V, P, RM, VM>(
      entry: LogEntry<R, V>, get: Message<R, V> -> Option<P>, fromProto: P -> RosMessage<RM, VM>,
      topic: string, typeName: string, writer: Writer<RM, VM>)
    modifies writer
    ensures writer.messages == old(writer.messages) +
      match get(entry.message)
      case None => []
      case Some(m) => [BagMessage(fromProto(m), topic, typeName, entry.receivedTimeNs)]
  {
    var held := get(entry.message);
    if held == None {
      return;
    }
    writer.Write(fromProto(held.value), topic, typeName, entry.receivedTimeNs);
  }

  method WriteEntry<R, V, RM, VM>(c: Converter<R, V, RM, VM>, entry: LogEntry<R, V>, writer: Writer<RM, VM>)
    requires !entry.message.Nothing?
    modifies writer
    ensures writer.messages == old(writer.messages) + [BagMessageOf(c, entry)]
  {
    WriteMessageIfExists(entry, HeldReferee<R, V>, m => RosReferee(c.referee(m)),
                         REFEREE_TOPIC, REFEREE_TYPE, writer);
    WriteMessageIfExists(entry, HeldVision<R, V>, m => RosVision(c.vision(m)),
                         VISION_TOPIC, VISION_TYPE, writer);
  }

  datatype Report<RM, VM> =
    Report(bag: seq<BagMessage<RM, VM>>, bars: seq<Bar>, typeStats: map<EntryType, nat>)

  ghost predicate BarsInRange(bars: seq<Bar>) {
    forall i | 0 <= i < |bars| :: bars[i].percent <= 100 && bars[i].filled + bars[i].blank == BAR_WIDTH
  }

  ghost predicate BarsNeverDrop(bars: seq<Bar>) {
    forall i, j | 0 <= i <= j < |bars| :: bars[i].percent <= bars[j].percent
  }

  /** What holds of the bars drawn up to a position in a file of a given size. */
  ghost predicate DrawnUpTo(bars: seq<Bar>, position: nat, size: nat)
    requires size > 0
  {
    && BarsInRange(bars)
    && (size * 100 < TWO_64 ==>
          BarsNeverDrop(bars) && forall i | 0 <= i < |bars| :: bars[i].percent <= Percent(position, size))
  }

  lemma DrawOneMore(bars: seq<Bar>, position: nat, next: nat, size: nat, bar: Bar)
    requires 0 < size && position <= next <= size && DrawnUpTo(bars, position, size)
    requires bar.percent == Percent(next, size) && bar.filled + bar.blank == BAR_WIDTH
    ensures DrawnUpTo(bars + [bar], next, size)
  {
    PercentInRange(next, size);
    if size * 100 < TWO_64 {
      PercentGrowsWithoutWrap(position, next, size);
    }
  }

  /** The body of the main loop: draw the bar, then write the entry. */
  method HandleEntry<R, V, RM, VM>(
      entry: LogEntry<R, V>, stream: InputStream, size: nat, c: Converter<R, V, RM, VM>,
      writer: Writer<RM, VM>, bars: seq<Bar>, ghost last: nat, ghost written: seq<LogEntry<R, V>>)
    returns (more: seq<Bar>)
    requires !entry.message.Nothing? && !stream.fail && last <= stream.pos <= size && 0 < size < TWO_63
    requires DrawnUpTo(bars, last, size) && Mirrors(c, writer.messages, written) && |bars| == |written|
    modifies writer
    ensures |more| == |bars| + 1 && DrawnUpTo(more, stream.pos, size)
    ensures Mirrors(c, writer.messages, written + [entry])
  {
    var position := stream.Tell();
    var bar := RenderProgressBar(position, size);
    DrawOneMore(bars, last, position, size, bar);
    more := bars + [bar];
    WriteEntry(c, entry, writer);
  }

  /** The main loop: a bar and a bag message for every entry, until the reader has no more. */
  method TranslateAll<R, V, RM, VM>(reader: LogReader<R, V>, size: nat, c: Converter<R, V, RM, VM>)
    returns (bag: seq<BagMessage<RM, VM>>, bars: seq<Bar>)
    requires reader.Valid() && reader.stream.pos <= |reader.stream.bytes| == size && 0 < size < TWO_63
    modifies reader, reader.stream
    ensures reader.Valid()
    ensures Mirrors(c, bag, Entries(old(reader.Ahead()).records))
    ensures reader.seen == old(reader.seen) + Kinds(old(reader.Ahead()).records)
    ensures |bars| == |bag|
    ensures BarsInRange(bars) && (size * 100 < TWO_64 ==> BarsNeverDrop(bars))
  {
    var stream := reader.stream;
    var writer := new Writer<RM, VM>();
    bars := [];
    ghost var goal := Entries(reader.Ahead().records);
    ghost var goalKinds := reader.seen + Kinds(reader.Ahead().records);
    ghost var written: seq<LogEntry<R, V>> := [];
    ghost var last: nat := stream.pos;
    while true
      invariant reader.Valid() && fresh(writer) && last <= stream.pos
      invariant goal == written + Entries(reader.Ahead().records)
      invariant goalKinds == reader.seen + Kinds(reader.Ahead().records)
      invariant Mirrors(c, writer.messages, written)
      invariant |bars| == |written| && DrawnUpTo(bars, last, size)
      decreases size - stream.pos
    {
      var entry := reader.GetNextMessage();
      if entry == None {
        break;
      }
      bars := HandleEntry(entry.value, stream, size, c, writer, bars, last, written);
      last := stream.pos;
      ConcatIsAssociative(written, [entry.value], Entries(reader.Ahead().records));
      written := written + [entry.value];
    }
    assert written + [] == written;
    bag := writer.messages;
  }

  /** All the counters together. */
  function Total(typeStats: map<EntryType, nat>): nat
    requires forall kind: EntryType :: kind in typeStats
  {
    typeStats[Blank] + typeStats[Unknown] + typeStats[Vision2010] + typeStats[Refbox2013] + typeStats[Vision2014]
    + typeStats[VisionTracker2020] + typeStats[Index2021]
  }

  /**
   The whole program on a file that does not change while it runs.  It fails exactly when the file
   does not start with the log header; otherwise the bag mirrors the entries the parser finds, in
   log order, the printed statistics together count every header but the unrecognised ones, and what
   they count beyond the bag did not decode or is the one entry at the end whose payload never arrived.
   */
  method Run<R, V, RM, VM>(file: Bytes, decoder: Decoder<R, V>, c: Converter<R, V, RM, VM>)
    returns (report: Outcome<Report<RM, VM>, Exception>)
    requires |file| < TWO_63
    ensures report.Success? <==> FILE_HEADER <= file
    ensures report.Success? ==>
      var log := Parse(decoder, file[HEADER_SIZE..]);
      && Mirrors(c, report.value.bag, Entries(log.records))
      && |report.value.bars| == |report.value.bag|
      && BarsInRange(report.value.bars)
      && (|file| * 100 < TWO_64 ==> BarsNeverDrop(report.value.bars))
      && (forall kind: EntryType :: kind in report.value.typeStats
                                    && report.value.typeStats[kind] == CountOf(kind, Kinds(log.records)))
      && Total(report.value.typeStats) + UnrecognisedHeaders(log.records) == |log.records|
      && report.value.typeStats[Refbox2013] + report.value.typeStats[Vision2014]
         == |report.value.bag| + ParseFailures(log.records) + LostPayloads(log)
  {
    Conservation(decoder, if HEADER_SIZE <= |file| then file[HEADER_SIZE..] else []);
    var stream := new InputStream(file);
    assert stream.Rest() == file;
    var outcome := LogReader<R, V>.Open(stream, decoder);
    if outcome.Failure? {
      return Failure(outcome.error);
    }
    var reader := outcome.value;
    var bag, bars := TranslateAll(reader, |file|, c);
    report := Success(Report(bag, bars, reader.counts));
    CountsSumToHeaders(Parse(decoder, file[HEADER_SIZE..]).records);
  }
}
