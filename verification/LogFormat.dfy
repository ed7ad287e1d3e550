/**
 The SSL log format as `log_reader.cpp` reads it: a recursive parser over the bytes that are left,
 a writer for well-formed logs, and what the first makes of the output of the second, whole, cut
 short, or damaged.
 */
module LogFormat {
  import opened Basics
  import opened ByteCodec

  const HEADER_SIZE: nat := 16

  /** "SSL_LOG_FILE" followed by the big-endian version number 1. */
  const FILE_HEADER: Bytes :=
    [83, 83, 76, 95, 76, 79, 71, 95, 70, 73, 76, 69, 0, 0, 0, 1]

  /** What the 16 bytes spell: the name of the format and its version. */
  lemma FileHeaderSpellsName()
    ensures |FILE_HEADER| == HEADER_SIZE == 16
    ensures forall i | 0 <= i < 12 :: FILE_HEADER[i] == "SSL_LOG_FILE"[i] as int
    ensures BigEndian(FILE_HEADER[12..]) == 1
  {
    assert FILE_HEADER[12..] == [0, 0, 0] + [1] && [0, 0, 0] == [0, 0] + [0] && [0, 0] == [0] + [0];
    assert BigEndian([0]) == 0 && BigEndian([0, 0]) == 0 && BigEndian([0, 0, 0]) == 0;
  }

  datatype EntryType =
    | Blank | Unknown | Vision2010 | Refbox2013 | Vision2014 | VisionTracker2020 | Index2021

  function TypeOfCode(code: int): Option<EntryType>
  {
    match code
    case 0 => Some(Blank)
    case 1 => Some(Unknown)
    case 2 => Some(Vision2010)
    case 3 => Some(Refbox2013)
    case 4 => Some(Vision2014)
    case 5 => Some(VisionTracker2020)
    case 6 => Some(Index2021)
    case _ => None
  }

  function CodeOfType(kind: EntryType): int {
    match kind
    case Blank => 0
    case Unknown => 1
    case Vision2010 => 2
    case Refbox2013 => 3
    case Vision2014 => 4
    case VisionTracker2020 => 5
    case Index2021 => 6
  }

  /** The types by code. */
  const TYPES: seq<EntryType> :=
    [Blank, Unknown, Vision2010, Refbox2013, Vision2014, VisionTracker2020, Index2021]

  /** Seven codes are known; 3 and 4 are the translated ones, and each type is the type of its code. */
  lemma KnownCodes(code: int, kind: EntryType)
    ensures TypeOfCode(code).Some? <==> 0 <= code <= 6
    ensures TypeOfCode(code).Some? && Translatable(TypeOfCode(code).value) <==> code == 3 || code == 4
    ensures 0 <= code <= 6 ==> TypeOfCode(code) == Some(TYPES[code])
    ensures TypeOfCode(CodeOfType(kind)) == Some(kind)
    ensures TypeOfCode(code).Some? ==> CodeOfType(TypeOfCode(code).value) == code
  {
  }

  predicate Translatable(kind: EntryType) {
    kind == Refbox2013 || kind == Vision2014
  }

  /** The variant held by a log entry; `Nothing` is `std::monostate`. */
  datatype Message<R, V> = Nothing | RefereeMessage(referee: R) | VisionMessage(vision: V)

  datatype LogEntry<R, V> = LogEntry(receivedTimeNs: int, message: Message<R, V>)

  /** `ParseFromArray` for the two message types that are translated: any partial functions. */
  datatype Decoder<R, V> = Decoder(referee: Bytes -> Option<R>, vision: Bytes -> Option<V>)

  function Interpret<R, V>(d: Decoder<R, V>, kind: EntryType, payload: Bytes): Message<R, V> {
    match kind
    case Refbox2013 => (match d.referee(payload) case Some(m) => RefereeMessage(m) case None => Nothing)
    case Vision2014 => (match d.vision(payload) case Some(m) => VisionMessage(m) case None => Nothing)
    case _ => Nothing
  }

  // ---------------------------------------------------------------------------------------------
  // Parsing
  // ---------------------------------------------------------------------------------------------

  datatype Header = Header(time: int, code: int, size: int)

  function DecodeHeader(text: Bytes): Header
    requires |text| == HEADER_SIZE
  {
    Header(CopiedInt(text, 8, 8), CopiedInt(text, 12, 4), CopiedInt(text, 16, 4))
  }

  /** What one 16-byte header led to. */
  datatype Record<R, V> =
    | Unrecognised(code: int)
    | Whole(kind: EntryType, payload: Bytes, entry: LogEntry<R, V>)
    | ShortPayload(kind: EntryType)
    | NegativeSize(kind: EntryType)

  datatype Stop = EndOfStream | ShortHeader | PayloadCutShort | SizeException

  /** One record and the bytes it used, or the reason why nothing can follow. */
  datatype Step<R, V> =
    | Continue(record: Record<R, V>, used: nat)
    | Halt(last: seq<Record<R, V>>, stop: Stop)

  function NextStep<R, V>(d: Decoder<R, V>, bytes: Bytes): (step: Step<R, V>)
    ensures step.Continue? ==> HEADER_SIZE <= step.used <= |bytes|
  {
    if |bytes| == 0 then Halt([], EndOfStream)
    else if |bytes| < HEADER_SIZE then Halt([], ShortHeader)
    else
      var h := DecodeHeader(bytes[..HEADER_SIZE]);
      match TypeOfCode(h.code)
      case None => Continue(Unrecognised(h.code), HEADER_SIZE)
      case Some(kind) =>
        if h.size < 0 then Halt([NegativeSize(kind)], SizeException)
        else if |bytes| < HEADER_SIZE + h.size then Halt([ShortPayload(kind)], PayloadCutShort)
        else
          var payload := bytes[HEADER_SIZE..HEADER_SIZE + h.size];
          Continue(Whole(kind, payload, LogEntry(h.time, Interpret(d, kind, payload))),
                   HEADER_SIZE + h.size)
  }

  datatype Log<R, V> = Log(records: seq<Record<R, V>>, stop: Stop)

  function Parse<R, V>(d: Decoder<R, V>, bytes: Bytes): (log: Log<R, V>)
    decreases |bytes|
  {
    match NextStep(d, bytes)
    case Halt(last, stop) => Log(last, stop)
    case Continue(record, used) =>
      var rest := Parse(d, bytes[used..]);
      Log([record] + rest.records, rest.stop)
  }

  /** How far a reader gets: to the end, or just behind a header that announces a negative size. */
  function BytesRead<R, V>(d: Decoder<R, V>, bytes: Bytes): nat
    decreases |bytes|
  {
    match NextStep(d, bytes)
    case Halt(_, stop) => if stop == SizeException then HEADER_SIZE else |bytes|
    case Continue(_, used) => used + BytesRead(d, bytes[used..])
  }

  function EntryIn<R, V>(record: Record<R, V>): seq<LogEntry<R, V>> {
    if record.Whole? && !record.entry.message.Nothing? then [record.entry] else []
  }

  function KindIn<R, V>(record: Record<R, V>): seq<EntryType> {
    if record.Unrecognised? then [] else [record.kind]
  }

  /** The entries a reader hands out: whole, of a translated type, and decodable. */
  function Entries<R, V>(records: seq<Record<R, V>>): seq<LogEntry<R, V>> {
    if records == [] then [] else EntryIn(records[0]) + Entries(records[1..])
  }

  /** The entry types a reader counts: one for every recognised header. */
  function Kinds<R, V>(records: seq<Record<R, V>>): seq<EntryType> {
    if records == [] then [] else KindIn(records[0]) + Kinds(records[1..])
  }

  /** One step of the parser is one record in front of what the rest of the bytes give. */
  lemma ParseByStep<R, V>(d: Decoder<R, V>, bytes: Bytes)
    ensures NextStep(d, bytes).Continue? ==>
              var record, rest := NextStep(d, bytes).record, Parse(d, bytes[NextStep(d, bytes).used..]);
              && Entries(Parse(d, bytes).records) == EntryIn(record) + Entries(rest.records)
              && Kinds(Parse(d, bytes).records) == KindIn(record) + Kinds(rest.records)
              && Parse(d, bytes).stop == rest.stop
              && BytesRead(d, bytes) == NextStep(d, bytes).used + BytesRead(d, bytes[NextStep(d, bytes).used..])
    ensures NextStep(d, bytes).Halt? ==>
              && Entries(Parse(d, bytes).records) == []
              && Parse(d, bytes) == Log(NextStep(d, bytes).last, NextStep(d, bytes).stop)
  {
    var step := NextStep(d, bytes);
    if step.Continue? {
      assert Parse(d, bytes).records[1..] == Parse(d, bytes[step.used..]).records;
    }
  }

  lemma ConcatIsAssociative<T>(a: seq<T>, b: seq<T>, c: seq<T>)
    ensures (a + b) + c == a + (b + c)
  {
  }

  lemma {:induction false} EntriesOfConcat<R, V>(a: seq<Record<R, V>>, b: seq<Record<R, V>>)
    ensures Entries(a + b) == Entries(a) + Entries(b)
  {
    if a == [] {
      assert a + b == b;
    } else {
      EntriesOfConcat(a[1..], b);
      assert (a + b)[1..] == a[1..] + b;
      ConcatIsAssociative(EntryIn(a[0]), Entries(a[1..]), Entries(b));
    }
  }

  lemma {:induction false} KindsOfConcat<R, V>(a: seq<Record<R, V>>, b: seq<Record<R, V>>)
    ensures Kinds(a + b) == Kinds(a) + Kinds(b)
  {
    if a == [] {
      assert a + b == b;
    } else {
      KindsOfConcat(a[1..], b);
      assert (a + b)[1..] == a[1..] + b;
      ConcatIsAssociative(KindIn(a[0]), Kinds(a[1..]), Kinds(b));
    }
  }

  // ---------------------------------------------------------------------------------------------
  // Writing
  // ---------------------------------------------------------------------------------------------

  datatype RawEntry = RawEntry(time: int, kind: EntryType, payload: Bytes)

  predicate Writable(e: RawEntry) {
    -TWO_63 <= e.time < TWO_63 && |e.payload| < TWO_31
  }

  predicate AllWritable(es: seq<RawEntry>) {
    forall i | 0 <= i < |es| :: Writable(es[i])
  }

  lemma WritableFits(e: RawEntry)
    requires Writable(e)
    ensures Fits(e.time, 8) && Fits(CodeOfType(e.kind), 4) && Fits(|e.payload|, 4)
  {
    PowersOf256();
  }

  function EncodeHeader(time: int, code: int, size: int): (text: Bytes)
    requires Fits(time, 8) && Fits(code, 4) && Fits(size, 4)
    ensures |text| == HEADER_SIZE
  {
    EncodeInt(time, 8) + EncodeInt(code, 4) + EncodeInt(size, 4)
  }

  function EncodeEntry(e: RawEntry): (text: Bytes)
    requires Writable(e)
    ensures |text| == HEADER_SIZE + |e.payload|
  {
    WritableFits(e);
    EncodeHeader(e.time, CodeOfType(e.kind), |e.payload|) + e.payload
  }

  function EncodeEntries(es: seq<RawEntry>): Bytes
    requires AllWritable(es)
  {
    if es == [] then [] else EncodeEntry(es[0]) + EncodeEntries(es[1..])
  }

  function EncodeLog(es: seq<RawEntry>): Bytes
    requires AllWritable(es)
  {
    FILE_HEADER + EncodeEntries(es)
  }

  /** The three copies of the reader take the three fields of a header apart, for every header. */
  lemma DecodeHeaderInvertsEncode(time: int, code: int, size: int)
    requires Fits(time, 8) && Fits(code, 4) && Fits(size, 4)
    ensures DecodeHeader(EncodeHeader(time, code, size)) == Header(time, code, size)
  {
    var text := EncodeHeader(time, code, size);
    assert text[0..8] == EncodeInt(time, 8);
    assert text[8..12] == EncodeInt(code, 4);
    assert text[12..16] == EncodeInt(size, 4);
    CopyInvertsEncode(time, text, 8, 8);
    CopyInvertsEncode(code, text, 12, 4);
    CopyInvertsEncode(size, text, 16, 4);
  }

  /** The three copies cover all 16 bytes: every header is the encoding of what is read from it. */
  lemma EncodeHeaderInvertsDecode(text: Bytes)
    requires |text| == HEADER_SIZE
    ensures var h := DecodeHeader(text);
            Fits(h.time, 8) && Fits(h.code, 4) && Fits(h.size, 4)
            && EncodeHeader(h.time, h.code, h.size) == text
  {
    EncodeInvertsCopy(text, 8, 8);
    EncodeInvertsCopy(text, 12, 4);
    EncodeInvertsCopy(text, 16, 4);
    assert text == text[0..8] + text[8..12] + text[12..16];
  }

  // ---------------------------------------------------------------------------------------------
  // Round trip
  // ---------------------------------------------------------------------------------------------

  function RecordOf<R, V>(d: Decoder<R, V>, e: RawEntry): Record<R, V> {
    Whole(e.kind, e.payload, LogEntry(e.time, Interpret(d, e.kind, e.payload)))
  }

  function RecordsOf<R, V>(d: Decoder<R, V>, es: seq<RawEntry>): (records: seq<Record<R, V>>)
    ensures |records| == |es|
    ensures forall i | 0 <= i < |es| :: records[i] == RecordOf(d, es[i])
  {
    seq(|es|, i requires 0 <= i < |es| => RecordOf(d, es[i]))
  }

  /** One encoded entry is read back as itself, whatever its payload and whatever follows it. */
  lemma StepReadsEncodedEntry<R, V>(d: Decoder<R, V>, e: RawEntry, rest: Bytes)
    requires Writable(e)
    ensures NextStep(d, EncodeEntry(e) + rest) == Continue(RecordOf(d, e), |EncodeEntry(e)|)
  {
    WritableFits(e);
    var bytes := EncodeEntry(e) + rest;
    var head := EncodeHeader(e.time, CodeOfType(e.kind), |e.payload|);
    DecodeHeaderInvertsEncode(e.time, CodeOfType(e.kind), |e.payload|);
    assert bytes == head + (e.payload + rest);
    assert bytes[..HEADER_SIZE] == head;
    assert bytes[HEADER_SIZE..HEADER_SIZE + |e.payload|] == e.payload;
  }

  /** When the next step goes on, the rest of the log is what is parsed after the bytes it used. */
  lemma ParseContinues<R, V>(d: Decoder<R, V>, head: Bytes, tail: Bytes, record: Record<R, V>)
    requires NextStep(d, head + tail) == Continue(record, |head|)
    ensures Parse(d, head + tail) == Log([record] + Parse(d, tail).records, Parse(d, tail).stop)
  {
    assert (head + tail)[|head|..] == tail;
  }

  lemma {:induction false} ParseEncodedEntries<R, V>(d: Decoder<R, V>, es: seq<RawEntry>, rest: Bytes)
    requires AllWritable(es)
    ensures var after := Parse(d, rest);
            Parse(d, EncodeEntries(es) + rest) == Log(RecordsOf(d, es) + after.records, after.stop)
  {
    var after := Parse(d, rest);
    if es == [] {
      assert EncodeEntries(es) + rest == rest;
      assert RecordsOf(d, es) + after.records == after.records;
    } else {
      var head, tail := EncodeEntry(es[0]), EncodeEntries(es[1..]) + rest;
      ConcatIsAssociative(head, EncodeEntries(es[1..]), rest);
      StepReadsEncodedEntry(d, es[0], tail);
      ParseContinues(d, head, tail, RecordOf(d, es[0]));
      ParseEncodedEntries(d, es[1..], rest);
      ConcatIsAssociative([RecordOf(d, es[0])], RecordsOf(d, es[1..]), after.records);
      RecordsOfCons(d, es);
    }
  }

  lemma RecordsOfCons<R, V>(d: Decoder<R, V>, es: seq<RawEntry>)
    requires es != []
    ensures RecordsOf(d, es) == [RecordOf(d, es[0])] + RecordsOf(d, es[1..])
  {
  }

  /** Reading a written log gives back every entry, in order, and ends at the end of the stream. */
  lemma RoundTrip<R, V>(d: Decoder<R, V>, es: seq<RawEntry>)
    requires AllWritable(es)
    ensures Parse(d, EncodeEntries(es)) == Log(RecordsOf(d, es), EndOfStream)
  {
    ParseEncodedEntries(d, es, []);
    assert EncodeEntries(es) + [] == EncodeEntries(es);
    assert Parse(d, []) == Log([], EndOfStream);
  }

  // ---------------------------------------------------------------------------------------------
  // Truncation
  // ---------------------------------------------------------------------------------------------

  /** Where entry k starts, counted from the first entry. */
  function Offset(es: seq<RawEntry>, k: nat): nat
    requires k <= |es| && AllWritable(es)
  {
    |EncodeEntries(es[..k])|
  }

  lemma {:induction false} EncodeEntriesOfConcat(a: seq<RawEntry>, b: seq<RawEntry>)
    requires AllWritable(a) && AllWritable(b)
    ensures AllWritable(a + b)
    ensures EncodeEntries(a + b) == EncodeEntries(a) + EncodeEntries(b)
  {
    if a == [] {
      assert a + b == b;
    } else {
      EncodeEntriesOfConcat(a[1..], b);
      assert (a + b)[1..] == a[1..] + b;
      ConcatIsAssociative(EncodeEntry(a[0]), EncodeEntries(a[1..]), EncodeEntries(b));
    }
  }

  lemma OffsetOfNext(es: seq<RawEntry>, k: nat)
    requires AllWritable(es) && k < |es|
    ensures Offset(es, k + 1) == Offset(es, k) + |EncodeEntry(es[k])|
  {
    EncodeEntriesOfConcat(es[..k], [es[k]]);
    assert es[..k + 1] == es[..k] + [es[k]];
    assert EncodeEntries([es[k]]) == EncodeEntry(es[k]) + EncodeEntries([]);
  }

  /** Every cut falls inside exactly one entry, or at the very end. */
  lemma CutFallsInSomeEntry(es: seq<RawEntry>, n: nat) returns (k: nat)
    requires AllWritable(es) && n <= |EncodeEntries(es)|
    ensures k <= |es| && Offset(es, k) <= n
    ensures if k == |es| then n == Offset(es, k) else n < Offset(es, k + 1)
  {
    k := 0;
    while k < |es| && Offset(es, k + 1) <= n
      invariant k <= |es| && Offset(es, k) <= n
    {
      k := k + 1;
    }
    assert es[..|es|] == es;
  }

  /** A log whose last entry is cut inside, leaving `part` of it. */
  lemma ParsePartialEntry<R, V>(d: Decoder<R, V>, e: RawEntry, part: Bytes)
    requires Writable(e) && |part| < |EncodeEntry(e)| && part == EncodeEntry(e)[..|part|]
    ensures Parse(d, part) ==
      if |part| == 0 then Log([], EndOfStream)
      else if |part| < HEADER_SIZE then Log([], ShortHeader)
      else Log([ShortPayload(e.kind)], PayloadCutShort)
  {
    if HEADER_SIZE <= |part| {
      WritableFits(e);
      DecodeHeaderInvertsEncode(e.time, CodeOfType(e.kind), |e.payload|);
      assert part[..HEADER_SIZE] == EncodeHeader(e.time, CodeOfType(e.kind), |e.payload|);
    }
  }

  /** A log cut inside entry k is the entries before k and a proper part of entry k. */
  lemma CutPart(es: seq<RawEntry>, n: nat, k: nat) returns (part: Bytes)
    requires AllWritable(es) && n <= |EncodeEntries(es)|
    requires k <= |es| && Offset(es, k) <= n
    requires if k == |es| then n == Offset(es, k) else n < Offset(es, k + 1)
    ensures EncodeEntries(es)[..n] == EncodeEntries(es[..k]) + part
    ensures |part| == n - Offset(es, k)
    ensures k < |es| ==> |part| < |EncodeEntry(es[k])| && part == EncodeEntry(es[k])[..|part|]
  {
    assert es == es[..k] + es[k..];
    EncodeEntriesOfConcat(es[..k], es[k..]);
    part := EncodeEntries(es[k..])[..n - Offset(es, k)];
    CutOfConcat(EncodeEntries(es[..k]), EncodeEntries(es[k..]), n);
    if k < |es| {
      OffsetOfNext(es, k);
      CutInsideFirst(EncodeEntry(es[k]), EncodeEntries(es[k..][1..]), |part|);
    }
  }

  lemma CutOfConcat<T>(a: seq<T>, b: seq<T>, n: nat)
    requires |a| <= n <= |a| + |b|
    ensures (a + b)[..n] == a + b[..n - |a|]
  {
  }

  lemma CutInsideFirst<T>(a: seq<T>, b: seq<T>, n: nat)
    requires n <= |a|
    ensures (a + b)[..n] == a[..n]
  {
  }

  /**
   A well-formed log cut anywhere, inside entry k: what comes out is exactly the entries before k,
   and entry k is counted when, and only when, its own header survived the cut.
   */
  lemma Truncation<R, V>(d: Decoder<R, V>, es: seq<RawEntry>, n: nat, k: nat)
    requires AllWritable(es) && n <= |EncodeEntries(es)|
    requires k <= |es| && Offset(es, k) <= n
    requires if k == |es| then n == Offset(es, k) else n < Offset(es, k + 1)
    ensures var log := Parse(d, EncodeEntries(es)[..n]);
            var part := n - Offset(es, k);
            && log.records == RecordsOf(d, es[..k])
                              + (if part < HEADER_SIZE then [] else [ShortPayload(es[k].kind)])
            && log.stop == (if part == 0 then EndOfStream
                            else if part < HEADER_SIZE then ShortHeader else PayloadCutShort)
  {
    var part := CutPart(es, n, k);
    ParseEncodedEntries(d, es[..k], part);
    if k < |es| {
      ParsePartialEntry(d, es[k], part);
    }
  }

  /** A step that goes on within the first n bytes is the same step of the whole. */
  lemma StepWithinCut<R, V>(d: Decoder<R, V>, bytes: Bytes, n: nat)
    requires n <= |bytes| && NextStep(d, bytes[..n]).Continue?
    ensures NextStep(d, bytes) == NextStep(d, bytes[..n])
  {
    var cut, used := bytes[..n], NextStep(d, bytes[..n]).used;
    assert cut[..HEADER_SIZE] == bytes[..HEADER_SIZE];
    assert cut[HEADER_SIZE..used] == bytes[HEADER_SIZE..used];
  }

  /** A step that stops within the first n bytes hands out nothing, and counts no more than the whole. */
  lemma StopWithinCut<R, V>(d: Decoder<R, V>, bytes: Bytes, n: nat)
    requires n <= |bytes| && NextStep(d, bytes[..n]).Halt?
    ensures Entries(Parse(d, bytes[..n]).records) == []
    ensures Kinds(Parse(d, bytes[..n]).records) <= Kinds(Parse(d, bytes).records)
  {
    ParseByStep(d, bytes[..n]);
    if HEADER_SIZE <= n {
      assert bytes[..n][..HEADER_SIZE] == bytes[..HEADER_SIZE];
    }
  }

  lemma PrefixAfterConcat<T>(head: seq<T>, a: seq<T>, b: seq<T>)
    requires a <= b
    ensures head + a <= head + b
  {
  }

  /** Cutting any byte string, well-formed or not, only takes results away from the end. */
  lemma {:induction false} CutKeepsPrefix<R, V>(d: Decoder<R, V>, bytes: Bytes, n: nat)
    requires n <= |bytes|
    ensures Entries(Parse(d, bytes[..n]).records) <= Entries(Parse(d, bytes).records)
    ensures Kinds(Parse(d, bytes[..n]).records) <= Kinds(Parse(d, bytes).records)
    decreases |bytes|
  {
    var step := NextStep(d, bytes[..n]);
    if step.Halt? {
      StopWithinCut(d, bytes, n);
    } else {
      StepWithinCut(d, bytes, n);
      ParseByStep(d, bytes[..n]);
      ParseByStep(d, bytes);
      CutKeepsPrefix(d, bytes[step.used..], n - step.used);
      assert bytes[step.used..][..n - step.used] == bytes[..n][step.used..];
      var cutRest, rest := Parse(d, bytes[..n][step.used..]).records, Parse(d, bytes[step.used..]).records;
      PrefixAfterConcat(EntryIn(step.record), Entries(cutRest), Entries(rest));
      PrefixAfterConcat(KindIn(step.record), Kinds(cutRest), Kinds(rest));
    }
  }

  // ---------------------------------------------------------------------------------------------
  // What the driver gets
  // ---------------------------------------------------------------------------------------------

  /** What an entry of a log is worth to a caller: a referee or vision message, if it decodes. */
  function HandedOut<R, V>(d: Decoder<R, V>, e: RawEntry): seq<LogEntry<R, V>> {
    if e.kind == Refbox2013 && d.referee(e.payload).Some? then
      [LogEntry(e.time, RefereeMessage(d.referee(e.payload).value))]
    else if e.kind == Vision2014 && d.vision(e.payload).Some? then
      [LogEntry(e.time, VisionMessage(d.vision(e.payload).value))]
    else []
  }

  function AllHandedOut<R, V>(d: Decoder<R, V>, es: seq<RawEntry>): seq<LogEntry<R, V>> {
    if es == [] then [] else HandedOut(d, es[0]) + AllHandedOut(d, es[1..])
  }

  function KindsOf(es: seq<RawEntry>): (kinds: seq<EntryType>)
    ensures |kinds| == |es| && forall i | 0 <= i < |es| :: kinds[i] == es[i].kind
  {
    seq(|es|, i requires 0 <= i < |es| => es[i].kind)
  }

  lemma RecordGivesEntry<R, V>(d: Decoder<R, V>, e: RawEntry)
    ensures EntryIn(RecordOf(d, e)) == HandedOut(d, e) && KindIn(RecordOf(d, e)) == [e.kind]
  {
  }

  lemma {:induction false} RecordsGiveEntries<R, V>(d: Decoder<R, V>, es: seq<RawEntry>)
    ensures Entries(RecordsOf(d, es)) == AllHandedOut(d, es)
    ensures Kinds(RecordsOf(d, es)) == KindsOf(es)
  {
    if es != [] {
      RecordsGiveEntries(d, es[1..]);
      RecordGivesEntry(d, es[0]);
      RecordsOfCons(d, es);
      ProjectionsOfCons(RecordOf(d, es[0]), RecordsOf(d, es[1..]));
      assert KindsOf(es) == [es[0].kind] + KindsOf(es[1..]);
    }
  }

  lemma ProjectionsOfCons<R, V>(record: Record<R, V>, rest: seq<Record<R, V>>)
    ensures Entries([record] + rest) == EntryIn(record) + Entries(rest)
    ensures Kinds([record] + rest) == KindIn(record) + Kinds(rest)
  {
    assert ([record] + rest)[1..] == rest;
  }

  /**
   Round trip: for every list of entries, a full read returns exactly the referee and vision
   messages that decode, in order and with their times, and counts every entry.
   */
  lemma ReadingWhatWasWritten<R, V>(d: Decoder<R, V>, es: seq<RawEntry>)
    requires AllWritable(es)
    ensures var log := Parse(d, EncodeLog(es)[HEADER_SIZE..]);
            && Entries(log.records) == AllHandedOut(d, es)
            && Kinds(log.records) == KindsOf(es)
            && log.stop == EndOfStream
    ensures FILE_HEADER <= EncodeLog(es)
  {
    RoundTrip(d, es);
    RecordsGiveEntries(d, es);
    assert EncodeLog(es)[HEADER_SIZE..] == EncodeEntries(es);
  }

  lemma CutEntryIsOnlyCounted<R, V>(d: Decoder<R, V>, es: seq<RawEntry>, k: nat)
    requires k < |es|
    ensures var records := RecordsOf(d, es[..k]) + [ShortPayload(es[k].kind)];
            Entries(records) == AllHandedOut(d, es[..k]) && Kinds(records) == KindsOf(es[..k + 1])
  {
    var last: seq<Record<R, V>> := [ShortPayload(es[k].kind)];
    RecordsGiveEntries(d, es[..k]);
    EntriesOfConcat(RecordsOf(d, es[..k]), last);
    KindsOfConcat(RecordsOf(d, es[..k]), last);
    assert Kinds(last) == [es[k].kind] + Kinds(last[1..]);
    assert KindsOf(es[..k + 1]) == KindsOf(es[..k]) + [es[k].kind];
  }

  lemma CutGivesEntries<R, V>(d: Decoder<R, V>, es: seq<RawEntry>, n: nat, k: nat)
    requires AllWritable(es) && n <= |EncodeEntries(es)|
    requires k <= |es| && Offset(es, k) <= n
    requires if k == |es| then n == Offset(es, k) else n < Offset(es, k + 1)
    ensures var log := Parse(d, EncodeEntries(es)[..n]);
            && Entries(log.records) == AllHandedOut(d, es[..k])
            && Kinds(log.records) == KindsOf(HeadersInside(es, n, k))
            && log.stop != SizeException
  {
    Truncation(d, es, n, k);
    if n - Offset(es, k) < HEADER_SIZE {
      RecordsGiveEntries(d, es[..k]);
      assert RecordsOf(d, es[..k]) + [] == RecordsOf(d, es[..k]);
    } else {
      CutEntryIsOnlyCounted(d, es, k);
    }
  }

  /** For a cut that falls into entry k: the entries whose 16-byte header is inside the cut. */
  function HeadersInside(es: seq<RawEntry>, n: nat, k: nat): seq<RawEntry>
    requires AllWritable(es) && k <= |es|
  {
    if k < |es| && Offset(es, k) + HEADER_SIZE <= n then es[..k + 1] else es[..k]
  }

  /** A log cut at any byte still opens exactly when its 16-byte header is inside the cut. */
  lemma CutLogOpensIff(es: seq<RawEntry>, n: nat)
    requires AllWritable(es) && n <= |EncodeLog(es)|
    ensures FILE_HEADER <= EncodeLog(es)[..n] <==> HEADER_SIZE <= n
    ensures HEADER_SIZE <= n ==> EncodeLog(es)[..n][HEADER_SIZE..] == EncodeEntries(es)[..n - HEADER_SIZE]
  {
  }

  /**
   When it opens, the messages of the entries wholly inside the cut are returned, in order, and the
   entries whose header is inside are counted.
   */
  lemma ReadingWhatWasCut<R, V>(d: Decoder<R, V>, es: seq<RawEntry>, n: nat) returns (k: nat)
    requires AllWritable(es) && HEADER_SIZE <= n <= |EncodeLog(es)|
    ensures k <= |es| && Offset(es, k) <= n - HEADER_SIZE
    ensures k < |es| ==> n - HEADER_SIZE < Offset(es, k + 1)
    ensures var log := Parse(d, EncodeLog(es)[..n][HEADER_SIZE..]);
            && Entries(log.records) == AllHandedOut(d, es[..k])
            && Kinds(log.records) == KindsOf(HeadersInside(es, n - HEADER_SIZE, k))
            && log.stop != SizeException
  {
    CutLogOpensIff(es, n);
    k := CutFallsInSomeEntry(es, n - HEADER_SIZE);
    CutGivesEntries(d, es, n - HEADER_SIZE, k);
  }

  // ---------------------------------------------------------------------------------------------
  // Entries of a type the reader does not know
  // ---------------------------------------------------------------------------------------------

  /** Nothing but 16-byte blocks that do not carry a known type. */
  predicate UnrecognisedBlocks(bytes: Bytes)
    decreases |bytes|
  {
    |bytes| == 0 ||
    (HEADER_SIZE <= |bytes|
     && TypeOfCode(DecodeHeader(bytes[..HEADER_SIZE]).code) == None
     && UnrecognisedBlocks(bytes[HEADER_SIZE..]))
  }

  /** The reader consumes only the header of an entry whose type it does not know. */
  lemma UnknownTypeConsumesHeaderOnly<R, V>(d: Decoder<R, V>, time: int, code: int, size: int, rest: Bytes)
    requires Fits(time, 8) && Fits(code, 4) && Fits(size, 4) && (code < 0 || code > 6)
    ensures var after := Parse(d, rest);
            Parse(d, EncodeHeader(time, code, size) + rest)
            == Log([Unrecognised(code)] + after.records, after.stop)
  {
    DecodeHeaderInvertsEncode(time, code, size);
    var bytes := EncodeHeader(time, code, size) + rest;
    assert bytes[..HEADER_SIZE] == EncodeHeader(time, code, size);
    assert bytes[HEADER_SIZE..] == rest;
  }

  /** A recognised header that announces a negative size is counted and ends the run. */
  lemma NegativeSizeStops<R, V>(d: Decoder<R, V>, time: int, kind: EntryType, size: int, rest: Bytes)
    requires Fits(time, 8) && Fits(CodeOfType(kind), 4) && Fits(size, 4) && size < 0
    ensures Parse(d, EncodeHeader(time, CodeOfType(kind), size) + rest)
            == Log([NegativeSize(kind)], SizeException)
  {
    DecodeHeaderInvertsEncode(time, CodeOfType(kind), size);
    var bytes := EncodeHeader(time, CodeOfType(kind), size) + rest;
    assert bytes[..HEADER_SIZE] == EncodeHeader(time, CodeOfType(kind), size);
  }

  /** Too few bytes for a header are nothing but the end. */
  lemma ShortTailStops<R, V>(d: Decoder<R, V>, bytes: Bytes)
    requires |bytes| < HEADER_SIZE
    ensures Parse(d, bytes) == Log([], if bytes == [] then EndOfStream else ShortHeader)
  {
  }

  /** What the driver can observe of a run: entries, counts and the reason for stopping. */
  predicate SameOutcome<R(==), V(==)>(a: Log<R, V>, b: Log<R, V>) {
    Entries(a.records) == Entries(b.records) && Kinds(a.records) == Kinds(b.records) && a.stop == b.stop
  }

  lemma {:induction false} BlocksAreSkipped<R, V>(d: Decoder<R, V>, payload: Bytes, rest: Bytes)
    requires UnrecognisedBlocks(payload)
    ensures SameOutcome(Parse(d, payload + rest), Parse(d, rest))
    decreases |payload|
  {
    var bytes := payload + rest;
    if payload == [] {
      assert bytes == rest;
    } else {
      assert bytes[..HEADER_SIZE] == payload[..HEADER_SIZE];
      assert bytes[HEADER_SIZE..] == payload[HEADER_SIZE..] + rest;
      BlocksAreSkipped(d, payload[HEADER_SIZE..], rest);
    }
  }

  lemma {:induction false} SilentRunIsBlocks<R, V>(d: Decoder<R, V>, payload: Bytes)
    requires Kinds(Parse(d, payload).records) == [] && Parse(d, payload).stop == EndOfStream
    ensures UnrecognisedBlocks(payload)
    decreases |payload|
  {
    if payload != [] && HEADER_SIZE <= |payload| {
      var step := NextStep(d, payload);
      if step.Continue? {
        SilentRunIsBlocks(d, payload[step.used..]);
      }
    }
  }

  /**
   An entry of unknown type is skipped, as the format intends, exactly when its payload is made of
   16-byte blocks that do not look like headers of a known type.
   */
  lemma UnknownPayloadSkippedIff<R(!new), V(!new)>(d: Decoder<R, V>, payload: Bytes)
    ensures (forall rest: Bytes :: SameOutcome(Parse(d, payload + rest), Parse(d, rest)))
            <==> UnrecognisedBlocks(payload)
  {
    if UnrecognisedBlocks(payload) {
      forall rest: Bytes
        ensures SameOutcome(Parse(d, payload + rest), Parse(d, rest))
      {
        BlocksAreSkipped(d, payload, rest);
      }
    }
    if forall rest: Bytes :: SameOutcome(Parse(d, payload + rest), Parse(d, rest)) {
      assert SameOutcome(Parse(d, payload + []), Parse(d, []));
      assert payload + [] == payload;
      SilentRunIsBlocks(d, payload);
    }
  }

  lemma EncodedEntryFits(e: RawEntry)
    requires Writable(e) && |EncodeEntry(e)| < TWO_31
    ensures Fits(|EncodeEntry(e)|, 4)
  {
    PowersOf256();
  }

  /** A whole entry hidden in the payload of an unknown one is handed out as if it were in the log. */
  lemma UnknownPayloadCanBeReadAsEntry<R, V>(d: Decoder<R, V>, time: int, code: int, hidden: RawEntry, rest: Bytes)
    requires Fits(time, 8) && Fits(code, 4) && (code < 0 || code > 6)
    requires Writable(hidden) && |EncodeEntry(hidden)| < TWO_31
    ensures Fits(|EncodeEntry(hidden)|, 4)
    ensures var after := Parse(d, rest);
            Parse(d, EncodeHeader(time, code, |EncodeEntry(hidden)|) + EncodeEntry(hidden) + rest)
            == Log([Unrecognised(code), RecordOf(d, hidden)] + after.records, after.stop)
  {
    EncodedEntryFits(hidden);
    HiddenEntryIsRead(d, time, code, |EncodeEntry(hidden)|, hidden, rest);
  }

  lemma HiddenEntryIsRead<R, V>(d: Decoder<R, V>, time: int, code: int, size: int, hidden: RawEntry, rest: Bytes)
    requires Fits(time, 8) && Fits(code, 4) && Fits(size, 4) && (code < 0 || code > 6) && Writable(hidden)
    ensures var after := Parse(d, rest);
            Parse(d, EncodeHeader(time, code, size) + EncodeEntry(hidden) + rest)
            == Log([Unrecognised(code), RecordOf(d, hidden)] + after.records, after.stop)
  {
    UnknownTypeConsumesHeaderOnly(d, time, code, size, EncodeEntry(hidden) + rest);
    StepReadsEncodedEntry(d, hidden, rest);
    ParseContinues(d, EncodeEntry(hidden), rest, RecordOf(d, hidden));
    TwoRecords(d, EncodeHeader(time, code, size), EncodeEntry(hidden), rest, Unrecognised(code), RecordOf(d, hidden));
  }

  lemma TwoRecords<R, V>(d: Decoder<R, V>, a: Bytes, b: Bytes, rest: Bytes, first: Record<R, V>, second: Record<R, V>)
    requires Parse(d, a + (b + rest)) == Log([first] + Parse(d, b + rest).records, Parse(d, b + rest).stop)
    requires Parse(d, b + rest) == Log([second] + Parse(d, rest).records, Parse(d, rest).stop)
    ensures Parse(d, a + b + rest) == Log([first, second] + Parse(d, rest).records, Parse(d, rest).stop)
  {
    ConcatIsAssociative(a, b, rest);
    ConcatIsAssociative([first], [second], Parse(d, rest).records);
  }

  // ---------------------------------------------------------------------------------------------
  // Conservation
  // ---------------------------------------------------------------------------------------------

  predicate FailedToParse<R, V>(record: Record<R, V>) {
    record.Whole? && Translatable(record.kind) && record.entry.message.Nothing?
  }

  /** Whole entries of a translated type whose payload did not decode. */
  function ParseFailures<R, V>(records: seq<Record<R, V>>): nat {
    if records == [] then 0
    else (if FailedToParse(records[0]) then 1 else 0) + ParseFailures(records[1..])
  }

  /** Entries of a translated type that were counted although their payload never arrived. */
  function LostPayloads<R, V>(log: Log<R, V>): nat {
    if log.stop in {PayloadCutShort, SizeException} && log.records != []
       && !log.records[|log.records| - 1].Unrecognised?
       && Translatable(log.records[|log.records| - 1].kind)
    then 1 else 0
  }

  function CountOf(kind: EntryType, kinds: seq<EntryType>): nat {
    multiset(kinds)[kind]
  }

  /** Headers of a type that the driver translates. */
  function TranslatableCount(kinds: seq<EntryType>): nat {
    CountOf(Refbox2013, kinds) + CountOf(Vision2014, kinds)
  }

  /** Only the last header of a log can be one that made the reader stop. */
  lemma {:induction false} OnlyLastRecordStops<R, V>(d: Decoder<R, V>, bytes: Bytes)
    ensures var log := Parse(d, bytes);
            && (forall i | 0 <= i < |log.records| - 1 :: log.records[i].Unrecognised? || log.records[i].Whole?)
            && (log.stop == PayloadCutShort <==>
                  log.records != [] && log.records[|log.records| - 1].ShortPayload?)
            && (log.stop == SizeException <==>
                  log.records != [] && log.records[|log.records| - 1].NegativeSize?)
    decreases |bytes|
  {
    var step := NextStep(d, bytes);
    if step.Continue? {
      OnlyLastRecordStops(d, bytes[step.used..]);
    }
  }

  /**
   Every header of a translated type that was counted is accounted for: it was handed out, or its
   payload did not decode, or it is the one at the end whose payload never arrived.
   */
  lemma {:induction false} Conservation<R, V>(d: Decoder<R, V>, bytes: Bytes)
    ensures var log := Parse(d, bytes);
            TranslatableCount(Kinds(log.records))
            == |Entries(log.records)| + ParseFailures(log.records) + LostPayloads(log)
    decreases |bytes|
  {
    var step := NextStep(d, bytes);
    var log := Parse(d, bytes);
    if step.Continue? {
      var rest := Parse(d, bytes[step.used..]);
      Conservation(d, bytes[step.used..]);
      OnlyLastRecordStops(d, bytes[step.used..]);
      RecordIsAccountedFor(d, bytes);
      assert log.records[1..] == rest.records;
      assert LostPayloads(log) == LostPayloads(rest);
    } else if log.records != [] {
      assert log.records[1..] == [];
      assert Kinds(log.records) == KindIn(log.records[0]) + [];
    }
  }

  lemma RecordIsAccountedFor<R, V>(d: Decoder<R, V>, bytes: Bytes)
    requires NextStep(d, bytes).Continue?
    ensures var record := NextStep(d, bytes).record;
            TranslatableCount(KindIn(record))
            == |EntryIn(record)| + if FailedToParse(record) then 1 else 0
  {
  }

  function SumOfCounts(kinds: seq<EntryType>): nat {
    CountOf(Blank, kinds) + CountOf(Unknown, kinds) + CountOf(Vision2010, kinds)
    + TranslatableCount(kinds)
    + CountOf(VisionTracker2020, kinds) + CountOf(Index2021, kinds)
  }

  lemma {:induction false} CountsSumToLength(kinds: seq<EntryType>)
    ensures SumOfCounts(kinds) == |kinds|
  {
    if kinds != [] {
      CountsSumToLength(kinds[1..]);
      assert kinds == [kinds[0]] + kinds[1..];
      assert multiset(kinds) == multiset{kinds[0]} + multiset(kinds[1..]);
      match kinds[0] {
        case Blank => case Unknown => case Vision2010 => case Refbox2013 => case Vision2014 =>
        case VisionTracker2020 => case Index2021 =>
      }
    }
  }

  /** Headers of a type that the reader does not know. */
  function UnrecognisedHeaders<R, V>(records: seq<Record<R, V>>): nat {
    if records == [] then 0
    else (if records[0].Unrecognised? then 1 else 0) + UnrecognisedHeaders(records[1..])
  }

  /** Every header that was read is counted once, by one of the seven counters, or was not recognised. */
  lemma CountsSumToHeaders<R, V>(records: seq<Record<R, V>>)
    ensures SumOfCounts(Kinds(records)) + UnrecognisedHeaders(records) == |records|
  {
    KindsAreRecognised(records);
    CountsSumToLength(Kinds(records));
  }

  lemma {:induction false} KindsAreRecognised<R, V>(records: seq<Record<R, V>>)
    ensures |Kinds(records)| + UnrecognisedHeaders(records) == |records|
  {
    if records != [] {
      KindsAreRecognised(records[1..]);
    }
  }
}
