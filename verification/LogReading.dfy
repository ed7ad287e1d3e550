/**
 The reader of `log_reader.cpp` over a `std::istream`: buffers filled in place, a stream position
 and state bits shared between calls, counters incremented in place.
 */
module LogReading {
  import opened Basics
  import opened ByteCodec
  import opened LogFormat

  /** A `std::istream` over a finite source that never goes bad before its end. */
  class InputStream {
    const bytes: Bytes
    var pos: nat
    var eof: bool
    var fail: bool

    constructor (bytes: Bytes)
      ensures this.bytes == bytes && pos == 0 && !eof && !fail
    {
      this.bytes := bytes;
      pos, eof, fail := 0, false, false;
    }

    ghost predicate Valid()
      reads this
    {
      pos <= |bytes|
    }

    ghost predicate Good()
      reads this
    {
      !eof && !fail
    }

    /** The bytes that have not been read. */
    ghost function Rest(): Bytes
      reads this
      requires Valid()
    {
      bytes[pos..]
    }

    /** `read(buffer, n).gcount()`. */
    method Read(buffer: array<byte>, n: nat) returns (gcount: nat)
      requires Valid() && n <= buffer.Length
      modifies this`pos, this`eof, this`fail, buffer
      ensures Valid()
      ensures gcount == if old(Good()) then Min(n, |old(Rest())|) else 0
      ensures pos == old(pos) + gcount
      ensures eof == (old(eof) || (old(Good()) && gcount < n))
      ensures fail == (!old(Good()) || gcount < n)
      ensures buffer[..gcount] == old(Rest())[..gcount]
      ensures buffer[gcount..] == old(buffer[..])[gcount..]
    {
      if eof || fail {
        gcount, fail := 0, true;
        return;
      }
      gcount := Min(n, |bytes| - pos);
      forall i | 0 <= i < gcount {
        buffer[i] := bytes[pos + i];
      }
      pos := pos + gcount;
      if gcount < n {
        eof, fail := true, true;
      }
    }

    /** `tellg()` as the unsigned number that the progress bar receives. */
    function Tell(): (position: nat)
      reads this
    {
      if fail then 0xFFFF_FFFF_FFFF_FFFF else pos
    }
  }

  datatype Exception = NotEnoughBytes | UnsupportedFormat | LengthError

  class LogReader<R, V> {
    const stream: InputStream
    const decoder: Decoder<R, V>
    var counts: map<EntryType, nat>
    /** The type of every recognised header so far. */
    ghost var seen: seq<EntryType>

    ghost predicate Valid()
      reads this, stream
    {
      && stream.Valid()
      && stream.fail == stream.eof
      && (forall kind: EntryType :: kind in counts && counts[kind] == CountOf(kind, seen))
    }

    /** What a recursive parser makes of the bytes this reader has not read. */
    ghost function Ahead(): Log<R, V>
      reads this, stream
      requires Valid()
    {
      if stream.eof then Log([], EndOfStream) else Parse(decoder, stream.Rest())
    }

    /** Where the stream will stand when this reader has found its last entry and nothing more. */
    ghost function Destination(): nat
      reads this, stream
      requires Valid()
    {
      stream.pos + if stream.eof then 0 else BytesRead(decoder, stream.Rest())
    }

    constructor (stream: InputStream, decoder: Decoder<R, V>)
      requires stream.Valid() && stream.Good()
      ensures Valid() && this.stream == stream && this.decoder == decoder && seen == []
    {
      this.stream, this.decoder := stream, decoder;
      counts := map[Blank := 0, Unknown := 0, Vision2010 := 0, Refbox2013 := 0, Vision2014 := 0,
                    VisionTracker2020 := 0, Index2021 := 0];
      seen := [];
      new;
      forall kind: EntryType
        ensures kind in counts && counts[kind] == CountOf(kind, seen)
      {
        match kind {
          case Blank => case Unknown => case Vision2010 => case Refbox2013 => case Vision2014 =>
          case VisionTracker2020 => case Index2021 =>
        }
      }
    }

    static method CheckHeader(stream: InputStream) returns (error: Option<Exception>)
      requires stream.Valid()
      modifies stream
      ensures stream.Valid()
      ensures error ==
        if !old(stream.Good()) || |old(stream.Rest())| < HEADER_SIZE then Some(NotEnoughBytes)
        else if old(stream.Rest())[..HEADER_SIZE] != FILE_HEADER then Some(UnsupportedFormat)
        else None
      ensures error == None ==> stream.Good() && stream.pos == old(stream.pos) + HEADER_SIZE
    {
      var buffer := new byte[HEADER_SIZE];
      var bytesRead := stream.Read(buffer, HEADER_SIZE);
      if bytesRead != HEADER_SIZE {
        return Some(NotEnoughBytes);
      }
      assert buffer[..] == buffer[..bytesRead];
      if buffer[..] != FILE_HEADER {
        return Some(UnsupportedFormat);
      }
      return None;
    }

    /** The C++ constructor, which may throw: a log opens exactly when it starts with the header. */
    static method Open(stream: InputStream, decoder: Decoder<R, V>)
      returns (outcome: Outcome<LogReader<R, V>, Exception>)
      requires stream.Valid()
      modifies stream
      ensures outcome.Success? <==> old(stream.Good()) && FILE_HEADER <= old(stream.Rest())
      ensures outcome == Failure(NotEnoughBytes) <==>
              !old(stream.Good()) || |old(stream.Rest())| < HEADER_SIZE
      ensures outcome.Success? ==>
        var reader := outcome.value;
        && fresh(reader) && reader.Valid() && reader.stream == stream && reader.decoder == decoder
        && reader.seen == []
        && !stream.eof && stream.Rest() == old(stream.Rest())[HEADER_SIZE..]
    {
      var error := CheckHeader(stream);
      match error
      case Some(e) =>
        return Failure(e);
      case None =>
        var reader := new LogReader(stream, decoder);
        return Success(reader);
    }

    method CountEntry(kind: EntryType)
      requires Valid()
      modifies this
      ensures Valid() && seen == old(seen) + [kind]
    {
      counts := counts[kind := counts[kind] + 1];
      seen := seen + [kind];
    }

    /** Reads one header, and its payload if it has one; agrees with one step of the parser. */
    method ExtractNextEntry() returns (entry: Outcome<LogEntry<R, V>, Exception>)
      requires Valid() && !stream.eof
      modifies this, stream
      ensures Valid() && stream.pos >= old(stream.pos)
      ensures match NextStep(decoder, old(stream.Rest()))
        case Continue(record, used) =>
          && entry.Success?
          && EntryIn(record) == (if entry.value.message.Nothing? then [] else [entry.value])
          && seen == old(seen) + KindIn(record)
          && stream.pos == old(stream.pos) + used && !stream.eof
        case Halt(last, stop) =>
          && seen == old(seen) + Kinds(last)
          && if stop == SizeException
             then entry == Failure(LengthError) && !stream.eof && stream.pos == old(stream.pos) + HEADER_SIZE
             else entry.Success? && entry.value.message.Nothing? && stream.eof && stream.pos == |stream.bytes|
    {
      ghost var rest := stream.Rest();
      var blank := LogEntry(0, Nothing);
      var header := ReadHeader();
      if header == None {
        return Success(blank);
      }
      assert header.value == rest[..HEADER_SIZE] && stream.Rest() == rest[HEADER_SIZE..];
      var entryTypeRaw := CopiedInt(header.value, 12, 4);
      if entryTypeRaw < 0 || entryTypeRaw > 6 {
        assert NextStep(decoder, rest) == Continue(Unrecognised(entryTypeRaw), HEADER_SIZE);
        return Success(blank);
      }
      var entryType := TypeOfCode(entryTypeRaw).value;
      CountEntry(entryType);
      var receivedTimeNs := CopiedInt(header.value, 8, 8);
      var dataSize := CopiedInt(header.value, 16, 4);
      if dataSize < 0 {
        // The size converts to a huge unsigned number and `reserve` throws.
        assert NextStep(decoder, rest) == Halt([NegativeSize(entryType)], SizeException);
        return Failure(LengthError);
      }
      var data := ReadPayload(dataSize);
      if data == None {
        assert NextStep(decoder, rest) == Halt([ShortPayload(entryType)], PayloadCutShort);
        return Success(blank);
      }
      assert data.value == rest[HEADER_SIZE..][..dataSize] == rest[HEADER_SIZE..HEADER_SIZE + dataSize];
      var message := ParseMessage(entryType, data.value);
      entry := Success(LogEntry(receivedTimeNs, message));
      assert NextStep(decoder, rest)
          == Continue(Whole(entryType, data.value, entry.value), HEADER_SIZE + dataSize);
    }

    /** The first read of an extraction: 16 bytes, or too few, of which none at all is the usual end. */
    method ReadHeader() returns (header: Option<Bytes>)
      requires Valid() && !stream.eof
      modifies stream
      ensures Valid() && stream.pos >= old(stream.pos)
      ensures header == if HEADER_SIZE <= |old(stream.Rest())|
                        then Some(old(stream.Rest())[..HEADER_SIZE]) else None
      ensures stream.eof == (header == None) && (stream.eof ==> stream.pos == |stream.bytes|)
      ensures header.Some? ==> stream.pos == old(stream.pos) + HEADER_SIZE
    {
      var buffer := new byte[HEADER_SIZE];
      var bytesRead := stream.Read(buffer, HEADER_SIZE);
      if bytesRead == 0 {
        return None;
      }
      if bytesRead != HEADER_SIZE {
        return None;
      }
      assert buffer[..] == buffer[..bytesRead];
      return Some(buffer[..]);
    }

    /** A buffer of the announced size, filled from the stream, if the stream has that many bytes. */
    method ReadPayload(size: nat) returns (data: Option<Bytes>)
      requires Valid() && !stream.eof
      modifies stream
      ensures Valid() && stream.pos >= old(stream.pos)
      ensures data == if size <= |old(stream.Rest())| then Some(old(stream.Rest())[..size]) else None
      ensures stream.eof == (data == None) && (stream.eof ==> stream.pos == |stream.bytes|)
      ensures data.Some? ==> stream.pos == old(stream.pos) + size
    {
      var buffer := new byte[size];
      var bytesRead := stream.Read(buffer, size);
      if bytesRead != size {
        return None;
      }
      assert buffer[..] == buffer[..bytesRead];
      return Some(buffer[..]);
    }

    /** The switch at the end of the extraction: only two types are parsed, a failure leaves nothing. */
    method ParseMessage(entryType: EntryType, data: Bytes) returns (message: Message<R, V>)
      ensures message == Interpret(decoder, entryType, data)
    {
      message := Nothing;
      match entryType
      case Refbox2013 =>
        var parsed := decoder.referee(data);
        if parsed.Some? {
          message := RefereeMessage(parsed.value);
        }
      case Vision2014 =>
        var parsed := decoder.vision(data);
        if parsed.Some? {
          message := VisionMessage(parsed.value);
        }
      case _ =>
    }

    /**
     Hands out the next translated entry.  Each call peels the parser's result: the entry handed out
     is the first one ahead, and the counters grow by exactly the headers passed over.  When there is
     none, the stream is at its end, or just behind the header with a negative size, where a further
     call goes on reading.  The loop ends on every stream, since each pass uses bytes or sees the end.
     */
    method GetNextMessage() returns (next: Option<LogEntry<R, V>>)
      requires Valid()
      modifies this, stream
      ensures Valid()
      ensures old(stream.eof) ==>
        next == None && stream.eof && stream.pos == old(stream.pos) && seen == old(seen)
      ensures old(seen) + Kinds(old(Ahead()).records)
              == seen + if next.Some? then Kinds(Ahead().records) else []
      ensures Entries(old(Ahead()).records)
              == if next.Some? then [next.value] + Entries(Ahead().records) else []
      ensures next.Some? ==>
        !next.value.message.Nothing? && !stream.eof && old(Ahead()).stop == Ahead().stop && stream.pos > old(stream.pos)
      ensures next == None ==> (stream.eof <==> old(Ahead()).stop != SizeException)
      ensures next == None ==> stream.pos == old(Destination())
    {
      ghost var goal := Ahead();
      ghost var goalKinds := seen + Kinds(goal.records);
      ghost var destination := Destination();
      while !stream.eof
        invariant Valid()
        invariant goalKinds == seen + Kinds(Ahead().records)
        invariant Entries(goal.records) == Entries(Ahead().records)
        invariant stream.pos >= old(stream.pos)
        invariant Destination() == destination
        invariant !stream.eof ==> goal.stop == Ahead().stop
        invariant stream.eof ==> old(stream.eof) || goal.stop != SizeException
        invariant old(stream.eof) ==> stream.eof && stream.pos == old(stream.pos) && seen == old(seen)
        decreases |stream.bytes| - stream.pos, !stream.eof
      {
        ghost var before, seenBefore := stream.Rest(), seen;
        var entry := ExtractNextEntry();
        ParseByStep(decoder, before);
        ghost var step := NextStep(decoder, before);
        if step.Continue? {
          assert before[step.used..] == stream.Rest();
          ConcatIsAssociative(seenBefore, KindIn(step.record), Kinds(Ahead().records));
        }
        if entry.Failure? {
          return None;
        }
        if !entry.value.message.Nothing? {
          return Some(entry.value);
        }
      }
      return None;
    }
  }
}
