/** From a written log through the reader, the conversion and the bag, and back. */
module EndToEnd {
  import opened LogFormat
  import opened Log2Bag
  import Proto
  import Ros
  import Conversion

  /**
   Whatever log was written, the bag that mirrors it holds one message per decodable referee or
   vision entry, in log order and with its time, each on the topic of its kind; and a referee message
   can be recovered from the bag up to the erasure of the conversion.
   */
  lemma BagOfWrittenLog<V, VM>(
      d: Decoder<Proto.Referee, V>, convertVision: V -> VM, es: seq<RawEntry>,
      bag: seq<BagMessage<Ros.Referee, VM>>, i: nat)
    requires AllWritable(es)
    requires Mirrors(Converter(Conversion.FromReferee, convertVision), bag,
                     Entries(Parse(d, EncodeLog(es)[HEADER_SIZE..]).records))
    requires i < |bag|
    ensures |bag| == |AllHandedOut(d, es)|
    ensures bag[i].time == AllHandedOut(d, es)[i].receivedTimeNs
    ensures match AllHandedOut(d, es)[i].message
      case RefereeMessage(m) =>
        && bag[i].topic == "/referee_messages" && bag[i].typeName == "ssl_league_msgs/msg/Referee"
        && bag[i].message.RosReferee?
        && (Conversion.RestoreReferee(bag[i].message.referee) == Conversion.EraseReferee(m)
            <==> Conversion.TimestampsFit(m))
      case VisionMessage(m) =>
        && bag[i].topic == "/vision_messages" && bag[i].typeName == "ssl_league_msgs/msg/VisionWrapper"
        && bag[i].message == RosVision(convertVision(m))
      case Nothing => false
  {
    ReadingWhatWasWritten(d, es);
    var message := AllHandedOut(d, es)[i].message;
    if message.RefereeMessage? {
      Conversion.RestoreInvertsFromReferee(message.referee);
    }
  }
}
