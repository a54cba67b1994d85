/** The content of voice and whisper packets. */
module VoicePacket {
  import opened Prelude
  import opened BigEndian

  datatype Codec = SpeexNarrowband | SpeexWideband | SpeexUltrawideband | CeltMono | OpusVoice | OpusMusic

  function CodecNumber(c: Codec): u8 {
    match c
    case SpeexNarrowband => 0
    case SpeexWideband => 1
    case SpeexUltrawideband => 2
    case CeltMono => 3
    case OpusVoice => 4
    case OpusMusic => 5
  }

  function CodecOf(n: u8): Option<Codec> {
    if n == 0 then Some(SpeexNarrowband)
    else if n == 1 then Some(SpeexWideband)
    else if n == 2 then Some(SpeexUltrawideband)
    else if n == 3 then Some(CeltMono)
    else if n == 4 then Some(OpusVoice)
    else if n == 5 then Some(OpusMusic)
    else None
  }

  datatype AudioData =
    | C2S(id: u16, codec: Codec, data: Bytes)
    | C2SWhisper(id: u16, codec: Codec, channels: seq<u64>, clients: seq<u16>, data: Bytes)
    | C2SWhisperNew(id: u16, codec: Codec, whisperType: u8, target: u8, targetId: u64, data: Bytes)
    | S2C(id: u16, from: u16, codec: Codec, data: Bytes)
    | S2CWhisper(id: u16, from: u16, codec: Codec, data: Bytes)

  /** What the header of the packet says. */
  datatype Header = Header(voice: bool, newProtocol: bool, fromServer: bool)

  function HeaderOf(d: AudioData): Header {
    Header(d.C2S? || d.S2C?, d.C2SWhisperNew?, d.S2C? || d.S2CWhisper?)
  }

  datatype Parsed =
    | Ok(audio: AudioData)
    | NoId                   // the packet id could not be read
    | TooShort(len: nat)
    | InvalidCodec(codec: u8)
    | OutOfRange             // an index is outside the content: the program stops

  // Numbers.

  function Read16(s: Bytes): u16
    requires |s| == 2
  {
    Widths();
    FromBytes(s)
  }

  function Read64(s: Bytes): u64
    requires |s| == 8
  {
    Widths();
    FromBytes(s)
  }

  function WriteChannels(channels: seq<u64>): (s: Bytes)
    ensures |s| == |channels| * 8
  {
    if channels == [] then [] else ToBytes(channels[0], 8) + WriteChannels(channels[1..])
  }

  function WriteClients(clients: seq<u16>): (s: Bytes)
    ensures |s| == |clients| * 2
  {
    if clients == [] then [] else ToBytes(clients[0], 2) + WriteClients(clients[1..])
  }

  function ReadChannels(s: Bytes): (channels: seq<u64>)
    requires |s| % 8 == 0
    ensures |channels| * 8 == |s|
  {
    if s == [] then [] else [Read64(s[..8])] + ReadChannels(s[8..])
  }

  function ReadClients(s: Bytes): (clients: seq<u16>)
    requires |s| % 2 == 0
    ensures |clients| * 2 == |s|
  {
    if s == [] then [] else [Read16(s[..2])] + ReadClients(s[2..])
  }

  lemma {:induction false} ChannelsRoundTrip(channels: seq<u64>)
    ensures ReadChannels(WriteChannels(channels)) == channels
  {
    if channels != [] {
      Widths();
      NumberRoundTrip(channels[0], 8);
      ChannelsRoundTrip(channels[1..]);
      var s := WriteChannels(channels);
      assert s[..8] == ToBytes(channels[0], 8) && s[8..] == WriteChannels(channels[1..]);
    }
  }

  lemma {:induction false} ClientsRoundTrip(clients: seq<u16>)
    ensures ReadClients(WriteClients(clients)) == clients
  {
    if clients != [] {
      Widths();
      NumberRoundTrip(clients[0], 2);
      ClientsRoundTrip(clients[1..]);
      var s := WriteClients(clients);
      assert s[..2] == ToBytes(clients[0], 2) && s[2..] == WriteClients(clients[1..]);
    }
  }

  lemma {:induction false} OneMoreChannel(channels: seq<u64>, c: u64)
    ensures WriteChannels(channels + [c]) == WriteChannels(channels) + ToBytes(c, 8)
  {
    hide ToBytes;
    if channels != [] {
      OneMoreChannel(channels[1..], c);
      assert (channels + [c])[1..] == channels[1..] + [c];
    }
  }

  lemma {:induction false} OneMoreClient(clients: seq<u16>, c: u16)
    ensures WriteClients(clients + [c]) == WriteClients(clients) + ToBytes(c, 2)
  {
    hide ToBytes;
    if clients != [] {
      OneMoreClient(clients[1..], c);
      assert (clients + [c])[1..] == clients[1..] + [c];
    }
  }

  lemma {:induction false} ReadChannelsIsWritten(s: Bytes)
    requires |s| % 8 == 0
    ensures WriteChannels(ReadChannels(s)) == s
  {
    if s != [] {
      BytesRoundTrip(s[..8]);
      ReadChannelsIsWritten(s[8..]);
      assert s == s[..8] + s[8..];
    }
  }

  lemma {:induction false} ReadClientsIsWritten(s: Bytes)
    requires |s| % 2 == 0
    ensures WriteClients(ReadClients(s)) == s
  {
    if s != [] {
      BytesRoundTrip(s[..2]);
      ReadClientsIsWritten(s[2..]);
      assert s == s[..2] + s[2..];
    }
  }

  // Parsing.

  function Parse(header: Header, content: Bytes): Parsed {
    if |content| < 2 then NoId
    else
      var id := Read16(content[..2]);
      if header.fromServer then
        if |content| < 5 then TooShort(|content|)
        else
          var from := Read16(content[2..4]);
          match CodecOf(content[4])
          case None => InvalidCodec(content[4])
          case Some(codec) =>
            Ok(if header.voice then S2C(id, from, codec, content[5..]) else S2CWhisper(id, from, codec, content[5..]))
      else if |content| < 3 then TooShort(|content|)
      else
        match CodecOf(content[2])
        case None => if |content| < 5 then OutOfRange else InvalidCodec(content[4])
        case Some(codec) =>
          if header.voice then Ok(C2S(id, codec, content[3..]))
          else if header.newProtocol then
            if |content| < 14 then TooShort(|content|)
            else Ok(C2SWhisperNew(id, codec, content[3], content[4], Read64(content[5..13]), content[13..]))
          else ParseWhisper(id, codec, content)
  }

  function ParseWhisper(id: u16, codec: Codec, content: Bytes): Parsed
    requires |content| >= 3
  {
    if |content| < 5 then TooShort(|content|)
    else
      var channelCount: nat, clientCount: nat := content[3], content[4];
      var clientOff := 5 + channelCount * 8;
      var off := clientOff + clientCount * 2;
      if |content| < off then TooShort(|content|)
      else Ok(C2SWhisper(id, codec, ReadChannels(content[5..clientOff]), ReadClients(content[clientOff..off]),
          content[off..]))
  }

  // Writing.

  function Content(d: AudioData): Bytes {
    ToBytes(d.id, 2) + AfterId(d)
  }

  function AfterId(d: AudioData): Bytes {
    match d
    case C2S(_, codec, data) => [CodecNumber(codec)] + data
    case C2SWhisper(_, codec, channels, clients, data) =>
      [CodecNumber(codec)]
      + ([|channels| % 0x100, |clients| % 0x100] + WriteChannels(channels) + WriteClients(clients) + data)
    case C2SWhisperNew(_, codec, whisperType, target, targetId, data) =>
      [CodecNumber(codec), whisperType, target] + ToBytes(targetId, 8) + data
    case S2C(_, from, codec, data) => ToBytes(from, 2) + [CodecNumber(codec)] + data
    case S2CWhisper(_, from, codec, data) => ToBytes(from, 2) + [CodecNumber(codec)] + data
  }

  lemma {:induction false} ChannelAt(channels: seq<u64>, i: nat)
    requires i < |channels|
    ensures WriteChannels(channels)[8 * i..8 * i + 8] == ToBytes(channels[i], 8)
  {
    hide ToBytes;
    if i > 0 {
      ChannelAt(channels[1..], i - 1);
      assert WriteChannels(channels)[8 * i..8 * i + 8] == WriteChannels(channels[1..])[8 * (i - 1)..8 * (i - 1) + 8];
    }
  }

  lemma {:induction false} ClientAt(clients: seq<u16>, i: nat)
    requires i < |clients|
    ensures WriteClients(clients)[2 * i..2 * i + 2] == ToBytes(clients[i], 2)
  {
    hide ToBytes;
    if i > 0 {
      ClientAt(clients[1..], i - 1);
      assert WriteClients(clients)[2 * i..2 * i + 2] == WriteClients(clients[1..])[2 * (i - 1)..2 * (i - 1) + 2];
    }
  }

  lemma WordAt(x: u16)
    ensures ToBytes(x, 2) == [x / 0x100, x % 0x100]
  {
    assert ToBytes(x / 0x100, 1) == [x / 0x100];
  }

  /** Byte for byte, where everything is in the content. */
  lemma VoiceLayout(d: AudioData)
    ensures var s := Content(d);
      && |s| >= 3 && s[0] == d.id / 0x100 && s[1] == d.id % 0x100
      && (HeaderOf(d).fromServer ==>
            && |s| >= 5 && s[2] == d.from / 0x100 && s[3] == d.from % 0x100 && s[4] == CodecNumber(d.codec)
            && s[5..] == d.data)
      && (!HeaderOf(d).fromServer ==> s[2] == CodecNumber(d.codec))
      && (d.C2S? ==> s[3..] == d.data)
      && (d.C2SWhisperNew? ==>
            && |s| >= 13 && s[3] == d.whisperType && s[4] == d.target && s[5..13] == ToBytes(d.targetId, 8)
            && s[13..] == d.data)
  {
    hide ToBytes;
    WordAt(d.id);
    if HeaderOf(d).fromServer { WordAt(d.from); }
  }

  /** The same for the lists of a whisper. */
  lemma WhisperLayout(d: AudioData)
    requires d.C2SWhisper?
    ensures var s, n, m := Content(d), |d.channels|, |d.clients|;
      && |s| == 5 + 8 * n + 2 * m + |d.data| && s[3] == n % 0x100 && s[4] == m % 0x100
      && (forall i {:trigger d.channels[i]} :: 0 <= i < n ==> s[5 + 8 * i..13 + 8 * i] == ToBytes(d.channels[i], 8))
      && (forall i {:trigger d.clients[i]} :: 0 <= i < m ==>
            s[5 + 8 * n + 2 * i..7 + 8 * n + 2 * i] == ToBytes(d.clients[i], 2))
      && s[5 + 8 * n + 2 * m..] == d.data
  {
    hide ToBytes, WriteChannels, WriteClients;
    var s, n, m := Content(d), |d.channels|, |d.clients|;
    assert s[5..5 + 8 * n] == WriteChannels(d.channels) && s[5 + 8 * n..5 + 8 * n + 2 * m] == WriteClients(d.clients);
    forall i {:trigger d.channels[i]} | 0 <= i < n
      ensures s[5 + 8 * i..13 + 8 * i] == ToBytes(d.channels[i], 8)
    {
      ChannelAt(d.channels, i);
      assert s[5 + 8 * i..13 + 8 * i] == s[5..5 + 8 * n][8 * i..8 * i + 8];
    }
    forall i {:trigger d.clients[i]} | 0 <= i < m
      ensures s[5 + 8 * n + 2 * i..7 + 8 * n + 2 * i] == ToBytes(d.clients[i], 2)
    {
      ClientAt(d.clients, i);
      assert s[5 + 8 * n + 2 * i..7 + 8 * n + 2 * i] == s[5 + 8 * n..5 + 8 * n + 2 * m][2 * i..2 * i + 2];
    }
  }

  /** The counts of a whisper fit into a byte, and the new form has a payload. */
  predicate Writable(d: AudioData) {
    match d
    case C2SWhisper(_, _, channels, clients, _) => |channels| < 0x100 && |clients| < 0x100
    case C2SWhisperNew(_, _, _, _, _, data) => data != []
    case _ => true
  }

  lemma CodecRoundTrip(c: Codec)
    ensures CodecOf(CodecNumber(c)) == Some(c)
  {
  }

  lemma WordRoundTrip(x: u16)
    ensures Read16(ToBytes(x, 2)) == x
  {
    Widths();
    NumberRoundTrip(x, 2);
  }

  lemma LongRoundTrip(x: u64)
    ensures Read64(ToBytes(x, 8)) == x
  {
    Widths();
    NumberRoundTrip(x, 8);
  }

  /** What was written is parsed to the same data exactly if it was writable. */
  lemma {:induction false} VoiceRoundTripIff(d: AudioData)
    ensures Parse(HeaderOf(d), Content(d)) == Ok(d) <==> Writable(d)
  {
    match d
    case S2C(_, _, _, _) => ServerRoundTrip(d);
    case S2CWhisper(_, _, _, _) => ServerRoundTrip(d);
    case C2S(_, _, _) => ClientRoundTrip(d);
    case C2SWhisperNew(_, _, _, _, _, _) => NewWhisperRoundTripIff(d);
    case C2SWhisper(_, _, _, _, _) =>
      IdIsRead(d);
      CodecRoundTrip(d.codec);
      WhisperRoundTripIff(d);
  }

  lemma IdIsRead(d: AudioData)
    ensures |Content(d)| >= 3 && Read16(Content(d)[..2]) == d.id && Content(d)[2..] == AfterId(d)
    ensures d.C2S? || d.C2SWhisper? || d.C2SWhisperNew? ==> Content(d)[2] == CodecNumber(d.codec)
  {
    hide ToBytes, Read16;
    WordRoundTrip(d.id);
    assert Content(d)[..2] == ToBytes(d.id, 2) && Content(d)[2..] == AfterId(d);
  }

  lemma ServerRoundTrip(d: AudioData)
    requires d.S2C? || d.S2CWhisper?
    ensures Parse(HeaderOf(d), Content(d)) == Ok(d)
  {
    hide ToBytes, Read16, CodecOf, CodecNumber;
    IdIsRead(d);
    CodecRoundTrip(d.codec);
    WordRoundTrip(d.from);
    var content := Content(d);
    assert content[2..4] == ToBytes(d.from, 2) && content[4] == CodecNumber(d.codec) && content[5..] == d.data;
  }

  lemma ClientRoundTrip(d: AudioData)
    requires d.C2S?
    ensures Parse(HeaderOf(d), Content(d)) == Ok(d)
  {
    hide ToBytes, Read16, CodecOf, CodecNumber;
    IdIsRead(d);
    CodecRoundTrip(d.codec);
    assert Content(d)[3..] == d.data;
  }

  lemma NewWhisperRoundTripIff(d: AudioData)
    requires d.C2SWhisperNew?
    ensures Parse(HeaderOf(d), Content(d)) == Ok(d) <==> d.data != []
  {
    hide ToBytes, Read16, Read64, CodecOf, CodecNumber;
    IdIsRead(d);
    CodecRoundTrip(d.codec);
    LongRoundTrip(d.targetId);
    var content := Content(d);
    assert content[3] == d.whisperType && content[4] == d.target;
    assert content[5..13] == ToBytes(d.targetId, 8) && content[13..] == d.data;
  }

  lemma WhisperRoundTripIff(d: AudioData)
    requires d.C2SWhisper?
    ensures ParseWhisper(d.id, d.codec, Content(d)) == Ok(d) <==> Writable(d)
  {
    hide ToBytes, CodecNumber, WriteChannels, WriteClients, ReadChannels, ReadClients;
    var content := Content(d);
    var channels, clients := WriteChannels(d.channels), WriteClients(d.clients);
    var head := ToBytes(d.id, 2) + [CodecNumber(d.codec), |d.channels| % 0x100, |d.clients| % 0x100];
    WhisperContent(d);
    Parts(head, channels, clients, d.data);
    assert content[3] == head[3] && content[4] == head[4];
    ChannelsRoundTrip(d.channels);
    ClientsRoundTrip(d.clients);
  }

  lemma WhisperContent(d: AudioData)
    requires d.C2SWhisper?
    ensures Content(d) == ToBytes(d.id, 2) + [CodecNumber(d.codec), |d.channels| % 0x100, |d.clients| % 0x100]
                          + WriteChannels(d.channels) + WriteClients(d.clients) + d.data
  {
    hide ToBytes, CodecNumber, WriteChannels, WriteClients;
  }

  lemma Parts(a: Bytes, b: Bytes, c: Bytes, d: Bytes)
    ensures var s := a + b + c + d;
      var i, j, k := |a|, |a| + |b|, |a| + |b| + |c|;
      && s[..i] == a && s[i..j] == b && s[j..k] == c && s[k..] == d && |s| == k + |d|
      && forall n {:trigger s[n]} {:trigger a[n]} :: 0 <= n < i ==> s[n] == a[n]
  {
  }

  /** Nothing of a parsed packet is lost: writing the data gives the content back. */
  lemma ParsedIsWritten(header: Header, content: Bytes)
    requires Parse(header, content).Ok?
    ensures Content(Parse(header, content).audio) == content
    ensures HeaderOf(Parse(header, content).audio).fromServer == header.fromServer
  {
    hide ToBytes, Read16, Read64, CodecOf, CodecNumber, AfterId;
    var d := Parse(header, content).audio;
    Reread16(content[..2]);
    assert AfterId(d) == content[2..] by {
      if header.fromServer {
        ServerIsWritten(d, content);
      } else if d.C2SWhisper? {
        WhisperIsWritten(d, content);
      } else {
        ClientIsWritten(d, content);
      }
    }
    assert content == content[..2] + content[2..];
  }

  lemma ServerIsWritten(d: AudioData, content: Bytes)
    requires (d.S2C? || d.S2CWhisper?) && |content| >= 5
    requires d.from == Read16(content[2..4]) && CodecOf(content[4]) == Some(d.codec) && d.data == content[5..]
    ensures AfterId(d) == content[2..]
  {
    hide ToBytes, Read16;
    Reread16(content[2..4]);
    CodecReread(content[4]);
  }

  lemma ClientIsWritten(d: AudioData, content: Bytes)
    requires (d.C2S? || d.C2SWhisperNew?) && |content| >= 3 && CodecOf(content[2]) == Some(d.codec)
    requires d.C2S? ==> d.data == content[3..]
    requires d.C2SWhisperNew? ==>
               |content| >= 13 && d.data == content[13..] && d.targetId == Read64(content[5..13])
               && d.whisperType == content[3] && d.target == content[4]
    ensures AfterId(d) == content[2..]
  {
    hide ToBytes, Read64;
    CodecReread(content[2]);
    if d.C2SWhisperNew? {
      Reread64(content[5..13]);
    }
  }

  lemma {:induction false} WhisperIsWritten(d: AudioData, content: Bytes)
    requires d.C2SWhisper? && |content| >= 3 && CodecOf(content[2]) == Some(d.codec)
    requires ParseWhisper(d.id, d.codec, content) == Ok(d)
    ensures AfterId(d) == content[2..]
  {
    hide ReadChannels, ReadClients, WriteChannels, WriteClients, CodecNumber, CodecOf;
    CodecReread(content[2]);
    var channelCount: nat, clientCount: nat := content[3], content[4];
    var clientOff := 5 + channelCount * 8;
    var off := clientOff + clientCount * 2;
    ReadChannelsIsWritten(content[5..clientOff]);
    ReadClientsIsWritten(content[clientOff..off]);
    LastParts(content, clientOff, off);
    assert [|d.channels| % 0x100, |d.clients| % 0x100] == content[3..5];
    assert content[2..] == [content[2]] + content[3..];
  }

  lemma LastParts(s: Bytes, i: nat, j: nat)
    requires 5 <= i <= j <= |s|
    ensures s[3..] == s[3..5] + s[5..i] + s[i..j] + s[j..]
  {
  }

  lemma CodecReread(n: u8)
    ensures CodecOf(n).Some? ==> CodecNumber(CodecOf(n).value) == n
  {
  }

  lemma Reread16(s: Bytes)
    requires |s| == 2
    ensures ToBytes(Read16(s), 2) == s
  {
    BytesRoundTrip(s);
  }

  lemma Reread64(s: Bytes)
    requires |s| == 8
    ensures ToBytes(Read64(s), 8) == s
  {
    BytesRoundTrip(s);
  }

  /** The one input on which the error path itself looks beyond the content. */
  lemma OutOfRangeIff(header: Header, content: Bytes)
    ensures Parse(header, content) == OutOfRange <==>
            !header.fromServer && 3 <= |content| <= 4 && CodecOf(content[2]) == None
  {
  }

  method WriteAudio(d: AudioData) returns (content: Bytes)
    ensures content == Content(d)
  {
    hide ToBytes, CodecNumber, WriteChannels, WriteClients;
    match d {
      case C2S(_, codec, data) =>
        content := [CodecNumber(codec)] + data;
      case C2SWhisper(_, codec, channels, clients, data) =>
        var lists := WriteLists(channels, clients);
        content := [CodecNumber(codec)] + ([|channels| % 0x100, |clients| % 0x100] + lists + data);
      case C2SWhisperNew(_, codec, whisperType, target, targetId, data) =>
        content := [CodecNumber(codec), whisperType, target] + ToBytes(targetId, 8) + data;
      case S2C(_, from, codec, data) =>
        content := ToBytes(from, 2) + [CodecNumber(codec)] + data;
      case S2CWhisper(_, from, codec, data) =>
        content := ToBytes(from, 2) + [CodecNumber(codec)] + data;
    }
    assert content == AfterId(d);
    content := ToBytes(d.id, 2) + content;
  }

  method WriteLists(channels: seq<u64>, clients: seq<u16>) returns (content: Bytes)
    ensures content == WriteChannels(channels) + WriteClients(clients)
  {
    content := [];
    for i := 0 to |channels|
      invariant content == WriteChannels(channels[..i])
    {
      OneMoreChannel(channels[..i], channels[i]);
      assert channels[..i + 1] == channels[..i] + [channels[i]];
      content := content + ToBytes(channels[i], 8);
    }
    assert channels[..|channels|] == channels;
    for i := 0 to |clients|
      invariant content == WriteChannels(channels) + WriteClients(clients[..i])
    {
      OneMoreClient(clients[..i], clients[i]);
      assert clients[..i + 1] == clients[..i] + [clients[i]];
      content := content + ToBytes(clients[i], 2);
    }
    assert clients[..|clients|] == clients;
  }
}
