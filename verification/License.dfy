/** License data: a version byte and a chain of blocks, each with a validity inside the one before. */
module License {
  import opened Prelude
  import opened BigEndian

  const BLOCK_MIN_LEN := 42
  const BLOCK_TYPE_OFFSET := 33
  const BLOCK_NOT_VALID_BEFORE_OFFSET := 34
  const BLOCK_NOT_VALID_AFTER_OFFSET := 38
  const MAX_BLOCKS := 8

  datatype BlockType = Intermediate | Website | Server | Code | Ts5Server | Ephemeral

  function TypeOf(n: u8): Option<BlockType> {
    if n == 0 then Some(Intermediate)
    else if n == 1 then Some(Website)
    else if n == 2 then Some(Server)
    else if n == 3 then Some(Code)
    else if n == 8 then Some(Ts5Server)
    else if n == 32 then Some(Ephemeral)
    else None
  }

  function TypeNumber(t: BlockType): u8 {
    match t
    case Intermediate => 0
    case Website => 1
    case Server => 2
    case Code => 3
    case Ts5Server => 8
    case Ephemeral => 32
  }

  /** Not valid before and after, in seconds since the license epoch. */
  datatype Bounds = Bounds(start: u32, end: u32)

  datatype Error =
    | NoVersion // the data is empty: the program stops
    | UnsupportedVersion(version: u8)
    | TooManyBlocks(count: nat)
    | TooShort(len: nat)
    | WrongKeyKind(kind: u8)
    | UnknownBlockType(typ: u8)
    | NonterminatedString
    | Expired(bounds: Bounds)
    | OutOfBounds(outer: Bounds, inner: Bounds)

  datatype Result<+T> = Ok(value: T) | Err(error: Error)

  /** A parsed block: its length, and where the properties of a Ts5 block start. */
  datatype Block = Block(len: nat, properties: Option<seq<nat>>)

  // Parsing one block.

  /** The index of the first zero. */
  function ZeroAt(s: Bytes): (r: Option<nat>)
    ensures r.Some? ==> r.value < |s| && s[r.value] == 0 && 0 !in s[..r.value]
    ensures r.None? ==> 0 !in s
  {
    if s == [] then None
    else if s[0] == 0 then Some(0)
    else match ZeroAt(s[1..])
      case None => None
      case Some(i) =>
        assert s[..i + 1] == [s[0]] + s[1..][..i];
        Some(i + 1)
  }

  /** The starts of n properties and the end of the last one; some byte must follow every property. */
  function Properties(data: Bytes, pos: nat, n: nat, len: nat): Result<(seq<nat>, nat)>
    requires pos >= 2
    decreases n
  {
    if n == 0 then Ok(([], pos))
    else if pos >= |data| then Err(TooShort(len))
    else if pos + 1 + data[pos] >= |data| then Err(TooShort(data[pos]))
    else Prepend([pos - 2], Properties(data, pos + 1 + data[pos], n - 1, len))
  }

  function Prepend(starts: seq<nat>, r: Result<(seq<nat>, nat)>): Result<(seq<nat>, nat)> {
    match r
    case Err(e) => Err(e)
    case Ok((more, end)) => Ok((starts + more, end))
  }

  function ParseBlock(data: Bytes): Result<Block> {
    if |data| < BLOCK_MIN_LEN then Err(TooShort(|data|))
    else if data[0] != 0 then Err(WrongKeyKind(data[0]))
    else match TypeOf(data[BLOCK_TYPE_OFFSET])
      case None => Err(UnknownBlockType(data[BLOCK_TYPE_OFFSET]))
      case Some(typ) => ParseBody(typ, data[BLOCK_MIN_LEN..], |data|)
  }

  /** What comes after the common part of a block. */
  function ParseBody(typ: BlockType, body: Bytes, len: nat): Result<Block> {
    match typ
    case Intermediate => ParseIssuer(body, 4, len)
    case Server => ParseIssuer(body, 5, len)
    case Ts5Server =>
      if |body| < 2 then Err(TooShort(len))
      else (match Properties(body, 2, body[1], len)
        case Err(e) => Err(e)
        case Ok((starts, end)) => Ok(Block(BLOCK_MIN_LEN + end, Some(starts))))
    case Ephemeral => Ok(Block(BLOCK_MIN_LEN, None))
    case _ => Err(UnknownBlockType(TypeNumber(typ)))
  }

  /** Some bytes and then the issuer with a zero at its end. */
  function ParseIssuer(body: Bytes, at: nat, len: nat): Result<Block> {
    if |body| < at + 1 then Err(TooShort(len))
    else match ZeroAt(body[at..])
      case None => Err(NonterminatedString)
      case Some(i) => Ok(Block(BLOCK_MIN_LEN + at + i + 1, None))
  }

  lemma {:induction false} PropertiesStayInside(data: Bytes, pos: nat, n: nat, len: nat)
    requires 2 <= pos <= |data| && Properties(data, pos, n, len).Ok?
    ensures pos <= Properties(data, pos, n, len).value.1 <= |data|
    ensures n > 0 ==> Properties(data, pos, n, len).value.1 < |data|
    ensures |Properties(data, pos, n, len).value.0| == n
    decreases n
  {
    if n > 0 {
      PropertiesStayInside(data, pos + 1 + data[pos], n - 1, len);
    }
  }

  /** A block has at least the common part and lies inside the data. */
  lemma ParsedBlockIsInside(data: Bytes)
    requires ParseBlock(data).Ok?
    ensures BLOCK_MIN_LEN <= ParseBlock(data).value.len <= |data|
  {
    var body := data[BLOCK_MIN_LEN..];
    if TypeOf(data[BLOCK_TYPE_OFFSET]) == Some(Ts5Server) {
      PropertiesStayInside(body, 2, body[1], |data|);
    }
  }

  // What a block is, byte for byte.

  /** A string from here on has its end, and this is where. */
  predicate StringEnds(data: Bytes, from: nat, end: nat) {
    from < end <= |data| && data[end - 1] == 0 && 0 !in data[from..end - 1]
  }

  lemma {:induction false} ZeroIsFirst(s: Bytes, i: nat)
    ensures ZeroAt(s) == Some(i) <==> i < |s| && s[i] == 0 && 0 !in s[..i]
  {
    if s != [] && s[0] != 0 && i > 0 {
      ZeroIsFirst(s[1..], i - 1);
      if i < |s| { assert s[..i] == [s[0]] + s[1..][..i - 1]; }
    } else {
      assert i > 0 && i < |s| ==> s[..i][0] == s[0];
    }
  }

  /** Properties follow each other, each with its length in front, and some byte follows each of them. */
  ghost predicate PropertiesFrom(data: Bytes, pos: nat, starts: seq<nat>, end: nat)
    decreases |starts|
  {
    if starts == [] then end == pos
    else
      && starts[0] + 2 == pos && pos < |data| && pos + 1 + data[pos] < |data|
      && PropertiesFrom(data, pos + 1 + data[pos], starts[1..], end)
  }

  lemma {:induction false} PropertiesIff(data: Bytes, pos: nat, n: nat, len: nat, starts: seq<nat>, end: nat)
    requires pos >= 2
    ensures Properties(data, pos, n, len) == Ok((starts, end)) <==>
            |starts| == n && PropertiesFrom(data, pos, starts, end)
    decreases n
  {
    if n > 0 && pos < |data| && pos + 1 + data[pos] < |data| {
      var next := pos + 1 + data[pos];
      if starts != [] {
        PropertiesIff(data, next, n - 1, len, starts[1..], end);
        assert starts == [starts[0]] + starts[1..];
      }
      if Properties(data, next, n - 1, len).Ok? {
        var more, e := Properties(data, next, n - 1, len).value.0, Properties(data, next, n - 1, len).value.1;
        assert ([pos - 2] + more)[1..] == more;
      }
    }
  }

  /**
   * Exactly these are blocks: the kind of the key is zero, the type is one of four, the issuer has its end,
   * and so have the properties.
   */
  ghost predicate IsBlock(data: Bytes, block: Block) {
    && |data| >= 42 && data[0] == 0 && 42 <= block.len <= |data|
    && match data[33]
       case 0 => block.properties == None && StringEnds(data, 46, block.len)
       case 2 => block.properties == None && StringEnds(data, 47, block.len)
       case 8 => block.properties.Some? && |data| >= 44 && |block.properties.value| == data[43]
                 && PropertiesFrom(data[42..], 2, block.properties.value, block.len - 42)
       case 32 => block.properties == None && block.len == 42
       case _ => false
  }

  lemma {:induction false} BlockIff(data: Bytes, block: Block)
    ensures ParseBlock(data) == Ok(block) <==> IsBlock(data, block)
  {
    hide Properties, ZeroAt, PropertiesFrom;
    if |data| >= 42 && data[0] == 0 {
      var body := data[42..];
      match TypeOf(data[33])
      case Some(Intermediate) => IssuerIff(data, 4, |data|, block);
      case Some(Server) => IssuerIff(data, 5, |data|, block);
      case Some(Ts5Server) =>
        if |body| >= 2 {
          if block.properties.Some? && block.len >= 42 {
            PropertiesIff(body, 2, body[1], |data|, block.properties.value, block.len - 42);
          }
          if ParseBlock(data).Ok? { PropertiesStayInside(body, 2, body[1], |data|); }
        }
      case _ =>
    }
  }

  lemma IssuerIff(data: Bytes, at: nat, len: nat, block: Block)
    requires |data| >= 42
    ensures ParseIssuer(data[42..], at, len) == Ok(block) <==>
            block.properties == None && 42 + at < block.len && StringEnds(data, 42 + at, block.len)
  {
    hide ZeroAt;
    var body := data[42..];
    if |body| >= at + 1 && block.len > 42 + at {
      var i := block.len - 43 - at;
      ZeroIsFirst(body[at..], i);
      if block.len <= |data| { assert data[42 + at..block.len - 1] == body[at..][..i]; }
    }
    if |body| >= at + 1 && ZeroAt(body[at..]).Some? {
      ZeroIsFirst(body[at..], ZeroAt(body[at..]).value);
    }
  }

  /** The times of the validity are the last eight of the first 42 bytes, most significant byte first. */
  lemma BoundsLayout(data: Bytes)
    requires |data| >= 42
    ensures BoundsOf(data).start == Number(data[34], data[35], data[36], data[37])
    ensures BoundsOf(data).end == Number(data[38], data[39], data[40], data[41])
  {
    FourBytes(data[34..38]);
    FourBytes(data[38..42]);
  }

  function Number(a: int, b: int, c: int, d: int): int {
    0x100_0000 * a + 0x1_0000 * b + 0x100 * c + d
  }

  lemma FourBytes(s: Bytes)
    requires |s| == 4
    ensures FromBytes(s) == Number(s[0], s[1], s[2], s[3])
  {
    assert s[..3][..2] == s[..2] && s[..2][..1] == s[..1] && s[..1][..0] == [];
    assert FromBytes(s[..1]) == s[0];
    assert FromBytes(s[..2]) == FromBytes(s[..1]) * 0x100 + s[1];
    assert FromBytes(s[..3]) == FromBytes(s[..2]) * 0x100 + s[2];
  }

  /** Which of the first checks fails. */
  lemma BlockErrors(data: Bytes)
    ensures |data| < 42 ==> ParseBlock(data) == Err(TooShort(|data|))
    ensures |data| >= 42 && data[0] != 0 <==> ParseBlock(data).Err? && ParseBlock(data).error.WrongKeyKind?
    ensures |data| >= 42 && data[0] == 0 && data[33] !in {0, 2, 8, 32} <==>
            ParseBlock(data).Err? && ParseBlock(data).error.UnknownBlockType?
  {
    hide Properties, ZeroAt;
    if |data| >= 44 { PropertiesErrors(data[42..], 2, data[43], |data|); }
  }

  lemma {:induction false} PropertiesErrors(data: Bytes, pos: nat, n: nat, len: nat)
    requires pos >= 2
    ensures Properties(data, pos, n, len).Err? ==> Properties(data, pos, n, len).error.TooShort?
    decreases n
  {
    if n > 0 && pos < |data| && pos + 1 + data[pos] < |data| {
      PropertiesErrors(data, pos + 1 + data[pos], n - 1, len);
    }
  }

  // More data does not change a block that was complete.

  lemma {:induction false} ZeroStays(s: Bytes, more: Bytes)
    requires ZeroAt(s).Some?
    ensures ZeroAt(s + more) == ZeroAt(s)
  {
    if s[0] != 0 {
      ZeroStays(s[1..], more);
      assert (s + more)[1..] == s[1..] + more;
    }
  }

  lemma {:induction false} PropertiesStay(data: Bytes, more: Bytes, pos: nat, n: nat, len: nat, len': nat)
    requires pos >= 2 && Properties(data, pos, n, len).Ok?
    ensures Properties(data + more, pos, n, len') == Properties(data, pos, n, len)
    decreases n
  {
    if n > 0 {
      assert (data + more)[pos] == data[pos];
      PropertiesStay(data, more, pos + 1 + data[pos], n - 1, len, len');
    }
  }

  lemma BlockStays(data: Bytes, more: Bytes)
    requires ParseBlock(data).Ok?
    ensures ParseBlock(data + more) == ParseBlock(data)
  {
    hide ZeroAt, Properties;
    var body, long := data[BLOCK_MIN_LEN..], data + more;
    assert long[BLOCK_MIN_LEN..] == body + more;
    assert long[BLOCK_TYPE_OFFSET] == data[BLOCK_TYPE_OFFSET];
    match TypeOf(data[BLOCK_TYPE_OFFSET]).value
    case Intermediate => IssuerStays(body, more, 4, |data|, |long|);
    case Server => IssuerStays(body, more, 5, |data|, |long|);
    case Ts5Server =>
      assert (body + more)[1] == body[1];
      PropertiesStay(body, more, 2, body[1], |data|, |long|);
    case _ =>
  }

  lemma IssuerStays(body: Bytes, more: Bytes, at: nat, len: nat, len': nat)
    requires ParseIssuer(body, at, len).Ok?
    ensures ParseIssuer(body + more, at, len') == ParseIssuer(body, at, len)
  {
    ZeroStays(body[at..], more);
    assert (body + more)[at..] == body[at..] + more;
  }

  // Parsing the chain.

  function Read32(s: Bytes): u32
    requires |s| == 4
  {
    Widths();
    FromBytes(s)
  }

  /** The validity of the block at the start of the data. */
  function BoundsOf(data: Bytes): Bounds
    requires |data| >= BLOCK_MIN_LEN
  {
    Bounds(Read32(data[BLOCK_NOT_VALID_BEFORE_OFFSET..BLOCK_NOT_VALID_AFTER_OFFSET]),
           Read32(data[BLOCK_NOT_VALID_AFTER_OFFSET..BLOCK_MIN_LEN]))
  }

  /** The time to check against, or none if expired licenses are accepted. */
  type Clock = Option<real>

  predicate ValidAt(b: Bounds, now: Clock) {
    now.Some? ==> b.start as real <= now.value <= b.end as real
  }

  predicate Inside(inner: Bounds, outer: Bounds) {
    outer.start <= inner.start && inner.end <= outer.end
  }

  function CheckedBlock(data: Bytes, now: Clock, outer: Option<Bounds>): Result<(Block, Bounds)> {
    match ParseBlock(data)
    case Err(e) => Err(e)
    case Ok(block) =>
      ParsedBlockIsInside(data);
      var b := BoundsOf(data);
      if !ValidAt(b, now) then Err(Expired(b))
      else if outer.Some? && !Inside(b, outer.value) then Err(OutOfBounds(outer.value, b))
      else Ok((block, b))
  }

  /** The conditions of a block on the time and on the block before it. */
  lemma CheckedIff(data: Bytes, now: Clock, outer: Option<Bounds>)
    ensures CheckedBlock(data, now, outer).Ok? <==>
            && ParseBlock(data).Ok?
            && (now.Some? ==> !(now.value < BoundsOf(data).start as real) && !(BoundsOf(data).end as real < now.value))
            && (outer.Some? ==> !(BoundsOf(data).start < outer.value.start) && !(outer.value.end < BoundsOf(data).end))
    ensures CheckedBlock(data, now, outer).Ok? ==>
              CheckedBlock(data, now, outer).value == (ParseBlock(data).value, BoundsOf(data))
  {
    hide ParseBlock, BoundsOf;
  }

  function ParseFrom(data: Bytes, offset: nat, blocks: seq<Block>, now: Clock,
      outer: Option<Bounds>): Result<seq<Block>>
    requires offset <= |data|
    decreases |data| - offset
  {
    if offset == |data| then Ok(blocks)
    else if |blocks| >= MAX_BLOCKS then Err(TooManyBlocks(|blocks|))
    else match CheckedBlock(data[offset..], now, outer)
      case Err(e) => Err(e)
      case Ok((block, b)) =>
        ParsedBlockIsInside(data[offset..]);
        ParseFrom(data, offset + block.len, blocks + [block], now, Some(b))
  }

  function Parse(data: Bytes, now: Clock): Result<seq<Block>> {
    if data == [] then Err(NoVersion)
    else if data[0] != 0 && data[0] != 1 then Err(UnsupportedVersion(data[0]))
    else ParseFrom(data, 1, [], now, None)
  }

  // What a successful parse says.

  /** Where the i-th block starts. */
  function Start(blocks: seq<Block>, i: nat): (r: nat)
    requires i <= |blocks|
    ensures r >= 1
  {
    if i == 0 then 1 else Start(blocks, i - 1) + blocks[i - 1].len
  }

  lemma {:induction false} StartOfPrefix(blocks: seq<Block>, more: seq<Block>, i: nat)
    requires i <= |blocks|
    ensures Start(blocks + more, i) == Start(blocks, i)
  {
    if i > 0 {
      StartOfPrefix(blocks, more, i - 1);
    }
  }

  /** The validity of the i-th block. */
  function BoundsAt(data: Bytes, blocks: seq<Block>, i: nat): Bounds
    requires i < |blocks| && Start(blocks, i) + BLOCK_MIN_LEN <= |data|
  {
    BoundsOf(data[Start(blocks, i)..])
  }

  /** The i-th block stands at its place, is valid, and only while the block before it is. */
  ghost predicate BlockAt(data: Bytes, blocks: seq<Block>, i: nat, now: Clock)
    requires i < |blocks|
  {
    var start := Start(blocks, i);
    && start + BLOCK_MIN_LEN <= |data| && ParseBlock(data[start..]) == Ok(blocks[i])
    && ValidAt(BoundsAt(data, blocks, i), now)
    && (i > 0 ==> Start(blocks, i - 1) + BLOCK_MIN_LEN <= |data|
                  && Inside(BoundsAt(data, blocks, i), BoundsAt(data, blocks, i - 1)))
  }

  /** All blocks stand one after the other. */
  ghost predicate Chain(data: Bytes, blocks: seq<Block>, now: Clock) {
    Start(blocks, |blocks|) <= |data|
    && forall i {:trigger BlockAt(data, blocks, i, now)} :: 0 <= i < |blocks| ==> BlockAt(data, blocks, i, now)
  }

  /** A later block is valid only while all blocks before it are. */
  lemma {:induction false} ChainIsNested(data: Bytes, blocks: seq<Block>, now: Clock, i: nat, j: nat)
    requires Chain(data, blocks, now) && i < j < |blocks|
    ensures BlockAt(data, blocks, i, now) && BlockAt(data, blocks, j, now)
    ensures Inside(BoundsAt(data, blocks, j), BoundsAt(data, blocks, i))
  {
    hide ParseBlock, BoundsOf;
    if i + 1 < j {
      ChainIsNested(data, blocks, now, i, j - 1);
    }
  }

  /** There is room for the blocks in the data. */
  predicate Room(data: Bytes, blocks: seq<Block>) {
    Start(blocks, |blocks|) <= |data|
    && (blocks != [] ==> Start(blocks, |blocks| - 1) + BLOCK_MIN_LEN <= |data|)
  }

  /** The bounds that the next block has to respect. */
  function LastBounds(data: Bytes, blocks: seq<Block>): Option<Bounds>
    requires Room(data, blocks)
  {
    if blocks == [] then None else Some(BoundsAt(data, blocks, |blocks| - 1))
  }

  lemma ChainHasRoom(data: Bytes, blocks: seq<Block>, now: Clock)
    requires Chain(data, blocks, now)
    ensures Room(data, blocks)
  {
    hide ParseBlock;
    assert blocks != [] ==> BlockAt(data, blocks, |blocks| - 1, now);
  }

  lemma BlockOfPrefix(data: Bytes, blocks: seq<Block>, more: seq<Block>, i: nat, now: Clock)
    requires i < |blocks|
    ensures BlockAt(data, blocks + more, i, now) <==> BlockAt(data, blocks, i, now)
    ensures Start(blocks + more, i) == Start(blocks, i)
  {
    hide ParseBlock, BoundsOf;
    StartOfPrefix(blocks, more, i);
    if i > 0 {
      StartOfPrefix(blocks, more, i - 1);
    }
  }

  lemma StartsIncrease(blocks: seq<Block>, i: nat, j: nat)
    requires i <= j <= |blocks|
    ensures Start(blocks, i) <= Start(blocks, j)
  {
    if i < j {
      StartsIncrease(blocks, i, j - 1);
    }
  }

  /** What the program finds where the next block would start. */
  function NextBlock(data: Bytes, blocks: seq<Block>, now: Clock): Result<(Block, Bounds)>
    requires Room(data, blocks)
  {
    CheckedBlock(data[Start(blocks, |blocks|)..], now, LastBounds(data, blocks))
  }

  lemma {:induction false} NewBlockAt(data: Bytes, blocks: seq<Block>, block: Block, b: Bounds, now: Clock)
    requires Room(data, blocks) && NextBlock(data, blocks, now) == Ok((block, b))
    ensures BlockAt(data, blocks + [block], |blocks|, now) && Room(data, blocks + [block])
    ensures Start(blocks + [block], |blocks| + 1) == Start(blocks, |blocks|) + block.len
    ensures LastBounds(data, blocks + [block]) == Some(b)
  {
    hide ParseBlock, BoundsOf;
    var n := |blocks|;
    StartOfPrefix(blocks, [block], n);
    if n > 0 {
      StartOfPrefix(blocks, [block], n - 1);
    }
    ParsedBlockIsInside(data[Start(blocks, n)..]);
  }

  lemma {:induction false} ExtendChain(data: Bytes, blocks: seq<Block>, block: Block, b: Bounds, now: Clock)
    requires Chain(data, blocks, now) && Room(data, blocks) && NextBlock(data, blocks, now) == Ok((block, b))
    ensures Chain(data, blocks + [block], now) && Room(data, blocks + [block])
    ensures Start(blocks + [block], |blocks| + 1) == Start(blocks, |blocks|) + block.len
    ensures LastBounds(data, blocks + [block]) == Some(b)
  {
    hide BlockAt, NextBlock, LastBounds;
    NewBlockAt(data, blocks, block, b, now);
    forall i | 0 <= i < |blocks| + 1
      ensures BlockAt(data, blocks + [block], i, now)
    {
      if i < |blocks| {
        BlockOfPrefix(data, blocks, [block], i, now);
      }
    }
  }

  /** The parse, once some blocks are read. */
  function Continue(data: Bytes, blocks: seq<Block>, now: Clock): Result<seq<Block>>
    requires Room(data, blocks)
  {
    ParseFrom(data, Start(blocks, |blocks|), blocks, now, LastBounds(data, blocks))
  }

  lemma ContinueStep(data: Bytes, blocks: seq<Block>, now: Clock)
    requires Chain(data, blocks, now) && Room(data, blocks)
    ensures Start(blocks, |blocks|) <= |data|
    ensures Start(blocks, |blocks|) == |data| ==> Continue(data, blocks, now) == Ok(blocks)
    ensures Start(blocks, |blocks|) < |data| && |blocks| >= MAX_BLOCKS ==>
              Continue(data, blocks, now) == Err(TooManyBlocks(|blocks|))
    ensures Start(blocks, |blocks|) < |data| && |blocks| < MAX_BLOCKS && NextBlock(data, blocks, now).Err? ==>
              Continue(data, blocks, now) == Err(NextBlock(data, blocks, now).error)
    ensures Start(blocks, |blocks|) < |data| && |blocks| < MAX_BLOCKS && NextBlock(data, blocks, now).Ok? ==>
              var longer := blocks + [NextBlock(data, blocks, now).value.0];
              && Chain(data, longer, now) && Room(data, longer)
              && Start(longer, |longer|) > Start(blocks, |blocks|)
              && Continue(data, blocks, now) == Continue(data, longer, now)
  {
    hide CheckedBlock, BoundsOf, Chain;
    if Start(blocks, |blocks|) < |data| && NextBlock(data, blocks, now).Ok? {
      var (block, b) := NextBlock(data, blocks, now).value;
      CheckedIsParsed(data[Start(blocks, |blocks|)..], now, LastBounds(data, blocks));
      ExtendChain(data, blocks, block, b, now);
    }
  }

  lemma {:induction false} ParsedIsChain(data: Bytes, blocks: seq<Block>, now: Clock)
    requires Chain(data, blocks, now) && Room(data, blocks) && |blocks| <= MAX_BLOCKS
    requires Continue(data, blocks, now).Ok?
    ensures var bs := Continue(data, blocks, now).value;
      Chain(data, bs, now) && Start(bs, |bs|) == |data| && |bs| <= MAX_BLOCKS
    decreases |data| - Start(blocks, |blocks|)
  {
    hide NextBlock, Chain, Room, Continue, Start;
    ContinueStep(data, blocks, now);
    if Start(blocks, |blocks|) < |data| {
      ParsedIsChain(data, blocks + [NextBlock(data, blocks, now).value.0], now);
    }
  }

  lemma CheckedIsParsed(data: Bytes, now: Clock, outer: Option<Bounds>)
    requires CheckedBlock(data, now, outer).Ok?
    ensures ParseBlock(data) == Ok(CheckedBlock(data, now, outer).value.0)
    ensures BLOCK_MIN_LEN <= CheckedBlock(data, now, outer).value.0.len <= |data|
  {
    ParsedBlockIsInside(data);
  }

  lemma PrefixOfChain(data: Bytes, bs: seq<Block>, now: Clock, i: nat)
    requires Chain(data, bs, now) && i <= |bs|
    ensures Chain(data, bs[..i], now) && Room(data, bs[..i])
    ensures Start(bs[..i], i) == Start(bs, i)
  {
    hide BlockAt;
    var p := bs[..i];
    assert p + bs[i..] == bs;
    StartOfPrefix(p, bs[i..], i);
    StartsIncrease(bs, i, |bs|);
    forall k | 0 <= k < i
      ensures BlockAt(data, p, k, now)
    {
      BlockOfPrefix(data, p, bs[i..], k, now);
    }
    ChainHasRoom(data, p, now);
  }

  lemma {:induction false} NextOfChain(data: Bytes, bs: seq<Block>, now: Clock, i: nat)
    requires Chain(data, bs, now) && i < |bs| && Room(data, bs[..i])
    ensures Start(bs, i) < |data| && BlockAt(data, bs, i, now)
    ensures NextBlock(data, bs[..i], now) == Ok((bs[i], BoundsAt(data, bs, i)))
  {
    hide ParseBlock, BoundsOf, Start;
    var p := bs[..i];
    assert p + bs[i..] == bs && BlockAt(data, bs, i, now);
    StartOfPrefix(p, bs[i..], i);
    LastBoundsOfPrefix(data, bs, i);
  }

  lemma {:induction false} LastBoundsOfPrefix(data: Bytes, bs: seq<Block>, i: nat)
    requires i <= |bs| && Room(data, bs[..i])
    ensures i > 0 ==> Start(bs, i - 1) + BLOCK_MIN_LEN <= |data|
    ensures LastBounds(data, bs[..i]) == if i == 0 then None else Some(BoundsAt(data, bs, i - 1))
  {
    hide BoundsOf;
    assert bs[..i] + bs[i..] == bs;
    if i > 0 {
      StartOfPrefix(bs[..i], bs[i..], i - 1);
    }
  }

  lemma {:induction false} ChainIsParsed(data: Bytes, bs: seq<Block>, now: Clock, i: nat)
    requires Chain(data, bs, now) && Start(bs, |bs|) == |data| && |bs| <= MAX_BLOCKS && i <= |bs|
    requires Room(data, bs[..i])
    ensures Continue(data, bs[..i], now) == Ok(bs)
    decreases |bs| - i
  {
    hide NextBlock, Chain, Room, Continue, Start;
    PrefixOfChain(data, bs, now, i);
    ContinueStep(data, bs[..i], now);
    if i < |bs| {
      NextOfChain(data, bs, now, i);
      assert bs[..i] + [bs[i]] == bs[..i + 1];
      ChainIsParsed(data, bs, now, i + 1);
    } else {
      assert bs[..i] == bs;
    }
  }

  /**
   * Data is a license of certain blocks exactly if they fill it after the version byte, are at most
   * eight, and each is valid only while all blocks before it are.
   */
  lemma ParseIff(data: Bytes, now: Clock, bs: seq<Block>)
    ensures Parse(data, now) == Ok(bs) <==>
            && data != [] && (data[0] == 0 || data[0] == 1)
            && |bs| <= MAX_BLOCKS && Start(bs, |bs|) == |data| && Chain(data, bs, now)
  {
    hide Chain, Room, Parse, Continue;
    if data != [] && (data[0] == 0 || data[0] == 1) {
      ParseIsContinue(data, now);
      if Parse(data, now) == Ok(bs) {
        ParsedIsChain(data, [], now);
      }
      if |bs| <= MAX_BLOCKS && Start(bs, |bs|) == |data| && Chain(data, bs, now) {
        assert bs[..0] == [];
        ChainIsParsed(data, bs, now, 0);
      }
    } else {
      WrongVersion(data, now);
    }
  }

  lemma WrongVersion(data: Bytes, now: Clock)
    requires data == [] || (data[0] != 0 && data[0] != 1)
    ensures Parse(data, now).Err?
  {
  }

  lemma ParseIsContinue(data: Bytes, now: Clock)
    requires data != [] && (data[0] == 0 || data[0] == 1)
    ensures Chain(data, [], now) && Room(data, []) && Parse(data, now) == Continue(data, [], now)
  {
  }

  // Building on top of a license.

  /** With more data, reading goes on where it ended: with the same blocks, and whatever the rest gives. */
  lemma {:induction false} MoreIsContinued(data: Bytes, more: Bytes, blocks: seq<Block>, now: Clock)
    requires Chain(data, blocks, now) && Room(data, blocks) && Continue(data, blocks, now).Ok?
    requires Chain(data + more, blocks, now) && Room(data + more, blocks)
    ensures var bs := Continue(data, blocks, now).value;
      && Chain(data + more, bs, now) && Room(data + more, bs) && Start(bs, |bs|) == |data|
      && Continue(data + more, blocks, now) == Continue(data + more, bs, now)
    decreases |data| - Start(blocks, |blocks|)
  {
    hide NextBlock, Chain, Room, Continue, Start;
    ContinueStep(data, blocks, now);
    ContinueStep(data + more, blocks, now);
    if Start(blocks, |blocks|) < |data| {
      NextStays(data, more, blocks, now);
      MoreIsContinued(data, more, blocks + [NextBlock(data, blocks, now).value.0], now);
    }
  }

  lemma NextStays(data: Bytes, more: Bytes, blocks: seq<Block>, now: Clock)
    requires Room(data, blocks) && Room(data + more, blocks)
    requires NextBlock(data, blocks, now).Ok?
    ensures NextBlock(data + more, blocks, now) == NextBlock(data, blocks, now)
  {
    hide ParseBlock;
    var start := Start(blocks, |blocks|);
    var rest := data[start..];
    assert (data + more)[start..] == rest + more;
    BlockStays(rest, more);
    ParsedBlockIsInside(rest);
    BoundsStay(rest, more);
    if blocks != [] {
      var last := Start(blocks, |blocks| - 1);
      assert (data + more)[last..] == data[last..] + more;
      BoundsStay(data[last..], more);
    }
  }

  lemma BoundsStay(data: Bytes, more: Bytes)
    requires |data| >= BLOCK_MIN_LEN
    ensures BoundsOf(data + more) == BoundsOf(data)
  {
    hide Read32;
    assert (data + more)[BLOCK_NOT_VALID_BEFORE_OFFSET..BLOCK_NOT_VALID_AFTER_OFFSET]
        == data[BLOCK_NOT_VALID_BEFORE_OFFSET..BLOCK_NOT_VALID_AFTER_OFFSET];
    assert (data + more)[BLOCK_NOT_VALID_AFTER_OFFSET..BLOCK_MIN_LEN]
        == data[BLOCK_NOT_VALID_AFTER_OFFSET..BLOCK_MIN_LEN];
  }

  /**
   * Reading only what was added to a license gives the same result as reading everything, be it the
   * blocks or the error.
   */
  lemma {:induction false} BuiltIsParsedAgain(data: Bytes, more: Bytes, blocks: seq<Block>)
    requires Parse(data, None) == Ok(blocks)
    ensures Room(data + more, blocks) && Start(blocks, |blocks|) == |data|
    ensures Continue(data + more, blocks, None) == Parse(data + more, None)
  {
    hide Chain, Room, Parse, Continue;
    ParseIff(data, None, blocks);
    assert (data + more)[0] == data[0];
    ParseIsContinue(data, None);
    ParseIsContinue(data + more, None);
    MoreIsContinued(data, more, [], None);
  }

  /** Checking for expiry rejects licenses but does not change what is read. */
  lemma ExpiryOnlyRejects(data: Bytes, now: Clock)
    requires Parse(data, now).Ok?
    ensures Parse(data, None) == Parse(data, now)
  {
    var bs := Parse(data, now).value;
    ParseIff(data, now, bs);
    forall i | 0 <= i < |bs|
      ensures BlockAt(data, bs, i, None)
    {
      assert BlockAt(data, bs, i, now);
    }
    ParseIff(data, None, bs);
  }

  // The program.

  /** The cursor over the properties of a Ts5 block. */
  method ScanProperties(body: Bytes, len: nat) returns (r: Result<(seq<nat>, nat)>)
    requires |body| >= 2
    ensures r == Properties(body, 2, body[1], len)
  {
    var pos: nat, starts: seq<nat>, n: nat := 2, [], body[1];
    PrependNothing(Properties(body, 2, body[1], len));
    while n > 0
      invariant pos >= 2 && Properties(body, 2, body[1], len) == Prepend(starts, Properties(body, pos, n, len))
      decreases n
    {
      PrependTwice(starts, [pos - 2], if pos < |body| then Properties(body, pos + 1 + body[pos], n - 1, len)
          else Err(TooShort(len)));
      var p := pos - 2;
      if pos >= |body| {
        return Err(TooShort(len));
      }
      var size := body[pos];
      pos := pos + 1;
      if pos + size >= |body| {
        return Err(TooShort(size));
      }
      pos := pos + size;
      starts, n := starts + [p], n - 1;
    }
    assert starts + [] == starts;
    return Ok((starts, pos));
  }

  lemma PrependNothing(r: Result<(seq<nat>, nat)>)
    ensures Prepend([], r) == r
  {
    if r.Ok? {
      assert [] + r.value.0 == r.value.0;
    }
  }

  lemma PrependTwice(a: seq<nat>, b: seq<nat>, r: Result<(seq<nat>, nat)>)
    ensures Prepend(a, Prepend(b, r)) == Prepend(a + b, r)
  {
    if r.Ok? {
      assert a + (b + r.value.0) == a + b + r.value.0;
    }
  }

  /** Blocks and the bytes they were read from. */
  class Licenses {
    var data: Bytes
    var blocks: seq<Block>

    ghost predicate Valid()
      reads this
    {
      Parse(data, None) == Ok(blocks)
    }

    constructor (data: Bytes, blocks: seq<Block>)
      requires Parse(data, None) == Ok(blocks)
      ensures Valid() && this.data == data && this.blocks == blocks
    {
      this.data, this.blocks := data, blocks;
    }

    /** Reads blocks from an offset until the data ends. */
    static method ReadBlocks(data: Bytes, start: nat, read: seq<Block>, now: Clock, outer: Option<Bounds>)
      returns (r: Result<seq<Block>>)
      requires start <= |data|
      ensures r == ParseFrom(data, start, read, now, outer)
    {
      hide CheckedBlock;
      var offset, blocks, bounds := start, read, outer;
      while |data| > offset
        invariant offset <= |data|
        invariant ParseFrom(data, offset, blocks, now, bounds) == ParseFrom(data, start, read, now, outer)
        decreases |data| - offset
      {
        if |blocks| >= MAX_BLOCKS {
          return Err(TooManyBlocks(|blocks|));
        }
        match CheckedBlock(data[offset..], now, bounds) {
          case Err(e) => return Err(e);
          case Ok((block, b)) =>
            CheckedIsParsed(data[offset..], now, bounds);
            offset, blocks, bounds := offset + block.len, blocks + [block], Some(b);
        }
      }
      return Ok(blocks);
    }

    static method ParseInternal(data: Bytes, now: Clock) returns (r: Result<Licenses>)
      ensures match Parse(data, now)
              case Err(e) => r == Err(e)
              case Ok(bs) => r.Ok? && fresh(r.value) && r.value.Valid() && r.value.data == data && r.value.blocks == bs
    {
      if data == [] {
        return Err(NoVersion);
      }
      if data[0] != 0 && data[0] != 1 {
        return Err(UnsupportedVersion(data[0]));
      }
      var blocks := ReadBlocks(data, 1, [], now, None);
      match blocks {
        case Err(e) => return Err(e);
        case Ok(bs) =>
          ExpiryOnlyRejects(data, now);
          var licenses := new Licenses(data, bs);
          return Ok(licenses);
      }
    }

    /** Only the new bytes are read, and yet all of the data is a license again, or the error is the same. */
    method Build(more: Bytes) returns (r: Result<()>)
      requires Valid()
      modifies this
      ensures data == old(data) + more
      ensures match Parse(old(data) + more, None)
              case Err(e) => r == Err(e)
              case Ok(bs) => r == Ok(()) && blocks == bs && Valid()
    {
      BuiltIsParsedAgain(data, more, blocks);
      var len := |data|;
      data := data + more;
      var bounds := None;
      if blocks != [] {
        var last := blocks[|blocks| - 1];
        var offset := len - last.len;
        bounds := Some(BoundsOf(data[offset..]));
      }
      var all := ReadBlocks(data, len, blocks, None, bounds);
      match all {
        case Err(e) => return Err(e);
        case Ok(bs) =>
          blocks := bs;
          return Ok(());
      }
    }
  }
}
