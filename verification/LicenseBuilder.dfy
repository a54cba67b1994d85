/** Writing license blocks: which of them the parser accepts. */
module LicenseBuilder {
  import opened Prelude
  import opened BigEndian
  import opened License

  /** A property of a Ts5 block. */
  datatype Property = Property(id: u8, typ: u8, content: Bytes)

  /** What can be set in a block. */
  datatype Fields = Fields(
    typ: BlockType, key: Bytes, bounds: Bounds, licenseType: u8, maxClients: u32, issuer: Bytes,
    properties: seq<Property>)

  /** What the builder insists on. */
  ghost predicate WellFormed(f: Fields) {
    |f.key| == 32 && 0 !in f.issuer && |f.properties| < 0x100
    && forall i {:trigger f.properties[i]} :: 0 <= i < |f.properties| ==> |f.properties[i].content| <= 253
  }

  function WriteProperty(p: Property): (r: Bytes)
    requires |p.content| <= 253
    ensures |r| == 3 + |p.content|
  {
    [|p.content| + 2, p.id, p.typ] + p.content
  }

  function WriteProperties(ps: seq<Property>): Bytes
    requires forall i {:trigger ps[i]} :: 0 <= i < |ps| ==> |ps[i].content| <= 253
  {
    if ps == [] then [] else WriteProperties(ps[..|ps| - 1]) + WriteProperty(ps[|ps| - 1])
  }

  function Head(f: Fields): (r: Bytes)
    requires WellFormed(f)
    ensures |r| == BLOCK_MIN_LEN
  {
    [0] + f.key + [TypeNumber(f.typ)] + ToBytes(f.bounds.start, 4) + ToBytes(f.bounds.end, 4)
  }

  function Body(f: Fields): Bytes
    requires WellFormed(f)
  {
    match f.typ
    case Intermediate => ToBytes(f.maxClients, 4) + f.issuer + [0]
    case Server => [f.licenseType] + ToBytes(f.maxClients, 4) + f.issuer + [0]
    case Ts5Server => [f.licenseType, |f.properties|] + WriteProperties(f.properties)
    case Ephemeral => []
    case Website => [0]
    case Code => [0]
  }

  function Write(f: Fields): Bytes
    requires WellFormed(f)
  {
    Head(f) + Body(f)
  }

  // Reading a written block.

  lemma HeadIsRead(f: Fields, rest: Bytes)
    requires WellFormed(f)
    ensures var data := Head(f) + rest;
      && data[0] == 0 && TypeOf(data[BLOCK_TYPE_OFFSET]) == Some(f.typ) && BoundsOf(data) == f.bounds
      && data[BLOCK_MIN_LEN..] == rest
  {
    Widths();
    NumberRoundTrip(f.bounds.start, 4);
    NumberRoundTrip(f.bounds.end, 4);
    var data := Head(f) + rest;
    assert data[BLOCK_NOT_VALID_BEFORE_OFFSET..BLOCK_NOT_VALID_AFTER_OFFSET] == ToBytes(f.bounds.start, 4);
    assert data[BLOCK_NOT_VALID_AFTER_OFFSET..BLOCK_MIN_LEN] == ToBytes(f.bounds.end, 4);
  }

  lemma {:induction false} ZeroAfter(s: Bytes, rest: Bytes)
    requires 0 !in s
    ensures ZeroAt(s + [0] + rest) == Some(|s|)
  {
    var t := s + [0] + rest;
    if s != [] {
      assert t[1..] == s[1..] + [0] + rest;
      ZeroAfter(s[1..], rest);
    }
  }

  lemma IssuerIsRead(start: Bytes, issuer: Bytes, rest: Bytes, len: nat)
    requires 0 !in issuer
    ensures ParseIssuer(start + issuer + [0] + rest, |start|, len)
            == Ok(Block(BLOCK_MIN_LEN + |start + issuer + [0]|, None))
  {
    var body := start + issuer + [0] + rest;
    assert body[|start|..] == issuer + [0] + rest;
    ZeroAfter(issuer, rest);
  }

  /** A property ends where the next one starts, which must not be the end of the data. */
  lemma {:induction false} PropertiesAreRead(body: Bytes, ps: seq<Property>, pos: nat, k: nat, len: nat)
    requires forall i {:trigger ps[i]} :: 0 <= i < |ps| ==> |ps[i].content| <= 253
    requires pos >= 2 && k <= |ps| && pos + |WriteProperties(ps)| <= |body|
    requires body[pos..pos + |WriteProperties(ps)|] == WriteProperties(ps)
    ensures pos + |WriteProperties(ps[..k])| <= |body|
    ensures Properties(body, pos + |WriteProperties(ps[..k])|, |ps| - k, len).Ok? <==>
            k == |ps| || pos + |WriteProperties(ps)| < |body|
    ensures Properties(body, pos + |WriteProperties(ps[..k])|, |ps| - k, len).Ok? ==>
            Properties(body, pos + |WriteProperties(ps[..k])|, |ps| - k, len).value.1 == pos + |WriteProperties(ps)|
    decreases |ps| - k
  {
    if k == |ps| {
      assert ps[..k] == ps;
    } else {
      WrittenAt(ps, k);
      var at := |WriteProperties(ps[..k])|;
      assert body[pos + at] == body[pos..pos + |WriteProperties(ps)|][at];
      PropertiesAreRead(body, ps, pos, k + 1, len);
    }
  }

  lemma {:induction false} WrittenAt(ps: seq<Property>, k: nat)
    requires forall i {:trigger ps[i]} :: 0 <= i < |ps| ==> |ps[i].content| <= 253
    requires k < |ps|
    ensures var at, next := |WriteProperties(ps[..k])|, |WriteProperties(ps[..k + 1])|;
      at < next <= |WriteProperties(ps)| && next == at + 1 + WriteProperties(ps)[at]
  {
    var last := |ps| - 1;
    if k < last {
      WrittenAt(ps[..last], k);
      assert ps[..last][..k] == ps[..k] && ps[..last][..k + 1] == ps[..k + 1];
    } else {
      assert ps[..k + 1] == ps && ps[..k + 1][..k] == ps[..k];
    }
  }

  /** The parser knows the type of the block. */
  predicate Known(typ: BlockType) {
    typ == Intermediate || typ == Server || typ == Ts5Server || typ == Ephemeral
  }

  /** A block with properties only reads if more data follows. */
  predicate NeedsMore(f: Fields) {
    f.typ == Ts5Server && f.properties != []
  }

  /**
   * A written block is read with its length and bounds exactly if its type is known and, when it is a
   * Ts5 block with properties, something comes after it.
   */
  lemma BlockRoundTripIff(f: Fields, rest: Bytes)
    requires WellFormed(f)
    ensures var data := Write(f) + rest;
      && (ParseBlock(data).Ok? <==> Known(f.typ) && (NeedsMore(f) ==> rest != []))
      && (ParseBlock(data).Ok? ==> ParseBlock(data).value.len == |Write(f)|)
      && |data| >= BLOCK_MIN_LEN && BoundsOf(data) == f.bounds
  {
    hide Head, BoundsOf, ZeroAt, Properties, ParseIssuer, TypeOf, TypeNumber;
    var data, body := Write(f) + rest, Body(f) + rest;
    assert data == Head(f) + body;
    HeadIsRead(f, body);
    BodyIsRead(f, rest, |data|);
  }

  lemma BodyIsRead(f: Fields, rest: Bytes, len: nat)
    requires WellFormed(f)
    ensures var r := ParseBody(f.typ, Body(f) + rest, len);
      && (r.Ok? <==> Known(f.typ) && (NeedsMore(f) ==> rest != []))
      && (r.Ok? ==> r.value.len == BLOCK_MIN_LEN + |Body(f)|)
  {
    hide ZeroAt, Properties, ParseIssuer, ToBytes, WriteProperties;
    match f.typ
    case Intermediate => IssuerIsRead(ToBytes(f.maxClients, 4), f.issuer, rest, len);
    case Server => IssuerIsRead([f.licenseType] + ToBytes(f.maxClients, 4), f.issuer, rest, len);
    case Ts5Server =>
      var body := Body(f) + rest;
      assert body[2..2 + |WriteProperties(f.properties)|] == WriteProperties(f.properties);
      NoProperties(f.properties);
      PropertiesAreRead(body, f.properties, 2, 0, len);
    case _ =>
  }

  lemma NoProperties(ps: seq<Property>)
    requires forall i {:trigger ps[i]} :: 0 <= i < |ps| ==> |ps[i].content| <= 253
    ensures ps[..0] == [] && WriteProperties(ps[..0]) == []
  {
  }

  // Whole licenses.

  ghost predicate AllWellFormed(fs: seq<Fields>) {
    forall i {:trigger fs[i]} :: 0 <= i < |fs| ==> WellFormed(fs[i])
  }

  function WriteAll(fs: seq<Fields>): Bytes
    requires AllWellFormed(fs)
  {
    if fs == [] then [] else Write(fs[0]) + WriteAll(fs[1..])
  }

  /** The blocks can be read after some others with the given bounds. */
  ghost predicate Readable(fs: seq<Fields>, outer: Option<Bounds>) {
    forall i {:trigger fs[i]} :: 0 <= i < |fs| ==>
      && Known(fs[i].typ)
      && (NeedsMore(fs[i]) ==> i + 1 < |fs|)
      && (if i > 0 then Inside(fs[i].bounds, fs[i - 1].bounds) else outer.Some? ==> Inside(fs[i].bounds, outer.value))
  }

  lemma ReadableStep(fs: seq<Fields>, outer: Option<Bounds>)
    requires fs != []
    ensures Readable(fs, outer) <==>
            && Known(fs[0].typ) && (NeedsMore(fs[0]) ==> |fs| > 1)
            && (outer.Some? ==> Inside(fs[0].bounds, outer.value))
            && Readable(fs[1..], Some(fs[0].bounds))
  {
    var rest := fs[1..];
    if Readable(fs, outer) {
      forall i | 0 <= i < |rest|
        ensures Known(rest[i].typ) && (NeedsMore(rest[i]) ==> i + 1 < |rest|)
        ensures if i > 0 then Inside(rest[i].bounds, rest[i - 1].bounds) else Inside(rest[i].bounds, fs[0].bounds)
      {
        assert rest[i] == fs[i + 1];
      }
    }
    if Known(fs[0].typ) && (NeedsMore(fs[0]) ==> |fs| > 1) && (outer.Some? ==> Inside(fs[0].bounds, outer.value))
       && Readable(rest, Some(fs[0].bounds)) {
      forall i | 0 <= i < |fs|
        ensures Known(fs[i].typ) && (NeedsMore(fs[i]) ==> i + 1 < |fs|)
        ensures if i > 0 then Inside(fs[i].bounds, fs[i - 1].bounds)
                else outer.Some? ==> Inside(fs[i].bounds, outer.value)
      {
        if i > 0 {
          assert fs[i] == rest[i - 1];
          assert i > 1 ==> fs[i - 1] == rest[i - 2];
        }
      }
    }
  }

  lemma {:induction false} WrittenIsReadIff(data: Bytes, offset: nat, fs: seq<Fields>, blocks: seq<Block>,
      outer: Option<Bounds>)
    requires AllWellFormed(fs) && offset <= |data| && data[offset..] == WriteAll(fs) && |blocks| <= MAX_BLOCKS
    ensures ParseFrom(data, offset, blocks, None, outer).Ok? <==> |blocks| + |fs| <= MAX_BLOCKS && Readable(fs, outer)
    decreases |fs|
  {
    hide ParseBlock, BoundsOf, Write, Readable, WellFormed;
    if fs != [] {
      var f, more := fs[0], WriteAll(fs[1..]);
      BlockRoundTripIff(f, more);
      MoreIffBlocks(fs[1..]);
      ReadableStep(fs, outer);
      if |blocks| < MAX_BLOCKS && CheckedBlock(data[offset..], None, outer).Ok? {
        var block := CheckedBlock(data[offset..], None, outer).value.0;
        CheckedIsParsed(data[offset..], None, outer);
        assert data[offset..][block.len..] == data[offset + block.len..] == more;
        WrittenIsReadIff(data, offset + block.len, fs[1..], blocks + [block], Some(f.bounds));
      }
    } else {
      assert offset == |data| && Readable([], outer) by {
        NothingIsReadable(outer);
      }
    }
  }

  lemma NothingIsReadable(outer: Option<Bounds>)
    ensures Readable([], outer)
  {
  }

  lemma MoreIffBlocks(fs: seq<Fields>)
    requires AllWellFormed(fs)
    ensures WriteAll(fs) == [] <==> fs == []
  {
  }

  /**
   * A license written block by block is accepted exactly if it has at most eight blocks of known
   * types, each valid only while the one before is, and does not end with the properties of a Ts5 block.
   */
  lemma {:induction false} LicenseRoundTripIff(fs: seq<Fields>)
    requires AllWellFormed(fs)
    ensures Parse([1] + WriteAll(fs), None).Ok? <==> |fs| <= MAX_BLOCKS && Readable(fs, None)
  {
    var data := [1] + WriteAll(fs);
    assert data[1..] == WriteAll(fs);
    WrittenIsReadIff(data, 1, fs, [], None);
  }

  // The builder.

  function MinLen(typ: BlockType): nat {
    BLOCK_MIN_LEN +
    match typ
    case Intermediate => 5
    case Website => 1
    case Code => 1
    case Server => 6
    case Ts5Server => 2
    case Ephemeral => 0
  }

  function Zeros(n: nat): (r: Bytes)
    ensures |r| == n
  {
    if n == 0 then [] else Zeros(n - 1) + [0]
  }

  /** `copy_from_slice` into a place in the data. */
  function Patch(data: Bytes, at: nat, bytes: Bytes): (r: Bytes)
    requires at + |bytes| <= |data|
    ensures |r| == |data|
  {
    data[..at] + bytes + data[at + |bytes|..]
  }

  lemma Patched(a: Bytes, b: Bytes, c: Bytes, bytes: Bytes)
    requires |bytes| == |b|
    ensures Patch(a + b + c, |a|, bytes) == a + bytes + c
  {
    var data := a + b + c;
    assert data[..|a|] == a && data[|a| + |b|..] == c;
  }

  /** A block in which nothing was set. */
  function Fresh(typ: BlockType): Fields {
    Fields(typ, Zeros(32), Bounds(0, 0), 0, 0, [], [])
  }

  lemma {:induction false} ZerosAdd(a: nat, b: nat)
    ensures Zeros(a) + Zeros(b) == Zeros(a + b)
  {
    if b > 0 {
      ZerosAdd(a, b - 1);
      assert Zeros(a) + Zeros(b) == Zeros(a) + Zeros(b - 1) + [0];
    }
  }

  lemma ZeroBytes()
    ensures ToBytes(0, 4) == Zeros(4) && Zeros(1) == [0]
  {
    assert ToBytes(0, 1) == Zeros(1);
    assert ToBytes(0, 2) == Zeros(2);
    assert ToBytes(0, 3) == Zeros(3);
  }

  lemma FreshBody(typ: BlockType)
    ensures WellFormed(Fresh(typ)) && Body(Fresh(typ)) == Zeros(MinLen(typ) - BLOCK_MIN_LEN)
  {
    hide ToBytes, Zeros;
    ZeroBytes();
    ZerosAdd(4, 1);
    ZerosAdd(1, 1);
    ZerosAdd(1, 4);
    ZerosAdd(5, 1);
    NoZeros();
    match typ
    case Intermediate => assert Zeros(4) + [] + [0] == Zeros(4) + [0];
    case Server => assert [0] + Zeros(4) + [] + [0] == [0] + Zeros(4) + [0];
    case Ts5Server => assert [0] + [0] == [0, 0]; NoProperties([]);
    case _ =>
  }

  lemma NoZeros()
    ensures Zeros(0) == []
  {
  }

  lemma FreshIsZeros(typ: BlockType)
    ensures WellFormed(Fresh(typ)) && MinLen(typ) >= BLOCK_MIN_LEN
    ensures Write(Fresh(typ)) == Patch(Zeros(MinLen(typ)), BLOCK_TYPE_OFFSET, [TypeNumber(typ)])
  {
    hide ToBytes, Zeros, Body, TypeNumber, Patch;
    var body, n := Body(Fresh(typ)), MinLen(typ);
    FreshBody(typ);
    ZeroBytes();
    var four := Zeros(4);
    ZerosAdd(1, 32);
    ZerosAdd(33, 1);
    ZerosAdd(4, 4);
    ZerosAdd(8, n - BLOCK_MIN_LEN);
    ZerosAdd(34, n - 34);
    assert four + four + body == Zeros(n - 34);
    Patched(Zeros(33), [0], four + four + body, [TypeNumber(typ)]);
    assert Write(Fresh(typ)) == Zeros(33) + [TypeNumber(typ)] + (four + four + body);
  }

  class LicenseBlockBuilder {
    var data: Bytes
    const offset: nat
    const typ: BlockType
    /** What stood before the block, and what was set in it. */
    ghost const start: Bytes
    ghost var fields: Fields

    /** The block is the last one of the data. */
    ghost predicate Valid()
      reads this
    {
      WellFormed(fields) && fields.typ == typ && |start| == offset && data == start + Write(fields)
    }

    constructor AddBlock(data: Bytes, typ: BlockType)
      ensures Valid() && start == data && fields == Fresh(typ) && this.typ == typ
    {
      FreshIsZeros(typ);
      var long := data + Zeros(MinLen(typ));
      this.data := Patch(long, |data| + BLOCK_TYPE_OFFSET, [TypeNumber(typ)]);
      this.offset, this.typ := |data|, typ;
      start, fields := data, Fresh(typ);
      PatchBehind(data, Zeros(MinLen(typ)), BLOCK_TYPE_OFFSET, [TypeNumber(typ)]);
    }

    method PublicKey(key: Bytes)
      requires Valid() && |key| == 32
      modifies this
      ensures Valid() && fields == old(fields).(key := key)
    {
      hide ToBytes, TypeNumber, Patch, WellFormed;
      WriteWithKey(fields, key);
      PatchBehind(start, Write(fields), 1, key);
      data := Patch(data, offset + 1, key);
      fields := fields.(key := key);
    }

    method NotValidBefore(time: u32)
      requires Valid()
      modifies this
      ensures Valid() && fields == old(fields).(bounds := old(fields).bounds.(start := time))
    {
      WriteWithStart(fields, time);
      PatchBehind(start, Write(fields), BLOCK_NOT_VALID_BEFORE_OFFSET, ToBytes(time, 4));
      data := Patch(data, offset + BLOCK_NOT_VALID_BEFORE_OFFSET, ToBytes(time, 4));
      fields := fields.(bounds := fields.bounds.(start := time));
    }

    method NotValidAfter(time: u32)
      requires Valid()
      modifies this
      ensures Valid() && fields == old(fields).(bounds := old(fields).bounds.(end := time))
    {
      WriteWithEnd(fields, time);
      PatchBehind(start, Write(fields), BLOCK_NOT_VALID_AFTER_OFFSET, ToBytes(time, 4));
      data := Patch(data, offset + BLOCK_NOT_VALID_AFTER_OFFSET, ToBytes(time, 4));
      fields := fields.(bounds := fields.bounds.(end := time));
    }

    method ServerLicenseType(licenseType: u8)
      requires Valid() && (typ == Server || typ == Ts5Server)
      modifies this
      ensures Valid() && fields == old(fields).(licenseType := licenseType)
    {
      hide Write, Patch, WellFormed;
      WriteWithType(fields, licenseType);
      PatchBehind(start, Write(fields), BLOCK_MIN_LEN, [licenseType]);
      data := Patch(data, offset + BLOCK_MIN_LEN, [licenseType]);
      fields := fields.(licenseType := licenseType);
    }

    /** A new property comes last, and the count goes up. */
    method AddProperty(id: u8, propertyType: u8, content: Bytes)
      requires Valid() && typ == Ts5Server && |content| <= 253 && |fields.properties| < 0xff
      modifies this
      ensures Valid()
      ensures fields == old(fields).(properties := old(fields).properties + [Property(id, propertyType, content)])
    {
      hide Write, WriteProperty, Patch, WellFormed;
      ghost var p := Property(id, propertyType, content);
      CountIsThere(fields);
      WriteWithProperty(fields, p);
      data := data + WriteProperty(Property(id, propertyType, content));
      assert data == start + (Write(fields) + WriteProperty(p));
      assert data[offset + BLOCK_MIN_LEN + 1] == Write(fields)[BLOCK_MIN_LEN + 1];
      PatchBehind(start, Write(fields) + WriteProperty(p), BLOCK_MIN_LEN + 1, [|fields.properties| + 1]);
      data := Patch(data, offset + BLOCK_MIN_LEN + 1, [data[offset + BLOCK_MIN_LEN + 1] + 1]);
      fields := fields.(properties := fields.properties + [p]);
    }

    method MaxClients(maxClients: u32)
      requires Valid() && (typ == Intermediate || typ == Server || typ == Ts5Server)
      requires typ == Ts5Server ==> |fields.properties| < 0xff
      modifies this
      ensures Valid()
      ensures fields == if typ != Ts5Server then old(fields).(maxClients := maxClients)
                        else old(fields).(properties :=
                               old(fields).properties + [Property(3, 1, ToBytes(maxClients, 4))])
    {
      if typ == Ts5Server {
        AddProperty(3, 1, ToBytes(maxClients, 4));
      } else {
        var at := BLOCK_MIN_LEN + if typ == Intermediate then 0 else 1;
        WriteWithClients(fields, maxClients);
        PatchBehind(start, Write(fields), at, ToBytes(maxClients, 4));
        data := Patch(data, offset + at, ToBytes(maxClients, 4));
        fields := fields.(maxClients := maxClients);
      }
    }

    /** The issuer ends with a zero; outside of Ts5 blocks it is set at most once. */
    method Issuer(issuer: Bytes)
      requires Valid() && (typ == Intermediate || typ == Server || typ == Ts5Server) && 0 !in issuer
      requires if typ == Ts5Server then |issuer| <= 252 && |fields.properties| < 0xff
               else |data| - offset == MinLen(typ)
      modifies this
      ensures Valid()
      ensures fields == if typ != Ts5Server then old(fields).(issuer := issuer)
                        else old(fields).(properties := old(fields).properties + [Property(2, 0, issuer + [0])])
    {
      if typ == Ts5Server {
        AddProperty(2, 0, issuer + [0]);
      } else {
        hide Patch, Zeros, Write;
        WriteWithIssuer(fields, issuer);
        var at := |data| - 1;
        data := data + Zeros(|issuer|);
        PatchBehind(start, Write(fields) + Zeros(|issuer|), |Write(fields)| - 1, issuer);
        assert data == start + (Write(fields) + Zeros(|issuer|));
        data := Patch(data, at, issuer);
        fields := fields.(issuer := issuer);
      }
    }
  }

  /** Changes of the body show in the whole block. */
  lemma WriteWithBody(f: Fields, g: Fields, extra: Bytes, at: nat, bytes: Bytes)
    requires WellFormed(f) && WellFormed(g) && f.typ == g.typ && f.key == g.key && f.bounds == g.bounds
    requires at + |bytes| <= |Body(f) + extra| && Body(g) == Patch(Body(f) + extra, at, bytes)
    ensures BLOCK_MIN_LEN + at + |bytes| <= |Write(f) + extra|
    ensures Write(g) == Patch(Write(f) + extra, BLOCK_MIN_LEN + at, bytes)
  {
    hide Head, Body, Patch;
    SameHead(f, g);
    PatchBehind(Head(f), Body(f) + extra, at, bytes);
    assert Write(f) + extra == Head(f) + (Body(f) + extra);
  }

  lemma WriteWithType(f: Fields, licenseType: u8)
    requires WellFormed(f) && (f.typ == Server || f.typ == Ts5Server)
    ensures var g := f.(licenseType := licenseType);
      WellFormed(g) && |Write(f)| > BLOCK_MIN_LEN && Write(g) == Patch(Write(f), BLOCK_MIN_LEN, [licenseType])
  {
    hide ToBytes, Patch, WriteProperties, Head;
    var g := f.(licenseType := licenseType);
    var tail := if f.typ == Server then ToBytes(f.maxClients, 4) + f.issuer + [0]
                else [|f.properties|] + WriteProperties(f.properties);
    assert Body(f) + [] == [] + [f.licenseType] + tail;
    assert Body(g) == [] + [licenseType] + tail;
    Patched([], [f.licenseType], tail, [licenseType]);
    WriteWithBody(f, g, [], 0, [licenseType]);
    assert Write(f) + [] == Write(f);
  }

  lemma {:induction false} WriteWithClients(f: Fields, maxClients: u32)
    requires WellFormed(f) && (f.typ == Intermediate || f.typ == Server)
    ensures var g := f.(maxClients := maxClients);
      var at := BLOCK_MIN_LEN + if f.typ == Intermediate then 0 else 1;
      WellFormed(g) && |Write(f)| >= at + 4 && Write(g) == Patch(Write(f), at, ToBytes(maxClients, 4))
  {
    hide ToBytes, Patch, Head;
    var g := f.(maxClients := maxClients);
    var head := if f.typ == Intermediate then [] else [f.licenseType];
    assert Body(f) + [] == head + ToBytes(f.maxClients, 4) + (f.issuer + [0]);
    assert Body(g) == head + ToBytes(maxClients, 4) + (f.issuer + [0]);
    Patched(head, ToBytes(f.maxClients, 4), f.issuer + [0], ToBytes(maxClients, 4));
    WriteWithBody(f, g, [], |head|, ToBytes(maxClients, 4));
    assert Write(f) + [] == Write(f);
  }

  lemma {:induction false} WriteWithIssuer(f: Fields, issuer: Bytes)
    requires WellFormed(f) && (f.typ == Intermediate || f.typ == Server) && 0 !in issuer
    requires |Write(f)| == MinLen(f.typ)
    ensures var g := f.(issuer := issuer);
      WellFormed(g) && Write(g) == Patch(Write(f) + Zeros(|issuer|), |Write(f)| - 1, issuer)
  {
    hide Patch, Zeros, Head, Body, StartOfBody;
    var g := f.(issuer := issuer);
    BodyOfIssuer(f);
    BodyOfIssuer(g);
    assert f.issuer == [] && StartOfBody(g) == StartOfBody(f) by {
      SameStart(f, g);
    }
    assert StartOfBody(f) + [] + [0] == StartOfBody(f) + [0];
    PatchIssuer(StartOfBody(f), issuer);
    WriteWithBody(f, g, Zeros(|issuer|), |StartOfBody(f)|, issuer);
  }

  function StartOfBody(f: Fields): Bytes {
    (if f.typ == Intermediate then [] else [f.licenseType]) + ToBytes(f.maxClients, 4)
  }

  lemma SameStart(f: Fields, g: Fields)
    requires f.typ == g.typ && f.licenseType == g.licenseType && f.maxClients == g.maxClients
    ensures StartOfBody(f) == StartOfBody(g)
  {
  }

  lemma BodyOfIssuer(f: Fields)
    requires WellFormed(f) && (f.typ == Intermediate || f.typ == Server)
    ensures Body(f) == StartOfBody(f) + f.issuer + [0]
    ensures |Write(f)| == MinLen(f.typ) + |f.issuer|
  {
    hide Head, ToBytes;
    assert [] + ToBytes(f.maxClients, 4) == ToBytes(f.maxClients, 4);
  }

  lemma PatchIssuer(head: Bytes, issuer: Bytes)
    ensures Patch(head + [0] + Zeros(|issuer|), |head|, issuer) == head + issuer + [0]
  {
    hide Patch, Zeros;
    var n := |issuer|;
    ZerosAround(n);
    Associative(head, [0], Zeros(n));
    Associative(head, Zeros(n), [0]);
    Patched(head, Zeros(n), [0], issuer);
  }

  lemma ZerosAround(n: nat)
    ensures [0] + Zeros(n) == Zeros(n) + [0]
  {
    ZerosAdd(1, n);
    assert Zeros(1) == [0];
  }

  lemma CountIsThere(f: Fields)
    requires WellFormed(f) && f.typ == Ts5Server
    ensures |Write(f)| >= BLOCK_MIN_LEN + 2 && Write(f)[BLOCK_MIN_LEN + 1] == |f.properties|
  {
    hide Head;
  }

  lemma WriteWithProperty(f: Fields, p: Property)
    requires WellFormed(f) && f.typ == Ts5Server && |p.content| <= 253 && |f.properties| < 0xff
    ensures var g := f.(properties := f.properties + [p]);
      && WellFormed(g) && |Write(f)| >= BLOCK_MIN_LEN + 2
      && Write(g) == Patch(Write(f) + WriteProperty(p), BLOCK_MIN_LEN + 1, [|f.properties| + 1])
  {
    hide Patch, Head, WriteProperty;
    var g := f.(properties := f.properties + [p]);
    var ps := WriteProperties(f.properties);
    assert g.properties[..|f.properties|] == f.properties;
    assert Body(f) + WriteProperty(p) == [f.licenseType] + [|f.properties|] + (ps + WriteProperty(p));
    assert Body(g) == [f.licenseType] + [|f.properties| + 1] + (ps + WriteProperty(p));
    Patched([f.licenseType], [|f.properties|], ps + WriteProperty(p), [|f.properties| + 1]);
    WriteWithBody(f, g, WriteProperty(p), 1, [|f.properties| + 1]);
  }

  lemma SameHead(f: Fields, g: Fields)
    requires WellFormed(f) && WellFormed(g) && f.typ == g.typ && f.key == g.key && f.bounds == g.bounds
    ensures Head(f) == Head(g)
  {
  }

  lemma PatchBehind(a: Bytes, b: Bytes, at: nat, bytes: Bytes)
    requires at + |bytes| <= |b|
    ensures Patch(a + b, |a| + at, bytes) == a + Patch(b, at, bytes)
  {
    assert (a + b)[..|a| + at] == a + b[..at];
    assert (a + b)[|a| + at + |bytes|..] == b[at + |bytes|..];
  }

  lemma SameBody(f: Fields, g: Fields)
    requires WellFormed(f) && WellFormed(g) && f.typ == g.typ && f.licenseType == g.licenseType
    requires f.maxClients == g.maxClients && f.issuer == g.issuer && f.properties == g.properties
    ensures Body(f) == Body(g)
  {
  }

  lemma WriteWithKey(f: Fields, key: Bytes)
    requires WellFormed(f) && |key| == 32
    ensures WellFormed(f.(key := key)) && Write(f.(key := key)) == Patch(Write(f), 1, key)
  {
    hide ToBytes, TypeNumber, Patch, Body;
    var tail := [TypeNumber(f.typ)] + ToBytes(f.bounds.start, 4) + ToBytes(f.bounds.end, 4) + Body(f);
    Patched([0], f.key, tail, key);
    SameBody(f, f.(key := key));
    assert Write(f) == [0] + f.key + tail;
    assert Write(f.(key := key)) == [0] + key + tail;
  }

  lemma WriteWithStart(f: Fields, time: u32)
    requires WellFormed(f)
    ensures var g := f.(bounds := f.bounds.(start := time));
      WellFormed(g) && Write(g) == Patch(Write(f), BLOCK_NOT_VALID_BEFORE_OFFSET, ToBytes(time, 4))
  {
    hide ToBytes, TypeNumber, Patch, Body;
    var head, tail := [0] + f.key + [TypeNumber(f.typ)], ToBytes(f.bounds.end, 4) + Body(f);
    Patched(head, ToBytes(f.bounds.start, 4), tail, ToBytes(time, 4));
    SameBody(f, f.(bounds := f.bounds.(start := time)));
    assert Write(f) == head + ToBytes(f.bounds.start, 4) + tail;
    assert Write(f.(bounds := f.bounds.(start := time))) == head + ToBytes(time, 4) + tail;
  }

  lemma WriteWithEnd(f: Fields, time: u32)
    requires WellFormed(f)
    ensures var g := f.(bounds := f.bounds.(end := time));
      WellFormed(g) && Write(g) == Patch(Write(f), BLOCK_NOT_VALID_AFTER_OFFSET, ToBytes(time, 4))
  {
    hide ToBytes, TypeNumber, Patch, Body;
    var head := [0] + f.key + [TypeNumber(f.typ)] + ToBytes(f.bounds.start, 4);
    Patched(head, ToBytes(f.bounds.end, 4), Body(f), ToBytes(time, 4));
    SameBody(f, f.(bounds := f.bounds.(end := time)));
    assert Write(f) == head + ToBytes(f.bounds.end, 4) + Body(f);
    assert Write(f.(bounds := f.bounds.(end := time))) == head + ToBytes(time, 4) + Body(f);
  }
}
