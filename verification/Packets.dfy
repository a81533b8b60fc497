/**
 The ten packed packet structs, how they lie in memory, and the dispatch that
 casts a frame back to one of them.

 A struct is a header (total size, packet id) followed by its fields with no
 padding. Integers are little-endian, as on the x86 hosts the server targets;
 char arrays are copied as they are.
 */
module Packets {
  import opened Bytes

  type u8 = x: int | 0 <= x < 0x100
  type u16 = x: int | 0 <= x < 0x1_0000
  type u32 = x: int | 0 <= x < 0x1_0000_0000
  type u64 = x: int | 0 <= x < 0x1_0000_0000_0000_0000

  type Text20 = s: Buffer | |s| == 20 witness seq(20, _ => 0)
  type Text21 = s: Buffer | |s| == 21 witness seq(21, _ => 0)
  type Text31 = s: Buffer | |s| == 31 witness seq(31, _ => 0)
  type Text51 = s: Buffer | |s| == 51 witness seq(51, _ => 0)
  type Text256 = s: Buffer | |s| == 256 witness seq(256, _ => 0)

  const HEADER_SIZE := 4

  datatype Packet =
    | Adventure(adventureId: u64, adventureName: Text21, status: u8, createdAt: Text20, updatedAt: Text20)
    | Guild(guildId: u64, guildName: Text31, guildLevel: u32, status: u8, createdAt: Text20, updatedAt: Text20)
    | Character(characterId: u64, adventureId: u64, guildId: u64, jobCode: u32, nickname: Text31,
                stateCode: u32, createdAt: Text20, updatedAt: Text20)
    | CharacterStat(characterId: u64, level: u32, hpMax: u32, hp: u32, mpMax: u32, mp: u32,
                    isAlive: u8, lastMapId: u32)
    | ItemDictionary(itemDictId: u32, itemType: u32, itemName: Text51, description: Text256,
                     createdAt: Text20, updatedAt: Text20)
    | ItemInstance(itemInstanceId: u64, itemDictId: u32, count: u32, enhanceLevel: u32,
                   createdAt: Text20, updatedAt: Text20)
    | Inventory(characterId: u64, tabType: u8, slotIndex: u32, itemInstanceId: u64)
    | Auction(auctionId: u64, sellerId: u64, itemInstanceId: u64, price: u32, tradeStatus: u8,
              createdAt: Text20, expiredAt: Text20)
    | EnterRoom(characterId: u64, mapId: u32)
    | LeaveRoom(characterId: u64, mapId: u32)

  // ---------------------------------------------------------------------
  // Memory layout
  // ---------------------------------------------------------------------

  datatype Slot = NumSlot(width: nat) | TextSlot(width: nat)

  datatype Field = Num(value: nat) | Text(raw: Buffer)

  const ADVENTURE: seq<Slot> := [NumSlot(8), TextSlot(21), NumSlot(1), TextSlot(20), TextSlot(20)]
  const GUILD: seq<Slot> := [NumSlot(8), TextSlot(31), NumSlot(4), NumSlot(1), TextSlot(20), TextSlot(20)]
  const CHARACTER: seq<Slot> := [
    NumSlot(8), NumSlot(8), NumSlot(8), NumSlot(4), TextSlot(31), NumSlot(4),
    TextSlot(20), TextSlot(20)
  ]
  const CHARACTER_STAT: seq<Slot> := [
    NumSlot(8), NumSlot(4), NumSlot(4), NumSlot(4), NumSlot(4), NumSlot(4),
    NumSlot(1), NumSlot(4)
  ]
  const ITEM_DICTIONARY: seq<Slot> := [NumSlot(4), NumSlot(4), TextSlot(51), TextSlot(256), TextSlot(20), TextSlot(20)]
  const ITEM_INSTANCE: seq<Slot> := [NumSlot(8), NumSlot(4), NumSlot(4), NumSlot(4), TextSlot(20), TextSlot(20)]
  const INVENTORY: seq<Slot> := [NumSlot(8), NumSlot(1), NumSlot(4), NumSlot(8)]
  const AUCTION: seq<Slot> := [NumSlot(8), NumSlot(8), NumSlot(8), NumSlot(4), NumSlot(1), TextSlot(20), TextSlot(20)]
  const ENTER_ROOM: seq<Slot> := [NumSlot(8), NumSlot(4)]
  const LEAVE_ROOM: seq<Slot> := [NumSlot(8), NumSlot(4)]

  function Layout(id: u16): Option<seq<Slot>> {
    match id
    case 1000 => Some(ADVENTURE)
    case 1001 => Some(GUILD)
    case 1002 => Some(CHARACTER)
    case 1003 => Some(CHARACTER_STAT)
    case 1004 => Some(ITEM_DICTIONARY)
    case 1005 => Some(ITEM_INSTANCE)
    case 1006 => Some(INVENTORY)
    case 1007 => Some(AUCTION)
    case 1008 => Some(ENTER_ROOM)
    case 1009 => Some(LEAVE_ROOM)
    case _ => None
  }

  function Width(layout: seq<Slot>): nat {
    if layout == [] then 0 else layout[0].width + Width(layout[1..])
  }

  function StructSize(layout: seq<Slot>): nat {
    HEADER_SIZE + Width(layout)
  }

  predicate Fits(f: Field, slot: Slot) {
    match slot
    case NumSlot(w) => f.Num? && f.value < Pow256(w)
    case TextSlot(w) => f.Text? && |f.raw| == w
  }

  predicate Conforms(fs: seq<Field>, layout: seq<Slot>) {
    |fs| == |layout| && forall i :: 0 <= i < |fs| ==> Fits(fs[i], layout[i])
  }

  function EncodeField(f: Field, slot: Slot): (s: Buffer)
    requires Fits(f, slot)
    ensures |s| == slot.width
  {
    match slot
    case NumSlot(w) => ToLE(f.value, w)
    case TextSlot(_) => f.raw
  }

  function DecodeField(s: Buffer, slot: Slot): (f: Field)
    requires |s| == slot.width
    ensures Fits(f, slot)
  {
    match slot
    case NumSlot(_) => Num(FromLE(s))
    case TextSlot(_) => Text(s)
  }

  function EncodeFields(fs: seq<Field>, layout: seq<Slot>): (s: Buffer)
    requires Conforms(fs, layout)
    ensures |s| == Width(layout)
  {
    if layout == [] then [] else EncodeField(fs[0], layout[0]) + EncodeFields(fs[1..], layout[1..])
  }

  /** Reads the fields at their offsets; bytes after the last field are not looked at. */
  function DecodeFields(s: Buffer, layout: seq<Slot>): (fs: seq<Field>)
    requires |s| >= Width(layout)
    ensures Conforms(fs, layout)
  {
    if layout == [] then []
    else
      var w := layout[0].width;
      [DecodeField(s[..w], layout[0])] + DecodeFields(s[w..], layout[1..])
  }

  lemma DecodeEncodeField(f: Field, slot: Slot)
    requires Fits(f, slot)
    ensures DecodeField(EncodeField(f, slot), slot) == f
  {
    if slot.NumSlot? {
      FromToLE(f.value, slot.width);
    }
  }

  lemma TakeHead(head: Buffer, rest: Buffer, tail: Buffer)
    ensures var s := head + rest + tail;
            s[..|head|] == head && s[|head|..] == rest + tail
  {
  }

  lemma {:induction false} DecodeEncodeFields(fs: seq<Field>, layout: seq<Slot>, tail: Buffer)
    requires Conforms(fs, layout)
    ensures DecodeFields(EncodeFields(fs, layout) + tail, layout) == fs
  {
    if layout != [] {
      TakeHead(EncodeField(fs[0], layout[0]), EncodeFields(fs[1..], layout[1..]), tail);
      DecodeEncodeField(fs[0], layout[0]);
      DecodeEncodeFields(fs[1..], layout[1..], tail);
      HeadTail(fs);
    }
  }

  lemma {:induction false} EncodeDecodeFields(s: Buffer, layout: seq<Slot>)
    requires |s| >= Width(layout)
    ensures EncodeFields(DecodeFields(s, layout), layout) == s[..Width(layout)]
  {
    if layout != [] {
      var w := layout[0].width;
      ToFromLE(s[..w]);
      EncodeDecodeFields(s[w..], layout[1..]);
      Shifted(s, w, Width(layout[1..]));
    }
  }

  lemma Shifted(s: Buffer, w: nat, n: nat)
    requires w + n <= |s|
    ensures s[..w] + s[w..][..n] == s[..w + n]
  {
  }

  // ---------------------------------------------------------------------
  // Structs
  // ---------------------------------------------------------------------

  function PacketId(p: Packet): (id: u16)
    ensures Layout(id).Some?
  {
    match p
    case Adventure(_, _, _, _, _) => 1000
    case Guild(_, _, _, _, _, _) => 1001
    case Character(_, _, _, _, _, _, _, _) => 1002
    case CharacterStat(_, _, _, _, _, _, _, _) => 1003
    case ItemDictionary(_, _, _, _, _, _) => 1004
    case ItemInstance(_, _, _, _, _, _) => 1005
    case Inventory(_, _, _, _) => 1006
    case Auction(_, _, _, _, _, _, _) => 1007
    case EnterRoom(_, _) => 1008
    case LeaveRoom(_, _) => 1009
  }

  function Fields(p: Packet): (fs: seq<Field>)
    ensures Conforms(fs, Layout(PacketId(p)).value)
  {
    Widths();
    match p
    case Adventure(a, n, s, c, u) => [Num(a), Text(n), Num(s), Text(c), Text(u)]
    case Guild(g, n, l, s, c, u) => [Num(g), Text(n), Num(l), Num(s), Text(c), Text(u)]
    case Character(i, a, g, j, n, s, c, u) => [Num(i), Num(a), Num(g), Num(j), Text(n), Num(s), Text(c), Text(u)]
    case CharacterStat(i, l, hx, h, mx, m, al, lm) =>
      [Num(i), Num(l), Num(hx), Num(h), Num(mx), Num(m), Num(al), Num(lm)]
    case ItemDictionary(i, t, n, d, c, u) => [Num(i), Num(t), Text(n), Text(d), Text(c), Text(u)]
    case ItemInstance(i, d, n, e, c, u) => [Num(i), Num(d), Num(n), Num(e), Text(c), Text(u)]
    case Inventory(c, t, s, i) => [Num(c), Num(t), Num(s), Num(i)]
    case Auction(a, s, i, p, t, c, e) => [Num(a), Num(s), Num(i), Num(p), Num(t), Text(c), Text(e)]
    case EnterRoom(c, m) => [Num(c), Num(m)]
    case LeaveRoom(c, m) => [Num(c), Num(m)]
  }

  /** The struct the switch of Handle casts to for this id. */
  function Build(id: u16, f: seq<Field>): (p: Packet)
    requires Layout(id).Some? && Conforms(f, Layout(id).value)
    ensures PacketId(p) == id && Fields(p) == f
  {
    Widths();
    match id
    case 1000 => Adventure(f[0].value, f[1].raw, f[2].value, f[3].raw, f[4].raw)
    case 1001 => Guild(f[0].value, f[1].raw, f[2].value, f[3].value, f[4].raw, f[5].raw)
    case 1002 => Character(f[0].value, f[1].value, f[2].value, f[3].value, f[4].raw, f[5].value, f[6].raw, f[7].raw)
    case 1003 => CharacterStat(f[0].value, f[1].value, f[2].value, f[3].value, f[4].value, f[5].value, f[6].value,
                               f[7].value)
    case 1004 => ItemDictionary(f[0].value, f[1].value, f[2].raw, f[3].raw, f[4].raw, f[5].raw)
    case 1005 => ItemInstance(f[0].value, f[1].value, f[2].value, f[3].value, f[4].raw, f[5].raw)
    case 1006 => Inventory(f[0].value, f[1].value, f[2].value, f[3].value)
    case 1007 => Auction(f[0].value, f[1].value, f[2].value, f[3].value, f[4].value, f[5].raw, f[6].raw)
    case 1008 => EnterRoom(f[0].value, f[1].value)
    case _ => LeaveRoom(f[0].value, f[1].value)
  }

  /** The bytes of a struct whose header holds its own size, as every sender fills it in. */
  function Encode(p: Packet): (s: Buffer)
    ensures |s| == StructSize(Layout(PacketId(p)).value)
  {
    var layout := Layout(PacketId(p)).value;
    ToLE(StructSize(layout), 2) + ToLE(PacketId(p), 2) + EncodeFields(Fields(p), layout)
  }

  /** What becomes of one assembled frame in PacketHandler::Handle. */
  datatype Dispatch =
    | SizeError                 // shorter than a header: logged and dropped
    | UnknownId(id: u16)        // logged and dropped
    | ReadsPastEnd(id: u16)     // the cast struct is longer than the frame: behaviour undefined in C++
    | Delivered(packet: Packet) // the handler of that struct runs

  /** header.size and header.id. */
  function SizeOf(frame: Buffer): (n: u16)
    requires |frame| >= HEADER_SIZE
  {
    Widths();
    FromLE(frame[0..2])
  }

  function IdOf(frame: Buffer): (id: u16)
    requires |frame| >= HEADER_SIZE
  {
    Widths();
    FromLE(frame[2..4])
  }

  /** Both little-endian. */
  lemma HeaderBytes(frame: Buffer)
    requires |frame| >= 4
    ensures SizeOf(frame) == frame[0] as int + 256 * frame[1] as int
    ensures IdOf(frame) == frame[2] as int + 256 * frame[3] as int
  {
    FewBytes(frame[0..2]);
    FewBytes(frame[2..4]);
  }

  /** A cast of bytes to the struct with this id. */
  function StructOf(id: u16, bytes: Buffer): (p: Packet)
    requires Layout(id).Some? && |bytes| >= StructSize(Layout(id).value)
    ensures PacketId(p) == id
  {
    Build(id, DecodeFields(bytes[HEADER_SIZE..], Layout(id).value))
  }

  function Handle(frame: Buffer): Dispatch {
    if |frame| < HEADER_SIZE then SizeError
    else
      var id := IdOf(frame);
      match Layout(id)
      case None => UnknownId(id)
      case Some(layout) =>
        if |frame| < StructSize(layout) then ReadsPastEnd(id)
        else Delivered(StructOf(id, frame))
  }

  // ---------------------------------------------------------------------
  // Round trips
  // ---------------------------------------------------------------------

  /** The struct sizes are the documented ones, and all of them pass the 4..512 header check. */
  lemma StructSizes()
    ensures StructSize(ADVENTURE) == 74 && StructSize(GUILD) == 88
    ensures StructSize(CHARACTER) == 107 && StructSize(CHARACTER_STAT) == 37
    ensures StructSize(ITEM_DICTIONARY) == 359 && StructSize(ITEM_INSTANCE) == 64
    ensures StructSize(INVENTORY) == 25 && StructSize(AUCTION) == 73
    ensures StructSize(ENTER_ROOM) == 16 && StructSize(LEAVE_ROOM) == 16
  {
    assert Width(ADVENTURE) == 70 by { WidthSum(ADVENTURE); }
    assert Width(GUILD) == 84 by { WidthSum(GUILD); }
    assert Width(CHARACTER) == 103 by { WidthSum(CHARACTER); }
    assert Width(CHARACTER_STAT) == 33 by { WidthSum(CHARACTER_STAT); }
    assert Width(ITEM_DICTIONARY) == 355 by { WidthSum(ITEM_DICTIONARY); }
    assert Width(ITEM_INSTANCE) == 60 by { WidthSum(ITEM_INSTANCE); }
    assert Width(INVENTORY) == 21 by { WidthSum(INVENTORY); }
    assert Width(AUCTION) == 69 by { WidthSum(AUCTION); }
    assert Width(ENTER_ROOM) == 12 by { WidthSum(ENTER_ROOM); }
    assert Width(LEAVE_ROOM) == 12 by { WidthSum(LEAVE_ROOM); }
  }

  function WidthAt(l: seq<Slot>, i: nat): nat {
    if i < |l| then l[i].width else 0
  }

  /** Width, unrolled for the layouts of up to eight fields. */
  lemma {:induction false} WidthSum(l: seq<Slot>)
    requires |l| <= 8
    ensures Width(l) == WidthAt(l, 0) + WidthAt(l, 1) + WidthAt(l, 2) + WidthAt(l, 3)
                        + WidthAt(l, 4) + WidthAt(l, 5) + WidthAt(l, 6) + WidthAt(l, 7)
  {
    if l != [] {
      WidthSum(l[1..]);
    }
  }

  lemma LayoutSizes(id: u16)
    requires Layout(id).Some?
    ensures 16 <= StructSize(Layout(id).value) <= 359
  {
    StructSizes();
  }

  lemma PacketSizes(p: Packet)
    ensures 16 <= StructSize(Layout(PacketId(p)).value) <= 359
  {
    LayoutSizes(PacketId(p));
  }

  /** The header of an encoded struct reads back as its size and its id, and the fields follow. */
  lemma {:induction false} EncodedHeader(p: Packet, tail: Buffer)
    ensures var s := Encode(p) + tail;
            SizeOf(s) == |Encode(p)| && IdOf(s) == PacketId(p) && 16 <= |Encode(p)| <= 359
    ensures (Encode(p) + tail)[HEADER_SIZE..] == EncodeFields(Fields(p), Layout(PacketId(p)).value) + tail
  {
    PacketSizes(p);
    Widths();
    var n, id := StructSize(Layout(PacketId(p)).value), PacketId(p);
    FromToLE(n, 2);
    FromToLE(id, 2);
    HeaderParts(ToLE(n, 2), ToLE(id, 2), EncodeFields(Fields(p), Layout(id).value), tail);
  }

  lemma HeaderParts(size: Buffer, id: Buffer, fields: Buffer, tail: Buffer)
    requires |size| == |id| == 2
    ensures var s := size + id + fields + tail;
            s[0..2] == size && s[2..4] == id && s[HEADER_SIZE..] == fields + tail
  {
  }

  lemma HandleDelivers(frame: Buffer, layout: seq<Slot>, fs: seq<Field>)
    requires |frame| >= StructSize(layout) && Layout(IdOf(frame)) == Some(layout)
    requires DecodeFields(frame[HEADER_SIZE..], layout) == fs
    ensures Handle(frame) == Delivered(Build(IdOf(frame), fs))
  {
  }

  /** The bytes of the header, in figures: the size, then the id of each struct. */
  lemma {:induction false} HeaderOnWire(p: Packet)
    ensures var (s, id) := (Encode(p), Encode(p)[2] as int + 256 * Encode(p)[3] as int);
            && s[0] as int + 256 * s[1] as int == |s|
            && match p
               case Adventure(_, _, _, _, _) => id == 1000 && |s| == 74
               case Guild(_, _, _, _, _, _) => id == 1001 && |s| == 88
               case Character(_, _, _, _, _, _, _, _) => id == 1002 && |s| == 107
               case CharacterStat(_, _, _, _, _, _, _, _) => id == 1003 && |s| == 37
               case ItemDictionary(_, _, _, _, _, _) => id == 1004 && |s| == 359
               case ItemInstance(_, _, _, _, _, _) => id == 1005 && |s| == 64
               case Inventory(_, _, _, _) => id == 1006 && |s| == 25
               case Auction(_, _, _, _, _, _, _) => id == 1007 && |s| == 73
               case EnterRoom(_, _) => id == 1008 && |s| == 16
               case LeaveRoom(_, _) => id == 1009 && |s| == 16
  {
    EncodedHeader(p, []);
    assert Encode(p) + [] == Encode(p);
    HeaderBytes(Encode(p));
    SizeInFigures(PacketId(p));
  }

  /** The size of the struct with each id. */
  function SizeForId(id: u16): nat {
    match id
    case 1000 => 74
    case 1001 => 88
    case 1002 => 107
    case 1003 => 37
    case 1004 => 359
    case 1005 => 64
    case 1006 => 25
    case 1007 => 73
    case 1008 => 16
    case _ => 16
  }

  lemma SizeInFigures(id: u16)
    requires 1000 <= id <= 1009
    ensures Layout(id).Some? && StructSize(Layout(id).value) == SizeForId(id)
  {
    StructSizes();
  }

  /**
   What the dispatch does with any frame, told by its bytes: which are dropped, which are
   too short for their struct, and for which a handler runs.
   */
  lemma HandleByBytes(frame: Buffer)
    ensures Handle(frame) == SizeError <==> |frame| < 4
    ensures |frame| >= 4 ==>
      var id := frame[2] as int + 256 * frame[3] as int;
      && (Handle(frame) == UnknownId(id) <==> id < 1000 || id > 1009)
      && (Handle(frame) == ReadsPastEnd(id) <==> 1000 <= id <= 1009 && |frame| < SizeForId(id))
      && (Handle(frame).Delivered? <==> 1000 <= id <= 1009 && |frame| >= SizeForId(id))
  {
    if |frame| >= 4 {
      HeaderBytes(frame);
      var id := IdOf(frame);
      if 1000 <= id <= 1009 {
        SizeInFigures(id);
      }
    }
  }

  /** And which handler it is. */
  lemma HandlerByBytes(frame: Buffer)
    requires Handle(frame).Delivered?
    ensures |frame| >= 4 &&
      var id := frame[2] as int + 256 * frame[3] as int;
      match Handle(frame).packet
      case Adventure(_, _, _, _, _) => id == 1000
      case Guild(_, _, _, _, _, _) => id == 1001
      case Character(_, _, _, _, _, _, _, _) => id == 1002
      case CharacterStat(_, _, _, _, _, _, _, _) => id == 1003
      case ItemDictionary(_, _, _, _, _, _) => id == 1004
      case ItemInstance(_, _, _, _, _, _) => id == 1005
      case Inventory(_, _, _, _) => id == 1006
      case Auction(_, _, _, _, _, _, _) => id == 1007
      case EnterRoom(_, _) => id == 1008
      case LeaveRoom(_, _) => id == 1009
  {
    HeaderBytes(frame);
    assert PacketId(Handle(frame).packet) == IdOf(frame);
  }

  /** Reading a struct off the bytes of an encoded one gives it back. */
  lemma {:induction false} DecodeStruct(p: Packet, tail: Buffer)
    ensures var (s, layout) := (Encode(p) + tail, Layout(PacketId(p)).value);
            && |s| >= StructSize(layout)
            && DecodeFields(s[HEADER_SIZE..], layout) == Fields(p)
            && Build(PacketId(p), Fields(p)) == p
  {
    EncodedHeader(p, tail);
    DecodeEncodeFields(Fields(p), Layout(PacketId(p)).value, tail);
    BuildFields(p);
  }

  lemma {:induction false} StructReadsBack(p: Packet)
    ensures StructOf(PacketId(p), Encode(p)) == p
  {
    DecodeStruct(p, []);
    assert Encode(p) + [] == Encode(p);
  }

  /** The fields of a cast struct are the bytes behind the header, as they stand. */
  lemma {:induction false} CastKeepsBytes(id: u16, bytes: Buffer)
    requires Layout(id).Some? && |bytes| >= StructSize(Layout(id).value)
    ensures var n := StructSize(Layout(id).value);
            |Encode(StructOf(id, bytes))| == n && Encode(StructOf(id, bytes))[HEADER_SIZE..] == bytes[HEADER_SIZE..n]
  {
    var layout, p := Layout(id).value, StructOf(id, bytes);
    EncodeDecodeFields(bytes[HEADER_SIZE..], layout);
    EncodedHeader(p, []);
    assert Encode(p) + [] == Encode(p);
    assert EncodeFields(Fields(p), layout) + [] == EncodeFields(Fields(p), layout);
    assert bytes[HEADER_SIZE..][..Width(layout)] == bytes[HEADER_SIZE..StructSize(layout)];
  }

  /** Handle gives back the very struct that was sent, also when the frame carries trailing bytes. */
  lemma {:induction false} HandleEncode(p: Packet, tail: Buffer)
    ensures Handle(Encode(p) + tail) == Delivered(p)
  {
    EncodedHeader(p, tail);
    DecodeStruct(p, tail);
    HandleDelivers(Encode(p) + tail, Layout(PacketId(p)).value, Fields(p));
  }

  lemma BuildFields(p: Packet)
    ensures Build(PacketId(p), Fields(p)) == p
  {
    match p
    case Adventure(_, _, _, _, _) =>
    case Guild(_, _, _, _, _, _) =>
    case Character(_, _, _, _, _, _, _, _) =>
    case CharacterStat(_, _, _, _, _, _, _, _) =>
    case ItemDictionary(_, _, _, _, _, _) =>
    case ItemInstance(_, _, _, _, _, _) =>
    case Inventory(_, _, _, _) =>
    case Auction(_, _, _, _, _, _, _) =>
    case EnterRoom(_, _) =>
    case LeaveRoom(_, _) =>
  }

  /** The other way round: a frame exactly as long as its struct is the encoding of what Handle delivers. */
  lemma {:induction false} EncodeHandle(frame: Buffer)
    requires Handle(frame).Delivered?
    requires |frame| == StructSize(Layout(IdOf(frame)).value) == SizeOf(frame)
    ensures Encode(Handle(frame).packet) == frame
  {
    var fields := frame[HEADER_SIZE..];
    EncodeDecodeFields(fields, Layout(IdOf(frame)).value);
    assert fields[..|fields|] == fields;
    ToFromLE(frame[0..2]);
    ToFromLE(frame[2..4]);
    ThreeParts(frame);
  }

  lemma ThreeParts(frame: Buffer)
    requires |frame| >= HEADER_SIZE
    ensures frame[0..2] + frame[2..4] + frame[HEADER_SIZE..] == frame
  {
  }

  // ---------------------------------------------------------------------
  // The wire format, written out
  // ---------------------------------------------------------------------

  /** The fields of each struct after the header, as bytes, in the order and the widths of the C++ declaration. */
  function WireFields(p: Packet): seq<Buffer> {
    match p
    case Adventure(id, name, status, created, updated) => [ToLE(id, 8), name, ToLE(status, 1), created, updated]
    case Guild(id, name, level, status, created, updated) =>
      [ToLE(id, 8), name, ToLE(level, 4), ToLE(status, 1), created, updated]
    case Character(id, adventure, guild, job, nickname, state, created, updated) =>
      [ToLE(id, 8), ToLE(adventure, 8), ToLE(guild, 8), ToLE(job, 4), nickname, ToLE(state, 4), created, updated]
    case CharacterStat(id, level, hpMax, hp, mpMax, mp, isAlive, lastMapId) =>
      [ToLE(id, 8), ToLE(level, 4), ToLE(hpMax, 4), ToLE(hp, 4), ToLE(mpMax, 4), ToLE(mp, 4), ToLE(isAlive, 1),
       ToLE(lastMapId, 4)]
    case ItemDictionary(id, kind, name, description, created, updated) =>
      [ToLE(id, 4), ToLE(kind, 4), name, description, created, updated]
    case ItemInstance(id, dict, count, enhance, created, updated) =>
      [ToLE(id, 8), ToLE(dict, 4), ToLE(count, 4), ToLE(enhance, 4), created, updated]
    case Inventory(id, tab, slot, item) => [ToLE(id, 8), ToLE(tab, 1), ToLE(slot, 4), ToLE(item, 8)]
    case Auction(id, seller, item, price, status, created, expired) =>
      [ToLE(id, 8), ToLE(seller, 8), ToLE(item, 8), ToLE(price, 4), ToLE(status, 1), created, expired]
    case EnterRoom(id, mapId) => [ToLE(id, 8), ToLE(mapId, 4)]
    case LeaveRoom(id, mapId) => [ToLE(id, 8), ToLE(mapId, 4)]
  }

  function FieldBytes(fs: seq<Field>, layout: seq<Slot>): (bs: seq<Buffer>)
    requires Conforms(fs, layout)
    ensures |bs| == |fs| && forall i :: 0 <= i < |fs| ==> bs[i] == EncodeField(fs[i], layout[i])
  {
    seq(|fs|, i requires 0 <= i < |fs| => EncodeField(fs[i], layout[i]))
  }

  lemma {:induction false} FieldsConcat(fs: seq<Field>, layout: seq<Slot>)
    requires Conforms(fs, layout)
    ensures EncodeFields(fs, layout) == Concat(FieldBytes(fs, layout))
  {
    if fs != [] {
      FieldsConcat(fs[1..], layout[1..]);
      assert FieldBytes(fs, layout)[1..] == FieldBytes(fs[1..], layout[1..]);
    }
  }

  lemma AdventureOnWire(p: Packet)
    requires p.Adventure?
    ensures FieldBytes(Fields(p), Layout(PacketId(p)).value) == WireFields(p)
  {
  }

  lemma GuildOnWire(p: Packet)
    requires p.Guild?
    ensures FieldBytes(Fields(p), Layout(PacketId(p)).value) == WireFields(p)
  {
  }

  lemma CharacterOnWire(p: Packet)
    requires p.Character?
    ensures FieldBytes(Fields(p), Layout(PacketId(p)).value) == WireFields(p)
  {
  }

  lemma CharacterStatOnWire(p: Packet)
    requires p.CharacterStat?
    ensures FieldBytes(Fields(p), Layout(PacketId(p)).value) == WireFields(p)
  {
  }

  lemma ItemDictionaryOnWire(p: Packet)
    requires p.ItemDictionary?
    ensures FieldBytes(Fields(p), Layout(PacketId(p)).value) == WireFields(p)
  {
  }

  lemma ItemInstanceOnWire(p: Packet)
    requires p.ItemInstance?
    ensures FieldBytes(Fields(p), Layout(PacketId(p)).value) == WireFields(p)
  {
  }

  lemma InventoryOnWire(p: Packet)
    requires p.Inventory?
    ensures FieldBytes(Fields(p), Layout(PacketId(p)).value) == WireFields(p)
  {
  }

  lemma AuctionOnWire(p: Packet)
    requires p.Auction?
    ensures FieldBytes(Fields(p), Layout(PacketId(p)).value) == WireFields(p)
  {
  }

  lemma EnterRoomOnWire(p: Packet)
    requires p.EnterRoom?
    ensures FieldBytes(Fields(p), Layout(PacketId(p)).value) == WireFields(p)
  {
  }

  lemma LeaveRoomOnWire(p: Packet)
    requires p.LeaveRoom?
    ensures FieldBytes(Fields(p), Layout(PacketId(p)).value) == WireFields(p)
  {
  }

  lemma FieldsOnWire(p: Packet)
    ensures FieldBytes(Fields(p), Layout(PacketId(p)).value) == WireFields(p)
  {
    match p
    case Adventure(_, _, _, _, _) => AdventureOnWire(p);
    case Guild(_, _, _, _, _, _) => GuildOnWire(p);
    case Character(_, _, _, _, _, _, _, _) => CharacterOnWire(p);
    case CharacterStat(_, _, _, _, _, _, _, _) => CharacterStatOnWire(p);
    case ItemDictionary(_, _, _, _, _, _) => ItemDictionaryOnWire(p);
    case ItemInstance(_, _, _, _, _, _) => ItemInstanceOnWire(p);
    case Inventory(_, _, _, _) => InventoryOnWire(p);
    case Auction(_, _, _, _, _, _, _) => AuctionOnWire(p);
    case EnterRoom(_, _) => EnterRoomOnWire(p);
    case LeaveRoom(_, _) => LeaveRoomOnWire(p);
  }

  /** An encoded struct is its total size, its id, and these fields, without padding. */
  lemma {:induction false} EncodeIsWire(p: Packet)
    ensures Encode(p) == ToLE(|Encode(p)|, 2) + ToLE(PacketId(p), 2) + Concat(
              match p
              case Adventure(id, name, status, created, updated) =>
                [ToLE(id, 8), name, ToLE(status, 1), created, updated]
              case Guild(id, name, level, status, created, updated) =>
                [ToLE(id, 8), name, ToLE(level, 4), ToLE(status, 1), created, updated]
              case Character(id, adventure, guild, job, nickname, state, created, updated) =>
                [ToLE(id, 8), ToLE(adventure, 8), ToLE(guild, 8), ToLE(job, 4), nickname, ToLE(state, 4),
                 created, updated]
              case CharacterStat(id, level, hpMax, hp, mpMax, mp, isAlive, lastMapId) =>
                [ToLE(id, 8), ToLE(level, 4), ToLE(hpMax, 4), ToLE(hp, 4), ToLE(mpMax, 4), ToLE(mp, 4),
                 ToLE(isAlive, 1), ToLE(lastMapId, 4)]
              case ItemDictionary(id, kind, name, description, created, updated) =>
                [ToLE(id, 4), ToLE(kind, 4), name, description, created, updated]
              case ItemInstance(id, dict, count, enhance, created, updated) =>
                [ToLE(id, 8), ToLE(dict, 4), ToLE(count, 4), ToLE(enhance, 4), created, updated]
              case Inventory(id, tab, slot, item) => [ToLE(id, 8), ToLE(tab, 1), ToLE(slot, 4), ToLE(item, 8)]
              case Auction(id, seller, item, price, status, created, expired) =>
                [ToLE(id, 8), ToLE(seller, 8), ToLE(item, 8), ToLE(price, 4), ToLE(status, 1), created, expired]
              case EnterRoom(id, mapId) => [ToLE(id, 8), ToLE(mapId, 4)]
              case LeaveRoom(id, mapId) => [ToLE(id, 8), ToLE(mapId, 4)])
  {
    FieldsConcat(Fields(p), Layout(PacketId(p)).value);
    FieldsOnWire(p);
  }
}
