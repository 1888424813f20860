/**
The block file and a client's copy of it: the index of a cell, committing block edits, and what the level, histories
and reverts make a client show (mmocraft/game/world.cpp:75-91, 148-181, mmocraft/net/game_server.cpp:112-129).
*/
module World {
  import opened Wrappers
  import opened Bytes
  import opened BlockHistory

  // ----- The block file: a 4-byte header, then one byte per cell.

  const BLOCK_FILE_HEADER_SIZE: nat := 4

  datatype Meta = Meta(width: nat, height: nat, length: nat)

  function Volume(m: Meta): nat {
    m.width * m.height * m.length
  }

  ghost predicate MetaValid(m: Meta) {
    0 < m.width && 0 < m.height && 0 < m.length && Volume(m) < 0x8000_0000
  }

  const TWO_32: nat := 0x1_0000_0000
  const TWO_64: nat := 0x1_0000_0000_0000_0000

  /** A product of two ints, wrapped around. */
  function Int32(n: int): (r: int)
    ensures 0 <= n < 0x8000_0000 ==> r == n
    ensures -0x8000_0000 <= r < 0x8000_0000
  {
    var low := n % TWO_32;
    if low < 0x8000_0000 then low else low - TWO_32
  }

  /** a * n, as a sum: a product of variables under a modulus is slow to verify. */
  function Times(a: int, n: nat): int {
    if n == 0 then 0 else Times(a, n - 1) + a
  }

  lemma {:induction false} TimesIsProduct(a: int, n: nat)
    ensures Times(a, n) == a * n
    decreases n
  {
    if n > 0 {
      TimesIsProduct(a, n - 1);
      assert a * n == a * (n - 1) + a;
    }
  }

  /**
  coordinate_to_block_map_index, on coordinates already in host order: int products, sign-extended and added up as
  size_t, where a negative sum wraps around.
  */
  function BlockMapIndex(m: Meta, x: nat, y: nat, z: nat): nat {
    var row, floor := Int32(Times(m.width, z)), Int32(Times(m.width, m.length));
    var sum := BLOCK_FILE_HEADER_SIZE + x + row + Int32(Times(floor, y));
    if sum < 0 then sum + TWO_64 else sum
  }

  /** The byte of a cell. */
  function Offset(m: Meta, x: nat, y: nat, z: nat): (r: nat)
    ensures r >= BLOCK_FILE_HEADER_SIZE
  {
    BLOCK_FILE_HEADER_SIZE + x + m.width * z + m.width * m.length * y
  }

  predicate InRange(m: Meta, x: nat, y: nat, z: nat) {
    x < m.width && y < m.height && z < m.length
  }

  /** The cells the level packet reaches: it sends the first volume bytes of the file, header included. */
  ghost predicate Covered(m: Meta, x: nat, y: nat, z: nat) {
    InRange(m, x, y, z) && Offset(m, x, y, z) < Volume(m)
  }

  lemma OffsetFactored(m: Meta, x: nat, y: nat, z: nat)
    ensures Offset(m, x, y, z) == BLOCK_FILE_HEADER_SIZE + x + m.width * (z + m.length * y)
  {
    assert m.width * (z + m.length * y) == m.width * z + m.width * (m.length * y);
    assert m.width * (m.length * y) == m.width * m.length * y;
  }

  lemma ScaleMonotone(base: nat, q: nat, r: nat)
    requires q <= r
    ensures base * q <= base * r
    ensures q < r ==> base * q + base <= base * r
  {
    var d := r - q;
    assert base * r == base * q + base * d;
    if d > 0 {
      assert base * d == base * (d - 1) + base;
    }
  }

  lemma DigitsUnique(base: nat, a: nat, q: nat, b: nat, r: nat)
    requires a < base && b < base && a + base * q == b + base * r
    ensures a == b && q == r
  {
    if q < r {
      ScaleMonotone(base, q, r);
    } else {
      ScaleMonotone(base, r, q);
    }
  }

  /** Two cells never share a byte. */
  lemma OffsetInjective(m: Meta, x: nat, y: nat, z: nat, x': nat, y': nat, z': nat)
    requires InRange(m, x, y, z) && InRange(m, x', y', z') && Offset(m, x, y, z) == Offset(m, x', y', z')
    ensures x == x' && y == y' && z == z'
  {
    RowsUnique(m, x, y, z, z + m.length * y, x', y', z', z' + m.length * y');
    DigitsUnique(m.length, z, y, z', y');
  }

  /** The same, with the number of the row as a digit of its own. */
  lemma RowsUnique(m: Meta, x: nat, y: nat, z: nat, row: nat, x': nat, y': nat, z': nat, row': nat)
    requires x < m.width && x' < m.width && Offset(m, x, y, z) == Offset(m, x', y', z')
    requires row == z + m.length * y && row' == z' + m.length * y'
    ensures x == x' && row == row'
  {
    OffsetFactored(m, x, y, z);
    OffsetFactored(m, x', y', z');
    DigitsUnique(m.width, x, row, x', row');
  }

  lemma Divide(base: nat, n: nat) returns (q: nat, r: nat)
    requires base > 0
    ensures n == base * q + r && r < base
    decreases n
  {
    if n < base {
      q, r := 0, n;
    } else {
      q, r := Divide(base, n - base);
      assert base * (q + 1) == base * q + base;
      q := q + 1;
    }
  }

  lemma VolumeFactored(m: Meta)
    ensures Volume(m) == m.width * (m.length * m.height)
  {
    assert m.width * (m.height * m.length) == m.width * m.height * m.length;
  }

  /** Every byte behind the header and inside the volume belongs to a cell. */
  lemma OffsetSurjective(m: Meta, at: nat) returns (x: nat, y: nat, z: nat)
    requires MetaValid(m) && BLOCK_FILE_HEADER_SIZE <= at < Volume(m)
    ensures InRange(m, x, y, z) && Offset(m, x, y, z) == at
  {
    var q;
    q, x := Divide(m.width, at - BLOCK_FILE_HEADER_SIZE);
    y, z := Divide(m.length, q);
    OffsetFactored(m, x, y, z);
    if y >= m.height {
      ScaleMonotone(m.length, m.height, y);
      ScaleMonotone(m.width, m.length * m.height, q);
      VolumeFactored(m);
    }
  }

  /** Inside the world the index does not wrap: it is the cell's byte. */
  lemma IndexIsOffset(m: Meta, x: nat, y: nat, z: nat)
    requires MetaValid(m) && InRange(m, x, y, z)
    ensures BlockMapIndex(m, x, y, z) == Offset(m, x, y, z) < BLOCK_FILE_HEADER_SIZE + Volume(m)
  {
    var floor := m.width * m.length;
    FloorsFactored(m);
    ScaleMonotone(m.width, z, m.length);
    ScaleMonotone(floor, y, m.height);
    ScaleMonotone(floor, 0, y);
    ScaleMonotone(floor, 1, m.height);
    ScaleMonotone(m.width, 0, z);
    IndexOfSmallProducts(m, x, y, z, m.width * z, floor, floor * y);
  }

  lemma FloorsFactored(m: Meta)
    ensures Volume(m) == m.width * m.length * m.height
  {
    assert m.width * (m.height * m.length) == m.width * m.height * m.length;
    assert m.width * (m.length * m.height) == m.width * m.length * m.height;
  }

  lemma IndexOfSmallProducts(m: Meta, x: nat, y: nat, z: nat, row: nat, floor: nat, floors: nat)
    requires row == m.width * z && floor == m.width * m.length && floors == floor * y
    requires row < 0x8000_0000 && floor < 0x8000_0000 && floors < 0x8000_0000 && x < 0x8000_0000
    ensures BlockMapIndex(m, x, y, z) == BLOCK_FILE_HEADER_SIZE + x + row + floors
  {
    TimesIsProduct(m.width, z);
    TimesIsProduct(m.width, m.length);
    TimesIsProduct(floor, y);
    assert Int32(floor) == floor && Int32(Times(floor, y)) == floors;
  }

  // ----- Committing edits.

  function CommitOne(m: Meta, blocks: seq<Byte>, e: Edit): (r: seq<Byte>)
    ensures |r| == |blocks|
  {
    var at := BlockMapIndex(m, e.x, e.y, e.z);
    if at < Volume(m) && at < |blocks| then blocks[at := e.id] else blocks
  }

  /** The edits, in order. */
  function Commit(m: Meta, blocks: seq<Byte>, edits: seq<Edit>): (r: seq<Byte>)
    ensures |r| == |blocks|
  {
    if edits == [] then blocks else CommitOne(m, Commit(m, blocks, edits[..|edits| - 1]), edits[|edits| - 1])
  }

  function CommitAll(m: Meta, blocks: seq<Byte>, data: seq<Byte>): seq<Byte> {
    Commit(m, blocks, ServerRecords(data))
  }

  lemma CommitSnoc(m: Meta, blocks: seq<Byte>, edits: seq<Edit>, n: nat)
    requires n < |edits|
    ensures Commit(m, blocks, edits[..n + 1]) == CommitOne(m, Commit(m, blocks, edits[..n]), edits[n])
  {
    assert edits[..n + 1][..n] == edits[..n];
  }

  class BlockFile {
    const meta: Meta
    const blocks: array<Byte>

    constructor (m: Meta)
      requires MetaValid(m)
      ensures meta == m && fresh(blocks) && blocks.Length == BLOCK_FILE_HEADER_SIZE + Volume(m)
    {
      meta := m;
      blocks := new Byte[BLOCK_FILE_HEADER_SIZE + m.width * m.height * m.length];
    }

    method CommitBlockChanges(data: seq<Byte>)
      requires blocks.Length == BLOCK_FILE_HEADER_SIZE + Volume(meta)
      modifies blocks
      ensures blocks[..] == CommitAll(meta, old(blocks[..]), data)
    {
      var historySize := RecordCount(data);
      ghost var edits := ServerRecords(data);
      for index := 0 to historySize
        invariant blocks[..] == Commit(meta, old(blocks[..]), edits[..index])
      {
        CommitSnoc(meta, old(blocks[..]), edits, index);
        var record := ServerRecord(data, index);
        var blockMapIndex := BlockMapIndex(meta, record.x, record.y, record.z);
        if blockMapIndex < meta.width * meta.height * meta.length {
          blocks[blockMapIndex] := record.id;
        }
      }
      assert edits[..historySize] == edits;
    }
  }

  // ----- A client's replica.

  /**
  What a connection accepts: the level bytes, a history snapshot, or the packet that takes back a refused edit
  of the player's own.
  */
  datatype Message = Level(bytes: seq<Byte>) | Blocks(data: seq<Byte>) | Revert(e: Edit)

  predicate Touches(e: Edit, x: nat, y: nat, z: nat) {
    e.x == x && e.y == y && e.z == z
  }

  /** The block of the last edit of a cell. */
  function LastOf(edits: seq<Edit>, x: nat, y: nat, z: nat): Option<Byte> {
    if edits == [] then None
    else if Touches(edits[|edits| - 1], x, y, z) then Some(edits[|edits| - 1].id)
    else LastOf(edits[..|edits| - 1], x, y, z)
  }

  function OrElse(edit: Option<Byte>, block: Byte): Byte {
    if edit.Some? then edit.value else block
  }

  /**
  What a client shows at a cell; without own, what it would show had it been sent no reverts. Block changes
  before the level are ignored.
  */
  function CellAt(m: Meta, inbox: seq<Message>, own: bool, x: nat, y: nat, z: nat): Option<Byte> {
    if inbox == [] then None
    else
      var before := CellAt(m, inbox[..|inbox| - 1], own, x, y, z);
      match inbox[|inbox| - 1]
      case Level(bytes) => if Offset(m, x, y, z) < |bytes| then Some(bytes[Offset(m, x, y, z)]) else None
      case Blocks(data) =>
        var edit := LastOf(ClientRecords(data), x, y, z);
        if before.Some? && edit.Some? then edit else before
      case Revert(e) => if own && before.Some? && Touches(e, x, y, z) then Some(e.id) else before
  }

  ghost predicate Agree(m: Meta, blocks: seq<Byte>, inbox: seq<Message>, own: bool) {
    |blocks| == BLOCK_FILE_HEADER_SIZE + Volume(m) &&
    forall x, y, z :: Covered(m, x, y, z) ==> CellAt(m, inbox, own, x, y, z) == Some(blocks[Offset(m, x, y, z)])
  }

  /** Edits whose commit changes no cell but the one they name. The others alias another cell. */
  predicate Harmless(m: Meta, e: Edit) {
    InRange(m, e.x, e.y, e.z) || !(BLOCK_FILE_HEADER_SIZE <= BlockMapIndex(m, e.x, e.y, e.z) < Volume(m))
  }

  ghost predicate HarmlessEdits(m: Meta, edits: seq<Edit>) {
    forall e :: e in edits ==> Harmless(m, e)
  }

  ghost predicate AllHarmless(m: Meta, data: seq<Byte>) {
    HarmlessEdits(m, ServerRecords(data))
  }

  /** A harmless edit changes a covered cell exactly when it names it. */
  lemma CommitOneAtCell(m: Meta, blocks: seq<Byte>, e: Edit, x: nat, y: nat, z: nat)
    requires MetaValid(m) && Harmless(m, e) && Covered(m, x, y, z) && |blocks| == BLOCK_FILE_HEADER_SIZE + Volume(m)
    ensures CommitOne(m, blocks, e)[Offset(m, x, y, z)] == if Touches(e, x, y, z) then e.id
        else blocks[Offset(m, x, y, z)]
  {
    IndexIsOffset(m, x, y, z);
    if InRange(m, e.x, e.y, e.z) {
      IndexIsOffset(m, e.x, e.y, e.z);
      if Offset(m, e.x, e.y, e.z) == Offset(m, x, y, z) {
        OffsetInjective(m, e.x, e.y, e.z, x, y, z);
      }
    }
  }

  /** Committing edits leaves at each cell the last edit of it, or what was there. */
  lemma {:induction false} CommitAtCell(m: Meta, blocks: seq<Byte>, edits: seq<Edit>, x: nat, y: nat, z: nat)
    requires MetaValid(m) && HarmlessEdits(m, edits) && Covered(m, x, y, z)
    requires |blocks| == BLOCK_FILE_HEADER_SIZE + Volume(m)
    ensures Commit(m, blocks, edits)[Offset(m, x, y, z)] ==
            OrElse(LastOf(edits, x, y, z), blocks[Offset(m, x, y, z)])
    decreases |edits|
  {
    if edits != [] {
      var init, e := edits[..|edits| - 1], edits[|edits| - 1];
      assert forall x :: x in init ==> x in edits;
      CommitAtCell(m, blocks, init, x, y, z);
      CommitOneAtCell(m, Commit(m, blocks, init), e, x, y, z);
    }
  }

  lemma CellAtSnoc(m: Meta, inbox: seq<Message>, message: Message, own: bool, x: nat, y: nat, z: nat)
    ensures (inbox + [message])[..|inbox|] == inbox
    ensures message.Blocks? ==>
      var before, edit := CellAt(m, inbox, own, x, y, z), LastOf(ClientRecords(message.data), x, y, z);
      CellAt(m, inbox + [message], own, x, y, z) == if before.Some? && edit.Some? then edit else before
    ensures message.Revert? ==>
      var before := CellAt(m, inbox, own, x, y, z);
      CellAt(m, inbox + [message], own, x, y, z) ==
      if own && before.Some? && Touches(message.e, x, y, z) then Some(message.e.id) else before
  {
    assert (inbox + [message])[..|inbox|] == inbox;
  }

  /** A client that was sent no level shows nothing. */
  lemma {:induction false} NothingShownBeforeLevel(m: Meta, inbox: seq<Message>, own: bool, x: nat, y: nat, z: nat)
    requires forall message :: message in inbox ==> !message.Level?
    ensures CellAt(m, inbox, own, x, y, z).None?
    decreases |inbox|
  {
    if inbox != [] {
      assert inbox[|inbox| - 1] in inbox;
      NothingShownBeforeLevel(m, inbox[..|inbox| - 1], own, x, y, z);
    }
  }

  /** The coherence step: committing a history and delivering it keep server and client together. */
  lemma CommitAndDeliver(m: Meta, blocks: seq<Byte>, inbox: seq<Message>, own: bool, data: seq<Byte>)
    requires MetaValid(m) && Agree(m, blocks, inbox, own) && AllHarmless(m, data)
    ensures Agree(m, CommitAll(m, blocks, data), inbox + [Blocks(data)], own)
  {
    forall x, y, z | Covered(m, x, y, z)
      ensures CellAt(m, inbox + [Blocks(data)], own, x, y, z) == Some(CommitAll(m, blocks, data)[Offset(m, x, y, z)])
    {
      CellAtSnoc(m, inbox, Blocks(data), own, x, y, z);
      ServerAndClientReadAlike(data);
      CommitAtCell(m, blocks, ServerRecords(data), x, y, z);
    }
  }

  /** A client that receives the level agrees, whatever came before. */
  lemma DeliverLevel(m: Meta, blocks: seq<Byte>, inbox: seq<Message>, own: bool)
    requires |blocks| == BLOCK_FILE_HEADER_SIZE + Volume(m)
    ensures Agree(m, blocks, inbox + [Level(blocks[..Volume(m)])], own)
  {
    var inbox' := inbox + [Level(blocks[..Volume(m)])];
    forall x, y, z | Covered(m, x, y, z) ensures CellAt(m, inbox', own, x, y, z) == Some(blocks[Offset(m, x, y, z)]) {
    }
  }

  // ----- Which edits keep the replicas together.

  lemma OneRecord(e: Edit)
    ensures RecordCount(RecordBytes(e)) == 1 && ServerRecord(RecordBytes(e), 0) == e
        && ClientRecords(RecordBytes(e)) == [e]
  {
    AppendedRecord([], e);
    assert [] + RecordBytes(e) == RecordBytes(e);
    ServerAndClientReadAlike(RecordBytes(e));
    assert ServerRecords(RecordBytes(e)) == [e];
  }

  lemma CommitOfOneRecord(m: Meta, blocks: seq<Byte>, e: Edit)
    ensures CommitAll(m, blocks, RecordBytes(e)) == CommitOne(m, blocks, e)
  {
    OneRecord(e);
    var edits := ServerRecords(RecordBytes(e));
    assert edits == [e] && edits[..0] == [];
    assert Commit(m, blocks, edits[..0]) == blocks;
  }

  lemma CellAfterOneRecord(m: Meta, inbox: seq<Message>, own: bool, e: Edit, x: nat, y: nat, z: nat)
    requires CellAt(m, inbox, own, x, y, z).Some?
    ensures CellAt(m, inbox + [Blocks(RecordBytes(e))], own, x, y, z) ==
            if Touches(e, x, y, z) then Some(e.id) else CellAt(m, inbox, own, x, y, z)
  {
    OneRecord(e);
    CellAtSnoc(m, inbox, Blocks(RecordBytes(e)), own, x, y, z);
    assert [e][..0] == [] && LastOf([e][..0], x, y, z).None?;
  }

  /** No client's view moves: the edit is about no cell. */
  lemma ViewStays(m: Meta, blocks: seq<Byte>, inbox: seq<Message>, own: bool, e: Edit)
    requires Agree(m, blocks, inbox, own) && !InRange(m, e.x, e.y, e.z)
    ensures Agree(m, blocks, inbox + [Blocks(RecordBytes(e))], own)
  {
    forall x, y, z | Covered(m, x, y, z)
      ensures CellAt(m, inbox + [Blocks(RecordBytes(e))], own, x, y, z) == Some(blocks[Offset(m, x, y, z)])
    {
      CellAfterOneRecord(m, inbox, own, e, x, y, z);
    }
  }

  lemma ChangedByteDisagrees(m: Meta, blocks: seq<Byte>, inbox: seq<Message>, own: bool, id: Byte, x: nat, y: nat,
      z: nat)
    requires Covered(m, x, y, z) && Agree(m, blocks, inbox, own) && blocks[Offset(m, x, y, z)] != id
    ensures !Agree(m, blocks[Offset(m, x, y, z) := id], inbox, own)
  {
    assert CellAt(m, inbox, own, x, y, z) == Some(blocks[Offset(m, x, y, z)]);
  }

  /** The clients' view does not move; the byte at the edit's index does. */
  lemma HarmfulEditSplits(m: Meta, blocks: seq<Byte>, inbox: seq<Message>, own: bool, e: Edit)
    requires MetaValid(m) && Agree(m, blocks, inbox, own) && !Harmless(m, e)
    ensures blocks[BlockMapIndex(m, e.x, e.y, e.z)] != e.id ==> !Agree(m, CommitOne(m, blocks, e), inbox, own)
  {
    var x, y, z := OffsetSurjective(m, BlockMapIndex(m, e.x, e.y, e.z));
    if blocks[BlockMapIndex(m, e.x, e.y, e.z)] != e.id {
      ChangedByteDisagrees(m, blocks, inbox, own, e.id, x, y, z);
    }
  }

  /** An edit outside the world whose index lands behind the header changes a cell no client is told about. */
  lemma EditKeepsAgreementIff(m: Meta, blocks: seq<Byte>, inbox: seq<Message>, own: bool, e: Edit)
    requires MetaValid(m) && Agree(m, blocks, inbox, own)
    ensures Agree(m, CommitAll(m, blocks, RecordBytes(e)), inbox + [Blocks(RecordBytes(e))], own) <==>
            Harmless(m, e) || blocks[BlockMapIndex(m, e.x, e.y, e.z)] == e.id
  {
    if Harmless(m, e) {
      OneRecord(e);
      CommitAndDeliver(m, blocks, inbox, own, RecordBytes(e));
    } else {
      CommitOfOneRecord(m, blocks, e);
      ViewStays(m, blocks, inbox, own, e);
      HarmfulEditSplits(m, blocks, inbox + [Blocks(RecordBytes(e))], own, e);
      assert blocks[BlockMapIndex(m, e.x, e.y, e.z)] == e.id ==> CommitOne(m, blocks, e) == blocks;
    }
  }

  /** An edit leaves the header alone exactly when its index lies behind it, or it repeats the header's byte. */
  lemma HeaderKeptIff(m: Meta, blocks: seq<Byte>, e: Edit)
    requires |blocks| == BLOCK_FILE_HEADER_SIZE + Volume(m) && Volume(m) >= BLOCK_FILE_HEADER_SIZE
    ensures var at := BlockMapIndex(m, e.x, e.y, e.z);
      CommitOne(m, blocks, e)[..BLOCK_FILE_HEADER_SIZE] == blocks[..BLOCK_FILE_HEADER_SIZE] <==>
      at >= BLOCK_FILE_HEADER_SIZE || blocks[at] == e.id
  {
    var at := BlockMapIndex(m, e.x, e.y, e.z);
    var blocks' := CommitOne(m, blocks, e);
    if at < BLOCK_FILE_HEADER_SIZE {
      assert blocks'[..BLOCK_FILE_HEADER_SIZE][at] == e.id && blocks[..BLOCK_FILE_HEADER_SIZE][at] == blocks[at];
      assert blocks[at] == e.id ==> blocks' == blocks;
    } else {
      assert blocks'[..BLOCK_FILE_HEADER_SIZE] == blocks[..BLOCK_FILE_HEADER_SIZE];
    }
  }

  /** In a 10 x 10 x 10 world, an edit at x = 10 overwrites the cell (0, 0, 1). */
  lemma OutsideEditAliases()
    ensures var m := Meta(10, 10, 10);
      MetaValid(m) && Covered(m, 0, 0, 1) && BlockMapIndex(m, 10, 0, 0) == Offset(m, 0, 0, 1)
          && !Harmless(m, Edit(10, 0, 0, 1))
  {
    TimesIsProduct(10, 0);
    TimesIsProduct(10, 10);
    TimesIsProduct(100, 0);
  }

  /**
  In a 256 x 64 x 256 world the product for y = 65535 wraps to -65536: with z = 256 the index is that of the
  cell (0, 0, 0), with x = z = 255 it is a byte of the header, and with x = z = 0 it is far behind the file.
  */
  lemma WrappedEditAliases()
    ensures var m := Meta(256, 64, 256);
      && MetaValid(m) && Int32(Int32(256 * 256) * 0xFFFF) == -0x1_0000
      && Covered(m, 0, 0, 0) && BlockMapIndex(m, 0, 0xFFFF, 256) == Offset(m, 0, 0, 0)
          && !Harmless(m, Edit(0, 0xFFFF, 256, 1))
      && BlockMapIndex(m, 255, 0xFFFF, 255) == 3
      && BlockMapIndex(m, 0, 0xFFFF, 0) == 0xFFFF_FFFF_FFFF_0004 && Harmless(m, Edit(0, 0xFFFF, 0, 1))
  {
    TimesIsProduct(256, 0);
    TimesIsProduct(256, 255);
    TimesIsProduct(256, 256);
    TimesIsProduct(0x1_0000, 0xFFFF);
  }

  // ----- What a refused edit does to its author.

  /** The reverts a client shows: those not overtaken by a level or by a later edit of the cell. */
  function OutstandingRevert(m: Meta, inbox: seq<Message>, x: nat, y: nat, z: nat): Option<Byte> {
    if inbox == [] then None
    else
      var init := inbox[..|inbox| - 1];
      match inbox[|inbox| - 1]
      case Level(_) => None
      case Blocks(data) =>
        if LastOf(ClientRecords(data), x, y, z).Some? then None else OutstandingRevert(m, init, x, y, z)
      case Revert(e) =>
        if Touches(e, x, y, z) && CellAt(m, init, false, x, y, z).Some? then Some(e.id)
            else OutstandingRevert(m, init, x, y, z)
  }

  /** A client shows its outstanding revert of a cell, and else what the server's posts make of it. */
  lemma {:induction false} ShownCell(m: Meta, inbox: seq<Message>, x: nat, y: nat, z: nat)
    ensures CellAt(m, inbox, false, x, y, z).Some? <==> CellAt(m, inbox, true, x, y, z).Some?
    ensures CellAt(m, inbox, false, x, y, z).None? ==> OutstandingRevert(m, inbox, x, y, z).None?
    ensures CellAt(m, inbox, true, x, y, z) ==
            if OutstandingRevert(m, inbox, x, y, z).Some? then OutstandingRevert(m, inbox, x, y, z)
            else CellAt(m, inbox, false, x, y, z)
    decreases |inbox|
  {
    if inbox != [] {
      ShownCell(m, inbox[..|inbox| - 1], x, y, z);
    }
  }

  /**
  After a refused edit its author shows the server's blocks exactly when the cell it names holds the block it is sent
  back.
  */
  lemma RevertKeepsAgreementIff(m: Meta, blocks: seq<Byte>, inbox: seq<Message>, e: Edit)
    requires Agree(m, blocks, inbox, true)
    ensures Agree(m, blocks, inbox + [Revert(e)], true) <==>
            !Covered(m, e.x, e.y, e.z) || blocks[Offset(m, e.x, e.y, e.z)] == e.id
  {
    var inbox' := inbox + [Revert(e)];
    forall x, y, z | Covered(m, x, y, z)
      ensures CellAt(m, inbox', true, x, y, z) ==
              if Touches(e, x, y, z) then Some(e.id) else Some(blocks[Offset(m, x, y, z)])
    {
      CellAtSnoc(m, inbox, Revert(e), true, x, y, z);
    }
  }

  lemma RevertIsIgnored(m: Meta, blocks: seq<Byte>, inbox: seq<Message>, e: Edit)
    requires Agree(m, blocks, inbox, false)
    ensures Agree(m, blocks, inbox + [Revert(e)], false)
  {
    forall x, y, z | Covered(m, x, y, z)
      ensures CellAt(m, inbox + [Revert(e)], false, x, y, z) == Some(blocks[Offset(m, x, y, z)])
    {
      CellAtSnoc(m, inbox, Revert(e), false, x, y, z);
    }
  }
}
