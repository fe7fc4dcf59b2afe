/** Sequences of front-desk commands, as the menu issues them one at a time,
    and what every such sequence preserves: rooms are never removed, a room's
    number, AC type, room type and rent never change, visit counts never go
    down, and a catalog that can be saved stays one that can be saved. */
module Runs {
  import opened Catalog
  import opened Loyalty
  import opened Hotel
  import RoomFile

  /** The state-changing menu entries. */
  datatype Command =
    | AddRoomCmd(number: int, tier: char, ac: char, rent: int)
    | CheckInCmd(rno: int, guest: Customer)
    | CheckOutCmd(rno: int)
    | LoadCmd(text: seq<char>)

  /** One pass of the menu loop: the entry chosen and the state after it.
      No entry removes a room, changes a room's fixed fields or lowers a
      visit count. */
  function Apply(h: State, cmd: Command): (r: State)
    ensures Extends(h.rooms, r.rooms)
    ensures Grows(h.ledger, r.ledger)
  {
    match cmd
    case AddRoomCmd(number, tier, ac, rent) => AddRoomKeeps(h, number, tier, ac, rent); AddRoom(h, number, tier, ac, rent).state
    case CheckInCmd(rno, guest) => CheckInKeeps(h, rno, guest); CheckIn(h, rno, guest).state
    case CheckOutCmd(rno) => CheckOutKeeps(h, rno); CheckOut(h, rno).state
    case LoadCmd(text) => LoadKeeps(h, text); LoadRooms(h, text)
  }

  /** The menu loop over a whole session; what one entry keeps, every
      sequence of entries keeps. */
  function Run(h: State, cmds: seq<Command>): (r: State)
    ensures Extends(h.rooms, r.rooms)
    ensures Grows(h.ledger, r.ledger)
    decreases |cmds|
  {
    if |cmds| == 0 then
      assert Extends(h.rooms, h.rooms);
      h
    else
      var h1 := Apply(h, cmds[0]);
      var r := Run(h1, cmds[1..]);
      ExtendsTransitive(h.rooms, h1.rooms, r.rooms);
      GrowsTransitive(h.ledger, h1.ledger, r.ledger);
      r
  }

  /** The fields of a room that are fixed once it is in the catalog. */
  predicate SameRoom(a: Room, b: Room) {
    a.roomNumber == b.roomNumber && a.ac == b.ac && a.tier == b.tier && a.rent == b.rent
  }

  /** `rooms'` keeps every room of `rooms`, at the same place, with its fixed
      fields unchanged. */
  ghost predicate Extends(rooms: seq<Room>, rooms': seq<Room>) {
    |rooms| <= |rooms'| && forall i :: 0 <= i < |rooms| ==> SameRoom(rooms[i], rooms'[i])
  }

  /** A command as the console delivers it: `cin >> char` never yields white
      space, so an added room's AC type is not white space. */
  predicate Typed(cmd: Command) {
    cmd.AddRoomCmd? ==> !RoomFile.IsSpace(cmd.ac)
  }

  lemma AddRoomKeeps(h: State, number: int, tier: char, ac: char, rent: int)
    ensures var h' := AddRoom(h, number, tier, ac, rent).state;
            && Extends(h.rooms, h'.rooms) && Grows(h.ledger, h'.ledger)
            && (!RoomFile.IsSpace(ac) && RoomFile.Storable(h.rooms) ==> RoomFile.Storable(h'.rooms))
  {
    var h' := AddRoom(h, number, tier, ac, rent).state;
    if IsTier(tier) {
      assert forall i :: 0 <= i < |h.rooms| ==> h'.rooms[i] == h.rooms[i];
    } else {
      assert h' == h;
    }
  }

  lemma CheckInKeeps(h: State, rno: int, c: Customer)
    ensures var h' := CheckIn(h, rno, c).state;
            && Extends(h.rooms, h'.rooms) && Grows(h.ledger, h'.ledger)
            && (RoomFile.Storable(h.rooms) ==> RoomFile.Storable(h'.rooms))
  {
    match FindRoom(h.rooms, rno)
    case None =>
    case Some(i) => assert FirstMatch(h.rooms, rno, i);
  }

  lemma CheckOutKeeps(h: State, rno: int)
    ensures var h' := CheckOut(h, rno).state;
            && Extends(h.rooms, h'.rooms) && Grows(h.ledger, h'.ledger)
            && (RoomFile.Storable(h.rooms) ==> RoomFile.Storable(h'.rooms))
  {
    match FindRoom(h.rooms, rno)
    case None =>
    case Some(i) => assert FirstMatch(h.rooms, rno, i);
  }

  lemma LoadKeeps(h: State, text: seq<char>)
    ensures var h' := LoadRooms(h, text);
            && Extends(h.rooms, h'.rooms) && Grows(h.ledger, h'.ledger)
            && (RoomFile.Storable(h.rooms) ==> RoomFile.Storable(h'.rooms))
  {
    var h' := LoadRooms(h, text);
    var loaded := RoomFile.Parse(text);
    assert h'.rooms == h.rooms + loaded;
    assert forall i :: 0 <= i < |h.rooms| ==> h'.rooms[i] == h.rooms[i];
    assert forall i :: |h.rooms| <= i < |h'.rooms| ==> h'.rooms[i] == loaded[i - |h.rooms|];
    assert forall i :: 0 <= i < |loaded| ==> loaded[i] in loaded;
  }

  /** Under a command as the console delivers it, a savable catalog stays savable. */
  lemma ApplyPreserves(h: State, cmd: Command)
    ensures Extends(h.rooms, Apply(h, cmd).rooms)
    ensures Grows(h.ledger, Apply(h, cmd).ledger)
    ensures Typed(cmd) && RoomFile.Storable(h.rooms) ==> RoomFile.Storable(Apply(h, cmd).rooms)
  {
    match cmd
    case AddRoomCmd(number, tier, ac, rent) => AddRoomKeeps(h, number, tier, ac, rent);
    case CheckInCmd(rno, guest) => CheckInKeeps(h, rno, guest);
    case CheckOutCmd(rno) => CheckOutKeeps(h, rno);
    case LoadCmd(text) => LoadKeeps(h, text);
  }

  lemma ExtendsTransitive(a: seq<Room>, b: seq<Room>, c: seq<Room>)
    requires Extends(a, b) && Extends(b, c)
    ensures Extends(a, c)
  {
    forall i | 0 <= i < |a| ensures SameRoom(a[i], c[i]) {
      assert SameRoom(b[i], c[i]);
    }
  }

  /** Whatever commands run, no room disappears or changes its fixed fields,
      no visit count decreases, and a savable catalog stays savable. */
  lemma {:induction false} RunPreserves(h: State, cmds: seq<Command>)
    ensures Extends(h.rooms, Run(h, cmds).rooms)
    ensures Grows(h.ledger, Run(h, cmds).ledger)
    ensures (forall k :: 0 <= k < |cmds| ==> Typed(cmds[k])) && RoomFile.Storable(h.rooms) ==>
      RoomFile.Storable(Run(h, cmds).rooms)
    decreases |cmds|
  {
    if |cmds| == 0 {
      assert Extends(h.rooms, h.rooms);
    } else {
      var h1 := Apply(h, cmds[0]);
      ApplyPreserves(h, cmds[0]);
      RunPreserves(h1, cmds[1..]);
      ExtendsTransitive(h.rooms, h1.rooms, Run(h1, cmds[1..]).rooms);
      GrowsTransitive(h.ledger, h1.ledger, Run(h1, cmds[1..]).ledger);
      if (forall k :: 0 <= k < |cmds| ==> Typed(cmds[k])) && RoomFile.Storable(h.rooms) {
        assert Typed(cmds[0]);
        assert forall k :: 0 <= k < |cmds[1..]| ==> Typed(cmds[1..][k]) by {
          forall k | 0 <= k < |cmds[1..]| ensures Typed(cmds[1..][k]) {
            assert cmds[1..][k] == cmds[k + 1];
          }
        }
      }
    }
  }
}
