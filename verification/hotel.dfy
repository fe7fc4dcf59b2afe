/** The front desk (HotelMgnt): the hotel's state is the room catalog and the
    loyalty ledger, and every menu operation is a total function from a state to
    the next state and an outcome. A refused operation returns the state it was
    given. */
module Hotel {
  import opened Outcomes
  import opened Catalog
  import opened Loyalty
  import RoomFile

  datatype State = State(rooms: seq<Room>, ledger: Ledger)

  /** The state at process start, before the room file is loaded. */
  const Empty := State([], map[])

  datatype Step<T> = Step(state: State, outcome: Outcome<T>)

  /** What check-out reports: the guest, the room, what is still owed (negative
      when the advance exceeds the bill) and the advance. */
  datatype Receipt = Receipt(name: string, roomNumber: int, amountDue: real, advance: real)

  /** The bill for `days` days at `rent`, after the loyalty rule for `phone`. */
  function Bill(l: Ledger, phone: string, rent: int, days: int): (r: real)
    ensures Visits(l, phone) >= 2 ==> r * 10.0 == (rent * days) as real * 9.0
    ensures Visits(l, phone) < 2 ==> r == (rent * days) as real
  {
    ApplyDiscount(l, phone, (rent * days) as real)
  }

  /** addRoom: a room of type 'S' or 'L' is appended, available and without a
      guest; any other type is refused and nothing is added. Room numbers are
      not checked for duplicates. */
  function AddRoom(h: State, number: int, tier: char, ac: char, rent: int): (r: Step<()>)
    ensures r.outcome.Ok? <==> IsTier(tier)
    ensures r.outcome.Fail? ==> r.outcome.error == InvalidType && r.state == h
    ensures r.outcome.Ok? ==>
      && r.state.ledger == h.ledger
      && |r.state.rooms| == |h.rooms| + 1
      && r.state.rooms[..|h.rooms|] == h.rooms
      && var added := r.state.rooms[|h.rooms|];
         added.roomNumber == number && added.tier == tier && added.ac == ac && added.rent == rent
         && added.status == Available && added.cust == NoCustomer
  {
    if IsTier(tier) then
      Step(h.(rooms := h.rooms + [Room(number, ac, tier, rent, Available, NoCustomer)]), Ok(()))
    else
      Step(h, Fail(InvalidType))
  }

  /** checkIn: acts on the first room numbered `rno`. A booked room, or a phone
      whose length is not 10, leaves everything as it was. Otherwise the phone's
      visit count goes up by one before billing, the room becomes booked and
      holds `c`, and the bill is rent times days, with 10% off when the phone
      had been seen before. */
  function CheckIn(h: State, rno: int, c: Customer): (r: Step<real>)
    ensures NoMatch(h.rooms, rno) ==> r == Step(h, Fail(NotFound))
    ensures forall i :: FirstMatch(h.rooms, rno, i) && h.rooms[i].status == Booked ==>
      r == Step(h, Fail(AlreadyBooked))
    ensures forall i :: FirstMatch(h.rooms, rno, i) && h.rooms[i].status != Booked && |c.phone| != 10 ==>
      r == Step(h, Fail(InvalidPhone))
    ensures forall i :: FirstMatch(h.rooms, rno, i) && h.rooms[i].status != Booked && |c.phone| == 10 ==>
      && r.outcome.Ok?
      && |r.state.rooms| == |h.rooms|
      && r.state.rooms[i] == h.rooms[i].(status := Booked, cust := c)
      && (forall j :: 0 <= j < |h.rooms| && j != i ==> r.state.rooms[j] == h.rooms[j])
      && Visits(r.state.ledger, c.phone) == Visits(h.ledger, c.phone) + 1
      && (forall p :: p != c.phone ==> Visits(r.state.ledger, p) == Visits(h.ledger, p))
      && var base := (h.rooms[i].rent * c.days) as real;
         (Visits(h.ledger, c.phone) == 0 ==> r.outcome.value == base)
         && (Visits(h.ledger, c.phone) >= 1 ==> r.outcome.value * 10.0 == base * 9.0)
  {
    match FindRoom(h.rooms, rno)
    case None => Step(h, Fail(NotFound))
    case Some(i) =>
      if h.rooms[i].status == Booked then Step(h, Fail(AlreadyBooked))
      else if |c.phone| != 10 then Step(h, Fail(InvalidPhone))
      else
        var ledger := RecordVisit(h.ledger, c.phone);
        var bill := Bill(ledger, c.phone, h.rooms[i].rent, c.days);
        Step(State(h.rooms[i := h.rooms[i].(status := Booked, cust := c)], ledger), Ok(bill))
  }

  /** checkOut: acts on the first room numbered `rno`. An available room is
      refused. Otherwise the bill is recomputed from the stored guest with the
      phone's current visit count, the amount due is that bill minus the
      advance, and only the status changes: the guest fields stay in the room
      and the ledger is untouched. */
  function CheckOut(h: State, rno: int): (r: Step<Receipt>)
    ensures NoMatch(h.rooms, rno) ==> r == Step(h, Fail(NotFound))
    ensures forall i :: FirstMatch(h.rooms, rno, i) && h.rooms[i].status == Available ==>
      r == Step(h, Fail(AlreadyVacant))
    ensures forall i :: FirstMatch(h.rooms, rno, i) && h.rooms[i].status != Available ==>
      && r.state.ledger == h.ledger
      && r.state.rooms == h.rooms[i := h.rooms[i].(status := Available)]
      && r.outcome.Ok?
      && r.outcome.value.name == h.rooms[i].cust.name
      && r.outcome.value.roomNumber == rno
      && r.outcome.value.advance == h.rooms[i].cust.advance
      && var base := (h.rooms[i].rent * h.rooms[i].cust.days) as real;
         var charged := r.outcome.value.amountDue + h.rooms[i].cust.advance;
         (Visits(h.ledger, h.rooms[i].cust.phone) >= 2 ==> charged * 10.0 == base * 9.0)
         && (Visits(h.ledger, h.rooms[i].cust.phone) < 2 ==> charged == base)
  {
    match FindRoom(h.rooms, rno)
    case None => Step(h, Fail(NotFound))
    case Some(i) =>
      var room := h.rooms[i];
      if room.status == Available then Step(h, Fail(AlreadyVacant))
      else
        var bill := Bill(h.ledger, room.cust.phone, room.rent, room.cust.days);
        var receipt := Receipt(room.cust.name, room.roomNumber, bill - room.cust.advance, room.cust.advance);
        Step(h.(rooms := h.rooms[i := room.(status := Available)]), Ok(receipt))
  }

  /** saveRoomsToFile: the text written for the current catalog. */
  function SaveRooms(h: State): (text: seq<char>)
    ensures RoomFile.Storable(h.rooms) ==>
      && |RoomFile.Parse(text)| == |h.rooms|
      && forall i :: 0 <= i < |h.rooms| ==> RoomFile.Parse(text)[i] == h.rooms[i].(cust := NoCustomer)
  {
    RoomFile.RoundTrip(h.rooms);
    RoomFile.Serialize(h.rooms)
  }

  /** loadRoomsFromFile: the rooms read from `text` are appended to the catalog. */
  function LoadRooms(h: State, text: seq<char>): (r: State)
    ensures r.ledger == h.ledger
    ensures |r.rooms| >= |h.rooms| && r.rooms[..|h.rooms|] == h.rooms
    ensures forall i :: |h.rooms| <= i < |r.rooms| ==>
      IsTier(r.rooms[i].tier) && r.rooms[i].cust == NoCustomer
  {
    var loaded := RoomFile.Parse(text);
    assert forall i :: 0 <= i < |loaded| ==> loaded[i] in loaded;
    h.(rooms := h.rooms + loaded)
  }

  // ---------------------------------------------------------------------------
  // Properties of the stay lifecycle

  /** A room added under a number already in use is shadowed: lookups keep
      finding the earlier room, and find the new one only if the number is new. */
  lemma AddRoomShadowing(h: State, number: int, tier: char, ac: char, rent: int)
    requires IsTier(tier)
    ensures NoMatch(h.rooms, number) ==>
      FindRoom(AddRoom(h, number, tier, ac, rent).state.rooms, number) == Some(|h.rooms|)
    ensures !NoMatch(h.rooms, number) ==>
      FindRoom(AddRoom(h, number, tier, ac, rent).state.rooms, number) == FindRoom(h.rooms, number)
  {
    var rooms := AddRoom(h, number, tier, ac, rent).state.rooms;
    assert forall j :: 0 <= j < |h.rooms| ==> rooms[j] == h.rooms[j];
    match FindRoom(rooms, number)
    case None =>
    case Some(k) =>
      if k < |h.rooms| {
        assert FirstMatch(h.rooms, number, k);
      }
  }

  /** Checking out right after a check-in charges the bill quoted at check-in
      minus the advance, restores the room to available, and keeps the guest's
      fields in the room. */
  lemma CheckInThenOut(h: State, rno: int, c: Customer)
    requires CheckIn(h, rno, c).outcome.Ok?
    ensures FindRoom(h.rooms, rno).Some?
    ensures var i := FindRoom(h.rooms, rno).value;
            var booked := CheckIn(h, rno, c);
            var out := CheckOut(booked.state, rno);
            && out.outcome == Ok(Receipt(c.name, rno, booked.outcome.value - c.advance, c.advance))
            && out.state.ledger == booked.state.ledger
            && out.state.rooms == h.rooms[i := h.rooms[i].(status := Available, cust := c)]
  {
    var i := FindRoom(h.rooms, rno).value;
    var booked := CheckIn(h, rno, c);
    assert FirstMatch(h.rooms, rno, i);
    assert booked.state.rooms == h.rooms[i := h.rooms[i].(status := Booked, cust := c)];
    assert FirstMatch(booked.state.rooms, rno, i);
    var room := booked.state.rooms[i];
    assert room == h.rooms[i].(status := Booked, cust := c);
    assert booked.outcome.value == Bill(booked.state.ledger, c.phone, room.rent, c.days);
    var out := CheckOut(booked.state, rno);
    assert out.outcome.value.amountDue == booked.outcome.value - c.advance;
    assert out.state.rooms == booked.state.rooms[i := room.(status := Available)];
  }

  /** A phone number of the wrong length is asked for again, and nothing else
      can happen at the desk until a ten-character one arrives; retyping only
      the phone then ends where typing it right the first time would have. */
  lemma InvalidPhoneRetry(h: State, rno: int, c: Customer, phone: string)
    requires CheckIn(h, rno, c).outcome == Fail(InvalidPhone)
    requires |phone| == 10
    ensures CheckIn(h, rno, c.(phone := phone)).outcome.Ok?
    ensures CheckIn(CheckIn(h, rno, c).state, rno, c.(phone := phone)) == CheckIn(h, rno, c.(phone := phone))
  {
    var i := FindRoom(h.rooms, rno).value;
    assert FirstMatch(h.rooms, rno, i);
  }

  /** A guest who has checked out is still found by name, in a room that is
      now available. */
  lemma CheckedOutGuestStillFound(h: State, rno: int, c: Customer)
    requires CheckIn(h, rno, c).outcome.Ok?
    ensures var after := CheckOut(CheckIn(h, rno, c).state, rno).state;
            exists x :: x in SearchCustomer(after.rooms, c.name) && x.roomNumber == rno && x.status == Available
  {
    CheckInThenOut(h, rno, c);
    var i := FindRoom(h.rooms, rno).value;
    var after := CheckOut(CheckIn(h, rno, c).state, rno).state;
    assert after.rooms[i] in after.rooms;
  }

  /** A successful check-in adds exactly one room to the guest summary, and
      takes one from the available list when the room was available. */
  lemma CheckInOccupancy(h: State, rno: int, c: Customer)
    requires CheckIn(h, rno, c).outcome.Ok?
    ensures FindRoom(h.rooms, rno).Some?
    ensures var after := CheckIn(h, rno, c).state;
            var was := h.rooms[FindRoom(h.rooms, rno).value].status;
            && |GuestSummary(after.rooms)| == |GuestSummary(h.rooms)| + 1
            && |AvailableRooms(after.rooms)| + (if was == Available then 1 else 0) == |AvailableRooms(h.rooms)|
  {
    var i := FindRoom(h.rooms, rno).value;
    var x := h.rooms[i].(status := Booked, cust := c);
    assert CheckIn(h, rno, c).state.rooms == h.rooms[i := x];
    SelectUpdateCount(h.rooms, i, x, WithStatus(Booked));
    SelectUpdateCount(h.rooms, i, x, WithStatus(Available));
  }

  /** A successful check-out adds exactly one room to the available list, and
      takes one from the guest summary when the room's status was 1. */
  lemma CheckOutOccupancy(h: State, rno: int)
    requires CheckOut(h, rno).outcome.Ok?
    ensures FindRoom(h.rooms, rno).Some?
    ensures var after := CheckOut(h, rno).state;
            var was := h.rooms[FindRoom(h.rooms, rno).value].status;
            && |AvailableRooms(after.rooms)| == |AvailableRooms(h.rooms)| + 1
            && |GuestSummary(after.rooms)| + (if was == Booked then 1 else 0) == |GuestSummary(h.rooms)|
  {
    var i := FindRoom(h.rooms, rno).value;
    var x := h.rooms[i].(status := Available);
    SelectUpdateCount(h.rooms, i, x, WithStatus(Booked));
    SelectUpdateCount(h.rooms, i, x, WithStatus(Available));
  }

  /** A booked room that came from the room file has no guest data: checking
      it out reports an empty name and nothing owed. */
  lemma LoadedBookedRoomOwesNothing(h: State, rno: int)
    requires FindRoom(h.rooms, rno).Some?
    requires var room := h.rooms[FindRoom(h.rooms, rno).value];
             room.status != Available && room.cust == NoCustomer
    ensures CheckOut(h, rno).outcome == Ok(Receipt("", rno, 0.0, 0.0))
  {
  }

  /** Saving, restarting and loading gives back every room with its number, AC
      type, room type, rent and status, but no guest data and no visit counts. */
  lemma RestartKeepsRooms(h: State)
    requires RoomFile.Storable(h.rooms)
    ensures var r := LoadRooms(Empty, SaveRooms(h));
            && r.ledger == map[]
            && |r.rooms| == |h.rooms|
            && forall i :: 0 <= i < |h.rooms| ==> r.rooms[i] == h.rooms[i].(cust := NoCustomer)
  {
    RoomFile.RoundTrip(h.rooms);
    assert [] + RoomFile.Parse(SaveRooms(h)) == RoomFile.Parse(SaveRooms(h));
  }
}
