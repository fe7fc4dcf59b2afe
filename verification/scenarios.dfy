/** Worked front-desk sessions: concrete states and the outcomes the model
    gives for them. */
module Scenarios {
  import opened Outcomes
  import opened Catalog
  import opened Loyalty
  import opened Hotel
  import RoomFile

  const Phone := "9999999999"

  function Guest(name: string, days: int, advance: real): Customer {
    Customer(name, "12 Main Road", Phone, "2024-01-01", "2024-01-09", days, advance)
  }

  /** Room 101 (standard, non-AC, 1000 a day) for 3 days on a first visit costs
      3000 with no discount; checking out with 500 paid leaves 2500 due. */
  lemma FirstStay()
    ensures var h1 := AddRoom(Empty, 101, 'S', 'N', 1000).state;
            var booked := CheckIn(h1, 101, Guest("Asha", 3, 500.0));
            var out := CheckOut(booked.state, 101);
            && booked.outcome == Ok(3000.0)
            && booked.state.rooms[0].status == Booked
            && out.outcome == Ok(Receipt("Asha", 101, 2500.0, 500.0))
            && out.state.rooms[0].status == Available
  {
    var h1 := AddRoom(Empty, 101, 'S', 'N', 1000).state;
    assert FindRoom(h1.rooms, 101) == Some(0);
    var booked := CheckIn(h1, 101, Guest("Asha", 3, 500.0));
    assert FindRoom(booked.state.rooms, 101) == Some(0);
  }

  /** The same phone on a second stay, 2 days at 500, pays 900 instead of 1000. */
  lemma SecondStayDiscounted()
    ensures var h1 := AddRoom(Empty, 101, 'S', 'N', 1000).state;
            var h2 := CheckIn(h1, 101, Guest("Asha", 3, 0.0)).state;
            var h3 := AddRoom(h2, 102, 'S', 'N', 500).state;
            CheckIn(h3, 102, Guest("Asha", 2, 0.0)).outcome == Ok(900.0)
  {
    var h1 := AddRoom(Empty, 101, 'S', 'N', 1000).state;
    assert FindRoom(h1.rooms, 101) == Some(0);
    var h2 := CheckIn(h1, 101, Guest("Asha", 3, 0.0)).state;
    var h3 := AddRoom(h2, 102, 'S', 'N', 500).state;
    assert FindRoom(h3.rooms, 102) == Some(1);
    assert Visits(h3.ledger, Phone) == 1;
  }

  /** Check-out bills with the visit count of the moment, not the one at
      check-in: a first stay quoted 3000 is charged 2700 once the same phone has
      checked into a second room in between. */
  lemma CheckoutUsesCurrentCount()
    ensures var h1 := AddRoom(AddRoom(Empty, 101, 'S', 'N', 1000).state, 102, 'L', 'A', 500).state;
            var first := CheckIn(h1, 101, Guest("Asha", 3, 0.0));
            var second := CheckIn(first.state, 102, Guest("Asha", 1, 0.0));
            && first.outcome == Ok(3000.0)
            && CheckOut(second.state, 101).outcome == Ok(Receipt("Asha", 101, 2700.0, 0.0))
  {
    var h1 := AddRoom(AddRoom(Empty, 101, 'S', 'N', 1000).state, 102, 'L', 'A', 500).state;
    assert FindRoom(h1.rooms, 101) == Some(0);
    assert FindRoom(h1.rooms, 102) == Some(1);
    var first := CheckIn(h1, 101, Guest("Asha", 3, 0.0));
    assert FindRoom(first.state.rooms, 102) == Some(1);
    var second := CheckIn(first.state, 102, Guest("Asha", 1, 0.0));
    assert FindRoom(second.state.rooms, 101) == Some(0);
    assert Visits(second.state.ledger, Phone) == 2;
  }

  /** Of two rooms numbered 101, only the first is ever checked into: once it is
      booked the second cannot be reached by number. */
  lemma DuplicateNumberShadowed()
    ensures var h1 := AddRoom(AddRoom(Empty, 101, 'S', 'N', 1000).state, 101, 'L', 'A', 2000).state;
            var booked := CheckIn(h1, 101, Guest("Asha", 1, 0.0));
            && booked.outcome == Ok(1000.0)
            && booked.state.rooms[1].status == Available
            && CheckIn(booked.state, 101, Guest("Ravi", 1, 0.0)).outcome == Fail(AlreadyBooked)
  {
    var h1 := AddRoom(AddRoom(Empty, 101, 'S', 'N', 1000).state, 101, 'L', 'A', 2000).state;
    assert FindRoom(h1.rooms, 101) == Some(0);
    var booked := CheckIn(h1, 101, Guest("Asha", 1, 0.0));
    assert FindRoom(booked.state.rooms, 101) == Some(0);
  }

  /** Refusals: an unknown room type, any number on an empty catalog, and a
      phone that is not 10 characters long. */
  lemma Refusals(rno: int)
    ensures AddRoom(Empty, 101, 'D', 'A', 1000) == Step(Empty, Fail(InvalidType))
    ensures SearchRoom(Empty.rooms, rno) == Fail(NotFound)
    ensures CheckIn(Empty, rno, Guest("Asha", 1, 0.0)).outcome == Fail(NotFound)
    ensures CheckOut(Empty, rno).outcome == Fail(NotFound)
    ensures var h1 := AddRoom(Empty, 101, 'S', 'N', 1000).state;
            CheckIn(h1, 101, Guest("Asha", 1, 0.0).(phone := "12345")) == Step(h1, Fail(InvalidPhone))
  {
    var h1 := AddRoom(Empty, 101, 'S', 'N', 1000).state;
    assert FindRoom(h1.rooms, 101) == Some(0);
  }

  lemma SmallNumbers()
    ensures RoomFile.IntText(0) == "0"
    ensures RoomFile.IntText(101) == "101"
    ensures RoomFile.IntText(1000) == "1000"
  {
    assert RoomFile.DigitChar(0) == '0';
    assert RoomFile.DigitChar(1) == '1';
    assert RoomFile.NatText(1) == "1";
    assert RoomFile.NatText(10) == "10";
    assert RoomFile.NatText(100) == "100";
  }

  /** The line saved for room 101. */
  lemma SavedLine()
    ensures SaveRooms(AddRoom(Empty, 101, 'S', 'N', 1000).state) == "101 N S 1000 0\n"
  {
    var h1 := AddRoom(Empty, 101, 'S', 'N', 1000).state;
    SmallNumbers();
    assert RoomFile.RecordLine(h1.rooms[0]) == "101 N S 1000 0\n";
    assert RoomFile.Serialize(h1.rooms) == RoomFile.RecordLine(h1.rooms[0]) + RoomFile.Serialize([]);
  }

  /** Loading that line at start-up gives back room 101 as it was added. */
  lemma LoadedLine()
    ensures LoadRooms(Empty, "101 N S 1000 0\n").rooms == AddRoom(Empty, 101, 'S', 'N', 1000).state.rooms
  {
    var rooms := AddRoom(Empty, 101, 'S', 'N', 1000).state.rooms;
    SavedLine();
    RoomFile.RoundTrip(rooms);
    var loaded := RoomFile.Parse("101 N S 1000 0\n");
    assert |loaded| == 1 && loaded[0] == rooms[0];
    assert LoadRooms(Empty, "101 N S 1000 0\n").rooms == [] + loaded;
  }
}
