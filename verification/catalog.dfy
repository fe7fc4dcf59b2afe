/** The room catalog: the Room and Customer records, lookup by room number
    (first match wins), and the listings that filter the catalog in insertion order. */
module Catalog {
  import opened Outcomes

  /** The guest fields stored inside every room. A room that never had a guest
      carries `NoCustomer`; check-out leaves the last guest's fields in place. */
  datatype Customer = Customer(
    name: string,
    address: string,
    phone: string,
    fromDate: string,
    toDate: string,
    days: int,
    advance: real)

  const NoCustomer := Customer("", "", "", "", "", 0, 0.0)

  /** `status` is the C++ `int status`: 0 means available, 1 means booked. Other
      values only arise from a hand-edited room file. `tier` is 'S' (standard) or
      'L' (luxury) for every room that could be created; `ac` is 'A' or 'N' by
      convention, but any character is accepted. */
  datatype Room = Room(
    roomNumber: int,
    ac: char,
    tier: char,
    rent: int,
    status: int,
    cust: Customer)

  const Available := 0
  const Booked := 1

  predicate IsTier(c: char) {
    c == 'S' || c == 'L'
  }

  /** `i` is the index the linear scan stops at when looking for `rno`. */
  ghost predicate FirstMatch(rooms: seq<Room>, rno: int, i: int) {
    && 0 <= i < |rooms|
    && rooms[i].roomNumber == rno
    && forall j :: 0 <= j < i ==> rooms[j].roomNumber != rno
  }

  ghost predicate NoMatch(rooms: seq<Room>, rno: int) {
    forall j :: 0 <= j < |rooms| ==> rooms[j].roomNumber != rno
  }

  /** Index of the first room numbered `rno`; a later room with the same number
      is shadowed. */
  function FindRoom(rooms: seq<Room>, rno: int): (r: Option<nat>)
    ensures r.Some? ==> FirstMatch(rooms, rno, r.value)
    ensures r.None? <==> NoMatch(rooms, rno)
  {
    if |rooms| == 0 then None
    else if rooms[0].roomNumber == rno then Some(0)
    else match FindRoom(rooms[1..], rno)
      case None => None
      case Some(k) => Some(k + 1)
  }

  /** The room shown by a search on its number. */
  function SearchRoom(rooms: seq<Room>, rno: int): (r: Outcome<Room>)
    ensures r.Fail? <==> NoMatch(rooms, rno)
    ensures r.Fail? ==> r.error == NotFound
    ensures r.Ok? ==> exists i :: FirstMatch(rooms, rno, i) && rooms[i] == r.value
  {
    match FindRoom(rooms, rno)
    case None => Fail(NotFound)
    case Some(i) => Ok(rooms[i])
  }

  /** The filters the listings apply to each room. */
  datatype Query = WithStatus(status: int) | GuestNamed(name: string)

  predicate Matches(q: Query, room: Room) {
    match q
    case WithStatus(s) => room.status == s
    case GuestNamed(n) => room.cust.name == n
  }

  /** The rooms that satisfy `q`, in catalog order. */
  function Select(rooms: seq<Room>, q: Query): (r: seq<Room>)
    ensures |r| <= |rooms|
    ensures forall x :: x in r <==> x in rooms && Matches(q, x)
  {
    if |rooms| == 0 then []
    else (if Matches(q, rooms[0]) then [rooms[0]] else []) + Select(rooms[1..], q)
  }

  /** Selecting distributes over concatenation: together with the membership
      contract this pins `Select` down as the order-preserving filter. */
  lemma {:induction false} SelectAppend(a: seq<Room>, b: seq<Room>, q: Query)
    ensures Select(a + b, q) == Select(a, q) + Select(b, q)
  {
    if |a| == 0 {
      assert a + b == b;
    } else {
      assert (a + b)[0] == a[0];
      assert (a + b)[1..] == a[1..] + b;
      SelectAppend(a[1..], b, q);
    }
  }

  /** Filtering one more room adds it at the end exactly when it matches. */
  lemma SelectSnoc(s: seq<Room>, x: Room, q: Query)
    ensures Select(s + [x], q) == Select(s, q) + (if Matches(q, x) then [x] else [])
  {
    SelectAppend(s, [x], q);
    assert Select([x], q) == (if Matches(q, x) then [x] else []) + Select([], q);
  }

  function Hit(q: Query, room: Room): nat {
    if Matches(q, room) then 1 else 0
  }

  /** Replacing one room changes the size of a listing by that room's own
      contribution only. */
  lemma SelectUpdateCount(s: seq<Room>, i: int, x: Room, q: Query)
    requires 0 <= i < |s|
    ensures |Select(s[i := x], q)| + Hit(q, s[i]) == |Select(s, q)| + Hit(q, x)
  {
    var t := s[i := x];
    assert s == s[..i] + [s[i]] + s[i+1..];
    assert t == s[..i] + [x] + s[i+1..];
    SelectAppend(s[..i] + [s[i]], s[i+1..], q);
    SelectAppend(s[..i], [s[i]], q);
    SelectAppend(s[..i] + [x], s[i+1..], q);
    SelectAppend(s[..i], [x], q);
    assert Select([s[i]], q) == (if Matches(q, s[i]) then [s[i]] else []) + Select([], q);
    assert Select([x], q) == (if Matches(q, x) then [x] else []) + Select([], q);
  }

  /** getAvailRoom: every room whose status is 0. */
  function AvailableRooms(rooms: seq<Room>): (r: seq<Room>)
    ensures forall x :: x in r <==> x in rooms && x.status == Available
  {
    Select(rooms, WithStatus(Available))
  }

  /** guestSummaryReport: every room whose status is 1. */
  function GuestSummary(rooms: seq<Room>): (r: seq<Room>)
    ensures forall x :: x in r <==> x in rooms && x.status == Booked
  {
    Select(rooms, WithStatus(Booked))
  }

  /** searchCustomer: every room whose stored guest name equals `name`,
      whatever the room's status. */
  function SearchCustomer(rooms: seq<Room>, name: string): (r: seq<Room>)
    ensures forall x :: x in r <==> x in rooms && x.cust.name == name
  {
    Select(rooms, GuestNamed(name))
  }

  /** The scan of the available-rooms listing (`getAvailRoom`) and of the
      name search (`searchCustomer`): it collects the matching rooms and raises
      `found` on the first one, which decides between the listing and the
      "nothing found" message. The guest summary has no such flag: it tests
      only whether the catalog is empty, and prints nothing for a catalog
      without booked rooms. */
  method ScanRooms(rooms: seq<Room>, q: Query) returns (hits: seq<Room>, found: bool)
    ensures hits == Select(rooms, q)
    ensures found <==> exists i :: 0 <= i < |rooms| && Matches(q, rooms[i])
  {
    hits := [];
    found := false;
    var i := 0;
    while i < |rooms|
      invariant 0 <= i <= |rooms|
      invariant hits == Select(rooms[..i], q)
      invariant found <==> exists j :: 0 <= j < i && Matches(q, rooms[j])
    {
      assert rooms[..i + 1] == rooms[..i] + [rooms[i]];
      SelectSnoc(rooms[..i], rooms[i], q);
      if Matches(q, rooms[i]) {
        hits := hits + [rooms[i]];
        found := true;
      }
      i := i + 1;
    }
    assert rooms[..i] == rooms;
  }
}
