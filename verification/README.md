# Hotel front desk: rooms, stays and loyalty discount

This project is a Dafny model of the `HotelMgnt` class of a small hotel
front-desk program written in C++ (`Hotel_management.cpp`). It models three
parts, all as pure functions over immutable values:

- **Room catalog** (module `Catalog`). Rooms are kept in a `seq<Room>` in
  insertion order. Lookup by room number is a first-match scan, so a later
  room with the same number is shadowed. The three listings are
  order-preserving filters: available rooms, the guest summary and guests by
  name.
- **Stay lifecycle** (module `Hotel`). The hotel state is
  `State(rooms, ledger)`. `AddRoom`, `CheckIn` and `CheckOut` each map a state
  to the next state plus an `Outcome`: either `Ok(value)` or one of
  `NotFound`, `AlreadyBooked`, `AlreadyVacant`, `InvalidType` or
  `InvalidPhone`. A refused operation returns its input state unchanged.
  Check-in bills `rent * days` and applies the loyalty discount. Check-out
  recomputes that bill and reports it minus the advance. The amount due may be
  negative. Check-out flips only the status: the guest's fields stay in the
  room.
- **Loyalty ledger** (module `Loyalty`). This is a map from phone number to
  visit count. A phone that is absent has count 0. Check-in adds one to the
  count before billing. From a count of 2 on, the bill is 90% of its amount.
- **Room file** (module `RoomFile`). The file holds one line per room, in the
  form `<roomNumber> <ac> <type> <rent> <status>` followed by a newline. It is
  modelled at the character level. Numbers are printed the way a C++ stream
  prints an `int`. Loading follows the stream's extraction rules: it skips
  white space, then reads an optional sign and greedy digits for an int, or
  one character for a char. Loading stops at the first field it cannot read.
  A record whose type is neither 'S' nor 'L' is read and dropped.

Module `Runs` folds sequences of menu commands over the state and proves what
every such command sequence preserves. Module `Scenarios` works through concrete sessions.

Modelling choices:

- `status` stays an `int`, as the C++ `int status` is. 0 means available and 1 means booked.
  Other values only come from a hand-edited file. Check-in refuses only
  status 1, and check-out refuses only status 0.
- `ac` and the room type stay `char`. The two room subclasses become the
  `tier` character, because they differ only in display text.
- Money is `real`. `rent * days` is an unbounded integer converted to `real`.
- In three places the code does something one might not expect, and the model
  follows the code:
  - `searchCustomer` matches the stored guest name in every room, whatever the
    room's status. A checked-out guest is still found, and so is the name ""
    in every room that never had a guest.
  - A room is not "booked if and only if it has a guest". Check-out keeps the
    guest fields. A booked room loaded from the file has none.
  - The availability listing does not tell an empty catalog apart from a full
    one. Both give the same "nothing found" flag.

## Model

| member | source | states |
|---|---|---|
| Catalog.FindRoom | Hotel_management.cpp:157-164 | The index found is the first room with that number, and no earlier room has it. The result is None exactly when no room has the number. |
| Catalog.SearchRoom | Hotel_management.cpp:157-165 | A search fails with NotFound exactly when no room has the number. Otherwise it returns the first room with that number. |
| Catalog.Select | Hotel_management.cpp:169-174 | A listing never has more rooms than the catalog. A room appears in it exactly when the room is in the catalog and matches the filter. |
| Catalog.SelectAppend | Hotel_management.cpp:169-174 | Filtering a concatenation is the concatenation of the filtered parts, so listings keep insertion order. |
| Catalog.AvailableRooms | Hotel_management.cpp:167-178 | The available list holds exactly the catalog rooms whose status is 0. |
| Catalog.GuestSummary | Hotel_management.cpp:272-287 | The guest summary holds exactly the catalog rooms whose status is 1. |
| Catalog.SearchCustomer | Hotel_management.cpp:254-270 | A name search holds exactly the catalog rooms whose stored guest name equals the name, whatever their status. |
| Catalog.ScanRooms | Hotel_management.cpp:168-177 | The loop collects the order-preserving filter of the catalog. Its found flag is raised exactly when some room matches. |
| Loyalty.RecordVisit | Hotel_management.cpp:214 | The visit count of the checked-in phone goes up by exactly one. Every other phone's count is unchanged. |
| Loyalty.ApplyDiscount | Hotel_management.cpp:289-295 | With a count of at least 2, the bill becomes nine tenths of itself. Otherwise it is returned unchanged. |
| Loyalty.DiscountBounds | Hotel_management.cpp:289-295 | A non-negative bill stays between 0 and its own value. It shrinks exactly when the count is at least 2 and the bill is positive. |
| Loyalty.DiscountMonotone | Hotel_management.cpp:289-295 | A larger bill is never discounted below a smaller one. |
| Loyalty.DiscountPersists | Hotel_management.cpp:290 | Once a phone qualifies for the discount, it qualifies in every later ledger whose counts are no smaller. |
| RoomFile.SkipSpace | Hotel_management.cpp:313 | Skipping white space never lengthens the text. The result starts with a non-space character or is empty. SkipSpaceDrops states what is dropped. |
| RoomFile.SkipSpaceDrops | Hotel_management.cpp:313 | Skipping removes exactly a prefix of white space: the result is the rest of the text after it, unchanged. |
| RoomFile.ReadInt | Hotel_management.cpp:313 | Reading an int consumes at least one character when it succeeds. |
| RoomFile.ReadChar | Hotel_management.cpp:313 | Reading a char consumes input and never yields white space. |
| RoomFile.ReadRecord | Hotel_management.cpp:313 | A record read consumes input. Its AC and type fields are not white space. It carries no guest data. |
| RoomFile.Parse | Hotel_management.cpp:309-331 | Every loaded room has type 'S' or 'L', a non-space AC field and no guest data. |
| RoomFile.IntText | Hotel_management.cpp:300-304 | A printed int is never empty. It starts with '-' exactly when the int is negative, and the rest is all digits. ReadIntText pins down the exact digits. |
| RoomFile.RecordLine | Hotel_management.cpp:300-304 | A saved line has at least ten characters and ends with the newline `endl` writes. SavedLine shows a concrete line and ReadRecordLine shows it reads back. |
| RoomFile.RecordLineOneLine | Hotel_management.cpp:300-304 | When the AC and type characters are not white space, the closing newline is the only one in the line. |
| RoomFile.Serialize | Hotel_management.cpp:297-307 | The saved text has at least ten characters per room and, unless the catalog is empty, ends with a newline. RoundTrip states what it holds. |
| RoomFile.ReadIntText | Hotel_management.cpp:300 | An int printed by the stream and followed by a non-digit reads back as the same int, and reading stops at that non-digit. |
| RoomFile.ReadRecordLine | Hotel_management.cpp:300-304 | A saved line reads back as its room without guest data. Reading stops just before the newline. |
| RoomFile.ParseSerialized | Hotel_management.cpp:297-331 | Loading saved lines followed by any text yields the kept rooms, then whatever the text yields. Rooms read before a malformed line are retained. |
| RoomFile.RoundTrip | Hotel_management.cpp:297-331 | For a catalog with types 'S'/'L' and non-space AC fields, save then load returns every room in order. Number, AC, type, rent and status are the same; guest data is empty. |
| RoomFile.SkipsUnknownType | Hotel_management.cpp:315-321 | A record whose type is neither 'S' nor 'L' is dropped, and loading continues with the next line. |
| Hotel.AddRoom | Hotel_management.cpp:121-155 | A room is added exactly when the type is 'S' or 'L'. It goes at the end with status 0, the given number, AC, type and rent, and no guest. Earlier rooms and the ledger are untouched. Any other type gives InvalidType and the same state. |
| Hotel.AddRoomShadowing | Hotel_management.cpp:135-164 | After an add, a lookup of that number finds the new room only if the number was unused. Otherwise it finds the same earlier room as before. |
| Hotel.CheckIn | Hotel_management.cpp:180-228 | Acts on the first room with the number. It refuses with NotFound, AlreadyBooked or InvalidPhone and the same state. On success only that room changes, to status 1 with the guest, the phone's count rises by one, and the bill is rent × days, discounted when the phone was seen before. Details below the table. |
| Hotel.Bill | Hotel_management.cpp:215-216 | The bill for a stay is rent × days when the phone's count is below 2, and nine tenths of rent × days from 2 on. Check-in and check-out both compute it this way. |
| Hotel.CheckOut | Hotel_management.cpp:230-252 | Acts on the first room with the number. It refuses with NotFound or AlreadyVacant and the same state. On success only the status becomes 0, the guest and ledger stay, and the amount due plus the advance is rent × days, discounted when the phone's current count is at least 2. Details below the table. |
| Hotel.SaveRooms | Hotel_management.cpp:297-307 | For a catalog with types 'S'/'L' and non-space AC fields, the saved text loads back as the same rooms in order, without guest data. |
| Hotel.LoadRooms | Hotel_management.cpp:309-331 | Loading appends rooms after the existing ones and does not touch the ledger. Every appended room has type 'S' or 'L' and no guest data. |
| Hotel.CheckInThenOut | Hotel_management.cpp:180-252 | Check-out right after check-in reports the quoted bill minus the advance. The room's status becomes 0 and it keeps the guest. The ledger keeps the check-in's count. |
| Hotel.InvalidPhoneRetry | Hotel_management.cpp:191-203 | After a phone of the wrong length, retyping only the phone with ten characters ends where a first correct entry would have, and that check-in succeeds. |
| Hotel.CheckedOutGuestStillFound | Hotel_management.cpp:246-266 | After check-in and check-out, a name search still finds the guest, in that room, now with status 0. |
| Hotel.CheckInOccupancy | Hotel_management.cpp:222 | A successful check-in grows the guest summary by exactly one. It shrinks the available list by one when the room had status 0. |
| Hotel.CheckOutOccupancy | Hotel_management.cpp:246 | A successful check-out grows the available list by exactly one. It shrinks the guest summary by one when the room had status 1. |
| Hotel.LoadedBookedRoomOwesNothing | Hotel_management.cpp:238-244 | Checking out a booked room that has no guest data reports an empty name and 0 due. |
| Hotel.RestartKeepsRooms | Hotel_management.cpp:297-331 | Save, restart and load give back every room with the same number, AC, type, rent and status. Guest data and visit counts are lost. |
| Runs.Apply | Hotel_management.cpp:335-393 | One menu entry, or the load at startup, never removes a room, changes a room's number, AC, type or rent, or lowers a visit count. |
| Runs.Run | Hotel_management.cpp:335-397 | The same holds for any sequence of such commands, as the menu loop runs them one after another. |
| Runs.ApplyPreserves | Hotel_management.cpp:121-331 | No single command removes a room, changes a room's number, AC, type or rent, or lowers a visit count. A catalog that can be saved stays one that can be saved. |
| Runs.RunPreserves | Hotel_management.cpp:121-331 | The same holds for any sequence of commands. |
| Scenarios.FirstStay | Hotel_management.cpp:180-252 | Room 101 at 1000 for 3 days on a first visit bills 3000. With 500 paid in advance, 2500 is due at check-out. |
| Scenarios.SecondStayDiscounted | Hotel_management.cpp:214-216 | The same phone's second stay of 2 days at 500 bills 900. |
| Scenarios.CheckoutUsesCurrentCount | Hotel_management.cpp:238-239 | Check-out applies the visit count current at check-out. A stay quoted 3000 is charged 2700 after a second check-in by the same phone. |
| Scenarios.DuplicateNumberShadowed | Hotel_management.cpp:184-189 | Of two rooms numbered 101 only the first can be booked. A second check-in is refused as already booked. |
| Scenarios.Refusals | Hotel_management.cpp:139-141 | An unknown type gives InvalidType. Any number on an empty catalog gives NotFound. A 5-character phone gives InvalidPhone and the same state. |
| Scenarios.SavedLine | Hotel_management.cpp:300-304 | Room 101 is saved as the line "101 N S 1000 0". |
| Scenarios.LoadedLine | Hotel_management.cpp:313-328 | Loading that line gives back room 101 exactly as it was added. |

`Hotel.CheckIn` acts on the first room with the number:

- No room has the number: the outcome is NotFound and the state is unchanged.
- The room has status 1: the outcome is AlreadyBooked and nothing changes.
- The phone's length is not 10: the outcome is InvalidPhone and nothing changes.
- Otherwise:
  - The room gets status 1 and stores the guest.
  - Every other room is unchanged.
  - The phone's count goes up by exactly one, and every other count stays.
  - The bill is rent × days on a first visit. It is nine tenths of rent × days when the phone was seen before.

`Hotel.CheckOut` acts on the first room with the number:

- No room has the number: the outcome is NotFound and the state is unchanged.
- The room has status 0: the outcome is AlreadyVacant and the state is unchanged.
- Otherwise:
  - Only that room's status changes, to 0. The guest fields stay.
  - The ledger is untouched.
  - The receipt carries the stored name, the number and the advance.
  - The amount due plus the advance is rent × days when the phone's current count is below 2. It is nine tenths of rent × days from a count of 2 on.

## Left out

- Console prompts, `cin` parsing (`cin.ignore`, `getline`), display text and
  the `main` menu loop with its try/catch. Operations take already-parsed
  arguments and return values instead of printing.
- The phone re-prompt loop is not modelled as a loop. Before the loop starts,
  the code has already written the name, address and rejected phone into the
  room's guest record. It then keeps asking for a phone, and no other
  operation can run until a ten-character one arrives. The model instead
  returns `InvalidPhone` with the state unchanged. `InvalidPhoneRetry` shows
  that retyping the phone then ends in the same state as the code's loop.
- The advance is entered after the bill is shown. It is part of the customer
  record passed to `CheckIn`, because it does not affect the bill.
- File handles and the file name `rooms.txt`. The file is modelled as its
  text, and saving or loading as functions on that text.
- The virtual `displayRoomDetails` and the `StandardRoom`/`LuxuryRoom`
  subclasses become the `tier` character.
- The unused `MAX_ROOMS` and `booking_id`, and the `new` without `delete`.
- Calendar validity of the from and to dates, which the code never checks.
- Loyalty.ApplyDiscount: float rounding is not modelled. `bill - bill * 0.10`
  is computed exactly in `real`. The C++ code rounds to `float` at each step.
- Hotel.CheckIn: 32-bit overflow of `rent * days` is not modelled. Integers
  are unbounded, and the product is converted to `real` exactly.
- Hotel.Bill: computes `rent * days` and the discount exactly. The 32-bit
  overflow and the `float` rounding are left out as on the Hotel.CheckIn and
  Loyalty.ApplyDiscount lines.
- Hotel.CheckOut: same as CheckIn for `rent * days`. Float subtraction of the
  advance is exact here.
- Hotel.CheckIn: each `char` of a phone stands for one byte of the C++
  `std::string`, because `phone.length()` counts bytes. Non-ASCII input, where
  one character takes several bytes, is not modelled.
- RoomFile.ReadChar: each `char` of the text stands for one byte of the file,
  because `file >> ac` reads one byte. Non-ASCII files are not modelled.
- RoomFile.ReadInt: the stream fails on digits whose value does not fit in an
  `int`. The model reads any number of digits, so such a file loads further
  than the C++ code would.
- Loyalty ledger: reading an unknown phone through the map's `operator[]`
  inserts it with count 0. The model treats absent keys as count 0, so no
  visit count can tell the two apart.
