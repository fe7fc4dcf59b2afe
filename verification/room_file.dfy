/** The rooms file: one line per room, five fields separated by single spaces,
    `<roomNumber> <ac> <type> <rent> <status>` and a newline. Saving prints the
    fields the way a C++ output stream prints an int and a char; loading reads
    them back with the stream's extraction rules (skip white space, optional
    sign, greedy digits for an int; one character for a char) and stops at the
    first field it cannot read. Guest data is not part of the file. */
module RoomFile {
  import opened Outcomes
  import opened Catalog

  /** The characters a C++ stream skips before a field. */
  predicate IsSpace(c: char) {
    c == ' ' || c == '\t' || c == '\n' || c == '\r' || c == '\U{000B}' || c == '\U{000C}'
  }

  predicate IsDigit(c: char) {
    '0' <= c <= '9'
  }

  predicate AllDigits(s: seq<char>) {
    forall i :: 0 <= i < |s| ==> IsDigit(s[i])
  }

  function DigitChar(d: nat): (c: char)
    requires d < 10
    ensures IsDigit(c)
  {
    (48 + d) as char
  }

  function DigitValue(c: char): (d: nat)
    requires IsDigit(c)
    ensures d < 10
  {
    (c as int) - 48
  }

  // ---------------------------------------------------------------------------
  // Printing

  /** Decimal digits of `n`, most significant first, without leading zeros. */
  function NatText(n: nat): (s: seq<char>)
    ensures |s| > 0 && AllDigits(s)
    decreases n
  {
    if n < 10 then [DigitChar(n)] else NatText(n / 10) + [DigitChar(n % 10)]
  }

  /** How `<<` prints an int. */
  function IntText(i: int): (s: seq<char>)
    ensures |s| > 0 && (s[0] == '-' <==> i < 0)
    ensures AllDigits(if i < 0 then s[1..] else s) && (i < 0 ==> |s| > 1)
  {
    if i < 0 then ['-'] + NatText(-i) else NatText(i)
  }

  /** One saved line; the newline is what `endl` writes. */
  function RecordLine(r: Room): (line: seq<char>)
    ensures |line| >= 10 && line[|line| - 1] == '\n'
  {
    IntText(r.roomNumber) + [' ', r.ac, ' ', r.tier, ' '] + IntText(r.rent) + [' '] + IntText(r.status) + ['\n']
  }

  predicate NoBreak(s: seq<char>) {
    forall k :: 0 <= k < |s| ==> s[k] != '\n'
  }

  lemma NoBreakConcat(a: seq<char>, b: seq<char>)
    requires NoBreak(a) && NoBreak(b)
    ensures NoBreak(a + b)
  {
    forall k | 0 <= k < |a + b| ensures (a + b)[k] != '\n' {
      if k >= |a| { assert (a + b)[k] == b[k - |a|]; }
    }
  }

  /** A room whose type letters are not white space is saved as exactly one
      line: the newline `endl` writes is the only one in it. */
  lemma RecordLineOneLine(r: Room)
    requires !IsSpace(r.ac) && !IsSpace(r.tier)
    ensures var line := RecordLine(r); NoBreak(line[..|line| - 1])
  {
    var a, b, c, d, e := IntText(r.roomNumber), [' ', r.ac, ' ', r.tier, ' '], IntText(r.rent), [' '], IntText(r.status);
    forall i ensures NoBreak(IntText(i)) {
      var s := IntText(i);
      forall k | 0 <= k < |s| ensures s[k] != '\n' {
        if i < 0 && k > 0 { assert s[k] == s[1..][k - 1]; }
      }
    }
    NoBreakConcat(a, b);
    NoBreakConcat(a + b, c);
    NoBreakConcat(a + b + c, d);
    NoBreakConcat(a + b + c + d, e);
    var line := RecordLine(r);
    assert line == a + b + c + d + e + ['\n'];
    assert line[..|line| - 1] == a + b + c + d + e;
  }

  /** saveRoomsToFile: the lines of all rooms, in catalog order. */
  function Serialize(rooms: seq<Room>): (text: seq<char>)
    ensures |text| >= 10 * |rooms|
    ensures |rooms| > 0 ==> text[|text| - 1] == '\n'
  {
    if |rooms| == 0 then [] else RecordLine(rooms[0]) + Serialize(rooms[1..])
  }

  // ---------------------------------------------------------------------------
  // Reading

  /** A field read from the front of the text, and the text after it. */
  datatype Read<T> = Read(value: T, rest: seq<char>)

  function SkipSpace(s: seq<char>): (r: seq<char>)
    ensures |r| <= |s|
    ensures |r| > 0 ==> !IsSpace(r[0])
  {
    if |s| > 0 && IsSpace(s[0]) then SkipSpace(s[1..]) else s
  }

  /** Length of the longest all-digit prefix. */
  function DigitSpan(s: seq<char>): (k: nat)
    ensures k <= |s| && AllDigits(s[..k])
    ensures k < |s| ==> !IsDigit(s[k])
  {
    if |s| > 0 && IsDigit(s[0]) then 1 + DigitSpan(s[1..]) else 0
  }

  /** The number a digit string denotes. */
  function DigitsValue(s: seq<char>): nat
    requires AllDigits(s)
  {
    if |s| == 0 then 0 else DigitsValue(s[..|s| - 1]) * 10 + DigitValue(s[|s| - 1])
  }

  /** `>>` into an int: white space, an optional sign, then at least one digit. */
  function ReadInt(s: seq<char>): (r: Option<Read<int>>)
    ensures r.Some? ==> |r.value.rest| < |s|
  {
    var t := SkipSpace(s);
    var signed := |t| > 0 && (t[0] == '-' || t[0] == '+');
    var u := if signed then t[1..] else t;
    var k := DigitSpan(u);
    if k == 0 then None
    else
      var n: int := DigitsValue(u[..k]);
      Some(Read(if signed && t[0] == '-' then -n else n, u[k..]))
  }

  /** `>>` into a char: white space, then one character, which is never white space. */
  function ReadChar(s: seq<char>): (r: Option<Read<char>>)
    ensures r.Some? ==> |r.value.rest| < |s| && !IsSpace(r.value.value)
  {
    var t := SkipSpace(s);
    if |t| == 0 then None else Some(Read(t[0], t[1..]))
  }

  /** The five fields of one line, read in order; None as soon as one fails. */
  function ReadRecord(s: seq<char>): (r: Option<Read<Room>>)
    ensures r.Some? ==> |r.value.rest| < |s|
    ensures r.Some? ==> !IsSpace(r.value.value.ac) && !IsSpace(r.value.value.tier)
    ensures r.Some? ==> r.value.value.cust == NoCustomer
  {
    match ReadInt(s)
    case None => None
    case Some(Read(rno, s1)) =>
      match ReadChar(s1)
      case None => None
      case Some(Read(ac, s2)) =>
        match ReadChar(s2)
        case None => None
        case Some(Read(tier, s3)) =>
          match ReadInt(s3)
          case None => None
          case Some(Read(rent, s4)) =>
            match ReadInt(s4)
            case None => None
            case Some(Read(status, s5)) =>
              Some(Read(Room(rno, ac, tier, rent, status, NoCustomer), s5))
  }

  /** loadRoomsFromFile: the rooms of every record up to the first one that
      cannot be read; a record whose type is neither 'S' nor 'L' is read and
      dropped. Loaded rooms carry no guest data. */
  function Parse(s: seq<char>): (r: seq<Room>)
    ensures forall x :: x in r ==> IsTier(x.tier) && !IsSpace(x.ac) && x.cust == NoCustomer
    decreases |s|
  {
    match ReadRecord(s)
    case None => []
    case Some(Read(room, rest)) =>
      (if IsTier(room.tier) then [room] else []) + Parse(rest)
  }

  // ---------------------------------------------------------------------------
  // Round trip

  /** A room as it comes back from the file: the same fields, no guest. */
  function Restored(r: Room): Room {
    r.(cust := NoCustomer)
  }

  /** What a save followed by a load keeps of `rooms`. */
  function Reloaded(rooms: seq<Room>): seq<Room> {
    if |rooms| == 0 then []
    else (if IsTier(rooms[0].tier) then [Restored(rooms[0])] else []) + Reloaded(rooms[1..])
  }

  /** A catalog whose every line reads back as written: the two char fields
      are not white space. */
  ghost predicate Readable(rooms: seq<Room>) {
    forall i :: 0 <= i < |rooms| ==> !IsSpace(rooms[i].ac) && !IsSpace(rooms[i].tier)
  }

  lemma ReadableTail(rooms: seq<Room>)
    requires |rooms| > 0 && Readable(rooms)
    ensures !IsSpace(rooms[0].ac) && !IsSpace(rooms[0].tier) && Readable(rooms[1..])
  {
    forall i | 0 <= i < |rooms| - 1 ensures !IsSpace(rooms[1..][i].ac) && !IsSpace(rooms[1..][i].tier) {
      assert rooms[1..][i] == rooms[i + 1];
    }
  }

  /** A catalog whose every line reads back as written and is kept by the loader. */
  ghost predicate Storable(rooms: seq<Room>) {
    forall i :: 0 <= i < |rooms| ==> IsTier(rooms[i].tier) && !IsSpace(rooms[i].ac)
  }

  lemma {:induction false} NatTextValue(n: nat)
    ensures DigitsValue(NatText(n)) == n
    decreases n
  {
    if n >= 10 {
      var p := NatText(n / 10);
      var s := p + [DigitChar(n % 10)];
      assert s[..|s| - 1] == p;
      NatTextValue(n / 10);
    }
  }

  lemma {:induction false} DigitSpanOf(d: seq<char>, rest: seq<char>)
    requires AllDigits(d)
    requires |rest| > 0 && !IsDigit(rest[0])
    ensures DigitSpan(d + rest) == |d|
  {
    if |d| > 0 {
      assert (d + rest)[1..] == d[1..] + rest;
      DigitSpanOf(d[1..], rest);
    } else {
      assert d + rest == rest;
    }
  }

  lemma Assoc<T>(a: seq<T>, b: seq<T>, c: seq<T>)
    ensures (a + b) + c == a + (b + c)
  {
  }

  /** Skipping drops exactly the leading white space and keeps the rest. */
  lemma {:induction false} SkipSpaceDrops(s: seq<char>)
    ensures var r := SkipSpace(s);
            && r == s[|s| - |r|..]
            && forall j :: 0 <= j < |s| - |r| ==> IsSpace(s[j])
    decreases |s|
  {
    if |s| > 0 && IsSpace(s[0]) {
      SkipSpaceDrops(s[1..]);
      var r := SkipSpace(s[1..]);
      assert s[1..][|s[1..]| - |r|..] == s[|s| - |r|..];
      forall j | 0 <= j < |s| - |r| ensures IsSpace(s[j]) {
        if j > 0 { assert s[j] == s[1..][j - 1]; }
      }
    }
  }

  lemma SkipSpaceCons(c: char, s: seq<char>)
    requires IsSpace(c)
    ensures SkipSpace([c] + s) == SkipSpace(s)
  {
    assert ([c] + s)[1..] == s;
  }

  /** An int printed by `<<` and followed by a non-digit reads back as itself. */
  lemma {:induction false} ReadIntText(i: int, rest: seq<char>)
    requires |rest| > 0 && !IsDigit(rest[0])
    ensures ReadInt(IntText(i) + rest) == Some(Read(i, rest))
  {
    var n: nat := if i < 0 then -i else i;
    var u := NatText(n) + rest;
    ReadDigitsText(n, rest);
    if i < 0 {
      assert IntText(i) == ['-'] + NatText(n);
      Assoc(['-'], NatText(n), rest);
      ReadNegative(u, n, rest);
    } else {
      assert IntText(i) == NatText(n);
      ReadUnsigned(u);
    }
  }

  /** Without a sign, `>>` reads the leading digits as they are. */
  lemma {:induction false} ReadUnsigned(t: seq<char>)
    requires |t| > 0 && IsDigit(t[0])
    ensures var k := DigitSpan(t);
            ReadInt(t) == Some(Read(DigitsValue(t[..k]) as int, t[k..]))
  {
    assert SkipSpace(t) == t;
  }

  /** The digits `<<` prints for `n`, followed by a non-digit, span exactly
      those digits and read back as `n`. */
  lemma {:induction false} ReadDigitsText(n: nat, rest: seq<char>)
    requires |rest| > 0 && !IsDigit(rest[0])
    ensures var d := NatText(n);
            && DigitSpan(d + rest) == |d|
            && (d + rest)[..|d|] == d && (d + rest)[|d|..] == rest
            && DigitsValue(d) == n
  {
    DigitSpanOf(NatText(n), rest);
    NatTextValue(n);
  }

  lemma {:induction false} ReadNegative(u: seq<char>, n: nat, rest: seq<char>)
    requires |u| > 0 && IsDigit(u[0])
    requires DigitSpan(u) > 0 && DigitsValue(u[..DigitSpan(u)]) == n && u[DigitSpan(u)..] == rest
    ensures ReadInt(['-'] + u) == Some(Read(-(n as int), rest))
  {
    var s := ['-'] + u;
    assert s[1..] == u;
    ReadMinus(s);
  }

  /** After a leading minus sign, `>>` reads the digits that follow and negates them. */
  lemma {:induction false} ReadMinus(t: seq<char>)
    requires |t| > 0 && t[0] == '-'
    ensures var k := DigitSpan(t[1..]);
            ReadInt(t) == if k == 0 then None else Some(Read(-(DigitsValue(t[1..][..k]) as int), t[1..][k..]))
  {
    assert SkipSpace(t) == t;
  }

  lemma ReadCharAfterSpace(c: char, rest: seq<char>)
    requires !IsSpace(c)
    ensures ReadChar([' ', c] + rest) == Some(Read(c, rest))
  {
    SkipSpaceCons(' ', [c] + rest);
    assert [' ', c] + rest == [' '] + ([c] + rest);
    assert ([c] + rest)[1..] == rest;
  }

  lemma ReadIntAfterSpace(c: char, s: seq<char>)
    requires IsSpace(c)
    ensures ReadInt([c] + s) == ReadInt(s)
  {
    SkipSpaceCons(c, s);
  }

  /** The reader succeeds on `s` once each of its five fields does. */
  lemma ReadRecordFields(s: seq<char>, r: Room, s1: seq<char>, s2: seq<char>, s3: seq<char>, s4: seq<char>, s5: seq<char>)
    requires ReadInt(s) == Some(Read(r.roomNumber, s1))
    requires ReadChar(s1) == Some(Read(r.ac, s2))
    requires ReadChar(s2) == Some(Read(r.tier, s3))
    requires ReadInt(s3) == Some(Read(r.rent, s4))
    requires ReadInt(s4) == Some(Read(r.status, s5))
    ensures ReadRecord(s) == Some(Read(Restored(r), s5))
  {
  }

  lemma RecordLineSplit(r: Room, rest: seq<char>)
    ensures RecordLine(r) + rest
         == IntText(r.roomNumber) + ([' ', r.ac] + ([' ', r.tier] + ([' '] + (IntText(r.rent) + ([' '] + (IntText(r.status) + (['\n'] + rest)))))))
  {
    var a, b, c, d, e, f := IntText(r.roomNumber), [' ', r.ac, ' ', r.tier, ' '], IntText(r.rent), [' '], IntText(r.status), ['\n'];
    var t5 := f + rest;
    var t4 := e + t5;
    var t3 := d + t4;
    var t2 := c + t3;
    var t1 := b + t2;
    assert RecordLine(r) == a + b + c + d + e + f;
    Assoc(a + b + c + d + e, f, rest);
    Assoc(a + b + c + d, e, t5);
    Assoc(a + b + c, d, t4);
    Assoc(a + b, c, t3);
    Assoc(a, b, t2);
    assert t1 == [' ', r.ac] + ([' ', r.tier] + ([' '] + t2));
  }

  /** One saved line reads back as its room without guest data; the reader
      stops just before the line's newline. */
  lemma ReadRecordLine(r: Room, rest: seq<char>)
    requires !IsSpace(r.ac) && !IsSpace(r.tier)
    ensures ReadRecord(RecordLine(r) + rest) == Some(Read(Restored(r), ['\n'] + rest))
  {
    var s5 := ['\n'] + rest;
    var t4 := IntText(r.status) + s5;
    var s4 := [' '] + t4;
    var t3 := IntText(r.rent) + s4;
    var s3 := [' '] + t3;
    var s2 := [' ', r.tier] + s3;
    var s1 := [' ', r.ac] + s2;
    RecordLineSplit(r, rest);
    ReadIntText(r.roomNumber, s1);
    ReadCharAfterSpace(r.ac, s2);
    ReadCharAfterSpace(r.tier, s3);
    ReadIntAfterSpace(' ', t3);
    ReadIntText(r.rent, s4);
    ReadIntAfterSpace(' ', t4);
    ReadIntText(r.status, s5);
    ReadRecordFields(RecordLine(r) + rest, r, s1, s2, s3, s4, s5);
  }

  lemma ParseAfterSpace(c: char, s: seq<char>)
    requires IsSpace(c)
    ensures Parse([c] + s) == Parse(s)
  {
    ReadIntAfterSpace(c, s);
    assert ReadRecord([c] + s) == ReadRecord(s);
  }

  lemma ParseStep(s: seq<char>, room: Room, rest: seq<char>)
    requires ReadRecord(s) == Some(Read(room, rest))
    ensures Parse(s) == (if IsTier(room.tier) then [room] else []) + Parse(rest)
  {
  }

  lemma SerializeSplit(rooms: seq<Room>, rest: seq<char>)
    requires |rooms| > 0
    ensures Serialize(rooms) + rest == RecordLine(rooms[0]) + (Serialize(rooms[1..]) + rest)
  {
    Assoc(RecordLine(rooms[0]), Serialize(rooms[1..]), rest);
  }

  /** The first saved line contributes its room (if its type is kept), then
      loading continues after the newline. */
  lemma ParseFirstLine(rooms: seq<Room>, rest: seq<char>)
    requires |rooms| > 0 && !IsSpace(rooms[0].ac) && !IsSpace(rooms[0].tier)
    ensures Parse(Serialize(rooms) + rest)
         == (if IsTier(rooms[0].tier) then [Restored(rooms[0])] else []) + Parse(Serialize(rooms[1..]) + rest)
  {
    var tail := Serialize(rooms[1..]) + rest;
    SerializeSplit(rooms, rest);
    ReadRecordLine(rooms[0], tail);
    ParseStep(RecordLine(rooms[0]) + tail, Restored(rooms[0]), ['\n'] + tail);
    ParseAfterSpace('\n', tail);
  }

  /** Loading the saved lines of `rooms` followed by any text yields the rooms
      `Reloaded` keeps, then whatever the text yields: the rooms read before a
      malformed line survive it. */
  lemma {:induction false} ParseSerialized(rooms: seq<Room>, rest: seq<char>)
    requires Readable(rooms)
    ensures Parse(Serialize(rooms) + rest) == Reloaded(rooms) + Parse(rest)
    decreases |rooms|
  {
    if |rooms| == 0 {
      assert Serialize(rooms) + rest == rest;
      assert Reloaded(rooms) + Parse(rest) == Parse(rest);
    } else {
      ReadableTail(rooms);
      var head := if IsTier(rooms[0].tier) then [Restored(rooms[0])] else [];
      calc {
        Parse(Serialize(rooms) + rest);
      == { ParseFirstLine(rooms, rest); }
        head + Parse(Serialize(rooms[1..]) + rest);
      == { ParseSerialized(rooms[1..], rest); }
        head + (Reloaded(rooms[1..]) + Parse(rest));
      ==
        (head + Reloaded(rooms[1..])) + Parse(rest);
      ==
        Reloaded(rooms) + Parse(rest);
      }
    }
  }

  lemma {:induction false} ReloadedStorable(rooms: seq<Room>)
    requires Storable(rooms)
    ensures |Reloaded(rooms)| == |rooms|
    ensures forall i :: 0 <= i < |rooms| ==> Reloaded(rooms)[i] == Restored(rooms[i])
    decreases |rooms|
  {
    if |rooms| > 0 {
      assert Storable(rooms[1..]) by {
        forall i | 0 <= i < |rooms[1..]| ensures IsTier(rooms[1..][i].tier) && !IsSpace(rooms[1..][i].ac) {
          assert rooms[1..][i] == rooms[i + 1];
        }
      }
      ReloadedStorable(rooms[1..]);
    }
  }

  /** Save then load gives back every room, in order, with the same number, AC
      type, room type, rent and status, and without guest data. */
  lemma RoundTrip(rooms: seq<Room>)
    ensures Storable(rooms) ==> |Parse(Serialize(rooms))| == |rooms|
    ensures Storable(rooms) ==> forall i :: 0 <= i < |rooms| ==> Parse(Serialize(rooms))[i] == Restored(rooms[i])
  {
    if Storable(rooms) {
      ParseSerialized(rooms, []);
      assert Serialize(rooms) + [] == Serialize(rooms);
      assert Parse([]) == [];
      ReloadedStorable(rooms);
    }
  }

  /** A record whose type is not 'S' or 'L' is read and dropped, and loading
      continues with the next line. */
  lemma SkipsUnknownType(r: Room, rest: seq<char>)
    requires !IsSpace(r.ac) && !IsSpace(r.tier) && !IsTier(r.tier)
    ensures Parse(RecordLine(r) + rest) == Parse(rest)
  {
    ReadRecordLine(r, rest);
    ParseAfterSpace('\n', rest);
  }
}
