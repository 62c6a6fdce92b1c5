/** The database seeding script: an admin user, four venues, 100 seats per
    venue, four events and one priced seat record per event and venue seat.
    Each insertion is guarded by a lookup, so running the script again adds
    nothing. The database is a set of tables held as sequences; the row at
    position i of a table has primary key i + 1 (rows are only appended). */
module Seed {

  import opened Options
  import opened Sequences

  datatype User = User(fullName: string, email: string, hashedPassword: string, isSuperuser: bool, role: string)
  datatype Venue = Venue(name: string, city: string, capacity: int, address: string, organizerId: int)
  datatype Seat = Seat(venueId: int, section: string, row: string, number: string)
  datatype Event = Event(title: string, venueId: int, organizerId: int)
  datatype EventSeatStatus = Available | Locked | Sold
  /** `price` is in whole rand. */
  datatype EventSeat = EventSeat(eventId: int, seatId: int, price: int, status: EventSeatStatus)

  /** The fields of a venue the script supplies. */
  datatype VenueData = VenueData(name: string, city: string, capacity: int, address: string)
  /** The fields of an event the script supplies; `venue` indexes the venues created before. */
  datatype EventData = EventData(title: string, venue: nat)

  const AdminEmail: string := "admin@ticketza.co.za"
  const AdminUser: User := User("Admin User", AdminEmail, "hashed_password_secret", true, "admin")

  const VenuesData: seq<VenueData> := [
    VenueData("FNB Stadium (Soccer City)", "Johannesburg", 94736, "Stadium Ave, Nasrec, Johannesburg"),
    VenueData("Moses Mabhida Stadium", "Durban", 56000, "44 Isaiah Ntshangase Rd, Stamford Hill"),
    VenueData("Cape Town Stadium (DHL)", "Cape Town", 55000, "Fritz Sonnenberg Rd, Green Point"),
    VenueData("SunBet Arena (Time Square)", "Pretoria", 8500, "209 Aramist Ave, Menlyn, Pretoria")
  ]

  const EventsData: seq<EventData> := [
    EventData("Soweto Derby: Chiefs vs Pirates", 0),
    EventData("Black Coffee: Africa Rising II", 1),
    EventData("Cape Town Jazz Festival 2026", 2),
    EventData("Trevor Noah: The homecoming", 3)
  ]

  const SeedRows: seq<string> := ["A", "B", "C", "D", "E"]
  const SeatsPerRow: nat := 20
  const Section: string := "Golden Circle"

  // ---------------------------------------------------------------------
  // Lookups

  /** The key column of each table that the script looks rows up by. */
  function Emails(users: seq<User>): seq<string>
  {
    seq(|users|, i requires 0 <= i < |users| => users[i].email)
  }

  function Names(venues: seq<Venue>): seq<string>
  {
    seq(|venues|, i requires 0 <= i < |venues| => venues[i].name)
  }

  function Titles(events: seq<Event>): seq<string>
  {
    seq(|events|, i requires 0 <= i < |events| => events[i].title)
  }

  /** `db.query(T).filter(column == k).first()`: the position of the first row
      whose key column holds `k`. */
  function FirstIndex(keys: seq<string>, k: string): (r: Option<nat>)
    ensures r.None? <==> k !in keys
    ensures r.Some? ==> r.value < |keys| && keys[r.value] == k && k !in keys[..r.value]
  {
    if keys == [] then None
    else if keys[0] == k then Some(0)
    else
      assert keys == [keys[0]] + keys[1..];
      match FirstIndex(keys[1..], k)
      case None => None
      case Some(i) =>
        assert keys[..i + 1] == [keys[0]] + keys[1..][..i];
        Some(i + 1)
  }

  /** Rows appended after a match do not change which row matches first. */
  lemma FirstIndexAppend(keys: seq<string>, more: seq<string>, k: string)
    requires FirstIndex(keys, k).Some?
    ensures FirstIndex(keys + more, k) == FirstIndex(keys, k)
  {
    var i := FirstIndex(keys, k).value;
    assert (keys + more)[i] == keys[i];
    assert (keys + more)[..i] == keys[..i];
  }

  /** `db.query(Seat).filter(Seat.venue_id == venueId).count()`. */
  function CountSeatsOf(seats: seq<Seat>, venueId: int): nat
  {
    if seats == [] then 0
    else CountSeatsOf(seats[..|seats| - 1], venueId) + (if seats[|seats| - 1].venueId == venueId then 1 else 0)
  }

  lemma {:induction false} CountSeatsOfZero(seats: seq<Seat>, venueId: int)
    ensures CountSeatsOf(seats, venueId) == 0 <==> forall i | 0 <= i < |seats| :: seats[i].venueId != venueId
  {
    if seats != [] {
      var init := seats[..|seats| - 1];
      CountSeatsOfZero(init, venueId);
      assert forall i | 0 <= i < |init| :: init[i] == seats[i];
    }
  }

  // ---------------------------------------------------------------------
  // Seat numbers as decimal strings

  function Digit(d: nat): char
    requires d < 10
  {
    ('0' as int + d) as char
  }

  function DigitValue(c: char): nat
  {
    if '0' <= c <= '9' then c as int - '0' as int else 0
  }

  /** `str(n)`. */
  function DecimalString(n: nat): (s: string)
    ensures |s| >= 1
    decreases n
  {
    if n < 10 then [Digit(n)] else DecimalString(n / 10) + [Digit(n % 10)]
  }

  /** The value of a string of decimal digits, as `parseInt` reads it. */
  function ParseDecimal(s: string): nat
  {
    if s == [] then 0 else ParseDecimal(s[..|s| - 1]) * 10 + DigitValue(s[|s| - 1])
  }

  /** Reading back a written number gives the number. */
  lemma {:induction false} ParseDecimalString(n: nat)
    ensures ParseDecimal(DecimalString(n)) == n
    decreases n
  {
    if n >= 10 {
      var s := DecimalString(n);
      assert s[..|s| - 1] == DecimalString(n / 10);
      ParseDecimalString(n / 10);
    }
  }

  /** Different numbers are written differently. */
  lemma DecimalStringInjective(m: nat, n: nat)
    requires m != n
    ensures DecimalString(m) != DecimalString(n)
  {
    ParseDecimalString(m);
    ParseDecimalString(n);
  }

  // ---------------------------------------------------------------------
  // A venue's seats

  /** The seats the nested loops generate for one venue, in row-major order:
      position `SeatsPerRow * r + (k - 1)` holds seat k of row SeedRows[r]. */
  function VenueLayout(venueId: int): (s: seq<Seat>)
  {
    seq(|SeedRows| * SeatsPerRow, i requires 0 <= i < |SeedRows| * SeatsPerRow =>
      Seat(venueId, Section, SeedRows[i / SeatsPerRow], DecimalString(i % SeatsPerRow + 1)))
  }

  lemma RowMajor(r: nat, k: nat)
    requires k < SeatsPerRow
    ensures (SeatsPerRow * r + k) / SeatsPerRow == r && (SeatsPerRow * r + k) % SeatsPerRow == k
  {
  }

  /** The nested `for row in [...]: for num in range(1, 21)` loops. */
  method GenerateSeats(venueId: int) returns (seats: seq<Seat>)
    ensures seats == VenueLayout(venueId)
  {
    ghost var layout := VenueLayout(venueId);
    seats := [];
    for r := 0 to |SeedRows|
      invariant seats == layout[..SeatsPerRow * r]
    {
      for num := 1 to SeatsPerRow + 1
        invariant seats == layout[..SeatsPerRow * r + num - 1]
      {
        RowMajor(r, num - 1);
        assert layout[SeatsPerRow * r + num - 1] == Seat(venueId, Section, SeedRows[r], DecimalString(num));
        assert layout[..SeatsPerRow * r + num] == layout[..SeatsPerRow * r + num - 1] + [layout[SeatsPerRow * r + num - 1]];
        seats := seats + [Seat(venueId, Section, SeedRows[r], DecimalString(num))];
      }
    }
    assert layout[..SeatsPerRow * |SeedRows|] == layout;
  }

  /** A venue gets 100 seats, 5 rows of 20 (not the 10 by 10 of the script's
      comment); each carries the venue's id and section "Golden Circle", a row
      from A to E and a number from 1 to 20. */
  lemma VenueLayoutShape(venueId: int)
    ensures |VenueLayout(venueId)| == 100
    ensures forall i | 0 <= i < 100 ::
              VenueLayout(venueId)[i].venueId == venueId && VenueLayout(venueId)[i].section == Section
              && VenueLayout(venueId)[i].row in SeedRows
              && 1 <= ParseDecimal(VenueLayout(venueId)[i].number) <= 20
  {
    forall i | 0 <= i < 100 ensures 1 <= ParseDecimal(VenueLayout(venueId)[i].number) <= 20 {
      ParseDecimalString(i % SeatsPerRow + 1);
    }
  }

  /** No two seats of a venue share both row and number. */
  lemma VenueLayoutDistinct(venueId: int)
    ensures forall i, j | 0 <= i < j < |VenueLayout(venueId)| ::
              VenueLayout(venueId)[i].row != VenueLayout(venueId)[j].row
              || VenueLayout(venueId)[i].number != VenueLayout(venueId)[j].number
  {
    var s := VenueLayout(venueId);
    forall i, j | 0 <= i < j < |s| ensures s[i].row != s[j].row || s[i].number != s[j].number {
      if i / SeatsPerRow != j / SeatsPerRow {
        assert s[i].row != s[j].row;
      } else {
        assert i % SeatsPerRow != j % SeatsPerRow;
        DecimalStringInjective(i % SeatsPerRow + 1, j % SeatsPerRow + 1);
      }
    }
  }

  // ---------------------------------------------------------------------
  // Event seats

  /** The pricing rule: rows A and B cost 500, every other row 250. */
  function RowPrice(row: string): int
  {
    if row in ["A", "B"] then 500 else 250
  }

  /** `db.query(Seat).filter(Seat.venue_id == venueId).all()`: the ids of the
      venue's seats, in table order. */
  function SeatIdsOf(seats: seq<Seat>, venueId: int): (ids: seq<int>)
    ensures forall k | 0 <= k < |ids| :: 1 <= ids[k] <= |seats| && seats[ids[k] - 1].venueId == venueId
  {
    if seats == [] then []
    else
      var n := |seats| - 1;
      var init := seats[..n];
      var before := SeatIdsOf(init, venueId);
      assert forall k | 0 <= k < |before| :: seats[before[k] - 1] == init[before[k] - 1];
      before + (if seats[n].venueId == venueId then [n + 1] else [])
  }

  /** The ids come in increasing order, and every seat of the venue is among them. */
  lemma SeatIdsOrderedComplete(seats: seq<Seat>, venueId: int)
    ensures var ids := SeatIdsOf(seats, venueId);
      && (forall k, l | 0 <= k < l < |ids| :: ids[k] < ids[l])
      && (forall i | 0 <= i < |seats| && seats[i].venueId == venueId :: i + 1 in ids)
  {
    SeatIdsOrdered(seats, venueId);
    forall i | 0 <= i < |seats| && seats[i].venueId == venueId ensures i + 1 in SeatIdsOf(seats, venueId) {
      SeatIdsComplete(seats, venueId, i);
    }
  }

  lemma {:induction false} SeatIdsOrdered(seats: seq<Seat>, venueId: int)
    ensures forall k, l | 0 <= k < l < |SeatIdsOf(seats, venueId)| :: SeatIdsOf(seats, venueId)[k] < SeatIdsOf(seats, venueId)[l]
  {
    if seats != [] {
      var n := |seats| - 1;
      var init := seats[..n];
      SeatIdsOrdered(init, venueId);
      var before := SeatIdsOf(init, venueId);
      var ids := SeatIdsOf(seats, venueId);
      assert ids == before + (if seats[n].venueId == venueId then [n + 1] else []);
      forall k, l | 0 <= k < l < |ids| ensures ids[k] < ids[l] {
        assert k < |before| && ids[k] == before[k];
        assert before[k] <= n;
        if l < |before| {
          assert ids[l] == before[l] && before[k] < before[l];
        } else {
          assert ids[l] == n + 1;
        }
      }
    }
  }

  lemma {:induction false} SeatIdsComplete(seats: seq<Seat>, venueId: int, i: nat)
    requires i < |seats| && seats[i].venueId == venueId
    ensures i + 1 in SeatIdsOf(seats, venueId)
  {
    var n := |seats| - 1;
    var init := seats[..n];
    SeatIdsOfLast(seats, venueId);
    if i < n {
      assert init[i] == seats[i];
      SeatIdsComplete(init, venueId, i);
    }
  }

  /** A venue has exactly as many seat ids as seats. */
  lemma {:induction false} SeatIdsCount(seats: seq<Seat>, venueId: int)
    ensures |SeatIdsOf(seats, venueId)| == CountSeatsOf(seats, venueId)
  {
    if seats != [] {
      SeatIdsCount(seats[..|seats| - 1], venueId);
    }
  }

  /** One event seat per seat of the venue, priced by row, AVAILABLE. */
  function EventSeatsFor(eventId: int, seats: seq<Seat>, venueId: int): seq<EventSeat>
  {
    if seats == [] then []
    else
      var n := |seats| - 1;
      EventSeatsFor(eventId, seats[..n], venueId)
      + (if seats[n].venueId == venueId then [EventSeat(eventId, n + 1, RowPrice(seats[n].row), Available)] else [])
  }

  /** A venue's event seats are as many as its seats. */
  lemma {:induction false} EventSeatsForCount(eventId: int, seats: seq<Seat>, venueId: int)
    ensures |EventSeatsFor(eventId, seats, venueId)| == CountSeatsOf(seats, venueId)
  {
    if seats != [] {
      EventSeatsForCount(eventId, seats[..|seats| - 1], venueId);
    }
  }

  /** Event seat k links the k-th seat id of the venue, at its row's price. */
  lemma {:induction false} EventSeatsForIds(eventId: int, seats: seq<Seat>, venueId: int)
    ensures var ids := SeatIdsOf(seats, venueId);
      var es := EventSeatsFor(eventId, seats, venueId);
      && |es| == |ids|
      && forall k | 0 <= k < |ids| :: es[k] == EventSeat(eventId, ids[k], RowPrice(seats[ids[k] - 1].row), Available)
  {
    EventSeatsForCount(eventId, seats, venueId);
    SeatIdsCount(seats, venueId);
    if seats != [] {
      var n := |seats| - 1;
      var init := seats[..n];
      EventSeatsForIds(eventId, init, venueId);
      var before, ids := SeatIdsOf(init, venueId), SeatIdsOf(seats, venueId);
      var prior, es := EventSeatsFor(eventId, init, venueId), EventSeatsFor(eventId, seats, venueId);
      forall k | 0 <= k < |ids|
        ensures es[k] == EventSeat(eventId, ids[k], RowPrice(seats[ids[k] - 1].row), Available)
      {
        if k < |before| {
          assert ids[k] == before[k] && es[k] == prior[k];
          assert seats[before[k] - 1] == init[before[k] - 1];
        } else {
          assert ids[k] == n + 1;
        }
      }
    }
  }

  /** The loop that links an event to its venue's seats. */
  method LinkEventSeats(eventId: int, seats: seq<Seat>, venueId: int) returns (eventSeats: seq<EventSeat>)
    ensures eventSeats == EventSeatsFor(eventId, seats, venueId)
  {
    var venueSeats := SeatIdsOf(seats, venueId);
    EventSeatsForIds(eventId, seats, venueId);
    eventSeats := [];
    for k := 0 to |venueSeats|
      invariant eventSeats == EventSeatsFor(eventId, seats, venueId)[..k]
    {
      var seatId := venueSeats[k];
      var price := RowPrice(seats[seatId - 1].row);
      eventSeats := eventSeats + [EventSeat(eventId, seatId, price, Available)];
    }
  }

  /** Every event seat belongs to the event, is AVAILABLE, refers to a seat
      of the venue and carries the price of that seat's row. */
  lemma EventSeatsSound(eventId: int, seats: seq<Seat>, venueId: int)
    ensures var es := EventSeatsFor(eventId, seats, venueId);
      forall k | 0 <= k < |es| ::
        && es[k].eventId == eventId && es[k].status == Available
        && 1 <= es[k].seatId <= |seats| && seats[es[k].seatId - 1].venueId == venueId
        && es[k].price == RowPrice(seats[es[k].seatId - 1].row)
  {
    EventSeatsForIds(eventId, seats, venueId);
  }

  /** No seat is linked to the event twice. */
  lemma EventSeatsNoRepeat(eventId: int, seats: seq<Seat>, venueId: int)
    ensures var es := EventSeatsFor(eventId, seats, venueId);
      forall k, l | 0 <= k < l < |es| :: es[k].seatId != es[l].seatId
  {
    EventSeatsForIds(eventId, seats, venueId);
    SeatIdsOrderedComplete(seats, venueId);
  }

  /** Every seat of the venue is linked to the event. */
  lemma EventSeatsCover(eventId: int, seats: seq<Seat>, venueId: int)
    ensures var es := EventSeatsFor(eventId, seats, venueId);
      forall i | 0 <= i < |seats| && seats[i].venueId == venueId ::
        exists k | 0 <= k < |es| :: es[k].seatId == i + 1
  {
    var ids := SeatIdsOf(seats, venueId);
    var es := EventSeatsFor(eventId, seats, venueId);
    EventSeatsForIds(eventId, seats, venueId);
    SeatIdsOrderedComplete(seats, venueId);
    forall i | 0 <= i < |seats| && seats[i].venueId == venueId
      ensures exists k | 0 <= k < |es| :: es[k].seatId == i + 1
    {
      var k :| 0 <= k < |ids| && ids[k] == i + 1;
      assert es[k].seatId == i + 1;
    }
  }

  /** The number of event seats at price `p`. */
  function CountPrice(es: seq<EventSeat>, p: int): nat
  {
    if es == [] then 0 else CountPrice(es[..|es| - 1], p) + (if es[|es| - 1].price == p then 1 else 0)
  }

  lemma {:induction false} CountPriceThreshold(es: seq<EventSeat>, p: int, m: nat)
    requires forall k | 0 <= k < |es| :: es[k].price == p <==> k < m
    ensures CountPrice(es, p) == if m < |es| then m else |es|
  {
    if es != [] {
      var init := es[..|es| - 1];
      assert forall k | 0 <= k < |init| :: init[k] == es[k];
      CountPriceThreshold(init, p, m);
    }
  }

  lemma {:induction false} CountPriceSplit(es: seq<EventSeat>, p: int, q: int)
    requires p != q
    requires forall k | 0 <= k < |es| :: es[k].price == p || es[k].price == q
    ensures CountPrice(es, p) + CountPrice(es, q) == |es|
  {
    if es != [] {
      var init := es[..|es| - 1];
      assert forall k | 0 <= k < |init| :: init[k] == es[k];
      CountPriceSplit(init, p, q);
    }
  }

  /** The seat ids of a table whose venue seats are all in an appended block. */
  lemma {:induction false} SeatIdsOfAppend(seats: seq<Seat>, block: seq<Seat>, venueId: int)
    requires CountSeatsOf(seats, venueId) == 0
    requires forall k | 0 <= k < |block| :: block[k].venueId == venueId
    ensures var ids := SeatIdsOf(seats + block, venueId);
      |ids| == |block| && forall k | 0 <= k < |block| :: ids[k] == |seats| + k + 1
    decreases |block|
  {
    if block == [] {
      assert seats + block == seats;
      SeatIdsCount(seats, venueId);
    } else {
      var init := block[..|block| - 1];
      assert forall k | 0 <= k < |init| :: init[k] == block[k];
      SeatIdsOfAppend(seats, init, venueId);
      var all := seats + block;
      var n := |all| - 1;
      assert all[..n] == seats + init;
      assert all[n] == block[|block| - 1];
      SeatIdsOfLast(all, venueId);
      SerialStep(SeatIdsOf(all, venueId), SeatIdsOf(seats + init, venueId), |seats|, |block|);
    }
  }

  lemma SeatIdsOfLast(seats: seq<Seat>, venueId: int)
    requires seats != []
    ensures SeatIdsOf(seats, venueId)
            == SeatIdsOf(seats[..|seats| - 1], venueId) + (if seats[|seats| - 1].venueId == venueId then [|seats|] else [])
  {
  }

  /** Consecutive ids from `base + 1` followed by the next one are consecutive ids. */
  lemma SerialStep(ids: seq<int>, prev: seq<int>, base: int, m: nat)
    requires m > 0 && ids == prev + [base + m]
    requires |prev| == m - 1 && forall k | 0 <= k < |prev| :: prev[k] == base + k + 1
    ensures |ids| == m && forall k | 0 <= k < m :: ids[k] == base + k + 1
  {
    forall k | 0 <= k < m ensures ids[k] == base + k + 1 {
      if k < |prev| {
        assert ids[k] == prev[k];
      }
    }
  }

  /** For an event at a freshly seeded venue: 100 event seats, 40 at 500 (rows A
      and B) and 60 at 250. */
  lemma FreshVenuePrices(eventId: int, seats: seq<Seat>, venueId: int)
    requires CountSeatsOf(seats, venueId) == 0
    ensures var es := EventSeatsFor(eventId, seats + VenueLayout(venueId), venueId);
      |es| == 100 && CountPrice(es, 500) == 40 && CountPrice(es, 250) == 60
  {
    var layout := VenueLayout(venueId);
    var all := seats + layout;
    SeatIdsOfAppend(seats, layout, venueId);
    EventSeatsForIds(eventId, all, venueId);
    var es := EventSeatsFor(eventId, all, venueId);
    assert |es| == 100;
    forall k | 0 <= k < |es| ensures es[k].price == if k < 40 then 500 else 250 {
      assert all[|seats| + k] == layout[k];
      LayoutPrice(venueId, k);
    }
    CountPriceThreshold(es, 500, 40);
    CountPriceSplit(es, 500, 250);
  }

  /** The first two rows (positions 0 to 39) are the 500-rand rows. */
  lemma LayoutPrice(venueId: int, k: nat)
    requires k < |SeedRows| * SeatsPerRow
    ensures RowPrice(VenueLayout(venueId)[k].row) == if k < 40 then 500 else 250
  {
    var r := k / SeatsPerRow;
    assert VenueLayout(venueId)[k].row == SeedRows[r];
    assert r < 2 <==> k < 40;
    assert r == 0 || r == 1 || r == 2 || r == 3 || r == 4;
  }

  // ---------------------------------------------------------------------
  // The script as a function of the tables

  /** The five tables of the database. */
  datatype Tables = Tables(users: seq<User>, venues: seq<Venue>, seats: seq<Seat>,
                           events: seq<Event>, eventSeats: seq<EventSeat>)

  /** The two tables step 4 writes. */
  datatype EventTables = EventTables(events: seq<Event>, eventSeats: seq<EventSeat>)

  /** The primary key of the first row whose key column holds `k`; 0 when there is none. */
  function IdOf(keys: seq<string>, k: string): int
  {
    match FirstIndex(keys, k)
    case Some(i) => i + 1
    case None => 0
  }

  /** The users table after step 1: the admin is appended unless a user has its email. */
  function AdminAfter(users: seq<User>): seq<User>
  {
    if AdminEmail !in Emails(users) then users + [AdminUser] else users
  }

  /** The venues table after step 2: each entry of `data` in turn is appended,
      owned by `organizerId`, unless a venue already has its name. */
  function VenuesAfter(venues: seq<Venue>, data: seq<VenueData>, organizerId: int): seq<Venue>
  {
    if data == [] then venues
    else
      var before := VenuesAfter(venues, data[..|data| - 1], organizerId);
      var d := data[|data| - 1];
      if d.name !in Names(before) then
        before + [Venue(d.name, d.city, d.capacity, d.address, organizerId)]
      else before
  }

  /** `created_venues`: the id of the venue named by each entry of `data`. */
  function VenueIds(venues: seq<Venue>, data: seq<VenueData>): seq<int>
  {
    seq(|data|, k requires 0 <= k < |data| => IdOf(Names(venues), data[k].name))
  }

  /** The seats table after step 3: each venue of `venueIds` in turn gets the
      generated layout appended when it has no seat yet. */
  function SeatsAfter(seats: seq<Seat>, venueIds: seq<int>): seq<Seat>
  {
    if venueIds == [] then seats
    else
      var before := SeatsAfter(seats, venueIds[..|venueIds| - 1]);
      var v := venueIds[|venueIds| - 1];
      if CountSeatsOf(before, v) == 0 then before + VenueLayout(v) else before
  }

  /** The event tables after step 4: each entry of `data` in turn is appended,
      at venue `venueIds[venue]`, unless an event already has its title; the
      new event is linked to every seat of its venue. */
  function EventsAfter(t: EventTables, seats: seq<Seat>, data: seq<EventData>, venueIds: seq<int>,
                       organizerId: int): EventTables
    requires forall k | 0 <= k < |data| :: data[k].venue < |venueIds|
  {
    if data == [] then t
    else
      var before := EventsAfter(t, seats, data[..|data| - 1], venueIds, organizerId);
      var d := data[|data| - 1];
      var venueId := venueIds[d.venue];
      if d.title !in Titles(before.events) then
        EventTables(before.events + [Event(d.title, venueId, organizerId)],
                    before.eventSeats + EventSeatsFor(|before.events| + 1, seats, venueId))
      else before
  }

  /** `init_db` over the given data, as a function of the tables it starts from. */
  function Script(t: Tables, venuesData: seq<VenueData>, eventsData: seq<EventData>): Tables
    requires forall k | 0 <= k < |eventsData| :: eventsData[k].venue < |venuesData|
  {
    var users := AdminAfter(t.users);
    var adminId := IdOf(Emails(users), AdminEmail);
    var venues := VenuesAfter(t.venues, venuesData, adminId);
    var venueIds := VenueIds(venues, venuesData);
    var seats := SeatsAfter(t.seats, venueIds);
    var written := EventsAfter(EventTables(t.events, t.eventSeats), seats, eventsData, venueIds, adminId);
    Tables(users, venues, seats, written.events, written.eventSeats)
  }

  /** The admin user, every venue of `venuesData` with its seats and every
      event of `eventsData` are present. */
  ghost predicate SeededTables(t: Tables, venuesData: seq<VenueData>, eventsData: seq<EventData>)
  {
    && FirstIndex(Emails(t.users), AdminEmail).Some?
    && VenuesSeated(t.venues, t.seats, venuesData)
    && EventsPresent(t.events, eventsData)
  }

  // ---------------------------------------------------------------------
  // The database and the script

  class SeedDb {
    var users: seq<User>
    var venues: seq<Venue>
    var seats: seq<Seat>
    var events: seq<Event>
    var eventSeats: seq<EventSeat>

    /** A database holding the given tables. */
    constructor (users: seq<User>, venues: seq<Venue>, seats: seq<Seat>, events: seq<Event>, eventSeats: seq<EventSeat>)
      ensures this.users == users && this.venues == venues && this.seats == seats
      ensures this.events == events && this.eventSeats == eventSeats
    {
      this.users, this.venues, this.seats, this.events, this.eventSeats := users, venues, seats, events, eventSeats;
    }

    /** The tables as a value. */
    function Snapshot(): Tables
      reads this
    {
      Tables(users, venues, seats, events, eventSeats)
    }

    ghost predicate SeededWith(venuesData: seq<VenueData>, eventsData: seq<EventData>)
      reads this
    {
      SeededTables(Snapshot(), venuesData, eventsData)
    }

    /** Every record the script creates is present. */
    ghost predicate Seeded()
      reads this
    {
      SeededWith(VenuesData, EventsData)
    }

    /** Step 1: the superuser, created unless a user has its email. */
    method EnsureAdmin() returns (userId: int)
      modifies this`users
      ensures users == if FirstIndex(Emails(old(users)), AdminEmail).None? then old(users) + [AdminUser] else old(users)
      ensures FirstIndex(Emails(users), AdminEmail).Some?
      ensures userId == FirstIndex(Emails(users), AdminEmail).value + 1
      ensures Distinct(Emails(old(users))) ==> Distinct(Emails(users))
    {
      var found := FirstIndex(Emails(users), AdminEmail);
      if found.None? {
        users := users + [AdminUser];
        assert Emails(users) == Emails(old(users)) + [AdminEmail];
        userId := |users|;
      } else {
        userId := found.value + 1;
      }
    }

    /** Step 2, one venue: created unless a venue has its name; the result is
        the id of the venue with that name. */
    method EnsureVenue(data: VenueData, organizerId: int) returns (venueId: int)
      modifies this`venues
      ensures venues == if FirstIndex(Names(old(venues)), data.name).None?
                        then old(venues) + [Venue(data.name, data.city, data.capacity, data.address, organizerId)]
                        else old(venues)
      ensures FirstIndex(Names(venues), data.name).Some?
      ensures venueId == FirstIndex(Names(venues), data.name).value + 1
      ensures Distinct(Names(old(venues))) ==> Distinct(Names(venues))
    {
      var found := FirstIndex(Names(venues), data.name);
      if found.None? {
        venues := venues + [Venue(data.name, data.city, data.capacity, data.address, organizerId)];
        assert Names(venues) == Names(old(venues)) + [data.name];
        venueId := |venues|;
      } else {
        venueId := found.value + 1;
      }
    }

    /** Step 3, one venue: its seats, generated only if it has none yet. */
    method SeedSeats(venueId: int)
      modifies this`seats
      ensures seats == if CountSeatsOf(old(seats), venueId) == 0 then old(seats) + VenueLayout(venueId) else old(seats)
    {
      var existing := CountSeatsOf(seats, venueId);
      if existing == 0 {
        var generated := GenerateSeats(venueId);
        seats := seats + generated;
      }
    }

    /** Step 4, one event: created unless an event has its title; a new event
        is linked to every seat of its venue. */
    method EnsureEvent(data: EventData, venueId: int, organizerId: int)
      modifies this`events, this`eventSeats
      ensures FirstIndex(Titles(old(events)), data.title).Some? ==>
                events == old(events) && eventSeats == old(eventSeats)
      ensures FirstIndex(Titles(old(events)), data.title).None? ==>
                && events == old(events) + [Event(data.title, venueId, organizerId)]
                && eventSeats == old(eventSeats) + EventSeatsFor(|events|, seats, venueId)
      ensures FirstIndex(Titles(events), data.title).Some?
      ensures Distinct(Titles(old(events))) ==> Distinct(Titles(events))
    {
      var found := FirstIndex(Titles(events), data.title);
      if found.None? {
        events := events + [Event(data.title, venueId, organizerId)];
        assert Titles(events) == Titles(old(events)) + [data.title];
        var eventId := |events|;
        var linked := LinkEventSeats(eventId, seats, venueId);
        eventSeats := eventSeats + linked;
      }
    }

    /** Step 2: the loop over the venue data, collecting `created_venues`. */
    method EnsureVenues(data: seq<VenueData>, organizerId: int) returns (createdVenues: seq<int>)
      modifies this`venues
      ensures venues == VenuesAfter(old(venues), data, organizerId)
      ensures createdVenues == VenueIds(venues, data)
    {
      ghost var start := venues;
      createdVenues := [];
      for i := 0 to |data|
        invariant venues == VenuesAfter(start, data[..i], organizerId)
        invariant VenuesPresent(venues, data[..i], createdVenues)
      {
        ghost var before := venues;
        ghost var prev := createdVenues;
        var venueId := EnsureVenue(data[i], organizerId);
        createdVenues := createdVenues + [venueId];
        assert data[..i + 1][..i] == data[..i];
        assert Extends(before, venues);
        VenuesPresentStep(before, venues, data, i, prev, venueId);
      }
      assert data[..|data|] == data;
      assert forall k | 0 <= k < |data| :: createdVenues[k] == VenueIds(venues, data)[k];
    }

    /** Step 3: seats for each created venue that has none. */
    method SeedAllSeats(createdVenues: seq<int>)
      modifies this`seats
      ensures seats == SeatsAfter(old(seats), createdVenues)
    {
      ghost var start := seats;
      for i := 0 to |createdVenues|
        invariant seats == SeatsAfter(start, createdVenues[..i])
      {
        assert createdVenues[..i + 1][..i] == createdVenues[..i];
        SeedSeats(createdVenues[i]);
      }
      assert createdVenues[..|createdVenues|] == createdVenues;
    }

    /** Step 4: the loop over the event data. */
    method EnsureEvents(data: seq<EventData>, createdVenues: seq<int>, organizerId: int)
      requires forall k | 0 <= k < |data| :: data[k].venue < |createdVenues|
      modifies this`events, this`eventSeats
      ensures EventTables(events, eventSeats)
              == EventsAfter(EventTables(old(events), old(eventSeats)), seats, data, createdVenues, organizerId)
    {
      ghost var start := EventTables(events, eventSeats);
      for i := 0 to |data|
        invariant EventTables(events, eventSeats) == EventsAfter(start, seats, data[..i], createdVenues, organizerId)
      {
        ghost var before := EventTables(events, eventSeats);
        EnsureEvent(data[i], createdVenues[data[i].venue], organizerId);
        EventsAfterStep(start, before, EventTables(events, eventSeats), seats, data, i, createdVenues, organizerId);
      }
      assert data[..|data|] == data;
    }

    /** The body of `init_db` over its venue and event data: the new tables are
        `Script` of the old ones; afterwards every record is present, and on a
        database where that already held nothing changes. */
    method SeedWith(venuesData: seq<VenueData>, eventsData: seq<EventData>)
      requires forall k | 0 <= k < |eventsData| :: eventsData[k].venue < |venuesData|
      modifies this
      ensures Snapshot() == Script(old(Snapshot()), venuesData, eventsData)
      ensures SeededWith(venuesData, eventsData)
      ensures old(SeededWith(venuesData, eventsData)) ==> Snapshot() == old(Snapshot())
    {
      ghost var start := Snapshot();
      var userId := EnsureAdmin();
      var createdVenues := EnsureVenues(venuesData, userId);
      SeedAllSeats(createdVenues);
      EnsureEvents(eventsData, createdVenues, userId);
      ScriptSteps(start, Snapshot(), venuesData, eventsData, userId, createdVenues);
      ScriptSeeds(start, venuesData, eventsData);
      ScriptIdempotent(start, venuesData, eventsData);
    }

    /** `init_db`: the whole script with its own data. */
    method InitDb()
      modifies this
      ensures Snapshot() == Script(old(Snapshot()), VenuesData, EventsData)
      ensures Seeded()
      ensures old(Seeded()) ==> Snapshot() == old(Snapshot())
    {
      SeedWith(VenuesData, EventsData);
    }
  }

  // ---------------------------------------------------------------------
  // Table predicates

  /** `table` holds every row of `prefix`, in place, and possibly more after. */
  ghost predicate Extends<T>(prefix: seq<T>, table: seq<T>)
  {
    |prefix| <= |table| && table[..|prefix|] == prefix
  }

  lemma ExtendsTrans<T>(a: seq<T>, b: seq<T>, c: seq<T>)
    requires Extends(a, b) && Extends(b, c)
    ensures Extends(a, c)
  {
    assert c[..|a|] == c[..|b|][..|a|];
  }

  /** Every venue of `data` has a namesake in `venues`. */
  ghost predicate VenuesNamed(venues: seq<Venue>, data: seq<VenueData>)
  {
    forall k | 0 <= k < |data| :: FirstIndex(Names(venues), data[k].name).Some?
  }

  /** Every venue of `data` is present; `createdVenues[k]` is the id of the
      venue named in `data[k]`. */
  ghost predicate VenuesPresent(venues: seq<Venue>, data: seq<VenueData>, createdVenues: seq<int>)
  {
    && |createdVenues| == |data|
    && forall k | 0 <= k < |data| ::
         && FirstIndex(Names(venues), data[k].name).Some?
         && createdVenues[k] == FirstIndex(Names(venues), data[k].name).value + 1
  }

  /** Every venue of `data` is present and has seats. */
  ghost predicate VenuesSeated(venues: seq<Venue>, seats: seq<Seat>, data: seq<VenueData>)
  {
    forall k | 0 <= k < |data| ::
      && FirstIndex(Names(venues), data[k].name).Some?
      && CountSeatsOf(seats, FirstIndex(Names(venues), data[k].name).value + 1) > 0
  }

  /** Every event of `data` is present. */
  ghost predicate EventsPresent(events: seq<Event>, data: seq<EventData>)
  {
    forall k | 0 <= k < |data| :: FirstIndex(Titles(events), data[k].title).Some?
  }

  lemma VenuesPresentStep(before: seq<Venue>, venues: seq<Venue>, data: seq<VenueData>, i: nat,
                          prev: seq<int>, venueId: int)
    requires i < |data|
    requires VenuesPresent(before, data[..i], prev)
    requires Extends(before, venues)
    requires FirstIndex(Names(venues), data[i].name).Some?
    requires venueId == FirstIndex(Names(venues), data[i].name).value + 1
    ensures VenuesPresent(venues, data[..i + 1], prev + [venueId])
  {
    var tail := venues[|before|..];
    assert Names(venues) == Names(before) + Names(tail);
    forall k | 0 <= k < i
      ensures FirstIndex(Names(venues), data[k].name) == FirstIndex(Names(before), data[k].name)
    {
      assert data[..i][k] == data[k];
      FirstIndexAppend(Names(before), Names(tail), data[k].name);
    }
    var d := data[..i + 1];
    var cv := prev + [venueId];
    assert forall k | 0 <= k < i + 1 :: d[k] == data[k];
    assert forall k | 0 <= k < i :: cv[k] == prev[k] && data[..i][k] == data[k];
  }

  lemma EventsPresentStep(before: seq<Event>, events: seq<Event>, data: seq<EventData>, i: nat)
    requires i < |data|
    requires EventsPresent(before, data[..i])
    requires Extends(before, events)
    requires FirstIndex(Titles(events), data[i].title).Some?
    ensures EventsPresent(events, data[..i + 1])
  {
    var tail := events[|before|..];
    assert Titles(events) == Titles(before) + Titles(tail);
    forall k | 0 <= k < i ensures FirstIndex(Titles(events), data[k].title).Some? {
      assert data[..i][k] == data[k];
      FirstIndexAppend(Titles(before), Titles(tail), data[k].title);
    }
    var d := data[..i + 1];
    assert forall k | 0 <= k < i + 1 :: d[k] == data[k];
  }

  /** A venue's seat count in two tables put together is the sum of its counts. */
  lemma {:induction false} CountSeatsOfAppend(seats: seq<Seat>, more: seq<Seat>, venueId: int)
    ensures CountSeatsOf(seats + more, venueId) == CountSeatsOf(seats, venueId) + CountSeatsOf(more, venueId)
    decreases |more|
  {
    if more == [] {
      assert seats + more == seats;
    } else {
      var init := more[..|more| - 1];
      assert (seats + more)[..|seats + more| - 1] == seats + init;
      CountSeatsOfAppend(seats, init, venueId);
    }
  }

  /** In a table whose seats all belong to venue `w`, venue `v` has all of them or none. */
  lemma {:induction false} CountSeatsOfUniform(seats: seq<Seat>, w: int, v: int)
    requires forall i | 0 <= i < |seats| :: seats[i].venueId == w
    ensures CountSeatsOf(seats, v) == if w == v then |seats| else 0
  {
    if seats != [] {
      var init := seats[..|seats| - 1];
      assert forall i | 0 <= i < |init| :: init[i] == seats[i];
      CountSeatsOfUniform(init, w, v);
    }
  }

  /** A generated layout gives its own venue 100 seats and every other venue none. */
  lemma LayoutCount(w: int, v: int)
    ensures CountSeatsOf(VenueLayout(w), v) == if w == v then 100 else 0
  {
    VenueLayoutShape(w);
    CountSeatsOfUniform(VenueLayout(w), w, v);
  }

  // ---------------------------------------------------------------------
  // Properties of the script

  /** Step 1 only appends, leaves the admin present and keeps emails unique. */
  lemma AdminAfterPresent(users: seq<User>)
    ensures Extends(users, AdminAfter(users))
    ensures FirstIndex(Emails(AdminAfter(users)), AdminEmail).Some?
    ensures Distinct(Emails(users)) ==> Distinct(Emails(AdminAfter(users)))
  {
    if AdminEmail !in Emails(users) {
      assert Emails(AdminAfter(users)) == Emails(users) + [AdminEmail];
      assert (users + [AdminUser])[..|users|] == users;
    } else {
      assert users[..|users|] == users;
    }
  }

  /** Step 2 only appends venues. */
  lemma {:induction false} VenuesAfterExtends(venues: seq<Venue>, data: seq<VenueData>, organizerId: int)
    ensures Extends(venues, VenuesAfter(venues, data, organizerId))
  {
    if data == [] {
      assert venues[..|venues|] == venues;
    } else {
      var before := VenuesAfter(venues, data[..|data| - 1], organizerId);
      var after := VenuesAfter(venues, data, organizerId);
      VenuesAfterExtends(venues, data[..|data| - 1], organizerId);
      assert after[..|before|] == before;
      ExtendsTrans(venues, before, after);
    }
  }

  /** After step 2 every venue of the data has a namesake. */
  lemma {:induction false} VenuesAfterNamed(venues: seq<Venue>, data: seq<VenueData>, organizerId: int)
    ensures VenuesNamed(VenuesAfter(venues, data, organizerId), data)
  {
    if data != [] {
      var n := |data| - 1;
      var init := data[..n];
      var d := data[n];
      var before := VenuesAfter(venues, init, organizerId);
      var after := VenuesAfter(venues, data, organizerId);
      VenuesAfterNamed(venues, init, organizerId);
      var tail := if d.name !in Names(before)
                  then [Venue(d.name, d.city, d.capacity, d.address, organizerId)] else [];
      assert after == before + tail;
      assert Names(after) == Names(before) + Names(tail);
      forall k | 0 <= k < |data| ensures FirstIndex(Names(after), data[k].name).Some? {
        if k < n {
          assert init[k] == data[k];
          FirstIndexAppend(Names(before), Names(tail), data[k].name);
        } else if FirstIndex(Names(before), d.name).Some? {
          FirstIndexAppend(Names(before), Names(tail), d.name);
        } else {
          assert Names(after)[|before|] == d.name;
        }
      }
    }
  }

  /** When every venue of the data has a namesake, step 2 changes nothing. */
  lemma {:induction false} VenuesAfterNoop(venues: seq<Venue>, data: seq<VenueData>, organizerId: int)
    requires VenuesNamed(venues, data)
    ensures VenuesAfter(venues, data, organizerId) == venues
  {
    if data != [] {
      var init := data[..|data| - 1];
      assert forall k | 0 <= k < |init| :: init[k] == data[k];
      VenuesAfterNoop(venues, init, organizerId);
    }
  }

  /** Step 2 never creates a second venue with a name already taken. */
  lemma {:induction false} VenuesAfterUnique(venues: seq<Venue>, data: seq<VenueData>, organizerId: int)
    requires Distinct(Names(venues))
    ensures Distinct(Names(VenuesAfter(venues, data, organizerId)))
  {
    if data != [] {
      var d := data[|data| - 1];
      var before := VenuesAfter(venues, data[..|data| - 1], organizerId);
      VenuesAfterUnique(venues, data[..|data| - 1], organizerId);
      if d.name !in Names(before) {
        assert Names(before + [Venue(d.name, d.city, d.capacity, d.address, organizerId)]) == Names(before) + [d.name];
      }
    }
  }

  /** Step 3 only appends seats. */
  lemma {:induction false} SeatsAfterExtends(seats: seq<Seat>, venueIds: seq<int>)
    ensures Extends(seats, SeatsAfter(seats, venueIds))
  {
    if venueIds == [] {
      assert seats[..|seats|] == seats;
    } else {
      var before := SeatsAfter(seats, venueIds[..|venueIds| - 1]);
      var after := SeatsAfter(seats, venueIds);
      SeatsAfterExtends(seats, venueIds[..|venueIds| - 1]);
      assert after[..|before|] == before;
      ExtendsTrans(seats, before, after);
    }
  }

  /** After step 3 every created venue has seats. */
  lemma {:induction false} SeatsAfterSeated(seats: seq<Seat>, venueIds: seq<int>)
    ensures forall k | 0 <= k < |venueIds| :: CountSeatsOf(SeatsAfter(seats, venueIds), venueIds[k]) > 0
  {
    if venueIds != [] {
      var n := |venueIds| - 1;
      var init := venueIds[..n];
      var v := venueIds[n];
      var before := SeatsAfter(seats, init);
      SeatsAfterSeated(seats, init);
      if CountSeatsOf(before, v) == 0 {
        var layout := VenueLayout(v);
        LayoutCount(v, v);
        forall k | 0 <= k < |venueIds| ensures CountSeatsOf(before + layout, venueIds[k]) > 0 {
          CountSeatsOfAppend(before, layout, venueIds[k]);
          if k < n {
            assert init[k] == venueIds[k];
          }
        }
      } else {
        forall k | 0 <= k < n ensures CountSeatsOf(before, venueIds[k]) > 0 {
          assert init[k] == venueIds[k];
        }
      }
    }
  }

  /** When every created venue has seats, step 3 changes nothing. */
  lemma {:induction false} SeatsAfterNoop(seats: seq<Seat>, venueIds: seq<int>)
    requires forall k | 0 <= k < |venueIds| :: CountSeatsOf(seats, venueIds[k]) > 0
    ensures SeatsAfter(seats, venueIds) == seats
  {
    if venueIds != [] {
      var init := venueIds[..|venueIds| - 1];
      assert forall k | 0 <= k < |init| :: init[k] == venueIds[k];
      SeatsAfterNoop(seats, init);
    }
  }

  /** Step 4 only appends events and event seats. */
  lemma {:induction false} EventsAfterExtends(t: EventTables, seats: seq<Seat>, data: seq<EventData>,
                                              venueIds: seq<int>, organizerId: int)
    requires forall k | 0 <= k < |data| :: data[k].venue < |venueIds|
    ensures Extends(t.events, EventsAfter(t, seats, data, venueIds, organizerId).events)
    ensures Extends(t.eventSeats, EventsAfter(t, seats, data, venueIds, organizerId).eventSeats)
  {
    if data == [] {
      assert t.events[..|t.events|] == t.events;
      assert t.eventSeats[..|t.eventSeats|] == t.eventSeats;
    } else {
      var before := EventsAfter(t, seats, data[..|data| - 1], venueIds, organizerId);
      var after := EventsAfter(t, seats, data, venueIds, organizerId);
      EventsAfterExtends(t, seats, data[..|data| - 1], venueIds, organizerId);
      assert after.events[..|before.events|] == before.events;
      assert after.eventSeats[..|before.eventSeats|] == before.eventSeats;
      ExtendsTrans(t.events, before.events, after.events);
      ExtendsTrans(t.eventSeats, before.eventSeats, after.eventSeats);
    }
  }

  /** After step 4 every event of the data is present. */
  lemma {:induction false} EventsAfterPresent(t: EventTables, seats: seq<Seat>, data: seq<EventData>,
                                              venueIds: seq<int>, organizerId: int)
    requires forall k | 0 <= k < |data| :: data[k].venue < |venueIds|
    ensures EventsPresent(EventsAfter(t, seats, data, venueIds, organizerId).events, data)
  {
    if data != [] {
      var n := |data| - 1;
      var d := data[n];
      var before := EventsAfter(t, seats, data[..n], venueIds, organizerId);
      var after := EventsAfter(t, seats, data, venueIds, organizerId);
      EventsAfterPresent(t, seats, data[..n], venueIds, organizerId);
      if d.title !in Titles(before.events) {
        assert Titles(after.events) == Titles(before.events) + [d.title];
        assert after.events[..|before.events|] == before.events;
      } else {
        assert after.events[..|before.events|] == before.events;
      }
      EventsPresentStep(before.events, after.events, data, n);
      assert data[..n + 1] == data;
    }
  }

  /** When every event of the data is present, step 4 changes nothing. */
  lemma {:induction false} EventsAfterNoop(t: EventTables, seats: seq<Seat>, data: seq<EventData>,
                                           venueIds: seq<int>, organizerId: int)
    requires forall k | 0 <= k < |data| :: data[k].venue < |venueIds|
    requires EventsPresent(t.events, data)
    ensures EventsAfter(t, seats, data, venueIds, organizerId) == t
  {
    if data != [] {
      var init := data[..|data| - 1];
      assert forall k | 0 <= k < |init| :: init[k] == data[k];
      EventsAfterNoop(t, seats, init, venueIds, organizerId);
    }
  }

  /** Step 4 never creates a second event with a title already taken. */
  lemma {:induction false} EventsAfterUnique(t: EventTables, seats: seq<Seat>, data: seq<EventData>,
                                             venueIds: seq<int>, organizerId: int)
    requires forall k | 0 <= k < |data| :: data[k].venue < |venueIds|
    requires Distinct(Titles(t.events))
    ensures Distinct(Titles(EventsAfter(t, seats, data, venueIds, organizerId).events))
  {
    if data != [] {
      var d := data[|data| - 1];
      var before := EventsAfter(t, seats, data[..|data| - 1], venueIds, organizerId);
      EventsAfterUnique(t, seats, data[..|data| - 1], venueIds, organizerId);
      if d.title !in Titles(before.events) {
        assert Titles(before.events + [Event(d.title, venueIds[d.venue], organizerId)])
            == Titles(before.events) + [d.title];
      }
    }
  }

  /** One pass of the event loop, as `EnsureEvent` states it, extends the fold by one entry. */
  lemma EventsAfterStep(start: EventTables, before: EventTables, after: EventTables, seats: seq<Seat>,
                        data: seq<EventData>, i: nat, venueIds: seq<int>, organizerId: int)
    requires i < |data| && forall k | 0 <= k < |data| :: data[k].venue < |venueIds|
    requires before == EventsAfter(start, seats, data[..i], venueIds, organizerId)
    requires FirstIndex(Titles(before.events), data[i].title).Some? ==> after == before
    requires FirstIndex(Titles(before.events), data[i].title).None? ==>
               && after.events == before.events + [Event(data[i].title, venueIds[data[i].venue], organizerId)]
               && after.eventSeats == before.eventSeats + EventSeatsFor(|after.events|, seats, venueIds[data[i].venue])
    ensures after == EventsAfter(start, seats, data[..i + 1], venueIds, organizerId)
  {
    assert data[..i + 1][..i] == data[..i];
    assert data[..i + 1][i] == data[i];
    if FirstIndex(Titles(before.events), data[i].title).None? {
      SameEventSeats(|after.events|, |before.events| + 1, seats, venueIds[data[i].venue]);
    }
  }

  /** The four steps, run one after the other from `start`, reach `Script(start, ...)`. */
  lemma ScriptSteps(start: Tables, t: Tables, venuesData: seq<VenueData>, eventsData: seq<EventData>,
                    userId: int, createdVenues: seq<int>)
    requires forall k | 0 <= k < |eventsData| :: eventsData[k].venue < |venuesData|
    requires t.users == if FirstIndex(Emails(start.users), AdminEmail).None? then start.users + [AdminUser] else start.users
    requires FirstIndex(Emails(t.users), AdminEmail).Some?
    requires userId == FirstIndex(Emails(t.users), AdminEmail).value + 1
    requires t.venues == VenuesAfter(start.venues, venuesData, userId)
    requires createdVenues == VenueIds(t.venues, venuesData)
    requires t.seats == SeatsAfter(start.seats, createdVenues)
    requires EventTables(t.events, t.eventSeats)
             == EventsAfter(EventTables(start.events, start.eventSeats), t.seats, eventsData, createdVenues, userId)
    ensures t == Script(start, venuesData, eventsData)
  {
    var users := AdminAfter(start.users);
    assert t.users == users;
    assert userId == IdOf(Emails(users), AdminEmail);
    var written := EventsAfter(EventTables(start.events, start.eventSeats), t.seats, eventsData, createdVenues, userId);
    assert Script(start, venuesData, eventsData) == Tables(t.users, t.venues, t.seats, written.events, written.eventSeats);
  }

  /** After the script the admin, every venue with its seats and every event are present. */
  lemma ScriptSeeds(t: Tables, venuesData: seq<VenueData>, eventsData: seq<EventData>)
    requires forall k | 0 <= k < |eventsData| :: eventsData[k].venue < |venuesData|
    ensures SeededTables(Script(t, venuesData, eventsData), venuesData, eventsData)
  {
    var r := Script(t, venuesData, eventsData);
    var adminId := IdOf(Emails(r.users), AdminEmail);
    var venueIds := VenueIds(r.venues, venuesData);
    AdminAfterPresent(t.users);
    VenuesAfterNamed(t.venues, venuesData, adminId);
    SeatsAfterSeated(t.seats, venueIds);
    EventsAfterPresent(EventTables(t.events, t.eventSeats), r.seats, eventsData, venueIds, adminId);
    forall k | 0 <= k < |venuesData|
      ensures CountSeatsOf(r.seats, FirstIndex(Names(r.venues), venuesData[k].name).value + 1) > 0
    {
      assert venueIds[k] == FirstIndex(Names(r.venues), venuesData[k].name).value + 1;
    }
  }

  /** On a seeded database the script changes no table. */
  lemma ScriptIdempotent(t: Tables, venuesData: seq<VenueData>, eventsData: seq<EventData>)
    requires forall k | 0 <= k < |eventsData| :: eventsData[k].venue < |venuesData|
    ensures SeededTables(t, venuesData, eventsData) ==> Script(t, venuesData, eventsData) == t
  {
    if SeededTables(t, venuesData, eventsData) {
      var adminId := IdOf(Emails(t.users), AdminEmail);
      VenuesAfterNoop(t.venues, venuesData, adminId);
      var venueIds := VenueIds(t.venues, venuesData);
      SeatsAfterNoop(t.seats, venueIds);
      EventsAfterNoop(EventTables(t.events, t.eventSeats), t.seats, eventsData, venueIds, adminId);
    }
  }

  /** The script only appends rows, so every existing id keeps its row. */
  lemma ScriptAppendOnly(t: Tables, venuesData: seq<VenueData>, eventsData: seq<EventData>)
    requires forall k | 0 <= k < |eventsData| :: eventsData[k].venue < |venuesData|
    ensures var r := Script(t, venuesData, eventsData);
      && Extends(t.users, r.users) && Extends(t.venues, r.venues) && Extends(t.seats, r.seats)
      && Extends(t.events, r.events) && Extends(t.eventSeats, r.eventSeats)
  {
    var r := Script(t, venuesData, eventsData);
    var adminId := IdOf(Emails(r.users), AdminEmail);
    AdminAfterPresent(t.users);
    VenuesAfterExtends(t.venues, venuesData, adminId);
    SeatsAfterExtends(t.seats, VenueIds(r.venues, venuesData));
    EventsAfterExtends(EventTables(t.events, t.eventSeats), r.seats, eventsData, VenueIds(r.venues, venuesData), adminId);
  }

  /** The script creates no second user, venue or event with a taken email, name or title. */
  lemma ScriptKeepsKeysUnique(t: Tables, venuesData: seq<VenueData>, eventsData: seq<EventData>)
    requires forall k | 0 <= k < |eventsData| :: eventsData[k].venue < |venuesData|
    requires Distinct(Emails(t.users)) && Distinct(Names(t.venues)) && Distinct(Titles(t.events))
    ensures var r := Script(t, venuesData, eventsData);
      Distinct(Emails(r.users)) && Distinct(Names(r.venues)) && Distinct(Titles(r.events))
  {
    var r := Script(t, venuesData, eventsData);
    var adminId := IdOf(Emails(r.users), AdminEmail);
    AdminAfterPresent(t.users);
    VenuesAfterUnique(t.venues, venuesData, adminId);
    EventsAfterUnique(EventTables(t.events, t.eventSeats), r.seats, eventsData, VenueIds(r.venues, venuesData), adminId);
  }

  // ---------------------------------------------------------------------
  // The script on an empty database

  function VenueNames(data: seq<VenueData>): seq<string>
  {
    seq(|data|, k requires 0 <= k < |data| => data[k].name)
  }

  function EventTitles(data: seq<EventData>): seq<string>
  {
    seq(|data|, k requires 0 <= k < |data| => data[k].title)
  }

  /** The ids 1 to `n` that an empty table hands out to `n` new rows. */
  function SerialIds(n: nat): seq<int>
  {
    seq(n, k requires 0 <= k < n => k + 1)
  }

  /** The venues of `data` as the script creates them, in order. */
  function NewVenues(data: seq<VenueData>, organizerId: int): seq<Venue>
  {
    seq(|data|, k requires 0 <= k < |data| =>
      Venue(data[k].name, data[k].city, data[k].capacity, data[k].address, organizerId))
  }

  /** The events of `data` as the script creates them, in order. */
  function NewEvents(data: seq<EventData>, venueIds: seq<int>, organizerId: int): seq<Event>
    requires forall k | 0 <= k < |data| :: data[k].venue < |venueIds|
  {
    seq(|data|, k requires 0 <= k < |data| => Event(data[k].title, venueIds[data[k].venue], organizerId))
  }

  /** The generated layouts of `venueIds`, one after the other. */
  function Layouts(venueIds: seq<int>): seq<Seat>
  {
    if venueIds == [] then [] else Layouts(venueIds[..|venueIds| - 1]) + VenueLayout(venueIds[|venueIds| - 1])
  }

  /** The event seats of the events of `data`, with ids from `base + 1`, one after the other. */
  function Linked(base: nat, seats: seq<Seat>, data: seq<EventData>, venueIds: seq<int>): seq<EventSeat>
    requires forall k | 0 <= k < |data| :: data[k].venue < |venueIds|
  {
    if data == [] then []
    else Linked(base, seats, data[..|data| - 1], venueIds)
         + EventSeatsFor(base + |data|, seats, venueIds[data[|data| - 1].venue])
  }

  /** In a table without repeated keys, each key is found at its own position. */
  lemma FirstIndexUnique(keys: seq<string>, i: nat)
    requires Distinct(keys) && i < |keys|
    ensures FirstIndex(keys, keys[i]) == Some(i)
  {
    assert keys[i] in keys;
  }

  /** Venues with distinct names, none of them taken, are all appended in order. */
  lemma {:induction false} VenuesAfterFresh(venues: seq<Venue>, data: seq<VenueData>, organizerId: int)
    requires Distinct(VenueNames(data))
    requires forall k | 0 <= k < |data| :: data[k].name !in Names(venues)
    ensures VenuesAfter(venues, data, organizerId) == venues + NewVenues(data, organizerId)
  {
    if data == [] {
      assert NewVenues(data, organizerId) == [];
      assert venues + [] == venues;
    } else {
      var n := |data| - 1;
      var init, d := data[..n], data[n];
      LastNameFresh(venues, data, organizerId);
      VenuesAfterFresh(venues, init, organizerId);
      var news := NewVenues(init, organizerId);
      var v := Venue(d.name, d.city, d.capacity, d.address, organizerId);
      VenuesAfterLast(venues, data, organizerId);
      NewVenuesLast(data, organizerId);
      AppendAssoc(venues, news, [v]);
    }
  }

  /** The last of venue entries with distinct, untaken names is taken neither by
      the table nor by the venues created before it; the entries before it keep
      the preconditions of `VenuesAfterFresh`. */
  lemma LastNameFresh(venues: seq<Venue>, data: seq<VenueData>, organizerId: int)
    requires data != [] && Distinct(VenueNames(data))
    requires forall k | 0 <= k < |data| :: data[k].name !in Names(venues)
    ensures var init := data[..|data| - 1];
      && Distinct(VenueNames(init))
      && (forall k | 0 <= k < |init| :: init[k].name !in Names(venues))
      && data[|data| - 1].name !in Names(venues + NewVenues(init, organizerId))
  {
    var n := |data| - 1;
    var init := data[..n];
    assert forall k | 0 <= k < n :: init[k] == data[k];
    var names := VenueNames(data);
    assert VenueNames(init) == names[..n];
    var news := NewVenues(init, organizerId);
    assert Names(news) == VenueNames(init);
    NamesAppend(venues, news);
    FreshKeyLast(Names(venues), names);
  }

  /** The last step of step 2, for a venue whose name is not taken. */
  lemma VenuesAfterLast(venues: seq<Venue>, data: seq<VenueData>, organizerId: int)
    requires data != []
    ensures var before := VenuesAfter(venues, data[..|data| - 1], organizerId);
      var d := data[|data| - 1];
      d.name !in Names(before) ==>
        VenuesAfter(venues, data, organizerId) == before + [Venue(d.name, d.city, d.capacity, d.address, organizerId)]
  {
  }

  lemma NewVenuesLast(data: seq<VenueData>, organizerId: int)
    requires data != []
    ensures var d := data[|data| - 1];
      NewVenues(data, organizerId)
      == NewVenues(data[..|data| - 1], organizerId) + [Venue(d.name, d.city, d.capacity, d.address, organizerId)]
  {
  }

  lemma NamesAppend(a: seq<Venue>, b: seq<Venue>)
    ensures Names(a + b) == Names(a) + Names(b)
  {
  }

  /** Created into an empty table, the venues of `data` get ids 1, 2, ... in order. */
  lemma FreshVenueIds(data: seq<VenueData>, organizerId: int)
    requires Distinct(VenueNames(data))
    ensures VenueIds(NewVenues(data, organizerId), data) == SerialIds(|data|)
  {
    assert Names(NewVenues(data, organizerId)) == VenueNames(data);
    forall k | 0 <= k < |data| ensures IdOf(VenueNames(data), data[k].name) == k + 1 {
      FirstIndexUnique(VenueNames(data), k);
    }
  }

  lemma {:induction false} LayoutsAbsent(venueIds: seq<int>, v: int)
    requires v !in venueIds
    ensures CountSeatsOf(Layouts(venueIds), v) == 0
  {
    if venueIds != [] {
      var n := |venueIds| - 1;
      var init := venueIds[..n];
      assert forall k | 0 <= k < n :: init[k] == venueIds[k];
      LayoutsAbsent(init, v);
      CountSeatsOfAppend(Layouts(init), VenueLayout(venueIds[n]), v);
      LayoutCount(venueIds[n], v);
    }
  }

  /** Each of distinct venues has exactly its 100 seats in the layouts of all. */
  lemma {:induction false} LayoutsCount(venueIds: seq<int>, k: nat)
    requires Distinct(venueIds) && k < |venueIds|
    ensures CountSeatsOf(Layouts(venueIds), venueIds[k]) == 100
  {
    var n := |venueIds| - 1;
    var init := venueIds[..n];
    DistinctPrefix(venueIds);
    LayoutsLast(venueIds);
    CountSeatsOfAppend(Layouts(init), VenueLayout(venueIds[n]), venueIds[k]);
    LayoutCount(venueIds[n], venueIds[k]);
    if k < n {
      assert init[k] == venueIds[k];
      LayoutsCount(init, k);
    } else {
      LayoutsAbsent(init, venueIds[n]);
    }
  }

  lemma LayoutsLast(venueIds: seq<int>)
    requires venueIds != []
    ensures Layouts(venueIds) == Layouts(venueIds[..|venueIds| - 1]) + VenueLayout(venueIds[|venueIds| - 1])
  {
  }

  /** Dropping the last of distinct ids leaves distinct ids without the last one. */
  lemma DistinctPrefix(venueIds: seq<int>)
    requires venueIds != [] && Distinct(venueIds)
    ensures Distinct(venueIds[..|venueIds| - 1])
    ensures venueIds[|venueIds| - 1] !in venueIds[..|venueIds| - 1]
  {
    var n := |venueIds| - 1;
    var init := venueIds[..n];
    assert forall j | 0 <= j < n :: init[j] == venueIds[j];
  }

  lemma LayoutsCountAll(venueIds: seq<int>)
    requires Distinct(venueIds)
    ensures forall k | 0 <= k < |venueIds| :: CountSeatsOf(Layouts(venueIds), venueIds[k]) == 100
  {
    forall k | 0 <= k < |venueIds| ensures CountSeatsOf(Layouts(venueIds), venueIds[k]) == 100 {
      LayoutsCount(venueIds, k);
    }
  }

  lemma {:induction false} LayoutsLength(venueIds: seq<int>)
    ensures |Layouts(venueIds)| == 100 * |venueIds|
  {
    if venueIds != [] {
      LayoutsLength(venueIds[..|venueIds| - 1]);
    }
  }

  /** Distinct venues without seats each get their layout, in order. */
  lemma {:induction false} SeatsAfterFresh(seats: seq<Seat>, venueIds: seq<int>)
    requires Distinct(venueIds)
    requires forall k | 0 <= k < |venueIds| :: CountSeatsOf(seats, venueIds[k]) == 0
    ensures SeatsAfter(seats, venueIds) == seats + Layouts(venueIds)
  {
    if venueIds == [] {
      assert seats + [] == seats;
    } else {
      var n := |venueIds| - 1;
      var init, v := venueIds[..n], venueIds[n];
      FreshPrefix(seats, venueIds);
      SeatsAfterFresh(seats, init);
      LayoutsAbsent(init, v);
      CountSeatsOfAppend(seats, Layouts(init), v);
      SeatsAfterFreshStep(seats, venueIds);
    }
  }

  /** Dropping the last of distinct venues without seats leaves distinct venues
      without seats, none of them the last one. */
  lemma FreshPrefix(seats: seq<Seat>, venueIds: seq<int>)
    requires venueIds != [] && Distinct(venueIds)
    requires forall k | 0 <= k < |venueIds| :: CountSeatsOf(seats, venueIds[k]) == 0
    ensures var init := venueIds[..|venueIds| - 1];
      && Distinct(init)
      && (forall k | 0 <= k < |init| :: CountSeatsOf(seats, init[k]) == 0)
      && venueIds[|venueIds| - 1] !in init
  {
    var n := |venueIds| - 1;
    var init := venueIds[..n];
    assert forall k | 0 <= k < n :: init[k] == venueIds[k];
  }

  /** One step of the above: the last venue, without seats, gets its layout. */
  lemma SeatsAfterFreshStep(seats: seq<Seat>, venueIds: seq<int>)
    requires venueIds != []
    requires SeatsAfter(seats, venueIds[..|venueIds| - 1]) == seats + Layouts(venueIds[..|venueIds| - 1])
    requires CountSeatsOf(seats + Layouts(venueIds[..|venueIds| - 1]), venueIds[|venueIds| - 1]) == 0
    ensures SeatsAfter(seats, venueIds) == seats + Layouts(venueIds)
  {
    var init := venueIds[..|venueIds| - 1];
    AppendAssoc(seats, Layouts(init), VenueLayout(venueIds[|venueIds| - 1]));
  }

  /** The last of distinct keys, when it is not taken, is not among the taken keys
      and the keys before it. */
  lemma FreshKeyLast(taken: seq<string>, keys: seq<string>)
    requires |keys| > 0 && Distinct(keys)
    requires keys[|keys| - 1] !in taken
    ensures keys[|keys| - 1] !in taken + keys[..|keys| - 1]
  {
    var n := |keys| - 1;
    forall j | 0 <= j < |taken| + n ensures (taken + keys[..n])[j] != keys[n] {
      if j >= |taken| {
        assert (taken + keys[..n])[j] == keys[j - |taken|];
      }
    }
  }

  lemma TitlesAppend(a: seq<Event>, b: seq<Event>)
    ensures Titles(a + b) == Titles(a) + Titles(b)
  {
  }

  /** The last step of step 4, for an event whose title is not taken. */
  lemma EventsAfterLast(t: EventTables, seats: seq<Seat>, data: seq<EventData>, venueIds: seq<int>,
                        organizerId: int, before: EventTables)
    requires data != [] && forall k | 0 <= k < |data| :: data[k].venue < |venueIds|
    requires before == EventsAfter(t, seats, data[..|data| - 1], venueIds, organizerId)
    requires data[|data| - 1].title !in Titles(before.events)
    ensures EventsAfter(t, seats, data, venueIds, organizerId).events
            == before.events + [Event(data[|data| - 1].title, venueIds[data[|data| - 1].venue], organizerId)]
    ensures EventsAfter(t, seats, data, venueIds, organizerId).eventSeats
            == before.eventSeats + EventSeatsFor(|before.events| + 1, seats, venueIds[data[|data| - 1].venue])
  {
  }

  lemma NewEventsLast(data: seq<EventData>, venueIds: seq<int>, organizerId: int)
    requires data != [] && forall k | 0 <= k < |data| :: data[k].venue < |venueIds|
    ensures NewEvents(data, venueIds, organizerId)
            == NewEvents(data[..|data| - 1], venueIds, organizerId)
               + [Event(data[|data| - 1].title, venueIds[data[|data| - 1].venue], organizerId)]
  {
  }

  lemma SameEventSeats(a: int, b: int, seats: seq<Seat>, venueId: int)
    requires a == b
    ensures EventSeatsFor(a, seats, venueId) == EventSeatsFor(b, seats, venueId)
  {
  }

  lemma AppendAssoc<T>(a: seq<T>, b: seq<T>, c: seq<T>)
    ensures a + b + c == a + (b + c)
  {
  }

  /** A table that grew by `added` from `before == base + prior` equals `base + full`
      when `full == prior + added`. */
  lemma AppendChain<T>(after: seq<T>, before: seq<T>, own: seq<T>, added: seq<T>,
                       base: seq<T>, prior: seq<T>, full: seq<T>)
    requires after == before + own && own == added
    requires before == base + prior && full == prior + added
    ensures after == base + full
  {
    AppendAssoc(base, prior, added);
  }

  lemma LinkedLast(base: nat, seats: seq<Seat>, data: seq<EventData>, venueIds: seq<int>)
    requires data != [] && forall k | 0 <= k < |data| :: data[k].venue < |venueIds|
    ensures Linked(base, seats, data, venueIds)
            == Linked(base, seats, data[..|data| - 1], venueIds)
               + EventSeatsFor(base + |data|, seats, venueIds[data[|data| - 1].venue])
  {
  }

  /** Events with distinct titles, none of them taken, are all appended in order,
      each linked to the seats of its venue. */
  lemma {:induction false} EventsAfterFresh(t: EventTables, seats: seq<Seat>, data: seq<EventData>,
                                            venueIds: seq<int>, organizerId: int)
    requires forall k | 0 <= k < |data| :: data[k].venue < |venueIds|
    requires Distinct(EventTitles(data))
    requires forall k | 0 <= k < |data| :: data[k].title !in Titles(t.events)
    ensures EventsAfter(t, seats, data, venueIds, organizerId)
            == EventTables(t.events + NewEvents(data, venueIds, organizerId),
                           t.eventSeats + Linked(|t.events|, seats, data, venueIds))
  {
    if data == [] {
      assert NewEvents(data, venueIds, organizerId) == [];
      assert t.events + [] == t.events && t.eventSeats + [] == t.eventSeats;
    } else {
      var n := |data| - 1;
      var init := data[..n];
      assert forall k | 0 <= k < n :: init[k] == data[k];
      var titles := EventTitles(data);
      assert EventTitles(init) == titles[..n];
      EventsAfterFresh(t, seats, init, venueIds, organizerId);
      var news := NewEvents(init, venueIds, organizerId);
      var d := data[n];
      var before := EventsAfter(t, seats, init, venueIds, organizerId);
      assert before.events == t.events + news;
      LastTitleFresh(t.events, news, data, venueIds, organizerId);
      var e := Event(d.title, venueIds[d.venue], organizerId);
      EventsAfterLast(t, seats, data, venueIds, organizerId, before);
      NewEventsLast(data, venueIds, organizerId);
      var after := EventsAfter(t, seats, data, venueIds, organizerId);
      AppendChain(after.events, before.events, [e], [e], t.events, news, NewEvents(data, venueIds, organizerId));
      LinkedStep(after.eventSeats, before.eventSeats, |before.events|, t.eventSeats, |t.events|, seats, data, venueIds);
    }
  }

  /** The last title of a list with unique titles is met neither among the earlier new events nor in the table. */
  lemma LastTitleFresh(events: seq<Event>, news: seq<Event>, data: seq<EventData>, venueIds: seq<int>, organizerId: int)
    requires data != [] && forall k | 0 <= k < |data| :: data[k].venue < |venueIds|
    requires Distinct(EventTitles(data))
    requires forall k | 0 <= k < |data| :: data[k].title !in Titles(events)
    requires news == NewEvents(data[..|data| - 1], venueIds, organizerId)
    ensures data[|data| - 1].title !in Titles(events + news)
  {
    var n := |data| - 1;
    var init := data[..n];
    var titles := EventTitles(data);
    assert forall k | 0 <= k < n :: init[k] == data[k];
    assert EventTitles(init) == titles[..n];
    assert Titles(news) == EventTitles(init);
    TitlesAppend(events, news);
    FreshKeyLast(Titles(events), titles);
    assert titles[n] == data[n].title && titles[..n] == Titles(news);
  }

  /** The event seats of one more new event extend the concatenation by one block. */
  lemma LinkedStep(after: seq<EventSeat>, before: seq<EventSeat>, count: nat, table: seq<EventSeat>, base: nat,
                   seats: seq<Seat>, data: seq<EventData>, venueIds: seq<int>)
    requires data != [] && forall k | 0 <= k < |data| :: data[k].venue < |venueIds|
    requires count + 1 == base + |data|
    requires after == before + EventSeatsFor(count + 1, seats, venueIds[data[|data| - 1].venue])
    requires before == table + Linked(base, seats, data[..|data| - 1], venueIds)
    ensures after == table + Linked(base, seats, data, venueIds)
  {
    var venueId := venueIds[data[|data| - 1].venue];
    var linked := EventSeatsFor(base + |data|, seats, venueId);
    SameEventSeats(count + 1, base + |data|, seats, venueId);
    LinkedLast(base, seats, data, venueIds);
    AppendChain(after, before, EventSeatsFor(count + 1, seats, venueId), linked,
                table, Linked(base, seats, data[..|data| - 1], venueIds), Linked(base, seats, data, venueIds));
  }

  /** When every venue has 100 seats, each event brings 100 event seats. */
  lemma {:induction false} LinkedLength(base: nat, seats: seq<Seat>, data: seq<EventData>, venueIds: seq<int>)
    requires forall k | 0 <= k < |data| :: data[k].venue < |venueIds|
    requires forall v | 0 <= v < |venueIds| :: CountSeatsOf(seats, venueIds[v]) == 100
    ensures |Linked(base, seats, data, venueIds)| == 100 * |data|
  {
    if data != [] {
      var n := |data| - 1;
      var init := data[..n];
      assert forall k | 0 <= k < n :: init[k] == data[k];
      LinkedLength(base, seats, init, venueIds);
      LinkedLast(base, seats, data, venueIds);
      EventSeatsForCount(base + |data|, seats, venueIds[data[n].venue]);
    }
  }

  /** The script's own venue names and event titles are distinct. */
  lemma SeedDataUnique()
    ensures Distinct(VenueNames(VenuesData))
    ensures Distinct(EventTitles(EventsData))
  {
    var names := VenueNames(VenuesData);
    assert names[0][0] == 'F' && names[1][0] == 'M' && names[2][0] == 'C' && names[3][0] == 'S';
    var titles := EventTitles(EventsData);
    assert titles[0][0] == 'S' && titles[1][0] == 'B' && titles[2][0] == 'C' && titles[3][0] == 'T';
  }

  /** On an empty database the script creates the admin (id 1), every venue of
      distinct names in order (ids 1, 2, ..., owned by the admin), each venue's
      100 seats, every event of distinct titles in order, and the event seats:
      each event is linked to the seats of its venue. */
  lemma ScriptFresh(venuesData: seq<VenueData>, eventsData: seq<EventData>)
    requires forall k | 0 <= k < |eventsData| :: eventsData[k].venue < |venuesData|
    requires Distinct(VenueNames(venuesData)) && Distinct(EventTitles(eventsData))
    ensures var r := Script(Tables([], [], [], [], []), venuesData, eventsData);
      var ids := SerialIds(|venuesData|);
      && r.users == [AdminUser]
      && r.venues == NewVenues(venuesData, 1)
      && r.seats == Layouts(ids) && |r.seats| == 100 * |venuesData|
      && r.events == NewEvents(eventsData, ids, 1)
      && r.eventSeats == Linked(0, r.seats, eventsData, ids) && |r.eventSeats| == 100 * |eventsData|
  {
    assert Emails(AdminAfter([])) == [AdminEmail];
    assert IdOf(Emails(AdminAfter([])), AdminEmail) == 1;
    var venues := NewVenues(venuesData, 1);
    VenuesAfterFresh([], venuesData, 1);
    assert VenuesAfter([], venuesData, 1) == venues;
    FreshVenueIds(venuesData, 1);
    var ids := SerialIds(|venuesData|);
    SeatsAfterFresh([], ids);
    var seats := Layouts(ids);
    assert SeatsAfter([], ids) == seats;
    LayoutsLength(ids);
    EventsAfterFresh(EventTables([], []), seats, eventsData, ids, 1);
    assert EventsAfter(EventTables([], []), seats, eventsData, ids, 1)
        == EventTables(NewEvents(eventsData, ids, 1), Linked(0, seats, eventsData, ids));
    LayoutsCountAll(ids);
    LinkedLength(0, seats, eventsData, ids);
  }

  /** `init_db` on an empty database: one admin, four venues with ids 1 to 4,
      their 400 seats, four events and 400 event seats. */
  lemma FreshInitDb()
    ensures var r := Script(Tables([], [], [], [], []), VenuesData, EventsData);
      var ids := VenueIds(r.venues, VenuesData);
      && r.users == [AdminUser]
      && r.venues == NewVenues(VenuesData, 1)
      && ids == [1, 2, 3, 4]
      && r.seats == Layouts(ids) && |r.seats| == 400
      && r.events == NewEvents(EventsData, ids, 1)
      && r.eventSeats == Linked(0, r.seats, EventsData, ids) && |r.eventSeats| == 400
  {
    SeedDataUnique();
    ScriptFresh(VenuesData, EventsData);
    FreshVenueIds(VenuesData, 1);
    assert |VenuesData| == 4;
    FirstFourIds();
  }

  lemma FirstFourIds()
    ensures SerialIds(4) == [1, 2, 3, 4]
  {
  }
}
