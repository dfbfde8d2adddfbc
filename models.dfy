/**
 * The airport entities, the derived `capacity` and `full_name` properties,
 * the seat-range check `Ticket.validate_ticket`, and the consistency rules of
 * the ticket table (the `(row, seat, flight)` uniqueness constraint among
 * them).
 */
module Models {
  import opened Wrappers
  import opened Seqs
  import Text

  type UserId = int

  /** The authenticated caller: its id and whether it is staff. */
  datatype User = User(id: UserId, isStaff: bool)

  datatype Country = Country(id: int, name: string)

  datatype Airport = Airport(id: int, name: string, closestBigCity: string, country: Country)

  datatype Route = Route(id: int, source: Airport, destination: Airport, distance: int)

  datatype AirplaneType = AirplaneType(id: int, name: string)

  /** `rows` and `seatsInRow` are plain integers: nothing forces them positive. */
  datatype Airplane = Airplane(id: int, name: string, rows: int, seatsInRow: int, airplaneType: AirplaneType)

  datatype Crew = Crew(id: int, firstName: string, lastName: string)

  /** Times are integer timestamps; `crew` holds crew ids. */
  datatype Flight = Flight(id: int, route: Route, airplane: Airplane, crew: set<int>,
                           departureTime: int, arrivalTime: int)

  datatype Order = Order(id: int, createdAt: int, user: UserId)

  /** `flight` and `order` are the ids the foreign keys hold. */
  datatype Ticket = Ticket(id: int, row: int, seat: int, flight: int, order: int)

  // ---------------------------------------------------------------------
  // Derived properties

  /** `Airplane.capacity`: recomputed from the two dimensions on every read. */
  function Capacity(a: Airplane): (c: int)
    ensures a.rows >= 0 && a.seatsInRow >= 0 ==> c >= 0
    ensures c == 0 <==> a.rows == 0 || a.seatsInRow == 0
    ensures a.rows < 0 && a.seatsInRow < 0 ==> c > 0
    ensures (a.rows < 0) != (a.seatsInRow < 0) && a.rows != 0 && a.seatsInRow != 0 ==> c < 0
  {
    a.rows * a.seatsInRow
  }

  /** `Crew.full_name`. */
  function FullName(c: Crew): (r: string)
    ensures |r| == |c.firstName| + 1 + |c.lastName|
    ensures r[..|c.firstName|] == c.firstName && r[|c.firstName|] == ' '
    ensures r[|c.firstName| + 1..] == c.lastName
  {
    c.firstName + " " + c.lastName
  }

  /** Splits a full name at its first space. */
  function SplitName(s: string): (string, string)
  {
    if s == [] then ("", "")
    else if s[0] == ' ' then ("", s[1..])
    else
      var (first, last) := SplitName(s[1..]);
      ([s[0]] + first, last)
  }

  predicate HasNoSpace(s: string)
  {
    forall i :: 0 <= i < |s| ==> s[i] != ' '
  }

  /** A first name without a space and any last name are both recovered from `full_name`. */
  lemma {:induction false} FullNameSplits(c: Crew)
    requires HasNoSpace(c.firstName)
    ensures SplitName(FullName(c)) == (c.firstName, c.lastName)
    decreases |c.firstName|
  {
    var s := FullName(c);
    if c.firstName == [] {
      assert s[0] == ' ' && s[1..] == c.lastName;
    } else {
      var rest := Crew(c.id, c.firstName[1..], c.lastName);
      assert HasNoSpace(rest.firstName) by {
        forall i | 0 <= i < |rest.firstName| ensures rest.firstName[i] != ' ' {
          assert rest.firstName[i] == c.firstName[i + 1];
        }
      }
      FullNameSplits(rest);
      assert s[0] == c.firstName[0] && s[0] != ' ';
      assert s[1..] == FullName(rest);
      assert c.firstName == [s[0]] + rest.firstName;
    }
  }

  // ---------------------------------------------------------------------
  // Seat-range validation

  /**
   * The error `validate_ticket` raises: a one-entry payload keyed on the
   * ticket field, naming the airplane attribute and its value.
   */
  datatype RangeViolation = RangeViolation(field: string, airplaneField: string, count: int)
  {
    /** The message opens with the offending field's name and closes the range with ")". */
    function Message(): (m: string)
      ensures |m| > |field| + 1 && m[..|field|] == field && m[|field|] == ' '
      ensures m[|m| - 1] == ')'
    {
      var prefix := field + " number must be in available range: (1, " + airplaneField + "): (1, ";
      assert prefix[|field|] == ' ' && prefix[..|field|] == field;
      prefix + Text.IntToString(count) + ")"
    }

    function Detail(): (d: map<string, string>)
      ensures d.Keys == {field} && d[field] == Message()
    {
      map[field := Message()]
    }
  }

  /** What `validate_ticket` decides: the row is checked first, then the seat. */
  function RangeCheck(row: int, seat: int, a: Airplane): (r: Option<RangeViolation>)
    ensures r.None? <==> 1 <= row <= a.rows && 1 <= seat <= a.seatsInRow
    ensures r.Some? ==> (r.value.field == "row" <==> !(1 <= row <= a.rows))
    ensures r.Some? && r.value.field == "row" ==> r.value == RangeViolation("row", "rows", a.rows)
    ensures r.Some? && r.value.field != "row" ==>
              r.value == RangeViolation("seat", "seats_in_row", a.seatsInRow)
  {
    if !(1 <= row <= a.rows) then Some(RangeViolation("row", "rows", a.rows))
    else if !(1 <= seat <= a.seatsInRow) then Some(RangeViolation("seat", "seats_in_row", a.seatsInRow))
    else None
  }

  /** `getattr(airplane, name)` for the two attributes the check reads. */
  function Dimension(a: Airplane, name: string): int
    requires name == "rows" || name == "seats_in_row"
  {
    if name == "rows" then a.rows else a.seatsInRow
  }

  /**
   * `Ticket.validate_ticket`: walks the list of (value, ticket field,
   * airplane attribute) triples and stops at the first value out of
   * `[1, count]`. Raising the error is returning `Some`; it reads the
   * airplane and changes nothing.
   */
  method ValidateTicket(row: int, seat: int, airplane: Airplane) returns (r: Option<RangeViolation>)
    ensures r == RangeCheck(row, seat, airplane)
  {
    var checks := [(row, "row", "rows"), (seat, "seat", "seats_in_row")];
    for k := 0 to |checks|
      invariant forall j :: 0 <= j < k ==> 1 <= checks[j].0 <= Dimension(airplane, checks[j].2)
    {
      var value, name, attr := checks[k].0, checks[k].1, checks[k].2;
      var count := Dimension(airplane, attr);
      if !(1 <= value <= count) {
        if k == 1 {
          assert 1 <= checks[0].0 <= Dimension(airplane, checks[0].2);
        }
        return Some(RangeViolation(name, attr, count));
      }
    }
    assert 1 <= checks[0].0 <= Dimension(airplane, checks[0].2);
    assert 1 <= checks[1].0 <= Dimension(airplane, checks[1].2);
    return None;
  }

  /** The range message prints the airplane's count exactly: it parses back. */
  lemma MessageEndsWithCount(v: RangeViolation)
    ensures var m, k := v.Message(), |Text.IntToString(v.count)|;
            |m| > k && Text.IsIntLiteral(m[|m| - 1 - k..|m| - 1])
            && Text.ParseInt(m[|m| - 1 - k..|m| - 1]) == v.count && m[|m| - 1] == ')'
  {
    var digits := Text.IntToString(v.count);
    var prefix := v.field + " number must be in available range: (1, " + v.airplaneField + "): (1, ";
    var m := v.Message();
    assert m == prefix + digits + ")";
    assert m[|m| - 1 - |digits|..|m| - 1] == digits;
    Text.IntToStringParses(v.count);
  }

  /**
   * The worked example: row 101 on a 100-row airplane is refused on the row,
   * whatever the seat, and the message carries the digits "100".
   */
  lemma RowOutOfRangeExample(a: Airplane, seat: int)
    requires a.rows == 100 && a.seatsInRow == 10
    ensures RangeCheck(101, seat, a) == Some(RangeViolation("row", "rows", 100))
    ensures RangeViolation("row", "rows", 100).Detail().Keys == {"row"}
    ensures Text.IntToString(100) == "100"
  {
    assert Text.NatToString(1) == "1";
    assert Text.NatToString(10) == "10";
  }

  // ---------------------------------------------------------------------
  // The seat map

  /** The (row, seat) pairs of a `rows` x `seats` grid. */
  function Grid(rows: int, seats: int): set<(int, int)>
  {
    set r, s | 1 <= r <= rows && 1 <= s <= seats :: (r, s)
  }

  /** Every seat `validate_ticket` accepts on this airplane. */
  function SeatMap(a: Airplane): (m: set<(int, int)>)
    ensures forall r, s :: (r, s) in m <==> RangeCheck(r, s, a).None?
    ensures a.rows <= 0 || a.seatsInRow <= 0 ==> m == {}
  {
    Grid(a.rows, a.seatsInRow)
  }

  function RowOfSeats(r: int, seats: int): set<(int, int)>
  {
    set s | 1 <= s <= seats :: (r, s)
  }

  lemma {:induction false} RowOfSeatsSize(r: int, seats: nat)
    ensures |RowOfSeats(r, seats)| == seats
    decreases seats
  {
    if seats > 0 {
      RowOfSeatsSize(r, seats - 1);
      assert RowOfSeats(r, seats) == RowOfSeats(r, seats - 1) + {(r, seats)};
    }
  }

  lemma {:induction false} GridSize(rows: nat, seats: nat)
    ensures |Grid(rows, seats)| == rows * seats
    decreases rows
  {
    if rows > 0 {
      var smaller, last := Grid(rows - 1, seats), RowOfSeats(rows, seats);
      GridSize(rows - 1, seats);
      RowOfSeatsSize(rows, seats);
      forall p | p in Grid(rows, seats) ensures p in smaller + last {
        if p.0 < rows { assert p in smaller; } else { assert p in last; }
      }
      assert Grid(rows, seats) == smaller + last;
      assert smaller * last == {} by {
        forall p | p in last ensures p !in smaller { }
      }
      assert |smaller + last| == |smaller| + |last|;
      assert (rows - 1) * seats + seats == rows * seats;
    }
  }

  /**
   * `capacity` is the number of seats a ticket can be booked on when both
   * dimensions are positive; otherwise no seat can be booked, whatever
   * `capacity` says.
   */
  lemma CapacityCountsSeats(a: Airplane)
    ensures |SeatMap(a)| == if a.rows <= 0 || a.seatsInRow <= 0 then 0 else Capacity(a)
  {
    if a.rows > 0 && a.seatsInRow > 0 {
      GridSize(a.rows, a.seatsInRow);
    }
  }

  /** With both dimensions negative, `capacity` is positive but no seat is bookable. */
  lemma NegativeDimensionsExample(a: Airplane)
    requires a.rows == -2 && a.seatsInRow == -3
    ensures Capacity(a) == 6 && SeatMap(a) == {}
    ensures forall row, seat :: RangeCheck(row, seat, a).Some?
  {
  }

  // ---------------------------------------------------------------------
  // The stored tables

  function DepartureOf(f: Flight): int { f.departureTime }

  function CreatedAtOf(o: Order): int { o.createdAt }

  /** Default flight listing: `ordering = ["-departure_time"]`. */
  predicate FlightsInDefaultOrder(s: seq<Flight>) { DescendingBy(s, DepartureOf) }

  /** Default order listing: `ordering = ["-created_at"]`. */
  predicate OrdersInDefaultOrder(s: seq<Order>) { DescendingBy(s, CreatedAtOf) }

  predicate SameSeat(t: Ticket, u: Ticket)
  {
    t.row == u.row && t.seat == u.seat && t.flight == u.flight
  }

  /** `unique_together = ("row", "seat", "flight")`. */
  predicate SeatsUnique(ts: seq<Ticket>)
  {
    forall i, j :: 0 <= i < j < |ts| ==> !SameSeat(ts[i], ts[j])
  }

  /** Primary keys are handed out in increasing order, below the next free one. */
  predicate OrderIdsBelow(os: seq<Order>, next: int)
  {
    (forall i, j :: 0 <= i < j < |os| ==> os[i].id < os[j].id) &&
    (forall i :: 0 <= i < |os| ==> os[i].id < next)
  }

  predicate TicketIdsBelow(ts: seq<Ticket>, next: int)
  {
    (forall i, j :: 0 <= i < j < |ts| ==> ts[i].id < ts[j].id) &&
    (forall i :: 0 <= i < |ts| ==> ts[i].id < next)
  }

  /** The primary keys of the stored orders. */
  function OrderIds(os: seq<Order>): set<int>
  {
    if os == [] then {} else OrderIds(os[..|os| - 1]) + {os[|os| - 1].id}
  }

  /** The orders the stored tickets belong to. */
  function TicketOrders(ts: seq<Ticket>): set<int>
  {
    if ts == [] then {} else TicketOrders(ts[..|ts| - 1]) + {ts[|ts| - 1].order}
  }

  /** A ticket refers to a known flight and lies on that flight's airplane. */
  predicate TicketFits(flights: map<int, Flight>, t: Ticket)
  {
    t.flight in flights && RangeCheck(t.row, t.seat, flights[t.flight].airplane).None?
  }

  /** The booking tables: flights are reference data, orders and tickets grow. */
  datatype Db = Db(flights: map<int, Flight>, orders: seq<Order>, tickets: seq<Ticket>,
                   nextOrderId: int, nextTicketId: int)

  /**
   * What the booking path keeps true of the tables: seats unique per flight,
   * every ticket in range on its own flight's airplane, every ticket owned by
   * a stored order and no order without a ticket.
   */
  predicate Consistent(db: Db)
  {
    SeatsUnique(db.tickets)
    && OrderIdsBelow(db.orders, db.nextOrderId)
    && TicketIdsBelow(db.tickets, db.nextTicketId)
    && (forall t :: t in db.tickets ==> TicketFits(db.flights, t))
    && TicketOrders(db.tickets) == OrderIds(db.orders)
  }
}
