/**
 * The serializers of the booking core: per-ticket validation against the
 * referenced flight's airplane, the order payload (a non-empty ticket list,
 * a read-only owner), the atomic `OrderSerializer.create`, the computed
 * `taken_places` of a flight, and the field shapes the views choose between.
 */
module Serializers {
  import opened Wrappers
  import opened Models

  /** One element of the `tickets` list of an order payload. */
  datatype TicketRequest = TicketRequest(row: int, seat: int, flight: int)

  datatype TicketError =
    | UnknownFlight(flight: int)           // the flight primary key does not exist
    | OutOfRange(violation: RangeViolation) // raised by validate_ticket

  datatype PayloadError =
    | EmptyTickets                                    // allow_empty=False
    | TicketErrors(perTicket: seq<Option<TicketError>>) // one entry per ticket, None where it passed

  /** The order payload; a `user` sent by the client is read-only and never used. */
  datatype OrderPayload = OrderPayload(tickets: seq<TicketRequest>, user: Option<UserId>)

  /** The `(row, seat, flight)` constraint failing on insert. */
  datatype Conflict = UniqueViolation(row: int, seat: int, flight: int)

  /**
   * `TicketSerializer.validate`: the flight must exist and the seat must lie
   * on that flight's own airplane.
   */
  function ValidateTicketRequest(flights: map<int, Flight>, q: TicketRequest): (r: Option<TicketError>)
    ensures r.None? <==> q.flight in flights && 1 <= q.row <= flights[q.flight].airplane.rows
                         && 1 <= q.seat <= flights[q.flight].airplane.seatsInRow
    ensures q.flight !in flights ==> r == Some(UnknownFlight(q.flight))
    ensures q.flight in flights && r.Some? ==>
              r.value == OutOfRange(RangeCheck(q.row, q.seat, flights[q.flight].airplane).value)
  {
    if q.flight !in flights then Some(UnknownFlight(q.flight))
    else
      match RangeCheck(q.row, q.seat, flights[q.flight].airplane)
      case None => None
      case Some(v) => Some(OutOfRange(v))
  }

  predicate RequestsValid(flights: map<int, Flight>, reqs: seq<TicketRequest>)
  {
    forall i :: 0 <= i < |reqs| ==> ValidateTicketRequest(flights, reqs[i]).None?
  }

  /**
   * `OrderSerializer.is_valid` on the ticket list: an empty list is refused
   * outright; otherwise every ticket is validated and all errors reported.
   */
  function ValidateOrder(flights: map<int, Flight>, tickets: seq<TicketRequest>)
    : (r: Result<seq<TicketRequest>, PayloadError>)
    ensures r.Ok? <==> tickets != [] && RequestsValid(flights, tickets)
    ensures r.Ok? ==> r.value == tickets
    ensures tickets == [] ==> r == Err(EmptyTickets)
    ensures r.Err? && tickets != [] ==>
              r.error.TicketErrors? && |r.error.perTicket| == |tickets|
              && (forall i :: 0 <= i < |tickets| ==>
                    r.error.perTicket[i] == ValidateTicketRequest(flights, tickets[i]))
              && (exists i :: 0 <= i < |tickets| && r.error.perTicket[i].Some?)
  {
    if tickets == [] then Err(EmptyTickets)
    else
      var errors := seq(|tickets|, i requires 0 <= i < |tickets| => ValidateTicketRequest(flights, tickets[i]));
      assert forall i :: 0 <= i < |tickets| ==> errors[i] == ValidateTicketRequest(flights, tickets[i]);
      if forall i :: 0 <= i < |errors| ==> errors[i].None? then Ok(tickets)
      else Err(TicketErrors(errors))
  }

  // ---------------------------------------------------------------------
  // taken_places

  /** `FlightDetailSerializer.taken_places`: (row, seat) of every ticket on the flight. */
  function TakenPlaces(tickets: seq<Ticket>, flight: int): (r: seq<(int, int)>)
    ensures |r| <= |tickets|
    ensures forall p :: p in r <==> exists t :: t in tickets && t.flight == flight && (t.row, t.seat) == p
  {
    if tickets == [] then []
    else
      var rest := TakenPlaces(tickets[1..], flight);
      assert forall t :: t in tickets <==> t == tickets[0] || t in tickets[1..];
      if tickets[0].flight == flight then [(tickets[0].row, tickets[0].seat)] + rest else rest
  }

  predicate NoDuplicates<T(==)>(s: seq<T>)
  {
    forall i, j :: 0 <= i < j < |s| ==> s[i] != s[j]
  }

  /** Because seats are unique per flight, no place is listed twice. */
  lemma {:induction false} TakenPlacesDistinct(tickets: seq<Ticket>, flight: int)
    requires SeatsUnique(tickets)
    ensures NoDuplicates(TakenPlaces(tickets, flight))
    decreases |tickets|
  {
    if tickets != [] {
      var rest := TakenPlaces(tickets[1..], flight);
      assert SeatsUnique(tickets[1..]) by {
        forall i, j | 0 <= i < j < |tickets| - 1 ensures !SameSeat(tickets[1..][i], tickets[1..][j]) {
          assert tickets[1..][i] == tickets[i + 1] && tickets[1..][j] == tickets[j + 1];
        }
      }
      TakenPlacesDistinct(tickets[1..], flight);
      if tickets[0].flight == flight {
        var p := (tickets[0].row, tickets[0].seat);
        assert p !in rest by {
          forall k | 0 <= k < |tickets| - 1 ensures !SameSeat(tickets[0], tickets[1..][k]) {
            assert tickets[1..][k] == tickets[k + 1];
          }
        }
        var r := [p] + rest;
        forall i, j | 0 <= i < j < |r| ensures r[i] != r[j] {
          if i == 0 { assert r[j] == rest[j - 1]; assert r[j] in rest; }
          else { assert r[i] == rest[i - 1] && r[j] == rest[j - 1]; }
        }
      }
    }
  }

  lemma {:induction false} TakenPlacesAppend(a: seq<Ticket>, b: seq<Ticket>, flight: int)
    ensures TakenPlaces(a + b, flight) == TakenPlaces(a, flight) + TakenPlaces(b, flight)
    decreases |a|
  {
    if a == [] {
      assert a + b == b;
    } else {
      assert (a + b)[0] == a[0];
      assert (a + b)[1..] == a[1..] + b;
      TakenPlacesAppend(a[1..], b, flight);
    }
  }

  /** The places a batch of requests asks for on `flight`, in input order. */
  function RequestedPlaces(reqs: seq<TicketRequest>, flight: int): seq<(int, int)>
  {
    if reqs == [] then []
    else (if reqs[0].flight == flight then [(reqs[0].row, reqs[0].seat)] else [])
         + RequestedPlaces(reqs[1..], flight)
  }

  // ---------------------------------------------------------------------
  // OrderSerializer.create

  /** The database already holds a ticket for this seat on this flight. */
  predicate SeatTaken(tickets: seq<Ticket>, q: TicketRequest)
  {
    exists t :: t in tickets && t.row == q.row && t.seat == q.seat && t.flight == q.flight
  }

  /** Inserting request `i` breaks the uniqueness constraint. */
  predicate Clashes(existing: seq<Ticket>, reqs: seq<TicketRequest>, i: int)
    requires 0 <= i < |reqs|
  {
    SeatTaken(existing, reqs[i]) || exists j :: 0 <= j < i && reqs[j] == reqs[i]
  }

  /** The first request (at or after `k`) whose insert fails, if any. */
  function FirstClashFrom(existing: seq<Ticket>, reqs: seq<TicketRequest>, k: nat): (r: Option<nat>)
    requires k <= |reqs|
    ensures r.Some? ==> k <= r.value < |reqs| && Clashes(existing, reqs, r.value)
                        && forall j :: k <= j < r.value ==> !Clashes(existing, reqs, j)
    ensures r.None? ==> forall j :: k <= j < |reqs| ==> !Clashes(existing, reqs, j)
    decreases |reqs| - k
  {
    if k == |reqs| then None
    else if Clashes(existing, reqs, k) then Some(k)
    else FirstClashFrom(existing, reqs, k + 1)
  }

  /**
   * A batch conflicts when a request hits a stored ticket or repeats another
   * request of the same batch.
   */
  predicate HasClash(existing: seq<Ticket>, reqs: seq<TicketRequest>)
  {
    (exists i :: 0 <= i < |reqs| && SeatTaken(existing, reqs[i]))
    || (exists i, j :: 0 <= i < j < |reqs| && reqs[i] == reqs[j])
  }

  lemma NoFirstClashIffNoClash(existing: seq<Ticket>, reqs: seq<TicketRequest>)
    ensures FirstClashFrom(existing, reqs, 0).None? <==> !HasClash(existing, reqs)
  {
    var r := FirstClashFrom(existing, reqs, 0);
    if r.Some? {
      var i := r.value;
      if !SeatTaken(existing, reqs[i]) {
        var j :| 0 <= j < i && reqs[j] == reqs[i];
        assert 0 <= j < i < |reqs| && reqs[j] == reqs[i];
      }
    } else {
      if exists i :: 0 <= i < |reqs| && SeatTaken(existing, reqs[i]) {
        var i :| 0 <= i < |reqs| && SeatTaken(existing, reqs[i]);
        assert Clashes(existing, reqs, i);
      }
      if exists i, j :: 0 <= i < j < |reqs| && reqs[i] == reqs[j] {
        var i, j :| 0 <= i < j < |reqs| && reqs[i] == reqs[j];
        assert Clashes(existing, reqs, j);
      }
    }
  }

  /** The tickets `create` inserts, one per request, in input order. */
  function NewTickets(firstId: int, orderId: int, reqs: seq<TicketRequest>): (ts: seq<Ticket>)
    ensures |ts| == |reqs|
  {
    seq(|reqs|, i requires 0 <= i < |reqs| =>
      Ticket(firstId + i, reqs[i].row, reqs[i].seat, reqs[i].flight, orderId))
  }

  /** Ticket `t` was made from request `q` for order `orderId`. */
  predicate Carries(t: Ticket, q: TicketRequest, orderId: int)
  {
    t.row == q.row && t.seat == q.seat && t.flight == q.flight && t.order == orderId
  }

  /** The tables after a committed `create`. */
  function Commit(db: Db, user: UserId, now: int, reqs: seq<TicketRequest>): Db
  {
    db.(orders := db.orders + [Order(db.nextOrderId, now, user)],
        tickets := db.tickets + NewTickets(db.nextTicketId, db.nextOrderId, reqs),
        nextOrderId := db.nextOrderId + 1,
        nextTicketId := db.nextTicketId + |reqs|)
  }

  lemma CommitSeatsUnique(db: Db, user: UserId, now: int, reqs: seq<TicketRequest>)
    requires SeatsUnique(db.tickets) && !HasClash(db.tickets, reqs)
    ensures SeatsUnique(Commit(db, user, now, reqs).tickets)
  {
    var old_ := db.tickets;
    var added := NewTickets(db.nextTicketId, db.nextOrderId, reqs);
    var ts := old_ + added;
    forall i, j | 0 <= i < j < |ts| ensures !SameSeat(ts[i], ts[j]) {
      if j >= |old_| {
        var b := j - |old_|;
        assert ts[j] == added[b];
        if i < |old_| {
          assert ts[i] in old_;
          assert !SeatTaken(old_, reqs[b]);
        } else {
          var a := i - |old_|;
          assert ts[i] == added[a];
          assert reqs[a] != reqs[b];
        }
      }
    }
  }

  lemma {:induction false} TicketOrdersAppend(a: seq<Ticket>, b: seq<Ticket>)
    ensures TicketOrders(a + b) == TicketOrders(a) + TicketOrders(b)
    decreases |b|
  {
    if b == [] {
      assert a + b == a;
    } else {
      var b' := b[..|b| - 1];
      assert (a + b)[..|a + b| - 1] == a + b';
      TicketOrdersAppend(a, b');
    }
  }

  lemma {:induction false} NewTicketsOrders(firstId: int, orderId: int, reqs: seq<TicketRequest>)
    requires reqs != []
    ensures TicketOrders(NewTickets(firstId, orderId, reqs)) == {orderId}
    decreases |reqs|
  {
    var ts := NewTickets(firstId, orderId, reqs);
    if |reqs| > 1 {
      var init := reqs[..|reqs| - 1];
      assert ts[..|ts| - 1] == NewTickets(firstId, orderId, init);
      NewTicketsOrders(firstId, orderId, init);
    } else {
      assert ts[..0] == [];
    }
  }

  /** The counters stay ahead of every id handed out, old and new. */
  lemma CommitIdsBelow(db: Db, user: UserId, now: int, reqs: seq<TicketRequest>)
    requires OrderIdsBelow(db.orders, db.nextOrderId) && TicketIdsBelow(db.tickets, db.nextTicketId)
    ensures OrderIdsBelow(Commit(db, user, now, reqs).orders, Commit(db, user, now, reqs).nextOrderId)
    ensures TicketIdsBelow(Commit(db, user, now, reqs).tickets, Commit(db, user, now, reqs).nextTicketId)
  {
    var db' := Commit(db, user, now, reqs);
    var added := NewTickets(db.nextTicketId, db.nextOrderId, reqs);
    forall i | 0 <= i < |db'.orders| - 1 ensures db'.orders[i] == db.orders[i] { }
    forall i | 0 <= i < |db'.tickets| ensures
      if i < |db.tickets| then db'.tickets[i] == db.tickets[i]
      else db'.tickets[i] == added[i - |db.tickets|] {
    }
  }

  /** Validated requests become tickets that fit their flight's airplane. */
  lemma CommitTicketsFit(db: Db, user: UserId, now: int, reqs: seq<TicketRequest>)
    requires forall t :: t in db.tickets ==> TicketFits(db.flights, t)
    requires RequestsValid(db.flights, reqs)
    ensures forall t :: t in Commit(db, user, now, reqs).tickets ==> TicketFits(db.flights, t)
  {
    var added := NewTickets(db.nextTicketId, db.nextOrderId, reqs);
    forall t | t in db.tickets + added ensures TicketFits(db.flights, t) {
      if t !in db.tickets {
        var k :| 0 <= k < |added| && added[k] == t;
        assert ValidateTicketRequest(db.flights, reqs[k]).None?;
      }
    }
  }

  lemma CommitConsistent(db: Db, user: UserId, now: int, reqs: seq<TicketRequest>)
    requires Consistent(db) && reqs != [] && RequestsValid(db.flights, reqs)
    requires !HasClash(db.tickets, reqs)
    ensures Consistent(Commit(db, user, now, reqs))
  {
    var db' := Commit(db, user, now, reqs);
    var added := NewTickets(db.nextTicketId, db.nextOrderId, reqs);
    CommitSeatsUnique(db, user, now, reqs);
    CommitIdsBelow(db, user, now, reqs);
    CommitTicketsFit(db, user, now, reqs);
    assert OrderIds(db'.orders) == OrderIds(db.orders) + {db.nextOrderId} by {
      assert db'.orders[..|db'.orders| - 1] == db.orders;
    }
    TicketOrdersAppend(db.tickets, added);
    NewTicketsOrders(db.nextTicketId, db.nextOrderId, reqs);
  }

  /**
   * `OrderSerializer.create` inside `transaction.atomic()`: one order owned
   * by `user`, then one ticket per request in input order; the first insert
   * that breaks the seat constraint rolls the whole batch back.
   */
  function Create(db: Db, user: UserId, now: int, reqs: seq<TicketRequest>): (r: Result<Db, Conflict>)
    requires Consistent(db) && reqs != [] && RequestsValid(db.flights, reqs)
    ensures r.Ok? <==> !HasClash(db.tickets, reqs)
    ensures r.Ok? ==> Consistent(r.value)
    ensures r.Ok? ==>
              r.value.flights == db.flights
              && r.value.orders == db.orders + [Order(db.nextOrderId, now, user)]
              && |r.value.tickets| == |db.tickets| + |reqs|
              && r.value.tickets[..|db.tickets|] == db.tickets
              && forall i :: 0 <= i < |reqs| ==> Carries(r.value.tickets[|db.tickets| + i], reqs[i], db.nextOrderId)
    ensures r.Err? ==> exists i :: 0 <= i < |reqs| && Clashes(db.tickets, reqs, i)
                                   && r.error == UniqueViolation(reqs[i].row, reqs[i].seat, reqs[i].flight)
  {
    NoFirstClashIffNoClash(db.tickets, reqs);
    match FirstClashFrom(db.tickets, reqs, 0)
    case Some(i) => Err(UniqueViolation(reqs[i].row, reqs[i].seat, reqs[i].flight))
    case None =>
      CommitConsistent(db, user, now, reqs);
      var db' := Commit(db, user, now, reqs);
      assert db'.tickets[..|db.tickets|] == db.tickets;
      Ok(db')
  }

  /** Booking only adds places: a flight's taken places grow by the batch's, in order. */
  lemma CreateExtendsTakenPlaces(db: Db, user: UserId, now: int, reqs: seq<TicketRequest>, flight: int)
    requires Consistent(db) && reqs != [] && RequestsValid(db.flights, reqs)
    requires Create(db, user, now, reqs).Ok?
    ensures TakenPlaces(Create(db, user, now, reqs).value.tickets, flight)
            == TakenPlaces(db.tickets, flight) + RequestedPlaces(reqs, flight)
  {
    var added := NewTickets(db.nextTicketId, db.nextOrderId, reqs);
    assert Create(db, user, now, reqs).value.tickets == db.tickets + added;
    TakenPlacesAppend(db.tickets, added, flight);
    NewTicketsPlaces(db.nextTicketId, db.nextOrderId, reqs, flight);
  }

  lemma {:induction false} NewTicketsPlaces(firstId: int, orderId: int, reqs: seq<TicketRequest>, flight: int)
    ensures TakenPlaces(NewTickets(firstId, orderId, reqs), flight) == RequestedPlaces(reqs, flight)
    decreases |reqs|
  {
    if reqs != [] {
      assert NewTickets(firstId, orderId, reqs)[1..] == NewTickets(firstId + 1, orderId, reqs[1..]);
      NewTicketsPlaces(firstId + 1, orderId, reqs[1..], flight);
    }
  }

  /** The booking tables as a mutable store. */
  class BookingStore {
    var flights: map<int, Flight>
    var orders: seq<Order>
    var tickets: seq<Ticket>
    var nextOrderId: int
    var nextTicketId: int

    function State(): Db
      reads this
    {
      Db(flights, orders, tickets, nextOrderId, nextTicketId)
    }

    predicate Valid()
      reads this
    {
      Consistent(State())
    }

    constructor (flights: map<int, Flight>)
      ensures Valid()
      ensures State() == Db(flights, [], [], 1, 1)
    {
      this.flights := flights;
      orders, tickets := [], [];
      nextOrderId, nextTicketId := 1, 1;
    }

    /**
     * `OrderSerializer.create`. The inserts are staged first and written only
     * once every one has passed the seat constraint, so a failure leaves the
     * tables as they were.
     */
    method CreateOrder(user: UserId, now: int, reqs: seq<TicketRequest>) returns (r: Result<Order, Conflict>)
      requires Valid() && reqs != [] && RequestsValid(flights, reqs)
      modifies this
      ensures Valid()
      ensures var c := Create(old(State()), user, now, reqs);
              (r.Ok? <==> c.Ok?)
              && (c.Ok? ==> State() == c.value && r.value == Order(old(nextOrderId), now, user))
              && (c.Err? ==> State() == old(State()) && r.error == c.error)
    {
      ghost var db := State();
      var order := Order(nextOrderId, now, user);
      var staged := StageTickets(tickets, nextTicketId, order.id, reqs);
      if staged.Err? {
        CreateRefuses(db, user, now, reqs, staged.error);
        var q := reqs[staged.error];
        return Err(UniqueViolation(q.row, q.seat, q.flight));
      }
      CreateCommits(db, user, now, reqs);
      ghost var next := Commit(db, user, now, reqs);
      assert staged.value == NewTickets(db.nextTicketId, order.id, reqs);
      orders := orders + [order];
      tickets := tickets + staged.value;
      nextOrderId, nextTicketId := nextOrderId + 1, nextTicketId + |reqs|;
      assert tickets == next.tickets && orders == next.orders;
      assert State() == next;
      r := Ok(order);
    }
  }

  /**
   * The insert loop of `create`: one ticket per request, in input order,
   * each checked against the stored tickets and those inserted before it.
   * Stops at the first insert that breaks the seat constraint.
   */
  method StageTickets(existing: seq<Ticket>, firstId: int, orderId: int, reqs: seq<TicketRequest>)
    returns (r: Result<seq<Ticket>, nat>)
    ensures match FirstClashFrom(existing, reqs, 0)
            case Some(i) => r == Err(i)
            case None => r == Ok(NewTickets(firstId, orderId, reqs))
  {
    var pending: seq<Ticket> := [];
    var i := 0;
    while i < |reqs|
      invariant 0 <= i <= |reqs|
      invariant |pending| == i
      invariant forall j :: 0 <= j < i ==> Carries(pending[j], reqs[j], orderId)
      invariant forall j :: 0 <= j < i ==> pending[j].id == firstId + j
      invariant forall j :: 0 <= j < i ==> !Clashes(existing, reqs, j)
    {
      var q := reqs[i];
      PendingClash(existing, pending, reqs, i, orderId);
      if SeatTaken(existing + pending, q) {
        assert FirstClashFrom(existing, reqs, 0) == Some(i);
        return Err(i);
      }
      pending := pending + [Ticket(firstId + i, q.row, q.seat, q.flight, orderId)];
      i := i + 1;
    }
    assert FirstClashFrom(existing, reqs, 0).None?;
    assert pending == NewTickets(firstId, orderId, reqs);
    r := Ok(pending);
  }

  lemma CreateRefuses(db: Db, user: UserId, now: int, reqs: seq<TicketRequest>, i: nat)
    requires Consistent(db) && reqs != [] && RequestsValid(db.flights, reqs)
    requires FirstClashFrom(db.tickets, reqs, 0) == Some(i)
    ensures i < |reqs|
    ensures Create(db, user, now, reqs) == Err(UniqueViolation(reqs[i].row, reqs[i].seat, reqs[i].flight))
  {
  }

  lemma CreateCommits(db: Db, user: UserId, now: int, reqs: seq<TicketRequest>)
    requires Consistent(db) && reqs != [] && RequestsValid(db.flights, reqs)
    requires FirstClashFrom(db.tickets, reqs, 0).None?
    ensures Create(db, user, now, reqs) == Ok(Commit(db, user, now, reqs))
    ensures Consistent(Commit(db, user, now, reqs))
  {
  }

  /** Checking the staged batch plus the table is checking request `i` for a clash. */
  lemma PendingClash(existing: seq<Ticket>, pending: seq<Ticket>, reqs: seq<TicketRequest>, i: int, orderId: int)
    requires 0 <= i < |reqs| && |pending| == i
    requires forall j :: 0 <= j < i ==> Carries(pending[j], reqs[j], orderId)
    ensures SeatTaken(existing + pending, reqs[i]) <==> Clashes(existing, reqs, i)
  {
    var q := reqs[i];
    if SeatTaken(existing + pending, q) {
      var t :| t in existing + pending && t.row == q.row && t.seat == q.seat && t.flight == q.flight;
      if t !in existing {
        var j :| 0 <= j < |pending| && pending[j] == t;
        assert reqs[j] == q;
      }
    }
    if Clashes(existing, reqs, i) && !SeatTaken(existing, q) {
      var j :| 0 <= j < i && reqs[j] == q;
      assert pending[j] in existing + pending;
    }
  }

  // ---------------------------------------------------------------------
  // Serializer shapes

  /** How a serializer renders one field. */
  datatype Rendering =
    | PrimaryKey                   // the bare id of the related row
    | SlugOf(slugField: string)    // one attribute of the related row, read-only
    | NestedAs(serializer: string) // the related row(s) in full, through another serializer
    | Plain                        // a value of the row itself, or a derived property
    | Absent                       // not a field of this serializer

  datatype SerializerClass =
    | RouteSerializer | RouteListSerializer | RouteDetailSerializer
    | AirplaneSerializer | AirplaneListRetrieveSerializer
    | FlightSerializer | FlightListSerializer | FlightDetailSerializer
    | OrderSerializer | OrderDetailSerializer

  /** `Meta.fields` of each serializer, in declaration order. */
  function Fields(c: SerializerClass): (fs: seq<string>)
    ensures |fs| >= 4 && fs[0] == "id" && NoDuplicates(fs)
    ensures "taken_places" in fs <==> c == FlightDetailSerializer
    ensures "capacity" in fs <==> c.AirplaneSerializer? || c.AirplaneListRetrieveSerializer?
    ensures "user" in fs <==> c.OrderSerializer? || c.OrderDetailSerializer?
  {
    match c
    case RouteSerializer | RouteListSerializer | RouteDetailSerializer =>
      ["id", "source", "destination", "distance"]
    case AirplaneSerializer | AirplaneListRetrieveSerializer =>
      ["id", "name", "rows", "seats_in_row", "airplane_type", "capacity", "image"]
    case FlightSerializer | FlightListSerializer =>
      ["id", "route", "airplane", "crew", "departure_time", "arrival_time"]
    case FlightDetailSerializer =>
      ["id", "route", "airplane", "crew", "departure_time", "arrival_time", "taken_places"]
    case OrderSerializer | OrderDetailSerializer =>
      ["id", "created_at", "tickets", "user"]
  }

  /** The rendering each serializer declares (or inherits) for a relation field. */
  function Render(c: SerializerClass, field: string): (r: Rendering)
    ensures r.Absent? <==> field !in Fields(c)
    ensures r.SlugOf? ==> r.slugField in {"name", "full_name"}
    ensures field in Fields(c) && field in {"id", "distance", "name", "rows", "seats_in_row", "capacity",
                                           "image", "departure_time", "arrival_time", "created_at"}
            ==> r == Plain
  {
    if field !in Fields(c) then Absent
    else match (c, field)
    case (RouteListSerializer, "source") => SlugOf("name")
    case (RouteListSerializer, "destination") => SlugOf("name")
    case (RouteDetailSerializer, "source") => NestedAs("AirportSerializer")
    case (RouteDetailSerializer, "destination") => NestedAs("AirportSerializer")
    case (RouteSerializer, "source") => PrimaryKey
    case (RouteSerializer, "destination") => PrimaryKey
    case (AirplaneListRetrieveSerializer, "airplane_type") => SlugOf("name")
    case (AirplaneSerializer, "airplane_type") => PrimaryKey
    case (FlightListSerializer, "airplane") => SlugOf("name")
    case (FlightListSerializer, "crew") => SlugOf("full_name")
    case (FlightDetailSerializer, "route") => NestedAs("RouteDetailSerializer")
    case (FlightDetailSerializer, "airplane") => NestedAs("AirplaneSerializer")
    case (FlightDetailSerializer, "crew") => NestedAs("CrewSerializer")
    case (FlightDetailSerializer, "taken_places") => NestedAs("TicketSeatsSerializer")
    case (_, "route") => PrimaryKey
    case (_, "airplane") => PrimaryKey
    case (_, "crew") => PrimaryKey
    case (OrderSerializer, "tickets") => NestedAs("TicketSerializer")
    case (OrderDetailSerializer, "tickets") => NestedAs("TicketDetailSerializer")
    case (_, "user") => PrimaryKey
    case _ => Plain
  }

  /** Fields a client payload cannot set through this serializer. */
  function ReadOnly(c: SerializerClass, field: string): (b: bool)
    ensures field == "id" ==> b
    ensures (c.OrderSerializer? || c.OrderDetailSerializer?) && field == "user" ==> b
    ensures Render(c, field).SlugOf? ==> b
    ensures Render(c, field).PrimaryKey? && field != "user" ==> !b
    ensures (c == OrderSerializer && field == "tickets" ==> !b)
            && (c == OrderDetailSerializer && field == "tickets" ==> b)
  {
    field == "id" || field == "capacity" || field == "created_at" || field == "taken_places"
    || ((c.OrderSerializer? || c.OrderDetailSerializer?) && field == "user")
    || Render(c, field).SlugOf?
    || (Render(c, field).NestedAs? && c != OrderSerializer)
  }
}
