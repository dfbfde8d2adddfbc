/**
 * The view sets: the query-parameter filters of `get_queryset`, the
 * action-driven choice of serializer, and `OrderViewSet.perform_create`,
 * which books an order for the authenticated caller.
 */
module Views {
  import opened Wrappers
  import opened Seqs
  import Text
  import opened Models
  import opened Serializers

  /** A string query parameter counts only when present and non-empty (`if name:`). */
  predicate Given(p: Option<string>)
  {
    p.Some? && p.value != ""
  }

  // ---------------------------------------------------------------------
  // get_queryset

  /** `CountryViewSet.get_queryset`: `?name=` keeps names containing it, ignoring case. */
  function CountryQuery(countries: seq<Country>, name: Option<string>): (r: seq<Country>)
    ensures IsSubsequence(r, countries)
    ensures !Given(name) ==> r == countries
    ensures Given(name) ==>
              forall c :: c in r <==> c in countries && Text.IContains(c.name, name.value)
  {
    if Given(name) then
      var n := name.value;
      Filter(countries, (c: Country) => Text.IContains(c.name, n))
    else
      SubsequenceReflexive(countries);
      countries
  }

  /** `AirportViewSet.get_queryset`: `?name=` and `?country=` (on the country's name) together. */
  function AirportQuery(airports: seq<Airport>, name: Option<string>, country: Option<string>)
    : (r: seq<Airport>)
    ensures IsSubsequence(r, airports)
    ensures !Given(name) && !Given(country) ==> r == airports
    ensures forall a :: a in r <==>
              a in airports
              && (Given(name) ==> Text.IContains(a.name, name.value))
              && (Given(country) ==> Text.IContains(a.country.name, country.value))
  {
    var byName := if Given(name) then
                    var n := name.value;
                    Filter(airports, (a: Airport) => Text.IContains(a.name, n))
                  else airports;
    var byCountry := if Given(country) then
                       var k := country.value;
                       Filter(byName, (a: Airport) => Text.IContains(a.country.name, k))
                     else byName;
    SubsequenceReflexive(airports);
    SubsequenceReflexive(byName);
    SubsequenceTransitive(byCountry, byName, airports);
    byCountry
  }

  /**
   * `FlightViewSet.get_queryset`: `?departure=` keeps flights leaving strictly
   * after it, `?arrival=` those arriving strictly before it. A parameter is
   * `None` when absent or empty.
   */
  function FlightQuery(flights: seq<Flight>, departure: Option<int>, arrival: Option<int>)
    : (r: seq<Flight>)
    ensures IsSubsequence(r, flights)
    ensures departure.None? && arrival.None? ==> r == flights
    ensures forall f :: f in r <==>
              f in flights
              && (departure.Some? ==> f.departureTime > departure.value)
              && (arrival.Some? ==> f.arrivalTime < arrival.value)
  {
    var afterDeparture := if departure.Some? then
                            var d := departure.value;
                            Filter(flights, (f: Flight) => f.departureTime > d)
                          else flights;
    var beforeArrival := if arrival.Some? then
                           var t := arrival.value;
                           Filter(afterDeparture, (f: Flight) => f.arrivalTime < t)
                         else afterDeparture;
    SubsequenceReflexive(flights);
    SubsequenceReflexive(afterDeparture);
    SubsequenceTransitive(beforeArrival, afterDeparture, flights);
    beforeArrival
  }

  /**
   * `OrderViewSet.get_queryset`: a non-staff caller is scoped to its own
   * orders first; `?user=` then keeps one owner's orders.
   */
  function OrderQuery(orders: seq<Order>, caller: User, user: Option<UserId>): (r: seq<Order>)
    ensures IsSubsequence(r, orders)
    ensures forall o :: o in r <==>
              o in orders
              && (!caller.isStaff ==> o.user == caller.id)
              && (user.Some? ==> o.user == user.value)
    ensures !caller.isStaff ==> forall o :: o in r ==> o.user == caller.id
    ensures !caller.isStaff && user.Some? && user.value != caller.id ==> r == []
    ensures caller.isStaff && user.None? ==> r == orders
  {
    var own := if !caller.isStaff then
                 var me := caller.id;
                 Filter(orders, (o: Order) => o.user == me)
               else orders;
    var byUser := if user.Some? then
                    var u := user.value;
                    Filter(own, (o: Order) => o.user == u)
                  else own;
    SubsequenceReflexive(orders);
    SubsequenceReflexive(own);
    SubsequenceTransitive(byUser, own, orders);
    assert byUser != [] ==> byUser[0] in byUser;
    byUser
  }

  /** Filtering flights keeps the default `-departure_time` listing order. */
  lemma FlightQueryKeepsOrder(flights: seq<Flight>, departure: Option<int>, arrival: Option<int>)
    requires FlightsInDefaultOrder(flights)
    ensures FlightsInDefaultOrder(FlightQuery(flights, departure, arrival))
  {
    SubsequenceKeepsDescending(FlightQuery(flights, departure, arrival), flights, DepartureOf);
  }

  /** Scoping orders keeps the default `-created_at` listing order. */
  lemma OrderQueryKeepsOrder(orders: seq<Order>, caller: User, user: Option<UserId>)
    requires OrdersInDefaultOrder(orders)
    ensures OrdersInDefaultOrder(OrderQuery(orders, caller, user))
  {
    SubsequenceKeepsDescending(OrderQuery(orders, caller, user), orders, CreatedAtOf);
  }

  /**
   * Three flights leaving on 2024-08-25, 2024-09-25 and 2024-10-25 (listed
   * latest first), filtered with `departure=2024-09-01`: the last two remain.
   * Timestamps are written as YYYYMMDDhhmm, which orders them like time.
   */
  lemma DepartureFilterExample(f1: Flight, f2: Flight, f3: Flight)
    requires f1.departureTime == 202408252100 && f2.departureTime == 202409252100
    requires f3.departureTime == 202410252100
    ensures FlightQuery([f3, f2, f1], Some(202409010000), None) == [f3, f2]
  {
    var s := [f3, f2, f1];
    var p := (f: Flight) => f.departureTime > 202409010000;
    assert s[1..] == [f2, f1] && s[1..][1..] == [f1] && [f1][1..] == [];
    assert Filter([f1], p) == [];
    assert Filter([f2, f1], p) == [f2];
  }

  // ---------------------------------------------------------------------
  // get_serializer_class

  /** `RouteViewSet.get_serializer_class`. */
  function RouteSerializerFor(action: string): (c: SerializerClass)
    ensures action == "retrieve" <==> Render(c, "source") == NestedAs("AirportSerializer")
    ensures action == "list" <==> Render(c, "source") == SlugOf("name")
    ensures action != "list" && action != "retrieve" <==> !ReadOnly(c, "source")
    ensures Fields(c) == ["id", "source", "destination", "distance"]
  {
    if action == "retrieve" then RouteDetailSerializer
    else if action == "list" then RouteListSerializer
    else RouteSerializer
  }

  /** `AirplaneViewSet.get_serializer_class`: list and retrieve share one shape. */
  function AirplaneSerializerFor(action: string): (c: SerializerClass)
    ensures action == "list" || action == "retrieve" <==> Render(c, "airplane_type") == SlugOf("name")
    ensures action != "list" && action != "retrieve" <==> !ReadOnly(c, "airplane_type")
    ensures "capacity" in Fields(c) && ReadOnly(c, "capacity")
  {
    if action == "list" || action == "retrieve" then AirplaneListRetrieveSerializer
    else AirplaneSerializer
  }

  /** `FlightViewSet.get_serializer_class`: only the detail shape lists the taken places. */
  function FlightSerializerFor(action: string): (c: SerializerClass)
    ensures action == "retrieve" <==> "taken_places" in Fields(c)
    ensures action == "list" <==> Render(c, "crew") == SlugOf("full_name")
    ensures action != "list" && action != "retrieve" <==> !ReadOnly(c, "airplane")
    ensures Render(c, "route") == (if action == "retrieve" then NestedAs("RouteDetailSerializer") else PrimaryKey)
  {
    if action == "retrieve" then FlightDetailSerializer
    else if action == "list" then FlightListSerializer
    else FlightSerializer
  }

  /** `OrderViewSet.get_serializer_class`: the owner is read-only in every shape. */
  function OrderSerializerFor(action: string): (c: SerializerClass)
    ensures action == "retrieve" <==> Render(c, "tickets") == NestedAs("TicketDetailSerializer")
    ensures action != "retrieve" <==> !ReadOnly(c, "tickets")
    ensures "user" in Fields(c) && ReadOnly(c, "user")
  {
    if action == "retrieve" then OrderDetailSerializer else OrderSerializer
  }

  // ---------------------------------------------------------------------
  // perform_create

  datatype OrderError =
    | Invalid(payload: PayloadError) // the payload failed validation: nothing was attempted
    | Rejected(conflict: Conflict)   // an insert broke the seat constraint: rolled back

  /**
   * Posting an order: validate the payload, then `save(user=request.user)`,
   * which runs `create` with the caller as owner. The payload's own `user`
   * is never read.
   */
  function PlaceOrder(db: Db, caller: User, now: int, payload: OrderPayload): (r: Result<Db, OrderError>)
    requires Consistent(db)
    ensures r.Ok? <==> payload.tickets != [] && RequestsValid(db.flights, payload.tickets)
                       && !HasClash(db.tickets, payload.tickets)
    ensures r.Ok? ==> Consistent(r.value)
    ensures r.Ok? ==> r.value.orders == db.orders + [Order(db.nextOrderId, now, caller.id)]
    ensures payload.tickets == [] ==> r == Err(Invalid(EmptyTickets))
  {
    match ValidateOrder(db.flights, payload.tickets)
    case Err(e) => Err(Invalid(e))
    case Ok(reqs) =>
      match Create(db, caller.id, now, reqs)
      case Err(e) => Err(Rejected(e))
      case Ok(db') => Ok(db')
  }

  /** `OrderViewSet.perform_create` on the store. */
  method PerformCreate(store: BookingStore, caller: User, now: int, payload: OrderPayload)
    returns (r: Result<Order, OrderError>)
    requires store.Valid()
    modifies store
    ensures store.Valid()
    ensures var p := PlaceOrder(old(store.State()), caller, now, payload);
            (r.Ok? <==> p.Ok?)
            && (p.Ok? ==> store.State() == p.value && r.value == Order(old(store.nextOrderId), now, caller.id))
            && (p.Err? ==> store.State() == old(store.State()) && r.error == p.error)
  {
    var v := ValidateOrder(store.flights, payload.tickets);
    if v.Err? {
      return Err(Invalid(v.error));
    }
    var c := store.CreateOrder(caller.id, now, v.value);
    if c.Err? {
      return Err(Rejected(c.error));
    }
    return Ok(c.value);
  }

  /** Two seats on one flight: one order owned by the caller, two tickets on that flight. */
  lemma TwoSeatOrderExample(db: Db, caller: User, now: int, flight: int)
    requires Consistent(db) && db.tickets == [] && flight in db.flights
    requires db.flights[flight].airplane.rows >= 1 && db.flights[flight].airplane.seatsInRow >= 2
    ensures var p := PlaceOrder(db, caller, now,
                                OrderPayload([TicketRequest(1, 1, flight), TicketRequest(1, 2, flight)], None));
            p.Ok? && |p.value.tickets| == 2
            && p.value.orders[|p.value.orders| - 1].user == caller.id
            && p.value.tickets[0].flight == flight && p.value.tickets[1].flight == flight
  {
    var reqs := [TicketRequest(1, 1, flight), TicketRequest(1, 2, flight)];
    assert !HasClash(db.tickets, reqs);
  }

  /** Booking an already taken seat again is refused and books nothing. */
  lemma DoubleBookingExample(db: Db, caller: User, now: int, flight: int)
    requires Consistent(db) && flight in db.flights
    requires db.flights[flight].airplane.rows >= 5 && db.flights[flight].airplane.seatsInRow >= 3
    requires (5, 3) in TakenPlaces(db.tickets, flight)
    ensures PlaceOrder(db, caller, now, OrderPayload([TicketRequest(5, 3, flight)], None)).Err?
  {
    var t :| t in db.tickets && t.flight == flight && (t.row, t.seat) == (5, 3);
    assert SeatTaken(db.tickets, TicketRequest(5, 3, flight));
  }
}
