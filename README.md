# Airport booking core, modelled in Dafny

This project models the booking core of an airport REST backend (Django +
Django REST framework). It covers the parts of that backend that have exact
behaviour:

- The derived airplane `capacity` and crew `full_name`.
- The seat-range check `Ticket.validate_ticket` and the `(row, seat, flight)`
  uniqueness of the ticket table.
- Validation of an order payload: a non-empty ticket list, each ticket checked
  against its own flight's airplane, and a read-only owner.
- The atomic `OrderSerializer.create`. It writes one order and one ticket per
  request, or nothing at all.
- A flight's `taken_places`.
- The `get_queryset` filters of the country, airport, flight and order views,
  and the action-driven `get_serializer_class` choices.
- `OrderViewSet.perform_create`, which makes the caller the order's owner.

Files:

- `wrappers.dfy` defines `Option` and `Result`.
- `text.dfy` models Python's `str()` of an int (with a parse-back lemma) and
  ASCII `icontains`.
- `seqs.dfy` holds the order-preserving `Filter`, the subsequence relation
  and descending listing orders.
- `models.dfy` holds the entities, the range check, the seat grid and the
  consistency rules of the tables.
- `serializers.dfy` holds payload validation, `taken_places`, the `Create`
  specification and the `BookingStore` class whose `CreateOrder` method
  performs it.
- `views.dfy` holds the query filters, serializer selection and
  `PerformCreate`.

The tables are the abstract value `Db`. It has flights (reference data),
orders, tickets, and the next free primary keys. `Consistent(db)` is the
invariant the booking path keeps:

- seats are unique per flight;
- every ticket is in range on its own flight's airplane and belongs to an
  existing order;
- every order has at least one ticket;
- primary keys increase.

`BookingStore.CreateOrder` stages the inserts in a local sequence and writes
them only after every insert has passed the seat constraint. This is how the
model expresses `transaction.atomic()`: on failure the store is left exactly
as it was.

Two details of the code shape the model:

- Airplane `rows` and `seats_in_row` are plain `IntegerField`s with no
  positivity check (airport/models.py:45-46). When either is `<= 0`, every
  seat is refused (`Models.SeatMap`). When both are negative, `capacity`
  is positive although no seat can be booked
  (`Models.NegativeDimensionsExample`).
- `AirplaneSerializer` lists `"image"` among its writable fields
  (airport/serializers.py:63-71). The model records it as an ordinary
  field.

## Model

| member | source | states |
|---|---|---|
| `Models.FullName` | airport/models.py:63-65 | `full_name` is the first name, then one space, then the last name, and nothing else |
| `Models.FullNameSplits` | airport/models.py:63-65 | when the first name has no space, splitting `full_name` at its first space gives back the first and last names |
| `Models.Capacity` | airport/models.py:51-53 | `capacity` is zero iff a dimension is zero; it is non-negative for non-negative dimensions, positive when both are negative, and negative when exactly one is |
| `Models.CapacityCountsSeats` | airport/models.py:51-53 | when both dimensions are positive, `capacity` equals the number of (row, seat) pairs `validate_ticket` accepts; otherwise no pair is accepted, whatever `capacity` says |
| `Models.NegativeDimensionsExample` | airport/models.py:45-53 | an airplane with -2 rows and -3 seats per row has `capacity` 6, yet every ticket on it is refused |
| `Models.SeatMap` | airport/models.py:107-122 | a pair is in the seat map iff the range check accepts it; if `rows <= 0` or `seats_in_row <= 0`, the map is empty and every ticket is refused |
| `Models.RangeCheck` | airport/models.py:107-122 | accepts iff `1 <= row <= rows` and `1 <= seat <= seats_in_row`; the error is keyed on "row" exactly when the row is out of range, even if the seat is too; otherwise it is keyed on "seat" |
| `Models.ValidateTicket` | airport/models.py:107-122 | the loop over the (value, field, attribute) list returns exactly the range-check result; it only reads the airplane |
| `Models.RangeViolation.Message` | airport/models.py:117-120 | the message starts with the offending field's name followed by a space, and ends with ")" |
| `Models.RangeViolation.Detail` | airport/models.py:115-121 | the error payload is a one-entry map from the offending field to its message |
| `Models.MessageEndsWithCount` | airport/models.py:115-121 | the message ends in the airplane's count written in decimal, and that text parses back to the count |
| `Models.RowOutOfRangeExample` | airport/models.py:109-121 | row 101 on a 100-row airplane is refused on "row" for any seat, and the count is printed as "100" |
| `Serializers.ValidateTicketRequest` | airport/serializers.py:103-108 | a ticket passes iff its flight exists and the row and seat are in range on that flight's own airplane; an unknown flight is reported as such; any other refusal is exactly `validate_ticket`'s row-first error for that flight's airplane |
| `Serializers.ValidateOrder` | airport/serializers.py:149-150 | an empty ticket list is refused as empty; otherwise the payload passes iff every ticket passes, and a refusal lists each ticket's own error |
| `Serializers.TakenPlaces` | airport/serializers.py:120-130 | a place is listed iff some ticket of that flight has that row and seat |
| `Serializers.TakenPlacesDistinct` | airport/models.py:104-105 | because seats are unique, a flight's taken places contain no duplicates |
| `Serializers.FirstClashFrom` | airport/serializers.py:164-165 | finds the first request whose insert breaks the constraint, either against a stored ticket or against an earlier request of the same batch; no request before it clashes |
| `Serializers.NoFirstClashIffNoClash` | airport/models.py:104-105 | every insert succeeds iff no request hits a booked seat and no two requests of the batch are equal |
| `Serializers.CommitSeatsUnique` | airport/models.py:104-105 | appending a clash-free batch keeps `(row, seat, flight)` unique |
| `Serializers.CommitIdsBelow` | airport/serializers.py:163-165 | after a commit, order and ticket ids still increase and stay below the advanced counters |
| `Serializers.CommitTicketsFit` | airport/serializers.py:164-165 | every ticket after a commit, old or new, exists on a known flight and is in range on its airplane |
| `Serializers.CommitConsistent` | airport/serializers.py:160-166 | a committed order keeps every table invariant: unique seats, tickets in range and owned by an order, no empty order, increasing keys |
| `Serializers.Create` | airport/serializers.py:160-166 | succeeds iff the batch has no clash. On success there is exactly one new order, owned by the user, and one ticket per request in input order, each carrying that order and its request's row, seat and flight. Old rows are untouched and the invariant holds. On failure the error names a clashing request |
| `Serializers.CreateExtendsTakenPlaces` | airport/serializers.py:160-166 | after a successful create, a flight's taken places are the old ones followed by the batch's places on that flight, in the insertion order the model fixes |
| `Serializers.StageTickets` | airport/serializers.py:164-165 | the insert loop stops at the first clashing request and reports its index, which is `FirstClashFrom`'s answer; with no clash it yields one ticket per request, in order, with consecutive ids, all carrying the new order |
| `Serializers.BookingStore.CreateOrder` | airport/serializers.py:160-166 | the store method does exactly what `Create` specifies. On success the new tables are `Create`'s result. On a conflict the store is unchanged (rollback) |
| `Serializers.Fields` | airport/serializers.py:36-170 | every serializer's fields start with `id` and hold no duplicates; only the flight detail shape has `taken_places`, only the airplane shapes have `capacity`, and only the order shapes have `user` |
| `Serializers.Render` | airport/serializers.py:36-170 | a field is absent iff it is not in `Meta.fields`; slug fields show a `name` or a `full_name`; the row's own attributes are always rendered plainly |
| `Serializers.ReadOnly` | airport/serializers.py:36-170 | `id`, slug-rendered fields and the order's `user` are read-only; relation ids are writable; an order's `tickets` is writable in `OrderSerializer` and read-only in `OrderDetailSerializer` |
| `Views.CountryQuery` | airport/views.py:44-51 | no or an empty `name` returns every country; otherwise exactly the countries whose name contains it, ignoring case, in their original order |
| `Views.AirportQuery` | airport/views.py:69-79 | keeps exactly the airports matching every given filter (name, country name), in order; each empty filter is skipped |
| `Views.FlightQuery` | airport/views.py:135-146 | keeps exactly the flights with `departure_time > departure` and `arrival_time < arrival`, for whichever bounds are given, in order |
| `Views.OrderQuery` | airport/views.py:188-198 | a non-staff caller sees only its own orders. `user` narrows to one owner afterwards, so another user's id gives a non-staff caller nothing. Staff without `user` see all orders |
| `Views.FlightQueryKeepsOrder` | airport/models.py:80-81 | filtering flights keeps the default `-departure_time` listing order |
| `Views.OrderQueryKeepsOrder` | airport/models.py:94-95 | scoping orders keeps the default `-created_at` listing order |
| `Views.DepartureFilterExample` | airport/tests/test_flight_api.py:58-74 | with departure after 2024-09-01, the flights of 2024-09-25 and 2024-10-25 remain and the one of 2024-08-25 is dropped |
| `Views.RouteSerializerFor` | airport/views.py:101-106 | "retrieve" nests the airports, "list" shows their names, and every other action takes writable airport ids |
| `Views.AirplaneSerializerFor` | airport/views.py:119-122 | "list" and "retrieve" share the shape that shows the type's name; other actions take a writable type id; `capacity` is always present and read-only |
| `Views.FlightSerializerFor` | airport/views.py:148-153 | only "retrieve" includes `taken_places`, only "list" shows crew by full name, and only the other actions take writable airplane ids |
| `Views.OrderSerializerFor` | airport/views.py:183-186 | "retrieve" nests full ticket details; the other actions accept tickets; `user` is read-only in every shape |
| `Views.PlaceOrder` | airport/views.py:200-201 | posting an order succeeds iff the ticket list is non-empty, every ticket is valid and there is no clash. The new order is always owned by the caller, whatever `user` the payload carries. An empty list is refused as such |
| `Views.PerformCreate` | airport/views.py:200-201 | validating and then creating on the store gives exactly `PlaceOrder`'s outcome; a refused payload or conflict changes nothing |
| `Views.TwoSeatOrderExample` | airport/serializers.py:160-166 | ordering seats (1,1) and (1,2) on one flight with no tickets yet creates an order owned by the caller with two tickets on that flight |
| `Views.DoubleBookingExample` | airport/models.py:104-105 | asking for a seat that is already in the flight's taken places is refused |

## Left out

- HTTP routing, `ModelViewSet` dispatch, OpenAPI annotations and pagination
  rendering (`OrderPagination`, page size 10) are framework plumbing.
- The `IsAdminOrIfAuthenticatedReadOnly` permission class is left out. Its
  source, airport/permissions.py, is not part of this model. Only the caller's
  staff flag, which scopes orders, is modelled.
- Airplane image upload is left out. It is file-storage I/O, and the upload
  action is not part of airport/views.py.
- Concurrent bookings are modelled sequentially. The uniqueness check is part
  of the atomic step, while the real enforcement is the database's isolation
  and unique index.
- Django REST framework also derives a unique-together validator for
  `TicketSerializer`. It may refuse a seat that is already booked with a 400
  before `create` runs. The model reports every clash at insert time
  instead. In both cases nothing is written.
- Primary keys are modelled as per-table counters that advance only on
  commit. A database sequence may skip values after a rollback.
- Timestamps are integers, and `created_at` (`auto_now_add`) is a parameter.
  Parsing the `departure`/`arrival` strings and time zones are left out.
  A `user` parameter that is not an integer is also out of scope.
- Serializers.TakenPlaces: the listing order is the model's insertion order
  of the ticket table. `Ticket` declares no `Meta.ordering`
  (airport/models.py:104-105), so `flight.tickets` promises no order. Only
  the set of listed places is what the source promises.
- Serializers.CreateExtendsTakenPlaces: "the old places followed by the
  batch's places" relies on that insertion order. Without it, the statement
  is that the listed places grow by exactly the batch's places on that
  flight.
- `icontains` is modelled with ASCII lower-casing. Unicode case folding is
  left out.
- `__str__` methods, cascade deletes, the route's `distance`, crew membership
  of flights and the JSON rendering of nested serializers are left out.
  Serializers are modelled only as field lists and how each relation field
  is rendered.
- Creating orders or tickets outside the order endpoint (the admin or the ORM
  directly) is not modelled. The store's invariant holds for the booking path
  only.
