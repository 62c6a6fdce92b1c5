# ticketza: a verified model of its cart, seat map, approval queue and seed script

ticketza is a South African event-ticketing demo. It has a React Native mobile
app, a Next.js web front end and a FastAPI back end. The repository has no
reservation engine. Its behaviour lives in four small places, and each one is
a Dafny module here:

- `Cart` (`cart.dfy`) models the mobile app's cart.
  - The cart is a map from event id to ticket count.
  - Two totals are derived from it, `cartTickets` and `cartTotal`.
  - The +/- stepper increments a count, or decrements it clamped at 0.
  - The cart screen lists the entries with a known event and a non-zero count.
  - Payment resets the cart.
  - Every update builds a new map, as the app's spread expressions do. The
    module is therefore functions and lemmas.
- `SeatMap` (`seatmap.dfy`) models the web seat map.
  - The grouping `reduce` is a method that pushes each seat onto a map of its
    row.
  - The row keys are sorted in string order.
  - Each row's seats are sorted in place by seat number, with an insertion
    sort on an `array`.
  - The seat colour is computed by the same step-by-step reassignment as the
    source.
  - A guard decides whether a click reaches `onSeatSelect`.
- `Admin` (`admin.dfy`) models the admin dashboard's approval queue.
  - Approve rewrites the status of the items with an id.
  - Reject filters those items out.
  - The queue shows the items still PENDING, and a badge counts them.
- `Seed` (`seed.dfy`) models the back end's `init_db` seeding script as a class
  `SeedDb`.
  - The class has one `seq` field per table. The row at position `i` has
    primary key `i + 1`, because rows are only appended.
  - The script adds an admin user, four venues and 100 seats per venue.
  - It then adds four events, and for each new event one EventSeat per seat of
    its venue. Rows A and B are priced at 500 rand and the other rows at 250.
    Every EventSeat starts AVAILABLE.
  - Every insertion is guarded by a lookup of the same name, title, email or
    venue id.
  - Each loop of the script is proved equal to a fold over its data
    (`VenuesAfter`, `SeatsAfter`, `EventsAfter`). `InitDb` is proved to turn
    the tables into `Script` of the old ones, a function built from those
    folds.
  - From `Script`, lemmas prove four things. The admin, every venue with
    seats and every event are present afterwards. A second run changes no
    table. Rows are only appended. On an empty database the script writes
    exactly 4 venues with ids 1 to 4, their 400 generated seats, 4 events and
    400 event seats, one block of `EventSeatsFor` per event.
  - The seat loops produce 5 rows of 20 seats (A1..A20, B1..B20, ...). The
    script's comment at `backend/initial_data.py:55` speaks of 10 rows of 10.
    The model follows the loops, and `VenueLayoutShape` states the 5 by 20
    shape.

## Model

| member | source | states |
|---|---|---|
| Cart.FindEvent | mobile/App.js:97 | `events.find` finds nothing exactly when no event has the id; otherwise it returns an event of the list that carries the id |
| Cart.FindEventFirst | mobile/App.js:97 | `find` returns the first event with the id |
| Cart.PriceOf | mobile/App.js:97-98 | 0 when no event has the id; otherwise the price of the first event that carries it, the one `find` returns |
| Cart.TotalRemove | mobile/App.js:96-99 | `cartTotal` is any one entry's price times count plus the total of the other entries |
| Cart.TotalUnknownEvent | mobile/App.js:97-98 | an entry whose event is not in the list adds nothing to `cartTotal`, whatever its count |
| Cart.SumValuesRemove | mobile/App.js:95-99 | the total of a map is any one entry plus the total of the rest, so it does not depend on the order of summation |
| Cart.SumValuesUpdate | mobile/App.js:95-99 | overwriting one entry changes the total by the difference between the new and old value |
| Cart.SumValuesNonNegative | mobile/App.js:95-99 | a map with no negative value has a non-negative total |
| Cart.SumValuesZero | mobile/App.js:95 | a map with no negative value sums to 0 exactly when every value is 0 |
| Cart.TicketsZero | mobile/App.js:95 | `cartTickets` of a cart without negative counts is 0 exactly when every count is 0 |
| Cart.EmptyMessageNoCards | mobile/App.js:269 | when the "cart is empty" case holds for a cart without negative counts, the cart screen has no card |
| Cart.EmptyCartTotals | mobile/App.js:95-99 | the initial empty cart has 0 tickets and total 0 |
| Cart.Increment | mobile/App.js:235 | the + button sets the event's count to its old count (0 if absent) plus 1 and keeps every other entry |
| Cart.Decrement | mobile/App.js:233 | the - button lowers a count of at least 1 by one, leaves 0 (or sets a negative count to 0) and keeps every other entry |
| Cart.CountSteps | mobile/App.js:233-235 | the stepper's count, 0 for an id without an entry, after + is one more; after - it is one fewer, but not below 0; every other event's count is unchanged |
| Cart.IncrementTickets | mobile/App.js:235 | + raises `cartTickets` by exactly 1 |
| Cart.DecrementTickets | mobile/App.js:233 | - lowers `cartTickets` by 1 when the count is at least 1, and leaves it unchanged at 0 |
| Cart.IncrementTotal | mobile/App.js:96-99 | + raises `cartTotal` by exactly the price `find` gives, which is 0 for an unknown event |
| Cart.IncrementKnownTotal | mobile/App.js:96-99 | for an event in the list, + raises `cartTotal` by that event's own price |
| Cart.IncrementThenDecrement | mobile/App.js:233-235 | + then - gives back every count; when the id had an entry, the cart is identical |
| Cart.ReplayNonNegative | mobile/App.js:77 | every cart reachable from `{}` by +, - and payment has no negative count, so neither `cartTickets` nor `cartTotal` is negative |
| Cart.MockPricesNonNegative | mobile/App.js:40-71 | the app's event list has no negative price |
| Cart.CartLinesSound | mobile/App.js:255-257 | every card of the cart screen shows an entry with a known event and a non-zero count, with that event and that count |
| Cart.CartLinesAscending | mobile/App.js:255 | cards come in strictly ascending id order, so no entry is shown twice |
| Cart.CartLinesComplete | mobile/App.js:255-257 | every entry with a known event and a non-zero count has a card |
| Cart.PaymentEmptiesCart | mobile/App.js:339 | after payment (`setCart({})`) every stepper shows 0, the cart screen is empty, `cartTickets` is 0 (the "cart is empty" case) and the total is 0 |
| SeatMap.GroupByRow | frontend/src/components/seatmap/SeatMap.tsx:25-29 | the accumulator has a key for exactly the rows present; each key holds that row's seats in input order; the first-met key list has no repeat and names the same rows |
| SeatMap.RowGroupAbsent | frontend/src/components/seatmap/SeatMap.tsx:26 | a row no seat has gets no seat, so the first seat of a row starts an empty group |
| SeatMap.RowGroupCount | frontend/src/components/seatmap/SeatMap.tsx:25-29 | each seat occurrence lands in the group of its own row, as often as it occurs, and in no other group |
| SeatMap.RowGroupInInputOrder | frontend/src/components/seatmap/SeatMap.tsx:26-27 | before sorting, the j-th seat of a group is the seat at the j-th input position of that row |
| SeatMap.ConcatCount | frontend/src/components/seatmap/SeatMap.tsx:25-29 | the groups of distinct keys together hold a seat as often as the input does when its row is among the keys, otherwise never |
| SeatMap.GroupsPartitionSeats | frontend/src/components/seatmap/SeatMap.tsx:25-29 | the groups of all rows together are a permutation of the input, so their sizes add up to the number of seats |
| SeatMap.LexIrreflexive | frontend/src/components/seatmap/SeatMap.tsx:31 | no key sorts before itself in the default string order |
| SeatMap.LexTransitive | frontend/src/components/seatmap/SeatMap.tsx:31 | the default string order is transitive |
| SeatMap.LexTotal | frontend/src/components/seatmap/SeatMap.tsx:31 | any two different keys are ordered one way or the other |
| SeatMap.InsertSorted | frontend/src/components/seatmap/SeatMap.tsx:31 | inserting a new key into a strictly ascending list keeps it strictly ascending |
| SeatMap.SortKeysMembers | frontend/src/components/seatmap/SeatMap.tsx:31 | `sort()` returns a permutation of the keys |
| SeatMap.SortKeysSorted | frontend/src/components/seatmap/SeatMap.tsx:31 | distinct keys come out strictly ascending |
| SeatMap.SortedRowKeys | frontend/src/components/seatmap/SeatMap.tsx:31 | the rendered row keys are exactly the rows present, strictly ascending and without repeats |
| SeatMap.InsertNext | frontend/src/components/seatmap/SeatMap.tsx:51 | one insertion pass extends the number-sorted prefix by one seat and permutes the array |
| SeatMap.SortRowByNumber | frontend/src/components/seatmap/SeatMap.tsx:51 | the in-place sort leaves the row ascending by `parseInt(number)` and a permutation of what it was |
| SeatMap.SortedRow | frontend/src/components/seatmap/SeatMap.tsx:51 | a row's group comes out sorted by number and as a permutation of the group |
| SeatMap.RenderRows | frontend/src/components/seatmap/SeatMap.tsx:41-51 | each key gets one row, in key order, holding exactly that row's seats sorted by number; all rows together are the keys' groups |
| SeatMap.Layout | frontend/src/components/seatmap/SeatMap.tsx:25-51 | rows strictly ascending by key, one for each row present and only those; each row is number-sorted and a permutation of its group; all rows together are a permutation of the input seats |
| SeatMap.CanClick | frontend/src/components/seatmap/SeatMap.tsx:67-69 | the guard holds exactly for AVAILABLE and SELECTED seats |
| SeatMap.Click | frontend/src/components/seatmap/SeatMap.tsx:69 | `onSeatSelect` receives the seat exactly when it is AVAILABLE or SELECTED, and nothing happens exactly when it is SOLD or LOCKED |
| SeatMap.RenderSeat | frontend/src/components/seatmap/SeatMap.tsx:52-69 | colour precedence: selected (`isSelected`, the seat's id is in `selectedSeats`) over locked over sold over the default; a seat reacts to hover, tap and click exactly when the click guard holds, whether or not it is selected |
| Admin.Approve | frontend/src/app/admin/dashboard/page.tsx:14-16 | same length and order; items with the id become APPROVED with every other field kept; all other items are unchanged |
| Admin.Reject | frontend/src/app/admin/dashboard/page.tsx:18-20 | the result is an order-preserving subsequence that keeps every item without the id as often as it occurs, and none with it |
| Admin.PendingView | frontend/src/app/admin/dashboard/page.tsx:73 | the queue is an order-preserving subsequence that holds each PENDING item as often as it occurs, and nothing else |
| Admin.ApproveIdempotent | frontend/src/app/admin/dashboard/page.tsx:15 | approving twice is approving once |
| Admin.RejectIdempotent | frontend/src/app/admin/dashboard/page.tsx:19 | rejecting twice is rejecting once |
| Admin.AbsentIdNoOp | frontend/src/app/admin/dashboard/page.tsx:14-20 | approving or rejecting an id no item has returns the list unchanged |
| Admin.AbsentRejectNoOp | frontend/src/app/admin/dashboard/page.tsx:19 | rejecting an id no item has returns the list unchanged |
| Admin.ApproveLeavesNoPending | frontend/src/app/admin/dashboard/page.tsx:15 | after approval the queue shows no item with that id |
| Admin.ApprovePendingCount | frontend/src/app/admin/dashboard/page.tsx:15 | approval lowers the badge by the number of pending items that had the id |
| Admin.RejectClearsPending | frontend/src/app/admin/dashboard/page.tsx:19 | after rejection the queue shows no item with that id, and the badge drops by the number of pending items that had it |
| Admin.PendingCountZero | frontend/src/app/admin/dashboard/page.tsx:65-70 | the badge is 0, and "All caught up" shows, exactly when no item is PENDING |
| Admin.PendingViewExact | frontend/src/app/admin/dashboard/page.tsx:73 | an item is in the queue exactly when it is in the list with status PENDING; the queue keeps list order |
| Seed.FirstIndex | backend/initial_data.py:41 | `.first()` finds nothing exactly when no row has the key; otherwise it returns the row with the key that was inserted first (the model's choice of order; see Left out) |
| Seed.FirstIndexAppend | backend/initial_data.py:106 | rows appended later do not change which row a lookup finds |
| Seed.CountSeatsOfZero | backend/initial_data.py:58-59 | a venue's seat count is 0 exactly when no seat carries its id |
| Seed.CountSeatsOfAppend | backend/initial_data.py:58 | a venue's seat count over two tables put together is the sum of its counts, so adding seats never lowers it |
| Seed.LayoutCount | backend/initial_data.py:58-69 | a generated layout gives its own venue 100 seats and every other venue none |
| Seed.ParseDecimalString | backend/initial_data.py:68 | reading back `str(n)` as a decimal number gives `n` |
| Seed.DecimalStringInjective | backend/initial_data.py:68 | different seat numbers are written as different strings |
| Seed.GenerateSeats | backend/initial_data.py:61-69 | the nested loops yield the row-major layout: seat k of row r at position 20r + k - 1 |
| Seed.VenueLayoutShape | backend/initial_data.py:55-69 | 100 seats per venue (5 rows of 20, not the comment's 10 by 10), each with the venue's id, section "Golden Circle", a row from A to E and a number from 1 to 20 |
| Seed.VenueLayoutDistinct | backend/initial_data.py:62-69 | no two seats of a venue share both row and number |
| Seed.SeatIdsOf | backend/initial_data.py:121 | the query returns ids of existing seats of that venue |
| Seed.SeatIdsOrderedComplete | backend/initial_data.py:121 | the query returns the venue's seat ids in insertion order (the model's choice of order; see Left out), and every seat of the venue is among them |
| Seed.SeatIdsCount | backend/initial_data.py:121 | `.all()` returns as many seats as `.count()` counts |
| Seed.EventSeatsForIds | backend/initial_data.py:121-131 | `EventSeatsFor` has one record per seat the query returns, in that order: the event's id, the seat's id, the price of the seat's row and AVAILABLE |
| Seed.EventSeatsForCount | backend/initial_data.py:121-131 | an event gets as many event seats as its venue has seats |
| Seed.LinkEventSeats | backend/initial_data.py:121-131 | the linking loop produces one event seat per venue seat, in order, priced by row and AVAILABLE |
| Seed.EventSeatsSound | backend/initial_data.py:123-131 | every event seat carries the event's id, status AVAILABLE, a seat of the venue and that seat's row price |
| Seed.EventSeatsNoRepeat | backend/initial_data.py:121-131 | no seat is linked to an event twice |
| Seed.EventSeatsCover | backend/initial_data.py:121-131 | every seat of the venue is linked to the event |
| Seed.LayoutPrice | backend/initial_data.py:125 | `RowPrice` on a generated layout: the first 40 seats (rows A and B) cost 500 and the rest 250 |
| Seed.FreshVenuePrices | backend/initial_data.py:57-131 | an event at a freshly seeded venue gets 100 event seats: 40 at 500 and 60 at 250 |
| Seed.SeedDb.EnsureAdmin | backend/initial_data.py:18-29 | the admin user is appended exactly when no user has its email; afterwards one has it, and `user.id` is the first such row's id; unique emails stay unique |
| Seed.SeedDb.EnsureVenue | backend/initial_data.py:41-52 | the venue is appended, owned by the given organizer (the admin in `init_db`), exactly when no venue has its name; the id returned is the first namesake's; unique names stay unique |
| Seed.SeedDb.SeedSeats | backend/initial_data.py:58-71 | a venue with no seat gets the generated layout appended; a venue with a seat gets nothing |
| Seed.SeedDb.EnsureEvent | backend/initial_data.py:105-133 | an event whose title exists changes nothing; otherwise the event is appended and linked to every seat of its venue; unique titles stay unique |
| Seed.SeedDb.EnsureVenues | backend/initial_data.py:39-53 | the venue loop leaves exactly `VenuesAfter` of the old table: each data entry without a namesake appended in order, with its fields and the organizer; `created_venues[k]` is the id of the k-th entry's venue |
| Seed.SeedDb.SeedAllSeats | backend/initial_data.py:57-71 | the seat loop leaves exactly `SeatsAfter` of the old table: old seats kept, and the generated layout appended for each created venue that had none |
| Seed.SeedDb.EnsureEvents | backend/initial_data.py:105-133 | the event loop leaves exactly `EventsAfter` of the old tables: each event without a namesake appended in order at its venue, followed by its `EventSeatsFor` block |
| Seed.SeedDb.SeedWith | backend/initial_data.py:13-133 | the script over any venue and event data turns the tables into `Script` of the old ones; afterwards admin, venues with seats and events are present; it changes no table when they already were |
| Seed.SeedDb.InitDb | backend/initial_data.py:13-133 | `init_db` with its own data turns the tables into `Script` of the old ones and seeds the database; re-running it on a seeded database changes no table |
| Seed.VenuesAfterNamed | backend/initial_data.py:40-53 | after the venue loop every data entry has a venue of its name |
| Seed.VenuesAfterNoop | backend/initial_data.py:41-42 | when every entry already has a namesake, the venue loop changes nothing |
| Seed.VenuesAfterUnique | backend/initial_data.py:41-50 | the venue loop creates no second venue with a taken name |
| Seed.SeatsAfterSeated | backend/initial_data.py:57-71 | after the seat loop every created venue has seats |
| Seed.SeatsAfterNoop | backend/initial_data.py:58-59 | when every created venue already has seats, the seat loop changes nothing |
| Seed.EventsAfterPresent | backend/initial_data.py:105-118 | after the event loop every title of the data has an event |
| Seed.EventsAfterNoop | backend/initial_data.py:106-107 | when every title is present, the event loop changes neither events nor event seats |
| Seed.EventsAfterUnique | backend/initial_data.py:106-116 | the event loop creates no second event with a taken title |
| Seed.ScriptSteps | backend/initial_data.py:13-133 | the four steps run one after the other, each leaving its fold, reach `Script` of the starting tables |
| Seed.ScriptSeeds | backend/initial_data.py:13-133 | after the script the admin, every venue of the data with seats and every event of the data are present |
| Seed.ScriptIdempotent | backend/initial_data.py:13-133 | on a seeded database the script changes no table |
| Seed.ScriptAppendOnly | backend/initial_data.py:13-133 | the script only appends rows, so every existing id keeps its row |
| Seed.ScriptKeepsKeysUnique | backend/initial_data.py:13-133 | the script creates no second user, venue or event with a taken email, name or title |
| Seed.VenuesAfterFresh | backend/initial_data.py:39-53 | venues with distinct, untaken names are all appended in data order |
| Seed.SeatsAfterFresh | backend/initial_data.py:57-71 | distinct venues without seats each get their layout, appended in order |
| Seed.EventsAfterFresh | backend/initial_data.py:105-133 | events with distinct, untaken titles are all appended in data order, and the event seats are their `EventSeatsFor` blocks one after the other |
| Seed.ScriptFresh | backend/initial_data.py:13-133 | on an empty database with distinct names and titles: one admin, the data's venues with ids 1 to n, 100 seats each, the data's events and 100 event seats per event |
| Seed.SeedDataUnique | backend/initial_data.py:32-103 | the script's venue names and event titles are distinct |
| Seed.FreshInitDb | backend/initial_data.py:13-133 | `init_db` on an empty database: one admin, four venues with ids 1 to 4, their 400 seats, four events at those venues and 400 event seats, one block of `EventSeatsFor` per event |

## Left out

- The seat reservation engine. `backend/app/api/v1/endpoints/seats.py:12-25` only returns constant dictionaries, so there is no behaviour to model.
- Rendering, styling, animation, navigation, `Alert` dialogs and the hard-coded dashboard statistics. They are presentation only.
- `Cart`: JavaScript object keys are strings.
  - The model keys the cart by integer ids. `parseInt` of a key therefore gives back the id.
  - Sums and cart cards follow ascending id order. JavaScript lists array-index keys (non-negative integers below 2^32 - 1, which covers every id of the app's event list) in that order; it would list negative ids after them, in insertion order, and the model does not capture that.
- `Cart`: prices and totals are integers. The app's JavaScript numbers are exact for these values, and floating point is not modelled.
- Cart.DecrementTickets: requires a non-negative count. Every cart the app can reach has one (`ReplayNonNegative`). A negative count would be reset to 0, which raises the ticket count.
- Cart.IncrementThenDecrement: requires a non-negative count, for the same reason. From a negative count, + then - gives 0.
- `SeatMap`: a seat's `number` is modelled as the natural number `parseInt` reads from it. It is not the digit string, and `NaN` from a non-numeric string is not modelled.
- `SeatMap`: the grouping accumulates into a plain `{}`. For a row named like an `Object.prototype` member (`"constructor"`, `"toString"`, `"__proto__"`), `acc[seat.row]` is already set, so `.push` throws a `TypeError` in the source. The model groups such a row like any other. The seat rows the back end generates are the letters A to E.
- `SeatMap`: row keys compare character by character as `seq<char>`. For keys outside the Basic Multilingual Plane this can differ from JavaScript's UTF-16 code-unit order.
- SeatMap.SortRowByNumber: stability is not stated. JavaScript's `sort` keeps seats with equal numbers in input order. The model states sortedness and permutation only.
- SeatMap.RenderSeat: the colour classes and motion props are abstracted to four styles and an `interactive` flag.
- `Seed`: the ORM is abstracted to appends on the table sequences. This covers `db.query`, `add`, `commit`, `refresh` and `create_all`, and ids are auto-incremented from 1.
- `Seed`: logging is not modelled.
- `Seed`: row order. None of the queries at `backend/initial_data.py:18`, `:41`, `:106` and `:121` has an `order_by`, and SQL promises no order for `.first()` or `.all()`. The model assumes insertion (primary-key) order. `FirstIndex` picks the earliest matching row, and `SeatIdsOf` lists seats in insertion order. The exact order of the event seats in `EventSeatsFor`, `ScriptFresh` and `FreshInitDb` rests on that choice. Which seats get linked, and at which price, does not.
- `Seed`: runs are sequential. "A second run changes no table" holds only for runs one after the other. `Venue.name` and `Event.title` have no unique constraint (`backend/app/models/all_models.py:18` and `:30`). Two concurrent runs could both pass the lookups at `backend/initial_data.py:41` and `:106`, and both insert.
- `Seed`: the event fields `description`, `date` and `image_url` are not modelled. They only feed the display, and `date` reads the clock.
- `Seed`: the password is stored as the script's fixed string. No hashing is modelled.
- `Seed`: prices are whole rands as integers, not the source's floats `500.0`/`250.0`.
- Seed.SeedDb.SeedWith: requires every event's venue index to be in range. With the script's own data this always holds. An out-of-range index would raise an `IndexError` in the source.
- `backend/app/api/v1/endpoints/tickets.py`, `events.py` and `api.py` are not part of this model. They are ORM wrappers, routing, random `uuid4` references and a QR-code call whose source is not shown.
