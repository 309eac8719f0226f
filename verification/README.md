# DataVet core logic in Dafny

This project models the sequential core of the DataVet veterinary clinic
system and proves properties of it. The system itself is a set of
micro-services. The model covers four of its parts:

- **Notification relay** (`notification-service/server.js`): stream events are
  normalised into display notifications. The relay keeps a newest-first log
  of at most 100 of them and fans each new one out to the open WebSocket
  clients. A new client gets a snapshot of the ten newest. A small REST
  interface lists, counts, creates and clears notifications.
  Module `Notifications` (`notifications.dfy`).
- **Appointment service** (`appointment-service/main.py`):
  - `HH:MM` clock times and end-time arithmetic (`TimeOfDay`,
    `time_of_day.dfy`) and the working-day slot generator (`Slots`,
    `slots.dfy`);
  - appointment creation with its double-booking rule, the partial-update
    merge and delete (`Appointments`, `appointments.dfy`);
  - the calendar endpoints: a vet's days, one day's free slots, and the
    "first five free slots per vet" search (`Calendar`, `calendar.dfy`).
- **Search service** (`search-service/app.py`): the in-memory index and its
  case-insensitive substring search, the query flags, the Solr `entity_id`
  mapping, event routing, and reindexing. Module `Search` (`search.dfy`).
- **Frontend helpers** (`frontend/public/js/app.js`): only the pure parts.
  These are arrow-key section navigation, the specialization label, the
  species leaderboard, the appointment order, the local search fallback and
  the available-vet filter. Module `Dashboard` (`dashboard.dfy`).

Shared building blocks:

- `Basics` (`basics.dfy`): `Option`, order-preserving `Filter` and `Map`, and
  the subsequence relation.
- `Text` (`text.dfy`): ASCII case folding, substring containment,
  `str.split`, and decimal digits.
- `Sorting` (`sorting.dfy`): a stable insertion sort by a comparator, proved
  to be a sorted permutation.

Conventions:

- Times of day are integers, counted in minutes since midnight.
- The database table and the in-memory stores are sequences in storage
  order.
- Anything the source gets from outside is a parameter. This covers
  identifiers (`uuidv4`, auto-increment keys), timestamps, "today", the
  weekday of a date, HTTP fetch results (`None` for a failed request) and
  Solr answers.
- JavaScript and Python falsiness of an optional string is `None` or `""`.

## Model

| member | source | states |
|---|---|---|
| TimeOfDay.ParseTime | appointment-service/main.py:219-220 | A parsed `HH:MM` string is a minute of the day (0 to 1439); anything else is the source's exception |
| TimeOfDay.ParseFormat | appointment-service/main.py:219-222 | Formatting a minute as `%H:%M` gives the canonical two-digit form, and parsing it gives the minute back |
| TimeOfDay.FormatParse | appointment-service/main.py:219-222 | Parsing then formatting a canonical `HH:MM` string is the identity |
| TimeOfDay.FormatInjective | appointment-service/main.py:222 | Two different minutes never print the same, so comparing printed slot times compares minutes |
| TimeOfDay.CalculateEndTime | appointment-service/main.py:217-222 | Defined exactly when the start parses; the end is (start + duration) mod 1440, printed canonically, because the day is discarded |
| TimeOfDay.EndTimeWraps | appointment-service/main.py:217-222 | `23:45` plus 30 minutes is `00:15` |
| Slots.GenerateTimeSlots | appointment-service/main.py:225-243 | The loop produces exactly the closed-form grid of whole slots between start and end |
| Slots.TimeSlotsShape | appointment-service/main.py:225-243 | Each slot spans the duration, the first starts at the start, each ends where the next begins, none runs past the end, one more would, and an end not after the start gives no slots |
| Slots.WorkingDayHasSixteenSlots | appointment-service/main.py:619-646 | `09:00` and `17:00` parse to 540 and 1020, giving 16 half-hour slots with the last ending at 17:00 |
| Appointments.CreateAppointment | appointment-service/main.py:360-422 | 409 exactly when a non-cancelled appointment has the same vet, date and start time. Otherwise one row is appended with the request's fields, vet 1 by default, end time as given or else start + 30 minutes wrapped to the time of day and written as canonical `HH:MM`, and status as given or `SCHEDULED`. An unparsable start needing an end time is the only other error |
| Appointments.CreateKeepsSlotsExclusive | appointment-service/main.py:366-374 | A successful create keeps the table free of two live appointments in one slot and keeps ids unique |
| Appointments.MergeIdempotent | appointment-service/main.py:434-455 | Applying the same update twice equals applying it once; an update with no fields changes nothing |
| Appointments.NullClearsOnlyNullable | appointment-service/main.py:436-455 | A `null` field leaves the seven non-nullable columns unchanged but clears notes, pet name and owner name |
| Appointments.FindById | appointment-service/main.py:430-432 | The first row with the id, or none exactly when no row has it |
| Appointments.UpdateAppointment | appointment-service/main.py:425-489 | 404 exactly when no row has the id; otherwise that row becomes its merge with the request, every other row is unchanged and all ids are kept |
| Appointments.DeleteAppointment | appointment-service/main.py:492-513 | 404 exactly when no row has the id; otherwise that row is removed and the rest keep their order, so with unique ids none with that id remains |
| Calendar.WorkdaySlots | appointment-service/main.py:646 | A working day has 16 slots, all within the day |
| Calendar.WorkdaySlotAt | appointment-service/main.py:646 | Slot k runs from 09:00 + 30k to 09:00 + 30(k+1) minutes |
| Calendar.LastBooking | appointment-service/main.py:649-656 | The time-keyed dict finds a booking exactly when the slot is taken; the booking is a live appointment of that vet, date and time, and no later matching row exists (last wins) |
| Calendar.SlotView | appointment-service/main.py:659-680 | The slot prints its start time and is available exactly when no live appointment holds that time. A booked slot names the last-wins booking's id, pet name and type, and ends at that appointment's end time when it has one, else at the slot end. A free slot ends at the slot end and names no booking |
| Calendar.BuildDay | appointment-service/main.py:628-690 | A weekend day has no slots and zero counts. A working day has 16 slots, total = booked + available, and booked is the number of unavailable slots |
| Calendar.BuildDaySlots | appointment-service/main.py:659-680 | Slot k of a working day starts at 09:00 + 30k and is unavailable exactly when a live appointment for the vet and date starts then |
| Calendar.VetCalendar | appointment-service/main.py:628-691 | One day per requested date, in order, each built as above |
| Calendar.GetAvailableSlots | appointment-service/main.py:702-741 | A slot is listed exactly when it is a working-day slot whose start no live appointment holds; the list keeps generation order and its length is reported |
| Calendar.BookedPlusFree | appointment-service/main.py:681-690 | Booked slots plus free slots make up the whole grid |
| Calendar.AvailableCountAgrees | appointment-service/main.py:734-739 | The free-slot endpoint's total equals the calendar's available count for a working day |
| Calendar.AvailableSlotsAgree | appointment-service/main.py:726-732 | Slot k is available in the calendar exactly when it is among the free slots |
| Calendar.CandidateVets | appointment-service/main.py:756 | No vet id, or vet 0, means vets 1 to 6; any other id means only that vet |
| Calendar.ScanVets | appointment-service/main.py:760-780 | One entry per vet with a free slot, in vet order, each with the first five free slots and the full free count |
| Calendar.VetEntryShape | appointment-service/main.py:773-780 | An entry lists the first min(5, n) of the vet's n free slots, and the free-slot endpoint's total, which is non-zero exactly when the vet has a free slot, and then at least one slot is listed |
| Calendar.SearchAvailable | appointment-service/main.py:744-788 | The date falls back to today and the type is echoed; a vet is listed exactly when it is a candidate with a free slot; each entry has at most 5 slots and a positive total. The results are exactly the scan of the candidate vets, in order, each with its first free slots and its full count |
| Notifications.ProcessEvent | notification-service/server.js:77-160 | Every event yields one notification carrying the event in `data`. `*_CREATED` gives `success`, `*_DELETED` gives `warning`, everything else gives `info`. Each of the six known types has its own icon and title (`🐾` "New Pet Registered" through `❌` "Appointment Cancelled"), an unknown type is the `📢` "System Event", and the message is that type's template |
| Notifications.TitleDeterminesKind | notification-service/server.js:80-158 | No two branches share a title, so the title identifies the branch |
| Notifications.Consume | notification-service/server.js:52-61 | An undecodable message changes nothing. A decoded one is always published, stored at the head and sent to every open client, because the guard never fails, and the log stays within capacity |
| Notifications.AddNotification | notification-service/server.js:162-167 | The new notification is first. Below capacity nothing is dropped; at capacity exactly the oldest goes and the rest keep their order; the log never exceeds 100 |
| Notifications.AddKeepsNewest | notification-service/server.js:162-167 | Adding is "prepend, keep the newest 100" |
| Notifications.AddAllKeepsNewest | notification-service/server.js:162-167 | Any run of additions leaves the newest 100 of everything seen, newest first |
| Notifications.AddAllBounded | notification-service/server.js:24 | No sequence of additions grows the log past 100 |
| Notifications.RecencyOrder | notification-service/server.js:163 | Up to 100 additions to an empty log come back newest first, none dropped |
| Notifications.EvictsOldest | notification-service/server.js:164-166 | The 101st addition evicts exactly the first notification added |
| Notifications.Broadcast | notification-service/server.js:169-176 | Each open client receives the notification once; closed clients receive nothing; no client is added or removed |
| Notifications.Publish | notification-service/server.js:59-60 | A new notification is stored and then broadcast |
| Notifications.Connect | notification-service/server.js:288-296 | The client joins the live set and its first message is the snapshot; the log and other clients are unchanged |
| Notifications.Snapshot | notification-service/server.js:293-296 | The snapshot is the first min(10, size) entries of the log |
| Notifications.SnapshotIsNewestTen | notification-service/server.js:293-296 | After 10 to 100 additions the snapshot is exactly the ten newest, newest first |
| Notifications.Disconnect | notification-service/server.js:298-306 | On close or error the client leaves the live set; the log and other clients are unchanged |
| Notifications.DisconnectIdempotent | notification-service/server.js:298-306 | A second close or error changes nothing more |
| Notifications.FanOutInOrder | notification-service/server.js:169-176 | A client that connects and stays open sees the snapshot, then each later notification exactly once, in broadcast order |
| Notifications.EffectiveLimit | notification-service/server.js:192 | A missing, non-numeric or zero limit becomes 50; any other number is kept |
| Notifications.SlicePrefix | notification-service/server.js:193 | `slice(0, end)` is a prefix of length min(end, size), and a negative end drops that many entries from the back |
| Notifications.ListNotifications | notification-service/server.js:191-194 | The list is a prefix of the log; its length is min(limit, size) with the default 50, or size − k for a limit of −k |
| Notifications.Count | notification-service/server.js:196-198 | The count equals the log's length, so at most 100 |
| Notifications.PostNotification | notification-service/server.js:200-220 | 400 exactly when the title or message is missing or empty, leaving everything unchanged. Otherwise the kind defaults to `info` and the icon to `📢`, and the notification is stored at the head and broadcast |
| Notifications.Clear | notification-service/server.js:222-225 | Afterwards the count is 0 and every list is empty; clients stay |
| Notifications.Startup | notification-service/server.js:270-279 | On whatever log and clients exist when the server starts listening, the "Service Started" success notification is stored at the head, the oldest entry is dropped at capacity, and nothing is broadcast: the clients are unchanged. On an empty log the count is 1 |
| Search.RenderingsAgreeWithoutNull | search-service/app.py:241 | With no `null` field the written and corrected searchable texts are equal |
| Search.NullNotesMatchNone | search-service/app.py:247 | As written, every appointment with `null` notes matches the query "none" |
| Search.NullNotesCounterexample | search-service/app.py:247 | A checkup on 2024-01-15 with `null` notes matches "none" as written but not once `null` renders as nothing |
| Search.CorrectedIgnoresNull | search-service/app.py:247 | With `null` rendered as nothing, an all-`null` appointment does not match "none" |
| Search.InMemorySearch | search-service/app.py:234-251 | A pet or appointment is found exactly when its category is enabled and the lower-cased query occurs in its lower-cased searchable text; results keep index order and every copy of a found record |
| Search.InMemorySearchAsWritten | search-service/app.py:234-251 | The search as written, with `null` printed as `None`: a record is found exactly when its category is enabled and the query occurs in that text; results keep index order and every copy of a found record |
| Search.SearchAgreesWithoutNull | search-service/app.py:234-251 | On an index with no `null` field the corrected and the written search return the same results |
| Search.PerformInMemorySearch | search-service/app.py:234-251 | The loops return exactly the closed-form search results |
| Search.NarrowerQueryFewerResults | search-service/app.py:237-249 | Whatever matches a query also matches any substring of it |
| Search.ParseFlag | search-service/app.py:280-281 | An absent flag is true; a present one is true exactly when its lower-cased value is "true", so it has four letters |
| Search.ParseFlagIgnoresCase | search-service/app.py:280-281 | The flag ignores case: "True" and "TRUE" enable, "", "1" and "yes" do not |
| Search.NormaliseEntity | search-service/app.py:296-300 | A scalar id is kept, a list stands for its first element, and an empty list for `None` |
| Search.CollectIds | search-service/app.py:294-300 | The id set holds exactly the normalised ids of the returned documents |
| Search.SelectByIds | search-service/app.py:301 | Exactly the index entries whose id is in the set, in index order, each as many times as in the index |
| Search.SolrSelect | search-service/app.py:290-313 | A disabled category or an empty or failed Solr answer gives no results; otherwise exactly the entries whose id some document names, in index order, each as many times as in the index |
| Search.SolrCategory | search-service/app.py:290-313 | The id-collecting loop and filter compute exactly the Solr selection |
| Search.SearchEndpoint | search-service/app.py:270-319 | An empty query gives the no-query answer; without Solr the answer is the in-memory search with the parsed flags; with Solr each category is the Solr selection with its parsed flag, with no fallback; results are in index order and a disabled category is empty |
| Search.SearchPets | search-service/app.py:322-330 | An empty query gives nothing; otherwise exactly the matching pets, in index order, with every copy kept |
| Search.SearchAppointments | search-service/app.py:333-341 | An empty query gives nothing; otherwise exactly the matching appointments, in index order, with every copy kept |
| Search.Route | search-service/app.py:154-159 | A topic containing "pet" in any case resyncs pets; otherwise one containing "appointment" resyncs appointments; otherwise nothing |
| Search.PetTopicsRouted | search-service/app.py:154-156 | A topic beginning with "pet" in any case goes to the pet resync |
| Search.SyncPets | search-service/app.py:168-197 | A successful fetch replaces the pet list and reports success; a failed one changes nothing; appointments are untouched |
| Search.SyncAppointments | search-service/app.py:200-231 | A successful fetch replaces the appointment list and reports success; a failed one changes nothing; pets are untouched |
| Search.ProcessEvent | search-service/app.py:151-161 | A pet topic resynchronises the pets and an appointment topic the appointments, each exactly as the sync does; the other list is unchanged and an unrouted topic changes nothing |
| Search.Reindex | search-service/app.py:344-355 | Success exactly when at least one fetch succeeded; each fetched list replaces the indexed one and a failed fetch keeps its list; the counts are those of the index afterwards |
| Search.ReindexIdempotent | search-service/app.py:347-348 | Reindexing twice with the same answers leaves the index as once |
| Dashboard.NavTarget | frontend/public/js/app.js:86-89 | ArrowRight moves forward exactly when not on the last section, ArrowLeft moves back exactly when not on the first, other keys do nothing; the target is a section |
| Dashboard.Step | frontend/public/js/app.js:82-89 | A key press keeps the active index within −1..5 |
| Dashboard.Presses | frontend/public/js/app.js:82-89 | Any run of presses stays within the sections; once a section is showing one always is, and an opening ArrowRight shows one |
| Dashboard.NavRoundTrip | frontend/public/js/app.js:86-89 | Right then left, or left then right, returns to the same section where the first move is possible |
| Dashboard.RightReachesLast | frontend/public/js/app.js:86-87 | Enough ArrowRight presses reach the last section and further ones stay there |
| Dashboard.FormatSpecialization | frontend/public/js/app.js:411-414 | A falsy value gives "General Practice". Otherwise the length is kept, no `_` remains, and each character is the underscore-free one, upper-cased exactly at a word start |
| Dashboard.FormatIdempotent | frontend/public/js/app.js:411-414 | Formatting a formatted label changes nothing |
| Dashboard.SpeciesKey | frontend/public/js/app.js:146 | A falsy species counts as "UNKNOWN"; any other is kept |
| Dashboard.CountSpeciesCorrect | frontend/public/js/app.js:144-148 | The tally lists each species once with its number of occurrences, includes every species and sums to the number of pets |
| Dashboard.LeaderboardCounts | frontend/public/js/app.js:144-148 | The counts add up to the number of pets, and a pet without a species puts "UNKNOWN" in the tally |
| Dashboard.ByCountIsPreorder | frontend/public/js/app.js:151 | The count comparator is a consistent total preorder |
| Dashboard.Leaderboard | frontend/public/js/app.js:150-152 | At most three entries: min(3, number of species) |
| Dashboard.LeaderboardIsSortedPrefix | frontend/public/js/app.js:150-152 | The leaderboard is the head of a permutation of the tally sorted by count |
| Dashboard.SortedHeadIsTop | frontend/public/js/app.js:150-152 | The first n of a tally sorted by count are in non-increasing order, come from the tally, and none left out has a larger count |
| Dashboard.HeadIsTop | frontend/public/js/app.js:150-152 | For any permutation of a tally ordered by count, the first n are in non-increasing order, come from the tally, and none left out has a larger count |
| Dashboard.LeaderboardIsTop | frontend/public/js/app.js:150-152 | The leaderboard is a true top three: ordered by count, drawn from the tally, and no omitted species outranks a shown one |
| Dashboard.ByDateTimeIsPreorder | frontend/public/js/app.js:649-653 | The date-then-time comparator is a consistent total preorder |
| Dashboard.SortAppointments | frontend/public/js/app.js:649-653 | The sorted list is a permutation of the appointments, ordered by date and, on one date, by time |
| Dashboard.LocalSearch | frontend/public/js/app.js:851-872 | A pet is found exactly when the lower-cased query is in one of its four lower-cased fields; an appointment likewise for type, notes and pet name, or the typed query in its date; list order and every copy kept |
| Dashboard.LocalPetMatchImpliesService | frontend/public/js/app.js:857-862 | Every pet the local fallback finds is also found by the search service's in-memory search |
| Dashboard.AvailableVets | frontend/public/js/app.js:118 | Exactly the vets not marked `available: false`, in order; shown and hidden vets together are the whole list |
| Sorting.SortCorrect | frontend/public/js/app.js:649-653 | Sorting by a consistent comparator returns a permutation of the input ordered by it |

## Left out

- Transport is left out: Kafka producers and consumers, the WebSocket server, Solr HTTP calls, `requests` fetches and the SQL database. A fetch or Solr answer is a parameter, and a table is a sequence.
- Solr document construction and `index_to_solr` are left out. They only write to Solr, and the search model keeps just the id mapping of the answers.
- The pet service and `frontend/server.js` are not part of this model. They forward to a persistence library and hold no logic of their own.
- The read-only appointment endpoints (list, get, by pet, by vet, by date) are left out. They are plain database queries.
- Identifiers, timestamps, "today", `strptime` and weekday computation are left out. They are parameters: the calendar takes each date with its weekday.
- The `startDate`/`endDate` arithmetic of `get_vet_calendar` is left out, because it is date arithmetic on the calendar.
- Case folding is ASCII only. Python `lower()` and JavaScript `toLowerCase()` also fold non-ASCII letters.
- `localeCompare` is read as code-point order. Locale collation is not modelled.
- TimeOfDay.ParseTime: accepts only ASCII-digit fields. Python `int()` also takes surrounding whitespace, a sign and digit underscores, so some inputs the source accepts are errors here.
- Notifications.ProcessEvent: message text is kept opaque, as "the template of this kind applied to this event". The interpolated prose is not modelled. The `topic` argument is not used by the source either.
- Notifications.Consume: a message that fails to parse, or that parses to `null`, is modelled as "undecodable" and is dropped, which is what the catch block does. The same catch also drops a message whose template throws while it is interpolated (a field whose `toString` is not callable). The model publishes such an event, because the templates are kept opaque.
- Search.SyncPets: treats the fetch as all-or-nothing. As written, an exception after the index is replaced (for example a pet without an `id` while Solr is enabled) updates the index but reports failure.
- Search.SyncAppointments: the same all-or-nothing reading as Search.SyncPets.
- Calendar.LastBooking: "last wins" refers to the row order of the sequence. The database's own result order is not specified.
- Dashboard.CountSpeciesCorrect: states the counts but not the first-seen key order, and not JavaScript's reordering of integer-like object keys. The tally is a plain object, so a species named like an inherited member (`constructor`, `toString`, `__proto__`) would read or write that member. The model counts it like any other name.
- Dashboard.SortAppointments: states a sorted permutation but not the order among equal date and time, which the model's sort keeps stable.
- Dashboard.LocalSearch: takes each appointment's date as present. The sort in the same file already requires it.
- Dashboard.Leaderboard: ties in count follow the model's stable sort. JavaScript's own sort is stable too, but `Object.entries` order is not modelled.
- The dashboard's "today" counter, DOM rendering, toasts and `fetch` calls are left out. They are display and I/O.
- Search.InMemorySearch: uses the corrected rendering of `null` (see Findings). Search.InMemorySearchAsWritten is the search as written, and Search.SearchAgreesWithoutNull shows the two agree when no field is `null`.
- Search.PerformInMemorySearch: computes the corrected search, Search.InMemorySearch, not the search as written.
- Search.SearchEndpoint: its in-memory answer is the corrected search, Search.InMemorySearch, not the search as written.
- Search.SearchPets: matches with the corrected rendering of `null`, not the written one.
- Search.SearchAppointments: matches with the corrected rendering of `null`, not the written one.
- Slots.GenerateTimeSlots: takes the start and end times on one date. The source reads the clock twice, and if the two reads fall on either side of midnight the end lands on the next day and 64 slots come out. The model does not cover that case.
- Calendar.WorkdaySlots: the 16 slots assume the same-date reading of the clock described for Slots.GenerateTimeSlots.
- Calendar.BuildDay: its 16 slots assume the same-date reading of the clock described for Slots.GenerateTimeSlots.
- The search service's background thread and its race on the index are left out, because they are concurrency.

## Findings

| source | as written | input that shows it | evidently intended | confidence | as-written member | corrected member |
|---|---|---|---|---|---|---|
| search-service/app.py:247 | The searchable text uses `appt.get('notes', '')` inside an f-string, so a JSON `null` value is printed as `None` | An appointment `{appointmentType: "Checkup", date: "2024-01-15", notes: null}` with the query "none" is returned | A `null` field contributes nothing to the searchable text, like a missing key | not executed | Search.NullNotesCounterexample | Search.CorrectedIgnoresNull |

The same rendering affects the pet text at search-service/app.py:241, for
example a pet whose breed is `null`. `Search.AppointmentMatchesAsWritten`
and `Search.PetMatchesAsWritten` model the code as written.
`Search.AppointmentMatches` and `Search.PetMatches` are the corrected
predicates, and the rest of the model uses them.
`Search.RenderingsAgreeWithoutNull` shows that the two agree whenever no
field is `null`. `Search.InMemorySearchAsWritten` is the whole search as
written, and `Search.SearchAgreesWithoutNull` lifts the agreement to it.
