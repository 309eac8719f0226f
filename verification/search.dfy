/** The search service (search-service/app.py): the in-memory index of pets
    and appointments as fetched from the other services, case-insensitive
    substring search over it, the query-flag handling and Solr id mapping of
    `/api/search`, event routing and reindexing. Fetch results and Solr
    responses are parameters (`None` for a failed request). */
module Search {
  import opened Basics
  import opened Text

  /** A JSON scalar as decoded by `response.json()`. */
  datatype Value = Null | Str(s: string) | Num(n: int)

  /** A JSON object of the index. */
  type Record = map<string, Value>

  datatype Index = Index(pets: seq<Record>, appointments: seq<Record>)

  datatype Results = Results(pets: seq<Record>, appointments: seq<Record>)

  const NoResults := Results([], [])

  // ---------------------------------------------------------------------
  // Searchable text
  // ---------------------------------------------------------------------

  /** How an f-string prints a JSON value, as written: Python's `str`,
      which spells `null` as `None`. */
  function RenderAsWritten(v: Value): string {
    match v
    case Null => "None"
    case Str(s) => s
    case Num(n) => IntToString(n)
  }

  /** The rendering the `get(key, '')` defaults are evidently after: a
      `null` contributes nothing, like an absent key. */
  function Render(v: Value): string {
    match v
    case Null => ""
    case Str(s) => s
    case Num(n) => IntToString(n)
  }

  /** `rec.get(key, '')` rendered as written. */
  function FieldAsWritten(rec: Record, key: string): string {
    if key in rec then RenderAsWritten(rec[key]) else ""
  }

  function Field(rec: Record, key: string): string {
    if key in rec then Render(rec[key]) else ""
  }

  function PetTextAsWritten(p: Record): string {
    FieldAsWritten(p, "name") + " " + FieldAsWritten(p, "species") + " "
      + FieldAsWritten(p, "breed") + " " + FieldAsWritten(p, "ownerName")
  }

  function AppointmentTextAsWritten(a: Record): string {
    FieldAsWritten(a, "appointmentType") + " " + FieldAsWritten(a, "date") + " " + FieldAsWritten(a, "notes")
  }

  /** The searchable text of a pet: name, species, breed and owner,
      separated by single spaces. */
  function PetText(p: Record): string {
    Field(p, "name") + " " + Field(p, "species") + " " + Field(p, "breed") + " " + Field(p, "ownerName")
  }

  /** The searchable text of an appointment: type, date and notes. */
  function AppointmentText(a: Record): string {
    Field(a, "appointmentType") + " " + Field(a, "date") + " " + Field(a, "notes")
  }

  /** `query.lower() in text.lower()`. */
  predicate Matches(query: string, text: string) {
    Contains(Lower(text), Lower(query))
  }

  predicate PetMatchesAsWritten(query: string, p: Record) {
    Matches(query, PetTextAsWritten(p))
  }

  predicate AppointmentMatchesAsWritten(query: string, a: Record) {
    Matches(query, AppointmentTextAsWritten(a))
  }

  predicate PetMatches(query: string, p: Record) {
    Matches(query, PetText(p))
  }

  predicate AppointmentMatches(query: string, a: Record) {
    Matches(query, AppointmentText(a))
  }

  /** Where no field is `null` the two renderings agree, so the correction
      changes nothing for such records. */
  lemma RenderingsAgreeWithoutNull(p: Record, a: Record)
    requires forall k :: k in p ==> p[k] != Null
    requires forall k :: k in a ==> a[k] != Null
    ensures PetText(p) == PetTextAsWritten(p)
    ensures AppointmentText(a) == AppointmentTextAsWritten(a)
  {
  }

  /** As written, every appointment whose notes are `null` matches the
      query "none" (and "no", "one", ...), whatever its other fields say. */
  lemma NullNotesMatchNone(a: Record)
    requires "notes" in a && a["notes"] == Null
    ensures AppointmentMatchesAsWritten("none", a)
  {
    var pre := FieldAsWritten(a, "appointmentType") + " " + FieldAsWritten(a, "date") + " ";
    assert AppointmentTextAsWritten(a) == pre + "None";
    LowerNoCapitals("none");
    LowerAppend(pre, "None");
    assert Lower("None") == "none";
    var written := Lower(pre) + "none";
    assert written[|pre|..|pre| + 4] == "none";
    assert OccursAt(written, "none", |pre|);
  }

  /** Text without an `n` of either case never matches "none". */
  lemma NoLetterN(text: string)
    requires 'n' !in text && 'N' !in text
    ensures !Matches("none", text)
  {
    LowerNoCapitals("none");
    assert 'n' !in Lower(text) by {
      forall i | 0 <= i < |text|
        ensures Lower(text)[i] != 'n'
      {
        assert text[i] != 'n' && text[i] != 'N';
      }
    }
    FirstCharAbsent(Lower(text), "none");
  }

  /** A checkup on 2024-01-15 whose notes are `null`. */
  predicate IsNullNotesCheckup(a: Record) {
    && a.Keys == {"appointmentType", "date", "notes"}
    && a["appointmentType"] == Str("Checkup") && a["date"] == Str("2024-01-15") && a["notes"] == Null
  }

  lemma NullNotesCheckupMissesNone(a: Record)
    requires IsNullNotesCheckup(a)
    ensures !AppointmentMatches("none", a)
  {
    var text := AppointmentText(a);
    assert text == "Checkup" + " " + "2024-01-15" + " " + "";
    NoLetterNInCheckup(text);
    NoLetterN(text);
  }

  lemma NoLetterNInCheckup(text: string)
    requires text == "Checkup" + " " + "2024-01-15" + " " + ""
    ensures 'n' !in text && 'N' !in text
  {
    assert text == "Checkup 2024-01-15 ";
  }

  /** Such a checkup is found by "none" as written, and not once `null`
      renders as nothing. */
  lemma NullNotesCounterexample(a: Record)
    requires IsNullNotesCheckup(a)
    ensures AppointmentMatchesAsWritten("none", a) && !AppointmentMatches("none", a)
  {
    NullNotesCheckupMissesNone(a);
    NullNotesMatchNone(a);
  }

  /** Corrected, a record matches "none" only through a field that really
      holds those letters. */
  lemma CorrectedIgnoresNull(a: Record)
    requires forall k :: k in a ==> a[k] == Null
    ensures !AppointmentMatches("none", a)
  {
    assert AppointmentText(a) == "  ";
    NoLetterN("  ");
  }

  // ---------------------------------------------------------------------
  // In-memory search
  // ---------------------------------------------------------------------

  /** The closed form of `perform_in_memory_search`. */
  function InMemorySearch(index: Index, query: string, searchPets: bool, searchAppointments: bool): (r: Results)
    ensures forall p :: p in r.pets <==> searchPets && p in index.pets && PetMatches(query, p)
    ensures forall a :: a in r.appointments <==>
              searchAppointments && a in index.appointments && AppointmentMatches(query, a)
    ensures SubsequenceOf(r.pets, index.pets) && SubsequenceOf(r.appointments, index.appointments)
    ensures forall p :: multiset(r.pets)[p] ==
              if searchPets && PetMatches(query, p) then multiset(index.pets)[p] else 0
    ensures forall a :: multiset(r.appointments)[a] ==
              if searchAppointments && AppointmentMatches(query, a) then multiset(index.appointments)[a] else 0
  {
    Results(FilterWhen(index.pets, searchPets, p => PetMatches(query, p)),
            FilterWhen(index.appointments, searchAppointments, a => AppointmentMatches(query, a)))
  }

  /** The in-memory search exactly as written, `null` printed as `None`. */
  function InMemorySearchAsWritten(index: Index, query: string, searchPets: bool, searchAppointments: bool): (r: Results)
    ensures forall p :: p in r.pets <==> searchPets && p in index.pets && PetMatchesAsWritten(query, p)
    ensures forall a :: a in r.appointments <==>
              searchAppointments && a in index.appointments && AppointmentMatchesAsWritten(query, a)
    ensures SubsequenceOf(r.pets, index.pets) && SubsequenceOf(r.appointments, index.appointments)
    ensures forall p :: multiset(r.pets)[p] ==
              if searchPets && PetMatchesAsWritten(query, p) then multiset(index.pets)[p] else 0
    ensures forall a :: multiset(r.appointments)[a] ==
              if searchAppointments && AppointmentMatchesAsWritten(query, a)
              then multiset(index.appointments)[a] else 0
  {
    Results(FilterWhen(index.pets, searchPets, p => PetMatchesAsWritten(query, p)),
            FilterWhen(index.appointments, searchAppointments, a => AppointmentMatchesAsWritten(query, a)))
  }

  /** No field of any indexed record is `null`. */
  predicate NullFree(index: Index) {
    && (forall p, k :: p in index.pets && k in p ==> p[k] != Null)
    && (forall a, k :: a in index.appointments && k in a ==> a[k] != Null)
  }

  /** The corrected search returns exactly what the program returns on any
      index without `null` fields: the two differ only through the
      rendering of `null`. */
  lemma SearchAgreesWithoutNull(index: Index, query: string, searchPets: bool, searchAppointments: bool)
    requires NullFree(index)
    ensures InMemorySearch(index, query, searchPets, searchAppointments)
            == InMemorySearchAsWritten(index, query, searchPets, searchAppointments)
  {
    forall p | p in index.pets
      ensures PetMatches(query, p) == PetMatchesAsWritten(query, p)
    {
      RenderingsAgreeWithoutNull(p, map[]);
    }
    forall a | a in index.appointments
      ensures AppointmentMatches(query, a) == AppointmentMatchesAsWritten(query, a)
    {
      RenderingsAgreeWithoutNull(map[], a);
    }
    FilterCongruent(index.pets, p => PetMatches(query, p), p => PetMatchesAsWritten(query, p));
    FilterCongruent(index.appointments, a => AppointmentMatches(query, a),
                    a => AppointmentMatchesAsWritten(query, a));
  }

  /** `perform_in_memory_search`: one pass over each enabled category,
      keeping the matching records in index order. */
  method PerformInMemorySearch(index: Index, query: string, searchPets: bool, searchAppointments: bool)
    returns (r: Results)
    ensures r == InMemorySearch(index, query, searchPets, searchAppointments)
  {
    var pets: seq<Record> := [];
    if searchPets {
      pets := FilterInOrder(index.pets, p => PetMatches(query, p));
    }
    var appts: seq<Record> := [];
    if searchAppointments {
      appts := FilterInOrder(index.appointments, a => AppointmentMatches(query, a));
    }
    r := Results(pets, appts);
  }

  /** Searching is monotone in the query: whatever matches a longer query
      also matches any piece of it. */
  lemma NarrowerQueryFewerResults(index: Index, query: string, sub: string, flagsP: bool, flagsA: bool)
    requires Contains(query, sub)
    ensures forall p :: p in InMemorySearch(index, query, flagsP, flagsA).pets ==>
              p in InMemorySearch(index, sub, flagsP, flagsA).pets
    ensures forall a :: a in InMemorySearch(index, query, flagsP, flagsA).appointments ==>
              a in InMemorySearch(index, sub, flagsP, flagsA).appointments
  {
    LowerContains(query, sub);
    forall t: string | Contains(Lower(t), Lower(query))
      ensures Contains(Lower(t), Lower(sub))
    {
      ContainsTransitive(Lower(t), Lower(query), Lower(sub));
    }
  }

  lemma LowerContains(s: string, sub: string)
    requires Contains(s, sub)
    ensures Contains(Lower(s), Lower(sub))
  {
    var i :| 0 <= i <= |s| - |sub| && OccursAt(s, sub, i);
    assert Lower(s)[i..i + |sub|] == Lower(sub);
    assert OccursAt(Lower(s), Lower(sub), i);
  }

  lemma ContainsTransitive(a: string, b: string, c: string)
    requires Contains(a, b) && Contains(b, c)
    ensures Contains(a, c)
  {
    var i :| 0 <= i <= |a| - |b| && OccursAt(a, b, i);
    var j :| 0 <= j <= |b| - |c| && OccursAt(b, c, j);
    forall k | 0 <= k < |c|
      ensures a[i + j + k] == c[k]
    {
      assert a[i..i + |b|][j + k] == b[j + k];
      assert b[j..j + |c|][k] == c[k];
    }
    assert a[i + j..i + j + |c|] == c;
    assert OccursAt(a, c, i + j);
  }

  // ---------------------------------------------------------------------
  // The search endpoints
  // ---------------------------------------------------------------------

  /** `request.args.get(name, 'true').lower() == 'true'`. */
  function ParseFlag(arg: Option<string>): (b: bool)
    ensures arg.None? ==> b
    ensures arg.Some? ==> (b <==> Lower(arg.value) == "true")
    ensures arg.Some? && b ==> |arg.value| == 4
  {
    arg.None? || Lower(arg.value) == "true"
  }

  /** The flag ignores case: any spelling of "true" enables, and nothing
      else does. */
  lemma ParseFlagIgnoresCase(s: string)
    ensures ParseFlag(Some(s)) == ParseFlag(Some(Lower(s)))
    ensures ParseFlag(Some("True")) && ParseFlag(Some("TRUE"))
    ensures !ParseFlag(Some("")) && !ParseFlag(Some("1")) && !ParseFlag(Some("yes"))
  {
    LowerIdempotent(s);
    assert Lower("True") == "true";
    assert Lower("TRUE") == "true";
    assert Lower("yes") != "true";
  }

  /** The `entity_id` of a Solr document: absent (read as `None`), a
      scalar, or a list, as Solr returns multi-valued fields. */
  datatype EntityId = Scalar(v: Value) | Many(vs: seq<Value>)

  /** A list stands for its first element, an empty one for `None`. */
  function NormaliseEntity(e: EntityId): (v: Value)
    ensures e.Scalar? ==> v == e.v
    ensures e.Many? ==> (if |e.vs| == 0 then v == Null else v == e.vs[0])
  {
    match e
    case Scalar(x) => x
    case Many(xs) => if |xs| == 0 then Null else xs[0]
  }

  /** The loop building `pet_ids` / `appt_ids`: every document contributes
      its normalised id, and nothing else is added. */
  method CollectIds(docs: seq<EntityId>) returns (ids: set<Value>)
    ensures forall v :: v in ids <==> exists i | 0 <= i < |docs| :: NormaliseEntity(docs[i]) == v
    ensures |docs| > 0 ==> |ids| > 0
  {
    ids := {};
    var i := 0;
    while i < |docs|
      invariant 0 <= i <= |docs|
      invariant forall v :: v in ids <==> exists j | 0 <= j < i :: NormaliseEntity(docs[j]) == v
    {
      ids := ids + {NormaliseEntity(docs[i])};
      i := i + 1;
    }
    if |docs| > 0 {
      assert NormaliseEntity(docs[0]) in ids;
    }
  }

  /** `p.get('id')`. */
  function IdOf(rec: Record): Value {
    if "id" in rec then rec["id"] else Null
  }

  /** The index entries whose id Solr returned, in index order. */
  function SelectByIds(records: seq<Record>, ids: set<Value>): (r: seq<Record>)
    ensures forall x :: x in r <==> x in records && IdOf(x) in ids
    ensures SubsequenceOf(r, records)
    ensures forall x :: multiset(r)[x] == if IdOf(x) in ids then multiset(records)[x] else 0
  {
    FilterMultiset(records, x => IdOf(x) in ids);
    FilterAll(records, x => IdOf(x) in ids);
    FilterIsSubsequence(records, x => IdOf(x) in ids);
    Filter(records, x => IdOf(x) in ids)
  }

  /** The query parameters of `/api/search`; `q` is `''` when absent. */
  datatype SearchRequest = SearchRequest(q: string, pets: Option<string>, appointments: Option<string>)

  /** An empty query answers with a message and no results. */
  datatype SearchResponse = NoQuery | Found(results: Results)

  /** The normalised ids of a Solr answer. */
  function IdSet(docs: seq<EntityId>): set<Value> {
    set i | 0 <= i < |docs| :: NormaliseEntity(docs[i])
  }

  /** One category through Solr: only a non-empty answer selects anything;
      a failed or empty Solr answer gives no results, with no fallback to
      the in-memory search. */
  function SolrSelect(records: seq<Record>, enabled: bool, solr: Option<seq<EntityId>>): (r: seq<Record>)
    ensures !enabled || solr.None? || solr == Some([]) ==> r == []
    ensures enabled && solr.Some? && |solr.value| > 0 ==>
              forall x :: x in r <==>
                x in records && exists i | 0 <= i < |solr.value| :: IdOf(x) == NormaliseEntity(solr.value[i])
    ensures SubsequenceOf(r, records)
    ensures forall x :: multiset(r)[x] ==
              if enabled && solr.Some? && IdOf(x) in IdSet(solr.value) then multiset(records)[x] else 0
  {
    if enabled && solr.Some? && |solr.value| > 0 then SelectByIds(records, IdSet(solr.value)) else []
  }

  /** The same step as the source writes it: a loop collecting the ids,
      then the filter. */
  method SolrCategory(records: seq<Record>, enabled: bool, solr: Option<seq<EntityId>>)
    returns (r: seq<Record>)
    ensures r == SolrSelect(records, enabled, solr)
  {
    r := [];
    if enabled && solr.Some? && |solr.value| > 0 {
      var ids := CollectIds(solr.value);
      assert ids == IdSet(solr.value);
      r := SelectByIds(records, ids);
    }
  }

  /** `/api/search`. `solrAvailable` is the service's Solr flag; the two
      Solr answers are those of the pet and appointment queries. */
  method SearchEndpoint(index: Index, req: SearchRequest, solrAvailable: bool,
                        solrPets: Option<seq<EntityId>>, solrAppointments: Option<seq<EntityId>>)
    returns (resp: SearchResponse)
    ensures req.q == "" <==> resp == NoQuery
    ensures req.q != "" && !solrAvailable ==>
              resp == Found(InMemorySearch(index, req.q, ParseFlag(req.pets), ParseFlag(req.appointments)))
    ensures req.q != "" && solrAvailable ==>
              resp == Found(Results(SolrSelect(index.pets, ParseFlag(req.pets), solrPets),
                                    SolrSelect(index.appointments, ParseFlag(req.appointments), solrAppointments)))
    ensures resp.Found? ==>
              && SubsequenceOf(resp.results.pets, index.pets)
              && SubsequenceOf(resp.results.appointments, index.appointments)
    ensures resp.Found? && !ParseFlag(req.pets) ==> resp.results.pets == []
    ensures resp.Found? && !ParseFlag(req.appointments) ==> resp.results.appointments == []
  {
    var searchPets := ParseFlag(req.pets);
    var searchAppointments := ParseFlag(req.appointments);
    if req.q == "" {
      return NoQuery;
    }
    if solrAvailable {
      var pets := SolrCategory(index.pets, searchPets, solrPets);
      var appts := SolrCategory(index.appointments, searchAppointments, solrAppointments);
      return Found(Results(pets, appts));
    }
    var r := PerformInMemorySearch(index, req.q, searchPets, searchAppointments);
    return Found(r);
  }

  /** `/api/search/pets`: `[]` for an empty query, else the pet half of the
      in-memory search. */
  function SearchPets(index: Index, q: string): (r: seq<Record>)
    ensures q == "" ==> r == []
    ensures forall p :: p in r <==> q != "" && p in index.pets && PetMatches(q, p)
    ensures SubsequenceOf(r, index.pets)
    ensures forall p :: multiset(r)[p] == if q != "" && PetMatches(q, p) then multiset(index.pets)[p] else 0
  {
    if q == "" then [] else InMemorySearch(index, q, true, false).pets
  }

  /** `/api/search/appointments`. */
  function SearchAppointments(index: Index, q: string): (r: seq<Record>)
    ensures q == "" ==> r == []
    ensures forall a :: a in r <==> q != "" && a in index.appointments && AppointmentMatches(q, a)
    ensures SubsequenceOf(r, index.appointments)
    ensures forall a :: multiset(r)[a] ==
              if q != "" && AppointmentMatches(q, a) then multiset(index.appointments)[a] else 0
  {
    if q == "" then [] else InMemorySearch(index, q, false, true).appointments
  }

  // ---------------------------------------------------------------------
  // Index maintenance
  // ---------------------------------------------------------------------

  datatype Resync = PetResync | AppointmentResync | NoResync

  /** `process_event`'s choice: "pet" anywhere in the topic, ignoring case,
      wins over "appointment". */
  function Route(topic: string): (r: Resync)
    ensures r == PetResync <==> Contains(Lower(topic), "pet")
    ensures r == AppointmentResync <==> !Contains(Lower(topic), "pet") && Contains(Lower(topic), "appointment")
  {
    if Contains(Lower(topic), "pet") then PetResync
    else if Contains(Lower(topic), "appointment") then AppointmentResync
    else NoResync
  }

  /** A topic starting with "pet" goes to the pet resync. */
  lemma PetTopicsRouted(topic: string)
    requires |topic| >= 3 && Lower(topic[..3]) == "pet"
    ensures Route(topic) == PetResync
  {
    assert Lower(topic)[..3] == Lower(topic[..3]);
    assert OccursAt(Lower(topic), "pet", 0);
  }

  /** `sync_pets_index`: a successful fetch replaces the pet list;
      a failed one changes nothing. The result is the success flag. */
  function SyncPets(index: Index, fetched: Option<seq<Record>>): (r: (Index, bool))
    ensures r.1 <==> fetched.Some?
    ensures r.0.appointments == index.appointments
    ensures r.0.pets == (if fetched.Some? then fetched.value else index.pets)
  {
    match fetched
    case None => (index, false)
    case Some(pets) => (index.(pets := pets), true)
  }

  /** `sync_appointments_index`. */
  function SyncAppointments(index: Index, fetched: Option<seq<Record>>): (r: (Index, bool))
    ensures r.1 <==> fetched.Some?
    ensures r.0.pets == index.pets
    ensures r.0.appointments == (if fetched.Some? then fetched.value else index.appointments)
  {
    match fetched
    case None => (index, false)
    case Some(appts) => (index.(appointments := appts), true)
  }

  /** `process_event`: at most one list is refreshed, the one the topic
      routes to; the event payload is not read. */
  function ProcessEvent(index: Index, topic: string, pets: Option<seq<Record>>,
                        appointments: Option<seq<Record>>): (r: Index)
    ensures Route(topic) != PetResync ==> r.pets == index.pets
    ensures Route(topic) != AppointmentResync ==> r.appointments == index.appointments
    ensures Route(topic) == NoResync ==> r == index
    ensures Route(topic) == PetResync ==> r == SyncPets(index, pets).0
    ensures Route(topic) == AppointmentResync ==> r == SyncAppointments(index, appointments).0
  {
    match Route(topic)
    case PetResync => SyncPets(index, pets).0
    case AppointmentResync => SyncAppointments(index, appointments).0
    case NoResync => index
  }

  datatype ReindexReport = ReindexReport(success: bool, petsIndexed: nat, appointmentsIndexed: nat, solrAvailable: bool)

  /** `reindex`: both lists are refreshed, each fetched list replacing
      the indexed one; success means at least one fetch
      succeeded, and the counts are those of the index afterwards. */
  function Reindex(index: Index, pets: Option<seq<Record>>, appointments: Option<seq<Record>>,
                   solrAvailable: bool): (r: (Index, ReindexReport))
    ensures r.1.success <==> pets.Some? || appointments.Some?
    ensures r.1.petsIndexed == |r.0.pets| && r.1.appointmentsIndexed == |r.0.appointments|
    ensures pets.None? ==> r.0.pets == index.pets
    ensures appointments.None? ==> r.0.appointments == index.appointments
    ensures pets.Some? ==> r.0.pets == pets.value
    ensures appointments.Some? ==> r.0.appointments == appointments.value
    ensures !r.1.success ==> r.0 == index
    ensures r.1.solrAvailable == solrAvailable
  {
    var (i1, petsSynced) := SyncPets(index, pets);
    var (i2, appointmentsSynced) := SyncAppointments(i1, appointments);
    (i2, ReindexReport(petsSynced || appointmentsSynced, |i2.pets|, |i2.appointments|, solrAvailable))
  }

  /** Reindexing with the same answers twice leaves the index as once. */
  lemma ReindexIdempotent(index: Index, pets: Option<seq<Record>>, appointments: Option<seq<Record>>, solr: bool)
    ensures var once := Reindex(index, pets, appointments, solr).0;
            Reindex(once, pets, appointments, solr).0 == once
  {
  }
}
